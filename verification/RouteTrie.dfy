/**
 * What the router must hold for a log of registrations: the exact table and the trie. Pure: the
 * heap is in `Router`.
 */
module RouteTrie {
  import opened Text
  import opened RoutePatterns
  import opened RouteSearch
  import opened RouteAdding

  lemma ChildInjective(site: Site, key: Key)
    ensures forall s: Site, k: Key :: s.Child(k) == site.Child(key) ==> s == site && k == key
  {
    forall s: Site, k: Key | s.Child(k) == site.Child(key)
      ensures s == site && k == key
    {
      assert s.keys == s.Child(k).keys[..|s.keys|] && site.keys == site.Child(key).keys[..|site.keys|];
    }
  }

  // ------------------------------------------------------------- trie consistency

  /** One trie node; a reference to a node is its index in the heap of nodes. */
  datatype Node<T> = Node(statics: map<string, nat>, param: Option<(string, nat)>, wildcard: Option<T>,
                          value: Option<T>)

  function EmptyNode<T>(): Node<T> {
    Node(map[], None, None, None)
  }

  /** What a router holds: the exact table and the trie roots per method, and the nodes. */
  datatype Store<T> = Store(statics: map<string, map<string, T>>, tries: map<string, nat>, heap: seq<Node<T>>)

  /** What its content stands for: the registrations so far and the place of every node. */
  datatype View<T> = View(log: seq<Reg<T>>, nodes: map<Site, nat>, places: seq<Site>)

  /** The node at `site` links exactly the places one key below it and holds their first registrations. */
  ghost predicate NodeOk<T>(nodes: map<Site, nat>, log: seq<Reg<T>>, site: Site, node: Node<T>) {
    && (forall t :: t in node.statics <==> site.Child(Lit(t)) in nodes)
    && (forall t :: t in node.statics ==> node.statics[t] == nodes[site.Child(Lit(t))])
    && (node.param.Some? ==> site.Child(Param(node.param.value.0)) in nodes
                             && node.param.value.1 == nodes[site.Child(Param(node.param.value.0))])
    && (forall name :: site.Child(Param(name)) in nodes ==> node.param.Some? && node.param.value.0 == name)
    && node.value == Held(log, ValueSlot(site.verb, site.keys))
    && node.wildcard == Held(log, WildSlot(site.verb, site.keys))
  }

  /** Places are closed under prefixes and every registered pattern has its place. */
  ghost predicate Closed<T>(sites: set<Site>, log: seq<Reg<T>>) {
    && (forall s, k {:trigger s.keys[..k], s in sites} ::
        s in sites && 0 <= k <= |s.keys| ==> Site(s.verb, s.keys[..k]) in sites)
    && (forall i :: 0 <= i < |log| && !IsExact(log[i].path) ==> Site(log[i].verb, Keys(log[i].path)) in sites)
  }

  ghost predicate At<T>(heap: seq<Node<T>>, v: View<T>, s: Site)
    requires s in v.nodes
  {
    v.nodes[s] < |heap| == |v.places| && v.places[v.nodes[s]] == s && NodeOk(v.nodes, v.log, s, heap[v.nodes[s]])
  }

  ghost predicate TrieOk<T>(heap: seq<Node<T>>, v: View<T>) {
    && |heap| == |v.places|
    && Closed(v.nodes.Keys, v.log)
    && forall s {:trigger At(heap, v, s)} :: s in v.nodes ==> At(heap, v, s)
  }

  function Get<K, V>(m: map<K, V>, k: K): Option<V> {
    if k in m then Some(m[k]) else None
  }

  function LookUp<T>(statics: map<string, map<string, T>>, verb: string, path: string): Option<T> {
    if verb in statics then Get(statics[verb], path) else None
  }

  /** The store holds exactly the first registration of every slot. */
  ghost predicate Sound<T>(s: Store<T>, v: View<T>) {
    && Rooted(v.log)
    && TrieOk(s.heap, v)
    && (forall verb {:trigger Get(s.tries, verb)} :: Get(s.tries, verb) == Get(v.nodes, Top(verb)))
    && (forall verb, p {:trigger LookUp(s.statics, verb, p)} ::
        Held(v.log, ExactSlot(verb, p)) == LookUp(s.statics, verb, p))
  }

  /** Nothing is registered at or below a place without a node. */
  lemma NoRegistration<T>(sites: set<Site>, log: seq<Reg<T>>, site: Site)
    requires Closed(sites, log) && site !in sites
    ensures Held(log, ValueSlot(site.verb, site.keys)) == None
    ensures Held(log, WildSlot(site.verb, site.keys)) == None
    ensures forall segs :: NoneUnder(log, site, segs)
  {
    forall j | 0 <= j < |log| && !IsExact(log[j].path) && log[j].verb == site.verb
      ensures !(site.keys <= Keys(log[j].path))
    {
      var s := Site(log[j].verb, Keys(log[j].path));
      var n := if |site.keys| <= |s.keys| then |site.keys| else 0;
      assert s in sites && s.keys[..n] == Keys(log[j].path)[..n];
      assert Site(s.verb, s.keys[..n]) in sites;
      assert |site.keys| <= |s.keys| && s.keys[..n] != site.keys ==> !(site.keys <= s.keys);
    }
  }

  /** A place just below an existing one, or a root: no registrations, no children yet. */
  lemma FreshPlace<T>(sites: set<Site>, log: seq<Reg<T>>, child: Site)
    requires Closed(sites, log) && child !in sites
    requires child.keys != [] ==> Site(child.verb, child.keys[..|child.keys| - 1]) in sites
    ensures forall k: Key :: child.Child(k) !in sites && child.Child(k) != child
    ensures Closed(sites + {child}, log)
  {
    forall k: Key
      ensures child.Child(k) !in sites && child.Child(k) != child
    {
      var g := child.Child(k);
      assert |g.keys| != |child.keys|;
      assert g.keys[..|child.keys|] == child.keys;
    }
    var n := |child.keys|;
    assert child.keys[..n] == child.keys;
    if n > 0 {
      var parent := Site(child.verb, child.keys[..n - 1]);
      assert forall k :: 0 <= k < n ==> child.keys[..k] == parent.keys[..k];
    }
  }

  /** `after` is `before` linked to `next` under `key`. */
  ghost predicate Links<T>(before: Node<T>, key: Key, next: nat, after: Node<T>) {
    && before.value == after.value && before.wildcard == after.wildcard
    && (key.Lit? ==> after.param == before.param && after.statics == before.statics[key.text := next])
    && (key.Param? ==> before.param.None? && after.param == Some((key.name, next)) && after.statics == before.statics)
  }

  lemma ParentOk<T>(nodes: map<Site, nat>, log: seq<Reg<T>>, site: Site, key: Key, next: nat, before: Node<T>,
                    after: Node<T>)
    requires NodeOk(nodes, log, site, before) && site.Child(key) !in nodes && Links(before, key, next, after)
    ensures NodeOk(nodes[site.Child(key) := next], log, site, after)
  {
    ChildInjective(site, key);
  }

  lemma ElsewhereOk<T>(nodes: map<Site, nat>, log: seq<Reg<T>>, place: Site, next: nat, s: Site, node: Node<T>)
    requires NodeOk(nodes, log, s, node) && forall k: Key :: s.Child(k) != place
    ensures NodeOk(nodes[place := next], log, s, node)
  {
  }

  function Extend<T>(v: View<T>, place: Site): View<T> {
    View(v.log, v.nodes[place := |v.places|], v.places + [place])
  }

  /** Linking a fresh node below `site` keeps the trie consistent. */
  lemma AttachOk<T>(heap: seq<Node<T>>, v: View<T>, site: Site, key: Key, grown: Node<T>)
    requires TrieOk(heap, v) && site in v.nodes && site.Child(key) !in v.nodes
    requires At(heap, v, site) && Links(heap[v.nodes[site]], key, |heap|, grown)
    ensures TrieOk(heap[v.nodes[site] := grown] + [EmptyNode()], Extend(v, site.Child(key)))
  {
    var child := site.Child(key);
    var heap', v' := heap[v.nodes[site] := grown] + [EmptyNode()], Extend(v, child);
    assert child.keys[..|child.keys| - 1] == site.keys;
    FreshPlace(v.nodes.Keys, v.log, child);
    NoRegistration(v.nodes.Keys, v.log, child);
    ParentOk(v.nodes, v.log, site, key, |heap|, heap[v.nodes[site]], grown);
    ChildInjective(site, key);
    assert v'.nodes.Keys == v.nodes.Keys + {child};
    forall s | s in v'.nodes
      ensures At(heap', v', s)
    {
      if s != child && s != site {
        assert At(heap, v, s);
        ElsewhereOk(v.nodes, v.log, child, |heap|, s, heap[v.nodes[s]]);
      }
    }
  }

  /** A new root has no registrations and no children. */
  lemma RootOk<T>(heap: seq<Node<T>>, v: View<T>, verb: string)
    requires TrieOk(heap, v) && Top(verb) !in v.nodes
    ensures TrieOk(heap + [EmptyNode()], Extend(v, Top(verb)))
  {
    var top := Top(verb);
    var heap', v' := heap + [EmptyNode()], Extend(v, top);
    FreshPlace(v.nodes.Keys, v.log, top);
    NoRegistration(v.nodes.Keys, v.log, top);
    assert v'.nodes.Keys == v.nodes.Keys + {top};
    forall s | s in v'.nodes
      ensures At(heap', v', s)
    {
      if s != top {
        assert At(heap, v, s);
        ElsewhereOk(v.nodes, v.log, top, |heap|, s, heap[v.nodes[s]]);
      }
    }
  }

  /** A node with the value of `reg` stored, unless one is there already. */
  function Stored<T>(node: Node<T>, reg: Reg<T>): Node<T> {
    if IsWild(reg.path) then (if node.wildcard.None? then node.(wildcard := Some(reg.value)) else node)
    else (if node.value.None? then node.(value := Some(reg.value)) else node)
  }

  lemma StoreOk<T>(heap: seq<Node<T>>, v: View<T>, reg: Reg<T>)
    requires TrieOk(heap, v) && !IsExact(reg.path) && Site(reg.verb, Keys(reg.path)) in v.nodes
    ensures var n := v.nodes[Site(reg.verb, Keys(reg.path))];
            n < |heap| && TrieOk(heap[n := Stored(heap[n], reg)], v.(log := v.log + [reg]))
  {
    hide Held, Keys, IsExact, IsWild;
    var site := Site(reg.verb, Keys(reg.path));
    assert At(heap, v, site);
    var n := v.nodes[site];
    var heap', v' := heap[n := Stored(heap[n], reg)], v.(log := v.log + [reg]);
    forall s | s in v'.nodes
      ensures At(heap', v', s)
    {
      assert At(heap, v, s);
      HeldAppend(v.log, reg, ValueSlot(s.verb, s.keys));
      HeldAppend(v.log, reg, WildSlot(s.verb, s.keys));
    }
  }

  /** An exact path changes no trie node. */
  lemma ExactOk<T>(heap: seq<Node<T>>, v: View<T>, reg: Reg<T>)
    requires TrieOk(heap, v) && IsExact(reg.path)
    ensures TrieOk(heap, v.(log := v.log + [reg]))
  {
    var v' := v.(log := v.log + [reg]);
    forall s | s in v'.nodes
      ensures At(heap, v', s)
    {
      assert At(heap, v, s);
      HeldAppend(v.log, reg, ValueSlot(s.verb, s.keys));
      HeldAppend(v.log, reg, WildSlot(s.verb, s.keys));
    }
  }

  // --------------------------------------------------------------- steps of the store

  lemma SoundAttach<T>(s: Store<T>, v: View<T>, site: Site, key: Key, grown: Node<T>)
    requires Sound(s, v) && site in v.nodes && site.Child(key) !in v.nodes
    requires v.nodes[site] < |s.heap| && Links(s.heap[v.nodes[site]], key, |s.heap|, grown)
    ensures Sound(s.(heap := s.heap[v.nodes[site] := grown] + [EmptyNode()]), Extend(v, site.Child(key)))
  {
    assert At(s.heap, v, site);
    AttachOk(s.heap, v, site, key, grown);
    assert forall verb :: Top(verb) != site.Child(key);
  }

  lemma SoundRoot<T>(s: Store<T>, v: View<T>, verb: string)
    requires Sound(s, v) && verb !in s.tries
    ensures Sound(s.(tries := s.tries[verb := |s.heap|], heap := s.heap + [EmptyNode()]), Extend(v, Top(verb)))
  {
    assert Get(s.tries, verb) == None;
    RootOk(s.heap, v, verb);
    forall o
      ensures Get(s.tries[verb := |s.heap|], o) == Get(Extend(v, Top(verb)).nodes, Top(o))
    {
      assert Get(s.tries, o) == Get(v.nodes, Top(o));
    }
  }

  lemma SoundStore<T>(s: Store<T>, v: View<T>, reg: Reg<T>)
    requires Sound(s, v) && !IsExact(reg.path) && Site(reg.verb, Keys(reg.path)) in v.nodes
    requires |reg.path| > 0 && reg.path[0] == '/'
    ensures var n := v.nodes[Site(reg.verb, Keys(reg.path))];
            n < |s.heap| && Sound(s.(heap := s.heap[n := Stored(s.heap[n], reg)]), v.(log := v.log + [reg]))
  {
    StoreOk(s.heap, v, reg);
    forall verb, p
      ensures Held(v.log + [reg], ExactSlot(verb, p)) == LookUp(s.statics, verb, p)
    {
      HeldAppend(v.log, reg, ExactSlot(verb, p));
    }
  }

  /** The exact table of a method with `path` added, unless it is there already. */
  function Tabled<T>(statics: map<string, map<string, T>>, verb: string, path: string, value: T): map<string,
                     map<string, T>> {
    var table := if verb in statics then statics[verb] else map[];
    statics[verb := if path in table then table else table[path := value]]
  }

  lemma SoundExact<T>(s: Store<T>, v: View<T>, reg: Reg<T>)
    requires Sound(s, v) && IsExact(reg.path) && |reg.path| > 0 && reg.path[0] == '/'
    ensures Sound(s.(statics := Tabled(s.statics, reg.verb, reg.path, reg.value)), v.(log := v.log + [reg]))
  {
    ExactOk(s.heap, v, reg);
    forall verb, p
      ensures Held(v.log + [reg], ExactSlot(verb, p)) ==
              LookUp(Tabled(s.statics, reg.verb, reg.path, reg.value), verb, p)
    {
      HeldAppend(v.log, reg, ExactSlot(verb, p));
      assert Held(v.log, ExactSlot(verb, p)) == LookUp(s.statics, verb, p);
    }
  }

  lemma SoundNode<T>(s: Store<T>, v: View<T>, site: Site)
    requires Sound(s, v) && site in v.nodes
    ensures v.nodes[site] < |s.heap| == |v.places| && NodeOk(v.nodes, v.log, site, s.heap[v.nodes[site]])
    ensures Closed(v.nodes.Keys, v.log)
  {
    assert At(s.heap, v, site);
  }

  lemma SoundTables<T>(s: Store<T>, v: View<T>, verb: string)
    requires Sound(s, v)
    ensures |s.heap| == |v.places| && Rooted(v.log) && Closed(v.nodes.Keys, v.log)
    ensures verb in s.tries <==> Top(verb) in v.nodes
    ensures verb in s.tries ==> s.tries[verb] == v.nodes[Top(verb)]
    ensures forall p :: Held(v.log, ExactSlot(verb, p)) == LookUp(s.statics, verb, p)
  {
    assert Get(s.tries, verb) == Get(v.nodes, Top(verb));
    assert forall p {:trigger Held(v.log, ExactSlot(verb, p))} ::
           Held(v.log, ExactSlot(verb, p)) == LookUp(s.statics, verb, p);
  }

  /** The check against the one parameter child is the check against all places. */
  lemma ConflictTest<T>(nodes: map<Site, nat>, node: Node<T>, log: seq<Reg<T>>, before: set<Site>,
                        verb: string, segs: seq<string>, i: nat)
    requires Walked(before, nodes.Keys, verb, segs, i) && i < |segs| && segs[i] != "*"
    requires NodeOk(nodes, log, Place(verb, segs, i), node)
    ensures Blocked(before, verb, segs, i) <==>
            IsParamSegment(segs[i]) && node.param.Some? && node.param.value.0 != segs[i][1..]
    ensures KeyOf(segs[i]).Param? && !Blocked(before, verb, segs, i) ==>
            !Conflicts(nodes.Keys, verb, Place(verb, segs, i).keys, KeyOf(segs[i]).name)
  {
    if IsParamSegment(segs[i]) {
      SameConflicts(before, nodes.Keys, verb, segs, i, segs[i][1..]);
    }
  }

  // ------------------------------------------------------------- names

  /** Parameters registered at one place share their name. */
  lemma SoundNames<T>(s: Store<T>, v: View<T>)
    requires Sound(s, v)
    ensures NamesAgree(v.log)
  {
    var log := v.log;
    forall i, j, k | 0 <= i < |log| && 0 <= j < |log| && log[i].verb == log[j].verb
                     && !IsExact(log[i].path) && !IsExact(log[j].path)
                     && 0 <= k < |Keys(log[i].path)| && k < |Keys(log[j].path)|
                     && Keys(log[i].path)[..k] == Keys(log[j].path)[..k]
                     && Keys(log[i].path)[k].Param? && Keys(log[j].path)[k].Param?
      ensures Keys(log[i].path)[k] == Keys(log[j].path)[k]
    {
      var site := Site(log[i].verb, Keys(log[i].path)[..k]);
      ChildPlace(s, v, i, k);
      ChildPlace(s, v, j, k);
      SoundNode(s, v, site);
    }
  }

  /**
   * Two routers that hold the same registrations, no two of them in one place, answer alike: for
   * every method and path the same registration wins in both, or none matches in both.
   */
  lemma OrderInvisible<T(!new)>(s: Store<T>, v: View<T>, t: Store<T>, w: View<T>, verb: string, request: string)
    requires Sound(s, v) && Sound(t, w) && SameRegs(v.log, w.log) && OnePerSlot(v.log)
    ensures forall reg :: Answers(v.log, verb, request, reg) <==> Answers(w.log, verb, request, reg)
    ensures IsAnswer(v.log, verb, request, None) <==> IsAnswer(w.log, verb, request, None)
  {
    SoundNames(s, v);
    SoundNames(t, w);
    hide NamesAgree, TrieOk, Wins, Candidate, Matches, SlotOf;
    forall reg
      ensures Answers(v.log, verb, request, reg) <==> Answers(w.log, verb, request, reg)
    {
      if Answers(v.log, verb, request, reg) { OrderIrrelevant(v.log, w.log, verb, request, reg); }
      if Answers(w.log, verb, request, reg) { OrderIrrelevant(w.log, v.log, verb, request, reg); }
    }
    if IsAnswer(v.log, verb, request, None) { NoneToo(v.log, w.log, verb, request); }
    if IsAnswer(w.log, verb, request, None) { NoneToo(w.log, v.log, verb, request); }
  }

  lemma NoneToo<T(!new)>(log: seq<Reg<T>>, other: seq<Reg<T>>, verb: string, request: string)
    requires SameRegs(log, other) && IsAnswer(log, verb, request, None)
    ensures IsAnswer(other, verb, request, None)
  {
    forall j: nat | j < |other|
      ensures !Candidate(other[j], verb, request)
    {
      assert other[j] in log;
    }
  }

  lemma ChildPlace<T>(s: Store<T>, v: View<T>, i: nat, k: nat)
    requires Sound(s, v) && i < |v.log| && !IsExact(v.log[i].path) && k < |Keys(v.log[i].path)|
    ensures var keys := Keys(v.log[i].path);
            Site(v.log[i].verb, keys[..k]) in v.nodes && Site(v.log[i].verb, keys[..k]).Child(keys[k]) in v.nodes
  {
    var reg := Site(v.log[i].verb, Keys(v.log[i].path));
    assert reg in v.nodes;
    assert reg.keys[..k + 1] == reg.keys[..k] + [reg.keys[k]];
    assert Site(reg.verb, reg.keys[..k]) in v.nodes;
    assert Site(reg.verb, reg.keys[..k + 1]) in v.nodes;
  }
}
