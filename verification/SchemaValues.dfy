/**
 * Schemas as the stringifier reads them: which values conform, and the value with its keys in the
 * order of declaration, which is the same value.
 */
module SchemaValues {
  import opened Text
  import opened Json
  import JsonReader

  datatype Node =
    | StringNode
    | BooleanNode
    | NumberNode
    | ArrayNode(items: Option<Node>)
    | ObjectNode(props: seq<Property>, required: seq<Units>)
    | OtherNode

  datatype Property = Property(key: Units, node: Node, optional: bool)

  predicate IsOptional(node: Node, p: Property)
    requires node.ObjectNode?
  {
    p.key !in node.required || p.optional
  }

  // ------------------------------------------------------------------ values of a schema

  /** `v` meets the schema; objects are closed. */
  predicate Conforms(v: Value, node: Node)
    decreases node, 1, 0
  {
    match node
    case StringNode => v.Str?
    case BooleanNode => v.Bool?
    case NumberNode => v.Num?
    case ArrayNode(None) => true
    case ArrayNode(Some(items)) => v.Arr? && forall i :: 0 <= i < |v.items| ==> Conforms(v.items[i], items)
    case ObjectNode(props, _) => v.Obj? && Closed(v.members, props) && PropsConform(v, node, |props|)
    case OtherNode => true
  }

  predicate Declared(key: Units, props: seq<Property>) {
    exists j :: 0 <= j < |props| && props[j].key == key
  }

  predicate Closed(members: seq<Member>, props: seq<Property>) {
    forall i :: 0 <= i < |members| ==> Declared(members[i].key, props)
  }

  predicate PropsConform(v: Value, node: Node, n: nat)
    requires node.ObjectNode? && v.Obj? && n <= |node.props|
    decreases node, 0, n
  {
    n == 0 ||
    (&& PropsConform(v, node, n - 1)
     && var p := node.props[n - 1];
        match Lookup(v.members, p.key)
        case None => IsOptional(node, p)
        case Some(child) => Conforms(child, p.node))
  }

  /** The value with the keys of every described object in the order of declaration. */
  function Arrange(v: Value, node: Node): Value
    decreases node, 1, 0
  {
    match node
    case ArrayNode(Some(items)) =>
      if v.Arr? then Arr(seq(|v.items|, i requires 0 <= i < |v.items| => Arrange(v.items[i], items))) else v
    case ObjectNode(props, _) => if v.Obj? then Obj(ArrangeMembers(v, node, |props|)) else v
    case _ => v
  }

  function ArrangeMembers(v: Value, node: Node, n: nat): seq<Member>
    requires node.ObjectNode? && v.Obj? && n <= |node.props|
    decreases node, 0, n
  {
    if n == 0 then []
    else
      var p := node.props[n - 1];
      var before := ArrangeMembers(v, node, n - 1);
      match Lookup(v.members, p.key)
      case None => before
      case Some(child) => before + [Member(p.key, Arrange(child, p.node))]
  }

  /**
   * An object conforms when its keys are all declared, the values there conform, and what is not
   * there was not required, or is marked as optional.
   */
  lemma {:induction false} ObjectConforms(members: seq<Member>, node: Node)
    requires node.ObjectNode?
    ensures Conforms(Obj(members), node) <==>
            && (forall i :: 0 <= i < |members| ==>
                  exists j :: 0 <= j < |node.props| && node.props[j].key == members[i].key)
            && forall j :: 0 <= j < |node.props| ==>
                 var p := node.props[j];
                 match Lookup(members, p.key)
                 case None => p.key !in node.required || p.optional
                 case Some(child) => Conforms(child, p.node)
  {
    PropsAre(Obj(members), node, |node.props|);
    hide PropsConform;
  }

  lemma {:induction false} PropsAre(v: Value, node: Node, n: nat)
    requires node.ObjectNode? && v.Obj? && n <= |node.props|
    ensures PropsConform(v, node, n) <==>
            forall j :: 0 <= j < n ==>
              match Lookup(v.members, node.props[j].key)
              case None => IsOptional(node, node.props[j])
              case Some(child) => Conforms(child, node.props[j].node)
  {
    if n > 0 {
      PropsAre(v, node, n - 1);
    }
  }

  // ------------------------------------------------------------------ the order of declaration

  /** Where `key` is declared; the number of properties when it is not. */
  function PlaceOf(props: seq<Property>, key: Units): nat {
    if props == [] then 0 else if props[0].key == key then 0 else 1 + PlaceOf(props[1..], key)
  }

  lemma {:induction false} PlaceIs(props: seq<Property>, j: nat)
    requires j < |props| && PropsDiffer(props)
    ensures PlaceOf(props, props[j].key) == j
  {
    if j > 0 {
      assert props[0].key != props[j].key;
      PlaceIs(props[1..], j - 1);
    }
  }

  /** The keys of an arranged object come in the order of declaration. */
  lemma {:induction false} ArrangedInOrder(v: Value, node: Node, n: nat, a: nat, b: nat)
    requires node.ObjectNode? && v.Obj? && n <= |node.props| && PropsDiffer(node.props)
    requires a < b < |ArrangeMembers(v, node, n)|
    ensures PlaceOf(node.props, ArrangeMembers(v, node, n)[a].key) <
            PlaceOf(node.props, ArrangeMembers(v, node, n)[b].key) < n
  {
    hide Arrange;
    var before := ArrangeMembers(v, node, n - 1);
    if b < |before| {
      ArrangedInOrder(v, node, n - 1, a, b);
    } else {
      PlaceIs(node.props, n - 1);
      ArrangedKeys(v, node, n - 1, a);
      var j :| 0 <= j < n - 1 && node.props[j].key == before[a].key;
      PlaceIs(node.props, j);
    }
  }

  // ------------------------------------------------------------------ the arranged value is the value

  predicate KeysDiffer(members: seq<Member>) {
    forall i, j :: 0 <= i < j < |members| ==> members[i].key != members[j].key
  }

  predicate PropsDiffer(props: seq<Property>) {
    forall i, j :: 0 <= i < j < |props| ==> props[i].key != props[j].key
  }

  /** Equal up to the order of object keys, with the keys of each object distinct. */
  predicate Same(v: Value, w: Value)
    decreases v
  {
    match v
    case Arr(items) =>
      w.Arr? && |w.items| == |items| && forall i :: 0 <= i < |items| ==> Same(items[i], w.items[i])
    case Obj(members) =>
      && w.Obj?
      && (forall i :: 0 <= i < |members| ==>
            var found := Lookup(w.members, members[i].key);
            found.Some? && Same(members[i].value, found.value))
      && forall j :: 0 <= j < |w.members| ==> HasKey(members, w.members[j].key)
    case _ => v == w
  }

  /** Every object has distinct keys, as objects have. */
  predicate Sound(v: Value)
    decreases v
  {
    match v
    case Arr(items) => forall i :: 0 <= i < |items| ==> Sound(items[i])
    case Obj(members) => KeysDiffer(members) && forall i :: 0 <= i < |members| ==> Sound(members[i].value)
    case _ => true
  }

  /** Property names are distinct, as object keys are. */
  predicate Proper(node: Node)
    decreases node
  {
    match node
    case ArrayNode(Some(items)) => Proper(items)
    case ObjectNode(props, _) => PropsDiffer(props) && forall i :: 0 <= i < |props| ==> Proper(props[i].node)
    case _ => true
  }

  lemma {:induction false} LookupAt(members: seq<Member>, i: nat)
    requires KeysDiffer(members) && i < |members|
    ensures Lookup(members, members[i].key) == Some(members[i].value)
  {
    if i > 0 {
      assert members[0].key != members[i].key;
      LookupAt(members[1..], i - 1);
    }
  }

  lemma {:induction false} LookupInside(members: seq<Member>, key: Units)
    ensures Lookup(members, key).Some? ==>
              exists i :: 0 <= i < |members| && members[i] == Member(key, Lookup(members, key).value)
    ensures (exists i :: 0 <= i < |members| && members[i].key == key) ==> Lookup(members, key).Some?
  {
    if members != [] {
      LookupInside(members[1..], key);
      assert members == [members[0]] + members[1..];
      if members[0].key == key {
        assert members[0] == Member(key, Lookup(members, key).value);
      } else if Lookup(members, key).Some? {
        var i :| 0 <= i < |members[1..]| && members[1..][i] == Member(key, Lookup(members[1..], key).value);
        assert members[i + 1] == Member(key, Lookup(members, key).value);
      }
      forall i | 0 <= i < |members| && members[i].key == key
        ensures Lookup(members, key).Some?
      {
        if i > 0 { assert members[1..][i - 1].key == key; }
      }
    }
  }

  lemma {:induction false} LookupAppend(members: seq<Member>, m: Member, key: Units)
    ensures Lookup(members + [m], key) ==
            if Lookup(members, key).Some? then Lookup(members, key) else if m.key == key then Some(m.value) else None
  {
    if members != [] {
      LookupAppend(members[1..], m, key);
      assert (members + [m])[1..] == members[1..] + [m];
    } else {
      assert [m][1..] == [];
    }
  }

  lemma {:induction false} SameAsItself(v: Value)
    requires Sound(v)
    ensures Same(v, v)
    decreases v
  {
    match v
    case Arr(items) =>
      forall i | 0 <= i < |items| ensures Same(items[i], items[i]) { SameAsItself(items[i]); }
    case Obj(members) =>
      forall i | 0 <= i < |members|
        ensures Lookup(members, members[i].key) == Some(members[i].value) && Same(members[i].value, members[i].value)
      {
        LookupAt(members, i);
        SameAsItself(members[i].value);
      }
    case _ =>
  }

  lemma {:induction false} PropConforms(v: Value, node: Node, n: nat, j: nat)
    requires node.ObjectNode? && v.Obj? && j < n <= |node.props| && PropsConform(v, node, n)
    ensures var found := Lookup(v.members, node.props[j].key);
            found.Some? ==> Conforms(found.value, node.props[j].node)
  {
    if j < n - 1 {
      PropConforms(v, node, n - 1, j);
    }
  }

  lemma NothingDeclared(members: seq<Member>)
    ensures members == [] || !Closed(members, [])
  {
    if members != [] {
      assert !Declared(members[0].key, []);
    }
  }

  lemma {:induction false} ArrangedLookup(v: Value, node: Node, n: nat, j: nat)
    requires node.ObjectNode? && v.Obj? && n <= |node.props| && j < |node.props| && PropsDiffer(node.props)
    ensures Lookup(ArrangeMembers(v, node, n), node.props[j].key) ==
            match Lookup(v.members, node.props[j].key)
            case None => None
            case Some(child) => if j < n then Some(Arrange(child, node.props[j].node)) else None
  {
    if n > 0 {
      ArrangedLookup(v, node, n - 1, j);
      var p := node.props[n - 1];
      var found := Lookup(v.members, p.key);
      if found.Some? {
        LookupAppend(ArrangeMembers(v, node, n - 1), Member(p.key, Arrange(found.value, p.node)), node.props[j].key);
      }
      hide Arrange;
      assert j != n - 1 ==> node.props[j].key != p.key;
    }
  }

  lemma {:induction false} ArrangedKeys(v: Value, node: Node, n: nat, i: nat)
    requires node.ObjectNode? && v.Obj? && n <= |node.props| && i < |ArrangeMembers(v, node, n)|
    ensures var m := ArrangeMembers(v, node, n)[i];
            exists j :: 0 <= j < n && node.props[j].key == m.key && HasKey(v.members, m.key)
                        && m.value == Arrange(Lookup(v.members, m.key).value, node.props[j].node)
  {
    hide Arrange;
    if n > 0 {
      var before := ArrangeMembers(v, node, n - 1);
      if i < |before| {
        ArrangedKeys(v, node, n - 1, i);
      } else {
        assert node.props[n - 1].key == ArrangeMembers(v, node, n)[i].key;
      }
    }
  }

  /** Arranging moves keys and does nothing else. */
  lemma {:induction false} ArrangeSame(v: Value, node: Node)
    requires Conforms(v, node) && Sound(v) && Proper(node)
    ensures Same(v, Arrange(v, node))
    decreases v
  {
    match node
    case ArrayNode(Some(items)) =>
      forall i | 0 <= i < |v.items|
        ensures Same(v.items[i], Arrange(v.items[i], items))
      {
        ArrangeSame(v.items[i], items);
      }
    case ObjectNode(props, _) =>
      ArrangeObject(v, node);
    case _ =>
      SameAsItself(v);
  }

  lemma {:induction false} ArrangeObject(v: Value, node: Node)
    requires node.ObjectNode? && Conforms(v, node) && Sound(v) && Proper(node)
    ensures Same(v, Arrange(v, node))
    decreases v, 0
  {
    var arranged := ArrangeMembers(v, node, |node.props|);
    assert Arrange(v, node) == Obj(arranged);
    forall i | 0 <= i < |v.members|
      ensures Lookup(arranged, v.members[i].key).Some?
      ensures Same(v.members[i].value, Lookup(arranged, v.members[i].key).value)
    {
      ArrangeMember(v, node, i);
    }
    forall j | 0 <= j < |arranged|
      ensures HasKey(v.members, arranged[j].key)
    {
      ArrangedKeys(v, node, |node.props|, j);
    }
    hide ArrangeMembers, Conforms, Sound, Proper;
  }

  lemma {:induction false} ArrangeMember(v: Value, node: Node, i: nat)
    requires node.ObjectNode? && Conforms(v, node) && Sound(v) && Proper(node) && i < |v.members|
    ensures var found := Lookup(ArrangeMembers(v, node, |node.props|), v.members[i].key);
            found.Some? && Same(v.members[i].value, found.value)
    decreases v, 0, 0
  {
    var m := v.members[i];
    assert Declared(m.key, node.props);
    var j: nat :| j < |node.props| && node.props[j].key == m.key;
    LookupAt(v.members, i);
    PropConforms(v, node, |node.props|, j);
    ArrangedLookup(v, node, |node.props|, j);
    ArrangeSame(m.value, node.props[j].node);
  }

  lemma {:induction false} ArrangeIsJson(v: Value, node: Node)
    requires Conforms(v, node) && JsonReader.IsJson(v)
    ensures JsonReader.IsJson(Arrange(v, node))
    decreases node
  {
    match node
    case ArrayNode(Some(items)) =>
      forall i | 0 <= i < |v.items|
        ensures JsonReader.IsJson(Arrange(v.items[i], items))
      {
        ArrangeIsJson(v.items[i], items);
      }
    case ObjectNode(props, _) =>
      var arranged := ArrangeMembers(v, node, |props|);
      forall i | 0 <= i < |arranged|
        ensures JsonReader.AreUnits(arranged[i].key) && JsonReader.IsJson(arranged[i].value)
      {
        ArrangedKeys(v, node, |props|, i);
        var j :| 0 <= j < |props| && props[j].key == arranged[i].key
                 && arranged[i].value == Arrange(Lookup(v.members, arranged[i].key).value, props[j].node);
        PropConforms(v, node, |props|, j);
        LookupInside(v.members, arranged[i].key);
        ArrangeIsJson(Lookup(v.members, arranged[i].key).value, props[j].node);
      }
    case _ =>
  }
}
