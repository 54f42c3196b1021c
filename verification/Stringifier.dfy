/**
 * The schema compiler. The result its emitted code has to reach is the standard text of
 * `Json.Print`, with the keys of every described object in the order of declaration.
 */
module Stringifier {
  import opened Text
  import opened Json
  import opened SchemaValues
  import opened EmittedCode
  import JsonReader

  // ------------------------------------------------------------------ the compiler

  /** What `buildExpr` counts and collects. */
  datatype Gen = Gen(counter: nat, helpers: seq<HelperFn>)

  datatype Built<T> = Built(code: T, gen: Gen)

  function Fallback(acc: Access, g: Gen): (r: Built<Expr>)
    ensures g.helpers <= r.gen.helpers
  {
    Built(CallHelper(|g.helpers|, acc), g.(helpers := g.helpers + [Stringify]))
  }

  function Build(node: Node, acc: Access, g: Gen): (r: Built<Expr>)
    ensures g.helpers <= r.gen.helpers
    decreases node, 1, 0
  {
    match node
    case StringNode => Built(StringOf(0, acc), g)
    case BooleanNode => Built(BooleanOf(acc), g)
    case NumberNode => Built(NumberOf(acc), g)
    case ArrayNode(None) => Fallback(acc, g)
    case ArrayNode(Some(items)) =>
      var (v, i, out) := (V(g.counter), I(g.counter + 1), O(g.counter + 2));
      var elem := Build(items, Whole(v), g.(counter := g.counter + 3));
      Built(Invoke(ArrName, false, ArrayBody(v, i, out, elem.code), out, CLOSE_BRACKET, acc), elem.gen)
    case ObjectNode(props, _) =>
      if props == [] then Built(Literal(OPEN_BRACE + CLOSE_BRACE), g)
      else
        var (out, b) := (O(g.counter), B(g.counter + 1));
        var body := BuildProps(node, |props|, out, b, g.(counter := g.counter + 2));
        Built(Invoke(b, true, body.code, out, CLOSE_BRACE, acc), body.gen)
    case OtherNode => Fallback(acc, g)
  }

  function ArrayBody(v: Name, i: Name, out: Name, elem: Expr): Stmt {
    Then(PutText(out, OPEN_BRACKET), For(i, ArrName, ArrayStep(v, i, out, elem)))
  }

  /** The code for the first `n` properties. */
  function BuildProps(node: Node, n: nat, out: Name, b: Name, g: Gen): (r: Built<Stmt>)
    requires node.ObjectNode? && n <= |node.props|
    ensures g.helpers <= r.gen.helpers
    decreases node, 0, n
  {
    if n == 0 then Built(Then(PutText(out, OPEN_BRACE), PutFlag(FirstName, true)), g)
    else
      var before := BuildProps(node, n - 1, out, b, g);
      var p := node.props[n - 1];
      var child := Build(p.node, Get(b, p.key), before.gen);
      Built(Then(before.code, PropStep(p.key, IsOptional(node, p), out, b, child.code)), child.gen)
  }

  // ------------------------------------------------------------------ when the emitted code prints the value

  /** No absent optional property has a name every object inherits. */
  predicate Bare(v: Value, node: Node)
    decreases node, 1, 0
  {
    match node
    case ArrayNode(Some(items)) => v.Arr? ==> BareItems(v, node, |v.items|)
    case ObjectNode(props, _) => v.Obj? ==> BareProps(v, node, |props|)
    case _ => true
  }

  predicate BareItems(v: Value, node: Node, n: nat)
    requires node.ArrayNode? && node.items.Some? && v.Arr? && n <= |v.items|
    decreases node, 0, n
  {
    forall i :: 0 <= i < n ==> Bare(v.items[i], node.items.value)
  }

  predicate BareProps(v: Value, node: Node, n: nat)
    requires node.ObjectNode? && v.Obj? && n <= |node.props|
    decreases node, 0, n
  {
    n == 0 ||
    (&& BareProps(v, node, n - 1)
     && match Lookup(v.members, node.props[n - 1].key)
        case None => !Inherited(node.props[n - 1].key)
        case Some(child) => Bare(child, node.props[n - 1].node))
  }

  /** The standard text when `bare`; else longer text, or none at all. */
  predicate Fits(text: Option<Units>, standard: Units, bare: bool) {
    if bare then text == Some(standard) else text.Some? ==> |text.value| > |standard|
  }

  /** The helpers in scope: the safety test first, and those this piece of code asked for. */
  predicate InScope(g: Gen, helpers: seq<HelperFn>) {
    helpers != [] && helpers[0] == AsciiSafe && g.helpers <= helpers
  }

  /** For a conforming value the emitted code evaluates to its standard text exactly when it is bare. */
  lemma {:induction false} PrintsStandardText(node: Node, acc: Access, g: Gen, v: Value, env: Env,
                                              helpers: seq<HelperFn>)
    requires Conforms(v, node) && Read(acc, env) == Some(Js(v))
    requires InScope(Build(node, acc, g).gen, helpers)
    ensures Fits(Eval(Build(node, acc, g).code, env, helpers), Print(Arrange(v, node)), Bare(v, node))
    decreases node, 2, 0
  {
    match node
    case StringNode =>
      if IsAsciiSafe(v.s) { SafeNeedsNoEscape(v.s); }
    case BooleanNode =>
    case NumberNode =>
    case ArrayNode(None) =>
    case ArrayNode(Some(items)) =>
      PrintsArray(node, acc, g, v, env, helpers);
    case ObjectNode(props, _) =>
      if props == [] {
        NothingDeclared(v.members);
        assert OPEN_BRACE + [] + CLOSE_BRACE == OPEN_BRACE + CLOSE_BRACE;
        assert Arrange(v, node) == Obj([]);
      } else {
        PrintsObject(node, acc, g, v, env, helpers);
      }
    case OtherNode =>
  }

  // ------------------------------------------------------------------ arrays

  lemma {:induction false} PrintsArray(node: Node, acc: Access, g: Gen, v: Value, env: Env, helpers: seq<HelperFn>)
    requires node.ArrayNode? && node.items.Some? && Conforms(v, node) && Read(acc, env) == Some(Js(v))
    requires InScope(Build(node, acc, g).gen, helpers)
    ensures Fits(Eval(Build(node, acc, g).code, env, helpers), Print(Arrange(v, node)), Bare(v, node))
    decreases node, 1, 0
  {
    var (i, out) := (I(g.counter + 1), O(g.counter + 2));
    var called := env[ArrName := Val(Js(v))];
    var inner := called[out := Txt(OPEN_BRACKET)];
    assert OPEN_BRACKET + ItemsText([]) == OPEN_BRACKET;
    LoopPrints(node, g, v, 0, inner, helpers);
    var after := Loop(i, ArrName, StepOf(node, g), 0, |v.items|, inner, helpers);
    assert Exec(For(i, ArrName, StepOf(node, g)), inner, helpers) == after;
    assert Exec(PutText(out, OPEN_BRACKET), called, helpers) == Some(inner);
    hide Conforms, Loop;
    assert Exec(ArrayBody(V(g.counter), i, out, ItemOf(node, g).code), called, helpers) == after;
    assert Arrange(v, node).items[..|v.items|] == Arrange(v, node).items;
  }

  function ItemOf(node: Node, g: Gen): Built<Expr>
    requires node.ArrayNode? && node.items.Some?
  {
    Build(node.items.value, Whole(V(g.counter)), g.(counter := g.counter + 3))
  }

  /** Before iteration `k`: the text of the first `k` elements is written. */
  predicate Listed(node: Node, g: Gen, v: Value, k: nat, env: Env)
    requires node.ArrayNode? && node.items.Some? && v.Arr? && k <= |v.items|
  {
    && ArrName in env && env[ArrName] == Val(Js(v))
    && O(g.counter + 2) in env && env[O(g.counter + 2)].Txt?
    && Fits(Some(env[O(g.counter + 2)].text), OPEN_BRACKET + ItemsText(Arrange(v, node).items[..k]),
            BareItems(v, node, k))
  }

  function StepOf(node: Node, g: Gen): Stmt
    requires node.ArrayNode? && node.items.Some?
  {
    ArrayStep(V(g.counter), I(g.counter + 1), O(g.counter + 2), ItemOf(node, g).code)
  }

  lemma {:induction false} LoopPrints(node: Node, g: Gen, v: Value, k: nat, env: Env, helpers: seq<HelperFn>)
    requires node.ArrayNode? && node.items.Some? && Conforms(v, node) && k <= |v.items|
    requires InScope(ItemOf(node, g).gen, helpers) && Listed(node, g, v, k, env)
    ensures var r := Loop(I(g.counter + 1), ArrName, StepOf(node, g), k, |v.items|, env, helpers);
            if r.Some? then Listed(node, g, v, |v.items|, r.value) else !BareItems(v, node, |v.items|)
    decreases node, 0, |v.items| - k
  {
    var here := env[I(g.counter + 1) := Int(k)];
    if k < |v.items| {
      StepPrints(node, g, v, k, here, helpers);
      var next := Exec(StepOf(node, g), here, helpers);
      if next.Some? { LoopPrints(node, g, v, k + 1, next.value, helpers); }
    }
  }

  /** One iteration appends a comma when needed and the text of one element. */
  lemma {:induction false} StepPrints(node: Node, g: Gen, v: Value, k: nat, env: Env, helpers: seq<HelperFn>)
    requires node.ArrayNode? && node.items.Some? && Conforms(v, node) && k < |v.items|
    requires InScope(ItemOf(node, g).gen, helpers) && Listed(node, g, v, k, env)
    requires I(g.counter + 1) in env && env[I(g.counter + 1)] == Int(k)
    ensures var r := Exec(StepOf(node, g), env, helpers);
            if r.Some? then Listed(node, g, v, k + 1, r.value) else !BareItems(v, node, k + 1)
    decreases node, 0, 0
  {
    var (x, i, out) := (V(g.counter), I(g.counter + 1), O(g.counter + 2));
    var loaded := Loaded(x, out, v, k, env);
    PrintsStandardText(node.items.value, Whole(x), g.(counter := g.counter + 3), v.items[k], loaded, helpers);
    StepRuns(x, i, out, ItemOf(node, g).code, v, k, env, helpers);
    ListedMore(node, g, v, k, env, Eval(ItemOf(node, g).code, loaded, helpers));
    hide *;
  }

  lemma ListedMore(node: Node, g: Gen, v: Value, k: nat, env: Env, text: Option<Units>)
    requires node.ArrayNode? && node.items.Some? && v.Arr? && k < |v.items| && Listed(node, g, v, k, env)
    requires Fits(text, Print(Arrange(v.items[k], node.items.value)), Bare(v.items[k], node.items.value))
    ensures var loaded := Loaded(V(g.counter), O(g.counter + 2), v, k, env);
            var r := Appended(O(g.counter + 2), text, loaded);
            if r.Some? then Listed(node, g, v, k + 1, r.value) else !BareItems(v, node, k + 1)
  {
    var all := Arrange(v, node).items;
    assert all[k] == Arrange(v.items[k], node.items.value);
    hide Print, Arrange, Bare, ItemsText;
    ItemsMore(all, k);
  }

  lemma ItemsMore(all: seq<Value>, k: nat)
    requires k < |all|
    ensures OPEN_BRACKET + ItemsText(all[..k + 1]) ==
            OPEN_BRACKET + ItemsText(all[..k]) + (if k > 0 then COMMA else []) + Print(all[k])
  {
    ItemsSnoc(all[..k], all[k]);
    assert all[..k + 1] == all[..k] + [all[k]];
  }

  // ------------------------------------------------------------------ objects

  lemma {:induction false} PrintsObject(node: Node, acc: Access, g: Gen, v: Value, env: Env, helpers: seq<HelperFn>)
    requires node.ObjectNode? && node.props != [] && Conforms(v, node) && Read(acc, env) == Some(Js(v))
    requires InScope(Build(node, acc, g).gen, helpers)
    ensures Fits(Eval(Build(node, acc, g).code, env, helpers), Print(Arrange(v, node)), Bare(v, node))
    decreases node, 1, 0
  {
    var (out, b) := (O(g.counter), B(g.counter + 1));
    var inner := g.(counter := g.counter + 2);
    ObjectRuns(b, BuildProps(node, |node.props|, out, b, inner).code, out, acc, v, env, helpers);
    assert Build(node, acc, g).code ==
           Invoke(b, true, BuildProps(node, |node.props|, out, b, inner).code, out, CLOSE_BRACE, acc);
    hide Exec, Eval, Read, BuildProps, PropsConform, Closed;
    PropsPrint(node, |node.props|, out, b, inner, v, env[b := Val(Js(v))], helpers);
    hide Written, Fits, Arrange, Bare;
    var after := Exec(BuildProps(node, |node.props|, out, b, inner).code, env[b := Val(Js(v))], helpers);
    ObjectText(v, node, out, b, after);
  }

  lemma ObjectText(v: Value, node: Node, out: Name, b: Name, after: Option<Env>)
    requires node.ObjectNode? && v.Obj?
    requires if after.Some? then Written(v, node, |node.props|, out, b, after.value)
             else !BareProps(v, node, |node.props|)
    ensures after.Some? ==> out in after.value && after.value[out].Txt?
    ensures Fits(if after.Some? then Some(after.value[out].text + CLOSE_BRACE) else None,
                 Print(Arrange(v, node)), Bare(v, node))
  {
    assert Arrange(v, node) == Obj(ArrangeMembers(v, node, |node.props|));
    hide ArrangeMembers, BareProps, PrintMembers;
  }

  /** After the code for `n` properties: their text so far, and whether a comma is due. */
  predicate Written(v: Value, node: Node, n: nat, out: Name, b: Name, env: Env)
    requires node.ObjectNode? && v.Obj? && n <= |node.props|
  {
    && b in env && env[b] == Val(Js(v))
    && out in env && env[out].Txt?
    && Fits(Some(env[out].text), OPEN_BRACE + MembersText(ArrangeMembers(v, node, n)), BareProps(v, node, n))
    && FirstName in env && env[FirstName] == Flag(BareProps(v, node, n) && ArrangeMembers(v, node, n) == [])
  }

  lemma {:induction false} PropsPrint(node: Node, n: nat, out: Name, b: Name, g: Gen, v: Value, env: Env,
                                      helpers: seq<HelperFn>)
    requires node.ObjectNode? && v.Obj? && n <= |node.props| && PropsConform(v, node, n)
    requires out.O? && b.B? && b in env && env[b] == Val(Js(v))
    requires InScope(BuildProps(node, n, out, b, g).gen, helpers)
    ensures var r := Exec(BuildProps(node, n, out, b, g).code, env, helpers);
            if r.Some? then Written(v, node, n, out, b, r.value) else !BareProps(v, node, n)
    decreases node, 0, n
  {
    if n == 0 {
      assert Exec(PutText(out, OPEN_BRACE), env, helpers) == Some(env[out := Txt(OPEN_BRACE)]);
      assert OPEN_BRACE + MembersText([]) == OPEN_BRACE;
    } else {
      PropsPrint(node, n - 1, out, b, g, v, env, helpers);
      var before := Exec(BuildProps(node, n - 1, out, b, g).code, env, helpers);
      if before.Some? { PropPrints(node, n - 1, out, b, g, v, before.value, helpers); }
      hide Written, PropStep;
    }
  }

  /** The code for property `j`. */
  function PropCode(node: Node, j: nat, out: Name, b: Name, g: Gen): Built<Expr>
    requires node.ObjectNode? && j < |node.props|
  {
    Build(node.props[j].node, Get(b, node.props[j].key), BuildProps(node, j, out, b, g).gen)
  }

  lemma {:induction false} PropPrints(node: Node, j: nat, out: Name, b: Name, g: Gen, v: Value, env: Env,
                                      helpers: seq<HelperFn>)
    requires node.ObjectNode? && v.Obj? && j < |node.props| && PropsConform(v, node, j + 1)
    requires out.O? && b.B? && Written(v, node, j, out, b, env)
    requires InScope(PropCode(node, j, out, b, g).gen, helpers)
    ensures var p := node.props[j];
            var r := Exec(PropStep(p.key, IsOptional(node, p), out, b, PropCode(node, j, out, b, g).code),
                          env, helpers);
            if r.Some? then Written(v, node, j + 1, out, b, r.value) else !BareProps(v, node, j + 1)
    decreases node, 0, j
  {
    var p := node.props[j];
    var child := PropCode(node, j, out, b, g).code;
    var js := Read(Get(b, p.key), env);
    match Lookup(v.members, p.key)
    case None =>
      if js == Some(Method) {
        PropRuns(p.key, IsOptional(node, p), out, b, child, env, helpers);
        MoreShows(node, j, out, b, v, env, child, helpers);
      }
    case Some(value) =>
      var keyed := Keyed(p.key, out, env);
      assert Read(Get(b, p.key), keyed) == js == Some(Js(value));
      PrintsStandardText(p.node, Get(b, p.key), BuildProps(node, j, out, b, g).gen, value, keyed, helpers);
      PropRuns(p.key, IsOptional(node, p), out, b, child, env, helpers);
      WrittenMore(node, j, out, b, v, env, Member(p.key, Arrange(value, p.node)), Eval(child, keyed, helpers),
                  Bare(value, p.node));
  }

  /** An inherited property shows where the value has none. */
  lemma MoreShows(node: Node, j: nat, out: Name, b: Name, v: Value, env: Env, child: Expr, helpers: seq<HelperFn>)
    requires node.ObjectNode? && v.Obj? && j < |node.props| && out.O? && b.B? && Written(v, node, j, out, b, env)
    requires Lookup(v.members, node.props[j].key).None? && Inherited(node.props[j].key)
    ensures var keyed := Keyed(node.props[j].key, out, env);
            var r := Appended(out, Eval(child, keyed, helpers), keyed);
            r.Some? ==> Written(v, node, j + 1, out, b, r.value)
  {
    hide MembersText, Eval, Quote, Inherited;
  }

  lemma WrittenMore(node: Node, j: nat, out: Name, b: Name, v: Value, env: Env, m: Member,
                    text: Option<Units>, bare: bool)
    requires node.ObjectNode? && v.Obj? && j < |node.props| && out.O? && b.B? && Written(v, node, j, out, b, env)
    requires ArrangeMembers(v, node, j + 1) == ArrangeMembers(v, node, j) + [m]
    requires Fits(text, Print(m.value), bare) && (BareProps(v, node, j + 1) <==> BareProps(v, node, j) && bare)
    ensures var keyed := Keyed(m.key, out, env);
            var r := Appended(out, text, keyed);
            if r.Some? then Written(v, node, j + 1, out, b, r.value) else !BareProps(v, node, j + 1)
  {
    hide ArrangeMembers, MembersText, Print, Quote, BareProps;
    var members := ArrangeMembers(v, node, j);
    MembersSnoc(members, m);
    Regroup(OPEN_BRACE, MembersText(members), if members != [] then COMMA else [], Quote(m.key), Print(m.value));
  }

  lemma Regroup(open: Units, before: Units, comma: Units, key: Units, text: Units)
    ensures open + before + comma + (key + COLON) + text == open + (before + comma + key + COLON + text)
  {
  }

  // ------------------------------------------------------------------ the compiled function

  /** The generated function for `schema`. */
  function Compiled(schema: Node): Built<Expr> {
    Build(schema, Whole(ValueName), Gen(0, [AsciiSafe]))
  }

  function Run(schema: Node, v: JsValue): Option<Units> {
    Eval(Compiled(schema).code, map[ValueName := Val(v)], Compiled(schema).gen.helpers)
  }

  /**
   * Stringifying a conforming value gives standard text exactly when no absent optional property
   * has an inherited name; and reading that text gives the value back.
   */
  lemma StringifiesConforming(schema: Node, v: Value)
    requires Conforms(v, schema)
    ensures Run(schema, Js(v)) == Some(Print(Arrange(v, schema))) <==> Bare(v, schema)
    ensures Bare(v, schema) && Sound(v) && Proper(schema) && JsonReader.IsJson(v) ==>
              var back := JsonReader.Read(Run(schema, Js(v)).value);
              back.Some? && back.value.rest == [] && Same(v, back.value.value)
  {
    var env := map[ValueName := Val(Js(v))];
    assert Compiled(schema).gen.helpers[0] == AsciiSafe;
    PrintsStandardText(schema, Whole(ValueName), Gen(0, [AsciiSafe]), v, env, Compiled(schema).gen.helpers);
    if Sound(v) && Proper(schema) && JsonReader.IsJson(v) {
      ArrangeSame(v, schema);
      ArrangeIsJson(v, schema);
      JsonReader.RoundTrip(Arrange(v, schema), []);
      assert Print(Arrange(v, schema)) + [] == Print(Arrange(v, schema));
    }
  }

  /** An optional string of such a name: the empty object does not come out as `{}`. */
  lemma InheritedNameShows(schema: Node, name: string)
    requires name in {"constructor", "hasOwnProperty", "isPrototypeOf", "propertyIsEnumerable", "toLocaleString",
                      "toString", "valueOf", "__defineGetter__", "__defineSetter__", "__lookupGetter__",
                      "__lookupSetter__", "__proto__"}
    requires schema == ObjectNode([Property(UnitsOf(name), StringNode, true)], [])
    ensures Conforms(Obj([]), schema) && Run(schema, Js(Obj([]))) != Some([0x7b, 0x7d])
  {
    assert Inherited(UnitsOf(name));
    assert PropsConform(Obj([]), schema, 0) && BareProps(Obj([]), schema, 0)
           && ArrangeMembers(Obj([]), schema, 0) == [];
    StringifiesConforming(schema, Obj([]));
    EmptyText();
    hide Run, Print, Inherited, UnitsOf;
  }

  /** Where an object with properties is expected, null prints as null. */
  lemma NullForObject(schema: Node)
    requires schema.ObjectNode? && schema.props != []
    ensures Run(schema, Js(Null)) == Some(Print(Null)) && Run(schema, Undefined) == Some(NULL_TEXT)
  {
  }

  /** Where a number is expected, one that is not finite prints as null. */
  lemma NullForNotFinite(isNaN: bool)
    ensures Run(NumberNode, Js(Num(NotFinite(isNaN)))) == Some(Print(Null))
  {
  }

  /** An object schema without properties prints braces for anything: right for the empty object only. */
  lemma BracesForAnything(schema: Node, v: Value)
    requires schema.ObjectNode? && schema.props == [] && JsonReader.IsJson(v)
    ensures Run(schema, Js(v)) == Some(OPEN_BRACE + CLOSE_BRACE)
    ensures Run(schema, Js(v)) == Some(Print(v)) <==> v == Obj([])
  {
    assert OPEN_BRACE + [] + CLOSE_BRACE == OPEN_BRACE + CLOSE_BRACE;
    if Print(v) == OPEN_BRACE + CLOSE_BRACE {
      JsonReader.PrintInjective(v, Obj([]));
    }
  }

  // ------------------------------------------------------------------ the compiler as it runs

  /** One compilation: its counter of names and its helpers. */
  class Compiler {
    var counter: nat
    var helpers: seq<HelperFn>

    constructor ()
      ensures counter == 0 && helpers == [AsciiSafe]
    {
      counter, helpers := 0, [AsciiSafe];
    }

    method AddHelper(fn: HelperFn) returns (index: nat)
      modifies this`helpers
      ensures index == |old(helpers)| && helpers == old(helpers) + [fn]
    {
      index := |helpers|;
      helpers := helpers + [fn];
    }

    method BuildExpr(node: Node, acc: Access) returns (code: Expr)
      modifies this
      ensures Built(code, Gen(counter, helpers)) == Build(node, acc, old(Gen(counter, helpers)))
      decreases node
    {
      match node
      case StringNode => code := StringOf(0, acc);
      case BooleanNode => code := BooleanOf(acc);
      case NumberNode => code := NumberOf(acc);
      case ArrayNode(None) =>
        var h := AddHelper(Stringify);
        code := CallHelper(h, acc);
      case ArrayNode(Some(items)) =>
        var (v, i, out) := (V(counter), I(counter + 1), O(counter + 2));
        counter := counter + 3;
        var elem := BuildExpr(items, Whole(v));
        code := Invoke(ArrName, false, ArrayBody(v, i, out, elem), out, CLOSE_BRACKET, acc);
      case ObjectNode(props, _) =>
        if props == [] { return Literal(OPEN_BRACE + CLOSE_BRACE); }
        var (out, b) := (O(counter), B(counter + 1));
        counter := counter + 2;
        ghost var g := Gen(counter, helpers);
        var body := Then(PutText(out, OPEN_BRACE), PutFlag(FirstName, true));
        var k := 0;
        while k < |props|
          invariant k <= |props| && Built(body, Gen(counter, helpers)) == BuildProps(node, k, out, b, g)
        {
          var child := BuildExpr(props[k].node, Get(b, props[k].key));
          body := Then(body, PropStep(props[k].key, IsOptional(node, props[k]), out, b, child));
          k := k + 1;
        }
        code := Invoke(b, true, body, out, CLOSE_BRACE, acc);
      case OtherNode =>
        var h := AddHelper(Stringify);
        code := CallHelper(h, acc);
    }
  }

  method CompileStringifier(schema: Node) returns (code: Expr, helpers: seq<HelperFn>)
    ensures code == Compiled(schema).code && helpers == Compiled(schema).gen.helpers
  {
    var c := new Compiler();
    code := c.BuildExpr(schema, Whole(ValueName));
    helpers := c.helpers;
  }
}
