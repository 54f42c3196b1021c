/**
 * The JavaScript the stringifier compiler emits, as a small syntax of its own with an evaluator.
 */
module EmittedCode {
  import opened Text
  import opened Json

  /** Variables of the emitted code: `value`, `arr`, `__first`, `v0`, `i1`, `o2`, `b3`, … */
  datatype Name = ValueName | ArrName | FirstName | V(n: nat) | I(n: nat) | O(n: nat) | B(n: nat)

  datatype Access = Whole(name: Name) | Get(name: Name, key: Units)

  datatype HelperFn = AsciiSafe | Stringify

  datatype Expr =
    | Literal(text: Units)
    | StringOf(safe: nat, acc: Access)
    | BooleanOf(acc: Access)
    | NumberOf(acc: Access)
    | CallHelper(helper: nat, acc: Access)
    /** `(function(param){ body; return out + close; })(acc)`, for objects with the nullish test. */
    | Invoke(param: Name, nullable: bool, body: Stmt, out: Name, close: Units, acc: Access)

  datatype Stmt =
    | Skip
    | Then(first: Stmt, second: Stmt)
    | PutText(out: Name, text: Units)
    | PutFlag(flag: Name, b: bool)
    | Append(out: Name, text: Units)
    | AppendExpr(out: Name, expr: Expr)
    | IfPositive(i: Name, body: Stmt)
    | UnlessFlag(flag: Name, body: Stmt)
    | IfDefined(acc: Access, body: Stmt)
    | Load(v: Name, arr: Name, i: Name)
    | For(i: Name, arr: Name, body: Stmt)

  // ------------------------------------------------------------------ running it

  /** `Method` stands for the functions every object inherits. */
  datatype JsValue = Undefined | Method | Js(value: Value)

  datatype Slot = Val(js: JsValue) | Txt(text: Units) | Int(n: nat) | Flag(b: bool)

  type Env = map<Name, Slot>

  /** The methods of `Object.prototype`: reading a missing key of such a name finds them. */
  predicate IsMethod(key: Units) {
    exists s :: UnitsOf(s) == key &&
      s in {"constructor", "hasOwnProperty", "isPrototypeOf", "propertyIsEnumerable", "toLocaleString", "toString",
            "valueOf", "__defineGetter__", "__defineSetter__", "__lookupGetter__", "__lookupSetter__"}
  }

  predicate Inherited(key: Units) {
    IsMethod(key) || key == UnitsOf("__proto__")
  }

  /** What an object gives for a key; `None` for the prototype itself. */
  function PropertyOf(members: seq<Member>, key: Units): Option<JsValue> {
    match Lookup(members, key)
    case Some(v) => Some(Js(v))
    case None => if IsMethod(key) then Some(Method) else if Inherited(key) then None else Some(Undefined)
  }

  /** `None` where reading throws, or finds what only other values than objects have. */
  function Read(acc: Access, env: Env): Option<JsValue> {
    if acc.name !in env || !env[acc.name].Val? then None
    else
      match acc
      case Whole(name) => Some(env[name].js)
      case Get(name, key) =>
        if env[name].js.Js? && env[name].js.value.Obj? then PropertyOf(env[name].js.value.members, key) else None
  }

  predicate SafeUnit(c: nat) {
    0x20 <= c < 0x7f && c != 0x22 && c != 0x5c
  }

  predicate IsAsciiSafe(s: Units) {
    forall i :: 0 <= i < |s| ==> SafeUnit(s[i])
  }

  lemma {:induction false} SafeNeedsNoEscape(s: Units)
    requires IsAsciiSafe(s)
    ensures Escape(s) == s
  {
    if s != [] {
      assert SafeUnit(s[0]);
      assert forall i :: 0 <= i < |s[1..]| ==> SafeUnit(s[1..][i]) by {
        assert forall i :: 0 <= i < |s[1..]| ==> s[1..][i] == s[i + 1];
      }
      SafeNeedsNoEscape(s[1..]);
      assert s == [s[0]] + s[1..];
    }
  }

  method TestAsciiSafe(s: Units) returns (safe: bool)
    ensures safe == IsAsciiSafe(s)
  {
    var i := 0;
    while i < |s|
      invariant i <= |s| && forall k :: 0 <= k < i ==> SafeUnit(s[k])
    {
      var c := s[i];
      if c < 0x20 || c >= 0x7f || c == 0x22 || c == 0x5c { return false; }
      i := i + 1;
    }
    safe := true;
  }

  predicate Truthy(js: JsValue) {
    match js
    case Undefined => false
    case Method => true
    case Js(Null) => false
    case Js(Bool(b)) => b
    case Js(Num(Finite(text))) => text != ZERO_TEXT
    case Js(Num(NotFinite(isNaN))) => !isNaN
    case Js(Str(s)) => s != []
    case Js(_) => true
  }

  /** `JSON.stringify` where its result is concatenated. */
  function StringifyText(js: JsValue): Units {
    match js
    case Js(v) => Print(v)
    case _ => UNDEFINED_TEXT
  }

  function NumberText(js: JsValue): Units {
    if js.Js? && js.value.Num? && js.value.n.Finite? then js.value.n.text else NULL_TEXT
  }

  /** The text an emitted expression evaluates to; `None` when it throws or leaves this model. */
  function Eval(e: Expr, env: Env, helpers: seq<HelperFn>): Option<Units>
    decreases e, 0, 0
  {
    match e
    case Literal(text) => Some(text)
    case StringOf(safe, acc) =>
      (match Read(acc, env)
       case None => None
       case Some(js) =>
         if safe >= |helpers| || helpers[safe] != AsciiSafe then None
         else if js.Js? && js.value.Str? && IsAsciiSafe(js.value.s) then Some([0x22] + js.value.s + [0x22])
         else Some(StringifyText(js)))
    case BooleanOf(acc) =>
      (match Read(acc, env)
       case None => None
       case Some(js) => Some(if Truthy(js) then TRUE_TEXT else FALSE_TEXT))
    case NumberOf(acc) =>
      (match Read(acc, env)
       case None => None
       case Some(js) => Some(NumberText(js)))
    case CallHelper(helper, acc) =>
      (match Read(acc, env)
       case None => None
       case Some(js) => if helper >= |helpers| || helpers[helper] != Stringify then None else Some(StringifyText(js)))
    case Invoke(param, nullable, body, out, close, acc) =>
      (match Read(acc, env)
       case None => None
       case Some(js) =>
         if nullable && (js == Undefined || js == Js(Null)) then Some(NULL_TEXT)
         else
           match Exec(body, env[param := Val(js)], helpers)
           case None => None
           case Some(after) => if out in after && after[out].Txt? then Some(after[out].text + close) else None)
  }

  function Exec(s: Stmt, env: Env, helpers: seq<HelperFn>): Option<Env>
    decreases s, 0, 0
  {
    match s
    case Skip => Some(env)
    case Then(first, second) =>
      (match Exec(first, env, helpers)
       case None => None
       case Some(after) => Exec(second, after, helpers))
    case PutText(out, text) => Some(env[out := Txt(text)])
    case PutFlag(flag, b) => Some(env[flag := Flag(b)])
    case Append(out, text) => Appended(out, Some(text), env)
    case AppendExpr(out, expr) => Appended(out, Eval(expr, env, helpers), env)
    case IfPositive(i, body) =>
      if i !in env || !env[i].Int? then None else if env[i].n > 0 then Exec(body, env, helpers) else Some(env)
    case UnlessFlag(flag, body) =>
      if flag !in env || !env[flag].Flag? then None else if env[flag].b then Some(env) else Exec(body, env, helpers)
    case IfDefined(acc, body) =>
      (match Read(acc, env)
       case None => None
       case Some(js) => if js == Undefined then Some(env) else Exec(body, env, helpers))
    case Load(v, arr, i) =>
      if i !in env || !env[i].Int? || !IsArray(arr, env) then None
      else
        var items := env[arr].js.value.items;
        Some(env[v := Val(if env[i].n < |items| then Js(items[env[i].n]) else Undefined)])
    case For(i, arr, body) =>
      if IsArray(arr, env) then Loop(i, arr, body, 0, |env[arr].js.value.items|, env, helpers) else None
  }

  predicate IsArray(arr: Name, env: Env) {
    arr in env && env[arr].Val? && env[arr].js.Js? && env[arr].js.value.Arr?
  }

  function Appended(out: Name, text: Option<Units>, env: Env): Option<Env> {
    if text.None? || out !in env || !env[out].Txt? then None else Some(env[out := Txt(env[out].text + text.value)])
  }

  /** The iterations from `k` on of a loop over `n` elements. */
  function Loop(i: Name, arr: Name, body: Stmt, k: nat, n: nat, env: Env, helpers: seq<HelperFn>): Option<Env>
    requires k <= n
    decreases body, 1, n - k
  {
    var here := env[i := Int(k)];
    if k == n then Some(here)
    else
      match Exec(body, here, helpers)
      case None => None
      case Some(after) => Loop(i, arr, body, k + 1, n, after, helpers)
  }

  // ------------------------------------------------------------------ the two fragments with control flow

  function ArrayStep(v: Name, i: Name, out: Name, elem: Expr): Stmt {
    Then(IfPositive(i, Append(out, COMMA)), Then(Load(v, ArrName, i), AppendExpr(out, elem)))
  }

  /** After the comma and the assignment of the element variable. */
  function Loaded(x: Name, out: Name, v: Value, k: nat, env: Env): Env
    requires out in env && env[out].Txt? && v.Arr? && k < |v.items|
  {
    env[out := Txt(env[out].text + if k > 0 then COMMA else [])][x := Val(Js(v.items[k]))]
  }

  lemma StepRuns(x: Name, i: Name, out: Name, elem: Expr, v: Value, k: nat, env: Env, helpers: seq<HelperFn>)
    requires x.V? && i.I? && out.O? && v.Arr? && k < |v.items|
    requires ArrName in env && env[ArrName] == Val(Js(v)) && i in env && env[i] == Int(k) && out in env && env[out].Txt?
    ensures var loaded := Loaded(x, out, v, k, env);
            Exec(ArrayStep(x, i, out, elem), env, helpers) == Appended(out, Eval(elem, loaded, helpers), loaded)
  {
    hide Eval;
    var commaed := env[out := Txt(env[out].text + if k > 0 then COMMA else [])];
    assert k == 0 ==> commaed == env by { assert env[out].text + [] == env[out].text; }
    assert Exec(IfPositive(i, Append(out, COMMA)), env, helpers) == Some(commaed);
    var loaded := Loaded(x, out, v, k, env);
    assert Exec(Load(x, ArrName, i), commaed, helpers) == Some(loaded);
    assert Exec(Then(Load(x, ArrName, i), AppendExpr(out, elem)), commaed, helpers) ==
           Exec(AppendExpr(out, elem), loaded, helpers);
  }

  function PropStep(key: Units, optional: bool, out: Name, b: Name, child: Expr): Stmt {
    var emit := Then(Then(UnlessFlag(FirstName, Append(out, COMMA)), PutFlag(FirstName, false)),
                     Then(Append(out, Quote(key) + COLON), AppendExpr(out, child)));
    if optional then IfDefined(Get(b, key), emit) else emit
  }

  /** A comma unless this is the first member, then the key. */
  function Keyed(key: Units, out: Name, env: Env): Env
    requires out in env && env[out].Txt? && FirstName in env && env[FirstName].Flag?
  {
    env[FirstName := Flag(false)]
       [out := Txt(env[out].text + (if env[FirstName].b then [] else COMMA) + (Quote(key) + COLON))]
  }

  lemma PropRuns(key: Units, optional: bool, out: Name, b: Name, child: Expr, env: Env, helpers: seq<HelperFn>)
    requires out.O? && b.B? && out in env && env[out].Txt? && FirstName in env && env[FirstName].Flag?
    requires Read(Get(b, key), env).Some? && Read(Get(b, key), env) != Some(Undefined)
    ensures var keyed := Keyed(key, out, env);
            Exec(PropStep(key, optional, out, b, child), env, helpers) ==
            Appended(out, Eval(child, keyed, helpers), keyed)
  {
    hide Read, Eval, Quote;
    var keyed := Keyed(key, out, env);
    var cleared := CommaRuns(out, env, helpers);
    assert cleared[out := Txt(cleared[out].text + (Quote(key) + COLON))] == keyed;
    assert Exec(Append(out, Quote(key) + COLON), cleared, helpers) == Some(keyed);
    assert Exec(Then(Append(out, Quote(key) + COLON), AppendExpr(out, child)), cleared, helpers)
        == Exec(AppendExpr(out, child), keyed, helpers);
  }

  lemma CommaRuns(out: Name, env: Env, helpers: seq<HelperFn>) returns (cleared: Env)
    requires out.O? && out in env && env[out].Txt? && FirstName in env && env[FirstName].Flag?
    ensures cleared == env[FirstName := Flag(false)][out := Txt(env[out].text + if env[FirstName].b then [] else COMMA)]
    ensures Exec(Then(UnlessFlag(FirstName, Append(out, COMMA)), PutFlag(FirstName, false)), env, helpers) ==
            Some(cleared)
  {
    hide Read, Eval;
    var commaed := if env[FirstName].b then env else env[out := Txt(env[out].text + COMMA)];
    assert env[out].text + [] == env[out].text;
    assert Exec(UnlessFlag(FirstName, Append(out, COMMA)), env, helpers) == Some(commaed);
    cleared := commaed[FirstName := Flag(false)];
  }

  lemma ObjectRuns(b: Name, body: Stmt, out: Name, acc: Access, v: Value, env: Env, helpers: seq<HelperFn>)
    requires Read(acc, env) == Some(Js(v)) && v.Obj?
    ensures Eval(Invoke(b, true, body, out, CLOSE_BRACE, acc), env, helpers) ==
            match Exec(body, env[b := Val(Js(v))], helpers)
            case None => None
            case Some(after) => if out in after && after[out].Txt? then Some(after[out].text + CLOSE_BRACE) else None
  {
    hide Exec, Read;
  }
}
