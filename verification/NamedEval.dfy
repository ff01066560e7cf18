/**
 * The reference semantics: evaluation by name. The innermost lexical binding
 * of a name wins, a lexical binding beats every `with`, and an inner `with`
 * beats an outer one. No level, displacement or `with` field is read.
 *
 * A recursive frame is its definitions plus the outer environment; its slots
 * are unfolded into delayed expressions at lookup.
 */
module NamedEval {
  import opened Basics
  import opened NixSyntax

  datatype Value =
    | VInt(n: int)
    | VStr(s: string)
    | VBool(b: bool)
    | VNull
    | VList(elems: Thunks)
    | VAttrs(attrs: AttrList)
    | VLambda(env: Env, param: Param, body: Expr)

  /** A delayed value: an expression in its scope, a value, or `(from).name` for a source of an `inherit`. */
  datatype Thunk =
    | Delay(env: Env, e: Expr)
    | Ready(v: Value)
    | SelectFrom(env: Env, froms: Exprs, displ: nat, name: Name)

  datatype Thunks = TNil | TCons(head: Thunk, tail: Thunks)

  datatype AttrList = ANil | ACons(name: Name, t: Thunk, rest: AttrList)

  datatype Env =
    | Empty
    | Scope(binds: Binds, froms: Exprs, up: Env)
    | WithScope(attrs: Expr, up: Env)

  datatype Binds = BNil | BCons(name: Name, slot: Slot, rest: Binds)

  /** What a name of a frame stands for: a given value, or a definition here, in the outer frame, or from a source. */
  datatype Slot = Given(t: Thunk) | Own(e: Expr) | Outer(e: Expr) | From(displ: nat)

  // ---------- frames ----------

  function SlotThunk(frame: Env, name: Name, slot: Slot): Thunk
    requires frame.Scope?
  {
    match slot
    case Given(t) => t
    case Own(e) => Delay(frame, e)
    case Outer(e) => Delay(frame.up, e)
    case From(d) => SelectFrom(frame, frame.froms, d, name)
  }

  function FindSlot(binds: Binds, name: Name): Option<Slot> {
    match binds
    case BNil => None
    case BCons(n, slot, rest) => if n == name then Some(slot) else FindSlot(rest, name)
  }

  /** The innermost lexical binding. */
  function LookupLexical(env: Env, name: Name): Option<Thunk> {
    match env
    case Empty => None
    case WithScope(_, up) => LookupLexical(up, name)
    case Scope(binds, _, up) =>
      match FindSlot(binds, name)
      case Some(slot) => Some(SlotThunk(env, name, slot))
      case None => LookupLexical(up, name)
  }

  function DefBinds(defs: Defs): Binds {
    match defs
    case NoDefs => BNil
    case Def(name, rhs, rest) =>
      var slot := match rhs
                  case Plain(e) => Own(e)
                  case Inherited(b) => Outer(Var(name, b))
                  case InheritedFrom(d) => From(d);
      BCons(name, slot, DefBinds(rest))
  }

  function RecAttrs(frame: Env, binds: Binds): AttrList
    requires frame.Scope?
  {
    match binds
    case BNil => ANil
    case BCons(name, slot, rest) => ACons(name, SlotThunk(frame, name, slot), RecAttrs(frame, rest))
  }

  function PlainAttrs(env: Env, defs: Defs, froms: Exprs): AttrList {
    match defs
    case NoDefs => ANil
    case Def(name, rhs, rest) =>
      var t := match rhs
               case Plain(e) => Delay(env, e)
               case Inherited(b) => Delay(env, Var(name, b))
               case InheritedFrom(d) => SelectFrom(env, froms, d, name);
      ACons(name, t, PlainAttrs(env, rest, froms))
  }

  function DelayAll(env: Env, es: Exprs): Thunks {
    match es
    case Nil => TNil
    case Cons(e, tail) => TCons(Delay(env, e), DelayAll(env, tail))
  }

  // ---------- attribute lists ----------

  function Get(attrs: AttrList, name: Name): Option<Thunk> {
    match attrs
    case ANil => None
    case ACons(n, t, rest) => if n == name then Some(t) else Get(rest, name)
  }

  /** One component of an attribute path: the attribute, or why there is none. */
  datatype Pick = Found(t: Thunk) | Absent(why: Error)

  function PickAttr(v: Value, name: Name): Pick {
    if !v.VAttrs? then Absent(TypeError) else
    match Get(v.attrs, name)
    case None => Absent(MissingAttr(name))
    case Some(t) => Found(t)
  }

  /** The name is evaluated before the set it is looked up in. */
  function Picked(name: Res<Name>, v: Res<Value>): Res<Pick> {
    var n :- name;
    var attrs :- v;
    Ok(PickAttr(attrs, n))
  }

  /** The attributes of `a` that `b` does not define, after those of `b`. */
  function Override(a: AttrList, b: AttrList): AttrList {
    Append(b, Without(a, b))
  }

  function Without(a: AttrList, b: AttrList): AttrList {
    match a
    case ANil => ANil
    case ACons(n, t, rest) => if Get(b, n).Some? then Without(rest, b) else ACons(n, t, Without(rest, b))
  }

  function Append(a: AttrList, b: AttrList): AttrList {
    match a
    case ANil => b
    case ACons(n, t, rest) => ACons(n, t, Append(rest, b))
  }

  function AppendThunks(a: Thunks, b: Thunks): Thunks {
    match a
    case TNil => b
    case TCons(t, tail) => TCons(t, AppendThunks(tail, b))
  }

  function Concat(a: Res<Value>, b: Res<Value>): Res<Value> {
    var va :- a;
    var vb :- b;
    if va.VList? && vb.VList? then Ok(VList(AppendThunks(va.elems, vb.elems))) else Err(TypeError)
  }

  // ---------- function parameters ----------

  function MatchFormals(formals: FormalList, attrs: AttrList): Res<Binds> {
    match formals
    case NoFormals => Ok(BNil)
    case Formal(name, def, rest) =>
      match Get(attrs, name)
      case Some(t) => var bs :- MatchFormals(rest, attrs); Ok(BCons(name, Given(t), bs))
      case None =>
        match def
        case None => Err(MissingArg(name))
        case Some(d) => var bs :- MatchFormals(rest, attrs); Ok(BCons(name, Own(d), bs))
  }

  function FirstUnexpected(attrs: AttrList, names: seq<Name>): Option<Name> {
    match attrs
    case ANil => None
    case ACons(n, _, rest) => if n in names then FirstUnexpected(rest, names) else Some(n)
  }

  function MatchParam(p: Param, arg: Thunk, attrs: AttrList): Res<Binds>
    requires p.Pattern?
  {
    var bs :- MatchFormals(p.formals, attrs);
    match FirstUnexpected(attrs, FormalNames(p.formals))
    case Some(n) => if p.ellipsis then Ok(WithAlias(p.alias, arg, bs)) else Err(UnexpectedArg(n))
    case None => Ok(WithAlias(p.alias, arg, bs))
  }

  function WithAlias(alias: Option<Name>, arg: Thunk, bs: Binds): Binds {
    match alias
    case None => bs
    case Some(n) => BCons(n, Given(arg), bs)
  }

  // ---------- evaluation ----------

  function Eval(fuel: nat, e: Expr, env: Env): Res<Value>
    decreases fuel, 0, End
  {
    if fuel == 0 then OutOfFuel else
    match e
    case IntLit(n) => Ok(VInt(n))
    case StrLit(s) => Ok(VStr(s))
    case Var(name, _) => EvalVar(fuel - 1, name, env)
    case Select(e1, path, def) => EvalSelect(fuel - 1, e1, path, def, env)
    case HasAttr(e1, path) => EvalHasAttr(fuel - 1, e1, path, env)
    case Attrs(recursive, defs, froms, dyn) => EvalAttrSet(fuel - 1, recursive, defs, froms, dyn, env)
    case ListExpr(elems) => Ok(VList(DelayAll(env, elems)))
    case Lambda(p, body) => Ok(VLambda(env, p, body))
    case Call(fun, args) => EvalCall(fuel - 1, fun, args, env)
    case Let(defs, froms, body) => Eval(fuel - 1, body, Scope(DefBinds(defs), froms, env))
    case With(attrs, body, _) => Eval(fuel - 1, body, WithScope(attrs, env))
    case If(c, t, f) => EvalIf(fuel - 1, c, t, f, env)
    case Assert(c, body) => EvalAssert(fuel - 1, c, body, env)
    case Not(e1) => EvalNot(fuel - 1, e1, env)
    case BinOp(op, e1, e2) => EvalBinOp(fuel - 1, op, e1, e2, env)
    case Update(e1, e2) => EvalUpdate(fuel - 1, e1, e2, env)
    case ConcatLists(e1, e2) => Concat(Eval(fuel - 1, e1, env), Eval(fuel - 1, e2, env))
  }

  function EvalVar(fuel: nat, name: Name, env: Env): Res<Value>
    decreases fuel, 4, End
  {
    match LookupLexical(env, name)
    case Some(t) => Force(fuel, t)
    case None => var t :- LookupWith(fuel, env, name, false); Force(fuel, t)
  }

  function EvalSelect(fuel: nat, e1: Expr, path: AttrPath, def: Option<Expr>, env: Env): Res<Value>
    decreases fuel, 4, End
  {
    var v :- Eval(fuel, e1, env);
    SelectPath(fuel, Ready(v), path, def, env)
  }

  function EvalHasAttr(fuel: nat, e1: Expr, path: AttrPath, env: Env): Res<Value>
    decreases fuel, 4, End
  {
    var v :- Eval(fuel, e1, env);
    HasPath(fuel, Ready(v), path, env)
  }

  function EvalAttrSet(fuel: nat, recursive: bool, defs: Defs, froms: Exprs, dyn: DynAttrs, env: Env): Res<Value>
    decreases fuel, 4, End
  {
    var inner := if recursive then Scope(DefBinds(defs), froms, env) else env;
    var attrs := if recursive then RecAttrs(inner, inner.binds) else PlainAttrs(env, defs, froms);
    AddDynamic(fuel, attrs, dyn, inner)
  }

  function EvalCall(fuel: nat, fun: Expr, args: Exprs, env: Env): Res<Value>
    decreases fuel, 4, End
  {
    var f :- Eval(fuel, fun, env);
    ApplyAll(fuel, f, DelayAll(env, args))
  }

  function EvalIf(fuel: nat, c: Expr, t: Expr, f: Expr, env: Env): Res<Value>
    decreases fuel, 4, End
  {
    var b :- EvalBool(fuel, c, env);
    if b then Eval(fuel, t, env) else Eval(fuel, f, env)
  }

  function EvalAssert(fuel: nat, c: Expr, body: Expr, env: Env): Res<Value>
    decreases fuel, 4, End
  {
    var b :- EvalBool(fuel, c, env);
    if b then Eval(fuel, body, env) else Err(AssertionFailed)
  }

  function EvalNot(fuel: nat, e: Expr, env: Env): Res<Value>
    decreases fuel, 4, End
  {
    var b :- EvalBool(fuel, e, env);
    Ok(VBool(!b))
  }

  function EvalBinOp(fuel: nat, op: BoolOp, e1: Expr, e2: Expr, env: Env): Res<Value>
    decreases fuel, 4, End
  {
    var b :- EvalBool(fuel, e1, env);
    if op == And && !b then Ok(VBool(false))
    else if op == Or && b then Ok(VBool(true))
    else if op == Impl && !b then Ok(VBool(true))
    else var b2 :- EvalBool(fuel, e2, env); Ok(VBool(b2))
  }

  function EvalUpdate(fuel: nat, e1: Expr, e2: Expr, env: Env): Res<Value>
    decreases fuel, 4, End
  {
    var b :- EvalAttrs(fuel, e2, env);
    var a :- EvalAttrs(fuel, e1, env);
    Ok(VAttrs(Override(a, b)))
  }

  function EvalBool(fuel: nat, e: Expr, env: Env): Res<bool>
    decreases fuel, 1, End
  {
    var v :- Eval(fuel, e, env);
    if v.VBool? then Ok(v.b) else Err(TypeError)
  }

  function EvalAttrs(fuel: nat, e: Expr, env: Env): Res<AttrList>
    decreases fuel, 1, End
  {
    var v :- Eval(fuel, e, env);
    if v.VAttrs? then Ok(v.attrs) else Err(TypeError)
  }

  function Force(fuel: nat, t: Thunk): Res<Value>
    decreases fuel, 1, End
  {
    match t
    case Delay(env, e) => Eval(fuel, e, env)
    case Ready(v) => Ok(v)
    case SelectFrom(env, froms, d, name) =>
      if fuel == 0 then OutOfFuel else
      (match Nth(froms, d)
       case None => Err(Stuck)
       case Some(from) =>
         var attrs :- EvalAttrs(fuel - 1, from, env);
         match Get(attrs, name)
         case None => Err(MissingAttr(name))
         case Some(t2) => Force(fuel - 1, t2))
  }

  /** Tries the enclosing `with`s from the innermost outwards. */
  function LookupWith(fuel: nat, env: Env, name: Name, tried: bool): Res<Thunk>
    decreases fuel, 2, env
  {
    match env
    case Empty => Err(if tried then UndefinedVar(name) else UnboundVar(name))
    case Scope(_, _, up) => LookupWith(fuel, up, name, tried)
    case WithScope(e, up) =>
      var attrs :- EvalAttrs(fuel, e, up);
      match Get(attrs, name)
      case Some(t) => Ok(t)
      case None => LookupWith(fuel, up, name, true)
  }

  /** The name of a path component; `path` must not be empty. */
  function NameOf(fuel: nat, path: AttrPath, env: Env): Res<Name>
    requires !path.End?
    decreases fuel, 2, path
  {
    match path
    case StaticName(n, _) => Ok(n)
    case DynName(e, _) =>
      var v :- Eval(fuel, e, env);
      if v.VStr? then Ok(v.s) else Err(TypeError)
  }

  function SelectPath(fuel: nat, cur: Thunk, path: AttrPath, def: Option<Expr>, env: Env): Res<Value>
    decreases fuel, 3, path, 1
  {
    if path.End? then Force(fuel, cur) else
    SelectRest(fuel, Picked(NameOf(fuel, path, env), Force(fuel, cur)), path, def, env)
  }

  /** Go on with the attribute that was picked, or with the default. */
  function SelectRest(fuel: nat, pick: Res<Pick>, path: AttrPath, def: Option<Expr>, env: Env): Res<Value>
    requires !path.End?
    decreases fuel, 3, path, 0
  {
    var p :- pick;
    match p
    case Found(t) => SelectPath(fuel, t, path.rest, def, env)
    case Absent(why) =>
      match def
      case Some(d) => Eval(fuel, d, env)
      case None => Err(why)
  }

  function HasPath(fuel: nat, cur: Thunk, path: AttrPath, env: Env): Res<Value>
    decreases fuel, 3, path, 1
  {
    if path.End? then Ok(VBool(true)) else
    var v :- Force(fuel, cur);
    HasRest(fuel, Picked(NameOf(fuel, path, env), Ok(v)), path, env)
  }

  function HasRest(fuel: nat, pick: Res<Pick>, path: AttrPath, env: Env): Res<Value>
    requires !path.End?
    decreases fuel, 3, path, 0
  {
    var p :- pick;
    match p
    case Found(t) => HasPath(fuel, t, path.rest, env)
    case Absent(_) => Ok(VBool(false))
  }

  function AddDynamic(fuel: nat, attrs: AttrList, dyn: DynAttrs, env: Env): Res<Value>
    decreases fuel, 3, dyn
  {
    match dyn
    case NoDyn => Ok(VAttrs(attrs))
    case Dyn(ne, ve, rest) =>
      var v :- Eval(fuel, ne, env);
      if v.VNull? then AddDynamic(fuel, attrs, rest, env)
      else if !v.VStr? then Err(TypeError)
      else if Get(attrs, v.s).Some? then Err(DuplicateAttr(v.s))
      else AddDynamic(fuel, ACons(v.s, Delay(env, ve), attrs), rest, env)
  }

  function ApplyAll(fuel: nat, f: Value, args: Thunks): Res<Value>
    decreases fuel, 3, args
  {
    match args
    case TNil => Ok(f)
    case TCons(a, rest) => var r :- Apply(fuel, f, a); ApplyAll(fuel, r, rest)
  }

  function Apply(fuel: nat, f: Value, arg: Thunk): Res<Value>
    decreases fuel, 2, End
  {
    match f
    case VLambda(env, Simple(x), body) =>
      Eval(fuel, body, Scope(BCons(x, Given(arg), BNil), Nil, env))
    case VLambda(env, p, body) =>
      var v :- Force(fuel, arg);
      if !v.VAttrs? then Err(TypeError) else
      var binds :- MatchParam(p, arg, v.attrs);
      Eval(fuel, body, Scope(binds, Nil, env))
    case VAttrs(attrs) =>
      if fuel == 0 then OutOfFuel else
      (match Get(attrs, "__functor")
       case None => Err(NotAFunction)
       case Some(t) =>
         var g :- Force(fuel - 1, t);
         ApplyAll(fuel - 1, g, TCons(Ready(f), TCons(arg, TNil))))
    case _ => Err(NotAFunction)
  }
}
