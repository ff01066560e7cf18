/**
 * The evaluator of src/libexpr/eval.cc: variables are found by going `level`
 * frames up and taking slot `displ`, or through the chain of `with` frames
 * that `bindVars` recorded. Frames hold no names.
 */
module DisplEval {
  import opened Basics
  import opened NixSyntax

  datatype Value =
    | VInt(n: int)
    | VStr(s: string)
    | VBool(b: bool)
    | VNull
    | VList(elems: Thunks)
    | VAttrs(attrs: AttrList)
    | VLambda(env: Env, param: Param, body: Expr)

  /** `InheritSelect` is `ExprSelect` over `ExprInheritFrom(displ)` in an environment of sources. */
  datatype Thunk =
    | Delay(env: Env, e: Expr)
    | Ready(v: Value)
    | InheritSelect(env: Env, displ: nat, name: Name)

  datatype Thunks = TNil | TCons(head: Thunk, tail: Thunks)

  datatype AttrList = ANil | ACons(name: Name, t: Thunk, rest: AttrList)

  /** `Env`: slots and the enclosing frame; `froms` are the sources of `inherit (from)` in a recursive frame. */
  datatype Env = Base | Frame(slots: Slots, froms: Exprs, up: Env)

  datatype Slots = SNil | SCons(slot: Slot, rest: Slots)

  datatype Slot = Given(t: Thunk) | Own(e: Expr) | Outer(e: Expr) | From(displ: nat, name: Name)

  // ---------- frames ----------

  /** `buildInheritFromEnv`: one slot per source, evaluated in the frame `up`. */
  function InheritEnv(froms: Exprs, up: Env): Env { Frame(OuterSlots(froms), Nil, up) }

  function OuterSlots(es: Exprs): Slots {
    match es
    case Nil => SNil
    case Cons(e, tail) => SCons(Outer(e), OuterSlots(tail))
  }

  function SlotThunk(frame: Env, slot: Slot): Thunk
    requires frame.Frame?
  {
    match slot
    case Given(t) => t
    case Own(e) => Delay(frame, e)
    case Outer(e) => Delay(frame.up, e)
    case From(d, name) => InheritSelect(InheritEnv(frame.froms, frame), d, name)
  }

  function SlotAt(slots: Slots, displ: nat): Option<Slot> {
    match slots
    case SNil => None
    case SCons(slot, rest) => if displ == 0 then Some(slot) else SlotAt(rest, displ - 1)
  }

  function Up(env: Env, level: nat): Env {
    if level == 0 || env.Base? then env else Up(env.up, level - 1)
  }

  /** `env->values[displ]` after `level` steps up; `None` when that leaves the chain or the frame. */
  function LookupSlot(env: Env, level: nat, displ: nat): Option<Thunk> {
    var frame := Up(env, level);
    if frame.Base? then None else
    match SlotAt(frame.slots, displ)
    case None => None
    case Some(slot) => Some(SlotThunk(frame, slot))
  }

  function DefSlots(defs: Defs): Slots {
    match defs
    case NoDefs => SNil
    case Def(name, rhs, rest) =>
      var slot := match rhs
                  case Plain(e) => Own(e)
                  case Inherited(b) => Outer(Var(name, b))
                  case InheritedFrom(d) => From(d, name);
      SCons(slot, DefSlots(rest))
  }

  function RecAttrs(frame: Env, defs: Defs, slots: Slots): AttrList
    requires frame.Frame?
  {
    match (defs, slots)
    case (Def(name, _, rest), SCons(slot, more)) => ACons(name, SlotThunk(frame, slot), RecAttrs(frame, rest, more))
    case _ => ANil
  }

  function PlainAttrs(env: Env, defs: Defs, inheritEnv: Env): AttrList {
    match defs
    case NoDefs => ANil
    case Def(name, rhs, rest) =>
      var t := match rhs
               case Plain(e) => Delay(env, e)
               case Inherited(b) => Delay(env, Var(name, b))
               case InheritedFrom(d) => InheritSelect(inheritEnv, d, name);
      ACons(name, t, PlainAttrs(env, rest, inheritEnv))
  }

  function DelayAll(env: Env, es: Exprs): Thunks {
    match es
    case Nil => TNil
    case Cons(e, tail) => TCons(Delay(env, e), DelayAll(env, tail))
  }

  // ---------- attribute lists ----------

  function Get(attrs: AttrList, name: Name): Option<Thunk> {
    match attrs
    case ANil => None
    case ACons(n, t, rest) => if n == name then Some(t) else Get(rest, name)
  }

  /** One component of an attribute path: the attribute, or why there is none. */
  datatype Pick = Found(t: Thunk) | Absent(why: Error)

  function PickAttr(v: Value, name: Name): Pick {
    if !v.VAttrs? then Absent(TypeError) else
    match Get(v.attrs, name)
    case None => Absent(MissingAttr(name))
    case Some(t) => Found(t)
  }

  /** The name is evaluated before the set it is looked up in. */
  function Picked(name: Res<Name>, v: Res<Value>): Res<Pick> {
    var n :- name;
    var attrs :- v;
    Ok(PickAttr(attrs, n))
  }

  function Override(a: AttrList, b: AttrList): AttrList {
    Append(b, Without(a, b))
  }

  function Without(a: AttrList, b: AttrList): AttrList {
    match a
    case ANil => ANil
    case ACons(n, t, rest) => if Get(b, n).Some? then Without(rest, b) else ACons(n, t, Without(rest, b))
  }

  function Append(a: AttrList, b: AttrList): AttrList {
    match a
    case ANil => b
    case ACons(n, t, rest) => ACons(n, t, Append(rest, b))
  }

  function AppendThunks(a: Thunks, b: Thunks): Thunks {
    match a
    case TNil => b
    case TCons(t, tail) => TCons(t, AppendThunks(tail, b))
  }

  function Concat(a: Res<Value>, b: Res<Value>): Res<Value> {
    var va :- a;
    var vb :- b;
    if va.VList? && vb.VList? then Ok(VList(AppendThunks(va.elems, vb.elems))) else Err(TypeError)
  }

  // ---------- function parameters ----------

  function MatchFormals(formals: FormalList, attrs: AttrList): Res<Slots> {
    match formals
    case NoFormals => Ok(SNil)
    case Formal(name, def, rest) =>
      match Get(attrs, name)
      case Some(t) => var ss :- MatchFormals(rest, attrs); Ok(SCons(Given(t), ss))
      case None =>
        match def
        case None => Err(MissingArg(name))
        case Some(d) => var ss :- MatchFormals(rest, attrs); Ok(SCons(Own(d), ss))
  }

  function FirstUnexpected(attrs: AttrList, names: seq<Name>): Option<Name> {
    match attrs
    case ANil => None
    case ACons(n, _, rest) => if n in names then FirstUnexpected(rest, names) else Some(n)
  }

  /** The slots of a call frame: the argument itself when it is named, then the formals in order. */
  function MatchParam(p: Param, arg: Thunk, attrs: AttrList): Res<Slots>
    requires p.Pattern?
  {
    var ss :- MatchFormals(p.formals, attrs);
    var slots := if p.alias.Some? then SCons(Given(arg), ss) else ss;
    match FirstUnexpected(attrs, FormalNames(p.formals))
    case Some(n) => if p.ellipsis then Ok(slots) else Err(UnexpectedArg(n))
    case None => Ok(slots)
  }

  // ---------- evaluation ----------

  function Eval(fuel: nat, e: Expr, env: Env): Res<Value>
    decreases fuel, 0, End
  {
    if fuel == 0 then OutOfFuel else
    match e
    case IntLit(n) => Ok(VInt(n))
    case StrLit(s) => Ok(VStr(s))
    case Var(name, bind) => EvalVar(fuel - 1, name, bind, env)
    case Select(e1, path, def) => EvalSelect(fuel - 1, e1, path, def, env)
    case HasAttr(e1, path) => EvalHasAttr(fuel - 1, e1, path, env)
    case Attrs(recursive, defs, froms, dyn) => EvalAttrSet(fuel - 1, recursive, defs, froms, dyn, env)
    case ListExpr(elems) => Ok(VList(DelayAll(env, elems)))
    case Lambda(p, body) => Ok(VLambda(env, p, body))
    case Call(fun, args) => EvalCall(fuel - 1, fun, args, env)
    case Let(defs, froms, body) => Eval(fuel - 1, body, Frame(DefSlots(defs), froms, env))
    case With(attrs, body, _) => Eval(fuel - 1, body, Frame(SCons(Outer(attrs), SNil), Nil, env))
    case If(c, t, f) => EvalIf(fuel - 1, c, t, f, env)
    case Assert(c, body) => EvalAssert(fuel - 1, c, body, env)
    case Not(e1) => EvalNot(fuel - 1, e1, env)
    case BinOp(op, e1, e2) => EvalBinOp(fuel - 1, op, e1, e2, env)
    case Update(e1, e2) => EvalUpdate(fuel - 1, e1, e2, env)
    case ConcatLists(e1, e2) => Concat(Eval(fuel - 1, e1, env), Eval(fuel - 1, e2, env))
  }

  function EvalVar(fuel: nat, name: Name, bind: Binding, env: Env): Res<Value>
    decreases fuel, 4, End
  {
    var t :- LookupVar(fuel, env, name, bind);
    Force(fuel, t)
  }

  function EvalSelect(fuel: nat, e1: Expr, path: AttrPath, def: Option<Expr>, env: Env): Res<Value>
    decreases fuel, 4, End
  {
    var v :- Eval(fuel, e1, env);
    SelectPath(fuel, Ready(v), path, def, env)
  }

  function EvalHasAttr(fuel: nat, e1: Expr, path: AttrPath, env: Env): Res<Value>
    decreases fuel, 4, End
  {
    var v :- Eval(fuel, e1, env);
    HasPath(fuel, Ready(v), path, env)
  }

  function EvalAttrSet(fuel: nat, recursive: bool, defs: Defs, froms: Exprs, dyn: DynAttrs, env: Env): Res<Value>
    decreases fuel, 4, End
  {
    var inner := if recursive then Frame(DefSlots(defs), froms, env) else env;
    var attrs := if recursive then RecAttrs(inner, defs, inner.slots)
                 else PlainAttrs(env, defs, InheritEnv(froms, env));
    AddDynamic(fuel, attrs, dyn, inner)
  }

  function EvalCall(fuel: nat, fun: Expr, args: Exprs, env: Env): Res<Value>
    decreases fuel, 4, End
  {
    var f :- Eval(fuel, fun, env);
    ApplyAll(fuel, f, DelayAll(env, args))
  }

  function EvalIf(fuel: nat, c: Expr, t: Expr, f: Expr, env: Env): Res<Value>
    decreases fuel, 4, End
  {
    var b :- EvalBool(fuel, c, env);
    if b then Eval(fuel, t, env) else Eval(fuel, f, env)
  }

  function EvalAssert(fuel: nat, c: Expr, body: Expr, env: Env): Res<Value>
    decreases fuel, 4, End
  {
    var b :- EvalBool(fuel, c, env);
    if b then Eval(fuel, body, env) else Err(AssertionFailed)
  }

  function EvalNot(fuel: nat, e: Expr, env: Env): Res<Value>
    decreases fuel, 4, End
  {
    var b :- EvalBool(fuel, e, env);
    Ok(VBool(!b))
  }

  function EvalBinOp(fuel: nat, op: BoolOp, e1: Expr, e2: Expr, env: Env): Res<Value>
    decreases fuel, 4, End
  {
    var b :- EvalBool(fuel, e1, env);
    if op == And && !b then Ok(VBool(false))
    else if op == Or && b then Ok(VBool(true))
    else if op == Impl && !b then Ok(VBool(true))
    else var b2 :- EvalBool(fuel, e2, env); Ok(VBool(b2))
  }

  function EvalUpdate(fuel: nat, e1: Expr, e2: Expr, env: Env): Res<Value>
    decreases fuel, 4, End
  {
    var b :- EvalAttrs(fuel, e2, env);
    var a :- EvalAttrs(fuel, e1, env);
    Ok(VAttrs(Override(a, b)))
  }

  function EvalBool(fuel: nat, e: Expr, env: Env): Res<bool>
    decreases fuel, 1, End
  {
    var v :- Eval(fuel, e, env);
    if v.VBool? then Ok(v.b) else Err(TypeError)
  }

  function EvalAttrs(fuel: nat, e: Expr, env: Env): Res<AttrList>
    decreases fuel, 1, End
  {
    var v :- Eval(fuel, e, env);
    if v.VAttrs? then Ok(v.attrs) else Err(TypeError)
  }

  function Force(fuel: nat, t: Thunk): Res<Value>
    decreases fuel, 1, End
  {
    match t
    case Delay(env, e) => Eval(fuel, e, env)
    case Ready(v) => Ok(v)
    case InheritSelect(env, d, name) =>
      if fuel == 0 then OutOfFuel else
      (match LookupSlot(env, 0, d)
       case None => Err(Stuck)
       case Some(from) =>
         var v :- Force(fuel - 1, from);
         if !v.VAttrs? then Err(TypeError) else
         match Get(v.attrs, name)
         case None => Err(MissingAttr(name))
         case Some(t2) => Force(fuel - 1, t2))
  }

  /** `lookupVar`. */
  function LookupVar(fuel: nat, env: Env, name: Name, bind: Binding): Res<Thunk>
    decreases fuel, 3, End
  {
    match bind
    case Unbound => Err(UnboundVar(name))
    case Lexical(level, displ) =>
      (match LookupSlot(env, level, displ)
       case None => Err(Stuck)
       case Some(t) => Ok(t))
    case FromWith(level, w) => WalkWiths(fuel, Up(env, level), w, name)
  }

  /** The loop of `lookupVar` over `prevWith` and `parentWith`. */
  function WalkWiths(fuel: nat, env: Env, w: WithInfo, name: Name): Res<Thunk>
    decreases fuel, 2, w
  {
    match LookupSlot(env, 0, 0)
    case None => Err(Stuck)
    case Some(t) =>
      var v :- Force(fuel, t);
      if !v.VAttrs? then Err(TypeError) else
      match Get(v.attrs, name)
      case Some(t2) => Ok(t2)
      case None =>
        match w.parentWith
        case None => Err(UndefinedVar(name))
        case Some(p) => WalkWiths(fuel, Up(env, w.prevWith), p, name)
  }

  function NameOf(fuel: nat, path: AttrPath, env: Env): Res<Name>
    requires !path.End?
    decreases fuel, 2, path
  {
    match path
    case StaticName(n, _) => Ok(n)
    case DynName(e, _) =>
      var v :- Eval(fuel, e, env);
      if v.VStr? then Ok(v.s) else Err(TypeError)
  }

  function SelectPath(fuel: nat, cur: Thunk, path: AttrPath, def: Option<Expr>, env: Env): Res<Value>
    decreases fuel, 3, path, 1
  {
    if path.End? then Force(fuel, cur) else
    SelectRest(fuel, Picked(NameOf(fuel, path, env), Force(fuel, cur)), path, def, env)
  }

  /** Go on with the attribute that was picked, or with the default. */
  function SelectRest(fuel: nat, pick: Res<Pick>, path: AttrPath, def: Option<Expr>, env: Env): Res<Value>
    requires !path.End?
    decreases fuel, 3, path, 0
  {
    var p :- pick;
    match p
    case Found(t) => SelectPath(fuel, t, path.rest, def, env)
    case Absent(why) =>
      match def
      case Some(d) => Eval(fuel, d, env)
      case None => Err(why)
  }

  function HasPath(fuel: nat, cur: Thunk, path: AttrPath, env: Env): Res<Value>
    decreases fuel, 3, path, 1
  {
    if path.End? then Ok(VBool(true)) else
    var v :- Force(fuel, cur);
    HasRest(fuel, Picked(NameOf(fuel, path, env), Ok(v)), path, env)
  }

  function HasRest(fuel: nat, pick: Res<Pick>, path: AttrPath, env: Env): Res<Value>
    requires !path.End?
    decreases fuel, 3, path, 0
  {
    var p :- pick;
    match p
    case Found(t) => HasPath(fuel, t, path.rest, env)
    case Absent(_) => Ok(VBool(false))
  }

  function AddDynamic(fuel: nat, attrs: AttrList, dyn: DynAttrs, env: Env): Res<Value>
    decreases fuel, 3, dyn
  {
    match dyn
    case NoDyn => Ok(VAttrs(attrs))
    case Dyn(ne, ve, rest) =>
      var v :- Eval(fuel, ne, env);
      if v.VNull? then AddDynamic(fuel, attrs, rest, env)
      else if !v.VStr? then Err(TypeError)
      else if Get(attrs, v.s).Some? then Err(DuplicateAttr(v.s))
      else AddDynamic(fuel, ACons(v.s, Delay(env, ve), attrs), rest, env)
  }

  function ApplyAll(fuel: nat, f: Value, args: Thunks): Res<Value>
    decreases fuel, 3, args
  {
    match args
    case TNil => Ok(f)
    case TCons(a, rest) => var r :- Apply(fuel, f, a); ApplyAll(fuel, r, rest)
  }

  function Apply(fuel: nat, f: Value, arg: Thunk): Res<Value>
    decreases fuel, 2, End
  {
    match f
    case VLambda(env, Simple(_), body) =>
      Eval(fuel, body, Frame(SCons(Given(arg), SNil), Nil, env))
    case VLambda(env, p, body) =>
      var v :- Force(fuel, arg);
      if !v.VAttrs? then Err(TypeError) else
      var slots :- MatchParam(p, arg, v.attrs);
      Eval(fuel, body, Frame(slots, Nil, env))
    case VAttrs(attrs) =>
      if fuel == 0 then OutOfFuel else
      (match Get(attrs, "__functor")
       case None => Err(NotAFunction)
       case Some(t) =>
         var g :- Force(fuel - 1, t);
         ApplyAll(fuel - 1, g, TCons(Ready(f), TCons(arg, TNil))))
    case _ => Err(NotAFunction)
  }
}
