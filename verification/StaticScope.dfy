/**
 * `bindVars`: names are resolved to levels and displacements
 * (src/libexpr/nixexpr.cc).
 */
module StaticScope {
  import opened Basics
  import opened NixSyntax

  /**
   * `StaticEnv`. `vars[d]` is the name with displacement `d`; a frame made by
   * `with` binds no names and carries that expression's fields.
   */
  datatype StaticEnv = Top | Frame(isWith: Option<WithInfo>, vars: seq<Name>, up: StaticEnv)

  /** The first position of a name in a frame. */
  function Find(vars: seq<Name>, name: Name): (r: Option<nat>)
    ensures r.Some? <==> name in vars
    ensures r.Some? ==> r.value < |vars| && vars[r.value] == name && name !in vars[..r.value]
  {
    if vars == [] then None
    else if vars[0] == name then Some(0)
    else
      match Find(vars[1..], name)
      case None => None
      case Some(d) => assert vars[..d + 1] == [vars[0]] + vars[1..][..d]; Some(d + 1)
  }

  /** The innermost lexical frame that binds a name, with the name's displacement in it. */
  function FindLexical(env: StaticEnv, name: Name): Option<(nat, nat)> {
    match env
    case Top => None
    case Frame(isWith, vars, up) =>
      if isWith.None? && name in vars then Some((0, Find(vars, name).value))
      else
        match FindLexical(up, name)
        case None => None
        case Some((level, displ)) => Some((level + 1, displ))
  }

  /** The innermost enclosing `with`. */
  function EnclosingWith(env: StaticEnv): Option<WithInfo> {
    match env
    case Top => None
    case Frame(isWith, _, up) => if isWith.Some? then isWith else EnclosingWith(up)
  }

  /** How many frames up, plus one, the innermost enclosing `with` is; 0 when there is none. */
  function WithDistance(env: StaticEnv): (k: nat)
    ensures k == 0 <==> EnclosingWith(env).None?
  {
    match env
    case Top => 0
    case Frame(isWith, _, up) =>
      if isWith.Some? then 1
      else if WithDistance(up) == 0 then 0 else WithDistance(up) + 1
  }

  function InfoFor(env: StaticEnv): WithInfo {
    WithInfo(WithDistance(env), EnclosingWith(env))
  }

  function Resolve(env: StaticEnv, name: Name): Binding {
    match FindLexical(env, name)
    case Some((level, displ)) => Lexical(level, displ)
    case None =>
      match EnclosingWith(env)
      case None => Unbound
      case Some(w) => FromWith(WithDistance(env) - 1, w)
  }

  function LetEnv(defs: Defs, env: StaticEnv): StaticEnv { Frame(None, DefNames(defs), env) }

  function LambdaEnv(p: Param, env: StaticEnv): StaticEnv { Frame(None, ParamNames(p), env) }

  function WithEnv(env: StaticEnv): StaticEnv { Frame(Some(InfoFor(env)), [], env) }

  // ---------- the pass as a function: the annotated expression ----------

  function Bound(e: Expr, env: StaticEnv): Expr {
    match e
    case IntLit(_) => e
    case StrLit(_) => e
    case Var(name, _) => Var(name, Resolve(env, name))
    case Select(e1, path, def) => Select(Bound(e1, env), BoundPath(path, env), BoundOpt(def, env))
    case HasAttr(e1, path) => HasAttr(Bound(e1, env), BoundPath(path, env))
    case Attrs(recursive, defs, froms, dyn) =>
      var inner := if recursive then LetEnv(defs, env) else env;
      Attrs(recursive, BoundDefs(defs, inner, env), BoundAll(froms, inner), BoundDyn(dyn, inner))
    case ListExpr(elems) => ListExpr(BoundAll(elems, env))
    case Lambda(p, body) => Lambda(BoundParam(p, LambdaEnv(p, env)), Bound(body, LambdaEnv(p, env)))
    case Call(fun, args) => Call(Bound(fun, env), BoundAll(args, env))
    case Let(defs, froms, body) =>
      var inner := LetEnv(defs, env);
      Let(BoundDefs(defs, inner, env), BoundAll(froms, inner), Bound(body, inner))
    case With(attrs, body, _) => With(Bound(attrs, env), Bound(body, WithEnv(env)), InfoFor(env))
    case If(c, t, f) => If(Bound(c, env), Bound(t, env), Bound(f, env))
    case Assert(c, body) => Assert(Bound(c, env), Bound(body, env))
    case Not(e1) => Not(Bound(e1, env))
    case BinOp(op, e1, e2) => BinOp(op, Bound(e1, env), Bound(e2, env))
    case Update(e1, e2) => Update(Bound(e1, env), Bound(e2, env))
    case ConcatLists(e1, e2) => ConcatLists(Bound(e1, env), Bound(e2, env))
  }

  function BoundOpt(o: Option<Expr>, env: StaticEnv): Option<Expr> {
    match o
    case None => None
    case Some(e) => Some(Bound(e, env))
  }

  function BoundAll(es: Exprs, env: StaticEnv): Exprs {
    match es
    case Nil => Nil
    case Cons(e, tail) => Cons(Bound(e, env), BoundAll(tail, env))
  }

  function BoundPath(p: AttrPath, env: StaticEnv): AttrPath {
    match p
    case End => End
    case StaticName(n, rest) => StaticName(n, BoundPath(rest, env))
    case DynName(e, rest) => DynName(Bound(e, env), BoundPath(rest, env))
  }

  function BoundRhs(name: Name, rhs: Rhs, inner: StaticEnv, outer: StaticEnv): Rhs
    decreases rhs
  {
    match rhs
    case Plain(e) => Plain(Bound(e, inner))
    case Inherited(_) => Inherited(Resolve(outer, name))
    case InheritedFrom(d) => rhs
  }

  function BoundDefs(defs: Defs, inner: StaticEnv, outer: StaticEnv): Defs {
    match defs
    case NoDefs => NoDefs
    case Def(name, rhs, rest) => Def(name, BoundRhs(name, rhs, inner, outer), BoundDefs(rest, inner, outer))
  }

  function BoundDyn(dyn: DynAttrs, env: StaticEnv): DynAttrs {
    match dyn
    case NoDyn => NoDyn
    case Dyn(n, v, rest) => Dyn(Bound(n, env), Bound(v, env), BoundDyn(rest, env))
  }

  function BoundParam(p: Param, inner: StaticEnv): Param {
    match p
    case Simple(_) => p
    case Pattern(alias, formals, ellipsis) => Pattern(alias, BoundFormals(formals, inner), ellipsis)
  }

  function BoundFormals(formals: FormalList, inner: StaticEnv): FormalList {
    match formals
    case NoFormals => NoFormals
    case Formal(name, def, rest) => Formal(name, BoundOpt(def, inner), BoundFormals(rest, inner))
  }

  // ---------- when the pass succeeds ----------

  /**
   * Every variable is bound lexically or has an enclosing `with`, and every
   * `inherit (from)` names a source. With `withFree` there is also no `with`.
   */
  predicate Scoped(e: Expr, env: StaticEnv, withFree: bool) {
    match e
    case IntLit(_) => true
    case StrLit(_) => true
    case Var(name, _) => Resolve(env, name) != Unbound
    case Select(e1, path, def) =>
      Scoped(e1, env, withFree) && ScopedPath(path, env, withFree) && ScopedOpt(def, env, withFree)
    case HasAttr(e1, path) => Scoped(e1, env, withFree) && ScopedPath(path, env, withFree)
    case Attrs(recursive, defs, froms, dyn) =>
      var inner := if recursive then LetEnv(defs, env) else env;
      && ScopedDefs(defs, Length(froms), inner, env, withFree)
      && ScopedAll(froms, inner, withFree) && ScopedDyn(dyn, inner, withFree)
    case ListExpr(elems) => ScopedAll(elems, env, withFree)
    case Lambda(p, body) => ScopedParam(p, LambdaEnv(p, env), withFree) && Scoped(body, LambdaEnv(p, env), withFree)
    case Call(fun, args) => Scoped(fun, env, withFree) && ScopedAll(args, env, withFree)
    case Let(defs, froms, body) =>
      var inner := LetEnv(defs, env);
      && ScopedDefs(defs, Length(froms), inner, env, withFree)
      && ScopedAll(froms, inner, withFree) && Scoped(body, inner, withFree)
    case With(attrs, body, _) => !withFree && Scoped(attrs, env, withFree) && Scoped(body, WithEnv(env), withFree)
    case If(c, t, f) => Scoped(c, env, withFree) && Scoped(t, env, withFree) && Scoped(f, env, withFree)
    case Assert(c, body) => Scoped(c, env, withFree) && Scoped(body, env, withFree)
    case Not(e1) => Scoped(e1, env, withFree)
    case BinOp(_, e1, e2) => Scoped(e1, env, withFree) && Scoped(e2, env, withFree)
    case Update(e1, e2) => Scoped(e1, env, withFree) && Scoped(e2, env, withFree)
    case ConcatLists(e1, e2) => Scoped(e1, env, withFree) && Scoped(e2, env, withFree)
  }

  predicate ScopedOpt(o: Option<Expr>, env: StaticEnv, withFree: bool) {
    match o
    case None => true
    case Some(e) => Scoped(e, env, withFree)
  }

  predicate ScopedAll(es: Exprs, env: StaticEnv, withFree: bool) {
    match es
    case Nil => true
    case Cons(e, tail) => Scoped(e, env, withFree) && ScopedAll(tail, env, withFree)
  }

  predicate ScopedPath(p: AttrPath, env: StaticEnv, withFree: bool) {
    match p
    case End => true
    case StaticName(_, rest) => ScopedPath(rest, env, withFree)
    case DynName(e, rest) => Scoped(e, env, withFree) && ScopedPath(rest, env, withFree)
  }

  predicate ScopedRhs(name: Name, rhs: Rhs, froms: nat, inner: StaticEnv, outer: StaticEnv, withFree: bool)
    decreases rhs
  {
    match rhs
    case Plain(e) => Scoped(e, inner, withFree)
    case Inherited(_) => Resolve(outer, name) != Unbound
    case InheritedFrom(d) => d < froms
  }

  predicate ScopedDefs(defs: Defs, froms: nat, inner: StaticEnv, outer: StaticEnv, withFree: bool) {
    match defs
    case NoDefs => true
    case Def(name, rhs, rest) =>
      ScopedRhs(name, rhs, froms, inner, outer, withFree) && ScopedDefs(rest, froms, inner, outer, withFree)
  }

  predicate ScopedDyn(dyn: DynAttrs, env: StaticEnv, withFree: bool) {
    match dyn
    case NoDyn => true
    case Dyn(n, v, rest) => Scoped(n, env, withFree) && Scoped(v, env, withFree) && ScopedDyn(rest, env, withFree)
  }

  predicate ScopedParam(p: Param, inner: StaticEnv, withFree: bool) {
    match p
    case Simple(_) => true
    case Pattern(_, formals, _) => ScopedFormals(formals, inner, withFree)
  }

  predicate ScopedFormals(formals: FormalList, inner: StaticEnv, withFree: bool) {
    match formals
    case NoFormals => true
    case Formal(_, def, rest) => ScopedOpt(def, inner, withFree) && ScopedFormals(rest, inner, withFree)
  }
}
