/**
 * Which expressions `bindVars` rejects, in terms of their free names: exactly
 * those that leave a name free which the surrounding scope does not resolve.
 * Inside a `with` no name is free.
 */
module FreeNames {
  import opened Basics
  import opened NixSyntax
  import opened StaticScope

  function Names(vars: seq<Name>): set<Name> { set x | x in vars }

  /** The names that must be bound outside. */
  function Free(e: Expr): set<Name> {
    match e
    case IntLit(_) => {}
    case StrLit(_) => {}
    case Var(name, _) => {name}
    case Select(e1, path, def) => Free(e1) + FreePath(path) + FreeOpt(def)
    case HasAttr(e1, path) => Free(e1) + FreePath(path)
    case Attrs(recursive, defs, froms, dyn) =>
      var inside := FreePlain(defs) + FreeAll(froms) + FreeDyn(dyn);
      (if recursive then inside - Names(DefNames(defs)) else inside) + Inherits(defs)
    case ListExpr(elems) => FreeAll(elems)
    case Lambda(p, body) => (FreeParam(p) + Free(body)) - Names(ParamNames(p))
    case Call(fun, args) => Free(fun) + FreeAll(args)
    case Let(defs, froms, body) =>
      ((FreePlain(defs) + FreeAll(froms) + Free(body)) - Names(DefNames(defs))) + Inherits(defs)
    case With(attrs, _, _) => Free(attrs)
    case If(c, t, f) => Free(c) + Free(t) + Free(f)
    case Assert(c, body) => Free(c) + Free(body)
    case Not(e1) => Free(e1)
    case BinOp(_, e1, e2) => Free(e1) + Free(e2)
    case Update(e1, e2) => Free(e1) + Free(e2)
    case ConcatLists(e1, e2) => Free(e1) + Free(e2)
  }

  function FreeOpt(o: Option<Expr>): set<Name> { if o.None? then {} else Free(o.value) }

  function FreeAll(es: Exprs): set<Name> {
    match es
    case Nil => {}
    case Cons(e, tail) => Free(e) + FreeAll(tail)
  }

  function FreePath(p: AttrPath): set<Name> {
    match p
    case End => {}
    case StaticName(_, rest) => FreePath(rest)
    case DynName(e, rest) => Free(e) + FreePath(rest)
  }

  /** The free names of plain definitions. */
  function FreePlain(defs: Defs): set<Name> {
    match defs
    case NoDefs => {}
    case Def(_, Plain(e), rest) => Free(e) + FreePlain(rest)
    case Def(_, _, rest) => FreePlain(rest)
  }

  /** The names inherited from the surrounding scope. */
  function Inherits(defs: Defs): set<Name> {
    match defs
    case NoDefs => {}
    case Def(name, Inherited(_), rest) => {name} + Inherits(rest)
    case Def(_, _, rest) => Inherits(rest)
  }

  function FreeDyn(dyn: DynAttrs): set<Name> {
    match dyn
    case NoDyn => {}
    case Dyn(n, v, rest) => Free(n) + Free(v) + FreeDyn(rest)
  }

  function FreeParam(p: Param): set<Name> {
    match p
    case Simple(_) => {}
    case Pattern(_, formals, _) => FreeFormals(formals)
  }

  function FreeFormals(formals: FormalList): set<Name> {
    match formals
    case NoFormals => {}
    case Formal(_, def, rest) => FreeOpt(def) + FreeFormals(rest)
  }

  /** Every name is resolved. */
  ghost predicate Resolved(names: set<Name>, env: StaticEnv) { forall x :: x in names ==> Resolve(env, x) != Unbound }

  lemma ResolvedUnion(a: set<Name>, b: set<Name>, env: StaticEnv)
    ensures Resolved(a + b, env) <==> Resolved(a, env) && Resolved(b, env)
  {
  }

  /** A frame resolves its own names and those of the scope around it. */
  lemma ResolvedInFrame(names: set<Name>, vars: seq<Name>, env: StaticEnv)
    ensures Resolved(names, Frame(None, vars, env)) <==> Resolved(names - Names(vars), env)
  {
    var inner := Frame(None, vars, env);
    forall x ensures Resolve(inner, x) != Unbound <==> x in vars || Resolve(env, x) != Unbound {
      FrameResolves(vars, env, x);
    }
  }

  lemma FrameResolves(vars: seq<Name>, env: StaticEnv, x: Name)
    ensures Resolve(Frame(None, vars, env), x) != Unbound <==> x in vars || Resolve(env, x) != Unbound
  {
  }

  /** Behind a `with` every name is resolved. */
  lemma ResolvedInWith(names: set<Name>, env: StaticEnv)
    ensures Resolved(names, WithEnv(env))
  {
  }

  // ---------- sources of `inherit` ----------

  /** Every `inherit (from)` names a source; the parser makes no others. */
  predicate SourcesOk(e: Expr) {
    match e
    case IntLit(_) => true
    case StrLit(_) => true
    case Var(_, _) => true
    case Select(e1, path, def) => SourcesOk(e1) && PathOk(path) && OptOk(def)
    case HasAttr(e1, path) => SourcesOk(e1) && PathOk(path)
    case Attrs(_, defs, froms, dyn) => DefsOk(defs, Length(froms)) && AllOk(froms) && DynOk(dyn)
    case ListExpr(elems) => AllOk(elems)
    case Lambda(p, body) => ParamOk(p) && SourcesOk(body)
    case Call(fun, args) => SourcesOk(fun) && AllOk(args)
    case Let(defs, froms, body) => DefsOk(defs, Length(froms)) && AllOk(froms) && SourcesOk(body)
    case With(attrs, body, _) => SourcesOk(attrs) && SourcesOk(body)
    case If(c, t, f) => SourcesOk(c) && SourcesOk(t) && SourcesOk(f)
    case Assert(c, body) => SourcesOk(c) && SourcesOk(body)
    case Not(e1) => SourcesOk(e1)
    case BinOp(_, e1, e2) => SourcesOk(e1) && SourcesOk(e2)
    case Update(e1, e2) => SourcesOk(e1) && SourcesOk(e2)
    case ConcatLists(e1, e2) => SourcesOk(e1) && SourcesOk(e2)
  }

  predicate OptOk(o: Option<Expr>) { o.Some? ==> SourcesOk(o.value) }

  predicate AllOk(es: Exprs) { es.Cons? ==> SourcesOk(es.head) && AllOk(es.tail) }

  predicate PathOk(p: AttrPath) {
    match p
    case End => true
    case StaticName(_, rest) => PathOk(rest)
    case DynName(e, rest) => SourcesOk(e) && PathOk(rest)
  }

  predicate DefsOk(defs: Defs, froms: nat) {
    match defs
    case NoDefs => true
    case Def(_, Plain(e), rest) => SourcesOk(e) && DefsOk(rest, froms)
    case Def(_, Inherited(_), rest) => DefsOk(rest, froms)
    case Def(_, InheritedFrom(d), rest) => d < froms && DefsOk(rest, froms)
  }

  predicate DynOk(dyn: DynAttrs) { dyn.Dyn? ==> SourcesOk(dyn.nameExpr) && SourcesOk(dyn.valueExpr) && DynOk(dyn.rest) }

  predicate ParamOk(p: Param) { p.Pattern? ==> FormalsOk(p.formals) }

  predicate FormalsOk(formals: FormalList) { formals.Formal? ==> OptOk(formals.def) && FormalsOk(formals.rest) }

  // ---------- the theorem ----------

  /** An expression is accepted exactly if its sources exist and its free names are resolved. */
  lemma {:induction false} ScopedIsResolved(e: Expr, env: StaticEnv)
    ensures Scoped(e, env, false) <==> SourcesOk(e) && Resolved(Free(e), env)
    decreases e, 1
  {
    match e
    case IntLit(_) =>
    case StrLit(_) =>
    case Var(name, _) => assert Resolved({name}, env) <==> Resolve(env, name) != Unbound;
    case Select(_, _, _) => PartsAreResolved(e, env);
    case HasAttr(_, _) => PartsAreResolved(e, env);
    case Attrs(_, _, _, _) => ScopeIsResolved(e, env);
    case ListExpr(elems) => AllAreResolved(elems, env);
    case Lambda(_, _) => ScopeIsResolved(e, env);
    case Call(fun, args) =>
      ScopedIsResolved(fun, env);
      AllAreResolved(args, env);
      ResolvedUnion(Free(fun), FreeAll(args), env);
    case Let(_, _, _) => ScopeIsResolved(e, env);
    case With(_, _, _) => ScopeIsResolved(e, env);
    case If(_, _, _) => PartsAreResolved(e, env);
    case Assert(c, body) => BothAreResolved(c, body, env, e);
    case Not(e1) => ScopedIsResolved(e1, env);
    case BinOp(_, e1, e2) => BothAreResolved(e1, e2, env, e);
    case Update(e1, e2) => BothAreResolved(e1, e2, env, e);
    case ConcatLists(e1, e2) => BothAreResolved(e1, e2, env, e);
  }

  lemma {:induction false} ScopeIsResolved(e: Expr, env: StaticEnv)
    requires e.Attrs? || e.Lambda? || e.Let? || e.With?
    ensures Scoped(e, env, false) <==> SourcesOk(e) && Resolved(Free(e), env)
    decreases e, 0
  {
    match e
    case Attrs(recursive, defs, froms, dyn) =>
      var inner := if recursive then LetEnv(defs, env) else env;
      DefsAreResolved(defs, Length(froms), inner, env);
      AllAreResolved(froms, inner);
      DynAreResolved(dyn, inner);
      SetNames(recursive, defs, FreePlain(defs), FreeAll(froms), FreeDyn(dyn), env);
    case Lambda(p, body) =>
      ParamIsResolved(p, LambdaEnv(p, env));
      ScopedIsResolved(body, LambdaEnv(p, env));
      ResolvedUnion(FreeParam(p), Free(body), LambdaEnv(p, env));
      ResolvedInFrame(FreeParam(p) + Free(body), ParamNames(p), env);
    case Let(defs, froms, body) =>
      var inner := LetEnv(defs, env);
      DefsAreResolved(defs, Length(froms), inner, env);
      AllAreResolved(froms, inner);
      ScopedIsResolved(body, inner);
      SetNames(true, defs, FreePlain(defs), FreeAll(froms), Free(body), env);
    case With(attrs, body, _) =>
      ScopedIsResolved(attrs, env);
      ScopedIsResolved(body, WithEnv(env));
      ResolvedInWith(Free(body), env);
  }

  lemma {:induction false} PartsAreResolved(e: Expr, env: StaticEnv)
    requires e.Select? || e.HasAttr? || e.If?
    ensures Scoped(e, env, false) <==> SourcesOk(e) && Resolved(Free(e), env)
    decreases e, 0
  {
    match e
    case Select(e1, path, def) =>
      ScopedIsResolved(e1, env);
      PathIsResolved(path, env);
      OptIsResolved(def, env);
      ResolvedUnion(Free(e1) + FreePath(path), FreeOpt(def), env);
      ResolvedUnion(Free(e1), FreePath(path), env);
    case HasAttr(e1, path) =>
      ScopedIsResolved(e1, env);
      PathIsResolved(path, env);
      ResolvedUnion(Free(e1), FreePath(path), env);
    case If(c, t, f) =>
      ScopedIsResolved(c, env);
      ScopedIsResolved(t, env);
      ScopedIsResolved(f, env);
      ResolvedUnion(Free(c) + Free(t), Free(f), env);
      ResolvedUnion(Free(c), Free(t), env);
  }

  /** Three groups of names inside a set or `let`, and the names it inherits. */
  lemma SetNames(recursive: bool, defs: Defs, a: set<Name>, b: set<Name>, c: set<Name>, env: StaticEnv)
    ensures var inner := if recursive then LetEnv(defs, env) else env;
            var inside := a + b + c;
            var all := (if recursive then inside - Names(DefNames(defs)) else inside) + Inherits(defs);
            Resolved(all, env) <==>
              Resolved(a, inner) && Resolved(b, inner) && Resolved(c, inner) && Resolved(Inherits(defs), env)
  {
    var inner := if recursive then LetEnv(defs, env) else env;
    var inside := a + b + c;
    ResolvedUnion(a + b, c, inner);
    ResolvedUnion(a, b, inner);
    if recursive { ResolvedInFrame(inside, DefNames(defs), env); }
    ResolvedUnion(if recursive then inside - Names(DefNames(defs)) else inside, Inherits(defs), env);
  }

  lemma {:induction false} BothAreResolved(e1: Expr, e2: Expr, env: StaticEnv, parent: Expr)
    requires e1 < parent && e2 < parent
    ensures Scoped(e1, env, false) && Scoped(e2, env, false) <==>
              SourcesOk(e1) && SourcesOk(e2) && Resolved(Free(e1) + Free(e2), env)
    decreases parent, 0
  {
    ScopedIsResolved(e1, env);
    ScopedIsResolved(e2, env);
    ResolvedUnion(Free(e1), Free(e2), env);
  }

  lemma {:induction false} OptIsResolved(o: Option<Expr>, env: StaticEnv)
    ensures ScopedOpt(o, env, false) <==> OptOk(o) && Resolved(FreeOpt(o), env)
    decreases o
  {
    if o.Some? { ScopedIsResolved(o.value, env); }
  }

  lemma {:induction false} AllAreResolved(es: Exprs, env: StaticEnv)
    ensures ScopedAll(es, env, false) <==> AllOk(es) && Resolved(FreeAll(es), env)
    decreases es
  {
    if es.Cons? {
      ScopedIsResolved(es.head, env);
      AllAreResolved(es.tail, env);
      ResolvedUnion(Free(es.head), FreeAll(es.tail), env);
    }
  }

  lemma {:induction false} PathIsResolved(p: AttrPath, env: StaticEnv)
    ensures ScopedPath(p, env, false) <==> PathOk(p) && Resolved(FreePath(p), env)
    decreases p
  {
    match p
    case End =>
    case StaticName(_, rest) => PathIsResolved(rest, env);
    case DynName(e, rest) =>
      ScopedIsResolved(e, env);
      PathIsResolved(rest, env);
      ResolvedUnion(Free(e), FreePath(rest), env);
  }

  lemma {:induction false} DefsAreResolved(defs: Defs, froms: nat, inner: StaticEnv, outer: StaticEnv)
    ensures ScopedDefs(defs, froms, inner, outer, false) <==>
              DefsOk(defs, froms) && Resolved(FreePlain(defs), inner) && Resolved(Inherits(defs), outer)
    decreases defs
  {
    match defs
    case NoDefs =>
    case Def(name, rhs, rest) =>
      DefsAreResolved(rest, froms, inner, outer);
      match rhs
      case Plain(e) =>
        ScopedIsResolved(e, inner);
        ResolvedUnion(Free(e), FreePlain(rest), inner);
      case Inherited(_) =>
        ResolvedUnion({name}, Inherits(rest), outer);
        assert Resolved({name}, outer) <==> Resolve(outer, name) != Unbound;
      case InheritedFrom(_) =>
  }

  lemma {:induction false} DynAreResolved(dyn: DynAttrs, env: StaticEnv)
    ensures ScopedDyn(dyn, env, false) <==> DynOk(dyn) && Resolved(FreeDyn(dyn), env)
    decreases dyn
  {
    if dyn.Dyn? {
      ScopedIsResolved(dyn.nameExpr, env);
      ScopedIsResolved(dyn.valueExpr, env);
      DynAreResolved(dyn.rest, env);
      ResolvedUnion(Free(dyn.nameExpr) + Free(dyn.valueExpr), FreeDyn(dyn.rest), env);
      ResolvedUnion(Free(dyn.nameExpr), Free(dyn.valueExpr), env);
    }
  }

  lemma {:induction false} ParamIsResolved(p: Param, env: StaticEnv)
    ensures ScopedParam(p, env, false) <==> ParamOk(p) && Resolved(FreeParam(p), env)
    decreases p
  {
    if p.Pattern? { FormalsAreResolved(p.formals, env); }
  }

  lemma {:induction false} FormalsAreResolved(formals: FormalList, env: StaticEnv)
    ensures ScopedFormals(formals, env, false) <==> FormalsOk(formals) && Resolved(FreeFormals(formals), env)
    decreases formals
  {
    if formals.Formal? {
      OptIsResolved(formals.def, env);
      FormalsAreResolved(formals.rest, env);
      ResolvedUnion(FreeOpt(formals.def), FreeFormals(formals.rest), env);
    }
  }

  /** A whole program is rejected exactly if some name is free in it. */
  lemma ClosedPrograms(e: Expr)
    requires SourcesOk(e)
    ensures Scoped(e, Top, false) <==> Free(e) == {}
  {
    ScopedIsResolved(e, Top);
    if x :| x in Free(e) { assert Resolve(Top, x) == Unbound; }
  }
}
