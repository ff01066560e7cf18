/**
 * The `bindVars` methods themselves: loops over the scope chain that write
 * `level`, `displ`, `fromWith`, `prevWith` and `parentWith`, and the traversal
 * that applies them to a whole expression.
 */
module BindVars {
  import opened Basics
  import opened NixSyntax
  import opened StaticScope

  class ExprVar {
    const name: Name
    var level: nat
    var displ: nat
    var fromWith: Option<WithInfo>

    constructor (name: Name)
      ensures this.name == name
    {
      this.name, level, displ, fromWith := name, 0, 0, None;
    }

    /** How `lookupVar` reads the fields. */
    function Binding(): Binding
      reads this
    {
      if fromWith.None? then Lexical(level, displ) else FromWith(level, fromWith.value)
    }

    /** Returns false instead of throwing the "undefined variable" error. */
    method BindVars(env: StaticEnv) returns (ok: bool)
      modifies this
      ensures ok <==> Resolve(env, name) != Unbound
      ensures ok ==> Binding() == Resolve(env, name)
    {
      fromWith := None;
      var curEnv, lvl, withLevel := env, 0, -1;
      while curEnv.Frame?
        invariant lvl >= 0 && withLevel >= -1 && fromWith == None
        invariant match FindLexical(curEnv, name)
                  case None => FindLexical(env, name) == None
                  case Some((l, d)) => FindLexical(env, name) == Some((l + lvl, d))
        invariant withLevel == -1 ==>
                    WithDistance(env) == (if WithDistance(curEnv) == 0 then 0 else WithDistance(curEnv) + lvl)
        invariant withLevel != -1 ==> WithDistance(env) == withLevel + 1
        decreases curEnv
      {
        if curEnv.isWith.Some? {
          if withLevel == -1 { withLevel := lvl; }
        } else {
          var i := Find(curEnv.vars, name);
          if i.Some? {
            level, displ := lvl, i.value;
            return true;
          }
        }
        curEnv, lvl := curEnv.up, lvl + 1;
      }
      if withLevel == -1 { return false; }
      var e := env;
      while e.Frame? && fromWith.None?
        invariant (if fromWith.Some? then fromWith else EnclosingWith(e)) == EnclosingWith(env)
        decreases e
      {
        fromWith := e.isWith;
        e := e.up;
      }
      level := withLevel;
      return true;
    }
  }

  class ExprWith {
    var prevWith: nat
    var parentWith: Option<WithInfo>

    constructor () {
      prevWith, parentWith := 0, None;
    }

    /** The part of `ExprWith::bindVars` that records the enclosing `with`. */
    method BindWith(env: StaticEnv)
      modifies this
      ensures WithInfo(prevWith, parentWith) == InfoFor(env)
    {
      parentWith := None;
      var e := env;
      while e.Frame? && parentWith.None?
        invariant (if parentWith.Some? then parentWith else EnclosingWith(e)) == EnclosingWith(env)
        decreases e
      {
        parentWith := e.isWith;
        e := e.up;
      }
      prevWith := 0;
      var curEnv, lvl := env, 1;
      while curEnv.Frame?
        invariant lvl >= 1 && prevWith == 0
        invariant parentWith == EnclosingWith(env)
        invariant WithDistance(env) == (if WithDistance(curEnv) == 0 then 0 else WithDistance(curEnv) + lvl - 1)
        decreases curEnv
      {
        if curEnv.isWith.Some? {
          prevWith := lvl;
          break;
        }
        curEnv, lvl := curEnv.up, lvl + 1;
      }
    }
  }

  /** What `bindVars` leaves behind: the annotated expression, or nothing when it threw. */
  function Outcome<T>(ok: bool, t: T): Option<T> { if ok then Some(t) else None }

  method BindName(name: Name, env: StaticEnv) returns (r: Option<Binding>)
    ensures r == Outcome(Resolve(env, name) != Unbound, Resolve(env, name))
  {
    var v := new ExprVar(name);
    var ok := v.BindVars(env);
    r := if ok then Some(v.Binding()) else None;
  }

  /**
   * The whole pass. An `inherit (from)` index outside the sources, which the
   * parser never produces, counts as failure.
   */
  method BindExpr(e: Expr, env: StaticEnv) returns (r: Option<Expr>)
    ensures r == Outcome(Scoped(e, env, false), Bound(e, env))
    decreases e, 2
  {
    match e {
      case IntLit(_) => return Some(e);
      case StrLit(_) => return Some(e);
      case Var(name, _) =>
        var b := BindName(name, env);
        if b.None? { return None; }
        return Some(Var(name, b.value));
      case Select(e1, path, def) =>
        var r1 := BindExpr(e1, env);
        if r1.None? { return None; }
        var r2 := BindOpt(def, env);
        if r2.None? { return None; }
        var r3 := BindPath(path, env);
        if r3.None? { return None; }
        return Some(Select(r1.value, r3.value, r2.value));
      case HasAttr(e1, path) =>
        var r1 := BindExpr(e1, env);
        if r1.None? { return None; }
        var r2 := BindPath(path, env);
        if r2.None? { return None; }
        return Some(HasAttr(r1.value, r2.value));
      case Attrs(recursive, defs, froms, dyn) =>
        var inner := if recursive then LetEnv(defs, env) else env;
        var r1 := BindAll(froms, inner);
        if r1.None? { return None; }
        var r2 := BindDefs(defs, Length(froms), inner, env);
        if r2.None? { return None; }
        var r3 := BindDyn(dyn, inner);
        if r3.None? { return None; }
        return Some(Attrs(recursive, r2.value, r1.value, r3.value));
      case ListExpr(elems) =>
        var r1 := BindAll(elems, env);
        if r1.None? { return None; }
        return Some(ListExpr(r1.value));
      case Lambda(p, body) =>
        var inner := LambdaEnv(p, env);
        var r1 := BindParam(p, inner);
        if r1.None? { return None; }
        var r2 := BindExpr(body, inner);
        if r2.None? { return None; }
        return Some(Lambda(r1.value, r2.value));
      case Call(fun, args) =>
        var r1 := BindExpr(fun, env);
        if r1.None? { return None; }
        var r2 := BindAll(args, env);
        if r2.None? { return None; }
        return Some(Call(r1.value, r2.value));
      case Let(defs, froms, body) =>
        var inner := LetEnv(defs, env);
        var r1 := BindAll(froms, inner);
        if r1.None? { return None; }
        var r2 := BindDefs(defs, Length(froms), inner, env);
        if r2.None? { return None; }
        var r3 := BindExpr(body, inner);
        if r3.None? { return None; }
        return Some(Let(r2.value, r1.value, r3.value));
      case With(attrs, body, _) =>
        var w := new ExprWith();
        w.BindWith(env);
        var info := WithInfo(w.prevWith, w.parentWith);
        var r1 := BindExpr(attrs, env);
        if r1.None? { return None; }
        var r2 := BindExpr(body, Frame(Some(info), [], env));
        if r2.None? { return None; }
        return Some(With(r1.value, r2.value, info));
      case If(_, _, _) => r := BindOperator(e, env);
      case Assert(_, _) => r := BindOperator(e, env);
      case Not(_) => r := BindOperator(e, env);
      case BinOp(_, _, _) => r := BindOperator(e, env);
      case Update(_, _) => r := BindOperator(e, env);
      case ConcatLists(_, _) => r := BindOperator(e, env);
    }
  }

  /** The operators bind their operands in the same scope. */
  method BindOperator(e: Expr, env: StaticEnv) returns (r: Option<Expr>)
    requires e.If? || e.Assert? || e.Not? || e.BinOp? || e.Update? || e.ConcatLists?
    ensures r == Outcome(Scoped(e, env, false), Bound(e, env))
    decreases e, 1
  {
    match e {
      case If(c, t, f) =>
        var r1 := BindExpr(c, env);
        if r1.None? { return None; }
        var r2 := BindExpr(t, env);
        if r2.None? { return None; }
        var r3 := BindExpr(f, env);
        if r3.None? { return None; }
        return Some(If(r1.value, r2.value, r3.value));
      case Assert(c, body) =>
        var r1, r2 := BindBoth(c, body, env, e);
        return if r1.Some? && r2.Some? then Some(Assert(r1.value, r2.value)) else None;
      case Not(e1) =>
        var r1 := BindExpr(e1, env);
        if r1.None? { return None; }
        return Some(Not(r1.value));
      case BinOp(op, e1, e2) =>
        var r1, r2 := BindBoth(e1, e2, env, e);
        return if r1.Some? && r2.Some? then Some(BinOp(op, r1.value, r2.value)) else None;
      case Update(e1, e2) =>
        var r1, r2 := BindBoth(e1, e2, env, e);
        return if r1.Some? && r2.Some? then Some(Update(r1.value, r2.value)) else None;
      case ConcatLists(e1, e2) =>
        var r1, r2 := BindBoth(e1, e2, env, e);
        return if r1.Some? && r2.Some? then Some(ConcatLists(r1.value, r2.value)) else None;
    }
  }

  method BindBoth(e1: Expr, e2: Expr, env: StaticEnv, ghost parent: Expr)
    returns (r1: Option<Expr>, r2: Option<Expr>)
    requires e1 < parent && e2 < parent
    ensures r1 == Outcome(Scoped(e1, env, false), Bound(e1, env))
    ensures r2 == Outcome(Scoped(e2, env, false), Bound(e2, env)) || (r1.None? && r2.None?)
    decreases parent, 0
  {
    r1 := BindExpr(e1, env);
    if r1.None? { return None, None; }
    r2 := BindExpr(e2, env);
  }

  method BindOpt(o: Option<Expr>, env: StaticEnv) returns (r: Option<Option<Expr>>)
    ensures r == Outcome(ScopedOpt(o, env, false), BoundOpt(o, env))
    decreases o
  {
    match o {
      case None => return Some(None);
      case Some(e) =>
        var r1 := BindExpr(e, env);
        if r1.None? { return None; }
        return Some(Some(r1.value));
    }
  }

  method BindAll(es: Exprs, env: StaticEnv) returns (r: Option<Exprs>)
    ensures r == Outcome(ScopedAll(es, env, false), BoundAll(es, env))
    decreases es
  {
    match es {
      case Nil => return Some(Nil);
      case Cons(e, tail) =>
        var r1 := BindExpr(e, env);
        if r1.None? { return None; }
        var r2 := BindAll(tail, env);
        if r2.None? { return None; }
        return Some(Cons(r1.value, r2.value));
    }
  }

  method BindPath(p: AttrPath, env: StaticEnv) returns (r: Option<AttrPath>)
    ensures r == Outcome(ScopedPath(p, env, false), BoundPath(p, env))
    decreases p
  {
    match p {
      case End => return Some(End);
      case StaticName(n, rest) =>
        var r1 := BindPath(rest, env);
        if r1.None? { return None; }
        return Some(StaticName(n, r1.value));
      case DynName(e, rest) =>
        var r1 := BindExpr(e, env);
        if r1.None? { return None; }
        var r2 := BindPath(rest, env);
        if r2.None? { return None; }
        return Some(DynName(r1.value, r2.value));
    }
  }

  /** The `chooseByKind` loop: plain definitions see the inner scope, inherited names the outer one. */
  method BindDefs(defs: Defs, froms: nat, inner: StaticEnv, outer: StaticEnv) returns (r: Option<Defs>)
    ensures r == Outcome(ScopedDefs(defs, froms, inner, outer, false), BoundDefs(defs, inner, outer))
    decreases defs
  {
    match defs {
      case NoDefs => return Some(NoDefs);
      case Def(name, rhs, rest) =>
        var bound := rhs;
        match rhs {
          case Plain(e) =>
            var r1 := BindExpr(e, inner);
            if r1.None? { return None; }
            bound := Plain(r1.value);
          case Inherited(_) =>
            var b := BindName(name, outer);
            if b.None? { return None; }
            bound := Inherited(b.value);
          case InheritedFrom(d) =>
            if d >= froms { return None; }
        }
        var r2 := BindDefs(rest, froms, inner, outer);
        if r2.None? { return None; }
        return Some(Def(name, bound, r2.value));
    }
  }

  method BindDyn(dyn: DynAttrs, env: StaticEnv) returns (r: Option<DynAttrs>)
    ensures r == Outcome(ScopedDyn(dyn, env, false), BoundDyn(dyn, env))
    decreases dyn
  {
    match dyn {
      case NoDyn => return Some(NoDyn);
      case Dyn(n, v, rest) =>
        var r1 := BindExpr(n, env);
        if r1.None? { return None; }
        var r2 := BindExpr(v, env);
        if r2.None? { return None; }
        var r3 := BindDyn(rest, env);
        if r3.None? { return None; }
        return Some(Dyn(r1.value, r2.value, r3.value));
    }
  }

  method BindParam(p: Param, inner: StaticEnv) returns (r: Option<Param>)
    ensures r == Outcome(ScopedParam(p, inner, false), BoundParam(p, inner))
    decreases p
  {
    match p {
      case Simple(_) => return Some(p);
      case Pattern(alias, formals, ellipsis) =>
        var r1 := BindFormals(formals, inner);
        if r1.None? { return None; }
        return Some(Pattern(alias, r1.value, ellipsis));
    }
  }

  method BindFormals(formals: FormalList, inner: StaticEnv) returns (r: Option<FormalList>)
    ensures r == Outcome(ScopedFormals(formals, inner, false), BoundFormals(formals, inner))
    decreases formals
  {
    match formals {
      case NoFormals => return Some(NoFormals);
      case Formal(name, def, rest) =>
        var r1 := BindOpt(def, inner);
        if r1.None? { return None; }
        var r2 := BindFormals(rest, inner);
        if r2.None? { return None; }
        return Some(Formal(name, r1.value, r2.value));
    }
  }
}
