/**
 * Answers do not depend on fuel: an evaluation that ends within some fuel ends
 * with the same result within any more. So both semantics have a meaning
 * without fuel, and `bindVars` preserves it.
 */
module FuelStability {
  import opened Basics
  import opened NixSyntax
  import opened StaticScope
  import opened ScopeSimulation
  import N = NamedEval
  import D = DisplEval

  /** With more fuel an answer stays what it is. */
  predicate Settled<T(==)>(r: Res<T>, r': Res<T>) { r.OutOfFuel? || r' == r }

  // ---------- one more unit of fuel, by induction on fuel ----------

  lemma {:induction false} MoreEval(fuel: nat, e: Expr, env: N.Env)
    ensures Settled(N.Eval(fuel, e, env), N.Eval(fuel + 1, e, env))
    decreases fuel, 0, End
  {
    if fuel > 0 {
      match e
      case IntLit(_) =>
      case StrLit(_) =>
      case ListExpr(_) =>
      case Lambda(_, _) =>
      case Var(name, _) => MoreVar(fuel - 1, name, env);
      case Select(e1, path, def) => MoreSelect(fuel - 1, e1, path, def, env);
      case HasAttr(e1, path) => MoreHasAttr(fuel - 1, e1, path, env);
      case Attrs(recursive, defs, froms, dyn) => MoreAttrSet(fuel - 1, recursive, defs, froms, dyn, env);
      case Call(fun, args) => MoreCall(fuel - 1, fun, args, env);
      case Let(defs, froms, body) => MoreEval(fuel - 1, body, N.Scope(N.DefBinds(defs), froms, env));
      case With(attrs, body, _) => MoreEval(fuel - 1, body, N.WithScope(attrs, env));
      case If(c, t, f) => MoreIf(fuel - 1, c, t, f, env);
      case Assert(c, body) => MoreAssert(fuel - 1, c, body, env);
      case Not(e1) => MoreNot(fuel - 1, e1, env);
      case BinOp(op, e1, e2) => MoreBinOp(fuel - 1, op, e1, e2, env);
      case Update(e1, e2) => MoreUpdate(fuel - 1, e1, e2, env);
      case ConcatLists(e1, e2) => MoreEval(fuel - 1, e1, env); MoreEval(fuel - 1, e2, env);
    }
  }

  lemma {:induction false} MoreVar(fuel: nat, name: Name, env: N.Env)
    ensures Settled(N.EvalVar(fuel, name, env), N.EvalVar(fuel + 1, name, env))
    decreases fuel, 4, End
  {
    match N.LookupLexical(env, name)
    case Some(t) => MoreForce(fuel, t);
    case None =>
      MoreWith(fuel, env, name, false);
      var t := N.LookupWith(fuel, env, name, false);
      if t.Ok? { MoreForce(fuel, t.value); }
  }

  lemma {:induction false} MoreSelect(fuel: nat, e1: Expr, path: AttrPath, def: Option<Expr>, env: N.Env)
    ensures Settled(N.EvalSelect(fuel, e1, path, def, env), N.EvalSelect(fuel + 1, e1, path, def, env))
    decreases fuel, 4, End
  {
    MoreEval(fuel, e1, env);
    var v := N.Eval(fuel, e1, env);
    if v.Ok? { MoreSelectPath(fuel, N.Ready(v.value), path, def, env); }
  }

  lemma {:induction false} MoreHasAttr(fuel: nat, e1: Expr, path: AttrPath, env: N.Env)
    ensures Settled(N.EvalHasAttr(fuel, e1, path, env), N.EvalHasAttr(fuel + 1, e1, path, env))
    decreases fuel, 4, End
  {
    MoreEval(fuel, e1, env);
    var v := N.Eval(fuel, e1, env);
    if v.Ok? { MoreHasPath(fuel, N.Ready(v.value), path, env); }
  }

  lemma {:induction false} MoreAttrSet(fuel: nat, recursive: bool, defs: Defs, froms: Exprs, dyn: DynAttrs, env: N.Env)
    ensures Settled(N.EvalAttrSet(fuel, recursive, defs, froms, dyn, env),
                    N.EvalAttrSet(fuel + 1, recursive, defs, froms, dyn, env))
    decreases fuel, 4, End
  {
    var inner := if recursive then N.Scope(N.DefBinds(defs), froms, env) else env;
    var attrs := if recursive then N.RecAttrs(inner, inner.binds) else N.PlainAttrs(env, defs, froms);
    MoreDynamic(fuel, attrs, dyn, inner);
  }

  lemma {:induction false} MoreCall(fuel: nat, fun: Expr, args: Exprs, env: N.Env)
    ensures Settled(N.EvalCall(fuel, fun, args, env), N.EvalCall(fuel + 1, fun, args, env))
    decreases fuel, 4, End
  {
    MoreEval(fuel, fun, env);
    var f := N.Eval(fuel, fun, env);
    if f.Ok? { MoreApplyAll(fuel, f.value, N.DelayAll(env, args)); }
  }

  lemma {:induction false} MoreIf(fuel: nat, c: Expr, t: Expr, f: Expr, env: N.Env)
    ensures Settled(N.EvalIf(fuel, c, t, f, env), N.EvalIf(fuel + 1, c, t, f, env))
    decreases fuel, 4, End
  {
    MoreBool(fuel, c, env);
    MoreEval(fuel, t, env);
    MoreEval(fuel, f, env);
  }

  lemma {:induction false} MoreAssert(fuel: nat, c: Expr, body: Expr, env: N.Env)
    ensures Settled(N.EvalAssert(fuel, c, body, env), N.EvalAssert(fuel + 1, c, body, env))
    decreases fuel, 4, End
  {
    MoreBool(fuel, c, env);
    MoreEval(fuel, body, env);
  }

  lemma {:induction false} MoreNot(fuel: nat, e: Expr, env: N.Env)
    ensures Settled(N.EvalNot(fuel, e, env), N.EvalNot(fuel + 1, e, env))
    decreases fuel, 4, End
  {
    MoreBool(fuel, e, env);
  }

  lemma {:induction false} MoreBinOp(fuel: nat, op: BoolOp, e1: Expr, e2: Expr, env: N.Env)
    ensures Settled(N.EvalBinOp(fuel, op, e1, e2, env), N.EvalBinOp(fuel + 1, op, e1, e2, env))
    decreases fuel, 4, End
  {
    MoreBool(fuel, e1, env);
    MoreBool(fuel, e2, env);
  }

  lemma {:induction false} MoreUpdate(fuel: nat, e1: Expr, e2: Expr, env: N.Env)
    ensures Settled(N.EvalUpdate(fuel, e1, e2, env), N.EvalUpdate(fuel + 1, e1, e2, env))
    decreases fuel, 4, End
  {
    MoreAttrs(fuel, e1, env);
    MoreAttrs(fuel, e2, env);
  }

  lemma {:induction false} MoreBool(fuel: nat, e: Expr, env: N.Env)
    ensures Settled(N.EvalBool(fuel, e, env), N.EvalBool(fuel + 1, e, env))
    decreases fuel, 1, End
  {
    MoreEval(fuel, e, env);
  }

  lemma {:induction false} MoreAttrs(fuel: nat, e: Expr, env: N.Env)
    ensures Settled(N.EvalAttrs(fuel, e, env), N.EvalAttrs(fuel + 1, e, env))
    decreases fuel, 1, End
  {
    MoreEval(fuel, e, env);
  }

  lemma {:induction false} MoreForce(fuel: nat, t: N.Thunk)
    ensures Settled(N.Force(fuel, t), N.Force(fuel + 1, t))
    decreases fuel, 1, End
  {
    match t
    case Delay(env, e) => MoreEval(fuel, e, env);
    case Ready(_) =>
    case SelectFrom(env, froms, d, name) =>
      if fuel > 0 && Nth(froms, d).Some? {
        var from := Nth(froms, d).value;
        MoreAttrs(fuel - 1, from, env);
        var attrs := N.EvalAttrs(fuel - 1, from, env);
        if attrs.Ok? && N.Get(attrs.value, name).Some? { MoreForce(fuel - 1, N.Get(attrs.value, name).value); }
      }
  }

  lemma {:induction false} MoreWith(fuel: nat, env: N.Env, name: Name, tried: bool)
    ensures Settled(N.LookupWith(fuel, env, name, tried), N.LookupWith(fuel + 1, env, name, tried))
    decreases fuel, 2, env
  {
    match env
    case Empty =>
    case Scope(_, _, up) => MoreWith(fuel, up, name, tried);
    case WithScope(e, up) => MoreAttrs(fuel, e, up); MoreWith(fuel, up, name, true);
  }

  lemma {:induction false} MoreName(fuel: nat, path: AttrPath, env: N.Env)
    requires !path.End?
    ensures Settled(N.NameOf(fuel, path, env), N.NameOf(fuel + 1, path, env))
    decreases fuel, 2, path
  {
    if path.DynName? { MoreEval(fuel, path.e, env); }
  }

  lemma {:induction false} MoreSelectPath(fuel: nat, cur: N.Thunk, path: AttrPath, def: Option<Expr>, env: N.Env)
    ensures Settled(N.SelectPath(fuel, cur, path, def, env), N.SelectPath(fuel + 1, cur, path, def, env))
    decreases fuel, 3, path, 1
  {
    MoreForce(fuel, cur);
    if !path.End? {
      MoreName(fuel, path, env);
      MoreSelectRest(fuel, N.Picked(N.NameOf(fuel, path, env), N.Force(fuel, cur)), path, def, env);
    }
  }

  lemma {:induction false} MoreSelectRest(fuel: nat, pick: Res<N.Pick>, path: AttrPath, def: Option<Expr>, env: N.Env)
    requires !path.End?
    ensures Settled(N.SelectRest(fuel, pick, path, def, env), N.SelectRest(fuel + 1, pick, path, def, env))
    decreases fuel, 3, path, 0
  {
    if pick.Ok? && pick.value.Found? {
      MoreSelectPath(fuel, pick.value.t, path.rest, def, env);
    } else if def.Some? {
      MoreEval(fuel, def.value, env);
    }
  }

  lemma {:induction false} MoreHasPath(fuel: nat, cur: N.Thunk, path: AttrPath, env: N.Env)
    ensures Settled(N.HasPath(fuel, cur, path, env), N.HasPath(fuel + 1, cur, path, env))
    decreases fuel, 3, path, 1
  {
    MoreForce(fuel, cur);
    if !path.End? {
      MoreName(fuel, path, env);
      MoreHasRest(fuel, N.Picked(N.NameOf(fuel, path, env), N.Force(fuel, cur)), path, env);
    }
  }

  lemma {:induction false} MoreHasRest(fuel: nat, pick: Res<N.Pick>, path: AttrPath, env: N.Env)
    requires !path.End?
    ensures Settled(N.HasRest(fuel, pick, path, env), N.HasRest(fuel + 1, pick, path, env))
    decreases fuel, 3, path, 0
  {
    if pick.Ok? && pick.value.Found? { MoreHasPath(fuel, pick.value.t, path.rest, env); }
  }

  lemma {:induction false} MoreDynamic(fuel: nat, attrs: N.AttrList, dyn: DynAttrs, env: N.Env)
    ensures Settled(N.AddDynamic(fuel, attrs, dyn, env), N.AddDynamic(fuel + 1, attrs, dyn, env))
    decreases fuel, 3, dyn
  {
    if dyn.Dyn? {
      MoreEval(fuel, dyn.nameExpr, env);
      var v := N.Eval(fuel, dyn.nameExpr, env);
      if v.Ok? && v.value.VNull? {
        MoreDynamic(fuel, attrs, dyn.rest, env);
      } else if v.Ok? && v.value.VStr? {
        MoreDynamic(fuel, N.ACons(v.value.s, N.Delay(env, dyn.valueExpr), attrs), dyn.rest, env);
      }
    }
  }

  lemma {:induction false} MoreApplyAll(fuel: nat, f: N.Value, args: N.Thunks)
    ensures Settled(N.ApplyAll(fuel, f, args), N.ApplyAll(fuel + 1, f, args))
    decreases fuel, 3, args
  {
    if args.TCons? {
      MoreApply(fuel, f, args.head);
      var r := N.Apply(fuel, f, args.head);
      if r.Ok? { MoreApplyAll(fuel, r.value, args.tail); }
    }
  }

  lemma {:induction false} MoreApply(fuel: nat, f: N.Value, arg: N.Thunk)
    ensures Settled(N.Apply(fuel, f, arg), N.Apply(fuel + 1, f, arg))
    decreases fuel, 2, End, 1
  {
    match f
    case VLambda(env, Simple(x), body) =>
      MoreEval(fuel, body, N.Scope(N.BCons(x, N.Given(arg), N.BNil), Nil, env));
    case VLambda(env, Pattern(alias, formals, ellipsis), body) =>
      MorePatternCall(fuel, env, Pattern(alias, formals, ellipsis), body, arg);
    case VAttrs(attrs) => MoreFunctor(fuel, attrs, arg);
    case _ =>
  }

  lemma {:induction false} MorePatternCall(fuel: nat, env: N.Env, p: Param, body: Expr, arg: N.Thunk)
    requires p.Pattern?
    ensures Settled(N.Apply(fuel, N.VLambda(env, p, body), arg), N.Apply(fuel + 1, N.VLambda(env, p, body), arg))
    decreases fuel, 2, End, 0
  {
    MoreForce(fuel, arg);
    var v := N.Force(fuel, arg);
    if v.Ok? && v.value.VAttrs? {
      var binds := N.MatchParam(p, arg, v.value.attrs);
      if binds.Ok? { MoreEval(fuel, body, N.Scope(binds.value, Nil, env)); }
    }
  }

  lemma {:induction false} MoreFunctor(fuel: nat, attrs: N.AttrList, arg: N.Thunk)
    ensures Settled(N.Apply(fuel, N.VAttrs(attrs), arg), N.Apply(fuel + 1, N.VAttrs(attrs), arg))
    decreases fuel, 1, End
  {
    if fuel > 0 && N.Get(attrs, "__functor").Some? {
      var t := N.Get(attrs, "__functor").value;
      MoreForce(fuel - 1, t);
      var g := N.Force(fuel - 1, t);
      if g.Ok? { MoreApplyAll(fuel - 1, g.value, N.TCons(N.Ready(N.VAttrs(attrs)), N.TCons(arg, N.TNil))); }
    }
  }

  // ---------- meaning without fuel ----------

  lemma {:induction false} AnyMoreFuel(fuel: nat, fuel': nat, e: Expr, env: N.Env)
    requires fuel <= fuel'
    ensures Settled(N.Eval(fuel, e, env), N.Eval(fuel', e, env))
    decreases fuel' - fuel
  {
    if fuel < fuel' {
      MoreEval(fuel, e, env);
      AnyMoreFuel(fuel + 1, fuel', e, env);
    }
  }

  /** The expression has this value or error, by name. */
  ghost predicate Means(e: Expr, env: N.Env, r: Res<N.Value>) {
    !r.OutOfFuel? && exists fuel: nat :: N.Eval(fuel, e, env) == r
  }

  /** The expression has this value or error, by level and displacement. */
  ghost predicate DisplMeans(e: Expr, env: D.Env, r: Res<D.Value>) {
    !r.OutOfFuel? && exists fuel: nat :: D.Eval(fuel, e, env) == r
  }

  /** An expression has at most one value or error. */
  lemma MeaningIsUnique(e: Expr, env: N.Env, r1: Res<N.Value>, r2: Res<N.Value>)
    requires Means(e, env, r1) && Means(e, env, r2)
    ensures r1 == r2
  {
    var f1: nat :| N.Eval(f1, e, env) == r1;
    var f2: nat :| N.Eval(f2, e, env) == r2;
    if f1 <= f2 { AnyMoreFuel(f1, f2, e, env); } else { AnyMoreFuel(f2, f1, e, env); }
  }

  /** `bindVars` preserves meaning: the bound expression yields exactly the image of what the original yields. */
  lemma MeaningIsPreserved(e: Expr, env: N.Env, r: Res<N.Value>, r': Res<D.Value>)
    requires Means(e, env, r)
    ensures DisplMeans(Bound(e, Static(env)), ImageEnv(env), r') <==> r' == ImageRes(r)
  {
    var fuel: nat :| N.Eval(fuel, e, env) == r;
    SimEval(fuel, e, env);
    if DisplMeans(Bound(e, Static(env)), ImageEnv(env), r') {
      var f: nat :| D.Eval(f, Bound(e, Static(env)), ImageEnv(env)) == r';
      SimEval(f, e, env);
      MeaningIsUnique(e, env, r, N.Eval(f, e, env));
    }
  }

  lemma DivergenceIsPreserved(e: Expr, env: N.Env)
    ensures (forall r :: !Means(e, env, r)) <==> (forall r :: !DisplMeans(Bound(e, Static(env)), ImageEnv(env), r))
  {
    if r :| Means(e, env, r) {
      MeaningIsPreserved(e, env, r, ImageRes(r));
    }
    if r :| DisplMeans(Bound(e, Static(env)), ImageEnv(env), r) {
      var fuel: nat :| D.Eval(fuel, Bound(e, Static(env)), ImageEnv(env)) == r;
      SimEval(fuel, e, env);
      assert Means(e, env, N.Eval(fuel, e, env));
    }
  }
}
