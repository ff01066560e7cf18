/**
 * What evaluation by name computes, construct by construct and without fuel:
 * rules from the meanings of the parts to the meaning of the whole. By
 * `MeaningIsPreserved` they hold of evaluation by level and displacement too.
 */
module NamedLaws {
  import opened Basics
  import opened NixSyntax
  import opened StaticScope
  import opened ScopeSimulation
  import opened FuelStability
  import N = NamedEval
  import D = DisplEval

  // ---------- judgements ----------

  ghost predicate ForcesTo(t: N.Thunk, r: Res<N.Value>) {
    !r.OutOfFuel? && exists fuel: nat :: N.Force(fuel, t) == r
  }

  ghost predicate AppliesTo(f: N.Value, args: N.Thunks, r: Res<N.Value>) {
    !r.OutOfFuel? && exists fuel: nat :: N.ApplyAll(fuel, f, args) == r
  }

  ghost predicate SelectsTo(t: N.Thunk, path: AttrPath, def: Option<Expr>, env: N.Env, r: Res<N.Value>) {
    !r.OutOfFuel? && exists fuel: nat :: N.SelectPath(fuel, t, path, def, env) == r
  }

  ghost predicate HasTo(t: N.Thunk, path: AttrPath, env: N.Env, r: Res<N.Value>) {
    !r.OutOfFuel? && exists fuel: nat :: N.HasPath(fuel, t, path, env) == r
  }

  ghost predicate AddsTo(attrs: N.AttrList, dyn: DynAttrs, env: N.Env, r: Res<N.Value>) {
    !r.OutOfFuel? && exists fuel: nat :: N.AddDynamic(fuel, attrs, dyn, env) == r
  }

  // ---------- enough fuel ----------

  lemma Enough(e: Expr, env: N.Env, r: Res<N.Value>) returns (f: nat)
    requires Means(e, env, r)
    ensures forall g: nat :: g >= f ==> N.Eval(g, e, env) == r
  {
    f :| N.Eval(f, e, env) == r;
    forall g: nat | g >= f ensures N.Eval(g, e, env) == r { AnyMoreFuel(f, g, e, env); }
  }

  /** Enough fuel for two expressions. */
  lemma EnoughBoth(e1: Expr, e2: Expr, env: N.Env, r1: Res<N.Value>, r2: Res<N.Value>) returns (f: nat)
    requires Means(e1, env, r1) && Means(e2, env, r2)
    ensures N.Eval(f, e1, env) == r1 && N.Eval(f, e2, env) == r2
  {
    var k := Enough(e1, env, r1);
    var m := Enough(e2, env, r2);
    f := k + m;
  }

  lemma {:induction false} AnyMoreForce(f: nat, g: nat, t: N.Thunk)
    requires f <= g
    ensures Settled(N.Force(f, t), N.Force(g, t))
    decreases g - f
  {
    if f < g { MoreForce(f, t); AnyMoreForce(f + 1, g, t); }
  }

  lemma EnoughForce(t: N.Thunk, r: Res<N.Value>) returns (f: nat)
    requires ForcesTo(t, r)
    ensures forall g: nat :: g >= f ==> N.Force(g, t) == r
  {
    f :| N.Force(f, t) == r;
    forall g: nat | g >= f ensures N.Force(g, t) == r { AnyMoreForce(f, g, t); }
  }

  lemma {:induction false} AnyMoreApply(f: nat, g: nat, v: N.Value, args: N.Thunks)
    requires f <= g
    ensures Settled(N.ApplyAll(f, v, args), N.ApplyAll(g, v, args))
    decreases g - f
  {
    if f < g { MoreApplyAll(f, v, args); AnyMoreApply(f + 1, g, v, args); }
  }

  lemma EnoughApply(v: N.Value, args: N.Thunks, r: Res<N.Value>) returns (f: nat)
    requires AppliesTo(v, args, r)
    ensures forall g: nat :: g >= f ==> N.ApplyAll(g, v, args) == r
  {
    f :| N.ApplyAll(f, v, args) == r;
    forall g: nat | g >= f ensures N.ApplyAll(g, v, args) == r { AnyMoreApply(f, g, v, args); }
  }

  lemma {:induction false} AnyMoreSelect(f: nat, g: nat, t: N.Thunk, path: AttrPath, def: Option<Expr>, env: N.Env)
    requires f <= g
    ensures Settled(N.SelectPath(f, t, path, def, env), N.SelectPath(g, t, path, def, env))
    decreases g - f
  {
    if f < g { MoreSelectPath(f, t, path, def, env); AnyMoreSelect(f + 1, g, t, path, def, env); }
  }

  lemma EnoughSelect(t: N.Thunk, path: AttrPath, def: Option<Expr>, env: N.Env, r: Res<N.Value>) returns (f: nat)
    requires SelectsTo(t, path, def, env, r)
    ensures forall g: nat :: g >= f ==> N.SelectPath(g, t, path, def, env) == r
  {
    f :| N.SelectPath(f, t, path, def, env) == r;
    forall g: nat | g >= f ensures N.SelectPath(g, t, path, def, env) == r { AnyMoreSelect(f, g, t, path, def, env); }
  }

  lemma {:induction false} AnyMoreHas(f: nat, g: nat, t: N.Thunk, path: AttrPath, env: N.Env)
    requires f <= g
    ensures Settled(N.HasPath(f, t, path, env), N.HasPath(g, t, path, env))
    decreases g - f
  {
    if f < g { MoreHasPath(f, t, path, env); AnyMoreHas(f + 1, g, t, path, env); }
  }

  lemma EnoughHas(t: N.Thunk, path: AttrPath, env: N.Env, r: Res<N.Value>) returns (f: nat)
    requires HasTo(t, path, env, r)
    ensures forall g: nat :: g >= f ==> N.HasPath(g, t, path, env) == r
  {
    f :| N.HasPath(f, t, path, env) == r;
    forall g: nat | g >= f ensures N.HasPath(g, t, path, env) == r { AnyMoreHas(f, g, t, path, env); }
  }

  lemma {:induction false} AnyMoreDynamic(f: nat, g: nat, attrs: N.AttrList, dyn: DynAttrs, env: N.Env)
    requires f <= g
    ensures Settled(N.AddDynamic(f, attrs, dyn, env), N.AddDynamic(g, attrs, dyn, env))
    decreases g - f
  {
    if f < g { MoreDynamic(f, attrs, dyn, env); AnyMoreDynamic(f + 1, g, attrs, dyn, env); }
  }

  lemma EnoughDynamic(attrs: N.AttrList, dyn: DynAttrs, env: N.Env, r: Res<N.Value>) returns (f: nat)
    requires AddsTo(attrs, dyn, env, r)
    ensures forall g: nat :: g >= f ==> N.AddDynamic(g, attrs, dyn, env) == r
  {
    f :| N.AddDynamic(f, attrs, dyn, env) == r;
    forall g: nat | g >= f ensures N.AddDynamic(g, attrs, dyn, env) == r { AnyMoreDynamic(f, g, attrs, dyn, env); }
  }

  // ---------- values ----------

  lemma LiteralRule(n: int, s: string, env: N.Env)
    ensures Means(IntLit(n), env, Ok(N.VInt(n))) && Means(StrLit(s), env, Ok(N.VStr(s)))
  {
    assert N.Eval(1, IntLit(n), env) == Ok(N.VInt(n));
    assert N.Eval(1, StrLit(s), env) == Ok(N.VStr(s));
  }

  /** A function keeps the scope it is written in. */
  lemma LambdaRule(p: Param, body: Expr, env: N.Env)
    ensures Means(Lambda(p, body), env, Ok(N.VLambda(env, p, body)))
  {
    assert N.Eval(1, Lambda(p, body), env) == Ok(N.VLambda(env, p, body));
  }

  // ---------- operators ----------

  lemma BoolAt(fuel: nat, e: Expr, env: N.Env, b: bool)
    requires N.Eval(fuel, e, env) == Ok(N.VBool(b))
    ensures N.EvalBool(fuel, e, env) == Ok(b)
  {
  }

  lemma AttrsAt(fuel: nat, e: Expr, env: N.Env, a: N.AttrList)
    requires N.Eval(fuel, e, env) == Ok(N.VAttrs(a))
    ensures N.EvalAttrs(fuel, e, env) == Ok(a)
  {
  }

  /** The two expressions have the same results, given enough fuel. */
  ghost predicate Follows(e: Expr, env: N.Env, e': Expr, env': N.Env, k: nat) {
    forall g: nat :: g >= k ==> N.Eval(g + 1, e, env) == N.Eval(g, e', env')
  }

  lemma SameMeaning(e: Expr, env: N.Env, e': Expr, env': N.Env, k: nat, r: Res<N.Value>)
    requires Follows(e, env, e', env', k)
    ensures Means(e, env, r) <==> Means(e', env', r)
  {
    if Means(e, env, r) { MeansPart(e, env, e', env', k, r); }
    if Means(e', env', r) { MeansWhole(e, env, e', env', k, r); }
  }

  lemma MeansPart(e: Expr, env: N.Env, e': Expr, env': N.Env, k: nat, r: Res<N.Value>)
    requires Follows(e, env, e', env', k) && Means(e, env, r)
    ensures Means(e', env', r)
  {
    var f: nat :| N.Eval(f, e, env) == r;
    AnyMoreFuel(f, k + f + 1, e, env);
    assert N.Eval(k + f, e', env') == r;
  }

  lemma MeansWhole(e: Expr, env: N.Env, e': Expr, env': N.Env, k: nat, r: Res<N.Value>)
    requires Follows(e, env, e', env', k) && Means(e', env', r)
    ensures Means(e, env, r)
  {
    var f: nat :| N.Eval(f, e', env') == r;
    AnyMoreFuel(f, k + f, e', env');
    assert N.Eval(k + f + 1, e, env) == r;
  }

  lemma IfAt(fuel: nat, c: Expr, t: Expr, f: Expr, env: N.Env, b: bool)
    requires N.EvalBool(fuel, c, env) == Ok(b)
    ensures N.Eval(fuel + 1, If(c, t, f), env) == N.Eval(fuel, if b then t else f, env)
  {
    assert N.Eval(fuel + 1, If(c, t, f), env) == N.EvalIf(fuel, c, t, f, env);
  }

  /** A conditional means what the branch means that its condition chooses. */
  lemma IfRule(c: Expr, t: Expr, f: Expr, env: N.Env, b: bool, r: Res<N.Value>)
    requires Means(c, env, Ok(N.VBool(b)))
    ensures b ==> (Means(If(c, t, f), env, r) <==> Means(t, env, r))
    ensures !b ==> (Means(If(c, t, f), env, r) <==> Means(f, env, r))
  {
    var k := Enough(c, env, Ok(N.VBool(b)));
    var branch := if b then t else f;
    forall g: nat | g >= k ensures N.Eval(g + 1, If(c, t, f), env) == N.Eval(g, branch, env) {
      BoolAt(g, c, env, b);
      IfAt(g, c, t, f, env, b);
    }
    SameMeaning(If(c, t, f), env, branch, env, k, r);
  }

  lemma AssertAt(fuel: nat, c: Expr, body: Expr, env: N.Env, b: bool)
    requires N.EvalBool(fuel, c, env) == Ok(b)
    ensures N.Eval(fuel + 1, Assert(c, body), env) == if b then N.Eval(fuel, body, env) else Err(AssertionFailed)
  {
    assert N.Eval(fuel + 1, Assert(c, body), env) == N.EvalAssert(fuel, c, body, env);
  }

  lemma AssertRule(c: Expr, body: Expr, env: N.Env, b: bool, r: Res<N.Value>)
    requires Means(c, env, Ok(N.VBool(b)))
    ensures b ==> (Means(Assert(c, body), env, r) <==> Means(body, env, r))
    ensures !b ==> Means(Assert(c, body), env, Err(AssertionFailed))
  {
    var k := Enough(c, env, Ok(N.VBool(b)));
    if b {
      forall g: nat | g >= k ensures N.Eval(g + 1, Assert(c, body), env) == N.Eval(g, body, env) {
        BoolAt(g, c, env, b);
        AssertAt(g, c, body, env, b);
      }
      SameMeaning(Assert(c, body), env, body, env, k, r);
    } else {
      BoolAt(k, c, env, b);
      AssertAt(k, c, body, env, b);
    }
  }

  lemma NotRule(e: Expr, env: N.Env, b: bool)
    requires Means(e, env, Ok(N.VBool(b)))
    ensures Means(Not(e), env, Ok(N.VBool(!b)))
  {
    var k := Enough(e, env, Ok(N.VBool(b)));
    BoolAt(k, e, env, b);
    assert N.Eval(k + 1, Not(e), env) == N.EvalNot(k, e, env);
  }

  /** The truth tables of `&&`, `||` and `->`. */
  function Truth(op: BoolOp, x: bool, y: bool): bool {
    match op
    case And => x && y
    case Or => x || y
    case Impl => x ==> y
  }

  lemma BinOpAt(fuel: nat, op: BoolOp, e1: Expr, e2: Expr, env: N.Env, x: bool)
    requires N.EvalBool(fuel, e1, env) == Ok(x)
    ensures Truth(op, x, false) == Truth(op, x, true) ==>
              N.Eval(fuel + 1, BinOp(op, e1, e2), env) == Ok(N.VBool(Truth(op, x, false)))
    ensures N.EvalBool(fuel, e2, env).Ok? ==>
              N.Eval(fuel + 1, BinOp(op, e1, e2), env) == Ok(N.VBool(Truth(op, x, N.EvalBool(fuel, e2, env).value)))
  {
    assert N.Eval(fuel + 1, BinOp(op, e1, e2), env) == N.EvalBinOp(fuel, op, e1, e2, env);
  }

  lemma BoolRule(op: BoolOp, e1: Expr, e2: Expr, env: N.Env, x: bool, y: bool)
    requires Means(e1, env, Ok(N.VBool(x))) && Means(e2, env, Ok(N.VBool(y)))
    ensures Means(BinOp(op, e1, e2), env, Ok(N.VBool(Truth(op, x, y))))
  {
    var k := EnoughBoth(e1, e2, env, Ok(N.VBool(x)), Ok(N.VBool(y)));
    BoolAt(k, e1, env, x);
    BoolAt(k, e2, env, y);
    BinOpAt(k, op, e1, e2, env, x);
  }

  /** Where the left operand decides, the right one is not evaluated. */
  lemma ShortCircuit(op: BoolOp, e1: Expr, e2: Expr, env: N.Env, x: bool)
    requires Means(e1, env, Ok(N.VBool(x))) && Truth(op, x, false) == Truth(op, x, true)
    ensures Means(BinOp(op, e1, e2), env, Ok(N.VBool(Truth(op, x, false))))
  {
    var k := Enough(e1, env, Ok(N.VBool(x)));
    BoolAt(k, e1, env, x);
    BinOpAt(k, op, e1, e2, env, x);
  }

  lemma {:induction false} GetAppend(a: N.AttrList, b: N.AttrList, name: Name)
    ensures N.Get(N.Append(a, b), name) == if N.Get(a, name).Some? then N.Get(a, name) else N.Get(b, name)
  {
    if a.ACons? { GetAppend(a.rest, b, name); }
  }

  lemma {:induction false} GetWithout(a: N.AttrList, b: N.AttrList, name: Name)
    ensures N.Get(N.Without(a, b), name) == if N.Get(b, name).Some? then None else N.Get(a, name)
  {
    if a.ACons? { GetWithout(a.rest, b, name); }
  }

  /** The names of the right operand win. */
  ghost predicate RightBiased(a: N.AttrList, b: N.AttrList, r: N.AttrList) {
    forall name :: N.Get(r, name) == if N.Get(b, name).Some? then N.Get(b, name) else N.Get(a, name)
  }

  /** `e1 // e2` is a set in which every name has its value from the right operand, or else from the left one. */
  lemma UpdateRule(e1: Expr, e2: Expr, env: N.Env, a: N.AttrList, b: N.AttrList) returns (r: N.AttrList)
    requires Means(e1, env, Ok(N.VAttrs(a))) && Means(e2, env, Ok(N.VAttrs(b)))
    ensures Means(Update(e1, e2), env, Ok(N.VAttrs(r))) && RightBiased(a, b, r)
  {
    var k := EnoughBoth(e1, e2, env, Ok(N.VAttrs(a)), Ok(N.VAttrs(b)));
    AttrsAt(k, e1, env, a);
    AttrsAt(k, e2, env, b);
    r := UpdateAt(k, e1, e2, env, a, b);
  }

  lemma UpdateAt(fuel: nat, e1: Expr, e2: Expr, env: N.Env, a: N.AttrList, b: N.AttrList) returns (r: N.AttrList)
    requires N.EvalAttrs(fuel, e1, env) == Ok(a) && N.EvalAttrs(fuel, e2, env) == Ok(b)
    ensures N.Eval(fuel + 1, Update(e1, e2), env) == Ok(N.VAttrs(r)) && RightBiased(a, b, r)
  {
    assert N.Eval(fuel + 1, Update(e1, e2), env) == N.EvalUpdate(fuel, e1, e2, env);
    r := N.EvalUpdate(fuel, e1, e2, env).value.attrs;
    OverrideIsRightBiased(a, b);
  }

  lemma OverrideIsRightBiased(a: N.AttrList, b: N.AttrList)
    ensures RightBiased(a, b, N.Override(a, b))
  {
    forall name
      ensures N.Get(N.Override(a, b), name) == if N.Get(b, name).Some? then N.Get(b, name) else N.Get(a, name)
    {
      GetWithout(a, b, name);
      GetAppend(b, N.Without(a, b), name);
    }
  }

  /** The same of the evaluator by displacement, on the bound expression. */
  lemma DisplUpdateRule(e1: Expr, e2: Expr, env: N.Env, a: N.AttrList, b: N.AttrList) returns (r: D.AttrList)
    requires Means(e1, env, Ok(N.VAttrs(a))) && Means(e2, env, Ok(N.VAttrs(b)))
    ensures var s := Static(env);
            && DisplMeans(Bound(e1, s), ImageEnv(env), Ok(D.VAttrs(ImageAttrs(a))))
            && DisplMeans(Bound(e2, s), ImageEnv(env), Ok(D.VAttrs(ImageAttrs(b))))
            && DisplMeans(Update(Bound(e1, s), Bound(e2, s)), ImageEnv(env), Ok(D.VAttrs(r)))
    ensures forall name :: D.Get(r, name) == if D.Get(ImageAttrs(b), name).Some? then D.Get(ImageAttrs(b), name)
                                             else D.Get(ImageAttrs(a), name)
  {
    var m := UpdateRule(e1, e2, env, a, b);
    r := ImageAttrs(m);
    MeaningIsPreserved(e1, env, Ok(N.VAttrs(a)), Ok(D.VAttrs(ImageAttrs(a))));
    MeaningIsPreserved(e2, env, Ok(N.VAttrs(b)), Ok(D.VAttrs(ImageAttrs(b))));
    MeaningIsPreserved(Update(e1, e2), env, Ok(N.VAttrs(m)), Ok(D.VAttrs(r)));
    forall name ensures D.Get(r, name) == if D.Get(ImageAttrs(b), name).Some? then D.Get(ImageAttrs(b), name)
                                          else D.Get(ImageAttrs(a), name)
    {
      GetImage(m, name);
      GetImage(a, name);
      GetImage(b, name);
    }
  }

  function Elems(ts: N.Thunks): seq<N.Thunk> {
    match ts
    case TNil => []
    case TCons(t, rest) => [t] + Elems(rest)
  }

  lemma {:induction false} ElemsAppend(a: N.Thunks, b: N.Thunks)
    ensures Elems(N.AppendThunks(a, b)) == Elems(a) + Elems(b)
  {
    if a.TCons? { ElemsAppend(a.tail, b); }
  }

  /** `e1 ++ e2` has the elements of the left operand, then those of the right one. */
  lemma ConcatRule(e1: Expr, e2: Expr, env: N.Env, a: N.Thunks, b: N.Thunks) returns (r: N.Thunks)
    requires Means(e1, env, Ok(N.VList(a))) && Means(e2, env, Ok(N.VList(b)))
    ensures Means(ConcatLists(e1, e2), env, Ok(N.VList(r))) && Elems(r) == Elems(a) + Elems(b)
  {
    var k := EnoughBoth(e1, e2, env, Ok(N.VList(a)), Ok(N.VList(b)));
    r := N.AppendThunks(a, b);
    ElemsAppend(a, b);
    assert N.Eval(k + 1, ConcatLists(e1, e2), env) == Ok(N.VList(r));
  }

  /** A list holds its elements in order, delayed in its scope. */
  lemma {:induction false} ListRule(es: Exprs, env: N.Env) returns (r: N.Thunks)
    ensures Means(ListExpr(es), env, Ok(N.VList(r))) && |Elems(r)| == Length(es)
    ensures forall i :: 0 <= i < Length(es) ==> Nth(es, i).Some? && Elems(r)[i] == N.Delay(env, Nth(es, i).value)
  {
    r := N.DelayAll(env, es);
    DelayAllElems(es, env);
    assert N.Eval(1, ListExpr(es), env) == Ok(N.VList(r));
  }

  lemma {:induction false} DelayAllElems(es: Exprs, env: N.Env)
    ensures |Elems(N.DelayAll(env, es))| == Length(es)
    ensures forall i :: 0 <= i < Length(es) ==>
              Nth(es, i).Some? && Elems(N.DelayAll(env, es))[i] == N.Delay(env, Nth(es, i).value)
  {
    if es.Cons? {
      DelayAllElems(es.tail, env);
      forall i | 0 <= i < Length(es)
        ensures Nth(es, i).Some? && Elems(N.DelayAll(env, es))[i] == N.Delay(env, Nth(es, i).value)
      {
        if i > 0 { assert Nth(es, i) == Nth(es.tail, i - 1); }
      }
    }
  }

  // ---------- variables ----------

  /** The frame `k` steps outwards. */
  function FrameAt(env: N.Env, k: nat): N.Env {
    if k == 0 || env.Empty? then env else FrameAt(env.up, k - 1)
  }

  predicate Binds(frame: N.Env, name: Name) { frame.Scope? && N.FindSlot(frame.binds, name).Some? }

  /** The value bound to a name is that of the innermost frame that binds it, whatever `with`s are in between. */
  lemma {:induction false} InnermostWins(env: N.Env, name: Name, k: nat)
    requires Binds(FrameAt(env, k), name) && forall j: nat :: j < k ==> !Binds(FrameAt(env, j), name)
    ensures var frame := FrameAt(env, k);
            N.LookupLexical(env, name) == Some(N.SlotThunk(frame, name, N.FindSlot(frame.binds, name).value))
    decreases k
  {
    assert !(k > 0) || !Binds(FrameAt(env, 0), name);
    if k > 0 {
      forall j: nat | j < k - 1 ensures !Binds(FrameAt(env.up, j), name) {
        assert FrameAt(env.up, j) == FrameAt(env, j + 1);
      }
      InnermostWins(env.up, name, k - 1);
    }
  }

  lemma {:induction false} NowhereBound(env: N.Env, name: Name)
    requires forall j: nat :: !Binds(FrameAt(env, j), name)
    ensures N.LookupLexical(env, name).None?
  {
    assert !Binds(FrameAt(env, 0), name);
    if !env.Empty? {
      forall j: nat ensures !Binds(FrameAt(env.up, j), name) { assert FrameAt(env.up, j) == FrameAt(env, j + 1); }
      NowhereBound(env.up, name);
    }
  }

  /** A lexically bound variable means what its value is forced to: it beats every `with`. */
  lemma VarRule(name: Name, b: Binding, env: N.Env, t: N.Thunk, r: Res<N.Value>)
    requires N.LookupLexical(env, name) == Some(t)
    ensures Means(Var(name, b), env, r) <==> ForcesTo(t, r)
  {
    if Means(Var(name, b), env, r) {
      var m := Enough(Var(name, b), env, r);
      assert N.Eval(m + 1, Var(name, b), env) == N.EvalVar(m, name, env) == N.Force(m, t);
    }
    if ForcesTo(t, r) {
      var m := EnoughForce(t, r);
      assert N.Eval(m + 1, Var(name, b), env) == N.EvalVar(m, name, env) == N.Force(m, t);
    }
  }

  /** A delayed expression is forced to what it means. */
  lemma DelayRule(e: Expr, env: N.Env, r: Res<N.Value>)
    ensures ForcesTo(N.Delay(env, e), r) <==> Means(e, env, r)
  {
    if ForcesTo(N.Delay(env, e), r) {
      var m := EnoughForce(N.Delay(env, e), r);
      assert N.Force(m, N.Delay(env, e)) == r;
      assert N.Eval(m, e, env) == r;
    }
    if Means(e, env, r) {
      var m := Enough(e, env, r);
      assert N.Eval(m, e, env) == r;
      assert N.Force(m, N.Delay(env, e)) == r;
    }
  }

  /** The body of a `with` sees its set behind every lexical binding. */
  lemma WithRule(attrs: Expr, body: Expr, info: WithInfo, env: N.Env, r: Res<N.Value>)
    ensures Means(With(attrs, body, info), env, r) <==> Means(body, N.WithScope(attrs, env), r)
    ensures forall name :: N.LookupLexical(N.WithScope(attrs, env), name) == N.LookupLexical(env, name)
  {
    SameMeaning(With(attrs, body, info), env, body, N.WithScope(attrs, env), 0, r);
  }

  /** A name that is not bound lexically and that the innermost `with` has is taken from there: inner beats outer. */
  lemma WithFoundRule(name: Name, b: Binding, e: Expr, up: N.Env, a: N.AttrList, t: N.Thunk, r: Res<N.Value>)
    requires N.LookupLexical(up, name).None? && Means(e, up, Ok(N.VAttrs(a))) && N.Get(a, name) == Some(t)
    ensures Means(Var(name, b), N.WithScope(e, up), r) <==> ForcesTo(t, r)
  {
    var env := N.WithScope(e, up);
    var k := Enough(e, up, Ok(N.VAttrs(a)));
    if Means(Var(name, b), env, r) {
      var m := Enough(Var(name, b), env, r);
      FoundAt(k + m, name, b, e, up, a, t);
      assert N.Eval(k + m + 1, Var(name, b), env) == r;
    }
    if ForcesTo(t, r) {
      var m := EnoughForce(t, r);
      FoundAt(k + m, name, b, e, up, a, t);
      assert N.Force(k + m, t) == r;
    }
  }

  lemma FoundAt(fuel: nat, name: Name, b: Binding, e: Expr, up: N.Env, a: N.AttrList, t: N.Thunk)
    requires N.LookupLexical(up, name).None? && N.Eval(fuel, e, up) == Ok(N.VAttrs(a)) && N.Get(a, name) == Some(t)
    ensures N.Eval(fuel + 1, Var(name, b), N.WithScope(e, up)) == N.Force(fuel, t)
  {
    AttrsAt(fuel, e, up, a);
    assert N.LookupWith(fuel, N.WithScope(e, up), name, false) == Ok(t);
    assert N.EvalVar(fuel, name, N.WithScope(e, up)) == N.Force(fuel, t);
  }

  lemma {:induction false} TriedMatters(fuel: nat, env: N.Env, name: Name)
    ensures EnclosingWith(Static(env)).Some? ==>
              N.LookupWith(fuel, env, name, true) == N.LookupWith(fuel, env, name, false)
    ensures EnclosingWith(Static(env)).None? ==> N.LookupWith(fuel, env, name, true) == Err(UndefinedVar(name))
  {
    match env
    case Empty =>
    case Scope(_, _, up) => TriedMatters(fuel, up, name);
    case WithScope(_, _) =>
  }

  /** If the innermost `with` lacks the name, the enclosing ones are tried; without any the variable is undefined. */
  lemma WithMissedRule(name: Name, b: Binding, e: Expr, up: N.Env, a: N.AttrList, r: Res<N.Value>)
    requires N.LookupLexical(up, name).None? && Means(e, up, Ok(N.VAttrs(a))) && N.Get(a, name).None?
    ensures EnclosingWith(Static(up)).Some? ==>
              (Means(Var(name, b), N.WithScope(e, up), r) <==> Means(Var(name, b), up, r))
    ensures EnclosingWith(Static(up)).None? ==>
              Means(Var(name, b), N.WithScope(e, up), Err(UndefinedVar(name)))
  {
    var env := N.WithScope(e, up);
    var k := Enough(e, up, Ok(N.VAttrs(a)));
    forall g: nat | g >= k
      ensures N.LookupWith(g, env, name, false) == N.LookupWith(g, up, name, true)
    {
      assert N.Eval(g, e, up) == Ok(N.VAttrs(a));
    }
    if EnclosingWith(Static(up)).None? {
      TriedMatters(k, up, name);
      assert N.LookupWith(k, env, name, false) == Err(UndefinedVar(name));
      assert N.Eval(k + 1, Var(name, b), env) == Err(UndefinedVar(name));
    } else {
      SameAtFuel(name, b, env, up, k, r);
    }
  }

  /** Two scopes in which the search through `with`s gives the same. */
  lemma SameAtFuel(name: Name, b: Binding, env: N.Env, up: N.Env, k: nat, r: Res<N.Value>)
    requires N.LookupLexical(env, name).None? && N.LookupLexical(up, name).None? && EnclosingWith(Static(up)).Some?
    requires forall g: nat :: g >= k ==> N.LookupWith(g, env, name, false) == N.LookupWith(g, up, name, true)
    ensures Means(Var(name, b), env, r) <==> Means(Var(name, b), up, r)
  {
    if Means(Var(name, b), env, r) {
      var m := Enough(Var(name, b), env, r);
      SameVarAt(name, b, env, up, k + m);
    }
    if Means(Var(name, b), up, r) {
      var m := Enough(Var(name, b), up, r);
      SameVarAt(name, b, env, up, k + m);
    }
  }

  lemma SameVarAt(name: Name, b: Binding, env: N.Env, up: N.Env, g: nat)
    requires N.LookupLexical(env, name).None? && N.LookupLexical(up, name).None? && EnclosingWith(Static(up)).Some?
    requires N.LookupWith(g, env, name, false) == N.LookupWith(g, up, name, true)
    ensures N.Eval(g + 1, Var(name, b), env) == N.Eval(g + 1, Var(name, b), up)
  {
    TriedMatters(g, up, name);
    VarAt(g, name, b, env);
    VarAt(g, name, b, up);
  }

  lemma VarAt(fuel: nat, name: Name, b: Binding, env: N.Env)
    requires N.LookupLexical(env, name).None?
    ensures var t := N.LookupWith(fuel, env, name, false);
            N.Eval(fuel + 1, Var(name, b), env) == if t.Ok? then N.Force(fuel, t.value) else t.PropagateFailure()
  {
    assert N.Eval(fuel + 1, Var(name, b), env) == N.EvalVar(fuel, name, env);
  }

  /** A frame that does not bind a name does not change what it means. */
  lemma FrameMissedRule(name: Name, b: Binding, binds: N.Binds, froms: Exprs, up: N.Env, r: Res<N.Value>)
    requires N.FindSlot(binds, name).None?
    ensures Means(Var(name, b), N.Scope(binds, froms, up), r) <==> Means(Var(name, b), up, r)
  {
    var env := N.Scope(binds, froms, up);
    if N.LookupLexical(up, name).Some? {
      var t := SlotOf(env, up, name);
      VarRule(name, b, env, t, r);
      VarRule(name, b, up, t, r);
    } else {
      forall g: nat ensures N.Eval(g, Var(name, b), env) == N.Eval(g, Var(name, b), up) {
        if g > 0 { assert N.LookupWith(g - 1, env, name, false) == N.LookupWith(g - 1, up, name, false); }
      }
    }
  }

  lemma SlotOf(env: N.Env, up: N.Env, name: Name) returns (t: N.Thunk)
    requires env.Scope? && env.up == up && N.FindSlot(env.binds, name).None? && N.LookupLexical(up, name).Some?
    ensures N.LookupLexical(up, name) == Some(t) && N.LookupLexical(env, name) == Some(t)
  {
    t := N.LookupLexical(up, name).value;
  }

  lemma ReadyRule(v: N.Value, r: Res<N.Value>)
    ensures ForcesTo(N.Ready(v), r) <==> r == Ok(v)
  {
    assert N.Force(0, N.Ready(v)) == Ok(v);
    if ForcesTo(N.Ready(v), r) {
      var m := EnoughForce(N.Ready(v), r);
      assert N.Force(m, N.Ready(v)) == r;
    }
  }

  // ---------- errors ----------

  /** The part that is evaluated first; of `//` it is the right operand. */
  function First(e: Expr): Option<Expr> {
    match e
    case If(c, _, _) => Some(c)
    case Assert(c, _) => Some(c)
    case Not(e1) => Some(e1)
    case BinOp(_, e1, _) => Some(e1)
    case Update(_, e2) => Some(e2)
    case ConcatLists(e1, _) => Some(e1)
    case Select(e1, _, _) => Some(e1)
    case HasAttr(e1, _) => Some(e1)
    case Call(fun, _) => Some(fun)
    case _ => None
  }

  lemma BoolErrorAt(fuel: nat, e: Expr, env: N.Env, err: Error)
    requires N.Eval(fuel, e, env) == Err(err)
    ensures N.EvalBool(fuel, e, env) == Err(err) && N.EvalAttrs(fuel, e, env) == Err(err)
  {
  }

  lemma OperatorErrorAt(fuel: nat, e: Expr, env: N.Env, err: Error)
    requires e.If? || e.Assert? || e.Not? || e.BinOp? || e.Update?
    requires N.EvalBool(fuel, First(e).value, env) == Err(err) && N.EvalAttrs(fuel, First(e).value, env) == Err(err)
    ensures N.Eval(fuel + 1, e, env) == Err(err)
  {
    match e
    case If(c, t, f) => assert N.EvalIf(fuel, c, t, f, env) == Err(err);
    case Assert(c, body) => assert N.EvalAssert(fuel, c, body, env) == Err(err);
    case Not(e1) => assert N.EvalNot(fuel, e1, env) == Err(err);
    case BinOp(op, e1, e2) => assert N.EvalBinOp(fuel, op, e1, e2, env) == Err(err);
    case Update(e1, e2) => assert N.EvalUpdate(fuel, e1, e2, env) == Err(err);
  }

  lemma OtherErrorAt(fuel: nat, e: Expr, env: N.Env, err: Error)
    requires e.ConcatLists? || e.Select? || e.HasAttr? || e.Call?
    requires N.Eval(fuel, First(e).value, env) == Err(err)
    ensures N.Eval(fuel + 1, e, env) == Err(err)
  {
    match e
    case ConcatLists(e1, e2) =>
    case Select(e1, path, def) => assert N.EvalSelect(fuel, e1, path, def, env) == Err(err);
    case HasAttr(e1, path) => assert N.EvalHasAttr(fuel, e1, path, env) == Err(err);
    case Call(fun, args) => assert N.EvalCall(fuel, fun, args, env) == Err(err);
  }

  /** An error in the part that is evaluated first is the error of the whole. */
  lemma FirstErrorRule(e: Expr, env: N.Env, err: Error)
    requires First(e).Some? && Means(First(e).value, env, Err(err))
    ensures Means(e, env, Err(err))
  {
    var k := Enough(First(e).value, env, Err(err));
    if e.ConcatLists? || e.Select? || e.HasAttr? || e.Call? {
      OtherErrorAt(k, e, env, err);
    } else {
      BoolErrorAt(k, First(e).value, env, err);
      OperatorErrorAt(k, e, env, err);
    }
  }

  /** So is a value of the wrong type there. */
  lemma TypeErrorRule(e: Expr, env: N.Env, v: N.Value)
    requires e.If? || e.Assert? || e.Not? || e.BinOp? || e.Update?
    requires Means(First(e).value, env, Ok(v)) && (if e.Update? then !v.VAttrs? else !v.VBool?)
    ensures Means(e, env, Err(TypeError))
  {
    var k := Enough(First(e).value, env, Ok(v));
    TypeErrorAt(k, e, env, v);
  }

  lemma TypeErrorAt(fuel: nat, e: Expr, env: N.Env, v: N.Value)
    requires e.If? || e.Assert? || e.Not? || e.BinOp? || e.Update?
    requires N.Eval(fuel, First(e).value, env) == Ok(v) && (if e.Update? then !v.VAttrs? else !v.VBool?)
    ensures N.Eval(fuel + 1, e, env) == Err(TypeError)
  {
    assert e.Update? ==> N.EvalAttrs(fuel, First(e).value, env) == Err(TypeError);
    assert !e.Update? ==> N.EvalBool(fuel, First(e).value, env) == Err(TypeError);
    match e
    case If(c, t, f) => assert N.EvalIf(fuel, c, t, f, env) == Err(TypeError);
    case Assert(c, body) => assert N.EvalAssert(fuel, c, body, env) == Err(TypeError);
    case Not(e1) => assert N.EvalNot(fuel, e1, env) == Err(TypeError);
    case BinOp(op, e1, e2) => assert N.EvalBinOp(fuel, op, e1, e2, env) == Err(TypeError);
    case Update(e1, e2) => assert N.EvalUpdate(fuel, e1, e2, env) == Err(TypeError);
  }
}
