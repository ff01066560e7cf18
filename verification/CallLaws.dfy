/**
 * What evaluation by name computes where functions are called, as rules
 * without fuel.
 */
module CallLaws {
  import opened Basics
  import opened NixSyntax
  import opened FuelStability
  import opened NamedLaws
  import N = NamedEval

  // ---------- arguments one after the other ----------

  /** A call applies the function to the arguments, delayed in the scope of the call. */
  lemma CallRule(fun: Expr, args: Exprs, env: N.Env, f: N.Value, r: Res<N.Value>)
    requires Means(fun, env, Ok(f))
    ensures Means(Call(fun, args), env, r) <==> AppliesTo(f, N.DelayAll(env, args), r)
  {
    var k := Enough(fun, env, Ok(f));
    var ts := N.DelayAll(env, args);
    if Means(Call(fun, args), env, r) {
      var m := Enough(Call(fun, args), env, r);
      CallAt(k + m, fun, args, env, f);
      assert N.Eval(k + m + 1, Call(fun, args), env) == r;
    }
    if AppliesTo(f, ts, r) {
      var m := EnoughApply(f, ts, r);
      CallAt(k + m, fun, args, env, f);
      assert N.ApplyAll(k + m, f, ts) == r;
    }
  }

  lemma CallAt(fuel: nat, fun: Expr, args: Exprs, env: N.Env, f: N.Value)
    requires N.Eval(fuel, fun, env) == Ok(f)
    ensures N.Eval(fuel + 1, Call(fun, args), env) == N.ApplyAll(fuel, f, N.DelayAll(env, args))
  {
    assert N.Eval(fuel + 1, Call(fun, args), env) == N.EvalCall(fuel, fun, args, env);
  }

  function One(t: N.Thunk): N.Thunks { N.TCons(t, N.TNil) }

  lemma NoArgsRule(f: N.Value, r: Res<N.Value>)
    ensures AppliesTo(f, N.TNil, r) <==> r == Ok(f)
  {
    assert N.ApplyAll(0, f, N.TNil) == Ok(f);
    if AppliesTo(f, N.TNil, r) {
      var m := EnoughApply(f, N.TNil, r);
      assert N.ApplyAll(m, f, N.TNil) == r;
    }
  }

  lemma OneAt(fuel: nat, f: N.Value, t: N.Thunk)
    ensures N.ApplyAll(fuel, f, One(t)) == N.Apply(fuel, f, t)
  {
    var r := N.Apply(fuel, f, t);
    if r.Ok? { assert N.ApplyAll(fuel, r.value, N.TNil) == r; }
  }

  lemma ManyAt(fuel: nat, f: N.Value, t: N.Thunk, rest: N.Thunks)
    ensures var g := N.ApplyAll(fuel, f, One(t));
            N.ApplyAll(fuel, f, N.TCons(t, rest)) == if g.Ok? then N.ApplyAll(fuel, g.value, rest) else g
  {
    OneAt(fuel, f, t);
  }

  /** The result of the first argument is applied to the others; an error ends the call. */
  lemma ManyArgsRule(f: N.Value, t: N.Thunk, rest: N.Thunks, g: Res<N.Value>, r: Res<N.Value>)
    requires AppliesTo(f, One(t), g)
    ensures g.Ok? ==> (AppliesTo(f, N.TCons(t, rest), r) <==> AppliesTo(g.value, rest, r))
    ensures g.Err? ==> AppliesTo(f, N.TCons(t, rest), g)
  {
    var k := EnoughApply(f, One(t), g);
    if g.Err? {
      ManyAt(k, f, t, rest);
    } else {
      if AppliesTo(f, N.TCons(t, rest), r) {
        var m := EnoughApply(f, N.TCons(t, rest), r);
        ManyAt(k + m, f, t, rest);
        assert N.ApplyAll(k + m, f, N.TCons(t, rest)) == r;
      }
      if AppliesTo(g.value, rest, r) {
        var m := EnoughApply(g.value, rest, r);
        ManyAt(k + m, f, t, rest);
        assert N.ApplyAll(k + m, g.value, rest) == r;
      }
    }
  }

  // ---------- functions ----------

  /** The body runs in the scope of the function, where the parameter is the argument. */
  lemma SimpleCallRule(env: N.Env, x: Name, body: Expr, arg: N.Thunk, r: Res<N.Value>) returns (frame: N.Env)
    ensures N.LookupLexical(frame, x) == Some(arg)
    ensures forall n :: n != x ==> N.LookupLexical(frame, n) == N.LookupLexical(env, n)
    ensures AppliesTo(N.VLambda(env, Simple(x), body), One(arg), r) <==> Means(body, frame, r)
  {
    frame := N.Scope(N.BCons(x, N.Given(arg), N.BNil), Nil, env);
    var f := N.VLambda(env, Simple(x), body);
    forall n ensures n != x ==> N.LookupLexical(frame, n) == N.LookupLexical(env, n) {
      assert n != x ==> N.FindSlot(frame.binds, n) == N.FindSlot(N.BNil, n) == None;
    }
    if AppliesTo(f, One(arg), r) {
      var m := EnoughApply(f, One(arg), r);
      OneAt(m, f, arg);
      assert N.ApplyAll(m, f, One(arg)) == r;
    }
    if Means(body, frame, r) {
      var m := Enough(body, frame, r);
      OneAt(m, f, arg);
      assert N.Eval(m, body, frame) == r;
    }
  }

  /** A formal of this name. */
  function FindFormal(formals: FormalList, name: Name): Option<Option<Expr>> {
    match formals
    case NoFormals => None
    case Formal(n, def, rest) => if n == name then Some(def) else FindFormal(rest, name)
  }

  /** Some formal has this name and no default. */
  predicate Demands(formals: FormalList, name: Name) {
    formals.Formal? && ((formals.name == name && formals.def.None?) || Demands(formals.rest, name))
  }

  /** What a formal stands for: the attribute if it is given, else its default in the frame of the call. */
  ghost predicate FormalsBound(binds: N.Binds, formals: FormalList, attrs: N.AttrList) {
    forall name ::
      N.FindSlot(binds, name)
      == match FindFormal(formals, name)
         case None => None
         case Some(def) =>
           if N.Get(attrs, name).Some? then Some(N.Given(N.Get(attrs, name).value))
           else if def.Some? then Some(N.Own(def.value)) else None
  }

  /** A missing argument: demanded and not given. */
  predicate IsMissing(formals: FormalList, attrs: N.AttrList, name: Name) {
    Demands(formals, name) && N.Get(attrs, name).None?
  }

  lemma {:induction false} FormalsRule(formals: FormalList, attrs: N.AttrList)
    ensures var r := N.MatchFormals(formals, attrs);
            && (r.Ok? <==> forall n :: !IsMissing(formals, attrs, n))
            && (r.Ok? ==> FormalsBound(r.value, formals, attrs))
            && (!r.Ok? ==> r.Err? && r.error.MissingArg? && IsMissing(formals, attrs, r.error.name))
  {
    if formals.Formal? {
      FormalsRule(formals.rest, attrs);
      var r, rest := N.MatchFormals(formals, attrs), N.MatchFormals(formals.rest, attrs);
      if r.Ok? {
        forall n ensures !IsMissing(formals, attrs, n) { assert !IsMissing(formals.rest, attrs, n); }
      } else if rest.Ok? {
        assert IsMissing(formals, attrs, formals.name);
      } else {
        assert IsMissing(formals.rest, attrs, rest.error.name);
        assert IsMissing(formals, attrs, rest.error.name);
      }
    }
  }

  /** An attribute that no formal takes. */
  predicate IsUnexpected(formals: FormalList, attrs: N.AttrList, name: Name) {
    N.Get(attrs, name).Some? && name !in FormalNames(formals)
  }

  lemma {:induction false} UnexpectedRule(attrs: N.AttrList, names: seq<Name>)
    ensures var u := N.FirstUnexpected(attrs, names);
            && (u.Some? ==> N.Get(attrs, u.value).Some? && u.value !in names)
            && (u.None? ==> forall n :: N.Get(attrs, n).Some? ==> n in names)
  {
    if attrs.ACons? { UnexpectedRule(attrs.rest, names); }
  }

  /** The frame of a call: the named argument first, then the formals. */
  ghost predicate ParamBound(binds: N.Binds, p: Param, arg: N.Thunk, attrs: N.AttrList)
    requires p.Pattern?
  {
    && (p.alias.Some? ==> N.FindSlot(binds, p.alias.value) == Some(N.Given(arg)))
    && forall name :: p.alias != Some(name) ==>
         N.FindSlot(binds, name)
         == match FindFormal(p.formals, name)
            case None => None
            case Some(def) =>
              if N.Get(attrs, name).Some? then Some(N.Given(N.Get(attrs, name).value))
              else if def.Some? then Some(N.Own(def.value)) else None
  }

  /**
   * Matching succeeds exactly if nothing demanded is missing and, without an
   * ellipsis, nothing is unexpected; a given argument beats the default.
   */
  lemma ParamRule(p: Param, arg: N.Thunk, attrs: N.AttrList)
    requires p.Pattern?
    ensures var r := N.MatchParam(p, arg, attrs);
            && (r.Ok? <==> && (forall n :: !IsMissing(p.formals, attrs, n))
                           && (p.ellipsis || forall n :: !IsUnexpected(p.formals, attrs, n)))
            && (r.Ok? ==> ParamBound(r.value, p, arg, attrs))
            && (!r.Ok? ==> r.Err? && ((r.error.MissingArg? && IsMissing(p.formals, attrs, r.error.name))
                                      || (r.error.UnexpectedArg? && IsUnexpected(p.formals, attrs, r.error.name))))
  {
    FormalsRule(p.formals, attrs);
    UnexpectedRule(attrs, FormalNames(p.formals));
    var u := N.FirstUnexpected(attrs, FormalNames(p.formals));
    if u.Some? { assert IsUnexpected(p.formals, attrs, u.value); }
  }

  /** The body runs in the frame that matching gives, inside the scope of the function. */
  lemma PatternCallRule(env: N.Env, p: Param, body: Expr, arg: N.Thunk, attrs: N.AttrList, r: Res<N.Value>)
    requires p.Pattern? && ForcesTo(arg, Ok(N.VAttrs(attrs)))
    ensures var f, m := N.VLambda(env, p, body), N.MatchParam(p, arg, attrs);
            && (m.Ok? ==> (AppliesTo(f, One(arg), r) <==> Means(body, N.Scope(m.value, Nil, env), r)))
            && (m.Err? ==> AppliesTo(f, One(arg), Err(m.error)))
  {
    var f, m := N.VLambda(env, p, body), N.MatchParam(p, arg, attrs);
    var k := EnoughForce(arg, Ok(N.VAttrs(attrs)));
    if m.Err? {
      PatternAt(k, env, p, body, arg, attrs);
    } else if m.Ok? {
      var frame := N.Scope(m.value, Nil, env);
      if AppliesTo(f, One(arg), r) {
        var n := EnoughApply(f, One(arg), r);
        PatternAt(k + n, env, p, body, arg, attrs);
        assert N.ApplyAll(k + n, f, One(arg)) == r;
      }
      if Means(body, frame, r) {
        var n := Enough(body, frame, r);
        PatternAt(k + n, env, p, body, arg, attrs);
        assert N.Eval(k + n, body, frame) == r;
      }
    }
  }

  lemma PatternAt(fuel: nat, env: N.Env, p: Param, body: Expr, arg: N.Thunk, attrs: N.AttrList)
    requires p.Pattern? && N.Force(fuel, arg) == Ok(N.VAttrs(attrs))
    ensures var m := N.MatchParam(p, arg, attrs);
            N.ApplyAll(fuel, N.VLambda(env, p, body), One(arg))
            == if m.Ok? then N.Eval(fuel, body, N.Scope(m.value, Nil, env)) else m.PropagateFailure()
  {
    OneAt(fuel, N.VLambda(env, p, body), arg);
  }

  /** A set with a `__functor` is called as the functor on the set itself and then on the argument. */
  lemma FunctorCallRule(attrs: N.AttrList, t: N.Thunk, g: N.Value, h: N.Value, arg: N.Thunk, r: Res<N.Value>)
    requires N.Get(attrs, "__functor") == Some(t) && ForcesTo(t, Ok(g))
    requires AppliesTo(g, One(N.Ready(N.VAttrs(attrs))), Ok(h))
    ensures AppliesTo(N.VAttrs(attrs), One(arg), r) <==> AppliesTo(h, One(arg), r)
  {
    var s := N.VAttrs(attrs);
    var k := EnoughForce(t, Ok(g));
    var l := EnoughApply(g, One(N.Ready(s)), Ok(h));
    if AppliesTo(s, One(arg), r) {
      var m := EnoughApply(s, One(arg), r);
      FunctorAt(k + l + m, attrs, t, g, h, arg);
      assert N.ApplyAll(k + l + m + 1, s, One(arg)) == r;
    }
    if AppliesTo(h, One(arg), r) {
      var m := EnoughApply(h, One(arg), r);
      FunctorAt(k + l + m, attrs, t, g, h, arg);
      assert N.ApplyAll(k + l + m, h, One(arg)) == r;
    }
  }

  lemma FunctorAt(fuel: nat, attrs: N.AttrList, t: N.Thunk, g: N.Value, h: N.Value, arg: N.Thunk)
    requires N.Get(attrs, "__functor") == Some(t) && N.Force(fuel, t) == Ok(g)
    requires N.ApplyAll(fuel, g, One(N.Ready(N.VAttrs(attrs)))) == Ok(h)
    ensures N.ApplyAll(fuel + 1, N.VAttrs(attrs), One(arg)) == N.ApplyAll(fuel, h, One(arg))
  {
    var s := N.VAttrs(attrs);
    OneAt(fuel + 1, s, arg);
    assert N.Apply(fuel + 1, s, arg) == N.ApplyAll(fuel, g, N.TCons(N.Ready(s), One(arg)));
    ManyAt(fuel, g, N.Ready(s), One(arg));
  }

  /** Nothing else can be called. */
  lemma NotAFunctionRule(f: N.Value, arg: N.Thunk)
    requires !f.VLambda? && (f.VAttrs? ==> N.Get(f.attrs, "__functor").None?)
    ensures AppliesTo(f, One(arg), Err(NotAFunction))
  {
    OneAt(1, f, arg);
    assert N.ApplyAll(1, f, One(arg)) == Err(NotAFunction);
  }

  /** A function with a pattern forces its argument, which must be a set. */
  lemma PatternErrorRule(env: N.Env, p: Param, body: Expr, arg: N.Thunk, v: Res<N.Value>)
    requires p.Pattern? && ForcesTo(arg, v) && (v.Ok? ==> !v.value.VAttrs?)
    ensures AppliesTo(N.VLambda(env, p, body), One(arg), Err(if v.Ok? then TypeError else v.error))
  {
    var k := EnoughForce(arg, v);
    PatternErrorAt(k, env, p, body, arg, v);
  }

  lemma PatternErrorAt(fuel: nat, env: N.Env, p: Param, body: Expr, arg: N.Thunk, v: Res<N.Value>)
    requires p.Pattern? && N.Force(fuel, arg) == v && !v.OutOfFuel? && (v.Ok? ==> !v.value.VAttrs?)
    ensures N.ApplyAll(fuel, N.VLambda(env, p, body), One(arg)) == Err(if v.Ok? then TypeError else v.error)
  {
    OneAt(fuel, N.VLambda(env, p, body), arg);
  }

  /** An error of the functor, or of applying it to the set, is the error of the call. */
  lemma FunctorErrorRule(attrs: N.AttrList, t: N.Thunk, g: N.Value, arg: N.Thunk, err: Error)
    requires N.Get(attrs, "__functor") == Some(t)
    requires ForcesTo(t, Err(err)) || (ForcesTo(t, Ok(g)) && AppliesTo(g, One(N.Ready(N.VAttrs(attrs))), Err(err)))
    ensures AppliesTo(N.VAttrs(attrs), One(arg), Err(err))
  {
    var s := N.VAttrs(attrs);
    if ForcesTo(t, Err(err)) {
      var k := EnoughForce(t, Err(err));
      OneAt(k + 1, s, arg);
      assert N.Force(k, t) == Err(err);
      assert N.Apply(k + 1, s, arg) == Err(err);
    } else {
      var k := EnoughForce(t, Ok(g));
      var l := EnoughApply(g, One(N.Ready(s)), Err(err));
      FunctorErrorAt(k + l, attrs, t, g, arg, err);
    }
  }

  lemma FunctorErrorAt(fuel: nat, attrs: N.AttrList, t: N.Thunk, g: N.Value, arg: N.Thunk, err: Error)
    requires N.Get(attrs, "__functor") == Some(t) && N.Force(fuel, t) == Ok(g)
    requires N.ApplyAll(fuel, g, One(N.Ready(N.VAttrs(attrs)))) == Err(err)
    ensures N.ApplyAll(fuel + 1, N.VAttrs(attrs), One(arg)) == Err(err)
  {
    var s := N.VAttrs(attrs);
    OneAt(fuel + 1, s, arg);
    assert N.Apply(fuel + 1, s, arg) == N.ApplyAll(fuel, g, N.TCons(N.Ready(s), One(arg)));
    ManyAt(fuel, g, N.Ready(s), One(arg));
  }
}
