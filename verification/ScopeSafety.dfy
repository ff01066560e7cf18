/**
 * What a successful `bindVars` guarantees at run time: no lookup leaves the
 * Env chain or its frame, and an undefined variable is reported only after
 * every enclosing `with` was tried.
 */
module ScopeSafety {
  import opened Basics
  import opened NixSyntax
  import opened StaticScope
  import opened ScopeSimulation
  import N = NamedEval
  import D = DisplEval

  // ---------- every expression held by a value passed bindVars, and contains no `with` if `withFree` ----------

  predicate SafeEnv(env: N.Env, withFree: bool) {
    match env
    case Empty => true
    case Scope(binds, froms, up) =>
      var inner := Frame(None, BindNames(binds), Static(up));
      && SafeEnv(up, withFree)
      && SafeBinds(binds, Length(froms), inner, Static(up), withFree)
      && ScopedAll(froms, inner, withFree)
    case WithScope(e, up) => !withFree && SafeEnv(up, withFree) && Scoped(e, Static(up), withFree)
  }

  predicate SafeBinds(bs: N.Binds, froms: nat, inner: StaticEnv, outer: StaticEnv, withFree: bool) {
    match bs
    case BNil => true
    case BCons(_, slot, rest) =>
      SafeSlot(slot, froms, inner, outer, withFree) && SafeBinds(rest, froms, inner, outer, withFree)
  }

  predicate SafeSlot(slot: N.Slot, froms: nat, inner: StaticEnv, outer: StaticEnv, withFree: bool) {
    match slot
    case Given(t) => SafeThunk(t, withFree)
    case Own(e) => Scoped(e, inner, withFree)
    case Outer(e) => Scoped(e, outer, withFree)
    case From(d) => d < froms
  }

  predicate SafeThunk(t: N.Thunk, withFree: bool) {
    match t
    case Delay(env, e) => SafeEnv(env, withFree) && Scoped(e, Static(env), withFree)
    case Ready(v) => SafeValue(v, withFree)
    case SelectFrom(env, froms, d, _) =>
      SafeEnv(env, withFree) && ScopedAll(froms, Static(env), withFree) && d < Length(froms)
  }

  predicate SafeValue(v: N.Value, withFree: bool) {
    match v
    case VList(ts) => SafeThunks(ts, withFree)
    case VAttrs(attrs) => SafeAttrs(attrs, withFree)
    case VLambda(env, p, body) =>
      var inner := LambdaEnv(p, Static(env));
      SafeEnv(env, withFree) && ScopedParam(p, inner, withFree) && Scoped(body, inner, withFree)
    case _ => true
  }

  predicate SafeThunks(ts: N.Thunks, withFree: bool) {
    match ts
    case TNil => true
    case TCons(t, tail) => SafeThunk(t, withFree) && SafeThunks(tail, withFree)
  }

  predicate SafeAttrs(attrs: N.AttrList, withFree: bool) {
    match attrs
    case ANil => true
    case ACons(_, t, rest) => SafeThunk(t, withFree) && SafeAttrs(rest, withFree)
  }

  /** Neither a failed lookup nor a variable without any enclosing `with`; without any `with`, no undefined variable. */
  predicate SafeError(e: Error, withFree: bool) { !e.Stuck? && !e.UnboundVar? && (withFree ==> !e.UndefinedVar?) }

  predicate SafeRes(r: Res<N.Value>, withFree: bool) {
    match r
    case Ok(v) => SafeValue(v, withFree)
    case Err(e) => SafeError(e, withFree)
    case OutOfFuel => true
  }

  predicate SafeThunkRes(r: Res<N.Thunk>, withFree: bool) {
    match r
    case Ok(t) => SafeThunk(t, withFree)
    case Err(e) => SafeError(e, withFree)
    case OutOfFuel => true
  }

  predicate SafeAttrsRes(r: Res<N.AttrList>, withFree: bool) {
    match r
    case Ok(a) => SafeAttrs(a, withFree)
    case Err(e) => SafeError(e, withFree)
    case OutOfFuel => true
  }

  predicate SafeBindsRes(r: Res<N.Binds>, inner: StaticEnv, outer: StaticEnv, withFree: bool) {
    match r
    case Ok(bs) => SafeBinds(bs, 0, inner, outer, withFree)
    case Err(e) => SafeError(e, withFree)
    case OutOfFuel => true
  }

  // ---------- data structures ----------

  lemma GetSafe(attrs: N.AttrList, name: Name, withFree: bool)
    requires SafeAttrs(attrs, withFree)
    ensures N.Get(attrs, name).Some? ==> SafeThunk(N.Get(attrs, name).value, withFree)
  {
  }

  lemma WithoutSafe(a: N.AttrList, b: N.AttrList, withFree: bool)
    requires SafeAttrs(a, withFree)
    ensures SafeAttrs(N.Without(a, b), withFree)
  {
  }

  lemma AppendSafe(a: N.AttrList, b: N.AttrList, withFree: bool)
    requires SafeAttrs(a, withFree) && SafeAttrs(b, withFree)
    ensures SafeAttrs(N.Append(a, b), withFree)
  {
  }

  lemma AppendThunksSafe(a: N.Thunks, b: N.Thunks, withFree: bool)
    requires SafeThunks(a, withFree) && SafeThunks(b, withFree)
    ensures SafeThunks(N.AppendThunks(a, b), withFree)
  {
  }

  lemma DelayAllSafe(env: N.Env, es: Exprs, withFree: bool)
    requires SafeEnv(env, withFree) && ScopedAll(es, Static(env), withFree)
    ensures SafeThunks(N.DelayAll(env, es), withFree)
  {
  }

  lemma NthScoped(es: Exprs, env: StaticEnv, i: nat, withFree: bool)
    requires ScopedAll(es, env, withFree) && i < Length(es)
    ensures Nth(es, i).Some? && Scoped(Nth(es, i).value, env, withFree)
  {
  }

  lemma DefBindsSafe(defs: Defs, froms: nat, inner: StaticEnv, outer: StaticEnv, withFree: bool)
    requires ScopedDefs(defs, froms, inner, outer, withFree)
    ensures SafeBinds(N.DefBinds(defs), froms, inner, outer, withFree)
  {
  }

  lemma LetFrameSafe(defs: Defs, froms: Exprs, env: N.Env, withFree: bool)
    requires SafeEnv(env, withFree)
    requires ScopedDefs(defs, Length(froms), LetEnv(defs, Static(env)), Static(env), withFree)
    requires ScopedAll(froms, LetEnv(defs, Static(env)), withFree)
    ensures SafeEnv(N.Scope(N.DefBinds(defs), froms, env), withFree)
  {
    DefBindNames(defs);
    DefBindsSafe(defs, Length(froms), LetEnv(defs, Static(env)), Static(env), withFree);
  }

  lemma SlotThunkSafe(frame: N.Env, name: Name, slot: N.Slot, withFree: bool)
    requires frame.Scope? && SafeEnv(frame, withFree)
    requires SafeSlot(slot, Length(frame.froms), Static(frame), Static(frame.up), withFree)
    ensures SafeThunk(N.SlotThunk(frame, name, slot), withFree)
  {
  }

  lemma RecAttrsSafe(frame: N.Env, bs: N.Binds, withFree: bool)
    requires frame.Scope? && SafeEnv(frame, withFree)
    requires SafeBinds(bs, Length(frame.froms), Static(frame), Static(frame.up), withFree)
    ensures SafeAttrs(N.RecAttrs(frame, bs), withFree)
  {
    match bs
    case BNil =>
    case BCons(name, slot, rest) => SlotThunkSafe(frame, name, slot, withFree); RecAttrsSafe(frame, rest, withFree);
  }

  lemma PlainAttrsSafe(env: N.Env, defs: Defs, froms: Exprs, withFree: bool)
    requires SafeEnv(env, withFree) && ScopedAll(froms, Static(env), withFree)
    requires ScopedDefs(defs, Length(froms), Static(env), Static(env), withFree)
    ensures SafeAttrs(N.PlainAttrs(env, defs, froms), withFree)
  {
  }

  lemma FindSlotSafe(bs: N.Binds, name: Name, froms: nat, inner: StaticEnv, outer: StaticEnv, withFree: bool)
    requires SafeBinds(bs, froms, inner, outer, withFree)
    ensures N.FindSlot(bs, name).Some? ==> SafeSlot(N.FindSlot(bs, name).value, froms, inner, outer, withFree)
  {
  }

  lemma {:induction false} LexicalSafe(env: N.Env, name: Name, withFree: bool)
    requires SafeEnv(env, withFree)
    ensures N.LookupLexical(env, name).Some? ==> SafeThunk(N.LookupLexical(env, name).value, withFree)
  {
    match env
    case Empty =>
    case WithScope(_, up) => LexicalSafe(up, name, withFree);
    case Scope(binds, froms, up) =>
      FindSlotSafe(binds, name, Length(froms), Static(env), Static(up), withFree);
      match N.FindSlot(binds, name)
      case Some(slot) => SlotThunkSafe(env, name, slot, withFree);
      case None => LexicalSafe(up, name, withFree);
  }

  lemma MatchFormalsSafe(formals: FormalList, attrs: N.AttrList, inner: StaticEnv, outer: StaticEnv, withFree: bool)
    requires SafeAttrs(attrs, withFree) && ScopedFormals(formals, inner, withFree)
    ensures SafeBindsRes(N.MatchFormals(formals, attrs), inner, outer, withFree)
  {
    match formals
    case NoFormals =>
    case Formal(name, _, rest) => GetSafe(attrs, name, withFree); MatchFormalsSafe(rest, attrs, inner, outer, withFree);
  }

  lemma MatchParamSafe(p: Param, arg: N.Thunk, attrs: N.AttrList, env: N.Env, withFree: bool)
    requires p.Pattern? && SafeThunk(arg, withFree) && SafeAttrs(attrs, withFree) && SafeEnv(env, withFree)
    requires ScopedParam(p, LambdaEnv(p, Static(env)), withFree)
    ensures SafeBindsRes(N.MatchParam(p, arg, attrs), LambdaEnv(p, Static(env)), Static(env), withFree)
    ensures N.MatchParam(p, arg, attrs).Ok? ==> SafeEnv(N.Scope(N.MatchParam(p, arg, attrs).value, Nil, env), withFree)
  {
    var inner := LambdaEnv(p, Static(env));
    MatchFormalsSafe(p.formals, attrs, inner, Static(env), withFree);
    MatchParamLayout(p, arg, attrs, inner, Static(env));
  }

  // ---------- evaluation keeps it ----------

  lemma {:induction false} SafeEval(fuel: nat, e: Expr, env: N.Env, withFree: bool)
    requires SafeEnv(env, withFree) && Scoped(e, Static(env), withFree)
    ensures SafeRes(N.Eval(fuel, e, env), withFree)
    decreases fuel, 0, End
  {
    if fuel > 0 {
      if e.Var? || e.Attrs? || e.Call? || e.Let? || e.With? {
        SafeScoping(fuel - 1, e, env, withFree);
      } else if e.If? || e.Assert? || e.Not? || e.BinOp? {
        SafeControl(fuel - 1, e, env, withFree);
      } else if e.Update? || e.ConcatLists? {
        SafeCombine(fuel - 1, e, env, withFree);
      } else {
        match e
        case IntLit(_) =>
        case StrLit(_) =>
        case Lambda(_, _) =>
        case ListExpr(elems) => DelayAllSafe(env, elems, withFree);
        case Select(e1, path, def) =>
          SafeEval(fuel - 1, e1, env, withFree);
          var r := N.Eval(fuel - 1, e1, env);
          if r.Ok? { SafeSelectPath(fuel - 1, N.Ready(r.value), path, def, env, withFree); }
        case HasAttr(e1, path) =>
          SafeEval(fuel - 1, e1, env, withFree);
          var r := N.Eval(fuel - 1, e1, env);
          if r.Ok? { SafeHasPath(fuel - 1, N.Ready(r.value), path, env, withFree); }
      }
    }
  }

  lemma {:induction false} SafeScoping(fuel: nat, e: Expr, env: N.Env, withFree: bool)
    requires e.Var? || e.Attrs? || e.Call? || e.Let? || e.With?
    requires SafeEnv(env, withFree) && Scoped(e, Static(env), withFree)
    ensures SafeRes(N.Eval(fuel + 1, e, env), withFree)
    decreases fuel, 5, End
  {
    match e
    case Var(name, _) => SafeVar(fuel, name, env, withFree);
    case Attrs(recursive, defs, froms, dyn) =>
      if recursive {
        var frame := N.Scope(N.DefBinds(defs), froms, env);
        DefBindNames(defs);
        LetFrameSafe(defs, froms, env, withFree);
        RecAttrsSafe(frame, frame.binds, withFree);
        SafeAddDynamic(fuel, N.RecAttrs(frame, frame.binds), dyn, frame, withFree);
      } else {
        PlainAttrsSafe(env, defs, froms, withFree);
        SafeAddDynamic(fuel, N.PlainAttrs(env, defs, froms), dyn, env, withFree);
      }
    case Call(fun, args) =>
      SafeEval(fuel, fun, env, withFree);
      DelayAllSafe(env, args, withFree);
      var r := N.Eval(fuel, fun, env);
      if r.Ok? { SafeApplyAll(fuel, r.value, N.DelayAll(env, args), withFree); }
    case Let(defs, froms, body) =>
      DefBindNames(defs);
      LetFrameSafe(defs, froms, env, withFree);
      SafeEval(fuel, body, N.Scope(N.DefBinds(defs), froms, env), withFree);
    case With(attrs, body, _) => SafeEval(fuel, body, N.WithScope(attrs, env), withFree);
  }

  lemma {:induction false} SafeControl(fuel: nat, e: Expr, env: N.Env, withFree: bool)
    requires e.If? || e.Assert? || e.Not? || e.BinOp?
    requires SafeEnv(env, withFree) && Scoped(e, Static(env), withFree)
    ensures SafeRes(N.Eval(fuel + 1, e, env), withFree)
    decreases fuel, 5, End
  {
    match e
    case If(c, t, f) =>
      SafeEvalBool(fuel, c, env, withFree);
      SafeEval(fuel, t, env, withFree);
      SafeEval(fuel, f, env, withFree);
    case Assert(c, body) => SafeEvalBool(fuel, c, env, withFree); SafeEval(fuel, body, env, withFree);
    case Not(e1) => SafeEvalBool(fuel, e1, env, withFree);
    case BinOp(_, e1, e2) => SafeEvalBool(fuel, e1, env, withFree); SafeEvalBool(fuel, e2, env, withFree);
  }

  lemma {:induction false} SafeCombine(fuel: nat, e: Expr, env: N.Env, withFree: bool)
    requires e.Update? || e.ConcatLists?
    requires SafeEnv(env, withFree) && Scoped(e, Static(env), withFree)
    ensures SafeRes(N.Eval(fuel + 1, e, env), withFree)
    decreases fuel, 5, End
  {
    match e
    case Update(e1, e2) =>
      SafeEvalAttrs(fuel, e1, env, withFree);
      SafeEvalAttrs(fuel, e2, env, withFree);
      var b, a := N.EvalAttrs(fuel, e2, env), N.EvalAttrs(fuel, e1, env);
      if a.Ok? && b.Ok? {
        WithoutSafe(a.value, b.value, withFree);
        AppendSafe(b.value, N.Without(a.value, b.value), withFree);
      }
    case ConcatLists(e1, e2) =>
      SafeEval(fuel, e1, env, withFree);
      SafeEval(fuel, e2, env, withFree);
      ConcatSafe(N.Eval(fuel, e1, env), N.Eval(fuel, e2, env), withFree);
  }

  lemma ConcatSafe(a: Res<N.Value>, b: Res<N.Value>, withFree: bool)
    requires SafeRes(a, withFree) && SafeRes(b, withFree)
    ensures SafeRes(N.Concat(a, b), withFree)
  {
    if a.Ok? && b.Ok? && a.value.VList? && b.value.VList? { AppendThunksSafe(a.value.elems, b.value.elems, withFree); }
  }

  lemma {:induction false} SafeEvalBool(fuel: nat, e: Expr, env: N.Env, withFree: bool)
    requires SafeEnv(env, withFree) && Scoped(e, Static(env), withFree)
    ensures N.EvalBool(fuel, e, env).Err? ==> SafeError(N.EvalBool(fuel, e, env).error, withFree)
    decreases fuel, 1, End
  {
    SafeEval(fuel, e, env, withFree);
  }

  lemma {:induction false} SafeEvalAttrs(fuel: nat, e: Expr, env: N.Env, withFree: bool)
    requires SafeEnv(env, withFree) && Scoped(e, Static(env), withFree)
    ensures SafeAttrsRes(N.EvalAttrs(fuel, e, env), withFree)
    decreases fuel, 1, End
  {
    SafeEval(fuel, e, env, withFree);
  }

  lemma {:induction false} SafeForce(fuel: nat, t: N.Thunk, withFree: bool)
    requires SafeThunk(t, withFree)
    ensures SafeRes(N.Force(fuel, t), withFree)
    decreases fuel, 1, End
  {
    match t
    case Delay(env, e) => SafeEval(fuel, e, env, withFree);
    case Ready(_) =>
    case SelectFrom(env, froms, d, name) =>
      if fuel > 0 {
        NthScoped(froms, Static(env), d, withFree);
        SafeEvalAttrs(fuel - 1, Nth(froms, d).value, env, withFree);
        var r := N.EvalAttrs(fuel - 1, Nth(froms, d).value, env);
        if r.Ok? {
          GetSafe(r.value, name, withFree);
          if N.Get(r.value, name).Some? { SafeForce(fuel - 1, N.Get(r.value, name).value, withFree); }
        }
      }
  }

  lemma {:induction false} NoEnclosingWith(env: N.Env)
    requires SafeEnv(env, true)
    ensures EnclosingWith(Static(env)).None?
  {
    if !env.Empty? { NoEnclosingWith(env.up); }
  }

  lemma {:induction false} SafeVar(fuel: nat, name: Name, env: N.Env, withFree: bool)
    requires SafeEnv(env, withFree) && Resolve(Static(env), name) != Unbound
    ensures SafeRes(N.EvalVar(fuel, name, env), withFree)
    decreases fuel, 4, End
  {
    LexicalLookup(env, name);
    LexicalSafe(env, name, withFree);
    if withFree { NoEnclosingWith(env); }
    if N.LookupLexical(env, name).Some? {
      SafeForce(fuel, N.LookupLexical(env, name).value, withFree);
    } else {
      SafeWith(fuel, env, name, false, withFree);
      var r := N.LookupWith(fuel, env, name, false);
      if r.Ok? { SafeForce(fuel, r.value, withFree); }
    }
  }

  lemma {:induction false} SafeWith(fuel: nat, env: N.Env, name: Name, tried: bool, withFree: bool)
    requires SafeEnv(env, withFree)
    requires !withFree && (tried || EnclosingWith(Static(env)).Some?)
    ensures SafeThunkRes(N.LookupWith(fuel, env, name, tried), withFree)
    decreases fuel, 2, env
  {
    match env
    case Empty =>
    case Scope(_, _, up) => SafeWith(fuel, up, name, tried, withFree);
    case WithScope(e, up) =>
      SafeEvalAttrs(fuel, e, up, withFree);
      var r := N.EvalAttrs(fuel, e, up);
      if r.Ok? {
        GetSafe(r.value, name, withFree);
        if N.Get(r.value, name).None? { SafeWith(fuel, up, name, true, withFree); }
      }
  }

  lemma {:induction false} SafeNameOf(fuel: nat, path: AttrPath, env: N.Env, withFree: bool)
    requires !path.End? && SafeEnv(env, withFree) && ScopedPath(path, Static(env), withFree)
    ensures N.NameOf(fuel, path, env).Err? ==> SafeError(N.NameOf(fuel, path, env).error, withFree)
    decreases fuel, 1, path
  {
    if path.DynName? { SafeEval(fuel, path.e, env, withFree); }
  }

  predicate SafePick(p: Res<N.Pick>, withFree: bool) {
    match p
    case Ok(Found(t)) => SafeThunk(t, withFree)
    case Ok(Absent(why)) => SafeError(why, withFree)
    case Err(e) => SafeError(e, withFree)
    case OutOfFuel => true
  }

  lemma PickedSafe(name: Res<Name>, v: Res<N.Value>, withFree: bool)
    requires (name.Err? ==> SafeError(name.error, withFree)) && SafeRes(v, withFree)
    ensures SafePick(N.Picked(name, v), withFree)
  {
    if name.Ok? && v.Ok? && v.value.VAttrs? { GetSafe(v.value.attrs, name.value, withFree); }
  }

  lemma {:induction false} SafeSelectPath(fuel: nat, cur: N.Thunk, path: AttrPath, def: Option<Expr>, env: N.Env,
                                          withFree: bool)
    requires SafeThunk(cur, withFree) && SafeEnv(env, withFree)
    requires ScopedPath(path, Static(env), withFree) && ScopedOpt(def, Static(env), withFree)
    ensures SafeRes(N.SelectPath(fuel, cur, path, def, env), withFree)
    decreases fuel, 3, path, 1
  {
    SafeForce(fuel, cur, withFree);
    if !path.End? {
      SafeNameOf(fuel, path, env, withFree);
      var n, r := N.NameOf(fuel, path, env), N.Force(fuel, cur);
      PickedSafe(n, r, withFree);
      SafeSelectRest(fuel, N.Picked(n, r), path, def, env, withFree);
    }
  }

  lemma {:induction false} SafeSelectRest(fuel: nat, pick: Res<N.Pick>, path: AttrPath, def: Option<Expr>, env: N.Env,
                                          withFree: bool)
    requires !path.End? && SafePick(pick, withFree) && SafeEnv(env, withFree)
    requires ScopedPath(path, Static(env), withFree) && ScopedOpt(def, Static(env), withFree)
    ensures SafeRes(N.SelectRest(fuel, pick, path, def, env), withFree)
    decreases fuel, 3, path, 0
  {
    if pick.Ok? && pick.value.Found? {
      SafeSelectPath(fuel, pick.value.t, path.rest, def, env, withFree);
    } else if def.Some? {
      SafeEval(fuel, def.value, env, withFree);
    }
  }

  lemma {:induction false} SafeHasPath(fuel: nat, cur: N.Thunk, path: AttrPath, env: N.Env, withFree: bool)
    requires SafeThunk(cur, withFree) && SafeEnv(env, withFree) && ScopedPath(path, Static(env), withFree)
    ensures SafeRes(N.HasPath(fuel, cur, path, env), withFree)
    decreases fuel, 3, path, 1
  {
    SafeForce(fuel, cur, withFree);
    if !path.End? {
      SafeNameOf(fuel, path, env, withFree);
      var n, r := N.NameOf(fuel, path, env), N.Force(fuel, cur);
      PickedSafe(n, r, withFree);
      SafeHasRest(fuel, N.Picked(n, r), path, env, withFree);
    }
  }

  lemma {:induction false} SafeHasRest(fuel: nat, pick: Res<N.Pick>, path: AttrPath, env: N.Env, withFree: bool)
    requires !path.End? && SafePick(pick, withFree) && SafeEnv(env, withFree) && ScopedPath(path, Static(env), withFree)
    ensures SafeRes(N.HasRest(fuel, pick, path, env), withFree)
    decreases fuel, 3, path, 0
  {
    if pick.Ok? && pick.value.Found? { SafeHasPath(fuel, pick.value.t, path.rest, env, withFree); }
  }

  lemma {:induction false} SafeAddDynamic(fuel: nat, attrs: N.AttrList, dyn: DynAttrs, env: N.Env, withFree: bool)
    requires SafeAttrs(attrs, withFree) && SafeEnv(env, withFree) && ScopedDyn(dyn, Static(env), withFree)
    ensures SafeRes(N.AddDynamic(fuel, attrs, dyn, env), withFree)
    decreases fuel, 3, dyn
  {
    match dyn
    case NoDyn =>
    case Dyn(ne, ve, rest) =>
      SafeEval(fuel, ne, env, withFree);
      var r := N.Eval(fuel, ne, env);
      if r.Ok? {
        if r.value.VNull? {
          SafeAddDynamic(fuel, attrs, rest, env, withFree);
        } else if r.value.VStr? {
          SafeAddDynamic(fuel, N.ACons(r.value.s, N.Delay(env, ve), attrs), rest, env, withFree);
        }
      }
  }

  lemma {:induction false} SafeApplyAll(fuel: nat, f: N.Value, args: N.Thunks, withFree: bool)
    requires SafeValue(f, withFree) && SafeThunks(args, withFree)
    ensures SafeRes(N.ApplyAll(fuel, f, args), withFree)
    decreases fuel, 4, args
  {
    match args
    case TNil =>
    case TCons(a, rest) =>
      SafeApply(fuel, f, a, withFree);
      var r := N.Apply(fuel, f, a);
      if r.Ok? { SafeApplyAll(fuel, r.value, rest, withFree); }
  }

  lemma {:induction false} SafeApply(fuel: nat, f: N.Value, arg: N.Thunk, withFree: bool)
    requires SafeValue(f, withFree) && SafeThunk(arg, withFree)
    ensures SafeRes(N.Apply(fuel, f, arg), withFree)
    decreases fuel, 2, End
  {
    match f
    case VLambda(env, Simple(x), body) =>
      SimpleFrame(x, arg, env);
      SafeEval(fuel, body, N.Scope(N.BCons(x, N.Given(arg), N.BNil), Nil, env), withFree);
    case VLambda(env, Pattern(alias, formals, ellipsis), body) =>
      var p := Pattern(alias, formals, ellipsis);
      SafeForce(fuel, arg, withFree);
      var r := N.Force(fuel, arg);
      if r.Ok? && r.value.VAttrs? {
        MatchParamSafe(p, arg, r.value.attrs, env, withFree);
        MatchParamLayout(p, arg, r.value.attrs, LambdaEnv(p, Static(env)), Static(env));
        var m := N.MatchParam(p, arg, r.value.attrs);
        if m.Ok? { SafeEval(fuel, body, N.Scope(m.value, Nil, env), withFree); }
      }
    case VAttrs(attrs) =>
      GetSafe(attrs, "__functor", withFree);
      if fuel > 0 && N.Get(attrs, "__functor").Some? {
        var t := N.Get(attrs, "__functor").value;
        SafeForce(fuel - 1, t, withFree);
        var g := N.Force(fuel - 1, t);
        if g.Ok? { SafeApplyAll(fuel - 1, g.value, N.TCons(N.Ready(f), N.TCons(arg, N.TNil)), withFree); }
      }
    case _ =>
  }

  // ---------- the evaluator of eval.cc ----------

  /**
   * After a successful `bindVars`, evaluation by displacement agrees with
   * evaluation by name, never leaves the Env chain or a frame, and never meets
   * a variable that no lexical scope binds and no `with` encloses; without any
   * `with` in the program it never meets an undefined variable at all.
   */
  lemma BoundProgramsAreSafe(fuel: nat, e: Expr, env: N.Env, withFree: bool)
    requires SafeEnv(env, withFree) && Scoped(e, Static(env), withFree)
    ensures var r := D.Eval(fuel, Bound(e, Static(env)), ImageEnv(env));
            r == ImageRes(N.Eval(fuel, e, env)) && (r.Err? ==> SafeError(r.error, withFree))
  {
    SimEval(fuel, e, env);
    SafeEval(fuel, e, env, withFree);
  }

  /**
   * A whole program without `with`, in an environment without `with`, never
   * ends in an undefined variable.
   */
  lemma WithFreeNeverUndefined(fuel: nat, e: Expr, env: N.Env, name: Name)
    requires SafeEnv(env, true) && Scoped(e, Static(env), true)
    ensures D.Eval(fuel, Bound(e, Static(env)), ImageEnv(env)) != Err(UndefinedVar(name))
  {
    BoundProgramsAreSafe(fuel, e, env, true);
  }

  /**
   * Looking up a variable with a lexical binding always succeeds and yields
   * the innermost binding, so only a name that fell through to a `with` can be
   * reported as undefined.
   */
  lemma LexicalNeverUndefined(fuel: nat, env: N.Env, name: Name)
    requires Resolve(Static(env), name).Lexical?
    ensures N.LookupLexical(env, name).Some?
    ensures D.LookupVar(fuel, ImageEnv(env), name, Resolve(Static(env), name))
            == Ok(ImageThunk(N.LookupLexical(env, name).value))
  {
    LexicalLookup(env, name);
  }
}
