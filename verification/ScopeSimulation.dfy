/**
 * Correctness of `bindVars`: evaluation by level and displacement gives what
 * evaluation by name gives, for every expression, every environment and every
 * amount of fuel, errors included.
 */
module ScopeSimulation {
  import opened Basics
  import opened NixSyntax
  import opened StaticScope
  import N = NamedEval
  import D = DisplEval

  // ---------- the static chain and the run-time image of a named environment ----------

  function BindNames(bs: N.Binds): seq<Name> {
    match bs
    case BNil => []
    case BCons(n, _, rest) => [n] + BindNames(rest)
  }

  /** The `StaticEnv` chain that `bindVars` sees for expressions in this environment. */
  function Static(env: N.Env): StaticEnv {
    match env
    case Empty => Top
    case Scope(binds, _, up) => Frame(None, BindNames(binds), Static(up))
    case WithScope(_, up) => WithEnv(Static(up))
  }

  /** The `Env` chain that matches a named environment: same frames, names dropped, every expression bound. */
  function ImageEnv(env: N.Env): D.Env {
    match env
    case Empty => D.Base
    case Scope(binds, froms, up) =>
      D.Frame(ImageSlots(binds, Frame(None, BindNames(binds), Static(up)), Static(up)),
              BoundAll(froms, Frame(None, BindNames(binds), Static(up))), ImageEnv(up))
    case WithScope(e, up) => D.Frame(D.SCons(D.Outer(Bound(e, Static(up))), D.SNil), Nil, ImageEnv(up))
  }

  function ImageSlots(bs: N.Binds, inner: StaticEnv, outer: StaticEnv): D.Slots {
    match bs
    case BNil => D.SNil
    case BCons(n, slot, rest) => D.SCons(ImageSlot(n, slot, inner, outer), ImageSlots(rest, inner, outer))
  }

  function ImageSlot(name: Name, slot: N.Slot, inner: StaticEnv, outer: StaticEnv): D.Slot
    decreases slot
  {
    match slot
    case Given(t) => D.Given(ImageThunk(t))
    case Own(e) => D.Own(Bound(e, inner))
    case Outer(e) => D.Outer(Bound(e, outer))
    case From(d) => D.From(d, name)
  }

  function ImageThunk(t: N.Thunk): D.Thunk {
    match t
    case Delay(env, e) => D.Delay(ImageEnv(env), Bound(e, Static(env)))
    case Ready(v) => D.Ready(Image(v))
    case SelectFrom(env, froms, d, name) =>
      D.InheritSelect(D.InheritEnv(BoundAll(froms, Static(env)), ImageEnv(env)), d, name)
  }

  function Image(v: N.Value): D.Value {
    match v
    case VInt(n) => D.VInt(n)
    case VStr(s) => D.VStr(s)
    case VBool(b) => D.VBool(b)
    case VNull => D.VNull
    case VList(ts) => D.VList(ImageThunks(ts))
    case VAttrs(attrs) => D.VAttrs(ImageAttrs(attrs))
    case VLambda(env, p, body) =>
      D.VLambda(ImageEnv(env), BoundParam(p, LambdaEnv(p, Static(env))), Bound(body, LambdaEnv(p, Static(env))))
  }

  function ImageThunks(ts: N.Thunks): D.Thunks {
    match ts
    case TNil => D.TNil
    case TCons(t, tail) => D.TCons(ImageThunk(t), ImageThunks(tail))
  }

  function ImageAttrs(attrs: N.AttrList): D.AttrList {
    match attrs
    case ANil => D.ANil
    case ACons(n, t, rest) => D.ACons(n, ImageThunk(t), ImageAttrs(rest))
  }

  function ImageOpt(t: Option<N.Thunk>): Option<D.Thunk> {
    match t
    case None => None
    case Some(t) => Some(ImageThunk(t))
  }

  // ---------- outcomes ----------

  function ImageRes(r: Res<N.Value>): Res<D.Value> {
    match r
    case Ok(v) => Ok(Image(v))
    case Err(e) => Err(e)
    case OutOfFuel => OutOfFuel
  }

  function ImageThunkRes(r: Res<N.Thunk>): Res<D.Thunk> {
    match r
    case Ok(t) => Ok(ImageThunk(t))
    case Err(e) => Err(e)
    case OutOfFuel => OutOfFuel
  }

  function ImageAttrsRes(r: Res<N.AttrList>): Res<D.AttrList> {
    match r
    case Ok(a) => Ok(ImageAttrs(a))
    case Err(e) => Err(e)
    case OutOfFuel => OutOfFuel
  }

  // ---------- data structures commute with the image ----------

  lemma GetImage(attrs: N.AttrList, name: Name)
    ensures D.Get(ImageAttrs(attrs), name) == ImageOpt(N.Get(attrs, name))
  {
  }

  lemma WithoutImage(a: N.AttrList, b: N.AttrList)
    ensures D.Without(ImageAttrs(a), ImageAttrs(b)) == ImageAttrs(N.Without(a, b))
  {
    match a
    case ANil =>
    case ACons(n, _, rest) => GetImage(b, n); WithoutImage(rest, b);
  }

  lemma AppendImage(a: N.AttrList, b: N.AttrList)
    ensures D.Append(ImageAttrs(a), ImageAttrs(b)) == ImageAttrs(N.Append(a, b))
  {
  }

  lemma OverrideImage(a: N.AttrList, b: N.AttrList)
    ensures D.Override(ImageAttrs(a), ImageAttrs(b)) == ImageAttrs(N.Override(a, b))
  {
    WithoutImage(a, b);
    AppendImage(b, N.Without(a, b));
  }

  lemma AppendThunksImage(a: N.Thunks, b: N.Thunks)
    ensures D.AppendThunks(ImageThunks(a), ImageThunks(b)) == ImageThunks(N.AppendThunks(a, b))
  {
  }

  lemma ConcatImage(a: Res<N.Value>, b: Res<N.Value>)
    ensures D.Concat(ImageRes(a), ImageRes(b)) == ImageRes(N.Concat(a, b))
  {
    if a.Ok? && b.Ok? && a.value.VList? && b.value.VList? {
      AppendThunksImage(a.value.elems, b.value.elems);
    }
  }

  lemma FunctorArgsImage(f: N.Value, arg: N.Thunk)
    ensures ImageThunks(N.TCons(N.Ready(f), N.TCons(arg, N.TNil)))
            == D.TCons(D.Ready(Image(f)), D.TCons(ImageThunk(arg), D.TNil))
  {
    assert ImageThunks(N.TCons(arg, N.TNil)) == D.TCons(ImageThunk(arg), D.TNil);
  }

  lemma DelayAllImage(env: N.Env, es: Exprs)
    ensures D.DelayAll(ImageEnv(env), BoundAll(es, Static(env))) == ImageThunks(N.DelayAll(env, es))
  {
  }

  lemma FirstUnexpectedImage(attrs: N.AttrList, names: seq<Name>)
    ensures D.FirstUnexpected(ImageAttrs(attrs), names) == N.FirstUnexpected(attrs, names)
  {
  }

  lemma NthBound(es: Exprs, env: StaticEnv, i: nat)
    ensures Nth(BoundAll(es, env), i) == BoundOpt(Nth(es, i), env)
  {
  }

  lemma OuterSlotAt(es: Exprs, i: nat)
    ensures D.SlotAt(D.OuterSlots(es), i) == (match Nth(es, i) case None => None case Some(e) => Some(D.Outer(e)))
  {
  }

  // ---------- frame layout ----------

  lemma DefBindNames(defs: Defs)
    ensures BindNames(N.DefBinds(defs)) == DefNames(defs)
  {
  }

  lemma DefSlotsImage(defs: Defs, inner: StaticEnv, outer: StaticEnv)
    ensures D.DefSlots(BoundDefs(defs, inner, outer)) == ImageSlots(N.DefBinds(defs), inner, outer)
  {
  }

  /** The frame of a `let` or `rec` is laid out as `bindVars` assumed. */
  lemma LetFrame(defs: Defs, froms: Exprs, env: N.Env)
    ensures var frame := N.Scope(N.DefBinds(defs), froms, env);
            var inner := LetEnv(defs, Static(env));
            && Static(frame) == inner
            && ImageEnv(frame)
               == D.Frame(D.DefSlots(BoundDefs(defs, inner, Static(env))), BoundAll(froms, inner), ImageEnv(env))
  {
    DefBindNames(defs);
    DefSlotsImage(defs, LetEnv(defs, Static(env)), Static(env));
  }

  lemma SlotThunkImage(frame: N.Env, name: Name, slot: N.Slot)
    requires frame.Scope?
    ensures D.SlotThunk(ImageEnv(frame), ImageSlot(name, slot, Static(frame), Static(frame.up)))
            == ImageThunk(N.SlotThunk(frame, name, slot))
  {
  }

  lemma RecAttrsImage(frame: N.Env, defs: Defs, inner: StaticEnv, outer: StaticEnv)
    requires frame.Scope? && inner == Static(frame) && outer == Static(frame.up)
    ensures D.RecAttrs(ImageEnv(frame), BoundDefs(defs, inner, outer), ImageSlots(N.DefBinds(defs), inner, outer))
            == ImageAttrs(N.RecAttrs(frame, N.DefBinds(defs)))
  {
    match defs
    case NoDefs =>
    case Def(name, _, rest) =>
      SlotThunkImage(frame, name, N.DefBinds(defs).slot);
      RecAttrsImage(frame, rest, inner, outer);
  }

  lemma PlainAttrsImage(env: N.Env, defs: Defs, froms: Exprs)
    ensures D.PlainAttrs(ImageEnv(env), BoundDefs(defs, Static(env), Static(env)),
                         D.InheritEnv(BoundAll(froms, Static(env)), ImageEnv(env)))
            == ImageAttrs(N.PlainAttrs(env, defs, froms))
  {
    match defs
    case NoDefs =>
    case Def(_, rhs, rest) => PlainAttrsImage(env, rest, froms);
  }

  /** Both sides fail alike, or the slots are the images of the bindings of exactly these names in this order. */
  predicate SameLayout(n: Res<N.Binds>, d: Res<D.Slots>, names: seq<Name>, inner: StaticEnv, outer: StaticEnv) {
    match n
    case Ok(bs) => d == Ok(ImageSlots(bs, inner, outer)) && BindNames(bs) == names
    case Err(e) => d == Err(e)
    case OutOfFuel => d == OutOfFuel
  }

  lemma MatchFormalsLayout(formals: FormalList, attrs: N.AttrList, inner: StaticEnv, outer: StaticEnv)
    ensures SameLayout(N.MatchFormals(formals, attrs), D.MatchFormals(BoundFormals(formals, inner), ImageAttrs(attrs)),
                       FormalNames(formals), inner, outer)
  {
    match formals
    case NoFormals =>
    case Formal(name, _, rest) =>
      GetImage(attrs, name);
      MatchFormalsLayout(rest, attrs, inner, outer);
  }

  lemma BoundFormalNames(formals: FormalList, env: StaticEnv)
    ensures FormalNames(BoundFormals(formals, env)) == FormalNames(formals)
  {
  }

  /** A call frame holds the named argument first and then the formals, as `bindVars` assumed. */
  lemma MatchParamLayout(p: Param, arg: N.Thunk, attrs: N.AttrList, inner: StaticEnv, outer: StaticEnv)
    requires p.Pattern?
    ensures SameLayout(N.MatchParam(p, arg, attrs),
                       D.MatchParam(BoundParam(p, inner), ImageThunk(arg), ImageAttrs(attrs)),
                       ParamNames(p), inner, outer)
  {
    MatchFormalsLayout(p.formals, attrs, inner, outer);
    BoundFormalNames(p.formals, inner);
    FirstUnexpectedImage(attrs, FormalNames(p.formals));
  }

  // ---------- lexical lookup ----------

  lemma FindCons(n: Name, vars: seq<Name>, name: Name)
    ensures Find([n] + vars, name)
            == if n == name then Some(0) else if name in vars then Some(Find(vars, name).value + 1) else None
  {
    assert ([n] + vars)[1..] == vars;
  }

  lemma {:induction false} FindSlotNames(bs: N.Binds, name: Name)
    ensures N.FindSlot(bs, name).Some? <==> name in BindNames(bs)
  {
    match bs
    case BNil =>
    case BCons(_, _, rest) => FindSlotNames(rest, name);
  }

  lemma SlotAtTail(slots: D.Slots, displ: nat)
    requires slots.SCons?
    ensures D.SlotAt(slots, displ + 1) == D.SlotAt(slots.rest, displ)
  {
  }

  /** A name's first position in a frame is the slot that holds it. */
  lemma {:induction false} FindSlotImage(bs: N.Binds, name: Name, inner: StaticEnv, outer: StaticEnv)
    requires name in BindNames(bs)
    ensures N.FindSlot(bs, name).Some?
    ensures D.SlotAt(ImageSlots(bs, inner, outer), Find(BindNames(bs), name).value)
            == Some(ImageSlot(name, N.FindSlot(bs, name).value, inner, outer))
  {
    var names := BindNames(bs.rest);
    assert BindNames(bs) == [bs.name] + names;
    FindCons(bs.name, names, name);
    if bs.name != name {
      FindSlotImage(bs.rest, name, inner, outer);
      SlotAtTail(ImageSlots(bs, inner, outer), Find(names, name).value);
    }
  }

  /**
   * `FindLexical` finds a name exactly when the name-based search does, and
   * then (level, displacement) stays inside the chain and inside the frame and
   * reaches the innermost binding.
   */
  lemma {:induction false} LexicalLookup(env: N.Env, name: Name)
    ensures N.LookupLexical(env, name).Some? <==> FindLexical(Static(env), name).Some?
    ensures match FindLexical(Static(env), name)
            case None => true
            case Some((level, displ)) =>
              D.LookupSlot(ImageEnv(env), level, displ) == ImageOpt(N.LookupLexical(env, name))
  {
    match env
    case Empty =>
    case WithScope(_, up) => LexicalLookup(up, name);
    case Scope(binds, _, up) =>
      FindSlotNames(binds, name);
      match N.FindSlot(binds, name)
      case None => LexicalLookup(up, name);
      case Some(slot) =>
        FindSlotImage(binds, name, Static(env), Static(up));
        SlotThunkImage(env, name, slot);
  }

  // ---------- one evaluation step, given that the parts agree ----------

  lemma IfStep(fuel: nat, c: Expr, t: Expr, f: Expr, env: N.Env, c': Expr, t': Expr, f': Expr, env': D.Env)
    requires D.EvalBool(fuel, c', env') == N.EvalBool(fuel, c, env)
    requires D.Eval(fuel, t', env') == ImageRes(N.Eval(fuel, t, env))
    requires D.Eval(fuel, f', env') == ImageRes(N.Eval(fuel, f, env))
    ensures D.EvalIf(fuel, c', t', f', env') == ImageRes(N.EvalIf(fuel, c, t, f, env))
  {
  }

  lemma AssertStep(fuel: nat, c: Expr, body: Expr, env: N.Env, c': Expr, body': Expr, env': D.Env)
    requires D.EvalBool(fuel, c', env') == N.EvalBool(fuel, c, env)
    requires D.Eval(fuel, body', env') == ImageRes(N.Eval(fuel, body, env))
    ensures D.EvalAssert(fuel, c', body', env') == ImageRes(N.EvalAssert(fuel, c, body, env))
  {
  }

  lemma BinOpStep(fuel: nat, op: BoolOp, e1: Expr, e2: Expr, env: N.Env, e1': Expr, e2': Expr, env': D.Env)
    requires D.EvalBool(fuel, e1', env') == N.EvalBool(fuel, e1, env)
    requires D.EvalBool(fuel, e2', env') == N.EvalBool(fuel, e2, env)
    ensures D.EvalBinOp(fuel, op, e1', e2', env') == ImageRes(N.EvalBinOp(fuel, op, e1, e2, env))
  {
  }

  lemma UpdateStep(fuel: nat, e1: Expr, e2: Expr, env: N.Env, e1': Expr, e2': Expr, env': D.Env)
    requires D.EvalAttrs(fuel, e1', env') == ImageAttrsRes(N.EvalAttrs(fuel, e1, env))
    requires D.EvalAttrs(fuel, e2', env') == ImageAttrsRes(N.EvalAttrs(fuel, e2, env))
    ensures D.EvalUpdate(fuel, e1', e2', env') == ImageRes(N.EvalUpdate(fuel, e1, e2, env))
  {
    var b, a := N.EvalAttrs(fuel, e2, env), N.EvalAttrs(fuel, e1, env);
    if b.Ok? && a.Ok? { OverrideImage(a.value, b.value); }
  }

  lemma SelectStep(fuel: nat, e1: Expr, path: AttrPath, def: Option<Expr>, env: N.Env,
                   e1': Expr, path': AttrPath, def': Option<Expr>, env': D.Env)
    requires D.Eval(fuel, e1', env') == ImageRes(N.Eval(fuel, e1, env))
    requires N.Eval(fuel, e1, env).Ok? ==>
               var v := N.Eval(fuel, e1, env).value;
               D.SelectPath(fuel, D.Ready(Image(v)), path', def', env')
               == ImageRes(N.SelectPath(fuel, N.Ready(v), path, def, env))
    ensures D.EvalSelect(fuel, e1', path', def', env') == ImageRes(N.EvalSelect(fuel, e1, path, def, env))
  {
  }

  lemma HasAttrStep(fuel: nat, e1: Expr, path: AttrPath, env: N.Env, e1': Expr, path': AttrPath, env': D.Env)
    requires D.Eval(fuel, e1', env') == ImageRes(N.Eval(fuel, e1, env))
    requires N.Eval(fuel, e1, env).Ok? ==>
               var v := N.Eval(fuel, e1, env).value;
               D.HasPath(fuel, D.Ready(Image(v)), path', env') == ImageRes(N.HasPath(fuel, N.Ready(v), path, env))
    ensures D.EvalHasAttr(fuel, e1', path', env') == ImageRes(N.EvalHasAttr(fuel, e1, path, env))
  {
  }

  function ImagePick(p: Res<N.Pick>): Res<D.Pick> {
    match p
    case Ok(Found(t)) => Ok(D.Found(ImageThunk(t)))
    case Ok(Absent(why)) => Ok(D.Absent(why))
    case Err(e) => Err(e)
    case OutOfFuel => OutOfFuel
  }

  /** What a path component selects from a forced value. */
  lemma PickedImage(name: Res<Name>, v: Res<N.Value>)
    ensures D.Picked(name, ImageRes(v)) == ImagePick(N.Picked(name, v))
  {
    if name.Ok? && v.Ok? && v.value.VAttrs? { GetImage(v.value.attrs, name.value); }
  }

  lemma SelectRestStep(fuel: nat, pick: Res<N.Pick>, path: AttrPath, def: Option<Expr>, env: N.Env,
                       path': AttrPath, def': Option<Expr>, env': D.Env)
    requires !path.End? && !path'.End?
    requires def'.Some? <==> def.Some?
    requires def.Some? ==> D.Eval(fuel, def'.value, env') == ImageRes(N.Eval(fuel, def.value, env))
    requires pick.Ok? && pick.value.Found? ==>
               D.SelectPath(fuel, ImageThunk(pick.value.t), path'.rest, def', env')
               == ImageRes(N.SelectPath(fuel, pick.value.t, path.rest, def, env))
    ensures D.SelectRest(fuel, ImagePick(pick), path', def', env') == ImageRes(N.SelectRest(fuel, pick, path, def, env))
  {
  }

  lemma HasRestStep(fuel: nat, pick: Res<N.Pick>, path: AttrPath, env: N.Env, path': AttrPath, env': D.Env)
    requires !path.End? && !path'.End?
    requires pick.Ok? && pick.value.Found? ==>
               D.HasPath(fuel, ImageThunk(pick.value.t), path'.rest, env')
               == ImageRes(N.HasPath(fuel, pick.value.t, path.rest, env))
    ensures D.HasRest(fuel, ImagePick(pick), path', env') == ImageRes(N.HasRest(fuel, pick, path, env))
  {
  }

  lemma CallStep(fuel: nat, fun: Expr, args: Exprs, env: N.Env, fun': Expr, args': Exprs, env': D.Env)
    requires D.Eval(fuel, fun', env') == ImageRes(N.Eval(fuel, fun, env))
    requires D.DelayAll(env', args') == ImageThunks(N.DelayAll(env, args))
    requires N.Eval(fuel, fun, env).Ok? ==>
               var f := N.Eval(fuel, fun, env).value;
               D.ApplyAll(fuel, Image(f), D.DelayAll(env', args'))
               == ImageRes(N.ApplyAll(fuel, f, N.DelayAll(env, args)))
    ensures D.EvalCall(fuel, fun', args', env') == ImageRes(N.EvalCall(fuel, fun, args, env))
  {
  }

  /** The frame of `with e; …`, and one round of the loop over such frames. */
  lemma WithStep(fuel: nat, e: Expr, up: N.Env, name: Name, tried: bool, e': Expr, up': D.Env, w: WithInfo)
    requires D.EvalAttrs(fuel, e', up') == ImageAttrsRes(N.EvalAttrs(fuel, e, up))
    requires w.parentWith.None? ==> N.LookupWith(fuel, up, name, true) == Err(UndefinedVar(name))
    requires w.parentWith.Some? ==> w.prevWith > 0
    requires w.parentWith.Some? ==>
               D.WalkWiths(fuel, D.Up(up', w.prevWith - 1), w.parentWith.value, name)
               == ImageThunkRes(N.LookupWith(fuel, up, name, true))
    ensures D.WalkWiths(fuel, D.Frame(D.SCons(D.Outer(e'), D.SNil), Nil, up'), w, name)
            == ImageThunkRes(N.LookupWith(fuel, N.WithScope(e, up), name, tried))
  {
    var r := N.EvalAttrs(fuel, e, up);
    if r.Ok? { GetImage(r.value, name); }
  }

  /** The frame of `x: …`. */
  lemma SimpleFrame(x: Name, arg: N.Thunk, env: N.Env)
    ensures var frame := N.Scope(N.BCons(x, N.Given(arg), N.BNil), Nil, env);
            && Static(frame) == LambdaEnv(Simple(x), Static(env))
            && ImageEnv(frame) == D.Frame(D.SCons(D.Given(ImageThunk(arg)), D.SNil), Nil, ImageEnv(env))
  {
    var frame := N.Scope(N.BCons(x, N.Given(arg), N.BNil), Nil, env);
    assert BindNames(frame.binds) == [x];
    assert ImageSlots(N.BNil, Static(frame), Static(env)) == D.SNil;
    assert ImageSlots(frame.binds, Static(frame), Static(env)) == D.SCons(D.Given(ImageThunk(arg)), D.SNil);
  }

  // ---------- the simulation, by induction on fuel ----------

  /** The main theorem. */
  lemma {:induction false} SimEval(fuel: nat, e: Expr, env: N.Env)
    ensures D.Eval(fuel, Bound(e, Static(env)), ImageEnv(env)) == ImageRes(N.Eval(fuel, e, env))
    decreases fuel, 0, End
  {
    if fuel > 0 {
      if e.Var? || e.Attrs? || e.Call? || e.Let? || e.With? {
        SimScoping(fuel - 1, e, env);
      } else if e.If? || e.Assert? || e.Not? {
        SimControl(fuel - 1, e, env);
      } else if e.BinOp? || e.Update? || e.ConcatLists? {
        SimBinary(fuel - 1, e, env);
      } else {
        SimOther(fuel - 1, e, env);
      }
    }
  }

  lemma {:induction false} SimOther(fuel: nat, e: Expr, env: N.Env)
    requires e.IntLit? || e.StrLit? || e.Lambda? || e.ListExpr? || e.Select? || e.HasAttr?
    ensures D.Eval(fuel + 1, Bound(e, Static(env)), ImageEnv(env)) == ImageRes(N.Eval(fuel + 1, e, env))
    decreases fuel, 6, End
  {
    match e
    case IntLit(_) =>
    case StrLit(_) =>
    case Lambda(_, _) =>
    case ListExpr(elems) => DelayAllImage(env, elems);
    case Select(e1, path, def) => SimSelect(fuel, e1, path, def, env);
    case HasAttr(e1, path) => SimHasAttr(fuel, e1, path, env);
  }

  lemma {:induction false} SimScoping(fuel: nat, e: Expr, env: N.Env)
    requires e.Var? || e.Attrs? || e.Call? || e.Let? || e.With?
    ensures D.Eval(fuel + 1, Bound(e, Static(env)), ImageEnv(env)) == ImageRes(N.Eval(fuel + 1, e, env))
    decreases fuel, 6, End
  {
    match e
    case Var(name, b) => SimVar(fuel, name, env);
    case Attrs(recursive, defs, froms, dyn) => SimAttrs(fuel, recursive, defs, froms, dyn, env);
    case Call(fun, args) => SimCall(fuel, fun, args, env);
    case Let(defs, froms, body) =>
      LetFrame(defs, froms, env);
      SimEval(fuel, body, N.Scope(N.DefBinds(defs), froms, env));
    case With(attrs, body, _) => SimEval(fuel, body, N.WithScope(attrs, env));
  }

  lemma {:induction false} SimControl(fuel: nat, e: Expr, env: N.Env)
    requires e.If? || e.Assert? || e.Not?
    ensures D.Eval(fuel + 1, Bound(e, Static(env)), ImageEnv(env)) == ImageRes(N.Eval(fuel + 1, e, env))
    decreases fuel, 6, End
  {
    match e
    case If(c, t, f) => SimIf(fuel, c, t, f, env);
    case Assert(c, body) => SimAssert(fuel, c, body, env);
    case Not(e1) => SimNot(fuel, e1, env);
  }

  lemma {:induction false} SimBinary(fuel: nat, e: Expr, env: N.Env)
    requires e.BinOp? || e.Update? || e.ConcatLists?
    ensures D.Eval(fuel + 1, Bound(e, Static(env)), ImageEnv(env)) == ImageRes(N.Eval(fuel + 1, e, env))
    decreases fuel, 6, End
  {
    match e
    case BinOp(op, e1, e2) => SimBinOp(fuel, op, e1, e2, env);
    case Update(e1, e2) => SimUpdate(fuel, e1, e2, env);
    case ConcatLists(e1, e2) =>
      SimEval(fuel, e1, env);
      SimEval(fuel, e2, env);
      ConcatImage(N.Eval(fuel, e1, env), N.Eval(fuel, e2, env));
  }

  lemma {:induction false} SimSelect(fuel: nat, e1: Expr, path: AttrPath, def: Option<Expr>, env: N.Env)
    ensures var s := Static(env);
            D.EvalSelect(fuel, Bound(e1, s), BoundPath(path, s), BoundOpt(def, s), ImageEnv(env))
            == ImageRes(N.EvalSelect(fuel, e1, path, def, env))
    decreases fuel, 5, End
  {
    var s := Static(env);
    SimEval(fuel, e1, env);
    var r := N.Eval(fuel, e1, env);
    if r.Ok? { SimSelectPath(fuel, N.Ready(r.value), path, def, env); }
    SelectStep(fuel, e1, path, def, env, Bound(e1, s), BoundPath(path, s), BoundOpt(def, s), ImageEnv(env));
  }

  lemma {:induction false} SimHasAttr(fuel: nat, e1: Expr, path: AttrPath, env: N.Env)
    ensures var s := Static(env);
            D.EvalHasAttr(fuel, Bound(e1, s), BoundPath(path, s), ImageEnv(env))
            == ImageRes(N.EvalHasAttr(fuel, e1, path, env))
    decreases fuel, 5, End
  {
    var s := Static(env);
    SimEval(fuel, e1, env);
    var r := N.Eval(fuel, e1, env);
    if r.Ok? { SimHasPath(fuel, N.Ready(r.value), path, env); }
    HasAttrStep(fuel, e1, path, env, Bound(e1, s), BoundPath(path, s), ImageEnv(env));
  }

  lemma {:induction false} SimAttrs(fuel: nat, recursive: bool, defs: Defs, froms: Exprs, dyn: DynAttrs, env: N.Env)
    ensures var inner := if recursive then LetEnv(defs, Static(env)) else Static(env);
            D.EvalAttrSet(fuel, recursive, BoundDefs(defs, inner, Static(env)), BoundAll(froms, inner),
                          BoundDyn(dyn, inner), ImageEnv(env))
            == ImageRes(N.EvalAttrSet(fuel, recursive, defs, froms, dyn, env))
    decreases fuel, 5, End
  {
    if recursive {
      var frame := N.Scope(N.DefBinds(defs), froms, env);
      LetFrame(defs, froms, env);
      DefSlotsImage(defs, Static(frame), Static(env));
      RecAttrsImage(frame, defs, Static(frame), Static(env));
      SimAddDynamic(fuel, N.RecAttrs(frame, frame.binds), dyn, frame);
    } else {
      PlainAttrsImage(env, defs, froms);
      SimAddDynamic(fuel, N.PlainAttrs(env, defs, froms), dyn, env);
    }
  }

  lemma {:induction false} SimCall(fuel: nat, fun: Expr, args: Exprs, env: N.Env)
    ensures D.EvalCall(fuel, Bound(fun, Static(env)), BoundAll(args, Static(env)), ImageEnv(env))
            == ImageRes(N.EvalCall(fuel, fun, args, env))
    decreases fuel, 5, End
  {
    SimEval(fuel, fun, env);
    DelayAllImage(env, args);
    var r := N.Eval(fuel, fun, env);
    if r.Ok? { SimApplyAll(fuel, r.value, N.DelayAll(env, args)); }
    CallStep(fuel, fun, args, env, Bound(fun, Static(env)), BoundAll(args, Static(env)), ImageEnv(env));
  }

  lemma {:induction false} SimIf(fuel: nat, c: Expr, t: Expr, f: Expr, env: N.Env)
    ensures D.EvalIf(fuel, Bound(c, Static(env)), Bound(t, Static(env)), Bound(f, Static(env)), ImageEnv(env))
            == ImageRes(N.EvalIf(fuel, c, t, f, env))
    decreases fuel, 5, End
  {
    SimEvalBool(fuel, c, env);
    SimEval(fuel, t, env);
    SimEval(fuel, f, env);
    IfStep(fuel, c, t, f, env, Bound(c, Static(env)), Bound(t, Static(env)), Bound(f, Static(env)), ImageEnv(env));
  }

  lemma {:induction false} SimAssert(fuel: nat, c: Expr, body: Expr, env: N.Env)
    ensures D.EvalAssert(fuel, Bound(c, Static(env)), Bound(body, Static(env)), ImageEnv(env))
            == ImageRes(N.EvalAssert(fuel, c, body, env))
    decreases fuel, 5, End
  {
    SimEvalBool(fuel, c, env);
    SimEval(fuel, body, env);
    AssertStep(fuel, c, body, env, Bound(c, Static(env)), Bound(body, Static(env)), ImageEnv(env));
  }

  lemma {:induction false} SimNot(fuel: nat, e: Expr, env: N.Env)
    ensures D.EvalNot(fuel, Bound(e, Static(env)), ImageEnv(env)) == ImageRes(N.EvalNot(fuel, e, env))
    decreases fuel, 5, End
  {
    SimEvalBool(fuel, e, env);
  }

  lemma {:induction false} SimBinOp(fuel: nat, op: BoolOp, e1: Expr, e2: Expr, env: N.Env)
    ensures D.EvalBinOp(fuel, op, Bound(e1, Static(env)), Bound(e2, Static(env)), ImageEnv(env))
            == ImageRes(N.EvalBinOp(fuel, op, e1, e2, env))
    decreases fuel, 5, End
  {
    SimEvalBool(fuel, e1, env);
    SimEvalBool(fuel, e2, env);
    BinOpStep(fuel, op, e1, e2, env, Bound(e1, Static(env)), Bound(e2, Static(env)), ImageEnv(env));
  }

  lemma {:induction false} SimUpdate(fuel: nat, e1: Expr, e2: Expr, env: N.Env)
    ensures D.EvalUpdate(fuel, Bound(e1, Static(env)), Bound(e2, Static(env)), ImageEnv(env))
            == ImageRes(N.EvalUpdate(fuel, e1, e2, env))
    decreases fuel, 5, End
  {
    SimEvalAttrs(fuel, e1, env);
    SimEvalAttrs(fuel, e2, env);
    UpdateStep(fuel, e1, e2, env, Bound(e1, Static(env)), Bound(e2, Static(env)), ImageEnv(env));
  }

  lemma {:induction false} SimEvalBool(fuel: nat, e: Expr, env: N.Env)
    ensures D.EvalBool(fuel, Bound(e, Static(env)), ImageEnv(env)) == N.EvalBool(fuel, e, env)
    decreases fuel, 1, End
  {
    SimEval(fuel, e, env);
  }

  lemma {:induction false} SimEvalAttrs(fuel: nat, e: Expr, env: N.Env)
    ensures D.EvalAttrs(fuel, Bound(e, Static(env)), ImageEnv(env)) == ImageAttrsRes(N.EvalAttrs(fuel, e, env))
    decreases fuel, 1, End
  {
    SimEval(fuel, e, env);
  }

  lemma {:induction false} SimForce(fuel: nat, t: N.Thunk)
    ensures D.Force(fuel, ImageThunk(t)) == ImageRes(N.Force(fuel, t))
    decreases fuel, 1, End
  {
    match t
    case Delay(env, e) => SimEval(fuel, e, env);
    case Ready(_) =>
    case SelectFrom(env, froms, d, name) =>
      if fuel > 0 {
        NthBound(froms, Static(env), d);
        OuterSlotAt(BoundAll(froms, Static(env)), d);
        if Nth(froms, d).Some? {
          SimEval(fuel - 1, Nth(froms, d).value, env);
          var r := N.EvalAttrs(fuel - 1, Nth(froms, d).value, env);
          if r.Ok? {
            GetImage(r.value, name);
            if N.Get(r.value, name).Some? { SimForce(fuel - 1, N.Get(r.value, name).value); }
          }
        }
      }
  }

  lemma {:induction false} SimVar(fuel: nat, name: Name, env: N.Env)
    ensures D.EvalVar(fuel, name, Resolve(Static(env), name), ImageEnv(env)) == ImageRes(N.EvalVar(fuel, name, env))
    decreases fuel, 5, End
  {
    LexicalLookup(env, name);
    var s := Static(env);
    if FindLexical(s, name).Some? {
      SimForce(fuel, N.LookupLexical(env, name).value);
    } else {
      SimWith(fuel, env, name, false);
      var r := N.LookupWith(fuel, env, name, false);
      if r.Ok? { SimForce(fuel, r.value); }
    }
  }

  /**
   * The walk over `prevWith` and `parentWith` tries exactly the enclosing
   * `with` frames from inner to outer; without one the name is unbound.
   */
  lemma {:induction false} SimWith(fuel: nat, env: N.Env, name: Name, tried: bool)
    ensures EnclosingWith(Static(env)).None? ==>
              N.LookupWith(fuel, env, name, tried) == Err(if tried then UndefinedVar(name) else UnboundVar(name))
    ensures EnclosingWith(Static(env)).Some? ==>
              D.WalkWiths(fuel, D.Up(ImageEnv(env), WithDistance(Static(env)) - 1),
                          EnclosingWith(Static(env)).value, name)
              == ImageThunkRes(N.LookupWith(fuel, env, name, tried))
    decreases fuel, 3, env
  {
    match env
    case Empty =>
    case Scope(_, _, up) => SimWith(fuel, up, name, tried);
    case WithScope(e, up) =>
      SimEvalAttrs(fuel, e, up);
      SimWith(fuel, up, name, true);
      WithStep(fuel, e, up, name, tried, Bound(e, Static(up)), ImageEnv(up), InfoFor(Static(up)));
  }

  lemma {:induction false} SimNameOf(fuel: nat, path: AttrPath, env: N.Env)
    requires !path.End?
    ensures D.NameOf(fuel, BoundPath(path, Static(env)), ImageEnv(env)) == N.NameOf(fuel, path, env)
    decreases fuel, 2, path
  {
    if path.DynName? { SimEval(fuel, path.e, env); }
  }

  lemma {:induction false} SimSelectPath(fuel: nat, cur: N.Thunk, path: AttrPath, def: Option<Expr>, env: N.Env)
    ensures D.SelectPath(fuel, ImageThunk(cur), BoundPath(path, Static(env)), BoundOpt(def, Static(env)), ImageEnv(env))
            == ImageRes(N.SelectPath(fuel, cur, path, def, env))
    decreases fuel, 3, path, 1
  {
    SimForce(fuel, cur);
    if !path.End? {
      SimNameOf(fuel, path, env);
      var n, r := N.NameOf(fuel, path, env), N.Force(fuel, cur);
      PickedImage(n, r);
      SimSelectRest(fuel, N.Picked(n, r), path, def, env);
    }
  }

  lemma {:induction false} SimSelectRest(fuel: nat, pick: Res<N.Pick>, path: AttrPath, def: Option<Expr>, env: N.Env)
    requires !path.End?
    ensures var s := Static(env);
            D.SelectRest(fuel, ImagePick(pick), BoundPath(path, s), BoundOpt(def, s), ImageEnv(env))
            == ImageRes(N.SelectRest(fuel, pick, path, def, env))
    decreases fuel, 3, path, 0
  {
    if def.Some? { SimEval(fuel, def.value, env); }
    if pick.Ok? && pick.value.Found? { SimSelectPath(fuel, pick.value.t, path.rest, def, env); }
    SelectRestStep(fuel, pick, path, def, env, BoundPath(path, Static(env)), BoundOpt(def, Static(env)), ImageEnv(env));
  }

  lemma {:induction false} SimHasPath(fuel: nat, cur: N.Thunk, path: AttrPath, env: N.Env)
    ensures D.HasPath(fuel, ImageThunk(cur), BoundPath(path, Static(env)), ImageEnv(env))
            == ImageRes(N.HasPath(fuel, cur, path, env))
    decreases fuel, 3, path, 1
  {
    SimForce(fuel, cur);
    if !path.End? {
      SimNameOf(fuel, path, env);
      var n, r := N.NameOf(fuel, path, env), N.Force(fuel, cur);
      if r.Ok? {
        PickedImage(n, r);
        SimHasRest(fuel, N.Picked(n, r), path, env);
      }
    }
  }

  lemma {:induction false} SimHasRest(fuel: nat, pick: Res<N.Pick>, path: AttrPath, env: N.Env)
    requires !path.End?
    ensures D.HasRest(fuel, ImagePick(pick), BoundPath(path, Static(env)), ImageEnv(env))
            == ImageRes(N.HasRest(fuel, pick, path, env))
    decreases fuel, 3, path, 0
  {
    if pick.Ok? && pick.value.Found? { SimHasPath(fuel, pick.value.t, path.rest, env); }
    HasRestStep(fuel, pick, path, env, BoundPath(path, Static(env)), ImageEnv(env));
  }

  lemma {:induction false} SimAddDynamic(fuel: nat, attrs: N.AttrList, dyn: DynAttrs, env: N.Env)
    ensures D.AddDynamic(fuel, ImageAttrs(attrs), BoundDyn(dyn, Static(env)), ImageEnv(env))
            == ImageRes(N.AddDynamic(fuel, attrs, dyn, env))
    decreases fuel, 3, dyn
  {
    match dyn
    case NoDyn =>
    case Dyn(ne, ve, rest) =>
      SimEval(fuel, ne, env);
      var r := N.Eval(fuel, ne, env);
      if r.Ok? {
        if r.value.VNull? {
          SimAddDynamic(fuel, attrs, rest, env);
        } else if r.value.VStr? {
          GetImage(attrs, r.value.s);
          SimAddDynamic(fuel, N.ACons(r.value.s, N.Delay(env, ve), attrs), rest, env);
        }
      }
  }

  lemma {:induction false} SimApplyAll(fuel: nat, f: N.Value, args: N.Thunks)
    ensures D.ApplyAll(fuel, Image(f), ImageThunks(args)) == ImageRes(N.ApplyAll(fuel, f, args))
    decreases fuel, 4, args
  {
    match args
    case TNil =>
    case TCons(a, rest) =>
      SimApply(fuel, f, a);
      var r := N.Apply(fuel, f, a);
      if r.Ok? { SimApplyAll(fuel, r.value, rest); }
  }

  lemma {:induction false} SimApply(fuel: nat, f: N.Value, arg: N.Thunk)
    ensures D.Apply(fuel, Image(f), ImageThunk(arg)) == ImageRes(N.Apply(fuel, f, arg))
    decreases fuel, 3, End
  {
    match f
    case VLambda(env, Simple(x), body) =>
      SimpleFrame(x, arg, env);
      SimEval(fuel, body, N.Scope(N.BCons(x, N.Given(arg), N.BNil), Nil, env));
    case VLambda(env, Pattern(alias, formals, ellipsis), body) => SimPatternCall(fuel, f, arg);
    case VAttrs(attrs) => SimFunctor(fuel, f, arg);
    case _ =>
  }

  lemma {:induction false} SimPatternCall(fuel: nat, f: N.Value, arg: N.Thunk)
    requires f.VLambda? && f.param.Pattern?
    ensures D.Apply(fuel, Image(f), ImageThunk(arg)) == ImageRes(N.Apply(fuel, f, arg))
    decreases fuel, 2, f
  {
    SimForce(fuel, arg);
    var r := N.Force(fuel, arg);
    if r.Ok? && r.value.VAttrs? {
      MatchParamLayout(f.param, arg, r.value.attrs, LambdaEnv(f.param, Static(f.env)), Static(f.env));
      var m := N.MatchParam(f.param, arg, r.value.attrs);
      if m.Ok? { SimEval(fuel, f.body, N.Scope(m.value, Nil, f.env)); }
    }
  }

  lemma {:induction false} SimFunctor(fuel: nat, f: N.Value, arg: N.Thunk)
    requires f.VAttrs?
    ensures D.Apply(fuel, Image(f), ImageThunk(arg)) == ImageRes(N.Apply(fuel, f, arg))
    decreases fuel, 2, f
  {
    GetImage(f.attrs, "__functor");
    if fuel > 0 && N.Get(f.attrs, "__functor").Some? {
      var t := N.Get(f.attrs, "__functor").value;
      SimForce(fuel - 1, t);
      var g := N.Force(fuel - 1, t);
      FunctorArgsImage(f, arg);
      if g.Ok? { SimApplyAll(fuel - 1, g.value, N.TCons(N.Ready(f), N.TCons(arg, N.TNil))); }
    }
  }
}
