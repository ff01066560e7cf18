/**
 * How `ExprLet::eval` and `ExprAttrs::eval` fill a recursive frame: values are
 * shared, a variable is looked up at once when its slot is already filled
 * (`maybeThunk`), and `__overrides` rewrites slots afterwards
 * (src/libexpr/eval.cc). Values and environments are heap cells named by index.
 */
module FrameFill {
  import opened Basics

  type ValueId = nat
  type EnvId = nat

  datatype Exp =
    | Lexical(level: nat, displ: nat)  // a variable bound by a frame
    | FromWith(id: nat)                // a variable found through `with`
    | Constant(v: ValueId)             // a literal: the expression owns its value
    | Other(id: nat)

  datatype Cell = Thunk(env: EnvId, e: Exp) | Whnf(id: nat)

  /** `None` slots are not filled yet. */
  datatype Env = Env(up: Option<EnvId>, values: seq<Option<ValueId>>)

  datatype Kind = Plain | Inherited | InheritedFrom

  datatype Def = Def(name: Symbol, kind: Kind, e: Exp)

  datatype Attr = Attr(name: Symbol, value: ValueId)

  function FrameUp(envs: seq<Env>, env: EnvId, level: nat): Option<EnvId>
    decreases level
  {
    if env >= |envs| then None
    else if level == 0 then Some(env)
    else if envs[env].up.None? then None
    else FrameUp(envs, envs[env].up.value, level - 1)
  }

  /** `lookupVar` on a lexical variable; `None` when the slot is not filled. */
  function Lookup(envs: seq<Env>, env: EnvId, level: nat, displ: nat): Option<ValueId> {
    match FrameUp(envs, env, level)
    case None => None
    case Some(f) => if f < |envs| && displ < |envs[f].values| then envs[f].values[displ] else None
  }

  /**
   * `v` is what evaluating `e` in `env` would force: its own thunk, the
   * constant, or the very value that looking the variable up yields.
   */
  predicate Denotes(cells: seq<Cell>, envs: seq<Env>, v: ValueId, env: EnvId, e: Exp) {
    || (v < |cells| && cells[v] == Thunk(env, e))
    || (e.Constant? && v == e.v)
    || (e.Lexical? && Lookup(envs, env, e.level, e.displ) == Some(v))
  }

  // ---------- what forcing yields ----------

  /** Evaluation of the expressions that are neither lexical variables nor constants, in the heap as it is. */
  type World = (seq<Cell>, seq<Env>, EnvId, Exp) -> nat

  datatype Forced = Yields(v: nat) | Unbound | OutOfFuel

  /** `Expr::eval`: a variable's value is looked up in the frame as it is then, and forced. */
  function Eval(w: World, fuel: nat, cells: seq<Cell>, envs: seq<Env>, env: EnvId, e: Exp): Forced
    decreases fuel, 0
  {
    if fuel == 0 then OutOfFuel
    else
      match e
      case Constant(v) => Force(w, fuel - 1, cells, envs, v)
      case Lexical(level, displ) =>
        (match Lookup(envs, env, level, displ)
         case None => Unbound
         case Some(v) => Force(w, fuel - 1, cells, envs, v))
      case _ => Yields(w(cells, envs, env, e))
  }

  /** `forceValue`. */
  function Force(w: World, fuel: nat, cells: seq<Cell>, envs: seq<Env>, v: ValueId): Forced
    decreases fuel, 1
  {
    if v >= |cells| then Unbound
    else
      match cells[v]
      case Thunk(env, e) => Eval(w, fuel, cells, envs, env, e)
      case Whnf(id) => Yields(id)
  }

  lemma {:induction false} MoreFuel(w: World, fuel: nat, cells: seq<Cell>, envs: seq<Env>, env: EnvId, e: Exp)
    ensures !Eval(w, fuel, cells, envs, env, e).OutOfFuel? ==>
              Eval(w, fuel + 1, cells, envs, env, e) == Eval(w, fuel, cells, envs, env, e)
    decreases fuel, 0
  {
    if fuel > 0 {
      match e
      case Constant(v) => MoreFuelForce(w, fuel - 1, cells, envs, v);
      case Lexical(level, displ) =>
        var v := Lookup(envs, env, level, displ);
        if v.Some? { MoreFuelForce(w, fuel - 1, cells, envs, v.value); }
      case _ =>
    }
  }

  lemma {:induction false} MoreFuelForce(w: World, fuel: nat, cells: seq<Cell>, envs: seq<Env>, v: ValueId)
    ensures !Force(w, fuel, cells, envs, v).OutOfFuel? ==>
              Force(w, fuel + 1, cells, envs, v) == Force(w, fuel, cells, envs, v)
    decreases fuel, 1
  {
    if v < |cells| && cells[v].Thunk? { MoreFuel(w, fuel, cells, envs, cells[v].env, cells[v].e); }
  }

  /**
   * A value that denotes an expression is forced to what evaluating the
   * expression yields: one settles exactly when the other does, on the same
   * result.
   */
  lemma DenotesMeans(w: World, fuel: nat, cells: seq<Cell>, envs: seq<Env>, v: ValueId, env: EnvId, e: Exp)
    requires Denotes(cells, envs, v, env, e)
    ensures var r := Eval(w, fuel, cells, envs, env, e); !r.OutOfFuel? ==> Force(w, fuel, cells, envs, v) == r
    ensures var r := Force(w, fuel, cells, envs, v); !r.OutOfFuel? ==> Eval(w, fuel + 1, cells, envs, env, e) == r
  {
    if v < |cells| && cells[v] == Thunk(env, e) {
      MoreFuel(w, fuel, cells, envs, env, e);
    } else if fuel > 0 {
      MoreFuelForce(w, fuel - 1, cells, envs, v);
    }
  }

  /** So it is for every slot of a completed frame, whether it holds a thunk, a constant or a shared value. */
  lemma SlotMeansDefinition(w: World, fuel: nat, cells: seq<Cell>, envs: seq<Env>, env: EnvId,
                            es: seq<Exp>, scopes: seq<EnvId>, d: nat)
    requires Filled(cells, envs, env, |es|, es, scopes) && d < |es|
    ensures envs[env].values[d].Some?
    ensures var r := Eval(w, fuel, cells, envs, scopes[d], es[d]);
            !r.OutOfFuel? ==> Force(w, fuel, cells, envs, envs[env].values[d].value) == r
    ensures var r := Force(w, fuel, cells, envs, envs[env].values[d].value);
            !r.OutOfFuel? ==> Eval(w, fuel + 1, cells, envs, scopes[d], es[d]) == r
  {
    assert FilledSlot(cells, envs, env, d, es[d], scopes[d]);
    DenotesMeans(w, fuel, cells, envs, envs[env].values[d].value, scopes[d], es[d]);
  }

  // ---------- frames under construction ----------

  /** Environments are only added and empty slots only filled. */
  ghost predicate Grows(envs: seq<Env>, envs': seq<Env>) {
    && |envs| <= |envs'|
    && forall i :: 0 <= i < |envs| ==> GrowsEnv(envs[i], envs'[i])
  }

  ghost predicate GrowsEnv(e: Env, e': Env) {
    && e'.up == e.up && |e'.values| == |e.values|
    && forall d :: 0 <= d < |e.values| ==> e.values[d].Some? ==> e'.values[d] == e.values[d]
  }

  lemma {:induction false} FrameUpKept(envs: seq<Env>, envs': seq<Env>, env: EnvId, level: nat)
    requires Grows(envs, envs')
    ensures FrameUp(envs, env, level).Some? ==>
              FrameUp(envs', env, level) == FrameUp(envs, env, level) && FrameUp(envs, env, level).value < |envs|
    decreases level
  {
    if env < |envs| {
      assert GrowsEnv(envs[env], envs'[env]);
      if level > 0 && envs[env].up.Some? {
        FrameUpKept(envs, envs', envs[env].up.value, level - 1);
      }
    }
  }

  /** What a value denotes it keeps denoting while the heap grows and frames are completed. */
  lemma DenotesKept(cells: seq<Cell>, envs: seq<Env>, cells': seq<Cell>, envs': seq<Env>,
                    v: ValueId, env: EnvId, e: Exp)
    requires cells <= cells' && Grows(envs, envs')
    requires Denotes(cells, envs, v, env, e)
    ensures Denotes(cells', envs', v, env, e)
  {
    if e.Lexical? && Lookup(envs, env, e.level, e.displ) == Some(v) {
      FrameUpKept(envs, envs', env, e.level);
      var f := FrameUp(envs, env, e.level).value;
      assert GrowsEnv(envs[f], envs'[f]);
    }
  }

  function ChooseByKind(kind: Kind, plain: EnvId, inherited: EnvId, inheritedFrom: EnvId): EnvId {
    match kind
    case Plain => plain
    case Inherited => inherited
    case InheritedFrom => inheritedFrom
  }

  function DefExprs(defs: seq<Def>): (es: seq<Exp>)
    ensures |es| == |defs|
  {
    seq(|defs|, i requires 0 <= i < |defs| => defs[i].e)
  }

  function DefScopes(defs: seq<Def>, env2: EnvId, env: EnvId, inh: EnvId): (s: seq<EnvId>)
    ensures |s| == |defs|
  {
    seq(|defs|, i requires 0 <= i < |defs| => ChooseByKind(defs[i].kind, env2, env, inh))
  }

  /** Every slot below `n` of a frame is filled with a value that denotes its expression in its environment. */
  ghost predicate Filled(cells: seq<Cell>, envs: seq<Env>, env: EnvId, n: nat, es: seq<Exp>, scopes: seq<EnvId>) {
    && env < |envs| && n <= |es| == |scopes| == |envs[env].values|
    && forall d :: 0 <= d < n ==> FilledSlot(cells, envs, env, d, es[d], scopes[d])
  }

  ghost predicate FilledSlot(cells: seq<Cell>, envs: seq<Env>, env: EnvId, d: nat, e: Exp, scope: EnvId) {
    && env < |envs| && d < |envs[env].values|
    && envs[env].values[d].Some?
    && Denotes(cells, envs, envs[env].values[d].value, scope, e)
    && (Shared(cells, envs, envs[env].values[d].value, scope, e) && FrameUp(envs, scope, e.level) == Some(env) ==>
          e.displ < d)
  }

  /** The value was found by looking the variable up: sharing inside a frame only goes to an earlier slot. */
  predicate Shared(cells: seq<Cell>, envs: seq<Env>, v: ValueId, env: EnvId, e: Exp) {
    e.Lexical? && Lookup(envs, env, e.level, e.displ) == Some(v) && !(v < |cells| && cells[v] == Thunk(env, e))
  }

  /** The slot of a definition, in the environment of its kind. */
  ghost predicate DefFilled(cells: seq<Cell>, envs: seq<Env>, env2: EnvId, env: EnvId, inh: EnvId, d: nat, def: Def) {
    && (def.kind.Plain? ==> FilledSlot(cells, envs, env2, d, def.e, env2))
    && (def.kind.Inherited? ==> FilledSlot(cells, envs, env2, d, def.e, env))
    && (def.kind.InheritedFrom? ==> FilledSlot(cells, envs, env2, d, def.e, inh))
  }

  /** A variable's value is in the slot of its displacement, as many frames up as its level. */
  lemma LookupRule(envs: seq<Env>, env: EnvId, level: nat, displ: nat)
    requires env < |envs|
    ensures displ < |envs[env].values| ==> Lookup(envs, env, 0, displ) == envs[env].values[displ]
    ensures envs[env].up.Some? ==> Lookup(envs, env, level + 1, displ) == Lookup(envs, envs[env].up.value, level, displ)
  {
  }

  /**
   * A plain definition that is a variable of its own frame is forced to what
   * that variable's slot is forced to; one settles exactly when the other does.
   */
  lemma OwnVariable(w: World, fuel: nat, cells: seq<Cell>, envs: seq<Env>, env2: EnvId, d: nat, j: nat, def: Def,
                    env: EnvId, inh: EnvId)
    requires DefFilled(cells, envs, env2, env, inh, d, def) && def.kind.Plain? && def.e == Lexical(0, j)
    requires env2 < |envs| && j < |envs[env2].values| && envs[env2].values[j].Some?
    ensures d < |envs[env2].values| && envs[env2].values[d].Some?
    ensures var r := Force(w, fuel, cells, envs, envs[env2].values[d].value);
            !r.OutOfFuel? ==> Force(w, fuel, cells, envs, envs[env2].values[j].value) == r
    ensures var r := Force(w, fuel, cells, envs, envs[env2].values[j].value);
            !r.OutOfFuel? ==> Force(w, fuel + 1, cells, envs, envs[env2].values[d].value) == r
  {
    var v, u := envs[env2].values[d].value, envs[env2].values[j].value;
    assert Lookup(envs, env2, 0, j) == Some(u);
    assert Eval(w, fuel + 1, cells, envs, env2, def.e) == Force(w, fuel, cells, envs, u);
    DenotesMeans(w, fuel, cells, envs, v, env2, def.e);
    DenotesMeans(w, fuel + 1, cells, envs, v, env2, def.e);
  }

  lemma FilledKept(cells: seq<Cell>, envs: seq<Env>, cells': seq<Cell>, envs': seq<Env>,
                   env: EnvId, n: nat, es: seq<Exp>, scopes: seq<EnvId>)
    requires Filled(cells, envs, env, n, es, scopes)
    requires cells <= cells' && Grows(envs, envs')
    ensures Filled(cells', envs', env, n, es, scopes)
  {
    assert GrowsEnv(envs[env], envs'[env]);
    forall d | 0 <= d < n ensures FilledSlot(cells', envs', env, d, es[d], scopes[d]) {
      assert FilledSlot(cells, envs, env, d, es[d], scopes[d]);
      DenotesKept(cells, envs, cells', envs', envs[env].values[d].value, scopes[d], es[d]);
      if es[d].Lexical? { FrameUpKept(envs, envs', scopes[d], es[d].level); }
    }
  }

  /** One more slot: what it shares was in an earlier one. */
  lemma FillStep(cells0: seq<Cell>, envs0: seq<Env>, cells: seq<Cell>, envs: seq<Env>,
                 env: EnvId, d: nat, es: seq<Exp>, scopes: seq<EnvId>, v: ValueId)
    requires Filled(cells0, envs0, env, d, es, scopes) && d < |es|
    requires cells0 <= cells && Grows(envs0, envs) && envs[env].values[d] == Some(v)
    requires forall k :: d <= k < |es| ==> envs0[env].values[k] == None
    requires Denotes(cells, envs0, v, scopes[d], es[d])
    ensures Filled(cells, envs, env, d + 1, es, scopes)
  {
    FilledKept(cells0, envs0, cells, envs, env, d, es, scopes);
    DenotesKept(cells, envs0, cells, envs, v, scopes[d], es[d]);
    if es[d].Lexical? { FrameUpKept(envs0, envs, scopes[d], es[d].level); }
    assert FilledSlot(cells, envs, env, d, es[d], scopes[d]);
  }

  class Heap {
    var cells: seq<Cell>
    var envs: seq<Env>

    constructor ()
      ensures cells == [] && envs == []
    {
      cells, envs := [], [];
    }

    method AllocEnv(up: EnvId, size: nat) returns (env: EnvId)
      modifies this`envs
      ensures env == |old(envs)| && envs == old(envs) + [Env(Some(up), seq(size, _ => None))]
      ensures Grows(old(envs), envs)
    {
      env := |envs|;
      envs := envs + [Env(Some(up), seq(size, _ => None))];
    }

    /** Writes an empty slot. */
    method Fill(env: EnvId, displ: nat, v: ValueId)
      requires env < |envs| && displ < |envs[env].values| && envs[env].values[displ] == None
      modifies this`envs
      ensures envs == old(envs)[env := old(envs)[env].(values := old(envs)[env].values[displ := Some(v)])]
      ensures Grows(old(envs), envs)
    {
      envs := envs[env := envs[env].(values := envs[env].values[displ := Some(v)])];
    }

    method MkThunk(env: EnvId, e: Exp) returns (v: ValueId)
      modifies this`cells
      ensures old(cells) <= cells && v < |cells| && cells[v] == Thunk(env, e)
    {
      v := |cells|;
      cells := cells + [Thunk(env, e)];
    }

    method MaybeThunk(env: EnvId, e: Exp) returns (v: ValueId)
      modifies this`cells
      ensures old(cells) <= cells
      ensures Denotes(cells, envs, v, env, e) && (e.Constant? ==> v == e.v)
    {
      if e.Constant? { return e.v; }
      if e.Lexical? {
        var found := Lookup(envs, env, e.level, e.displ);
        if found.Some? { return found.value; }
      }
      v := MkThunk(env, e);
    }

    /**
     * Fills a frame slot by slot; some expressions see the frame itself while
     * it is incomplete. Where `delayed` says so a thunk is made in any case.
     */
    method FillFrame(env: EnvId, es: seq<Exp>, scopes: seq<EnvId>, delayed: seq<bool>)
      requires env < |envs| && |envs[env].values| == |es| == |scopes| == |delayed|
      requires forall d :: 0 <= d < |es| ==> envs[env].values[d] == None
      modifies this
      ensures old(cells) <= cells && Grows(old(envs), envs) && |envs| == |old(envs)|
      ensures forall i :: 0 <= i < |envs| && i != env ==> envs[i] == old(envs)[i]
      ensures Filled(cells, envs, env, |es|, es, scopes)
      ensures forall d :: 0 <= d < |es| && delayed[d] ==> IsThunk(cells, envs[env].values[d], scopes[d], es[d])
      ensures forall d :: 0 <= d < |es| && !delayed[d] && es[d].Constant? ==> envs[env].values[d] == Some(es[d].v)
    {
      for d := 0 to |es|
        invariant old(cells) <= cells && Grows(old(envs), envs) && |envs| == |old(envs)|
        invariant forall i :: 0 <= i < |envs| && i != env ==> envs[i] == old(envs)[i]
        invariant Filled(cells, envs, env, d, es, scopes)
        invariant forall k :: 0 <= k < d && delayed[k] ==> IsThunk(cells, envs[env].values[k], scopes[k], es[k])
        invariant forall k :: 0 <= k < d && !delayed[k] && es[k].Constant? ==> envs[env].values[k] == Some(es[k].v)
        invariant forall k :: d <= k < |es| ==> envs[env].values[k] == None
      {
        ghost var cells0, envs0 := cells, envs;
        var v;
        if delayed[d] { v := MkThunk(scopes[d], es[d]); } else { v := MaybeThunk(scopes[d], es[d]); }
        Fill(env, d, v);
        GrowsTrans(old(envs), envs0, envs);
        FillStep(cells0, envs0, cells, envs, env, d, es, scopes, v);
      }
    }

    /**
     * The common part of `ExprLet::eval` and of `ExprAttrs::eval` on a
     * recursive set: the new frame and the environment of the `inherit`
     * sources. In the completed frame every slot and every source denotes its
     * expression in the environment `bindVars` bound it in.
     */
    method FillRec(env: EnvId, defs: seq<Def>, froms: seq<Exp>, hasOverrides: bool) returns (env2: EnvId, inh: EnvId)
      requires env < |envs|
      modifies this
      ensures old(cells) <= cells && Grows(old(envs), envs)
      ensures env2 == |old(envs)| < |envs| && envs[env2].up == Some(env)
      ensures inh == env2 + 1 < |envs| && envs[inh].up == Some(env2) && |envs| == inh + 1
      ensures Filled(cells, envs, inh, |froms|, froms, seq(|froms|, _ => env2))
      ensures Filled(cells, Emptied(envs, env2), inh, |froms|, froms, seq(|froms|, _ => env2))
      ensures Filled(cells, envs, env2, |defs|, DefExprs(defs), DefScopes(defs, env2, env, inh))
      ensures forall d :: 0 <= d < |defs| ==> DefFilled(cells, envs, env2, env, inh, d, defs[d])
      ensures forall d :: 0 <= d < |defs| && Delayed(defs, hasOverrides)[d] ==>
                IsThunk(cells, envs[env2].values[d], DefScopes(defs, env2, env, inh)[d], defs[d].e)
    {
      env2 := AllocEnv(env, |defs|);
      ghost var envs1 := envs;
      inh := AllocEnv(env2, |froms|);
      ghost var envs2 := envs;
      FillFrame(inh, froms, seq(|froms|, _ => env2), seq(|froms|, _ => false));
      ghost var cells3, envs3 := cells, envs;
      FillFrame(env2, DefExprs(defs), DefScopes(defs, env2, env, inh), Delayed(defs, hasOverrides));
      FilledKept(cells3, envs3, cells, envs, inh, |froms|, froms, seq(|froms|, _ => env2));
      assert Emptied(envs, env2) == envs3;
      FilledKept(cells3, envs3, cells, envs3, inh, |froms|, froms, seq(|froms|, _ => env2));
      GrowsTrans(old(envs), envs1, envs2);
      GrowsTrans(old(envs), envs2, envs3);
      GrowsTrans(old(envs), envs3, envs);
      forall d | 0 <= d < |defs| ensures DefFilled(cells, envs, env2, env, inh, d, defs[d]) {
        assert FilledSlot(cells, envs, env2, d, DefExprs(defs)[d], DefScopes(defs, env2, env, inh)[d]);
      }
    }

    /**
     * The frame of a call: the named argument, then an actual argument or the
     * default of every formal. Defaults see the frame, arguments filled later
     * included.
     */
    method FillCall(lambdaEnv: EnvId, alias: Option<ValueId>, formals: seq<CallSlot>) returns (env2: EnvId)
      requires lambdaEnv < |envs|
      modifies this
      ensures old(cells) <= cells && Grows(old(envs), envs)
      ensures env2 < |envs| && envs[env2].up == Some(lambdaEnv)
      ensures var es := CallExprs(alias, formals); Filled(cells, envs, env2, |es|, es, seq(|es|, _ => env2))
      ensures alias.Some? ==> envs[env2].values[0] == alias
      ensures var first := if alias.Some? then 1 else 0;
              forall i :: 0 <= i < |formals| ==>
                if formals[i].Actual? then envs[env2].values[first + i] == Some(formals[i].v)
                else FilledSlot(cells, envs, env2, first + i, formals[i].e, env2)
    {
      var es := CallExprs(alias, formals);
      env2 := AllocEnv(lambdaEnv, |es|);
      ghost var envs1 := envs;
      FillFrame(env2, es, seq(|es|, _ => env2), seq(|es|, _ => false));
      GrowsTrans(old(envs), envs1, envs);
    }

    /**
     * `ExprAttrs::eval` on a recursive set, with the attributes of
     * `__overrides` if there is one. At the end every slot equals the binding
     * at its displacement, and it holds the overriding value or denotes its
     * definition in the overridden frame: also references from other
     * definitions and from the `inherit` sources see the overriding values.
     */
    method EvalRec(env: EnvId, defs: seq<Def>, froms: seq<Exp>, overrides: Option<seq<Attr>>)
      returns (env2: EnvId, inh: EnvId, bindings: seq<Attr>)
      requires env < |envs| && OlderUp(envs) && Distinct(DefNames(defs))
      modifies this
      ensures old(cells) <= cells && Grows(old(envs), envs)
      ensures env2 < |envs| && envs[env2].up == Some(env) && |envs[env2].values| == |defs| <= |bindings|
      ensures inh < |envs| && envs[inh].up == Some(env2) && OlderUp(envs)
      ensures Filled(cells, envs, inh, |froms|, froms, seq(|froms|, _ => env2))
      ensures forall d :: 0 <= d < |defs| ==>
                envs[env2].values[d] == Some(bindings[d].value) && bindings[d].name == defs[d].name
      ensures forall d :: 0 <= d < |defs| ==>
                match Override(overrides, defs[d].name)
                case Some(v) => bindings[d].value == v
                case None => DefFilled(cells, envs, env2, env, inh, d, defs[d])
      ensures overrides.None? ==> |bindings| == |defs|
      ensures overrides.Some? ==> Appended(overrides.value, DefNames(defs), bindings[|defs|..])
    {
      env2, inh := FillRec(env, defs, froms, overrides.Some?);
      RecOlder(old(envs), envs, env);
      ghost var envs1, scopes := envs, DefScopes(defs, env2, env, inh);
      var values := FrameValues(cells, envs, env2, defs, scopes);
      if overrides.None? {
        bindings := seq(|defs|, d requires 0 <= d < |defs| => Attr(defs[d].name, values[d]));
      } else {
        var values';
        values', bindings := ApplyOverrides(values, DefNames(defs), overrides.value);
        envs := envs[env2 := envs[env2].(values := Filling(values'))];
      }
      GrowsOlder(old(envs), envs1, envs, env2);
      FilledKept(cells, Emptied(envs1, env2), cells, envs, inh, |froms|, froms, seq(|froms|, _ => env2));
      forall d | 0 <= d < |defs| && envs[env2].values[d] == Some(values[d])
        ensures FilledSlot(cells, envs, env2, d, defs[d].e, scopes[d])
      {
        KeptDefinition(cells, envs1, envs, env, env2, inh, defs, overrides.Some?, d);
      }
    }
  }

  /** The environments with one frame not filled. */
  function Emptied(envs: seq<Env>, env: EnvId): seq<Env>
    requires env < |envs|
  {
    envs[env := envs[env].(values := seq(|envs[env].values|, _ => None))]
  }

  /** Rewriting a frame that is new changes no older one, and fills the frame where it was empty. */
  lemma GrowsOlder(envs0: seq<Env>, envs1: seq<Env>, envs: seq<Env>, env2: EnvId)
    requires Grows(envs0, envs1) && |envs0| <= env2 < |envs1| == |envs|
    requires forall i :: 0 <= i < |envs| && i != env2 ==> envs[i] == envs1[i]
    requires envs[env2].up == envs1[env2].up && |envs[env2].values| == |envs1[env2].values|
    ensures Grows(envs0, envs) && Grows(Emptied(envs1, env2), envs)
  {
    forall i | 0 <= i < |envs0| ensures GrowsEnv(envs0[i], envs[i]) { assert GrowsEnv(envs0[i], envs1[i]); }
  }

  function Override(overrides: Option<seq<Attr>>, name: Symbol): Option<ValueId> {
    if overrides.None? then None else Overridden(overrides.value, name)
  }

  /** The attributes of an override set that the set does not define. */
  ghost predicate Appended(overrides: seq<Attr>, names: seq<Symbol>, more: seq<Attr>) {
    && (forall a :: a in more ==> a in overrides && a.name !in names)
    && (forall a :: a in overrides && a.name !in names ==> a in more)
  }

  /** The contents of a completed frame. */
  method FrameValues(ghost cells: seq<Cell>, envs: seq<Env>, env: EnvId, defs: seq<Def>, ghost scopes: seq<EnvId>)
    returns (values: seq<ValueId>)
    requires Filled(cells, envs, env, |defs|, DefExprs(defs), scopes)
    ensures |values| == |defs| && forall d :: 0 <= d < |defs| ==> envs[env].values[d] == Some(values[d])
  {
    forall d | 0 <= d < |defs| ensures envs[env].values[d].Some? {
      assert FilledSlot(cells, envs, env, d, DefExprs(defs)[d], scopes[d]);
    }
    values := seq(|defs|, d requires 0 <= d < |defs| && envs[env].values[d].Some? => envs[env].values[d].value);
  }

  /** Rewriting slots of the frame leaves every definition denoted by the value made for it. */
  lemma KeptDefinition(cells: seq<Cell>, envs: seq<Env>, envs': seq<Env>, env: EnvId, env2: EnvId, inh: EnvId,
                       defs: seq<Def>, hasOverrides: bool, d: nat)
    requires OlderUp(envs) && |envs'| == |envs| && env < env2 < |envs| && d < |defs|
    requires forall i :: 0 <= i < |envs| && i != env2 ==> envs'[i] == envs[i]
    requires Filled(cells, envs, env2, |defs|, DefExprs(defs), DefScopes(defs, env2, env, inh))
    requires Delayed(defs, hasOverrides)[d] ==>
               IsThunk(cells, envs[env2].values[d], DefScopes(defs, env2, env, inh)[d], defs[d].e)
    requires hasOverrides || envs' == envs
    requires |envs'[env2].values| == |defs| && envs'[env2].values[d] == envs[env2].values[d]
    ensures FilledSlot(cells, envs', env2, d, defs[d].e, DefScopes(defs, env2, env, inh)[d])
  {
    var scope := DefScopes(defs, env2, env, inh)[d];
    assert FilledSlot(cells, envs, env2, d, DefExprs(defs)[d], scope);
    if hasOverrides && defs[d].kind.Inherited? {
      DenotesDespite(cells, envs, envs', env2, envs[env2].values[d].value, env, defs[d].e);
      if defs[d].e.Lexical? { FrameUpDespite(envs, envs', env2, env, defs[d].e.level); }
    }
  }

  /** The value is a thunk for the expression itself. */
  predicate IsThunk(cells: seq<Cell>, v: Option<ValueId>, env: EnvId, e: Exp) {
    v.Some? && v.value < |cells| && cells[v.value] == Thunk(env, e)
  }

  /** With `__overrides`, all but the inherited definitions are always delayed. */
  function Delayed(defs: seq<Def>, hasOverrides: bool): (s: seq<bool>)
    ensures |s| == |defs|
  {
    seq(|defs|, i requires 0 <= i < |defs| => hasOverrides && !defs[i].kind.Inherited?)
  }

  function DefNames(defs: seq<Def>): (s: seq<Symbol>)
    ensures |s| == |defs|
  {
    seq(|defs|, i requires 0 <= i < |defs| => defs[i].name)
  }

  function Filling(values: seq<ValueId>): (s: seq<Option<ValueId>>)
    ensures |s| == |values|
  {
    seq(|values|, i requires 0 <= i < |values| => Some(values[i]))
  }

  datatype CallSlot = Actual(v: ValueId) | Default(e: Exp)

  /** A given value is like a constant. */
  function CallExprs(alias: Option<ValueId>, formals: seq<CallSlot>): seq<Exp> {
    (if alias.Some? then [Constant(alias.value)] else [])
    + seq(|formals|, i requires 0 <= i < |formals| =>
        if formals[i].Actual? then Constant(formals[i].v) else formals[i].e)
  }

  lemma GrowsTrans(a: seq<Env>, b: seq<Env>, c: seq<Env>)
    requires Grows(a, b) && Grows(b, c)
    ensures Grows(a, c)
  {
    forall i | 0 <= i < |a| ensures GrowsEnv(a[i], c[i]) {
      assert GrowsEnv(a[i], b[i]) && GrowsEnv(b[i], c[i]);
    }
  }

  // ---------- older frames do not see newer ones ----------

  predicate OlderUp(envs: seq<Env>) {
    forall i :: 0 <= i < |envs| && envs[i].up.Some? ==> envs[i].up.value < i
  }

  lemma RecOlder(envs: seq<Env>, envs': seq<Env>, env: EnvId)
    requires OlderUp(envs) && Grows(envs, envs') && env < |envs| && |envs'| == |envs| + 2
    requires envs'[|envs|].up == Some(env) && envs'[|envs| + 1].up == Some(|envs|)
    ensures OlderUp(envs')
  {
    forall i | 0 <= i < |envs'| && envs'[i].up.Some? ensures envs'[i].up.value < i {
      if i < |envs| { assert GrowsEnv(envs[i], envs'[i]); }
    }
  }

  /** Rewriting the slots of a frame does not change what is found from an older one. */
  lemma {:induction false} FrameUpDespite(envs: seq<Env>, envs': seq<Env>, frame: EnvId, env: EnvId, level: nat)
    requires OlderUp(envs) && |envs'| == |envs| && env < frame < |envs|
    requires forall i :: 0 <= i < |envs| && i != frame ==> envs'[i] == envs[i]
    ensures FrameUp(envs', env, level) == FrameUp(envs, env, level)
    ensures FrameUp(envs, env, level).Some? ==> FrameUp(envs, env, level).value < frame
    decreases level
  {
    if level > 0 && envs[env].up.Some? { FrameUpDespite(envs, envs', frame, envs[env].up.value, level - 1); }
  }

  lemma DenotesDespite(cells: seq<Cell>, envs: seq<Env>, envs': seq<Env>, frame: EnvId, v: ValueId, env: EnvId, e: Exp)
    requires OlderUp(envs) && |envs'| == |envs| && env < frame < |envs|
    requires forall i :: 0 <= i < |envs| && i != frame ==> envs'[i] == envs[i]
    requires Denotes(cells, envs, v, env, e)
    ensures Denotes(cells, envs', v, env, e)
  {
    if e.Lexical? { FrameUpDespite(envs, envs', frame, env, e.level); }
  }

  // ---------- `__overrides` ----------

  /** The value an override set gives to a name. */
  function Overridden(overrides: seq<Attr>, name: Symbol): Option<ValueId> {
    if overrides == [] then None
    else
      var last := overrides[|overrides| - 1];
      if last.name == name then Some(last.value) else Overridden(overrides[..|overrides| - 1], name)
  }

  /** An override set, whose names are distinct, gives a name the value of its attribute of that name. */
  lemma {:induction false} OverriddenRule(overrides: seq<Attr>, name: Symbol, v: ValueId)
    requires forall i, j :: 0 <= i < j < |overrides| ==> overrides[i].name != overrides[j].name
    ensures Overridden(overrides, name) == Some(v) <==> Attr(name, v) in overrides
    decreases |overrides|
  {
    if overrides != [] {
      var init, last := overrides[..|overrides| - 1], overrides[|overrides| - 1];
      OverriddenRule(init, name, v);
      assert overrides == init + [last];
    }
  }

  /** A slot after the override loop. */
  function After(overrides: seq<Attr>, name: Symbol, v: ValueId): ValueId {
    match Overridden(overrides, name)
    case None => v
    case Some(w) => w
  }

  /** `attrs->find(name)` followed by `displ`. */
  method FindDispl(names: seq<Symbol>, name: Symbol) returns (d: Option<nat>)
    ensures d.None? <==> name !in names
    ensures d.Some? ==> d.value < |names| && names[d.value] == name
  {
    for i := 0 to |names|
      invariant name !in names[..i]
    {
      if names[i] == name { return Some(i); }
    }
    return None;
  }

  /**
   * The override loop on the frame's slots and the bindings under
   * construction, which start out equal. Afterwards every slot still equals the
   * binding at its displacement and holds the overriding value if there is one;
   * attributes that the set does not define are appended.
   */
  method ApplyOverrides(values: seq<ValueId>, names: seq<Symbol>, overrides: seq<Attr>)
    returns (values': seq<ValueId>, bindings: seq<Attr>)
    requires |values| == |names| && Distinct(names)
    ensures |values'| == |names| <= |bindings|
    ensures forall d :: 0 <= d < |names| ==> bindings[d] == Attr(names[d], values'[d])
    ensures forall d :: 0 <= d < |names| ==> values'[d] == After(overrides, names[d], values[d])
    ensures Appended(overrides, names, bindings[|names|..])
  {
    values' := values;
    bindings := seq(|names|, i requires 0 <= i < |names| => Attr(names[i], values[i]));
    for k := 0 to |overrides|
      invariant |values'| == |names| <= |bindings|
      invariant forall d :: 0 <= d < |names| ==> bindings[d] == Attr(names[d], values'[d])
      invariant forall d :: 0 <= d < |names| ==> values'[d] == After(overrides[..k], names[d], values[d])
      invariant Appended(overrides[..k], names, bindings[|names|..])
    {
      var i := overrides[k];
      assert overrides[..k + 1] == overrides[..k] + [i] && overrides[..k + 1][..k] == overrides[..k];
      var j := FindDispl(names, i.name);
      if j.Some? {
        assert bindings[|names|..] == bindings[j.value := i][|names|..];
        bindings := bindings[j.value := i];
        values' := values'[j.value := i.value];
      } else {
        assert (bindings + [i])[|names|..] == bindings[|names|..] + [i];
        bindings := bindings + [i];
      }
    }
    assert overrides[..|overrides|] == overrides;
  }
}
