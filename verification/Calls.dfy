/**
 * `callFunction` (src/libexpr/eval.cc): lambdas, primops applied to too few,
 * enough or too many arguments, partial-application chains and functors,
 * against application of one argument at a time.
 */
module Calls {
  import opened Basics

  /** `left` and `right` of a partial application are values; `Thunk` is a value not yet forced. */
  datatype Value =
    | Lambda(id: nat)
    | PrimOp(p: nat)
    | PrimOpApp(left: Value, right: Value)
    | Set(functor: Option<Value>, id: nat)
    | Other(id: nat)
    | Thunk(id: nat)

  datatype Error = NotAFunction | Thrown(id: nat) | OutOfFuel

  type Res = Result<Value, Error>

  /** What calls do not define themselves: forcing thunks, evaluating function bodies, running primops. */
  datatype World = World(
    force: nat -> Res,
    body: (nat, Value) -> Res,
    arity: nat -> nat,
    impl: (nat, seq<Value>) -> Res)

  const MAX_PRIMOP_ARITY := 8

  function Base(v: Value): Value { if v.PrimOpApp? then Base(v.left) else v }

  /** The arguments of a partial application, oldest first. */
  function ChainArgs(v: Value): seq<Value> {
    if v.PrimOpApp? then ChainArgs(v.left) + [v.right] else []
  }

  /** A chain hangs off a primop and is shorter than the primop's arity; the same for a functor. */
  predicate ChainOk(w: World, v: Value) {
    && (v.PrimOpApp? ==> Base(v).PrimOp? && |ChainArgs(v)| < w.arity(Base(v).p))
    && (v.Set? && v.functor.Some? ==> ChainOk(w, v.functor.value))
  }

  /** A forced value. */
  predicate Whnf(w: World, v: Value) { !v.Thunk? && ChainOk(w, v) }

  /** Evaluation yields forced values, and every primop takes between one argument and the maximum. */
  ghost predicate WorldOk(w: World) {
    && (forall p :: 1 <= w.arity(p) <= MAX_PRIMOP_ARITY)
    && (forall t :: w.force(t).Success? ==> Whnf(w, w.force(t).value))
    && (forall f, a :: w.body(f, a).Success? ==> Whnf(w, w.body(f, a).value))
    && (forall p, args :: w.impl(p, args).Success? ==> Whnf(w, w.impl(p, args).value))
  }

  /** `forceValue`. */
  function Force(w: World, v: Value): Res { if v.Thunk? then w.force(v.id) else Success(v) }

  /** A primop runs with exactly its arity of arguments. */
  function RunPrimOp(w: World, p: nat, args: seq<Value>): Res
    requires |args| == w.arity(p)
  {
    w.impl(p, args)
  }

  // ---------- the reference: one argument at a time ----------

  function Apply(w: World, fuel: nat, f: Value, arg: Value): Res
    decreases fuel, 0
  {
    match f
    case Lambda(id) => w.body(id, arg)
    case Set(Some(functor), _) =>
      if fuel == 0 then Failure(OutOfFuel)
      else var g :- Force(w, functor); ApplyAll(w, fuel - 1, g, [f, arg])
    case _ =>
      var args := ChainArgs(f) + [arg];
      if !Base(f).PrimOp? then Failure(NotAFunction)
      else if |args| == w.arity(Base(f).p) then RunPrimOp(w, Base(f).p, args)
      else Success(PrimOpApp(f, arg))
  }

  function ApplyAll(w: World, fuel: nat, f: Value, args: seq<Value>): Res
    decreases fuel, 1, |args|
  {
    if args == [] then Success(f)
    else var g :- Apply(w, fuel, f, args[0]); ApplyAll(w, fuel, g, args[1..])
  }

  /** Calling a function on a list of arguments. */
  function Call(w: World, fuel: nat, fun: Value, args: seq<Value>): Res {
    var f :- Force(w, fun);
    ApplyAll(w, fuel, f, args)
  }

  lemma {:induction false} ApplyKeepsWhnf(w: World, fuel: nat, f: Value, arg: Value)
    requires WorldOk(w) && Whnf(w, f)
    ensures Apply(w, fuel, f, arg).Success? ==> Whnf(w, Apply(w, fuel, f, arg).value)
    decreases fuel, 0
  {
    if f.Set? && f.functor.Some? && fuel > 0 {
      var g := Force(w, f.functor.value);
      if g.Success? { ApplyAllKeepsWhnf(w, fuel - 1, g.value, [f, arg]); }
    } else if Base(f).PrimOp? {
      assert 1 <= w.arity(Base(f).p);
    }
  }

  /** Every partial-application chain that calls build is shorter than the arity. */
  lemma {:induction false} ApplyAllKeepsWhnf(w: World, fuel: nat, f: Value, args: seq<Value>)
    requires WorldOk(w) && Whnf(w, f)
    ensures ApplyAll(w, fuel, f, args).Success? ==> Whnf(w, ApplyAll(w, fuel, f, args).value)
    decreases fuel, 1, |args|
  {
    if args != [] {
      ApplyKeepsWhnf(w, fuel, f, args[0]);
      var g := Apply(w, fuel, f, args[0]);
      if g.Success? { ApplyAllKeepsWhnf(w, fuel, g.value, args[1..]); }
    }
  }

  /** Sequencing of two applications, errors included. */
  function AndThen(w: World, fuel: nat, r: Res, args: seq<Value>): Res {
    var f :- r;
    ApplyAll(w, fuel, f, args)
  }

  lemma {:induction false} ApplyAllSplit(w: World, fuel: nat, f: Value, xs: seq<Value>, ys: seq<Value>)
    ensures ApplyAll(w, fuel, f, xs + ys) == AndThen(w, fuel, ApplyAll(w, fuel, f, xs), ys)
    decreases |xs|
  {
    if xs == [] {
      assert xs + ys == ys;
    } else {
      assert (xs + ys)[0] == xs[0] && (xs + ys)[1..] == xs[1..] + ys;
      var g := Apply(w, fuel, f, xs[0]);
      if g.Success? { ApplyAllSplit(w, fuel, g.value, xs[1..], ys); }
    }
  }

  /** Calling on `xs ++ ys` is calling on `xs` and then calling the result on `ys`. */
  lemma CallSplit(w: World, fuel: nat, fun: Value, xs: seq<Value>, ys: seq<Value>)
    requires WorldOk(w) && ChainOk(w, fun)
    ensures Call(w, fuel, fun, xs + ys)
            == (var r := Call(w, fuel, fun, xs); if r.Failure? then r else Call(w, fuel, r.value, ys))
  {
    var f := Force(w, fun);
    if f.Success? {
      ApplyAllSplit(w, fuel, f.value, xs, ys);
      ApplyAllKeepsWhnf(w, fuel, f.value, xs);
    }
  }

  // ---------- what can be called ----------

  /** A call without arguments forces the function; a lambda runs its body; nothing else is a function. */
  lemma CallRules(w: World, fuel: nat, fun: Value, x: Value)
    ensures Call(w, fuel, fun, []) == Force(w, fun)
    ensures fun.Lambda? ==> Call(w, fuel, fun, [x]) == w.body(fun.id, x)
    ensures fun.Other? || (fun.Set? && fun.functor.None?) ==> Call(w, fuel, fun, [x]) == Failure(NotAFunction)
    ensures fun.Thunk? && w.force(fun.id).Failure? ==> Call(w, fuel, fun, [x]) == w.force(fun.id)
  {
    assert [x][1..] == [];
    var r := Apply(w, fuel, fun, x);
    if r.Success? { assert ApplyAll(w, fuel, r.value, []) == r; }
    var f := Force(w, fun);
    if f.Success? { assert ApplyAll(w, fuel, f.value, []) == f; }
  }

  /** A set with a `__functor` is called as the functor on the set itself, and the result of that on the argument. */
  lemma FunctorRule(w: World, fuel: nat, s: Value, x: Value)
    requires WorldOk(w) && ChainOk(w, s) && s.Set? && s.functor.Some?
    ensures Call(w, fuel + 1, s, [x])
            == (var h := Call(w, fuel, s.functor.value, [s]); if h.Failure? then h else Call(w, fuel, h.value, [x]))
  {
    var g := Force(w, s.functor.value);
    var r := Apply(w, fuel + 1, s, x);
    assert [x][1..] == [];
    assert Call(w, fuel + 1, s, [x]) == r by {
      if r.Success? { assert ApplyAll(w, fuel + 1, r.value, []) == r; }
    }
    if g.Success? {
      assert [s] + [x] == [s, x];
      ApplyAllSplit(w, fuel, g.value, [s], [x]);
      ApplyAllKeepsWhnf(w, fuel, g.value, [s]);
    }
  }

  // ---------- batches of arguments ----------

  /** `makeAppChain`. */
  function Extend(v: Value, args: seq<Value>): Value
    decreases |args|
  {
    if args == [] then v else PrimOpApp(Extend(v, args[..|args| - 1]), args[|args| - 1])
  }

  lemma {:induction false} ExtendFacts(v: Value, args: seq<Value>)
    ensures Base(Extend(v, args)) == Base(v) && ChainArgs(Extend(v, args)) == ChainArgs(v) + args
    decreases |args|
  {
    if args == [] {
      assert ChainArgs(v) + args == ChainArgs(v);
    } else {
      var init := args[..|args| - 1];
      ExtendFacts(v, init);
      assert args == init + [args[|args| - 1]];
    }
  }

  /** Too few arguments extend the chain. */
  lemma {:induction false} ApplyPartial(w: World, fuel: nat, v: Value, args: seq<Value>)
    requires Base(v).PrimOp? && (v.PrimOp? || v.PrimOpApp?)
    requires |ChainArgs(v)| + |args| < w.arity(Base(v).p)
    ensures ApplyAll(w, fuel, v, args) == Success(Extend(v, args))
    decreases |args|
  {
    if args != [] {
      var init, last := args[..|args| - 1], args[|args| - 1];
      assert args == init + [last];
      ApplyPartial(w, fuel, v, init);
      ApplyAllSplit(w, fuel, v, init, [last]);
      ExtendFacts(v, init);
      var e := Extend(v, init);
      assert Apply(w, fuel, e, last) == Success(PrimOpApp(e, last));
      assert [last][1..] == [];
      assert ApplyAll(w, fuel, PrimOpApp(e, last), []) == Success(PrimOpApp(e, last));
    }
  }

  /** Exactly the missing arguments run the primop on all of them, in their original order. */
  lemma ApplyExact(w: World, fuel: nat, v: Value, args: seq<Value>)
    requires Base(v).PrimOp? && (v.PrimOp? || v.PrimOpApp?) && args != []
    requires |ChainArgs(v)| + |args| == w.arity(Base(v).p)
    ensures ApplyAll(w, fuel, v, args) == RunPrimOp(w, Base(v).p, ChainArgs(v) + args)
  {
    var init, last := args[..|args| - 1], args[|args| - 1];
    assert args == init + [last];
    ApplyPartial(w, fuel, v, init);
    ApplyAllSplit(w, fuel, v, init, [last]);
    ExtendFacts(v, init);
    assert ChainArgs(v) + init + [last] == ChainArgs(v) + args;
    assert [last][1..] == [];
    var e := Extend(v, init);
    var r := Apply(w, fuel, e, last);
    assert r == RunPrimOp(w, Base(v).p, ChainArgs(v) + args);
    if r.Success? { assert ApplyAll(w, fuel, r.value, []) == r; }
  }

  // ---------- callFunction ----------

  /** How many arguments a chain holds. */
  method CountArgs(v: Value) returns (argsDone: nat)
    ensures argsDone == |ChainArgs(v)|
  {
    argsDone := 0;
    var primOp := v;
    while primOp.PrimOpApp?
      invariant argsDone + |ChainArgs(primOp)| == |ChainArgs(v)|
      decreases primOp
    {
      argsDone := argsDone + 1;
      primOp := primOp.left;
    }
  }

  /** The arguments of a chain, filled in from the back. */
  method FillArgs(v: Value, vArgs: array<Value>, argsDone: nat)
    requires argsDone == |ChainArgs(v)| <= vArgs.Length
    modifies vArgs
    ensures vArgs[..argsDone] == ChainArgs(v)
  {
    var n := argsDone;
    var arg := v;
    while arg.PrimOpApp?
      invariant 0 <= n <= argsDone && n == |ChainArgs(arg)|
      invariant ChainArgs(arg) + vArgs[n..argsDone] == ChainArgs(v)
      decreases arg
    {
      n := n - 1;
      vArgs[n] := arg.right;
      assert ChainArgs(arg) == ChainArgs(arg.left) + [arg.right];
      assert vArgs[n..argsDone] == [arg.right] + vArgs[n + 1..argsDone];
      arg := arg.left;
    }
  }

  /** The arguments for a primop: those of the chain, then the new ones. */
  method CollectArgs(v: Value, args: seq<Value>, argsLeft: nat) returns (all: seq<Value>)
    requires argsLeft <= |args| && |ChainArgs(v)| + argsLeft <= MAX_PRIMOP_ARITY
    ensures all == ChainArgs(v) + args[..argsLeft]
  {
    var argsDone := CountArgs(v);
    var vArgs := new Value[MAX_PRIMOP_ARITY](_ => Other(0));
    FillArgs(v, vArgs, argsDone);
    for i := 0 to argsLeft
      invariant vArgs[..argsDone] == ChainArgs(v)
      invariant vArgs[argsDone..argsDone + i] == args[..i]
    {
      vArgs[argsDone + i] := args[i];
    }
    all := vArgs[..argsDone + argsLeft];
    assert all == vArgs[..argsDone] + vArgs[argsDone..argsDone + argsLeft];
  }

  method MakeAppChain(v: Value, args: seq<Value>) returns (r: Value)
    ensures r == Extend(v, args)
  {
    r := v;
    for i := 0 to |args|
      invariant r == Extend(v, args[..i])
    {
      assert args[..i + 1][..i] == args[..i];
      r := PrimOpApp(r, args[i]);
    }
    assert args[..|args|] == args;
  }

  method CallFunction(w: World, fuel: nat, fun: Value, args: seq<Value>) returns (r: Res)
    requires WorldOk(w) && ChainOk(w, fun)
    ensures r == Call(w, fuel, fun, args)
    decreases fuel
  {
    var vCur :- Force(w, fun);
    ghost var f := vCur;
    var rest := args;
    while rest != []
      invariant Whnf(w, vCur)
      invariant ApplyAll(w, fuel, f, args) == ApplyAll(w, fuel, vCur, rest)
      decreases |rest|
    {
      ApplyKeepsWhnf(w, fuel, vCur, rest[0]);
      if vCur.Lambda? {
        vCur :- w.body(vCur.id, rest[0]);
        rest := rest[1..];
      } else if vCur.PrimOp? || vCur.PrimOpApp? {
        var p := Base(vCur).p;
        var argsLeft := w.arity(p) - |ChainArgs(vCur)|;
        if |rest| < argsLeft {
          ApplyPartial(w, fuel, vCur, rest);
          var chain := MakeAppChain(vCur, rest);
          return Success(chain);
        }
        assert rest == rest[..argsLeft] + rest[argsLeft..];
        ApplyAllSplit(w, fuel, vCur, rest[..argsLeft], rest[argsLeft..]);
        ApplyExact(w, fuel, vCur, rest[..argsLeft]);
        var all := CollectArgs(vCur, rest, argsLeft);
        vCur :- RunPrimOp(w, p, all);
        rest := rest[argsLeft..];
      } else if vCur.Set? && vCur.functor.Some? {
        if fuel == 0 { return Failure(OutOfFuel); }
        vCur :- CallFunction(w, fuel - 1, vCur.functor.value, [vCur, rest[0]]);
        rest := rest[1..];
      } else {
        return Failure(NotAFunction);
      }
    }
    return Success(vCur);
  }
}
