/**
 * Matching an attribute set against a function's formals by counting
 * (`callFunction`), and choosing the arguments of an automatic call
 * (`autoCallFunction`) (src/libexpr/eval.cc).
 */
module Formals {
  import opened Basics

  datatype Formal = Formal(name: Symbol, hasDef: bool)

  datatype Attr = Attr(name: Symbol, value: nat)

  /** A slot of the call frame: the actual argument, or the default evaluated in the frame. */
  datatype Slot = Actual(value: nat) | Default

  datatype Error = MissingArg(name: Symbol) | UnexpectedArg(name: Symbol)

  /** Both formals and attribute sets are kept in strictly increasing order of names. */
  predicate SortedFormals(fs: seq<Formal>) { forall i, j :: 0 <= i < j < |fs| ==> fs[i].name < fs[j].name }

  predicate SortedAttrs(attrs: seq<Attr>) { forall i, j :: 0 <= i < j < |attrs| ==> attrs[i].name < attrs[j].name }

  function FormalNames(fs: seq<Formal>): set<Symbol> { set f | f in fs :: f.name }

  function AttrNames(attrs: seq<Attr>): set<Symbol> { set a | a in attrs :: a.name }

  /** The arguments fit: nothing required is missing and, without an ellipsis, nothing is unexpected. */
  ghost predicate Fits(fs: seq<Formal>, ellipsis: bool, attrs: seq<Attr>) {
    && (forall f :: f in fs && !f.hasDef ==> f.name in AttrNames(attrs))
    && (ellipsis || AttrNames(attrs) <= FormalNames(fs))
  }

  /** The slot a formal gets. */
  ghost predicate SlotFor(f: Formal, attrs: seq<Attr>, slot: Slot) {
    match slot
    case Actual(v) => Attr(f.name, v) in attrs
    case Default => f.hasDef && f.name !in AttrNames(attrs)
  }

  /** `Bindings::get` by binary search. */
  method Get(attrs: seq<Attr>, name: Symbol) returns (r: Option<Attr>)
    requires SortedAttrs(attrs)
    ensures r.Some? <==> name in AttrNames(attrs)
    ensures r.Some? ==> r.value in attrs && r.value.name == name
  {
    var lo := LowerBound(attrs, (a: Attr) => a.name, name);
    if lo < |attrs| && attrs[lo].name == name { return Some(attrs[lo]); }
    assert forall a :: a in attrs ==> a.name != name;
    return None;
  }

  /** `Formals::has` by binary search. */
  method Has(fs: seq<Formal>, name: Symbol) returns (b: bool)
    requires SortedFormals(fs)
    ensures b <==> name in FormalNames(fs)
  {
    var lo := LowerBound(fs, (f: Formal) => f.name, name);
    if lo < |fs| && fs[lo].name == name {
      assert fs[lo] in fs;
      return true;
    }
    assert forall f :: f in fs ==> f.name != name;
    return false;
  }

  /** A sorted set has as many names as attributes. */
  lemma {:induction false} NameCount(attrs: seq<Attr>)
    requires SortedAttrs(attrs)
    ensures |AttrNames(attrs)| == |attrs|
  {
    if attrs != [] {
      var init, last := attrs[..|attrs| - 1], attrs[|attrs| - 1];
      NameCount(init);
      assert attrs == init + [last];
      assert AttrNames(attrs) == AttrNames(init) + {last.name};
      assert last.name !in AttrNames(init);
    }
  }

  lemma SubsetSize(a: set<Symbol>, b: set<Symbol>)
    requires a <= b
    ensures |a| <= |b| && (|a| == |b| <==> a == b)
  {
    assert b == a + (b - a);
  }

  /** What the formals loop has done after a prefix of the formals. */
  ghost predicate LoopState(fs: seq<Formal>, attrs: seq<Attr>, slots: seq<Slot>, attrsUsed: nat) {
    && |slots| == |fs| && (forall k :: 0 <= k < |fs| ==> SlotFor(fs[k], attrs, slots[k]))
    && |FormalNames(fs) * AttrNames(attrs)| == attrsUsed
    && (forall f :: f in fs && !f.hasDef ==> f.name in AttrNames(attrs))
  }

  lemma NewFormalName(fs: seq<Formal>, f: Formal)
    requires SortedFormals(fs + [f])
    ensures FormalNames(fs + [f]) == FormalNames(fs) + {f.name} && f.name !in FormalNames(fs)
  {
    forall g | g in fs ensures g.name != f.name {
      var i :| 0 <= i < |fs| && fs[i] == g;
      assert (fs + [f])[i].name < (fs + [f])[|fs|].name;
    }
  }

  lemma UsedStep(fs: seq<Formal>, f: Formal, names: set<Symbol>)
    requires SortedFormals(fs + [f])
    ensures |FormalNames(fs + [f]) * names| == |FormalNames(fs) * names| + (if f.name in names then 1 else 0)
  {
    NewFormalName(fs, f);
    if f.name in names {
      assert FormalNames(fs + [f]) * names == FormalNames(fs) * names + {f.name};
    } else {
      assert FormalNames(fs + [f]) * names == FormalNames(fs) * names;
    }
  }

  /** What a slot says about its formal. */
  lemma SlotNames(f: Formal, attrs: seq<Attr>, slot: Slot)
    requires SlotFor(f, attrs, slot)
    ensures slot.Actual? <==> f.name in AttrNames(attrs)
    ensures slot.Default? ==> f.hasDef
  {
    if slot.Actual? { assert Attr(f.name, slot.value).name in AttrNames(attrs); }
  }

  lemma LoopStep(fs: seq<Formal>, i: nat, attrs: seq<Attr>, slots: seq<Slot>, attrsUsed: nat, slot: Slot)
    requires SortedFormals(fs) && i < |fs|
    requires LoopState(fs[..i], attrs, slots, attrsUsed) && SlotFor(fs[i], attrs, slot)
    ensures LoopState(fs[..i + 1], attrs, slots + [slot], if slot.Actual? then attrsUsed + 1 else attrsUsed)
  {
    assert fs[..i + 1] == fs[..i] + [fs[i]];
    UsedStep(fs[..i], fs[i], AttrNames(attrs));
    SlotNames(fs[i], attrs, slot);
    AddSlot(fs[..i], attrs, slots, fs[i], slot);
  }

  lemma AddSlot(fs: seq<Formal>, attrs: seq<Attr>, slots: seq<Slot>, f: Formal, slot: Slot)
    requires |slots| == |fs| && SlotFor(f, attrs, slot)
    requires forall k :: 0 <= k < |fs| ==> SlotFor(fs[k], attrs, slots[k])
    ensures forall k :: 0 <= k < |fs| + 1 ==> SlotFor((fs + [f])[k], attrs, (slots + [slot])[k])
  {
  }

  /** A formal without a default that the arguments do not provide. */
  ghost predicate Required(fs: seq<Formal>, args: seq<Attr>, name: Symbol) {
    Formal(name, false) in fs && name !in AttrNames(args)
  }

  /** The formals loop: the slots and the number of attributes used. */
  method FillSlots(fs: seq<Formal>, attrs: seq<Attr>) returns (r: Result<(seq<Slot>, nat), Error>)
    requires SortedFormals(fs) && SortedAttrs(attrs)
    ensures r.Success? ==> LoopState(fs, attrs, r.value.0, r.value.1)
    ensures r.Failure? ==> r.error.MissingArg? && Required(fs, attrs, r.error.name)
  {
    var slots: seq<Slot> := [];
    var attrsUsed := 0;
    assert FormalNames([]) * AttrNames(attrs) == {};
    for i := 0 to |fs|
      invariant LoopState(fs[..i], attrs, slots, attrsUsed)
    {
      var j := Get(attrs, fs[i].name);
      if j.None? && !fs[i].hasDef { return Failure(MissingArg(fs[i].name)); }
      var slot := if j.None? then Default else Actual(j.value.value);
      LoopStep(fs, i, attrs, slots, attrsUsed, slot);
      slots := slots + [slot];
      if j.Some? { attrsUsed := attrsUsed + 1; }
    }
    assert fs[..|fs|] == fs;
    return Success((slots, attrsUsed));
  }

  /** Counting is exact: all attributes were used if and only if every attribute is a formal. */
  lemma CountingIsExact(fs: seq<Formal>, attrs: seq<Attr>, attrsUsed: nat)
    requires SortedAttrs(attrs) && |FormalNames(fs) * AttrNames(attrs)| == attrsUsed
    ensures attrsUsed == |attrs| <==> AttrNames(attrs) <= FormalNames(fs)
  {
    NameCount(attrs);
    SubsetSize(FormalNames(fs) * AttrNames(attrs), AttrNames(attrs));
  }

  /**
   * The formals loop and the check for unexpected arguments. If the count of
   * used attributes differs from the size of the set, the search for a culprit
   * finds one: the `unreachable()` after it is never reached.
   */
  method MatchFormals(fs: seq<Formal>, ellipsis: bool, attrs: seq<Attr>) returns (r: Result<seq<Slot>, Error>)
    requires SortedFormals(fs) && SortedAttrs(attrs)
    ensures r.Success? <==> Fits(fs, ellipsis, attrs)
    ensures r.Success? ==> |r.value| == |fs| && forall i :: 0 <= i < |fs| ==> SlotFor(fs[i], attrs, r.value[i])
    ensures r.Failure? && r.error.MissingArg? ==> Required(fs, attrs, r.error.name)
    ensures r.Failure? && r.error.UnexpectedArg? ==>
              !ellipsis && r.error.name in AttrNames(attrs) && r.error.name !in FormalNames(fs)
  {
    var filled := FillSlots(fs, attrs);
    if filled.Failure? { return Failure(filled.error); }
    var (slots, attrsUsed) := filled.value;
    CountingIsExact(fs, attrs, attrsUsed);
    if !ellipsis && attrsUsed != |attrs| {
      var name := FirstUnexpected(fs, attrs);
      return Failure(UnexpectedArg(name));
    }
    return Success(slots);
  }

  /** The first attribute that is not a formal. */
  method FirstUnexpected(fs: seq<Formal>, attrs: seq<Attr>) returns (name: Symbol)
    requires SortedFormals(fs) && !(AttrNames(attrs) <= FormalNames(fs))
    ensures name in AttrNames(attrs) && name !in FormalNames(fs)
    ensures exists k :: 0 <= k < |attrs| && attrs[k].name == name && AttrNames(attrs[..k]) <= FormalNames(fs)
  {
    for k := 0 to |attrs|
      invariant AttrNames(attrs[..k]) <= FormalNames(fs)
    {
      var has := Has(fs, attrs[k].name);
      if !has {
        assert attrs[k] in attrs;
        return attrs[k].name;
      }
      assert attrs[..k + 1] == attrs[..k] + [attrs[k]];
    }
    assert false;
  }

  /** The arguments `autoCallFunction` passes on, or the missing one. */
  method AutoArgs(fs: seq<Formal>, ellipsis: bool, args: seq<Attr>) returns (r: Result<seq<Attr>, Error>)
    requires SortedFormals(fs) && SortedAttrs(args)
    ensures r.Success? ==> SortedAttrs(r.value)
    ensures r.Success? && ellipsis ==> r.value == args
    ensures r.Success? && !ellipsis ==>
              && (forall a :: a in r.value <==> a in args && a.name in FormalNames(fs))
              && (forall f :: f in fs && !f.hasDef ==> f.name in AttrNames(r.value))
    ensures r.Failure? ==> r.error.MissingArg? && !ellipsis && Required(fs, args, r.error.name)
  {
    if ellipsis { return Success(args); }
    var attrs: seq<Attr> := [];
    for i := 0 to |fs|
      invariant SortedAttrs(attrs) && forall a :: a in attrs ==> a.name in FormalNames(fs[..i])
      invariant forall a :: a in attrs <==> a in args && a.name in FormalNames(fs[..i])
      invariant forall f :: f in fs[..i] && !f.hasDef ==> f.name in AttrNames(attrs)
    {
      assert fs[..i + 1] == fs[..i] + [fs[i]];
      assert FormalNames(fs[..i + 1]) == FormalNames(fs[..i]) + {fs[i].name};
      var j := Get(args, fs[i].name);
      if j.Some? {
        assert forall a :: a in attrs ==> a.name < fs[i].name;
        assert forall a :: a in args && a.name == fs[i].name ==> a == j.value;
        attrs := attrs + [j.value];
        assert j.value in attrs;
      } else if !fs[i].hasDef {
        return Failure(MissingArg(fs[i].name));
      }
    }
    assert fs[..|fs|] == fs;
    return Success(attrs);
  }

  /**
   * `autoCallFunction` on a function with formals: once it reaches the call of
   * a function without an ellipsis, both argument checks succeed.
   */
  method AutoCall(fs: seq<Formal>, ellipsis: bool, args: seq<Attr>) returns (called: bool, r: Result<seq<Slot>, Error>)
    requires SortedFormals(fs) && SortedAttrs(args)
    ensures called && !ellipsis ==> r.Success?
    ensures called && ellipsis ==> (r.Success? <==> Fits(fs, true, args))
    ensures called && r.Success? ==> |r.value| == |fs| && forall i :: 0 <= i < |fs| ==> SlotFor(fs[i], args, r.value[i])
    ensures !called ==> r.Failure? && r.error.MissingArg? && !ellipsis && Required(fs, args, r.error.name)
  {
    var attrs := AutoArgs(fs, ellipsis, args);
    if attrs.Failure? { return false, Failure(attrs.error); }
    r := MatchFormals(fs, ellipsis, attrs.value);
    if r.Success? && !ellipsis {
      forall i | 0 <= i < |fs| ensures SlotFor(fs[i], args, r.value[i]) {
        assert SlotFor(fs[i], attrs.value, r.value[i]);
        assert fs[i] in fs;
      }
    }
    called := true;
  }

  /** A value `autoCallFunction` may get: a set with a `__functor`, a function with formals, or anything else. */
  datatype Callee = Functor(id: nat) | Lambda(fs: seq<Formal>, ellipsis: bool) | Plain(id: nat)

  /** What applying the `__functor` of a set to the set yields. */
  type World = nat -> Result<Callee, nat>

  datatype AutoResult =
    | Unchanged(v: Callee)
    | Threw(err: nat)
    | NotCalled(error: Error)
    | Called(slots: Result<seq<Slot>, Error>)
    | OutOfFuel

  /** Functors are applied until something else is left; a chain may have no end. */
  function Target(w: World, fuel: nat, c: Callee): Option<Result<Callee, nat>> {
    if !c.Functor? then Some(Success(c))
    else if fuel == 0 then None
    else
      match w(c.id)
      case Failure(e) => Some(Failure(e))
      case Success(v) => Target(w, fuel - 1, v)
  }

  /** Formals are kept sorted. */
  ghost predicate WorldOk(w: World) {
    forall f :: w(f).Success? && w(f).value.Lambda? ==> SortedFormals(w(f).value.fs)
  }

  /** Some formal without a default is not provided. */
  ghost predicate SomeMissing(fs: seq<Formal>, args: seq<Attr>) {
    exists f :: f in fs && !f.hasDef && f.name !in AttrNames(args)
  }

  /** The outcome for what is left after applying functors. */
  ghost predicate AutoOutcome(target: Option<Result<Callee, nat>>, args: seq<Attr>, r: AutoResult) {
    match target
    case None => r == OutOfFuel
    case Some(Failure(e)) => r == Threw(e)
    case Some(Success(c)) =>
      if !c.Lambda? then r == Unchanged(c)
      else if !c.ellipsis && SomeMissing(c.fs, args) then
        r.NotCalled? && r.error.MissingArg? && Required(c.fs, args, r.error.name)
      else
        && r.Called? && (r.slots.Success? <==> !c.ellipsis || Fits(c.fs, true, args))
        && (r.slots.Success? ==> AllSlots(c.fs, args, r.slots.value))
  }

  ghost predicate AllSlots(fs: seq<Formal>, args: seq<Attr>, slots: seq<Slot>) {
    |slots| == |fs| && forall i :: 0 <= i < |fs| ==> SlotFor(fs[i], args, slots[i])
  }

  /**
   * `autoCallFunction`: functors are applied first, a value that is not a
   * function with formals is returned as it is, and a function is called
   * unless, without an ellipsis, a required argument is missing.
   */
  method AutoCallFunction(w: World, fuel: nat, fun: Callee, args: seq<Attr>) returns (r: AutoResult)
    requires WorldOk(w) && (fun.Lambda? ==> SortedFormals(fun.fs)) && SortedAttrs(args)
    ensures AutoOutcome(Target(w, fuel, fun), args, r)
    decreases fuel
  {
    if fun.Functor? {
      if fuel == 0 { return OutOfFuel; }
      var v := w(fun.id);
      if v.Failure? { return Threw(v.error); }
      r := AutoCallFunction(w, fuel - 1, v.value, args);
      return;
    }
    if !fun.Lambda? { return Unchanged(fun); }
    var called, slots := AutoCall(fun.fs, fun.ellipsis, args);
    if !called {
      assert Formal(slots.error.name, false) in fun.fs;
      return NotCalled(slots.error);
    }
    if !fun.ellipsis { ProvidedIfFilled(fun.fs, args, slots.value); }
    return Called(slots);
  }

  /** A chain of functors that ends has the same target with any more fuel. */
  lemma {:induction false} TargetIsStable(w: World, fuel: nat, more: nat, c: Callee)
    requires Target(w, fuel, c).Some?
    ensures Target(w, fuel + more, c) == Target(w, fuel, c)
    decreases fuel
  {
    if c.Functor? && w(c.id).Success? { TargetIsStable(w, fuel - 1, more, w(c.id).value); }
  }

  /** Where all slots are filled, no required argument is missing. */
  lemma ProvidedIfFilled(fs: seq<Formal>, args: seq<Attr>, slots: seq<Slot>)
    requires |slots| == |fs| && forall i :: 0 <= i < |fs| ==> SlotFor(fs[i], args, slots[i])
    ensures forall f :: f in fs && !f.hasDef ==> f.name in AttrNames(args)
  {
    forall f | f in fs && !f.hasDef ensures f.name in AttrNames(args) {
      var i :| 0 <= i < |fs| && fs[i] == f;
      assert SlotFor(fs[i], args, slots[i]);
    }
  }

  /** Following functors never stops at a functor, and goes on with what applying each one yields. */
  lemma {:induction false} TargetRule(w: World, fuel: nat, c: Callee)
    ensures var t := Target(w, fuel, c); t.Some? && t.value.Success? ==> !t.value.value.Functor?
    ensures !c.Functor? ==> Target(w, fuel, c) == Some(Success(c))
    ensures c.Functor? && w(c.id).Success? ==> Target(w, fuel + 1, c) == Target(w, fuel, w(c.id).value)
    ensures c.Functor? && w(c.id).Failure? ==> Target(w, fuel + 1, c) == Some(Failure(w(c.id).error))
    decreases fuel
  {
    if c.Functor? && fuel > 0 && w(c.id).Success? { TargetRule(w, fuel - 1, w(c.id).value); }
  }
}
