/**
 * What `eqValues` answers, kind by kind, in terms of the contents of the
 * values (src/libexpr/eval.cc).
 */
module EqualityLaws {
  import opened Basics
  import opened Equality

  // ---------- values that hold no others ----------

  /** The kinds of which `eqValues` tells two apart; numbers are one kind. */
  function KindOf(s: Shape): nat {
    match s
    case Int(_) => 0
    case Float(_) => 0
    case Bool(_) => 1
    case Str(_) => 2
    case PathVal(_, _) => 3
    case Null => 4
    case List(_) => 5
    case Attrs(_) => 6
    case Function => 7
    case External(_) => 8
    case Fails(_) => 9
  }

  /** Errors come first, the left one before the right one; a value equals itself, also a function. */
  lemma SameObjectRule(ops: Ops, v1: Value, v2: Value)
    ensures v1.shape.Fails? ==> Eq(ops, v1, v2) == Failure(v1.shape.err)
    ensures !v1.shape.Fails? && v2.shape.Fails? ==> Eq(ops, v1, v2) == Failure(v2.shape.err)
    ensures !v1.shape.Fails? && !v2.shape.Fails? && v1.loc == v2.loc ==> Eq(ops, v1, v2) == Success(true)
  {
  }

  /** Values of different kinds differ, and so do two functions. */
  lemma KindRule(ops: Ops, v1: Value, v2: Value)
    requires !v1.shape.Fails? && !v2.shape.Fails? && v1.loc != v2.loc
    ensures KindOf(v1.shape) != KindOf(v2.shape) ==> Eq(ops, v1, v2) == Success(false)
    ensures v1.shape.Function? && v2.shape.Function? ==> Eq(ops, v1, v2) == Success(false)
  {
  }

  /** Simple values are equal exactly if their contents are. */
  lemma SimpleRule(ops: Ops, v1: Value, v2: Value)
    requires v1.loc != v2.loc && KindOf(v1.shape) == KindOf(v2.shape) <= 4
    requires !v1.shape.Float? && !v2.shape.Float?
    ensures Eq(ops, v1, v2) == Success(v1.shape == v2.shape)
  {
  }

  /** Numbers are compared as numbers, in either order. */
  lemma NumberRule(ops: Ops, v1: Value, v2: Value)
    requires v1.loc != v2.loc
    ensures v1.shape.Int? && v2.shape.Float? ==>
              && Eq(ops, v1, v2) == Success(ops.intEqFloat(v1.shape.n, v2.shape.f))
              && Eq(ops, v2, v1) == Eq(ops, v1, v2)
    ensures v1.shape.Float? && v2.shape.Float? ==> Eq(ops, v1, v2) == Success(ops.floatEq(v1.shape.f, v2.shape.f))
  {
  }

  // ---------- lists ----------

  lemma {:induction false} ElementsRule(ops: Ops, xs: seq<Value>, ys: seq<Value>)
    requires |xs| == |ys| && forall i :: 0 <= i < |xs| ==> Eq(ops, xs[i], ys[i]).Success?
    ensures EqLists(ops, xs, ys) == Success(forall i :: 0 <= i < |xs| ==> Eq(ops, xs[i], ys[i]).value)
    decreases |xs|
  {
    if xs != [] {
      forall i | 0 <= i < |xs[1..]| ensures Eq(ops, xs[1..][i], ys[1..][i]).Success? {
        assert xs[1..][i] == xs[i + 1] && ys[1..][i] == ys[i + 1];
      }
      ElementsRule(ops, xs[1..], ys[1..]);
      var all := forall i :: 0 <= i < |xs| ==> Eq(ops, xs[i], ys[i]).value;
      var tail := forall i :: 0 <= i < |xs[1..]| ==> Eq(ops, xs[1..][i], ys[1..][i]).value;
      if Eq(ops, xs[0], ys[0]).value && tail {
        forall i | 0 <= i < |xs| ensures Eq(ops, xs[i], ys[i]).value {
          if i > 0 { assert Eq(ops, xs[1..][i - 1], ys[1..][i - 1]).value; }
        }
      }
      if all {
        forall i | 0 <= i < |xs[1..]| ensures Eq(ops, xs[1..][i], ys[1..][i]).value {
          assert Eq(ops, xs[i + 1], ys[i + 1]).value;
        }
      }
    }
  }

  /** Lists of different lengths differ; others are equal exactly if all their elements are, where nothing throws. */
  lemma ListRule(ops: Ops, v1: Value, v2: Value)
    requires v1.loc != v2.loc && v1.shape.List? && v2.shape.List?
    ensures var xs, ys := v1.shape.elems, v2.shape.elems;
            && (|xs| != |ys| ==> Eq(ops, v1, v2) == Success(false))
            && (|xs| == |ys| && (forall i :: 0 <= i < |xs| ==> Eq(ops, xs[i], ys[i]).Success?) ==>
                  Eq(ops, v1, v2) == Success(forall i :: 0 <= i < |xs| ==> Eq(ops, xs[i], ys[i]).value))
  {
    var xs, ys := v1.shape.elems, v2.shape.elems;
    if |xs| == |ys| && (forall i :: 0 <= i < |xs| ==> Eq(ops, xs[i], ys[i]).Success?) { ElementsRule(ops, xs, ys); }
  }

  // ---------- sets ----------

  /** A sorted set has at most one attribute of a name, and that is what lookup finds. */
  lemma {:induction false} GetIsMember(attrs: seq<Attr>, name: Symbol, v: Value)
    requires Sorted(attrs)
    ensures Get(attrs, name) == Some(v) <==> Attr(name, v) in attrs
  {
    if attrs != [] {
      GetIsMember(attrs[1..], name, v);
      assert attrs == [attrs[0]] + attrs[1..];
      forall a | a in attrs[1..] ensures attrs[0].name < a.name {
        var i :| 0 <= i < |attrs[1..]| && attrs[1..][i] == a;
        assert attrs[i + 1] == a;
      }
    }
  }

  /** The set is a derivation with this `outPath`. */
  predicate DerivationAt(attrs: seq<Attr>, out: Value) {
    Attr(OUT_PATH, out) in attrs && exists a :: a in attrs && a.name == TYPE && a.value.shape == Str("derivation")
  }

  lemma TypeOf(attrs: seq<Attr>, t: Value)
    requires Sorted(attrs) && Attr(TYPE, t) in attrs && !t.shape.Fails?
    ensures IsDerivation(attrs) == Success(t.shape == Str("derivation"))
  {
    GetIsMember(attrs, TYPE, t);
  }

  /** Two derivations are compared by their `outPath`s alone. */
  lemma DerivationRule(ops: Ops, v1: Value, v2: Value, o1: Value, o2: Value)
    requires Wf(v1) && Wf(v2) && v1.loc != v2.loc && v1.shape.Attrs? && v2.shape.Attrs?
    requires DerivationAt(v1.shape.attrs, o1) && DerivationAt(v2.shape.attrs, o2)
    ensures Eq(ops, v1, v2) == Eq(ops, o1, o2)
  {
    var a, b := v1.shape.attrs, v2.shape.attrs;
    var t1 :| t1 in a && t1.name == TYPE && t1.value.shape == Str("derivation");
    var t2 :| t2 in b && t2.name == TYPE && t2.value.shape == Str("derivation");
    TypeOf(a, t1.value);
    TypeOf(b, t2.value);
    GetIsMember(a, OUT_PATH, o1);
    GetIsMember(b, OUT_PATH, o2);
  }

  /** Looking at `type` throws nowhere. */
  predicate Typed(attrs: seq<Attr>) { forall a :: a in attrs && a.name == TYPE ==> !a.value.shape.Fails? }

  lemma NotByOutPath(a: seq<Attr>, b: seq<Attr>)
    requires Sorted(a) && Sorted(b) && Typed(a) && Typed(b)
    requires !((exists o :: DerivationAt(a, o)) && (exists o :: DerivationAt(b, o)))
    ensures ByOutPath(a, b) == Success(None)
  {
    IsDerivationRule(a);
    IsDerivationRule(b);
    if ByOutPath(a, b) != Success(None) {
      var o1, o2 := Get(a, OUT_PATH).value, Get(b, OUT_PATH).value;
      assert DerivationAt(a, o1) && DerivationAt(b, o2);
    }
  }

  /** `isDerivation` asks whether `type` is the string "derivation". */
  lemma IsDerivationRule(attrs: seq<Attr>)
    requires Sorted(attrs) && Typed(attrs)
    ensures IsDerivation(attrs)
            == Success(exists a :: a in attrs && a.name == TYPE && a.value.shape == Str("derivation"))
  {
    var t := Get(attrs, TYPE);
    if t.Some? {
      TypeOf(attrs, t.value);
      if a :| a in attrs && a.name == TYPE && a.value.shape == Str("derivation") {
        GetIsMember(attrs, TYPE, a.value);
      }
    }
  }

  /** Comparing the values of the same name throws nowhere. */
  predicate PairsSettle(ops: Ops, a: seq<Attr>, b: seq<Attr>) {
    forall x, y :: x in a && y in b && x.name == y.name ==> Eq(ops, x.value, y.value).Success?
  }

  function Names(attrs: seq<Attr>): set<Symbol> { set a | a in attrs :: a.name }

  /** The same names, with equal values. */
  ghost predicate SameAttrs(ops: Ops, a: seq<Attr>, b: seq<Attr>) {
    && Names(a) == Names(b)
    && forall x, y :: x in a && y in b && x.name == y.name ==> Eq(ops, x.value, y.value) == Success(true)
  }

  /** The same name and equal values at a position. */
  predicate PairEqual(ops: Ops, a: seq<Attr>, b: seq<Attr>, i: nat) {
    i < |a| && i < |b| && a[i].name == b[i].name && Eq(ops, a[i].value, b[i].value) == Success(true)
  }

  ghost predicate AllFrom(ops: Ops, a: seq<Attr>, b: seq<Attr>, k: nat) {
    forall i :: k <= i < |a| ==> PairEqual(ops, a, b, i)
  }

  lemma {:induction false} AttrsFromRule(ops: Ops, v1: Value, v2: Value, k: nat)
    requires SameSize(v1, v2, k) && PairsSettle(ops, v1.shape.attrs, v2.shape.attrs)
    ensures EqAttrs(ops, v1, v2, k) == Success(AllFrom(ops, v1.shape.attrs, v2.shape.attrs, k))
    decreases |v1.shape.attrs| - k
  {
    var a, b := v1.shape.attrs, v2.shape.attrs;
    if k < |a| {
      if a[k].name == b[k].name {
        assert a[k] in a && b[k] in b;
        AttrsFromRule(ops, v1, v2, k + 1);
        assert AllFrom(ops, a, b, k) <==> PairEqual(ops, a, b, k) && AllFrom(ops, a, b, k + 1);
      } else {
        assert !PairEqual(ops, a, b, k);
      }
    }
  }

  /** The first attribute of a sorted set has its least name. */
  lemma FirstIsLeast(a: seq<Attr>)
    requires Sorted(a) && a != []
    ensures a[0].name in Names(a) && forall n :: n in Names(a) ==> a[0].name <= n
    ensures Names(a[1..]) == Names(a) - {a[0].name}
  {
    assert a[0] in a && a == [a[0]] + a[1..];
    forall x | x in a[1..] ensures a[0].name < x.name {
      var i :| 0 <= i < |a[1..]| && a[1..][i] == x;
      assert a[i + 1] == x;
    }
  }

  lemma NoNames(a: seq<Attr>)
    ensures a == [] <==> Names(a) == {}
  {
    if a != [] { assert a[0].name in Names(a); }
  }

  /** Two sorted sets with the same names have them at the same positions. */
  lemma {:induction false} SortedAlike(a: seq<Attr>, b: seq<Attr>)
    requires Sorted(a) && Sorted(b) && Names(a) == Names(b)
    ensures |a| == |b| && forall i :: 0 <= i < |a| ==> a[i].name == b[i].name
    decreases |a|
  {
    NoNames(a);
    NoNames(b);
    if a != [] {
      FirstIsLeast(a);
      FirstIsLeast(b);
      SortedAlike(a[1..], b[1..]);
      forall i | 0 <= i < |a| ensures a[i].name == b[i].name {
        if i > 0 { assert a[i] == a[1..][i - 1] && b[i] == b[1..][i - 1]; }
      }
    }
  }

  lemma SameIsAll(ops: Ops, a: seq<Attr>, b: seq<Attr>)
    requires Sorted(a) && Sorted(b) && SameAttrs(ops, a, b)
    ensures |a| == |b| && AllFrom(ops, a, b, 0)
  {
    SortedAlike(a, b);
    forall i | 0 <= i < |a| ensures PairEqual(ops, a, b, i) { assert a[i] in a && b[i] in b; }
  }

  lemma AllIsSame(ops: Ops, a: seq<Attr>, b: seq<Attr>)
    requires Sorted(a) && Sorted(b) && |a| == |b| && AllFrom(ops, a, b, 0)
    ensures SameAttrs(ops, a, b)
  {
    forall n ensures n in Names(a) <==> n in Names(b) {
      if n in Names(a) {
        var i :| 0 <= i < |a| && a[i].name == n;
        assert PairEqual(ops, a, b, i) && b[i] in b;
      }
      if n in Names(b) {
        var i :| 0 <= i < |b| && b[i].name == n;
        assert PairEqual(ops, a, b, i) && a[i] in a;
      }
    }
    forall x, y | x in a && y in b && x.name == y.name ensures Eq(ops, x.value, y.value) == Success(true) {
      var i :| 0 <= i < |a| && a[i] == x;
      var j :| 0 <= j < |b| && b[j] == y;
      assert PairEqual(ops, a, b, i) && PairEqual(ops, a, b, j);
    }
  }

  /**
   * Sets that are not both derivations with an `outPath` are equal exactly if
   * they have the same names with equal values, where nothing throws.
   */
  lemma SetRule(ops: Ops, v1: Value, v2: Value)
    requires Wf(v1) && Wf(v2) && v1.loc != v2.loc && v1.shape.Attrs? && v2.shape.Attrs?
    requires !((exists o :: DerivationAt(v1.shape.attrs, o)) && (exists o :: DerivationAt(v2.shape.attrs, o)))
    requires Typed(v1.shape.attrs) && Typed(v2.shape.attrs) && PairsSettle(ops, v1.shape.attrs, v2.shape.attrs)
    ensures Eq(ops, v1, v2) == Success(SameAttrs(ops, v1.shape.attrs, v2.shape.attrs))
  {
    var a, b := v1.shape.attrs, v2.shape.attrs;
    NotByOutPath(a, b);
    assert Eq(ops, v1, v2) == EqSets(ops, v1, v2);
    if |a| == |b| {
      AttrsFromRule(ops, v1, v2, 0);
      if AllFrom(ops, a, b, 0) { AllIsSame(ops, a, b); }
    }
    if SameAttrs(ops, a, b) { SameIsAll(ops, a, b); }
  }
}
