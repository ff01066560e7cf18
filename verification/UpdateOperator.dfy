/** The `//` operator: layering or merging two sets, and whole trees of `//` through a queue (src/libexpr/eval.cc). */
module UpdateOperator {
  import opened Basics
  import opened Bindings

  // ---------- the size of a layered set ----------

  function DupCount(s: seq<Attr>, keys: set<Symbol>): nat {
    if s == [] then 0 else (if s[0].name in keys then 1 else 0) + DupCount(s[1..], keys)
  }

  lemma {:induction false} DupCountIsOverlap(s: seq<Attr>, keys: set<Symbol>)
    requires Sorted(s)
    ensures DupCount(s, keys) == |ToMap(s).Keys * keys|
  {
    if s == [] {
      assert ToMap(s).Keys * keys == {};
    } else {
      DupCountIsOverlap(s[1..], keys);
      AboveNotIn(s[1..], s[0].name);
      OneMoreName(ToMap(s[1..]).Keys, s[0].name, keys);
      assert ToMap(s).Keys == ToMap(s[1..]).Keys + {s[0].name};
    }
  }

  lemma OneMoreName(names: set<Symbol>, n: Symbol, keys: set<Symbol>)
    requires n !in names
    ensures |(names + {n}) * keys| == |names * keys| + (if n in keys then 1 else 0)
  {
    if n in keys {
      assert (names + {n}) * keys == names * keys + {n};
    } else {
      assert (names + {n}) * keys == names * keys;
    }
  }

  lemma {:induction false} NoDups(s: seq<Attr>, keys: set<Symbol>)
    requires forall k :: 0 <= k < |s| ==> s[k].name !in keys
    ensures DupCount(s, keys) == 0
  {
    if s != [] { NoDups(s[1..], keys); }
  }

  /** Duplicates by `std::set_intersection` of two sorted ranges. */
  method Intersect(a: seq<Attr>, b: seq<Attr>) returns (d: nat)
    requires Sorted(a) && Sorted(b)
    ensures d == DupCount(b, ToMap(a).Keys)
  {
    ghost var keys := ToMap(a).Keys;
    ToMapKeys(a);
    d := 0;
    var i, j := 0, 0;
    assert b[0..] == b;
    while i < |a| && j < |b|
      invariant 0 <= i <= |a| && 0 <= j <= |b|
      invariant j < |b| ==> forall k :: 0 <= k < i ==> a[k].name < b[j].name
      invariant d + DupCount(b[j..], keys) == DupCount(b, keys)
      decreases |a| - i + |b| - j
    {
      assert b[j..][1..] == b[j + 1..];
      if a[i].name < b[j].name {
        i := i + 1;
      } else if b[j].name < a[i].name {
        assert forall k :: 0 <= k < |a| ==> a[k].name != b[j].name;
        j := j + 1;
      } else {
        assert b[j].name in keys;
        d, i, j := d + 1, i + 1, j + 1;
      }
    }
    if j < |b| {
      assert forall k :: j < k < |b| ==> b[j].name < b[k].name;
      NoDups(b[j..], keys);
    }
  }

  /** Duplicates by one lookup per attribute. */
  method CountByLookup(base: Bindings, b: seq<Attr>, ghost maxLayers: nat) returns (d: nat)
    requires Valid(base, maxLayers)
    ensures d == DupCount(b, AsMap(base).Keys)
  {
    d := 0;
    assert b[0..] == b;
    for j := 0 to |b|
      invariant d + DupCount(b[j..], AsMap(base).Keys) == DupCount(b, AsMap(base).Keys)
    {
      assert b[j..][1..] == b[j + 1..];
      var found := Get(base, b[j].name, maxLayers);
      if found.Some? { d := d + 1; }
    }
  }

  lemma SetUnionSize(a: set<Symbol>, b: set<Symbol>)
    ensures |a + b| == |a| + |b| - |b * a|
  {
    assert a + b == a + (b - a);
    assert b == (b - a) + b * a;
  }

  lemma UnionSize(m: map<Symbol, Value>, m': map<Symbol, Value>)
    ensures |m + m'| == |m| + |m'| - |m'.Keys * m.Keys|
  {
    assert (m + m').Keys == m.Keys + m'.Keys;
    SetUnionSize(m.Keys, m'.Keys);
    assert |m + m'| == |(m + m').Keys| && |m| == |m.Keys| && |m'| == |m'.Keys|;
  }

  lemma UnionAssoc(a: map<Symbol, Value>, b: map<Symbol, Value>, c: map<Symbol, Value>)
    ensures (a + b) + c == a + (b + c)
  {
  }

  lemma UnionUnit(a: map<Symbol, Value>)
    ensures a + map[] == a && map[] + a == a
  {
  }

  lemma SizeZero(b: Bindings, maxLayers: nat)
    requires Valid(b, maxLayers) && b.size == 0
    ensures AsMap(b) == map[]
  {
    assert |AsMap(b)| == 0;
  }

  /** A set without layers. */
  lemma FlatOk(s: seq<Attr>, maxLayers: nat)
    requires Sorted(s) && maxLayers >= 1
    ensures Valid(Bindings(s, None, 1, |s|), maxLayers) && AsMap(Bindings(s, None, 1, |s|)) == ToMap(s)
  {
    ToMapSize(s);
  }

  /** A new layer on top of a set, with the number of distinct names in the chain. */
  method Layer(base: Bindings, attrs: seq<Attr>, maxLayers: nat) returns (b: Bindings)
    requires Valid(base, maxLayers) && base.numLayers < maxLayers && Sorted(attrs)
    ensures Valid(b, maxLayers) && AsMap(b) == AsMap(base) + ToMap(attrs)
  {
    var duplicates;
    if |attrs| > base.size {
      var all := Iterate(base, maxLayers);
      duplicates := Intersect(all, attrs);
    } else {
      duplicates := CountByLookup(base, attrs, maxLayers);
    }
    DupCountIsOverlap(attrs, AsMap(base).Keys);
    UnionSize(AsMap(base), ToMap(attrs));
    ToMapSize(attrs);
    b := Bindings(attrs, Some(base), base.numLayers + 1, base.size + |attrs| - duplicates);
  }

  // ---------- `ExprOpUpdate::eval` on two sets ----------

  method UpdateSets(b1: Bindings, b2: Bindings, threshold: nat, maxLayers: nat) returns (b: Bindings)
    requires Valid(b1, maxLayers) && Valid(b2, maxLayers)
    ensures Valid(b, maxLayers) && AsMap(b) == AsMap(b1) + AsMap(b2)
  {
    if b1.size == 0 {
      SizeZero(b1, maxLayers);
      UnionUnit(AsMap(b2));
      return b2;
    }
    if b2.size == 0 {
      SizeZero(b2, maxLayers);
      UnionUnit(AsMap(b1));
      return b1;
    }
    var s2 := Iterate(b2, maxLayers);
    if b1.numLayers != maxLayers && b2.size <= threshold {
      b := Layer(b1, s2, maxLayers);
      return;
    }
    var s1 := Iterate(b1, maxLayers);
    var s := MergeSorted(s1, s2);
    MergeSortedness(s1, s2);
    MergeMap(s1, s2);
    FlatOk(s, maxLayers);
    b := Bindings(s, None, 1, |s|);
  }

  // ---------- trees of `//` ----------

  /** An operand that is not itself a `//` evaluates to a set or throws. */
  datatype Tree<E> = Leaf(r: Result<Bindings, E>) | Update(e1: Tree<E>, e2: Tree<E>)

  ghost predicate ValidTree<E>(t: Tree<E>, maxLayers: nat) {
    match t
    case Leaf(r) => r.Success? ==> Valid(r.value, maxLayers)
    case Update(e1, e2) => ValidTree(e1, maxLayers) && ValidTree(e2, maxLayers)
  }

  /** The reference: right operand first, then the right-biased union. */
  function Denote<E>(t: Tree<E>): Result<map<Symbol, Value>, E> {
    match t
    case Leaf(r) => var b :- r; Success(AsMap(b))
    case Update(e1, e2) =>
      var m2 :- Denote(e2);
      var m1 :- Denote(e1);
      Success(m1 + m2)
  }

  /** The operands from left to right. */
  function Leaves<E>(t: Tree<E>): seq<Result<Bindings, E>> {
    match t
    case Leaf(r) => [r]
    case Update(e1, e2) => Leaves(e1) + Leaves(e2)
  }

  predicate AllSets<E>(leaves: seq<Result<Bindings, E>>) { forall i :: 0 <= i < |leaves| ==> leaves[i].Success? }

  /** The rightmost operand that has the name. */
  predicate LastWith<E>(leaves: seq<Result<Bindings, E>>, n: Symbol, i: nat) {
    && i < |leaves| && leaves[i].Success? && n in AsMap(leaves[i].value)
    && forall j :: i < j < |leaves| ==> leaves[j].Success? && n !in AsMap(leaves[j].value)
  }

  /** The rightmost operand that fails. */
  predicate LastFailing<E>(leaves: seq<Result<Bindings, E>>, i: nat) {
    i < |leaves| && leaves[i].Failure? && forall j :: i < j < |leaves| ==> leaves[j].Success?
  }

  /** Every name has its value from the rightmost operand that has it. */
  ghost predicate RightmostWins<E>(leaves: seq<Result<Bindings, E>>, m: map<Symbol, Value>) {
    && (forall n :: n in m ==> exists i: nat :: LastWith(leaves, n, i))
    && (forall n, i: nat :: LastWith(leaves, n, i) ==> n in m && m[n] == AsMap(leaves[i].value)[n])
  }

  /** What the reference computes, in terms of the operands. */
  ghost predicate Denoted<E>(leaves: seq<Result<Bindings, E>>, r: Result<map<Symbol, Value>, E>) {
    && (r.Success? <==> AllSets(leaves))
    && (r.Success? ==> RightmostWins(leaves, r.value))
    && (r.Failure? ==> exists i: nat :: LastFailing(leaves, i) && leaves[i] == Failure(r.error))
  }

  lemma {:induction false} DenoteRule<E>(t: Tree<E>)
    ensures Denoted(Leaves(t), Denote(t))
  {
    match t
    case Leaf(r) =>
      if r.Success? {
        forall n | n in AsMap(r.value) ensures LastWith(Leaves(t), n, 0) {}
      } else {
        assert LastFailing(Leaves(t), 0);
      }
    case Update(e1, e2) =>
      DenoteRule(e1);
      DenoteRule(e2);
      var a, b := Leaves(e1), Leaves(e2);
      var m1, m2 := Denote(e1), Denote(e2);
      if m2.Failure? {
        var i: nat :| LastFailing(b, i) && b[i] == Failure(m2.error);
        FailingInRight(a, b, i);
      } else if m1.Failure? {
        var i: nat :| LastFailing(a, i) && a[i] == Failure(m1.error);
        FailingInLeft(a, b, i);
      } else {
        BothSets(a, b);
        RightmostOfBoth(a, b, m1.value, m2.value);
      }
  }

  lemma FailingInRight<E>(a: seq<Result<Bindings, E>>, b: seq<Result<Bindings, E>>, i: nat)
    requires LastFailing(b, i)
    ensures LastFailing(a + b, |a| + i) && (a + b)[|a| + i] == b[i] && !AllSets(a + b)
  {
    assert (a + b)[|a| + i].Failure?;
  }

  lemma FailingInLeft<E>(a: seq<Result<Bindings, E>>, b: seq<Result<Bindings, E>>, i: nat)
    requires LastFailing(a, i) && AllSets(b)
    ensures LastFailing(a + b, i) && (a + b)[i] == a[i] && !AllSets(a + b)
  {
    assert (a + b)[i].Failure?;
  }

  lemma BothSets<E>(a: seq<Result<Bindings, E>>, b: seq<Result<Bindings, E>>)
    requires AllSets(a) && AllSets(b)
    ensures AllSets(a + b)
  {
  }

  lemma LastOfBoth<E>(a: seq<Result<Bindings, E>>, b: seq<Result<Bindings, E>>, n: Symbol, i: nat)
    requires AllSets(a) && AllSets(b)
    ensures i >= |a| ==> (LastWith(a + b, n, i) <==> LastWith(b, n, i - |a|))
    ensures i < |a| ==> (LastWith(a + b, n, i) <==>
                           LastWith(a, n, i) && forall j :: 0 <= j < |b| ==> n !in AsMap(b[j].value))
  {
    var s := a + b;
    if i >= |a| && LastWith(s, n, i) {
      forall j | i - |a| < j < |b| ensures n !in AsMap(b[j].value) { assert s[|a| + j] == b[j]; }
    }
    if i < |a| && LastWith(s, n, i) {
      forall j | 0 <= j < |b| ensures n !in AsMap(b[j].value) { assert s[|a| + j] == b[j]; }
      forall j | i < j < |a| ensures n !in AsMap(a[j].value) { assert s[j] == a[j]; }
    }
  }

  /** If some operand has a name, one of them is the rightmost. */
  lemma {:induction false} LastExists<E>(b: seq<Result<Bindings, E>>, n: Symbol)
    requires AllSets(b)
    ensures (exists j :: 0 <= j < |b| && n in AsMap(b[j].value)) <==> exists i: nat :: LastWith(b, n, i)
    decreases |b|
  {
    if b != [] {
      var last := |b| - 1;
      if n in AsMap(b[last].value) {
        assert LastWith(b, n, last);
      } else if j :| 0 <= j < |b| && n in AsMap(b[j].value) {
        var init := b[..last];
        assert init[j] == b[j];
        LastExists(init, n);
        var i: nat :| LastWith(init, n, i);
        assert LastWith(b, n, i);
      }
    }
  }

  lemma RightmostOfBoth<E>(a: seq<Result<Bindings, E>>, b: seq<Result<Bindings, E>>,
                           m1: map<Symbol, Value>, m2: map<Symbol, Value>)
    requires AllSets(a) && AllSets(b) && RightmostWins(a, m1) && RightmostWins(b, m2)
    ensures RightmostWins(a + b, m1 + m2)
  {
    forall n | n in m1 + m2 ensures exists i: nat :: LastWith(a + b, n, i) {
      LastExists(b, n);
      if n in m2 {
        var i: nat :| LastWith(b, n, i);
        LastOfBoth(a, b, n, |a| + i);
      } else {
        var i: nat :| LastWith(a, n, i);
        LastOfBoth(a, b, n, i);
      }
    }
    forall n, i: nat | LastWith(a + b, n, i)
      ensures n in m1 + m2 && (m1 + m2)[n] == AsMap((a + b)[i].value)[n]
    {
      LastOfBoth(a, b, n, i);
      LastExists(b, n);
    }
  }

  ghost predicate ValidQueue(q: seq<Bindings>, maxLayers: nat) {
    forall i :: 0 <= i < |q| ==> Valid(q[i], maxLayers)
  }

  /** What a queue denotes: its first element has the highest priority. */
  function QueueMap(q: seq<Bindings>): map<Symbol, Value> {
    if q == [] then map[] else QueueMap(q[1..]) + AsMap(q[0])
  }

  lemma {:induction false} QueueMapAppend(q: seq<Bindings>, q': seq<Bindings>)
    ensures QueueMap(q + q') == QueueMap(q') + QueueMap(q)
  {
    if q == [] {
      assert q + q' == q';
      UnionUnit(QueueMap(q'));
    } else {
      QueueMapAppend(q[1..], q');
      assert (q + q')[1..] == q[1..] + q';
      UnionAssoc(QueueMap(q'), QueueMap(q[1..]), AsMap(q[0]));
    }
  }

  lemma QueueMapOne(b: Bindings)
    ensures QueueMap([b]) == AsMap(b)
  {
    assert [b][1..] == [];
    UnionUnit(AsMap(b));
  }

  /** The sets from right to left. */
  function Backwards<E>(leaves: seq<Result<Bindings, E>>): (s: seq<Bindings>)
    requires AllSets(leaves)
    ensures |s| == |leaves| && forall k :: 0 <= k < |s| ==> s[k] == leaves[|leaves| - 1 - k].value
  {
    seq(|leaves|, k requires 0 <= k < |leaves| => leaves[|leaves| - 1 - k].value)
  }

  lemma BackwardsAppend<E>(a: seq<Result<Bindings, E>>, b: seq<Result<Bindings, E>>)
    requires AllSets(a) && AllSets(b)
    ensures AllSets(a + b) && Backwards(a + b) == Backwards(b) + Backwards(a)
  {
  }

  lemma {:induction false} QueueOfTree<E>(t: Tree<E>)
    requires AllSets(Leaves(t))
    ensures Denote(t) == Success(QueueMap(Backwards(Leaves(t))))
  {
    match t
    case Leaf(r) =>
      assert Leaves(t)[0] == r;
      assert Backwards(Leaves(t)) == [r.value];
      QueueMapOne(r.value);
    case Update(e1, e2) =>
      var a, b := Leaves(e1), Leaves(e2);
      SplitSets(a, b);
      QueueOfTree(e1);
      QueueOfTree(e2);
      BackwardsAppend(a, b);
      QueueMapAppend(Backwards(b), Backwards(a));
  }

  lemma SplitSets<E>(a: seq<Result<Bindings, E>>, b: seq<Result<Bindings, E>>)
    requires AllSets(a + b)
    ensures AllSets(a) && AllSets(b)
  {
    forall i | 0 <= i < |a| ensures a[i].Success? { assert (a + b)[i] == a[i]; }
    forall i | 0 <= i < |b| ensures b[i].Success? { assert (a + b)[|a| + i] == b[i]; }
  }

  /** `evalForUpdate`: the sets are appended from right to left; the first error stops. */
  method EvalForUpdate<E>(t: Tree<E>, q: seq<Bindings>, ghost maxLayers: nat) returns (r: Result<seq<Bindings>, E>)
    requires ValidTree(t, maxLayers) && ValidQueue(q, maxLayers)
    ensures r.Success? <==> AllSets(Leaves(t))
    ensures r.Success? ==> r.value == q + Backwards(Leaves(t)) && ValidQueue(r.value, maxLayers)
    ensures r.Failure? ==> exists i: nat :: LastFailing(Leaves(t), i) && Leaves(t)[i] == Failure(r.error)
    decreases t
  {
    if t.Leaf? {
      if t.r.Failure? {
        assert LastFailing(Leaves(t), 0);
        return Failure(t.r.error);
      }
      return Success(q + [t.r.value]);
    }
    ghost var a, b := Leaves(t.e1), Leaves(t.e2);
    var right := EvalForUpdate(t.e2, q, maxLayers);
    if right.Failure? {
      ghost var i: nat :| LastFailing(b, i) && b[i] == Failure(right.error);
      FailingInRight(a, b, i);
      return Failure(right.error);
    }
    r := EvalForUpdate(t.e1, right.value, maxLayers);
    if r.Failure? {
      ghost var i: nat :| LastFailing(a, i) && a[i] == Failure(r.error);
      FailingInLeft(a, b, i);
    } else {
      BackwardsAppend(a, b);
      assert q + Backwards(b) + Backwards(a) == q + Backwards(a + b);
    }
  }

  /**
   * `ExprOpUpdate::eval`: flatten, then fold from the end of the queue. In the
   * result every name has its value from the rightmost operand that has it,
   * for any threshold and any limit on layers; the error is that of the
   * rightmost operand that fails.
   */
  method EvalUpdate<E>(t: Tree<E>, threshold: nat, maxLayers: nat) returns (r: Result<Bindings, E>)
    requires ValidTree(t, maxLayers) && maxLayers >= 1
    ensures r.Success? <==> AllSets(Leaves(t))
    ensures r.Success? ==> Valid(r.value, maxLayers) && RightmostWins(Leaves(t), AsMap(r.value))
    ensures r.Failure? ==> exists i: nat :: LastFailing(Leaves(t), i) && Leaves(t)[i] == Failure(r.error)
  {
    var queue := EvalForUpdate(t, [], maxLayers);
    if queue.Failure? { return Failure(queue.error); }
    assert queue.value == Backwards(Leaves(t));
    var b := Fold(queue.value, threshold, maxLayers);
    QueueOfTree(t);
    DenoteRule(t);
    return Success(b);
  }

  /** The loop over the queue from its end. */
  method Fold(q: seq<Bindings>, threshold: nat, maxLayers: nat) returns (vTmp: Bindings)
    requires ValidQueue(q, maxLayers) && maxLayers >= 1
    ensures Valid(vTmp, maxLayers) && AsMap(vTmp) == QueueMap(q)
  {
    vTmp := EMPTY_BINDINGS;
    FlatOk([], maxLayers);
    var i := |q|;
    while i > 0
      invariant 0 <= i <= |q| && Valid(vTmp, maxLayers) && AsMap(vTmp) == QueueMap(q[i..])
    {
      i := i - 1;
      assert q[i..][1..] == q[i + 1..];
      vTmp := UpdateSets(vTmp, q[i], threshold, maxLayers);
    }
    assert q[0..] == q;
  }
}
