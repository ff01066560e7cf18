/**
 * `eqValues` and `assertEqValues` (src/libexpr/eval.cc), which the source says
 * must match. Values are finite trees of heap objects; a value that cannot be
 * forced carries its error.
 */
module Equality {
  import opened Basics

  /** A heap object: its address and what forcing it yields. */
  datatype Value = Value(loc: nat, shape: Shape)

  datatype Shape =
    | Int(n: int)
    | Float(f: nat)
    | Bool(b: bool)
    | Str(s: string)
    | PathVal(accessor: nat, path: string)
    | Null
    | List(elems: seq<Value>)
    | Attrs(attrs: seq<Attr>)
    | Function
    | External(id: nat)
    | Fails(err: nat)

  datatype Attr = Attr(name: Symbol, value: Value)

  /** Comparisons the model leaves open: floating point numbers and external values. */
  datatype Ops = Ops(intEqFloat: (int, nat) -> bool, floatEq: (nat, nat) -> bool, externalEq: (nat, nat) -> bool)

  const TYPE: Symbol := 0
  const OUT_PATH: Symbol := 1

  function Get(attrs: seq<Attr>, name: Symbol): (r: Option<Value>)
    ensures r.Some? ==> Attr(name, r.value) in attrs
    ensures r.None? ==> forall a :: a in attrs ==> a.name != name
  {
    if attrs == [] then None else if attrs[0].name == name then Some(attrs[0].value) else Get(attrs[1..], name)
  }

  /** The outcome of `eqValues`: a boolean or an error of forcing. */
  type EqRes = Result<bool, nat>

  /** `isDerivation` on a forced set. */
  function IsDerivation(attrs: seq<Attr>): EqRes {
    match Get(attrs, TYPE)
    case None => Success(false)
    case Some(v) => if v.shape.Fails? then Failure(v.shape.err) else Success(v.shape == Str("derivation"))
  }

  /** Both sets are derivations with an `outPath`: then only those are compared. */
  function ByOutPath(a: seq<Attr>, b: seq<Attr>): Result<Option<(Value, Value)>, nat> {
    var d1 :- IsDerivation(a);
    if !d1 then Success(None) else
    var d2 :- IsDerivation(b);
    if d2 && Get(a, OUT_PATH).Some? && Get(b, OUT_PATH).Some?
    then Success(Some((Get(a, OUT_PATH).value, Get(b, OUT_PATH).value)))
    else Success(None)
  }

  function Eq(ops: Ops, v1: Value, v2: Value): EqRes
    decreases v1, 2
  {
    if v1.shape.Fails? then Failure(v1.shape.err)
    else if v2.shape.Fails? then Failure(v2.shape.err)
    else if v1.loc == v2.loc then Success(true)
    else
      match (v1.shape, v2.shape)
      case (Int(n), Float(f)) => Success(ops.intEqFloat(n, f))
      case (Float(f), Int(n)) => Success(ops.intEqFloat(n, f))
      case (Int(n), Int(m)) => Success(n == m)
      case (Bool(b), Bool(c)) => Success(b == c)
      case (Str(s), Str(t)) => Success(s == t)
      case (PathVal(a, p), PathVal(b, q)) => Success(a == b && p == q)
      case (Null, Null) => Success(true)
      case (List(xs), List(ys)) => if |xs| != |ys| then Success(false) else EqLists(ops, xs, ys)
      case (Attrs(a), Attrs(b)) => EqSets(ops, v1, v2)
      case (External(a), External(b)) => Success(ops.externalEq(a, b))
      case (Float(f), Float(g)) => Success(ops.floatEq(f, g))
      case _ => Success(false)
  }

  function EqLists(ops: Ops, xs: seq<Value>, ys: seq<Value>): EqRes
    requires |xs| == |ys|
    decreases xs, 0
  {
    if xs == [] then Success(true)
    else
      var same :- Eq(ops, xs[0], ys[0]);
      if same then EqLists(ops, xs[1..], ys[1..]) else Success(false)
  }

  function EqSets(ops: Ops, v1: Value, v2: Value): EqRes
    requires v1.shape.Attrs? && v2.shape.Attrs?
    decreases v1, 1
  {
    var pair :- ByOutPath(v1.shape.attrs, v2.shape.attrs);
    if pair.Some? then Eq(ops, pair.value.0, pair.value.1)
    else if |v1.shape.attrs| != |v2.shape.attrs| then Success(false)
    else EqAttrs(ops, v1, v2, 0)
  }

  /** The loop over both sets from position `k`. */
  function EqAttrs(ops: Ops, v1: Value, v2: Value, k: nat): EqRes
    requires SameSize(v1, v2, k)
    decreases v1, 0, |v1.shape.attrs| - k
  {
    var a, b := v1.shape.attrs, v2.shape.attrs;
    if k == |a| then Success(true)
    else if a[k].name != b[k].name then Success(false)
    else
      assert a[k] in a;
      var same :- Eq(ops, a[k].value, b[k].value);
      if same then EqAttrs(ops, v1, v2, k + 1) else Success(false)
  }

  predicate SameSize(v1: Value, v2: Value, k: nat) {
    v1.shape.Attrs? && v2.shape.Attrs? && k <= |v1.shape.attrs| == |v2.shape.attrs|
  }

  // ---------- assertEqValues ----------

  /** How `assertEqValues` ends: normally, with an assertion error, with an error of forcing, or in `assert(false)`. */
  datatype Outcome = Returns | AssertionError | Throws(err: nat) | Crash

  function Check(b: bool): Outcome { if b then Returns else AssertionError }

  predicate IsNumber(s: Shape) { s.Int? || s.Float? }

  function AssertEq(ops: Ops, v1: Value, v2: Value): Outcome
    decreases v1, 2
  {
    if v1.shape.Fails? then Throws(v1.shape.err)
    else if v2.shape.Fails? then Throws(v2.shape.err)
    else if v1.loc == v2.loc then Returns
    else if IsNumber(v1.shape) && IsNumber(v2.shape) then
      match Eq(ops, v1, v2)
      case Success(b) => Check(b)
      case Failure(e) => Throws(e)
    else
      match (v1.shape, v2.shape)
      case (Bool(b), Bool(c)) => Check(b == c)
      case (Str(s), Str(t)) => Check(s == t)
      case (PathVal(a, p), PathVal(b, q)) => if a != b then AssertionError else Check(p == q)
      case (Null, Null) => Returns
      case (List(xs), List(ys)) => if |xs| != |ys| then AssertionError else AssertLists(ops, xs, ys)
      case (Attrs(a), Attrs(b)) => AssertSets(ops, v1, v2)
      case (External(a), External(b)) => Check(ops.externalEq(a, b))
      case _ => AssertionError
  }

  function AssertLists(ops: Ops, xs: seq<Value>, ys: seq<Value>): Outcome
    requires |xs| == |ys|
    decreases xs, 0
  {
    if xs == [] then Returns
    else
      var first := AssertEq(ops, xs[0], ys[0]);
      if first.Returns? then AssertLists(ops, xs[1..], ys[1..]) else first
  }

  function AssertSets(ops: Ops, v1: Value, v2: Value): Outcome
    requires v1.shape.Attrs? && v2.shape.Attrs?
    decreases v1, 1
  {
    var a, b := v1.shape.attrs, v2.shape.attrs;
    match ByOutPath(a, b)
    case Failure(e) => Throws(e)
    case Success(Some(pair)) => AssertEq(ops, pair.0, pair.1)
    case Success(None) => if |a| != |b| then AssertionError else AssertAttrs(ops, v1, v2, 0)
  }

  /** The loop over both sets; on a name mismatch the whole sets are searched for the missing attribute. */
  function AssertAttrs(ops: Ops, v1: Value, v2: Value, k: nat): Outcome
    requires SameSize(v1, v2, k)
    decreases v1, 0, |v1.shape.attrs| - k
  {
    var a, b := v1.shape.attrs, v2.shape.attrs;
    if k == |a| then Returns
    else if a[k].name != b[k].name then
      if Get(b, a[k].name).None? then AssertionError
      else if Get(a, b[k].name).None? then AssertionError
      else Crash
    else
      assert a[k] in a;
      var first := AssertEq(ops, a[k].value, b[k].value);
      if first.Returns? then AssertAttrs(ops, v1, v2, k + 1) else first
  }

  // ---------- they match ----------

  predicate Sorted(attrs: seq<Attr>) { forall i, j :: 0 <= i < j < |attrs| ==> attrs[i].name < attrs[j].name }

  /** Every set in the value is sorted by name. */
  predicate Wf(v: Value) {
    match v.shape
    case List(xs) => forall x :: x in xs ==> Wf(x)
    case Attrs(attrs) => Sorted(attrs) && forall a :: a in attrs ==> Wf(a.value)
    case _ => true
  }

  /** The outcome of `assertEqValues` that corresponds to an outcome of `eqValues`. */
  function Corresponding(r: EqRes): Outcome {
    match r
    case Success(b) => Check(b)
    case Failure(e) => Throws(e)
  }

  /**
   * `assertEqValues` returns normally exactly when `eqValues` returns true,
   * reports a difference exactly when it returns false, throws exactly what it
   * throws, and never reaches `assert(false)`.
   */
  lemma {:induction false} AssertMatchesEq(ops: Ops, v1: Value, v2: Value)
    requires Wf(v1) && Wf(v2)
    ensures AssertEq(ops, v1, v2) == Corresponding(Eq(ops, v1, v2))
    decreases v1, 2
  {
    if !v1.shape.Fails? && !v2.shape.Fails? && v1.loc != v2.loc {
      match (v1.shape, v2.shape)
      case (List(xs), List(ys)) => if |xs| == |ys| { ListsMatch(ops, xs, ys); }
      case (Attrs(a), Attrs(b)) => SetsMatch(ops, v1, v2);
      case _ =>
    }
  }

  lemma {:induction false} ListsMatch(ops: Ops, xs: seq<Value>, ys: seq<Value>)
    requires |xs| == |ys| && (forall x :: x in xs ==> Wf(x)) && (forall y :: y in ys ==> Wf(y))
    ensures AssertLists(ops, xs, ys) == Corresponding(EqLists(ops, xs, ys))
    decreases xs, 0
  {
    if xs != [] {
      AssertMatchesEq(ops, xs[0], ys[0]);
      ListsMatch(ops, xs[1..], ys[1..]);
    }
  }

  lemma {:induction false} SetsMatch(ops: Ops, v1: Value, v2: Value)
    requires v1.shape.Attrs? && v2.shape.Attrs? && Wf(v1) && Wf(v2)
    ensures AssertSets(ops, v1, v2) == Corresponding(EqSets(ops, v1, v2))
    decreases v1, 1
  {
    var a, b := v1.shape.attrs, v2.shape.attrs;
    var pairs := ByOutPath(a, b);
    if pairs.Success? {
      match pairs.value
      case Some(pair) =>
        assert Attr(OUT_PATH, pair.0) in a && Attr(OUT_PATH, pair.1) in b;
        AssertMatchesEq(ops, pair.0, pair.1);
      case None =>
        if |a| == |b| { AttrsMatch(ops, v1, v2, 0); }
    }
  }

  /** At the first mismatch of two sorted sets one of the two names is missing on the other side. */
  lemma MismatchIsMissing(all1: seq<Attr>, all2: seq<Attr>, k: nat)
    requires Sorted(all1) && Sorted(all2) && k < |all1| && k < |all2|
    requires forall i :: 0 <= i < k ==> all1[i].name == all2[i].name
    requires all1[k].name != all2[k].name
    ensures Get(all2, all1[k].name).None? || Get(all1, all2[k].name).None?
  {
    var n, m := all1[k].name, all2[k].name;
    if n < m {
      forall a | a in all2 ensures a.name != n {
        var i :| 0 <= i < |all2| && all2[i] == a;
        assert i < k ==> all1[i].name < all1[k].name;
        assert i > k ==> all2[k].name < all2[i].name;
      }
    } else {
      forall a | a in all1 ensures a.name != m {
        var i :| 0 <= i < |all1| && all1[i] == a;
        assert i < k ==> all2[i].name < all2[k].name;
        assert i > k ==> all1[k].name < all1[i].name;
      }
    }
  }

  lemma {:induction false} AttrsMatch(ops: Ops, v1: Value, v2: Value, k: nat)
    requires SameSize(v1, v2, k) && Wf(v1) && Wf(v2)
    requires forall i :: 0 <= i < k ==> v1.shape.attrs[i].name == v2.shape.attrs[i].name
    ensures AssertAttrs(ops, v1, v2, k) == Corresponding(EqAttrs(ops, v1, v2, k))
    decreases v1, 0, |v1.shape.attrs| - k
  {
    var a, b := v1.shape.attrs, v2.shape.attrs;
    if k < |a| {
      if a[k].name != b[k].name {
        MismatchIsMissing(a, b, k);
      } else {
        assert a[k] in a && b[k] in b;
        AssertMatchesEq(ops, a[k].value, b[k].value);
        AttrsMatch(ops, v1, v2, k + 1);
      }
    }
  }
}
