/**
 * `CompareValues` (src/libexpr/primops.cc) and how it fits `eqValues`: on
 * integers, strings and nested lists it is a strict order, and of two
 * comparable values exactly one is smaller unless they are equal.
 */
module Ordering {
  import opened Basics
  import opened Equality

  datatype CmpError = Incomparable | Thrown(err: nat)

  type LtRes = Result<bool, CmpError>

  /** The floating point comparisons. */
  datatype FloatOrder = FloatOrder(
    floatLtInt: (nat, int) -> bool,
    intLtFloat: (int, nat) -> bool,
    lt: (nat, nat) -> bool)

  /** Lexicographic order of bytes. */
  predicate StrLt(s: string, t: string) {
    if t == [] then false
    else if s == [] then true
    else if s[0] != t[0] then s[0] < t[0]
    else StrLt(s[1..], t[1..])
  }

  function Lt(ops: Ops, fl: FloatOrder, v1: Value, v2: Value): LtRes
    decreases v1, 1
  {
    match (v1.shape, v2.shape)
    case (Float(f), Int(n)) => Success(fl.floatLtInt(f, n))
    case (Int(n), Float(f)) => Success(fl.intLtFloat(n, f))
    case (Int(n), Int(m)) => Success(n < m)
    case (Float(f), Float(g)) => Success(fl.lt(f, g))
    case (Str(s), Str(t)) => Success(StrLt(s, t))
    case (PathVal(_, p), PathVal(_, q)) => Success(StrLt(p, q))
    case (List(xs), List(ys)) => LtLists(ops, fl, xs, ys)
    case _ => Failure(Incomparable)
  }

  /** The index loop: the first pair of elements that `eqValues` tells apart decides. */
  function LtLists(ops: Ops, fl: FloatOrder, xs: seq<Value>, ys: seq<Value>): LtRes
    decreases xs, 0
  {
    if ys == [] then Success(false)
    else if xs == [] then Success(true)
    else
      match Eq(ops, xs[0], ys[0])
      case Failure(e) => Failure(Thrown(e))
      case Success(true) => LtLists(ops, fl, xs[1..], ys[1..])
      case Success(false) => Lt(ops, fl, xs[0], ys[0])
  }

  // ---------- plain values ----------

  /** Values built from integers, strings and lists, without addresses. */
  datatype Plain = PInt(n: int) | PStr(s: string) | PList(l: Plains)

  datatype Plains = Nil | Cons(head: Plain, tail: Plains)

  function Erase(v: Value): Option<Plain> {
    match v.shape
    case Int(n) => Some(PInt(n))
    case Str(s) => Some(PStr(s))
    case List(xs) =>
      (match EraseAll(xs)
       case None => None
       case Some(l) => Some(PList(l)))
    case _ => None
  }

  function EraseAll(xs: seq<Value>): Option<Plains> {
    if xs == [] then Some(Nil)
    else
      match (Erase(xs[0]), EraseAll(xs[1..]))
      case (Some(x), Some(l)) => Some(Cons(x, l))
      case _ => None
  }

  /** All objects of a value live in one heap, so equal addresses mean the same object. */
  predicate In(heap: map<nat, Shape>, v: Value) {
    && v.loc in heap && heap[v.loc] == v.shape
    && (v.shape.List? ==> forall x :: x in v.shape.elems ==> In(heap, x))
  }

  /** Comparison of plain values; `None` is an error. */
  function PLt(a: Plain, b: Plain): Option<bool> {
    match (a, b)
    case (PInt(n), PInt(m)) => Some(n < m)
    case (PStr(s), PStr(t)) => Some(StrLt(s, t))
    case (PList(l), PList(m)) => PLtLists(l, m)
    case _ => None
  }

  function PLtLists(l: Plains, m: Plains): Option<bool> {
    match (l, m)
    case (_, Nil) => Some(false)
    case (Nil, _) => Some(true)
    case (Cons(x, xs), Cons(y, ys)) => if x == y then PLtLists(xs, ys) else PLt(x, y)
  }

  function ToRes(o: Option<bool>): LtRes { if o.None? then Failure(Incomparable) else Success(o.value) }

  /** On plain values `eqValues` is equality of contents. */
  lemma {:induction false} EqIsSameContents(ops: Ops, heap: map<nat, Shape>, v1: Value, v2: Value)
    requires Erase(v1).Some? && Erase(v2).Some? && In(heap, v1) && In(heap, v2)
    ensures Eq(ops, v1, v2) == Success(Erase(v1) == Erase(v2))
    decreases v1, 1
  {
    if v1.shape.List? && v2.shape.List? {
      EqListsSameContents(ops, heap, v1.shape.elems, v2.shape.elems);
    }
  }

  lemma {:induction false} EqListsSameContents(ops: Ops, heap: map<nat, Shape>, xs: seq<Value>, ys: seq<Value>)
    requires EraseAll(xs).Some? && EraseAll(ys).Some?
    requires (forall x :: x in xs ==> In(heap, x)) && (forall y :: y in ys ==> In(heap, y))
    ensures |xs| != |ys| ==> EraseAll(xs) != EraseAll(ys)
    ensures |xs| == |ys| ==> EqLists(ops, xs, ys) == Success(EraseAll(xs) == EraseAll(ys))
    decreases xs, 0
  {
    if xs != [] && ys != [] {
      EqIsSameContents(ops, heap, xs[0], ys[0]);
      EqListsSameContents(ops, heap, xs[1..], ys[1..]);
    }
  }

  /** On plain values `CompareValues` depends only on the contents. */
  lemma {:induction false} LtIsPlain(ops: Ops, fl: FloatOrder, heap: map<nat, Shape>, v1: Value, v2: Value)
    requires Erase(v1).Some? && Erase(v2).Some? && In(heap, v1) && In(heap, v2)
    ensures Lt(ops, fl, v1, v2) == ToRes(PLt(Erase(v1).value, Erase(v2).value))
    decreases v1, 1
  {
    if v1.shape.List? && v2.shape.List? {
      LtListsIsPlain(ops, fl, heap, v1.shape.elems, v2.shape.elems);
    }
  }

  lemma {:induction false} LtListsIsPlain(ops: Ops, fl: FloatOrder, heap: map<nat, Shape>,
                                          xs: seq<Value>, ys: seq<Value>)
    requires EraseAll(xs).Some? && EraseAll(ys).Some?
    requires (forall x :: x in xs ==> In(heap, x)) && (forall y :: y in ys ==> In(heap, y))
    ensures LtLists(ops, fl, xs, ys) == ToRes(PLtLists(EraseAll(xs).value, EraseAll(ys).value))
    decreases xs, 0
  {
    if xs != [] && ys != [] {
      EqIsSameContents(ops, heap, xs[0], ys[0]);
      LtIsPlain(ops, fl, heap, xs[0], ys[0]);
      LtListsIsPlain(ops, fl, heap, xs[1..], ys[1..]);
    }
  }

  // ---------- the order ----------

  lemma {:induction false} StrLtOrder(s: string, t: string)
    ensures s == t ==> !StrLt(s, t)
    ensures s != t ==> StrLt(s, t) != StrLt(t, s)
  {
    if s != [] && t != [] && s[0] == t[0] {
      StrLtOrder(s[1..], t[1..]);
      assert s == [s[0]] + s[1..] && t == [t[0]] + t[1..];
    }
  }

  lemma {:induction false} StrLtTransitive(s: string, t: string, u: string)
    requires StrLt(s, t) && StrLt(t, u)
    ensures StrLt(s, u)
  {
    if s != [] && s[0] == t[0] && t[0] == u[0] { StrLtTransitive(s[1..], t[1..], u[1..]); }
  }

  /** Comparison is defined in both directions or in neither; if defined, exactly one of `<`, `>` and `==` holds. */
  lemma {:induction false} PlainTrichotomy(a: Plain, b: Plain)
    ensures PLt(a, b).Some? <==> PLt(b, a).Some?
    ensures a == b ==> PLt(a, b) == Some(false)
    ensures a != b && PLt(a, b).Some? ==> PLt(a, b).value != PLt(b, a).value
    decreases a
  {
    match (a, b)
    case (PStr(s), PStr(t)) => StrLtOrder(s, t);
    case (PList(l), PList(m)) => ListTrichotomy(l, m);
    case _ =>
  }

  lemma {:induction false} ListTrichotomy(l: Plains, m: Plains)
    ensures PLtLists(l, m).Some? <==> PLtLists(m, l).Some?
    ensures l == m ==> PLtLists(l, m) == Some(false)
    ensures l != m && PLtLists(l, m).Some? ==> PLtLists(l, m).value != PLtLists(m, l).value
    decreases l
  {
    if l.Cons? && m.Cons? {
      PlainTrichotomy(l.head, m.head);
      ListTrichotomy(l.tail, m.tail);
    }
  }

  lemma {:induction false} PlainTransitive(a: Plain, b: Plain, c: Plain)
    requires PLt(a, b) == Some(true) && PLt(b, c) == Some(true)
    ensures PLt(a, c) == Some(true)
    decreases a
  {
    match (a, b, c)
    case (PStr(s), PStr(t), PStr(u)) => StrLtTransitive(s, t, u);
    case (PList(l), PList(m), PList(n)) => ListTransitive(l, m, n);
    case _ =>
  }

  lemma {:induction false} ListTransitive(l: Plains, m: Plains, n: Plains)
    requires PLtLists(l, m) == Some(true) && PLtLists(m, n) == Some(true)
    ensures PLtLists(l, n) == Some(true)
    decreases l
  {
    if l.Cons? {
      var x, y, z := l.head, m.head, n.head;
      if x == y && y == z {
        ListTransitive(l.tail, m.tail, n.tail);
      } else if x != y && y != z {
        PlainTransitive(x, y, z);
        PlainTrichotomy(x, y);
      }
    }
  }

  /** The main result, on the values of the evaluator. */
  lemma CompareIsStrictOrder(ops: Ops, fl: FloatOrder, heap: map<nat, Shape>, a: Value, b: Value, c: Value)
    requires Erase(a).Some? && Erase(b).Some? && Erase(c).Some? && In(heap, a) && In(heap, b) && In(heap, c)
    ensures Lt(ops, fl, a, a) == Success(false)
    ensures Lt(ops, fl, a, b).Success? <==> Lt(ops, fl, b, a).Success?
    ensures Lt(ops, fl, a, b).Success? ==>
              var lt, gt, eq := Lt(ops, fl, a, b).value, Lt(ops, fl, b, a).value, Eq(ops, a, b) == Success(true);
              (lt && !gt && !eq) || (!lt && gt && !eq) || (!lt && !gt && eq)
    ensures Lt(ops, fl, a, b) == Success(true) && Lt(ops, fl, b, c) == Success(true) ==>
              Lt(ops, fl, a, c) == Success(true)
  {
    var pa, pb, pc := Erase(a).value, Erase(b).value, Erase(c).value;
    LtIsPlain(ops, fl, heap, a, a);
    LtIsPlain(ops, fl, heap, a, b);
    LtIsPlain(ops, fl, heap, b, a);
    LtIsPlain(ops, fl, heap, b, c);
    LtIsPlain(ops, fl, heap, a, c);
    EqIsSameContents(ops, heap, a, b);
    PlainTrichotomy(pa, pa);
    PlainTrichotomy(pa, pb);
    if PLt(pa, pb) == Some(true) && PLt(pb, pc) == Some(true) { PlainTransitive(pa, pb, pc); }
  }

  // ---------- which order it is ----------

  /** At the first difference the smaller byte comes first; a proper prefix comes before the longer string. */
  lemma {:induction false} StrLtRule(s: string, t: string, k: nat)
    requires k <= |s| && k <= |t| && s[..k] == t[..k]
    ensures k < |s| && k < |t| && s[k] != t[k] ==> (StrLt(s, t) <==> s[k] < t[k])
    ensures k == |s| ==> (StrLt(s, t) <==> |s| < |t|)
  {
    if k > 0 {
      assert s[0] == s[..k][0] == t[..k][0] == t[0];
      assert s[1..][..k - 1] == s[..k][1..] == t[..k][1..] == t[1..][..k - 1];
      StrLtRule(s[1..], t[1..], k - 1);
    }
  }

  /** Integers are compared as integers, strings and paths by their text. */
  lemma LtRules(ops: Ops, fl: FloatOrder, v1: Value, v2: Value)
    ensures v1.shape.Int? && v2.shape.Int? ==> Lt(ops, fl, v1, v2) == Success(v1.shape.n < v2.shape.n)
    ensures v1.shape.Str? && v2.shape.Str? ==> Lt(ops, fl, v1, v2) == Success(StrLt(v1.shape.s, v2.shape.s))
    ensures v1.shape.PathVal? && v2.shape.PathVal? ==>
              Lt(ops, fl, v1, v2) == Success(StrLt(v1.shape.path, v2.shape.path))
    ensures v1.shape.Int? && v2.shape.Str? ==>
              Lt(ops, fl, v1, v2) == Failure(Incomparable) && Lt(ops, fl, v2, v1) == Failure(Incomparable)
  {
  }

  /** Lists are compared by the first elements that are not equal; a proper prefix comes first. */
  lemma {:induction false} LtListRule(ops: Ops, fl: FloatOrder, xs: seq<Value>, ys: seq<Value>, k: nat)
    requires k <= |xs| && k <= |ys| && forall i :: 0 <= i < k ==> Eq(ops, xs[i], ys[i]) == Success(true)
    ensures k < |xs| && k < |ys| && Eq(ops, xs[k], ys[k]) == Success(false) ==>
              LtLists(ops, fl, xs, ys) == Lt(ops, fl, xs[k], ys[k])
    ensures k == |xs| ==> LtLists(ops, fl, xs, ys) == Success(|xs| < |ys|)
    ensures k == |ys| ==> LtLists(ops, fl, xs, ys) == Success(false)
  {
    if k > 0 {
      assert Eq(ops, xs[0], ys[0]) == Success(true);
      forall i | 0 <= i < k - 1 ensures Eq(ops, xs[1..][i], ys[1..][i]) == Success(true) {
        assert xs[1..][i] == xs[i + 1] && ys[1..][i] == ys[i + 1];
      }
      LtListRule(ops, fl, xs[1..], ys[1..], k - 1);
    }
  }
}
