/**
 * The `std::map` of `genericClosure`, ordered by `CompareValues`, which throws
 * on keys it cannot compare (src/libexpr/primops.cc). A search tree of any
 * shape gives the same answer: insertion throws if and only if some key in the
 * map cannot be compared with the new one, although only a few are compared.
 */
module KeyMap {
  import opened Basics
  import opened Ordering

  datatype Tree = Empty | Node(left: Tree, key: Plain, right: Tree)

  function Keys(t: Tree): set<Plain> {
    match t
    case Empty => {}
    case Node(l, x, r) => Keys(l) + {x} + Keys(r)
  }

  /** A search tree under the comparison. */
  ghost predicate Sorted(t: Tree) {
    match t
    case Empty => true
    case Node(l, x, r) => Sorted(l) && Sorted(r) && Below(l, x) && Above(x, r)
  }

  ghost predicate Below(t: Tree, x: Plain) { forall y :: y in Keys(t) ==> PLt(y, x) == Some(true) }

  ghost predicate Above(x: Plain, t: Tree) { forall y :: y in Keys(t) ==> PLt(x, y) == Some(true) }

  datatype Outcome = Throws | There | Added(t: Tree)

  /**
   * The unique insertion of the standard library: go left where the new key is
   * smaller and right otherwise, and at the bottom ask whether the key passed
   * last on the way right is smaller than the new one.
   */
  function Insert(t: Tree, k: Plain, last: Option<Plain>): Outcome
    decreases t
  {
    match t
    case Empty =>
      (match last
       case None => Added(Node(Empty, k, Empty))
       case Some(y) =>
         match PLt(y, k)
         case None => Throws
         case Some(less) => if less then Added(Node(Empty, k, Empty)) else There)
    case Node(l, x, r) =>
      match PLt(k, x)
      case None => Throws
      case Some(less) =>
        var below := if less then Insert(l, k, last) else Insert(r, k, Some(x));
        if !below.Added? then below
        else if less then Added(Node(below.t, x, r)) else Added(Node(l, x, below.t))
  }

  /** Every key can be compared with `k`. */
  ghost predicate Comparable(k: Plain, keys: set<Plain>) { forall y :: y in keys ==> PLt(k, y).Some? }

  /** The keys seen on the way: those of the subtree and the last one passed on the way right. */
  function Seen(t: Tree, last: Option<Plain>): set<Plain> {
    Keys(t) + if last.None? then {} else {last.value}
  }

  /** Smaller than something that is not greater: comparable, and a different key. */
  lemma BelowBoth(y: Plain, x: Plain, k: Plain)
    requires PLt(y, x) == Some(true) && PLt(k, x) == Some(false)
    ensures PLt(y, k) == Some(true) && PLt(k, y).Some? && y != k
  {
    PlainTrichotomy(k, x);
    if k != x { PlainTransitive(y, x, k); }
    PlainTrichotomy(y, k);
  }

  /** Greater than something greater. */
  lemma AboveBoth(k: Plain, x: Plain, y: Plain)
    requires PLt(k, x) == Some(true) && PLt(x, y) == Some(true)
    ensures PLt(k, y) == Some(true) && y != k
  {
    PlainTransitive(k, x, y);
    PlainTrichotomy(k, y);
  }

  /** What insertion below a node says about the node's keys on the other side, when it goes left. */
  lemma LeftOnly(l: Tree, x: Plain, r: Tree, k: Plain)
    requires Above(x, r) && PLt(k, x) == Some(true)
    ensures Above(k, r) && Comparable(k, Keys(r) + {x}) && k !in Keys(r) + {x}
  {
    PlainTrichotomy(k, x);
    forall y | y in Keys(r) ensures PLt(k, y) == Some(true) && y != k { AboveBoth(k, x, y); }
  }

  /** And when it goes right. */
  lemma RightOnly(l: Tree, x: Plain, k: Plain)
    requires Below(l, x) && PLt(k, x) == Some(false)
    ensures Below(l, k) && Comparable(k, Keys(l)) && k !in Keys(l)
  {
    forall y | y in Keys(l) ensures PLt(y, k) == Some(true) && PLt(k, y).Some? && y != k { BelowBoth(y, x, k); }
  }

  /** The outcome of insertion, given the keys that decide it. */
  ghost predicate Decides(o: Outcome, t: Tree, k: Plain, keys: set<Plain>) {
    && (o.Throws? <==> !Comparable(k, keys))
    && (o.There? <==> Comparable(k, keys) && k in keys)
    && (o.Added? ==> Sorted(o.t) && Keys(o.t) == Keys(t) + {k})
  }

  lemma {:induction false} InsertBelow(t: Tree, k: Plain, last: Option<Plain>)
    requires Sorted(t) && (last.Some? ==> PLt(k, last.value) == Some(false) && Above(last.value, t))
    ensures Decides(Insert(t, k, last), t, k, Seen(t, last))
    decreases t
  {
    match t
    case Empty => if last.Some? { PlainTrichotomy(k, last.value); }
    case Node(l, x, r) =>
      if PLt(k, x) == Some(true) {
        InsertBelow(l, k, last);
        LeftOnly(l, x, r, k);
        WentLeft(l, x, r, k, last);
      } else if PLt(k, x) == Some(false) {
        InsertBelow(r, k, Some(x));
        RightOnly(l, x, k);
        WentRight(l, x, r, k, last);
      } else {
        assert x in Seen(t, last);
      }
  }

  /** Keys that can be compared with `k` and differ from it do not change the decision. */
  lemma DecidesMore(o: Outcome, t: Tree, o': Outcome, t': Tree, k: Plain, seen: set<Plain>, others: set<Plain>)
    requires Decides(o, t, k, seen) && Comparable(k, others) && k !in others
    requires (o'.Throws? <==> o.Throws?) && (o'.There? <==> o.There?)
    requires o'.Added? ==> Sorted(o'.t) && Keys(o'.t) == Keys(t') + {k}
    ensures Decides(o', t', k, seen + others)
  {
    SplitComparable(k, seen, others);
  }

  lemma WentLeft(l: Tree, x: Plain, r: Tree, k: Plain, last: Option<Plain>)
    requires Sorted(Node(l, x, r)) && PLt(k, x) == Some(true)
    requires Comparable(k, Keys(r) + {x}) && k !in Keys(r) + {x}
    requires Decides(Insert(l, k, last), l, k, Seen(l, last))
    ensures Decides(Insert(Node(l, x, r), k, last), Node(l, x, r), k, Seen(Node(l, x, r), last))
  {
    var t, o := Node(l, x, r), Insert(l, k, last);
    if o.Added? { LeftAdded(l, x, r, k, o.t); }
    DecidesMore(o, l, Insert(t, k, last), t, k, Seen(l, last), Keys(r) + {x});
    assert Seen(t, last) == Seen(l, last) + (Keys(r) + {x});
  }

  lemma LeftAdded(l: Tree, x: Plain, r: Tree, k: Plain, l': Tree)
    requires Sorted(Node(l, x, r)) && Sorted(l') && Keys(l') == Keys(l) + {k} && PLt(k, x) == Some(true)
    ensures Sorted(Node(l', x, r)) && Keys(Node(l', x, r)) == Keys(Node(l, x, r)) + {k}
  {
  }

  lemma WentRight(l: Tree, x: Plain, r: Tree, k: Plain, last: Option<Plain>)
    requires Sorted(Node(l, x, r)) && PLt(k, x) == Some(false)
    requires last.Some? ==> PLt(k, last.value) == Some(false) && PLt(last.value, x) == Some(true)
    requires Comparable(k, Keys(l)) && k !in Keys(l)
    requires Decides(Insert(r, k, Some(x)), r, k, Seen(r, Some(x)))
    ensures Decides(Insert(Node(l, x, r), k, last), Node(l, x, r), k, Seen(Node(l, x, r), last))
  {
    var t, o := Node(l, x, r), Insert(r, k, Some(x));
    var others := Seen(l, last);
    PassedKeys(l, x, k, last);
    if o.Added? { NotTheKey(o, r, k, x); RightAdded(l, x, r, k, o.t); }
    DecidesMore(o, r, Insert(t, k, last), t, k, Seen(r, Some(x)), others);
    SeenRight(l, x, r, last);
  }

  /** The keys to the left and the key passed before can be compared with `k` and differ from it. */
  lemma PassedKeys(l: Tree, x: Plain, k: Plain, last: Option<Plain>)
    requires PLt(k, x) == Some(false) && Comparable(k, Keys(l)) && k !in Keys(l)
    requires last.Some? ==> PLt(last.value, x) == Some(true)
    ensures Comparable(k, Seen(l, last)) && k !in Seen(l, last)
  {
    if last.Some? { BelowBoth(last.value, x, k); }
  }

  lemma SeenRight(l: Tree, x: Plain, r: Tree, last: Option<Plain>)
    ensures Seen(Node(l, x, r), last) == Seen(r, Some(x)) + Seen(l, last)
  {
  }

  lemma NotTheKey(o: Outcome, r: Tree, k: Plain, x: Plain)
    requires Decides(o, r, k, Seen(r, Some(x))) && o.Added? && PLt(k, x) == Some(false)
    ensures PLt(x, k) == Some(true)
  {
    assert x in Seen(r, Some(x));
    PlainTrichotomy(k, x);
  }

  lemma RightAdded(l: Tree, x: Plain, r: Tree, k: Plain, r': Tree)
    requires Sorted(Node(l, x, r)) && Sorted(r') && Keys(r') == Keys(r) + {k} && PLt(x, k) == Some(true)
    ensures Sorted(Node(l, x, r')) && Keys(Node(l, x, r')) == Keys(Node(l, x, r)) + {k}
  {
  }

  lemma SplitComparable(k: Plain, a: set<Plain>, b: set<Plain>)
    ensures Comparable(k, a + b) <==> Comparable(k, a) && Comparable(k, b)
  {
  }

  /**
   * Insertion into a map of any shape throws if and only if some key in it
   * cannot be compared with the new one; otherwise it finds exactly an equal
   * key, or adds the key and stays sorted.
   */
  lemma InsertIsExact(t: Tree, k: Plain)
    requires Sorted(t)
    ensures Decides(Insert(t, k, None), t, k, Keys(t))
  {
    InsertBelow(t, k, None);
    assert Seen(t, None) == Keys(t);
  }
}
