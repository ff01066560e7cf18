/** `builtins.listToAttrs`, which sorts and compacts one array in place (src/libexpr/primops.cc). */
module ListToAttrs {
  import opened Basics

  type Value = nat

  /** A list element, once forced: its `name` or an error, and its `value` attribute if there is one. */
  datatype Elem = Elem(name: Result<Symbol, nat>, value: Option<Value>)

  /** A cell of the array: a name with the position of its list element, a finished attribute, or cleared. */
  datatype Cell = Ref(name: Symbol, idx: nat) | Bound(name: Symbol, value: Value) | Clear

  datatype Error = Thrown(err: nat) | NoValue(name: Symbol)

  /** The position is the first of its name in the list. */
  predicate IsFirst(list: seq<Elem>, i: nat) {
    && i < |list| && list[i].name.Success?
    && forall k :: 0 <= k < i ==> list[k].name != list[i].name
  }

  predicate AllNamed(list: seq<Elem>) { forall i :: 0 <= i < |list| ==> list[i].name.Success? }

  // ---------- sorting ----------

  predicate Less(a: Cell, b: Cell) {
    a.Ref? && b.Ref? && (a.name < b.name || (a.name == b.name && a.idx < b.idx))
  }

  predicate Sorted(s: seq<Cell>) { forall i, j :: 0 <= i < j < |s| ==> Less(s[i], s[j]) }

  function Insert(s: seq<Cell>, x: Cell): seq<Cell> {
    if s == [] then [x]
    else if Less(x, s[0]) then [x] + s
    else [s[0]] + Insert(s[1..], x)
  }

  /** `std::sort` by name and then by position in the list. */
  function Sort(s: seq<Cell>): seq<Cell> {
    if s == [] then [] else Insert(Sort(s[1..]), s[0])
  }

  lemma {:induction false} InsertFacts(s: seq<Cell>, x: Cell)
    requires Sorted(s) && x.Ref? && forall c :: c in s ==> c.Ref? && c.idx != x.idx
    ensures Sorted(Insert(s, x)) && |Insert(s, x)| == |s| + 1
    ensures forall c :: c in Insert(s, x) <==> c in s || c == x
  {
    if s != [] {
      var rest := s[1..];
      assert s == [s[0]] + rest;
      if Less(x, s[0]) {
        forall j | 0 <= j < |s| ensures Less(x, s[j]) {
          assert j > 0 ==> Less(s[0], s[j]);
        }
      } else {
        InsertFacts(rest, x);
        var ins := Insert(rest, x);
        assert s[0] in s;
        forall j | 0 <= j < |ins| ensures Less(s[0], ins[j]) {
          assert ins[j] in ins;
          if ins[j] != x {
            var k :| 0 <= k < |rest| && rest[k] == ins[j];
            assert Less(s[0], s[k + 1]);
          }
        }
      }
    }
  }

  predicate DistinctRefs(s: seq<Cell>) {
    && (forall i :: 0 <= i < |s| ==> s[i].Ref?)
    && forall i, j :: 0 <= i < j < |s| ==> s[i].idx != s[j].idx
  }

  lemma {:induction false} SortFacts(s: seq<Cell>)
    requires DistinctRefs(s)
    ensures Sorted(Sort(s)) && |Sort(s)| == |s|
    ensures forall c :: c in Sort(s) <==> c in s
  {
    if s != [] {
      var rest := s[1..];
      SortFacts(rest);
      assert s == [s[0]] + rest;
      forall c | c in Sort(rest) ensures c.Ref? && c.idx != s[0].idx {
        var k :| 0 <= k < |rest| && rest[k] == c;
        assert s[k + 1] == c;
      }
      InsertFacts(Sort(rest), s[0]);
    }
  }

  // ---------- the first of every run ----------

  /** The cells that start a run of equal names, after the name `prev`. */
  function Heads(s: seq<Cell>, prev: Option<Symbol>): (h: seq<Cell>)
    requires AllRefs(s)
    ensures AllRefs(h)
  {
    if s == [] then []
    else if prev == Some(s[0].name) then Heads(s[1..], prev)
    else [s[0]] + Heads(s[1..], Some(s[0].name))
  }

  predicate AllRefs(s: seq<Cell>) { forall i :: 0 <= i < |s| ==> s[i].Ref? }

  /** No earlier element of the same name. */
  predicate Oldest(s: seq<Cell>, c: Cell) {
    c in s && c.Ref? && forall d :: d in s && d.Ref? && d.name == c.name ==> c.idx <= d.idx
  }

  lemma OldestTail(s: seq<Cell>, c: Cell)
    requires Sorted(s) && AllRefs(s) && s != []
    ensures Oldest(s, c) <==> c == s[0] || (Oldest(s[1..], c) && c.name != s[0].name)
  {
    var x, rest := s[0], s[1..];
    assert s == [x] + rest;
    forall d | d in rest ensures Less(x, d) {
      var i :| 0 <= i < |rest| && rest[i] == d;
      assert Less(s[0], s[i + 1]);
    }
  }

  predicate StrictNames(s: seq<Cell>)
    requires AllRefs(s)
  {
    forall i, j :: 0 <= i < j < |s| ==> s[i].name < s[j].name
  }

  /** Names are not below the previous one. */
  predicate From(s: seq<Cell>, prev: Option<Symbol>)
    requires AllRefs(s)
  {
    prev.Some? ==> forall i :: 0 <= i < |s| ==> prev.value <= s[i].name
  }

  lemma TailFrom(s: seq<Cell>)
    requires Sorted(s) && AllRefs(s) && s != []
    ensures From(s[1..], Some(s[0].name))
  {
    forall i | 0 <= i < |s[1..]| ensures s[0].name <= s[1..][i].name { assert Less(s[0], s[i + 1]); }
  }

  /** In a sorted sequence these cells have strictly increasing names. */
  lemma {:induction false} HeadsIncrease(s: seq<Cell>, prev: Option<Symbol>)
    requires Sorted(s) && AllRefs(s) && From(s, prev)
    ensures StrictNames(Heads(s, prev))
    ensures prev.Some? ==> forall i :: 0 <= i < |Heads(s, prev)| ==> prev.value < Heads(s, prev)[i].name
  {
    if s != [] {
      TailFrom(s);
      HeadsIncrease(s[1..], Some(s[0].name));
    }
  }

  /** And they are the oldest of each name. */
  lemma {:induction false} HeadsAreOldest(s: seq<Cell>, prev: Option<Symbol>, c: Cell)
    requires Sorted(s) && AllRefs(s) && From(s, prev)
    ensures c in Heads(s, prev) <==> Oldest(s, c) && Some(c.name) != prev
  {
    if s != [] {
      TailFrom(s);
      HeadsAreOldest(s[1..], Some(s[0].name), c);
      OldestTail(s, c);
    }
  }

  // ---------- the primop ----------

  /** One cell per list element, in list order. */
  function Refs(list: seq<Elem>): (s: seq<Cell>)
    requires AllNamed(list)
    ensures |s| == |list| && forall i :: 0 <= i < |list| ==> s[i] == Ref(list[i].name.value, i)
  {
    seq(|list|, i requires 0 <= i < |list| => Ref(list[i].name.value, i))
  }

  /** The attribute that a cell becomes. */
  predicate Unpacked(list: seq<Elem>, ref: Cell, c: Cell) {
    ref.Ref? && ref.idx < |list| && list[ref.idx].value.Some? && c == Bound(ref.name, list[ref.idx].value.value)
  }

  /** The element a cell refers to has no `value` attribute. */
  predicate Lacking(list: seq<Elem>, ref: Cell) {
    ref.Ref? && ref.idx < |list| && list[ref.idx].value.None?
  }

  predicate InList(list: seq<Elem>, s: seq<Cell>) {
    forall i :: 0 <= i < |s| ==> s[i].Ref? && s[i].idx < |list|
  }

  /**
   * Step 2: unpack in place, skipping repeated names. The write index never
   * passes the read index, so no cell is overwritten before it is read.
   */
  method Compact(a: array<Cell>, list: seq<Elem>) returns (e: Option<Error>, size: nat)
    requires InList(list, a[..])
    modifies a
    ensures var heads := Heads(old(a[..]), None);
            && size <= |heads| && size <= a.Length
            && (forall k :: 0 <= k < size ==> Unpacked(list, heads[k], a[k]))
            && (e.None? ==> size == |heads|)
            && (e.Some? ==> size < |heads| && Lacking(list, heads[size]) && e.value == NoValue(heads[size].name))
  {
    ghost var s := a[..];
    ghost var heads := Heads(s, None);
    size := 0;
    var prev: Option<Symbol> := None;
    assert s[0..] == s;
    for n := 0 to a.Length
      invariant size <= n && size <= |heads| && a[n..] == s[n..]
      invariant heads[size..] == Heads(s[n..], prev)
      invariant forall k :: 0 <= k < size ==> Unpacked(list, heads[k], a[k])
    {
      var attr := a[n];
      assert attr == a[n..][0] == s[n];
      assert s[n..][1..] == s[n + 1..];
      if prev == Some(attr.name) { continue; }
      assert heads[size] == heads[size..][0] == attr && heads[size..][1..] == heads[size + 1..];
      var v2 := list[attr.idx];
      if v2.value.None? { return Some(NoValue(attr.name)), size; }
      prev := Some(attr.name);
      a[size] := Bound(attr.name, v2.value.value);
      size := size + 1;
    }
    return None, size;
  }

  /** The attribute comes from the first occurrence of its name. */
  ghost predicate FromFirst(list: seq<Elem>, c: Cell) {
    exists i: nat :: IsFirst(list, i) && Unpacked(list, Ref(list[i].name.value, i), c)
  }

  /** The attributes of the result: one per name, from its first occurrence. */
  ghost predicate IsResult(list: seq<Elem>, res: seq<Cell>) {
    && (forall k :: 0 <= k < |res| ==> res[k].Bound?)
    && (forall j, k :: 0 <= j < k < |res| ==> res[j].name < res[k].name)
    && (forall c :: c in res <==> FromFirst(list, c))
    && (forall i: nat :: IsFirst(list, i) ==> list[i].value.Some?)
  }

  /** The first attribute in name order whose first occurrence has no `value`. */
  ghost predicate IsCulprit(list: seq<Elem>, i: nat) {
    && IsFirst(list, i) && list[i].value.None?
    && forall j: nat :: IsFirst(list, j) && list[j].name.value < list[i].name.value ==> list[j].value.Some?
  }

  /** In the sorted cells the oldest of a name is the first occurrence in the list. */
  lemma OldestIsFirst(list: seq<Elem>, s: seq<Cell>, c: Cell)
    requires AllNamed(list) && forall d :: d in s <==> d in Refs(list)
    ensures Oldest(s, c) <==> c.Ref? && IsFirst(list, c.idx) && c == Ref(list[c.idx].name.value, c.idx)
  {
    var refs := Refs(list);
    if Oldest(s, c) {
      var i :| 0 <= i < |refs| && refs[i] == c;
      forall k | 0 <= k < i ensures list[k].name != list[i].name { assert refs[k] in s; }
    }
    if c.Ref? && IsFirst(list, c.idx) && c == Ref(list[c.idx].name.value, c.idx) {
      assert refs[c.idx] in s;
      forall d | d in s && d.Ref? && d.name == c.name ensures c.idx <= d.idx {
        var k :| 0 <= k < |refs| && refs[k] == d;
      }
    }
  }

  /** The cells that survive are exactly those of first occurrences. */
  ghost predicate AreFirsts(list: seq<Elem>, heads: seq<Cell>) {
    && AllRefs(heads) && StrictNames(heads)
    && forall c :: c in heads <==> c.Ref? && IsFirst(list, c.idx) && c == Ref(list[c.idx].name.value, c.idx)
  }

  lemma HeadsAreFirsts(list: seq<Elem>, s: seq<Cell>)
    requires AllNamed(list) && Sorted(s) && AllRefs(s) && (forall d :: d in s <==> d in Refs(list))
    ensures AreFirsts(list, Heads(s, None))
  {
    HeadsIncrease(s, None);
    var heads := Heads(s, None);
    forall c ensures c in heads <==> c.Ref? && IsFirst(list, c.idx) && c == Ref(list[c.idx].name.value, c.idx) {
      HeadsAreOldest(s, None, c);
      OldestIsFirst(list, s, c);
    }
  }

  /** Where the cell of a first occurrence ended up. */
  lemma FirstAt(list: seq<Elem>, heads: seq<Cell>, i: nat) returns (k: nat)
    requires AreFirsts(list, heads) && IsFirst(list, i)
    ensures k < |heads| && heads[k] == Ref(list[i].name.value, i)
  {
    var ref := Ref(list[i].name.value, i);
    assert ref in heads;
    k :| 0 <= k < |heads| && heads[k] == ref;
  }

  lemma ResultOk(list: seq<Elem>, heads: seq<Cell>, res: seq<Cell>)
    requires AreFirsts(list, heads) && |res| == |heads|
    requires forall k :: 0 <= k < |heads| ==> Unpacked(list, heads[k], res[k])
    ensures IsResult(list, res)
  {
    forall i: nat | IsFirst(list, i) ensures list[i].value.Some? {
      var k := FirstAt(list, heads, i);
      assert Unpacked(list, heads[k], res[k]);
    }
    forall c ensures c in res <==> FromFirst(list, c) {
      if c in res {
        var k :| 0 <= k < |res| && res[k] == c;
        assert heads[k] in heads && Unpacked(list, heads[k], c);
      }
      if FromFirst(list, c) {
        var i: nat :| IsFirst(list, i) && Unpacked(list, Ref(list[i].name.value, i), c);
        var k := FirstAt(list, heads, i);
        assert Unpacked(list, heads[k], res[k]);
      }
    }
  }

  lemma CulpritOk(list: seq<Elem>, heads: seq<Cell>, size: nat)
    requires AreFirsts(list, heads) && size < |heads| && Lacking(list, heads[size])
    requires forall k :: 0 <= k < size ==> heads[k].idx < |list| && list[heads[k].idx].value.Some?
    ensures IsCulprit(list, heads[size].idx) && list[heads[size].idx].name == Success(heads[size].name)
  {
    assert heads[size] in heads;
    forall j: nat | IsFirst(list, j) && list[j].name.value < heads[size].name ensures list[j].value.Some? {
      var k := FirstAt(list, heads, j);
    }
  }

  /** `prim_listToAttrs`. */
  method ListToAttrs(list: seq<Elem>) returns (r: Result<seq<Cell>, Error>)
    ensures r.Success? ==> AllNamed(list) && IsResult(list, r.value)
    ensures r.Failure? && r.error.Thrown? ==>
              exists i :: 0 <= i < |list| && AllNamed(list[..i]) && list[i].name == Failure(r.error.err)
    ensures r.Failure? && r.error.NoValue? ==>
              AllNamed(list) && exists i: nat :: IsCulprit(list, i) && list[i].name == Success(r.error.name)
  {
    var bindings := new Cell[|list|](_ => Clear);
    for n := 0 to |list|
      invariant AllNamed(list[..n])
      invariant forall k :: 0 <= k < n ==> bindings[k] == Ref(list[k].name.value, k)
    {
      var name := list[n].name;
      if name.Failure? { return Failure(Thrown(name.error)); }
      bindings[n] := Ref(name.value, n);
    }
    assert list[..|list|] == list;
    assert bindings[..] == Refs(list);
    SortFacts(Refs(list));
    var sorted := Sort(bindings[..]);
    SortedRefs(list, sorted);
    forall i | 0 <= i < |list| { bindings[i] := sorted[i]; }
    assert bindings[..] == sorted;
    var e, size := Compact(bindings, list);
    var res := bindings[..size];
    ghost var heads := Heads(sorted, None);
    HeadsAreFirsts(list, sorted);
    if e.Some? {
      CulpritOk(list, heads, size);
      return Failure(e.value);
    }
    ResultOk(list, heads, res);
    for n := size to |list|
      invariant bindings[..size] == res
    {
      bindings[n] := Clear;
    }
    return Success(res);
  }

  lemma SortedRefs(list: seq<Elem>, sorted: seq<Cell>)
    requires AllNamed(list) && Sorted(sorted) && forall c :: c in sorted <==> c in Refs(list)
    ensures InList(list, sorted) && AllRefs(sorted)
  {
    forall i | 0 <= i < |sorted| ensures sorted[i].Ref? && sorted[i].idx < |list| { assert sorted[i] in sorted; }
  }
}
