/** `builtins.genericClosure` (src/libexpr/primops.cc). */
module GenericClosure {
  import opened Basics
  import opened Ordering
  import opened KeyMap

  type Elem = nat

  /** Forcing an element yields its key or an error; calling the operator yields forced elements or an error. */
  datatype World = World(key: Elem -> Result<Plain, nat>, op: Elem -> Result<seq<Elem>, nat>)

  // ---------- the specification ----------

  /** The first element of every key, in order of first occurrence. */
  function FirstByKey(w: World, s: seq<Elem>): seq<Elem> {
    if s == [] then []
    else
      var init, e := s[..|s| - 1], s[|s| - 1];
      if HasKey(w, init, e) then FirstByKey(w, init) else FirstByKey(w, init) + [e]
  }

  /** Some element of the sequence has the key of `e`. */
  predicate HasKey(w: World, s: seq<Elem>, e: Elem) { exists i :: 0 <= i < |s| && w.key(s[i]) == w.key(e) }

  /** Everything the operator returns for the elements, in order. */
  function Outputs(w: World, s: seq<Elem>): seq<Elem> {
    if s == [] then []
    else
      var out := w.op(s[|s| - 1]);
      Outputs(w, s[..|s| - 1]) + (if out.Success? then out.value else [])
  }

  predicate DistinctKeys(w: World, s: seq<Elem>) {
    forall i, j :: 0 <= i < j < |s| ==> w.key(s[i]) != w.key(s[j])
  }

  lemma {:induction false} FirstByKeyFacts(w: World, s: seq<Elem>)
    ensures DistinctKeys(w, FirstByKey(w, s))
    ensures forall e :: HasKey(w, FirstByKey(w, s), e) <==> HasKey(w, s, e)
    ensures forall e :: e in FirstByKey(w, s) ==> e in s
    decreases |s|
  {
    if s != [] {
      var init, last := s[..|s| - 1], s[|s| - 1];
      FirstByKeyFacts(w, init);
      forall e ensures HasKey(w, FirstByKey(w, s), e) <==> HasKey(w, s, e) {
        KeyOfAppend(w, init, last, e);
        KeyOfAppend(w, FirstByKey(w, init), last, e);
        assert s == init + [last];
        if HasKey(w, init, last) && w.key(last) == w.key(e) {
          var i :| 0 <= i < |init| && w.key(init[i]) == w.key(last);
          assert HasKey(w, init, e);
        }
      }
      if !HasKey(w, init, last) {
        assert !HasKey(w, FirstByKey(w, init), last);
      }
    }
  }

  lemma KeyOfAppend(w: World, s: seq<Elem>, x: Elem, e: Elem)
    ensures HasKey(w, s + [x], e) <==> HasKey(w, s, e) || w.key(x) == w.key(e)
  {
    if HasKey(w, s, e) {
      var i :| 0 <= i < |s| && w.key(s[i]) == w.key(e);
      assert (s + [x])[i] == s[i];
    }
    assert (s + [x])[|s|] == x;
    if HasKey(w, s + [x], e) && w.key(x) != w.key(e) {
      var i :| 0 <= i < |s + [x]| && w.key((s + [x])[i]) == w.key(e);
      assert s[i] == (s + [x])[i];
    }
  }

  lemma OutputsAppend(w: World, s: seq<Elem>, e: Elem)
    requires w.op(e).Success?
    ensures Outputs(w, s + [e]) == Outputs(w, s) + w.op(e).value
  {
    assert (s + [e])[..|s|] == s;
  }

  lemma {:induction false} OutputsContain(w: World, s: seq<Elem>, i: nat)
    requires i < |s| && w.op(s[i]).Success?
    ensures forall o :: o in w.op(s[i]).value ==> o in Outputs(w, s)
    decreases |s|
  {
    if i < |s| - 1 { OutputsContain(w, s[..|s| - 1], i); }
  }

  /** An output comes from some element. */
  lemma {:induction false} OutputSource(w: World, s: seq<Elem>, o: Elem)
    requires o in Outputs(w, s)
    ensures exists j :: 0 <= j < |s| && w.op(s[j]).Success? && o in w.op(s[j]).value
    decreases |s|
  {
    var init, last := s[..|s| - 1], s[|s| - 1];
    if o in Outputs(w, init) {
      OutputSource(w, init, o);
      var j :| 0 <= j < |init| && w.op(init[j]).Success? && o in w.op(init[j]).value;
      assert s[j] == init[j];
    } else {
      assert s[|s| - 1] == last;
    }
  }

  /**
   * What the defining equation of the result implies: distinct keys, the start
   * keys are there, and the result is closed under the operator.
   */
  lemma ClosureFacts(w: World, start: seq<Elem>, res: seq<Elem>)
    requires res == FirstByKey(w, start + Outputs(w, res))
    requires forall i :: 0 <= i < |res| ==> w.op(res[i]).Success?
    ensures DistinctKeys(w, res)
    ensures forall e :: e in start ==> HasKey(w, res, e)
    ensures forall i, o :: 0 <= i < |res| && o in w.op(res[i]).value ==> HasKey(w, res, o)
  {
    var all := start + Outputs(w, res);
    FirstByKeyFacts(w, all);
    forall e | e in start ensures HasKey(w, res, e) {
      var i :| 0 <= i < |start| && start[i] == e;
      assert all[i] == e;
      assert HasKey(w, all, e);
    }
    forall i, o | 0 <= i < |res| && o in w.op(res[i]).value ensures HasKey(w, res, o) {
      OutputsContain(w, res, i);
      var k :| 0 <= k < |Outputs(w, res)| && Outputs(w, res)[k] == o;
      assert all[|start| + k] == o;
      assert HasKey(w, all, o);
    }
  }

  // ---------- the algorithm ----------

  /** A set of elements that contains the start set and is closed under the operator, with finitely many keys. */
  ghost predicate Universe(w: World, start: seq<Elem>, elems: iset<Elem>, keys: set<Plain>) {
    && (forall e :: e in start ==> e in elems)
    && (forall e, o :: e in elems && w.op(e).Success? && o in w.op(e).value ==> o in elems)
    && (forall e :: e in elems && w.key(e).Success? ==> w.key(e).value in keys)
  }

  /** The key of `e` can be compared with those of all elements. */
  ghost predicate Fits(w: World, s: seq<Elem>, e: Elem) {
    && w.key(e).Success?
    && forall i :: 0 <= i < |s| && w.key(s[i]).Success? ==> PLt(w.key(e).value, w.key(s[i]).value).Some?
  }

  /** What the first element that fails does, after the result elements `res`. */
  ghost predicate FailsWith(w: World, res: seq<Elem>, e: Elem, err: CmpError) {
    if w.key(e).Failure? then err == Thrown(w.key(e).error)
    else if !Fits(w, res, e) then err == Incomparable
    else !HasKey(w, res, e) && w.op(e).Failure? && err == Thrown(w.op(e).error)
  }

  /**
   * After `done` the work list holds an element whose key fails or cannot be
   * compared, or which has a new key and on which the operator fails; nothing
   * failed before it.
   */
  ghost predicate FailsAfter(w: World, start: seq<Elem>, done: seq<Elem>, err: CmpError) {
    var res := FirstByKey(w, done);
    var all := start + Outputs(w, res);
    && |done| < |all| && done == all[..|done|]
    && (forall i :: 0 <= i < |done| ==> w.key(done[i]).Success?)
    && (forall i :: 0 <= i < |res| ==> w.op(res[i]).Success?)
    && AllFit(w, res) && FailsWith(w, res, all[|done|], err)
  }

  /** The keys of all elements can be compared with each other. */
  ghost predicate AllFit(w: World, s: seq<Elem>) { forall i :: 0 <= i < |s| ==> Fits(w, s, s[i]) }

  ghost predicate LoopState(w: World, start: seq<Elem>, done: seq<Elem>, work: seq<Elem>,
                            res: seq<Elem>, keys: seq<Plain>) {
    && done + work == start + Outputs(w, res)
    && res == FirstByKey(w, done) && (forall i :: 0 <= i < |done| ==> w.key(done[i]).Success?)
    && |keys| == |res| && (forall i :: 0 <= i < |res| ==> w.key(res[i]) == Success(keys[i]))
    && (forall i :: 0 <= i < |res| ==> w.op(res[i]).Success?)
    && (forall i :: 0 <= i < |res| ==> FromEarlier(w, start, res, i))
  }

  /** Every result element is in the start set or was returned for an earlier one. */
  ghost predicate FromEarlier(w: World, start: seq<Elem>, res: seq<Elem>, i: nat)
    requires i < |res|
  {
    res[i] in start || exists j :: 0 <= j < i && w.op(res[j]).Success? && res[i] in w.op(res[j]).value
  }

  /** The map holds the keys of the result, which can be compared with each other. */
  ghost predicate MapOk(w: World, res: seq<Elem>, keys: seq<Plain>, keyToElem: Tree) {
    && Sorted(keyToElem) && (forall k :: k in Keys(keyToElem) <==> k in keys)
    && AllFit(w, res)
  }

  /** Comparing with the keys of the map is comparing with those of the result. */
  lemma ComparableFits(w: World, res: seq<Elem>, keys: seq<Plain>, keyToElem: Tree, e: Elem)
    requires |keys| == |res| && (forall i :: 0 <= i < |res| ==> w.key(res[i]) == Success(keys[i]))
    requires w.key(e).Success? && forall k :: k in Keys(keyToElem) <==> k in keys
    ensures Comparable(w.key(e).value, Keys(keyToElem)) <==> Fits(w, res, e)
  {
    var k := w.key(e).value;
    if Comparable(k, Keys(keyToElem)) {
      forall i | 0 <= i < |res| ensures PLt(k, w.key(res[i]).value).Some? { assert keys[i] in keys; }
    }
    if Fits(w, res, e) {
      forall y | y in Keys(keyToElem) ensures PLt(k, y).Some? {
        var i :| 0 <= i < |keys| && keys[i] == y;
        assert w.key(res[i]) == Success(y);
      }
    }
  }

  lemma AddToMap(w: World, res: seq<Elem>, e: Elem)
    requires AllFit(w, res) && Fits(w, res, e)
    ensures AllFit(w, res + [e])
  {
    var s := res + [e];
    var k := w.key(e).value;
    PlainTrichotomy(k, k);
    forall i, j | 0 <= i < |s| && 0 <= j < |s| && w.key(s[j]).Success?
      ensures w.key(s[i]).Success? && PLt(w.key(s[i]).value, w.key(s[j]).value).Some?
    {
      if i < |res| { assert Fits(w, res, res[i]); PlainTrichotomy(k, w.key(res[i]).value); }
    }
  }

  /** The head of the work list comes right after what is done. */
  lemma NextElement(w: World, start: seq<Elem>, done: seq<Elem>, work: seq<Elem>, res: seq<Elem>, keys: seq<Plain>)
    requires LoopState(w, start, done, work, res, keys) && work != []
    ensures var all := start + Outputs(w, res); |done| < |all| && done == all[..|done|] && all[|done|] == work[0]
    ensures w.key(work[0]).Success? && w.key(work[0]).value !in keys ==> !HasKey(w, res, work[0])
  {
    var all := start + Outputs(w, res);
    assert all == done + work;
  }

  lemma SkipStep(w: World, start: seq<Elem>, done: seq<Elem>, work: seq<Elem>, res: seq<Elem>, keys: seq<Plain>,
                 k: Plain)
    requires LoopState(w, start, done, work, res, keys) && work != []
    requires w.key(work[0]) == Success(k) && k in keys
    ensures LoopState(w, start, done + [work[0]], work[1..], res, keys)
  {
    var e := work[0];
    assert done + [e] + work[1..] == done + work;
    FirstByKeyFacts(w, done);
    var i :| 0 <= i < |keys| && keys[i] == k;
    assert HasKey(w, res, e);
    assert (done + [e])[..|done|] == done;
  }

  lemma AddStep(w: World, start: seq<Elem>, done: seq<Elem>, work: seq<Elem>, res: seq<Elem>, keys: seq<Plain>,
                k: Plain)
    requires LoopState(w, start, done, work, res, keys) && work != []
    requires w.key(work[0]) == Success(k) && k !in keys && w.op(work[0]).Success?
    ensures LoopState(w, start, done + [work[0]], work[1..] + w.op(work[0]).value, res + [work[0]], keys + [k])
  {
    var e := work[0];
    OutputsAppend(w, res, e);
    assert done + [e] + (work[1..] + w.op(e).value) == (done + work) + w.op(e).value;
    assert !HasKey(w, res, e);
    FirstByKeyNew(w, done, e);
    NewFromEarlier(w, start, done, work, res);
  }

  lemma FirstByKeyNew(w: World, done: seq<Elem>, e: Elem)
    requires !HasKey(w, FirstByKey(w, done), e)
    ensures FirstByKey(w, done + [e]) == FirstByKey(w, done) + [e]
  {
    FirstByKeyFacts(w, done);
    assert (done + [e])[..|done|] == done;
  }

  lemma NewFromEarlier(w: World, start: seq<Elem>, done: seq<Elem>, work: seq<Elem>, res: seq<Elem>)
    requires done + work == start + Outputs(w, res) && work != []
    requires forall i :: 0 <= i < |res| ==> FromEarlier(w, start, res, i)
    ensures forall i :: 0 <= i < |res| + 1 ==> FromEarlier(w, start, res + [work[0]], i)
  {
    var e := work[0];
    var res' := res + [e];
    assert (start + Outputs(w, res))[|done|] == e;
    if e !in start {
      OutputSource(w, res, e);
      var j :| 0 <= j < |res| && w.op(res[j]).Success? && e in w.op(res[j]).value;
      assert res'[j] == res[j];
    }
    forall i | 0 <= i < |res| ensures FromEarlier(w, start, res', i) {
      assert FromEarlier(w, start, res, i);
      if res[i] !in start {
        var j :| 0 <= j < i && w.op(res[j]).Success? && res[i] in w.op(res[j]).value;
        assert res'[j] == res[j];
      }
    }
  }

  /**
   * The result is the fixed point "first element of every key among the start
   * set followed by the outputs of the result": breadth-first, first-seen
   * order, with one call of the operator per result element. There is none if
   * and only if some element on the way fails.
   */
  method Closure(w: World, start: seq<Elem>, ghost elems: iset<Elem>, ghost universe: set<Plain>)
    returns (r: Result<seq<Elem>, CmpError>, calls: seq<Elem>, ghost done: seq<Elem>)
    requires Universe(w, start, elems, universe)
    ensures r.Success? ==> r.value == FirstByKey(w, start + Outputs(w, r.value)) && AllFit(w, r.value)
    ensures r.Success? ==>
              forall i :: 0 <= i < |r.value| ==> w.op(r.value[i]).Success? && FromEarlier(w, start, r.value, i)
    ensures r.Success? ==> calls == r.value
    ensures r.Failure? ==> FailsAfter(w, start, done, r.error)
  {
    calls, done := [], [];
    var workSet, res, keyToElem := start, [], Empty;
    ghost var keys: seq<Plain> := [];
    while workSet != []
      invariant LoopState(w, start, done, workSet, res, keys) && MapOk(w, res, keys, keyToElem) && calls == res
      invariant forall e :: e in workSet ==> e in elems
      invariant forall k :: k in keys ==> k in universe
      decreases universe - (set k | k in keys), |workSet|
    {
      var e := workSet[0];
      NextElement(w, start, done, workSet, res, keys);
      var key := w.key(e);
      if key.Failure? { return Failure(Thrown(key.error)), calls, done; }
      var inserted := Insert(keyToElem, key.value, None);
      InsertIsExact(keyToElem, key.value);
      ComparableFits(w, res, keys, keyToElem, e);
      if inserted.Throws? { return Failure(Incomparable), calls, done; }
      if inserted.There? {
        SkipStep(w, start, done, workSet, res, keys, key.value);
        done, workSet := done + [e], workSet[1..];
        continue;
      }
      var out := w.op(e);
      calls := calls + [e];
      if out.Failure? { return Failure(Thrown(out.error)), calls, done; }
      AddStep(w, start, done, workSet, res, keys, key.value);
      AddToMap(w, res, e);
      assert key.value in universe - (set k | k in keys);
      done, workSet := done + [e], workSet[1..] + out.value;
      res, keys, keyToElem := res + [e], keys + [key.value], inserted.t;
    }
    assert done + workSet == done;
    return Success(res), calls, done;
  }

  // ---------- the order of the work list ----------

  /** Where the outputs of the element `i` begin among all outputs. */
  function Offset(w: World, s: seq<Elem>, i: nat): nat
    requires i <= |s|
  {
    if i == 0 then 0
    else Offset(w, s, i - 1) + (if w.op(s[i - 1]).Success? then |w.op(s[i - 1]).value| else 0)
  }

  lemma {:induction false} OutputsLength(w: World, s: seq<Elem>, i: nat)
    requires i <= |s|
    ensures |Outputs(w, s[..i])| == Offset(w, s, i)
  {
    if i > 0 {
      OutputsLength(w, s, i - 1);
      assert s[..i][..i - 1] == s[..i - 1];
    }
  }

  /** Outputs are queued source by source, and for one source in the order the operator returned them. */
  lemma {:induction false} OutputsInOrder(w: World, s: seq<Elem>, i: nat, j: nat)
    requires i < |s| && w.op(s[i]).Success? && j < |w.op(s[i]).value|
    ensures Offset(w, s, i) + j < |Outputs(w, s)| && Outputs(w, s)[Offset(w, s, i) + j] == w.op(s[i]).value[j]
    decreases |s|
  {
    var init := s[..|s| - 1];
    OutputsLength(w, s, |s| - 1);
    if i < |s| - 1 {
      OutputsInOrder(w, init, i, j);
      OffsetPrefix(w, s, i);
    }
  }

  lemma {:induction false} OffsetPrefix(w: World, s: seq<Elem>, i: nat)
    requires i < |s|
    ensures Offset(w, s[..|s| - 1], i) == Offset(w, s, i)
  {
    if i > 0 { OffsetPrefix(w, s, i - 1); }
  }

  /** No earlier element has the key. */
  ghost predicate FirstAt(w: World, s: seq<Elem>, i: nat) {
    i < |s| && forall j :: 0 <= j < i ==> w.key(s[j]) != w.key(s[i])
  }

  /** The first occurrences of keys, at these positions, in order. */
  ghost predicate AtFirsts(w: World, s: seq<Elem>, firsts: seq<Elem>, at: seq<nat>) {
    && |at| == |firsts| && (forall k :: 0 <= k < |at| ==> FirstAt(w, s, at[k]) && s[at[k]] == firsts[k])
    && (forall k, l :: 0 <= k < l < |at| ==> at[k] < at[l])
  }

  lemma AtFirstsGrow(w: World, init: seq<Elem>, e: Elem, firsts: seq<Elem>, at: seq<nat>)
    requires AtFirsts(w, init, firsts, at)
    ensures AtFirsts(w, init + [e], firsts, at)
  {
    forall k | 0 <= k < |at| ensures FirstAt(w, init + [e], at[k]) && (init + [e])[at[k]] == firsts[k] {
      assert FirstAt(w, init, at[k]);
    }
  }

  lemma AtFirstsAdd(w: World, init: seq<Elem>, e: Elem, firsts: seq<Elem>, at: seq<nat>)
    requires AtFirsts(w, init, firsts, at) && !HasKey(w, init, e)
    ensures AtFirsts(w, init + [e], firsts + [e], at + [|init|])
  {
    AtFirstsGrow(w, init, e, firsts, at);
    var at', s := at + [|init|], init + [e];
    assert FirstAt(w, s, |init|);
    forall k | 0 <= k < |at| ensures at'[k] == at[k] < |init| { assert FirstAt(w, init, at[k]); }
  }

  /** What is kept are the first occurrences, in their order. */
  lemma {:induction false} FirstByKeyRule(w: World, s: seq<Elem>) returns (at: seq<nat>)
    ensures AtFirsts(w, s, FirstByKey(w, s), at)
    decreases |s|
  {
    if s == [] {
      at := [];
    } else {
      var init, e := s[..|s| - 1], s[|s| - 1];
      at := FirstByKeyRule(w, init);
      assert s == init + [e];
      if HasKey(w, init, e) {
        AtFirstsGrow(w, init, e, FirstByKey(w, init), at);
      } else {
        AtFirstsAdd(w, init, e, FirstByKey(w, init), at);
        at := at + [|init|];
      }
    }
  }
}
