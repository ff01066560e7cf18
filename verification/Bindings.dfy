/**
 * Attribute sets as sorted arrays in layers, and the `//` operator
 * (src/libexpr/eval.cc, src/libexpr/include/nix/expr/attr-set.hh).
 */
module Bindings {
  import opened Basics

  type Value = nat

  datatype Attr = Attr(name: Symbol, value: Value)

  /** `Bindings`: own attributes on top of an optional base layer. */
  datatype Bindings = Bindings(attrs: seq<Attr>, base: Option<Bindings>, numLayers: nat, size: nat)

  predicate Sorted(s: seq<Attr>) { forall i, j :: 0 <= i < j < |s| ==> s[i].name < s[j].name }

  /** A sorted sequence of attributes as a map. */
  function ToMap(s: seq<Attr>): map<Symbol, Value> {
    if s == [] then map[] else ToMap(s[1..])[s[0].name := s[0].value]
  }

  /** What an attribute set denotes: the upper layers win. */
  function AsMap(b: Bindings): map<Symbol, Value>
    decreases b
  {
    match b.base
    case None => ToMap(b.attrs)
    case Some(base) => AsMap(base) + ToMap(b.attrs)
  }

  /** Sorted layers, no more than the limit, and an exact size. */
  ghost predicate Valid(b: Bindings, maxLayers: nat)
    decreases b
  {
    && Sorted(b.attrs) && b.numLayers <= maxLayers && b.size == |AsMap(b)|
    && match b.base
       case None => b.numLayers == 1
       case Some(base) => Valid(base, maxLayers) && b.numLayers == base.numLayers + 1
  }

  const EMPTY_BINDINGS := Bindings([], None, 1, 0)

  // ---------- sequences as maps ----------

  lemma {:induction false} ToMapKeys(s: seq<Attr>)
    ensures forall n :: n in ToMap(s) <==> exists i :: 0 <= i < |s| && s[i].name == n
  {
    if s != [] {
      var tail := s[1..];
      ToMapKeys(tail);
      forall n ensures n in ToMap(s) <==> exists i :: 0 <= i < |s| && s[i].name == n {
        if i :| 0 <= i < |s| && s[i].name == n {
          if i > 0 { assert tail[i - 1].name == n; }
        }
        if n in ToMap(s) && n != s[0].name {
          assert n in ToMap(tail);
          var i :| 0 <= i < |tail| && tail[i].name == n;
          assert s[i + 1].name == n;
        }
      }
    }
  }

  /** In a sorted sequence every attribute is what the map holds. */
  lemma {:induction false} ToMapAt(s: seq<Attr>, i: nat)
    requires Sorted(s) && i < |s|
    ensures s[i].name in ToMap(s) && ToMap(s)[s[i].name] == s[i].value
  {
    if i > 0 {
      ToMapAt(s[1..], i - 1);
      assert s[0].name < s[i].name;
    }
  }

  predicate Above(s: seq<Attr>, name: Symbol) { forall k :: 0 <= k < |s| ==> name < s[k].name }

  lemma AboveNotIn(s: seq<Attr>, name: Symbol)
    requires Above(s, name)
    ensures name !in ToMap(s)
  {
    ToMapKeys(s);
  }

  lemma {:induction false} ToMapSize(s: seq<Attr>)
    requires Sorted(s)
    ensures |ToMap(s)| == |s|
  {
    if s != [] {
      var tail := s[1..];
      ToMapSize(tail);
      AboveNotIn(tail, s[0].name);
      assert ToMap(s).Keys == ToMap(tail).Keys + {s[0].name};
      assert |ToMap(s)| == |ToMap(s).Keys| && |ToMap(tail)| == |ToMap(tail).Keys|;
    }
  }

  // ---------- lookup ----------

  method GetInChunk(s: seq<Attr>, name: Symbol) returns (r: Option<Value>)
    requires Sorted(s)
    ensures r == if name in ToMap(s) then Some(ToMap(s)[name]) else None
  {
    ToMapKeys(s);
    var lo := LowerBound(s, (a: Attr) => a.name, name);
    if lo < |s| && s[lo].name == name {
      ToMapAt(s, lo);
      return Some(s[lo].value);
    }
    return None;
  }

  /** `Bindings::get`: the layers from the top. */
  method Get(b: Bindings, name: Symbol, ghost maxLayers: nat) returns (r: Option<Value>)
    requires Valid(b, maxLayers)
    ensures r == if name in AsMap(b) then Some(AsMap(b)[name]) else None
    decreases b
  {
    r := GetInChunk(b.attrs, name);
    if r.None? && b.base.Some? {
      r := Get(b.base.value, name, maxLayers);
    }
  }

  // ---------- the sorted merge of `ExprOpUpdate::eval` ----------

  function Merge(a: seq<Attr>, b: seq<Attr>): seq<Attr>
    decreases |a| + |b|
  {
    if a == [] then b
    else if b == [] then a
    else if a[0].name == b[0].name then [b[0]] + Merge(a[1..], b[1..])
    else if a[0].name < b[0].name then [a[0]] + Merge(a[1..], b)
    else [b[0]] + Merge(a, b[1..])
  }

  lemma ConsSorted(x: Attr, s: seq<Attr>)
    requires Sorted(s) && Above(s, x.name)
    ensures Sorted([x] + s)
  {
  }

  lemma ConsMap(x: Attr, s: seq<Attr>)
    ensures ToMap([x] + s) == ToMap(s)[x.name := x.value]
  {
    assert ([x] + s)[1..] == s;
  }

  lemma {:induction false} MergeAbove(a: seq<Attr>, b: seq<Attr>, name: Symbol)
    requires Above(a, name) && Above(b, name)
    ensures Above(Merge(a, b), name)
    decreases |a| + |b|
  {
    if a != [] && b != [] {
      if a[0].name == b[0].name { MergeAbove(a[1..], b[1..], name); }
      else if a[0].name < b[0].name { MergeAbove(a[1..], b, name); }
      else { MergeAbove(a, b[1..], name); }
    }
  }

  /** The merge of two sorted sequences has strictly increasing names. */
  lemma {:induction false} MergeSortedness(a: seq<Attr>, b: seq<Attr>)
    requires Sorted(a) && Sorted(b)
    ensures Sorted(Merge(a, b))
    decreases |a| + |b|
  {
    if a != [] && b != [] {
      if a[0].name == b[0].name {
        MergeSortedness(a[1..], b[1..]);
        MergeAbove(a[1..], b[1..], b[0].name);
        ConsSorted(b[0], Merge(a[1..], b[1..]));
      } else if a[0].name < b[0].name {
        MergeSortedness(a[1..], b);
        MergeAbove(a[1..], b, a[0].name);
        ConsSorted(a[0], Merge(a[1..], b));
      } else {
        MergeSortedness(a, b[1..]);
        MergeAbove(a, b[1..], b[0].name);
        ConsSorted(b[0], Merge(a, b[1..]));
      }
    }
  }

  lemma UpdateRight(m: map<Symbol, Value>, m': map<Symbol, Value>, n: Symbol, v: Value)
    ensures (m + m')[n := v] == m + m'[n := v]
  {
  }

  lemma UpdateLeft(m: map<Symbol, Value>, m': map<Symbol, Value>, n: Symbol, v: Value)
    requires n !in m'
    ensures (m + m')[n := v] == m[n := v] + m'
  {
  }

  /** The merge denotes the right-biased union. */
  lemma {:induction false} MergeMap(a: seq<Attr>, b: seq<Attr>)
    requires Sorted(a) && Sorted(b)
    ensures ToMap(Merge(a, b)) == ToMap(a) + ToMap(b)
    decreases |a| + |b|
  {
    if a != [] && b != [] {
      if a[0].name == b[0].name {
        MergeMap(a[1..], b[1..]);
        ConsMap(b[0], Merge(a[1..], b[1..]));
        assert ToMap(a) + ToMap(b) == (ToMap(a[1..]) + ToMap(b[1..]))[b[0].name := b[0].value];
      } else if a[0].name < b[0].name {
        MergeMap(a[1..], b);
        ConsMap(a[0], Merge(a[1..], b));
        AboveNotIn(b, a[0].name);
        UpdateLeft(ToMap(a[1..]), ToMap(b), a[0].name, a[0].value);
      } else {
        MergeMap(a, b[1..]);
        ConsMap(b[0], Merge(a, b[1..]));
        UpdateRight(ToMap(a), ToMap(b[1..]), b[0].name, b[0].value);
      }
    }
  }

  lemma MergeUnfold(a: seq<Attr>, b: seq<Attr>, i: nat, j: nat)
    requires i < |a| && j < |b|
    ensures Merge(a[i..], b[j..])
            == if a[i].name == b[j].name then [b[j]] + Merge(a[i + 1..], b[j + 1..])
               else if a[i].name < b[j].name then [a[i]] + Merge(a[i + 1..], b[j..])
               else [b[j]] + Merge(a[i..], b[j + 1..])
  {
    assert a[i..][1..] == a[i + 1..] && b[j..][1..] == b[j + 1..];
  }

  /** One round of the loop. */
  lemma MergeStep(out: seq<Attr>, a: seq<Attr>, b: seq<Attr>, i: nat, j: nat)
    requires i < |a| && j < |b|
    ensures a[i].name == b[j].name ==>
              out + Merge(a[i..], b[j..]) == (out + [b[j]]) + Merge(a[i + 1..], b[j + 1..])
    ensures a[i].name < b[j].name ==>
              out + Merge(a[i..], b[j..]) == (out + [a[i]]) + Merge(a[i + 1..], b[j..])
    ensures b[j].name < a[i].name ==>
              out + Merge(a[i..], b[j..]) == (out + [b[j]]) + Merge(a[i..], b[j + 1..])
  {
    MergeUnfold(a, b, i, j);
  }

  /** The loops of `ExprOpUpdate::eval`. */
  method MergeSorted(a: seq<Attr>, b: seq<Attr>) returns (out: seq<Attr>)
    ensures out == Merge(a, b)
  {
    out := [];
    var i, j := 0, 0;
    assert a[0..] == a && b[0..] == b;
    while i < |a| && j < |b|
      invariant 0 <= i <= |a| && 0 <= j <= |b|
      invariant out + Merge(a[i..], b[j..]) == Merge(a, b)
    {
      MergeStep(out, a, b, i, j);
      if a[i].name == b[j].name {
        out := out + [b[j]];
        i, j := i + 1, j + 1;
      } else if a[i].name < b[j].name {
        out := out + [a[i]];
        i := i + 1;
      } else {
        out := out + [b[j]];
        j := j + 1;
      }
    }
    out := CopyRest(out, a, i);
    out := CopyRest(out, b, j);
  }

  /** The loops that copy what is left of one operand. */
  method CopyRest(out: seq<Attr>, s: seq<Attr>, start: nat) returns (out': seq<Attr>)
    requires start <= |s|
    ensures out' == out + s[start..]
  {
    out' := out;
    for i := start to |s|
      invariant out' == out + s[start..i]
    {
      assert s[start..i + 1] == s[start..i] + [s[i]];
      out' := out' + [s[i]];
    }
    assert s[start..|s|] == s[start..];
  }

  // ---------- iteration: the k-way merge over the layers ----------

  function Layers(b: Bindings): seq<seq<Attr>>
    decreases b
  {
    match b.base
    case None => [b.attrs]
    case Some(base) => [b.attrs] + Layers(base)
  }

  /** The value of a name in the first layer that has it. */
  function FirstIn(layers: seq<seq<Attr>>, n: Symbol): Option<Value> {
    if layers == [] then None
    else if n in ToMap(layers[0]) then Some(ToMap(layers[0])[n])
    else FirstIn(layers[1..], n)
  }

  lemma {:induction false} FirstInIsLookup(b: Bindings, n: Symbol)
    ensures FirstIn(Layers(b), n) == if n in AsMap(b) then Some(AsMap(b)[n]) else None
    decreases b
  {
    if b.base.Some? {
      FirstInIsLookup(b.base.value, n);
      assert Layers(b)[1..] == Layers(b.base.value);
    } else {
      assert FirstIn(Layers(b)[1..], n) == None;
    }
  }

  lemma {:induction false} FirstInAt(layers: seq<seq<Attr>>, k: nat, n: Symbol)
    requires k < |layers| && n in ToMap(layers[k])
    requires forall j :: 0 <= j < k ==> n !in ToMap(layers[j])
    ensures FirstIn(layers, n) == Some(ToMap(layers[k])[n])
  {
    if k > 0 { FirstInAt(layers[1..], k - 1, n); }
  }

  lemma {:induction false} FirstInSome(layers: seq<seq<Attr>>, n: Symbol)
    requires FirstIn(layers, n).Some?
    ensures exists k :: 0 <= k < |layers| && n in ToMap(layers[k])
  {
    if n !in ToMap(layers[0]) {
      FirstInSome(layers[1..], n);
      var k :| 0 <= k < |layers[1..]| && n in ToMap(layers[1..][k]);
      assert n in ToMap(layers[k + 1]);
    }
  }

  predicate SortedLayers(layers: seq<seq<Attr>>) { forall k :: 0 <= k < |layers| ==> Sorted(layers[k]) }

  lemma {:induction false} LayersSorted(b: Bindings, maxLayers: nat)
    requires Valid(b, maxLayers)
    ensures SortedLayers(Layers(b)) && |Layers(b)| == b.numLayers
    decreases b
  {
    if b.base.Some? { LayersSorted(b.base.value, maxLayers); }
  }

  predicate Positions(layers: seq<seq<Attr>>, pos: seq<nat>) {
    |pos| == |layers| && forall k :: 0 <= k < |layers| ==> pos[k] <= |layers[k]|
  }

  /** The cursor on top of the heap: the least name, and among equal names the uppermost layer. */
  ghost predicate IsTop(layers: seq<seq<Attr>>, pos: seq<nat>, top: Option<nat>)
    requires Positions(layers, pos)
  {
    match top
    case None => forall k :: 0 <= k < |layers| ==> pos[k] == |layers[k]|
    case Some(t) =>
      && t < |layers| && pos[t] < |layers[t]|
      && forall k :: 0 <= k < |layers| && pos[k] < |layers[k]| ==>
           || layers[t][pos[t]].name < layers[k][pos[k]].name
           || (layers[t][pos[t]].name == layers[k][pos[k]].name && t <= k)
  }

  method HeapTop(layers: seq<seq<Attr>>, pos: seq<nat>) returns (top: Option<nat>)
    requires Positions(layers, pos)
    ensures IsTop(layers, pos, top)
  {
    top := None;
    for k := 0 to |layers|
      invariant top.Some? ==> top.value < k && pos[top.value] < |layers[top.value]|
      invariant top.None? ==> forall j :: 0 <= j < k ==> pos[j] == |layers[j]|
      invariant top.Some? ==> forall j :: 0 <= j < k && pos[j] < |layers[j]| ==>
                  layers[top.value][pos[top.value]].name < layers[j][pos[j]].name
                  || (layers[top.value][pos[top.value]].name == layers[j][pos[j]].name && top.value <= j)
    {
      if pos[k] < |layers[k]| {
        if top.None? || layers[k][pos[k]].name < layers[top.value][pos[top.value]].name { top := Some(k); }
      }
    }
  }

  /** `last` bounds what was consumed from above and what is left from below. */
  ghost predicate Consumed(layers: seq<seq<Attr>>, pos: seq<nat>, out: seq<Attr>, last: Symbol)
    requires Positions(layers, pos)
  {
    && (forall k, i {:trigger layers[k][i]} :: 0 <= k < |layers| && 0 <= i < pos[k] ==>
          layers[k][i].name <= last && exists j :: 0 <= j < |out| && out[j].name == layers[k][i].name)
    && (forall k, i {:trigger layers[k][i]} :: 0 <= k < |layers| && pos[k] <= i < |layers[k]| ==>
          last <= layers[k][i].name)
  }

  /** What was produced is sorted and takes every value from the first layer that has the name. */
  ghost predicate Produced(layers: seq<seq<Attr>>, out: seq<Attr>) {
    Sorted(out) && forall j :: 0 <= j < |out| ==> FirstIn(layers, out[j].name) == Some(out[j].value)
  }

  /** The attribute on top of the heap comes from the first layer that has its name. */
  lemma TopIsFirst(layers: seq<seq<Attr>>, pos: seq<nat>, t: nat)
    requires SortedLayers(layers) && Positions(layers, pos) && IsTop(layers, pos, Some(t))
    requires forall k, i {:trigger layers[k][i]} :: 0 <= k < |layers| && 0 <= i < pos[k] ==>
               layers[k][i].name < layers[t][pos[t]].name
    ensures FirstIn(layers, layers[t][pos[t]].name) == Some(layers[t][pos[t]].value)
  {
    var a := layers[t][pos[t]];
    ToMapAt(layers[t], pos[t]);
    forall j | 0 <= j < t ensures a.name !in ToMap(layers[j]) {
      ToMapKeys(layers[j]);
      forall i | 0 <= i < |layers[j]| ensures layers[j][i].name != a.name {
        if i >= pos[j] {
          assert a.name < layers[j][pos[j]].name;
          assert i > pos[j] ==> layers[j][pos[j]].name < layers[j][i].name;
        }
      }
    }
    FirstInAt(layers, t, a.name);
  }

  /** Everything consumed was produced, and nothing is consumed before the first attribute. */
  ghost predicate Progress(layers: seq<seq<Attr>>, pos: seq<nat>, out: seq<Attr>)
    requires Positions(layers, pos)
  {
    && Produced(layers, out)
    && (out == [] ==> forall k :: 0 <= k < |layers| ==> pos[k] == 0)
    && (out != [] ==> Consumed(layers, pos, out, out[|out| - 1].name))
  }

  /** The top of the heap is past the last attribute produced. */
  predicate Ahead(layers: seq<seq<Attr>>, pos: seq<nat>, out: seq<Attr>, top: Option<nat>)
    requires Positions(layers, pos) && IsTop(layers, pos, top)
  {
    out != [] && top.Some? ==> out[|out| - 1].name < layers[top.value][pos[top.value]].name
  }

  lemma EmitProduced(layers: seq<seq<Attr>>, pos: seq<nat>, out: seq<Attr>, t: nat)
    requires SortedLayers(layers) && Positions(layers, pos) && IsTop(layers, pos, Some(t))
    requires Progress(layers, pos, out) && Ahead(layers, pos, out, Some(t))
    ensures Produced(layers, out + [layers[t][pos[t]]])
  {
    TopIsFirst(layers, pos, t);
  }

  lemma EmitConsumed(layers: seq<seq<Attr>>, pos: seq<nat>, out: seq<Attr>, t: nat)
    requires SortedLayers(layers) && Positions(layers, pos) && IsTop(layers, pos, Some(t))
    requires Progress(layers, pos, out) && Ahead(layers, pos, out, Some(t))
    ensures Positions(layers, pos[t := pos[t] + 1])
    ensures Consumed(layers, pos[t := pos[t] + 1], out + [layers[t][pos[t]]], layers[t][pos[t]].name)
  {
    var a := layers[t][pos[t]];
    var pos', out' := pos[t := pos[t] + 1], out + [a];
    assert out'[|out|] == a;
    forall k, i {:trigger layers[k][i]} | 0 <= k < |layers| && 0 <= i < pos'[k]
      ensures layers[k][i].name <= a.name && exists j :: 0 <= j < |out'| && out'[j].name == layers[k][i].name
    {
      if i < pos[k] {
        var j :| 0 <= j < |out| && out[j].name == layers[k][i].name;
        assert out'[j].name == layers[k][i].name;
      }
    }
    forall k, i {:trigger layers[k][i]} | 0 <= k < |layers| && pos'[k] <= i < |layers[k]|
      ensures a.name <= layers[k][i].name
    {
      assert Sorted(layers[k]);
      assert a.name <= layers[k][pos[k]].name;
      assert i > pos[k] ==> layers[k][pos[k]].name < layers[k][i].name;
    }
  }

  /** `BindingsCursor::consume`. */
  method Consume(layer: seq<Attr>, p: nat, name: Symbol) returns (p': nat)
    requires p < |layer| && layer[p].name <= name
    ensures p < p' <= |layer|
    ensures forall i :: p <= i < p' ==> layer[i].name <= name
  {
    p' := p;
    while p' < |layer| && layer[p'].name <= name
      invariant p <= p' <= |layer| && (p' == p ==> layer[p].name <= name)
      invariant forall i :: p <= i < p' ==> layer[i].name <= name
    {
      p' := p' + 1;
    }
  }

  /** How many attributes are left in all cursors. */
  function Left(layers: seq<seq<Attr>>, pos: seq<nat>): nat
    requires Positions(layers, pos)
  {
    if layers == [] then 0 else |layers[0]| - pos[0] + Left(layers[1..], pos[1..])
  }

  lemma {:induction false} LeftShrinks(layers: seq<seq<Attr>>, pos: seq<nat>, k: nat, p: nat)
    requires Positions(layers, pos) && k < |layers| && pos[k] < p <= |layers[k]|
    ensures Left(layers, pos[k := p]) < Left(layers, pos)
  {
    if k > 0 {
      LeftShrinks(layers[1..], pos[1..], k - 1, p);
      assert pos[k := p][1..] == pos[1..][k - 1 := p];
    } else {
      assert pos[k := p][1..] == pos[1..];
    }
  }

  /** `consumeAllUntilCurrentName`. */
  method ConsumeAll(layers: seq<seq<Attr>>, pos: seq<nat>, ghost out: seq<Attr>, name: Symbol)
    returns (pos': seq<nat>, top: Option<nat>)
    requires Positions(layers, pos) && Consumed(layers, pos, out, name)
    requires exists j :: 0 <= j < |out| && out[j].name == name
    ensures Positions(layers, pos') && Consumed(layers, pos', out, name) && IsTop(layers, pos', top)
    ensures top.Some? ==> name < layers[top.value][pos'[top.value]].name
    ensures Left(layers, pos') <= Left(layers, pos)
  {
    pos' := pos;
    top := HeapTop(layers, pos');
    while top.Some? && layers[top.value][pos'[top.value]].name <= name
      invariant Positions(layers, pos') && Consumed(layers, pos', out, name) && IsTop(layers, pos', top)
      invariant Left(layers, pos') <= Left(layers, pos)
      decreases Left(layers, pos')
    {
      var p := Consume(layers[top.value], pos'[top.value], name);
      LeftShrinks(layers, pos', top.value, p);
      pos' := pos'[top.value := p];
      top := HeapTop(layers, pos');
    }
  }

  /** The iterator's `operator++`, after the attribute on top of the heap was read. */
  method Advance(layers: seq<seq<Attr>>, pos: seq<nat>, out: seq<Attr>, t: nat)
    returns (pos': seq<nat>, top: Option<nat>, out': seq<Attr>)
    requires SortedLayers(layers) && Positions(layers, pos) && IsTop(layers, pos, Some(t))
    requires Progress(layers, pos, out) && Ahead(layers, pos, out, Some(t))
    ensures Positions(layers, pos') && IsTop(layers, pos', top) && Progress(layers, pos', out')
    ensures Ahead(layers, pos', out', top)
    ensures Left(layers, pos') < Left(layers, pos)
  {
    var a := layers[t][pos[t]];
    EmitProduced(layers, pos, out, t);
    EmitConsumed(layers, pos, out, t);
    LeftShrinks(layers, pos, t, pos[t] + 1);
    out' := out + [a];
    assert out'[|out|] == a;
    pos', top := ConsumeAll(layers, pos[t := pos[t] + 1], out', a.name);
  }

  /** Iterating over a layered set yields its attributes in strictly increasing order, each once. */
  method Iterate(b: Bindings, ghost maxLayers: nat) returns (out: seq<Attr>)
    requires Valid(b, maxLayers)
    ensures Sorted(out) && ToMap(out) == AsMap(b) && |out| == b.size
  {
    var layers := Layers(b);
    LayersSorted(b, maxLayers);
    var pos: seq<nat> := seq(|layers|, _ => 0);
    out := [];
    var top := HeapTop(layers, pos);
    while top.Some?
      invariant Positions(layers, pos) && IsTop(layers, pos, top) && Progress(layers, pos, out)
      invariant Ahead(layers, pos, out, top)
      decreases Left(layers, pos)
    {
      pos, top, out := Advance(layers, pos, out, top.value);
    }
    IteratedAll(b, layers, pos, out);
  }

  lemma IteratedAll(b: Bindings, layers: seq<seq<Attr>>, pos: seq<nat>, out: seq<Attr>)
    requires layers == Layers(b) && Positions(layers, pos) && IsTop(layers, pos, None) && Progress(layers, pos, out)
    requires b.size == |AsMap(b)|
    ensures ToMap(out) == AsMap(b) && |out| == b.size
  {
    forall n ensures (n in ToMap(out) <==> n in AsMap(b)) && (n in AsMap(b) ==> ToMap(out)[n] == AsMap(b)[n]) {
      FirstInIsLookup(b, n);
      ToMapKeys(out);
      if n in ToMap(out) {
        var j :| 0 <= j < |out| && out[j].name == n;
        ToMapAt(out, j);
      }
      if n in AsMap(b) {
        FirstInSome(layers, n);
        var k :| 0 <= k < |layers| && n in ToMap(layers[k]);
        ToMapKeys(layers[k]);
        var i :| 0 <= i < |layers[k]| && layers[k][i].name == n;
        assert pos[k] == |layers[k]|;
      }
    }
    ToMapSize(out);
  }
}
