/** `builtins.replaceStrings` (src/libexpr/primops.cc). */
module ReplaceStrings {
  import opened Basics

  /** A replacement, once forced: its text and string context, or an error. */
  type Replacement = Result<(string, set<nat>), nat>

  datatype Error = DifferentLengths | Thrown(err: nat)

  /** `s.compare(p, pattern.size(), pattern) == 0`. */
  predicate MatchesAt(s: string, p: nat, pattern: string) {
    p + |pattern| <= |s| && s[p..p + |pattern|] == pattern
  }

  /** The first pattern that matches at a position. */
  function FirstMatch(from: seq<string>, s: string, p: nat, i: nat): (r: Option<nat>)
    requires i <= |from|
    ensures r.Some? ==> i <= r.value < |from| && MatchesAt(s, p, from[r.value])
    ensures r.Some? ==> forall k :: i <= k < r.value ==> !MatchesAt(s, p, from[k])
    ensures r.None? ==> forall k :: i <= k < |from| ==> !MatchesAt(s, p, from[k])
    decreases |from| - i
  {
    if i == |from| then None else if MatchesAt(s, p, from[i]) then Some(i) else FirstMatch(from, s, p, i + 1)
  }

  /** The character at a position, nothing past the end. */
  function CharAt(s: string, p: nat): string { if p < |s| then [s[p]] else [] }

  /** The position to go on from: one character further, or past the match. */
  function Next(from: seq<string>, s: string, p: nat): (next: nat)
    ensures next > p
  {
    match FirstMatch(from, s, p, 0)
    case None => p + 1
    case Some(j) => if from[j] == [] then p + 1 else p + |from[j]|
  }

  datatype Output = Output(text: string, context: set<nat>)

  /**
   * The specification: at every position from the left the first pattern that
   * matches is replaced; an empty pattern also matches past the end and lets
   * one character through.
   */
  function Replace(from: seq<string>, to: seq<Replacement>, s: string, p: nat): Result<Output, Error>
    requires |from| == |to|
    decreases |s| + 1 - p
  {
    if p > |s| then Success(Output([], {}))
    else
      match FirstMatch(from, s, p, 0)
      case None =>
        var rest :- Replace(from, to, s, Next(from, s, p));
        Success(rest.(text := CharAt(s, p) + rest.text))
      case Some(j) =>
        if to[j].Failure? then Failure(Thrown(to[j].error)) else
        var (text, context) := to[j].value;
        var skipped := if from[j] == [] then CharAt(s, p) else [];
        var rest :- Replace(from, to, s, Next(from, s, p));
        Success(Output(text + skipped + rest.text, context + rest.context))
  }

  /** The replacements of the patterns matched from a position on, up to the first that throws. */
  function Uses(from: seq<string>, to: seq<Replacement>, s: string, p: nat): seq<nat>
    requires |from| == |to|
    decreases |s| + 1 - p
  {
    if p > |s| then []
    else
      match FirstMatch(from, s, p, 0)
      case None => Uses(from, to, s, Next(from, s, p))
      case Some(j) => [j] + if to[j].Failure? then [] else Uses(from, to, s, Next(from, s, p))
  }

  /** The positions that are looked at. */
  function Positions(from: seq<string>, s: string, p: nat): seq<nat>
    decreases |s| + 1 - p
  {
    if p > |s| then [] else [p] + Positions(from, s, Next(from, s, p))
  }

  /** Every replacement used belongs to the first pattern that matches at a position looked at. */
  lemma {:induction false} UsesAreMatched(from: seq<string>, to: seq<Replacement>, s: string, p: nat, j: nat)
    requires |from| == |to| && j in Uses(from, to, s, p)
    ensures exists q :: q in Positions(from, s, p) && FirstMatch(from, s, q, 0) == Some(j)
    decreases |s| + 1 - p
  {
    if FirstMatch(from, s, p, 0) == Some(j) {
      assert p in Positions(from, s, p);
    } else {
      UsesAreMatched(from, to, s, Next(from, s, p), j);
      var q :| q in Positions(from, s, Next(from, s, p)) && FirstMatch(from, s, q, 0) == Some(j);
      assert q in Positions(from, s, p);
    }
  }

  /** The run fails exactly if the last replacement used throws; none before it does. */
  lemma {:induction false} FailsAtLast(from: seq<string>, to: seq<Replacement>, s: string, p: nat)
    requires |from| == |to|
    ensures forall k :: 0 <= k < |Uses(from, to, s, p)| ==> Uses(from, to, s, p)[k] < |to|
    ensures forall k :: 0 <= k < |Uses(from, to, s, p)| - 1 ==> to[Uses(from, to, s, p)[k]].Success?
    ensures Replace(from, to, s, p).Failure? <==>
              Uses(from, to, s, p) != [] && to[Uses(from, to, s, p)[|Uses(from, to, s, p)| - 1]].Failure?
    ensures Replace(from, to, s, p).Failure? ==>
              Replace(from, to, s, p).error == Thrown(to[Uses(from, to, s, p)[|Uses(from, to, s, p)| - 1]].error)
    decreases |s| + 1 - p
  {
    if p <= |s| { FailsAtLast(from, to, s, Next(from, s, p)); }
  }

  /** What has been produced, followed by the rest. */
  function Prefixed(text: string, context: set<nat>, r: Result<Output, Error>): Result<Output, Error> {
    var o :- r;
    Success(Output(text + o.text, context + o.context))
  }

  /** Every element once, in the order of first occurrence. */
  function Firsts(s: seq<nat>): seq<nat> {
    if s == [] then []
    else
      var init, j := s[..|s| - 1], s[|s| - 1];
      if j in init then Firsts(init) else Firsts(init) + [j]
  }

  lemma {:induction false} FirstsFacts(s: seq<nat>)
    ensures Distinct(Firsts(s)) && forall j :: j in Firsts(s) <==> j in s
    decreases |s|
  {
    if s != [] {
      FirstsFacts(s[..|s| - 1]);
      assert s == s[..|s| - 1] + [s[|s| - 1]];
    }
  }

  lemma FirstsAppend(s: seq<nat>, j: nat)
    ensures Firsts(s + [j]) == if j in s then Firsts(s) else Firsts(s) + [j]
  {
    assert (s + [j])[..|s|] == s;
  }

  /** The cache and the context cover exactly the replacements used so far. */
  ghost predicate CacheOk(to: seq<Replacement>, cache: map<nat, string>, context: set<nat>, used: seq<nat>) {
    && (forall j :: j in cache <==> j in used)
    && forall j :: j in cache ==> j < |to| && to[j].Success? && cache[j] == to[j].value.0 && to[j].value.1 <= context
  }

  /** The replacement for a matched pattern, from the cache or forced now. */
  method ForceOnce(to: seq<Replacement>, j: nat, cache: map<nat, string>, context: set<nat>, forced: seq<nat>,
                   ghost used: seq<nat>)
    returns (e: Option<nat>, cache': map<nat, string>, context': set<nat>, forced': seq<nat>)
    requires j < |to| && CacheOk(to, cache, context, used) && forced == Firsts(used)
    ensures forced' == Firsts(used + [j])
    ensures e.None? <==> to[j].Success?
    ensures e.Some? ==> to[j] == Failure(e.value)
    ensures e.None? ==> CacheOk(to, cache', context', used + [j]) && context' == context + to[j].value.1
    ensures e.None? ==> j in cache' && cache'[j] == to[j].value.0
  {
    FirstsAppend(used, j);
    cache', context', forced' := cache, context, forced;
    if j in cache { return None, cache', context', forced'; }
    forced' := forced + [j];
    if to[j].Failure? { return Some(to[j].error), cache', context', forced'; }
    cache' := cache[j := to[j].value.0];
    context' := context + to[j].value.1;
    return None, cache', context', forced';
  }

  /** The matched branch of the loop. */
  method Use(from: seq<string>, to: seq<Replacement>, s: string, p: nat, j: nat,
             res: string, cache: map<nat, string>, context: set<nat>, forced: seq<nat>, ghost used: seq<nat>)
    returns (e: Option<nat>, res': string, p': nat, cache': map<nat, string>, context': set<nat>, forced': seq<nat>)
    requires |from| == |to| && p <= |s| && FirstMatch(from, s, p, 0) == Some(j)
    requires CacheOk(to, cache, context, used) && forced == Firsts(used)
    ensures forced' == Firsts(used + [j]) && p < p' && (e.None? ==> p' == Next(from, s, p))
    ensures e.Some? <==> to[j].Failure?
    ensures e.Some? ==> Prefixed(res, context, Replace(from, to, s, p)) == Failure(Thrown(e.value))
    ensures e.None? ==> CacheOk(to, cache', context', used + [j])
    ensures e.None? ==> Prefixed(res, context, Replace(from, to, s, p))
                        == Prefixed(res', context', Replace(from, to, s, p'))
  {
    UsedStep(from, to, s, p, j, res, context);
    res', p' := res, p + 1;
    e, cache', context', forced' := ForceOnce(to, j, cache, context, forced, used);
    if e.Some? { return; }
    res' := res' + cache'[j];
    assert res' == res' + [];
    if from[j] == [] {
      res' := res' + CharAt(s, p);
    } else {
      p' := p + |from[j]|;
    }
  }

  /**
   * The loop. The result is the specified one. Whether the run succeeds or
   * not, the replacements forced are exactly those used, each once, in the
   * order of first use.
   */
  method Run(from: seq<string>, to: seq<Replacement>, s: string, context0: set<nat>)
    returns (r: Result<(string, set<nat>), Error>, forced: seq<nat>)
    ensures |from| != |to| ==> r == Failure(DifferentLengths) && forced == []
    ensures |from| == |to| ==> forced == Firsts(Uses(from, to, s, 0))
    ensures |from| == |to| && Replace(from, to, s, 0).Success? ==>
              var o := Replace(from, to, s, 0).value;
              r == Success((o.text, context0 + o.context))
    ensures |from| == |to| && Replace(from, to, s, 0).Failure? ==> r == Failure(Replace(from, to, s, 0).error)
  {
    forced := [];
    if |from| != |to| { return Failure(DifferentLengths), []; }
    var cache: map<nat, string> := map[];
    var context, res, p := context0, "", 0;
    ghost var used: seq<nat> := [];
    ghost var goal := Prefixed("", context0, Replace(from, to, s, 0));
    while p <= |s|
      invariant 0 <= p && CacheOk(to, cache, context, used) && forced == Firsts(used)
      invariant used + Uses(from, to, s, p) == Uses(from, to, s, 0)
      invariant goal == Prefixed(res, context, Replace(from, to, s, p))
      decreases |s| + 1 - p
    {
      var found := FirstMatch(from, s, p, 0);
      UsesStep(from, to, s, p, used);
      if found.None? {
        SkipStep(from, to, s, p, res, context);
        res, p := res + CharAt(s, p), p + 1;
      } else {
        var e;
        e, res, p, cache, context, forced := Use(from, to, s, p, found.value, res, cache, context, forced, used);
        if e.Some? { return Failure(Thrown(e.value)), forced; }
        used := used + [found.value];
      }
    }
    assert used + [] == used;
    PrefixedDone(res, context);
    PrefixedNothing(context0, Replace(from, to, s, 0));
    return Success((res, context)), forced;
  }

  lemma UsesStep(from: seq<string>, to: seq<Replacement>, s: string, p: nat, used: seq<nat>)
    requires |from| == |to| && p <= |s|
    ensures used + Uses(from, to, s, p)
            == match FirstMatch(from, s, p, 0)
               case None => used + Uses(from, to, s, Next(from, s, p))
               case Some(j) =>
                 if to[j].Failure? then used + [j] else used + [j] + Uses(from, to, s, Next(from, s, p))
  {
    match FirstMatch(from, s, p, 0)
    case None =>
    case Some(j) => assert used + ([j] + []) == used + [j];
  }

  lemma PrefixedDone(res: string, context: set<nat>)
    ensures Prefixed(res, context, Success(Output([], {}))) == Success(Output(res, context))
  {
    assert res + [] == res && context + {} == context;
  }

  lemma PrefixedNothing(context: set<nat>, r: Result<Output, Error>)
    ensures r.Success? ==> Prefixed("", context, r) == Success(Output(r.value.text, context + r.value.context))
    ensures r.Failure? ==> Prefixed("", context, r) == r
  {
    if r.Success? { assert "" + r.value.text == r.value.text; }
  }

  lemma SkipStep(from: seq<string>, to: seq<Replacement>, s: string, p: nat, res: string, context: set<nat>)
    requires |from| == |to| && p <= |s| && FirstMatch(from, s, p, 0).None?
    ensures Prefixed(res, context, Replace(from, to, s, p))
            == Prefixed(res + CharAt(s, p), context, Replace(from, to, s, p + 1))
  {
    var r := Replace(from, to, s, p + 1);
    if r.Success? { assert res + (CharAt(s, p) + r.value.text) == res + CharAt(s, p) + r.value.text; }
  }

  lemma UsedStep(from: seq<string>, to: seq<Replacement>, s: string, p: nat, j: nat, res: string, context: set<nat>)
    requires |from| == |to| && p <= |s| && FirstMatch(from, s, p, 0) == Some(j)
    ensures to[j].Failure? ==> Prefixed(res, context, Replace(from, to, s, p)) == Failure(Thrown(to[j].error))
    ensures to[j].Success? ==>
              var skipped := if from[j] == [] then CharAt(s, p) else [];
              Prefixed(res, context, Replace(from, to, s, p))
              == Prefixed(res + to[j].value.0 + skipped, context + to[j].value.1,
                          Replace(from, to, s, Next(from, s, p)))
  {
    if to[j].Success? {
      var skipped := if from[j] == [] then CharAt(s, p) else [];
      var r := Replace(from, to, s, Next(from, s, p));
      if r.Success? {
        var o := r.value;
        assert res + (to[j].value.0 + skipped + o.text) == res + to[j].value.0 + skipped + o.text;
        assert context + (to[j].value.1 + o.context) == context + to[j].value.1 + o.context;
      }
    }
  }

  /** The result is known to have this text. */
  predicate HasText(r: Result<Output, Error>, text: string) { r.Success? && r.value.text == text }

  /** What one position contributes to the text. */
  function Piece(from: seq<string>, to: seq<Replacement>, s: string, p: nat): string
    requires |from| == |to| && forall i :: 0 <= i < |from| ==> to[i].Success?
  {
    match FirstMatch(from, s, p, 0)
    case None => CharAt(s, p)
    case Some(j) => to[j].value.0 + (if from[j] == [] then CharAt(s, p) else [])
  }

  lemma StepText(from: seq<string>, to: seq<Replacement>, s: string, p: nat, rest: string)
    requires |from| == |to| && p <= |s| && forall i :: 0 <= i < |from| ==> to[i].Success?
    requires HasText(Replace(from, to, s, Next(from, s, p)), rest)
    ensures HasText(Replace(from, to, s, p), Piece(from, to, s, p) + rest)
  {
  }

  function Suffix(s: string, p: nat): string { if p <= |s| then s[p..] else [] }

  lemma PieceBySelf(from: seq<string>, to: seq<Replacement>, s: string, p: nat)
    requires |from| == |to| && p <= |s|
    requires forall i :: 0 <= i < |from| ==> to[i].Success? && to[i].value.0 == from[i]
    ensures Piece(from, to, s, p) + Suffix(s, Next(from, s, p)) == s[p..]
  {
    match FirstMatch(from, s, p, 0)
    case None =>
    case Some(j) => assert to[j].value.0 == from[j] == s[p..p + |from[j]|];
  }

  /** Replacing every pattern by itself returns the input. */
  lemma {:induction false} ReplaceBySelf(from: seq<string>, to: seq<Replacement>, s: string, p: nat)
    requires |from| == |to| && forall i :: 0 <= i < |from| ==> to[i].Success? && to[i].value.0 == from[i]
    ensures HasText(Replace(from, to, s, p), Suffix(s, p))
    decreases |s| + 1 - p
  {
    if p <= |s| {
      var next := Next(from, s, p);
      ReplaceBySelf(from, to, s, next);
      StepText(from, to, s, p, Suffix(s, next));
      PieceBySelf(from, to, s, p);
    }
  }

  // ---------- rules for the result ----------

  /** Where no pattern matches, nothing changes. */
  lemma {:induction false} NothingMatches(from: seq<string>, to: seq<Replacement>, s: string, p: nat)
    requires |from| == |to| && forall q: nat :: p <= q <= |s| ==> FirstMatch(from, s, q, 0).None?
    ensures Replace(from, to, s, p) == Success(Output(Suffix(s, p), {})) && Uses(from, to, s, p) == []
    decreases |s| + 1 - p
  {
    if p <= |s| {
      NothingMatches(from, to, s, p + 1);
      assert CharAt(s, p) + Suffix(s, p + 1) == Suffix(s, p);
    }
  }

  /** Before every character and at the end, the replacement of an empty pattern. */
  function Interleaved(t: string, s: string): string {
    if s == [] then t else t + [s[0]] + Interleaved(t, s[1..])
  }

  /** An empty pattern alone puts its replacement before every character and at the end. */
  lemma {:induction false} EmptyPattern(t: string, s: string, p: nat)
    requires p <= |s|
    ensures Replace([""], [Success((t, {}))], s, p) == Success(Output(Interleaved(t, s[p..]), {}))
    decreases |s| - p
  {
    var from, to := [""], [Success((t, {}))];
    assert MatchesAt(s, p, "") by { assert s[p..p + 0] == ""; }
    assert FirstMatch(from, s, p, 0) == Some(0);
    if p == |s| {
      assert Replace(from, to, s, p + 1) == Success(Output([], {}));
      assert t + CharAt(s, p) + [] == t && s[p..] == [];
      var none: set<nat> := {};
      assert none + none == none;
    } else {
      EmptyPattern(t, s, p + 1);
      assert s[p..][1..] == s[p + 1..];
    }
  }

  /** Character by character, for a replacement of one character. */
  lemma {:induction false} InterleavedAt(c: char, s: string, k: nat)
    requires k < |s|
    ensures |Interleaved([c], s)| == 2 * |s| + 1
    ensures Interleaved([c], s)[2 * k] == c && Interleaved([c], s)[2 * k + 1] == s[k]
    ensures Interleaved([c], s)[2 * |s|] == c
  {
    if |s| > 1 {
      InterleavedAt(c, s[1..], if k == 0 then 0 else k - 1);
    } else {
      assert s[1..] == [];
    }
  }

  /** A match of a pattern that is not empty is replaced, and the rest goes on behind it. */
  lemma MatchIsReplaced(from: seq<string>, to: seq<Replacement>, s: string, p: nat, j: nat)
    requires |from| == |to| && p <= |s| && FirstMatch(from, s, p, 0) == Some(j) && from[j] != [] && to[j].Success?
    ensures var r, rest := Replace(from, to, s, p), Replace(from, to, s, p + |from[j]|);
            && (r.Success? <==> rest.Success?)
            && (r.Success? ==> r.value.text == to[j].value.0 + rest.value.text)
  {
    if Replace(from, to, s, p + |from[j]|).Success? { assert to[j].value.0 + [] == to[j].value.0; }
  }

  /** The context is exactly that of the replacements used. */
  lemma {:induction false} ContextOfUses(from: seq<string>, to: seq<Replacement>, s: string, p: nat, c: nat)
    requires |from| == |to| && Replace(from, to, s, p).Success?
    ensures c in Replace(from, to, s, p).value.context <==>
              exists j :: j in Uses(from, to, s, p) && j < |to| && to[j].Success? && c in to[j].value.1
    decreases |s| + 1 - p
  {
    if p <= |s| {
      var next := Next(from, s, p);
      ContextOfUses(from, to, s, next, c);
      match FirstMatch(from, s, p, 0)
      case None =>
      case Some(j) => assert j in Uses(from, to, s, p);
    }
  }
}
