/**
 * The REPL's scope (src/libcmd/repl.cc): a fixed-size environment that is only
 * appended to, and the static environment that maps names to displacements.
 */
module Repl {
  import opened Basics

  type Value = nat

  const ENV_SIZE := 32768

  datatype Var = Var(name: Symbol, displ: nat)

  datatype Attr = Attr(name: Symbol, value: Value)

  // ---------- StaticEnv::sort, deduplicate and find ----------

  /** Names increase, and equal names are ordered by displacement. */
  predicate Ordered(vars: seq<Var>) {
    forall i, j :: 0 <= i < j < |vars| ==> Before(vars[i], vars[j])
  }

  predicate Before(x: Var, y: Var) { x.name < y.name || (x.name == y.name && x.displ < y.displ) }

  /** Strictly increasing names. */
  predicate Strict(vars: seq<Var>) { forall i, j :: 0 <= i < j < |vars| ==> vars[i].name < vars[j].name }

  /** Stable insertion: after every variable with the same or a smaller name. */
  function Insert(vars: seq<Var>, x: Var): seq<Var> {
    if vars == [] || vars[|vars| - 1].name <= x.name then vars + [x]
    else Insert(vars[..|vars| - 1], x) + [vars[|vars| - 1]]
  }

  /** `std::stable_sort` by name. */
  function StableSort(vars: seq<Var>): seq<Var> {
    if vars == [] then [] else Insert(StableSort(vars[..|vars| - 1]), vars[|vars| - 1])
  }

  lemma {:induction false} InsertMembers(vars: seq<Var>, x: Var)
    ensures forall v :: v in Insert(vars, x) <==> v in vars || v == x
    decreases |vars|
  {
    if vars != [] && vars[|vars| - 1].name > x.name {
      var init, last := vars[..|vars| - 1], vars[|vars| - 1];
      InsertMembers(init, x);
      assert vars == init + [last];
    }
  }

  lemma {:induction false} InsertOrdered(vars: seq<Var>, x: Var)
    requires Ordered(vars) && forall v :: v in vars && v.name == x.name ==> v.displ < x.displ
    ensures Ordered(Insert(vars, x))
    decreases |vars|
  {
    if vars == [] || vars[|vars| - 1].name <= x.name {
      forall i | 0 <= i < |vars| ensures Before(vars[i], x) {
        assert vars[i] in vars;
        assert i < |vars| - 1 ==> Before(vars[i], vars[|vars| - 1]);
      }
    } else {
      var init, last := vars[..|vars| - 1], vars[|vars| - 1];
      InsertOrdered(init, x);
      InsertMembers(init, x);
      var ins := Insert(init, x);
      forall i | 0 <= i < |ins| ensures Before(ins[i], last) {
        assert ins[i] in ins;
        if ins[i] != x {
          var k :| 0 <= k < |init| && init[k] == ins[i];
          assert Before(vars[k], vars[|vars| - 1]);
        }
      }
    }
  }

  /** Later entries of a name have larger displacements. */
  predicate ByAge(vars: seq<Var>) {
    forall i, j :: 0 <= i < j < |vars| && vars[i].name == vars[j].name ==> vars[i].displ < vars[j].displ
  }

  lemma {:induction false} SortFacts(vars: seq<Var>)
    requires ByAge(vars)
    ensures Ordered(StableSort(vars))
    ensures forall v :: v in StableSort(vars) <==> v in vars
    decreases |vars|
  {
    if vars != [] {
      var init, last := vars[..|vars| - 1], vars[|vars| - 1];
      SortFacts(init);
      assert vars == init + [last];
      forall v | v in StableSort(init) && v.name == last.name ensures v.displ < last.displ {
        var i :| 0 <= i < |init| && init[i] == v;
        assert vars[i].displ < vars[|vars| - 1].displ;
      }
      InsertOrdered(StableSort(init), last);
      InsertMembers(StableSort(init), last);
    }
  }

  /** `x` is the youngest variable of its name. */
  predicate Youngest(vars: seq<Var>, x: Var) {
    x in vars && forall v :: v in vars && v.name == x.name ==> v.displ <= x.displ
  }

  /** The last variable of every run of equal names. */
  function LastOfRuns(vars: seq<Var>): seq<Var> {
    if vars == [] then []
    else if |vars| >= 2 && vars[0].name == vars[1].name then LastOfRuns(vars[1..])
    else [vars[0]] + LastOfRuns(vars[1..])
  }

  lemma TailAfterHead(vars: seq<Var>)
    requires Ordered(vars) && vars != []
    ensures forall v :: v in vars[1..] ==> Before(vars[0], v)
    ensures (|vars| >= 2 ==> vars[0].name != vars[1].name) ==> forall v :: v in vars[1..] ==> vars[0].name < v.name
  {
    forall v | v in vars[1..]
      ensures Before(vars[0], v) && ((|vars| >= 2 ==> vars[0].name != vars[1].name) ==> vars[0].name < v.name)
    {
      var i :| 0 <= i < |vars[1..]| && vars[1..][i] == v;
      assert vars[i + 1] == v;
      assert i > 0 ==> Before(vars[1], vars[i + 1]);
      assert Before(vars[0], vars[1]);
    }
  }

  lemma YoungestTail(vars: seq<Var>, v: Var)
    requires Ordered(vars) && vars != []
    ensures |vars| >= 2 && vars[0].name == vars[1].name ==> (Youngest(vars, v) <==> Youngest(vars[1..], v))
    ensures !(|vars| >= 2 && vars[0].name == vars[1].name) ==>
              (Youngest(vars, v) <==> v == vars[0] || Youngest(vars[1..], v))
  {
    TailAfterHead(vars);
    assert vars == [vars[0]] + vars[1..];
    if |vars| >= 2 { assert vars[1] in vars[1..]; }
  }

  /** In an ordered sequence those are the youngest ones, one per name. */
  lemma {:induction false} LastOfRunsFacts(vars: seq<Var>)
    requires Ordered(vars)
    ensures Strict(LastOfRuns(vars)) && forall v :: v in LastOfRuns(vars) <==> Youngest(vars, v)
  {
    if vars != [] {
      LastOfRunsFacts(vars[1..]);
      TailAfterHead(vars);
      forall v ensures v in LastOfRuns(vars) <==> Youngest(vars, v) { YoungestTail(vars, v); }
      var tail := LastOfRuns(vars[1..]);
      if !(|vars| >= 2 && vars[0].name == vars[1].name) {
        forall j | 0 <= j < |tail| ensures vars[0].name < tail[j].name {
          assert tail[j] in tail;
        }
      }
    }
  }

  lemma RunStep(x: Var, rest: seq<Var>)
    ensures rest != [] && x.name == rest[0].name ==> LastOfRuns([x] + rest) == LastOfRuns(rest)
    ensures rest == [] || x.name != rest[0].name ==> LastOfRuns([x] + rest) == [x] + LastOfRuns(rest)
  {
    assert ([x] + rest)[1..] == rest;
  }

  /** The inner loop of `deduplicate`: the last variable of the run is copied to `it`. */
  method SkipRun(vars: seq<Var>, it: nat, start: nat) returns (out: seq<Var>, jt: nat)
    requires it < start <= |vars|
    ensures start <= jt <= |vars| && |out| == |vars| && out == vars[it := out[it]]
    ensures LastOfRuns([vars[it]] + vars[start..]) == [out[it]] + LastOfRuns(vars[jt..])
  {
    out, jt := vars, start;
    while jt < |vars| && out[it].name == out[jt].name
      invariant start <= jt <= |vars| && |out| == |vars| && out == vars[it := out[it]]
      invariant LastOfRuns([vars[it]] + vars[start..]) == LastOfRuns([out[it]] + vars[jt..])
    {
      RunStep(out[it], vars[jt..]);
      assert vars[jt..] == [vars[jt]] + vars[jt + 1..];
      out := out[it := out[jt]];
      jt := jt + 1;
    }
    RunStep(out[it], vars[jt..]);
  }

  lemma RunTaken(was: seq<Var>, out: seq<Var>, it: nat, start: nat, jt: nat)
    requires it <= start < jt <= |was| == |out|
    requires var vars := was[it := was[start]];
             && out == vars[it := out[it]]
             && LastOfRuns([vars[it]] + vars[start + 1..]) == [out[it]] + LastOfRuns(vars[jt..])
    ensures out[..it + 1] + LastOfRuns(out[jt..]) == was[..it] + LastOfRuns(was[start..])
  {
    var vars := was[it := was[start]];
    assert [vars[it]] + vars[start + 1..] == was[start..];
    assert out[jt..] == vars[jt..];
    assert out[..it + 1] == was[..it] + [out[it]];
  }

  /** The in-place loop of `deduplicate`. */
  method Deduplicate(vars: seq<Var>) returns (out: seq<Var>)
    ensures out == LastOfRuns(vars)
  {
    out := vars;
    var it, jt := 0, 0;
    assert out[..0] + LastOfRuns(out[0..]) == LastOfRuns(vars) by { assert out[0..] == vars; }
    while jt < |vars|
      invariant 0 <= it <= jt <= |vars| == |out|
      invariant out[..it] + LastOfRuns(out[jt..]) == LastOfRuns(vars)
      decreases |vars| - jt
    {
      ghost var was, start := out, jt;
      out := out[it := out[jt]];
      out, jt := SkipRun(out, it, jt + 1);
      RunTaken(was, out, it, start, jt);
      it := it + 1;
    }
    assert out[jt..] == [];
    out := out[..it];
  }

  /** `StaticEnv::find`. */
  method Find(vars: seq<Var>, name: Symbol) returns (r: Option<nat>)
    requires Strict(vars)
    ensures r.None? <==> forall v :: v in vars ==> v.name != name
    ensures r.Some? ==> Var(name, r.value) in vars
  {
    var lo := LowerBound(vars, (v: Var) => v.name, name);
    if lo < |vars| && vars[lo].name == name { return Some(vars[lo].displ); }
    return None;
  }

  // ---------- the scope as a history of additions ----------

  /** The value most recently given to a name. */
  function MostRecent(history: seq<Attr>, name: Symbol): Option<Value> {
    if history == [] then None
    else if history[|history| - 1].name == name then Some(history[|history| - 1].value)
    else MostRecent(history[..|history| - 1], name)
  }

  /** The addition at this displacement is the latest of its name. */
  predicate IsLatest(history: seq<Attr>, v: Var) {
    && v.displ < |history| && history[v.displ].name == v.name
    && forall j :: v.displ < j < |history| ==> history[j].name != v.name
  }

  /** The static environment lists exactly the latest additions. */
  ghost predicate ScopeOk(vars: seq<Var>, history: seq<Attr>) {
    Strict(vars) && forall v :: v in vars <==> IsLatest(history, v)
  }

  lemma {:induction false} LatestIsMostRecent(history: seq<Attr>, v: Var)
    requires IsLatest(history, v)
    ensures MostRecent(history, v.name) == Some(history[v.displ].value)
    decreases |history|
  {
    if v.displ < |history| - 1 { LatestIsMostRecent(history[..|history| - 1], v); }
  }

  lemma {:induction false} RecentHasLatest(history: seq<Attr>, name: Symbol)
    requires MostRecent(history, name).Some?
    ensures exists d :: 0 <= d < |history| && IsLatest(history, Var(name, d))
    decreases |history|
  {
    var n := |history| - 1;
    if history[n].name == name {
      assert IsLatest(history, Var(name, n));
    } else {
      RecentHasLatest(history[..n], name);
      var d :| 0 <= d < n && IsLatest(history[..n], Var(name, d));
      assert IsLatest(history, Var(name, d));
    }
  }

  lemma RecentIsInScope(vars: seq<Var>, history: seq<Attr>, name: Symbol)
    requires ScopeOk(vars, history)
    ensures MostRecent(history, name).Some? ==> exists v :: v in vars && v.name == name
  {
    if MostRecent(history, name).Some? {
      RecentHasLatest(history, name);
      var d :| 0 <= d < |history| && IsLatest(history, Var(name, d));
      assert Var(name, d) in vars;
    }
  }

  predicate StrictAttrs(attrs: seq<Attr>) { forall i, j :: 0 <= i < j < |attrs| ==> attrs[i].name < attrs[j].name }

  lemma LatestAfterMany(history: seq<Attr>, attrs: seq<Attr>, v: Var)
    requires StrictAttrs(attrs)
    ensures IsLatest(history + attrs, v) <==>
              || (|history| <= v.displ < |history| + |attrs| && attrs[v.displ - |history|].name == v.name)
              || (IsLatest(history, v) && forall a :: a in attrs ==> a.name != v.name)
  {
    var all := history + attrs;
    if IsLatest(all, v) && v.displ < |history| {
      forall a | a in attrs ensures a.name != v.name {
        var i :| 0 <= i < |attrs| && attrs[i] == a;
        assert all[|history| + i] == a;
      }
      assert forall j :: 0 <= j < |history| ==> all[j] == history[j];
    }
    if IsLatest(history, v) && forall a :: a in attrs ==> a.name != v.name {
      forall j | v.displ < j < |all| ensures all[j].name != v.name {
        if j >= |history| { assert attrs[j - |history|] in attrs; }
      }
    }
  }

  lemma LatestAfterOne(history: seq<Attr>, a: Attr, v: Var)
    ensures IsLatest(history + [a], v) <==> v == Var(a.name, |history|) || (IsLatest(history, v) && v.name != a.name)
  {
    LatestAfterMany(history, [a], v);
  }

  /** The entries for attributes added from displacement `displ` on. */
  function NewVars(attrs: seq<Attr>, displ: nat): (s: seq<Var>)
    ensures |s| == |attrs| && forall i :: 0 <= i < |attrs| ==> s[i] == Var(attrs[i].name, displ + i)
  {
    seq(|attrs|, i requires 0 <= i < |attrs| => Var(attrs[i].name, displ + i))
  }

  /** Appending the new entries and keeping the youngest of each name gives the new scope. */
  lemma AddedScope(vars: seq<Var>, history: seq<Attr>, attrs: seq<Attr>)
    requires ScopeOk(vars, history) && StrictAttrs(attrs)
    ensures ByAge(vars + NewVars(attrs, |history|))
    ensures ScopeOk(LastOfRuns(StableSort(vars + NewVars(attrs, |history|))), history + attrs)
  {
    var added := NewVars(attrs, |history|);
    var all := vars + added;
    forall i, j | 0 <= i < j < |all| && all[i].name == all[j].name ensures all[i].displ < all[j].displ {
      if i < |vars| { assert all[i] in vars; }
    }
    SortFacts(all);
    LastOfRunsFacts(StableSort(all));
    forall v ensures v in LastOfRuns(StableSort(all)) <==> IsLatest(history + attrs, v) {
      YoungestIsLatest(vars, history, attrs, v);
      LatestAfterMany(history, attrs, v);
    }
  }

  lemma YoungestIsLatest(vars: seq<Var>, history: seq<Attr>, attrs: seq<Attr>, v: Var)
    requires ScopeOk(vars, history) && StrictAttrs(attrs)
    ensures Youngest(vars + NewVars(attrs, |history|), v) <==>
              || (|history| <= v.displ < |history| + |attrs| && attrs[v.displ - |history|].name == v.name)
              || (IsLatest(history, v) && forall a :: a in attrs ==> a.name != v.name)
  {
    var added := NewVars(attrs, |history|);
    var all := vars + added;
    assert forall u :: u in all <==> u in vars || u in added;
    if Youngest(all, v) && v in vars {
      forall a | a in attrs ensures a.name != v.name {
        var i :| 0 <= i < |attrs| && attrs[i] == a;
        assert added[i] in all;
      }
    }
    if |history| <= v.displ < |history| + |attrs| && attrs[v.displ - |history|].name == v.name {
      assert added[v.displ - |history|] == v;
    }
    if IsLatest(history, v) && forall a :: a in attrs ==> a.name != v.name {
      forall u | u in added ensures u.name != v.name {
        var i :| 0 <= i < |added| && added[i] == u;
        assert attrs[i] in attrs;
      }
    }
  }

  function Names(attrs: seq<Attr>): set<Symbol> { set a | a in attrs :: a.name }

  lemma NamesAppend(a: seq<Attr>, b: seq<Attr>)
    ensures Names(a + b) == Names(a) + Names(b)
  {
  }

  /** The slots that a history of additions fills. */
  function Slots(history: seq<Attr>): (s: seq<Option<Value>>)
    ensures |s| == |history| && forall i :: 0 <= i < |history| ==> s[i] == Some(history[i].value)
  {
    seq(|history|, i requires 0 <= i < |history| => Some(history[i].value))
  }

  lemma SlotsAppend(a: seq<Attr>, b: seq<Attr>)
    ensures Slots(a + b) == Slots(a) + Slots(b)
  {
  }

  // ---------- the REPL ----------

  datatype Cmd = DefineVar(name: Symbol, value: Value) | AddSet(attrs: seq<Attr>) | Reload(sets: seq<seq<Attr>>)

  class NixRepl {
    var env: array<Option<Value>>
    var displ: nat
    var vars: seq<Var>
    var varNames: set<Symbol>
    const baseNames: set<Symbol>
    ghost var history: seq<Attr>

    ghost predicate Valid()
      reads this, env
    {
      && env.Length == ENV_SIZE && displ == |history| <= ENV_SIZE
      && env[..displ] == Slots(history)
      && (forall i :: displ <= i < ENV_SIZE ==> env[i] == None)
      && ScopeOk(vars, history)
      && varNames == baseNames + Names(history)
    }

    constructor (baseNames: set<Symbol>)
      ensures Valid() && history == [] && fresh(env) && this.baseNames == baseNames
    {
      env := new Option<Value>[ENV_SIZE](_ => None);
      displ, vars, history := 0, [], [];
      this.baseNames, varNames := baseNames, baseNames;
    }

    /** `initEnv`: a new environment; the old one is left to whatever was bound in it. */
    method InitEnv()
      modifies this
      ensures Valid() && history == [] && fresh(env)
    {
      env := new Option<Value>[ENV_SIZE](_ => None);
      displ, vars, history := 0, [], [];
      varNames := baseNames;
    }

    /** What an expression bound now gets for a name the REPL defines. */
    method Lookup(name: Symbol) returns (r: Option<Value>)
      requires Valid()
      ensures r == MostRecent(history, name)
    {
      var d := Find(vars, name);
      if d.None? {
        RecentIsInScope(vars, history, name);
        return None;
      }
      LatestIsMostRecent(history, Var(name, d.value));
      assert env[d.value] == env[..displ][d.value];
      return env[d.value];
    }

    /** `addVarToScope`; returns false instead of throwing. */
    method AddVarToScope(name: Symbol, v: Value) returns (ok: bool)
      requires Valid()
      modifies this`displ, this`vars, this`varNames, this`history, env
      ensures Valid() && ok == (old(displ) < ENV_SIZE)
      ensures history == if ok then old(history) + [Attr(name, v)] else old(history)
      ensures forall i :: 0 <= i < old(displ) ==> env[i] == old(env[i])
    {
      if displ >= ENV_SIZE { return false; }
      vars := Define(vars, name, displ, history, v);
      env[displ] := Some(v);
      displ := displ + 1;
      varNames := varNames + {name};
      NamesAppend(history, [Attr(name, v)]);
      SlotsAppend(history, [Attr(name, v)]);
      assert Names([Attr(name, v)]) == {name};
      assert env[..displ] == Slots(history) + [Some(v)];
      history := history + [Attr(name, v)];
      return true;
    }

    /** `addAttrsToScope` on an evaluated set. */
    method AddAttrsToScope(attrs: seq<Attr>) returns (ok: bool)
      requires Valid() && StrictAttrs(attrs)
      modifies this`displ, this`vars, this`varNames, this`history, env
      ensures Valid() && ok == (old(displ) + |attrs| < ENV_SIZE)
      ensures history == if ok then old(history) + attrs else old(history)
      ensures forall i :: 0 <= i < old(displ) ==> env[i] == old(env[i])
    {
      if displ + |attrs| >= ENV_SIZE { return false; }
      var all, names := Append(attrs);
      vars := SortAndDeduplicate(all, vars, history, attrs);
      varNames := varNames + names;
      NamesAppend(history, attrs);
      SlotsAppend(history, attrs);
      history := history + attrs;
      return true;
    }

    /** The loop of `addAttrsToScope`: new entries and slots. */
    method Append(attrs: seq<Attr>) returns (all: seq<Var>, names: set<Symbol>)
      requires env.Length == ENV_SIZE && displ + |attrs| <= ENV_SIZE
      modifies this`displ, env
      ensures displ == old(displ) + |attrs| && all == vars + NewVars(attrs, old(displ))
      ensures names == Names(attrs)
      ensures env[..displ] == old(env[..displ]) + Slots(attrs)
      ensures forall k :: 0 <= k < old(displ) || displ <= k < ENV_SIZE ==> env[k] == old(env[k])
    {
      all, names := vars, {};
      ghost var start, added := displ, NewVars(attrs, displ);
      for i := 0 to |attrs|
        invariant displ == start + i && all == vars + added[..i]
        invariant names == Names(attrs[..i])
        invariant env[..displ] == old(env[..displ]) + Slots(attrs[..i])
        invariant forall k :: 0 <= k < start || displ <= k < ENV_SIZE ==> env[k] == old(env[k])
      {
        all := all + [Var(attrs[i].name, displ)];
        env[displ] := Some(attrs[i].value);
        displ := displ + 1;
        names := names + {attrs[i].name};
        assert env[..displ] == old(env[..displ]) + Slots(attrs[..i]) + [Some(attrs[i].value)];
        assert Slots(attrs[..i + 1]) == Slots(attrs[..i]) + [Some(attrs[i].value)];
        assert attrs[..i + 1] == attrs[..i] + [attrs[i]] && added[..i + 1] == added[..i] + [added[i]];
      }
      assert attrs[..|attrs|] == attrs && added[..|attrs|] == added;
    }

    /** One command. A reload starts a fresh environment and adds the sets again; a set that does not fit is skipped. */
    method Execute(cmd: Cmd)
      requires Valid() && CmdOk(cmd)
      modifies this, env
      ensures Valid() && (fresh(env) || (env == old(env) && old(displ) <= displ))
      ensures history == HistoryAfter(old(history), cmd)
      ensures forall i :: 0 <= i < old(displ) ==> old(env)[i] == old(env[i])
    {
      match cmd
      case DefineVar(name, value) => var _ := AddVarToScope(name, value);
      case AddSet(attrs) => var _ := AddAttrsToScope(attrs);
      case Reload(sets) =>
        InitEnv();
        for i := 0 to |sets|
          invariant history == WithSets([], sets[..i])
          invariant Valid() && fresh(env) && forall k :: 0 <= k < old(displ) ==> old(env)[k] == old(env[k])
        {
          assert sets[..i + 1][..i] == sets[..i];
          var _ := AddAttrsToScope(sets[i]);
        }
        assert sets[..|sets|] == sets;
    }

    /**
     * Any session: the counter never exceeds the environment, the scope is that
     * of the additions since the last reset (with `Valid` and `Lookup`: every
     * name resolves to its most recent one), and no slot filled before is
     * rewritten, in the environment in use then, reloads included.
     */
    method Session(cmds: seq<Cmd>)
      requires Valid() && forall c :: c in cmds ==> CmdOk(c)
      modifies this, env
      ensures Valid() && displ <= ENV_SIZE && (env == old(env) || fresh(env))
      ensures history == Replay(old(history), cmds)
      ensures forall i :: 0 <= i < old(displ) ==> old(env)[i] == old(env[i])
    {
      for k := 0 to |cmds|
        invariant Valid() && (fresh(env) || (env == old(env) && old(displ) <= displ))
        invariant history == Replay(old(history), cmds[..k])
        invariant forall i :: 0 <= i < old(displ) ==> old(env)[i] == old(env[i])
      {
        assert cmds[..k + 1][..k] == cmds[..k];
        Execute(cmds[k]);
      }
      assert cmds[..|cmds|] == cmds;
    }

    /**
     * An expression bound now keeps its meaning: the slot that a name resolves
     * to, in the environment of this moment, holds the same value after any
     * commands, redefinitions and reloads included.
     */
    method BindThenRun(name: Symbol, cmds: seq<Cmd>) returns (r: Option<Value>)
      requires Valid() && forall c :: c in cmds ==> CmdOk(c)
      modifies this, env
      ensures Valid() && history == Replay(old(history), cmds)
      ensures r == MostRecent(old(history), name)
    {
      var d := Find(vars, name);
      var bound := env;
      if d.None? {
        RecentIsInScope(vars, history, name);
      } else {
        LatestIsMostRecent(history, Var(name, d.value));
        assert env[d.value] == env[..displ][d.value];
      }
      Session(cmds);
      return if d.None? then None else bound[d.value];
    }
  }

  // ---------- what a session adds up to ----------

  function WithSet(history: seq<Attr>, attrs: seq<Attr>): seq<Attr> {
    if |history| + |attrs| < ENV_SIZE then history + attrs else history
  }

  function WithSets(history: seq<Attr>, sets: seq<seq<Attr>>): seq<Attr> {
    if sets == [] then history else WithSet(WithSets(history, sets[..|sets| - 1]), sets[|sets| - 1])
  }

  /** The additions since the last reset, after one more command. */
  function HistoryAfter(history: seq<Attr>, cmd: Cmd): seq<Attr> {
    match cmd
    case DefineVar(name, value) => if |history| < ENV_SIZE then history + [Attr(name, value)] else history
    case AddSet(attrs) => WithSet(history, attrs)
    case Reload(sets) => WithSets([], sets)
  }

  function Replay(history: seq<Attr>, cmds: seq<Cmd>): seq<Attr> {
    if cmds == [] then history else HistoryAfter(Replay(history, cmds[..|cmds| - 1]), cmds[|cmds| - 1])
  }

  predicate CmdOk(cmd: Cmd) {
    match cmd
    case DefineVar(_, _) => true
    case AddSet(attrs) => StrictAttrs(attrs)
    case Reload(sets) => forall s :: s in sets ==> StrictAttrs(s)
  }

  method SortAndDeduplicate(all: seq<Var>, ghost vars: seq<Var>, ghost history: seq<Attr>, ghost attrs: seq<Attr>)
    returns (vars': seq<Var>)
    requires ScopeOk(vars, history) && StrictAttrs(attrs) && all == vars + NewVars(attrs, |history|)
    ensures ScopeOk(vars', history + attrs)
  {
    AddedScope(vars, history, attrs);
    vars' := Deduplicate(StableSort(all));
  }

  /** `addVarToScope` on the static environment: erase the old entry, append the new one, sort. */
  method Define(vars: seq<Var>, name: Symbol, displ: nat, ghost history: seq<Attr>, ghost v: Value)
    returns (vars': seq<Var>)
    requires ScopeOk(vars, history) && displ == |history|
    ensures ScopeOk(vars', history + [Attr(name, v)])
  {
    var rest := Erase(vars, name);
    var all := rest + [Var(name, displ)];
    SortFacts(all);
    vars' := StableSort(all);
    forall u ensures u in vars' <==> IsLatest(history + [Attr(name, v)], u) {
      LatestAfterOne(history, Attr(name, v), u);
    }
    forall i, j | 0 <= i < j < |vars'| ensures vars'[i].name < vars'[j].name {
      assert vars'[i] in all && vars'[j] in all && Before(vars'[i], vars'[j]);
    }
  }

  method Erase(vars: seq<Var>, name: Symbol) returns (rest: seq<Var>)
    requires Strict(vars)
    ensures Strict(rest) && forall v :: v in rest <==> v in vars && v.name != name
  {
    for i := 0 to |vars|
      invariant forall k :: 0 <= k < i ==> vars[k].name != name
    {
      if vars[i].name == name {
        rest := vars[..i] + vars[i + 1..];
        assert vars == vars[..i] + [vars[i]] + vars[i + 1..];
        return;
      }
    }
    rest := vars;
  }

  // ---------- rules for what a name resolves to ----------

  /** A newly added set gives its names their values. */
  lemma {:induction false} AddedRule(history: seq<Attr>, attrs: seq<Attr>, i: nat)
    requires StrictAttrs(attrs) && i < |attrs|
    ensures MostRecent(history + attrs, attrs[i].name) == Some(attrs[i].value)
    decreases |attrs|
  {
    var init := attrs[..|attrs| - 1];
    assert (history + attrs)[..|history + attrs| - 1] == history + init;
    if i < |attrs| - 1 {
      assert attrs[i].name < attrs[|attrs| - 1].name;
      AddedRule(history, init, i);
    }
  }

  /** And it leaves the others. */
  lemma {:induction false} NotAddedRule(history: seq<Attr>, attrs: seq<Attr>, name: Symbol)
    requires name !in Names(attrs)
    ensures MostRecent(history + attrs, name) == MostRecent(history, name)
    decreases |attrs|
  {
    if attrs == [] {
      assert history + attrs == history;
    } else {
      var init, last := attrs[..|attrs| - 1], attrs[|attrs| - 1];
      assert (history + attrs)[..|history + attrs| - 1] == history + init;
      assert last in attrs && last.name in Names(attrs);
      assert attrs == init + [last];
      NamesAppend(init, [last]);
      NotAddedRule(history, init, name);
    }
  }

  lemma {:induction false} SetsWithout(history: seq<Attr>, sets: seq<seq<Attr>>, name: Symbol)
    requires MostRecent(history, name).None? && forall s :: s in sets ==> StrictAttrs(s) && name !in Names(s)
    ensures MostRecent(WithSets(history, sets), name).None?
    decreases |sets|
  {
    if sets != [] {
      SetsWithout(history, sets[..|sets| - 1], name);
      assert sets[|sets| - 1] in sets;
      NotAddedRule(WithSets(history, sets[..|sets| - 1]), sets[|sets| - 1], name);
    }
  }

  /** A reload forgets all earlier additions: a name in none of the sets resolves to nothing. */
  lemma ReloadForgets(history: seq<Attr>, sets: seq<seq<Attr>>, name: Symbol)
    requires CmdOk(Reload(sets)) && forall s :: s in sets ==> name !in Names(s)
    ensures MostRecent(HistoryAfter(history, Reload(sets)), name).None?
  {
    SetsWithout([], sets, name);
  }

  /** A definition that fits gives the name its value and leaves the others. */
  lemma DefineRule(history: seq<Attr>, name: Symbol, value: Value, other: Symbol)
    requires |history| < ENV_SIZE
    ensures var after := HistoryAfter(history, DefineVar(name, value));
            && MostRecent(after, name) == Some(value)
            && (other != name ==> MostRecent(after, other) == MostRecent(history, other))
  {
    AddedRule(history, [Attr(name, value)], 0);
    if other != name { NotAddedRule(history, [Attr(name, value)], other); }
  }
}
