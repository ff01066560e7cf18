/**
 * `forceValueDeep` (src/libexpr/eval.cc) on a finite graph of values that may
 * be cyclic: a node's children are the values of its set or list once it is
 * forced.
 */
module ForceDeep {
  import opened Basics

  /** `fails` nodes throw when forced. */
  datatype Graph = Graph(nodes: set<nat>, children: nat -> seq<nat>, fails: nat -> bool) {
    ghost predicate Valid() {
      forall v, c :: v in nodes && c in children(v) ==> c in nodes
    }
  }

  /** `u` can be reached from `v` in `n` steps through sets and lists. */
  ghost predicate Reach(g: Graph, v: nat, u: nat, n: nat)
    decreases n
  {
    if n == 0 then u == v else exists c :: c in g.children(v) && Reach(g, c, u, n - 1)
  }

  ghost predicate Reachable(g: Graph, v: nat, u: nat) { exists n: nat :: Reach(g, v, u, n) }

  lemma ReachViaChild(g: Graph, v: nat, c: nat, u: nat)
    requires c in g.children(v) && Reachable(g, c, u)
    ensures Reachable(g, v, u)
  {
    var n: nat :| Reach(g, c, u, n);
    assert Reach(g, v, u, n + 1);
  }

  /** A set that contains `v` and the children of its members contains all that `v` reaches. */
  lemma {:induction false} ClosedContains(g: Graph, s: set<nat>, v: nat, u: nat, n: nat)
    requires v in s && Reach(g, v, u, n)
    requires forall x, c :: x in s && c in g.children(x) ==> c in s
    ensures u in s
    decreases n
  {
    if n > 0 {
      var c :| c in g.children(v) && Reach(g, c, u, n - 1);
      ClosedContains(g, s, c, u, n - 1);
    }
  }

  function Elements(s: seq<nat>): set<nat> { set x | x in s }

  class Forcer {
    const g: Graph
    var seen: set<nat>
    var forced: seq<nat>

    constructor (g: Graph)
      ensures this.g == g && seen == {} && forced == []
    {
      this.g, seen, forced := g, {}, [];
    }

    ghost predicate Valid()
      reads this
    {
      g.Valid() && seen <= g.nodes && Distinct(forced) && Elements(forced) == seen
    }

    /** The nodes seen since `before` did not fail and their children are all seen. */
    ghost predicate Complete(before: set<nat>)
      reads this
    {
      forall u :: u in seen && u !in before ==> !g.fails(u) && forall c :: c in g.children(u) ==> c in seen
    }

    ghost predicate ReachableFrom(v: nat, before: set<nat>)
      reads this
    {
      forall u :: u in seen && u !in before ==> Reachable(g, v, u)
    }

    /** The recursive lambda. */
    method Recurse(v: nat) returns (ok: bool)
      requires Valid() && v in g.nodes
      modifies this`seen, this`forced
      ensures Valid() && old(seen) <= seen && old(forced) <= forced
      ensures ReachableFrom(v, old(seen))
      ensures ok ==> v in seen && Complete(old(seen))
      ensures !ok ==> exists u :: u in seen && u !in old(seen) && g.fails(u)
      decreases g.nodes - seen
    {
      if v in seen { return true; }
      seen := seen + {v};
      forced := forced + [v];
      assert Reach(g, v, v, 0);
      if g.fails(v) { return false; }
      var children := g.children(v);
      for i := 0 to |children|
        invariant Valid() && old(seen) + {v} <= seen && old(forced) <= forced
        invariant ReachableFrom(v, old(seen))
        invariant Complete(old(seen) + {v})
        invariant forall k :: 0 <= k < i ==> children[k] in seen
      {
        ghost var before := seen;
        ok := Recurse(children[i]);
        forall u | u in seen && u !in before ensures Reachable(g, v, u) {
          ReachViaChild(g, v, children[i], u);
        }
        if !ok { return false; }
      }
      return true;
    }
  }

  /**
   * On success exactly the nodes reachable from the root were forced, each
   * once, and none failed; otherwise a reachable node failed.
   */
  method ForceValueDeep(g: Graph, root: nat) returns (ok: bool, forced: seq<nat>)
    requires g.Valid() && root in g.nodes
    ensures Distinct(forced) && forall u :: u in forced ==> Reachable(g, root, u)
    ensures ok ==> forall u :: Reachable(g, root, u) ==> u in forced
    ensures ok <==> forall u :: Reachable(g, root, u) ==> !g.fails(u)
  {
    var f := new Forcer(g);
    ok := f.Recurse(root);
    forced := f.forced;
    forall u | u in forced ensures Reachable(g, root, u) {
      assert u in f.seen;
    }
    if ok {
      forall u | Reachable(g, root, u) ensures u in forced && !g.fails(u) {
        var n: nat :| Reach(g, root, u, n);
        ClosedContains(g, f.seen, root, u, n);
        assert u in Elements(forced);
      }
    }
  }
}
