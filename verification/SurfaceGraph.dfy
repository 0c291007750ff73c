/** Dependency graphs of plugin surfaces: chains, cycles, levels and closures. */
module SurfaceGraph {
  import opened FiniteSets

  datatype Input<K> = Input(surface: K, optional: bool, dependencies: seq<K>)

  type Graph<K> = map<K, Input<K>>

  /** Every dependency is a surface of the graph. */
  ghost predicate Closed<K>(g: Graph<K>) {
    forall k, d :: k in g && d in g[k].dependencies ==> d in g
  }

  /** A walk along dependencies. */
  ghost predicate IsChain<K>(g: Graph<K>, p: seq<K>) {
    && p != []
    && (forall i :: 0 <= i < |p| ==> p[i] in g)
    && (forall i: nat :: i + 1 < |p| ==> LinkAt(g, p, i))
  }

  ghost predicate LinkAt<K>(g: Graph<K>, p: seq<K>, i: nat)
    requires i + 1 < |p|
  {
    p[i] in g && p[i + 1] in g[p[i]].dependencies
  }

  ghost predicate ChainFrom<K>(g: Graph<K>, k: K, p: seq<K>) {
    IsChain(g, p) && p[0] == k
  }

  ghost predicate IsCycle<K>(g: Graph<K>, p: seq<K>) {
    IsChain(g, p) && |p| > 1 && p[0] == p[|p| - 1]
  }

  ghost predicate Cyclic<K(!new)>(g: Graph<K>) {
    exists p :: IsCycle(g, p)
  }

  ghost predicate ChainTo<K>(g: Graph<K>, from: K, to: K, p: seq<K>) {
    ChainFrom(g, from, p) && p[|p| - 1] == to
  }

  /** `to` is `from` or one of its direct or indirect dependencies. */
  ghost predicate Reaches<K(!new)>(g: Graph<K>, from: K, to: K) {
    exists p :: ChainTo(g, from, to, p)
  }

  /** The longest chain below `k` has `n` links. */
  ghost predicate Depth<K(!new)>(g: Graph<K>, k: K, n: nat) {
    && (exists p :: ChainFrom(g, k, p) && |p| == n + 1)
    && (forall p :: ChainFrom(g, k, p) ==> |p| <= n + 1)
  }

  /** A surface is required if it is mandatory or below a mandatory one. */
  ghost predicate Required<K(!new)>(g: Graph<K>, k: K) {
    exists m :: m in g && !g[m].optional && Reaches(g, m, k)
  }

  // ---- Chains ----

  lemma ChainTail<K>(g: Graph<K>, p: seq<K>)
    requires IsChain(g, p) && |p| > 1
    ensures IsChain(g, p[1..]) && p[1] in g[p[0]].dependencies
  {
    assert LinkAt(g, p, 0);
    forall i: nat | i + 1 < |p[1..]|
      ensures LinkAt(g, p[1..], i)
    {
      assert LinkAt(g, p, i + 1);
    }
  }

  lemma ChainCons<K>(g: Graph<K>, k: K, p: seq<K>)
    requires IsChain(g, p) && k in g && p[0] in g[k].dependencies
    ensures IsChain(g, [k] + p)
  {
    var q := [k] + p;
    forall i: nat | i + 1 < |q|
      ensures LinkAt(g, q, i)
    {
      if i > 0 {
        assert LinkAt(g, p, i - 1);
      }
    }
  }

  lemma ChainSnoc<K>(g: Graph<K>, p: seq<K>, d: K)
    requires IsChain(g, p) && d in g && d in g[p[|p| - 1]].dependencies
    ensures IsChain(g, p + [d])
  {
    var q := p + [d];
    forall i: nat | i + 1 < |q|
      ensures LinkAt(g, q, i)
    {
      if i + 1 < |p| {
        assert LinkAt(g, p, i);
      }
    }
  }

  lemma ReachesSelf<K(!new)>(g: Graph<K>, k: K)
    requires k in g
    ensures Reaches(g, k, k)
  {
    assert ChainTo(g, k, k, [k]);
  }

  lemma ReachesStep<K(!new)>(g: Graph<K>, from: K, k: K, d: K)
    requires Reaches(g, from, k) && d in g && k in g && d in g[k].dependencies
    ensures Reaches(g, from, d)
  {
    var p :| ChainTo(g, from, k, p);
    ChainSnoc(g, p, d);
    assert ChainTo(g, from, d, p + [d]);
  }

  lemma ReachesVia<K(!new)>(g: Graph<K>, k: K, d: K, to: K)
    requires k in g && d in g[k].dependencies && Reaches(g, d, to)
    ensures Reaches(g, k, to)
  {
    var p :| ChainTo(g, d, to, p);
    ChainCons(g, k, p);
    assert ChainTo(g, k, to, [k] + p);
  }

  /** What a surface reaches is itself and what its dependencies reach. */
  lemma ReachesSplit<K(!new)>(g: Graph<K>, k: K, to: K)
    requires Reaches(g, k, to)
    ensures k in g && (to == k || exists d :: d in g[k].dependencies && Reaches(g, d, to))
  {
    var p :| ChainTo(g, k, to, p);
    if |p| > 1 {
      ChainTail(g, p);
      assert ChainTo(g, p[1], to, p[1..]);
    }
  }

  // ---- Cycles ----

  /** Every one of these surfaces waits for another one of them. */
  ghost predicate Stuck<K>(g: Graph<K>, stuck: set<K>) {
    stuck <= g.Keys && forall u :: u in stuck ==> WaitsIn(g, stuck, u)
  }

  ghost predicate WaitsIn<K>(g: Graph<K>, stuck: set<K>, u: K) {
    u in g && exists d :: d in g[u].dependencies && d in stuck
  }

  /** A chain of any length stays inside a stuck set. */
  lemma {:induction false} Walk<K(!new)>(g: Graph<K>, stuck: set<K>, k: K, n: nat) returns (p: seq<K>)
    requires Stuck(g, stuck) && k in stuck
    ensures ChainFrom(g, k, p) && |p| == n + 1
    ensures forall x :: x in p ==> x in stuck
    decreases n
  {
    if n == 0 {
      p := [k];
    } else {
      assert WaitsIn(g, stuck, k);
      var d :| d in g[k].dependencies && d in stuck;
      var rest := Walk(g, stuck, d, n - 1);
      ChainCons(g, k, rest);
      p := [k] + rest;
    }
  }

  lemma SubChain<K>(g: Graph<K>, p: seq<K>, i: nat, j: nat)
    requires IsChain(g, p) && i < j <= |p|
    ensures IsChain(g, p[i..j])
  {
    var c := p[i..j];
    forall x: nat | x + 1 < |c|
      ensures LinkAt(g, c, x)
    {
      assert LinkAt(g, p, i + x);
    }
  }

  /** If every remaining surface waits for a remaining one, there is a dependency cycle. */
  lemma StuckIsCyclic<K(!new)>(g: Graph<K>, stuck: set<K>)
    requires stuck != {} && Stuck(g, stuck)
    ensures Cyclic(g)
  {
    var k :| k in stuck;
    var p := Walk(g, stuck, k, |stuck|);
    var i, j := Pigeonhole(p, stuck);
    SubChain(g, p, i, j + 1);
    assert IsCycle(g, p[i..j + 1]);
  }

  // ---- Levels ----

  /** Each level is zero without dependencies and one more than the highest dependency otherwise. */
  ghost predicate Levelled<K>(g: Graph<K>, levels: map<K, nat>) {
    forall k :: k in levels ==> LevelAt(g, levels, k)
  }

  ghost predicate LevelAt<K>(g: Graph<K>, levels: map<K, nat>, k: K)
    requires k in levels
  {
    && k in g
    && (forall d :: d in g[k].dependencies ==> d in levels && levels[d] < levels[k])
    && (levels[k] > 0 ==> exists d :: d in g[k].dependencies && d in levels && levels[d] + 1 == levels[k])
  }

  lemma {:induction false} ChainFits<K>(g: Graph<K>, levels: map<K, nat>, p: seq<K>)
    requires Levelled(g, levels) && IsChain(g, p) && p[0] in levels
    ensures p[|p| - 1] in levels
    ensures levels[p[|p| - 1]] + |p| - 1 <= levels[p[0]]
    decreases |p|
  {
    if |p| > 1 {
      ChainTail(g, p);
      assert LevelAt(g, levels, p[0]);
      ChainFits(g, levels, p[1..]);
    }
  }

  lemma {:induction false} LongestChain<K(!new)>(g: Graph<K>, levels: map<K, nat>, k: K) returns (p: seq<K>)
    requires Levelled(g, levels) && k in levels
    ensures ChainFrom(g, k, p) && |p| == levels[k] + 1
    decreases levels[k]
  {
    assert LevelAt(g, levels, k);
    if levels[k] == 0 {
      p := [k];
    } else {
      var d :| d in g[k].dependencies && d in levels && levels[d] + 1 == levels[k];
      var rest := LongestChain(g, levels, d);
      ChainCons(g, k, rest);
      p := [k] + rest;
    }
  }

  /** A level is the length of the longest dependency chain below the surface. */
  lemma LevelIsDepth<K(!new)>(g: Graph<K>, levels: map<K, nat>, k: K)
    requires Levelled(g, levels) && k in levels
    ensures Depth(g, k, levels[k])
  {
    var p := LongestChain(g, levels, k);
    forall q | ChainFrom(g, k, q)
      ensures |q| <= levels[k] + 1
    {
      ChainFits(g, levels, q);
    }
  }


  /** A graph whose every surface has a level has no cycle. */
  lemma LevelledIsAcyclic<K(!new)>(g: Graph<K>, levels: map<K, nat>)
    requires Levelled(g, levels) && levels.Keys == g.Keys
    ensures !Cyclic(g)
  {
    forall p | IsCycle(g, p)
      ensures false
    {
      ChainFits(g, levels, p);
    }
  }

  // ---- The required closure ----

  /** Mandatory surfaces, closed under dependencies. */
  ghost predicate Covers<K>(g: Graph<K>, s: set<K>) {
    && (forall k :: k in g && !g[k].optional ==> k in s)
    && (forall k, d :: k in s && k in g && d in g[k].dependencies ==> d in s)
  }

  lemma {:induction false} CoverKeepsChain<K>(g: Graph<K>, s: set<K>, p: seq<K>)
    requires Covers(g, s) && IsChain(g, p) && p[0] in s
    ensures p[|p| - 1] in s
    decreases |p|
  {
    if |p| > 1 {
      ChainTail(g, p);
      CoverKeepsChain(g, s, p[1..]);
    }
  }

  /** The required surfaces are the least dependency-closed set with every mandatory surface. */
  lemma RequiredIsLeast<K(!new)>(g: Graph<K>, required: set<K>)
    requires Closed(g)
    requires forall k :: k in required <==> k in g && Required(g, k)
    ensures Covers(g, required)
    ensures forall s: set<K> :: Covers(g, s) ==> required <= s
  {
    forall k | k in g && !g[k].optional
      ensures k in required
    {
      ReachesSelf(g, k);
    }
    forall k, d | k in required && d in g[k].dependencies
      ensures d in required
    {
      RequiredStep(g, k, d);
    }
    forall s: set<K>, k | Covers(g, s) && k in required
      ensures k in s
    {
      RequiredIsCovered(g, s, k);
    }
  }

  lemma RequiredStep<K(!new)>(g: Graph<K>, k: K, d: K)
    requires k in g && d in g && d in g[k].dependencies && Required(g, k)
    ensures Required(g, d)
  {
    var m :| m in g && !g[m].optional && Reaches(g, m, k);
    ReachesStep(g, m, k, d);
  }

  lemma RequiredIsCovered<K(!new)>(g: Graph<K>, s: set<K>, k: K)
    requires Covers(g, s) && Required(g, k)
    ensures k in s
  {
    var m :| m in g && !g[m].optional && Reaches(g, m, k);
    var p :| ChainTo(g, m, k, p);
    CoverKeepsChain(g, s, p);
  }
}
