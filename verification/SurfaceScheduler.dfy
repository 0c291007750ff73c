/** Scheduling the selected surfaces of one package by dependency level. */
module SurfaceScheduler {
  import opened Outcomes
  import opened FiniteSets
  import opened Ordering
  import opened SurfaceGraph

  const MAX_NODES: nat := 256
  const U32_MAX: nat := 0xffff_ffff

  datatype Scheduled<K> = Scheduled(surface: K, level: nat, required: bool, dependencies: seq<K>)

  // ---- Specification ----

  ghost function Surfaces<K>(inputs: seq<Input<K>>): seq<K> {
    seq(|inputs|, i requires 0 <= i < |inputs| => inputs[i].surface)
  }

  ghost predicate IsGraphOf<K>(g: Graph<K>, inputs: seq<Input<K>>) {
    && (forall k :: k in g ==> g[k] in inputs && g[k].surface == k)
    && (forall x :: x in inputs ==> x.surface in g && g[x.surface] == x)
  }

  /** Dependencies are sorted, unique, selected and not the surface itself. */
  ghost predicate GoodNode<K>(g: Graph<K>, k: K, less: (K, K) -> bool)
    requires k in g
  {
    && (forall i, j :: 0 <= i < j < |g[k].dependencies| ==> less(g[k].dependencies[i], g[k].dependencies[j]))
    && (forall d :: d in g[k].dependencies ==> d != k && d in g)
  }

  ghost predicate GoodGraph<K>(g: Graph<K>, less: (K, K) -> bool) {
    forall k :: k in g ==> GoodNode(g, k, less)
  }

  /** Between one and 256 distinct surfaces with good dependencies and no cycle. */
  ghost predicate Schedulable<K(!new)>(inputs: seq<Input<K>>, less: (K, K) -> bool) {
    && 0 < |inputs| <= MAX_NODES
    && Distinct(Surfaces(inputs))
    && forall g :: IsGraphOf(g, inputs) ==> GoodGraph(g, less) && !Cyclic(g)
  }

  /** The place of a surface in a schedule: its level, then its identity. */
  datatype Slot<K> = Slot(level: nat, surface: K)

  function SlotOrder<K>(less: (K, K) -> bool): (Slot<K>, Slot<K>) -> bool {
    (a: Slot<K>, b: Slot<K>) => a.level < b.level || (a.level == b.level && less(a.surface, b.surface))
  }

  function SlotOf<K>(x: Scheduled<K>): Slot<K> {
    Slot(x.level, x.surface)
  }

  predicate Earlier<K>(a: Scheduled<K>, b: Scheduled<K>, less: (K, K) -> bool) {
    SlotOrder(less)(SlotOf(a), SlotOf(b))
  }

  ghost predicate InOrder<K>(xs: seq<Scheduled<K>>, less: (K, K) -> bool) {
    forall i, j :: 0 <= i < j < |xs| ==> Earlier(xs[i], xs[j], less)
  }

  /** What the schedule says about one surface. */
  ghost predicate Describes<K(!new)>(g: Graph<K>, x: Scheduled<K>) {
    && x.surface in g
    && x.dependencies == g[x.surface].dependencies
    && Depth(g, x.surface, x.level)
    && (x.required <==> Required(g, x.surface))
  }

  ghost predicate IsSchedule<K(!new)>(g: Graph<K>, xs: seq<Scheduled<K>>, less: (K, K) -> bool) {
    && InOrder(xs, less)
    && (forall x :: x in xs ==> Describes(g, x))
    && (forall k :: k in g ==> exists x :: x in xs && x.surface == k)
  }

  // ---- Uniqueness ----

  lemma SlotTotal<K(!new)>(less: (K, K) -> bool)
    requires StrictTotal(less)
    ensures StrictTotal(SlotOrder(less))
  {
    forall a: Slot<K>
      ensures !SlotOrder(less)(a, a)
    {
      assert !less(a.surface, a.surface);
    }
    forall a: Slot<K>, b: Slot<K>, c: Slot<K> | SlotOrder(less)(a, b) && SlotOrder(less)(b, c)
      ensures SlotOrder(less)(a, c)
    {
      assert less(a.surface, b.surface) && less(b.surface, c.surface) ==> less(a.surface, c.surface);
    }
    forall a: Slot<K>, b: Slot<K>
      ensures SlotOrder(less)(a, b) || a == b || SlotOrder(less)(b, a)
    {
      assert less(a.surface, b.surface) || a.surface == b.surface || less(b.surface, a.surface);
    }
  }

  function SlotsOf<K>(xs: seq<Scheduled<K>>): seq<Slot<K>> {
    seq(|xs|, i requires 0 <= i < |xs| => SlotOf(xs[i]))
  }

  /** A graph has at most one schedule. */
  lemma ScheduleUnique<K(!new)>(g: Graph<K>, a: seq<Scheduled<K>>, b: seq<Scheduled<K>>, less: (K, K) -> bool)
    requires StrictTotal(less) && IsSchedule(g, a, less) && IsSchedule(g, b, less)
    ensures a == b
  {
    SlotTotal(less);
    SameSlots(g, a, b, less);
    SameSlots(g, b, a, less);
    AscendingUnique(SlotsOf(a), SlotsOf(b), SlotOrder(less));
    forall i | 0 <= i < |a|
      ensures a[i] == b[i]
    {
      assert SlotsOf(a)[i] == SlotsOf(b)[i];
      assert a[i] in a && b[i] in b;
    }
  }

  lemma SameSlots<K(!new)>(g: Graph<K>, a: seq<Scheduled<K>>, b: seq<Scheduled<K>>, less: (K, K) -> bool)
    requires IsSchedule(g, a, less) && IsSchedule(g, b, less)
    ensures forall s :: s in SlotsOf(a) ==> s in SlotsOf(b)
  {
    forall s | s in SlotsOf(a)
      ensures s in SlotsOf(b)
    {
      var i :| 0 <= i < |a| && SlotOf(a[i]) == s;
      assert a[i] in a;
      var y :| y in b && y.surface == a[i].surface;
      SlotListed(g, a[i], y, b);
    }
  }

  /** Two descriptions of one surface give it the same slot. */
  lemma SlotListed<K(!new)>(g: Graph<K>, x: Scheduled<K>, y: Scheduled<K>, b: seq<Scheduled<K>>)
    requires Describes(g, x) && Describes(g, y) && x.surface == y.surface && y in b
    ensures SlotOf(x) in SlotsOf(b)
  {
    var j :| 0 <= j < |b| && b[j] == y;
    assert SlotsOf(b)[j] == SlotOf(x);
  }

  lemma GraphOrderFree<K(!new)>(inputs: seq<Input<K>>, inputs': seq<Input<K>>, g: Graph<K>, g': Graph<K>)
    requires forall x :: x in inputs <==> x in inputs'
    requires IsGraphOf(g, inputs) && IsGraphOf(g', inputs')
    ensures g == g'
  {
    forall k
      ensures k in g <==> k in g'
      ensures k in g ==> g[k] == g'[k]
    {
      assert k in g ==> g[k] in inputs';
      assert k in g' ==> g'[k] in inputs;
    }
  }

  lemma SameSurfaces<K(!new)>(inputs: seq<Input<K>>, inputs': seq<Input<K>>, k: K)
    requires forall x :: x in inputs ==> x in inputs'
    ensures k in Surfaces(inputs) ==> k in Surfaces(inputs')
  {
    if k in Surfaces(inputs) {
      var i :| 0 <= i < |inputs| && inputs[i].surface == k;
      assert inputs[i] in inputs;
      var j :| 0 <= j < |inputs'| && inputs'[j] == inputs[i];
      assert Surfaces(inputs')[j] == k;
    }
  }

  /** Whether a list can be scheduled, and its schedule, do not depend on the order of the list. */
  lemma ScheduleOrderFree<K(!new)>(inputs: seq<Input<K>>, inputs': seq<Input<K>>, less: (K, K) -> bool)
    requires StrictTotal(less)
    requires |inputs| == |inputs'| && forall x :: x in inputs <==> x in inputs'
    ensures Schedulable(inputs, less) <==> Schedulable(inputs', less)
    ensures forall g, g', a, b ::
              IsGraphOf(g, inputs) && IsGraphOf(g', inputs') && IsSchedule(g, a, less) && IsSchedule(g', b, less) ==>
              a == b
  {
    forall k
      ensures k in Surfaces(inputs) <==> k in Surfaces(inputs')
    {
      SameSurfaces(inputs, inputs', k);
      SameSurfaces(inputs', inputs, k);
    }
    DistinctAlike(Surfaces(inputs), Surfaces(inputs'));
    assert forall g :: IsGraphOf(g, inputs) <==> IsGraphOf(g, inputs');
    forall g, g', a, b |
      IsGraphOf(g, inputs) && IsGraphOf(g', inputs') && IsSchedule(g, a, less) && IsSchedule(g', b, less)
      ensures a == b
    {
      GraphOrderFree(inputs, inputs', g, g');
      ScheduleUnique(g, a, b, less);
    }
  }

  /** Every dependency is scheduled strictly before its dependent. */
  lemma DependenciesFirst<K(!new)>(g: Graph<K>, xs: seq<Scheduled<K>>, less: (K, K) -> bool, i: nat, j: nat)
    requires StrictTotal(less) && IsSchedule(g, xs, less) && i < |xs| && j < |xs|
    requires xs[j].surface in xs[i].dependencies
    ensures j < i && xs[j].level < xs[i].level
  {
    assert Describes(g, xs[i]) && Describes(g, xs[j]);
    var p :| ChainFrom(g, xs[j].surface, p) && |p| == xs[j].level + 1;
    ChainCons(g, xs[i].surface, p);
    assert ChainFrom(g, xs[i].surface, [xs[i].surface] + p);
  }

  // ---- Scheduling ----

  method BuildGraph<K(!new, ==)>(inputs: seq<Input<K>>) returns (g: Graph<K>)
    ensures |g| == |inputs| <==> Distinct(Surfaces(inputs))
    ensures |g| == |inputs| ==> IsGraphOf(g, inputs)
  {
    g := map[];
    ghost var names := Surfaces(inputs);
    for i := 0 to |inputs|
      invariant g.Keys == set k | k in names[..i]
      invariant forall k :: k in g ==> g[k] in inputs && g[k].surface == k
      invariant Distinct(names) ==>
                  forall x :: 0 <= x < i ==> inputs[x].surface in g && g[inputs[x].surface] == inputs[x]
    {
      assert names[..i + 1] == names[..i] + [inputs[i].surface];
      if Distinct(names) {
        DistinctLast(names, i);
      }
      g := g[inputs[i].surface := inputs[i]];
    }
    assert names[..|inputs|] == names;
    FullSizeIsDistinct(names);
    if Distinct(names) {
      DistinctSize(names);
    }
  }

  /** The highest level among the dependencies that have one. */
  method Highest<K(!new, ==)>(dependencies: seq<K>, levels: map<K, nat>) returns (m: Option<nat>)
    requires forall d :: d in dependencies ==> d in levels
    ensures m.None? <==> dependencies == []
    ensures m.Some? ==> forall d :: d in dependencies ==> levels[d] <= m.value
    ensures m.Some? ==> exists d :: d in dependencies && levels[d] == m.value
  {
    m := None;
    for i := 0 to |dependencies|
      invariant m.None? <==> i == 0
      invariant m.Some? ==> forall j :: 0 <= j < i ==> levels[dependencies[j]] <= m.value
      invariant m.Some? ==> exists d :: d in dependencies && levels[d] == m.value
    {
      var d := dependencies[i];
      if m.None? || m.value < levels[d] {
        m := Some(levels[d]);
      }
    }
  }

  /** Levels assigned so far: right for their surfaces, and below the number of levelled surfaces. */
  ghost predicate Assigned<K>(g: Graph<K>, levels: map<K, nat>) {
    && Levelled(g, levels)
    && levels.Keys <= g.Keys
    && forall k :: k in levels ==> levels[k] < |levels|
  }

  predicate Ready<K(==)>(g: Graph<K>, levels: map<K, nat>, k: K)
    requires k in g
  {
    k !in levels && forall d :: d in g[k].dependencies ==> d in levels
  }

  lemma RaiseAssigned<K>(g: Graph<K>, levels: map<K, nat>, k: K, level: nat)
    requires Assigned(g, levels) && k in g && Ready(g, levels, k)
    requires forall d :: d in g[k].dependencies ==> levels[d] < level
    requires level > 0 ==> exists d :: d in g[k].dependencies && levels[d] + 1 == level
    requires level <= |levels|
    ensures Assigned(g, levels[k := level])
  {
    var r := levels[k := level];
    assert r.Keys == levels.Keys + {k};
    assert LevelAt(g, r, k) by {
      if level > 0 {
        var d :| d in g[k].dependencies && levels[d] + 1 == level;
        assert r[d] + 1 == level;
      }
    }
    forall x | x in r && x != k
      ensures LevelAt(g, r, x)
    {
      LevelStays(g, levels, x, k, level);
    }
  }

  lemma LevelStays<K>(g: Graph<K>, levels: map<K, nat>, x: K, k: K, level: nat)
    requires x in levels && LevelAt(g, levels, x) && k !in levels
    ensures LevelAt(g, levels[k := level], x)
  {
    var r := levels[k := level];
    if levels[x] > 0 {
      var d :| d in g[x].dependencies && d in levels && levels[d] + 1 == levels[x];
      assert d in r && r[d] + 1 == r[x];
    }
  }

  /** Give one ready surface its level; the 32-bit level is never exhausted. */
  method LevelOne<K(!new, ==)>(g: Graph<K>, levels: map<K, nat>, k: K) returns (next: map<K, nat>)
    requires Assigned(g, levels) && |g| <= MAX_NODES && k in g && Ready(g, levels, k)
    ensures Assigned(g, next) && next.Keys == levels.Keys + {k}
  {
    var m := Highest(g[k].dependencies, levels);
    LevelAbove(g, levels, k, m);
    next := levels[k := Above(m)];
  }

  function Above(m: Option<nat>): nat {
    if m.None? then 0 else m.value + 1
  }

  lemma LevelAbove<K>(g: Graph<K>, levels: map<K, nat>, k: K, m: Option<nat>)
    requires Assigned(g, levels) && |g| <= MAX_NODES && k in g && Ready(g, levels, k)
    requires m.None? <==> g[k].dependencies == []
    requires m.Some? ==> forall d :: d in g[k].dependencies ==> levels[d] <= m.value
    requires m.Some? ==> exists d :: d in g[k].dependencies && levels[d] == m.value
    ensures Above(m) <= U32_MAX && Assigned(g, levels[k := Above(m)])
  {
    SubsetSize(levels.Keys, g.Keys);
    assert Above(m) <= |levels|;
    RaiseAssigned(g, levels, k, Above(m));
  }


  /** One round: give every ready surface its level. */
  method LevelReady<K(!new, ==)>(g: Graph<K>, levels: map<K, nat>, ready: set<K>) returns (next: map<K, nat>)
    requires Assigned(g, levels) && |g| <= MAX_NODES
    requires forall k :: k in ready ==> k in g && Ready(g, levels, k)
    ensures Assigned(g, next)
    ensures levels.Keys <= next.Keys && ready <= next.Keys
  {
    next := levels;
    var rest := ready;
    while rest != {}
      invariant rest <= ready && rest !! next.Keys
      invariant levels.Keys <= next.Keys
      invariant forall k :: k in ready ==> k in rest || k in next
      invariant Assigned(g, next)
      decreases rest
    {
      var k :| k in rest;
      next := LevelOne(g, next, k);
      rest := rest - {k};
    }
  }

  /** Level by level, until every surface has one or none is ready. */
  method AssignLevels<K(!new, ==)>(g: Graph<K>) returns (r: Result<map<K, nat>>)
    requires Closed(g) && |g| <= MAX_NODES
    ensures r.Ok? <==> !Cyclic(g)
    ensures r.Ok? ==> Levelled(g, r.value) && r.value.Keys == g.Keys
  {
    var levels: map<K, nat> := map[];
    while |levels| < |g|
      invariant Assigned(g, levels)
      decreases g.Keys - levels.Keys
    {
      var ready := set k | k in g && Ready(g, levels, k);
      if ready == {} {
        NoneReady(g, levels, ready);
        return Err(Invalid);
      }
      levels := LevelReady(g, levels, ready);
    }
    SubsetSize(levels.Keys, g.Keys);
    SameSizeSubset(levels.Keys, g.Keys);
    LevelledIsAcyclic(g, levels);
    r := Ok(levels);
  }

  lemma NoneReady<K(!new)>(g: Graph<K>, levels: map<K, nat>, ready: set<K>)
    requires Closed(g) && levels.Keys <= g.Keys && |levels| < |g|
    requires ready == {} && forall k :: k in g && Ready(g, levels, k) ==> k in ready
    ensures Cyclic(g)
  {
    var stuck := g.Keys - levels.Keys;
    LargerHasMore(levels.Keys, g.Keys);
    forall u | u in stuck
      ensures WaitsIn(g, stuck, u)
    {
      assert !Ready(g, levels, u);
      var d :| d in g[u].dependencies && d !in levels;
      assert d in stuck;
    }
    StuckIsCyclic(g, stuck);
  }

  /** The worklist: required surfaces found so far, of which only pending ones may still have unfound dependencies. */
  ghost predicate Frontier<K(!new)>(g: Graph<K>, required: set<K>, pending: seq<K>) {
    && required <= g.Keys
    && (forall k :: k in g && !g[k].optional ==> k in required)
    && (forall k :: k in required ==> Required(g, k))
    && (forall k :: k in pending ==> k in required)
    && (forall k :: k in required ==> k in pending || Followed(g, required, k))
  }

  ghost predicate Followed<K>(g: Graph<K>, required: set<K>, k: K) {
    k in g && forall d :: d in g[k].dependencies ==> d in required
  }

  /** Pop the last pending surface and push the dependencies not yet known to be required. */
  method Follow<K(!new, ==)>(g: Graph<K>, required: set<K>, pending: seq<K>)
    returns (required': set<K>, pending': seq<K>)
    requires Closed(g) && pending != [] && Frontier(g, required, pending)
    ensures Frontier(g, required', pending')
    ensures g.Keys - required' < g.Keys - required || (required' == required && |pending'| < |pending|)
  {
    var k := pending[|pending| - 1];
    var rest := pending[..|pending| - 1];
    StartGrown(g, required, pending);
    required', pending' := Expand(g, required, rest, pending, k);
    FollowedFrontier(g, required, pending, k, required', pending');
  }


  method Expand<K(!new, ==)>(g: Graph<K>, required: set<K>, rest: seq<K>, ghost pending: seq<K>, k: K)
    returns (required': set<K>, pending': seq<K>)
    requires Closed(g) && k in required && Grown(g, required, pending, k, required, rest)
    ensures Grown(g, required, pending, k, required', pending')
    ensures forall d :: d in g[k].dependencies ==> d in required'
    ensures required' == required ==> |pending'| == |rest|
  {
    required', pending' := required, rest;
    for i := 0 to |g[k].dependencies|
      invariant Grown(g, required, pending, k, required', pending')
      invariant forall d :: d in g[k].dependencies[..i] ==> d in required'
      invariant required' == required ==> |pending'| == |rest|
    {
      var d := g[k].dependencies[i];
      assert g[k].dependencies[..i + 1] == g[k].dependencies[..i] + [d];
      if d !in required' {
        AddGrown(g, required, pending, k, required', pending', d);
        required', pending' := required' + {d}, pending' + [d];
      }
    }
    assert g[k].dependencies[..|g[k].dependencies|] == g[k].dependencies;
  }

  /** The worklist while the dependencies of `k` are being added. */
  ghost predicate Grown<K(!new)>(
    g: Graph<K>, required: set<K>, pending: seq<K>, k: K, required': set<K>, pending': seq<K>)
  {
    && required <= required' <= g.Keys
    && (forall x :: x in required' ==> Required(g, x))
    && (forall x :: x in pending' ==> x in required')
    && (forall x :: x in required' && x !in required ==> x in pending')
    && (forall x :: x in pending && x != k ==> x in pending')
  }

  lemma StartGrown<K(!new)>(g: Graph<K>, required: set<K>, pending: seq<K>)
    requires pending != [] && Frontier(g, required, pending)
    ensures pending[|pending| - 1] in required
    ensures Grown(g, required, pending, pending[|pending| - 1], required, pending[..|pending| - 1])
  {
    var k, rest := pending[|pending| - 1], pending[..|pending| - 1];
    assert k in pending;
    forall x | x in pending && x != k
      ensures x in rest
    {
      var i :| 0 <= i < |pending| && pending[i] == x;
      assert rest[i] == x;
    }
  }

  lemma AddGrown<K(!new)>(
    g: Graph<K>, required: set<K>, pending: seq<K>, k: K, required': set<K>, pending': seq<K>, d: K)
    requires Closed(g) && Grown(g, required, pending, k, required', pending')
    requires k in required && d in g[k].dependencies
    ensures Grown(g, required, pending, k, required' + {d}, pending' + [d])
  {
    RequiredStep(g, k, d);
    assert forall x :: x in pending' + [d] <==> x in pending' || x == d;
  }

  lemma FollowedFrontier<K(!new)>(
    g: Graph<K>, required: set<K>, pending: seq<K>, k: K, required': set<K>, pending': seq<K>)
    requires Frontier(g, required, pending) && Grown(g, required, pending, k, required', pending')
    requires k in g && forall d :: d in g[k].dependencies ==> d in required'
    ensures Frontier(g, required', pending')
  {
    forall x | x in required' && x !in pending'
      ensures Followed(g, required', x)
    {
      assert x == k || Followed(g, required, x);
    }
  }

  /** The worklist closure of the mandatory surfaces. */
  method CloseRequired<K(!new, ==)>(g: Graph<K>) returns (required: set<K>)
    requires Closed(g)
    ensures forall k :: k in required <==> k in g && Required(g, k)
  {
    required := set k | k in g && !g[k].optional;
    var pending := Listed(required);
    StartFrontier(g, required, pending);
    while pending != []
      invariant Frontier(g, required, pending)
      decreases g.Keys - required, |pending|
    {
      required, pending := Follow(g, required, pending);
    }
    assert pending == [];
    FrontierDone(g, required);
  }

  lemma StartFrontier<K(!new)>(g: Graph<K>, required: set<K>, pending: seq<K>)
    requires required == (set k | k in g && !g[k].optional) && forall k :: k in pending <==> k in required
    ensures Frontier(g, required, pending)
  {
    forall k | k in required
      ensures Required(g, k)
    {
      ReachesSelf(g, k);
    }
  }

  lemma FrontierDone<K(!new)>(g: Graph<K>, required: set<K>)
    requires Frontier(g, required, [])
    ensures forall k :: k in required <==> k in g && Required(g, k)
  {
    assert forall k :: k in required ==> Followed(g, required, k);
    forall k | k in g && Required(g, k)
      ensures k in required
    {
      RequiredIsCovered(g, required, k);
    }
  }

  method Listed<K(==)>(s: set<K>) returns (xs: seq<K>)
    ensures forall x :: x in xs <==> x in s
  {
    xs := [];
    var rest := s;
    while rest != {}
      invariant rest <= s
      invariant forall x :: x in xs <==> x in s - rest
      decreases rest
    {
      var x :| x in rest;
      xs := xs + [x];
      rest := rest - {x};
    }
  }

  method Arrange<K(!new, ==)>(g: Graph<K>, levels: map<K, nat>, required: set<K>, less: (K, K) -> bool)
    returns (xs: seq<Scheduled<K>>)
    requires StrictTotal(less) && Levelled(g, levels) && levels.Keys == g.Keys
    requires forall k :: k in required <==> k in g && Required(g, k)
    ensures IsSchedule(g, xs, less)
  {
    SlotTotal(less);
    var places := set k | k in g :: Slot(levels[k], k);
    var slots := SortedList(places, SlotOrder(less));
    assert forall i :: 0 <= i < |slots| ==> slots[i] in slots;
    xs := seq(|slots|, i requires 0 <= i < |slots| =>
      var k := slots[i].surface;
      Scheduled(k, levels[k], k in required, g[k].dependencies));
    forall i | 0 <= i < |slots|
      ensures Describes(g, xs[i]) && SlotOf(xs[i]) == slots[i]
    {
      LevelIsDepth(g, levels, slots[i].surface);
    }
    forall k | k in g
      ensures Slot(levels[k], k) in slots
    {
      assert Slot(levels[k], k) in places;
    }
    SlotsCover(g, levels, slots, xs);
  }

  lemma SlotsCover<K(!new)>(g: Graph<K>, levels: map<K, nat>, slots: seq<Slot<K>>, xs: seq<Scheduled<K>>)
    requires levels.Keys == g.Keys && |xs| == |slots| && forall i :: 0 <= i < |xs| ==> SlotOf(xs[i]) == slots[i]
    requires forall k :: k in g ==> Slot(levels[k], k) in slots
    ensures forall k :: k in g ==> exists x :: x in xs && x.surface == k
  {
    forall k | k in g
      ensures exists x :: x in xs && x.surface == k
    {
      assert Slot(levels[k], k) in slots;
      var i :| 0 <= i < |slots| && slots[i] == Slot(levels[k], k);
      assert xs[i] in xs && SlotOf(xs[i]) == slots[i];
    }
  }

  /** The dependencies of one surface, pair by pair and one by one. */
  method CheckNode<K(!new, ==)>(g: Graph<K>, k: K, less: (K, K) -> bool) returns (ok: bool)
    requires StrictTotal(less) && k in g
    ensures ok <==> GoodNode(g, k, less)
  {
    var ds := g[k].dependencies;
    for i := 0 to |ds|
      invariant forall a, b :: 0 <= a < b < i ==> less(ds[a], ds[b])
      invariant forall a :: 0 <= a < i ==> ds[a] != k && ds[a] in g
    {
      if ds[i] == k || ds[i] !in g || (i > 0 && !less(ds[i - 1], ds[i])) {
        assert ds[i] in ds;
        return false;
      }
      forall a | 0 <= a < i
        ensures less(ds[a], ds[i])
      {
        assert a < i - 1 ==> less(ds[a], ds[i - 1]);
      }
    }
    ok := true;
  }

  method CheckNodes<K(!new, ==)>(g: Graph<K>, less: (K, K) -> bool) returns (ok: bool)
    requires StrictTotal(less)
    ensures ok <==> GoodGraph(g, less)
  {
    var rest := g.Keys;
    while rest != {}
      invariant rest <= g.Keys && forall k :: k in g && k !in rest ==> GoodNode(g, k, less)
      decreases rest
    {
      var k :| k in rest;
      var good := CheckNode(g, k, less);
      if !good {
        return false;
      }
      rest := rest - {k};
    }
    ok := true;
  }

  /**
   * Schedule the selected surfaces. Succeeds exactly on a well-formed acyclic graph; the
   * result is its one schedule: ordered by level and then identity, each level the longest
   * dependency chain below the surface, and `required` exactly the surfaces a mandatory
   * one depends on, directly or not, or is.
   */
  method Schedule<K(!new, ==)>(inputs: seq<Input<K>>, less: (K, K) -> bool)
    returns (r: Result<seq<Scheduled<K>>>, ghost g: Graph<K>)
    requires StrictTotal(less)
    ensures r.Ok? <==> Schedulable(inputs, less)
    ensures r.Ok? ==> IsGraphOf(g, inputs) && GoodGraph(g, less) && IsSchedule(g, r.value, less)
  {
    g := map[];
    if inputs == [] || |inputs| > MAX_NODES {
      return Err(Invalid), g;
    }
    var nodes := BuildGraph(inputs);
    g := nodes;
    if |nodes| != |inputs| {
      return Err(Invalid), g;
    }
    SchedulableIs(inputs, nodes, less);
    var good := CheckNodes(nodes, less);
    if !good {
      return Err(Invalid), g;
    }
    assert Closed(nodes) by {
      assert forall k :: k in nodes ==> GoodNode(nodes, k, less);
    }
    var levels := AssignLevels(nodes);
    if levels.Err? {
      return Err(Invalid), g;
    }
    var required := CloseRequired(nodes);
    var scheduled := Arrange(nodes, levels.value, required, less);
    r := Ok(scheduled);
  }

  lemma SchedulableIs<K(!new)>(inputs: seq<Input<K>>, g: Graph<K>, less: (K, K) -> bool)
    requires 0 < |inputs| <= MAX_NODES && Distinct(Surfaces(inputs)) && IsGraphOf(g, inputs)
    ensures Schedulable(inputs, less) <==> GoodGraph(g, less) && !Cyclic(g)
  {
    GraphUnique(inputs, g);
  }

  lemma GraphUnique<K(!new)>(inputs: seq<Input<K>>, g: Graph<K>)
    requires IsGraphOf(g, inputs)
    ensures forall g' :: IsGraphOf(g', inputs) ==> g' == g
  {
    forall g' | IsGraphOf(g', inputs)
      ensures g' == g
    {
      assert forall k :: k in g' ==> g'[k] in inputs;
      assert forall k :: k in g ==> g[k] in inputs;
    }
  }
}
