/** Reconciling the desired and observed state of one plugin's surfaces. */
module SurfaceReconciler {
  import opened Outcomes
  import opened SurfaceGraph
  import opened SurfaceScheduler
  import opened SurfaceRefs

  datatype PluginDesired = Absent | InstalledDisabled | Enabled

  datatype PluginObserved =
    | Removed | Installed | Draining | Reconciling | Incompatible | Broken | Degraded | Ready

  datatype Desired = WantStopped | WantPrepared | WantHealthy

  datatype Observed = Pending | Prepared | Starting | Healthy | Failed | DrainingSurface | Stopped

  datatype SurfaceOwner = FlowHost | KnowledgeHost | Runtime | McpHost | SkillHost | UiHost

  datatype Activation = Eager | Lazy

  datatype Reason =
    | ObservationMissing(owner: SurfaceOwner)
    | PackageNotEnabled
    | DependencyPending
    | DependencyFailed
    | HostIncompatible

  datatype Node = Node(input: Input<SurfaceRef>, activation: Activation)

  datatype Reconciled = Reconciled(
    surface: SurfaceRef,
    owner: SurfaceOwner,
    level: nat,
    required: bool,
    desired: Desired,
    observed: Observed,
    dependencies: seq<SurfaceRef>,
    published: bool,
    reason: Option<Reason>)

  datatype Snapshot = Snapshot(observed: PluginObserved, capabilityReady: bool, surfaces: seq<Reconciled>)

  type Observations = map<SurfaceRef, Observed>

  type Nodes = map<SurfaceRef, Node>

  type Deps = Graph<SurfaceRef>

  function OwnerOf(k: Kind): SurfaceOwner {
    match k
    case Flow => FlowHost
    case Tool => Runtime
    case Mcp => McpHost
    case Okf => KnowledgeHost
    case Skill => SkillHost
    case Ui => UiHost
  }

  function DesiredState(n: Node, plugin: PluginDesired): Desired {
    if plugin != Enabled then WantStopped
    else
      match OwnerOf(n.input.surface.kind)
      case KnowledgeHost => WantHealthy
      case Runtime => if n.activation == Eager then WantHealthy else WantPrepared
      case McpHost => if n.activation == Eager then WantHealthy else WantPrepared
      case _ => WantPrepared
  }

  predicate Satisfied(d: Desired, o: Observed) {
    if o == Starting || o == DrainingSurface then false
    else
      match d
      case WantStopped => o == Stopped
      case WantPrepared => o == Prepared || o == Healthy
      case WantHealthy => o == Healthy
  }

  type Evaluated = map<SurfaceRef, (Desired, Observed)>

  /** One surface, given what its dependencies were evaluated to. */
  function ObservedState(
    n: Node, plugin: PluginDesired, compatible: bool, explicit: Option<Observed>, evaluated: Evaluated)
    : (r: (Observed, Option<Reason>))
  {
    if plugin != Enabled then
      match explicit
      case Some(o) => (o, None)
      case None => (Stopped, Some(PackageNotEnabled))
    else if !compatible then (Failed, Some(HostIncompatible))
    else
      var base := match explicit
        case Some(o) => (o, None)
        case None => (Pending, Some(ObservationMissing(OwnerOf(n.input.surface.kind))));
      if base.0 == Failed then base
      else if exists d :: d in n.input.dependencies && d in evaluated && evaluated[d].1 == Failed
      then (Failed, Some(DependencyFailed))
      else if exists d :: d in n.input.dependencies
                          && (d in evaluated ==> !Satisfied(evaluated[d].0, evaluated[d].1))
      then (Pending, Some(DependencyPending))
      else base
  }

  predicate Unsatisfied(s: Reconciled) {
    !Satisfied(s.desired, s.observed)
  }

  predicate AllStopped(surfaces: seq<Reconciled>) {
    forall s :: s in surfaces ==> s.observed == Stopped
  }

  predicate SomeDraining(surfaces: seq<Reconciled>) {
    exists s :: s in surfaces && s.observed == DrainingSurface
  }

  predicate SomeRequiredFailed(surfaces: seq<Reconciled>) {
    exists s :: s in surfaces && s.required && s.observed == Failed
  }

  predicate SomeUnsatisfied(surfaces: seq<Reconciled>, required: bool) {
    exists s :: s in surfaces && s.required == required && Unsatisfied(s)
  }

  function Aggregate(plugin: PluginDesired, compatible: bool, surfaces: seq<Reconciled>): (r: PluginObserved) {
    if plugin != Absent && !compatible then Incompatible
    else
      match plugin
      case Absent => if AllStopped(surfaces) then Removed else Draining
      case InstalledDisabled =>
        if AllStopped(surfaces) then Installed
        else if SomeDraining(surfaces) then Draining
        else Reconciling
      case Enabled =>
        if SomeRequiredFailed(surfaces) then Broken
        else if SomeUnsatisfied(surfaces, true) then Reconciling
        else if SomeUnsatisfied(surfaces, false) then Degraded
        else Ready
  }

  // ---- The graph meaning ----

  /** A manifest: its surfaces, each once, with dependencies that form the graph `g`. */
  ghost predicate IsManifest(nodes: Nodes, g: Deps) {
    nodes.Keys == g.Keys && forall k :: k in g ==> nodes[k].input == g[k] && g[k].surface == k
  }

  /** Each kind of surface has a host of its own. */
  ghost predicate Hosts(o: SurfaceOwner, k: Kind) {
    && (o == FlowHost <==> k == Flow)
    && (o == KnowledgeHost <==> k == Okf)
    && (o == Runtime <==> k == Tool)
    && (o == McpHost <==> k == Mcp)
    && (o == SkillHost <==> k == Skill)
    && (o == UiHost <==> k == Ui)
  }

  /** A surface that has to be running, not just prepared, once its plugin is enabled. */
  ghost predicate MustRun(n: Node) {
    n.input.surface.kind == Okf || (n.input.surface.kind in {Tool, Mcp} && n.activation == Eager)
  }

  /** What is wanted of a surface. */
  ghost predicate Wants(n: Node, plugin: PluginDesired, d: Desired) {
    && (d == WantStopped <==> plugin != Enabled)
    && (d == WantHealthy <==> plugin == Enabled && MustRun(n))
    && (d == WantPrepared <==> plugin == Enabled && !MustRun(n))
  }

  /** An observation that is enough for a surface of an enabled plugin. */
  ghost predicate Enough(n: Node, o: Observed) {
    o == Healthy || (o == Prepared && !MustRun(n))
  }

  lemma HostedByKind(k: Kind, o: SurfaceOwner)
    ensures OwnerOf(k) == o <==> Hosts(o, k)
  {}

  lemma WantedByKind(n: Node, plugin: PluginDesired, d: Desired)
    ensures DesiredState(n, plugin) == d <==> Wants(n, plugin, d)
  {}

  /** Comparing the wanted and the observed state decides exactly whether the observation is enough. */
  lemma SatisfiedIsEnough(n: Node, o: Observed)
    ensures Satisfied(DesiredState(n, Enabled), o) <==> Enough(n, o)
  {}

  /** The surface's own observation is there and is enough. */
  ghost predicate SelfSatisfied(nodes: Nodes, obs: Observations, k: SurfaceRef) {
    k in nodes && k in obs && Enough(nodes[k], obs[k])
  }

  /** So are those of everything it depends on, directly or not. */
  ghost predicate ClosureSatisfied(nodes: Nodes, g: Deps, obs: Observations, k: SurfaceRef) {
    forall j :: Reaches(g, k, j) ==> SelfSatisfied(nodes, obs, j)
  }

  ghost predicate SelfFailed(obs: Observations, k: SurfaceRef) {
    k in obs && obs[k] == Failed
  }

  ghost predicate ClosureFailed(g: Deps, obs: Observations, k: SurfaceRef) {
    exists j :: Reaches(g, k, j) && SelfFailed(obs, j)
  }

  /** An evaluation result that says about `k` exactly what its dependency closure says. */
  ghost predicate Exact(nodes: Nodes, g: Deps, obs: Observations, k: SurfaceRef, e: (Desired, Observed)) {
    && (Satisfied(e.0, e.1) <==> ClosureSatisfied(nodes, g, obs, k))
    && (e.1 == Failed <==> ClosureFailed(g, obs, k))
  }

  lemma ClosureFailedSplit(g: Deps, obs: Observations, k: SurfaceRef)
    requires k in g
    ensures ClosureFailed(g, obs, k) <==>
              SelfFailed(obs, k) || exists d :: d in g[k].dependencies && ClosureFailed(g, obs, d)
  {
    if ClosureFailed(g, obs, k) {
      var j :| Reaches(g, k, j) && SelfFailed(obs, j);
      ReachesSplit(g, k, j);
    }
    ReachesSelf(g, k);
    forall d | d in g[k].dependencies && ClosureFailed(g, obs, d)
      ensures ClosureFailed(g, obs, k)
    {
      var j :| Reaches(g, d, j) && SelfFailed(obs, j);
      ReachesVia(g, k, d, j);
    }
  }

  lemma ClosureSatisfiedSplit(nodes: Nodes, g: Deps, obs: Observations, k: SurfaceRef)
    requires k in g
    ensures ClosureSatisfied(nodes, g, obs, k) <==>
              && SelfSatisfied(nodes, obs, k)
              && forall d :: d in g[k].dependencies ==> ClosureSatisfied(nodes, g, obs, d)
  {
    ReachesSelf(g, k);
    if ClosureSatisfied(nodes, g, obs, k) {
      forall d, j | d in g[k].dependencies && Reaches(g, d, j)
        ensures SelfSatisfied(nodes, obs, j)
      {
        ReachesVia(g, k, d, j);
      }
    }
    if SelfSatisfied(nodes, obs, k) && forall d :: d in g[k].dependencies ==> ClosureSatisfied(nodes, g, obs, d) {
      forall j | Reaches(g, k, j)
        ensures SelfSatisfied(nodes, obs, j)
      {
        ReachesSplit(g, k, j);
      }
    }
  }

  function Explicit(obs: Observations, k: SurfaceRef): Option<Observed> {
    if k in obs then Some(obs[k]) else None
  }

  /**
   * One step of the one-pass evaluation agrees with the graph: given exact results for the
   * dependencies, the surface's result is exact.
   */
  lemma EvaluateExact(nodes: Nodes, g: Deps, obs: Observations, evaluated: Evaluated, k: SurfaceRef)
    requires IsManifest(nodes, g) && k in g
    requires forall d :: d in g[k].dependencies ==> d in evaluated && Exact(nodes, g, obs, d, evaluated[d])
    ensures Exact(nodes, g, obs, k,
                  (DesiredState(nodes[k], Enabled),
                   ObservedState(nodes[k], Enabled, true, Explicit(obs, k), evaluated).0))
  {
    ClosureFailedSplit(g, obs, k);
    ClosureSatisfiedSplit(nodes, g, obs, k);
  }

  /** What the graph and the observations say about one surface, and why. */
  ghost function StateOf(
    nodes: Nodes, g: Deps, plugin: PluginDesired, compatible: bool, obs: Observations, k: SurfaceRef)
    : (Observed, Option<Reason>)
    requires k in g
  {
    if plugin != Enabled then
      if k in obs then (obs[k], None) else (Stopped, Some(PackageNotEnabled))
    else if !compatible then (Failed, Some(HostIncompatible))
    else if SelfFailed(obs, k) then (Failed, None)
    else if ClosureFailed(g, obs, k) then (Failed, Some(DependencyFailed))
    else if exists d :: d in g[k].dependencies && !ClosureSatisfied(nodes, g, obs, d)
    then (Pending, Some(DependencyPending))
    else if k in obs then (obs[k], None)
    else (Pending, Some(ObservationMissing(OwnerOf(k.kind))))
  }

  lemma EvaluateMeans(nodes: Nodes, g: Deps, obs: Observations, evaluated: Evaluated, k: SurfaceRef)
    requires IsManifest(nodes, g) && k in g
    requires forall d :: d in g[k].dependencies ==> d in evaluated && Exact(nodes, g, obs, d, evaluated[d])
    ensures ObservedState(nodes[k], Enabled, true, Explicit(obs, k), evaluated) ==
            StateOf(nodes, g, Enabled, true, obs, k)
  {
    ClosureFailedSplit(g, obs, k);
  }

  // ---- Readiness and publication ----

  /** Every required surface has the wanted observation of its own. */
  ghost predicate CapabilityReady(
    nodes: Nodes, g: Deps, plugin: PluginDesired, compatible: bool, obs: Observations)
  {
    && plugin == Enabled && compatible
    && forall k :: k in g && Required(g, k) ==> SelfSatisfied(nodes, obs, k)
  }

  ghost predicate Publishes(
    nodes: Nodes, g: Deps, plugin: PluginDesired, compatible: bool, obs: Observations, k: SurfaceRef)
  {
    && k in g
    && CapabilityReady(nodes, g, plugin, compatible, obs)
    && ClosureSatisfied(nodes, g, obs, k)
  }

  /** What the observations and the graph say about the plugin as a whole. */
  ghost function PluginState(
    nodes: Nodes, g: Deps, plugin: PluginDesired, compatible: bool, obs: Observations): PluginObserved
  {
    if plugin != Absent && !compatible then Incompatible
    else
      match plugin
      case Absent => if NothingRuns(g, obs) then Removed else Draining
      case InstalledDisabled =>
        if NothingRuns(g, obs) then Installed
        else if exists k :: k in g && k in obs && obs[k] == DrainingSurface then Draining
        else Reconciling
      case Enabled =>
        if exists k :: k in g && Required(g, k) && SelfFailed(obs, k) then Broken
        else if !CapabilityReady(nodes, g, plugin, compatible, obs) then Reconciling
        else if exists k :: k in g && !SelfSatisfied(nodes, obs, k) then Degraded
        else Ready
  }

  ghost predicate NothingRuns(g: Deps, obs: Observations) {
    forall k :: k in g && k in obs ==> obs[k] == Stopped
  }

  lemma {:induction false} ChainRequired(g: Deps, p: seq<SurfaceRef>)
    requires Closed(g) && IsChain(g, p) && Required(g, p[0])
    ensures p[|p| - 1] in g && Required(g, p[|p| - 1])
    decreases |p|
  {
    if |p| > 1 {
      ChainTail(g, p);
      RequiredStep(g, p[0], p[1]);
      ChainRequired(g, p[1..]);
    }
  }

  /** For required surfaces, own observations decide what their closures say. */
  lemma RequiredClosures(nodes: Nodes, g: Deps, obs: Observations)
    requires Closed(g)
    ensures (forall k :: k in g && Required(g, k) ==> SelfSatisfied(nodes, obs, k)) <==>
            (forall k :: k in g && Required(g, k) ==> ClosureSatisfied(nodes, g, obs, k))
  {
    forall k | k in g && Required(g, k)
      ensures ClosureSatisfied(nodes, g, obs, k) ==> SelfSatisfied(nodes, obs, k)
    {
      ReachesSelf(g, k);
    }
    if forall k :: k in g && Required(g, k) ==> SelfSatisfied(nodes, obs, k) {
      forall k, j | k in g && Required(g, k) && Reaches(g, k, j)
        ensures SelfSatisfied(nodes, obs, j)
      {
        var p :| ChainTo(g, k, j, p);
        ChainRequired(g, p);
      }
    }
  }

  /** Whatever is published has all its dependencies published. */
  lemma PublicationIsClosed(
    nodes: Nodes, g: Deps, plugin: PluginDesired, compatible: bool, obs: Observations, k: SurfaceRef, j: SurfaceRef)
    requires Publishes(nodes, g, plugin, compatible, obs, k) && Reaches(g, k, j)
    ensures Publishes(nodes, g, plugin, compatible, obs, j)
  {
    var p :| ChainTo(g, k, j, p);
    forall i | Reaches(g, j, i)
      ensures SelfSatisfied(nodes, obs, i)
    {
      var q :| ChainTo(g, j, i, q);
      ChainJoin(g, p, q);
      assert ChainTo(g, k, i, p + q[1..]);
    }
  }

  lemma ChainJoin(g: Deps, p: seq<SurfaceRef>, q: seq<SurfaceRef>)
    requires IsChain(g, p) && IsChain(g, q) && p[|p| - 1] == q[0]
    ensures IsChain(g, p + q[1..]) && (p + q[1..])[|p + q[1..]| - 1] == q[|q| - 1]
  {
    var r := p + q[1..];
    forall i: nat | i + 1 < |r|
      ensures LinkAt(g, r, i)
    {
      if i + 1 < |p| {
        assert LinkAt(g, p, i);
      } else {
        assert LinkAt(g, q, i + 1 - |p|);
      }
    }
  }


  // ---- Reconciliation ----

  ghost function Inputs(manifest: seq<Node>): seq<Input<SurfaceRef>> {
    seq(|manifest|, i requires 0 <= i < |manifest| => manifest[i].input)
  }

  /** The evaluated list follows the schedule and, for an enabled compatible plugin, the graph. */
  ghost predicate Evaluation(
    nodes: Nodes, g: Deps, plugin: PluginDesired, compatible: bool, obs: Observations,
    scheduled: seq<Scheduled<SurfaceRef>>, surfaces: seq<Reconciled>)
  {
    && |surfaces| == |scheduled|
    && forall i :: 0 <= i < |surfaces| ==>
         Reported(nodes, g, plugin, compatible, obs, scheduled[i], surfaces[i])
  }

  ghost predicate Reported(
    nodes: Nodes, g: Deps, plugin: PluginDesired, compatible: bool, obs: Observations,
    x: Scheduled<SurfaceRef>, s: Reconciled)
  {
    && s.surface == x.surface && s.level == x.level && s.required == x.required && s.dependencies == x.dependencies
    && s.surface in nodes && s.surface in g
    && s.owner == OwnerOf(s.surface.kind)
    && s.desired == DesiredState(nodes[s.surface], plugin)
    && (s.observed, s.reason) == StateOf(nodes, g, plugin, compatible, obs, s.surface)
    && (plugin == Enabled && compatible ==> Exact(nodes, g, obs, s.surface, (s.desired, s.observed)))
  }

  method EvaluateOne(
    nodes: Nodes, ghost g: Deps, plugin: PluginDesired, compatible: bool, obs: Observations,
    x: Scheduled<SurfaceRef>, evaluated: Evaluated)
    returns (s: Reconciled)
    requires IsManifest(nodes, g) && x.surface in g
    requires forall d :: d in g[x.surface].dependencies ==> d in evaluated
    requires plugin == Enabled && compatible ==> AllExact(nodes, g, obs, evaluated)
    ensures Reported(nodes, g, plugin, compatible, obs, x, s) && !s.published
  {
    var n := nodes[x.surface];
    var seen := ObservedState(n, plugin, compatible, Explicit(obs, x.surface), evaluated);
    if plugin == Enabled && compatible {
      EvaluateExact(nodes, g, obs, evaluated, x.surface);
      EvaluateMeans(nodes, g, obs, evaluated, x.surface);
    }
    s := Reconciled(
      x.surface, OwnerOf(x.surface.kind), x.level, x.required, DesiredState(n, plugin), seen.0, x.dependencies, false,
      seen.1);
  }

  ghost predicate AllExact(nodes: Nodes, g: Deps, obs: Observations, evaluated: Evaluated) {
    forall k :: k in evaluated ==> Exact(nodes, g, obs, k, evaluated[k])
  }

  lemma ExtendExact(
    nodes: Nodes, g: Deps, obs: Observations, evaluated: Evaluated, k: SurfaceRef, e: (Desired, Observed))
    requires AllExact(nodes, g, obs, evaluated) && Exact(nodes, g, obs, k, e)
    ensures AllExact(nodes, g, obs, evaluated[k := e])
  {}

  lemma ExtendEvaluation(
    nodes: Nodes, g: Deps, plugin: PluginDesired, compatible: bool, obs: Observations,
    scheduled: seq<Scheduled<SurfaceRef>>, surfaces: seq<Reconciled>, s: Reconciled)
    requires |surfaces| < |scheduled|
    requires Evaluation(nodes, g, plugin, compatible, obs, scheduled[..|surfaces|], surfaces)
    requires Reported(nodes, g, plugin, compatible, obs, scheduled[|surfaces|], s)
    ensures Evaluation(nodes, g, plugin, compatible, obs, scheduled[..|surfaces| + 1], surfaces + [s])
  {
    forall i | 0 <= i <= |surfaces|
      ensures Reported(nodes, g, plugin, compatible, obs, scheduled[i], (surfaces + [s])[i])
    {
      if i < |surfaces| {
        assert Reported(nodes, g, plugin, compatible, obs, scheduled[..|surfaces|][i], surfaces[i]);
      }
    }
  }

  /** The single pass over the schedule. */
  method Evaluate(
    nodes: Nodes, ghost g: Deps, plugin: PluginDesired, compatible: bool, obs: Observations,
    scheduled: seq<Scheduled<SurfaceRef>>)
    returns (surfaces: seq<Reconciled>)
    requires IsManifest(nodes, g) && Closed(g) && IsSchedule(g, scheduled, RefLess)
    ensures Evaluation(nodes, g, plugin, compatible, obs, scheduled, surfaces)
    ensures forall s :: s in surfaces ==> !s.published
  {
    var evaluated: Evaluated := map[];
    surfaces := [];
    for i := 0 to |scheduled|
      invariant |surfaces| == i
      invariant forall j :: 0 <= j < i ==> scheduled[j].surface in evaluated
      invariant Evaluation(nodes, g, plugin, compatible, obs, scheduled[..i], surfaces)
      invariant forall s :: s in surfaces ==> !s.published
      invariant plugin == Enabled && compatible ==> AllExact(nodes, g, obs, evaluated)
    {
      DependenciesEvaluated(g, scheduled, evaluated, i);
      var s := EvaluateOne(nodes, g, plugin, compatible, obs, scheduled[i], evaluated);
      if plugin == Enabled && compatible {
        ExtendExact(nodes, g, obs, evaluated, s.surface, (s.desired, s.observed));
      }
      ExtendEvaluation(nodes, g, plugin, compatible, obs, scheduled, surfaces, s);
      evaluated := evaluated[s.surface := (s.desired, s.observed)];
      surfaces := surfaces + [s];
    }
    assert scheduled[..|scheduled|] == scheduled;
  }

  lemma DependenciesEvaluated(g: Deps, scheduled: seq<Scheduled<SurfaceRef>>, evaluated: Evaluated, i: nat)
    requires IsSchedule(g, scheduled, RefLess) && Closed(g) && i < |scheduled|
    requires forall j :: 0 <= j < i ==> scheduled[j].surface in evaluated
    ensures scheduled[i].surface in g
    ensures forall d :: d in g[scheduled[i].surface].dependencies ==> d in evaluated
  {
    RefOrder();
    assert Describes(g, scheduled[i]);
    forall d | d in g[scheduled[i].surface].dependencies
      ensures d in evaluated
    {
      assert d in g;
      var y :| y in scheduled && y.surface == d;
      var j :| 0 <= j < |scheduled| && scheduled[j] == y;
      DependenciesFirst(g, scheduled, RefLess, i, j);
    }
  }

  /** Where a surface is reported. */
  lemma SurfaceReported(
    nodes: Nodes, g: Deps, plugin: PluginDesired, compatible: bool, obs: Observations,
    scheduled: seq<Scheduled<SurfaceRef>>, surfaces: seq<Reconciled>, k: SurfaceRef)
    returns (s: Reconciled)
    requires IsSchedule(g, scheduled, RefLess) && k in g
    requires Evaluation(nodes, g, plugin, compatible, obs, scheduled, surfaces)
    ensures s in surfaces && s.surface == k
  {
    var x :| x in scheduled && x.surface == k;
    var i :| 0 <= i < |scheduled| && scheduled[i] == x;
    s := surfaces[i];
    assert Reported(nodes, g, plugin, compatible, obs, scheduled[i], s);
  }

  /** Everything but publication is what the manifest, the graph and the observations say. */
  ghost predicate Reflects(
    nodes: Nodes, g: Deps, plugin: PluginDesired, compatible: bool, obs: Observations, s: Reconciled)
  {
    && s.surface in nodes && s.surface in g
    && Hosts(s.owner, s.surface.kind)
    && Depth(g, s.surface, s.level)
    && (s.required <==> Required(g, s.surface))
    && s.dependencies == g[s.surface].dependencies
    && Wants(nodes[s.surface], plugin, s.desired)
    && (s.observed, s.reason) == StateOf(nodes, g, plugin, compatible, obs, s.surface)
    && (s.reason.Some? && s.reason.value.ObservationMissing? ==> s.reason.value.owner == s.owner)
    && (plugin == Enabled && compatible ==> Exact(nodes, g, obs, s.surface, (s.desired, s.observed)))
  }

  /** By level, then by identity. */
  ghost predicate InSequence(surfaces: seq<Reconciled>) {
    forall i, j :: 0 <= i < j < |surfaces| ==>
      surfaces[i].level < surfaces[j].level
      || (surfaces[i].level == surfaces[j].level && RefLess(surfaces[i].surface, surfaces[j].surface))
  }

  /** One report for every surface, in sequence, each saying and publishing what it should. */
  ghost predicate SurfacesExact(
    nodes: Nodes, g: Deps, plugin: PluginDesired, compatible: bool, obs: Observations,
    surfaces: seq<Reconciled>)
  {
    && (forall k :: k in g ==> exists s :: s in surfaces && s.surface == k)
    && InSequence(surfaces)
    && (forall s :: s in surfaces ==>
          && Reflects(nodes, g, plugin, compatible, obs, s)
          && (s.published <==> Publishes(nodes, g, plugin, compatible, obs, s.surface)))
  }

  /** Every field of the snapshot is what the manifest, the graph and the observations say. */
  ghost predicate SnapshotOf(
    snapshot: Snapshot, nodes: Nodes, g: Deps, plugin: PluginDesired, compatible: bool,
    obs: Observations)
  {
    && snapshot.observed == PluginState(nodes, g, plugin, compatible, obs)
    && (snapshot.capabilityReady <==> CapabilityReady(nodes, g, plugin, compatible, obs))
    && SurfacesExact(nodes, g, plugin, compatible, obs, snapshot.surfaces)
  }

  /** The nodes and the graph of a manifest. */
  ghost predicate Models(nodes: Nodes, g: Deps, manifest: seq<Node>) {
    IsGraphOf(g, Inputs(manifest)) && IsManifest(nodes, g) && forall k :: k in nodes ==> nodes[k] in manifest
  }

  /** What a report says. */
  lemma ReportMeans(
    nodes: Nodes, g: Deps, plugin: PluginDesired, compatible: bool, obs: Observations,
    scheduled: seq<Scheduled<SurfaceRef>>, surfaces: seq<Reconciled>, s: Reconciled)
    requires IsSchedule(g, scheduled, RefLess) && s in surfaces
    requires Evaluation(nodes, g, plugin, compatible, obs, scheduled, surfaces)
    ensures Reflects(nodes, g, plugin, compatible, obs, s)
    ensures plugin != Enabled ==> s.observed == if s.surface in obs then obs[s.surface] else Stopped
  {
    var i :| 0 <= i < |surfaces| && surfaces[i] == s;
    assert scheduled[i] in scheduled;
    ReportReflects(nodes, g, plugin, compatible, obs, scheduled[i], s);
  }

  lemma ReportReflects(
    nodes: Nodes, g: Deps, plugin: PluginDesired, compatible: bool, obs: Observations,
    x: Scheduled<SurfaceRef>, s: Reconciled)
    requires Describes(g, x) && Reported(nodes, g, plugin, compatible, obs, x, s)
    ensures Reflects(nodes, g, plugin, compatible, obs, s)
    ensures plugin != Enabled ==> s.observed == if s.surface in obs then obs[s.surface] else Stopped
  {
    HostedByKind(s.surface.kind, s.owner);
    WantedByKind(nodes[s.surface], plugin, s.desired);
  }

  lemma StoppedExact(
    nodes: Nodes, g: Deps, plugin: PluginDesired, compatible: bool, obs: Observations,
    scheduled: seq<Scheduled<SurfaceRef>>, surfaces: seq<Reconciled>)
    requires IsSchedule(g, scheduled, RefLess) && plugin != Enabled
    requires Evaluation(nodes, g, plugin, compatible, obs, scheduled, surfaces)
    ensures AllStopped(surfaces) <==> NothingRuns(g, obs)
    ensures SomeDraining(surfaces) <==> exists k :: k in g && k in obs && obs[k] == DrainingSurface
  {
    forall s | s in surfaces
      ensures s.surface in g && s.observed == if s.surface in obs then obs[s.surface] else Stopped
    {
      ReportMeans(nodes, g, plugin, compatible, obs, scheduled, surfaces, s);
    }
    forall k | k in g
      ensures exists s :: s in surfaces && s.surface == k
    {
      var s := SurfaceReported(nodes, g, plugin, compatible, obs, scheduled, surfaces, k);
    }
  }

  lemma FailedExact(
    nodes: Nodes, g: Deps, obs: Observations,
    scheduled: seq<Scheduled<SurfaceRef>>, surfaces: seq<Reconciled>)
    requires Closed(g) && IsSchedule(g, scheduled, RefLess)
    requires Evaluation(nodes, g, Enabled, true, obs, scheduled, surfaces)
    ensures SomeRequiredFailed(surfaces) <==> exists k :: k in g && Required(g, k) && SelfFailed(obs, k)
  {
    if SomeRequiredFailed(surfaces) {
      var s :| s in surfaces && s.required && s.observed == Failed;
      ReportMeans(nodes, g, Enabled, true, obs, scheduled, surfaces, s);
      var j :| Reaches(g, s.surface, j) && SelfFailed(obs, j);
      var p :| ChainTo(g, s.surface, j, p);
      ChainRequired(g, p);
    }
    if k :| k in g && Required(g, k) && SelfFailed(obs, k) {
      var s := SurfaceReported(nodes, g, Enabled, true, obs, scheduled, surfaces, k);
      ReportMeans(nodes, g, Enabled, true, obs, scheduled, surfaces, s);
      ReachesSelf(g, k);
    }
  }

  lemma UnsatisfiedExact(
    nodes: Nodes, g: Deps, obs: Observations,
    scheduled: seq<Scheduled<SurfaceRef>>, surfaces: seq<Reconciled>, required: bool)
    requires Closed(g) && IsSchedule(g, scheduled, RefLess)
    requires Evaluation(nodes, g, Enabled, true, obs, scheduled, surfaces)
    ensures SomeUnsatisfied(surfaces, required) <==>
              exists k :: k in g && Required(g, k) == required && !ClosureSatisfied(nodes, g, obs, k)
  {
    if SomeUnsatisfied(surfaces, required) {
      var s :| s in surfaces && s.required == required && Unsatisfied(s);
      ReportMeans(nodes, g, Enabled, true, obs, scheduled, surfaces, s);
    }
    if k :| k in g && Required(g, k) == required && !ClosureSatisfied(nodes, g, obs, k) {
      var s := SurfaceReported(nodes, g, Enabled, true, obs, scheduled, surfaces, k);
      ReportMeans(nodes, g, Enabled, true, obs, scheduled, surfaces, s);
    }
  }

  /** All surfaces are satisfied in themselves exactly when all closures are. */
  lemma AllClosures(nodes: Nodes, g: Deps, obs: Observations)
    requires Closed(g)
    ensures (forall k :: k in g ==> SelfSatisfied(nodes, obs, k)) <==>
            (forall k :: k in g ==> ClosureSatisfied(nodes, g, obs, k))
  {
    forall k | k in g
      ensures ClosureSatisfied(nodes, g, obs, k) ==> SelfSatisfied(nodes, obs, k)
    {
      ReachesSelf(g, k);
    }
    if forall k :: k in g ==> SelfSatisfied(nodes, obs, k) {
      forall k, j | k in g && Reaches(g, k, j)
        ensures SelfSatisfied(nodes, obs, j)
      {
        var p :| ChainTo(g, k, j, p);
      }
    }
  }

  /** The one-pass aggregate is what the graph says about the plugin. */
  lemma AggregateExact(
    nodes: Nodes, g: Deps, plugin: PluginDesired, compatible: bool, obs: Observations,
    scheduled: seq<Scheduled<SurfaceRef>>, surfaces: seq<Reconciled>)
    requires Closed(g) && IsSchedule(g, scheduled, RefLess)
    requires Evaluation(nodes, g, plugin, compatible, obs, scheduled, surfaces)
    ensures Aggregate(plugin, compatible, surfaces) == PluginState(nodes, g, plugin, compatible, obs)
  {
    if plugin != Enabled {
      StoppedExact(nodes, g, plugin, compatible, obs, scheduled, surfaces);
    } else if compatible {
      EnabledExact(nodes, g, obs, scheduled, surfaces);
    }
  }

  lemma EnabledExact(
    nodes: Nodes, g: Deps, obs: Observations, scheduled: seq<Scheduled<SurfaceRef>>, surfaces: seq<Reconciled>)
    requires Closed(g) && IsSchedule(g, scheduled, RefLess)
    requires Evaluation(nodes, g, Enabled, true, obs, scheduled, surfaces)
    ensures Aggregate(Enabled, true, surfaces) == PluginState(nodes, g, Enabled, true, obs)
  {
    FailedExact(nodes, g, obs, scheduled, surfaces);
    ReadyExact(nodes, g, obs, scheduled, surfaces);
    if CapabilityReady(nodes, g, Enabled, true, obs) {
      RestExact(nodes, g, obs, scheduled, surfaces);
    }
    EnabledStates(nodes, g, obs, surfaces);
  }

  lemma EnabledStates(nodes: Nodes, g: Deps, obs: Observations, surfaces: seq<Reconciled>)
    requires SomeRequiredFailed(surfaces) <==> exists k :: k in g && Required(g, k) && SelfFailed(obs, k)
    requires SomeUnsatisfied(surfaces, true) <==> !CapabilityReady(nodes, g, Enabled, true, obs)
    requires CapabilityReady(nodes, g, Enabled, true, obs) ==>
               (SomeUnsatisfied(surfaces, false) <==> exists k :: k in g && !SelfSatisfied(nodes, obs, k))
    ensures Aggregate(Enabled, true, surfaces) == PluginState(nodes, g, Enabled, true, obs)
  {}

  lemma ReadyExact(
    nodes: Nodes, g: Deps, obs: Observations, scheduled: seq<Scheduled<SurfaceRef>>, surfaces: seq<Reconciled>)
    requires Closed(g) && IsSchedule(g, scheduled, RefLess)
    requires Evaluation(nodes, g, Enabled, true, obs, scheduled, surfaces)
    ensures SomeUnsatisfied(surfaces, true) <==> !CapabilityReady(nodes, g, Enabled, true, obs)
  {
    UnsatisfiedExact(nodes, g, obs, scheduled, surfaces, true);
    RequiredClosures(nodes, g, obs);
  }

  lemma RestExact(
    nodes: Nodes, g: Deps, obs: Observations, scheduled: seq<Scheduled<SurfaceRef>>, surfaces: seq<Reconciled>)
    requires Closed(g) && IsSchedule(g, scheduled, RefLess) && CapabilityReady(nodes, g, Enabled, true, obs)
    requires Evaluation(nodes, g, Enabled, true, obs, scheduled, surfaces)
    ensures SomeUnsatisfied(surfaces, false) <==> exists k :: k in g && !SelfSatisfied(nodes, obs, k)
  {
    UnsatisfiedExact(nodes, g, obs, scheduled, surfaces, false);
    RequiredClosures(nodes, g, obs);
    AllClosures(nodes, g, obs);
  }

  /** A plugin state that allows publication is one in which the required surfaces are satisfied. */
  lemma ReadyStates(
    nodes: Nodes, g: Deps, plugin: PluginDesired, compatible: bool, obs: Observations)
    ensures var a := PluginState(nodes, g, plugin, compatible, obs);
            (plugin == Enabled && (a == Ready || a == Degraded)) <==> CapabilityReady(nodes, g, plugin, compatible, obs)
  {
    if plugin == Enabled && CapabilityReady(nodes, g, plugin, compatible, obs) {
      forall k | k in g && Required(g, k)
        ensures !SelfFailed(obs, k)
      {
        assert SelfSatisfied(nodes, obs, k);
      }
    }
  }

  /** Publish exactly the satisfied surfaces, if anything may be published. */
  method PublishSatisfied(surfaces: seq<Reconciled>, ready: bool) returns (r: seq<Reconciled>)
    requires forall s :: s in surfaces ==> !s.published
    ensures |r| == |surfaces|
    ensures forall i :: 0 <= i < |r| ==> r[i] == surfaces[i].(published := ready && !Unsatisfied(surfaces[i]))
  {
    if !ready {
      return surfaces;
    }
    r := [];
    for i := 0 to |surfaces|
      invariant |r| == i
      invariant forall j :: 0 <= j < i ==> r[j] == surfaces[j].(published := !Unsatisfied(surfaces[j]))
    {
      r := r + [surfaces[i].(published := !Unsatisfied(surfaces[i]))];
    }
  }

  method BuildNodes(manifest: seq<Node>, ghost g: Deps) returns (nodes: Nodes)
    requires IsGraphOf(g, Inputs(manifest))
    ensures Models(nodes, g, manifest)
  {
    nodes := map[];
    ghost var inputs := Inputs(manifest);
    for i := 0 to |manifest|
      invariant forall k :: k in nodes ==> k in g && nodes[k].input == g[k] && nodes[k] in manifest
      invariant forall j :: 0 <= j < i ==> manifest[j].input.surface in nodes
    {
      assert inputs[i] in inputs;
      nodes := nodes[manifest[i].input.surface := manifest[i]];
    }
    forall k | k in g
      ensures k in nodes
    {
      assert g[k] in inputs;
      var i :| 0 <= i < |inputs| && inputs[i] == g[k];
    }
  }

  method CollectInputs(manifest: seq<Node>) returns (inputs: seq<Input<SurfaceRef>>)
    ensures inputs == Inputs(manifest)
  {
    inputs := [];
    for i := 0 to |manifest|
      invariant |inputs| == i
      invariant forall j :: 0 <= j < i ==> inputs[j] == manifest[j].input
    {
      inputs := inputs + [manifest[i].input];
    }
  }

  ghost predicate KnownObservations(manifest: seq<Node>, obs: Observations) {
    forall k :: k in obs ==> exists n :: n in manifest && n.input.surface == k
  }

  /**
   * Reconcile one plugin. It succeeds exactly for a version-3 manifest that can be scheduled
   * and observations of its own surfaces; then readiness and publication are exactly what
   * the dependency graph says.
   */
  method Reconcile(schemaVersion: nat, manifest: seq<Node>, plugin: PluginDesired, compatible: bool, obs: Observations)
    returns (r: Result<Snapshot>, ghost nodes: Nodes, ghost g: Deps)
    ensures r.Ok? <==>
              schemaVersion == 3 && Schedulable(Inputs(manifest), RefLess) && KnownObservations(manifest, obs)
    ensures r.Ok? ==> Models(nodes, g, manifest) && SnapshotOf(r.value, nodes, g, plugin, compatible, obs)
  {
    g, nodes := map[], map[];
    if schemaVersion != 3 {
      return Err(Invalid), nodes, g;
    }
    if exists k :: k in obs && forall n :: n in manifest ==> n.input.surface != k {
      return Err(Invalid), nodes, g;
    }
    RefOrder();
    var inputs := CollectInputs(manifest);
    var scheduled;
    scheduled, g := Schedule(inputs, RefLess);
    if scheduled.Err? {
      return Err(Invalid), nodes, g;
    }
    var built := BuildNodes(manifest, g);
    nodes := built;
    assert Closed(g) by {
      assert forall k :: k in g ==> GoodNode(g, k, RefLess);
    }
    var snapshot := Assess(built, g, plugin, compatible, obs, scheduled.value);
    r := Ok(snapshot);
  }

  /** Evaluate, aggregate and publish. */
  method Assess(
    nodes: Nodes, ghost g: Deps, plugin: PluginDesired, compatible: bool, obs: Observations,
    scheduled: seq<Scheduled<SurfaceRef>>)
    returns (snapshot: Snapshot)
    requires IsManifest(nodes, g) && Closed(g) && IsSchedule(g, scheduled, RefLess)
    ensures SnapshotOf(snapshot, nodes, g, plugin, compatible, obs)
  {
    var surfaces := Evaluate(nodes, g, plugin, compatible, obs, scheduled);
    var observed := Aggregate(plugin, compatible, surfaces);
    AggregateExact(nodes, g, plugin, compatible, obs, scheduled, surfaces);
    ReadyStates(nodes, g, plugin, compatible, obs);
    var ready := plugin == Enabled && (observed == Ready || observed == Degraded);
    var final := PublishSatisfied(surfaces, ready);
    FinalExact(nodes, g, plugin, compatible, obs, scheduled, surfaces, final, ready);
    snapshot := Snapshot(observed, ready, final);
  }

  lemma FinalExact(
    nodes: Nodes, g: Deps, plugin: PluginDesired, compatible: bool, obs: Observations,
    scheduled: seq<Scheduled<SurfaceRef>>, surfaces: seq<Reconciled>, final: seq<Reconciled>, ready: bool)
    requires IsManifest(nodes, g) && IsSchedule(g, scheduled, RefLess)
    requires Evaluation(nodes, g, plugin, compatible, obs, scheduled, surfaces)
    requires ready <==> CapabilityReady(nodes, g, plugin, compatible, obs)
    requires |final| == |surfaces|
    requires forall i :: 0 <= i < |final| ==>
               final[i] == surfaces[i].(published := ready && !Unsatisfied(surfaces[i]))
    ensures SurfacesExact(nodes, g, plugin, compatible, obs, final)
  {
    forall k | k in g
      ensures exists s :: s in final && s.surface == k
    {
      var t := SurfaceReported(nodes, g, plugin, compatible, obs, scheduled, surfaces, k);
      var i :| 0 <= i < |surfaces| && surfaces[i] == t;
      assert final[i] in final;
    }
    forall s | s in final
      ensures Reflects(nodes, g, plugin, compatible, obs, s)
      ensures s.published <==> Publishes(nodes, g, plugin, compatible, obs, s.surface)
    {
      var i :| 0 <= i < |final| && final[i] == s;
      ReportMeans(nodes, g, plugin, compatible, obs, scheduled, surfaces, surfaces[i]);
    }
    FinalInSequence(nodes, g, plugin, compatible, obs, scheduled, surfaces, final);
  }

  lemma FinalInSequence(
    nodes: Nodes, g: Deps, plugin: PluginDesired, compatible: bool, obs: Observations,
    scheduled: seq<Scheduled<SurfaceRef>>, surfaces: seq<Reconciled>, final: seq<Reconciled>)
    requires IsSchedule(g, scheduled, RefLess) && |final| == |surfaces|
    requires Evaluation(nodes, g, plugin, compatible, obs, scheduled, surfaces)
    requires forall i :: 0 <= i < |final| ==>
               final[i].surface == surfaces[i].surface && final[i].level == surfaces[i].level
    ensures InSequence(final)
  {
    forall i | 0 <= i < |final|
      ensures final[i].surface == scheduled[i].surface && final[i].level == scheduled[i].level
    {
      assert Reported(nodes, g, plugin, compatible, obs, scheduled[i], surfaces[i]);
    }
    forall i, j | 0 <= i < j < |final|
      ensures final[i].level < final[j].level
              || (final[i].level == final[j].level && RefLess(final[i].surface, final[j].surface))
    {
      assert Earlier(scheduled[i], scheduled[j], RefLess);
    }
  }
}
