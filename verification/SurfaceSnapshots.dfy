/** What the snapshots of two reconciliations have to do with each other. */
module SurfaceSnapshots {
  import opened FiniteSets
  import opened SurfaceRefs
  import opened SurfaceGraph
  import opened SurfaceScheduler
  import opened SurfaceReconciler

  /** A snapshot as reconciliation of this manifest under these observations produces it. */
  ghost predicate IsSnapshot(
    snapshot: Snapshot, manifest: seq<Node>, plugin: PluginDesired, compatible: bool, obs: Observations)
  {
    && Schedulable(Inputs(manifest), RefLess)
    && exists nodes, g :: Models(nodes, g, manifest) && SnapshotOf(snapshot, nodes, g, plugin, compatible, obs)
  }

  ghost predicate SameMembers(a: seq<Node>, b: seq<Node>) {
    forall n :: n in a <==> n in b
  }

  lemma InputsWithin(a: seq<Node>, b: seq<Node>, x: Input<SurfaceRef>)
    requires forall n :: n in a ==> n in b
    ensures x in Inputs(a) ==> x in Inputs(b)
  {
    if x in Inputs(a) {
      var i :| 0 <= i < |a| && a[i].input == x;
      assert a[i] in a;
      var j :| 0 <= j < |b| && b[j] == a[i];
      assert Inputs(b)[j] == x;
    }
  }

  lemma OneNodePerSurface(manifest: seq<Node>, m: Node, n: Node)
    requires Distinct(Surfaces(Inputs(manifest))) && m in manifest && n in manifest
    requires m.input.surface == n.input.surface
    ensures m == n
  {
    var i :| 0 <= i < |manifest| && manifest[i] == m;
    var j :| 0 <= j < |manifest| && manifest[j] == n;
    assert Surfaces(Inputs(manifest))[i] == Surfaces(Inputs(manifest))[j];
  }

  /** A manifest has one graph and one node per surface, in whatever order it lists them. */
  lemma ModelUnique(
    a: seq<Node>, b: seq<Node>, nodes: Nodes, g: Deps,
    nodes': Nodes, g': Deps)
    requires SameMembers(a, b) && Distinct(Surfaces(Inputs(a)))
    requires Models(nodes, g, a) && Models(nodes', g', b)
    ensures g == g' && nodes == nodes'
  {
    forall x
      ensures x in Inputs(a) <==> x in Inputs(b)
    {
      InputsWithin(a, b, x);
      InputsWithin(b, a, x);
    }
    GraphOrderFree(Inputs(a), Inputs(b), g, g');
    forall k | k in nodes
      ensures k in nodes' && nodes[k] == nodes'[k]
    {
      OneNodePerSurface(a, nodes[k], nodes'[k]);
    }
  }

  function Entries(surfaces: seq<Reconciled>): seq<Scheduled<SurfaceRef>> {
    seq(|surfaces|, i requires 0 <= i < |surfaces| =>
      Scheduled(surfaces[i].surface, surfaces[i].level, surfaces[i].required, surfaces[i].dependencies))
  }

  /** The reports of a snapshot are a schedule of the graph. */
  lemma EntriesScheduled(
    nodes: Nodes, g: Deps, plugin: PluginDesired, compatible: bool, obs: Observations,
    surfaces: seq<Reconciled>)
    requires SurfacesExact(nodes, g, plugin, compatible, obs, surfaces)
    ensures IsSchedule(g, Entries(surfaces), RefLess)
  {
    var xs := Entries(surfaces);
    forall x | x in xs
      ensures Describes(g, x)
    {
      var i :| 0 <= i < |xs| && xs[i] == x;
      assert surfaces[i] in surfaces;
      assert Reflects(nodes, g, plugin, compatible, obs, surfaces[i]);
    }
    forall k | k in g
      ensures exists x :: x in xs && x.surface == k
    {
      var s :| s in surfaces && s.surface == k;
      var i :| 0 <= i < |surfaces| && surfaces[i] == s;
      assert xs[i] in xs;
    }
  }

  lemma SurfacesUnique(
    nodes: Nodes, g: Deps, plugin: PluginDesired, compatible: bool, obs: Observations,
    a: seq<Reconciled>, b: seq<Reconciled>)
    requires SurfacesExact(nodes, g, plugin, compatible, obs, a) && SurfacesExact(nodes, g, plugin, compatible, obs, b)
    ensures a == b
  {
    RefOrder();
    EntriesScheduled(nodes, g, plugin, compatible, obs, a);
    EntriesScheduled(nodes, g, plugin, compatible, obs, b);
    ScheduleUnique(g, Entries(a), Entries(b), RefLess);
    assert |Entries(a)| == |a| && |Entries(b)| == |b|;
    forall i | 0 <= i < |a|
      ensures a[i] == b[i]
    {
      assert Entries(a)[i] == Entries(b)[i];
      assert a[i] in a && b[i] in b;
      SameReport(nodes, g, plugin, compatible, obs, a[i], b[i]);
    }
  }

  lemma SameReport(
    nodes: Nodes, g: Deps, plugin: PluginDesired, compatible: bool, obs: Observations, s: Reconciled, t: Reconciled)
    requires s.surface == t.surface && s.level == t.level && s.published == t.published
    requires Reflects(nodes, g, plugin, compatible, obs, s) && Reflects(nodes, g, plugin, compatible, obs, t)
    ensures s == t
  {
    HostedByKind(s.surface.kind, s.owner);
    HostedByKind(t.surface.kind, t.owner);
    WantedByKind(nodes[s.surface], plugin, s.desired);
    WantedByKind(nodes[t.surface], plugin, t.desired);
  }

  /** Reconciliation is a function of the set of surfaces: their order in the manifest does not matter. */
  lemma SnapshotOrderFree(
    s: Snapshot, s': Snapshot, a: seq<Node>, b: seq<Node>, plugin: PluginDesired, compatible: bool, obs: Observations)
    requires SameMembers(a, b)
    requires IsSnapshot(s, a, plugin, compatible, obs) && IsSnapshot(s', b, plugin, compatible, obs)
    ensures s == s'
  {
    var nodes, g :| Models(nodes, g, a) && SnapshotOf(s, nodes, g, plugin, compatible, obs);
    var nodes', g' :| Models(nodes', g', b) && SnapshotOf(s', nodes', g', plugin, compatible, obs);
    ModelUnique(a, b, nodes, g, nodes', g');
    SurfacesUnique(nodes, g, plugin, compatible, obs, s.surfaces, s'.surfaces);
  }

  /** The published surfaces of a snapshot. */
  ghost function Published(s: Snapshot): set<SurfaceRef> {
    set x | x in s.surfaces && x.published :: x.surface
  }

  /** The surfaces a snapshot reports as required. */
  ghost function RequiredIn(s: Snapshot): set<SurfaceRef> {
    set x | x in s.surfaces && x.required :: x.surface
  }

  lemma PublishedMeans(
    s: Snapshot, nodes: Nodes, g: Deps, plugin: PluginDesired, compatible: bool,
    obs: Observations, k: SurfaceRef)
    requires SnapshotOf(s, nodes, g, plugin, compatible, obs)
    ensures k in Published(s) <==> Publishes(nodes, g, plugin, compatible, obs, k)
    ensures k in RequiredIn(s) <==> k in g && Required(g, k)
  {
    if k in g {
      var x :| x in s.surfaces && x.surface == k;
      assert Reflects(nodes, g, plugin, compatible, obs, x);
    }
  }

  /**
   * What a snapshot publishes, in kinds, activation and observations alone: of an enabled and
   * compatible plugin whose required surfaces all run as they must, those surfaces that do so
   * themselves together with everything they depend on.
   */
  lemma PublishedByObservations(
    s: Snapshot, nodes: Nodes, g: Deps, plugin: PluginDesired, compatible: bool, obs: Observations, k: SurfaceRef)
    requires SnapshotOf(s, nodes, g, plugin, compatible, obs) && IsManifest(nodes, g) && Closed(g)
    ensures k in Published(s) <==>
              && plugin == Enabled && compatible && k in g
              && forall j :: j in g && (Required(g, j) || Reaches(g, k, j)) ==>
                   && j in obs
                   && (obs[j] == Healthy
                       || (obs[j] == Prepared && j.kind != Okf
                           && !(j.kind in {Tool, Mcp} && nodes[j].activation == Eager)))
  {
    PublishedMeans(s, nodes, g, plugin, compatible, obs, k);
    forall j | k in g && Reaches(g, k, j)
      ensures j in g
    {
      var p :| ChainTo(g, k, j, p);
    }
  }

  /** Two reconciliations that agree about the required surfaces agree about readiness. */
  lemma OptionalNeverBlocks(
    s: Snapshot, s': Snapshot, manifest: seq<Node>, plugin: PluginDesired, compatible: bool,
    obs: Observations, obs': Observations)
    requires IsSnapshot(s, manifest, plugin, compatible, obs) && IsSnapshot(s', manifest, plugin, compatible, obs')
    requires forall k :: k in RequiredIn(s) ==> Explicit(obs, k) == Explicit(obs', k)
    ensures s.capabilityReady == s'.capabilityReady
  {
    var nodes, g :| Models(nodes, g, manifest) && SnapshotOf(s, nodes, g, plugin, compatible, obs);
    var nodes', g' :| Models(nodes', g', manifest) && SnapshotOf(s', nodes', g', plugin, compatible, obs');
    ModelUnique(manifest, manifest, nodes, g, nodes', g');
    forall k | k in g && Required(g, k)
      ensures Explicit(obs, k) == Explicit(obs', k)
    {
      PublishedMeans(s, nodes, g, plugin, compatible, obs, k);
    }
    ReadyAlike(nodes, g, plugin, compatible, obs, obs');
  }

  lemma ReadyAlike(
    nodes: Nodes, g: Deps, plugin: PluginDesired, compatible: bool,
    obs: Observations, obs': Observations)
    requires forall k :: k in g && Required(g, k) ==> Explicit(obs, k) == Explicit(obs', k)
    ensures CapabilityReady(nodes, g, plugin, compatible, obs) <==> CapabilityReady(nodes, g, plugin, compatible, obs')
  {
    forall k | k in g && Required(g, k)
      ensures SelfSatisfied(nodes, obs, k) <==> SelfSatisfied(nodes, obs', k)
    {
      assert Explicit(obs, k) == Explicit(obs', k);
    }
  }

  /** A surface's own observation is there and is enough. */
  ghost predicate Content(manifest: seq<Node>, obs: Observations, n: Node) {
    n in manifest && n.input.surface in obs && Enough(n, obs[n.input.surface])
  }

  /** If every surface that was satisfied still is, everything that was published still is. */
  lemma PublicationIsMonotone(
    s: Snapshot, s': Snapshot, manifest: seq<Node>, plugin: PluginDesired, compatible: bool,
    obs: Observations, obs': Observations)
    requires IsSnapshot(s, manifest, plugin, compatible, obs) && IsSnapshot(s', manifest, plugin, compatible, obs')
    requires forall n :: Content(manifest, obs, n) ==> Content(manifest, obs', n)
    ensures Published(s) <= Published(s')
  {
    var nodes, g :| Models(nodes, g, manifest) && SnapshotOf(s, nodes, g, plugin, compatible, obs);
    var nodes', g' :| Models(nodes', g', manifest) && SnapshotOf(s', nodes', g', plugin, compatible, obs');
    ModelUnique(manifest, manifest, nodes, g, nodes', g');
    forall k | SelfSatisfied(nodes, obs, k)
      ensures SelfSatisfied(nodes, obs', k)
    {
      assert Content(manifest, obs, nodes[k]);
    }
    forall k | k in Published(s)
      ensures k in Published(s')
    {
      PublishedMeans(s, nodes, g, plugin, compatible, obs, k);
      PublishedMeans(s', nodes, g, plugin, compatible, obs', k);
    }
  }

  /** Whatever a snapshot publishes, it publishes all the dependencies of. */
  lemma PublishedIsClosed(
    s: Snapshot, manifest: seq<Node>, plugin: PluginDesired, compatible: bool, obs: Observations,
    x: Reconciled, d: SurfaceRef)
    requires IsSnapshot(s, manifest, plugin, compatible, obs)
    requires x in s.surfaces && x.published && d in x.dependencies
    ensures d in Published(s)
  {
    var nodes, g :| Models(nodes, g, manifest) && SnapshotOf(s, nodes, g, plugin, compatible, obs);
    ReportedDependency(s, nodes, g, plugin, compatible, obs, x, d);
    assert GoodGraph(g, RefLess);
    assert GoodNode(g, x.surface, RefLess);
    DependencyPublished(nodes, g, plugin, compatible, obs, x.surface, d);
    PublishedMeans(s, nodes, g, plugin, compatible, obs, d);
  }

  lemma ReportedDependency(
    s: Snapshot, nodes: Nodes, g: Deps, plugin: PluginDesired, compatible: bool,
    obs: Observations, x: Reconciled, d: SurfaceRef)
    requires SnapshotOf(s, nodes, g, plugin, compatible, obs) && x in s.surfaces && x.published && d in x.dependencies
    ensures Publishes(nodes, g, plugin, compatible, obs, x.surface) && d in g[x.surface].dependencies
  {
    assert Reflects(nodes, g, plugin, compatible, obs, x);
  }

  lemma DependencyPublished(
    nodes: Nodes, g: Deps, plugin: PluginDesired, compatible: bool, obs: Observations,
    k: SurfaceRef, d: SurfaceRef)
    requires Publishes(nodes, g, plugin, compatible, obs, k) && d in g && d in g[k].dependencies
    ensures Publishes(nodes, g, plugin, compatible, obs, d)
  {
    ReachesSelf(g, d);
    ReachesVia(g, k, d, d);
    PublicationIsClosed(nodes, g, plugin, compatible, obs, k, d);
  }
}
