/** When a discovery succeeds: tables with room for every discoverable object and variable are
    never found full, on any graph and at any depth bound. */
module Room {
  import opened Collections
  import opened NodeIds
  import opened DataModel
  import opened AddressSpace
  import opened Discovery
  import opened DiscoveryInvariant
  import opened Walk
  import opened Reachability
  import opened Shape

  /** `objects` and `variables` bound what the graph offers, and the tables have room for them. */
  ghost predicate HasRoom(world: World, limits: Limits, objects: set<NodeId>, variables: set<NodeId>) {
    && (forall v :: Discoverable(world, v) ==> v in objects)
    && (forall o, v :: Discoverable(world, o) && BelongsTo(world, o, v) ==> v in variables)
    && |objects| <= limits.modelObjects < SIZE_MAX && |objects| <= limits.mappedObjects
    && |variables| <= limits.modelTags && |variables| <= limits.mappedTags
  }

  lemma OneMoreFits<T>(s: seq<T>, x: T, bound: set<T>)
    requires Distinct(s) && x !in s && x in bound && forall y | y in s :: y in bound
    ensures |s| < |bound|
  {
    DistinctInSet(s, bound - {x});
  }

  lemma HangingIsDiscoverable(world: World, t: Tables, parent: nat, node: NodeId, v: NodeId)
    requires Sound(world, t) && IsOwner(t, parent) && InZone(world, Anchor(t, parent), node)
    requires ObjectEdge(world, node, v)
    ensures Discoverable(world, v)
  {
    var start := [OBJECTS_FOLDER];
    if parent != INVALID_INDEX {
      RowsAreDiscoverable(world, t, parent);
      start :| Path(world, start) && start[0] == OBJECTS_FOLDER && Last(start) == t.objectIds[parent];
    }
    var q :| FolderPath(world, q) && q[0] == Anchor(t, parent) && Last(q) == node;
    PathsJoin(world, start, q, v);
    assert Last(start + q[1..] + [v]) == v;
  }

  lemma ObjectsFit(world: World, limits: Limits, t: Tables, r: Reference, parent: nat, node: NodeId,
                   objects: set<NodeId>, variables: set<NodeId>)
    requires HasRoom(world, limits, objects, variables)
    requires Sound(world, t) && IsOwner(t, parent) && InZone(world, Anchor(t, parent), node)
    requires r in world.references(node) && LeadsToObject(r) && r.node !in t.objectIds
    ensures AddObject(limits, t, r, world.objectKind(r.node), parent).stored
  {
    assert ObjectEdge(world, node, r.node);
    HangingIsDiscoverable(world, t, parent, node, r.node);
    forall v | v in t.objectIds
      ensures v in objects
    {
      var i :| 0 <= i < |t.objectIds| && t.objectIds[i] == v;
      RowsAreDiscoverable(world, t, i);
    }
    OneMoreFits(t.objectIds, r.node, objects);
  }

  lemma VariablesFit(world: World, limits: Limits, t: Tables, r: Reference, owner: nat, node: NodeId,
                     objects: set<NodeId>, variables: set<NodeId>)
    requires HasRoom(world, limits, objects, variables)
    requires Sound(world, t) && owner < |t.objects| && owner != INVALID_INDEX && InZone(world, Anchor(t, owner), node)
    requires r in world.references(node) && LeadsToVariable(r) && r.node !in t.tagIds
    ensures AddVariable(limits, t, r, world.variable(r.node), owner).stored
  {
    var p :| FolderPath(world, p) && p[0] == Anchor(t, owner) && Last(p) == node;
    assert VariableEdge(world, Last(p), r.node);
    assert BelongsTo(world, t.objectIds[owner], r.node);
    RowsAreDiscoverable(world, t, owner);
    forall v | v in t.tagIds
      ensures v in variables
    {
      var k :| 0 <= k < |t.tagIds| && t.tagIds[k] == v;
      assert TagPlaced(world, t, k);
      RowsAreDiscoverable(world, t, t.tags[k].equipmentIndex);
    }
    OneMoreFits(t.tagIds, r.node, variables);
  }

  lemma {:induction false} NodeFits(world: World, limits: Limits, t: Tables, cut: bool, node: NodeId, parent: nat,
                                    depth: nat, objects: set<NodeId>, variables: set<NodeId>)
    requires HasRoom(world, limits, objects, variables)
    requires Sound(world, t) && IsOwner(t, parent) && InZone(world, Anchor(t, parent), node)
    ensures WalkNode(world, limits, t, cut, node, parent, depth).Reached?
    decreases Rank(limits, depth), 2, 0
  {
    if depth <= limits.depth {
      ReferencesFit(world, limits, t, cut, world.references(node), parent, depth, node, objects, variables);
    }
  }

  lemma {:induction false} ReferencesFit(world: World, limits: Limits, t: Tables, cut: bool, references: seq<Reference>,
                                         parent: nat, depth: nat, node: NodeId, objects: set<NodeId>,
                                           variables: set<NodeId>)
    requires HasRoom(world, limits, objects, variables) && depth <= limits.depth
    requires Sound(world, t) && IsOwner(t, parent) && InZone(world, Anchor(t, parent), node)
    requires forall r | r in references :: r in world.references(node)
    ensures WalkReferences(world, limits, t, cut, references, parent, depth).Reached?
    decreases Rank(limits, depth), 1, |references|
  {
    if references != [] {
      ReferenceFits(world, limits, t, cut, references[0], parent, depth, node, objects, variables);
      ReferenceSound(world, limits, t, cut, references[0], parent, depth, node);
      var first := WalkReference(world, limits, t, cut, references[0], parent, depth);
      AnchorStays(t, first.tables, parent);
      ReferencesFit(world, limits, first.tables, first.cut, references[1..], parent, depth, node, objects, variables);
    }
  }

  lemma {:induction false} ReferenceFits(world: World, limits: Limits, t: Tables, cut: bool, r: Reference, parent: nat,
                                         depth: nat, node: NodeId, objects: set<NodeId>, variables: set<NodeId>)
    requires HasRoom(world, limits, objects, variables) && depth <= limits.depth
    requires Sound(world, t) && IsOwner(t, parent) && InZone(world, Anchor(t, parent), node)
    requires r in world.references(node)
    ensures WalkReference(world, limits, t, cut, r, parent, depth).Reached?
    decreases Rank(limits, depth), 0, 0
  {
    if LeadsIntoFolder(r) {
      assert FolderEdge(world, node, r.node);
      ZoneStep(world, Anchor(t, parent), node, r.node);
      NodeFits(world, limits, t, cut, r.node, parent, depth + 1, objects, variables);
    } else if LeadsToObject(r) && r.node !in t.objectIds {
      ObjectsFit(world, limits, t, r, parent, node, objects, variables);
      ObjectRowSound(world, limits, t, r, parent, node);
      var added := AddObject(limits, t, r, world.objectKind(r.node), parent);
      NodeFits(world, limits, added.tables, cut, r.node, |t.objects|, depth + 1, objects, variables);
    } else if LeadsToVariable(r) && parent != INVALID_INDEX && r.node !in t.tagIds {
      VariablesFit(world, limits, t, r, parent, node, objects, variables);
    }
  }

  /** A server that answers every request is discovered successfully whenever its address space
      fits in the tables. */
  lemma DiscoverSucceeds(server: Server, world: World, limits: Limits, trace: seq<Call>, objects: set<NodeId>,
                         variables: set<NodeId>)
    requires ListsReferences(server, world) && NeverFails(server) && HasRoom(world, limits, objects, variables)
    ensures Discover(server, limits, trace).status == GOOD
  {
    ZoneSelf(world, OBJECTS_FOLDER);
    NodeFits(world, limits, EMPTY_TABLES, false, OBJECTS_FOLDER, INVALID_INDEX, 0, objects, variables);
    SteadyServes(server, world);
    DiscoverRefinesWalk(Steady(server, world), world, limits, trace);
    SteadyAlike(server, world, limits, trace);
  }

  // ----- runs that meet no depth bound -----

  /** No object is passed twice; standard folders may be. */
  ghost predicate ObjectsOnce(p: seq<NodeId>) {
    forall i, j | 0 <= i < j < |p| :: p[i] == p[j] ==> IsStandard(p[i])
  }

  /** Every path that the walk can take fits within the depth bound. */
  ghost predicate Shallow(world: World, limits: Limits) {
    forall p :: Path(world, p) && p[0] == OBJECTS_FOLDER && ObjectsOnce(p) ==> |p| <= limits.depth + 1
  }

  /** The walk has come to `node` along `p`, and every object of `p` has been recorded. */
  ghost predicate Along(world: World, t: Tables, p: seq<NodeId>, node: NodeId, depth: nat) {
    && Path(world, p) && p[0] == OBJECTS_FOLDER && Last(p) == node && |p| == depth + 1 && ObjectsOnce(p)
    && forall i | 0 <= i < |p| :: IsStandard(p[i]) || p[i] in t.objectIds
  }

  lemma AlongStays(world: World, t: Tables, t': Tables, p: seq<NodeId>, node: NodeId, depth: nat)
    requires Along(world, t, p, node, depth) && t.objectIds <= t'.objectIds
    ensures Along(world, t', p, node, depth)
  {
    assert forall v | v in t.objectIds :: v in t'.objectIds;
  }

  lemma AlongNext(world: World, t: Tables, p: seq<NodeId>, node: NodeId, depth: nat, next: NodeId, t': Tables)
    requires Along(world, t, p, node, depth) && (FolderEdge(world, node, next) || ObjectEdge(world, node, next))
    requires IsStandard(next) || (next !in t.objectIds && t'.objectIds == t.objectIds + [next])
    requires IsStandard(next) ==> t'.objectIds == t.objectIds
    ensures Along(world, t', p + [next], next, depth + 1)
  {
    var q := p + [next];
    forall i | 0 <= i < |q| - 1
      ensures FolderEdge(world, q[i], q[i + 1]) || ObjectEdge(world, q[i], q[i + 1])
    {
      if i < |p| - 1 {
        assert FolderEdge(world, p[i], p[i + 1]) || ObjectEdge(world, p[i], p[i + 1]);
      }
    }
  }

  lemma AlongFolder(world: World, t: Tables, p: seq<NodeId>, node: NodeId, depth: nat, r: Reference)
    returns (q: seq<NodeId>)
    requires Along(world, t, p, node, depth) && r in world.references(node) && LeadsIntoFolder(r)
    ensures Along(world, t, q, r.node, depth + 1)
  {
    assert FolderEdge(world, node, r.node);
    AlongNext(world, t, p, node, depth, r.node, t);
    q := p + [r.node];
  }

  lemma AlongObject(world: World, t: Tables, p: seq<NodeId>, node: NodeId, depth: nat, r: Reference, t': Tables)
    returns (q: seq<NodeId>)
    requires Along(world, t, p, node, depth) && r in world.references(node) && LeadsToObject(r)
    requires r.node !in t.objectIds && t'.objectIds == t.objectIds + [r.node]
    ensures Along(world, t', q, r.node, depth + 1)
  {
    assert ObjectEdge(world, node, r.node);
    AlongNext(world, t, p, node, depth, r.node, t');
    q := p + [r.node];
  }

  ghost predicate NotCut(t: Tables, cut: bool, w: Walked) {
    w.Reached? ==> w.cut == cut && t.objectIds <= w.tables.objectIds
  }

  lemma {:induction false} NodeNotCut(world: World, limits: Limits, t: Tables, cut: bool, node: NodeId, parent: nat,
                                      depth: nat, p: seq<NodeId>)
    requires Shallow(world, limits) && Along(world, t, p, node, depth)
    ensures NotCut(t, cut, WalkNode(world, limits, t, cut, node, parent, depth))
    decreases Rank(limits, depth), 2, 0
  {
    if depth <= limits.depth {
      ReferencesNotCut(world, limits, t, cut, world.references(node), parent, depth, node, p);
    }
  }

  lemma {:induction false} ReferencesNotCut(world: World, limits: Limits, t: Tables, cut: bool,
                                            references: seq<Reference>,
                                            parent: nat, depth: nat, node: NodeId, p: seq<NodeId>)
    requires Shallow(world, limits) && Along(world, t, p, node, depth) && depth <= limits.depth
    requires forall r | r in references :: r in world.references(node)
    ensures NotCut(t, cut, WalkReferences(world, limits, t, cut, references, parent, depth))
    decreases Rank(limits, depth), 1, |references|
  {
    if references != [] {
      ReferenceNotCut(world, limits, t, cut, references[0], parent, depth, node, p);
      var first := WalkReference(world, limits, t, cut, references[0], parent, depth);
      if first.Reached? {
        AlongStays(world, t, first.tables, p, node, depth);
        ReferencesNotCut(world, limits, first.tables, first.cut, references[1..], parent, depth, node, p);
      }
    }
  }

  lemma {:induction false} ObjectNotCut(world: World, limits: Limits, t: Tables, cut: bool, r: Reference, parent: nat,
                                        depth: nat, node: NodeId, p: seq<NodeId>)
    requires Shallow(world, limits) && Along(world, t, p, node, depth) && depth <= limits.depth
    requires r in world.references(node) && !LeadsIntoFolder(r) && LeadsToObject(r) && r.node !in t.objectIds
    ensures NotCut(t, cut, WalkReference(world, limits, t, cut, r, parent, depth))
    decreases Rank(limits, depth), 0, 0
  {
    var added := AddObject(limits, t, r, world.objectKind(r.node), parent);
    if added.stored {
      assert added.tables.objectIds == t.objectIds + [r.node];
      var q := AlongObject(world, t, p, node, depth, r, added.tables);
      NodeNotCut(world, limits, added.tables, cut, r.node, |t.objects|, depth + 1, q);
    }
  }

  lemma OtherNotCut(world: World, limits: Limits, t: Tables, cut: bool, r: Reference, parent: nat, depth: nat)
    requires depth <= limits.depth && !LeadsIntoFolder(r) && (LeadsToObject(r) ==> r.node in t.objectIds)
    ensures NotCut(t, cut, WalkReference(world, limits, t, cut, r, parent, depth))
  {
  }

  lemma {:induction false} ReferenceNotCut(world: World, limits: Limits, t: Tables, cut: bool, r: Reference,
                                           parent: nat, depth: nat, node: NodeId, p: seq<NodeId>)
    requires Shallow(world, limits) && Along(world, t, p, node, depth) && depth <= limits.depth
    requires r in world.references(node)
    ensures NotCut(t, cut, WalkReference(world, limits, t, cut, r, parent, depth))
    decreases Rank(limits, depth), 0, 1
  {
    if LeadsIntoFolder(r) {
      var q := AlongFolder(world, t, p, node, depth, r);
      NodeNotCut(world, limits, t, cut, r.node, parent, depth + 1, q);
    } else if LeadsToObject(r) && r.node !in t.objectIds {
      ObjectNotCut(world, limits, t, cut, r, parent, depth, node, p);
    } else {
      OtherNotCut(world, limits, t, cut, r, parent, depth);
    }
  }

  /** An address space that fits, in the tables and within the depth bound, is discovered exactly:
      the discovery succeeds and records the reachable objects and their variables, no more and no
      less. */
  lemma FittingPlantIsDiscovered(server: Server, world: World, limits: Limits, trace: seq<Call>, objects: set<NodeId>,
                                 variables: set<NodeId>)
    requires ListsReferences(server, world) && NeverFails(server)
    requires HasRoom(world, limits, objects, variables) && Shallow(world, limits)
    ensures var o := Discover(server, limits, trace);
            && o.status == GOOD && !o.progress.cut
            && (forall v :: v in o.progress.tables.objectIds <==> Discoverable(world, v))
            && (forall v :: v in o.progress.tables.tagIds <==> exists u | u in o.progress.tables.objectIds ::
                BelongsTo(world, u, v))
  {
    DiscoverSucceeds(server, world, limits, trace, objects, variables);
    SteadyServes(server, world);
    DiscoverRefinesWalk(Steady(server, world), world, limits, trace);
    SteadyAlike(server, world, limits, trace);
    NodeNotCut(world, limits, EMPTY_TABLES, false, OBJECTS_FOLDER, INVALID_INDEX, 0, [OBJECTS_FOLDER]);
    DiscoverIsExact(server, world, limits, trace);
  }
}
