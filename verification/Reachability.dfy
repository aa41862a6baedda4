/** Soundness and completeness of discovery: on any reference graph, cyclic or not, the recorded
    objects are exactly the reachable ones, and the recorded variables exactly those that the
    recorded objects own, directly or through standard grouping folders. */
module Reachability {
  import opened Collections
  import opened NodeIds
  import opened DataModel
  import opened AddressSpace
  import opened Discovery
  import opened DiscoveryInvariant
  import opened Shape
  import opened Walk

  // ----- the graph -----

  /** `u` has a reference on its own server to the node `v` of this class. */
  ghost predicate RefersTo(world: World, u: NodeId, v: NodeId, nodeClass: NodeClass) {
    exists r | r in world.references(u) :: r.serverIndex == 0 && r.node == v && r.nodeClass == nodeClass
  }

  /** Objects of the standard namespace are entered, except the Server object. */
  ghost predicate FolderEdge(world: World, u: NodeId, v: NodeId) {
    RefersTo(world, u, v, ObjectNode) && v.namespaceIndex == 0 && v != SERVER
  }

  ghost predicate ObjectEdge(world: World, u: NodeId, v: NodeId) {
    RefersTo(world, u, v, ObjectNode) && v.namespaceIndex != 0
  }

  /** Properties are not variables of their own. */
  ghost predicate VariableEdge(world: World, u: NodeId, v: NodeId) {
    v.namespaceIndex != 0 &&
    exists r | r in world.references(u) ::
      r.serverIndex == 0 && r.node == v && r.nodeClass == VariableNode && r.referenceType != HAS_PROPERTY
  }

  ghost predicate Path(world: World, p: seq<NodeId>) {
    p != [] && forall i | 0 <= i < |p| - 1 :: FolderEdge(world, p[i], p[i + 1]) || ObjectEdge(world, p[i], p[i + 1])
  }

  ghost predicate FolderPath(world: World, p: seq<NodeId>) {
    p != [] && forall i | 0 <= i < |p| - 1 :: FolderEdge(world, p[i], p[i + 1])
  }

  function Last(p: seq<NodeId>): NodeId
    requires p != []
  {
    p[|p| - 1]
  }

  /** An object of its own namespace that some chain of references leads to from the Objects folder. */
  ghost predicate Discoverable(world: World, v: NodeId) {
    !IsStandard(v) && exists p :: Path(world, p) && p[0] == OBJECTS_FOLDER && Last(p) == v
  }

  /** `v` is a child object of `u`, directly or through standard folders only. */
  ghost predicate HangsUnder(world: World, u: NodeId, v: NodeId) {
    exists p :: FolderPath(world, p) && p[0] == u && ObjectEdge(world, Last(p), v)
  }

  /** `v` is a variable of `u`, directly or through standard folders only. */
  ghost predicate BelongsTo(world: World, u: NodeId, v: NodeId) {
    exists p :: FolderPath(world, p) && p[0] == u && VariableEdge(world, Last(p), v)
  }

  // ----- completeness -----

  ghost predicate Settled(world: World, t: Tables, h: NodeId, owned: bool) {
    && (forall v :: ObjectEdge(world, h, v) ==> v in t.objectIds)
    && (owned ==> forall v :: VariableEdge(world, h, v) ==> v in t.tagIds)
  }

  /** Everything below `u` up to the next objects has been recorded. */
  ghost predicate Handled(world: World, t: Tables, u: NodeId, owned: bool) {
    forall p :: FolderPath(world, p) && p[0] == u ==> Settled(world, t, Last(p), owned)
  }

  ghost predicate Answered(world: World, t: Tables, r: Reference, owned: bool) {
    && (LeadsIntoFolder(r) ==> Handled(world, t, r.node, owned))
    && (LeadsToObject(r) ==> r.node in t.objectIds)
    && (owned && LeadsToVariable(r) ==> r.node in t.tagIds)
  }

  /** Every object recorded between the two states has been handled completely. */
  ghost predicate Closed(world: World, before: Tables, after: Tables) {
    && before.objectIds <= after.objectIds
    && before.tagIds <= after.tagIds
    && forall v | v in after.objectIds :: v in before.objectIds || Handled(world, after, v, true)
  }

  lemma HandledStays(world: World, t: Tables, t': Tables, u: NodeId, owned: bool)
    requires t.objectIds <= t'.objectIds && t.tagIds <= t'.tagIds
    requires Handled(world, t, u, owned)
    ensures Handled(world, t', u, owned)
  {
    forall p | FolderPath(world, p) && p[0] == u
      ensures Settled(world, t', Last(p), owned)
    {
      assert Settled(world, t, Last(p), owned);
    }
  }

  lemma ClosedTransitive(world: World, a: Tables, b: Tables, c: Tables)
    requires Closed(world, a, b) && Closed(world, b, c)
    ensures Closed(world, a, c)
  {
    forall v | v in c.objectIds && v !in a.objectIds
      ensures Handled(world, c, v, true)
    {
      if v in b.objectIds {
        HandledStays(world, b, c, v, true);
      }
    }
  }

  /** A node whose references are all answered is handled. */
  lemma AllAnswered(world: World, t: Tables, u: NodeId, owned: bool)
    requires forall r | r in world.references(u) :: Answered(world, t, r, owned)
    ensures Handled(world, t, u, owned)
  {
    forall p | FolderPath(world, p) && p[0] == u
      ensures Settled(world, t, Last(p), owned)
    {
      if |p| > 1 {
        assert FolderEdge(world, p[0], p[1]);
        var r :| r in world.references(u) && LeadsIntoFolder(r) && r.node == p[1];
        assert Answered(world, t, r, owned);
        var rest := p[1..];
        assert FolderPath(world, rest) by {
          assert forall i | 0 <= i < |rest| :: rest[i] == p[i + 1];
        }
        assert Last(rest) == Last(p);
      }
    }
  }

  lemma {:induction false} NodeCompletes(world: World, limits: Limits, t: Tables, cut: bool, node: NodeId, parent: nat,
                                         depth: nat)
    requires limits.modelObjects < SIZE_MAX
    ensures var w := WalkNode(world, limits, t, cut, node, parent, depth);
            w.Reached? && !w.cut ==>
              !cut && Closed(world, t, w.tables) && Handled(world, w.tables, node, parent != INVALID_INDEX)
    decreases Rank(limits, depth), 2, 0
  {
    if depth <= limits.depth {
      ReferencesComplete(world, limits, t, cut, world.references(node), parent, depth);
      var w := WalkNode(world, limits, t, cut, node, parent, depth);
      if w.Reached? && !w.cut {
        AllAnswered(world, w.tables, node, parent != INVALID_INDEX);
      }
    }
  }

  lemma {:induction false} ReferencesComplete(world: World, limits: Limits, t: Tables, cut: bool,
                                              references: seq<Reference>, parent: nat, depth: nat)
    requires limits.modelObjects < SIZE_MAX && depth <= limits.depth
    ensures var w := WalkReferences(world, limits, t, cut, references, parent, depth);
            w.Reached? && !w.cut ==>
              !cut && Closed(world, t, w.tables) &&
              forall r | r in references :: Answered(world, w.tables, r, parent != INVALID_INDEX)
    decreases Rank(limits, depth), 1, |references|
  {
    var w := WalkReferences(world, limits, t, cut, references, parent, depth);
    if references != [] && w.Reached? && !w.cut {
      var owned := parent != INVALID_INDEX;
      var first := WalkReference(world, limits, t, cut, references[0], parent, depth);
      ReferenceCompletes(world, limits, t, cut, references[0], parent, depth);
      ReferencesComplete(world, limits, first.tables, first.cut, references[1..], parent, depth);
      ClosedTransitive(world, t, first.tables, w.tables);
      AnsweredStays(world, first.tables, w.tables, references[0], owned);
      forall r | r in references
        ensures Answered(world, w.tables, r, owned)
      {
        assert r == references[0] || r in references[1..];
      }
    }
  }

  lemma AnsweredStays(world: World, t: Tables, t': Tables, r: Reference, owned: bool)
    requires t.objectIds <= t'.objectIds && t.tagIds <= t'.tagIds
    requires Answered(world, t, r, owned)
    ensures Answered(world, t', r, owned)
  {
    if LeadsIntoFolder(r) {
      HandledStays(world, t, t', r.node, owned);
    }
  }

  lemma {:induction false} ReferenceCompletes(world: World, limits: Limits, t: Tables, cut: bool, r: Reference,
                                              parent: nat, depth: nat)
    requires limits.modelObjects < SIZE_MAX && depth <= limits.depth
    ensures var w := WalkReference(world, limits, t, cut, r, parent, depth);
            w.Reached? && !w.cut ==>
              !cut && Closed(world, t, w.tables) && Answered(world, w.tables, r, parent != INVALID_INDEX)
    decreases Rank(limits, depth), 0, 0
  {
    if LeadsIntoFolder(r) {
      NodeCompletes(world, limits, t, cut, r.node, parent, depth + 1);
    } else if LeadsToObject(r) && r.node !in t.objectIds {
      var added := AddObject(limits, t, r, world.objectKind(r.node), parent);
      if added.stored {
        NodeCompletes(world, limits, added.tables, cut, r.node, |t.objects|, depth + 1);
        var w := WalkReference(world, limits, t, cut, r, parent, depth);
        if w.Reached? && !w.cut {
          assert added.tables.objectIds == t.objectIds + [r.node];
          assert r.node in added.tables.objectIds;
          forall v | v in w.tables.objectIds && v !in t.objectIds
            ensures Handled(world, w.tables, v, true)
          {
            assert v == r.node || v !in added.tables.objectIds;
          }
        }
      }
    }
  }

  /** A handled table that starts at the Objects folder contains every discoverable object. */
  lemma {:induction false} PathEndsRecorded(world: World, t: Tables, p: seq<NodeId>)
    requires Handled(world, t, OBJECTS_FOLDER, false)
    requires forall v | v in t.objectIds :: Handled(world, t, v, true)
    requires Path(world, p) && p[0] == OBJECTS_FOLDER && !IsStandard(Last(p))
    ensures Last(p) in t.objectIds
    decreases |p|
  {
    var k := LastObject(world, p);
    var tail := p[k..|p| - 1];
    assert FolderPath(world, tail) by {
      assert forall i | 0 <= i < |tail| :: tail[i] == p[k + i];
      forall i | 0 <= i < |tail| - 1
        ensures FolderEdge(world, tail[i], tail[i + 1])
      {
        assert IsStandard(p[k + i + 1]);
        assert FolderEdge(world, p[k + i], p[k + i + 1]) || ObjectEdge(world, p[k + i], p[k + i + 1]);
      }
    }
    assert ObjectEdge(world, Last(tail), Last(p)) by {
      var i := |p| - 2;
      assert FolderEdge(world, p[i], p[i + 1]) || ObjectEdge(world, p[i], p[i + 1]);
    }
    if k == 0 {
      assert Settled(world, t, Last(tail), false);
    } else {
      var prefix := p[..k + 1];
      assert Path(world, prefix) by {
        assert forall i | 0 <= i < |prefix| :: prefix[i] == p[i];
      }
      PathEndsRecorded(world, t, prefix);
      assert tail[0] == Last(prefix);
      assert Settled(world, t, Last(tail), true);
    }
  }

  /** The last place before the end of the path that is an object of its own namespace, or the start. */
  lemma LastObject(world: World, p: seq<NodeId>) returns (k: nat)
    requires Path(world, p) && IsStandard(p[0]) && !IsStandard(Last(p))
    ensures k < |p| - 1
    ensures k == 0 || !IsStandard(p[k])
    ensures forall i | k < i < |p| - 1 :: IsStandard(p[i])
  {
    k := |p| - 2;
    while k > 0 && IsStandard(p[k])
      invariant k <= |p| - 2
      invariant forall i | k < i < |p| - 1 :: IsStandard(p[i])
    {
      k := k - 1;
    }
  }

  // ----- soundness -----

  /** The node that the rows with this parent index were found under. */
  function Anchor(t: Tables, parent: nat): NodeId
    requires parent == INVALID_INDEX || parent < |t.objectIds|
  {
    if parent == INVALID_INDEX then OBJECTS_FOLDER else t.objectIds[parent]
  }

  /** A row is where the graph has it: its parent, or owner, is the nearest enclosing object. */
  ghost predicate ObjectPlaced(world: World, t: Tables, i: nat)
    requires |t.objectIds| == |t.objects| && i < |t.objects|
  {
    var parent := t.objects[i].parentIndex;
    (parent == INVALID_INDEX || parent < i) && HangsUnder(world, Anchor(t, parent), t.objectIds[i])
  }

  ghost predicate TagPlaced(world: World, t: Tables, k: nat)
    requires |t.tagIds| == |t.tags| && k < |t.tags|
  {
    var owner := t.tags[k].equipmentIndex;
    owner < |t.objectIds| && BelongsTo(world, t.objectIds[owner], t.tagIds[k])
  }

  ghost predicate Parallel(t: Tables) {
    |t.objectIds| == |t.objects| && |t.tagIds| == |t.tags| && Distinct(t.objectIds) && Distinct(t.tagIds)
  }

  /** `node` is the anchor itself or a standard folder below it. */
  ghost predicate InZone(world: World, anchor: NodeId, node: NodeId) {
    exists p :: FolderPath(world, p) && p[0] == anchor && Last(p) == node
  }

  /** Every node is recorded once, in its place. */
  ghost predicate Sound(world: World, t: Tables) {
    && Parallel(t)
    && (forall i: nat | i < |t.objects| :: ObjectPlaced(world, t, i))
    && (forall k: nat | k < |t.tags| :: TagPlaced(world, t, k))
  }

  lemma ObjectStaysPlaced(world: World, t: Tables, t': Tables, i: nat)
    requires |t.objectIds| == |t.objects| && |t'.objectIds| == |t'.objects|
    requires t.objectIds <= t'.objectIds && t.objects <= t'.objects
    requires i < |t.objects| && ObjectPlaced(world, t, i)
    ensures ObjectPlaced(world, t', i)
  {
    assert t'.objects[i] == t.objects[i] && t'.objectIds[i] == t.objectIds[i];
    AnchorStays(t, t', t.objects[i].parentIndex);
  }

  lemma TagStaysPlaced(world: World, t: Tables, t': Tables, k: nat)
    requires |t.tagIds| == |t.tags| && |t'.tagIds| == |t'.tags|
    requires t.objectIds <= t'.objectIds && t.tagIds <= t'.tagIds && t.tags <= t'.tags
    requires k < |t.tags| && TagPlaced(world, t, k)
    ensures TagPlaced(world, t', k)
  {
    assert t'.tags[k] == t.tags[k] && t'.tagIds[k] == t.tagIds[k];
    assert t'.objectIds[t.tags[k].equipmentIndex] == t.objectIds[t.tags[k].equipmentIndex];
  }

  lemma AnchorStays(t: Tables, t': Tables, parent: nat)
    requires t.objectIds <= t'.objectIds && (parent == INVALID_INDEX || parent < |t.objectIds|)
    ensures Anchor(t, parent) == Anchor(t', parent)
  {
  }

  lemma ZoneSelf(world: World, node: NodeId)
    ensures InZone(world, node, node)
  {
    assert FolderPath(world, [node]);
  }

  lemma ZoneStep(world: World, anchor: NodeId, node: NodeId, next: NodeId)
    requires InZone(world, anchor, node) && FolderEdge(world, node, next)
    ensures InZone(world, anchor, next)
  {
    var p :| FolderPath(world, p) && p[0] == anchor && Last(p) == node;
    var q := p + [next];
    assert FolderPath(world, q) by {
      assert forall i | 0 <= i < |p| :: q[i] == p[i];
    }
    assert q[0] == anchor && Last(q) == next;
  }

  lemma NewObjectHangs(world: World, anchor: NodeId, node: NodeId, r: Reference)
    requires InZone(world, anchor, node) && r in world.references(node) && LeadsToObject(r)
    ensures HangsUnder(world, anchor, r.node)
  {
    var p :| FolderPath(world, p) && p[0] == anchor && Last(p) == node;
    assert ObjectEdge(world, Last(p), r.node);
  }

  lemma NewVariableBelongs(world: World, anchor: NodeId, node: NodeId, r: Reference)
    requires InZone(world, anchor, node) && r in world.references(node) && LeadsToVariable(r)
    ensures BelongsTo(world, anchor, r.node)
  {
    var p :| FolderPath(world, p) && p[0] == anchor && Last(p) == node;
    assert VariableEdge(world, Last(p), r.node);
  }

  lemma ObjectRowSound(world: World, limits: Limits, t: Tables, r: Reference, parent: nat, node: NodeId)
    requires limits.modelObjects < SIZE_MAX
    requires Sound(world, t) && IsOwner(t, parent) && InZone(world, Anchor(t, parent), node)
    requires r in world.references(node) && LeadsToObject(r) && r.node !in t.objectIds
    requires AddObject(limits, t, r, world.objectKind(r.node), parent).stored
    ensures var t' := AddObject(limits, t, r, world.objectKind(r.node), parent).tables;
            && Sound(world, t') && t.objectIds <= t'.objectIds
            && IsOwner(t', |t.objects|) && InZone(world, Anchor(t', |t.objects|), r.node)
  {
    var t' := AddObject(limits, t, r, world.objectKind(r.node), parent).tables;
    assert t'.objectIds == t.objectIds + [r.node] && t'.tags == t.tags && t'.tagIds == t.tagIds;
    assert |t'.objects| == |t.objects| + 1 && t.objects <= t'.objects && t'.objects[|t.objects|].parentIndex == parent;
    NewObjectHangs(world, Anchor(t, parent), node, r);
    AnchorStays(t, t', parent);
    ZoneSelf(world, r.node);
    forall i: nat | i < |t'.objects|
      ensures ObjectPlaced(world, t', i)
    {
      if i < |t.objects| {
        ObjectStaysPlaced(world, t, t', i);
      }
    }
    forall k: nat | k < |t'.tags|
      ensures TagPlaced(world, t', k)
    {
      TagStaysPlaced(world, t, t', k);
    }
  }

  lemma VariableRowSound(world: World, limits: Limits, t: Tables, r: Reference, owner: nat, node: NodeId)
    requires Sound(world, t) && owner < |t.objects| && owner != INVALID_INDEX && InZone(world, Anchor(t, owner), node)
    requires r in world.references(node) && LeadsToVariable(r) && r.node !in t.tagIds
    requires AddVariable(limits, t, r, world.variable(r.node), owner).stored
    ensures var t' := AddVariable(limits, t, r, world.variable(r.node), owner).tables;
            Sound(world, t') && t.objectIds <= t'.objectIds
  {
    var t' := AddVariable(limits, t, r, world.variable(r.node), owner).tables;
    assert t'.objectIds == t.objectIds && t'.objects == t.objects && t'.tagIds == t.tagIds + [r.node];
    assert |t'.tags| == |t.tags| + 1 && t.tags <= t'.tags && t'.tags[|t.tags|].equipmentIndex == owner;
    NewVariableBelongs(world, Anchor(t, owner), node, r);
    forall i: nat | i < |t'.objects|
      ensures ObjectPlaced(world, t', i)
    {
      ObjectStaysPlaced(world, t, t', i);
    }
    forall k: nat | k < |t'.tags|
      ensures TagPlaced(world, t', k)
    {
      if k < |t.tags| {
        TagStaysPlaced(world, t, t', k);
      }
    }
  }

  lemma {:induction false} NodeSound(world: World, limits: Limits, t: Tables, cut: bool, node: NodeId, parent: nat,
                                     depth: nat)
    requires limits.modelObjects < SIZE_MAX
    requires Sound(world, t) && IsOwner(t, parent) && InZone(world, Anchor(t, parent), node)
    ensures var w := WalkNode(world, limits, t, cut, node, parent, depth);
            w.Reached? ==> Sound(world, w.tables) && t.objectIds <= w.tables.objectIds
    decreases Rank(limits, depth), 2, 0
  {
    if depth <= limits.depth {
      ReferencesSound(world, limits, t, cut, world.references(node), parent, depth, node);
    }
  }

  lemma {:induction false} ReferencesSound(world: World, limits: Limits, t: Tables, cut: bool,
                                           references: seq<Reference>, parent: nat, depth: nat, node: NodeId)
    requires limits.modelObjects < SIZE_MAX && depth <= limits.depth
    requires Sound(world, t) && IsOwner(t, parent) && InZone(world, Anchor(t, parent), node)
    requires forall r | r in references :: r in world.references(node)
    ensures var w := WalkReferences(world, limits, t, cut, references, parent, depth);
            w.Reached? ==> Sound(world, w.tables) && t.objectIds <= w.tables.objectIds
    decreases Rank(limits, depth), 1, |references|
  {
    if references != [] {
      ReferenceSound(world, limits, t, cut, references[0], parent, depth, node);
      var first := WalkReference(world, limits, t, cut, references[0], parent, depth);
      if first.Reached? {
        AnchorStays(t, first.tables, parent);
        ReferencesSound(world, limits, first.tables, first.cut, references[1..], parent, depth, node);
      }
    }
  }

  lemma {:induction false} ReferenceSound(world: World, limits: Limits, t: Tables, cut: bool, r: Reference, parent: nat,
                                          depth: nat, node: NodeId)
    requires limits.modelObjects < SIZE_MAX && depth <= limits.depth
    requires Sound(world, t) && IsOwner(t, parent) && InZone(world, Anchor(t, parent), node)
    requires r in world.references(node)
    ensures var w := WalkReference(world, limits, t, cut, r, parent, depth);
            w.Reached? ==> Sound(world, w.tables) && t.objectIds <= w.tables.objectIds
    decreases Rank(limits, depth), 0, 0
  {
    if LeadsIntoFolder(r) {
      assert FolderEdge(world, node, r.node);
      ZoneStep(world, Anchor(t, parent), node, r.node);
      NodeSound(world, limits, t, cut, r.node, parent, depth + 1);
    } else if LeadsToObject(r) && r.node !in t.objectIds {
      var added := AddObject(limits, t, r, world.objectKind(r.node), parent);
      if added.stored {
        ObjectRowSound(world, limits, t, r, parent, node);
        NodeSound(world, limits, added.tables, cut, r.node, |t.objects|, depth + 1);
      }
    } else if LeadsToVariable(r) && parent != INVALID_INDEX && r.node !in t.tagIds {
      if AddVariable(limits, t, r, world.variable(r.node), parent).stored {
        VariableRowSound(world, limits, t, r, parent, node);
      }
    }
  }

  lemma PathsJoin(world: World, p: seq<NodeId>, q: seq<NodeId>, v: NodeId)
    requires Path(world, p) && FolderPath(world, q) && Last(p) == q[0] && ObjectEdge(world, Last(q), v)
    ensures Path(world, p + q[1..] + [v])
    ensures (p + q[1..] + [v])[0] == p[0]
  {
    var s := p + q[1..] + [v];
    forall i | 0 <= i < |s| - 1
      ensures FolderEdge(world, s[i], s[i + 1]) || ObjectEdge(world, s[i], s[i + 1])
    {
      if i < |p| - 1 {
        assert s[i] == p[i] && s[i + 1] == p[i + 1];
      } else if i < |s| - 2 {
        var j := i - (|p| - 1);
        assert s[i] == q[j] && s[i + 1] == q[j + 1];
      } else {
        assert s[i] == Last(q) && s[i + 1] == v;
      }
    }
  }

  lemma {:induction false} RowsAreDiscoverable(world: World, t: Tables, i: nat)
    requires Sound(world, t) && i < |t.objectIds|
    ensures Discoverable(world, t.objectIds[i])
  {
    var parent := t.objects[i].parentIndex;
    assert ObjectPlaced(world, t, i);
    var start := [OBJECTS_FOLDER];
    if parent != INVALID_INDEX {
      RowsAreDiscoverable(world, t, parent);
      start :| Path(world, start) && start[0] == OBJECTS_FOLDER && Last(start) == t.objectIds[parent];
    }
    var q :| FolderPath(world, q) && q[0] == Anchor(t, parent) && ObjectEdge(world, Last(q), t.objectIds[i]);
    PathsJoin(world, start, q, t.objectIds[i]);
    assert Last(start + q[1..] + [t.objectIds[i]]) == t.objectIds[i];
  }

  // ----- the main theorems -----

  lemma SteadyIsSound(server: Server, world: World, limits: Limits, trace: seq<Call>)
    requires limits.modelObjects < SIZE_MAX
    requires Serves(server, world) && Discover(server, limits, trace).status == GOOD
    ensures Sound(world, Discover(server, limits, trace).progress.tables)
  {
    DiscoverRefinesWalk(server, world, limits, trace);
    ZoneSelf(world, OBJECTS_FOLDER);
    NodeSound(world, limits, EMPTY_TABLES, false, OBJECTS_FOLDER, INVALID_INDEX, 0);
  }

  lemma SoundShape(world: World, t: Tables, u: Tables)
    requires Sound(world, u) && SameShape(t, u)
    ensures Sound(world, t)
  {
    forall i: nat | i < |t.objects|
      ensures ObjectPlaced(world, t, i)
    {
      assert ObjectPlaced(world, u, i);
    }
    forall k: nat | k < |t.tags|
      ensures TagPlaced(world, t, k)
    {
      assert TagPlaced(world, u, k);
    }
  }

  /** Anything that a successful discovery records is really there and in its place, whatever
      metadata the server publishes. */
  lemma DiscoverIsSound(server: Server, world: World, limits: Limits, trace: seq<Call>)
    requires limits.modelObjects < SIZE_MAX
    requires ListsReferences(server, world) && Discover(server, limits, trace).status == GOOD
    ensures var t := Discover(server, limits, trace).progress.tables;
            && Sound(world, t)
            && (forall v | v in t.objectIds :: Discoverable(world, v))
            && (forall v | v in t.tagIds :: exists o | o in t.objectIds :: BelongsTo(world, o, v))
  {
    var t := Discover(server, limits, trace).progress.tables;
    SteadyServes(server, world);
    SteadyAlike(server, world, limits, trace);
    SteadyIsSound(Steady(server, world), world, limits, trace);
    SoundShape(world, t, Discover(Steady(server, world), limits, trace).progress.tables);
    SoundRowsAreDiscoverable(world, t);
  }

  lemma SoundRowsAreDiscoverable(world: World, t: Tables)
    requires Sound(world, t)
    ensures forall v | v in t.objectIds :: Discoverable(world, v)
    ensures forall v | v in t.tagIds :: exists o | o in t.objectIds :: BelongsTo(world, o, v)
  {
    forall v | v in t.objectIds
      ensures Discoverable(world, v)
    {
      var i :| 0 <= i < |t.objectIds| && t.objectIds[i] == v;
      RowsAreDiscoverable(world, t, i);
    }
    forall v | v in t.tagIds
      ensures exists o | o in t.objectIds :: BelongsTo(world, o, v)
    {
      var k :| 0 <= k < |t.tagIds| && t.tagIds[k] == v;
      assert TagPlaced(world, t, k);
    }
  }

  lemma SteadyIsComplete(server: Server, world: World, limits: Limits, trace: seq<Call>)
    requires limits.modelObjects < SIZE_MAX
    requires Serves(server, world)
    requires Discover(server, limits, trace).status == GOOD && !Discover(server, limits, trace).progress.cut
    ensures var t := Discover(server, limits, trace).progress.tables;
            Handled(world, t, OBJECTS_FOLDER, false) && forall v | v in t.objectIds :: Handled(world, t, v, true)
  {
    DiscoverRefinesWalk(server, world, limits, trace);
    NodeCompletes(world, limits, EMPTY_TABLES, false, OBJECTS_FOLDER, INVALID_INDEX, 0);
  }

  lemma HandledShape(world: World, t: Tables, u: Tables, node: NodeId, owned: bool)
    requires SameShape(t, u) && Handled(world, u, node, owned)
    ensures Handled(world, t, node, owned)
  {
    forall p | FolderPath(world, p) && p[0] == node
      ensures Settled(world, t, Last(p), owned)
    {
      assert Settled(world, u, Last(p), owned);
    }
  }

  /** A handled table has everything that can be discovered. */
  lemma HandledHasAll(world: World, t: Tables)
    requires Handled(world, t, OBJECTS_FOLDER, false) && forall v | v in t.objectIds :: Handled(world, t, v, true)
    ensures forall v | Discoverable(world, v) :: v in t.objectIds
    ensures forall v, o | o in t.objectIds && BelongsTo(world, o, v) :: v in t.tagIds
  {
    forall v | Discoverable(world, v)
      ensures v in t.objectIds
    {
      var p :| Path(world, p) && p[0] == OBJECTS_FOLDER && Last(p) == v;
      PathEndsRecorded(world, t, p);
    }
    forall v, o | o in t.objectIds && BelongsTo(world, o, v)
      ensures v in t.tagIds
    {
      var p :| FolderPath(world, p) && p[0] == o && VariableEdge(world, Last(p), v);
      assert Handled(world, t, o, true);
      assert Settled(world, t, Last(p), true);
    }
  }

  /** A successful discovery that never met the depth bound records exactly the discoverable
      objects and exactly the variables of those objects, whatever metadata the server publishes. */
  lemma DiscoverIsExact(server: Server, world: World, limits: Limits, trace: seq<Call>)
    requires limits.modelObjects < SIZE_MAX
    requires ListsReferences(server, world)
    requires Discover(server, limits, trace).status == GOOD && !Discover(server, limits, trace).progress.cut
    ensures var t := Discover(server, limits, trace).progress.tables;
            && (forall v :: v in t.objectIds <==> Discoverable(world, v))
            && (forall v :: v in t.tagIds <==> exists o | o in t.objectIds :: BelongsTo(world, o, v))
  {
    var t, u := Discover(server, limits, trace).progress.tables, Discover(Steady(server, world), limits,
        trace).progress.tables;
    DiscoverIsSound(server, world, limits, trace);
    SteadyServes(server, world);
    SteadyAlike(server, world, limits, trace);
    SteadyIsComplete(Steady(server, world), world, limits, trace);
    HandledShape(world, t, u, OBJECTS_FOLDER, false);
    forall v | v in t.objectIds
      ensures Handled(world, t, v, true)
    {
      HandledShape(world, t, u, v, true);
    }
    HandledHasAll(world, t);
  }
}
