/** What the rows say of their nodes: after a successful discovery every row repeats what the server
    publishes about its own node, and the reference that it was found through. */
module Metadata {
  import opened NodeIds
  import opened DataModel
  import opened AddressSpace
  import opened Discovery
  import opened DiscoveryInvariant
  import opened Walk
  import opened Reachability

  /** The panel's type for a built-in type of the standard. */
  predicate TypeFollows(builtin: BuiltinType, dataType: DataType) {
    && (dataType == BooleanType <==> builtin == BuiltinBoolean)
    && (dataType == IntegerType <==>
          builtin in {BuiltinSByte, BuiltinByte, BuiltinInt16, BuiltinUInt16, BuiltinInt32, BuiltinUInt32,
                      BuiltinInt64, BuiltinUInt64})
    && (dataType == FloatType <==> builtin == BuiltinFloat)
    && (dataType == DoubleType <==> builtin == BuiltinDouble)
    && (dataType == StringType <==> builtin == BuiltinString)
    && (dataType == UnknownType <==> builtin == Unsupported)
  }

  /** What a row takes from the kind that its node publishes: that kind, or else Group for a folder. */
  predicate KindFollows(published: EntityKind, typeDefinition: NodeId, row: Equipment) {
    && (published != UnknownKind ==> row.kind == published)
    && (published == UnknownKind && typeDefinition == FOLDER_TYPE ==> row.kind == Group)
    && (row.explicitKind <==> published != UnknownKind || typeDefinition == FOLDER_TYPE)
  }

  /** How a row hangs below its parent. */
  predicate ReferenceFollows(referenceType: NodeId, row: Equipment) {
    if row.parentIndex == INVALID_INDEX then row.referenceKind == Root
    else
      && (row.referenceKind == Organizes <==> referenceType == ORGANIZES)
      && (row.referenceKind == Component <==> referenceType in {HAS_COMPONENT, HAS_ORDERED_COMPONENT})
      && row.referenceKind != Root
  }

  /** A reference to the object, from its parent or a standard folder below it, explains the row. */
  ghost predicate IsExplained(world: World, anchor: NodeId, v: NodeId, row: Equipment) {
    exists u, r | InZone(world, anchor, u) && r in world.references(u) ::
      && r.serverIndex == 0 && r.nodeClass == ObjectNode && r.node == v
      && KindFollows(world.objectKind(v), r.typeDefinition, row)
      && ReferenceFollows(r.referenceType, row)
  }

  ghost predicate ObjectDescribed(world: World, t: Tables, i: nat)
    requires |t.objectIds| == |t.objects| && i < |t.objects|
  {
    var row := t.objects[i];
    && row.nodeId == Rendered(t.objectIds[i])
    && IsOwner(t, row.parentIndex)
    && IsExplained(world, Anchor(t, row.parentIndex), t.objectIds[i], row)
  }

  /** What a variable publishes, in its tag and in the mapping. */
  predicate IsTagOf(node: NodeId, published: VariableReply, tag: Tag, mapped: BuiltinType)
    requires published.Attributes?
  {
    && tag.nodeId == Rendered(node)
    && tag.readable == published.readable
    && tag.writable == published.writable
    && tag.semanticRole == published.semanticRole
    && mapped == published.builtinType
    && TypeFollows(published.builtinType, tag.dataType)
  }

  predicate TagDescribed(world: World, t: Tables, k: nat)
    requires |t.tagIds| == |t.tags| == |t.tagTypes| && k < |t.tags|
  {
    IsTagOf(t.tagIds[k], world.variable(t.tagIds[k]), t.tags[k], t.tagTypes[k])
  }

  /** Every row says what the address space says. */
  ghost predicate Described(world: World, t: Tables) {
    && |t.objectIds| == |t.objects| && |t.tagIds| == |t.tags| == |t.tagTypes|
    && (forall i: nat | i < |t.objects| :: ObjectDescribed(world, t, i))
    && (forall k: nat | k < |t.tags| :: TagDescribed(world, t, k))
  }

  // ----- one row -----

  lemma ObjectStaysDescribed(world: World, t: Tables, t': Tables, i: nat)
    requires |t.objectIds| == |t.objects| && |t'.objectIds| == |t'.objects|
    requires t.objectIds <= t'.objectIds && i < |t.objects| && t'.objects[i] == t.objects[i]
    requires ObjectDescribed(world, t, i)
    ensures ObjectDescribed(world, t', i)
  {
    assert t'.objectIds[i] == t.objectIds[i];
    AnchorStays(t, t', t.objects[i].parentIndex);
  }

  lemma TagStaysDescribed(world: World, t: Tables, t': Tables, k: nat)
    requires |t.tagIds| == |t.tags| == |t.tagTypes| && |t'.tagIds| == |t'.tags| == |t'.tagTypes|
    requires t.tagIds <= t'.tagIds && t.tags <= t'.tags && t.tagTypes <= t'.tagTypes && k < |t.tags|
    requires TagDescribed(world, t, k)
    ensures TagDescribed(world, t', k)
  {
    assert t'.tags[k] == t.tags[k] && t'.tagIds[k] == t.tagIds[k] && t'.tagTypes[k] == t.tagTypes[k];
  }

  lemma ObjectRowFollows(r: Reference, published: EntityKind, parent: nat, index: nat)
    ensures var row := ObjectRow(r, published, parent).(index := index);
            && KindFollows(published, r.typeDefinition, row) && ReferenceFollows(r.referenceType, row)
            && row.parentIndex == parent && row.nodeId == Rendered(r.node)
  {
  }

  lemma NewObjectDescribed(world: World, limits: Limits, t: Tables, r: Reference, parent: nat, node: NodeId)
    requires Described(world, t) && IsOwner(t, parent) && InZone(world, Anchor(t, parent), node)
    requires r in world.references(node) && LeadsToObject(r)
    requires AddObject(limits, t, r, world.objectKind(r.node), parent).stored
    ensures var t' := AddObject(limits, t, r, world.objectKind(r.node), parent).tables;
            Described(world, t') && t'.objectIds == t.objectIds + [r.node]
  {
    var t' := AddObject(limits, t, r, world.objectKind(r.node), parent).tables;
    ObjectRowFollows(r, world.objectKind(r.node), parent, |t.objects|);
    AnchorStays(t, t', parent);
    forall i: nat | i < |t'.objects|
      ensures ObjectDescribed(world, t', i)
    {
      if i < |t.objects| {
        ObjectStaysDescribed(world, t, t', i);
      }
    }
    forall k: nat | k < |t'.tags|
      ensures TagDescribed(world, t', k)
    {
      TagStaysDescribed(world, t, t', k);
    }
  }

  lemma NewVariableDescribed(world: World, limits: Limits, t: Tables, r: Reference, owner: nat)
    requires Described(world, t) && AddVariable(limits, t, r, world.variable(r.node), owner).stored
    ensures var t' := AddVariable(limits, t, r, world.variable(r.node), owner).tables;
            Described(world, t') && t'.objectIds == t.objectIds
  {
    var t' := AddVariable(limits, t, r, world.variable(r.node), owner).tables;
    forall i: nat | i < |t'.objects|
      ensures ObjectDescribed(world, t', i)
    {
      ObjectStaysDescribed(world, t, t', i);
    }
    forall k: nat | k < |t'.tags|
      ensures TagDescribed(world, t', k)
    {
      if k < |t.tags| {
        TagStaysDescribed(world, t, t', k);
      }
    }
  }

  // ----- the walk -----

  lemma {:induction false} NodeDescribed(world: World, limits: Limits, t: Tables, cut: bool, node: NodeId, parent: nat,
                                         depth: nat)
    requires limits.modelObjects < SIZE_MAX
    requires Described(world, t) && IsOwner(t, parent) && InZone(world, Anchor(t, parent), node)
    ensures var w := WalkNode(world, limits, t, cut, node, parent, depth);
            w.Reached? ==> Described(world, w.tables) && t.objectIds <= w.tables.objectIds
    decreases Rank(limits, depth), 2, 0
  {
    if depth <= limits.depth {
      ReferencesDescribed(world, limits, t, cut, world.references(node), parent, depth, node);
    }
  }

  lemma {:induction false} ReferencesDescribed(world: World, limits: Limits, t: Tables, cut: bool,
                                               references: seq<Reference>, parent: nat, depth: nat, node: NodeId)
    requires limits.modelObjects < SIZE_MAX && depth <= limits.depth
    requires Described(world, t) && IsOwner(t, parent) && InZone(world, Anchor(t, parent), node)
    requires forall r | r in references :: r in world.references(node)
    ensures var w := WalkReferences(world, limits, t, cut, references, parent, depth);
            w.Reached? ==> Described(world, w.tables) && t.objectIds <= w.tables.objectIds
    decreases Rank(limits, depth), 1, |references|
  {
    if references != [] {
      ReferenceDescribed(world, limits, t, cut, references[0], parent, depth, node);
      var first := WalkReference(world, limits, t, cut, references[0], parent, depth);
      if first.Reached? {
        AnchorStays(t, first.tables, parent);
        ReferencesDescribed(world, limits, first.tables, first.cut, references[1..], parent, depth, node);
      }
    }
  }

  lemma {:induction false} ReferenceDescribed(world: World, limits: Limits, t: Tables, cut: bool, r: Reference,
                                              parent: nat, depth: nat, node: NodeId)
    requires limits.modelObjects < SIZE_MAX && depth <= limits.depth
    requires Described(world, t) && IsOwner(t, parent) && InZone(world, Anchor(t, parent), node)
    requires r in world.references(node)
    ensures var w := WalkReference(world, limits, t, cut, r, parent, depth);
            w.Reached? ==> Described(world, w.tables) && t.objectIds <= w.tables.objectIds
    decreases Rank(limits, depth), 0, 0
  {
    if LeadsIntoFolder(r) {
      assert FolderEdge(world, node, r.node);
      ZoneStep(world, Anchor(t, parent), node, r.node);
      NodeDescribed(world, limits, t, cut, r.node, parent, depth + 1);
    } else if LeadsToObject(r) && r.node !in t.objectIds {
      var added := AddObject(limits, t, r, world.objectKind(r.node), parent);
      if added.stored {
        NewObjectDescribed(world, limits, t, r, parent, node);
        ZoneSelf(world, r.node);
        NodeDescribed(world, limits, added.tables, cut, r.node, |t.objects|, depth + 1);
      }
    } else if LeadsToVariable(r) && parent != INVALID_INDEX && r.node !in t.tagIds {
      if AddVariable(limits, t, r, world.variable(r.node), parent).stored {
        NewVariableDescribed(world, limits, t, r, parent);
      }
    }
  }

  // ----- the main theorems -----

  /** Whatever the pages look like, the rows of a successful discovery say what the address space
      says of their nodes. */
  lemma DiscoverDescribes(server: Server, world: World, limits: Limits, trace: seq<Call>)
    requires limits.modelObjects < SIZE_MAX
    requires Serves(server, world) && Discover(server, limits, trace).status == GOOD
    ensures Described(world, Discover(server, limits, trace).progress.tables)
  {
    DiscoverRefinesWalk(server, world, limits, trace);
    ZoneSelf(world, OBJECTS_FOLDER);
    NodeDescribed(world, limits, EMPTY_TABLES, false, OBJECTS_FOLDER, INVALID_INDEX, 0);
  }

  /** The classification of a batch leaves what the rows say of their nodes. */
  lemma ClassifiedStaysDescribed(world: World, t: Tables)
    requires Described(world, t)
    ensures Described(world, t.(objects := Classified(t.objects, t.tags)))
  {
    var t' := t.(objects := Classified(t.objects, t.tags));
    forall i: nat | i < |t'.objects|
      ensures ObjectDescribed(world, t', i)
    {
      ClassifiedStaysExplained(world, t, i);
    }
    forall k: nat | k < |t'.tags|
      ensures TagDescribed(world, t', k)
    {
      TagStaysDescribed(world, t, t', k);
    }
  }

  lemma ClassifiedStaysExplained(world: World, t: Tables, i: nat)
    requires |t.objectIds| == |t.objects| && i < |t.objects| && ObjectDescribed(world, t, i)
    ensures ObjectDescribed(world, t.(objects := Classified(t.objects, t.tags)), i)
  {
    var row, row' := t.objects[i], Classified(t.objects, t.tags)[i];
    var anchor, v := Anchor(t, row.parentIndex), t.objectIds[i];
    var u, r :| InZone(world, anchor, u) && r in world.references(u) && r.serverIndex == 0 &&
                r.nodeClass == ObjectNode && r.node == v && KindFollows(world.objectKind(v), r.typeDefinition, row) &&
                ReferenceFollows(r.referenceType, row);
    assert KindFollows(world.objectKind(v), r.typeDefinition, row') && ReferenceFollows(r.referenceType, row');
  }
}
