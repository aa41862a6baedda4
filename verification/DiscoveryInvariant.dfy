/** What every discovery keeps, against any server: the model's tables and the client's arrays
    stay aligned, identities are unique, and the objects form a forest. */
module DiscoveryInvariant {
  import opened Collections
  import opened NodeIds
  import opened DataModel
  import opened AddressSpace
  import opened Discovery

  /** Every parent was recorded before its children. */
  ghost predicate Forest(objects: seq<Equipment>) {
    forall i | 0 <= i < |objects| :: objects[i].index == i && (objects[i].parentIndex == INVALID_INDEX ||
                                                               objects[i].parentIndex < i)
  }

  ghost predicate ObjectsMapped(objects: seq<Equipment>, ids: seq<NodeId>) {
    && |ids| == |objects|
    && Distinct(ids)
    && Forest(objects)
    && forall i | 0 <= i < |objects| ::
         && objects[i].nodeId == Rendered(ids[i])
         && (objects[i].explicitKind ==> objects[i].kind != UnknownKind)
         && !IsStandard(ids[i])
  }

  ghost predicate TagsMapped(tags: seq<Tag>, ids: seq<NodeId>, types: seq<BuiltinType>, owners: nat) {
    && |ids| == |types| == |tags|
    && Distinct(ids)
    && forall i | 0 <= i < |tags| ::
         && tags[i].index == i
         && tags[i].equipmentIndex < owners
         && tags[i].nodeId == Rendered(ids[i])
         && tags[i].dataType == MapDataType(types[i])
         && !IsStandard(ids[i])
  }

  ghost predicate WellFormed(t: Tables) {
    ObjectsMapped(t.objects, t.objectIds) && TagsMapped(t.tags, t.tagIds, t.tagTypes, |t.objects|)
  }

  /** Nothing recorded is ever changed or dropped while the walk goes on. */
  ghost predicate Grows(before: Tables, after: Tables) {
    && before.objects <= after.objects
    && before.tags <= after.tags
    && before.objectIds <= after.objectIds
    && before.tagIds <= after.tagIds
    && before.tagTypes <= after.tagTypes
  }

  ghost predicate IsOwner(t: Tables, parent: nat) {
    parent == INVALID_INDEX || parent < |t.objects|
  }

  /** The mapping has room wherever the model has. */
  predicate MappingFits(limits: Limits) {
    limits.modelObjects <= limits.mappedObjects && limits.modelTags <= limits.mappedTags
  }

  ghost predicate Kept(limits: Limits, before: Tables, status: StatusCode, after: Tables) {
    Grows(before, after) && (status == GOOD || MappingFits(limits) ==> WellFormed(after))
  }

  lemma AddObjectKeeps(limits: Limits, t: Tables, r: Reference, published: EntityKind, parent: nat)
    requires WellFormed(t) && IsOwner(t, parent) && LeadsToObject(r) && r.node !in t.objectIds
    ensures var a := AddObject(limits, t, r, published, parent);
            Grows(t, a.tables) && (a.stored || MappingFits(limits) ==> WellFormed(a.tables)) &&
            (a.stored ==> |a.tables.objects| == |t.objects| + 1)
  {
  }

  lemma AddVariableKeeps(limits: Limits, t: Tables, r: Reference, reply: VariableReply, owner: nat)
    requires WellFormed(t) && owner < |t.objects| && LeadsToVariable(r) && r.node !in t.tagIds && reply.Attributes?
    ensures var a := AddVariable(limits, t, r, reply, owner);
            Grows(t, a.tables) && (a.stored || MappingFits(limits) ==> WellFormed(a.tables))
  {
  }

  lemma {:induction false} BrowseKeeps(server: Server, limits: Limits, p: Progress, node: NodeId, parent: nat,
                                       depth: nat)
    requires WellFormed(p.tables) && IsOwner(p.tables, parent)
    ensures var r := BrowseChildren(server, limits, p, node, parent, depth);
            Kept(limits, p.tables, r.status, r.progress.tables)
    decreases Rank(limits, depth), 3, 0
  {
    if depth <= limits.depth {
      var pages := server.browse(p.trace, node);
      var q := p.(trace := p.trace + [Browse(node, Received(Head(pages)))]);
      PagesKeep(server, limits, q, pages, parent, depth);
    }
  }

  lemma {:induction false} PagesKeep(server: Server, limits: Limits, p: Progress, pages: seq<Page>, parent: nat,
                                     depth: nat)
    requires depth <= limits.depth
    requires WellFormed(p.tables) && IsOwner(p.tables, parent)
    ensures var r := FollowPages(server, limits, p, pages, parent, depth);
            Kept(limits, p.tables, r.status, r.progress.tables)
    decreases Rank(limits, depth), 2, |pages|
  {
    match Head(pages) {
      case ServiceFault(_) =>
      case WrongResultCount =>
      case Result(status, references, point) =>
        if status == GOOD {
          ReferencesKeep(server, limits, p, references, parent, depth);
          var r := ProcessReferences(server, limits, p, references, parent, depth);
          if r.status == GOOD && point != [] {
            var q := r.progress.(trace := r.progress.trace + [BrowseNext(point, Received(Head(pages[1..])))]);
            PagesKeep(server, limits, q, pages[1..], parent, depth);
          }
        }
    }
  }

  lemma {:induction false} ReferencesKeep(server: Server, limits: Limits, p: Progress, references: seq<Reference>,
                                          parent: nat, depth: nat)
    requires depth <= limits.depth
    requires WellFormed(p.tables) && IsOwner(p.tables, parent)
    ensures var r := ProcessReferences(server, limits, p, references, parent, depth);
            Kept(limits, p.tables, r.status, r.progress.tables)
    decreases Rank(limits, depth), 1, |references|
  {
    if references != [] {
      ReferenceKeeps(server, limits, p, references[0], parent, depth);
      var r := ProcessReference(server, limits, p, references[0], parent, depth);
      if r.status == GOOD {
        ReferencesKeep(server, limits, r.progress, references[1..], parent, depth);
      }
    }
  }

  lemma {:induction false} ReferenceKeeps(server: Server, limits: Limits, p: Progress, r: Reference, parent: nat,
                                          depth: nat)
    requires depth <= limits.depth
    requires WellFormed(p.tables) && IsOwner(p.tables, parent)
    ensures var o := ProcessReference(server, limits, p, r, parent, depth);
            Kept(limits, p.tables, o.status, o.progress.tables)
    decreases Rank(limits, depth), 0, 0
  {
    if LeadsIntoFolder(r) {
      BrowseKeeps(server, limits, p, r.node, parent, depth + 1);
    } else if LeadsToObject(r) && r.node !in p.tables.objectIds {
      var published := server.objectKind(p.trace, r.node);
      AddObjectKeeps(limits, p.tables, r, published, parent);
      var added := AddObject(limits, p.tables, r, published, parent);
      if added.stored {
        var q := p.(tables := added.tables, trace := p.trace + [ReadObject(r.node)]);
        BrowseKeeps(server, limits, q, r.node, |p.tables.objects|, depth + 1);
      }
    } else if LeadsToVariable(r) && parent != INVALID_INDEX && r.node !in p.tables.tagIds {
      var reply := server.variable(p.trace, r.node);
      if reply.Attributes? {
        AddVariableKeeps(limits, p.tables, r, reply, parent);
      }
    }
  }

  /** Whatever the server answers, a discovery that succeeds ends with aligned tables, unique
      NodeIds and a forest; with equal capacities the same holds at every failure too. */
  lemma DiscoverWellFormed(server: Server, limits: Limits, trace: seq<Call>)
    ensures var r := Discover(server, limits, trace);
            r.status == GOOD || MappingFits(limits) ==> WellFormed(r.progress.tables)
  {
    BrowseKeeps(server, limits, Progress(EMPTY_TABLES, trace, false), OBJECTS_FOLDER, INVALID_INDEX, 0);
  }
}
