/** What a discovery records does not depend on metadata: two servers that list the same references
    and fail the same reads lead to the same requests, the same NodeIds and the same places. */
module Shape {
  import opened NodeIds
  import opened DataModel
  import opened AddressSpace
  import opened Discovery

  ghost predicate SameReplies(a: Server, b: Server) {
    && (forall trace, node :: a.browse(trace, node) == b.browse(trace, node))
    && (forall trace, node :: AlikeReplies(a.variable(trace, node), b.variable(trace, node)))
  }

  predicate AlikeReplies(x: VariableReply, y: VariableReply) {
    if x.ReadFailed? then x == y else y.Attributes?
  }

  /** The same nodes at the same places; kinds, roles and types may differ. */
  ghost predicate SameShape(t: Tables, u: Tables) {
    && t.objectIds == u.objectIds && t.tagIds == u.tagIds
    && |t.objects| == |u.objects| && |t.tags| == |u.tags|
    && (forall i | 0 <= i < |t.objects| :: t.objects[i].parentIndex == u.objects[i].parentIndex)
    && (forall k | 0 <= k < |t.tags| :: t.tags[k].equipmentIndex == u.tags[k].equipmentIndex)
  }

  ghost predicate Abreast(p: Progress, q: Progress) {
    p.trace == q.trace && p.cut == q.cut && SameShape(p.tables, q.tables)
  }

  ghost predicate Alike(x: Outcome, y: Outcome) {
    x.status == y.status && Abreast(x.progress, y.progress)
  }

  lemma ObjectsAlike(limits: Limits, t: Tables, u: Tables, r: Reference, k: EntityKind, l: EntityKind, parent: nat)
    requires SameShape(t, u)
    ensures AddObject(limits, t, r, k, parent).stored == AddObject(limits, u, r, l, parent).stored
    ensures SameShape(AddObject(limits, t, r, k, parent).tables, AddObject(limits, u, r, l, parent).tables)
  {
  }

  lemma VariablesAlike(limits: Limits, t: Tables, u: Tables, r: Reference, x: VariableReply, y: VariableReply,
                       owner: nat)
    requires SameShape(t, u) && x.Attributes? && y.Attributes?
    ensures AddVariable(limits, t, r, x, owner).stored == AddVariable(limits, u, r, y, owner).stored
    ensures SameShape(AddVariable(limits, t, r, x, owner).tables, AddVariable(limits, u, r, y, owner).tables)
  {
  }

  lemma {:induction false} BrowsesAlike(a: Server, b: Server, limits: Limits, p: Progress, q: Progress, node: NodeId,
                                        parent: nat, depth: nat)
    requires SameReplies(a, b) && Abreast(p, q)
    ensures Alike(BrowseChildren(a, limits, p, node, parent, depth), BrowseChildren(b, limits, q, node, parent, depth))
    decreases Rank(limits, depth), 3, 0
  {
    if depth <= limits.depth {
      var pages := a.browse(p.trace, node);
      assert pages == b.browse(q.trace, node);
      var call := Browse(node, Received(Head(pages)));
      PagesAlike(a, b, limits, p.(trace := p.trace + [call]), q.(trace := q.trace + [call]), pages, parent, depth);
    }
  }

  lemma {:induction false} PagesAlike(a: Server, b: Server, limits: Limits, p: Progress, q: Progress, pages: seq<Page>,
                                      parent: nat, depth: nat)
    requires SameReplies(a, b) && Abreast(p, q) && depth <= limits.depth
    ensures Alike(FollowPages(a, limits, p, pages, parent, depth), FollowPages(b, limits, q, pages, parent, depth))
    decreases Rank(limits, depth), 2, |pages|
  {
    if Head(pages).Result? {
      var page := Head(pages);
      if page.status == GOOD {
        ListsAlike(a, b, limits, p, q, page.references, parent, depth);
      }
      var x := if page.status != GOOD then Outcome(page.status, p)
               else ProcessReferences(a, limits, p, page.references, parent, depth);
      var y := if page.status != GOOD then Outcome(page.status, q)
               else ProcessReferences(b, limits, q, page.references, parent, depth);
      OnePage(a, limits, p, pages, parent, depth);
      OnePage(b, limits, q, pages, parent, depth);
      if page.continuationPoint != [] && x.status == GOOD {
        var next := BrowseNext(page.continuationPoint, Received(Head(pages[1..])));
        PagesAlike(a, b, limits, x.progress.(trace := x.progress.trace + [next]),
                   y.progress.(trace := y.progress.trace + [next]),
                   pages[1..], parent, depth);
      }
    }
  }

  lemma {:induction false} ListsAlike(a: Server, b: Server, limits: Limits, p: Progress, q: Progress,
                                      references: seq<Reference>, parent: nat, depth: nat)
    requires SameReplies(a, b) && Abreast(p, q) && depth <= limits.depth
    ensures Alike(ProcessReferences(a, limits, p, references, parent, depth),
                  ProcessReferences(b, limits, q, references, parent, depth))
    decreases Rank(limits, depth), 1, |references|
  {
    if references != [] {
      ReferencesAlike(a, b, limits, p, q, references[0], parent, depth);
      var x := ProcessReference(a, limits, p, references[0], parent, depth);
      var y := ProcessReference(b, limits, q, references[0], parent, depth);
      if x.status == GOOD {
        ListsAlike(a, b, limits, x.progress, y.progress, references[1..], parent, depth);
      }
    }
  }

  lemma {:induction false} ReferencesAlike(a: Server, b: Server, limits: Limits, p: Progress, q: Progress, r: Reference,
                                           parent: nat, depth: nat)
    requires SameReplies(a, b) && Abreast(p, q) && depth <= limits.depth
    ensures Alike(ProcessReference(a, limits, p, r, parent, depth), ProcessReference(b, limits, q, r, parent, depth))
    decreases Rank(limits, depth), 0, 0
  {
    if LeadsIntoFolder(r) {
      BrowsesAlike(a, b, limits, p, q, r.node, parent, depth + 1);
    } else if LeadsToObject(r) {
      if r.node !in p.tables.objectIds {
        var k, l := a.objectKind(p.trace, r.node), b.objectKind(q.trace, r.node);
        ObjectsAlike(limits, p.tables, q.tables, r, k, l, parent);
        var x, y := AddObject(limits, p.tables, r, k, parent), AddObject(limits, q.tables, r, l, parent);
        if x.stored {
          var read := ReadObject(r.node);
          BrowsesAlike(a, b, limits, p.(tables := x.tables, trace := p.trace + [read]),
                       q.(tables := y.tables, trace := q.trace + [read]), r.node, |p.tables.objects|, depth + 1);
        }
      }
    } else if LeadsToVariable(r) && parent != INVALID_INDEX && r.node !in p.tables.tagIds {
      var x, y := a.variable(p.trace, r.node), b.variable(q.trace, r.node);
      assert AlikeReplies(x, y);
      if x.Attributes? {
        VariablesAlike(limits, p.tables, q.tables, r, x, y, parent);
      }
    }
  }

  /** The server with its metadata as the world has it: no property read ever fails. */
  function Steady(server: Server, world: World): Server {
    Server(server.browse,
           (trace: seq<Call>, node: NodeId) => world.objectKind(node),
           (trace: seq<Call>, node: NodeId) =>
             if server.variable(trace, node).Attributes? then world.variable(node) else server.variable(trace, node))
  }

  lemma SteadyReplies(server: Server, world: World)
    ensures SameReplies(server, Steady(server, world))
  {
  }

  /** Two servers that list the same references and fail the same reads are discovered alike. */
  lemma DiscoveriesAlike(a: Server, b: Server, limits: Limits, trace: seq<Call>)
    requires SameReplies(a, b)
    ensures Alike(Discover(a, limits, trace), Discover(b, limits, trace))
  {
    var p := Progress(EMPTY_TABLES, trace, false);
    BrowsesAlike(a, b, limits, p, p, OBJECTS_FOLDER, INVALID_INDEX, 0);
  }

  lemma SteadyAlike(server: Server, world: World, limits: Limits, trace: seq<Call>)
    ensures Alike(Discover(server, limits, trace), Discover(Steady(server, world), limits, trace))
  {
    SteadyReplies(server, world);
    DiscoveriesAlike(server, Steady(server, world), limits, trace);
  }

  lemma SteadyServes(server: Server, world: World)
    requires ListsReferences(server, world)
    ensures Serves(Steady(server, world), world)
    ensures NeverFails(server) ==> NeverFails(Steady(server, world))
  {
  }
}
