/** The same discovery on a fixed reference graph, without pages, requests or failures other than
    full tables; and the proof that the paged discovery refines it. */
module Walk {
  import opened NodeIds
  import opened DataModel
  import opened AddressSpace
  import opened Discovery

  datatype Walked = OutOfRoom | Reached(tables: Tables, cut: bool)

  function WalkNode(world: World, limits: Limits, t: Tables, cut: bool, node: NodeId, parent: nat, depth: nat): Walked
    decreases Rank(limits, depth), 2, 0
  {
    if depth > limits.depth then Reached(t, true)
    else WalkReferences(world, limits, t, cut, world.references(node), parent, depth)
  }

  function WalkReferences(world: World, limits: Limits, t: Tables, cut: bool, references: seq<Reference>, parent: nat,
                          depth: nat): Walked
    requires depth <= limits.depth
    decreases Rank(limits, depth), 1, |references|
  {
    if references == [] then Reached(t, cut)
    else
      match WalkReference(world, limits, t, cut, references[0], parent, depth)
      case OutOfRoom => OutOfRoom
      case Reached(t', cut') => WalkReferences(world, limits, t', cut', references[1..], parent, depth)
  }

  function WalkReference(world: World, limits: Limits, t: Tables, cut: bool, r: Reference, parent: nat,
                         depth: nat): Walked
    requires depth <= limits.depth
    decreases Rank(limits, depth), 0, 0
  {
    if LeadsIntoFolder(r) then WalkNode(world, limits, t, cut, r.node, parent, depth + 1)
    else if LeadsToObject(r) && r.node !in t.objectIds then
      var added := AddObject(limits, t, r, world.objectKind(r.node), parent);
      if !added.stored then OutOfRoom
      else WalkNode(world, limits, added.tables, cut, r.node, |t.objects|, depth + 1)
    else if LeadsToVariable(r) && parent != INVALID_INDEX && r.node !in t.tagIds then
      var added := AddVariable(limits, t, r, world.variable(r.node), parent);
      if added.stored then Reached(added.tables, cut) else OutOfRoom
    else Reached(t, cut)
  }

  function WalkAll(world: World, limits: Limits): Walked {
    WalkNode(world, limits, EMPTY_TABLES, false, OBJECTS_FOLDER, INVALID_INDEX, 0)
  }

  lemma {:induction false} WalkSplit(world: World, limits: Limits, t: Tables, cut: bool, a: seq<Reference>,
                                     b: seq<Reference>, parent: nat, depth: nat)
    requires depth <= limits.depth
    ensures WalkReferences(world, limits, t, cut, a + b, parent, depth) ==
            match WalkReferences(world, limits, t, cut, a, parent, depth)
            case OutOfRoom => OutOfRoom
            case Reached(t', cut') => WalkReferences(world, limits, t', cut', b, parent, depth)
    decreases |a|
  {
    if a == [] {
      assert a + b == b;
    } else {
      assert (a + b)[1..] == a[1..] + b;
      var first := WalkReference(world, limits, t, cut, a[0], parent, depth);
      if first.Reached? {
        WalkSplit(world, limits, first.tables, first.cut, a[1..], b, parent, depth);
      }
    }
  }

  /** Success means the walk's tables; a server that never fails succeeds whenever there is room. */
  ghost predicate Matches(server: Server, o: Outcome, w: Walked) {
    && (o.status == GOOD ==> w == Reached(o.progress.tables, o.progress.cut))
    && (NeverFails(server) && w.Reached? ==> o.status == GOOD)
  }

  lemma {:induction false} BrowseRefines(server: Server, world: World, limits: Limits, p: Progress, node: NodeId,
                                         parent: nat, depth: nat)
    requires Serves(server, world)
    ensures Matches(server, BrowseChildren(server, limits, p, node, parent, depth),
                    WalkNode(world, limits, p.tables, p.cut, node, parent, depth))
    decreases Rank(limits, depth), 3, 0
  {
    if depth <= limits.depth {
      var pages := server.browse(p.trace, node);
      var q := p.(trace := p.trace + [Browse(node, Received(Head(pages)))]);
      PagesRefine(server, world, limits, q, pages, parent, depth);
    }
  }

  lemma {:induction false} PagesRefine(server: Server, world: World, limits: Limits, p: Progress, pages: seq<Page>,
                                       parent: nat, depth: nat)
    requires Serves(server, world) && depth <= limits.depth
    ensures var o := FollowPages(server, limits, p, pages, parent, depth);
            && (Gather(pages).Failed? ==> o.status != GOOD)
            && (Gather(pages).Complete? ==>
                  Matches(server, o, WalkReferences(world, limits, p.tables, p.cut, Gather(pages).references, parent,
                                                    depth)))
    decreases Rank(limits, depth), 2, |pages|
  {
    match Head(pages) {
      case ServiceFault(_) =>
      case WrongResultCount =>
      case Result(status, references, point) =>
        if status == GOOD {
          ReferencesRefine(server, world, limits, p, references, parent, depth);
          if point != [] {
            var r := ProcessReferences(server, limits, p, references, parent, depth);
            if Gather(pages[1..]).Complete? {
              WalkSplit(world, limits, p.tables, p.cut, references, Gather(pages[1..]).references, parent, depth);
            }
            if r.status == GOOD {
              var q := r.progress.(trace := r.progress.trace + [BrowseNext(point, Received(Head(pages[1..])))]);
              PagesRefine(server, world, limits, q, pages[1..], parent, depth);
            }
          }
        }
    }
  }

  lemma {:induction false} ReferencesRefine(server: Server, world: World, limits: Limits, p: Progress,
                                            references: seq<Reference>, parent: nat, depth: nat)
    requires Serves(server, world) && depth <= limits.depth
    ensures Matches(server, ProcessReferences(server, limits, p, references, parent, depth),
                    WalkReferences(world, limits, p.tables, p.cut, references, parent, depth))
    decreases Rank(limits, depth), 1, |references|
  {
    if references != [] {
      ReferenceRefines(server, world, limits, p, references[0], parent, depth);
      var r := ProcessReference(server, limits, p, references[0], parent, depth);
      if r.status == GOOD {
        ReferencesRefine(server, world, limits, r.progress, references[1..], parent, depth);
      }
    }
  }

  lemma {:induction false} ReferenceRefines(server: Server, world: World, limits: Limits, p: Progress, r: Reference,
                                            parent: nat, depth: nat)
    requires Serves(server, world) && depth <= limits.depth
    ensures Matches(server, ProcessReference(server, limits, p, r, parent, depth),
                    WalkReference(world, limits, p.tables, p.cut, r, parent, depth))
    decreases Rank(limits, depth), 0, 0
  {
    if LeadsIntoFolder(r) {
      BrowseRefines(server, world, limits, p, r.node, parent, depth + 1);
    } else if LeadsToObject(r) && r.node !in p.tables.objectIds {
      var added := AddObject(limits, p.tables, r, world.objectKind(r.node), parent);
      if added.stored {
        var q := p.(tables := added.tables, trace := p.trace + [ReadObject(r.node)]);
        BrowseRefines(server, world, limits, q, r.node, |p.tables.objects|, depth + 1);
      }
    }
  }

  /** Paging is invisible: a successful discovery has exactly the tables of the walk over whole
      reference lists, and when no request fails, full tables are the only way not to succeed. */
  lemma DiscoverRefinesWalk(server: Server, world: World, limits: Limits, trace: seq<Call>)
    requires Serves(server, world)
    ensures var o := Discover(server, limits, trace);
            && (o.status == GOOD ==> WalkAll(world, limits) == Reached(o.progress.tables, o.progress.cut))
            && (NeverFails(server) ==> (o.status == GOOD <==> WalkAll(world, limits).Reached?))
  {
    BrowseRefines(server, world, limits, Progress(EMPTY_TABLES, trace, false), OBJECTS_FOLDER, INVALID_INDEX, 0);
  }

  /** Two servers of one address space that split their pages differently are indistinguishable. */
  lemma PageSplitsDoNotMatter(one: Server, other: Server, world: World, limits: Limits, trace: seq<Call>,
                              trace': seq<Call>)
    requires Serves(one, world) && Serves(other, world)
    ensures var a, b := Discover(one, limits, trace), Discover(other, limits, trace');
            && (a.status == GOOD == b.status ==>
                a.progress.tables == b.progress.tables && a.progress.cut == b.progress.cut)
            && (NeverFails(one) && NeverFails(other) ==> (a.status == GOOD <==> b.status == GOOD))
  {
    DiscoverRefinesWalk(one, world, limits, trace);
    DiscoverRefinesWalk(other, world, limits, trace');
  }
}
