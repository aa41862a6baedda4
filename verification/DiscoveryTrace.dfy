/** The continuation points of the walk: each one that the Browse and BrowseNext requests of
    BrowseChildren receive is given back exactly once, in last-in first-out order, on success and on
    every error path. The ledger does not book what the metadata reads of objects and variables
    receive: these browse properties on their own, follow no further page and release nothing. */
module DiscoveryTrace {
  import opened NodeIds
  import opened DataModel
  import opened AddressSpace
  import opened Discovery

  datatype Ledger = Broken | Pending(points: seq<ContinuationPoint>)

  function Push(l: Ledger, received: ContinuationPoint): Ledger {
    if l.Broken? || received == [] then l else Pending(l.points + [received])
  }

  /** Only the point received last and not given back yet may be used. */
  function Pop(l: Ledger, used: ContinuationPoint): Ledger {
    if l.Pending? && l.points != [] && l.points[|l.points| - 1] == used then Pending(l.points[..|l.points| - 1])
    else Broken
  }

  function Book(l: Ledger, call: Call): Ledger {
    match call
    case Browse(_, received) => Push(l, received)
    case BrowseNext(consumed, received) => Push(Pop(l, consumed), received)
    case Release(released) => Pop(l, released)
    case ReadObject(_) => l
    case ReadVariable(_) => l
  }

  function Outstanding(trace: seq<Call>): Ledger {
    if trace == [] then Pending([]) else Book(Outstanding(trace[..|trace| - 1]), trace[|trace| - 1])
  }

  function Held(l: Ledger): nat {
    if l.Pending? then |l.points| else 0
  }

  function Max(a: nat, b: nat): nat {
    if a < b then b else a
  }

  /** The largest number of continuation points held at any moment of the trace. */
  function Peak(trace: seq<Call>): nat {
    if trace == [] then 0 else Max(Peak(trace[..|trace| - 1]), Held(Outstanding(trace)))
  }

  /** The points held are those held before, and never more than `extra` others were held meanwhile. */
  ghost predicate Balanced(before: seq<Call>, after: seq<Call>, points: seq<ContinuationPoint>, extra: nat) {
    && Outstanding(after) == Pending(points)
    && Peak(after) <= Max(Peak(before), |points| + extra)
  }

  lemma OneMore(trace: seq<Call>, call: Call)
    ensures Outstanding(trace + [call]) == Book(Outstanding(trace), call)
    ensures Peak(trace + [call]) == Max(Peak(trace), Held(Book(Outstanding(trace), call)))
  {
    assert (trace + [call])[..|trace|] == trace;
  }

  /** Giving back the point received last, for the next page or for good. */
  lemma GiveBack(before: seq<Call>, middle: seq<Call>, points: seq<ContinuationPoint>, point: ContinuationPoint,
                 received: ContinuationPoint, extra: nat)
    requires Balanced(before, middle, points + [point], extra)
    ensures var after := middle + [BrowseNext(point, received)];
            Outstanding(after) == Push(Pending(points), received) &&
            Peak(after) <= Max(Peak(before), |points| + 1 + extra)
    ensures Balanced(before, middle + [Release(point)], points, extra + 1)
  {
    OneMore(middle, BrowseNext(point, received));
    OneMore(middle, Release(point));
    assert (points + [point])[..|points|] == points;
  }

  lemma {:induction false} BrowseBalances(server: Server, limits: Limits, p: Progress, node: NodeId, parent: nat,
                                          depth: nat)
    requires Outstanding(p.trace).Pending?
    ensures var r := BrowseChildren(server, limits, p, node, parent, depth);
            Balanced(p.trace, r.progress.trace, Outstanding(p.trace).points, Rank(limits, depth))
    decreases Rank(limits, depth), 3, 0
  {
    if depth <= limits.depth {
      var pages := server.browse(p.trace, node);
      var call := Browse(node, Received(Head(pages)));
      OneMore(p.trace, call);
      PagesBalance(server, limits, p.(trace := p.trace + [call]), pages, parent, depth, Outstanding(p.trace).points);
    }
  }

  /** `points` are the points that enclosing calls still hold. */
  lemma {:induction false} PagesBalance(server: Server, limits: Limits, p: Progress, pages: seq<Page>, parent: nat,
                                        depth: nat, points: seq<ContinuationPoint>)
    requires depth <= limits.depth
    requires Outstanding(p.trace) == Push(Pending(points), Received(Head(pages)))
    ensures var r := FollowPages(server, limits, p, pages, parent, depth);
            Balanced(p.trace, r.progress.trace, points, Rank(limits, depth))
    decreases Rank(limits, depth), 2, |pages|
  {
    match Head(pages) {
      case ServiceFault(_) =>
      case WrongResultCount =>
      case Result(status, references, point) =>
        PageBalances(server, limits, p, Head(pages), parent, depth);
        var r := if status != GOOD then Outcome(status, p)
          else ProcessReferences(server, limits, p, references, parent, depth);
        if point != [] {
          var received := Received(Head(pages[1..]));
          GiveBack(p.trace, r.progress.trace, points, point, received, Rank(limits, depth) - 1);
          if r.status == GOOD {
            var q := r.progress.(trace := r.progress.trace + [BrowseNext(point, received)]);
            PagesBalance(server, limits, q, pages[1..], parent, depth, points);
          }
        }
    }
  }

  lemma {:induction false} PageBalances(server: Server, limits: Limits, p: Progress, page: Page, parent: nat,
                                        depth: nat)
    requires depth <= limits.depth
    requires Outstanding(p.trace).Pending? && page.Result?
    ensures var r := if page.status != GOOD then Outcome(page.status, p)
                     else ProcessReferences(server, limits, p, page.references, parent, depth);
            Balanced(p.trace, r.progress.trace, Outstanding(p.trace).points, Rank(limits, depth) - 1)
    decreases Rank(limits, depth), 1, |page.references| + 1
  {
    if page.status == GOOD {
      ReferencesBalance(server, limits, p, page.references, parent, depth);
    }
  }

  lemma {:induction false} ReferencesBalance(server: Server, limits: Limits, p: Progress, references: seq<Reference>,
                                             parent: nat, depth: nat)
    requires depth <= limits.depth
    requires Outstanding(p.trace).Pending?
    ensures var r := ProcessReferences(server, limits, p, references, parent, depth);
            Balanced(p.trace, r.progress.trace, Outstanding(p.trace).points, Rank(limits, depth) - 1)
    decreases Rank(limits, depth), 1, |references|
  {
    if references != [] {
      ReferenceBalances(server, limits, p, references[0], parent, depth);
      var r := ProcessReference(server, limits, p, references[0], parent, depth);
      if r.status == GOOD {
        ReferencesBalance(server, limits, r.progress, references[1..], parent, depth);
      }
    }
  }

  /** A metadata read in between leaves the points of the walk as they are. */
  lemma ReadHoldsNothing(trace: seq<Call>, call: Call, extra: nat)
    requires Outstanding(trace).Pending? && (call.ReadObject? || call.ReadVariable?)
    ensures Balanced(trace, trace + [call], Outstanding(trace).points, extra)
  {
    OneMore(trace, call);
  }

  lemma BalancedChain(before: seq<Call>, middle: seq<Call>, after: seq<Call>, points: seq<ContinuationPoint>,
                      extra: nat)
    requires Balanced(before, middle, points, extra) && Balanced(middle, after, points, extra)
    ensures Balanced(before, after, points, extra)
  {
  }

  ghost predicate ReferenceBalanced(server: Server, limits: Limits, p: Progress, r: Reference, parent: nat, depth: nat)
    requires depth <= limits.depth && Outstanding(p.trace).Pending?
  {
    Balanced(p.trace, ProcessReference(server, limits, p, r, parent, depth).progress.trace, Outstanding(p.trace).points,
             Rank(limits, depth) - 1)
  }

  /** A new object is read, stored if there is room, and then browsed. */
  lemma {:induction false} ObjectBalances(server: Server, limits: Limits, p: Progress, r: Reference, parent: nat,
                                          depth: nat)
    requires depth <= limits.depth && Outstanding(p.trace).Pending?
    requires !LeadsIntoFolder(r) && LeadsToObject(r) && r.node !in p.tables.objectIds
    ensures ReferenceBalanced(server, limits, p, r, parent, depth)
    decreases Rank(limits, depth), 0, 0
  {
    var points, extra := Outstanding(p.trace).points, Rank(limits, depth) - 1;
    var added := AddObject(limits, p.tables, r, server.objectKind(p.trace, r.node), parent);
    var q := p.(tables := added.tables, trace := p.trace + [ReadObject(r.node)]);
    var o := ProcessReference(server, limits, p, r, parent, depth);
    ReadHoldsNothing(p.trace, ReadObject(r.node), extra);
    if added.stored {
      assert o == BrowseChildren(server, limits, q, r.node, |p.tables.objects|, depth + 1);
      BrowseBalances(server, limits, q, r.node, |p.tables.objects|, depth + 1);
      BalancedChain(p.trace, q.trace, o.progress.trace, points, extra);
    } else {
      assert o.progress.trace == q.trace;
    }
  }

  lemma VariableBalances(server: Server, limits: Limits, p: Progress, r: Reference, parent: nat, depth: nat)
    requires depth <= limits.depth && Outstanding(p.trace).Pending?
    requires !LeadsIntoFolder(r) && !LeadsToObject(r)
    ensures ReferenceBalanced(server, limits, p, r, parent, depth)
  {
    var o := ProcessReference(server, limits, p, r, parent, depth);
    if LeadsToVariable(r) && parent != INVALID_INDEX && r.node !in p.tables.tagIds {
      ReadHoldsNothing(p.trace, ReadVariable(r.node), Rank(limits, depth) - 1);
      assert o.progress.trace == p.trace + [ReadVariable(r.node)];
    } else {
      assert o.progress == p;
    }
  }

  lemma {:induction false} ReferenceBalances(server: Server, limits: Limits, p: Progress, r: Reference, parent: nat,
                                             depth: nat)
    requires depth <= limits.depth && Outstanding(p.trace).Pending?
    ensures ReferenceBalanced(server, limits, p, r, parent, depth)
    decreases Rank(limits, depth), 0, 1
  {
    if LeadsIntoFolder(r) {
      BrowseBalances(server, limits, p, r.node, parent, depth + 1);
    } else if LeadsToObject(r) {
      if r.node in p.tables.objectIds {
        assert ProcessReference(server, limits, p, r, parent, depth) == Outcome(GOOD, p);
      } else {
        ObjectBalances(server, limits, p, r, parent, depth);
      }
    } else {
      VariableBalances(server, limits, p, r, parent, depth);
    }
  }

  /** A discovery gives back every continuation point that its walk received, whatever the server
      answers, and never holds more than one of them per level. */
  lemma DiscoverBalances(server: Server, limits: Limits)
    ensures var trace := Discover(server, limits, []).progress.trace;
            Outstanding(trace) == Pending([]) && Peak(trace) <= limits.depth + 1
  {
    BrowseBalances(server, limits, Progress(EMPTY_TABLES, [], false), OBJECTS_FOLDER, INVALID_INDEX, 0);
  }
}
