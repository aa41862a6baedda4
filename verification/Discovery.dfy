/** What one discovery does, as functions on the tables it fills: a depth-bounded walk over the
    pages that the server returns. The client's methods are proved equal to these functions. */
module Discovery {
  import opened NodeIds
  import opened DataModel
  import opened AddressSpace

  /** Capacities of the model and of the client's mapping, and the depth bound. */
  datatype Limits = Limits(modelObjects: nat, modelTags: nat, mappedObjects: nat, mappedTags: nat, depth: nat)

  /** The two model tables and the three arrays kept parallel to them. */
  datatype Tables = Tables(objects: seq<Equipment>, tags: seq<Tag>, objectIds: seq<NodeId>, tagIds: seq<NodeId>,
                           tagTypes: seq<BuiltinType>)

  const EMPTY_TABLES := Tables([], [], [], [], [])

  /** The tables, the requests sent so far, and whether a branch was cut at the depth bound. */
  datatype Progress = Progress(tables: Tables, trace: seq<Call>, cut: bool)

  datatype Outcome = Outcome(status: StatusCode, progress: Progress)

  function Rank(limits: Limits, depth: nat): nat {
    if depth > limits.depth then 0 else limits.depth + 1 - depth
  }

  function BrowseChildren(server: Server, limits: Limits, p: Progress, node: NodeId, parent: nat, depth: nat): Outcome
    decreases Rank(limits, depth), 3, 0
  {
    if depth > limits.depth then Outcome(GOOD, p.(cut := true))
    else
      var pages := server.browse(p.trace, node);
      FollowPages(server, limits, p.(trace := p.trace + [Browse(node, Received(Head(pages)))]), pages, parent, depth)
  }

  /** Works through the answers to one Browse; the request for the head page has been sent. */
  function FollowPages(server: Server, limits: Limits, p: Progress, pages: seq<Page>, parent: nat, depth: nat): Outcome
    requires depth <= limits.depth
    decreases Rank(limits, depth), 2, |pages|
  {
    match Head(pages)
    case ServiceFault(code) => Outcome(code, p)
    case WrongResultCount => Outcome(BADUNEXPECTEDERROR, p)
    case Result(status, references, point) =>
      var r := if status != GOOD then Outcome(status, p)
        else ProcessReferences(server, limits, p, references, parent, depth);
      if point == [] then r
      else if r.status != GOOD then
        r.(progress := r.progress.(trace := r.progress.trace + [Release(point)]))
      else
        var next := BrowseNext(point, Received(Head(pages[1..])));
        FollowPages(server, limits, r.progress.(trace := r.progress.trace + [next]), pages[1..], parent, depth)
  }

  /** What is left to do after one page has been worked through with this status. */
  ghost function Remaining(server: Server, limits: Limits, status: StatusCode, point: ContinuationPoint, p: Progress,
                           answers: seq<Page>, parent: nat, depth: nat): Outcome
    requires depth <= limits.depth
  {
    if point == [] then Outcome(status, p)
    else if status != GOOD then Outcome(status, p.(trace := p.trace + [Release(point)]))
    else
      var next := BrowseNext(point, Received(Head(answers)));
      FollowPages(server, limits, p.(trace := p.trace + [next]), answers, parent, depth)
  }

  lemma OnePage(server: Server, limits: Limits, p: Progress, pages: seq<Page>, parent: nat, depth: nat)
    requires depth <= limits.depth && Head(pages).Result?
    ensures var page := Head(pages);
            var r := if page.status != GOOD then Outcome(page.status, p)
                     else ProcessReferences(server, limits, p, page.references, parent, depth);
            FollowPages(server, limits, p, pages, parent, depth) ==
            Remaining(server, limits, r.status, page.continuationPoint, r.progress, pages[1..], parent, depth)
  {
  }

  function ProcessReferences(server: Server, limits: Limits, p: Progress, references: seq<Reference>, parent: nat,
                             depth: nat): Outcome
    requires depth <= limits.depth
    decreases Rank(limits, depth), 1, |references|
  {
    if references == [] then Outcome(GOOD, p)
    else
      var r := ProcessReference(server, limits, p, references[0], parent, depth);
      if r.status != GOOD then r
      else ProcessReferences(server, limits, r.progress, references[1..], parent, depth)
  }

  function ProcessReference(server: Server, limits: Limits, p: Progress, r: Reference, parent: nat, depth: nat): Outcome
    requires depth <= limits.depth
    decreases Rank(limits, depth), 0, 0
  {
    if LeadsIntoFolder(r) then BrowseChildren(server, limits, p, r.node, parent, depth + 1)
    else if LeadsToObject(r) then
      if r.node in p.tables.objectIds then Outcome(GOOD, p)
      else
        var added := AddObject(limits, p.tables, r, server.objectKind(p.trace, r.node), parent);
        var q := p.(tables := added.tables, trace := p.trace + [ReadObject(r.node)]);
        if !added.stored then Outcome(BADOUTOFMEMORY, q)
        else BrowseChildren(server, limits, q, r.node, |p.tables.objects|, depth + 1)
    else if LeadsToVariable(r) && parent != INVALID_INDEX then
      if r.node in p.tables.tagIds then Outcome(GOOD, p)
      else
        var q := p.(trace := p.trace + [ReadVariable(r.node)]);
        match server.variable(p.trace, r.node)
        case ReadFailed(code) => Outcome(code, q)
        case Attributes(_, _, _, _) =>
          var added := AddVariable(limits, p.tables, r, server.variable(p.trace, r.node), parent);
          Outcome(if added.stored then GOOD else BADOUTOFMEMORY, q.(tables := added.tables))
    else Outcome(GOOD, p)
  }

  // ----- one row -----

  datatype Addition = Addition(stored: bool, tables: Tables)

  function ReferenceKindOf(r: Reference, parent: nat): ReferenceKind {
    if parent == INVALID_INDEX then Root
    else if r.referenceType == ORGANIZES then Organizes
    else if r.referenceType == HAS_COMPONENT || r.referenceType == HAS_ORDERED_COMPONENT then Component
    else UnknownReference
  }

  /** The row of an object: a published EntityKind wins over the folder type, both are explicit. */
  function ObjectRow(r: Reference, published: EntityKind, parent: nat): Equipment {
    var folder := r.typeDefinition == FOLDER_TYPE;
    Equipment(0, parent, Rendered(r.node),
              if published != UnknownKind then published else if folder then Group else UnknownKind,
              ReferenceKindOf(r, parent), folder || published != UnknownKind)
  }

  function VariableRow(r: Reference, reply: VariableReply, owner: nat): Tag
    requires reply.Attributes?
  {
    Tag(0, owner, Rendered(r.node), reply.semanticRole, MapDataType(reply.builtinType), reply.readable, reply.writable)
  }

  /** The model appends first; the client maps the row only when its own array has room. */
  function AddObject(limits: Limits, t: Tables, r: Reference, published: EntityKind, parent: nat): Addition {
    var index := |t.objects|;
    if index >= limits.modelObjects then Addition(false, t)
    else
      var grown := t.(objects := t.objects + [ObjectRow(r, published, parent).(index := index)]);
      if index >= limits.mappedObjects then Addition(false, grown)
      else Addition(true, grown.(objectIds := t.objectIds + [r.node]))
  }

  function AddVariable(limits: Limits, t: Tables, r: Reference, reply: VariableReply, owner: nat): Addition
    requires reply.Attributes?
  {
    var index := |t.tags|;
    if index >= limits.modelTags then Addition(false, t)
    else
      var grown := t.(tags := t.tags + [VariableRow(r, reply, owner).(index := index)]);
      if index >= limits.mappedTags then Addition(false, grown)
      else Addition(true, grown.(tagIds := t.tagIds + [r.node], tagTypes := t.tagTypes + [reply.builtinType]))
  }

  // ----- the whole discovery -----

  function Discover(server: Server, limits: Limits, trace: seq<Call>): Outcome {
    BrowseChildren(server, limits, Progress(EMPTY_TABLES, trace, false), OBJECTS_FOLDER, INVALID_INDEX, 0)
  }
}
