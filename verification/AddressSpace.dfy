/** The server as the panel sees it during one discovery: an oracle for Browse, BrowseNext and
    attribute reads that may depend on everything asked before, and, beside it, the reference
    graph that a consistent server serves. */
module AddressSpace {
  import opened NodeIds
  import opened DataModel

  type StatusCode = UInt32
  type FailureCode = c: UInt32 | c != 0 witness 1

  const GOOD: StatusCode := 0
  const BADUNEXPECTEDERROR: FailureCode := 0x8001_0000
  const BADOUTOFMEMORY: FailureCode := 0x8003_0000
  const BADTIMEOUT: FailureCode := 0x800A_0000

  /** A numeric node of the standard namespace. */
  function Standard(identifier: UInt32): NodeId {
    NodeId(0, Numeric(identifier))
  }

  const OBJECTS_FOLDER := Standard(85)
  const SERVER := Standard(2253)
  const ORGANIZES := Standard(35)
  const HAS_PROPERTY := Standard(46)
  const HAS_COMPONENT := Standard(47)
  const HAS_ORDERED_COMPONENT := Standard(49)
  const FOLDER_TYPE := Standard(61)

  datatype NodeClass = ObjectNode | VariableNode | OtherNode

  datatype Reference = Reference(serverIndex: nat, node: NodeId, nodeClass: NodeClass, referenceType: NodeId,
                                 typeDefinition: NodeId)

  type ContinuationPoint = seq<Byte>

  /** One answer to Browse or BrowseNext. */
  datatype Page =
    | ServiceFault(code: FailureCode)
    | WrongResultCount
    | Result(status: StatusCode, references: seq<Reference>, continuationPoint: ContinuationPoint)

  datatype BuiltinType =
    | BuiltinBoolean | BuiltinSByte | BuiltinByte | BuiltinInt16 | BuiltinUInt16 | BuiltinInt32 | BuiltinUInt32
    | BuiltinInt64 | BuiltinUInt64 | BuiltinFloat | BuiltinDouble | BuiltinString | Unsupported

  /** The attributes and metadata of one variable, or the status of the read that failed. */
  datatype VariableReply =
    | ReadFailed(code: FailureCode)
    | Attributes(builtinType: BuiltinType, readable: bool, writable: bool, semanticRole: string)

  type VariableInfo = v: VariableReply | v.Attributes? witness Attributes(Unsupported, false, false, "")

  /** Every request that the panel sends, with the continuation point that came back. */
  datatype Call =
    | Browse(node: NodeId, received: ContinuationPoint)
    | BrowseNext(consumed: ContinuationPoint, received: ContinuationPoint)
    | Release(released: ContinuationPoint)
    | ReadObject(node: NodeId)
    | ReadVariable(node: NodeId)

  /** `browse(trace, node)` lists the answers to one Browse and to the BrowseNext requests that
      follow it, as decided when the Browse arrives after `trace`; requests past the end of the
      list time out. `objectKind` is UnknownKind when no usable EntityKind property is found. */
  datatype Server = Server(browse: (seq<Call>, NodeId) -> seq<Page>,
                           objectKind: (seq<Call>, NodeId) -> EntityKind,
                           variable: (seq<Call>, NodeId) -> VariableReply)

  function Head(pages: seq<Page>): Page {
    if pages == [] then ServiceFault(BADTIMEOUT) else pages[0]
  }

  function Received(page: Page): ContinuationPoint {
    if page.Result? then page.continuationPoint else []
  }

  // ----- the consistent server -----

  /** One fixed address space: the references of every node and the attributes of every node. */
  datatype World = World(references: NodeId -> seq<Reference>, objectKind: NodeId -> EntityKind,
                         variable: NodeId -> VariableInfo)

  datatype Listing = Failed(code: FailureCode) | Complete(references: seq<Reference>)

  /** The references of one Browse, however they are split over pages. */
  function Gather(pages: seq<Page>): Listing {
    match Head(pages)
    case ServiceFault(code) => Failed(code)
    case WrongResultCount => Failed(BADUNEXPECTEDERROR)
    case Result(status, references, continuationPoint) =>
      if status != GOOD then Failed(status)
      else if continuationPoint == [] then Complete(references)
      else
        match Gather(pages[1..])
        case Failed(code) => Failed(code)
        case Complete(rest) => Complete(references + rest)
  }

  /** Page boundaries, failures and metadata may vary from request to request, but every listing that
      the server completes is the world's. */
  ghost predicate ListsReferences(server: Server, world: World) {
    forall trace, node :: Gather(server.browse(trace, node)).Complete? ==>
      Gather(server.browse(trace, node)).references == world.references(node)
  }

  /** Besides, all metadata and attributes that it serves are the world's. */
  ghost predicate Serves(server: Server, world: World) {
    && ListsReferences(server, world)
    && (forall trace, node :: server.objectKind(trace, node) == world.objectKind(node))
    && (forall trace, node :: server.variable(trace, node).Attributes? ==>
          server.variable(trace, node) == world.variable(node))
  }

  /** Besides, no request ever fails. */
  ghost predicate NeverFails(server: Server) {
    && (forall trace, node :: Gather(server.browse(trace, node)).Complete?)
    && (forall trace, node :: server.variable(trace, node).Attributes?)
  }

  // ----- reference classes -----

  predicate IsStandard(node: NodeId) {
    node.namespaceIndex == 0
  }

  /** A local grouping node of the standard namespace; the Server object is never entered. */
  predicate LeadsIntoFolder(r: Reference) {
    r.serverIndex == 0 && IsStandard(r.node) && r.nodeClass == ObjectNode && r.node != SERVER
  }

  predicate LeadsToObject(r: Reference) {
    r.serverIndex == 0 && !IsStandard(r.node) && r.nodeClass == ObjectNode
  }

  predicate LeadsToVariable(r: Reference) {
    r.serverIndex == 0 && !IsStandard(r.node) && r.nodeClass == VariableNode && r.referenceType != HAS_PROPERTY
  }

  function MapDataType(t: BuiltinType): DataType {
    match t
    case BuiltinBoolean => BooleanType
    case BuiltinFloat => FloatType
    case BuiltinDouble => DoubleType
    case BuiltinString => StringType
    case Unsupported => UnknownType
    case _ => IntegerType
  }
}
