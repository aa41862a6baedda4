/** The OPC UA client's discovery, as it updates the model and its own mapping arrays in place. */
module Client {
  import opened NodeIds
  import opened DataModel
  import opened AddressSpace
  import D = Discovery
  import DiscoveryInvariant
  import opened Metadata

  const NULL_NODE := Standard(0)

  class OpcUaClient {
    const server: Server
    const model: Model
    const equipmentNodeIds: array<NodeId>
    const tagNodeIds: array<NodeId>
    const tagBuiltinTypes: array<BuiltinType>
    const maximumBrowseDepth: nat
    var mappedEquipmentCount: nat
    var mappedTagCount: nat
    /** The requests sent so far. */
    var trace: seq<Call>
    /** Whether the running discovery has warned about the depth bound. */
    var depthBoundMet: bool

    ghost predicate Valid()
      reads this, model
    {
      && model.Valid()
      && equipmentNodeIds != tagNodeIds
      && tagBuiltinTypes.Length == tagNodeIds.Length
      && mappedEquipmentCount <= equipmentNodeIds.Length
      && mappedTagCount <= tagNodeIds.Length
    }

    /** Row i of the mapping belongs to row i of the model. */
    ghost predicate Aligned()
      reads this, model
    {
      mappedEquipmentCount == model.equipmentCount && mappedTagCount == model.tagCount
    }

    ghost function Limits(): D.Limits {
      D.Limits(model.equipment.Length, model.tags.Length, equipmentNodeIds.Length, tagNodeIds.Length,
               maximumBrowseDepth)
    }

    ghost function Tables(): D.Tables
      requires Valid()
      reads this, model, model.equipment, model.tags, equipmentNodeIds, tagNodeIds, tagBuiltinTypes
    {
      D.Tables(model.Objects(), model.Tags(), equipmentNodeIds[..mappedEquipmentCount], tagNodeIds[..mappedTagCount],
               tagBuiltinTypes[..mappedTagCount])
    }

    ghost function Progress(): D.Progress
      requires Valid()
      reads this, model, model.equipment, model.tags, equipmentNodeIds, tagNodeIds, tagBuiltinTypes
    {
      D.Progress(Tables(), trace, depthBoundMet)
    }

    constructor (server: Server, model: Model, maximumEquipment: nat, maximumTags: nat, maximumDepth: nat)
      requires model.Valid() && 0 < maximumEquipment && 0 < maximumTags
      ensures Valid() && this.server == server && this.model == model
      ensures Limits() == D.Limits(model.equipment.Length, model.tags.Length, maximumEquipment, maximumTags,
                                   maximumDepth)
      ensures mappedEquipmentCount == 0 && mappedTagCount == 0 && trace == []
      ensures fresh(equipmentNodeIds) && fresh(tagNodeIds) && fresh(tagBuiltinTypes)
    {
      this.server, this.model := server, model;
      maximumBrowseDepth := maximumDepth;
      equipmentNodeIds := new NodeId[maximumEquipment](_ => NULL_NODE);
      tagNodeIds := new NodeId[maximumTags](_ => NULL_NODE);
      tagBuiltinTypes := new BuiltinType[maximumTags](_ => Unsupported);
      mappedEquipmentCount, mappedTagCount, trace, depthBoundMet := 0, 0, [], false;
    }

    /** Compares full NodeIds, so that an alias in the graph is mapped only once. */
    static method FindMappedNodeId(mappedIds: array<NodeId>, mappedCount: nat, candidate: NodeId) returns (index: nat)
      requires mappedCount <= mappedIds.Length
      requires mappedCount < INVALID_INDEX
      ensures index == INVALID_INDEX <==> candidate !in mappedIds[..mappedCount]
      ensures index != INVALID_INDEX ==>
                index < mappedCount && mappedIds[index] == candidate && candidate !in mappedIds[..index]
    {
      index := 0;
      while index < mappedCount
        invariant index <= mappedCount
        invariant candidate !in mappedIds[..index]
      {
        if mappedIds[index] == candidate {
          return;
        }
        index := index + 1;
      }
      index := INVALID_INDEX;
    }

    method ClearTagNodeIds()
      requires Valid()
      modifies this`mappedEquipmentCount, this`mappedTagCount, equipmentNodeIds, tagNodeIds, tagBuiltinTypes
      ensures Valid() && mappedEquipmentCount == 0 && mappedTagCount == 0
      ensures forall i | 0 <= i < old(mappedTagCount) :: tagNodeIds[i] == NULL_NODE && tagBuiltinTypes[i] == Unsupported
      ensures forall i | 0 <= i < old(mappedEquipmentCount) :: equipmentNodeIds[i] == NULL_NODE
    {
      var index := 0;
      while index < mappedTagCount
        invariant index <= mappedTagCount == old(mappedTagCount)
        invariant mappedEquipmentCount == old(mappedEquipmentCount)
        invariant forall i | 0 <= i < index :: tagNodeIds[i] == NULL_NODE && tagBuiltinTypes[i] == Unsupported
      {
        tagNodeIds[index] := NULL_NODE;
        tagBuiltinTypes[index] := Unsupported;
        index := index + 1;
      }
      mappedTagCount := 0;
      index := 0;
      while index < mappedEquipmentCount
        invariant index <= mappedEquipmentCount == old(mappedEquipmentCount) && mappedTagCount == 0
        invariant forall i | 0 <= i < index :: equipmentNodeIds[i] == NULL_NODE
        invariant forall i | 0 <= i < old(mappedTagCount) ::
                    tagNodeIds[i] == NULL_NODE && tagBuiltinTypes[i] == Unsupported
      {
        equipmentNodeIds[index] := NULL_NODE;
        index := index + 1;
      }
      mappedEquipmentCount := 0;
    }

    /** Replaces the model's contents by what the server serves, in one published batch: all of it
        on success, nothing on any failure. */
    method DiscoverAddressSpace() returns (result: StatusCode)
      requires Valid()
      modifies this, model, model.equipment, model.tags, model.alarms, equipmentNodeIds, tagNodeIds, tagBuiltinTypes
      ensures Valid() && Aligned()
      ensures var o := D.Discover(server, Limits(), old(trace));
              && result == o.status && trace == o.progress.trace && depthBoundMet == o.progress.cut
              && Tables() == (if result == GOOD
                              then o.progress.tables.(objects := Classified(o.progress.tables.objects,
                                  o.progress.tables.tags))
                              else D.EMPTY_TABLES)
      ensures result == GOOD ==>
                && (forall world | Serves(server, world) :: Described(world, Tables()))
                && (forall i: nat | i < model.equipmentCount && !model.Objects()[i].explicitKind ::
                      KindIsInferred(model.Objects(), model.Tags(), i))
      ensures model.Alarms() == []
      ensures model.structureGeneration == NextGeneration(old(model.structureGeneration))
      ensures !model.structureUpdateActive && !model.structureDirty
    {
      model.BeginStructureUpdate();
      result := FillStructure();
      ghost var found := Tables();
      model.EndStructureUpdate();
      assert Tables() == found.(objects := Classified(found.objects, found.tags));
      if result == GOOD {
        RowsAreDescribed(found, old(trace));
      }
    }

    lemma RowsAreDescribed(found: D.Tables, before: seq<Call>)
      requires Valid() && D.Discover(server, Limits(), before).status == GOOD
      requires found == D.Discover(server, Limits(), before).progress.tables
      ensures forall world | Serves(server, world) ::
                Described(world, found.(objects := Classified(found.objects, found.tags)))
    {
      forall world | Serves(server, world)
        ensures Described(world, found.(objects := Classified(found.objects, found.tags)))
      {
        DiscoverDescribes(server, world, Limits(), before);
        ClassifiedStaysDescribed(world, found);
      }
    }

    /** The batch: what the walk finds from the Objects folder, or nothing. */
    method FillStructure() returns (result: StatusCode)
      requires Valid() && model.structureUpdateActive
      modifies this, model, model.equipment, model.tags, model.alarms, equipmentNodeIds, tagNodeIds, tagBuiltinTypes
      ensures Valid() && Aligned() && model.Alarms() == []
      ensures var o := D.Discover(server, Limits(), old(trace));
              && result == o.status && trace == o.progress.trace && depthBoundMet == o.progress.cut
              && Tables() == (if result == GOOD then o.progress.tables else D.EMPTY_TABLES)
      ensures model.structureUpdateActive && model.structureDirty
      ensures model.structureGeneration == old(model.structureGeneration)
    {
      ForgetStructure();
      depthBoundMet := false;
      result := BrowseChildren(OBJECTS_FOLDER, INVALID_INDEX, 0);
      if result != GOOD {
        ForgetStructure();
      }
    }

    /** The two clearing calls that always go together. */
    method ForgetStructure()
      requires Valid()
      modifies this`mappedEquipmentCount, this`mappedTagCount, equipmentNodeIds, tagNodeIds, tagBuiltinTypes
      modifies model, model.equipment, model.tags, model.alarms
      ensures Valid() && Aligned()
      ensures Tables() == D.EMPTY_TABLES && model.Alarms() == []
      ensures model.structureUpdateActive == old(model.structureUpdateActive) == model.structureDirty
      ensures model.structureGeneration ==
              if model.structureUpdateActive then old(model.structureGeneration)
              else NextGeneration(old(model.structureGeneration))
    {
      model.Clear();
      ClearTagNodeIds();
    }

    method BrowseChildren(node: NodeId, parent: nat, depth: nat) returns (result: StatusCode)
      requires Valid() && Aligned() && model.structureUpdateActive && model.structureDirty
      modifies this, model`equipmentCount, model`tagCount, model`structureDirty, model`structureGeneration
      modifies model.equipment, model.tags, equipmentNodeIds, tagNodeIds, tagBuiltinTypes
      ensures Valid() && (result == GOOD ==> Aligned())
      ensures model.structureDirty && model.structureGeneration == old(model.structureGeneration)
      ensures D.Outcome(result, Progress()) == D.BrowseChildren(server, Limits(), old(Progress()), node, parent, depth)
      decreases D.Rank(Limits(), depth), 3
    {
      if depth > maximumBrowseDepth {
        depthBoundMet := true;
        return GOOD;
      }

      ghost var before := Progress();
      var answers := server.browse(trace, node);
      var page := Head(answers);
      trace := trace + [Browse(node, Received(page))];
      assert Progress() == before.(trace := trace);
      if page.ServiceFault? {
        return page.code;
      }
      if page.WrongResultCount? {
        return BADUNEXPECTEDERROR;
      }
      D.OnePage(server, Limits(), Progress(), answers, parent, depth);
      result := ProcessChildReferences(page.status, page.references, parent, depth);
      result := FollowContinuationPoints(result, page.continuationPoint, answers[1..], parent, depth);
    }

    /** The rest of one Browse: the next pages while all is well, and the release of a
        continuation point that is still open when it is not. */
    method FollowContinuationPoints(status: StatusCode, point: ContinuationPoint, rest: seq<Page>, parent: nat,
                                    depth: nat)
      returns (result: StatusCode)
      requires Valid() && (status == GOOD ==> Aligned()) && model.structureUpdateActive && model.structureDirty
      requires depth <= maximumBrowseDepth
      modifies this, model`equipmentCount, model`tagCount, model`structureDirty, model`structureGeneration
      modifies model.equipment, model.tags, equipmentNodeIds, tagNodeIds, tagBuiltinTypes
      ensures Valid() && (result == GOOD ==> Aligned())
      ensures model.structureDirty && model.structureGeneration == old(model.structureGeneration)
      ensures D.Outcome(result, Progress()) ==
              D.Remaining(server, Limits(), status, point, old(Progress()), rest, parent, depth)
      decreases D.Rank(Limits(), depth), 2
    {
      ghost var target := D.Remaining(server, Limits(), status, point, Progress(), rest, parent, depth);
      result := status;
      var continuationPoint, answers := point, rest;
      while result == GOOD && continuationPoint != []
        invariant Valid() && (result == GOOD ==> Aligned())
        invariant model.structureDirty && model.structureGeneration == old(model.structureGeneration)
        invariant D.Remaining(server, Limits(), result, continuationPoint, Progress(), answers, parent, depth) == target
        decreases |answers|, |continuationPoint|
      {
        ghost var before := Progress();
        var page := Head(answers);
        trace := trace + [BrowseNext(continuationPoint, Received(page))];
        assert Progress() == before.(trace := trace);
        continuationPoint := [];
        if !page.Result? {
          result := if page.ServiceFault? then page.code else BADUNEXPECTEDERROR;
          break;
        }
        D.OnePage(server, Limits(), Progress(), answers, parent, depth);
        result := ProcessChildReferences(page.status, page.references, parent, depth);
        continuationPoint := page.continuationPoint;
        answers := answers[1..];
      }

      if continuationPoint != [] {
        ghost var before := Progress();
        trace := trace + [Release(continuationPoint)];
        assert Progress() == before.(trace := trace);
      }
    }

    method ProcessChildReferences(status: StatusCode, references: seq<Reference>, parent: nat, depth: nat)
      returns (result: StatusCode)
      requires Valid() && Aligned() && model.structureUpdateActive && model.structureDirty
      requires depth <= maximumBrowseDepth
      modifies this, model`equipmentCount, model`tagCount, model`structureDirty, model`structureGeneration
      modifies model.equipment, model.tags, equipmentNodeIds, tagNodeIds, tagBuiltinTypes
      ensures Valid() && (result == GOOD ==> Aligned())
      ensures model.structureDirty && model.structureGeneration == old(model.structureGeneration)
      ensures D.Outcome(result, Progress()) ==
              if status != GOOD then D.Outcome(status, old(Progress()))
              else D.ProcessReferences(server, Limits(), old(Progress()), references, parent, depth)
      decreases D.Rank(Limits(), depth), 1
    {
      if status != GOOD {
        return status;
      }
      ghost var target := D.ProcessReferences(server, Limits(), Progress(), references, parent, depth);
      var index := 0;
      while index < |references|
        invariant index <= |references|
        invariant Valid() && Aligned()
        invariant model.structureDirty && model.structureGeneration == old(model.structureGeneration)
        invariant D.ProcessReferences(server, Limits(), Progress(), references[index..], parent, depth) == target
      {
        assert references[index..][0] == references[index] && references[index..][1..] == references[index + 1..];
        result := ProcessReference(references[index], parent, depth);
        if result != GOOD {
          return;
        }
        index := index + 1;
      }
      result := GOOD;
    }

    /** The body of the loop over one page. */
    method ProcessReference(r: Reference, parent: nat, depth: nat) returns (result: StatusCode)
      requires Valid() && Aligned() && model.structureUpdateActive && model.structureDirty
      requires depth <= maximumBrowseDepth
      modifies this, model`equipmentCount, model`tagCount, model`structureDirty, model`structureGeneration
      modifies model.equipment, model.tags, equipmentNodeIds, tagNodeIds, tagBuiltinTypes
      ensures Valid() && (result == GOOD ==> Aligned())
      ensures model.structureDirty && model.structureGeneration == old(model.structureGeneration)
      ensures D.Outcome(result, Progress()) == D.ProcessReference(server, Limits(), old(Progress()), r, parent, depth)
      decreases D.Rank(Limits(), depth), 0
    {
      result := GOOD;
      if r.serverIndex != 0 {
        return;
      }
      if r.node.namespaceIndex == 0 {
        if r.nodeClass == ObjectNode && r.node != SERVER {
          result := BrowseChildren(r.node, parent, depth + 1);
        }
        return;
      }
      if r.nodeClass == ObjectNode {
        var known := FindMappedNodeId(equipmentNodeIds, mappedEquipmentCount, r.node);
        if known != INVALID_INDEX {
          return;
        }
        var index;
        result, index := AddObject(r, parent);
        if result == GOOD {
          result := BrowseChildren(r.node, index, depth + 1);
        }
      } else if r.nodeClass == VariableNode && parent != INVALID_INDEX && r.referenceType != HAS_PROPERTY {
        result := AddVariable(r, parent);
      }
    }

    /** Reads the object's metadata, appends its row to the model and maps it. */
    method AddObject(r: Reference, parent: nat) returns (result: StatusCode, index: nat)
      requires Valid() && Aligned() && model.structureUpdateActive && model.structureDirty
      modifies this`mappedEquipmentCount, this`trace, model`equipmentCount, model`structureDirty,
               model`structureGeneration, model.equipment, equipmentNodeIds
      ensures Valid() && (result == GOOD ==> Aligned())
      ensures model.structureDirty && model.structureGeneration == old(model.structureGeneration)
      ensures trace == old(trace) + [ReadObject(r.node)]
      ensures var a := D.AddObject(Limits(), old(Tables()), r, server.objectKind(old(trace), r.node), parent);
              && Tables() == a.tables
              && result == (if a.stored then GOOD else BADOUTOFMEMORY)
              && (a.stored ==> index == |old(Tables()).objects|)
    {
      var entry := DescribeObject(r, parent);
      var added;
      added, index := model.AddEquipment(entry);
      if added != OK || index >= equipmentNodeIds.Length {
        return BADOUTOFMEMORY, index;
      }
      equipmentNodeIds[index] := r.node;
      mappedEquipmentCount := index + 1;
      result := GOOD;
    }

    /** The row of a new object; its metadata is read from the server. */
    method DescribeObject(r: Reference, parent: nat) returns (entry: Equipment)
      modifies this`trace
      ensures trace == old(trace) + [ReadObject(r.node)]
      ensures entry == D.ObjectRow(r, server.objectKind(old(trace), r.node), parent)
      ensures entry.parentIndex == parent && entry.nodeId == Rendered(r.node)
      ensures KindFollows(server.objectKind(old(trace), r.node), r.typeDefinition, entry)
      ensures ReferenceFollows(r.referenceType, entry)
    {
      var referenceKind := UnknownReference;
      if parent == INVALID_INDEX {
        referenceKind := Root;
      } else if r.referenceType == ORGANIZES {
        referenceKind := Organizes;
      } else if r.referenceType == HAS_COMPONENT || r.referenceType == HAS_ORDERED_COMPONENT {
        referenceKind := Component;
      }
      var text := NodeIdToText(r.node);
      entry := Equipment(0, parent, text, UnknownKind, referenceKind, false);
      if r.typeDefinition == FOLDER_TYPE {
        entry := entry.(kind := Group, explicitKind := true);
      }
      var published := server.objectKind(trace, r.node);
      trace := trace + [ReadObject(r.node)];
      if published != UnknownKind {
        entry := entry.(kind := published, explicitKind := true);
      }
    }

    method AddVariable(r: Reference, owner: nat) returns (result: StatusCode)
      requires Valid() && Aligned() && model.structureUpdateActive && model.structureDirty
      requires LeadsToVariable(r) && owner != INVALID_INDEX
      modifies this`mappedTagCount, this`trace, model`tagCount, model`structureDirty, model`structureGeneration,
               model.tags, tagNodeIds, tagBuiltinTypes
      ensures Valid() && (result == GOOD ==> Aligned())
      ensures model.structureDirty && model.structureGeneration == old(model.structureGeneration)
      ensures forall depth | 0 <= depth <= maximumBrowseDepth ::
                D.Outcome(result, Progress()) == D.ProcessReference(server, Limits(), old(Progress()), r, owner, depth)
    {
      var known := FindMappedNodeId(tagNodeIds, mappedTagCount, r.node);
      if known != INVALID_INDEX {
        return GOOD;
      }
      var reply := server.variable(trace, r.node);
      trace := trace + [ReadVariable(r.node)];
      if reply.ReadFailed? {
        return reply.code;
      }
      result := StoreVariable(r, reply, owner);
    }

    method StoreVariable(r: Reference, reply: VariableReply, owner: nat) returns (result: StatusCode)
      requires Valid() && Aligned() && model.structureUpdateActive && model.structureDirty
      requires reply.Attributes?
      modifies this`mappedTagCount, model`tagCount, model`structureDirty, model`structureGeneration,
               model.tags, tagNodeIds, tagBuiltinTypes
      ensures Valid() && (result == GOOD ==> Aligned())
      ensures model.structureDirty && model.structureGeneration == old(model.structureGeneration)
      ensures var a := D.AddVariable(Limits(), old(Tables()), r, reply, owner);
              && Tables() == a.tables
              && result == (if a.stored then GOOD else BADOUTOFMEMORY)
      ensures result == GOOD ==>
                var k := old(model.tagCount);
                && model.tagCount == k + 1
                && IsTagOf(r.node, reply, model.Tags()[k], tagBuiltinTypes[k])
                && model.Tags()[k].equipmentIndex == owner && tagNodeIds[k] == r.node
    {
      var text := NodeIdToText(r.node);
      var entry := Tag(0, owner, text, reply.semanticRole, MapDataType(reply.builtinType), reply.readable,
                       reply.writable);
      var added, index := model.AddTag(entry);
      if added != OK || index >= tagNodeIds.Length {
        return BADOUTOFMEMORY;
      }
      tagNodeIds[index] := r.node;
      tagBuiltinTypes[index] := reply.builtinType;
      mappedTagCount := index + 1;
      result := GOOD;
    }
  }
}
