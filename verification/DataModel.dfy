/** The panel's transport-independent model: bounded object and tag tables that are
    filled in a batch, and a bounded table of alarm slots. */
module DataModel {
  import opened NodeIds
  import opened AlarmTable

  const SIZE_MAX: nat := 0xFFFF_FFFF
  const INVALID_INDEX: nat := SIZE_MAX

  datatype EntityKind = UnknownKind | System | Process | ActiveEquipment | PassiveEquipment | Group

  datatype ReferenceKind = UnknownReference | Root | Organizes | Component

  datatype DataType = UnknownType | BooleanType | IntegerType | FloatType | DoubleType | StringType

  datatype Equipment = Equipment(index: nat, parentIndex: nat, nodeId: string, kind: EntityKind,
                                 referenceKind: ReferenceKind, explicitKind: bool)

  datatype Tag = Tag(index: nat, equipmentIndex: nat, nodeId: string, semanticRole: string, dataType: DataType,
                     readable: bool, writable: bool)

  datatype Error = OK | INVALID_ARG | NO_MEM | NOT_FOUND

  const BLANK_EQUIPMENT := Equipment(0, 0, "", UnknownKind, UnknownReference, false)
  const BLANK_TAG := Tag(0, 0, "", "", UnknownType, false, false)

  function NextGeneration(generation: UInt32): (next: UInt32)
    ensures next == (generation + 1) % 0x1_0000_0000
  {
    if generation == 0xFFFF_FFFF then 0 else generation + 1
  }

  predicate IsAsset(kind: EntityKind) {
    kind == ActiveEquipment || kind == PassiveEquipment
  }

  predicate IsNumeric(tag: Tag) {
    tag.dataType == IntegerType || tag.dataType == FloatType || tag.dataType == DoubleType
  }

  // ----- what a batch publishes: the declarative precedence rule -----

  predicate Owns(tags: seq<Tag>, t: int, owner: nat) {
    0 <= t < |tags| && tags[t].equipmentIndex == owner
  }

  ghost predicate HasChildren(objects: seq<Equipment>, i: nat) {
    exists c | 0 <= c < |objects| :: objects[c].parentIndex == i
  }

  ghost predicate HasProcessContext(tags: seq<Tag>, i: nat) {
    exists t :: Owns(tags, t, i) && tags[t].semanticRole in ["demand", "production_total", "consumption_total"]
  }

  ghost predicate CanBeOperated(tags: seq<Tag>, i: nat) {
    exists t :: Owns(tags, t, i) && (tags[t].writable || tags[t].semanticRole == "operating_status")
  }

  ghost predicate HasTags(tags: seq<Tag>, i: nat) {
    exists t :: Owns(tags, t, i)
  }

  /** The kind of an object whose server published none. */
  ghost function InferredKind(objects: seq<Equipment>, tags: seq<Tag>, i: nat): EntityKind {
    if HasChildren(objects, i) then System
    else if HasProcessContext(tags, i) then Process
    else if CanBeOperated(tags, i) then ActiveEquipment
    else if HasTags(tags, i) then PassiveEquipment
    else Group
  }

  ghost function Classified(objects: seq<Equipment>, tags: seq<Tag>): seq<Equipment> {
    seq(|objects|, i requires 0 <= i < |objects| =>
      if objects[i].explicitKind then objects[i] else objects[i].(kind := InferredKind(objects, tags, i)))
  }

  /** The kind of row i, rule by rule, for an object whose server published none. */
  ghost predicate KindIsInferred(objects: seq<Equipment>, tags: seq<Tag>, i: nat)
    requires i < |objects|
  {
    var kind := objects[i].kind;
    var isParent := exists c | 0 <= c < |objects| :: objects[c].parentIndex == i;
    var hasRole := exists t | 0 <= t < |tags| ::
                     tags[t].equipmentIndex == i &&
                     (tags[t].semanticRole == "demand" || tags[t].semanticRole == "production_total" ||
                      tags[t].semanticRole == "consumption_total");
    var isOperated := exists t | 0 <= t < |tags| ::
                        tags[t].equipmentIndex == i &&
                        (tags[t].writable || tags[t].semanticRole == "operating_status");
    var hasTag := exists t | 0 <= t < |tags| :: tags[t].equipmentIndex == i;
    && (kind == System <==> isParent)
    && (kind == Process <==> !isParent && hasRole)
    && (kind == ActiveEquipment <==> !isParent && !hasRole && isOperated)
    && (kind == PassiveEquipment <==> !isParent && !hasRole && !isOperated && hasTag)
    && (kind == Group <==> !isParent && !hasRole && !isOperated && !hasTag)
  }

  /** What a published batch does to the rows: explicit kinds stay, all others are inferred, and
      nothing but kinds changes. */
  ghost predicate KindsFollow(before: seq<Equipment>, after: seq<Equipment>, tags: seq<Tag>) {
    |after| == |before| &&
    forall i: nat | i < |after| ::
      && after[i] == before[i].(kind := after[i].kind)
      && (if before[i].explicitKind then after[i].kind == before[i].kind else KindIsInferred(after, tags, i))
  }

  /** The physical assets, in table order. */
  function Assets(objects: seq<Equipment>): seq<Equipment> {
    if objects == [] then []
    else
      Assets(objects[..|objects| - 1]) +
      if IsAsset(objects[|objects| - 1].kind) then [objects[|objects| - 1]] else []
  }

  class Model {
    const equipment: array<Equipment>
    const tags: array<Tag>
    const alarms: array<Alarm>
    var equipmentCount: nat
    var tagCount: nat
    var alarmCount: nat
    var structureGeneration: UInt32
    var valueGeneration: UInt32
    var alarmGeneration: UInt32
    var structureUpdateActive: bool
    var structureDirty: bool

    ghost predicate Valid()
      reads this
    {
      && equipmentCount <= equipment.Length < SIZE_MAX
      && tagCount <= tags.Length < SIZE_MAX
      && alarmCount <= alarms.Length == MAX_ALARMS
    }

    ghost function Objects(): seq<Equipment>
      requires Valid()
      reads this, equipment
    {
      equipment[..equipmentCount]
    }

    ghost function Tags(): seq<Tag>
      requires Valid()
      reads this, tags
    {
      tags[..tagCount]
    }

    ghost function Alarms(): seq<Alarm>
      requires Valid()
      reads this, alarms
    {
      alarms[..alarmCount]
    }

    constructor (equipmentCapacity: nat, tagCapacity: nat)
      requires 0 < equipmentCapacity < SIZE_MAX && 0 < tagCapacity < SIZE_MAX
      ensures Valid() && fresh(equipment) && fresh(tags) && fresh(alarms)
      ensures equipment.Length == equipmentCapacity && tags.Length == tagCapacity
      ensures Objects() == [] && Tags() == [] && Alarms() == []
      ensures structureGeneration == 1 && !structureUpdateActive && !structureDirty
    {
      equipment := new Equipment[equipmentCapacity](_ => BLANK_EQUIPMENT);
      tags := new Tag[tagCapacity](_ => BLANK_TAG);
      alarms := new Alarm[MAX_ALARMS](_ => BLANK_ALARM);
      equipmentCount, tagCount, alarmCount := 0, 0, 0;
      structureGeneration, valueGeneration, alarmGeneration := 1, 0, 0;
      structureUpdateActive, structureDirty := false, false;
    }

    /** Inside a batch a change only raises the dirty flag; outside it is published at once. */
    method MarkStructureChanged()
      modifies this`structureDirty, this`structureGeneration
      ensures structureDirty == structureUpdateActive
      ensures structureGeneration ==
              if structureUpdateActive then old(structureGeneration) else NextGeneration(old(structureGeneration))
    {
      structureDirty := true;
      if !structureUpdateActive {
        structureGeneration := NextGeneration(structureGeneration);
        structureDirty := false;
      }
    }

    method Clear()
      requires Valid()
      modifies this, equipment, tags, alarms
      ensures Valid() && Objects() == [] && Tags() == [] && Alarms() == []
      ensures forall i | 0 <= i < equipment.Length :: equipment[i] == BLANK_EQUIPMENT
      ensures forall i | 0 <= i < tags.Length :: tags[i] == BLANK_TAG
      ensures structureUpdateActive == old(structureUpdateActive) == structureDirty
      ensures structureGeneration ==
              if structureUpdateActive then old(structureGeneration) else NextGeneration(old(structureGeneration))
      ensures valueGeneration == NextGeneration(old(valueGeneration))
      ensures alarmGeneration == NextGeneration(old(alarmGeneration))
    {
      forall i | 0 <= i < equipment.Length {
        equipment[i] := BLANK_EQUIPMENT;
      }
      forall i | 0 <= i < tags.Length {
        tags[i] := BLANK_TAG;
      }
      equipmentCount, tagCount := 0, 0;
      forall i | 0 <= i < alarms.Length {
        alarms[i] := BLANK_ALARM;
      }
      alarmCount := 0;
      MarkStructureChanged();
      valueGeneration := NextGeneration(valueGeneration);
      alarmGeneration := NextGeneration(alarmGeneration);
    }

    method BeginStructureUpdate()
      modifies this`structureUpdateActive, this`structureDirty
      ensures structureUpdateActive && !structureDirty
    {
      structureUpdateActive := true;
      structureDirty := false;
    }

    /** Publishes the batch: classification, then one step of the generation counter. */
    method EndStructureUpdate()
      requires Valid()
      modifies this`structureUpdateActive, this`structureDirty, this`structureGeneration, equipment
      ensures Valid() && !structureUpdateActive && !structureDirty
      ensures var publish := old(structureUpdateActive && structureDirty);
              && Objects() == (if publish then Classified(old(Objects()), Tags()) else old(Objects()))
              && structureGeneration ==
                 (if publish then NextGeneration(old(structureGeneration)) else old(structureGeneration))
      ensures old(structureUpdateActive && structureDirty) ==> KindsFollow(old(Objects()), Objects(), Tags())
    {
      if structureUpdateActive && structureDirty {
        ClassifyEntities();
        structureGeneration := NextGeneration(structureGeneration);
      }
      structureUpdateActive := false;
      structureDirty := false;
    }

    method ClassifyEntities()
      requires Valid()
      modifies equipment
      ensures Objects() == Classified(old(Objects()), Tags())
      ensures KindsFollow(old(Objects()), Objects(), Tags())
    {
      ghost var objects := Objects();
      var i := 0;
      while i < equipmentCount
        invariant i <= equipmentCount
        invariant forall j | i <= j < equipmentCount :: equipment[j] == objects[j]
        invariant forall j | 0 <= j < i :: equipment[j] == Classified(objects, Tags())[j]
      {
        if !equipment[i].explicitKind {
          var kind := InferKind(i);
          assert HasChildren(Objects(), i) == HasChildren(objects, i) by { SameParents(Objects(), objects, i); }
          equipment[i] := equipment[i].(kind := kind);
        }
        i := i + 1;
      }
      assert Objects() == Classified(objects, Tags());
      ClassifiedFollows(objects, Tags());
    }

    /** The two inner scans of the classification, for one object. */
    method InferKind(i: nat) returns (kind: EntityKind)
      requires Valid()
      ensures kind == InferredKind(Objects(), Tags(), i)
    {
      var hasChildren := false;
      var child := 0;
      while child < equipmentCount && !hasChildren
        invariant child <= equipmentCount
        invariant hasChildren ==> HasChildren(Objects(), i)
        invariant !hasChildren ==> forall c | 0 <= c < child :: Objects()[c].parentIndex != i
      {
        if equipment[child].parentIndex == i {
          assert Objects()[child].parentIndex == i;
          hasChildren := true;
        }
        child := child + 1;
      }

      var hasTags, hasMeasurements, hasCommands, hasOperatingStatus, hasProcessContext :=
        false, false, false, false, false;
      var t := 0;
      while t < tagCount
        invariant t <= tagCount
        invariant hasMeasurements ==> hasTags
        invariant hasTags == HasTags(Tags()[..t], i)
        invariant (hasCommands || hasOperatingStatus) == CanBeOperated(Tags()[..t], i)
        invariant hasProcessContext == HasProcessContext(Tags()[..t], i)
      {
        var tag := tags[t];
        ScanOneMore(Tags(), t, i);
        if tag.equipmentIndex == i {
          hasTags := true;
          if tag.writable {
            hasCommands := true;
          }
          if tag.semanticRole == "operating_status" {
            hasOperatingStatus := true;
          }
          if tag.semanticRole == "demand" || tag.semanticRole == "production_total" ||
             tag.semanticRole == "consumption_total" {
            hasProcessContext := true;
          }
          if tag.readable && !tag.writable && IsNumeric(tag) {
            hasMeasurements := true;
          }
        }
        t := t + 1;
      }
      assert Tags()[..tagCount] == Tags();

      if hasChildren {
        kind := System;
      } else if hasProcessContext {
        kind := Process;
      } else if hasCommands || hasOperatingStatus {
        kind := ActiveEquipment;
      } else if hasMeasurements || hasTags {
        kind := PassiveEquipment;
      } else {
        kind := Group;
      }
    }

    method AddEquipment(entry: Equipment) returns (result: Error, index: nat)
      requires Valid()
      modifies this`equipmentCount, this`structureDirty, this`structureGeneration, equipment
      ensures Valid()
      ensures result == if old(equipmentCount) < equipment.Length then OK else NO_MEM
      ensures result == OK ==>
                && index == old(equipmentCount)
                && Objects() == old(Objects()) + [entry.(index := index)]
                && structureDirty == structureUpdateActive
                && structureGeneration ==
                   (if structureUpdateActive then old(structureGeneration)
                    else NextGeneration(old(structureGeneration)))
      ensures result != OK ==>
                && Objects() == old(Objects())
                && structureDirty == old(structureDirty) && structureGeneration == old(structureGeneration)
    {
      index := INVALID_INDEX;
      if equipmentCount >= equipment.Length {
        return NO_MEM, index;
      }
      index := equipmentCount;
      equipmentCount := equipmentCount + 1;
      equipment[index] := entry.(index := index);
      MarkStructureChanged();
      result := OK;
    }

    method AddTag(entry: Tag) returns (result: Error, index: nat)
      requires Valid()
      modifies this`tagCount, this`structureDirty, this`structureGeneration, tags
      ensures Valid()
      ensures result == if old(tagCount) < tags.Length then OK else NO_MEM
      ensures result == OK ==>
                && index == old(tagCount)
                && Tags() == old(Tags()) + [entry.(index := index)]
                && structureDirty == structureUpdateActive
                && structureGeneration ==
                   (if structureUpdateActive then old(structureGeneration)
                    else NextGeneration(old(structureGeneration)))
      ensures result != OK ==>
                && Tags() == old(Tags())
                && structureDirty == old(structureDirty) && structureGeneration == old(structureGeneration)
    {
      index := INVALID_INDEX;
      if tagCount >= tags.Length {
        return NO_MEM, index;
      }
      index := tagCount;
      tagCount := tagCount + 1;
      tags[index] := entry.(index := index);
      MarkStructureChanged();
      result := OK;
    }

    /** Adds, updates or clears the alarm with this source and code. */
    method UpdateAlarm(alarm: Alarm) returns (result: Error)
      requires Valid()
      modifies this`alarmCount, this`alarmGeneration, alarms
      ensures Valid()
      ensures var u := Apply(old(Alarms()), alarm);
              && Alarms() == u.slots
              && result == (match u.verdict case Stored => OK case Ignored => OK case TableFull => NO_MEM
                                            case Unnamed => INVALID_ARG)
              && alarmGeneration == (if u.verdict == Stored then NextGeneration(old(alarmGeneration))
                                     else old(alarmGeneration))
    {
      if alarm.source == "" || alarm.code == "" {
        return INVALID_ARG;
      }
      SlotOfBounds(Alarms(), alarm.Key());
      var slot := 0;
      while slot < alarmCount && !(alarms[slot].source == alarm.source && alarms[slot].code == alarm.code)
        invariant slot <= SlotOf(Alarms(), alarm.Key())
      {
        slot := slot + 1;
      }
      if slot == alarmCount {
        if !alarm.active {
          return OK;
        }
        if alarmCount >= MAX_ALARMS {
          return NO_MEM;
        }
        alarmCount := alarmCount + 1;
      }
      alarms[slot] := alarm;
      alarmGeneration := NextGeneration(alarmGeneration);
      result := OK;
    }

    method ClearAlarms()
      requires Valid()
      modifies this`alarmCount, this`alarmGeneration, alarms
      ensures Valid() && Alarms() == []
      ensures alarmGeneration == NextGeneration(old(alarmGeneration))
    {
      forall i | 0 <= i < alarms.Length {
        alarms[i] := BLANK_ALARM;
      }
      alarmCount := 0;
      alarmGeneration := NextGeneration(alarmGeneration);
    }

    /** Active alarms only, counted densely past the inactive slots. */
    method GetActiveAlarm(activeIndex: nat) returns (found: bool, alarm: Alarm)
      requires Valid()
      ensures found <==> activeIndex < |ActiveOnes(Alarms())|
      ensures found ==> alarm == ActiveOnes(Alarms())[activeIndex]
    {
      alarm := BLANK_ALARM;
      found := false;
      var currentActiveIndex := 0;
      var index := 0;
      while index < alarmCount
        invariant index <= alarmCount
        invariant currentActiveIndex == |ActiveOnes(Alarms()[..index])| <= activeIndex
      {
        assert Alarms()[..index + 1][..index] == Alarms()[..index];
        if alarms[index].active {
          if currentActiveIndex == activeIndex {
            ActiveOnesGrow(Alarms(), index + 1, alarmCount);
            assert Alarms()[..alarmCount] == Alarms();
            return true, alarms[index];
          }
          currentActiveIndex := currentActiveIndex + 1;
        }
        index := index + 1;
      }
      assert Alarms()[..alarmCount] == Alarms();
    }

    method ActiveAlarmCount() returns (count: nat)
      requires Valid()
      ensures count == |ActiveOnes(Alarms())|
    {
      count := 0;
      var index := 0;
      while index < alarmCount
        invariant index <= alarmCount
        invariant count == |ActiveOnes(Alarms()[..index])|
      {
        assert Alarms()[..index + 1][..index] == Alarms()[..index];
        if alarms[index].active {
          count := count + 1;
        }
        index := index + 1;
      }
      assert Alarms()[..alarmCount] == Alarms();
    }

    method AssetCount() returns (count: nat)
      requires Valid()
      ensures count == |Assets(Objects())|
    {
      count := 0;
      var index := 0;
      while index < equipmentCount
        invariant index <= equipmentCount
        invariant count == |Assets(Objects()[..index])|
      {
        assert Objects()[..index + 1][..index] == Objects()[..index];
        if IsAsset(equipment[index].kind) {
          count := count + 1;
        }
        index := index + 1;
      }
      assert Objects()[..equipmentCount] == Objects();
    }
  }

  lemma SameParents(a: seq<Equipment>, b: seq<Equipment>, i: nat)
    requires |a| == |b|
    requires forall j | 0 <= j < |a| :: a[j].parentIndex == b[j].parentIndex
    ensures HasChildren(a, i) == HasChildren(b, i)
  {
    if HasChildren(a, i) {
      var c :| 0 <= c < |a| && a[c].parentIndex == i;
      assert b[c].parentIndex == i;
    }
    if HasChildren(b, i) {
      var c :| 0 <= c < |b| && b[c].parentIndex == i;
      assert a[c].parentIndex == i;
    }
  }

  /** The precedence rule is the rules one by one. */
  lemma ClassifiedFollows(objects: seq<Equipment>, tags: seq<Tag>)
    ensures KindsFollow(objects, Classified(objects, tags), tags)
  {
    var after := Classified(objects, tags);
    forall i: nat | i < |after| && !objects[i].explicitKind
      ensures KindIsInferred(after, tags, i)
    {
      InferredFollows(objects, after, tags, i);
    }
  }

  lemma InferredFollows(objects: seq<Equipment>, after: seq<Equipment>, tags: seq<Tag>, i: nat)
    requires i < |objects| == |after| && after[i].kind == InferredKind(objects, tags, i)
    requires forall j | 0 <= j < |objects| :: after[j].parentIndex == objects[j].parentIndex
    ensures KindIsInferred(after, tags, i)
  {
    SameParents(after, objects, i);
    assert forall t | 0 <= t < |tags| :: Owns(tags, t, i) <==> tags[t].equipmentIndex == i;
    assert HasTags(tags, i) <==> exists t | 0 <= t < |tags| :: tags[t].equipmentIndex == i;
  }

  lemma ScanOneMore(tags: seq<Tag>, t: nat, i: nat)
    requires t < |tags|
    ensures HasTags(tags[..t + 1], i) == (HasTags(tags[..t], i) || Owns(tags, t, i))
    ensures CanBeOperated(tags[..t + 1], i) ==
            (CanBeOperated(tags[..t], i) ||
             (Owns(tags, t, i) && (tags[t].writable || tags[t].semanticRole == "operating_status")))
    ensures HasProcessContext(tags[..t + 1], i) ==
            (HasProcessContext(tags[..t], i) ||
             (Owns(tags, t, i) && tags[t].semanticRole in ["demand", "production_total", "consumption_total"]))
  {
    var less, more := tags[..t], tags[..t + 1];
    assert forall k | 0 <= k < t :: less[k] == more[k];
    assert more[t] == tags[t];
    assert forall k :: Owns(more, k, i) <==> Owns(less, k, i) || (k == t && Owns(tags, t, i));
  }

  /** A published batch keeps every explicit kind, gives every other object the rule's kind,
      and leaves no object unknown. */
  lemma ClassifiedMeaning(objects: seq<Equipment>, tags: seq<Tag>, i: nat)
    requires i < |objects|
    requires forall j | 0 <= j < |objects| :: objects[j].explicitKind ==> objects[j].kind != UnknownKind
    ensures Classified(objects, tags)[i].kind != UnknownKind
    ensures Classified(objects, tags)[i] == objects[i].(kind := Classified(objects, tags)[i].kind)
    ensures IsAsset(Classified(objects, tags)[i].kind) && !objects[i].explicitKind ==>
              !HasChildren(objects, i) && HasTags(tags, i)
  {
    if CanBeOperated(tags, i) {
      var t :| Owns(tags, t, i) && (tags[t].writable || tags[t].semanticRole == "operating_status");
      assert HasTags(tags, i);
    }
  }
}
