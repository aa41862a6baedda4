/** The overview page's queries over the object table and the contents of its hierarchy cards. */
module Overview {
  import opened Collections
  import opened DataModel
  import opened DiscoveryInvariant
  import opened Hierarchy

  const NODES_PER_ROW := 7
  const NODE_RING_SIZE := 52
  const WRAPPER_WIDTH := 976
  const EDGE_PADDING := 38
  const ROW_HEIGHT := 104

  /** The ring of one asset inside a card. */
  datatype Node = Node(equipment: nat, x: int, y: int)

  datatype Card = Card(root: nat, flat: bool, activeCount: nat, passiveCount: nat, nodes: seq<Node>)

  // ----- placement -----

  function Columns(v: nat, count: nat): nat
    requires v < count
  {
    var remaining := count - v / NODES_PER_ROW * NODES_PER_ROW;
    if remaining < NODES_PER_ROW then remaining else NODES_PER_ROW
  }

  /** Where the v-th of `count` nodes goes. */
  function PlaceX(v: nat, count: nat): int
    requires v < count
  {
    var columns := Columns(v, count);
    if columns > 1 then
      EDGE_PADDING + v % NODES_PER_ROW * (WRAPPER_WIDTH - NODE_RING_SIZE - 2 * EDGE_PADDING) / (columns - 1)
    else (WRAPPER_WIDTH - NODE_RING_SIZE) / 2
  }

  function PlaceY(v: nat): int {
    v / NODES_PER_ROW * ROW_HEIGHT
  }

  lemma ColumnOffset(column: nat, columns: nat)
    requires column < columns <= NODES_PER_ROW && columns > 1
    ensures 0 <= column * 848 / (columns - 1) <= 848
    ensures column + 1 < columns ==> column * 848 / (columns - 1) + 141 <= (column + 1) * 848 / (columns - 1)
  {
    match columns {
      case 2 =>
      case 3 =>
      case 4 =>
      case 5 =>
      case 6 =>
      case 7 =>
    }
  }

  lemma {:induction false} ColumnsApart(a: nat, b: nat, columns: nat)
    requires a < b < columns <= NODES_PER_ROW
    ensures a * 848 / (columns - 1) + 141 <= b * 848 / (columns - 1)
    decreases b
  {
    ColumnOffset(b - 1, columns);
    if a < b - 1 {
      ColumnsApart(a, b - 1, columns);
    }
  }

  const RING_TOP := 31

  function RowsFor(count: nat): nat {
    (count + NODES_PER_ROW - 1) / NODES_PER_ROW
  }

  /** The ring of every node, the only one of its card included, lies inside the card's content. */
  lemma RingInsideCard(v: nat, count: nat)
    requires v < count
    ensures 0 <= PlaceX(v, count) <= WRAPPER_WIDTH - NODE_RING_SIZE
    ensures 0 <= PlaceY(v) + RING_TOP && PlaceY(v) + RING_TOP + NODE_RING_SIZE <= RowsFor(count) * ROW_HEIGHT
    ensures v % NODES_PER_ROW < Columns(v, count)
  {
    if Columns(v, count) > 1 {
      ColumnOffset(v % NODES_PER_ROW, Columns(v, count));
    }
    assert v / NODES_PER_ROW + 1 <= RowsFor(count);
  }

  /** A row of rings reaches from one padding to the other; a ring that is alone stands in the middle. */
  lemma RowIsSpread(v: nat, count: nat)
    requires v < count
    ensures var columns, column := Columns(v, count), v % NODES_PER_ROW;
            && (columns > 1 && column == 0 ==> PlaceX(v, count) == EDGE_PADDING)
            && (columns > 1 && column == columns - 1 ==>
                  PlaceX(v, count) == WRAPPER_WIDTH - NODE_RING_SIZE - EDGE_PADDING)
            && (columns == 1 ==> 2 * PlaceX(v, count) + NODE_RING_SIZE == WRAPPER_WIDTH)
  {
    var columns := Columns(v, count);
    if columns > 1 && v % NODES_PER_ROW == columns - 1 {
      assert (columns - 1) * 848 / (columns - 1) == 848;
    }
  }

  /** No two rings of a card overlap. */
  lemma RingsDoNotOverlap(v: nat, w: nat, count: nat)
    requires v < w < count
    ensures PlaceY(v) + NODE_RING_SIZE <= PlaceY(w) ||
            (PlaceY(v) == PlaceY(w) && PlaceX(v, count) + NODE_RING_SIZE <= PlaceX(w, count))
  {
    RingInsideCard(v, count);
    RingInsideCard(w, count);
    if v / NODES_PER_ROW == w / NODES_PER_ROW {
      ColumnsApart(v % NODES_PER_ROW, w % NODES_PER_ROW, Columns(v, count));
    }
  }

  // ----- the page -----

  /** The nodes of a card, given the assets that it shows in order. */
  ghost function Placed(assets: seq<nat>): seq<Node> {
    seq(|assets|, v requires 0 <= v < |assets| => Node(assets[v], PlaceX(v, |assets|), PlaceY(v)))
  }

  ghost predicate ArePlaced(nodes: seq<Node>, assets: seq<nat>) {
    |nodes| <= |assets| &&
    forall v | 0 <= v < |nodes| :: nodes[v] == Node(assets[v], PlaceX(v, |assets|), PlaceY(v))
  }

  lemma AllPlaced(nodes: seq<Node>, assets: seq<nat>)
    requires ArePlaced(nodes, assets) && |nodes| == |assets|
    ensures nodes == Placed(assets)
  {
  }

  /** Bindings and new nodes together are different rows of an n-row table. */
  ghost predicate RoomFor(bound: seq<nat>, nodes: seq<nat>, n: nat) {
    Distinct(bound + nodes) && forall i | i in bound + nodes :: i < n
  }

  ghost function CardOf(objects: seq<Equipment>, root: nat, flat: bool): Card {
    Card(root, flat, |Row(objects, ActiveEquipment, root, flat, |objects|)|,
         |Row(objects, PassiveEquipment, root, flat, |objects|)|, Placed(CardNodes(objects, root, flat)))
  }

  /** The two numbers on a card count the active and the passive assets below its root, and its nodes
      are these assets: active ones first, then passive ones, both in table order. */
  ghost predicate CardIsTrue(objects: seq<Equipment>, card: Card) {
    && card.activeCount == |Below(objects, ActiveEquipment, card.root, card.flat)|
    && card.passiveCount == |Below(objects, PassiveEquipment, card.root, card.flat)|
    && |card.nodes| == card.activeCount + card.passiveCount
    && (forall v | 0 <= v < card.activeCount ::
          card.nodes[v].equipment in Below(objects, ActiveEquipment, card.root, card.flat))
    && (forall v | card.activeCount <= v < |card.nodes| ::
          card.nodes[v].equipment in Below(objects, PassiveEquipment, card.root, card.flat))
    && (forall v, w | 0 <= v < w < |card.nodes| && (w < card.activeCount || card.activeCount <= v) ::
          card.nodes[v].equipment < card.nodes[w].equipment)
  }

  /** Every ring lies inside the card, and later rings are to the right of earlier ones or below them. */
  ghost predicate RingsFit(nodes: seq<Node>) {
    && (forall v | 0 <= v < |nodes| ::
          && 0 <= nodes[v].x <= WRAPPER_WIDTH - NODE_RING_SIZE
          && 0 <= nodes[v].y + RING_TOP && nodes[v].y + RING_TOP + NODE_RING_SIZE <= RowsFor(|nodes|) * ROW_HEIGHT)
    && (forall v, w | 0 <= v < w < |nodes| ::
          || nodes[v].y + NODE_RING_SIZE <= nodes[w].y
          || (nodes[v].y == nodes[w].y && nodes[v].x + NODE_RING_SIZE <= nodes[w].x))
  }

  lemma PlacedFit(assets: seq<nat>)
    ensures RingsFit(Placed(assets))
  {
    forall v: nat | v < |assets|
      ensures 0 <= PlaceX(v, |assets|) <= WRAPPER_WIDTH - NODE_RING_SIZE
      ensures 0 <= PlaceY(v) + RING_TOP && PlaceY(v) + RING_TOP + NODE_RING_SIZE <= RowsFor(|assets|) * ROW_HEIGHT
    {
      RingInsideCard(v, |assets|);
    }
    forall v: nat, w: nat | v < w < |assets|
      ensures PlaceY(v) + NODE_RING_SIZE <= PlaceY(w) ||
              (PlaceY(v) == PlaceY(w) && PlaceX(v, |assets|) + NODE_RING_SIZE <= PlaceX(w, |assets|))
    {
      RingsDoNotOverlap(v, w, |assets|);
    }
  }

  lemma CardOfIsTrue(objects: seq<Equipment>, root: nat, flat: bool)
    ensures CardIsTrue(objects, CardOf(objects, root, flat)) && RingsFit(CardOf(objects, root, flat).nodes)
  {
    RowIsBelow(objects, ActiveEquipment, root, flat);
    RowIsBelow(objects, PassiveEquipment, root, flat);
    PlacedFit(CardNodes(objects, root, flat));
    assert forall v | 0 <= v < |CardNodes(objects, root, flat)| ::
        CardOf(objects, root, flat).nodes[v].equipment == CardNodes(objects, root, flat)[v];
  }

  /** One card for every root below n that has assets. */
  ghost function RootCards(objects: seq<Equipment>, n: nat): seq<Card> {
    if n == 0 then []
    else
      RootCards(objects, n - 1) +
      if IsRoot(objects, n - 1) && CardNodes(objects, n - 1, false) != [] then [CardOf(objects, n - 1, false)] else []
  }

  lemma {:induction false} RootCardsAreTrue(objects: seq<Equipment>, n: nat, card: Card)
    requires card in RootCards(objects, n)
    ensures CardIsTrue(objects, card) && RingsFit(card.nodes)
  {
    if card in RootCards(objects, n - 1) {
      RootCardsAreTrue(objects, n - 1, card);
    } else {
      CardOfIsTrue(objects, n - 1, false);
    }
  }

  ghost function Roots(cards: seq<Card>): seq<nat> {
    seq(|cards|, c requires 0 <= c < |cards| => cards[c].root)
  }

  /** The cards of the roots come in table order, one for each. */
  lemma {:induction false} RootCardsAscend(objects: seq<Equipment>, n: nat)
    ensures Ascending(Roots(RootCards(objects, n)), n)
    ensures forall card | card in RootCards(objects, n) :: !card.flat && IsRoot(objects, card.root)
  {
    if n > 0 {
      RootCardsAscend(objects, n - 1);
      var before, cards := RootCards(objects, n - 1), RootCards(objects, n);
      assert cards == before || Roots(cards) == Roots(before) + [n - 1];
    }
  }

  class OverviewPage {
    const model: Model
    /** The equipment index of every node on the page, in the order of creation. */
    const bindings: array<nat>
    var bindingCount: nat
    var cards: seq<Card>

    ghost predicate Valid()
      reads this, model, model.equipment
    {
      && model.Valid() && Indexed(model.Objects())
      && bindingCount <= bindings.Length == model.equipmentCount
    }

    constructor (model: Model)
      requires model.Valid() && Indexed(model.Objects())
      ensures Valid() && this.model == model && bindingCount == 0 && cards == []
      ensures fresh(bindings)
    {
      this.model := model;
      bindings := new nat[model.equipmentCount](_ => 0);
      bindingCount, cards := 0, [];
    }

    method EquipmentBelongsToScope(equipment: Equipment, root: Equipment, flatFallback: bool) returns (belongs: bool)
      requires model.Valid() && Indexed(model.Objects())
      requires equipment in model.Objects() && root in model.Objects()
      ensures belongs <==> Belongs(model.Objects(), equipment.index, root.index, flatFallback)
    {
      ghost var objects := model.Objects();
      if !IsAsset(equipment.kind) {
        return false;
      }
      if flatFallback || equipment.index == root.index {
        AncestorSelf(objects, root.index);
        return true;
      }
      var parentIndex := equipment.parentIndex;
      var count := model.equipmentCount;
      var guard := 0;
      if equipment.parentIndex == equipment.index {
        SelfParentHasNoAncestors(objects, equipment.index, root.index);
      }
      while guard < count && parentIndex != INVALID_INDEX
        invariant guard <= count
        invariant equipment.parentIndex == equipment.index ==> parentIndex == equipment.index
        invariant equipment.parentIndex != equipment.index ==>
                    && parentIndex == Nth(objects, equipment.index, guard + 1)
                    && forall k | 0 <= k <= guard :: Nth(objects, equipment.index, k) != root.index
      {
        if parentIndex == root.index {
          return true;
        }
        if parentIndex >= model.equipmentCount {
          break;
        }
        var parent := model.equipment[parentIndex];
        assert parent == objects[parentIndex];
        NthNext(objects, equipment.index, guard + 1);
        if parent.parentIndex == parent.index {
          if equipment.parentIndex != equipment.index {
            OutOfRangeStays(objects, equipment.index, guard + 2);
          }
          break;
        }
        parentIndex := parent.parentIndex;
        guard := guard + 1;
      }
      belongs := false;
      if equipment.parentIndex != equipment.index && parentIndex >= count {
        OutOfRangeStays(objects, equipment.index, guard + 1);
      }
      if AncestorOrSelf(objects, root.index, equipment.index) {
        var hit := HitsEarly(objects, root.index, equipment.index);
      }
    }

    method EquipmentHierarchyDepth(start: nat) returns (depth: nat)
      requires model.Valid() && Indexed(model.Objects())
      ensures Forest(model.Objects()) && start < model.equipmentCount ==> depth == Depth(model.Objects(), start)
      ensures depth <= model.equipmentCount
    {
      depth := 0;
      var equipmentIndex := start;
      var count := model.equipmentCount;
      var guard := 0;
      while guard < count
        invariant guard == depth <= count
        invariant Forest(model.Objects()) && start < count ==>
                    && equipmentIndex < count && depth + equipmentIndex <= start
                    && depth + Depth(model.Objects(), equipmentIndex) == Depth(model.Objects(), start)
      {
        if equipmentIndex >= count {
          break;
        }
        var equipment := model.equipment[equipmentIndex];
        assert equipment == model.Objects()[equipmentIndex];
        if equipment.parentIndex == INVALID_INDEX || equipment.parentIndex == equipment.index {
          break;
        }
        depth := depth + 1;
        equipmentIndex := equipment.parentIndex;
        guard := guard + 1;
      }
    }

    /** Whether `candidate` is on the chain that starts at `source`. */
    method SourceInScope(source: nat, candidate: nat) returns (inScope: bool)
      requires model.Valid() && Indexed(model.Objects()) && candidate < model.equipmentCount
      ensures inScope <==> AncestorOrSelf(model.Objects(), candidate, source)
    {
      ghost var objects := model.Objects();
      inScope := false;
      var sourceIndex := source;
      var count := model.equipmentCount;
      var guard := 0;
      while guard < count
        invariant guard <= count
        invariant sourceIndex == Nth(objects, source, guard)
        invariant forall k | 0 <= k < guard :: Nth(objects, source, k) != candidate
      {
        if sourceIndex >= count {
          OutOfRangeStays(objects, source, guard);
          break;
        }
        var entry := model.equipment[sourceIndex];
        assert entry == objects[sourceIndex];
        if entry.index == candidate {
          return true;
        }
        NthNext(objects, source, guard);
        if entry.parentIndex == INVALID_INDEX || entry.parentIndex == entry.index {
          OutOfRangeStays(objects, source, guard + 1);
          break;
        }
        sourceIndex := entry.parentIndex;
        guard := guard + 1;
      }
      if AncestorOrSelf(objects, candidate, source) {
        var hit := HitsEarly(objects, candidate, source);
      }
    }

    /** Whether `candidate` contains the source of every tag but the first. */
    method ContainsOthers(candidate: nat, tagIndices: seq<nat>) returns (containsAll: bool)
      requires model.Valid() && Indexed(model.Objects()) && candidate < model.equipmentCount
      ensures containsAll <==>
              forall p | 1 <= p < |tagIndices| ::
                IsTag(model.Tags(), tagIndices[p]) &&
                AncestorOrSelf(model.Objects(), candidate, model.Tags()[tagIndices[p]].equipmentIndex)
    {
      containsAll := true;
      var position := 1;
      while position < |tagIndices| && containsAll
        invariant 1 <= position
        invariant containsAll ==>
                    forall p | 1 <= p < position && p < |tagIndices| ::
                      IsTag(model.Tags(), tagIndices[p]) &&
                      AncestorOrSelf(model.Objects(), candidate, model.Tags()[tagIndices[p]].equipmentIndex)
        invariant !containsAll ==>
                    exists p | 1 <= p < |tagIndices| ::
                      !(IsTag(model.Tags(), tagIndices[p]) &&
                        AncestorOrSelf(model.Objects(), candidate, model.Tags()[tagIndices[p]].equipmentIndex))
      {
        if tagIndices[position] >= model.tagCount {
          containsAll := false;
          break;
        }
        var tag := model.tags[tagIndices[position]];
        assert tag == model.Tags()[tagIndices[position]];
        containsAll := SourceInScope(tag.equipmentIndex, candidate);
        position := position + 1;
      }
    }

    /** The deepest object that contains the source of every selected tag. */
    method FindSharedSignalScope(tagIndices: seq<nat>) returns (found: bool, scope: Equipment)
      requires model.Valid() && Indexed(model.Objects())
      ensures found ==>
                && tagIndices != [] && scope in model.Objects()
                && CommonScope(model.Objects(), model.Tags(), tagIndices, scope.index)
                && (forall other: nat :: CommonScope(model.Objects(), model.Tags(), tagIndices, other) ==>
                      AncestorOrSelf(model.Objects(), other, scope.index))
                && (Forest(model.Objects()) ==> IsDeepest(model.Objects(), model.Tags(), tagIndices, scope.index))
      ensures !found ==>
                tagIndices == [] || forall a: nat :: !CommonScope(model.Objects(), model.Tags(), tagIndices, a)
    {
      found, scope := false, BLANK_EQUIPMENT;
      if |tagIndices| == 0 {
        return;
      }
      if tagIndices[0] >= model.tagCount {
        assert !IsTag(model.Tags(), tagIndices[0]);
        return;
      }
      ghost var objects, tags := model.Objects(), model.Tags();
      var first := model.tags[tagIndices[0]].equipmentIndex;
      assert first == tags[tagIndices[0]].equipmentIndex;
      var candidateIndex := first;
      var count := model.equipmentCount;
      var guard := 0;
      while guard < count
        invariant guard <= count
        invariant candidateIndex == Nth(objects, first, guard)
        invariant forall k: nat | k < guard :: !CommonScope(objects, tags, tagIndices, Nth(objects, first, k))
      {
        if candidateIndex >= count {
          OutOfRangeStays(objects, first, guard);
          NoScopeLeft(objects, tags, tagIndices, first, guard);
          return;
        }
        var candidate := model.equipment[candidateIndex];
        assert candidate == objects[candidateIndex];
        var containsAll := ContainsOthers(candidate.index, tagIndices);
        if containsAll {
          DeepestOnChain(objects, tags, tagIndices, first, guard);
          if Forest(objects) {
            DeepestScope(objects, tags, tagIndices, candidateIndex);
          }
          return true, candidate;
        }
        assert !CommonScope(objects, tags, tagIndices, candidateIndex);
        NthNext(objects, first, guard);
        if candidate.parentIndex == INVALID_INDEX || candidate.parentIndex == candidate.index {
          OutOfRangeStays(objects, first, guard + 1);
          NoScopeLeft(objects, tags, tagIndices, first, guard + 1);
          return;
        }
        candidateIndex := candidate.parentIndex;
        guard := guard + 1;
      }
      NoScopeLeft(objects, tags, tagIndices, first, guard);
    }

    // ----- cards -----

    ghost function Bound(): seq<nat>
      requires bindingCount <= bindings.Length
      reads this, bindings
    {
      bindings[..bindingCount]
    }

    /** Nothing is bound when the bindings are used up. */
    method CreateEquipmentNode(index: nat)
      requires bindingCount <= bindings.Length
      modifies this`bindingCount, bindings
      ensures bindingCount <= bindings.Length
      ensures Bound() == if old(bindingCount) < bindings.Length then old(Bound()) + [index] else old(Bound())
    {
      if bindingCount >= bindings.Length {
        return;
      }
      bindings[bindingCount] := index;
      bindingCount := bindingCount + 1;
    }

    /** Where the next of `childCount` nodes goes; the subtraction never goes below zero. */
    static method PlaceNode(visibleIndex: nat, childCount: nat) returns (x: int, y: int)
      requires visibleIndex < childCount
      ensures x == PlaceX(visibleIndex, childCount) && y == PlaceY(visibleIndex)
    {
      var row := visibleIndex / NODES_PER_ROW;
      var column := visibleIndex % NODES_PER_ROW;
      var remaining: nat := childCount - row * NODES_PER_ROW;
      var columns := if remaining < NODES_PER_ROW then remaining else NODES_PER_ROW;
      if columns > 1 {
        x := EDGE_PADDING + column * (WRAPPER_WIDTH - NODE_RING_SIZE - 2 * EDGE_PADDING) / (columns - 1);
      } else {
        x := (WRAPPER_WIDTH - NODE_RING_SIZE) / 2;
      }
      y := row * ROW_HEIGHT;
    }

    method ShowNode(index: nat, childCount: nat, nodes: seq<Node>, ghost assets: seq<nat>) returns (placed: seq<Node>)
      requires bindingCount < bindings.Length && ArePlaced(nodes, assets)
      requires |nodes| < |assets| == childCount && assets[|nodes|] == index
      modifies this`bindingCount, bindings
      ensures bindingCount <= bindings.Length && Bound() == old(Bound()) + [index]
      ensures ArePlaced(placed, assets) && |placed| == |nodes| + 1
    {
      var x, y := PlaceNode(|nodes|, childCount);
      CreateEquipmentNode(index);
      placed := nodes + [Node(index, x, y)];
    }

    /** The first `index` rows have been looked at by a pass that began with `bound` and `first` nodes. */
    ghost predicate Filling(kind: EntityKind, root: nat, flat: bool, index: nat, placed: seq<Node>, assets: seq<nat>,
                            bound: seq<nat>, first: nat)
      requires model.Valid()
      reads this, model, model.equipment, bindings
    {
      var soFar := Row(model.Objects(), kind, root, flat, index);
      && bindingCount <= bindings.Length
      && Bound() == bound + soFar
      && ArePlaced(placed, assets) && |placed| == first + |soFar|
    }

    /** One row of a pass. */
    method VisitRow(kind: EntityKind, root: Equipment, flat: bool, childCount: nat, index: nat, nodes: seq<Node>,
                    ghost assets: seq<nat>, ghost bound: seq<nat>, ghost first: nat)
      returns (placed: seq<Node>)
      requires Valid() && root in model.Objects() && childCount == |assets| && IsAsset(kind)
      requires index < model.equipmentCount && first <= |assets|
      requires Row(model.Objects(), kind, root.index, flat, model.equipmentCount) <= assets[first..]
      requires RoomFor(bound, Row(model.Objects(), kind, root.index, flat, model.equipmentCount), bindings.Length)
      requires Filling(kind, root.index, flat, index, nodes, assets, bound, first)
      modifies this`bindingCount, bindings
      ensures Filling(kind, root.index, flat, index + 1, placed, assets, bound, first)
    {
      placed := nodes;
      var child := model.equipment[index];
      assert child == model.Objects()[index];
      var belongs := EquipmentBelongsToScope(child, root, flat);
      if child.kind == kind && belongs {
        NextInRow(model.Objects(), kind, root.index, flat, index, bound, bindings.Length);
        assert assets[first..][|nodes| - first] == index;
        placed := ShowNode(child.index, childCount, nodes, assets);
      }
    }

    /** One pass of the display order: the nodes of one kind, placed after those already there. */
    method PlaceKind(kind: EntityKind, root: Equipment, flat: bool, childCount: nat, nodes: seq<Node>,
                     ghost assets: seq<nat>)
      returns (placed: seq<Node>)
      requires Valid() && root in model.Objects() && childCount == |assets|
      requires IsAsset(kind) && ArePlaced(nodes, assets)
      requires Row(model.Objects(), kind, root.index, flat, model.equipmentCount) <= assets[|nodes|..]
      requires RoomFor(Bound(), Row(model.Objects(), kind, root.index, flat, model.equipmentCount), bindings.Length)
      modifies this`bindingCount, bindings
      ensures Valid()
      ensures Filling(kind, root.index, flat, model.equipmentCount, placed, assets, old(Bound()), |nodes|)
    {
      placed := nodes;
      var index := 0;
      while index < model.equipmentCount
        invariant index <= model.equipmentCount
        invariant Filling(kind, root.index, flat, index, placed, assets, old(Bound()), |nodes|)
      {
        placed := VisitRow(kind, root, flat, childCount, index, placed, assets, old(Bound()), |nodes|);
        index := index + 1;
      }
    }

    method CountAssets(root: Equipment, flat: bool) returns (activeCount: nat, passiveCount: nat)
      requires model.Valid() && Indexed(model.Objects()) && root in model.Objects()
      ensures activeCount == |Row(model.Objects(), ActiveEquipment, root.index, flat, model.equipmentCount)|
      ensures passiveCount == |Row(model.Objects(), PassiveEquipment, root.index, flat, model.equipmentCount)|
    {
      ghost var objects := model.Objects();
      activeCount, passiveCount := 0, 0;
      var index := 0;
      while index < model.equipmentCount
        invariant index <= model.equipmentCount
        invariant activeCount == |Row(objects, ActiveEquipment, root.index, flat, index)|
        invariant passiveCount == |Row(objects, PassiveEquipment, root.index, flat, index)|
      {
        var child := model.equipment[index];
        assert child == objects[index];
        var belongs := EquipmentBelongsToScope(child, root, flat);
        if belongs {
          if child.kind == ActiveEquipment {
            activeCount := activeCount + 1;
          } else {
            passiveCount := passiveCount + 1;
          }
        }
        index := index + 1;
      }
    }

    /** Counts the assets of a root and, when there are any, shows them on one card. */
    method CreateHierarchyCard(root: Equipment, flat: bool) returns (created: bool)
      requires Valid() && root in model.Objects()
      requires RoomFor(Bound(), CardNodes(model.Objects(), root.index, flat), bindings.Length)
      modifies this`bindingCount, this`cards, bindings
      ensures Valid()
      ensures var objects := model.Objects();
              && created == (CardNodes(objects, root.index, flat) != [])
              && Bound() == old(Bound()) + CardNodes(objects, root.index, flat)
              && cards == old(cards) + if created then [CardOf(objects, root.index, flat)] else []
      ensures created ==> CardIsTrue(model.Objects(), cards[|cards| - 1]) && RingsFit(cards[|cards| - 1].nodes)
    {
      CardOfIsTrue(model.Objects(), root.index, flat);
      var activeCount, passiveCount := CountAssets(root, flat);
      var childCount := activeCount + passiveCount;
      assert childCount == |CardNodes(model.Objects(), root.index, flat)|;
      if childCount == 0 {
        assert Bound() + CardNodes(model.Objects(), root.index, flat) == Bound();
        return false;
      }
      var nodes := FillCard(root, flat, childCount);
      cards := cards + [Card(root.index, flat, activeCount, passiveCount, nodes)];
      created := true;
    }

    /** Active assets first, then passive ones. */
    method FillCard(root: Equipment, flat: bool, childCount: nat) returns (nodes: seq<Node>)
      requires Valid() && root in model.Objects()
      requires childCount == |CardNodes(model.Objects(), root.index, flat)|
      requires RoomFor(Bound(), CardNodes(model.Objects(), root.index, flat), bindings.Length)
      modifies this`bindingCount, bindings
      ensures Valid()
      ensures Bound() == old(Bound()) + CardNodes(model.Objects(), root.index, flat)
      ensures nodes == Placed(CardNodes(model.Objects(), root.index, flat))
    {
      ghost var assets := CardNodes(model.Objects(), root.index, flat);
      RoomForParts(model.Objects(), root.index, flat, Bound(), bindings.Length);
      nodes := PlaceKind(ActiveEquipment, root, flat, childCount, [], assets);
      nodes := PlaceKind(PassiveEquipment, root, flat, childCount, nodes, assets);
      AllPlaced(nodes, assets);
    }

    /** The roots before row n have their cards. */
    ghost predicate RootsShown(n: nat)
      reads this, model, model.equipment, bindings
    {
      && Valid()
      && Bound() == Shown(model.Objects(), n) && cards == RootCards(model.Objects(), n)
      && (cards == [] ==> Shown(model.Objects(), n) == [])
    }

    /** A card for row `index`, if it is a root with assets. */
    method VisitRoot(index: nat) returns (created: bool)
      requires RootsShown(index) && index < model.equipmentCount
      modifies this`bindingCount, this`cards, bindings
      ensures RootsShown(index + 1)
      ensures |cards| == |old(cards)| + if created then 1 else 0
    {
      created := false;
      var equipment := model.equipment[index];
      assert equipment == model.Objects()[index];
      if equipment.parentIndex == INVALID_INDEX || equipment.parentIndex >= model.equipmentCount {
        RoomForRoot(model.Objects(), index);
        created := CreateHierarchyCard(equipment, false);
      }
    }

    /** One card for every root that has assets; one flat card when there is none. */
    method CreateHierarchyCards()
      requires Valid() && bindingCount == 0 && cards == []
      modifies this`bindingCount, this`cards, bindings
      ensures Valid()
      ensures var objects := model.Objects();
              var fallback := RootCards(objects, |objects|) == [] && objects != [] && CardNodes(objects, 0, true) != [];
              && cards == (if fallback then [CardOf(objects, 0, true)] else RootCards(objects, |objects|))
              && Bound() == (if fallback then CardNodes(objects, 0, true) else Shown(objects, |objects|))
    {
      ghost var objects := model.Objects();
      var count := model.equipmentCount;
      if count == 0 {
        return;
      }
      var cardCount := 0;
      var index := 0;
      while index < count
        invariant index <= count
        invariant RootsShown(index) && cardCount == |cards|
      {
        var created := VisitRoot(index);
        if created {
          cardCount := cardCount + 1;
        }
        index := index + 1;
      }
      if cardCount == 0 {
        var first := model.equipment[0];
        assert first == objects[0];
        RoomForFlatCard(objects);
        var created := CreateHierarchyCard(first, true);
      }
    }
  }

  /** The first common scope on the chain of one source is below every other common scope. */
  lemma DeepestOnChain(objects: seq<Equipment>, tags: seq<Tag>, indices: seq<nat>, first: nat, k: nat)
    requires indices != [] && IsTag(tags, indices[0]) && tags[indices[0]].equipmentIndex == first
    requires forall j: nat | j < k :: !CommonScope(objects, tags, indices, Nth(objects, first, j))
    ensures forall other: nat :: CommonScope(objects, tags, indices, other) ==>
                                 AncestorOrSelf(objects, other, Nth(objects, first, k))
  {
    forall other: nat | CommonScope(objects, tags, indices, other)
      ensures AncestorOrSelf(objects, other, Nth(objects, first, k))
    {
      assert AncestorOrSelf(objects, other, tags[indices[0]].equipmentIndex);
      var m: nat :| Nth(objects, first, m) == other;
      NthAdd(objects, first, k, m - k);
    }
  }

  /** When the chain was searched to its end, or for as many steps as there are rows, no common
      scope exists. */
  lemma NoScopeLeft(objects: seq<Equipment>, tags: seq<Tag>, indices: seq<nat>, first: nat, k: nat)
    requires |objects| < SIZE_MAX
    requires indices != [] && IsTag(tags, indices[0]) && tags[indices[0]].equipmentIndex == first
    requires forall j: nat | j < k :: !CommonScope(objects, tags, indices, Nth(objects, first, j))
    requires k == |objects| || forall m: nat | m >= k :: Nth(objects, first, m) >= |objects|
    ensures forall a: nat :: !CommonScope(objects, tags, indices, a)
  {
    forall a: nat
      ensures !CommonScope(objects, tags, indices, a)
    {
      if CommonScope(objects, tags, indices, a) {
        assert AncestorOrSelf(objects, a, tags[indices[0]].equipmentIndex);
        var hit := HitsEarly(objects, a, first);
        assert false;
      }
    }
  }

  lemma {:induction false} RowGrows(objects: seq<Equipment>, kind: EntityKind, root: nat, flat: bool, m: nat, n: nat)
    requires m <= n
    ensures Row(objects, kind, root, flat, m) <= Row(objects, kind, root, flat, n)
  {
    if m < n {
      RowGrows(objects, kind, root, flat, m, n - 1);
    }
  }

  /** Distinct row numbers cannot use up as many bindings as there are rows. */
  lemma RoomForOneMore(bound: seq<nat>, row: seq<nat>, k: nat, n: nat)
    requires RoomFor(bound, row, n) && k < |row|
    ensures |bound + row[..k]| < n
  {
    var used := bound + row[..k + 1];
    assert forall i | 0 <= i < |used| :: used[i] == (bound + row)[i];
    assert forall i | i in used :: i in bound + row;
    BelowFits(used, n);
  }

  lemma NextInRow(objects: seq<Equipment>, kind: EntityKind, root: nat, flat: bool, i: nat, bound: seq<nat>, n: nat)
    requires i < |objects| && Belongs(objects, i, root, flat) && objects[i].kind == kind
    requires RoomFor(bound, Row(objects, kind, root, flat, |objects|), n)
    ensures var row, soFar := Row(objects, kind, root, flat, |objects|), Row(objects, kind, root, flat, i);
            |soFar| < |row| && row[|soFar|] == i && |bound + soFar| < n
    ensures Row(objects, kind, root, flat, i + 1) == Row(objects, kind, root, flat, i) + [i]
  {
    RowGrows(objects, kind, root, flat, i + 1, |objects|);
    var row, soFar := Row(objects, kind, root, flat, |objects|), Row(objects, kind, root, flat, i);
    assert soFar + [i] <= row;
    RoomForOneMore(bound, row, |soFar|, n);
    assert row[..|soFar|] == soFar;
  }

  /** A card can be filled in two passes. */
  lemma RoomForParts(objects: seq<Equipment>, root: nat, flat: bool, bound: seq<nat>, n: nat)
    requires RoomFor(bound, CardNodes(objects, root, flat), n)
    ensures var active := Row(objects, ActiveEquipment, root, flat, |objects|);
            var passive := Row(objects, PassiveEquipment, root, flat, |objects|);
            var assets := CardNodes(objects, root, flat);
            && active <= assets[0..] && passive <= assets[|active|..]
            && RoomFor(bound, active, n) && RoomFor(bound + active, passive, n)
            && bound + active + passive == bound + assets
  {
    var a, b, c := bound, Row(objects, ActiveEquipment, root, flat, |objects|),
                   Row(objects, PassiveEquipment, root, flat, |objects|);
    assert a + b + c == a + (b + c);
    assert forall i | 0 <= i < |a + b| :: (a + b)[i] == (a + b + c)[i];
    assert forall i | i in a + b :: i in a + b + c;
    assert (b + c)[0..] == b + c && (b + c)[|b|..] == c;
  }

  /** The nodes of a further root, or of the flat card, are new rows of the table. */
  lemma RoomForRoot(objects: seq<Equipment>, n: nat)
    requires |objects| < SIZE_MAX && IsRoot(objects, n)
    ensures RoomFor(Shown(objects, n), CardNodes(objects, n, false), |objects|)
  {
    ShownMeaning(objects, n + 1);
    var shown := Shown(objects, n + 1);
    assert shown == Shown(objects, n) + CardNodes(objects, n, false);
    forall i | i in shown
      ensures i < |objects|
    {
      assert IsShown(objects, i, n + 1);
    }
  }

  lemma RoomForFlatCard(objects: seq<Equipment>)
    ensures RoomFor([], CardNodes(objects, 0, true), |objects|)
  {
    CardNodesMeaning(objects, 0, true);
    assert [] + CardNodes(objects, 0, true) == CardNodes(objects, 0, true);
  }

  lemma SelfParentHasNoAncestors(objects: seq<Equipment>, i: nat, a: nat)
    requires |objects| < SIZE_MAX && i < |objects| && objects[i].parentIndex == i && a != i
    ensures !AncestorOrSelf(objects, a, i)
  {
    if AncestorOrSelf(objects, a, i) {
      var k: nat :| Nth(objects, i, k) == a;
      OutOfRangeForever(objects, INVALID_INDEX, k - 1);
    }
  }

  /** Once a chain has left the table it never meets a row again. */
  lemma OutOfRangeStays(objects: seq<Equipment>, i: nat, k: nat)
    requires |objects| < SIZE_MAX && Nth(objects, i, k) >= |objects|
    ensures forall m: nat | m >= k :: Nth(objects, i, m) >= |objects|
  {
    forall m: nat | m >= k
      ensures Nth(objects, i, m) >= |objects|
    {
      NthAdd(objects, i, k, m - k);
      OutOfRangeForever(objects, Nth(objects, i, k), m - k);
    }
  }
}
