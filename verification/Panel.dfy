/** From a discovery to the overview page: what the panel shows of a discovered plant. */
module Panel {
  import opened Collections
  import opened DataModel
  import opened AddressSpace
  import opened DiscoveryInvariant
  import opened Hierarchy
  import opened Overview
  import opened Client
  import opened NodeIds
  import opened Reachability
  import opened Room
  import D = Discovery

  /** What the queries of the panel may rely on. */
  ghost predicate IsPlant(objects: seq<Equipment>, tags: seq<Tag>) {
    && Indexed(objects)
    && Forest(objects)
    && (forall i | 0 <= i < |objects| :: objects[i].kind != UnknownKind)
    && (forall t | 0 <= t < |tags| :: tags[t].index == t && tags[t].equipmentIndex < |objects|)
  }

  /** Against any server, a successful discovery publishes a forest of classified objects whose
      tags all have an owner. */
  lemma DiscoveryPublishesPlant(server: Server, limits: D.Limits, trace: seq<Call>)
    requires var o := D.Discover(server, limits, trace); o.status == GOOD && |o.progress.tables.objects| < SIZE_MAX
    ensures var t := D.Discover(server, limits, trace).progress.tables;
            IsPlant(Classified(t.objects, t.tags), t.tags)
  {
    DiscoverWellFormed(server, limits, trace);
    var t := D.Discover(server, limits, trace).progress.tables;
    forall i: nat | i < |t.objects|
      ensures Classified(t.objects, t.tags)[i].kind != UnknownKind
      ensures Classified(t.objects, t.tags)[i] == t.objects[i].(kind := Classified(t.objects, t.tags)[i].kind)
    {
      ClassifiedMeaning(t.objects, t.tags, i);
    }
  }

  /** The assets that the cards say they show. */
  function Counted(cards: seq<Card>): nat {
    if cards == [] then 0
    else Counted(cards[..|cards| - 1]) + cards[|cards| - 1].activeCount + cards[|cards| - 1].passiveCount
  }

  lemma OneMoreCard(cards: seq<Card>, card: Card)
    ensures Counted(cards + [card]) == Counted(cards) + card.activeCount + card.passiveCount
  {
    assert (cards + [card])[..|cards|] == cards;
  }

  lemma {:induction false} CardsCountShown(objects: seq<Equipment>, n: nat)
    ensures Counted(RootCards(objects, n)) == |Shown(objects, n)|
  {
    if n > 0 {
      CardsCountShown(objects, n - 1);
      var cards, assets := RootCards(objects, n - 1), CardNodes(objects, n - 1, false);
      if IsRoot(objects, n - 1) && assets != [] {
        OneMoreCard(cards, CardOf(objects, n - 1, false));
        assert RootCards(objects, n) == cards + [CardOf(objects, n - 1, false)];
        assert Shown(objects, n) == Shown(objects, n - 1) + assets;
      } else {
        assert RootCards(objects, n) == cards;
      }
    }
  }

  /** On a discovered plant every asset is bound exactly once and the cards' counts add up to the
      number of assets. */
  lemma PlantIsShownOnce(objects: seq<Equipment>)
    requires Indexed(objects) && Forest(objects)
    ensures var shown := Shown(objects, |objects|);
            && Distinct(shown)
            && (forall i: nat :: i in shown <==> i in AssetIndices(objects))
            && Counted(RootCards(objects, |objects|)) == |shown| == |Assets(objects)|
  {
    CardsPartitionAssets(objects);
    CardsCountShown(objects, |objects|);
  }

  /** What the cards say about one kind. */
  function Total(cards: seq<Card>, kind: EntityKind): nat {
    if cards == [] then 0
    else
      Total(cards[..|cards| - 1], kind) +
      if kind == ActiveEquipment then cards[|cards| - 1].activeCount else cards[|cards| - 1].passiveCount
  }

  ghost function OfKind(objects: seq<Equipment>, kind: EntityKind): set<nat> {
    set i: nat | i < |objects| && objects[i].kind == kind
  }

  ghost predicate UnderRoot(objects: seq<Equipment>, i: nat, n: nat) {
    exists r: nat | r < n :: IsRoot(objects, r) && AncestorOrSelf(objects, r, i)
  }

  /** The rows of one kind below the roots among the first n rows. */
  ghost function Under(objects: seq<Equipment>, kind: EntityKind, n: nat): set<nat> {
    set i: nat | i < |objects| && objects[i].kind == kind && UnderRoot(objects, i, n)
  }

  lemma UnderNext(objects: seq<Equipment>, i: nat, n: nat)
    requires |objects| < SIZE_MAX
    ensures UnderRoot(objects, i, n + 1) <==>
            UnderRoot(objects, i, n) || (IsRoot(objects, n) && AncestorOrSelf(objects, n, i))
    ensures !(UnderRoot(objects, i, n) && IsRoot(objects, n) && AncestorOrSelf(objects, n, i))
  {
    if UnderRoot(objects, i, n) {
      var r: nat :| r < n && IsRoot(objects, r) && AncestorOrSelf(objects, r, i);
      assert r < n + 1;
      if IsRoot(objects, n) && AncestorOrSelf(objects, n, i) {
        OneRootPerChain(objects, r, n, i);
      }
    }
  }

  lemma Disjoint(all: set<nat>, before: set<nat>, more: set<nat>)
    requires all == before + more && forall i | i in before :: i !in more
    ensures |all| == |before| + |more|
  {
    assert before !! more;
  }

  lemma OneMoreRoot(objects: seq<Equipment>, kind: EntityKind, n: nat)
    requires |objects| < SIZE_MAX
    ensures |Under(objects, kind, n + 1)| == |Under(objects, kind, n)| + OfRoot(objects, kind, n)
  {
    var all, before := Under(objects, kind, n + 1), Under(objects, kind, n);
    var more := if IsRoot(objects, n) then Below(objects, kind, n, false) else {};
    forall i: nat
      ensures i in all <==> i in before || i in more
      ensures !(i in before && i in more)
    {
      UnderNext(objects, i, n);
    }
    Disjoint(all, before, more);
  }

  lemma NoCardNothingBelow(objects: seq<Equipment>, kind: EntityKind, root: nat)
    requires IsAsset(kind) && CardNodes(objects, root, false) == []
    ensures |Below(objects, kind, root, false)| == 0
  {
    RowIsBelow(objects, kind, root, false);
  }

  lemma OneMoreTotal(cards: seq<Card>, card: Card, kind: EntityKind)
    ensures Total(cards + [card], kind) ==
            Total(cards, kind) + if kind == ActiveEquipment then card.activeCount else card.passiveCount
  {
    assert (cards + [card])[..|cards|] == cards;
  }

  /** How many rows of one kind row n brings as a root. */
  ghost function OfRoot(objects: seq<Equipment>, kind: EntityKind, n: nat): nat {
    if IsRoot(objects, n) then |Below(objects, kind, n, false)| else 0
  }

  lemma OneMoreRowTotal(objects: seq<Equipment>, kind: EntityKind, n: nat, before: seq<Card>, cards: seq<Card>)
    requires IsAsset(kind) && before == RootCards(objects, n) && cards == RootCards(objects, n + 1)
    ensures Total(cards, kind) == Total(before, kind) + OfRoot(objects, kind, n)
  {
    if IsRoot(objects, n) && CardNodes(objects, n, false) != [] {
      CardOfIsTrue(objects, n, false);
      OneMoreTotal(before, CardOf(objects, n, false), kind);
      assert cards == before + [CardOf(objects, n, false)];
    } else {
      assert cards == before;
      if IsRoot(objects, n) {
        NoCardNothingBelow(objects, kind, n);
      }
    }
  }

  /** The rows of one kind, root by root. */
  ghost function PerRoot(objects: seq<Equipment>, kind: EntityKind, n: nat): nat {
    if n == 0 then 0
    else PerRoot(objects, kind, n - 1) + OfRoot(objects, kind, n - 1)
  }

  lemma {:induction false} TotalIsPerRoot(objects: seq<Equipment>, kind: EntityKind, n: nat, cards: seq<Card>)
    requires IsAsset(kind) && cards == RootCards(objects, n)
    ensures Total(cards, kind) == PerRoot(objects, kind, n)
  {
    if n > 0 {
      var before := RootCards(objects, n - 1);
      TotalIsPerRoot(objects, kind, n - 1, before);
      OneMoreRowTotal(objects, kind, n - 1, before, cards);
    }
  }

  lemma {:induction false} UnderIsPerRoot(objects: seq<Equipment>, kind: EntityKind, n: nat)
    requires |objects| < SIZE_MAX
    ensures |Under(objects, kind, n)| == PerRoot(objects, kind, n)
  {
    if n == 0 {
      assert Under(objects, kind, 0) == {};
    } else {
      UnderIsPerRoot(objects, kind, n - 1);
      OneMoreRoot(objects, kind, n - 1);
    }
  }

  /** On a forest the active counts of all cards add up to the number of active assets, and the
      passive counts to the number of passive ones. */
  lemma CardsCountKinds(objects: seq<Equipment>, kind: EntityKind)
    requires Indexed(objects) && Forest(objects) && IsAsset(kind)
    ensures Total(RootCards(objects, |objects|), kind) == |OfKind(objects, kind)|
  {
    TotalIsPerRoot(objects, kind, |objects|, RootCards(objects, |objects|));
    UnderIsPerRoot(objects, kind, |objects|);
    forall i: nat | i < |objects|
      ensures UnderRoot(objects, i, |objects|)
    {
      var r := RootOf(objects, i);
    }
    assert Under(objects, kind, |objects|) == OfKind(objects, kind);
  }

  lemma {:induction false} NoCardsNothingShown(objects: seq<Equipment>, n: nat)
    requires RootCards(objects, n) == []
    ensures Shown(objects, n) == []
  {
    if n > 0 {
      NoCardsNothingShown(objects, n - 1);
    }
  }

  /** Every card heads a root of its own, in table order; what it says of its active and passive assets
      is so and its rings fit; and the counts of all cards add up to the assets of either kind. */
  ghost predicate PageIsTrue(objects: seq<Equipment>, cards: seq<Card>) {
    && Ascending(Roots(cards), |objects|)
    && (forall card | card in cards :: !card.flat && IsRoot(objects, card.root))
    && (forall card | card in cards :: CardIsTrue(objects, card) && RingsFit(card.nodes))
    && Total(cards, ActiveEquipment) == |OfKind(objects, ActiveEquipment)|
    && Total(cards, PassiveEquipment) == |OfKind(objects, PassiveEquipment)|
  }

  /** Lays out the overview of a plant: every asset on exactly one root card, no flat card. */
  method ShowOverview(model: Model) returns (page: OverviewPage)
    requires model.Valid() && Indexed(model.Objects()) && Forest(model.Objects())
    ensures page.Valid() && page.model == model && fresh(page)
    ensures Distinct(page.Bound())
    ensures forall i: nat :: i in page.Bound() <==> i in AssetIndices(model.Objects())
    ensures Counted(page.cards) == |page.Bound()| == |Assets(model.Objects())|
    ensures page.cards == RootCards(model.Objects(), model.equipmentCount)
    ensures PageIsTrue(model.Objects(), page.cards)
  {
    ghost var objects := model.Objects();
    page := new OverviewPage(model);
    page.CreateHierarchyCards();
    PlantIsShownOnce(objects);
    RootCardsAscend(objects, |objects|);
    forall card | card in RootCards(objects, |objects|)
      ensures CardIsTrue(objects, card) && RingsFit(card.nodes)
    {
      RootCardsAreTrue(objects, |objects|, card);
    }
    CardsCountKinds(objects, ActiveEquipment);
    CardsCountKinds(objects, PassiveEquipment);
    if RootCards(objects, |objects|) == [] {
      NoCardsNothingShown(objects, |objects|);
      FlatFallbackIsEmpty(objects);
    }
  }

  /** Discovers the plant and publishes it. */
  method DiscoverPlant(client: OpcUaClient) returns (result: StatusCode)
    requires client.Valid()
    modifies client, client.model, client.model.equipment, client.model.tags, client.model.alarms
    modifies client.equipmentNodeIds, client.tagNodeIds, client.tagBuiltinTypes
    ensures client.Valid()
    ensures result == D.Discover(client.server, client.Limits(), old(client.trace)).status
    ensures IsPlant(client.model.Objects(), client.model.Tags())
    ensures result == GOOD ==>
              client.Tables().objectIds == D.Discover(client.server, client.Limits(),
                                                      old(client.trace)).progress.tables.objectIds
    ensures |client.Tables().objectIds| == |client.model.Objects()|
    ensures result != GOOD ==> client.model.Objects() == [] && client.model.Tags() == []
  {
    result := client.DiscoverAddressSpace();
    ghost var objects := client.model.Objects();
    assert client.Tables().objects == objects && client.Tables().tags == client.model.Tags();
    if result == GOOD {
      ghost var found := D.Discover(client.server, client.Limits(), old(client.trace)).progress.tables;
      assert objects == Classified(found.objects, found.tags);
      assert |found.objects| == |objects| < SIZE_MAX;
      DiscoveryPublishesPlant(client.server, client.Limits(), old(client.trace));
    }
  }

  /** The overview after a discovery, successful or not. */
  method ShowDiscoveredPlant(client: OpcUaClient) returns (result: StatusCode, page: OverviewPage)
    requires client.Valid()
    modifies client, client.model, client.model.equipment, client.model.tags, client.model.alarms
    modifies client.equipmentNodeIds, client.tagNodeIds, client.tagBuiltinTypes
    ensures client.Valid() && page.Valid() && page.model == client.model
    ensures result == D.Discover(client.server, client.Limits(), old(client.trace)).status
    ensures Distinct(page.Bound())
    ensures forall i: nat :: i in page.Bound() <==> i in AssetIndices(client.model.Objects())
    ensures Counted(page.cards) == |page.Bound()| == |Assets(client.model.Objects())|
    ensures PageIsTrue(client.model.Objects(), page.cards)
    ensures result != GOOD ==> page.cards == [] && page.Bound() == []
  {
    result := DiscoverPlant(client);
    page := ShowOverview(client.model);
  }

  /** The node with this NodeId has a row that is classified as an asset. */
  ghost predicate IsAssetNode(ids: seq<NodeId>, objects: seq<Equipment>, v: NodeId) {
    exists i :: 0 <= i < |ids| && i < |objects| && ids[i] == v && IsAsset(objects[i].kind)
  }

  ghost predicate IsBound(ids: seq<NodeId>, bound: seq<nat>, v: NodeId) {
    exists i :: 0 <= i < |ids| && i in bound && ids[i] == v
  }

  /** A plant that fits is discovered and shown: the nodes on the page are exactly those that can be
      discovered and are classified as assets. */
  method ShowFittingPlant(client: OpcUaClient, ghost world: World, ghost objects: set<NodeId>,
                          ghost variables: set<NodeId>)
    returns (result: StatusCode, page: OverviewPage)
    requires client.Valid() && ListsReferences(client.server, world) && NeverFails(client.server)
    requires HasRoom(world, client.Limits(), objects, variables) && Shallow(world, client.Limits())
    modifies client, client.model, client.model.equipment, client.model.tags, client.model.alarms
    modifies client.equipmentNodeIds, client.tagNodeIds, client.tagBuiltinTypes
    ensures client.Valid() && page.Valid() && result == GOOD
    ensures forall v :: v in client.Tables().objectIds <==> Discoverable(world, v)
    ensures forall v :: IsBound(client.Tables().objectIds, page.Bound(), v) <==>
                        Discoverable(world, v) && IsAssetNode(client.Tables().objectIds, client.model.Objects(), v)
  {
    FittingPlantIsDiscovered(client.server, world, client.Limits(), client.trace, objects, variables);
    result := DiscoverPlant(client);
    page := ShowOverview(client.model);
    ghost var ids, rows := client.Tables().objectIds, client.model.Objects();
    forall v
      ensures IsBound(ids, page.Bound(), v) <==> v in ids && IsAssetNode(ids, rows, v)
    {
      BoundNode(ids, rows, page.Bound(), v);
    }
  }

  lemma BoundNode(ids: seq<NodeId>, objects: seq<Equipment>, bound: seq<nat>, v: NodeId)
    requires |ids| == |objects| && forall i: nat :: i in bound <==> i in AssetIndices(objects)
    ensures IsBound(ids, bound, v) <==> v in ids && IsAssetNode(ids, objects, v)
  {
    if IsBound(ids, bound, v) {
      var i :| 0 <= i < |ids| && i in bound && ids[i] == v;
      assert i in AssetIndices(objects);
    }
    if IsAssetNode(ids, objects, v) {
      var i :| 0 <= i < |ids| && i < |objects| && ids[i] == v && IsAsset(objects[i].kind);
      assert i in AssetIndices(objects);
    }
  }
}
