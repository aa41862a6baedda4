/** Parent chains over the object table. Nothing here assumes that the table is a forest: a chain
    is followed through any parent indices, cyclic ones included, and the guards of the panel's
    loops are shown never to cut one short. */
module Hierarchy {
  import opened Collections
  import opened DataModel
  import opened DiscoveryInvariant

  /** Rows know their own position, as every row that the model appends does. */
  ghost predicate Indexed(objects: seq<Equipment>) {
    |objects| < SIZE_MAX && forall i | 0 <= i < |objects| :: objects[i].index == i
  }

  /** The next link of the chain; anything out of range ends it. */
  function Up(objects: seq<Equipment>, i: nat): nat {
    if i >= |objects| || objects[i].parentIndex == i then INVALID_INDEX else objects[i].parentIndex
  }

  function Nth(objects: seq<Equipment>, i: nat, k: nat): nat
    decreases k
  {
    if k == 0 then i else Nth(objects, Up(objects, i), k - 1)
  }

  ghost predicate AncestorOrSelf(objects: seq<Equipment>, a: nat, i: nat) {
    a < |objects| && exists k: nat :: Nth(objects, i, k) == a
  }

  lemma {:induction false} NthAdd(objects: seq<Equipment>, i: nat, j: nat, k: nat)
    ensures Nth(objects, Nth(objects, i, j), k) == Nth(objects, i, j + k)
    decreases j
  {
    if j > 0 {
      NthAdd(objects, Up(objects, i), j - 1, k);
    }
  }

  lemma NthNext(objects: seq<Equipment>, i: nat, k: nat)
    ensures Nth(objects, i, k + 1) == Up(objects, Nth(objects, i, k))
  {
    NthAdd(objects, i, k, 1);
    assert Nth(objects, Nth(objects, i, k), 1) == Nth(objects, Up(objects, Nth(objects, i, k)), 0);
  }

  lemma {:induction false} OutOfRangeForever(objects: seq<Equipment>, i: nat, k: nat)
    requires i >= |objects| && |objects| < SIZE_MAX
    ensures Nth(objects, i, k) >= |objects|
    decreases k
  {
    if k > 0 {
      OutOfRangeForever(objects, INVALID_INDEX, k - 1);
    }
  }

  /** The first place where the chain meets `a`. */
  lemma {:induction false} FirstHit(objects: seq<Equipment>, i: nat, a: nat, bound: nat) returns (k: nat)
    requires Nth(objects, i, bound) == a
    ensures k <= bound && Nth(objects, i, k) == a
    ensures forall j | 0 <= j < k :: Nth(objects, i, j) != a
  {
    k := 0;
    while Nth(objects, i, k) != a
      invariant k <= bound
      invariant forall j | 0 <= j < k :: Nth(objects, i, j) != a
      decreases bound - k
    {
      k := k + 1;
    }
  }

  /** The pigeonhole: a chain that meets `a` at all meets it within as many steps as there are rows. */
  lemma HitsEarly(objects: seq<Equipment>, a: nat, i: nat) returns (k: nat)
    requires AncestorOrSelf(objects, a, i) && |objects| < SIZE_MAX
    ensures k < |objects| && Nth(objects, i, k) == a
    ensures forall j | 0 <= j < k :: Nth(objects, i, j) != a
  {
    var bound: nat :| Nth(objects, i, bound) == a;
    k := FirstHit(objects, i, a, bound);
    var visited := seq(k + 1, j requires 0 <= j => Nth(objects, i, j));
    forall x, y | 0 <= x < y <= k
      ensures visited[x] != visited[y]
    {
      NthAdd(objects, i, x, k - y);
      NthAdd(objects, i, y, k - y);
      assert x + (k - y) < k;
    }
    forall x | 0 <= x <= k
      ensures visited[x] < |objects|
    {
      NthAdd(objects, i, x, k - x);
      if visited[x] >= |objects| {
        OutOfRangeForever(objects, visited[x], k - x);
      }
    }
    BelowFits(visited, |objects|);
  }

  lemma AncestorSelf(objects: seq<Equipment>, i: nat)
    requires i < |objects|
    ensures AncestorOrSelf(objects, i, i)
  {
    assert Nth(objects, i, 0) == i;
  }

  lemma AncestorTransitive(objects: seq<Equipment>, a: nat, b: nat, c: nat)
    requires AncestorOrSelf(objects, a, b) && AncestorOrSelf(objects, b, c)
    ensures AncestorOrSelf(objects, a, c)
  {
    var j: nat :| Nth(objects, c, j) == b;
    var k: nat :| Nth(objects, b, k) == a;
    NthAdd(objects, c, j, k);
  }

  // ----- shared scope -----

  predicate IsTag(tags: seq<Tag>, t: nat) {
    t < |tags|
  }

  /** `a` contains the source of every one of these tags. */
  ghost predicate CommonScope(objects: seq<Equipment>, tags: seq<Tag>, indices: seq<nat>, a: nat) {
    forall p | 0 <= p < |indices| ::
      IsTag(tags, indices[p]) && AncestorOrSelf(objects, a, tags[indices[p]].equipmentIndex)
  }

  // ----- forests -----

  function Depth(objects: seq<Equipment>, i: nat): nat
    requires Forest(objects) && i < |objects|
    decreases i
  {
    if objects[i].parentIndex == INVALID_INDEX then 0 else 1 + Depth(objects, objects[i].parentIndex)
  }

  /** In a forest, moving up a chain never gets deeper, and only standing still keeps the depth. */
  lemma {:induction false} AncestorsAreShallower(objects: seq<Equipment>, a: nat, i: nat)
    requires Forest(objects) && |objects| < SIZE_MAX && i < |objects| && AncestorOrSelf(objects, a, i)
    ensures Depth(objects, a) <= Depth(objects, i)
    ensures a == i || Depth(objects, a) < Depth(objects, i)
    decreases i
  {
    if a != i {
      var k: nat :| Nth(objects, i, k) == a;
      assert k > 0;
      var parent := objects[i].parentIndex;
      if parent == INVALID_INDEX {
        OutOfRangeForever(objects, INVALID_INDEX, k - 1);
      }
      assert Nth(objects, parent, k - 1) == a;
      AncestorsAreShallower(objects, a, parent);
    }
  }

  /** The depth is the number of steps up to a root. */
  lemma {:induction false} DepthLeadsToRoot(objects: seq<Equipment>, i: nat)
    requires Forest(objects) && |objects| < SIZE_MAX && i < |objects|
    ensures IsRoot(objects, Nth(objects, i, Depth(objects, i)))
    ensures forall k: nat :: Nth(objects, i, k) < |objects| <==> k <= Depth(objects, i)
    decreases i
  {
    var parent := objects[i].parentIndex;
    if parent == INVALID_INDEX {
      forall k: nat | k > 0
        ensures Nth(objects, i, k) >= |objects|
      {
        OutOfRangeForever(objects, INVALID_INDEX, k - 1);
      }
    } else {
      DepthLeadsToRoot(objects, parent);
      forall k: nat | k > 0
        ensures Nth(objects, i, k) == Nth(objects, parent, k - 1)
      {
      }
    }
  }

  /** Every other common scope is strictly shallower. */
  ghost predicate IsDeepest(objects: seq<Equipment>, tags: seq<Tag>, indices: seq<nat>, scope: nat)
    requires Forest(objects)
  {
    forall other: nat :: CommonScope(objects, tags, indices, other) ==>
      other == scope || (other < |objects| && scope < |objects| && Depth(objects, other) < Depth(objects, scope))
  }

  /** A common scope that lies below every other one is the deepest one, and the only one that deep. */
  lemma DeepestScope(objects: seq<Equipment>, tags: seq<Tag>, indices: seq<nat>, scope: nat)
    requires Forest(objects) && |objects| < SIZE_MAX && scope < |objects| && indices != []
    requires forall other: nat :: CommonScope(objects, tags, indices, other) ==> AncestorOrSelf(objects, other, scope)
    ensures IsDeepest(objects, tags, indices, scope)
  {
    forall other: nat | CommonScope(objects, tags, indices, other)
      ensures other == scope || (other < |objects| && Depth(objects, other) < Depth(objects, scope))
    {
      AncestorsAreShallower(objects, other, scope);
    }
  }

  // ----- cards -----

  /** A row that heads a card: its parent index is no row. */
  predicate IsRoot(objects: seq<Equipment>, i: nat) {
    i < |objects| && objects[i].parentIndex >= |objects|
  }

  ghost predicate Belongs(objects: seq<Equipment>, i: nat, root: nat, flat: bool) {
    i < |objects| && IsAsset(objects[i].kind) && (flat || AncestorOrSelf(objects, root, i))
  }

  /** The assets of one kind under one root among the first n rows, in table order. */
  ghost function Row(objects: seq<Equipment>, kind: EntityKind, root: nat, flat: bool, n: nat): seq<nat> {
    if n == 0 then []
    else
      Row(objects, kind, root, flat, n - 1) +
      if Belongs(objects, n - 1, root, flat) && objects[n - 1].kind == kind then [n - 1] else []
  }

  /** One card shows active assets first, then passive ones. */
  ghost function CardNodes(objects: seq<Equipment>, root: nat, flat: bool): seq<nat> {
    Row(objects, ActiveEquipment, root, flat, |objects|) + Row(objects, PassiveEquipment, root, flat, |objects|)
  }

  /** The nodes of the cards of all roots below n, in order. */
  ghost function Shown(objects: seq<Equipment>, n: nat): seq<nat> {
    if n == 0 then []
    else Shown(objects, n - 1) + if IsRoot(objects, n - 1) then CardNodes(objects, n - 1, false) else []
  }

  lemma {:induction false} RowMeaning(objects: seq<Equipment>, kind: EntityKind, root: nat, flat: bool, n: nat)
    ensures Distinct(Row(objects, kind, root, flat, n))
    ensures forall i :: i in Row(objects, kind, root, flat, n) <==>
                        0 <= i < n && Belongs(objects, i, root, flat) && objects[i].kind == kind
  {
    if n > 0 {
      RowMeaning(objects, kind, root, flat, n - 1);
    }
  }

  /** The rows of one kind below a root, the root included; all rows of the kind on a flat card. */
  ghost function Below(objects: seq<Equipment>, kind: EntityKind, root: nat, flat: bool): set<nat> {
    set i: nat | i < |objects| && objects[i].kind == kind && (flat || AncestorOrSelf(objects, root, i))
  }

  /** A row of a card lists exactly the rows of its kind below the root, in table order. */
  lemma {:induction false} RowIsBelow(objects: seq<Equipment>, kind: EntityKind, root: nat, flat: bool)
    requires IsAsset(kind)
    ensures var row := Row(objects, kind, root, flat, |objects|);
            && |row| == |Below(objects, kind, root, flat)|
            && (forall v | 0 <= v < |row| :: row[v] in Below(objects, kind, root, flat))
            && Ascending(row, |objects|)
  {
    var row := Row(objects, kind, root, flat, |objects|);
    RowMeaning(objects, kind, root, flat, |objects|);
    RowAscends(objects, kind, root, flat, |objects|);
    forall i | i in Below(objects, kind, root, flat)
      ensures i in row
    {
      assert Belongs(objects, i, root, flat);
    }
    DistinctInSet(row, Below(objects, kind, root, flat));
  }

  lemma {:induction false} RowAscends(objects: seq<Equipment>, kind: EntityKind, root: nat, flat: bool, n: nat)
    ensures Ascending(Row(objects, kind, root, flat, n), n)
  {
    if n > 0 {
      RowAscends(objects, kind, root, flat, n - 1);
      var before, row := Row(objects, kind, root, flat, n - 1), Row(objects, kind, root, flat, n);
      assert row == before || row == before + [n - 1];
    }
  }

  lemma CardNodesMeaning(objects: seq<Equipment>, root: nat, flat: bool)
    ensures Distinct(CardNodes(objects, root, flat))
    ensures forall i: nat :: i in CardNodes(objects, root, flat) <==> Belongs(objects, i, root, flat)
  {
    var active := Row(objects, ActiveEquipment, root, flat, |objects|);
    var passive := Row(objects, PassiveEquipment, root, flat, |objects|);
    RowMeaning(objects, ActiveEquipment, root, flat, |objects|);
    RowMeaning(objects, PassiveEquipment, root, flat, |objects|);
    forall x, y | 0 <= x < y < |active + passive|
      ensures (active + passive)[x] != (active + passive)[y]
    {
      if x < |active| <= y {
        assert active[x] in active && passive[y - |active|] in passive;
      }
    }
  }

  /** No chain passes two roots. */
  lemma OneRootPerChain(objects: seq<Equipment>, r: nat, s: nat, i: nat)
    requires |objects| < SIZE_MAX && IsRoot(objects, r) && IsRoot(objects, s)
    requires AncestorOrSelf(objects, r, i) && AncestorOrSelf(objects, s, i)
    ensures r == s
  {
    var j: nat :| Nth(objects, i, j) == r;
    var k: nat :| Nth(objects, i, k) == s;
    if j < k {
      ChainEndsAtRoot(objects, i, j, k);
    } else if k < j {
      ChainEndsAtRoot(objects, i, k, j);
    }
  }

  lemma ChainEndsAtRoot(objects: seq<Equipment>, i: nat, j: nat, k: nat)
    requires |objects| < SIZE_MAX && IsRoot(objects, Nth(objects, i, j)) && j < k
    ensures Nth(objects, i, k) >= |objects|
  {
    NthNext(objects, i, j);
    NthAdd(objects, i, j + 1, k - j - 1);
    OutOfRangeForever(objects, Nth(objects, i, j + 1), k - j - 1);
  }

  /** Row i is an asset whose chain leaves the table at one of the first n rows. */
  ghost predicate IsShown(objects: seq<Equipment>, i: nat, n: nat) {
    && i < |objects| && (objects[i].kind == ActiveEquipment || objects[i].kind == PassiveEquipment)
    && exists r | 0 <= r < n && r < |objects| :: objects[r].parentIndex >= |objects| && AncestorOrSelf(objects, r, i)
  }

  /** A further root shows assets of its own. */
  lemma OtherRootOthers(objects: seq<Equipment>, n: nat, i: nat)
    requires |objects| < SIZE_MAX && IsRoot(objects, n) && IsShown(objects, i, n)
    ensures !Belongs(objects, i, n, false)
  {
    var r: nat :| r < n && r < |objects| && objects[r].parentIndex >= |objects| && AncestorOrSelf(objects, r, i);
    if Belongs(objects, i, n, false) {
      OneRootPerChain(objects, r, n, i);
    }
  }

  /** On any table, the cards of different roots share no asset. */
  lemma {:induction false} ShownMeaning(objects: seq<Equipment>, n: nat)
    requires |objects| < SIZE_MAX
    ensures Distinct(Shown(objects, n))
    ensures forall i: nat :: i in Shown(objects, n) <==> IsShown(objects, i, n)
  {
    if n > 0 {
      ShownMeaning(objects, n - 1);
      OneMoreShown(objects, n - 1, n);
    }
  }

  lemma OneMoreShown(objects: seq<Equipment>, n: nat, m: nat)
    requires |objects| < SIZE_MAX && m == n + 1 && Distinct(Shown(objects, n))
    requires forall i: nat :: i in Shown(objects, n) <==> IsShown(objects, i, n)
    ensures Distinct(Shown(objects, m))
    ensures forall i: nat :: i in Shown(objects, m) <==> IsShown(objects, i, m)
  {
    if IsRoot(objects, n) {
      var before, card := Shown(objects, n), CardNodes(objects, n, false);
      CardNodesMeaning(objects, n, false);
      forall i: nat | i in before
        ensures i !in card
      {
        OtherRootOthers(objects, n, i);
      }
      DistinctConcat(before, card);
      assert Shown(objects, m) == before + card;
    } else {
      assert Shown(objects, m) == Shown(objects, n);
    }
  }

  /** In a forest every row hangs below a root. */
  lemma {:induction false} RootOf(objects: seq<Equipment>, i: nat) returns (r: nat)
    requires Forest(objects) && |objects| < SIZE_MAX && i < |objects|
    ensures IsRoot(objects, r) && AncestorOrSelf(objects, r, i)
    decreases i
  {
    var parent := objects[i].parentIndex;
    if parent == INVALID_INDEX {
      r := i;
      AncestorSelf(objects, i);
    } else {
      r := RootOf(objects, parent);
      assert Nth(objects, i, 1) == Nth(objects, parent, 0);
      AncestorTransitive(objects, r, parent, i);
    }
  }

  ghost function AssetIndices(objects: seq<Equipment>): set<nat> {
    set i: nat | i < |objects| && IsAsset(objects[i].kind)
  }

  lemma OneMoreRow(before: seq<Equipment>, last: Equipment)
    ensures |AssetIndices(before + [last])| == |AssetIndices(before)| + if IsAsset(last.kind) then 1 else 0
  {
    var here: set<nat> := if IsAsset(last.kind) then {|before|} else {};
    assert AssetIndices(before + [last]) == AssetIndices(before) + here;
  }

  lemma {:induction false} AssetIndicesSize(objects: seq<Equipment>)
    ensures |AssetIndices(objects)| == |Assets(objects)|
  {
    if objects != [] {
      var before, last := objects[..|objects| - 1], objects[|objects| - 1];
      AssetIndicesSize(before);
      OneMoreRow(before, last);
      assert objects == before + [last];
    }
  }

  /** On any table the cards never show more nodes than there are assets, so the bindings never
      run out; on a forest they show every asset exactly once. */
  lemma CardsPartitionAssets(objects: seq<Equipment>)
    requires |objects| < SIZE_MAX
    ensures Distinct(Shown(objects, |objects|))
    ensures |Shown(objects, |objects|)| <= |Assets(objects)| <= |objects|
    ensures Forest(objects) ==>
              && (forall i: nat :: i in Shown(objects, |objects|) <==> i in AssetIndices(objects))
              && |Shown(objects, |objects|)| == |Assets(objects)|
  {
    var shown := Shown(objects, |objects|);
    ShownMeaning(objects, |objects|);
    AssetIndicesSize(objects);
    DistinctInSet(shown, AssetIndices(objects));
    AssetsBound(objects);
    if Forest(objects) {
      forall i | i in AssetIndices(objects)
        ensures i in shown
      {
        var r := RootOf(objects, i);
        assert Belongs(objects, i, r, false);
        assert IsShown(objects, i, |objects|);
      }
    }
  }

  lemma {:induction false} AssetsBound(objects: seq<Equipment>)
    ensures |Assets(objects)| <= |objects|
  {
    if objects != [] {
      AssetsBound(objects[..|objects| - 1]);
    }
  }

  /** On a forest the flat fallback card is dead code: when no root has a card there is no asset
      for the flat card either. */
  lemma FlatFallbackIsEmpty(objects: seq<Equipment>)
    requires |objects| < SIZE_MAX && Forest(objects) && Shown(objects, |objects|) == []
    ensures CardNodes(objects, 0, true) == []
  {
    CardsPartitionAssets(objects);
    CardNodesMeaning(objects, 0, true);
    AssetIndicesSize(objects);
    DistinctInSet(CardNodes(objects, 0, true), AssetIndices(objects));
  }
}
