/** The slots of the panel's alarm table as values: what each operation does to the
    sequence of used slots, and the map that the slots stand for. */
module AlarmTable {
  import opened Collections

  const MAX_ALARMS := 32

  datatype AlarmKey = AlarmKey(source: string, code: string)

  datatype Alarm = Alarm(source: string, sourceName: string, code: string, reason: string, severity: nat,
                         active: bool) {
    function Key(): AlarmKey {
      AlarmKey(source, code)
    }

    predicate Named() {
      source != "" && code != ""
    }
  }

  const BLANK_ALARM := Alarm("", "", "", "", 0, false)

  // ----- one update -----

  datatype Verdict = Stored | Ignored | TableFull | Unnamed

  datatype Update = Update(verdict: Verdict, slots: seq<Alarm>)

  /** The first slot with this key, or the number of slots. */
  function SlotOf(slots: seq<Alarm>, key: AlarmKey): nat {
    if slots == [] || slots[0].Key() == key then 0 else 1 + SlotOf(slots[1..], key)
  }

  /** A known key is overwritten; a new key takes a slot only when active; slots are never freed. */
  function Apply(slots: seq<Alarm>, a: Alarm): Update {
    SlotOfBounds(slots, a.Key());
    var i := SlotOf(slots, a.Key());
    if !a.Named() then Update(Unnamed, slots)
    else if i < |slots| then Update(Stored, slots[i := a])
    else if !a.active then Update(Ignored, slots)
    else if |slots| >= MAX_ALARMS then Update(TableFull, slots)
    else Update(Stored, slots + [a])
  }

  lemma {:induction false} SlotOfBounds(slots: seq<Alarm>, key: AlarmKey)
    ensures SlotOf(slots, key) <= |slots|
    ensures SlotOf(slots, key) < |slots| ==> slots[SlotOf(slots, key)].Key() == key
    ensures forall i | 0 <= i < SlotOf(slots, key) :: slots[i].Key() != key
  {
    if slots != [] && slots[0].Key() != key {
      SlotOfBounds(slots[1..], key);
      forall i | 0 <= i < SlotOf(slots, key)
        ensures slots[i].Key() != key
      {
        assert i > 0 ==> slots[i] == slots[1..][i - 1];
      }
    }
  }

  // ----- the map behind the slots -----

  ghost predicate UniqueKeys(slots: seq<Alarm>) {
    forall i, j | 0 <= i < j < |slots| :: slots[i].Key() != slots[j].Key()
  }

  ghost predicate ValidSlots(slots: seq<Alarm>) {
    UniqueKeys(slots) && |slots| <= MAX_ALARMS
  }

  /** Later slots win, which never matters while keys are unique. */
  function Contents(slots: seq<Alarm>): map<AlarmKey, Alarm> {
    if slots == [] then map[]
    else Contents(slots[..|slots| - 1])[slots[|slots| - 1].Key() := slots[|slots| - 1]]
  }

  lemma LastKeyIsNew(before: seq<Alarm>, last: Alarm)
    requires UniqueKeys(before + [last])
    ensures UniqueKeys(before) && forall i | 0 <= i < |before| :: before[i].Key() != last.Key()
  {
    var slots := before + [last];
    forall i | 0 <= i < |before|
      ensures before[i].Key() != last.Key()
    {
      assert slots[i].Key() != slots[|before|].Key();
    }
    forall i, j | 0 <= i < j < |before|
      ensures before[i].Key() != before[j].Key()
    {
      assert slots[i].Key() != slots[j].Key();
    }
  }

  lemma {:induction false} NoSlotNoKey(slots: seq<Alarm>, key: AlarmKey)
    requires forall i | 0 <= i < |slots| :: slots[i].Key() != key
    ensures key !in Contents(slots)
  {
    if slots != [] {
      NoSlotNoKey(slots[..|slots| - 1], key);
    }
  }

  lemma {:induction false} SlotInContents(slots: seq<Alarm>, i: nat)
    requires UniqueKeys(slots) && i < |slots|
    ensures slots[i].Key() in Contents(slots) && Contents(slots)[slots[i].Key()] == slots[i]
  {
    var before, last := slots[..|slots| - 1], slots[|slots| - 1];
    if i < |before| {
      SlotInContents(before, i);
      assert before[i].Key() != last.Key();
    }
  }

  lemma {:induction false} ContentsInSlots(slots: seq<Alarm>, k: AlarmKey)
    requires k in Contents(slots)
    ensures Contents(slots)[k] in slots && Contents(slots)[k].Key() == k
  {
    var before, last := slots[..|slots| - 1], slots[|slots| - 1];
    if k != last.Key() {
      ContentsInSlots(before, k);
      assert forall a | a in before :: a in slots;
    }
  }

  lemma {:induction false} ContentsSize(slots: seq<Alarm>)
    requires UniqueKeys(slots)
    ensures |Contents(slots)| == |slots|
  {
    if slots != [] {
      var before, last := slots[..|slots| - 1], slots[|slots| - 1];
      assert slots == before + [last];
      LastKeyIsNew(before, last);
      ContentsSize(before);
      NoSlotNoKey(before, last.Key());
    }
  }

  lemma ContentsOfSlots(slots: seq<Alarm>)
    requires UniqueKeys(slots)
    ensures forall i | 0 <= i < |slots| ::
              slots[i].Key() in Contents(slots) && Contents(slots)[slots[i].Key()] == slots[i]
    ensures forall k | k in Contents(slots) :: Contents(slots)[k] in slots && Contents(slots)[k].Key() == k
    ensures |Contents(slots)| == |slots|
  {
    ContentsSize(slots);
    forall i | 0 <= i < |slots|
      ensures slots[i].Key() in Contents(slots) && Contents(slots)[slots[i].Key()] == slots[i]
    {
      SlotInContents(slots, i);
    }
    forall k | k in Contents(slots)
      ensures Contents(slots)[k] in slots && Contents(slots)[k].Key() == k
    {
      ContentsInSlots(slots, k);
    }
  }

  lemma SlotOfIsLookup(slots: seq<Alarm>, key: AlarmKey)
    requires UniqueKeys(slots)
    ensures SlotOf(slots, key) < |slots| <==> key in Contents(slots)
  {
    SlotOfBounds(slots, key);
    ContentsOfSlots(slots);
    if key in Contents(slots) {
      var i :| 0 <= i < |slots| && slots[i] == Contents(slots)[key];
    }
  }

  lemma {:induction false} OverwriteContents(slots: seq<Alarm>, i: nat, a: Alarm)
    requires UniqueKeys(slots) && i < |slots| && slots[i].Key() == a.Key()
    ensures Contents(slots[i := a]) == Contents(slots)[a.Key() := a]
  {
    var before, last := slots[..|slots| - 1], slots[|slots| - 1];
    if i < |before| {
      OverwriteContents(before, i, a);
      assert slots[i := a][..|before|] == before[i := a];
      assert last.Key() != a.Key();
    } else {
      assert slots[i := a][..|before|] == before;
    }
  }

  /** The slots are a map from key to last update: an update is stored exactly when its key is
      known or it is active and a slot is free, and changes no other key. */
  lemma ApplyRefinesMap(slots: seq<Alarm>, a: Alarm)
    requires ValidSlots(slots) && a.Named()
    ensures var u := Apply(slots, a);
            && ValidSlots(u.slots)
            && Contents(u.slots) == (if u.verdict == Stored then Contents(slots)[a.Key() := a] else Contents(slots))
            && (u.verdict == Stored <==> a.Key() in Contents(slots) || (a.active && |Contents(slots)| < MAX_ALARMS))
            && (u.verdict == TableFull <==> a.Key() !in Contents(slots) && a.active && |Contents(slots)| == MAX_ALARMS)
  {
    ApplyKeepsKeysUnique(slots, a);
    SlotOfIsLookup(slots, a.Key());
    assert |Contents(slots)| == |slots| by { ContentsOfSlots(slots); }
    var i := SlotOf(slots, a.Key());
    if i < |slots| {
      SlotOfBounds(slots, a.Key());
      OverwriteContents(slots, i, a);
    } else {
      assert (slots + [a])[..|slots|] == slots;
    }
  }

  lemma ApplyKeepsKeysUnique(slots: seq<Alarm>, a: Alarm)
    requires UniqueKeys(slots)
    ensures UniqueKeys(Apply(slots, a).slots)
  {
    SlotOfBounds(slots, a.Key());
    var after := Apply(slots, a).slots;
    assert forall j | 0 <= j < |slots| && j != SlotOf(slots, a.Key()) :: after[j] == slots[j];
  }

  // ----- whole histories since the last clear -----

  /** The slots after these updates, in order, starting with an empty table. */
  function History(updates: seq<Alarm>): seq<Alarm> {
    if updates == [] then [] else Apply(History(updates[..|updates| - 1]), updates[|updates| - 1]).slots
  }

  ghost predicate AllNamed(updates: seq<Alarm>) {
    forall a | a in updates :: a.Named()
  }

  /** Some update ran into a full table. */
  ghost predicate EverFull(updates: seq<Alarm>) {
    exists i | 0 <= i < |updates| :: Refused(updates, i)
  }

  predicate Refused(updates: seq<Alarm>, i: nat)
    requires i < |updates|
  {
    Apply(History(updates[..i]), updates[i]).verdict == TableFull
  }

  ghost function ActiveKeys(updates: seq<Alarm>): set<AlarmKey> {
    set a | a in updates && a.active :: a.Key()
  }

  /** The last update that names this key. */
  function LastFor(updates: seq<Alarm>, key: AlarmKey): Alarm {
    if updates == [] then BLANK_ALARM
    else if updates[|updates| - 1].Key() == key then updates[|updates| - 1]
    else LastFor(updates[..|updates| - 1], key)
  }

  lemma {:induction false} HistoryIsValid(updates: seq<Alarm>)
    requires AllNamed(updates)
    ensures ValidSlots(History(updates))
  {
    if updates != [] {
      HistoryIsValid(updates[..|updates| - 1]);
      ApplyRefinesMap(History(updates[..|updates| - 1]), updates[|updates| - 1]);
    }
  }

  lemma NotFullBefore(updates: seq<Alarm>)
    requires updates != [] && !EverFull(updates)
    ensures !EverFull(updates[..|updates| - 1])
    ensures Apply(History(updates[..|updates| - 1]), updates[|updates| - 1]).verdict != TableFull
  {
    var before := updates[..|updates| - 1];
    forall i | 0 <= i < |before|
      ensures !Refused(before, i)
    {
      assert before[..i] == updates[..i];
      assert !Refused(updates, i);
    }
    assert !Refused(updates, |before|);
  }

  /** The map holds exactly the keys that have ever been active, each with the last update that
      named it. */
  ghost predicate IsUpToDate(held: map<AlarmKey, Alarm>, updates: seq<Alarm>) {
    && held.Keys == ActiveKeys(updates)
    && forall k | k in held :: held[k] == LastFor(updates, k)
  }

  lemma StaysUpToDate(held: map<AlarmKey, Alarm>, updates: seq<Alarm>, a: Alarm)
    requires IsUpToDate(held, updates)
    ensures IsUpToDate(if a.Key() in held || a.active then held[a.Key() := a] else held, updates + [a])
  {
    ActiveKeysGrow(updates, a);
    assert (updates + [a])[..|updates|] == updates;
  }

  /** The table is up to date until an update is refused. */
  lemma {:induction false} HistoryRefinesMap(updates: seq<Alarm>)
    requires AllNamed(updates) && !EverFull(updates)
    ensures ValidSlots(History(updates)) && IsUpToDate(Contents(History(updates)), updates)
  {
    if updates != [] {
      var before, a := updates[..|updates| - 1], updates[|updates| - 1];
      assert updates == before + [a];
      NotFullBefore(updates);
      HistoryRefinesMap(before);
      ApplyRefinesMap(History(before), a);
      StaysUpToDate(Contents(History(before)), before, a);
    }
  }

  /** An update is refused in some history exactly when more than MAX_ALARMS different keys have
      been active in it, however few of them are active at the same time. */
  lemma FullExactlyWhenTooManyKeys(updates: seq<Alarm>)
    requires AllNamed(updates)
    ensures EverFull(updates) <==> |ActiveKeys(updates)| > MAX_ALARMS
  {
    if !EverFull(updates) {
      HistoryRefinesMap(updates);
      ContentsOfSlots(History(updates));
      assert |Contents(History(updates))| == |Contents(History(updates)).Keys|;
    } else {
      TooManyKeys(updates);
    }
  }

  lemma ActiveKeysGrow(updates: seq<Alarm>, a: Alarm)
    ensures ActiveKeys(updates + [a]) == ActiveKeys(updates) + (if a.active then {a.Key()} else {})
  {
    forall b | b in updates
      ensures b in updates + [a]
    {
    }
  }

  lemma {:induction false} TooManyKeys(updates: seq<Alarm>)
    requires AllNamed(updates) && EverFull(updates)
    ensures |ActiveKeys(updates)| > MAX_ALARMS
  {
    var before, a := updates[..|updates| - 1], updates[|updates| - 1];
    assert updates == before + [a];
    ActiveKeysGrow(before, a);
    if EverFull(before) {
      TooManyKeys(before);
      SubsetSize(ActiveKeys(before), ActiveKeys(updates));
    } else {
      FullAtTheEnd(updates);
      HistoryRefinesMap(before);
      ApplyRefinesMap(History(before), a);
      assert |Contents(History(before))| == |Contents(History(before)).Keys|;
      assert a.Key() !in ActiveKeys(before);
    }
  }

  lemma FullAtTheEnd(updates: seq<Alarm>)
    requires EverFull(updates) && updates != [] && !EverFull(updates[..|updates| - 1])
    ensures Apply(History(updates[..|updates| - 1]), updates[|updates| - 1]).verdict == TableFull
  {
    var before := updates[..|updates| - 1];
    var i :| 0 <= i < |updates| && Refused(updates, i);
    forall j | 0 <= j < |before|
      ensures !Refused(updates, j)
    {
      assert updates[..j] == before[..j];
      assert !Refused(before, j);
    }
    assert i == |before|;
  }

  // ----- the active ones -----

  function ActiveOnes(slots: seq<Alarm>): seq<Alarm> {
    if slots == [] then []
    else if slots[|slots| - 1].active then ActiveOnes(slots[..|slots| - 1]) + [slots[|slots| - 1]]
    else ActiveOnes(slots[..|slots| - 1])
  }

  /** The dense enumeration lists every active alarm, nothing else, and no key twice. */
  lemma {:induction false} ActiveOnesMeaning(slots: seq<Alarm>)
    ensures forall a :: a in ActiveOnes(slots) <==> a in slots && a.active
    ensures UniqueKeys(slots) ==> UniqueKeys(ActiveOnes(slots))
    ensures |ActiveOnes(slots)| <= |slots|
  {
    if slots != [] {
      var before, last := slots[..|slots| - 1], slots[|slots| - 1];
      assert slots == before + [last];
      ActiveOnesMeaning(before);
      if UniqueKeys(slots) && last.active {
        forall a | a in ActiveOnes(before)
          ensures a.Key() != last.Key()
        {
          var i :| 0 <= i < |before| && before[i] == a;
          assert slots[i] == a;
        }
      }
    }
  }

  lemma {:induction false} ActiveOnesGrow(slots: seq<Alarm>, i: nat, j: nat)
    requires i <= j <= |slots|
    ensures ActiveOnes(slots[..i]) <= ActiveOnes(slots[..j])
  {
    if i < j {
      ActiveOnesGrow(slots, i, j - 1);
      assert slots[..j][..j - 1] == slots[..j - 1];
    }
  }

  // ----- what the operator sees -----

  /** The alarms shown as active, by key. */
  function ShownActive(slots: seq<Alarm>): map<AlarmKey, Alarm> {
    map k | k in Contents(slots) && Contents(slots)[k].active :: Contents(slots)[k]
  }

  /** The alarms raised and not cleared since by these updates, with no table to fit in. */
  function Standing(updates: seq<Alarm>): map<AlarmKey, Alarm> {
    if updates == [] then map[]
    else
      var before, a := Standing(updates[..|updates| - 1]), updates[|updates| - 1];
      if a.active then before[a.Key() := a] else before - {a.Key()}
  }

  lemma {:induction false} StandingIsLast(updates: seq<Alarm>, key: AlarmKey)
    ensures key in Standing(updates) <==> LastFor(updates, key).active
    ensures key in Standing(updates) ==> Standing(updates)[key] == LastFor(updates, key) && key in ActiveKeys(updates)
  {
    if updates != [] {
      var before, a := updates[..|updates| - 1], updates[|updates| - 1];
      StandingIsLast(before, key);
      ActiveKeysGrow(before, a);
      assert updates == before + [a];
    }
  }

  lemma ShowsStanding(updates: seq<Alarm>)
    requires AllNamed(updates) && !EverFull(updates)
    ensures ShownActive(History(updates)) == Standing(updates)
  {
    HistoryRefinesMap(updates);
    var shown, standing := ShownActive(History(updates)), Standing(updates);
    forall k
      ensures k in shown <==> k in standing
      ensures k in shown ==> shown[k] == standing[k]
    {
      StandingIsLast(updates, k);
    }
    assert shown == standing;
  }

  /** The list holds every value of the map under its own key, once, and nothing else. */
  ghost predicate Lists(alarms: seq<Alarm>, m: map<AlarmKey, Alarm>) {
    && UniqueKeys(alarms) && |alarms| == |m|
    && (forall i | 0 <= i < |alarms| :: alarms[i].Key() in m && m[alarms[i].Key()] == alarms[i])
    && (forall k | k in m :: m[k] in alarms && m[k].Key() == k)
  }

  lemma ListsOneMap(alarms: seq<Alarm>, m: map<AlarmKey, Alarm>, n: map<AlarmKey, Alarm>)
    requires Lists(alarms, m) && Lists(alarms, n)
    ensures m == n
  {
    forall k | k in m
      ensures k in n && n[k] == m[k]
    {
      var i :| 0 <= i < |alarms| && alarms[i] == m[k];
    }
    forall k | k in n
      ensures k in m
    {
      var i :| 0 <= i < |alarms| && alarms[i] == n[k];
    }
  }

  lemma ListsContents(alarms: seq<Alarm>)
    requires UniqueKeys(alarms)
    ensures Lists(alarms, Contents(alarms))
  {
    ContentsOfSlots(alarms);
  }

  lemma ShownIsActive(slots: seq<Alarm>, k: AlarmKey)
    requires UniqueKeys(slots)
    ensures k in ShownActive(slots) ==> ShownActive(slots)[k] in ActiveOnes(slots) && ShownActive(slots)[k].Key() == k
  {
    ActiveOnesMeaning(slots);
    ContentsOfSlots(slots);
  }

  lemma ActiveIsShown(slots: seq<Alarm>, a: Alarm)
    requires UniqueKeys(slots) && a in ActiveOnes(slots)
    ensures a.Key() in ShownActive(slots) && ShownActive(slots)[a.Key()] == a
  {
    ActiveOnesMeaning(slots);
    ContentsOfSlots(slots);
    var j :| 0 <= j < |slots| && slots[j] == a;
  }

  /** The map of the enumerated alarms is the map of those shown as active. */
  lemma ShownIsContents(slots: seq<Alarm>)
    requires UniqueKeys(slots) && UniqueKeys(ActiveOnes(slots))
    ensures Contents(ActiveOnes(slots)) == ShownActive(slots)
  {
    var ones, shown := ActiveOnes(slots), ShownActive(slots);
    ContentsOfSlots(ones);
    forall k | k in shown
      ensures k in Contents(ones) && Contents(ones)[k] == shown[k]
    {
      ShownIsActive(slots, k);
      var i :| 0 <= i < |ones| && ones[i] == shown[k];
    }
    forall k | k in Contents(ones)
      ensures k in shown
    {
      ActiveIsShown(slots, Contents(ones)[k]);
    }
  }

  /** The dense enumeration lists the alarms shown as active. */
  lemma ActiveOnesListShown(slots: seq<Alarm>)
    requires UniqueKeys(slots)
    ensures Lists(ActiveOnes(slots), ShownActive(slots))
  {
    ActiveOnesMeaning(slots);
    ListsContents(ActiveOnes(slots));
    ShownIsContents(slots);
  }

  /** What GetActiveAlarm enumerates is, after every update, what stands. */
  ghost predicate AlwaysShowsStanding(updates: seq<Alarm>) {
    forall i | 0 <= i <= |updates| :: Lists(ActiveOnes(History(updates[..i])), Standing(updates[..i]))
  }

  lemma ShownIsListed(updates: seq<Alarm>)
    requires AllNamed(updates)
    ensures Lists(ActiveOnes(History(updates)), Standing(updates)) <==>
            ShownActive(History(updates)) == Standing(updates)
  {
    HistoryIsValid(updates);
    ActiveOnesListShown(History(updates));
    if Lists(ActiveOnes(History(updates)), Standing(updates)) {
      ListsOneMap(ActiveOnes(History(updates)), ShownActive(History(updates)), Standing(updates));
    }
  }

  /** At every moment the enumeration of the table is exactly the standing alarms, with their last
      contents, if and only if no more than MAX_ALARMS different keys are ever active. */
  lemma ShowsStandingExactlyWhenFewKeys(updates: seq<Alarm>)
    requires AllNamed(updates)
    ensures AlwaysShowsStanding(updates) <==> |ActiveKeys(updates)| <= MAX_ALARMS
  {
    FullExactlyWhenTooManyKeys(updates);
    if EverFull(updates) {
      var i :| 0 <= i < |updates| && Refused(updates, i);
      LostWhenRefused(updates, i);
      assert AllNamed(updates[..i + 1]);
      ShownIsListed(updates[..i + 1]);
      assert !Lists(ActiveOnes(History(updates[..i + 1])), Standing(updates[..i + 1]));
    } else {
      forall i | 0 <= i <= |updates|
        ensures Lists(ActiveOnes(History(updates[..i])), Standing(updates[..i]))
      {
        PrefixNotFull(updates, i);
        ShowsStanding(updates[..i]);
        ShownIsListed(updates[..i]);
      }
    }
  }

  lemma ShowsStandingNow(updates: seq<Alarm>)
    requires AlwaysShowsStanding(updates)
    ensures Lists(ActiveOnes(History(updates)), Standing(updates))
  {
    assert updates[..|updates|] == updates;
  }

  lemma PrefixNotFull(updates: seq<Alarm>, i: nat)
    requires i <= |updates| && !EverFull(updates)
    ensures !EverFull(updates[..i])
  {
    forall j | 0 <= j < |updates[..i]|
      ensures !Refused(updates[..i], j)
    {
      assert updates[..i][..j] == updates[..j];
      assert !Refused(updates, j);
    }
  }

  lemma LostWhenRefused(updates: seq<Alarm>, i: nat)
    requires AllNamed(updates) && i < |updates| && Refused(updates, i)
    ensures updates[i].Key() in Standing(updates[..i + 1])
    ensures updates[i].Key() !in ShownActive(History(updates[..i + 1]))
  {
    var before, a := updates[..i], updates[i];
    assert updates[..i + 1][..i] == before && updates[..i + 1][i] == a;
    HistoryIsValid(before);
    ApplyRefinesMap(History(before), a);
  }
}
