/** The snapshot diff engine: `getNewAchievements` and
    `getPreviousAchievements`
    (server/src/api/services/internal/achievement.service.ts:181-213).
    "Now" is the parameter `now`, in milliseconds since the epoch. */
module Diff {
  import opened Seqs
  import opened Model
  import opened Catalog

  /** A definition crossed: it fails on the previous snapshot and holds on
      the current one. */
  predicate Crossed(cfg: Config, d: Definition, current: Snapshot, previous: Snapshot) {
    !Holds(cfg, d, previous) && Holds(cfg, d, current)
  }

  /** Epoch 0 when the previous value was untracked, otherwise now. */
  function DetectionDate(cfg: Config, previous: Snapshot, d: Definition, now: int): int {
    if IsUntracked(cfg, previous, d.metric) then EpochZero else now
  }

  /** The definitions of a list of dated definitions. */
  function DefsOf(r: seq<Dated>): (defs: seq<Definition>)
    ensures |defs| == |r|
    ensures forall i | 0 <= i < |r| :: defs[i] == r[i].def
  {
    seq(|r|, i requires 0 <= i < |r| => r[i].def)
  }

  /** `getNewAchievements(current, previous)`: nothing when a snapshot is
      missing; otherwise each result crossed between the two snapshots and is
      dated epoch 0 when the previous value of its metric was untracked and
      `now` otherwise. `NewAchievementsExact` says which definitions it
      keeps. */
  function NewAchievements(cfg: Config, current: Option<Snapshot>, previous: Option<Snapshot>, now: int): (r: seq<Dated>)
    requires ValidConfig(cfg)
    ensures current.None? || previous.None? ==> r == []
    ensures forall i | 0 <= i < |r| ::
      && current.Some? && previous.Some?
      && Crossed(cfg, r[i].def, current.value, previous.value)
      && r[i].createdAt == DetectionDate(cfg, previous.value, r[i].def, now)
  {
    if current.None? || previous.None? then []
    else
      var sel := Select(Definitions(cfg), (d: Definition) => Crossed(cfg, d, current.value, previous.value));
      assert forall i | 0 <= i < |sel| :: sel[i] in sel;
      seq(|sel|, i requires 0 <= i < |sel| => Dated(sel[i], DetectionDate(cfg, previous.value, sel[i], now)))
  }

  /** The definitions `getNewAchievements` keeps: in catalog order, exactly
      those false on `previous` and true on `current`, each as often as the
      catalog lists it. */
  lemma NewAchievementsExact(cfg: Config, current: Snapshot, previous: Snapshot, now: int)
    requires ValidConfig(cfg)
    ensures var r := NewAchievements(cfg, Some(current), Some(previous), now);
      && IsSubsequence(DefsOf(r), Definitions(cfg))
      && (forall i | 0 <= i < |r| :: r[i].def in Definitions(cfg))
      && (forall d | d in Definitions(cfg) ::
            multiset(DefsOf(r))[d] == if Crossed(cfg, d, current, previous) then multiset(Definitions(cfg))[d] else 0)
  {
    NewAchievementsDefs(cfg, current, previous, now);
    SelectExact(Definitions(cfg), (d: Definition) => Crossed(cfg, d, current, previous));
  }

  lemma NewAchievementsDefs(cfg: Config, current: Snapshot, previous: Snapshot, now: int)
    requires ValidConfig(cfg)
    ensures DefsOf(NewAchievements(cfg, Some(current), Some(previous), now))
         == Select(Definitions(cfg), (d: Definition) => Crossed(cfg, d, current, previous))
  {
  }

  /** `getPreviousAchievements(snapshot)`: nothing for a missing snapshot;
      otherwise each result holds on the snapshot and is dated epoch 0.
      `PreviousAchievementsExact` says which definitions it keeps. */
  function PreviousAchievements(cfg: Config, snapshot: Option<Snapshot>): (r: seq<Dated>)
    requires ValidConfig(cfg)
    ensures snapshot.None? ==> r == []
    ensures forall i | 0 <= i < |r| ::
      && snapshot.Some?
      && Holds(cfg, r[i].def, snapshot.value)
      && r[i].createdAt == EpochZero
  {
    if snapshot.None? then []
    else
      var sel := Select(Definitions(cfg), (d: Definition) => Holds(cfg, d, snapshot.value));
      assert forall i | 0 <= i < |sel| :: sel[i] in sel;
      seq(|sel|, i requires 0 <= i < |sel| => Dated(sel[i], EpochZero))
  }

  /** The definitions `getPreviousAchievements` keeps: in catalog order,
      exactly those that hold on the snapshot, each as often as the catalog
      lists it. */
  lemma PreviousAchievementsExact(cfg: Config, snapshot: Snapshot)
    requires ValidConfig(cfg)
    ensures var r := PreviousAchievements(cfg, Some(snapshot));
      && IsSubsequence(DefsOf(r), Definitions(cfg))
      && (forall i | 0 <= i < |r| :: r[i].def in Definitions(cfg))
      && (forall d | d in Definitions(cfg) ::
            multiset(DefsOf(r))[d] == if Holds(cfg, d, snapshot) then multiset(Definitions(cfg))[d] else 0)
  {
    PreviousAchievementsDefs(cfg, snapshot);
    SelectExact(Definitions(cfg), (d: Definition) => Holds(cfg, d, snapshot));
  }

  lemma PreviousAchievementsDefs(cfg: Config, snapshot: Snapshot)
    requires ValidConfig(cfg)
    ensures DefsOf(PreviousAchievements(cfg, Some(snapshot)))
         == Select(Definitions(cfg), (d: Definition) => Holds(cfg, d, snapshot))
  {
  }

  /** Every catalog definition that crossed is reported. */
  lemma NewAchievementsComplete(cfg: Config, current: Snapshot, previous: Snapshot, now: int, d: Definition)
    requires ValidConfig(cfg)
    requires d in Definitions(cfg) && Crossed(cfg, d, current, previous)
    ensures exists i | 0 <= i < |NewAchievements(cfg, Some(current), Some(previous), now)| ::
              NewAchievements(cfg, Some(current), Some(previous), now)[i].def == d
  {
    var r := NewAchievements(cfg, Some(current), Some(previous), now);
    NewAchievementsExact(cfg, current, previous, now);
    assert multiset(DefsOf(r))[d] > 0;
    var i :| 0 <= i < |r| && DefsOf(r)[i] == d;
  }

  /** Every catalog definition that holds on the snapshot is reported. */
  lemma PreviousAchievementsComplete(cfg: Config, snapshot: Snapshot, d: Definition)
    requires ValidConfig(cfg)
    requires d in Definitions(cfg) && Holds(cfg, d, snapshot)
    ensures exists i | 0 <= i < |PreviousAchievements(cfg, Some(snapshot))| ::
              PreviousAchievements(cfg, Some(snapshot))[i].def == d
  {
    var r := PreviousAchievements(cfg, Some(snapshot));
    PreviousAchievementsExact(cfg, snapshot);
    assert multiset(DefsOf(r))[d] > 0;
    var i :| 0 <= i < |r| && DefsOf(r)[i] == d;
  }

  /** Diffing a snapshot with itself gives nothing. */
  lemma NoSelfCrossing(cfg: Config, s: Snapshot, now: int)
    requires ValidConfig(cfg)
    ensures NewAchievements(cfg, Some(s), Some(s), now) == []
  {
    SelectNone(Definitions(cfg), (d: Definition) => Crossed(cfg, d, s, s));
  }

  /** A newly crossed definition is never part of the baseline of the
      previous snapshot and always part of the baseline of the current one,
      and every definition of the baseline of the current snapshot is either
      in the baseline of the previous one or newly crossed. (The current
      baseline need not contain the previous one: a value that falls back to
      untracked drops out.) */
  lemma NewAndBaselinePartition(cfg: Config, current: Snapshot, previous: Snapshot, now: int, d: Definition)
    requires ValidConfig(cfg)
    ensures d in DefsOf(NewAchievements(cfg, Some(current), Some(previous), now)) ==>
              d !in DefsOf(PreviousAchievements(cfg, Some(previous))) &&
              d in DefsOf(PreviousAchievements(cfg, Some(current)))
    ensures d in DefsOf(PreviousAchievements(cfg, Some(current))) ==>
              d in DefsOf(PreviousAchievements(cfg, Some(previous))) ||
              d in DefsOf(NewAchievements(cfg, Some(current), Some(previous), now))
  {
    var news := DefsOf(NewAchievements(cfg, Some(current), Some(previous), now));
    var before := DefsOf(PreviousAchievements(cfg, Some(previous)));
    var after := DefsOf(PreviousAchievements(cfg, Some(current)));
    if d in news {
      var i :| 0 <= i < |news| && news[i] == d;
      assert !Holds(cfg, d, previous);
      forall j | 0 <= j < |before| ensures before[j] != d {
        assert Holds(cfg, before[j], previous);
      }
      NewAchievementsExact(cfg, current, previous, now);
      assert d in Definitions(cfg) && Holds(cfg, d, current);
      PreviousAchievementsExact(cfg, current);
      assert multiset(Definitions(cfg))[d] > 0;
      assert multiset(after)[d] > 0;
    }
    if d in after {
      var defs := Definitions(cfg);
      PreviousAchievementsExact(cfg, current);
      var i :| 0 <= i < |after| && after[i] == d;
      assert d in defs && Holds(cfg, d, current);
      assert multiset(defs)[d] > 0;
      if !Holds(cfg, d, previous) {
        NewAchievementsExact(cfg, current, previous, now);
        assert multiset(news)[d] > 0;
      } else {
        PreviousAchievementsExact(cfg, previous);
        assert multiset(before)[d] > 0;
      }
    }
  }
}
