/** The Achievement table and the reconciliation operations on it:
    `syncAchievements`, `reevaluateAchievements` and `getPlayerAchievements`
    (server/src/api/services/internal/achievement.service.ts:220-322).

    The table is a sequence of rows in insertion order. Its unique constraint
    is on (playerId, type): a bulk insert skips every row whose key is
    already stored, including one stored earlier in the same batch. */
module Store {
  import opened Seqs
  import opened Model
  import opened Catalog
  import opened Diff
  import opened Backfill

  /** How many snapshots `syncAchievements` reads. */
  const SyncLimit: nat := 10

  function Key(a: Achievement): (int, string) {
    (a.playerId, a.kind)
  }

  function Keys(rows: seq<Achievement>): set<(int, string)> {
    set a | a in rows :: Key(a)
  }

  lemma KeysAppend(a: seq<Achievement>, x: Achievement)
    ensures Keys(a + [x]) == Keys(a) + {Key(x)}
  {
    forall k | k in Keys(a + [x]) ensures k in Keys(a) + {Key(x)} {
      var y :| y in a + [x] && Key(y) == k;
    }
    assert x in a + [x];
    forall k | k in Keys(a) ensures k in Keys(a + [x]) {
      var y :| y in a && Key(y) == k;
      assert y in a + [x];
    }
  }

  /** The types among some rows. */
  function KindsOf(rows: seq<Achievement>): set<string> {
    set a | a in rows :: a.kind
  }

  /** No two rows share a (playerId, type) key. */
  predicate UniqueKeys(rows: seq<Achievement>) {
    forall i, j | 0 <= i < j < |rows| :: Key(rows[i]) != Key(rows[j])
  }

  /** A bulk insert that ignores duplicates: the rows are appended
      in batch order, except those whose key is already stored. The stored
      rows stay as they are and every appended row comes from the batch;
      `InsertAllKeys` gives the keys afterwards. */
  function InsertAll(rows: seq<Achievement>, batch: seq<Achievement>): (r: seq<Achievement>)
    ensures |rows| <= |r| && r[..|rows|] == rows
    ensures forall x | x in r[|rows|..] :: x in batch
  {
    if batch == [] then rows
    else
      var init, last := batch[..|batch| - 1], batch[|batch| - 1];
      var r' := InsertAll(rows, init);
      if Key(last) in Keys(r') then r'
      else
        var r := r' + [last];
        assert r[..|rows|] == r'[..|rows|];
        assert r[|rows|..] == r'[|rows|..] + [last];
        r
  }

  /** After a bulk insert the keys are those of the table and the batch
      together. */
  lemma {:induction false} InsertAllKeys(rows: seq<Achievement>, batch: seq<Achievement>)
    ensures Keys(InsertAll(rows, batch)) == Keys(rows) + Keys(batch)
  {
    if batch != [] {
      var init, last := batch[..|batch| - 1], batch[|batch| - 1];
      assert batch == init + [last];
      KeysAppend(init, last);
      InsertAllKeys(rows, init);
      var r' := InsertAll(rows, init);
      if Key(last) !in Keys(r') {
        KeysAppend(r', last);
      }
    }
  }

  /** Inserting one more row of the batch. */
  lemma InsertAllStep(rows: seq<Achievement>, batch: seq<Achievement>, j: nat)
    requires j < |batch|
    ensures var r := InsertAll(rows, batch[..j]);
      InsertAll(rows, batch[..j + 1]) == if Key(batch[j]) in Keys(r) then r else r + [batch[j]]
  {
    assert batch[..j + 1][..j] == batch[..j];
  }

  /** A bulk insert keeps keys unique. */
  lemma {:induction false} InsertAllUnique(rows: seq<Achievement>, batch: seq<Achievement>)
    requires UniqueKeys(rows)
    ensures UniqueKeys(InsertAll(rows, batch))
  {
    if batch != [] {
      var init, last := batch[..|batch| - 1], batch[|batch| - 1];
      InsertAllUnique(rows, init);
      var r' := InsertAll(rows, init);
      if Key(last) !in Keys(r') {
        var r := r' + [last];
        forall i, j | 0 <= i < j < |r| ensures Key(r[i]) != Key(r[j]) {
          if j == |r'| {
            assert r[i] in r';
          } else {
            assert r[i] == r'[i] && r[j] == r'[j];
          }
        }
      }
    }
  }

  /** Inserting rows whose keys are all stored changes nothing. */
  lemma {:induction false} InsertAllPresent(rows: seq<Achievement>, batch: seq<Achievement>)
    requires Keys(batch) <= Keys(rows)
    ensures InsertAll(rows, batch) == rows
  {
    if batch != [] {
      var init, last := batch[..|batch| - 1], batch[|batch| - 1];
      assert batch == init + [last];
      KeysAppend(init, last);
      InsertAllPresent(rows, init);
    }
  }

  /** Repeating a bulk insert adds nothing. */
  lemma InsertAllIdempotent(rows: seq<Achievement>, batch: seq<Achievement>)
    ensures InsertAll(InsertAll(rows, batch), batch) == InsertAll(rows, batch)
  {
    InsertAllKeys(rows, batch);
    InsertAllPresent(InsertAll(rows, batch), batch);
  }

  /** Dropping the last row keeps keys unique, and the last row's key is
      not among the others. */
  lemma UniqueKeysInit(s: seq<Achievement>)
    requires s != [] && UniqueKeys(s)
    ensures UniqueKeys(s[..|s| - 1])
    ensures Key(s[|s| - 1]) !in Keys(s[..|s| - 1])
  {
    var init := s[..|s| - 1];
    forall x | x in init ensures Key(x) != Key(s[|s| - 1]) {
      var i :| 0 <= i < |init| && init[i] == x;
      assert s[i] == x;
    }
  }

  /** A batch of new keys, none repeated, is appended whole. */
  lemma {:induction false} InsertAllFresh(rows: seq<Achievement>, batch: seq<Achievement>)
    requires UniqueKeys(batch)
    requires Keys(rows) !! Keys(batch)
    ensures InsertAll(rows, batch) == rows + batch
  {
    if batch != [] {
      var init, last := batch[..|batch| - 1], batch[|batch| - 1];
      assert batch == init + [last];
      KeysAppend(init, last);
      UniqueKeysInit(batch);
      InsertAllFresh(rows, init);
      assert Key(last) !in Keys(InsertAll(rows, init));
      assert rows + batch == (rows + init) + [last];
    }
  }

  /** Selecting rows keeps unique keys unique. */
  lemma {:induction false} SelectUniqueKeys(rows: seq<Achievement>, keep: Achievement -> bool)
    requires UniqueKeys(rows)
    ensures UniqueKeys(Select(rows, keep))
  {
    if rows != [] {
      var init, last := rows[..|rows| - 1], rows[|rows| - 1];
      assert rows == init + [last];
      assert UniqueKeys(init) by {
        forall i, j | 0 <= i < j < |init| ensures Key(init[i]) != Key(init[j]) {
          assert init[i] == rows[i] && init[j] == rows[j];
        }
      }
      SelectUniqueKeys(init, keep);
      var r' := Select(init, keep);
      if keep(last) {
        var r := r' + [last];
        forall i, j | 0 <= i < j < |r| ensures Key(r[i]) != Key(r[j]) {
          if j == |r'| {
            assert r[i] in init;
            var k :| 0 <= k < |init| && init[k] == r[i];
            assert rows[k] == r[i];
          }
        }
      }
    }
  }

  /** The rows of one player, in storage order. */
  function OfPlayer(rows: seq<Achievement>, playerId: int): (r: seq<Achievement>)
    ensures forall x | x in r :: x in rows && x.playerId == playerId
  {
    Select(rows, (a: Achievement) => a.playerId == playerId)
  }

  /** The table after deleting the rows of one player whose type is among
      `kinds`; every other row stays, in order. */
  function Without(rows: seq<Achievement>, playerId: int, kinds: set<string>): (r: seq<Achievement>)
    ensures forall x | x in r :: x in rows && !(x.playerId == playerId && x.kind in kinds)
    ensures forall x | x in rows && !(x.playerId == playerId && x.kind in kinds) :: x in r
  {
    SelectKeeps(rows, (a: Achievement) => !(a.playerId == playerId && a.kind in kinds));
    Select(rows, (a: Achievement) => !(a.playerId == playerId && a.kind in kinds))
  }

  /** The rows `syncAchievements` inserts: nothing without two snapshots;
      otherwise the baseline of the previous snapshot whose types the player
      has no row for, dated from the history, followed by the achievements
      crossed between the previous and the current snapshot. */
  function SyncBatch(cfg: Config, rows: seq<Achievement>, playerId: int, history: seq<Snapshot>, now: int): seq<Achievement>
    requires ValidConfig(cfg)
  {
    var snaps := Take(history, SyncLimit);
    if |snaps| < 2 then []
    else
      var existing := KindsOf(OfPlayer(rows, playerId));
      var baseline := ToRows(PreviousAchievements(cfg, Some(snaps[1])), playerId);
      var missing := Select(baseline, (a: Achievement) => a.kind !in existing);
      PastDates(cfg, missing, history, now)
        + ToRows(NewAchievements(cfg, Some(snaps[0]), Some(snaps[1]), now), playerId)
  }

  /** The player's rows still dated epoch 0. */
  function Unknown(rows: seq<Achievement>, playerId: int): (r: seq<Achievement>)
    ensures forall x | x in r :: x in rows && x.playerId == playerId && x.createdAt == EpochZero
  {
    Select(rows, (a: Achievement) => a.playerId == playerId && a.createdAt == EpochZero)
  }

  /** The unknown-date rows the history dates after the epoch. */
  function Resolved(cfg: Config, rows: seq<Achievement>, playerId: int, history: seq<Snapshot>, now: int): seq<Achievement>
    requires ValidConfig(cfg)
  {
    Select(PastDates(cfg, Unknown(rows, playerId), history, now), (a: Achievement) => a.createdAt > 0)
  }

  /** The table after `reevaluateAchievements`: unchanged when nothing was
      resolved; otherwise the player's rows of the resolved types are
      deleted and the resolved rows inserted. */
  function ReevaluateRows(cfg: Config, rows: seq<Achievement>, playerId: int, history: seq<Snapshot>, now: int): seq<Achievement>
    requires ValidConfig(cfg)
  {
    var resolved := Resolved(cfg, rows, playerId, history, now);
    if |resolved| == 0 then rows
    else InsertAll(Without(rows, playerId, KindsOf(resolved)), resolved)
  }

  /** A row of a player is among that player's rows. */
  lemma InOfPlayer(rows: seq<Achievement>, playerId: int, x: Achievement)
    requires x in rows && x.playerId == playerId
    ensures x in OfPlayer(rows, playerId)
  {
    SelectExact(rows, (a: Achievement) => a.playerId == playerId);
    assert multiset(rows)[x] > 0;
  }

  /** `addPastDates` keeps each row's key. */
  lemma PastDatesKeys(cfg: Config, achs: seq<Achievement>, history: seq<Snapshot>, now: int)
    requires ValidConfig(cfg)
    ensures var r := PastDates(cfg, achs, history, now);
      |r| == |achs| && forall n | 0 <= n < |r| :: Key(r[n]) == Key(achs[n])
  {
    PastDatesShape(cfg, achs, history, now);
    var r := PastDates(cfg, achs, history, now);
    forall n | 0 <= n < |r| ensures Key(r[n]) == Key(achs[n]) {
      assert r[n].(createdAt := achs[n].createdAt) == achs[n];
    }
  }

  /** Every type the previous snapshot's baseline holds is, after a sync,
      either already among the player's types or inserted. */
  lemma SyncBaselineStored(cfg: Config, rows: seq<Achievement>, playerId: int, history: seq<Snapshot>, now: int, a: Achievement)
    requires ValidConfig(cfg)
    requires |Take(history, SyncLimit)| >= 2
    requires a in ToRows(PreviousAchievements(cfg, Some(Take(history, SyncLimit)[1])), playerId)
    ensures Key(a) in Keys(InsertAll(rows, SyncBatch(cfg, rows, playerId, history, now)))
  {
    var snaps := Take(history, SyncLimit);
    var existing := KindsOf(OfPlayer(rows, playerId));
    var baseline := ToRows(PreviousAchievements(cfg, Some(snaps[1])), playerId);
    var keep := (b: Achievement) => b.kind !in existing;
    var missing := Select(baseline, keep);
    var batch := SyncBatch(cfg, rows, playerId, history, now);
    InsertAllKeys(rows, batch);
    assert a.playerId == playerId;
    if a.kind in existing {
      var x :| x in OfPlayer(rows, playerId) && x.kind == a.kind;
      assert Key(x) == Key(a);
    } else {
      SelectExact(baseline, keep);
      assert multiset(baseline)[a] > 0;
      assert a in missing;
      var n :| 0 <= n < |missing| && missing[n] == a;
      var dated := PastDates(cfg, missing, history, now);
      PastDatesKeys(cfg, missing, history, now);
      assert dated[n] in batch;
      assert Key(dated[n]) == Key(a);
    }
  }

  /** After a sync, the player has a row for the type of every catalog
      definition that holds on the current or the previous snapshot. */
  lemma SyncCovers(cfg: Config, rows: seq<Achievement>, playerId: int, history: seq<Snapshot>, now: int, d: Definition)
    requires ValidConfig(cfg)
    requires |Take(history, SyncLimit)| >= 2
    requires d in Definitions(cfg)
    requires Holds(cfg, d, Take(history, SyncLimit)[0]) || Holds(cfg, d, Take(history, SyncLimit)[1])
    ensures (playerId, d.kind) in Keys(InsertAll(rows, SyncBatch(cfg, rows, playerId, history, now)))
  {
    var snaps := Take(history, SyncLimit);
    if Holds(cfg, d, snaps[1]) {
      var prev := PreviousAchievements(cfg, Some(snaps[1]));
      PreviousAchievementsComplete(cfg, snaps[1], d);
      var i :| 0 <= i < |prev| && prev[i].def == d;
      var baseline := ToRows(prev, playerId);
      assert baseline[i] in baseline;
      SyncBaselineStored(cfg, rows, playerId, history, now, baseline[i]);
    } else {
      var news := NewAchievements(cfg, Some(snaps[0]), Some(snaps[1]), now);
      NewAchievementsComplete(cfg, snaps[0], snaps[1], now, d);
      var i :| 0 <= i < |news| && news[i].def == d;
      var crossed := ToRows(news, playerId);
      assert crossed[i] in crossed;
      SyncNewStored(cfg, rows, playerId, history, now, crossed[i]);
    }
  }

  /** Every achievement crossed between the two latest snapshots is, after a
      sync, among the player's keys. */
  lemma SyncNewStored(cfg: Config, rows: seq<Achievement>, playerId: int, history: seq<Snapshot>, now: int, a: Achievement)
    requires ValidConfig(cfg)
    requires |Take(history, SyncLimit)| >= 2
    requires a in ToRows(NewAchievements(cfg, Some(Take(history, SyncLimit)[0]), Some(Take(history, SyncLimit)[1]), now), playerId)
    ensures Key(a) in Keys(InsertAll(rows, SyncBatch(cfg, rows, playerId, history, now)))
  {
    InsertAllKeys(rows, SyncBatch(cfg, rows, playerId, history, now));
    assert a in SyncBatch(cfg, rows, playerId, history, now);
  }

  /** What a sync inserts: nothing without two snapshots; otherwise rows of
      the player only, each either a row of the previous snapshot's baseline
      (re-dated) whose type the player does not store yet, or an achievement
      crossed between the two latest snapshots. */
  lemma SyncBatchSound(cfg: Config, rows: seq<Achievement>, playerId: int, history: seq<Snapshot>, now: int)
    requires ValidConfig(cfg)
    ensures |Take(history, SyncLimit)| < 2 ==> SyncBatch(cfg, rows, playerId, history, now) == []
    ensures |Take(history, SyncLimit)| >= 2 ==>
      var snaps := Take(history, SyncLimit);
      forall x | x in SyncBatch(cfg, rows, playerId, history, now) ::
        && x.playerId == playerId
        && ((&& x.(createdAt := EpochZero) in ToRows(PreviousAchievements(cfg, Some(snaps[1])), playerId)
             && x.kind !in KindsOf(OfPlayer(rows, playerId)))
            || x in ToRows(NewAchievements(cfg, Some(snaps[0]), Some(snaps[1]), now), playerId))
  {
    var snaps := Take(history, SyncLimit);
    if |snaps| >= 2 {
      var existing := KindsOf(OfPlayer(rows, playerId));
      var baseline := ToRows(PreviousAchievements(cfg, Some(snaps[1])), playerId);
      var missing := Select(baseline, (a: Achievement) => a.kind !in existing);
      var dated := PastDates(cfg, missing, history, now);
      var news := ToRows(NewAchievements(cfg, Some(snaps[0]), Some(snaps[1]), now), playerId);
      PastDatesShape(cfg, missing, history, now);
      forall x | x in dated
        ensures x.playerId == playerId && x.(createdAt := EpochZero) in baseline && x.kind !in existing
      {
        var n :| 0 <= n < |dated| && dated[n] == x;
        assert missing[n] in missing;
        var m :| 0 <= m < |baseline| && baseline[m] == missing[n];
        assert x.(createdAt := missing[n].createdAt) == missing[n];
      }
      forall x | x in news ensures x.playerId == playerId {
        var n :| 0 <= n < |news| && news[n] == x;
      }
    }
  }

  /** The rows `getNewAchievements` gives at two different clocks differ
      only in their dates. */
  lemma NewsKeysClockFree(cfg: Config, current: Snapshot, previous: Snapshot, now: int, later: int, playerId: int)
    requires ValidConfig(cfg)
    ensures var a := ToRows(NewAchievements(cfg, Some(current), Some(previous), now), playerId);
      var b := ToRows(NewAchievements(cfg, Some(current), Some(previous), later), playerId);
      |a| == |b| && forall n | 0 <= n < |a| :: a[n].(createdAt := b[n].createdAt) == b[n]
  {
    NewAchievementsDefs(cfg, current, previous, now);
    NewAchievementsDefs(cfg, current, previous, later);
    var da := DefsOf(NewAchievements(cfg, Some(current), Some(previous), now));
    var db := DefsOf(NewAchievements(cfg, Some(current), Some(previous), later));
    assert da == db;
  }

  /** Running a sync a second time, on the same history and at any later
      clock, inserts nothing. */
  lemma SyncIdempotent(cfg: Config, rows: seq<Achievement>, playerId: int, history: seq<Snapshot>, now: int, later: int)
    requires ValidConfig(cfg)
    ensures var once := InsertAll(rows, SyncBatch(cfg, rows, playerId, history, now));
      InsertAll(once, SyncBatch(cfg, once, playerId, history, later)) == once
  {
    var snaps := Take(history, SyncLimit);
    var once := InsertAll(rows, SyncBatch(cfg, rows, playerId, history, now));
    if |snaps| >= 2 {
      SecondSyncOnlyNews(cfg, rows, playerId, history, now, later);
      SecondSyncNewsStored(cfg, rows, playerId, history, now, later);
      InsertAllPresent(once, SyncBatch(cfg, once, playerId, history, later));
    } else {
      assert SyncBatch(cfg, once, playerId, history, later) == [];
    }
  }

  /** After a sync, the baseline part of a second sync is empty. */
  lemma SecondSyncOnlyNews(cfg: Config, rows: seq<Achievement>, playerId: int, history: seq<Snapshot>, now: int, later: int)
    requires ValidConfig(cfg)
    requires |Take(history, SyncLimit)| >= 2
    ensures var snaps := Take(history, SyncLimit);
      var once := InsertAll(rows, SyncBatch(cfg, rows, playerId, history, now));
      SyncBatch(cfg, once, playerId, history, later)
        == ToRows(NewAchievements(cfg, Some(snaps[0]), Some(snaps[1]), later), playerId)
  {
    var snaps := Take(history, SyncLimit);
    var once := InsertAll(rows, SyncBatch(cfg, rows, playerId, history, now));
    InsertAllKeys(rows, SyncBatch(cfg, rows, playerId, history, now));
    var existing := KindsOf(OfPlayer(once, playerId));
    var baseline := ToRows(PreviousAchievements(cfg, Some(snaps[1])), playerId);
    var keep := (b: Achievement) => b.kind !in existing;
    forall a | a in baseline ensures !keep(a) {
      SyncBaselineStored(cfg, rows, playerId, history, now, a);
      var x :| x in once && Key(x) == Key(a);
      InOfPlayer(once, playerId, x);
    }
    SelectNone(baseline, keep);
    var news := ToRows(NewAchievements(cfg, Some(snaps[0]), Some(snaps[1]), later), playerId);
    assert [] + news == news;
  }

  /** After a sync, every achievement a second sync finds crossed, at any
      clock, is already stored. */
  lemma SecondSyncNewsStored(cfg: Config, rows: seq<Achievement>, playerId: int, history: seq<Snapshot>, now: int, later: int)
    requires ValidConfig(cfg)
    requires |Take(history, SyncLimit)| >= 2
    ensures var snaps := Take(history, SyncLimit);
      var once := InsertAll(rows, SyncBatch(cfg, rows, playerId, history, now));
      Keys(ToRows(NewAchievements(cfg, Some(snaps[0]), Some(snaps[1]), later), playerId)) <= Keys(once)
  {
    var snaps := Take(history, SyncLimit);
    var batch := SyncBatch(cfg, rows, playerId, history, now);
    var once := InsertAll(rows, batch);
    InsertAllKeys(rows, batch);
    var first := ToRows(NewAchievements(cfg, Some(snaps[0]), Some(snaps[1]), now), playerId);
    var news := ToRows(NewAchievements(cfg, Some(snaps[0]), Some(snaps[1]), later), playerId);
    NewsKeysClockFree(cfg, snaps[0], snaps[1], now, later, playerId);
    forall k | k in Keys(news) ensures k in Keys(once) {
      var x :| x in news && Key(x) == k;
      var n :| 0 <= n < |news| && news[n] == x;
      assert first[n] in batch;
    }
  }

  /** The resolved rows are the player's unknown-date rows with a date
      after the epoch, and no two of them share a key. */
  lemma ResolvedRows(cfg: Config, rows: seq<Achievement>, playerId: int, history: seq<Snapshot>, now: int)
    requires ValidConfig(cfg)
    requires UniqueKeys(rows)
    ensures var resolved := Resolved(cfg, rows, playerId, history, now);
      && UniqueKeys(resolved)
      && forall x | x in resolved ::
           x.playerId == playerId && x.createdAt > 0 && x.(createdAt := EpochZero) in Unknown(rows, playerId)
  {
    var unknown := Unknown(rows, playerId);
    SelectUniqueKeys(rows, (a: Achievement) => a.playerId == playerId && a.createdAt == EpochZero);
    var dated := PastDates(cfg, unknown, history, now);
    PastDatesShape(cfg, unknown, history, now);
    PastDatesKeys(cfg, unknown, history, now);
    assert UniqueKeys(dated) by {
      forall i, j | 0 <= i < j < |dated| ensures Key(dated[i]) != Key(dated[j]) {
        assert Key(unknown[i]) != Key(unknown[j]);
      }
    }
    SelectUniqueKeys(dated, (a: Achievement) => a.createdAt > 0);
    forall x | x in Resolved(cfg, rows, playerId, history, now)
      ensures x.playerId == playerId && x.createdAt > 0 && x.(createdAt := EpochZero) in unknown
    {
      var n :| 0 <= n < |dated| && dated[n] == x;
      assert unknown[n] in unknown;
      assert x.(createdAt := unknown[n].createdAt) == unknown[n];
    }
  }

  /** Re-dating replaces rows: the player's rows of the resolved types are
      removed and the resolved rows appended, every other row staying in
      place. */
  lemma ReevaluateReplaces(cfg: Config, rows: seq<Achievement>, playerId: int, history: seq<Snapshot>, now: int)
    requires ValidConfig(cfg)
    requires UniqueKeys(rows)
    ensures var resolved := Resolved(cfg, rows, playerId, history, now);
      ReevaluateRows(cfg, rows, playerId, history, now) ==
        if |resolved| == 0 then rows else Without(rows, playerId, KindsOf(resolved)) + resolved
  {
    var resolved := Resolved(cfg, rows, playerId, history, now);
    if |resolved| > 0 {
      ResolvedRows(cfg, rows, playerId, history, now);
      var kinds := KindsOf(resolved);
      var kept := Without(rows, playerId, kinds);
      forall k | k in Keys(kept) ensures k !in Keys(resolved) {
        var x :| x in kept && Key(x) == k;
        forall y | y in resolved ensures Key(y) != k {
          assert y.kind in kinds && y.playerId == playerId;
        }
      }
      InsertAllFresh(kept, resolved);
    }
  }

  /** Re-dating never loses or adds a key: every (player, type) stored
      before is stored after, and no other. */
  lemma ReevaluateKeepsKeys(cfg: Config, rows: seq<Achievement>, playerId: int, history: seq<Snapshot>, now: int)
    requires ValidConfig(cfg)
    requires UniqueKeys(rows)
    ensures Keys(ReevaluateRows(cfg, rows, playerId, history, now)) == Keys(rows)
  {
    var resolved := Resolved(cfg, rows, playerId, history, now);
    if |resolved| > 0 {
      ResolvedRows(cfg, rows, playerId, history, now);
      var kinds := KindsOf(resolved);
      var keep := (a: Achievement) => !(a.playerId == playerId && a.kind in kinds);
      var kept := Without(rows, playerId, kinds);
      InsertAllKeys(kept, resolved);
      forall k | k in Keys(resolved) ensures k in Keys(rows) {
        var y :| y in resolved && Key(y) == k;
        assert Key(y.(createdAt := EpochZero)) == k;
      }
      forall k | k in Keys(rows) ensures k in Keys(kept) + Keys(resolved) {
        var x :| x in rows && Key(x) == k;
        if x.playerId == playerId && x.kind in kinds {
          var y :| y in resolved && y.kind == x.kind;
          assert Key(y) == k;
        } else {
          SelectExact(rows, keep);
          assert multiset(rows)[x] > 0;
          assert x in kept;
        }
      }
    }
  }

  /** Re-dating keeps every row that is not one of the player's rows of a
      resolved type: the player's rows of other types and every row of other
      players. */
  lemma ReevaluateKeepsUnresolved(cfg: Config, rows: seq<Achievement>, playerId: int, history: seq<Snapshot>, now: int, x: Achievement)
    requires ValidConfig(cfg)
    requires x in rows
    requires !(x.playerId == playerId && x.kind in KindsOf(Resolved(cfg, rows, playerId, history, now)))
    ensures x in ReevaluateRows(cfg, rows, playerId, history, now)
  {
    var resolved := Resolved(cfg, rows, playerId, history, now);
    if |resolved| > 0 {
      var kept := Without(rows, playerId, KindsOf(resolved));
      var r := InsertAll(kept, resolved);
      var i :| 0 <= i < |kept| && kept[i] == x;
      assert r[..|kept|][i] == x;
    }
  }

  /** After re-dating, a resolved type has exactly one row of the player:
      the resolved row, carrying its new date. */
  lemma ReevaluateSingleRow(cfg: Config, rows: seq<Achievement>, playerId: int, history: seq<Snapshot>, now: int, y: Achievement)
    requires ValidConfig(cfg)
    requires UniqueKeys(rows)
    requires y in Resolved(cfg, rows, playerId, history, now)
    ensures y in ReevaluateRows(cfg, rows, playerId, history, now) && y.createdAt > 0
    ensures forall x | x in ReevaluateRows(cfg, rows, playerId, history, now) && Key(x) == Key(y) :: x == y
  {
    var resolved := Resolved(cfg, rows, playerId, history, now);
    ReevaluateReplaces(cfg, rows, playerId, history, now);
    ResolvedRows(cfg, rows, playerId, history, now);
    var kept := Without(rows, playerId, KindsOf(resolved));
    assert y.kind in KindsOf(resolved) && y.playerId == playerId;
    OnlyKeyHolder(kept, resolved, y);
  }

  /** In a table whose appended part has unique keys and whose first part
      has none of `y`'s key, `y` is the only row with that key. */
  lemma OnlyKeyHolder(kept: seq<Achievement>, added: seq<Achievement>, y: Achievement)
    requires UniqueKeys(added) && y in added
    requires forall x | x in kept :: Key(x) != Key(y)
    ensures forall x | x in kept + added && Key(x) == Key(y) :: x == y
  {
    forall x | x in kept + added && Key(x) == Key(y) ensures x == y {
      var i :| 0 <= i < |added| && added[i] == x;
      var j :| 0 <= j < |added| && added[j] == y;
      assert i == j;
    }
  }

  /** Every resolved row belongs to the player being re-dated. */
  lemma ResolvedOfPlayer(cfg: Config, rows: seq<Achievement>, playerId: int, history: seq<Snapshot>, now: int)
    requires ValidConfig(cfg)
    ensures forall x | x in Resolved(cfg, rows, playerId, history, now) :: x.playerId == playerId
  {
    var unknown := Unknown(rows, playerId);
    var dated := PastDates(cfg, unknown, history, now);
    PastDatesKeys(cfg, unknown, history, now);
    forall x | x in Resolved(cfg, rows, playerId, history, now) ensures x.playerId == playerId {
      var n :| 0 <= n < |dated| && dated[n] == x;
      assert unknown[n] in unknown;
    }
  }

  /** Re-dating one player's achievements leaves every other player's rows
      as they were, in the same order. */
  lemma ReevaluateOtherPlayers(cfg: Config, rows: seq<Achievement>, playerId: int, other: int, history: seq<Snapshot>, now: int)
    requires ValidConfig(cfg)
    requires other != playerId
    ensures OfPlayer(ReevaluateRows(cfg, rows, playerId, history, now), other) == OfPlayer(rows, other)
  {
    var resolved := Resolved(cfg, rows, playerId, history, now);
    if |resolved| > 0 {
      ResolvedOfPlayer(cfg, rows, playerId, history, now);
      ReplaceKeepsOthers(rows, playerId, other, KindsOf(resolved), resolved);
    }
  }

  /** Deleting some of one player's rows and inserting rows of that player
      leaves every other player's rows as they were. */
  lemma ReplaceKeepsOthers(rows: seq<Achievement>, playerId: int, other: int, kinds: set<string>, batch: seq<Achievement>)
    requires other != playerId
    requires forall x | x in batch :: x.playerId == playerId
    ensures OfPlayer(InsertAll(Without(rows, playerId, kinds), batch), other) == OfPlayer(rows, other)
  {
    var keep := (a: Achievement) => !(a.playerId == playerId && a.kind in kinds);
    var ofOther := (a: Achievement) => a.playerId == other;
    var kept := Without(rows, playerId, kinds);
    var r := InsertAll(kept, batch);
    var added := r[|kept|..];
    assert r == kept + added;
    SelectAppend(kept, added, ofOther);
    SelectNone(added, ofOther);
    SelectSelect(rows, keep, ofOther);
  }

  /** A row of `getPlayerAchievements`' result. `createdAt` is `None` for a
      missing achievement (`null`); `measure` is `None` where the row carries
      no measure; `missing` false where it carries no such field. */
  datatype View = View(
    playerId: int,
    kind: string,
    metric: Metric,
    threshold: int,
    createdAt: Option<int>,
    missing: bool,
    measure: Option<string>)

  /** Only 126 combat is level based. */
  function MeasureOf(cfg: Config, metric: Metric): string {
    if metric == Combat then "levels" else cfg.measure(metric)
  }

  function StoredView(a: Achievement): View {
    View(a.playerId, a.kind, a.metric, a.threshold, Some(a.createdAt), false, None)
  }

  function MissingView(playerId: int, d: Definition): View {
    View(playerId, d.kind, d.metric, d.threshold, None, true, None)
  }

  function WithMeasure(cfg: Config, v: View): View {
    v.(measure := Some(MeasureOf(cfg, v.metric)))
  }

  /** The catalog definitions whose type the player has no row for. */
  function MissingDefs(cfg: Config, rows: seq<Achievement>, playerId: int): seq<Definition>
    requires ValidConfig(cfg)
  {
    var achieved := KindsOf(OfPlayer(rows, playerId));
    Select(Definitions(cfg), (d: Definition) => d.kind !in achieved)
  }

  function StoredViews(stored: seq<Achievement>): (r: seq<View>)
    ensures |r| == |stored|
    ensures forall i | 0 <= i < |r| :: r[i] == StoredView(stored[i])
  {
    seq(|stored|, i requires 0 <= i < |stored| => StoredView(stored[i]))
  }

  function MissingViews(playerId: int, defs: seq<Definition>): (r: seq<View>)
    ensures |r| == |defs|
    ensures forall i | 0 <= i < |r| :: r[i] == MissingView(playerId, defs[i])
  {
    seq(|defs|, i requires 0 <= i < |defs| => MissingView(playerId, defs[i]))
  }

  function Measured(cfg: Config, views: seq<View>): (r: seq<View>)
    ensures |r| == |views|
    ensures forall i | 0 <= i < |r| :: r[i] == WithMeasure(cfg, views[i])
  {
    seq(|views|, i requires 0 <= i < |views| => WithMeasure(cfg, views[i]))
  }

  /** `getPlayerAchievements(playerId, includeMissing)`: the player's stored
      rows, followed, when missing entries are asked for, by one entry per
      catalog definition whose type the player does not store, all of them
      then measured. The first entries are the player's stored rows, in
      order; every entry is the player's, and an entry is missing exactly
      when it has no date. */
  function PlayerView(cfg: Config, rows: seq<Achievement>, playerId: int, includeMissing: bool): (r: seq<View>)
    requires ValidConfig(cfg)
    ensures |r| == |OfPlayer(rows, playerId)| + (if includeMissing then |MissingDefs(cfg, rows, playerId)| else 0)
    ensures forall i | 0 <= i < |r| ::
      && r[i].playerId == playerId
      && (r[i].missing <==> r[i].createdAt.None?)
      && (r[i].measure.Some? <==> includeMissing)
    ensures forall i | 0 <= i < |OfPlayer(rows, playerId)| ::
      && !r[i].missing
      && Achievement(r[i].playerId, r[i].kind, r[i].metric, r[i].threshold, r[i].createdAt.value)
           == OfPlayer(rows, playerId)[i]
  {
    assert forall i | 0 <= i < |OfPlayer(rows, playerId)| :: OfPlayer(rows, playerId)[i] in OfPlayer(rows, playerId);
    var stored := StoredViews(OfPlayer(rows, playerId));
    if !includeMissing then stored
    else Measured(cfg, stored + MissingViews(playerId, MissingDefs(cfg, rows, playerId)))
  }

  /** Without missing entries, the view lists the player's stored rows, in
      storage order, each with its date and no measure. */
  lemma PlayerViewStored(cfg: Config, rows: seq<Achievement>, playerId: int)
    requires ValidConfig(cfg)
    ensures var r := PlayerView(cfg, rows, playerId, false);
      && |r| == |OfPlayer(rows, playerId)|
      && forall i | 0 <= i < |r| ::
           && !r[i].missing && r[i].measure == None
           && Achievement(r[i].playerId, r[i].kind, r[i].metric, r[i].threshold, r[i].createdAt.value)
                == OfPlayer(rows, playerId)[i]
  {
  }

  /** With missing entries, the view lists the player's rows and then the
      catalog definitions whose type the player has no row for. Every entry
      belongs to the player and carries its measure; an entry is missing
      exactly when it has no date; a missing entry's type is one the player
      has no row for, and a present entry is a stored row of the player. */
  lemma PlayerViewEntry(cfg: Config, rows: seq<Achievement>, playerId: int, i: nat)
    requires ValidConfig(cfg)
    requires i < |OfPlayer(rows, playerId)| + |MissingDefs(cfg, rows, playerId)|
    ensures |PlayerView(cfg, rows, playerId, true)| == |OfPlayer(rows, playerId)| + |MissingDefs(cfg, rows, playerId)|
    ensures var v := PlayerView(cfg, rows, playerId, true)[i];
      && v.playerId == playerId
      && v.measure == Some(MeasureOf(cfg, v.metric))
      && (v.missing <==> v.createdAt.None?)
      && (v.missing ==> v.kind !in KindsOf(OfPlayer(rows, playerId)))
      && (!v.missing ==> Achievement(v.playerId, v.kind, v.metric, v.threshold, v.createdAt.value) in OfPlayer(rows, playerId))
  {
    var stored := OfPlayer(rows, playerId);
    var missing := MissingDefs(cfg, rows, playerId);
    var all := StoredViews(stored) + MissingViews(playerId, missing);
    if i < |stored| {
      assert all[i] == StoredView(stored[i]);
      assert stored[i] in stored;
    } else {
      assert all[i] == MissingView(playerId, missing[i - |stored|]);
      assert missing[i - |stored|] in missing;
    }
  }

  /** Entry `i` of the view with missing entries: the player's `i`-th stored
      row while there are any, then the missing catalog definitions in order,
      each entry carrying its definition's type, metric and threshold. */
  lemma PlayerViewOrder(cfg: Config, rows: seq<Achievement>, playerId: int, i: nat)
    requires ValidConfig(cfg)
    requires i < |OfPlayer(rows, playerId)| + |MissingDefs(cfg, rows, playerId)|
    ensures i < |PlayerView(cfg, rows, playerId, true)|
    ensures var v := PlayerView(cfg, rows, playerId, true)[i];
      var stored := OfPlayer(rows, playerId);
      if i < |stored| then
        && !v.missing
        && Achievement(v.playerId, v.kind, v.metric, v.threshold, v.createdAt.value) == stored[i]
      else
        var d := MissingDefs(cfg, rows, playerId)[i - |stored|];
        && v.missing
        && d in Definitions(cfg) && d.kind !in KindsOf(stored)
        && v.kind == d.kind && v.metric == d.metric && v.threshold == d.threshold
  {
    var stored := OfPlayer(rows, playerId);
    var missing := MissingDefs(cfg, rows, playerId);
    var all := StoredViews(stored) + MissingViews(playerId, missing);
    if i < |stored| {
      assert all[i] == StoredView(stored[i]);
    } else {
      assert all[i] == MissingView(playerId, missing[i - |stored|]);
      assert missing[i - |stored|] in missing;
    }
  }

  /** The missing definitions keep the catalog's order, and a catalog
      definition is missing exactly when the player stores no row of its
      type, as often as the catalog lists it. */
  lemma MissingDefsOrder(cfg: Config, rows: seq<Achievement>, playerId: int)
    requires ValidConfig(cfg)
    ensures IsSubsequence(MissingDefs(cfg, rows, playerId), Definitions(cfg))
    ensures forall d | d in Definitions(cfg) ::
      multiset(MissingDefs(cfg, rows, playerId))[d]
        == if d.kind in KindsOf(OfPlayer(rows, playerId)) then 0 else multiset(Definitions(cfg))[d]
  {
    var achieved := KindsOf(OfPlayer(rows, playerId));
    SelectExact(Definitions(cfg), (e: Definition) => e.kind !in achieved);
  }

  /** A catalog definition whose type the player has no row for is missing. */
  lemma MissingDefListed(cfg: Config, rows: seq<Achievement>, playerId: int, d: Definition)
    requires ValidConfig(cfg)
    requires d in Definitions(cfg)
    requires d.kind !in KindsOf(OfPlayer(rows, playerId))
    ensures d in MissingDefs(cfg, rows, playerId)
  {
    var achieved := KindsOf(OfPlayer(rows, playerId));
    SelectExact(Definitions(cfg), (e: Definition) => e.kind !in achieved);
    assert multiset(Definitions(cfg))[d] > 0;
  }

  /** With missing entries, the type of every catalog definition appears. */
  lemma PlayerViewCovers(cfg: Config, rows: seq<Achievement>, playerId: int, d: Definition)
    requires ValidConfig(cfg)
    requires d in Definitions(cfg)
    ensures exists v | v in PlayerView(cfg, rows, playerId, true) :: v.kind == d.kind
  {
    var j := PlayerViewIndexOf(cfg, rows, playerId, d);
    var r := PlayerView(cfg, rows, playerId, true);
    assert r[j] in r;
  }

  /** Where a catalog definition's type sits in the view. */
  lemma PlayerViewIndexOf(cfg: Config, rows: seq<Achievement>, playerId: int, d: Definition) returns (j: nat)
    requires ValidConfig(cfg)
    requires d in Definitions(cfg)
    ensures j < |PlayerView(cfg, rows, playerId, true)|
    ensures PlayerView(cfg, rows, playerId, true)[j].kind == d.kind
  {
    var stored := OfPlayer(rows, playerId);
    if d.kind in KindsOf(stored) {
      var x :| x in stored && x.kind == d.kind;
      var i :| 0 <= i < |stored| && stored[i] == x;
      j := i;
    } else {
      MissingDefListed(cfg, rows, playerId, d);
      var missing := MissingDefs(cfg, rows, playerId);
      var i :| 0 <= i < |missing| && missing[i] == d;
      j := |stored| + i;
    }
    PlayerViewOrder(cfg, rows, playerId, j);
  }

  /** A player without rows has no stored achievement, so every catalog
      definition is missing. */
  lemma NoRowsAllMissing(cfg: Config, rows: seq<Achievement>, playerId: int)
    requires ValidConfig(cfg)
    requires forall a | a in rows :: a.playerId != playerId
    ensures OfPlayer(rows, playerId) == []
    ensures MissingDefs(cfg, rows, playerId) == Definitions(cfg)
  {
    NoRowsOfPlayer(rows, playerId);
    NothingAchievedAllMissing(cfg, rows, playerId);
  }

  lemma NoRowsOfPlayer(rows: seq<Achievement>, playerId: int)
    requires forall a | a in rows :: a.playerId != playerId
    ensures OfPlayer(rows, playerId) == []
  {
    SelectNone(rows, (a: Achievement) => a.playerId == playerId);
  }

  lemma NothingAchievedAllMissing(cfg: Config, rows: seq<Achievement>, playerId: int)
    requires ValidConfig(cfg)
    requires OfPlayer(rows, playerId) == []
    ensures MissingDefs(cfg, rows, playerId) == Definitions(cfg)
  {
    var achieved := KindsOf(OfPlayer(rows, playerId));
    assert achieved == {};
    SelectAll(Definitions(cfg), (d: Definition) => d.kind !in achieved);
  }

  /** A player without rows sees the whole catalog, in catalog order, every
      entry missing. */
  lemma PlayerViewNewPlayer(cfg: Config, rows: seq<Achievement>, playerId: int)
    requires ValidConfig(cfg)
    requires forall a | a in rows :: a.playerId != playerId
    ensures PlayerView(cfg, rows, playerId, true) == Measured(cfg, MissingViews(playerId, Definitions(cfg)))
  {
    NoRowsAllMissing(cfg, rows, playerId);
    var views := MissingViews(playerId, Definitions(cfg));
    assert StoredViews([]) + views == views;
  }

  class AchievementStore {
    var rows: seq<Achievement>

    ghost predicate Valid()
      reads this
    {
      UniqueKeys(rows)
    }

    constructor ()
      ensures Valid() && rows == []
    {
      rows := [];
    }

    /** Bulk insert that skips every row whose (player, type) key is
        already stored. */
    method BulkCreate(batch: seq<Achievement>)
      requires Valid()
      modifies this
      ensures Valid()
      ensures rows == InsertAll(old(rows), batch)
    {
      ghost var start := rows;
      for j := 0 to |batch|
        invariant rows == InsertAll(start, batch[..j])
      {
        InsertAllStep(start, batch, j);
        if Key(batch[j]) !in Keys(rows) {
          rows := rows + [batch[j]];
        }
      }
      assert batch[..|batch|] == batch;
      InsertAllUnique(start, batch);
    }

    /** Deletes the rows of one player whose type is among `kinds`. */
    method Destroy(playerId: int, kinds: set<string>)
      requires Valid()
      modifies this
      ensures Valid()
      ensures rows == Without(old(rows), playerId, kinds)
    {
      SelectUniqueKeys(rows, (a: Achievement) => !(a.playerId == playerId && a.kind in kinds));
      rows := Without(rows, playerId, kinds);
    }

    /** `syncAchievements(playerId)`, with the player's snapshot history
        (newest first) and the current time as parameters. */
    method Sync(cfg: Config, playerId: int, history: seq<Snapshot>, now: int)
      requires ValidConfig(cfg)
      requires Valid()
      modifies this
      ensures Valid()
      ensures rows == InsertAll(old(rows), SyncBatch(cfg, old(rows), playerId, history, now))
    {
      var snapshots := Take(history, SyncLimit);
      if |snapshots| < 2 {
        return;
      }
      var current, previous := snapshots[0], snapshots[1];
      var existing := KindsOf(OfPlayer(rows, playerId));
      var baseline := ToRows(PreviousAchievements(cfg, Some(previous)), playerId);
      var missing := Select(baseline, (a: Achievement) => a.kind !in existing);
      var dated := AddPastDates(cfg, missing, history, now);
      var news := ToRows(NewAchievements(cfg, Some(current), Some(previous), now), playerId);
      var toInsert := dated + news;
      if |toInsert| == 0 {
        return;
      }
      BulkCreate(toInsert);
    }

    /** `reevaluateAchievements(playerId)`, with the player's snapshot
        history (newest first) and the current time as parameters. */
    method Reevaluate(cfg: Config, playerId: int, history: seq<Snapshot>, now: int)
      requires ValidConfig(cfg)
      requires Valid()
      modifies this
      ensures Valid()
      ensures rows == ReevaluateRows(cfg, old(rows), playerId, history, now)
    {
      var unknown := Select(rows, (a: Achievement) => a.playerId == playerId && a.createdAt == EpochZero);
      var dated := AddPastDates(cfg, unknown, history, now);
      var toUpdate := Select(dated, (a: Achievement) => a.createdAt > 0);
      if |toUpdate| > 0 {
        Destroy(playerId, KindsOf(toUpdate));
        BulkCreate(toUpdate);
      }
    }

    /** `getPlayerAchievements(playerId, includeMissing)` on the current
        table: the player's stored rows come first, in order; every entry is
        the player's, missing exactly when it has no date, and measured
        exactly when missing entries are asked for. */
    function PlayerAchievements(cfg: Config, playerId: int, includeMissing: bool): (r: seq<View>)
      requires ValidConfig(cfg)
      reads this
      ensures |r| == |OfPlayer(rows, playerId)| + (if includeMissing then |MissingDefs(cfg, rows, playerId)| else 0)
      ensures forall i | 0 <= i < |r| ::
        && r[i].playerId == playerId
        && (r[i].missing <==> r[i].createdAt.None?)
        && (r[i].measure.Some? <==> includeMissing)
      ensures forall i | 0 <= i < |OfPlayer(rows, playerId)| ::
        && !r[i].missing
        && Achievement(r[i].playerId, r[i].kind, r[i].metric, r[i].threshold, r[i].createdAt.value)
             == OfPlayer(rows, playerId)[i]
    {
      PlayerView(cfg, rows, playerId, includeMissing)
    }
  }
}
