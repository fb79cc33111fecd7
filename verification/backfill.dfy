/** `addPastDates` (server/src/api/services/internal/achievement.service.ts:141-172):
    dating achievements by scanning the player's snapshot history.

    The history is newest first, as the snapshot service returns it. Pair `i`
    diffs `snaps[i]` (as the current snapshot) against `snaps[i + 1]` (as the
    previous one); a type detected there is dated no later than
    `snaps[i + 1].createdAt`, and the first pair (in that order) to detect a
    type fixes its date. */
module Backfill {
  import opened Seqs
  import opened Model
  import opened Catalog
  import opened Diff

  /** How many snapshots the scan reads at most. */
  const HistoryLimit: nat := 1000

  /** What one pair of consecutive snapshots contributes: its detections
      and the creation time of its older snapshot, which bounds their dates. */
  datatype Pair = Pair(news: seq<Dated>, bound: int)

  /** `f` applied to each of the first `k` pairs of adjacent elements of
      `snaps`: element `i` is `f(snaps[i], snaps[i + 1])`. */
  function Adjacent<S, R>(snaps: seq<S>, k: nat, f: (S, S) --> R): (r: seq<R>)
    requires k < |snaps|
    requires forall i | 0 <= i < k :: f.requires(snaps[i], snaps[i + 1])
    ensures |r| == k
    ensures forall i | 0 <= i < k :: r[i] == f(snaps[i], snaps[i + 1])
  {
    if k == 0 then []
    else Adjacent(snaps, k - 1, f) + [f(snaps[k - 1], snaps[k])]
  }

  /** The pair of a current and a previous snapshot. */
  function DiffPair(cfg: Config, now: int): (Snapshot, Snapshot) --> Pair
  {
    (current: Snapshot, previous: Snapshot) requires ValidConfig(cfg) =>
      Pair(NewAchievements(cfg, Some(current), Some(previous), now), previous.createdAt)
  }

  /** The first `k` pairs of `snaps`; pair `i` diffs `snaps[i]` against
      `snaps[i + 1]`. */
  function Pairs(cfg: Config, snaps: seq<Snapshot>, k: nat, now: int): (r: seq<Pair>)
    requires ValidConfig(cfg)
    requires k < |snaps|
    ensures |r| == k
  {
    Adjacent(snaps, k, DiffPair(cfg, now))
  }

  /** Pair `i` among the first `k`. */
  lemma PairsAt(cfg: Config, snaps: seq<Snapshot>, k: nat, now: int, i: nat)
    requires ValidConfig(cfg)
    requires i < k < |snaps|
    ensures Pairs(cfg, snaps, k, now)[i] ==
      Pair(NewAchievements(cfg, Some(snaps[i]), Some(snaps[i + 1]), now), snaps[i + 1].createdAt)
  {
  }

  /** The first `k + 1` pairs are the first `k` and one more. */
  lemma PairsSnoc(cfg: Config, snaps: seq<Snapshot>, k: nat, now: int)
    requires ValidConfig(cfg)
    requires k + 1 < |snaps|
    ensures Pairs(cfg, snaps, k + 1, now)
         == Pairs(cfg, snaps, k, now) + [Pair(NewAchievements(cfg, Some(snaps[k]), Some(snaps[k + 1]), now), snaps[k + 1].createdAt)]
  {
  }

  /** One more pair scanned records its detections into the date map. */
  lemma ScanStep(cfg: Config, snaps: seq<Snapshot>, k: nat, now: int)
    requires ValidConfig(cfg)
    requires k + 1 < |snaps|
    ensures DatesAfter(Pairs(cfg, snaps, k + 1, now), k + 1)
         == Record(DatesAfter(Pairs(cfg, snaps, k, now), k),
                   NewAchievements(cfg, Some(snaps[k]), Some(snaps[k + 1]), now), snaps[k + 1].createdAt)
  {
    var before, after := Pairs(cfg, snaps, k, now), Pairs(cfg, snaps, k + 1, now);
    PairsSnoc(cfg, snaps, k, now);
    DatesAfterPrefix(before, after, k);
  }

  /** The pairs `addPastDates` scans: those of the newest `HistoryLimit`
      snapshots. */
  function ScannedPairs(cfg: Config, history: seq<Snapshot>, now: int): seq<Pair>
    requires ValidConfig(cfg)
  {
    var snaps := Take(history, HistoryLimit);
    if |snaps| == 0 then [] else Pairs(cfg, snaps, |snaps| - 1, now)
  }

  /** The `forEach` over one pair's detections: a type not yet in the date map
      gets the earlier of its detection date and `bound`. An entry is a `Date`
      object, which is always truthy, so the first entry of a type is never
      replaced, not even one at epoch 0. */
  function Record(m: map<string, int>, news: seq<Dated>, bound: int): map<string, int>
  {
    if news == [] then m
    else
      var m' := Record(m, news[..|news| - 1], bound);
      var a := news[|news| - 1];
      if a.def.kind in m' then m' else m'[a.def.kind := Min(a.createdAt, bound)]
  }

  /** The date map after the first `k` pairs. */
  function DatesAfter(pairs: seq<Pair>, k: nat): map<string, int>
    requires k <= |pairs|
  {
    if k == 0 then map[]
    else Record(DatesAfter(pairs, k - 1), pairs[k - 1].news, pairs[k - 1].bound)
  }

  /** The date map after `k` pairs depends only on those pairs. */
  lemma {:induction false} DatesAfterPrefix(p: seq<Pair>, q: seq<Pair>, k: nat)
    requires k <= |p| <= |q|
    requires p == q[..|p|]
    ensures DatesAfter(p, k) == DatesAfter(q, k)
  {
    if k > 0 {
      DatesAfterPrefix(p, q, k - 1);
      assert p[k - 1] == q[k - 1];
    }
  }

  /** Each achievement takes the date the map holds for its type, and keeps
      its own date when the map has none. */
  function ApplyDates(achs: seq<Achievement>, dates: map<string, int>): (r: seq<Achievement>)
    ensures |r| == |achs|
    ensures forall i | 0 <= i < |r| :: r[i].(createdAt := achs[i].createdAt) == achs[i]
  {
    seq(|achs|, i requires 0 <= i < |achs| =>
      achs[i].(createdAt := if achs[i].kind in dates then dates[achs[i].kind] else achs[i].createdAt))
  }

  /** `addPastDates`, on the full history of the player. */
  function PastDates(cfg: Config, achs: seq<Achievement>, history: seq<Snapshot>, now: int): seq<Achievement>
    requires ValidConfig(cfg)
  {
    var snaps := Take(history, HistoryLimit);
    if |achs| == 0 then []
    else if |snaps| < 2 then achs
    else
      var pairs := Pairs(cfg, snaps, |snaps| - 1, now);
      ApplyDates(achs, DatesAfter(pairs, |pairs|))
  }

  /** The date of the first detection of `kind` in a list of detections. */
  function FirstIn(news: seq<Dated>, kind: string): (r: Option<int>)
    ensures r.Some? <==> exists i | 0 <= i < |news| :: news[i].def.kind == kind
    ensures r.Some? ==> exists i | 0 <= i < |news| :: news[i].def.kind == kind && news[i].createdAt == r.value
  {
    if news == [] then None
    else if news[0].def.kind == kind then Some(news[0].createdAt)
    else
      var r := FirstIn(news[1..], kind);
      assert forall i | 1 <= i < |news| :: news[i] == news[1..][i - 1];
      r
  }

  /** Pair `i` detects an achievement of type `kind`. */
  predicate DetectedAt(pairs: seq<Pair>, i: nat, kind: string)
    requires i < |pairs|
  {
    FirstIn(pairs[i].news, kind).Some?
  }

  /** The date pair `i` assigns to `kind`. */
  function PairDate(pairs: seq<Pair>, i: nat, kind: string): int
    requires i < |pairs|
    requires DetectedAt(pairs, i, kind)
  {
    Min(FirstIn(pairs[i].news, kind).value, pairs[i].bound)
  }

  lemma {:induction false} FirstInAppend(news: seq<Dated>, x: Dated, kind: string)
    ensures FirstIn(news + [x], kind) ==
      if FirstIn(news, kind).Some? then FirstIn(news, kind)
      else if x.def.kind == kind then Some(x.createdAt)
      else None
  {
    if news != [] {
      FirstInAppend(news[1..], x, kind);
      assert (news + [x])[1..] == news[1..] + [x];
    }
  }

  /** One pair's `forEach`: a type already dated keeps its date; a new type
      gets the first detection's date, capped by `bound`; nothing else is
      added. */
  lemma {:induction false} RecordSpec(m: map<string, int>, news: seq<Dated>, bound: int, kind: string)
    ensures kind in Record(m, news, bound) <==> kind in m || FirstIn(news, kind).Some?
    ensures kind in m ==> Record(m, news, bound)[kind] == m[kind]
    ensures kind !in m && FirstIn(news, kind).Some? ==>
      Record(m, news, bound)[kind] == Min(FirstIn(news, kind).value, bound)
  {
    if news != [] {
      var init, last := news[..|news| - 1], news[|news| - 1];
      RecordSpec(m, init, bound, kind);
      FirstInAppend(init, last, kind);
      assert news == init + [last];
    }
  }

  /** A type no pair among the first `k` detects is not in the date map. */
  lemma {:induction false} NeverDetected(pairs: seq<Pair>, k: nat, kind: string)
    requires k <= |pairs|
    requires forall j | 0 <= j < k :: !DetectedAt(pairs, j, kind)
    ensures kind !in DatesAfter(pairs, k)
  {
    if k > 0 {
      NeverDetected(pairs, k - 1, kind);
      assert !DetectedAt(pairs, k - 1, kind);
      RecordSpec(DatesAfter(pairs, k - 1), pairs[k - 1].news, pairs[k - 1].bound, kind);
    }
  }

  /** The first pair that detects a type fixes its date; later pairs do not
      change it. */
  lemma {:induction false} FirstDetectionWins(pairs: seq<Pair>, k: nat, kind: string, i: nat)
    requires i < k <= |pairs|
    requires DetectedAt(pairs, i, kind)
    requires forall j | 0 <= j < i :: !DetectedAt(pairs, j, kind)
    ensures kind in DatesAfter(pairs, k)
    ensures DatesAfter(pairs, k)[kind] == PairDate(pairs, i, kind)
  {
    RecordSpec(DatesAfter(pairs, k - 1), pairs[k - 1].news, pairs[k - 1].bound, kind);
    if i == k - 1 {
      NeverDetected(pairs, k - 1, kind);
    } else {
      FirstDetectionWins(pairs, k - 1, kind, i);
    }
  }

  /** `addPastDates` keeps the list: the same achievements in the same order,
      with only their dates possibly changed; with no achievements it gives
      none, and with fewer than two snapshots it changes nothing. */
  lemma PastDatesShape(cfg: Config, achs: seq<Achievement>, history: seq<Snapshot>, now: int)
    requires ValidConfig(cfg)
    ensures var r := PastDates(cfg, achs, history, now);
      && |r| == |achs|
      && (forall n | 0 <= n < |achs| :: r[n].(createdAt := achs[n].createdAt) == achs[n])
      && (|history| < 2 ==> r == achs)
  {
  }

  /** An achievement whose type some pair of the scanned history detects gets
      the date of the first such pair: the earlier of its detection date and
      the older snapshot's creation time. */
  lemma PastDatesDetected(cfg: Config, achs: seq<Achievement>, history: seq<Snapshot>, now: int, n: nat, i: nat)
    requires ValidConfig(cfg)
    requires n < |achs|
    requires i < |ScannedPairs(cfg, history, now)|
    requires DetectedAt(ScannedPairs(cfg, history, now), i, achs[n].kind)
    requires forall j | 0 <= j < i :: !DetectedAt(ScannedPairs(cfg, history, now), j, achs[n].kind)
    ensures PastDates(cfg, achs, history, now)[n] ==
      achs[n].(createdAt := PairDate(ScannedPairs(cfg, history, now), i, achs[n].kind))
  {
    var pairs := ScannedPairs(cfg, history, now);
    FirstDetectionWins(pairs, |pairs|, achs[n].kind, i);
  }

  /** That date is the older snapshot's creation time or earlier: epoch 0
      when the metric was untracked before the detection, else `now`, capped
      by that creation time. */
  lemma PastDatesDetectedDate(cfg: Config, achs: seq<Achievement>, history: seq<Snapshot>, now: int, n: nat, i: nat)
    requires ValidConfig(cfg)
    requires n < |achs|
    requires i < |ScannedPairs(cfg, history, now)|
    requires DetectedAt(ScannedPairs(cfg, history, now), i, achs[n].kind)
    requires forall j | 0 <= j < i :: !DetectedAt(ScannedPairs(cfg, history, now), j, achs[n].kind)
    ensures var bound := Take(history, HistoryLimit)[i + 1].createdAt;
      PastDates(cfg, achs, history, now)[n].createdAt in {Min(EpochZero, bound), Min(now, bound)}
  {
    var snaps := Take(history, HistoryLimit);
    var pairs := ScannedPairs(cfg, history, now);
    PastDatesDetected(cfg, achs, history, now, n, i);
    PairsAt(cfg, snaps, |snaps| - 1, now, i);
    PairDateBetween(pairs, i, achs[n].kind, EpochZero, now);
  }

  /** When every detection of pair `i` is dated `a` or `b`, the date it
      assigns is one of them capped by the pair's bound. */
  lemma PairDateBetween(pairs: seq<Pair>, i: nat, kind: string, a: int, b: int)
    requires i < |pairs|
    requires DetectedAt(pairs, i, kind)
    requires forall j | 0 <= j < |pairs[i].news| :: pairs[i].news[j].createdAt in {a, b}
    ensures PairDate(pairs, i, kind) in {Min(a, pairs[i].bound), Min(b, pairs[i].bound)}
  {
  }

  /** An achievement whose type no pair of the scanned history detects keeps
      its date. */
  lemma PastDatesUndetected(cfg: Config, achs: seq<Achievement>, history: seq<Snapshot>, now: int, n: nat)
    requires ValidConfig(cfg)
    requires n < |achs|
    requires forall j | 0 <= j < |ScannedPairs(cfg, history, now)| ::
      !DetectedAt(ScannedPairs(cfg, history, now), j, achs[n].kind)
    ensures PastDates(cfg, achs, history, now)[n] == achs[n]
  {
    var pairs := ScannedPairs(cfg, history, now);
    NeverDetected(pairs, |pairs|, achs[n].kind);
  }

  /** The `forEach` over one pair's detections, as a loop updating the date
      map in place. */
  method RecordDetections(dateMap: map<string, int>, news: seq<Dated>, bound: int)
    returns (m: map<string, int>)
    ensures m == Record(dateMap, news, bound)
  {
    m := dateMap;
    for j := 0 to |news|
      invariant m == Record(dateMap, news[..j], bound)
    {
      var a := news[j];
      assert news[..j + 1][..j] == news[..j];
      if a.def.kind !in m {
        m := m[a.def.kind := Min(a.createdAt, bound)];
      }
    }
    assert news[..|news|] == news;
  }

  /** The loop over the pairs of a history of at least two snapshots. */
  method ScanPairs(cfg: Config, snaps: seq<Snapshot>, now: int) returns (dateMap: map<string, int>)
    requires ValidConfig(cfg)
    requires |snaps| >= 2
    ensures dateMap == DatesAfter(Pairs(cfg, snaps, |snaps| - 1, now), |snaps| - 1)
  {
    dateMap := map[];
    for i := 0 to |snaps| - 1
      invariant dateMap == DatesAfter(Pairs(cfg, snaps, i, now), i)
    {
      var news := NewAchievements(cfg, Some(snaps[i]), Some(snaps[i + 1]), now);
      ScanStep(cfg, snaps, i, now);
      dateMap := RecordDetections(dateMap, news, snaps[i + 1].createdAt);
    }
  }

  /** `addPastDates`: the scan over at most `HistoryLimit` snapshots, then the
      dates applied to the achievements. */
  method AddPastDates(cfg: Config, achs: seq<Achievement>, history: seq<Snapshot>, now: int)
    returns (r: seq<Achievement>)
    requires ValidConfig(cfg)
    ensures r == PastDates(cfg, achs, history, now)
  {
    if |achs| == 0 {
      return [];
    }
    var snaps := Take(history, HistoryLimit);
    if |snaps| < 2 {
      return achs;
    }
    var dateMap := ScanPairs(cfg, snaps, now);
    r := ApplyDates(achs, dateMap);
  }
}
