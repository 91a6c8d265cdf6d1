/**
 What a reader sees: newest-first reads of the window tables, after a flush and
 between flushes, and the scores computed from them.
 */
module Reads {
  import opened Seqs
  import opened Fills
  import opened FeatureSpec
  import opened Windows
  import opened Lifetimes
  import opened Tables
  import opened Convergence
  import opened Scorer
  import opened Conservation

  /** SELECT ... LIMIT 1 on a window partition: the row of the newest bucket, if any. */
  ghost function ReadLatest(t: Tables, coin: string, w: Window): WindowRow {
    if b :| IsLatest(t, coin, w, b) && t[BucketKey(coin, w, b)].BucketRow? then Some(t[BucketKey(coin, w, b)].snap)
    else None
  }

  function OpenSnap(h: seq<Fill>, coin: string, w: Window): Snapshot {
    SnapAt(h, coin, w, OpenTs(h, coin, w))
  }

  lemma LatestIsUnique(t: Tables, coin: string, w: Window, b: int, b': int)
    requires IsLatest(t, coin, w, b) && IsLatest(t, coin, w, b')
    ensures b == b'
  {
  }

  lemma {:induction false} ReadAfterFlush(t: Tables, h: seq<Fill>, sink: Sink, coin: string, w: Window)
    requires Matches(t, h, sink) && coin in Distinct(h, CoinOf)
    ensures ReadLatest(t, coin, w) == Some(OpenSnap(h, coin, w))
  {
    hide SnapAt, OpenTs, Matches, Distinct;
    ReadReturnsOpenSnapshot(t, h, sink, coin, w);
    var b := OpenTs(h, coin, w);
    forall b' | IsLatest(t, coin, w, b') ensures b' == b {
      LatestIsUnique(t, coin, w, b, b');
    }
  }

  /** Once a flush is applied, the score read from the tables is the score of the live engine, and in range. */
  lemma TableScoreIsEngineScore(exp: real -> real, t: Tables, h: seq<Fill>, sink: Sink, coin: string)
    requires Exponential(exp) && Matches(t, h, sink) && NonNegative(h) && coin in Distinct(h, CoinOf)
    ensures var w1m, w5m := ReadLatest(t, coin, OneMin), ReadLatest(t, coin, FiveMin);
            var w1h := ReadLatest(t, coin, OneHour);
            && UnusualAccumulation(exp, w1m, w5m, w1h) ==
               UnusualAccumulation(exp, Some(OpenSnap(h, coin, OneMin)), Some(OpenSnap(h, coin, FiveMin)),
                                   Some(OpenSnap(h, coin, OneHour)))
            && 0.0 < UnusualAccumulation(exp, w1m, w5m, w1h).score < 1.0
            && VolumeRatio(w1m, w1h) <= 60.0
  {
    hide SnapshotOf, OpenTs, Matches, Distinct, UnusualAccumulation, VolumeRatio, ReadLatest, Group;
    ReadAfterFlush(t, h, sink, coin, OneMin);
    ReadAfterFlush(t, h, sink, coin, FiveMin);
    ReadAfterFlush(t, h, sink, coin, OneHour);
    OneStateRatio(h, coin);
    var b := OpenTs(h, coin, OneMin);
    var fs := BucketFills(h, coin, OneMin, b);
    BucketFillsNonNegative(h, coin, OneMin, b);
    EngineRowsAreReachable(b, fs, h);
    ScoreInRange(exp, Some(OpenSnap(h, coin, OneMin)), Some(OpenSnap(h, coin, FiveMin)),
                 Some(OpenSnap(h, coin, OneHour)));
  }

  lemma BucketFillsNonNegative(h: seq<Fill>, coin: string, w: Window, b: int)
    requires NonNegative(h)
    ensures NonNegative(BucketFills(h, coin, w, b))
  {
    hide Fill.Notional, SlotOf, Filter;
    FilterMembers(h, KeyIs(SlotOf(w), (coin, b)));
  }

  // ---------- reads between flushes ----------

  /** The tables once the loop has consumed h, with every issued write applied. */
  function TablesOf(h: seq<Fill>, flushes: set<nat>, sink: Sink): Tables {
    ApplyAll(map[], LoopLog(h, flushes, sink))
  }

  /**
   The row that a read returns when the last flush was after m fills: the open
   bucket as of that flush if it is still open, or else the newest closed bucket.
   */
  function VisibleRow(h: seq<Fill>, m: nat, coin: string, w: Window): WindowRow
    requires m <= |h|
  {
    if StillOpen(h, m, coin, w) then Some(OpenSnap(h[..m], coin, w))
    else
      match LastClosed(h, coin, w)
      case None => None
      case Some(b) => Some(RowSnap(h, coin, w, b))
  }

  /** The row of one bucket: as it closed, or as of the flush after m fills if it is still open. */
  function BucketRowAt(h: seq<Fill>, m: nat, coin: string, w: Window, b: int): Option<TableRow>
    requires m <= |h|
  {
    if ClosedBucket(h, coin, w, b) then Some(BucketRow(RowSnap(h, coin, w, b)))
    else if StillOpen(h, m, coin, w) && b == OpenTs(h, coin, w) then Some(BucketRow(OpenSnap(h[..m], coin, w)))
    else None
  }

  lemma RowBetweenFlushes(h: seq<Fill>, flushes: set<nat>, sink: Sink, coin: string, w: Window, b: int)
    ensures Lookup(TablesOf(h, flushes, sink), BucketKey(coin, w, b)) ==
            BucketRowAt(h, LastFlushed(|h|, flushes), coin, w, b)
  {
    hide Distinct, Lifetime, BucketFills, OpenTs, SnapAt, LoopLog, ApplyAll, Lookup;
    var m, key := LastFlushed(|h|, flushes), BucketKey(coin, w, b);
    TablesBetweenFlushes(h, flushes, sink, key);
    LifetimeUnpassed(h, coin, w, b);
    if !Passed(h, coin, w, b) {
      PrefixUnpassed(h, m, coin, w, b);
      LifetimeUnpassed(h[..m], coin, w, b);
      OpenBucketOnly(h[..m], coin, w, b);
      if coin in Distinct(h[..m], CoinOf) {
        OpenUntilClosed(h, m, coin, w);
      }
    }
  }

  /** What a read returns at any moment, under any flush schedule. */
  lemma ReadIsVisibleRow(h: seq<Fill>, flushes: set<nat>, sink: Sink, coin: string, w: Window)
    ensures ReadLatest(TablesOf(h, flushes, sink), coin, w) == VisibleRow(h, LastFlushed(|h|, flushes), coin, w)
  {
    hide Distinct, RowFills, RowSnap, OpenTs, SnapAt, TablesOf;
    var t, m := TablesOf(h, flushes, sink), LastFlushed(|h|, flushes);
    LookupMeans(t);
    forall b ensures Lookup(t, BucketKey(coin, w, b)) == BucketRowAt(h, m, coin, w, b) {
      RowBetweenFlushes(h, flushes, sink, coin, w, b);
    }
    LastClosedIsNewest(h, coin, w);
    if StillOpen(h, m, coin, w) {
      OpenIsUnpassed(h, coin, w);
      OnlyLatest(t, coin, w, OpenTs(h, coin, w));
    } else if LastClosed(h, coin, w).Some? {
      OnlyLatest(t, coin, w, LastClosed(h, coin, w).value);
    } else {
      assert forall b :: BucketKey(coin, w, b) !in t;
    }
  }

  lemma OnlyLatest(t: Tables, coin: string, w: Window, b: int)
    requires IsLatest(t, coin, w, b) && t[BucketKey(coin, w, b)].BucketRow?
    ensures ReadLatest(t, coin, w) == Some(t[BucketKey(coin, w, b)].snap)
  {
    forall b' | IsLatest(t, coin, w, b') ensures b' == b {
      LatestIsUnique(t, coin, w, b, b');
    }
  }

  // ---------- the rate ratio between flushes ----------

  /** The rate ratio that a reader computes. */
  ghost function RatioRead(t: Tables, coin: string): real {
    VolumeRatio(ReadLatest(t, coin, OneMin), ReadLatest(t, coin, OneHour))
  }

  /** Has a minute of the coin closed since the first m fills? */
  predicate MinuteClosedSince(h: seq<Fill>, m: nat, coin: string)
    requires m <= |h|
  {
    LastClosed(h, coin, OneMin) != LastClosed(h[..m], coin, OneMin)
  }

  lemma VisibleNonNegative(h: seq<Fill>, m: nat, coin: string, w: Window)
    requires m <= |h| && NonNegative(h)
    ensures Volume(VisibleRow(h, m, coin, w)) >= 0.0
  {
    hide Distinct, OpenTs, SnapAt, Fill.Notional;
    VolumeNonNegative(h[..m], coin, w, OpenTs(h[..m], coin, w));
    if LastClosed(h, coin, w).Some? {
      var b := LastClosed(h, coin, w).value;
      LifetimeUnpassed(h, coin, w, b);
      VolumeNonNegative(Lifetime(h, coin, w, b), coin, w, b);
    }
  }

  /** Before any minute closes, both rows of a coin are of one engine state, or there is no minute row. */
  lemma VisibleBeforeClose(h: seq<Fill>, m: nat, coin: string)
    requires m <= |h| && !MinuteClosedSince(h, m, coin)
    ensures coin in Distinct(h[..m], CoinOf) ==>
              && VisibleRow(h, m, coin, OneMin) == Some(OpenSnap(h[..m], coin, OneMin))
              && VisibleRow(h, m, coin, OneHour) == Some(OpenSnap(h[..m], coin, OneHour))
    ensures coin !in Distinct(h[..m], CoinOf) ==> VisibleRow(h, m, coin, OneMin) == None
  {
    hide Distinct, SnapAt, OpenTs;
    if coin in Distinct(h[..m], CoinOf) {
      OpenUntilClosed(h, m, coin, OneMin);
      assert OpenTs(h[..m], coin, OneHour) == OpenTs(h, coin, OneHour) by {
        OpenHourFollows(h, m, coin);
      }
    } else {
      LastClosedIsNewest(h[..m], coin, OneMin);
    }
  }

  lemma OpenHourFollows(h: seq<Fill>, m: nat, coin: string)
    requires m <= |h| && OpenTs(h[..m], coin, OneMin) == OpenTs(h, coin, OneMin)
    ensures OpenTs(h[..m], coin, OneHour) == OpenTs(h, coin, OneHour)
  {
    hide BucketStart, LatestTs, Group;
    CoarserBucket(LatestTs(Group(h[..m], CoinOf, coin)), LatestTs(Group(h, CoinOf, coin)), OneMin, OneHour);
  }

  /** Once a minute has closed since the flush, the minute read is the newest closed one, in its final form. */
  lemma VisibleAfterClose(h: seq<Fill>, m: nat, coin: string)
    requires m <= |h| && MinuteClosedSince(h, m, coin)
    ensures LastClosed(h, coin, OneMin).Some?
    ensures VisibleRow(h, m, coin, OneMin) == Some(RowSnap(h, coin, OneMin, LastClosed(h, coin, OneMin).value))
  {
    hide Distinct, SnapAt, OpenTs, Lifetime;
    if coin in Distinct(h[..m], CoinOf) {
      OpenUntilClosed(h, m, coin, OneMin);
    } else {
      LastClosedIsNewest(h[..m], coin, OneMin);
    }
  }

  lemma RatioAfterClose(h: seq<Fill>, flushes: set<nat>, sink: Sink, coin: string)
    requires MinuteClosedSince(h, LastFlushed(|h|, flushes), coin)
    requires Volume(VisibleRow(h, LastFlushed(|h|, flushes), coin, OneHour)) >= 0.0
    ensures LastClosed(h, coin, OneMin).Some?
    ensures var minute := RowSnap(h, coin, OneMin, LastClosed(h, coin, OneMin).value);
            var hour := Volume(VisibleRow(h, LastFlushed(|h|, flushes), coin, OneHour));
            RatioRead(TablesOf(h, flushes, sink), coin) <= 60.0 <==>
            minute.volume <= if hour == 0.0 then 3600.0 * TINY else hour
  {
    hide VisibleRow, RowSnap, TablesOf, VolumeRatio, LastClosed, ReadLatest;
    var m := LastFlushed(|h|, flushes);
    ReadIsVisibleRow(h, flushes, sink, coin, OneMin);
    ReadIsVisibleRow(h, flushes, sink, coin, OneHour);
    VisibleAfterClose(h, m, coin);
    RatioWithinSixty(VisibleRow(h, m, coin, OneMin), VisibleRow(h, m, coin, OneHour));
  }

  /**
   Exactly when a reader's rate ratio stays within 60, at any moment and under
   any flush schedule: while no minute of the coin has closed since the last
   flush, always; after that, exactly while the newest closed minute has no more
   volume than the hour row, which is as old as that flush unless it has closed.
   */
  lemma RatioBetweenFlushes(h: seq<Fill>, flushes: set<nat>, sink: Sink, coin: string)
    requires NonNegative(h)
    ensures var m := LastFlushed(|h|, flushes);
            var hour := Volume(VisibleRow(h, m, coin, OneHour));
            RatioRead(TablesOf(h, flushes, sink), coin) <= 60.0 <==>
            MinuteClosedSince(h, m, coin) ==>
              LastClosed(h, coin, OneMin).Some? &&
              RowSnap(h, coin, OneMin, LastClosed(h, coin, OneMin).value).volume <=
              if hour == 0.0 then 3600.0 * TINY else hour
  {
    hide VisibleRow, RowSnap, TablesOf, VolumeRatio, LastClosed, ReadLatest, OpenSnap, Distinct, Fill.Notional;
    var m := LastFlushed(|h|, flushes);
    VisibleNonNegative(h, m, coin, OneHour);
    if MinuteClosedSince(h, m, coin) {
      RatioAfterClose(h, flushes, sink, coin);
    } else {
      ReadIsVisibleRow(h, flushes, sink, coin, OneMin);
      ReadIsVisibleRow(h, flushes, sink, coin, OneHour);
      VisibleBeforeClose(h, m, coin);
      if coin in Distinct(h[..m], CoinOf) {
        assert VolumeRatio(Some(OpenSnap(h[..m], coin, OneMin)), Some(OpenSnap(h[..m], coin, OneHour))) <= 60.0 by {
          OneStateRatioOpen(h[..m], coin);
        }
      } else {
        RatioWithinSixty(None, VisibleRow(h, m, coin, OneHour));
      }
    }
  }

  lemma OneStateRatioOpen(h: seq<Fill>, coin: string)
    requires NonNegative(h)
    ensures VolumeRatio(Some(OpenSnap(h, coin, OneMin)), Some(OpenSnap(h, coin, OneHour))) <= 60.0
  {
    hide SnapAt, OpenTs, VolumeRatio;
    OneStateRatio(h, coin);
  }

  // ---------- when it does exceed sixty ----------

  lemma LastClosedSnoc(h: seq<Fill>, f: Fill, coin: string, w: Window)
    ensures LastClosed(h + [f], coin, w) ==
            if f.coin == coin && Rolls(h, f, w) then Some(OpenTs(h, coin, w)) else LastClosed(h, coin, w)
  {
    assert (h + [f])[..|h|] == h;
  }

  lemma NothingYet(coin: string)
    ensures coin !in Distinct<Fill, string>([], CoinOf)
    ensures forall w :: LastClosed([], coin, w) == None
    ensures forall w: Window, b :: BucketFills([], coin, w, b) == []
  {
  }

  /**
   Before the first flush, while the first hour of a coin is still open, a read
   can pair a closed minute with no hour at all: the ratio then exceeds any
   bound that one engine state obeys.
   */
  lemma UnflushedRatioIsUnbounded(h: seq<Fill>, sink: Sink, coin: string, b: int)
    requires forall f :: f in h && f.coin == coin ==> BucketStart(f.tsMs, OneHour) == OpenTs(h, coin, OneHour)
    requires LastClosed(h, coin, OneMin) == Some(b) && RowSnap(h, coin, OneMin, b).volume > 3600.0 * TINY
    ensures RatioRead(TablesOf(h, {}, sink), coin) > 60.0
  {
    hide OpenTs, BucketStart, RowSnap, RowFills, Distinct, TablesOf, RatioRead, LastClosed;
    LastFlushedIsLast(|h|, {});
    assert h[..0] == [];
    NothingYet(coin);
    assert LastClosed(h, coin, OneHour) == None by {
      LastClosedIsNewest(h, coin, OneHour);
      if LastClosed(h, coin, OneHour).Some? {
        FirstHourIsOpen(h, coin, LastClosed(h, coin, OneHour).value);
      }
    }
    RatioAfterClose(h, {}, sink, coin);
  }

  lemma FirstHourIsOpen(h: seq<Fill>, coin: string, b: int)
    requires forall f :: f in h && f.coin == coin ==> BucketStart(f.tsMs, OneHour) == OpenTs(h, coin, OneHour)
    ensures !ClosedBucket(h, coin, OneHour, b)
  {
    hide OpenTs, BucketStart, Distinct, Lifetime;
    LifetimeUnpassed(h, coin, OneHour, b);
    var fs := RowFills(h, coin, OneHour, b);
    if fs != [] {
      GroupMember(Lifetime(h, coin, OneHour, b), SlotOf(OneHour), (coin, b), fs[0]);
      assert fs[0] in h;
    }
  }

  lemma FirstMinutes()
    ensures BucketStart(0, OneMin) == BucketStart(1000, OneMin) == 0 && BucketStart(60000, OneMin) == 60
    ensures BucketStart(0, OneHour) == BucketStart(1000, OneHour) == BucketStart(60000, OneHour) == 0
  {
  }

  lemma FirstFill(f: Fill)
    requires f.tsMs == 0
    ensures f.coin in Distinct([f], CoinOf) && OpenTs([f], f.coin, OneMin) == OpenTs([f], f.coin, OneHour) == 0
    ensures LastClosed([f], f.coin, OneMin) == LastClosed([f], f.coin, OneHour) == None
    ensures BucketFills([f], f.coin, OneMin, 0) == [f] && BucketFills([f], f.coin, OneHour, 0) == [f]
  {
    hide OpenTs, BucketStart, Distinct, BucketFills, LastClosed;
    FirstMinutes();
    NothingYet(f.coin);
    var none: seq<Fill> := [];
    assert none + [f] == [f];
    DistinctSnoc(none, f, CoinOf);
    OpenTsSnoc(none, f, f.coin, OneMin);
    OpenTsSnoc(none, f, f.coin, OneHour);
    LastClosedSnoc(none, f, f.coin, OneMin);
    LastClosedSnoc(none, f, f.coin, OneHour);
    BucketFillsSnoc(none, f, f.coin, OneMin, 0);
    BucketFillsSnoc(none, f, f.coin, OneHour, 0);
  }

  /** A fill in the second minute closes the first one, which holds all the fills so far. */
  lemma SecondMinute(h: seq<Fill>, g: Fill)
    requires g.tsMs == 60000 && g.coin in Distinct(h, CoinOf)
    requires OpenTs(h, g.coin, OneMin) == OpenTs(h, g.coin, OneHour) == 0
    ensures LastClosed(h + [g], g.coin, OneMin) == Some(0)
    ensures LastClosed(h + [g], g.coin, OneHour) == LastClosed(h, g.coin, OneHour)
    ensures OpenTs(h + [g], g.coin, OneHour) == 0
    ensures RowSnap(h + [g], g.coin, OneMin, 0).volume == Sum(BucketFills(h, g.coin, OneMin, 0), NotionalOf)
  {
    hide OpenTs, BucketStart, Distinct, BucketFills, LastClosed, SnapAt, Lifetime, Sum;
    FirstMinutes();
    OpenTsSnoc(h, g, g.coin, OneHour);
    LastClosedSnoc(h, g, g.coin, OneMin);
    LastClosedSnoc(h, g, g.coin, OneHour);
    LifetimeSnoc(h, g, g.coin, OneMin, 0);
    BucketFillsSnoc(h, g, g.coin, OneMin, 0);
    SnapAtVolume(h + [g], g.coin, OneMin, 0);
  }

  /** Two fills a minute apart, read before any flush: there is no hour row. */
  lemma MixedReadExceedsSixty(f: Fill, g: Fill)
    requires f.coin == g.coin && f.tsMs == 0 && g.tsMs == 60000 && f.Notional() == 1.0
    ensures RatioRead(TablesOf([f, g], {}, Off), f.coin) > 60.0
  {
    hide RowSnap, OpenTs, RatioRead, BucketStart, Distinct, Fill.Notional, TablesOf, LastClosed, BucketFills;
    var h := [f, g];
    assert h == [f] + [g];
    FirstMinutes();
    FirstFill(f);
    SecondMinute([f], g);
    assert forall x :: x in h ==> x == f || x == g;
    UnflushedRatioIsUnbounded(h, Off, f.coin, 0);
  }

  /**
   A flush does not help for long: after a fill of 1, a flush and a fill of 100
   in the same minute, the next minute's fill makes the reader pair the whole
   minute with the hour as it was at the flush.
   */
  lemma StaleHourExceedsSixty(f: Fill, g: Fill, k: Fill)
    requires f.coin == g.coin == k.coin && f.tsMs == 0 && g.tsMs == 1000 && k.tsMs == 60000
    requires f.Notional() == 1.0 && g.Notional() == 100.0
    ensures VisibleRow([f, g, k], 1, f.coin, OneHour).Some?
    ensures RatioRead(TablesOf([f, g, k], {1}, Off), f.coin) == 6060.0
  {
    hide RowSnap, OpenTs, BucketStart, Distinct, Fill.Notional, TablesOf, LastClosed, BucketFills, SnapAt, ReadLatest;
    var h, c := [f, g, k], f.coin;
    assert [f, g] == [f] + [g] && h == [f, g] + [k] && h[..1] == [f];
    FirstMinutes();
    FirstFill(f);
    OpenTsSnoc([f], g, c, OneMin);
    OpenTsSnoc([f], g, c, OneHour);
    DistinctSnoc([f], g, CoinOf);
    BucketFillsSnoc([f], g, c, OneMin, 0);
    SecondMinute([f, g], k);
    SumOfPair(f, g);
    SnapAtVolume([f], c, OneHour, 0);
    assert LastFlushed(2, {1}) == 1;
    VisibleAfterClose(h, 1, c);
    ReadIsVisibleRow(h, {1}, Off, c, OneMin);
    ReadIsVisibleRow(h, {1}, Off, c, OneHour);
  }

  lemma SumOfPair(f: Fill, g: Fill)
    ensures Sum([f], NotionalOf) == f.Notional() && Sum([f, g], NotionalOf) == f.Notional() + g.Notional()
  {
    assert [f, g] == [f] + [g] && [f] == [] + [f];
    SumSnoc([f], g, NotionalOf);
    SumSnoc([], f, NotionalOf);
  }
}
