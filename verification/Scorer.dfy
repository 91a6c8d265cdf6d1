/**
 The unusual-accumulation score over the three window rows of a coin, and the
 dashboard's smart-flow signal.  The exponential is abstract: positive,
 strictly increasing, and 1 at 0.  Rounding to four places is left out.
 */
module Scorer {
  import opened Seqs
  import opened Fills
  import opened FeatureSpec
  import opened Reals
  import opened Bounds
  import opened Conservation

  type WindowRow = Option<Snapshot>

  ghost predicate Exponential(exp: real -> real) {
    && exp(0.0) == 1.0
    && (forall x :: exp(x) > 0.0)
    && (forall x, y :: x < y ==> exp(x) < exp(y))
  }

  const TINY: real := 0.000000001

  function OrTiny(x: real): real { if x == 0.0 then TINY else x }

  function Volume(row: WindowRow): real { if row.Some? then row.value.volume else 0.0 }

  function Rate(row: WindowRow, seconds: real): real
    requires seconds != 0.0
  {
    if row.None? then 0.0 else row.value.volume / seconds
  }

  /** Logistic squash centred at mid. */
  function Sig(exp: real -> real, x: real, mid: real): real
    requires Exponential(exp)
  {
    1.0 / (1.0 + exp(-(x - mid)))
  }

  function VolumeRatio(w1m: WindowRow, w1h: WindowRow): real
    requires OrTiny(Rate(w1h, 3600.0)) != 0.0
  {
    Rate(w1m, 60.0) / OrTiny(Rate(w1h, 3600.0))
  }

  datatype Tag = Unusual | Elevated | Normal

  datatype Score = Score(score: real, volSpike: real, imbalance: real, concentration: real, bigFlow: real, tag: Tag)

  function Divide(x: real, y: real): real
    requires y != 0.0
  {
    x / y
  }

  /** The 5-minute row is an argument of the source's function but no part of the score. */
  function UnusualAccumulation(exp: real -> real, w1m: WindowRow, w5m: WindowRow, w1h: WindowRow): Score
    requires Exponential(exp)
  {
    var volSpike := Sig(exp, VolumeRatio(w1m, w1h), 3.0);
    var imbalance := Max(0.0, if w1m.Some? then w1m.value.imbalance else 0.0);
    var hhi := if w1m.Some? then w1m.value.hhi else 0.0;
    var concentration := Min(1.0, Divide(hhi, 0.2));
    var big := if w1m.Some? then w1m.value.largeFlow else 0.0;
    var bigFlow := Max(0.0, Min(1.0, Divide(big, OrTiny(Volume(w1m)))));
    var score := 0.35 * volSpike + 0.30 * imbalance + 0.20 * concentration + 0.15 * bigFlow;
    Score(score, volSpike, imbalance, concentration, bigFlow,
          if score >= 0.6 then Unusual else if score >= 0.4 then Elevated else Normal)
  }

  function SmartNorm(w5m: WindowRow): real {
    var smart := if w5m.Some? then w5m.value.smartFlow else 0.0;
    Max(-1.0, Min(1.0, Divide(smart, OrTiny(Volume(w5m)))))
  }

  datatype Action = Long | Short | Hold

  function Signal(score: real, smartNorm: real): Action {
    if score >= 0.5 && smartNorm > 0.05 then Long else if smartNorm < -0.15 then Short else Hold
  }

  /** A row that the engine can have written. */
  ghost predicate Reachable(row: WindowRow) {
    row.Some? ==> exists gross :: InRange(row.value, gross)
  }

  /** Rows built from any bucket of non-negative fills are reachable, whatever the wallets weigh. */
  lemma EngineRowsAreReachable(b: int, fs: seq<Fill>, h: seq<Fill>)
    requires NonNegative(fs)
    ensures Reachable(Some(SnapshotOf(b, fs, h)))
  {
    hide SnapshotOf, FlowsOf, GrossFlow;
    SnapshotInRange(b, fs, h);
  }

  lemma SigRange(exp: real -> real, x: real, mid: real)
    requires Exponential(exp)
    ensures 0.0 < Sig(exp, x, mid) < 1.0
  {
    Reciprocal(1.0 + exp(-(x - mid)));
  }

  lemma Reciprocal(d: real)
    requires d > 1.0
    ensures 0.0 < 1.0 / d < 1.0
  {
  }

  /** The squash rises strictly, and is one half at its centre. */
  lemma SigRises(exp: real -> real, x: real, y: real, mid: real)
    requires Exponential(exp) && x < y
    ensures Sig(exp, x, mid) < Sig(exp, y, mid)
    ensures Sig(exp, mid, mid) == 0.5
  {
    ReciprocalFalls(1.0 + exp(-(y - mid)), 1.0 + exp(-(x - mid)));
  }

  lemma ReciprocalFalls(d: real, e: real)
    requires 0.0 < d < e
    ensures 1.0 / e < 1.0 / d
  {
    assert 1.0 / d - 1.0 / e == (e - d) / (d * e);
  }

  lemma QuotientAtMostOne(x: real, y: real)
    requires y > 0.0 && Abs(x) <= y
    ensures -1.0 <= x / y <= 1.0
  {
    QuotientRange(x, y);
  }

  /** Flow over volume stays in [-1, 1] by itself: flow never exceeds volume, and is 0 when volume is. */
  lemma FlowOverVolume(flow: real, volume: real)
    requires Abs(flow) <= volume
    ensures -1.0 <= Divide(flow, OrTiny(volume)) <= 1.0
  {
    QuotientAtMostOne(flow, OrTiny(volume));
  }

  /** End-to-end range: on reachable rows every component and the score lie in [0, 1]. */
  lemma ScoreInRange(exp: real -> real, w1m: WindowRow, w5m: WindowRow, w1h: WindowRow)
    requires Exponential(exp) && Reachable(w1m)
    ensures var s := UnusualAccumulation(exp, w1m, w5m, w1h);
            && 0.0 < s.volSpike < 1.0 && 0.0 <= s.imbalance <= 1.0
            && 0.0 <= s.concentration <= 1.0 && 0.0 <= s.bigFlow <= 1.0
            && 0.0 < s.score < 1.0
  {
    hide Sig, VolumeRatio;
    SigRange(exp, VolumeRatio(w1m, w1h), 3.0);
    if w1m.Some? {
      var gross :| InRange(w1m.value, gross);
      assert w1m.value.hhi >= 0.0 by { HhiSign(w1m.value, gross); }
    }
  }

  lemma HhiSign(s: Snapshot, gross: real)
    requires InRange(s, gross)
    ensures 0.0 <= s.hhi <= 1.0
    ensures gross > 0.0 && s.activeWallets <= 5 ==> s.hhi >= 0.2
  {
    if gross > 0.0 {
      OneOver(s.activeWallets);
    }
  }

  lemma OneOver(n: nat)
    requires n > 0
    ensures 1.0 / n as real > 0.0
    ensures n <= 5 ==> 1.0 / n as real >= 0.2
  {
    if n <= 5 {
      var x := 1.0 / n as real;
      assert x * n as real == 1.0;
      assert x * (5 - n) as real >= 0.0;
    }
  }

  /** A bucket with flow and at most five active wallets is always fully concentrated. */
  lemma FewWalletsConcentrate(exp: real -> real, s: Snapshot, gross: real, w5m: WindowRow, w1h: WindowRow)
    requires Exponential(exp) && InRange(s, gross) && gross > 0.0 && s.activeWallets <= 5
    ensures UnusualAccumulation(exp, Some(s), w5m, w1h).concentration == 1.0
  {
    hide Sig, VolumeRatio;
    HhiSign(s, gross);
  }

  /** The upper clamp of big_flow and both clamps of smart_norm never bind. */
  lemma ClampsNeverBind(exp: real -> real, w1m: WindowRow, w5m: WindowRow, w1h: WindowRow)
    requires Exponential(exp) && Reachable(w1m) && Reachable(w5m)
    ensures UnusualAccumulation(exp, w1m, w5m, w1h).bigFlow ==
            Max(0.0, if w1m.Some? then Divide(w1m.value.largeFlow, OrTiny(w1m.value.volume)) else 0.0)
    ensures SmartNorm(w5m) == if w5m.Some? then Divide(w5m.value.smartFlow, OrTiny(w5m.value.volume)) else 0.0
  {
    hide Sig, VolumeRatio, Divide;
    FlowOverVolume(0.0, 0.0);
    DivideZero(TINY);
    if w1m.Some? {
      var gross :| InRange(w1m.value, gross);
      FlowOverVolume(w1m.value.largeFlow, w1m.value.volume);
    }
    if w5m.Some? {
      var gross :| InRange(w5m.value, gross);
      FlowOverVolume(w5m.value.smartFlow, w5m.value.volume);
    }
  }

  lemma DivideZero(y: real)
    requires y != 0.0
    ensures Divide(0.0, y) == 0.0
  {
  }

  /** The ratio stays within 60 exactly when the minute's volume stays within the hour's. */
  lemma RatioWithinSixty(w1m: WindowRow, w1h: WindowRow)
    requires Volume(w1h) >= 0.0
    ensures VolumeRatio(w1m, w1h) <= 60.0 <==>
            Volume(w1m) <= if Volume(w1h) == 0.0 then 3600.0 * TINY else Volume(w1h)
  {
    var base := OrTiny(Rate(w1h, 3600.0));
    var short := Rate(w1m, 60.0);
    assert base > 0.0;
    assert short == Volume(w1m) / 60.0;
    QuotientBound(short, base, 60.0);
  }

  lemma QuotientBound(x: real, y: real, c: real)
    requires y > 0.0
    ensures x / y <= c <==> x <= c * y
  {
    var q := x / y;
    assert x == q * y;
    if q <= c {
      assert (c - q) * y >= 0.0;
    } else {
      assert (q - c) * y > 0.0;
    }
  }

  /** For snapshots of one engine state it always does. */
  lemma OneStateRatio(h: seq<Fill>, coin: string)
    requires NonNegative(h)
    ensures VolumeRatio(Some(SnapAt(h, coin, OneMin, OpenTs(h, coin, OneMin))),
                        Some(SnapAt(h, coin, OneHour, OpenTs(h, coin, OneHour)))) <= 60.0
  {
    hide SnapAt, OpenTs, VolumeRatio;
    var w1m, w1h := Some(SnapAt(h, coin, OneMin, OpenTs(h, coin, OneMin))),
                    Some(SnapAt(h, coin, OneHour, OpenTs(h, coin, OneHour)));
    OpenSnapshotsMonotone(h, coin, OneMin, OneHour);
    VolumeNonNegative(h, coin, OneMin, OpenTs(h, coin, OneMin));
    RatioWithinSixty(w1m, w1h);
  }

  lemma VolumeNonNegative(h: seq<Fill>, coin: string, w: Window, b: int)
    requires NonNegative(h)
    ensures SnapAt(h, coin, w, b).volume >= 0.0
  {
    hide Sum, Filter, Fill.Notional, SlotOf;
    FilterMembers(h, KeyIs(SlotOf(w), (coin, b)));
    SumNonNegative(BucketFills(h, coin, w, b), NotionalOf);
  }

  /** Without buy-side imbalance and large buying a coin is never labelled unusual accumulation. */
  lemma UnusualNeedsBuying(exp: real -> real, w1m: WindowRow, w5m: WindowRow, w1h: WindowRow)
    requires Exponential(exp) && Reachable(w1m)
    requires w1m.Some? ==> w1m.value.imbalance <= 0.0 && w1m.value.largeFlow <= 0.0
    ensures UnusualAccumulation(exp, w1m, w5m, w1h).tag != Unusual
    ensures UnusualAccumulation(exp, w1m, w5m, w1h).score < 0.55
  {
    hide Sig, VolumeRatio, Divide;
    ScoreInRange(exp, w1m, w5m, w1h);
    ClampsNeverBind(exp, w1m, None, w1h);
    DivideZero(TINY);
    if w1m.Some? {
      var gross :| InRange(w1m.value, gross);
      DivideSign(w1m.value.largeFlow, OrTiny(w1m.value.volume));
    }
  }

  lemma DivideSign(x: real, y: real)
    requires y > 0.0
    ensures x <= 0.0 ==> Divide(x, y) <= 0.0
    ensures x >= 0.0 ==> Divide(x, y) >= 0.0
  {
    QuotientBound(x, y, 0.0);
    QuotientBound(-x, y, 0.0);
    assert (-x) / y == -(x / y);
  }

  // ---------- what each column does to the score ----------

  /** The rate ratio undone: minute and hour volumes per second, against 0.000000001 for an empty hour. */
  lemma RatioMeans(w1m: WindowRow, w1h: WindowRow)
    ensures var minute := if w1m.Some? then w1m.value.volume else 0.0;
            var hour := if w1h.Some? then w1h.value.volume else 0.0;
            VolumeRatio(w1m, w1h) * (if hour == 0.0 then 0.0000036 else hour) == 60.0 * minute
  {
    var base := OrTiny(Rate(w1h, 3600.0));
    DivideBack(Rate(w1m, 60.0), base);
    var ratio := VolumeRatio(w1m, w1h);
    assert ratio * (base * 3600.0) == ratio * base * 3600.0;
    assert base * 3600.0 == if Volume(w1h) == 0.0 then 0.0000036 else Volume(w1h);
  }

  /** The spike is the logistic of the ratio around 3, where it is one half. */
  lemma VolSpikeMeans(exp: real -> real, w1m: WindowRow, w5m: WindowRow, w1h: WindowRow)
    requires Exponential(exp)
    ensures var spike, ratio := UnusualAccumulation(exp, w1m, w5m, w1h).volSpike, VolumeRatio(w1m, w1h);
            && spike * (1.0 + exp(3.0 - ratio)) == 1.0
            && (ratio == 3.0 <==> spike == 0.5) && (ratio > 3.0 <==> spike > 0.5)
  {
    hide VolumeRatio, Sig, Divide;
    SpikeAt(exp, VolumeRatio(w1m, w1h));
  }

  lemma SpikeAt(exp: real -> real, x: real)
    requires Exponential(exp)
    ensures Sig(exp, x, 3.0) * (1.0 + exp(3.0 - x)) == 1.0
    ensures (x == 3.0 <==> Sig(exp, x, 3.0) == 0.5) && (x > 3.0 <==> Sig(exp, x, 3.0) > 0.5)
  {
    SigBack(exp, x, 3.0);
    hide Sig;
    SigRises(exp, x - 1.0, x, x);
    if x < 3.0 {
      SigRises(exp, x, 3.0, 3.0);
    } else if x > 3.0 {
      SigRises(exp, 3.0, x, 3.0);
    }
  }

  lemma SigBack(exp: real -> real, x: real, mid: real)
    requires Exponential(exp)
    ensures Sig(exp, x, mid) * (1.0 + exp(mid - x)) == 1.0
  {
    assert -(x - mid) == mid - x;
    DivideBack(1.0, 1.0 + exp(mid - x));
  }

  /** Everything else equal, the score rises strictly with the ratio, by 0.35 of the rise of the spike. */
  lemma ScoreRisesWithRatio(exp: real -> real, w1m: WindowRow, w5m: WindowRow, w5m': WindowRow,
                            w1h: WindowRow, w1h': WindowRow)
    requires Exponential(exp)
    ensures var s, s' := UnusualAccumulation(exp, w1m, w5m, w1h), UnusualAccumulation(exp, w1m, w5m', w1h');
            && s'.score - s.score == 0.35 * (s'.volSpike - s.volSpike)
            && (VolumeRatio(w1m, w1h) < VolumeRatio(w1m, w1h') <==> s.score < s'.score)
  {
    hide VolumeRatio, Sig, Divide;
    var x, y := VolumeRatio(w1m, w1h), VolumeRatio(w1m, w1h');
    if x < y {
      SigRises(exp, x, y, 3.0);
    } else if y < x {
      SigRises(exp, y, x, 3.0);
    }
  }

  /** A minute row without buy-side imbalance, concentration and large buying scores only its spike. */
  lemma SpikeOnly(exp: real -> real, w1m: WindowRow, w5m: WindowRow, w1h: WindowRow)
    requires Exponential(exp)
    requires w1m.Some? ==> w1m.value.imbalance <= 0.0 && w1m.value.hhi == 0.0
    requires w1m.Some? ==> w1m.value.largeFlow <= 0.0 <= w1m.value.volume
    ensures var s := UnusualAccumulation(exp, w1m, w5m, w1h); s.score == 0.35 * s.volSpike
  {
    hide VolumeRatio, Sig, Divide;
    DivideZero(0.2);
    DivideZero(TINY);
    if w1m.Some? {
      DivideSign(w1m.value.largeFlow, OrTiny(w1m.value.volume));
    }
  }

  lemma RatioReadsVolume(s: Snapshot, s': Snapshot, w1h: WindowRow)
    requires s.volume == s'.volume
    ensures VolumeRatio(Some(s), w1h) == VolumeRatio(Some(s'), w1h)
  {
  }

  /** Imbalance counts on the buy side only, with 0.30 per unit. */
  lemma ImbalanceCounts(exp: real -> real, s: Snapshot, y: real, w5m: WindowRow, w1h: WindowRow)
    requires Exponential(exp) && s.imbalance <= y
    ensures var x, s' := s.imbalance, s.(imbalance := y);
            var r, r' := UnusualAccumulation(exp, Some(s), w5m, w1h), UnusualAccumulation(exp, Some(s'), w5m, w1h);
            && (x >= 0.0 ==> r'.score - r.score == 0.30 * (y - x) && r.imbalance == x)
            && (y <= 0.0 ==> r'.score == r.score && r.imbalance == 0.0)
  {
    hide VolumeRatio, Sig, Divide;
    RatioReadsVolume(s, s.(imbalance := y), w1h);
  }

  /** Concentration counts one for one up to 0.2, and no further. */
  lemma HhiCounts(exp: real -> real, s: Snapshot, y: real, w5m: WindowRow, w1h: WindowRow)
    requires Exponential(exp) && s.hhi <= y
    ensures var x, s' := s.hhi, s.(hhi := y);
            var r, r' := UnusualAccumulation(exp, Some(s), w5m, w1h), UnusualAccumulation(exp, Some(s'), w5m, w1h);
            && (y <= 0.2 ==> r'.score - r.score == y - x && 0.2 * r.concentration == x)
            && (x >= 0.2 ==> r'.score == r.score && r.concentration == 1.0)
  {
    hide VolumeRatio, Sig;
    RatioReadsVolume(s, s.(hhi := y), w1h);
  }

  /** Large buying counts with 0.15 of its share of the volume, large selling not at all. */
  lemma LargeFlowCounts(exp: real -> real, s: Snapshot, y: real, w5m: WindowRow, w1h: WindowRow)
    requires Exponential(exp) && s.largeFlow <= y <= s.volume && s.volume > 0.0
    ensures var x, s' := s.largeFlow, s.(largeFlow := y);
            var r, r' := UnusualAccumulation(exp, Some(s), w5m, w1h), UnusualAccumulation(exp, Some(s'), w5m, w1h);
            && (x >= 0.0 ==> (r'.score - r.score) * s.volume == 0.15 * (y - x) && r.bigFlow * s.volume == x)
            && (y <= 0.0 ==> r'.score == r.score && r.bigFlow == 0.0)
  {
    hide VolumeRatio, Sig, Divide;
    var x, v := s.largeFlow, s.volume;
    RatioReadsVolume(s, s.(largeFlow := y), w1h);
    DivideSign(x, v);
    DivideSign(y, v);
    DivideAtMostOne(x, v);
    DivideAtMostOne(y, v);
    if x >= 0.0 {
      var r := UnusualAccumulation(exp, Some(s), w5m, w1h);
      var r' := UnusualAccumulation(exp, Some(s.(largeFlow := y)), w5m, w1h);
      assert r'.score - r.score == 0.15 * (Divide(y, v) - Divide(x, v));
      ScaledDifference(Divide(x, v), Divide(y, v), v, x, y);
    }
  }

  lemma DivideAtMostOne(x: real, y: real)
    requires y > 0.0 && x <= y
    ensures Divide(x, y) <= 1.0 && Divide(x, y) * y == x
  {
    QuotientBound(x, y, 1.0);
    DivideBack(x, y);
  }

  lemma ScaledDifference(p: real, q: real, v: real, x: real, y: real)
    requires p * v == x && q * v == y
    ensures 0.15 * (q - p) * v == 0.15 * (y - x)
  {
  }

  /** The three labels, by score. */
  lemma LabelsMean(exp: real -> real, w1m: WindowRow, w5m: WindowRow, w1h: WindowRow)
    requires Exponential(exp)
    ensures var s := UnusualAccumulation(exp, w1m, w5m, w1h);
            && (s.tag == Unusual <==> s.score >= 0.6)
            && (s.tag == Elevated <==> 0.4 <= s.score < 0.6)
            && (s.tag == Normal <==> s.score < 0.4)
  {
    hide VolumeRatio, Sig, Divide;
  }

  /**
   When the dashboard signals, without division: long on a score of at least 0.5
   with more than a twentieth of the volume in net smart buying, short on more than
   0.15 of it in net smart selling, never both.
   */
  lemma SignalMeans(score: real, w5m: WindowRow)
    requires Reachable(w5m)
    ensures Signal(score, SmartNorm(w5m)) == Long <==>
            score >= 0.5 && w5m.Some? && w5m.value.smartFlow > 0.05 * w5m.value.volume
    ensures Signal(score, SmartNorm(w5m)) == Short <==>
            w5m.Some? && w5m.value.smartFlow < -0.15 * w5m.value.volume
  {
    hide Divide;
    DivideZero(TINY);
    if w5m.Some? {
      var gross :| InRange(w5m.value, gross);
      var flow, volume := w5m.value.smartFlow, w5m.value.volume;
      FlowOverVolume(flow, volume);
      ShareAbove(flow, OrTiny(volume));
    }
  }

  lemma ShareAbove(x: real, y: real)
    requires y > 0.0
    ensures Divide(x, y) > 0.05 <==> x > 0.05 * y
    ensures Divide(x, y) < -0.15 <==> x < -0.15 * y
  {
    QuotientAbove(x, y, 0.05);
    QuotientAbove(x, y, -0.15);
  }

  /** The signal follows the sign of smart money: long only on net smart buying, short only on selling. */
  lemma SignalFollowsSmartMoney(score: real, w5m: WindowRow)
    requires Reachable(w5m)
    ensures Signal(score, SmartNorm(w5m)) == Long ==> w5m.Some? && w5m.value.smartFlow > 0.0
    ensures Signal(score, SmartNorm(w5m)) == Short ==> w5m.Some? && w5m.value.smartFlow < 0.0
  {
    hide Divide;
    DivideZero(TINY);
    if w5m.Some? {
      var gross :| InRange(w5m.value, gross);
      DivideSign(w5m.value.smartFlow, OrTiny(w5m.value.volume));
    }
  }

  /**
   End to end from fills: whatever buckets of non-negative fills the minute and
   five-minute rows come from, whatever the hour row is.
   */
  lemma EngineScore(exp: real -> real, b: int, fs: seq<Fill>, h: seq<Fill>,
                    b5: int, fs5: seq<Fill>, h5: seq<Fill>, w1h: WindowRow)
    requires Exponential(exp) && NonNegative(fs) && NonNegative(fs5)
    ensures var s, s5 := SnapshotOf(b, fs, h), SnapshotOf(b5, fs5, h5);
            var r := UnusualAccumulation(exp, Some(s), Some(s5), w1h);
            && 0.0 < r.volSpike < 1.0 && 0.0 <= r.imbalance <= 1.0
            && 0.0 <= r.concentration <= 1.0 && 0.0 <= r.bigFlow <= 1.0 && 0.0 < r.score < 1.0
            && (GrossFlow(FlowsOf(fs)) > 0.0 && |Distinct(fs, AddrOf)| <= 5 ==> r.concentration == 1.0)
            && r.bigFlow == Max(0.0, Divide(s.largeFlow, OrTiny(s.volume)))
            && SmartNorm(Some(s5)) == Divide(s5.smartFlow, OrTiny(s5.volume))
            && (s.takerBuy <= s.takerSell && s.largeFlow <= 0.0 ==> r.tag != Unusual)
  {
    hide UnusualAccumulation, SmartNorm, Divide, MakeSnapshot, GrossFlow, FlowsOf, Sum, Filter;
    var s, s5 := SnapshotOf(b, fs, h), SnapshotOf(b5, fs5, h5);
    var gross := GrossFlow(FlowsOf(fs));
    SnapshotInRange(b, fs, h);
    SnapshotInRange(b5, fs5, h5);
    ScoreInRange(exp, Some(s), Some(s5), w1h);
    ClampsNeverBind(exp, Some(s), Some(s5), w1h);
    SnapshotParts(b, fs, h);
    if gross > 0.0 && |Distinct(fs, AddrOf)| <= 5 {
      FewWalletsConcentrate(exp, s, gross, Some(s5), w1h);
    }
    ImbalanceSign(s.takerBuy, s.takerSell);
    if s.takerBuy <= s.takerSell && s.largeFlow <= 0.0 {
      UnusualNeedsBuying(exp, Some(s), Some(s5), w1h);
    }
  }

  lemma SnapshotParts(b: int, fs: seq<Fill>, h: seq<Fill>)
    ensures var s := SnapshotOf(b, fs, h);
            s.activeWallets == |Distinct(fs, AddrOf)| && s.imbalance == Imbalance(s.takerBuy, s.takerSell)
  {
  }
}
