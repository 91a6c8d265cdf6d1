/**
 Agreement between the feature groups: windows nest, coarse buckets are sums of
 fine ones, wallets are sums of positions, and volume is conserved from wallets
 to buckets.
 */
module Conservation {
  import opened Seqs
  import opened Fills
  import opened FeatureSpec
  import opened Windows
  import opened Lifetimes
  import opened Bounds

  // ---------- windows nest ----------

  lemma DivideTwice(x: int)
    ensures x / 300 == x / 60 / 5 && x / 3600 == x / 60 / 60 && x / 3600 == x / 300 / 12
  {
  }

  /** Two times in one bucket are in one bucket of every longer window. */
  lemma CoarserBucket(s: int, t: int, w: Window, w': Window)
    requires w.Turn() <= w'.Turn() && BucketStart(s, w) == BucketStart(t, w)
    ensures BucketStart(s, w') == BucketStart(t, w')
  {
    DivideTwice(s / 1000);
    DivideTwice(t / 1000);
  }

  function OpenFills(h: seq<Fill>, coin: string, w: Window): seq<Fill> {
    BucketFills(h, coin, w, OpenTs(h, coin, w))
  }

  /** The open bucket of a window is cut out of the open bucket of any longer one, even after late fills. */
  lemma OpenBucketsNest(h: seq<Fill>, coin: string, w: Window, w': Window)
    requires w.Turn() <= w'.Turn()
    ensures OpenFills(h, coin, w) == Group(OpenFills(h, coin, w'), SlotOf(w), (coin, OpenTs(h, coin, w)))
  {
    hide BucketStart, Filter;
    var latest := LatestTs(Group(h, CoinOf, coin));
    var fine, coarse := KeyIs(SlotOf(w), (coin, OpenTs(h, coin, w))), KeyIs(SlotOf(w'), (coin, OpenTs(h, coin, w')));
    forall x: Fill | fine(x) ensures coarse(x) {
      CoarserBucket(x.tsMs, latest, w, w');
    }
    FilterFilter(h, coarse, fine);
  }

  function ToSet<T>(s: seq<T>): set<T> { set x | x in s }

  lemma {:induction false} NoDupSize<T>(s: seq<T>)
    requires NoDup(s)
    ensures |ToSet(s)| == |s|
  {
    if s != [] {
      SplitLast(s);
      var init := s[..|s| - 1];
      NoDupSize(init);
      assert ToSet(s) == ToSet(init) + {s[|s| - 1]};
    }
  }

  lemma SubsetSize<T>(a: set<T>, b: set<T>)
    requires a <= b
    ensures |a| <= |b|
  {
    assert b == a + (b - a);
  }

  lemma FewerKeys<T, K>(s: seq<T>, p: T -> bool, key: T -> K)
    ensures |Distinct(Filter(s, p), key)| <= |Distinct(s, key)|
  {
    FilterMembers(s, p);
    DistinctMembers(s, key);
    DistinctMembers(Filter(s, p), key);
    NoDupSize(Distinct(s, key));
    NoDupSize(Distinct(Filter(s, p), key));
    SubsetSize(ToSet(Distinct(Filter(s, p), key)), ToSet(Distinct(s, key)));
  }

  lemma {:induction false} FilterSumMono(s: seq<Fill>, p: Fill -> bool, q: Fill -> bool)
    requires NonNegative(s)
    ensures Sum(Filter(Filter(s, p), q), NotionalOf) <= Sum(Filter(s, q), NotionalOf)
  {
    hide Fill.Notional;
    FilterMembers(s, q);
    FilterCommutes(s, p, q);
    SumFilterAtMost(Filter(s, q), p, NotionalOf);
  }

  lemma {:induction false} FilterCommutes<T>(s: seq<T>, p: T -> bool, q: T -> bool)
    ensures Filter(Filter(s, p), q) == Filter(Filter(s, q), p)
  {
    if s != [] {
      var init, last := s[..|s| - 1], s[|s| - 1];
      FilterCommutes(init, p, q);
      FilterSnoc(Filter(init, p), last, q);
      FilterSnoc(Filter(init, q), last, p);
    }
  }

  /** Volume, taker sides and active wallets of the open buckets grow with the window. */
  lemma OpenSnapshotsMonotone(h: seq<Fill>, coin: string, w: Window, w': Window)
    requires NonNegative(h) && w.Turn() <= w'.Turn()
    ensures var s := SnapAt(h, coin, w, OpenTs(h, coin, w));
            var s' := SnapAt(h, coin, w', OpenTs(h, coin, w'));
            && s.volume <= s'.volume && s.takerBuy <= s'.takerBuy && s.takerSell <= s'.takerSell
            && s.activeWallets <= s'.activeWallets
  {
    hide Filter, Sum, Distinct, OpenTs, Fill.Notional, Hhi;
    var fs, fs' := OpenFills(h, coin, w), OpenFills(h, coin, w');
    var p := KeyIs(SlotOf(w), (coin, OpenTs(h, coin, w)));
    OpenBucketsNest(h, coin, w, w');
    FilterMembers(h, KeyIs(SlotOf(w'), (coin, OpenTs(h, coin, w'))));
    assert NonNegative(fs');
    SumFilterAtMost(fs', p, NotionalOf);
    FilterSumMono(fs', p, TakerBuy);
    FilterSumMono(fs', p, TakerSell);
    FewerKeys(fs', p, AddrOf);
  }

  // ---------- coarse buckets are sums of minutes ----------

  function RowTotal(h: seq<Fill>, w: Window, g: Fill -> real): Slot -> real {
    (k: Slot) => Sum(RowFills(h, k.0, w, k.1), g)
  }

  lemma RowFillsOnTime(h: seq<Fill>, coin: string, w: Window, b: int)
    requires TimeOrdered(h)
    ensures RowFills(h, coin, w, b) == BucketFills(h, coin, w, b)
  {
    RowFillsAreRetained(h, coin, w, b);
    TimeOrderedDropsNothing(h, w);
  }

  /** The one-minute buckets inside a bucket. */
  function Minutes(h: seq<Fill>, coin: string, w: Window, b: int): seq<(string, int)> {
    Distinct(RowFills(h, coin, w, b), SlotOf(OneMin))
  }

  /** On a time-ordered stream every row is the sum of its one-minute rows, for any measure of fills. */
  lemma RowIsSumOfMinutes(h: seq<Fill>, coin: string, w: Window, b: int, g: Fill -> real)
    requires TimeOrdered(h)
    ensures Sum(RowFills(h, coin, w, b), g) == Sum(Minutes(h, coin, w, b), RowTotal(h, OneMin, g))
  {
    hide BucketStart, Distinct, RowFills, Sum, Filter;
    var fs := RowFills(h, coin, w, b);
    RowFillsOnTime(h, coin, w, b);
    GroupsAddUp(fs, SlotOf(OneMin), g);
    DistinctMembers(fs, SlotOf(OneMin));
    forall k | k in Minutes(h, coin, w, b) ensures GroupTotal(fs, SlotOf(OneMin), g)(k) == RowTotal(h, OneMin, g)(k) {
      var y :| y in fs && SlotOf(OneMin)(y) == k;
      GroupMember(h, SlotOf(w), (coin, b), y);
      forall x: Fill | KeyIs(SlotOf(OneMin), k)(x) ensures KeyIs(SlotOf(w), (coin, b))(x) {
        CoarserBucket(y.tsMs, x.tsMs, OneMin, w);
      }
      FilterFilter(h, KeyIs(SlotOf(w), (coin, b)), KeyIs(SlotOf(OneMin), k));
      RowFillsOnTime(h, k.0, OneMin, k.1);
    }
    SumSame(Minutes(h, coin, w, b), GroupTotal(fs, SlotOf(OneMin), g), RowTotal(h, OneMin, g));
  }

  function RowVolume(h: seq<Fill>, w: Window): Slot -> real {
    (k: Slot) => RowSnap(h, k.0, w, k.1).volume
  }
  function RowTakerBuy(h: seq<Fill>, w: Window): Slot -> real {
    (k: Slot) => RowSnap(h, k.0, w, k.1).takerBuy
  }
  function RowTakerSell(h: seq<Fill>, w: Window): Slot -> real {
    (k: Slot) => RowSnap(h, k.0, w, k.1).takerSell
  }

  /** In particular its volume and taker sides are. */
  lemma RowSnapshotIsSumOfMinutes(h: seq<Fill>, coin: string, w: Window, b: int)
    requires TimeOrdered(h)
    ensures var ks := Minutes(h, coin, w, b);
            && RowSnap(h, coin, w, b).volume == Sum(ks, RowVolume(h, OneMin))
            && RowSnap(h, coin, w, b).takerBuy == Sum(ks, RowTakerBuy(h, OneMin))
            && RowSnap(h, coin, w, b).takerSell == Sum(ks, RowTakerSell(h, OneMin))
  {
    hide Sum, Filter, Minutes, BucketFills, Lifetime, FlowsOf, Hhi, WeightsAt;
    var ks := Minutes(h, coin, w, b);
    var buys, sells := Masked(TakerBuy, NotionalOf), Masked(TakerSell, NotionalOf);
    RowIsSumOfMinutes(h, coin, w, b, NotionalOf);
    RowIsSumOfMinutes(h, coin, w, b, buys);
    RowIsSumOfMinutes(h, coin, w, b, sells);
    SumFilterMasked(RowFills(h, coin, w, b), TakerBuy, NotionalOf);
    SumFilterMasked(RowFills(h, coin, w, b), TakerSell, NotionalOf);
    forall k ensures RowTotal(h, OneMin, buys)(k) == RowTakerBuy(h, OneMin)(k) {
      SumFilterMasked(RowFills(h, k.0, OneMin, k.1), TakerBuy, NotionalOf);
    }
    forall k ensures RowTotal(h, OneMin, sells)(k) == RowTakerSell(h, OneMin)(k) {
      SumFilterMasked(RowFills(h, k.0, OneMin, k.1), TakerSell, NotionalOf);
    }
    SumSame(ks, RowTotal(h, OneMin, NotionalOf), RowVolume(h, OneMin));
    SumSame(ks, RowTotal(h, OneMin, buys), RowTakerBuy(h, OneMin));
    SumSame(ks, RowTotal(h, OneMin, sells), RowTakerSell(h, OneMin));
  }

  // ---------- wallets against buckets ----------

  /** The buckets of a window that ever took in a fill, over all coins. */
  function Slots(h: seq<Fill>, w: Window): seq<(string, int)> {
    Distinct(Retained(h, w), SlotOf(w))
  }

  function WalletGross(h: seq<Fill>): string -> real {
    a => WalletOf(Group(h, AddrOf, a)).grossVolume
  }

  lemma RowTotalsAddUp(h: seq<Fill>, w: Window, g: Fill -> real)
    ensures Sum(Slots(h, w), RowTotal(h, w, g)) + Sum(Dropped(h, w), g) == Sum(h, g)
  {
    hide Sum, Filter, Distinct, Retained, Dropped, RowFills;
    var kept := Retained(h, w);
    GroupsAddUp(kept, SlotOf(w), g);
    forall k ensures GroupTotal(kept, SlotOf(w), g)(k) == RowTotal(h, w, g)(k) {
      RowFillsAreRetained(h, k.0, w, k.1);
    }
    SumSame(Slots(h, w), GroupTotal(kept, SlotOf(w), g), RowTotal(h, w, g));
    RetainedAndDropped(h, w, g);
  }

  lemma RowVolumesAddUp(h: seq<Fill>, w: Window)
    ensures Sum(Slots(h, w), RowVolume(h, w)) + Sum(Dropped(h, w), NotionalOf) == Sum(h, NotionalOf)
    ensures Sum(Distinct(h, AddrOf), WalletGross(h)) == Sum(h, NotionalOf)
  {
    hide Sum, Filter, Distinct, Dropped, Slots, FlowsOf, Hhi, WeightsAt, Lifetime, BucketFills;
    RowTotalsAddUp(h, w, NotionalOf);
    SumSame(Slots(h, w), RowTotal(h, w, NotionalOf), RowVolume(h, w));
    GroupsAddUp(h, AddrOf, NotionalOf);
    SumSame(Distinct(h, AddrOf), GroupTotal(h, AddrOf, NotionalOf), WalletGross(h));
  }

  // ---------- what the engine emits carries all the volume ----------

  function InWindow(w: Window): Closed -> bool { (x: Closed) => x.window == w }

  function VolumeOf(x: Closed): real { x.snap.volume }

  /** Total volume of the snapshots of one window. */
  function VolumeIn(xs: seq<Closed>, w: Window): real { Sum(Filter(xs, InWindow(w)), VolumeOf) }

  function OpenVolume(h: seq<Fill>, w: Window): string -> real {
    (c: string) => Sum(OpenFills(h, c, w), NotionalOf)
  }

  lemma VolumeInSnoc(xs: seq<Closed>, x: Closed, w: Window)
    ensures VolumeIn(xs + [x], w) == VolumeIn(xs, w) + if x.window == w then x.snap.volume else 0.0
  {
    FilterSnoc(xs, x, InWindow(w));
    SumSnoc(Filter(xs, InWindow(w)), x, VolumeOf);
  }

  lemma SnapAtVolume(h: seq<Fill>, coin: string, w: Window, b: int)
    ensures SnapAt(h, coin, w, b).volume == Sum(BucketFills(h, coin, w, b), NotionalOf)
  {
  }

  lemma {:induction false} OpenVolumesOf(h: seq<Fill>, coins: seq<string>, w: Window)
    ensures VolumeIn(SnapshotsFor(h, OpenKeys(coins)), w) == Sum(coins, OpenVolume(h, w))
  {
    hide SnapAt, OpenTs, BucketFills;
    if coins == [] {
      assert VolumeIn(SnapshotsFor(h, OpenKeys(coins)), w) == 0.0;
    } else {
      var init, c := coins[..|coins| - 1], coins[|coins| - 1];
      SplitLast(coins);
      OpenVolumesOf(h, init, w);
      OpenKeysSnoc(init, c);
      var xs := SnapshotsFor(h, OpenKeys(init));
      var x1 := Closed(c, OneMin, SnapAt(h, c, OneMin, OpenTs(h, c, OneMin)));
      var x2 := Closed(c, FiveMin, SnapAt(h, c, FiveMin, OpenTs(h, c, FiveMin)));
      var x3 := Closed(c, OneHour, SnapAt(h, c, OneHour, OpenTs(h, c, OneHour)));
      assert SnapshotsFor(h, OpenKeys(coins)) == xs + [x1] + [x2] + [x3];
      hide VolumeIn;
      VolumeInSnoc(xs, x1, w);
      VolumeInSnoc(xs + [x1], x2, w);
      VolumeInSnoc(xs + [x1] + [x2], x3, w);
      SnapAtVolume(h, c, w, OpenTs(h, c, w));
    }
  }

  lemma {:induction false} ClosedVolume(h: seq<Fill>, f: Fill, i: nat, w: Window)
    requires i <= |WINDOWS|
    ensures VolumeIn(ClosedBy(h, f, i), w) ==
            if w.Turn() < i && Rolls(h, f, w) then SnapAt(h + [f], f.coin, w, OpenTs(h, f.coin, w)).volume else 0.0
  {
    hide SnapAt, OpenTs, Rolls;
    if i == 0 {
      assert VolumeIn(ClosedBy(h, f, i), w) == 0.0;
    } else {
      ClosedVolume(h, f, i - 1, w);
      hide VolumeIn;
      var v := WINDOWS[i - 1];
      assert v.Turn() == i - 1;
      assert !Rolls(h, f, v) ==> ClosedBy(h, f, i) == ClosedBy(h, f, i - 1);
      VolumeInSnoc(ClosedBy(h, f, i - 1), Closed(f.coin, v, SnapAt(h + [f], f.coin, v, OpenTs(h, f.coin, v))), w);
    }
  }

  /** What one fill does to the volume of its coin's open bucket: it joins it, replaces it, or is late. */
  lemma OpenVolumeStep(h: seq<Fill>, f: Fill, w: Window)
    ensures forall c :: c != f.coin ==> OpenVolume(h + [f], w)(c) == OpenVolume(h, w)(c)
    ensures var kept := if Late(h, f, w) then 0.0 else f.Notional();
            var before := if f.coin in Distinct(h, CoinOf) then OpenVolume(h, w)(f.coin) else 0.0;
            var closed := VolumeIn(ClosedBy(h, f, |WINDOWS|), w);
            OpenVolume(h + [f], w)(f.coin) + closed == before + kept
  {
    hide SnapAt, OpenTs, BucketFills, Sum, Distinct, BucketStart, ClosedBy, VolumeIn, Fill.Notional;
    forall c ensures OpenVolume(h, w)(c) == Sum(BucketFills(h, c, w, OpenTs(h, c, w)), NotionalOf) {
    }
    forall c | c != f.coin ensures OpenVolume(h + [f], w)(c) == OpenVolume(h, w)(c) {
      OpenTsSnoc(h, f, c, w);
      BucketFillsSnoc(h, f, c, w, OpenTs(h, c, w));
    }
    var c, b, b' := f.coin, OpenTs(h, f.coin, w), OpenTs(h + [f], f.coin, w);
    OpenTsSnoc(h, f, c, w);
    BucketFillsSnoc(h, f, c, w, b);
    BucketFillsSnoc(h, f, c, w, b');
    ClosedVolume(h, f, |WINDOWS|, w);
    SnapAtVolume(h + [f], c, w, b);
    SumSnoc(BucketFills(h, c, w, b'), f, NotionalOf);
    SumEmpty<Fill>(NotionalOf);
    if c !in Distinct(h, CoinOf) || b < b' {
      NothingAbove(h, c, w, b');
    }
  }

  lemma {:induction false} EmittedVolume(h: seq<Fill>, w: Window)
    ensures VolumeIn(AllClosed(h), w) + Sum(Distinct(h, CoinOf), OpenVolume(h, w)) == Sum(Retained(h, w), NotionalOf)
  {
    hide ClosedBy, Late, OpenVolume, Fill.Notional;
    if h == [] {
      assert VolumeIn(AllClosed(h), w) == 0.0;
    } else {
      var init, f := h[..|h| - 1], h[|h| - 1];
      SplitLast(h);
      hide Filter, Distinct, Sum, Retained, AllClosed, VolumeIn;
      EmittedVolume(init, w);
      RetainedSnoc(init, f, w);
      SumSnoc(Retained(init, w), f, NotionalOf);
      DistinctSnoc(init, f, CoinOf);
      DistinctMembers(init, CoinOf);
      OpenVolumeStep(init, f, w);
      AllClosedVolume(init, f, w);
      var coins, v, v' := Distinct(init, CoinOf), OpenVolume(init, w), OpenVolume(h, w);
      if f.coin in coins {
        SumAdjustOne(coins, f.coin, v'(f.coin) - v(f.coin), v, v');
      } else {
        SumSame(coins, v, v');
        SumSnoc(coins, f.coin, v');
      }
    }
  }

  lemma AllClosedVolume(h: seq<Fill>, f: Fill, w: Window)
    ensures VolumeIn(AllClosed(h + [f]), w) == VolumeIn(AllClosed(h), w) + VolumeIn(ClosedBy(h, f, |WINDOWS|), w)
  {
    hide Filter, Sum, ClosedBy;
    assert (h + [f])[..|h|] == h;
    FilterConcat(AllClosed(h), ClosedBy(h, f, |WINDOWS|), InWindow(w));
    SumConcat(Filter(AllClosed(h), InWindow(w)), Filter(ClosedBy(h, f, |WINDOWS|), InWindow(w)), VolumeOf);
  }

  /**
   Volume is conserved for every arrival order: all the snapshots of a window
   that the engine ever closed, its open snapshots, and what the window dropped,
   carry exactly the gross volume of all wallets.
   */
  lemma VolumeIsConserved(h: seq<Fill>, w: Window)
    ensures VolumeIn(AllClosed(h), w) + VolumeIn(OpenSnapshots(h), w) + Sum(Dropped(h, w), NotionalOf) ==
            Sum(Distinct(h, AddrOf), WalletGross(h))
  {
    hide Sum, Filter, Distinct, Dropped, Slots, RowVolume, WalletGross, AllClosed, Retained, VolumeIn, OpenVolume;
    EmittedVolume(h, w);
    OpenVolumesOf(h, Distinct(h, CoinOf), w);
    RetainedAndDropped(h, w, NotionalOf);
    RowVolumesAddUp(h, w);
  }

  /** On a time-ordered stream no volume is missing from any window. */
  lemma NoVolumeMissingOnTime(h: seq<Fill>, w: Window)
    requires TimeOrdered(h)
    ensures VolumeIn(AllClosed(h), w) + VolumeIn(OpenSnapshots(h), w) == Sum(Distinct(h, AddrOf), WalletGross(h))
  {
    hide WalletGross, Distinct, VolumeIn, AllClosed, OpenSnapshots;
    VolumeIsConserved(h, w);
    TimeOrderedDropsNothing(h, w);
    SumEmpty<Fill>(NotionalOf);
  }

  /** The net flow of wallet a in each bucket of a window. */
  function RowFlow(h: seq<Fill>, w: Window, a: string): Slot -> real {
    (k: Slot) => FlowsOf(RowFills(h, k.0, w, k.1)).GetOr(a, 0.0)
  }

  lemma FlowIsMaskedTotal(fs: seq<Fill>, a: string)
    ensures FlowsOf(fs).GetOr(a, 0.0) == Sum(fs, Masked(KeyIs(AddrOf, a), SignedNotionalOf))
  {
    SumFilterMasked(fs, KeyIs(AddrOf, a), SignedNotionalOf);
    GroupNonEmpty(fs, AddrOf, a);
    SumEmpty<Fill>(SignedNotionalOf);
  }

  /** A wallet's signed volume is its net flow over all buckets, plus its dropped fills. */
  lemma {:induction false} SignedVolumeIsConserved(h: seq<Fill>, w: Window, a: string)
    ensures WalletOf(Group(h, AddrOf, a)).signedVolume ==
            Sum(Slots(h, w), RowFlow(h, w, a)) + Sum(Group(Dropped(h, w), AddrOf, a), SignedNotionalOf)
  {
    hide Sum, Filter, Dropped, Slots, FlowsOf, RowFills, SignedNotionalOf, Group;
    var g := Masked(KeyIs(AddrOf, a), SignedNotionalOf);
    RowTotalsAddUp(h, w, g);
    forall k ensures RowTotal(h, w, g)(k) == RowFlow(h, w, a)(k) {
      FlowIsMaskedTotal(RowFills(h, k.0, w, k.1), a);
    }
    SumSame(Slots(h, w), RowTotal(h, w, g), RowFlow(h, w, a));
    GroupIsMasked(h, a);
    GroupIsMasked(Dropped(h, w), a);
  }

  lemma {:induction false} GroupIsMasked(fs: seq<Fill>, a: string)
    ensures Sum(Group(fs, AddrOf, a), SignedNotionalOf) == Sum(fs, Masked(KeyIs(AddrOf, a), SignedNotionalOf))
  {
    SumFilterMasked(fs, KeyIs(AddrOf, a), SignedNotionalOf);
  }

  // ---------- wallets against positions ----------

  function OwnedBy(a: string): Pair -> bool { (k: Pair) => k.0 == a }

  /** The (wallet, coin) entries of wallet a. */
  function PairsOf(h: seq<Fill>, a: string): seq<(string, string)> {
    Filter(Distinct(h, PairOf), OwnedBy(a))
  }

  function PairPnl(h: seq<Fill>): Pair -> real {
    (k: Pair) => PositionOf(Group(h, PairOf, k)).realizedPnl
  }
  function PairCount(h: seq<Fill>): Pair -> real {
    (k: Pair) => PositionOf(Group(h, PairOf, k)).fillCount as real
  }

  lemma {:induction false} PairsOfWallet(h: seq<Fill>, a: string)
    ensures Distinct(Group(h, AddrOf, a), PairOf) == PairsOf(h, a)
  {
    if h != [] {
      var init, f := h[..|h| - 1], h[|h| - 1];
      SplitLast(h);
      PairsOfWallet(init, a);
      GroupSnoc(init, f, AddrOf, a);
      DistinctSnoc(init, f, PairOf);
      DistinctSnoc(Group(init, AddrOf, a), f, PairOf);
      FilterSnoc(Distinct(init, PairOf), PairOf(f), OwnedBy(a));
      FilterMembers(Distinct(init, PairOf), OwnedBy(a));
    }
  }

  function One(f: Fill): real { 1.0 }

  lemma {:induction false} SumOfOnes(fs: seq<Fill>)
    ensures Sum(fs, One) == |fs| as real
  {
    if fs != [] {
      SumOfOnes(fs[..|fs| - 1]);
    }
  }

  /** A wallet's realised PnL and fill count are the sums over its (wallet, coin) entries. */
  lemma WalletIsSumOfPositions(h: seq<Fill>, a: string)
    ensures WalletOf(Group(h, AddrOf, a)).cumPnl == Sum(PairsOf(h, a), PairPnl(h))
    ensures WalletOf(Group(h, AddrOf, a)).totalFills as real == Sum(PairsOf(h, a), PairCount(h))
  {
    hide Sum, Filter, Distinct, AvgEntry, PairsOf;
    var s := Group(h, AddrOf, a);
    PairsOfWallet(h, a);
    GroupsAddUp(s, PairOf, PnlOf);
    GroupsAddUp(s, PairOf, One);
    SumOfOnes(s);
    assert forall k :: k in PairsOf(h, a) ==> k.0 == a by { FilterMembersOwned(h, a); }
    forall k | k in PairsOf(h, a)
      ensures GroupTotal(s, PairOf, PnlOf)(k) == PairPnl(h)(k)
      ensures GroupTotal(s, PairOf, One)(k) == PairCount(h)(k)
    {
      forall x: Fill | KeyIs(PairOf, k)(x) ensures KeyIs(AddrOf, a)(x) {
        assert PairOf(x) == k && PairOf(x).0 == x.addr;
        assert k.0 == a;
        assert AddrOf(x) == a;
      }
      FilterFilter(h, KeyIs(AddrOf, a), KeyIs(PairOf, k));
      SumOfOnes(Group(h, PairOf, k));
    }
    SumSame(PairsOf(h, a), GroupTotal(s, PairOf, PnlOf), PairPnl(h));
    SumSame(PairsOf(h, a), GroupTotal(s, PairOf, One), PairCount(h));
  }

  lemma FilterMembersOwned(h: seq<Fill>, a: string)
    ensures forall k :: k in PairsOf(h, a) ==> k.0 == a
  {
    FilterMembers(Distinct(h, PairOf), OwnedBy(a));
  }

  lemma {:induction false} TakersAndMakers(fs: seq<Fill>)
    ensures |Filter(fs, Taker)| + |Filter(fs, Maker)| == |fs|
  {
    if fs != [] {
      TakersAndMakers(fs[..|fs| - 1]);
    }
  }

  /** opens + closes counts every fill, and net volume never exceeds gross. */
  lemma WalletTotals(fs: seq<Fill>)
    ensures WalletOf(fs).opens + WalletOf(fs).closes == WalletOf(fs).totalFills
    ensures NonNegative(fs) ==> Abs(WalletOf(fs).signedVolume) <= WalletOf(fs).grossVolume
  {
    hide Sum, Fill.Notional;
    TakersAndMakers(fs);
    if NonNegative(fs) {
      NotionalsOf(fs);
      SumWithin(fs, SignedNotionalOf, NotionalOf);
    }
  }

  /** Every address with flow in any bucket has a wallet entry. */
  lemma {:induction false} BucketWalletsAreKnown(h: seq<Fill>, coin: string, w: Window, b: int)
    ensures forall a :: a in FlowsOf(BucketFills(h, coin, w, b)).m ==> a in Distinct(h, AddrOf)
  {
    hide Sum, BucketStart;
    var fs := BucketFills(h, coin, w, b);
    FilterMembers(h, KeyIs(SlotOf(w), (coin, b)));
    DistinctMembers(fs, AddrOf);
    DistinctMembers(h, AddrOf);
  }
}
