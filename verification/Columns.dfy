/**
 What every stored column means on the fills' own columns: sides, prices, sizes,
 taker flags, times and addresses, with every constant written out.
 */
module Columns {
  import opened Seqs
  import opened Fills
  import opened FeatureSpec
  import opened Windows
  import opened Lifetimes
  import opened Bounds
  import opened Reals
  import opened Positions
  import opened Conservation
  import opened Tables

  /** A signed measure is what the buys add less what the sells add. */
  lemma {:induction false} BoughtLessSold(fs: seq<Fill>, g: Fill -> real, signed: Fill -> real)
    requires forall f: Fill :: signed(f) == if f.side == "B" then g(f) else -g(f)
    ensures Sum(fs, signed) == Sum(Filter(fs, Bought), g) - Sum(Filter(fs, Sold), g)
  {
    if fs != [] {
      var init, f := fs[..|fs| - 1], fs[|fs| - 1];
      BoughtLessSold(init, g, signed);
      SumSnoc(Filter(init, Bought), f, g);
      SumSnoc(Filter(init, Sold), f, g);
    }
  }

  // ---------- pair rows ----------

  /** What the pair row of the fills fs holds. */
  ghost predicate PairMeans(p: Position, fs: seq<Fill>) {
    && p.netPos == Sum(Filter(fs, Bought), SizeOf) - Sum(Filter(fs, Sold), SizeOf)
    && p.realizedPnl == Sum(fs, (f: Fill) => f.closedPnl)
    && p.fillCount == |fs|
    && (fs != [] ==> p.lastTs == fs[|fs| - 1].tsMs)
  }

  lemma PairColumns(fs: seq<Fill>)
    ensures PairMeans(PositionOf(fs), fs)
  {
    hide Sum, Filter, AvgEntry;
    BoughtLessSold(fs, SizeOf, SignedSzOf);
    SumSame(fs, PnlOf, (f: Fill) => f.closedPnl);
  }

  /** Buying only leaves a long at the average price paid, selling only a short at the average price got. */
  lemma OneWayPosition(fs: seq<Fill>, buy: bool)
    requires fs != [] && forall f :: f in fs ==> (f.side == "B") == buy && f.sz > 0.0
    ensures var p := PositionOf(fs);
            && (if buy then p.netPos > 0.0 else p.netPos < 0.0)
            && Abs(p.netPos) == Sum(fs, SizeOf) && Abs(p.netPos) * p.avgEntry == Sum(fs, PaidOf)
  {
    hide Sum, AvgEntry;
    OneWayEntry(fs, buy);
  }

  // ---------- wallet rows ----------

  function NetBoughtOf(fs: seq<Fill>): real {
    Sum(Filter(fs, Bought), PaidOf) - Sum(Filter(fs, Sold), PaidOf)
  }

  /** What the wallet row of the fills fs holds. */
  ghost predicate WalletMeans(row: TableRow, fs: seq<Fill>) {
    && row.WalletRow?
    && row.cumPnl == Sum(fs, (f: Fill) => f.closedPnl)
    && row.totalFills == |fs|
    && row.grossVolume == Sum(fs, PaidOf)
    && row.netVolume == Abs(NetBoughtOf(fs))
    && row.churn * |fs| as real == |Filter(fs, Passive)| as real
    && (row.churn == 0.0 <==> forall f :: f in fs ==> f.crossed)
    && (fs != [] ==> row.lastTs == fs[|fs| - 1].tsMs)
    && (row.archetype == MarketMaker <==>
          && row.grossVolume > 0.0 && Abs(NetBoughtOf(fs)) < 0.15 * row.grossVolume
          && |Filter(fs, Passive)| as real > 0.6 * |fs| as real)
    && (row.archetype == Directional <==>
          row.grossVolume > 0.0 && Abs(NetBoughtOf(fs)) > 0.4 * row.grossVolume)
  }

  lemma WalletColumns(fs: seq<Fill>)
    ensures WalletMeans(WalletRowOf(WalletOf(fs)), fs)
  {
    hide Sum, WalletStats.Archetype, WalletStats.Churn, Abs, NetBoughtOf, WalletOf;
    WalletTotalsMean(fs);
    ChurnMeans(fs);
    ArchetypeThresholds(WalletOf(fs));
  }

  lemma WalletTotalsMean(fs: seq<Fill>)
    ensures var s := WalletOf(fs);
            && s.cumPnl == Sum(fs, (f: Fill) => f.closedPnl) && s.totalFills == |fs|
            && s.grossVolume == Sum(fs, PaidOf) && s.signedVolume == NetBoughtOf(fs)
            && s.opens + s.closes == |fs| && s.closes == |Filter(fs, Passive)|
            && (fs != [] ==> s.lastTs == fs[|fs| - 1].tsMs)
  {
    hide Sum, Filter;
    SumSame(fs, PnlOf, (f: Fill) => f.closedPnl);
    SumSame(fs, NotionalOf, PaidOf);
    BoughtLessSold(fs, PaidOf, SignedNotionalOf);
    TakersAndMakers(fs);
    FilterSame(fs, Maker, Passive);
  }

  /** Churn is the share of maker fills, and 0 exactly when there is none. */
  lemma ChurnMeans(fs: seq<Fill>)
    ensures WalletOf(fs).Churn() * |fs| as real == |Filter(fs, Passive)| as real
    ensures WalletOf(fs).Churn() == 0.0 <==> forall f :: f in fs ==> f.crossed
  {
    hide Sum, Filter;
    var s := WalletOf(fs);
    WalletTotalsMean(fs);
    FilterMembers(fs, Passive);
    assert Filter(fs, Passive) == [] <==> forall f :: f in fs ==> f.crossed by {
      if Filter(fs, Passive) != [] {
        assert Filter(fs, Passive)[0] in Filter(fs, Passive);
      }
    }
    if fs != [] {
      ZeroQuotient(s.closes as real, |fs| as real);
    }
  }

  lemma ZeroQuotient(x: real, y: real)
    requires y != 0.0
    ensures x / y * y == x && (x / y == 0.0 <==> x == 0.0)
  {
    DivideBack(x, y);
  }

  /** The smart-money weight of a wallet, on its row. */
  lemma WeightColumns(h: seq<Fill>, a: string)
    ensures var row := WalletRowOf(WalletOf(Group(h, AddrOf, a)));
            WeightAt(h, a) ==
            if Group(h, AddrOf, a) == [] then 0.0
            else match row.archetype
              case MarketMaker => 0.0
              case Directional => if row.cumPnl > 0.0 then 1.0 else 0.25
              case Mixed => if row.cumPnl > 0.0 then 0.5 else 0.125
  {
    hide Group, Distinct, WalletOf, WalletStats.Archetype, WalletStats.Weight;
    GroupNonEmpty(h, AddrOf, a);
    WeightValues(WalletOf(Group(h, AddrOf, a)));
  }

  // ---------- bucket rows ----------

  /** What wallet a bought less what it sold. */
  function NetBought(fs: seq<Fill>): string -> real { (a: string) => NetBoughtOf(Group(fs, AddrOf, a)) }

  function Magnitude<K>(v: K -> real): K -> real { k => Abs(v(k)) }
  predicate IsLarge(x: real) { Abs(x) >= 100000.0 }
  function LargeIn<K>(v: K -> real): K -> bool { k => IsLarge(v(k)) }
  function SmartIn(v: string -> real, h: seq<Fill>): string -> real { (a: string) => v(a) * WeightAt(h, a) }

  /** What the bucket row of the fills fs holds, with wallets weighed after h. */
  ghost predicate BucketMeans(s: Snapshot, b: int, fs: seq<Fill>, h: seq<Fill>) {
    var addrs, net := Distinct(fs, AddrOf), NetBought(fs);
    var gross := Sum(addrs, Magnitude(net));
    && s.bucketTs == b
    && s.volume == Sum(fs, PaidOf)
    && s.takerBuy == Sum(Filter(fs, TookBuying), PaidOf)
    && s.takerSell == Sum(Filter(fs, TookSelling), PaidOf)
    && s.imbalance * (s.takerBuy + s.takerSell) ==
       (if s.takerBuy + s.takerSell > 0.0 then s.takerBuy - s.takerSell else 0.0)
    && (s.takerBuy + s.takerSell <= 0.0 ==> s.imbalance == 0.0)
    && s.activeWallets == |set f | f in fs :: f.addr|
    && s.hhi * gross * gross == Sum(addrs, Square(net))
    && (gross == 0.0 ==> s.hhi == 0.0)
    && (gross > 0.0 ==> (s.hhi == 1.0 <==> AtMostOne(addrs, net)))
    && s.largeFlow == Sum(Filter(addrs, LargeIn(net)), net)
    && s.smartFlow == Sum(addrs, SmartIn(net, h))
  }

  lemma FlowMeans(fs: seq<Fill>, a: string)
    ensures FlowIn(FlowsOf(fs))(a) == NetBought(fs)(a)
  {
    hide Sum, Filter, Distinct;
    GroupNonEmpty(fs, AddrOf, a);
    BoughtLessSold(Group(fs, AddrOf, a), PaidOf, SignedNotionalOf);
    if a !in Distinct(fs, AddrOf) {
      assert Group(fs, AddrOf, a) == [];
      NoFlow();
    }
  }

  lemma NoFlow()
    ensures NetBoughtOf([]) == 0.0
  {
  }

  lemma BucketColumns(b: int, fs: seq<Fill>, h: seq<Fill>)
    ensures BucketMeans(SnapshotOf(b, fs, h), b, fs, h)
  {
    hide SnapshotOf, Sum, Filter, Distinct, NetBought, AtMostOne;
    BucketTotalsMean(b, fs, h);
    HhiMeans(b, fs, h);
    FlowTotalsMean(b, fs, h);
  }

  lemma BucketTotalsMean(b: int, fs: seq<Fill>, h: seq<Fill>)
    ensures var s := SnapshotOf(b, fs, h);
            && s.bucketTs == b && s.volume == Sum(fs, PaidOf)
            && s.takerBuy == Sum(Filter(fs, TookBuying), PaidOf)
            && s.takerSell == Sum(Filter(fs, TookSelling), PaidOf)
            && s.imbalance * (s.takerBuy + s.takerSell) ==
               (if s.takerBuy + s.takerSell > 0.0 then s.takerBuy - s.takerSell else 0.0)
            && (s.takerBuy + s.takerSell <= 0.0 ==> s.imbalance == 0.0)
            && s.activeWallets == |set f | f in fs :: f.addr|
  {
    hide Sum, Filter, Distinct, Hhi, WeightsAt, Imbalance;
    var s := SnapshotOf(b, fs, h);
    SumSame(fs, NotionalOf, PaidOf);
    FilterSame(fs, TakerBuy, TookBuying);
    FilterSame(fs, TakerSell, TookSelling);
    SumSame(Filter(fs, TookBuying), NotionalOf, PaidOf);
    SumSame(Filter(fs, TookSelling), NotionalOf, PaidOf);
    DistinctSize(fs);
    ImbalanceMeans(s.takerBuy, s.takerSell);
  }

  lemma ImbalanceMeans(buy: real, sell: real)
    ensures Imbalance(buy, sell) * (buy + sell) == if buy + sell > 0.0 then buy - sell else 0.0
    ensures buy + sell <= 0.0 ==> Imbalance(buy, sell) == 0.0
  {
    if buy + sell > 0.0 {
      DivideBack(buy - sell, buy + sell);
    }
  }

  lemma DistinctSize(fs: seq<Fill>)
    ensures |Distinct(fs, AddrOf)| == |set f | f in fs :: f.addr|
  {
    hide Distinct;
    DistinctMembers(fs, AddrOf);
    NoDupSize(Distinct(fs, AddrOf));
    assert ToSet(Distinct(fs, AddrOf)) == set f | f in fs :: f.addr;
  }

  lemma FlowsMean(fs: seq<Fill>)
    ensures FlowsOf(fs).keys == Distinct(fs, AddrOf)
    ensures forall a :: FlowIn(FlowsOf(fs))(a) == NetBought(fs)(a)
  {
    hide NetBought, FlowIn, Distinct;
    forall a ensures FlowIn(FlowsOf(fs))(a) == NetBought(fs)(a) {
      FlowMeans(fs, a);
    }
  }

  lemma HhiMeans(b: int, fs: seq<Fill>, h: seq<Fill>)
    ensures var addrs, net := Distinct(fs, AddrOf), NetBought(fs);
            var gross, hhi := Sum(addrs, Magnitude(net)), SnapshotOf(b, fs, h).hhi;
            && hhi * gross * gross == Sum(addrs, Square(net)) && (gross == 0.0 ==> hhi == 0.0)
            && (gross > 0.0 ==> (hhi == 1.0 <==> AtMostOne(addrs, net)))
  {
    hide Sum, Filter, Distinct, NetBought, FlowsOf, Hhi, WeightsAt;
    var addrs, net, flows := Distinct(fs, AddrOf), NetBought(fs), FlowsOf(fs);
    FlowsMean(fs);
    assert forall a :: AbsFlowIn(flows)(a) == Abs(FlowIn(flows)(a));
    SumSame(addrs, AbsFlowIn(flows), Magnitude(net));
    SumSame(addrs, Square(FlowIn(flows)), Square(net));
    HhiTimesGross(flows);
    assert AtMostOne(addrs, FlowIn(flows)) <==> AtMostOne(addrs, net);
    DistinctMembers(fs, AddrOf);
    if GrossFlow(flows) > 0.0 {
      HhiIsOne(flows);
    }
    HhiOfNothing(flows);
  }

  lemma HhiOfNothing(flows: Flows)
    ensures GrossFlow(flows) == 0.0 ==> Hhi(flows) == 0.0
  {
    hide Sum;
  }

  lemma FlowTotalsMean(b: int, fs: seq<Fill>, h: seq<Fill>)
    ensures var addrs, net, s := Distinct(fs, AddrOf), NetBought(fs), SnapshotOf(b, fs, h);
            && s.largeFlow == Sum(Filter(addrs, LargeIn(net)), net) && s.smartFlow == Sum(addrs, SmartIn(net, h))
  {
    hide Sum, Filter, Distinct, NetBought, FlowsOf, Hhi, WeightAt;
    var addrs, net, flows := Distinct(fs, AddrOf), NetBought(fs), FlowsOf(fs);
    FlowsMean(fs);
    assert forall a :: IsLargeIn(flows)(a) == (Abs(FlowIn(flows)(a)) >= 100000.0);
    FilterSame(addrs, IsLargeIn(flows), LargeIn(net));
    SumSame(Filter(addrs, LargeIn(net)), FlowIn(flows), net);
    forall a | a in addrs ensures SmartFlowIn(flows, WeightsAt(h, addrs))(a) == SmartIn(net, h)(a) {
      assert flows.GetOr(a, 0.0) == FlowIn(flows)(a);
    }
    SumSame(addrs, SmartFlowIn(flows, WeightsAt(h, addrs)), SmartIn(net, h));
  }

  // ---------- the tables ----------

  function OfPair(addr: string, coin: string): Fill -> bool { (f: Fill) => f.addr == addr && f.coin == coin }
  function OfWallet(addr: string): Fill -> bool { (f: Fill) => f.addr == addr }

  /** After a flush: each pair row describes the pair's fills, and there is one exactly for traded pairs. */
  lemma PairTable(t: Tables, h: seq<Fill>, sink: Sink, addr: string, coin: string)
    requires Matches(t, h, sink)
    ensures PairKey(addr, coin) in t <==> Filter(h, OfPair(addr, coin)) != []
    ensures PairKey(addr, coin) in t ==>
              && t[PairKey(addr, coin)].PairRow?
              && PairMeans(t[PairKey(addr, coin)].position, Filter(h, OfPair(addr, coin)))
              && t[PairKey(addr, coin)].position.avgEntry == AvgEntry(Filter(h, OfPair(addr, coin)))
  {
    hide Filter, Distinct, PairMeans;
    var key, fs := PairKey(addr, coin), Filter(h, OfPair(addr, coin));
    assert Lookup(t, key) == Expect(h, key, sink);
    FilterSame(h, OfPair(addr, coin), KeyIs(PairOf, (addr, coin)));
    GroupNonEmpty(h, PairOf, (addr, coin));
    PairColumns(fs);
    hide PositionOf;
    PositionEntry(fs);
  }

  lemma PositionEntry(fs: seq<Fill>)
    ensures PositionOf(fs).avgEntry == AvgEntry(fs)
  {
  }

  /** Each wallet row describes the wallet's fills, and there is one exactly for the addresses seen. */
  lemma WalletTable(t: Tables, h: seq<Fill>, sink: Sink, addr: string)
    requires Matches(t, h, sink)
    ensures WalletKey(addr) in t <==> Filter(h, OfWallet(addr)) != []
    ensures WalletKey(addr) in t ==> WalletMeans(t[WalletKey(addr)], Filter(h, OfWallet(addr)))
  {
    hide Filter, Distinct, WalletMeans, WalletRowOf, WalletOf;
    var key, fs := WalletKey(addr), Filter(h, OfWallet(addr));
    assert Lookup(t, key) == Expect(h, key, sink);
    FilterSame(h, OfWallet(addr), KeyIs(AddrOf, addr));
    GroupNonEmpty(h, AddrOf, addr);
    WalletColumns(fs);
  }

  function InSeconds(coin: string, b: int, secs: nat): Fill -> bool {
    (f: Fill) => f.coin == coin && b <= f.tsMs / 1000 < b + secs
  }

  function Seconds(w: Window): nat {
    match w case OneMin => 60 case FiveMin => 300 case OneHour => 3600
  }

  /**
   For any arrival order each bucket row describes exactly the coin's fills in its
   seconds that were not late on arrival, and there is one exactly for buckets with
   such fills; wallets are weighed when the bucket closed, or now while it is open.
   On a time-ordered stream no fill is late.
   */
  lemma BucketTable(t: Tables, h: seq<Fill>, sink: Sink, coin: string, w: Window, b: int)
    requires Matches(t, h, sink) && b % Seconds(w) == 0
    ensures var fs := Filter(Retained(h, w), InSeconds(coin, b, Seconds(w)));
            && (BucketKey(coin, w, b) in t <==> fs != [])
            && (BucketKey(coin, w, b) in t ==>
                  && t[BucketKey(coin, w, b)].BucketRow?
                  && BucketMeans(t[BucketKey(coin, w, b)].snap, b, fs, Lifetime(h, coin, w, b)))
    ensures TimeOrdered(h) ==> Retained(h, w) == h
  {
    hide Filter, Distinct, BucketMeans, SnapshotOf, Lifetime, TimeOrdered, Sum, Retained;
    var key, p := BucketKey(coin, w, b), InSeconds(coin, b, Seconds(w));
    assert Lookup(t, key) == Expect(h, key, sink);
    RowFillsAreRetained(h, coin, w, b);
    BucketHolds(Retained(h, w), coin, w, b, p);
    BucketColumns(b, Filter(Retained(h, w), p), Lifetime(h, coin, w, b));
    if TimeOrdered(h) {
      TimeOrderedDropsNothing(h, w);
    }
  }

  /** With a raw sink, the newest fill of each time, address and coin is stored with its own columns. */
  lemma RawTable(t: Tables, h: seq<Fill>, sink: Sink, i: nat)
    requires Matches(t, h, sink) && sink != Off && i < |h|
    requires forall j :: i < j < |h| ==> !SameRawRow(h[i], h[j])
    ensures var f := h[i];
            exists key ::
              key in t && RawAt(key, f, sink) && t[key] == FillRow(f.px, f.sz, f.side, f.crossed, f.closedPnl)
  {
    hide FillRowOf;
    var f := h[i];
    var key := RawKey(sink)(f).value;
    LastOfRaw(h, sink, i);
    assert Lookup(t, key) == Expect(h, key, sink);
    TenSeconds(f.tsMs / 1000);
    FillRowColumns(f);
    assert RawAt(key, f, sink);
  }

  predicate SameRawRow(f: Fill, g: Fill) { f.coin == g.coin && f.tsMs == g.tsMs && f.addr == g.addr }

  /** The raw key of a fill: its coin, time and address, under a ten-second partition in the bucketed table. */
  predicate RawAt(key: Key, f: Fill, sink: Sink) {
    match key
    case FillBucketKey(coin, tb, ts, addr) =>
      && sink == Bucketed && coin == f.coin && ts == f.tsMs && addr == f.addr
      && tb % 10 == 0 && tb <= f.tsMs / 1000 < tb + 10
    case FillHotKey(coin, ts, addr) => sink == Hot && coin == f.coin && ts == f.tsMs && addr == f.addr
    case _ => false
  }

  lemma TenSeconds(s: int)
    ensures s / 10 * 10 % 10 == 0 && s / 10 * 10 <= s < s / 10 * 10 + 10
  {
    FloorSpan(s, 10);
  }

  lemma FillRowColumns(f: Fill)
    ensures FillRowOf(f) == FillRow(f.px, f.sz, f.side, f.crossed, f.closedPnl)
  {
  }

  /** The last fill of a raw key is the last of its group. */
  lemma {:induction false} LastOfRaw(h: seq<Fill>, sink: Sink, i: nat)
    requires sink != Off && i < |h| && forall j :: i < j < |h| ==> !SameRawRow(h[i], h[j])
    ensures RawKey(sink)(h[i]).Some?
    ensures var key := RawKey(sink)(h[i]);
            var fs := Group(h, RawKey(sink), key);
            fs != [] && fs[|fs| - 1] == h[i]
  {
    var init, last := h[..|h| - 1], h[|h| - 1];
    SplitLast(h);
    GroupSnoc(init, last, RawKey(sink), RawKey(sink)(h[i]));
    if i < |h| - 1 {
      assert init[i] == h[i] && forall j :: i < j < |init| ==> init[j] == h[j];
      LastOfRaw(init, sink, i);
    }
  }
}
