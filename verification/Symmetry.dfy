/**
 Buying and selling are treated alike: exchanging the side of every fill turns
 every feature into its mirror image.
 */
module Symmetry {
  import opened Seqs
  import opened Fills
  import opened FeatureSpec
  import opened Windows
  import opened Bounds
  import opened Reals

  function Mirror(f: Fill): Fill { f.(side := if f.IsBuy() then "A" else "B") }

  function MirrorAll(fs: seq<Fill>): seq<Fill> {
    if |fs| == 0 then [] else MirrorAll(fs[..|fs| - 1]) + [Mirror(fs[|fs| - 1])]
  }

  lemma {:induction false} MirrorLength(fs: seq<Fill>)
    ensures |MirrorAll(fs)| == |fs|
    ensures fs != [] ==> MirrorAll(fs)[|fs| - 1] == Mirror(fs[|fs| - 1])
    ensures fs != [] ==> MirrorAll(fs)[..|fs| - 1] == MirrorAll(fs[..|fs| - 1])
  {
    if fs != [] {
      MirrorLength(fs[..|fs| - 1]);
    }
  }

  lemma MirrorSnoc(fs: seq<Fill>, f: Fill)
    ensures MirrorAll(fs + [f]) == MirrorAll(fs) + [Mirror(f)]
  {
    assert (fs + [f])[..|fs|] == fs;
  }

  /** Mirroring commutes with filtering, when the predicates correspond. */
  lemma {:induction false} FilterMirror(fs: seq<Fill>, p: Fill -> bool, q: Fill -> bool)
    requires forall x: Fill :: p(Mirror(x)) == q(x)
    ensures Filter(MirrorAll(fs), p) == MirrorAll(Filter(fs, q))
  {
    if fs != [] {
      var init, last := fs[..|fs| - 1], fs[|fs| - 1];
      FilterMirror(init, p, q);
      FilterSnoc(MirrorAll(init), Mirror(last), p);
      MirrorSnoc(Filter(init, q), last);
    }
  }

  lemma {:induction false} DistinctMirror<K>(fs: seq<Fill>, key: Fill -> K)
    requires forall x: Fill :: key(Mirror(x)) == key(x)
    ensures Distinct(MirrorAll(fs), key) == Distinct(fs, key)
  {
    if fs != [] {
      var init, last := fs[..|fs| - 1], fs[|fs| - 1];
      DistinctMirror(init, key);
      DistinctSnoc(MirrorAll(init), Mirror(last), key);
    }
  }

  lemma GroupMirror<K>(fs: seq<Fill>, key: Fill -> K, k: K)
    requires forall x: Fill :: key(Mirror(x)) == key(x)
    ensures Group(MirrorAll(fs), key, k) == MirrorAll(Group(fs, key, k))
  {
    FilterMirror(fs, KeyIs(key, k), KeyIs(key, k));
  }

  lemma {:induction false} SumKept(fs: seq<Fill>, g: Fill -> real)
    requires forall x: Fill :: g(Mirror(x)) == g(x)
    ensures Sum(MirrorAll(fs), g) == Sum(fs, g)
  {
    if fs != [] {
      SumKept(fs[..|fs| - 1], g);
      SumSnoc(MirrorAll(fs[..|fs| - 1]), Mirror(fs[|fs| - 1]), g);
    }
  }

  lemma {:induction false} SumNegated(fs: seq<Fill>, g: Fill -> real)
    requires forall x: Fill :: g(Mirror(x)) == -g(x)
    ensures Sum(MirrorAll(fs), g) == -Sum(fs, g)
  {
    if fs != [] {
      SumNegated(fs[..|fs| - 1], g);
      SumSnoc(MirrorAll(fs[..|fs| - 1]), Mirror(fs[|fs| - 1]), g);
    }
  }

  lemma MirrorKeepsAmounts()
    ensures forall x: Fill :: NotionalOf(Mirror(x)) == NotionalOf(x) && PnlOf(Mirror(x)) == PnlOf(x)
    ensures forall x: Fill :: SignedSzOf(Mirror(x)) == -SignedSzOf(x)
    ensures forall x: Fill :: SignedNotionalOf(Mirror(x)) == -SignedNotionalOf(x)
  {
  }

  // ---------- positions ----------

  lemma NextEntryMirror(net: real, avg: real, d: real, px: real)
    ensures NextEntry(-net, avg, -d, px) == NextEntry(net, avg, d, px)
  {
    if Grows(net, d) {
      assert -net * avg + -d * px == -(net * avg + d * px);
      NegateBoth(net * avg + d * px, net + d);
    }
  }

  lemma {:induction false} NetMirror(fs: seq<Fill>)
    ensures Net(MirrorAll(fs)) == -Net(fs)
  {
    MirrorKeepsAmounts();
    SumNegated(fs, SignedSzOf);
  }

  lemma {:induction false} AvgEntryMirror(fs: seq<Fill>)
    ensures AvgEntry(MirrorAll(fs)) == AvgEntry(fs)
  {
    hide NextEntry, Net;
    if fs != [] {
      var init, last := fs[..|fs| - 1], fs[|fs| - 1];
      MirrorLength(fs);
      NetMirror(init);
      AvgEntryMirror(init);
      NextEntryMirror(Net(init), AvgEntry(init), last.SignedSz(), last.px);
    }
  }

  /** The mirrored position is the opposite one at the same entry price and PnL. */
  lemma {:induction false} PositionMirror(fs: seq<Fill>)
    ensures PositionOf(MirrorAll(fs)) == PositionOf(fs).(netPos := -PositionOf(fs).netPos)
  {
    hide Sum, AvgEntry, Fill.Notional;
    NetMirror(fs);
    AvgEntryMirror(fs);
    MirrorKeepsAmounts();
    SumKept(fs, PnlOf);
    MirrorLength(fs);
  }

  // ---------- wallets ----------

  /** The mirrored wallet has the opposite net volume and, in all else, the same statistics. */
  lemma {:induction false} WalletMirror(fs: seq<Fill>)
    ensures WalletOf(MirrorAll(fs)) == WalletOf(fs).(signedVolume := -WalletOf(fs).signedVolume)
  {
    hide Sum, Filter, Fill.Notional;
    MirrorKeepsAmounts();
    SumKept(fs, PnlOf);
    SumKept(fs, NotionalOf);
    SumNegated(fs, SignedNotionalOf);
    FilterMirror(fs, Taker, Taker);
    FilterMirror(fs, Maker, Maker);
    MirrorLength(fs);
    MirrorLength(Filter(fs, Taker));
    MirrorLength(Filter(fs, Maker));
  }

  /** An archetype, and so a weight, does not depend on the side a wallet trades. */
  lemma OppositeWallet(s: WalletStats)
    ensures s.(signedVolume := -s.signedVolume).Archetype() == s.Archetype()
    ensures s.(signedVolume := -s.signedVolume).Weight() == s.Weight()
  {
  }

  lemma WeightMirror(h: seq<Fill>, a: string)
    ensures WeightAt(MirrorAll(h), a) == WeightAt(h, a)
  {
    hide WalletOf, Group, Distinct, WalletStats.Weight;
    DistinctMirror(h, AddrOf);
    GroupMirror(h, AddrOf, a);
    WalletMirror(Group(h, AddrOf, a));
    OppositeWallet(WalletOf(Group(h, AddrOf, a)));
  }

  // ---------- buckets ----------

  function Flip(s: Snapshot): Snapshot {
    s.(takerBuy := s.takerSell, takerSell := s.takerBuy, imbalance := -s.imbalance,
       largeFlow := -s.largeFlow, smartFlow := -s.smartFlow)
  }

  lemma FlowsMirror(fs: seq<Fill>)
    ensures FlowsOf(MirrorAll(fs)).keys == FlowsOf(fs).keys
    ensures forall a :: FlowsOf(MirrorAll(fs)).GetOr(a, 0.0) == -FlowsOf(fs).GetOr(a, 0.0)
  {
    hide Sum, Group, Distinct, SignedNotionalOf;
    DistinctMirror(fs, AddrOf);
    MirrorKeepsAmounts();
    forall a
      ensures Sum(Group(MirrorAll(fs), AddrOf, a), SignedNotionalOf) == -Sum(Group(fs, AddrOf, a), SignedNotionalOf)
    {
      GroupMirror(fs, AddrOf, a);
      SumNegated(Group(fs, AddrOf, a), SignedNotionalOf);
    }
  }

  /** Concentration, and the sizes of large and smart flow, depend on flows up to sign. */
  lemma OppositeFlows(d: Flows, d': Flows, weights: map<string, real>)
    requires d'.keys == d.keys && forall a :: d'.GetOr(a, 0.0) == -d.GetOr(a, 0.0)
    ensures Hhi(d') == Hhi(d)
    ensures Sum(Filter(d'.keys, IsLargeIn(d')), FlowIn(d')) == -Sum(Filter(d.keys, IsLargeIn(d)), FlowIn(d))
    ensures Sum(d'.keys, SmartFlowIn(d', weights)) == -Sum(d.keys, SmartFlowIn(d, weights))
  {
    hide Sum, Filter, Scaled;
    SumSame(d.keys, AbsFlowIn(d), AbsFlowIn(d'));
    if GrossFlow(d) > 0.0 {
      SumSame(d.keys, ShareSquaredIn(d, GrossFlow(d)), ShareSquaredIn(d', GrossFlow(d)));
    }
    FilterSame(d.keys, IsLargeIn(d), IsLargeIn(d'));
    Negated(Filter(d.keys, IsLargeIn(d)), FlowIn(d), FlowIn(d'));
    OppositeSmartFlow(d, d', weights);
  }

  lemma OppositeSmartFlow(d: Flows, d': Flows, weights: map<string, real>)
    requires d'.keys == d.keys && forall a :: d'.GetOr(a, 0.0) == -d.GetOr(a, 0.0)
    ensures Sum(d'.keys, SmartFlowIn(d', weights)) == -Sum(d.keys, SmartFlowIn(d, weights))
  {
    hide Sum, Scaled;
    forall a ensures SmartFlowIn(d', weights)(a) == -SmartFlowIn(d, weights)(a) {
      NegatedProduct(d.GetOr(a, 0.0), if a in weights then weights[a] else 0.0);
    }
    Negated(d.keys, SmartFlowIn(d, weights), SmartFlowIn(d', weights));
  }

  lemma NegatedProduct(x: real, y: real)
    ensures -x * y == -(x * y)
  {
  }

  lemma {:induction false} Negated<K>(keys: seq<K>, v: K -> real, v': K -> real)
    requires forall k :: k in keys ==> v'(k) == -v(k)
    ensures Sum(keys, v') == -Sum(keys, v)
  {
    if keys != [] {
      SplitLast(keys);
      Negated(keys[..|keys| - 1], v, v');
    }
  }

  lemma ImbalanceMirror(buy: real, sell: real)
    ensures Imbalance(sell, buy) == -Imbalance(buy, sell)
  {
    if buy + sell > 0.0 {
      assert (sell - buy) / (buy + sell) == -((buy - sell) / (buy + sell));
    }
  }

  lemma {:induction false} TotalsMirror(fs: seq<Fill>)
    ensures Sum(MirrorAll(fs), NotionalOf) == Sum(fs, NotionalOf)
    ensures Sum(Filter(MirrorAll(fs), TakerBuy), NotionalOf) == Sum(Filter(fs, TakerSell), NotionalOf)
    ensures Sum(Filter(MirrorAll(fs), TakerSell), NotionalOf) == Sum(Filter(fs, TakerBuy), NotionalOf)
  {
    hide Sum, Filter, Fill.Notional;
    MirrorKeepsAmounts();
    SumKept(fs, NotionalOf);
    FilterMirror(fs, TakerBuy, TakerSell);
    FilterMirror(fs, TakerSell, TakerBuy);
    SumKept(Filter(fs, TakerBuy), NotionalOf);
    SumKept(Filter(fs, TakerSell), NotionalOf);
  }

  lemma WeightsMirror(h: seq<Fill>, addrs: seq<string>)
    ensures WeightsAt(MirrorAll(h), addrs) == WeightsAt(h, addrs)
  {
    hide WeightAt;
    forall a ensures WeightAt(MirrorAll(h), a) == WeightAt(h, a) {
      WeightMirror(h, a);
    }
  }

  lemma SnapshotMirror(b: int, fs: seq<Fill>, h: seq<Fill>)
    ensures SnapshotOf(b, MirrorAll(fs), MirrorAll(h)) == Flip(SnapshotOf(b, fs, h))
  {
    hide Sum, Filter, Distinct, FlowsOf, WeightsAt, Hhi, Imbalance, MirrorAll;
    hide IsLargeIn, FlowIn, SmartFlowIn;
    TotalsMirror(fs);
    ImbalanceMirror(Sum(Filter(fs, TakerBuy), NotionalOf), Sum(Filter(fs, TakerSell), NotionalOf));
    FlowsMirror(fs);
    AddrsMirror(fs);
    WeightsMirror(h, Distinct(fs, AddrOf));
    OppositeFlows(FlowsOf(fs), FlowsOf(MirrorAll(fs)), WeightsAt(h, Distinct(fs, AddrOf)));
  }

  lemma {:induction false} AddrsMirror(fs: seq<Fill>)
    ensures Distinct(MirrorAll(fs), AddrOf) == Distinct(fs, AddrOf)
  {
    DistinctMirror(fs, AddrOf);
  }

  lemma {:induction false} LatestTsMirror(fs: seq<Fill>)
    ensures LatestTs(MirrorAll(fs)) == LatestTs(fs)
  {
    if fs != [] {
      var init, last := fs[..|fs| - 1], fs[|fs| - 1];
      SplitLast(fs);
      LatestTsMirror(init);
      MirrorLength(init);
      LatestTsSnoc(init, last);
      LatestTsSnoc(MirrorAll(init), Mirror(last));
    }
  }

  /** The open snapshots of the mirrored stream are the mirrored open snapshots. */
  lemma OpenSnapshotMirror(h: seq<Fill>, coin: string, w: Window)
    ensures OpenTs(MirrorAll(h), coin, w) == OpenTs(h, coin, w)
    ensures SnapAt(MirrorAll(h), coin, w, OpenTs(h, coin, w)) == Flip(SnapAt(h, coin, w, OpenTs(h, coin, w)))
  {
    hide SnapshotOf, Filter, LatestTs, BucketStart;
    GroupMirror(h, CoinOf, coin);
    LatestTsMirror(Group(h, CoinOf, coin));
    var b := OpenTs(h, coin, w);
    GroupMirror(h, SlotOf(w), (coin, b));
    SnapshotMirror(b, BucketFills(h, coin, w, b), h);
  }

  // ---------- archetypes ----------

  lemma {:induction false} OneSided(fs: seq<Fill>)
    requires forall f :: f in fs ==> f.IsBuy()
    ensures Sum(fs, SignedNotionalOf) == Sum(fs, NotionalOf)
  {
    hide Fill.Notional;
    if fs != [] {
      SplitLast(fs);
      OneSided(fs[..|fs| - 1]);
    }
  }

  lemma {:induction false} OneSidedSell(fs: seq<Fill>)
    requires forall f :: f in fs ==> !f.IsBuy()
    ensures Sum(fs, SignedNotionalOf) == -Sum(fs, NotionalOf)
  {
    hide Fill.Notional;
    if fs != [] {
      SplitLast(fs);
      OneSidedSell(fs[..|fs| - 1]);
    }
  }

  /** A wallet that only buys, or only sells, is directional as soon as it has volume. */
  lemma OneSidedIsDirectional(fs: seq<Fill>)
    requires Sum(fs, NotionalOf) > 0.0
    requires (forall f :: f in fs ==> f.IsBuy()) || (forall f :: f in fs ==> !f.IsBuy())
    ensures WalletOf(fs).Archetype() == Directional
  {
    hide Sum, Filter, Fill.Notional;
    if forall f :: f in fs ==> f.IsBuy() {
      OneSided(fs);
    } else {
      OneSidedSell(fs);
    }
    FullNetIsDirectional(WalletOf(fs));
  }

  lemma FullNetIsDirectional(s: WalletStats)
    requires s.grossVolume > 0.0 && Abs(s.signedVolume) == s.grossVolume
    ensures s.Archetype() == Directional
  {
    assert Abs(s.signedVolume) / s.grossVolume == 1.0;
  }

  lemma {:induction false} NoMakers(fs: seq<Fill>)
    requires forall f :: f in fs ==> f.crossed
    ensures Filter(fs, Maker) == []
  {
    if fs != [] {
      SplitLast(fs);
      NoMakers(fs[..|fs| - 1]);
    }
  }

  /** A wallet that never makes is never taken for a market maker, and weighs something. */
  lemma TakersAreNotMakers(fs: seq<Fill>)
    requires forall f :: f in fs ==> f.crossed
    ensures WalletOf(fs).Archetype() != MarketMaker && WalletOf(fs).Weight() > 0.0
  {
    hide Sum;
    NoMakers(fs);
  }
}
