/**
 Order independence: the open snapshots depend on which fills a stream holds and
 not on the order in which they arrived.
 */
module Streams {
  import opened Seqs
  import opened Fills
  import opened FeatureSpec
  import opened Windows

  lemma LatestTsPermuted(s: seq<Fill>, t: seq<Fill>)
    requires multiset(s) == multiset(t)
    ensures LatestTs(s) == LatestTs(t)
  {
    hide LatestTs;
    PermutedMembers(s, t);
    if s != [] {
      LatestTsIsMax(s);
      LatestTsIsMax(t);
      assert t != [];
    }
  }

  lemma OpenTsPermuted(h: seq<Fill>, h': seq<Fill>, coin: string, w: Window)
    requires multiset(h) == multiset(h')
    ensures OpenTs(h, coin, w) == OpenTs(h', coin, w)
  {
    FilterPermuted(h, h', KeyIs(CoinOf, coin));
    LatestTsPermuted(Group(h, CoinOf, coin), Group(h', CoinOf, coin));
  }

  lemma SumFilterPermuted<T>(s: seq<T>, t: seq<T>, p: T -> bool, g: T -> real)
    requires multiset(s) == multiset(t)
    ensures Sum(Filter(s, p), g) == Sum(Filter(t, p), g)
    ensures |Filter(s, p)| == |Filter(t, p)|
  {
    FilterPermuted(s, t, p);
    SumPermuted(Filter(s, p), Filter(t, p), g);
    PermutedMembers(Filter(s, p), Filter(t, p));
  }

  /** A wallet's weight does not depend on the order of its fills. */
  lemma WeightPermuted(h: seq<Fill>, h': seq<Fill>, a: string)
    requires multiset(h) == multiset(h')
    ensures WeightAt(h, a) == WeightAt(h', a)
  {
    hide Sum, Filter, Distinct;
    DistinctPermuted(h, h', AddrOf);
    PermutedMembers(Distinct(h, AddrOf), Distinct(h', AddrOf));
    FilterPermuted(h, h', KeyIs(AddrOf, a));
    var s, t := Group(h, AddrOf, a), Group(h', AddrOf, a);
    SumPermuted(s, t, PnlOf);
    SumPermuted(s, t, NotionalOf);
    SumPermuted(s, t, SignedNotionalOf);
    FilterPermuted(s, t, Taker);
    FilterPermuted(s, t, Maker);
    PermutedMembers(s, t);
    PermutedMembers(Filter(s, Taker), Filter(t, Taker));
    PermutedMembers(Filter(s, Maker), Filter(t, Maker));
    WeightIgnoresLastTs(WalletOf(s), WalletOf(t));
  }

  lemma WeightIgnoresLastTs(s: WalletStats, t: WalletStats)
    requires s.(lastTs := 0) == t.(lastTs := 0)
    ensures s.Weight() == t.Weight()
  {
  }

  lemma FlowsPermuted(s: seq<Fill>, t: seq<Fill>)
    requires multiset(s) == multiset(t)
    ensures FlowsOf(s).m == FlowsOf(t).m
    ensures multiset(FlowsOf(s).keys) == multiset(FlowsOf(t).keys)
  {
    hide Sum, Filter, Distinct, SignedNotionalOf;
    DistinctPermuted(s, t, AddrOf);
    PermutedMembers(Distinct(s, AddrOf), Distinct(t, AddrOf));
    forall a ensures Sum(Group(s, AddrOf, a), SignedNotionalOf) == Sum(Group(t, AddrOf, a), SignedNotionalOf) {
      FilterPermuted(s, t, KeyIs(AddrOf, a));
      SumPermuted(Group(s, AddrOf, a), Group(t, AddrOf, a), SignedNotionalOf);
    }
  }

  /** Sums over a dictionary do not depend on its key order. */
  lemma FlowSumPermuted(d: Flows, d': Flows, v: string -> real, v': string -> real)
    requires multiset(d.keys) == multiset(d'.keys)
    requires forall a :: v(a) == v'(a)
    ensures Sum(d.keys, v) == Sum(d'.keys, v')
  {
    SumPermuted(d.keys, d'.keys, v);
    SumSame(d'.keys, v, v');
  }

  lemma LargeFlowPermuted(d: Flows, d': Flows)
    requires d.m == d'.m && multiset(d.keys) == multiset(d'.keys)
    ensures Sum(Filter(d.keys, IsLargeIn(d)), FlowIn(d)) == Sum(Filter(d'.keys, IsLargeIn(d')), FlowIn(d'))
  {
    FilterPermuted(d.keys, d'.keys, IsLargeIn(d));
    FilterSame(d'.keys, IsLargeIn(d), IsLargeIn(d'));
    SumPermuted(Filter(d.keys, IsLargeIn(d)), Filter(d'.keys, IsLargeIn(d')), FlowIn(d));
    SumSame(Filter(d'.keys, IsLargeIn(d')), FlowIn(d), FlowIn(d'));
  }

  lemma HhiPermuted(d: Flows, d': Flows)
    requires d.m == d'.m && multiset(d.keys) == multiset(d'.keys)
    ensures Hhi(d) == Hhi(d')
  {
    hide Sum;
    FlowSumPermuted(d, d', AbsFlowIn(d), AbsFlowIn(d'));
    var gross := GrossFlow(d);
    if gross > 0.0 {
      FlowSumPermuted(d, d', ShareSquaredIn(d, gross), ShareSquaredIn(d', gross));
    }
  }

  lemma SnapshotPermuted(b: int, fs: seq<Fill>, fs': seq<Fill>, h: seq<Fill>, h': seq<Fill>)
    requires multiset(fs) == multiset(fs') && multiset(h) == multiset(h')
    ensures SnapshotOf(b, fs, h) == SnapshotOf(b, fs', h')
  {
    hide Sum, Filter, Distinct, FlowsOf, WeightAt, Hhi;
    var d, d' := FlowsOf(fs), FlowsOf(fs');
    var wts, wts' := WeightsAt(h, Distinct(fs, AddrOf)), WeightsAt(h', Distinct(fs', AddrOf));
    SumPermuted(fs, fs', NotionalOf);
    SumFilterPermuted(fs, fs', TakerBuy, NotionalOf);
    SumFilterPermuted(fs, fs', TakerSell, NotionalOf);
    FlowsPermuted(fs, fs');
    PermutedMembers(d.keys, d'.keys);
    HhiPermuted(d, d');
    LargeFlowPermuted(d, d');
    assert wts == wts' by {
      DistinctPermuted(fs, fs', AddrOf);
      PermutedMembers(Distinct(fs, AddrOf), Distinct(fs', AddrOf));
      forall a ensures WeightAt(h, a) == WeightAt(h', a) {
        WeightPermuted(h, h', a);
      }
    }
    FlowSumPermuted(d, d', SmartFlowIn(d, wts), SmartFlowIn(d', wts'));
  }

  /** The open snapshot of a (coin, window) depends on which fills were seen, not on their order. */
  lemma OpenSnapshotPermuted(h: seq<Fill>, h': seq<Fill>, coin: string, w: Window)
    requires multiset(h) == multiset(h')
    ensures SnapAt(h, coin, w, OpenTs(h, coin, w)) == SnapAt(h', coin, w, OpenTs(h', coin, w))
  {
    hide SnapshotOf, OpenTs, Group;
    OpenTsPermuted(h, h', coin, w);
    var b := OpenTs(h, coin, w);
    assert multiset(BucketFills(h, coin, w, b)) == multiset(BucketFills(h', coin, w, b)) by {
      BucketFillsPermuted(h, h', coin, w, b);
    }
    SnapshotPermuted(b, BucketFills(h, coin, w, b), BucketFills(h', coin, w, b), h, h');
  }

  lemma BucketFillsPermuted(h: seq<Fill>, h': seq<Fill>, coin: string, w: Window, b: int)
    requires multiset(h) == multiset(h')
    ensures multiset(BucketFills(h, coin, w, b)) == multiset(BucketFills(h', coin, w, b))
  {
    FilterPermuted(h, h', KeyIs(SlotOf(w), (coin, b)));
  }

  /** Order independence: any two arrival orders of the same fills leave the same open snapshots. */
  lemma OpenSnapshotsAreOrderIndependent(h: seq<Fill>, h': seq<Fill>)
    requires multiset(h) == multiset(h')
    ensures |OpenSnapshots(h)| == |OpenSnapshots(h')|
    ensures forall x :: x in OpenSnapshots(h) <==> x in OpenSnapshots(h')
  {
    hide SnapAt, OpenTs, Distinct, OpenSnapshots;
    OpenSnapshotsMembers(h);
    OpenSnapshotsMembers(h');
    DistinctPermuted(h, h', CoinOf);
    PermutedMembers(Distinct(h, CoinOf), Distinct(h', CoinOf));
    forall c, w ensures SnapAt(h, c, w, OpenTs(h, c, w)) == SnapAt(h', c, w, OpenTs(h', c, w)) {
      OpenSnapshotPermuted(h, h', c, w);
    }
  }
}
