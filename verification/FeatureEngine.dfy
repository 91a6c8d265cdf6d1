/**
 The incremental feature engine.  Every object remembers, as ghost state, the
 fills it has absorbed; its invariant says that its fields are the batch
 features of exactly those fills.
 */
module FeatureEngine {
  import opened Seqs
  import opened Fills
  import opened Dicts
  import opened FeatureSpec
  import opened Windows
  import opened Reals

  class WalletCoinState {
    var netPos: real
    var avgEntry: real
    var realizedPnl: real
    var fillCount: nat
    var lastTs: int
    ghost var hist: seq<Fill>

    function View(): Position
      reads this
    {
      Position(netPos, avgEntry, realizedPnl, fillCount, lastTs)
    }

    ghost predicate Valid()
      reads this
    {
      View() == PositionOf(hist)
    }

    constructor ()
      ensures Valid() && hist == []
    {
      netPos, avgEntry, realizedPnl, fillCount, lastTs := 0.0, 0.0, 0.0, 0, 0;
      hist := [];
    }

    method Update(f: Fill)
      requires Valid()
      modifies this
      ensures Valid() && hist == old(hist) + [f]
    {
      hide Sum, AvgEntry, NextEntry;
      PositionSnoc(hist, f);
      NextEntryIsWeighted(netPos, avgEntry, f.SignedSz(), f.px);
      var delta := f.SignedSz();
      var newPos := netPos + delta;
      var sameDir := (netPos >= 0.0 && delta > 0.0) || (netPos <= 0.0 && delta < 0.0);
      if netPos == 0.0 || sameDir {
        var denom := Abs(newPos);
        if denom > 0.0 {
          avgEntry := WeightedPrice(Abs(netPos), avgEntry, Abs(delta), f.px, denom);
        }
      } else if newPos != 0.0 && (newPos > 0.0) != (netPos > 0.0) {
        avgEntry := f.px;
      }
      netPos := newPos;
      realizedPnl := realizedPnl + f.closedPnl;
      fillCount := fillCount + 1;
      lastTs := f.tsMs;
      hist := hist + [f];
    }
  }

  /** The average of two prices, weighted by the sizes held at them. */
  function WeightedPrice(size: real, price: real, size': real, price': real, denom: real): real
    requires denom != 0.0
  {
    (size * price + size' * price') / denom
  }

  lemma PositionSnoc(fs: seq<Fill>, f: Fill)
    ensures Net(fs + [f]) == Net(fs) + f.SignedSz()
    ensures Sum(fs + [f], PnlOf) == Sum(fs, PnlOf) + f.closedPnl
    ensures AvgEntry(fs + [f]) == NextEntry(Net(fs), AvgEntry(fs), f.SignedSz(), f.px)
  {
    hide NextEntry, Sum;
    SumSnoc(fs, f, SignedSzOf);
    SumSnoc(fs, f, PnlOf);
    assert (fs + [f])[..|fs|] == fs;
  }

  /** On a growing position, weighing by magnitudes is weighing by signed sizes. */
  lemma NextEntryIsWeighted(net: real, avg: real, d: real, px: real)
    ensures Grows(net, d) ==>
              NextEntry(net, avg, d, px) == WeightedPrice(Abs(net), avg, Abs(d), px, Abs(net + d))
    ensures Flips(net, d) ==> NextEntry(net, avg, d, px) == px
    ensures !Grows(net, d) && !Flips(net, d) ==> NextEntry(net, avg, d, px) == avg
  {
    if Grows(net, d) && d < 0.0 {
      assert Abs(net) * avg + Abs(d) * px == -(net * avg + d * px);
      NegateBoth(net * avg + d * px, net + d);
    }
  }

  class WalletState {
    var cumRealizedPnl: real
    var totalFills: nat
    var grossVolume: real
    var signedVolume: real
    var opens: nat
    var closes: nat
    var lastTs: int
    ghost var hist: seq<Fill>

    /** The wallet's statistics; its churn, archetype and weight are read off them. */
    function View(): WalletStats
      reads this
    {
      WalletStats(cumRealizedPnl, totalFills, grossVolume, signedVolume, opens, closes, lastTs)
    }

    ghost predicate Valid()
      reads this
    {
      View() == WalletOf(hist)
    }

    constructor ()
      ensures Valid() && hist == []
    {
      cumRealizedPnl, totalFills, grossVolume, signedVolume := 0.0, 0, 0.0, 0.0;
      opens, closes, lastTs := 0, 0, 0;
      hist := [];
    }

    method Update(f: Fill)
      requires Valid()
      modifies this
      ensures Valid() && hist == old(hist) + [f]
    {
      hide Sum, Filter, Fill.Notional, WalletOf;
      WalletSnoc(hist, f);
      var notional := f.Notional();
      cumRealizedPnl := cumRealizedPnl + f.closedPnl;
      totalFills := totalFills + 1;
      grossVolume := grossVolume + notional;
      signedVolume := signedVolume + if f.IsBuy() then notional else -notional;
      if f.crossed {
        opens := opens + 1;
      } else {
        closes := closes + 1;
      }
      lastTs := f.tsMs;
      hist := hist + [f];
    }
  }

  lemma WalletSnoc(fs: seq<Fill>, f: Fill)
    ensures WalletOf(fs + [f]) ==
            var s := WalletOf(fs);
            WalletStats(s.cumPnl + f.closedPnl, s.totalFills + 1, s.grossVolume + f.Notional(),
                        s.signedVolume + SignedNotionalOf(f), s.opens + (if f.crossed then 1 else 0),
                        s.closes + (if f.crossed then 0 else 1), f.tsMs)
  {
    hide Sum, Filter, Fill.Notional;
    SumSnoc(fs, f, PnlOf);
    SumSnoc(fs, f, NotionalOf);
    SumSnoc(fs, f, SignedNotionalOf);
    FilterSnoc(fs, f, Taker);
    FilterSnoc(fs, f, Maker);
  }

  type Wallets = Dict<string, WalletState>

  /** A well-formed dictionary of valid wallets, no two keys sharing one. */
  ghost predicate SoundWallets(wallets: Wallets)
    reads wallets.m.Values
  {
    && wallets.Valid()
    && (forall a, b :: a in wallets.m && b in wallets.m && a != b ==> wallets.m[a] != wallets.m[b])
    && (forall a :: a in wallets.m ==> wallets.m[a].Valid())
  }

  ghost function WalletHists(wallets: Wallets): map<string, seq<Fill>>
    reads wallets.m.Values
  {
    map a | a in wallets.m :: wallets.m[a].hist
  }

  /** The wallet dictionary has absorbed exactly the history h. */
  ghost predicate Tracks(wallets: Wallets, h: seq<Fill>)
    reads wallets.m.Values
  {
    && SoundWallets(wallets)
    && wallets.keys == Distinct(h, AddrOf)
    && WalletHists(wallets) == Groups(h, AddrOf)
  }

  function WalletWeights(wallets: Wallets, addrs: seq<string>): map<string, real>
    reads wallets.m.Values
  {
    map a | a in addrs :: if a in wallets.m then wallets.m[a].View().Weight() else 0.0
  }

  class Bucket {
    const bucketTs: int
    var volume: real
    var takerBuy: real
    var takerSell: real
    var walletFlow: Dict<string, real>
    ghost var hist: seq<Fill>

    ghost predicate Valid()
      reads this
    {
      && volume == Sum(hist, NotionalOf)
      && takerBuy == Sum(Filter(hist, TakerBuy), NotionalOf)
      && takerSell == Sum(Filter(hist, TakerSell), NotionalOf)
      && walletFlow == FlowsOf(hist)
    }

    constructor (bucketTs: int)
      ensures Valid() && this.bucketTs == bucketTs && hist == []
    {
      this.bucketTs := bucketTs;
      volume, takerBuy, takerSell := 0.0, 0.0, 0.0;
      walletFlow := Dict([], map[]);
      hist := [];
    }

    method Add(f: Fill)
      requires Valid()
      modifies this
      ensures Valid() && hist == old(hist) + [f]
    {
      hide Sum, Filter, FlowsOf, Fill.Notional;
      var n := f.Notional();
      volume := volume + n;
      if f.crossed {
        if f.IsBuy() {
          takerBuy := takerBuy + n;
        } else {
          takerSell := takerSell + n;
        }
      }
      walletFlow := walletFlow.Put(f.addr, walletFlow.GetOr(f.addr, 0.0) + if f.IsBuy() then n else -n);
      SumSnoc(hist, f, NotionalOf);
      FilterSnoc(hist, f, TakerBuy);
      FilterSnoc(hist, f, TakerSell);
      SumSnoc(Filter(hist, TakerBuy), f, NotionalOf);
      SumSnoc(Filter(hist, TakerSell), f, NotionalOf);
      FlowsSnoc(hist, f);
      hist := hist + [f];
    }

    function Snapshot(wallets: Wallets): Snapshot
      reads this, wallets.m.Values
    {
      MakeSnapshot(bucketTs, volume, takerBuy, takerSell, walletFlow, WalletWeights(wallets, walletFlow.keys))
    }
  }

  lemma FlowsSnoc(fs: seq<Fill>, f: Fill)
    ensures FlowsOf(fs + [f]) == FlowsOf(fs).Put(f.addr, FlowsOf(fs).GetOr(f.addr, 0.0) + SignedNotionalOf(f))
  {
    hide Group, Distinct, Sum, SignedNotionalOf;
    var g := SignedNotionalOf;
    GroupsAfter(fs, f, AddrOf);
    SumSnoc(Group(fs, AddrOf, f.addr), f, g);
    SumEmpty<Fill>(g);
    var addrs, addrs' := Distinct(fs, AddrOf), Distinct(fs + [f], AddrOf);
    var put := FlowsOf(fs).Put(f.addr, FlowsOf(fs).GetOr(f.addr, 0.0) + g(f));
    forall a | a in addrs' ensures put.m[a] == Sum(Group(fs + [f], AddrOf, a), g) {
    }
    assert FlowsOf(fs + [f]).m == put.m;
  }

  /** A snapshot of a live bucket is the batch snapshot of the fills it absorbed. */
  lemma SnapshotIsBatch(b: Bucket, wallets: Wallets, hw: seq<Fill>)
    requires b.Valid() && Tracks(wallets, hw)
    ensures b.Snapshot(wallets) == SnapshotOf(b.bucketTs, b.hist, hw)
  {
    hide MakeSnapshot, Group, Distinct, Sum, Filter, WalletOf;
    forall a ensures (if a in wallets.m then wallets.m[a].View().Weight() else 0.0) == WeightAt(hw, a) {
      if a in wallets.m {
        assert WalletHists(wallets)[a] == Groups(hw, AddrOf)[a];
      }
    }
    assert WalletWeights(wallets, b.walletFlow.keys) == WeightsAt(hw, Distinct(b.hist, AddrOf));
  }

  type Buckets = Dict<(string, Window), Bucket>

  /** What a bucket holds: its start and the fills it absorbed. */
  datatype Holding = Holding(bucketTs: int, fills: seq<Fill>)

  /** The open bucket of (coin, w) after h holds every fill of h that falls in it. */
  ghost function OpenBucket(h: seq<Fill>, coin: string, w: Window): Holding {
    Holding(OpenTs(h, coin, w), BucketFills(h, coin, w, OpenTs(h, coin, w)))
  }

  ghost function OpenBuckets(h: seq<Fill>): map<(string, Window), Holding> {
    map k | k in OpenKeys(Distinct(h, CoinOf)) :: OpenBucket(h, k.0, k.1)
  }

  /** The open buckets of h, with the first i windows of f's coin already served with f. */
  ghost function MidBuckets(h: seq<Fill>, f: Fill, i: nat): map<(string, Window), Holding>
    requires i <= |WINDOWS|
  {
    if i == 0 then OpenBuckets(h)
    else MidBuckets(h, f, i - 1)[(f.coin, WINDOWS[i - 1]) := OpenBucket(h + [f], f.coin, WINDOWS[i - 1])]
  }

  ghost function MidKeys(h: seq<Fill>, f: Fill, i: nat): seq<(string, Window)>
    requires i <= |WINDOWS|
  {
    if i == 0 then OpenKeys(Distinct(h, CoinOf))
    else if f.coin in Distinct(h, CoinOf) then MidKeys(h, f, i - 1)
    else MidKeys(h, f, i - 1) + [(f.coin, WINDOWS[i - 1])]
  }

  lemma MidStart(h: seq<Fill>, f: Fill)
    ensures MidBuckets(h, f, 0) == OpenBuckets(h)
    ensures MidKeys(h, f, 0) == OpenKeys(Distinct(h, CoinOf))
    ensures ClosedBy(h, f, 0) == []
  {
  }

  lemma MidStep(h: seq<Fill>, f: Fill, i: nat)
    requires i < |WINDOWS|
    ensures var w := WINDOWS[i];
            var known := f.coin in Distinct(h, CoinOf);
            && ((f.coin, w) in MidBuckets(h, f, i) <==> known)
            && (known ==> MidBuckets(h, f, i)[(f.coin, w)] == OpenBucket(h, f.coin, w))
            && MidBuckets(h, f, i + 1) == MidBuckets(h, f, i)[(f.coin, w) := OpenBucket(h + [f], f.coin, w)]
            && MidKeys(h, f, i + 1) == (if known then MidKeys(h, f, i) else MidKeys(h, f, i) + [(f.coin, w)])
            && ClosedBy(h, f, i + 1) ==
               ClosedBy(h, f, i) +
               (if Rolls(h, f, w) then
                  [Closed(f.coin, w, SnapshotOf(OpenTs(h, f.coin, w),
                                                BucketFills(h, f.coin, w, OpenTs(h, f.coin, w)), h + [f]))]
                else [])
  {
    hide SnapshotOf, BucketFills, OpenTs, BucketStart, OpenKeys, Distinct;
    BucketFillsSnoc(h, f, f.coin, WINDOWS[i], OpenTs(h, f.coin, WINDOWS[i]));
    OpenKeysMembers(Distinct(h, CoinOf));
    MidUntouched(h, f, i, WINDOWS[i]);
  }

  lemma {:induction false} MidUntouched(h: seq<Fill>, f: Fill, i: nat, w: Window)
    requires i <= |WINDOWS| && forall j :: 0 <= j < i ==> WINDOWS[j] != w
    ensures (f.coin, w) in MidBuckets(h, f, i) <==> (f.coin, w) in OpenBuckets(h)
    ensures (f.coin, w) in OpenBuckets(h) ==> MidBuckets(h, f, i)[(f.coin, w)] == OpenBuckets(h)[(f.coin, w)]
  {
    hide OpenBuckets, OpenBucket;
    if i > 0 {
      MidUntouched(h, f, i - 1, w);
    }
  }

  lemma {:induction false} MidEnd(h: seq<Fill>, f: Fill)
    ensures MidBuckets(h, f, |WINDOWS|) == OpenBuckets(h + [f])
    ensures MidKeys(h, f, |WINDOWS|) == OpenKeys(Distinct(h + [f], CoinOf))
  {
    hide BucketFills, OpenTs, BucketStart, Distinct, OpenKeys;
    var coins, h' := Distinct(h, CoinOf), h + [f];
    DistinctSnoc(h, f, CoinOf);
    OpenKeysSnoc(coins, f.coin);
    OpenKeysMembers(coins);
    OpenKeysMembers(Distinct(h', CoinOf));
    assert MidKeys(h, f, 1) == if f.coin in coins then OpenKeys(coins) else OpenKeys(coins) + [(f.coin, OneMin)];
    assert MidBuckets(h, f, 1) == OpenBuckets(h)[(f.coin, OneMin) := OpenBucket(h', f.coin, OneMin)];
    assert MidBuckets(h, f, 2) == MidBuckets(h, f, 1)[(f.coin, FiveMin) := OpenBucket(h', f.coin, FiveMin)];
    forall k: (string, Window) | k.0 in Distinct(h', CoinOf)
      ensures k in MidBuckets(h, f, 3) && MidBuckets(h, f, 3)[k] == OpenBucket(h', k.0, k.1)
    {
      assert k == (k.0, k.1);
      if k.0 != f.coin {
        OpenTsSnoc(h, f, k.0, k.1);
        BucketFillsSnoc(h, f, k.0, k.1, OpenTs(h, k.0, k.1));
      } else {
        match k.1 case OneMin => case FiveMin => case OneHour =>
      }
    }
  }

  ghost function Held(open: Buckets): map<(string, Window), Holding>
    reads open.m.Values
  {
    map k | k in open.m :: Holding(open.m[k].bucketTs, open.m[k].hist)
  }

  lemma HeldKeys(open: Buckets)
    ensures forall k :: k in Held(open) <==> k in open.m
  {
  }

  /** A well-formed dictionary of valid buckets, no two keys sharing one. */
  ghost predicate Sound(open: Buckets)
    reads open.m.Values
  {
    && open.Valid()
    && (forall j, k :: j in open.m && k in open.m && j != k ==> open.m[j] != open.m[k])
    && (forall k :: k in open.m ==> open.m[k].Valid())
  }

  lemma HeldAt(open: Buckets, k: (string, Window))
    requires Sound(open) && k in open.m
    ensures open.m[k].Valid() && Held(open)[k] == Holding(open.m[k].bucketTs, open.m[k].hist)
  {
  }

  class CoinWindowAggregator {
    var open: Buckets
    ghost var hist: seq<Fill>

    /** The open buckets are exactly those of the history. */
    ghost predicate Valid()
      reads this, open.m.Values
    {
      Sound(open) && Held(open) == OpenBuckets(hist) && open.keys == OpenKeys(Distinct(hist, CoinOf))
    }

    constructor ()
      ensures Valid() && hist == [] && open.m == map[]
    {
      open := Dict([], map[]);
      hist := [];
    }

    /** One turn of the window loop: the three ways a fill meets the open bucket of a window. */
    method Touch(f: Fill, w: Window, wallets: Wallets, ghost hw: seq<Fill>, ghost h: seq<Fill>)
      returns (closed: seq<Closed>)
      requires Sound(open) && Tracks(wallets, hw)
      requires (f.coin, w) in open.m <==> f.coin in Distinct(h, CoinOf)
      requires (f.coin, w) in open.m ==> Held(open)[(f.coin, w)] == OpenBucket(h, f.coin, w)
      modifies this`open, open.m.Values
      ensures Sound(open)
      ensures Held(open) == old(Held(open))[(f.coin, w) := OpenBucket(h + [f], f.coin, w)]
      ensures open.keys == if (f.coin, w) in old(open.m) then old(open.keys) else old(open.keys) + [(f.coin, w)]
      ensures forall b :: b in open.m.Values ==> b in old(open.m.Values) || fresh(b)
      ensures closed == if Rolls(h, f, w) then
                          [Closed(f.coin, w, SnapshotOf(OpenTs(h, f.coin, w),
                                                        BucketFills(h, f.coin, w, OpenTs(h, f.coin, w)), hw))]
                        else []
    {
      hide BucketStart, OpenTs, BucketFills, SnapshotOf, Distinct, Tracks, Sound, Held, Bucket.Snapshot;
      closed := [];
      var bTs := BucketStart(f.tsMs, w);
      var key := (f.coin, w);
      OpenTsSnoc(h, f, f.coin, w);
      BucketFillsSnoc(h, f, f.coin, w, OpenTs(h + [f], f.coin, w));
      HeldKeys(open);
      if key !in open.m {
        NothingAbove(h, f.coin, w, bTs);
        OpenNew(key, bTs);
      } else {
        var cur := open.m[key];
        HeldAt(open, key);
        if cur.bucketTs != bTs {
          if bTs > cur.bucketTs {
            SnapshotIsBatch(cur, wallets, hw);
            closed := [Closed(f.coin, w, cur.Snapshot(wallets))];
            NothingAbove(h, f.coin, w, bTs);
            OpenNew(key, bTs);
          } else {
            assert old(Held(open)) == old(Held(open))[key := OpenBucket(h, f.coin, w)];
            return;
          }
        }
      }
      AddUnder(key, f);
    }

    method OpenNew(key: (string, Window), bucketTs: int)
      requires Sound(open)
      modifies this`open
      ensures Sound(open) && key in open.m
      ensures Held(open) == old(Held(open))[key := Holding(bucketTs, [])]
      ensures open.keys == if key in old(open.m) then old(open.keys) else old(open.keys) + [key]
      ensures forall b :: b in open.m.Values ==> b in old(open.m.Values) || fresh(b)
    {
      hide Bucket.Valid, Dict.Valid;
      ghost var held := Held(open);
      var b := new Bucket(bucketTs);
      assert Held(open) == held && Sound(open);
      assert forall k :: k in open.m ==> open.m[k] != b;
      open := open.Put(key, b);
    }

    method AddUnder(key: (string, Window), f: Fill)
      requires Sound(open) && key in open.m
      modifies open.m[key]
      ensures Sound(open)
      ensures key in old(Held(open))
      ensures Held(open) ==
              old(Held(open))[key := Holding(old(Held(open))[key].bucketTs, old(Held(open))[key].fills + [f])]
    {
      hide Bucket.Valid;
      open.m[key].Add(f);
    }

    method Update(f: Fill, wallets: Wallets, ghost hw: seq<Fill>) returns (closed: seq<Closed>)
      requires Valid() && Tracks(wallets, hw) && hw == hist + [f]
      modifies this, open.m.Values
      ensures Valid() && hist == old(hist) + [f]
      ensures forall b :: b in open.m.Values ==> b in old(open.m.Values) || fresh(b)
      ensures closed == ClosedBy(old(hist), f, |WINDOWS|)
    {
      hide Sound, Held, Tracks, OpenBucket, OpenBuckets, MidBuckets, MidKeys, ClosedBy, Rolls, SnapshotOf, OpenKeys;
      ghost var h := hist;
      MidStart(h, f);
      closed := [];
      for i := 0 to |WINDOWS|
        invariant Sound(open) && Tracks(wallets, hw)
        invariant Held(open) == MidBuckets(h, f, i) && open.keys == MidKeys(h, f, i)
        invariant forall b :: b in open.m.Values ==> b in old(open.m.Values) || fresh(b)
        invariant closed == ClosedBy(h, f, i)
      {
        MidStep(h, f, i);
        HeldKeys(open);
        var c := Touch(f, WINDOWS[i], wallets, hw, h);
        closed := closed + c;
      }
      MidEnd(h, f);
      assert forall b :: b in open.m.Values ==> b as object != this;
      hist := hw;
    }

    /** Snapshots of all open buckets, in dictionary order. */
    function SnapshotList(wallets: Wallets): seq<Closed>
      requires open.Valid()
      reads this, open.m.Values, wallets.m.Values
    {
      var keys, m := open.keys, open.m;
      seq(|keys|, i requires 0 <= i < |keys| && keys[i] in m reads m.Values, wallets.m.Values =>
        Closed(keys[i].0, keys[i].1, m[keys[i]].Snapshot(wallets)))
    }

    lemma SnapshotListIsBatch(wallets: Wallets)
      requires Valid() && Tracks(wallets, hist)
      ensures SnapshotList(wallets) == OpenSnapshots(hist)
    {
      hide OpenTs, BucketFills, SnapshotOf, MakeSnapshot, Sum, Filter, Group, Distinct, FlowsOf, OpenKeys, Tracks;
      forall i | 0 <= i < |open.keys| ensures SnapshotList(wallets)[i] == OpenSnapshots(hist)[i] {
        var k := open.keys[i];
        SnapshotIsBatch(open.m[k], wallets, hist);
        assert Held(open)[k] == OpenBucket(hist, k.0, k.1);
      }
    }
  }

  type Positions = Dict<(string, string), WalletCoinState>

  /** A well-formed dictionary of valid positions, no two keys sharing one. */
  ghost predicate SoundPairs(wc: Positions)
    reads wc.m.Values
  {
    && wc.Valid()
    && (forall j, k :: j in wc.m && k in wc.m && j != k ==> wc.m[j] != wc.m[k])
    && (forall k :: k in wc.m ==> wc.m[k].Valid())
  }

  ghost function PairHists(wc: Positions): map<(string, string), seq<Fill>>
    reads wc.m.Values
  {
    map k | k in wc.m :: wc.m[k].hist
  }

  /** The (wallet, coin) dictionary has absorbed exactly the history h. */
  ghost predicate TracksPairs(wc: Positions, h: seq<Fill>)
    reads wc.m.Values
  {
    && SoundPairs(wc)
    && wc.keys == Distinct(h, PairOf)
    && PairHists(wc) == Groups(h, PairOf)
  }

  lemma PairKeys(wc: Positions)
    requires SoundPairs(wc)
    ensures forall k :: k in wc.m <==> k in wc.keys
  {
  }

  lemma WalletKeys(wallets: Wallets)
    requires SoundWallets(wallets)
    ensures forall a :: a in wallets.m <==> a in wallets.keys
  {
  }

  class FeatureEngine {
    var wc: Positions
    var wallets: Wallets
    const coins: CoinWindowAggregator
    ghost var hist: seq<Fill>

    /** All three feature groups have absorbed the same history. */
    ghost predicate Valid()
      reads this, coins, wc.m.Values, wallets.m.Values, coins.open.m.Values
    {
      && TracksPairs(wc, hist)
      && Tracks(wallets, hist)
      && coins.Valid() && coins.hist == hist
    }

    constructor ()
      ensures Valid() && hist == [] && fresh(coins)
      ensures wc.m == map[] && wallets.m == map[] && coins.open.m == map[]
    {
      wc := Dict([], map[]);
      wallets := Dict([], map[]);
      coins := new CoinWindowAggregator();
      hist := [];
    }

    method ApplyPair(f: Fill) returns (s: WalletCoinState)
      requires TracksPairs(wc, hist)
      modifies this`wc, wc.m.Values
      ensures TracksPairs(wc, hist + [f])
      ensures PairOf(f) in wc.m && s == wc.m[PairOf(f)]
      ensures forall x :: x in wc.m.Values ==> x in old(wc.m.Values) || fresh(x)
    {
      hide SoundPairs, PairHists, Groups, Distinct;
      GroupsStep(hist, f, PairOf);
      var key := (f.addr, f.coin);
      assert key in wc.m <==> key in Distinct(hist, PairOf) by { PairKeys(wc); }
      if key !in wc.m {
        NewPair(key);
      }
      s := wc.m[key];
      UpdatePair(key, f);
    }

    method NewPair(key: (string, string))
      requires SoundPairs(wc) && key !in wc.m
      modifies this`wc
      ensures SoundPairs(wc) && key in wc.m && fresh(wc.m[key])
      ensures wc.m == old(wc.m)[key := wc.m[key]] && wc.keys == old(wc.keys) + [key]
      ensures PairHists(wc) == old(PairHists(wc))[key := []]
    {
      hide WalletCoinState.Valid, Dict.Valid;
      ghost var hists := PairHists(wc);
      var s := new WalletCoinState();
      assert SoundPairs(wc) && PairHists(wc) == hists;
      assert forall k :: k in wc.m ==> wc.m[k] != s;
      wc := wc.Put(key, s);
    }

    method UpdatePair(key: (string, string), f: Fill)
      requires SoundPairs(wc) && key in wc.m
      modifies wc.m[key]
      ensures SoundPairs(wc) && key in old(PairHists(wc))
      ensures PairHists(wc) == old(PairHists(wc))[key := old(PairHists(wc))[key] + [f]]
    {
      hide WalletCoinState.Valid;
      wc.m[key].Update(f);
    }

    method ApplyWallet(f: Fill) returns (s: WalletState)
      requires Tracks(wallets, hist)
      modifies this`wallets, wallets.m.Values
      ensures Tracks(wallets, hist + [f])
      ensures f.addr in wallets.m && s == wallets.m[f.addr]
      ensures forall x :: x in wallets.m.Values ==> x in old(wallets.m.Values) || fresh(x)
    {
      hide SoundWallets, WalletHists, Groups, Distinct;
      GroupsStep(hist, f, AddrOf);
      assert f.addr in wallets.m <==> f.addr in Distinct(hist, AddrOf) by { WalletKeys(wallets); }
      if f.addr !in wallets.m {
        NewWallet(f.addr);
      }
      s := wallets.m[f.addr];
      UpdateWallet(f.addr, f);
    }

    method NewWallet(a: string)
      requires SoundWallets(wallets) && a !in wallets.m
      modifies this`wallets
      ensures SoundWallets(wallets) && a in wallets.m && fresh(wallets.m[a])
      ensures wallets.m == old(wallets.m)[a := wallets.m[a]] && wallets.keys == old(wallets.keys) + [a]
      ensures WalletHists(wallets) == old(WalletHists(wallets))[a := []]
    {
      hide WalletState.Valid, Dict.Valid;
      ghost var hists := WalletHists(wallets);
      var s := new WalletState();
      assert SoundWallets(wallets) && WalletHists(wallets) == hists;
      assert forall k :: k in wallets.m ==> wallets.m[k] != s;
      wallets := wallets.Put(a, s);
    }

    method UpdateWallet(a: string, f: Fill)
      requires SoundWallets(wallets) && a in wallets.m
      modifies wallets.m[a]
      ensures SoundWallets(wallets) && a in old(WalletHists(wallets))
      ensures WalletHists(wallets) == old(WalletHists(wallets))[a := old(WalletHists(wallets))[a] + [f]]
    {
      hide WalletState.Valid;
      wallets.m[a].Update(f);
    }

    method Apply(f: Fill) returns (pair: WalletCoinState, w: WalletState, closed: seq<Closed>)
      requires Valid()
      modifies this, coins, wc.m.Values, wallets.m.Values, coins.open.m.Values
      ensures Valid() && hist == old(hist) + [f]
      ensures forall x :: x in wc.m.Values ==> x in old(wc.m.Values) || fresh(x)
      ensures forall x :: x in wallets.m.Values ==> x in old(wallets.m.Values) || fresh(x)
      ensures forall b :: b in coins.open.m.Values ==> b in old(coins.open.m.Values) || fresh(b)
      ensures PairOf(f) in wc.m && pair == wc.m[PairOf(f)]
      ensures f.addr in wallets.m && w == wallets.m[f.addr]
      ensures closed == ClosedBy(old(hist), f, |WINDOWS|)
    {
      hide TracksPairs, Tracks, CoinWindowAggregator.Valid, ClosedBy;
      pair, w := ApplyEntities(f);
      closed := ApplyWindows(f);
    }

    /** The windows absorb f, weighing wallets that already have. */
    method ApplyWindows(f: Fill) returns (closed: seq<Closed>)
      requires TracksPairs(wc, hist + [f]) && Tracks(wallets, hist + [f])
      requires coins.Valid() && coins.hist == hist
      modifies this`hist, coins, coins.open.m.Values
      ensures Valid() && hist == old(hist) + [f]
      ensures forall b :: b in coins.open.m.Values ==> b in old(coins.open.m.Values) || fresh(b)
      ensures closed == ClosedBy(old(hist), f, |WINDOWS|)
    {
      hide TracksPairs, Tracks, CoinWindowAggregator.Valid, ClosedBy;
      NotTheWindows(wc, wallets, coins.open);
      closed := coins.Update(f, wallets, hist + [f]);
      Remember(f);
    }

    lemma NotTheWindows(wc: Positions, wallets: Wallets, open: Buckets)
      ensures forall x :: x in wc.m.Values ==> x as object != coins && x as object !in open.m.Values
      ensures forall x :: x in wallets.m.Values ==> x as object != coins && x as object !in open.m.Values
    {
    }

    method ApplyEntities(f: Fill) returns (pair: WalletCoinState, w: WalletState)
      requires TracksPairs(wc, hist) && Tracks(wallets, hist)
      modifies this`wc, this`wallets, wc.m.Values, wallets.m.Values
      ensures TracksPairs(wc, hist + [f]) && Tracks(wallets, hist + [f])
      ensures forall x :: x in wc.m.Values ==> x in old(wc.m.Values) || fresh(x)
      ensures forall x :: x in wallets.m.Values ==> x in old(wallets.m.Values) || fresh(x)
      ensures PairOf(f) in wc.m && pair == wc.m[PairOf(f)]
      ensures f.addr in wallets.m && w == wallets.m[f.addr]
    {
      hide TracksPairs, Tracks;
      pair := ApplyPair(f);
      w := ApplyWallet(f);
    }

    /** All three groups have absorbed f: so has the engine. */
    ghost method Remember(f: Fill)
      requires TracksPairs(wc, hist + [f]) && Tracks(wallets, hist + [f])
      requires coins.Valid() && coins.hist == hist + [f]
      modifies this`hist
      ensures Valid() && hist == old(hist) + [f]
    {
      hide TracksPairs, Tracks, CoinWindowAggregator.Valid;
      NotTheEngine(wc, wallets, coins.open);
      hist := hist + [f];
    }

    lemma NotTheEngine(wc: Positions, wallets: Wallets, open: Buckets)
      ensures forall x :: x in wc.m.Values ==> x as object != this
      ensures forall x :: x in wallets.m.Values ==> x as object != this
      ensures forall b :: b in open.m.Values ==> b as object != this
    {
    }

    function SnapshotList(): seq<Closed>
      requires coins.open.Valid()
      reads this, coins, wallets.m.Values, coins.open.m.Values
    {
      coins.SnapshotList(wallets)
    }

    lemma {:induction false} SnapshotListIsBatch()
      requires Valid()
      ensures coins.open.Valid() && SnapshotList() == OpenSnapshots(hist)
    {
      hide Tracks, TracksPairs, OpenSnapshots, CoinWindowAggregator.SnapshotList;
      coins.SnapshotListIsBatch(wallets);
    }

    /** The dashboard's active-coin count is the number of distinct coins traded. */
    method ActiveCoins() returns (n: nat)
      requires Valid()
      ensures n == |Distinct(hist, CoinOf)|
    {
      OpenKeysMembers(Distinct(hist, CoinOf));
      n := |coins.open.keys| / 3;
    }
  }
}
