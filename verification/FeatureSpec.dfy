/**
 What the features mean: every feature as a batch definition over a whole fill
 history, without any running state.
 */
module FeatureSpec {
  import opened Seqs
  import opened Fills
  import opened Dicts

  function Abs(x: real): real { if x < 0.0 then -x else x }

  // ---------- per (wallet, coin) ----------

  datatype Position = Position(netPos: real, avgEntry: real, realizedPnl: real, fillCount: nat, lastTs: int)

  function Net(fs: seq<Fill>): real { Sum(fs, SignedSzOf) }

  function LastTs(fs: seq<Fill>): int { if |fs| == 0 then 0 else fs[|fs| - 1].tsMs }

  /** Does a signed size d open a position at net, or make it larger? */
  predicate Grows(net: real, d: real) {
    d != 0.0 && (net == 0.0 || (net > 0.0) == (d > 0.0))
  }

  predicate Flips(net: real, d: real) {
    (net > 0.0 && net + d < 0.0) || (net < 0.0 && net + d > 0.0)
  }

  /** Entry price after one fill of signed size d: growing re-weights, flipping restarts, anything else keeps it. */
  function NextEntry(net: real, avg: real, d: real, px: real): real {
    if Grows(net, d) then (net * avg + d * px) / (net + d)
    else if Flips(net, d) then px
    else avg
  }

  /** Average-cost entry price. */
  function AvgEntry(fs: seq<Fill>): real {
    if |fs| == 0 then 0.0
    else
      var init, f := fs[..|fs| - 1], fs[|fs| - 1];
      NextEntry(Net(init), AvgEntry(init), f.SignedSz(), f.px)
  }

  function PositionOf(fs: seq<Fill>): Position {
    Position(Net(fs), AvgEntry(fs), Sum(fs, PnlOf), |fs|, LastTs(fs))
  }

  // ---------- per wallet ----------

  datatype Archetype = MarketMaker | Directional | Mixed

  datatype WalletStats = WalletStats(cumPnl: real, totalFills: nat, grossVolume: real, signedVolume: real,
                                     opens: nat, closes: nat, lastTs: int)
  {
    function Churn(): real {
      if opens + closes != 0 then closes as real / (opens + closes) as real else 0.0
    }

    function Archetype(): Archetype {
      if grossVolume <= 0.0 then Mixed
      else
        var netGross := Abs(signedVolume) / grossVolume;
        var makerShare := closes as real / (if opens + closes != 0 then opens + closes else 1) as real;
        if netGross < 0.15 && makerShare > 0.6 then MarketMaker
        else if netGross > 0.4 then Directional
        else Mixed
    }

    /** wallet_weight for a known wallet. */
    function Weight(): real {
      var archW := match Archetype() case Directional => 1.0 case Mixed => 0.5 case MarketMaker => 0.0;
      var pnlW := if cumPnl > 0.0 then 1.0 else 0.25;
      archW * pnlW
    }
  }

  function WalletOf(fs: seq<Fill>): WalletStats {
    WalletStats(Sum(fs, PnlOf), |fs|, Sum(fs, NotionalOf), Sum(fs, SignedNotionalOf),
                |Filter(fs, Taker)|, |Filter(fs, Maker)|, LastTs(fs))
  }

  /** Weight of wallet a after history h; an unknown wallet weighs nothing. */
  function WeightAt(h: seq<Fill>, a: string): real {
    if a in Distinct(h, AddrOf) then WalletOf(Group(h, AddrOf, a)).Weight() else 0.0
  }

  function WeightsAt(h: seq<Fill>, addrs: seq<string>): map<string, real> {
    map a | a in addrs :: WeightAt(h, a)
  }

  // ---------- per coin and window ----------

  datatype Window = OneMin | FiveMin | OneHour {
    function Size(): int {
      match this case OneMin => 60 case FiveMin => 300 case OneHour => 3600
    }

    /** Its place in the window loop. */
    function Turn(): nat {
      match this case OneMin => 0 case FiveMin => 1 case OneHour => 2
    }
  }

  const WINDOWS: seq<Window> := [OneMin, FiveMin, OneHour]

  const LARGE_NOTIONAL: real := 100000.0

  /** Start, in seconds, of the tumbling bucket that holds a millisecond timestamp. */
  function BucketStart(tsMs: int, w: Window): int {
    tsMs / 1000 / w.Size() * w.Size()
  }

  /** A coin and the start of one of its buckets. */
  type Slot = (string, int)

  function SlotOf(w: Window): Fill -> Slot {
    (f: Fill) => (f.coin, BucketStart(f.tsMs, w))
  }

  function LatestTs(fs: seq<Fill>): int {
    if |fs| == 0 then 0
    else if |fs| == 1 then fs[0].tsMs
    else
      var t := LatestTs(fs[..|fs| - 1]);
      if t < fs[|fs| - 1].tsMs then fs[|fs| - 1].tsMs else t
  }

  /** Start of the bucket that holds the newest fill of the coin. */
  function OpenTs(h: seq<Fill>, coin: string, w: Window): int {
    BucketStart(LatestTs(Group(h, CoinOf, coin)), w)
  }

  /** Every fill of the history that falls in one bucket. */
  function BucketFills(h: seq<Fill>, coin: string, w: Window, b: int): seq<Fill> {
    Group(h, SlotOf(w), (coin, b))
  }

  datatype Snapshot = Snapshot(bucketTs: int, volume: real, takerBuy: real, takerSell: real, imbalance: real,
                               activeWallets: nat, hhi: real, largeFlow: real, smartFlow: real)

  type Flows = Dict<string, real>

  function FlowIn(flows: Flows): string -> real { a => flows.GetOr(a, 0.0) }
  function AbsFlowIn(flows: Flows): string -> real { a => Abs(flows.GetOr(a, 0.0)) }
  function IsLargeIn(flows: Flows): string -> bool { a => Abs(flows.GetOr(a, 0.0)) >= LARGE_NOTIONAL }
  function SmartFlowIn(flows: Flows, weights: map<string, real>): string -> real {
    a => flows.GetOr(a, 0.0) * if a in weights then weights[a] else 0.0
  }
  function ShareSquaredIn(flows: Flows, gross: real): string -> real
    requires gross > 0.0
  {
    a => (Abs(flows.GetOr(a, 0.0)) / gross) * (Abs(flows.GetOr(a, 0.0)) / gross)
  }

  function GrossFlow(flows: Flows): real { Sum(flows.keys, AbsFlowIn(flows)) }

  function Hhi(flows: Flows): real {
    var gross := GrossFlow(flows);
    if gross > 0.0 then Sum(flows.keys, ShareSquaredIn(flows, gross)) else 0.0
  }

  function Imbalance(takerBuy: real, takerSell: real): real {
    if takerBuy + takerSell > 0.0 then (takerBuy - takerSell) / (takerBuy + takerSell) else 0.0
  }

  /** A snapshot from the raw contents of a bucket and the weights of its wallets. */
  function MakeSnapshot(bucketTs: int, volume: real, takerBuy: real, takerSell: real,
                        flows: Flows, weights: map<string, real>): Snapshot {
    Snapshot(bucketTs, volume, takerBuy, takerSell, Imbalance(takerBuy, takerSell), |flows.keys|, Hhi(flows),
             Sum(Filter(flows.keys, IsLargeIn(flows)), FlowIn(flows)),
             Sum(flows.keys, SmartFlowIn(flows, weights)))
  }

  /** Net signed notional of every wallet that has a fill in fs. */
  function FlowsOf(fs: seq<Fill>): Flows {
    var addrs := Distinct(fs, AddrOf);
    Dict(addrs, map a | a in addrs :: Sum(Group(fs, AddrOf, a), SignedNotionalOf))
  }

  /** Snapshot of a bucket holding exactly the fills fs, with wallets weighed after h. */
  function SnapshotOf(b: int, fs: seq<Fill>, h: seq<Fill>): Snapshot {
    MakeSnapshot(b, Sum(fs, NotionalOf), Sum(Filter(fs, TakerBuy), NotionalOf), Sum(Filter(fs, TakerSell), NotionalOf),
                 FlowsOf(fs), WeightsAt(h, Distinct(fs, AddrOf)))
  }

  /** Batch snapshot of bucket (coin, w, b) over the whole history h. */
  function SnapAt(h: seq<Fill>, coin: string, w: Window, b: int): Snapshot {
    SnapshotOf(b, BucketFills(h, coin, w, b), h)
  }

  /** Keys of the open buckets: the three windows of every coin, coins in order of first appearance. */
  function OpenKeys(coins: seq<string>): seq<(string, Window)> {
    if |coins| == 0 then []
    else
      var c := coins[|coins| - 1];
      OpenKeys(coins[..|coins| - 1]) + [(c, OneMin), (c, FiveMin), (c, OneHour)]
  }

  datatype Closed = Closed(coin: string, window: Window, snap: Snapshot)

  predicate Rolls(h: seq<Fill>, f: Fill, w: Window) {
    f.coin in Distinct(h, CoinOf) && OpenTs(h, f.coin, w) < BucketStart(f.tsMs, w)
  }

  /** What fill f closes when it arrives after h, among the first i windows. */
  function ClosedBy(h: seq<Fill>, f: Fill, i: nat): seq<Closed>
    requires i <= |WINDOWS|
  {
    if i == 0 then []
    else
      var w := WINDOWS[i - 1];
      ClosedBy(h, f, i - 1) +
      if Rolls(h, f, w) then [Closed(f.coin, w, SnapAt(h + [f], f.coin, w, OpenTs(h, f.coin, w)))] else []
  }

  /** The open-bucket snapshots after h, in dictionary order. */
  function OpenSnapshots(h: seq<Fill>): seq<Closed> {
    SnapshotsFor(h, OpenKeys(Distinct(h, CoinOf)))
  }

  function SnapshotsFor(h: seq<Fill>, keys: seq<(string, Window)>): seq<Closed> {
    seq(|keys|, i requires 0 <= i < |keys| =>
      Closed(keys[i].0, keys[i].1, SnapAt(h, keys[i].0, keys[i].1, OpenTs(h, keys[i].0, keys[i].1))))
  }
}
