/**
 Fills, and the stream of fills read from the day files.  Prices, sizes and
 notionals are exact reals; timestamps are integer milliseconds.
 */
module Fills {

  datatype Option<+T> = None | Some(value: T)

  /** One decoded trade fill.  Any side other than "B" sells. */
  datatype Fill = Fill(addr: string, coin: string, px: real, sz: real, side: string,
                       tsMs: int, closedPnl: real, crossed: bool)
  {
    predicate IsBuy() { side == "B" }

    function SignedSz(): real { if IsBuy() then sz else -sz }

    function Notional(): real { px * sz }
  }

  /** A wallet address and a coin. */
  type Pair = (string, string)

  // The projections of a fill, as function values.
  function AddrOf(f: Fill): string { f.addr }
  function CoinOf(f: Fill): string { f.coin }
  function PairOf(f: Fill): Pair { (f.addr, f.coin) }
  function SignedSzOf(f: Fill): real { f.SignedSz() }
  function NotionalOf(f: Fill): real { f.Notional() }
  function SignedNotionalOf(f: Fill): real { if f.IsBuy() then f.Notional() else -f.Notional() }
  function PnlOf(f: Fill): real { f.closedPnl }
  predicate Taker(f: Fill) { f.crossed }
  predicate Maker(f: Fill) { !f.crossed }
  predicate TakerBuy(f: Fill) { f.crossed && f.IsBuy() }
  predicate TakerSell(f: Fill) { f.crossed && !f.IsBuy() }

  // A fill's columns as they arrive, for stating what features mean.
  function SizeOf(f: Fill): real { f.sz }
  function PaidOf(f: Fill): real { f.px * f.sz }
  predicate Bought(f: Fill) { f.side == "B" }
  predicate Sold(f: Fill) { f.side != "B" }
  predicate Passive(f: Fill) { !f.crossed }
  predicate TookBuying(f: Fill) { f.crossed && f.side == "B" }
  predicate TookSelling(f: Fill) { f.crossed && f.side != "B" }

  ghost predicate TimeOrdered(h: seq<Fill>) {
    forall i, j :: 0 <= i < j < |h| ==> h[i].tsMs <= h[j].tsMs
  }

  /** No fill has a negative notional; assumed only where a bound needs it. */
  ghost predicate NonNegative(h: seq<Fill>) {
    forall f :: f in h ==> f.Notional() >= 0.0
  }

  /** One row of a day file; a missing PnL is 0 and a missing taker flag is false. */
  datatype Row = Row(addr: string, coin: string, px: real, sz: real, side: string,
                     time: int, closedPnl: Option<real>, crossed: Option<bool>)
  {
    function ToFill(): Fill {
      Fill(addr, coin, px, sz, side, time,
           if closedPnl.Some? then closedPnl.value else 0.0,
           crossed.Some? && crossed.value)
    }
  }

  function Flatten<T>(days: seq<seq<T>>): seq<T> {
    if |days| == 0 then [] else Flatten(days[..|days| - 1]) + days[|days| - 1]
  }

  function Decoded(rows: seq<Row>): seq<Fill> {
    seq(|rows|, i requires 0 <= i < |rows| => rows[i].ToFill())
  }

  /** Every yielded fill carries its row's columns; a missing PnL is 0, a missing flag is a maker's. */
  lemma FillColumns(rows: seq<Row>, fills: seq<Fill>, k: nat)
    requires fills <= Decoded(rows) && k < |fills|
    ensures k < |rows|
    ensures var f, r := fills[k], rows[k];
            && f.addr == r.addr && f.coin == r.coin && f.px == r.px && f.sz == r.sz && f.side == r.side
            && f.tsMs == r.time
            && f.closedPnl == (match r.closedPnl case None => 0.0 case Some(pnl) => pnl)
            && (f.crossed <==> r.crossed == Some(true))
  {
    assert fills[k] == Decoded(rows)[k];
  }

  /** Python's files[:limit] when limit is truthy, and all the files otherwise. */
  function DayFiles<T>(files: seq<T>, limit: Option<int>): (r: seq<T>)
    ensures r <= files
    ensures limit.None? || limit.value == 0 ==> r == files
    ensures limit.Some? && limit.value > 0 ==> |r| == limit.value || |r| == |files| < limit.value
    ensures limit.Some? && limit.value < 0 ==> |r| - limit.value == |files| || |r| == 0 < -limit.value - |files|
  {
    if limit.None? || limit.value == 0 then files
    else if limit.value > 0 then
      if limit.value <= |files| then files[..limit.value] else files
    else if |files| + limit.value >= 0 then files[..|files| + limit.value]
    else []
  }

  /** How many of total fills are yielded: max_fills is only looked at after a fill is yielded. */
  function Cutoff(total: nat, maxFills: Option<int>): (n: nat)
    ensures maxFills.None? || maxFills.value == 0 ==> n == total
    ensures maxFills.Some? && maxFills.value > 0 ==> n == maxFills.value <= total || n == total < maxFills.value
    ensures maxFills.Some? && maxFills.value < 0 ==> n == 1 <= total || n == total == 0
  {
    if maxFills.None? || maxFills.value == 0 then total
    else
      var cap := if maxFills.value < 1 then 1 else maxFills.value;
      if total < cap then total else cap
  }

  /** Streams the rows of the given days as fills, stopping after maxFills of them. */
  method IterFills(days: seq<seq<Row>>, maxFills: Option<int>) returns (fills: seq<Fill>)
    ensures |fills| == Cutoff(|Flatten(days)|, maxFills)
    ensures fills <= Decoded(Flatten(days))
  {
    fills := [];
    var n := 0;
    for i := 0 to |days|
      invariant n == |fills|
      invariant fills == Decoded(Flatten(days[..i]))
      invariant Unspent(n, maxFills)
    {
      var day := days[i];
      FlattenStep(days, i);
      for j := 0 to |day|
        invariant n == |fills|
        invariant fills == Decoded(Flatten(days[..i]) + day[..j])
        invariant Unspent(n, maxFills)
      {
        fills := fills + [day[j].ToFill()];
        n := n + 1;
        assert day[..j + 1] == day[..j] + [day[j]];
        if maxFills.Some? && maxFills.value != 0 && n >= maxFills.value {
          FlattenPrefix(days, i, j + 1);
          return;
        }
      }
      assert day[..|day|] == day;
    }
    assert days[..|days|] == days;
  }

  ghost predicate Unspent(n: nat, maxFills: Option<int>) {
    maxFills.Some? && maxFills.value != 0 ==> n == 0 || n < maxFills.value
  }

  lemma FlattenStep<T>(days: seq<seq<T>>, i: nat)
    requires i < |days|
    ensures Flatten(days[..i + 1]) == Flatten(days[..i]) + days[i]
  {
    assert days[..i + 1][..i] == days[..i];
  }

  lemma {:induction false} FlattenPrefix<T>(days: seq<seq<T>>, i: nat, j: nat)
    requires i < |days| && j <= |days[i]|
    ensures Flatten(days[..i]) + days[i][..j] <= Flatten(days)
    decreases |days| - i
  {
    FlattenStep(days, i);
    if i + 1 == |days| {
      assert days[..i + 1] == days;
    } else {
      FlattenPrefix(days, i + 1, 0);
    }
  }

  /** Day files sorted inside and ordered among each other. */
  ghost predicate OrderedDays(days: seq<seq<Row>>) {
    && (forall d, i, j :: 0 <= d < |days| && 0 <= i < j < |days[d]| ==> days[d][i].time <= days[d][j].time)
    && (forall d, e, i, j :: 0 <= d < e < |days| && 0 <= i < |days[d]| && 0 <= j < |days[e]| ==>
          days[d][i].time <= days[e][j].time)
  }

  lemma {:induction false} FlattenOrigin<T>(days: seq<seq<T>>, k: nat) returns (d: nat, i: nat)
    requires k < |Flatten(days)|
    ensures d < |days| && i < |days[d]| && days[d][i] == Flatten(days)[k]
    ensures k == |Flatten(days[..d])| + i
  {
    var init := days[..|days| - 1];
    if k < |Flatten(init)| {
      d, i := FlattenOrigin(init, k);
      assert init[..d] == days[..d];
    } else {
      d, i := |days| - 1, k - |Flatten(init)|;
    }
  }

  lemma {:induction false} FlattenGrows<T>(days: seq<seq<T>>, d: nat, e: nat)
    requires d < e <= |days|
    ensures |Flatten(days[..d])| + |days[d]| <= |Flatten(days[..e])|
  {
    FlattenStep(days, e - 1);
    if d < e - 1 {
      FlattenGrows(days, d, e - 1);
    }
  }

  /** Concatenating the sorted days preserves the global timestamp order. */
  lemma ConcatenationIsTimeOrdered(days: seq<seq<Row>>, fills: seq<Fill>)
    requires OrderedDays(days)
    requires fills <= Decoded(Flatten(days))
    ensures TimeOrdered(fills)
  {
    forall k, l | 0 <= k < l < |fills| ensures fills[k].tsMs <= fills[l].tsMs {
      var d, i := FlattenOrigin(days, k);
      var e, j := FlattenOrigin(days, l);
      if e < d {
        FlattenGrows(days, e, d);
      }
    }
  }
}
