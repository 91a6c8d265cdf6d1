/**
 The consumer's main loop over the pipeline: apply each fill, write through,
 flush when the clock says so; at the end flush once more and drain.
 */
module Consumer {
  import opened Seqs
  import opened Fills
  import opened FeatureSpec
  import opened FeatureEngine
  import opened Tables
  import opened Convergence
  import P = Pipelines
  import W = Writer

  /** When the last flush before the n-th fill's clock reading happened. */
  function LastFlush(clock: seq<real>, start: real, flushSecs: real, n: nat): real
    requires n <= |clock|
  {
    if n == 0 then start
    else
      var last := LastFlush(clock, start, flushSecs, n - 1);
      if clock[n - 1] - last >= flushSecs then clock[n - 1] else last
  }

  /** Does a periodic flush fire after the n-th fill? */
  predicate FlushDue(clock: seq<real>, start: real, flushSecs: real, n: nat)
    requires 1 <= n <= |clock|
  {
    clock[n - 1] - LastFlush(clock, start, flushSecs, n - 1) >= flushSecs
  }

  function FlushTimes(clock: seq<real>, start: real, flushSecs: real): set<nat> {
    set n | 1 <= n <= |clock| && FlushDue(clock, start, flushSecs, n)
  }

  /** The clock reading at the flush after m fills, or at the start. */
  function ReadingAt(clock: seq<real>, start: real, m: nat): real
    requires m <= |clock|
  {
    if m == 0 then start else clock[m - 1]
  }

  /** The last flush before a fill: its clock reading, or the start if there was none. */
  lemma {:induction false} LastFlushIsReading(clock: seq<real>, start: real, flushSecs: real, n: nat)
    requires n <= |clock|
    ensures LastFlush(clock, start, flushSecs, n) ==
            ReadingAt(clock, start, LastFlushed(n, FlushTimes(clock, start, flushSecs)))
  {
    hide FlushDue;
    if n > 0 {
      LastFlushIsReading(clock, start, flushSecs, n - 1);
      FlushTimesMembers(clock, start, flushSecs, n, clock[n - 1]);
    }
  }

  lemma FlushTimesMembers(clock: seq<real>, start: real, flushSecs: real, n: nat, now: real)
    requires 1 <= n <= |clock| && now == clock[n - 1]
    ensures n in FlushTimes(clock, start, flushSecs) <==>
            now - LastFlush(clock, start, flushSecs, n - 1) >= flushSecs
  {
    hide LastFlush;
  }

  /** A flush fires after a fill exactly when flushSecs have passed since the one before, or since the start. */
  lemma FlushesAreSpaced(clock: seq<real>, start: real, flushSecs: real, n: nat)
    requires 1 <= n <= |clock|
    ensures n in FlushTimes(clock, start, flushSecs) <==>
            clock[n - 1] - ReadingAt(clock, start, LastFlushed(n - 1, FlushTimes(clock, start, flushSecs))) >= flushSecs
  {
    hide LastFlush, LastFlushed, FlushTimes, ReadingAt;
    LastFlushIsReading(clock, start, flushSecs, n - 1);
    FlushTimesMembers(clock, start, flushSecs, n, clock[n - 1]);
  }

  const SAMPLE_CAP := 50000
  const SAMPLE_EVERY := 97

  function SampleIndex(j: nat): nat { SAMPLE_EVERY * j + SAMPLE_EVERY - 1 }

  function SampleCount(n: nat): nat {
    if n / SAMPLE_EVERY < SAMPLE_CAP then n / SAMPLE_EVERY else SAMPLE_CAP
  }

  /** Every 97th fill's key is sampled, up to the cap. */
  ghost predicate Sampled(keys: seq<Pair>, fills: seq<Fill>) {
    && |keys| == SampleCount(|fills|)
    && forall j :: 0 <= j < |keys| ==> SampleIndex(j) < |fills| && keys[j] == PairOf(fills[SampleIndex(j)])
  }

  /** The sample: the keys of the 97th, 194th, ... fill, at most 50000 of them. */
  lemma SampleColumns(keys: seq<Pair>, fills: seq<Fill>)
    requires Sampled(keys, fills)
    ensures |keys| <= 50000 && 97 * |keys| <= |fills|
    ensures |keys| < 50000 ==> |fills| < 97 * (|keys| + 1)
    ensures forall j :: 0 <= j < |keys| ==>
                          keys[j] == (fills[97 * (j + 1) - 1].addr, fills[97 * (j + 1) - 1].coin)
  {
    assert forall j :: 0 <= j < |keys| ==> SampleIndex(j) == 97 * (j + 1) - 1;
  }

  /** flush_wallets_and_open_windows. */
  method Flush(engine: FeatureEngine) returns (ws: seq<Write>)
    requires engine.Valid()
    ensures ws == FlushWrites(engine.hist)
    ensures engine.Valid()
  {
    hide FeatureEngine.Valid, WalletOf, OpenSnapshots, Distinct, Group, FeatureEngine.SnapshotList;
    engine.SnapshotListIsBatch();
    var snaps := engine.SnapshotList();
    ws := [];
    for i := 0 to |snaps|
      invariant ws == SnapWrites(snaps[..i])
    {
      ws := ws + [SnapWrite(snaps[i])];
    }
    assert snaps[..|snaps|] == snaps;
    var addrs := engine.wallets.keys;
    WalletRowsOfEngine(engine);
    ghost var h := engine.hist;
    for i := 0 to |addrs|
      invariant ws == SnapWrites(snaps) + WalletWrites(h, addrs[..i])
    {
      var a := addrs[i];
      assert a in addrs;
      ws := ws + [Write(WalletKey(a), WalletRowOf(engine.wallets.m[a].View()))];
      assert addrs[..i + 1] == addrs[..i] + [a];
    }
    assert addrs[..|addrs|] == addrs;
  }

  lemma WalletRowsOfEngine(engine: FeatureEngine)
    requires engine.Valid()
    ensures engine.wallets.keys == Distinct(engine.hist, AddrOf)
    ensures forall a :: a in engine.wallets.keys ==>
                        a in engine.wallets.m && engine.wallets.m[a].View() == WalletOf(Group(engine.hist, AddrOf, a))
  {
    hide Sum, Filter, Group, Distinct, WalletOf, TracksPairs, CoinWindowAggregator.Valid;
    forall a | a in engine.wallets.keys
      ensures a in engine.wallets.m && engine.wallets.m[a].View() == WalletOf(Group(engine.hist, AddrOf, a))
    {
      assert WalletHists(engine.wallets)[a] == Groups(engine.hist, AddrOf)[a];
    }
  }

  lemma PairRowOfEngine(engine: FeatureEngine, k: Pair)
    requires engine.Valid() && k in engine.wc.m
    ensures engine.wc.m[k].View() == PositionOf(Group(engine.hist, PairOf, k))
  {
    hide Sum, Filter, Group, Distinct, PositionOf, Tracks, CoinWindowAggregator.Valid;
    assert PairHists(engine.wc)[k] == Groups(engine.hist, PairOf)[k];
  }

  /** The writes one fill causes. */
  method Consume(engine: FeatureEngine, f: Fill, sink: Sink) returns (ws: seq<Write>)
    requires engine.Valid()
    modifies engine, engine.coins, engine.wc.m.Values, engine.wallets.m.Values, engine.coins.open.m.Values
    ensures engine.Valid() && engine.hist == old(engine.hist) + [f]
    ensures forall x :: x in engine.wc.m.Values ==> x in old(engine.wc.m.Values) || fresh(x)
    ensures forall x :: x in engine.wallets.m.Values ==> x in old(engine.wallets.m.Values) || fresh(x)
    ensures forall x :: x in engine.coins.open.m.Values ==> x in old(engine.coins.open.m.Values) || fresh(x)
    ensures ws == FillWrites(old(engine.hist), f, sink)
  {
    hide FeatureEngine.Valid, ClosedBy, PositionOf, Group, WalletOf;
    var pair, w, closed := engine.Apply(f);
    PairRowOfEngine(engine, PairOf(f));
    ws := [Write(PairKey(f.addr, f.coin), PairRow(pair.View()))];
    ghost var first := ws;
    for i := 0 to |closed|
      invariant ws == first + SnapWrites(closed[..i])
    {
      ws := ws + [SnapWrite(closed[i])];
    }
    assert closed[..|closed|] == closed;
    match sink
    case Off =>
    case Bucketed =>
      var tb := f.tsMs / 1000 / COIN_BUCKET_SECONDS * COIN_BUCKET_SECONDS;
      ws := ws + [Write(FillBucketKey(f.coin, tb, f.tsMs, f.addr), FillRowOf(f))];
    case Hot =>
      ws := ws + [Write(FillHotKey(f.coin, f.tsMs, f.addr), FillRowOf(f))];
  }

  /** The whole consumer, loop and pipeline interleaved, in any environment that answers. */
  method Run(fills: seq<Fill>, clock: seq<real>, start: real, flushSecs: real, sink: Sink,
             pipe: P.Pipeline, env: P.Environment)
    returns (sampleKeys: seq<Pair>)
    requires |clock| == |fills|
    requires pipe.Valid() && P.Answers(env, pipe.max) && pipe.max > 0 && pipe.s.caller.Idle?
    modifies pipe
    ensures pipe.Valid() && pipe.s.caller.Idle? && W.Quiet(pipe.s)
    ensures W.Executed(pipe.events) ==
            W.Executed(old(pipe.events)) + RunLog(fills, FlushTimes(clock, start, flushSecs), sink)
    ensures P.Extends(old(pipe.events), pipe.events)
    ensures P.NeverFails(env) && W.NoFailures(old(pipe.s)) ==> W.NoFailures(pipe.s)
    ensures Sampled(sampleKeys, fills)
  {
    hide FeatureEngine.Valid, FillWrites, FlushWrites, Sampled, LoopLog, LastFlush, FlushTimes, FlushDue;
    hide P.Answers, P.NeverFails, P.Extends, P.Pipeline.Valid, W.Executed, W.NoFailures, W.Quiet, W.Exec;
    var engine := new FeatureEngine();
    sampleKeys := [];
    var lastFlush := start;
    var processed := 0;
    ghost var flushes := FlushTimes(clock, start, flushSecs);
    ghost var atStart := pipe.events;
    RunStart(fills, clock, start, flushSecs, flushes, sink);
    P.ExtendsItself(pipe.events);
    for i := 0 to |fills|
      invariant engine.Valid() && engine.hist == fills[..i]
      invariant fresh(engine) && fresh(engine.coins)
      invariant forall x :: x in engine.wc.m.Values ==> fresh(x)
      invariant forall x :: x in engine.wallets.m.Values ==> fresh(x)
      invariant forall x :: x in engine.coins.open.m.Values ==> fresh(x)
      invariant processed == i && lastFlush == LastFlush(clock, start, flushSecs, i)
      invariant pipe.Valid() && pipe.s.caller.Idle?
      invariant W.Executed(pipe.events) == W.Executed(atStart) + LoopLog(fills[..i], flushes, sink)
      invariant P.Extends(atStart, pipe.events)
      invariant P.NeverFails(env) && W.NoFailures(old(pipe.s)) ==> W.NoFailures(pipe.s)
      invariant Sampled(sampleKeys, fills[..i])
    {
      var f := fills[i];
      RunStep(fills, clock, start, flushSecs, sink, i);
      SampleStep(sampleKeys, fills, i);
      var ws := Consume(engine, f, sink);
      ghost var before := pipe.events;
      NotThePipe(engine.wc, engine.wallets, engine.coins.open, pipe);
      pipe.ExecuteAll(ws, env);
      P.ExtendsFurther(atStart, before, pipe.events);
      processed := processed + 1;
      if |sampleKeys| < SAMPLE_CAP && processed % SAMPLE_EVERY == 0 {
        sampleKeys := sampleKeys + [(f.addr, f.coin)];
      }
      var now := clock[i];
      if now - lastFlush >= flushSecs {
        var flushed := Flush(engine);
        ghost var written := pipe.events;
        NotThePipe(engine.wc, engine.wallets, engine.coins.open, pipe);
        pipe.ExecuteAll(flushed, env);
        P.ExtendsFurther(atStart, written, pipe.events);
        lastFlush := now;
      }
    }
    assert fills[..|fills|] == fills;
    var flushed := Flush(engine);
    ghost var looped := pipe.events;
    pipe.PushAll(flushed, env);
    P.ExtendsFurther(atStart, looped, pipe.events);
  }

  /** The engine's objects are not the pipeline, so writing leaves them as they are. */
  lemma NotThePipe(wc: Positions, wallets: Wallets, open: Buckets, pipe: P.Pipeline)
    ensures forall x :: x in wc.m.Values ==> x as object != pipe
    ensures forall x :: x in wallets.m.Values ==> x as object != pipe
    ensures forall b :: b in open.m.Values ==> b as object != pipe
  {
  }

  lemma RunStart(fills: seq<Fill>, clock: seq<real>, start: real, flushSecs: real, flushes: set<nat>, sink: Sink)
    ensures fills[..0] == [] && LoopLog(fills[..0], flushes, sink) == []
    ensures LastFlush(clock, start, flushSecs, 0) == start && Sampled([], fills[..0])
  {
  }

  lemma RunStep(fills: seq<Fill>, clock: seq<real>, start: real, flushSecs: real, sink: Sink, i: nat)
    requires i < |fills| == |clock|
    ensures fills[..i + 1] == fills[..i] + [fills[i]]
    ensures var last := LastFlush(clock, start, flushSecs, i);
            var flushes := FlushTimes(clock, start, flushSecs);
            var due := clock[i] - last >= flushSecs;
            && LastFlush(clock, start, flushSecs, i + 1) == (if due then clock[i] else last)
            && LoopLog(fills[..i + 1], flushes, sink) ==
               LoopLog(fills[..i], flushes, sink) + FillWrites(fills[..i], fills[i], sink) +
               (if due then FlushWrites(fills[..i + 1]) else [])
  {
    hide FillWrites, FlushWrites;
    assert fills[..i + 1][..i] == fills[..i];
    var n := i + 1;
    assert n in FlushTimes(clock, start, flushSecs) <==> FlushDue(clock, start, flushSecs, n);
  }

  lemma SampleCountStep(i: nat)
    ensures (i + 1) % SAMPLE_EVERY == 0 && SampleCount(i) < SAMPLE_CAP ==>
              SampleCount(i + 1) == SampleCount(i) + 1 && SampleIndex(SampleCount(i)) == i
    ensures (i + 1) % SAMPLE_EVERY != 0 || SampleCount(i) == SAMPLE_CAP ==> SampleCount(i + 1) == SampleCount(i)
    ensures SampleCount(i) <= SAMPLE_CAP
  {
  }

  lemma SampleStep(keys: seq<Pair>, fills: seq<Fill>, i: nat)
    requires i < |fills| && Sampled(keys, fills[..i])
    ensures Sampled(if |keys| < SAMPLE_CAP && (i + 1) % SAMPLE_EVERY == 0 then keys + [PairOf(fills[i])] else keys,
                    fills[..i + 1])
  {
    hide SampleIndex, SampleCount, Sampled;
    SampleCountStep(i);
    SampleSize(keys, fills[..i]);
    if |keys| < SAMPLE_CAP && (i + 1) % SAMPLE_EVERY == 0 {
      SampleTaken(keys, fills, i);
    } else {
      SampleKept(keys, fills, i);
    }
  }

  lemma SampleSize(keys: seq<Pair>, fills: seq<Fill>)
    requires Sampled(keys, fills)
    ensures |keys| == SampleCount(|fills|)
  {
  }

  lemma SampleTaken(keys: seq<Pair>, fills: seq<Fill>, i: nat)
    requires i < |fills| && Sampled(keys, fills[..i])
    requires SampleCount(i + 1) == SampleCount(i) + 1 && SampleIndex(SampleCount(i)) == i
    ensures Sampled(keys + [PairOf(fills[i])], fills[..i + 1])
  {
    hide SampleIndex, SampleCount;
  }

  lemma SampleKept(keys: seq<Pair>, fills: seq<Fill>, i: nat)
    requires i < |fills| && Sampled(keys, fills[..i]) && SampleCount(i + 1) == SampleCount(i)
    ensures Sampled(keys, fills[..i + 1])
  {
    hide SampleIndex, SampleCount;
  }
}
