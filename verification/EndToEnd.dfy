/**
 The parts together: fills, engine, write log, asynchronous pipeline and tables.
 */
module EndToEnd {
  import opened Seqs
  import opened Fills
  import opened FeatureSpec
  import opened Windows
  import opened Lifetimes
  import opened Conservation
  import opened Tables
  import opened Convergence
  import Consumer
  import P = Pipelines
  import W = Writer

  /**
   Every process that died had been consuming a prefix of the stream h: what it
   executed is the beginning of such a run's log, under any flush schedule.
   */
  ghost predicate CrashedRunsOf(h: seq<Fill>, sink: Sink, events: seq<W.Event>) {
    if |events| == 0 then true
    else
      var init := events[..|events| - 1];
      CrashedRunsOf(h, sink, init) && (events[|events| - 1].Restart? ==> PartOfRun(h, sink, W.Executed(init)))
  }

  ghost predicate PartOfRun(h: seq<Fill>, sink: Sink, ws: seq<Write>) {
    exists m: nat, flushes: set<nat> :: m <= |h| && ws <= RunLog(h[..m], flushes, sink)
  }

  lemma PartOfRunIsDated(h: seq<Fill>, sink: Sink, ws: seq<Write>)
    requires PartOfRun(h, sink, ws)
    ensures AllDated(ws, h, sink)
  {
    hide Dated, RunLog;
    var m: nat, flushes: set<nat> :| m <= |h| && ws <= RunLog(h[..m], flushes, sink);
    RunIsDated(h, m, flushes, sink);
    forall w | w in ws ensures Dated(w, h, sink) {
      assert w in RunLog(h[..m], flushes, sink);
    }
  }

  /** Orphaned requests write rows that were right at some moment of the stream. */
  ghost predicate OrphansDated(s: W.State, h: seq<Fill>, sink: Sink) {
    s.base <= |s.requests| && AllDated(W.WritesOf(s.requests[..s.base]), h, sink)
  }

  lemma {:induction false} CrashedRunsAreDated(h: seq<Fill>, sink: Sink, max: nat, events: seq<W.Event>)
    requires W.Exec(max, events).Some? && CrashedRunsOf(h, sink, events)
    ensures OrphansDated(W.Exec(max, events).value, h, sink)
  {
    hide W.Executed, W.Enabled, W.Step, AllDated, PartOfRun, OrphansDated;
    if events == [] {
      assert OrphansDated(W.Init(max), h, sink) by { NoOrphans(max, h, sink); }
    } else {
      var init, e := events[..|events| - 1], events[|events| - 1];
      CrashedRunsAreDated(h, sink, max, init);
      W.IssueOrder(max, init);
      if e.Restart? {
        PartOfRunIsDated(h, sink, W.Executed(init));
      }
      DatedStep(h, sink, W.Exec(max, init).value, e, W.Executed(init));
    }
  }

  lemma NoOrphans(max: nat, h: seq<Fill>, sink: Sink)
    ensures OrphansDated(W.Init(max), h, sink)
  {
  }

  lemma DatedStep(h: seq<Fill>, sink: Sink, s: W.State, e: W.Event, executed: seq<Write>)
    requires W.Enabled(s, e) && OrphansDated(s, h, sink)
    requires executed == W.WritesOf(s.requests[s.base..]) + W.Held(s.caller)
    requires e.Restart? ==> AllDated(executed, h, sink)
    ensures OrphansDated(W.Step(s, e), h, sink)
  {
    hide Dated;
    var s' := W.Step(s, e);
    if e.Restart? {
      var older, newer := W.WritesOf(s.requests[..s.base]), W.WritesOf(s.requests[s.base..]);
      assert s'.requests[..s'.base] == s'.requests;
      assert W.WritesOf(s'.requests) == older + newer;
      assert newer <= executed;
    } else {
      assert W.WritesOf(s'.requests[..s'.base]) == W.WritesOf(s.requests[..s.base]);
    }
  }

  /** Orphaned requests write only rows that the stream owns. */
  lemma CrashedRunsAreOwned(h: seq<Fill>, sink: Sink, max: nat, events: seq<W.Event>)
    requires W.Exec(max, events).Some? && CrashedRunsOf(h, sink, events)
    ensures var s := W.Exec(max, events).value;
            s.base <= |s.requests| && WritesOwned(W.WritesOf(s.requests[..s.base]), h, sink)
  {
    hide W.Exec, AllDated, WritesOwned, CrashedRunsOf;
    CrashedRunsAreDated(h, sink, max, events);
    var s := W.Exec(max, events).value;
    DatedIsOwned(W.WritesOf(s.requests[..s.base]), h, sink);
  }

  // ---------- what a reader may see at any step ----------

  /**
   In every reachable state of the protocol, writes in flight and crashed
   processes included, each row in the store is the row that its key should have
   had at some moment of the stream.
   */
  lemma StoreRowsAreDated(h: seq<Fill>, sink: Sink, max: nat, events: seq<W.Event>, key: Key)
    requires W.Exec(max, events).Some? && key in W.Exec(max, events).value.store
    requires CrashedRunsOf(h, sink, events) && PartOfRun(h, sink, W.Executed(events))
    ensures exists m: nat ::
              m <= |h| && Expect(h[..m], key, sink) == Some(W.Rows(W.Exec(max, events).value.store)[key])
  {
    hide W.Exec, W.Executed, W.Total, Expect, CrashedRunsOf, PartOfRun;
    var s := W.Exec(max, events).value;
    W.ExecKeepsInv(max, events);
    W.IssueOrder(max, events);
    CrashedRunsAreDated(h, sink, max, events);
    PartOfRunIsDated(h, sink, W.Executed(events));
    var i := s.store[key].stamp;
    assert W.Wins(s.requests, i, key);
    var w := s.requests[i].write;
    if i < s.base {
      assert w == W.WritesOf(s.requests[..s.base])[i];
    } else {
      assert w == W.WritesOf(s.requests[s.base..])[i - s.base];
      assert w == W.Executed(events)[i - s.base];
    }
    assert Dated(w, h, sink);
  }

  /** So at any step a visible bucket row holds at most the bucket's final volume. */
  lemma StoreNeverOverstates(h: seq<Fill>, sink: Sink, max: nat, events: seq<W.Event>, coin: string, w: Window, b: int)
    requires W.Exec(max, events).Some? && BucketKey(coin, w, b) in W.Exec(max, events).value.store
    requires CrashedRunsOf(h, sink, events) && PartOfRun(h, sink, W.Executed(events)) && NonNegative(h)
    ensures var row := W.Rows(W.Exec(max, events).value.store)[BucketKey(coin, w, b)];
            && row.BucketRow? && row.snap.bucketTs == b
            && row.snap.volume <= RowSnap(h, coin, w, b).volume
  {
    hide W.Exec, W.Executed, CrashedRunsOf, PartOfRun, Lifetime, SnapAt, BucketFills, Fill.Notional;
    var key, store := BucketKey(coin, w, b), W.Exec(max, events).value.store;
    StoreRowsAreDated(h, sink, max, events, key);
    var m: nat :| m <= |h| && Expect(h[..m], key, sink) == Some(W.Rows(store)[key]);
    RowVolumeGrows(h, m, coin, w, b);
    SnapAtKeepsStart(Lifetime(h[..m], coin, w, b), coin, w, b);
  }

  /**
   Between two fills, with other writes in flight: once the writes executed for
   a key have landed, its row is exactly the one of now, or of the last flush
   for wallets and open buckets.
   */
  lemma SettledRowsAreExact(h: seq<Fill>, flushes: set<nat>, sink: Sink, max: nat, events: seq<W.Event>, key: Key)
    requires W.Exec(max, events).Some? && W.Executed(events) == LoopLog(h, flushes, sink)
    requires W.Settled(W.Exec(max, events).value, key)
    requires Touches(LoopLog(h, flushes, sink), key) || W.Exec(max, events).value.base == 0
    ensures Lookup(W.Rows(W.Exec(max, events).value.store), key) ==
            if WriteThrough(h, key) then Expect(h, key, sink)
            else Expect(h[..LastFlushed(|h|, flushes)], key, sink)
  {
    hide W.Exec, W.Executed, W.Settled, LoopLog, Expect, ApplyAll, Lookup, WriteThrough;
    W.SettledKeyIsSequential(max, events, key);
    TablesBetweenFlushes(h, flushes, sink, key);
  }

  lemma {:induction false} LandedAmongWrites(rs: seq<W.Request>)
    ensures forall w :: w in W.LandedWrites(rs) ==> w in W.WritesOf(rs)
  {
    if rs != [] {
      var init, last := rs[..|rs| - 1], rs[|rs| - 1];
      LandedAmongWrites(init);
      assert W.WritesOf(rs) == W.WritesOf(init) + [last.write];
    }
  }

  /**
   After any number of crashed runs on prefixes of the stream, with any of their
   requests landing at any time, a run that has executed the whole log leaves
   exactly the expected rows as soon as it is quiet without failures.
   */
  lemma PipelinedRunMatches(h: seq<Fill>, flushes: set<nat>, sink: Sink, max: nat, events: seq<W.Event>)
    requires W.Exec(max, events).Some? && W.Executed(events) == RunLog(h, flushes, sink)
    requires W.Quiet(W.Exec(max, events).value)
    requires W.NoFailures(W.Exec(max, events).value) && CrashedRunsOf(h, sink, events)
    ensures Matches(W.Rows(W.Exec(max, events).value.store), h, sink)
  {
    hide W.Exec, W.Executed, RunLog, Expect, ApplyAll, W.LandedWrites, W.WritesOf, CrashedRunsOf, W.NoFailures, W.Quiet;
    var s := W.Exec(max, events).value;
    W.QuietStoreIsSequential(max, events);
    CrashedRunsAreOwned(h, sink, max, events);
    var left := s.requests[..s.base];
    LandedAmongWrites(left);
    OwnedWritesKeepOwned(map[], W.LandedWrites(left), h, sink);
    RerunConverges(ApplyAll(map[], W.LandedWrites(left)), h, flushes, sink);
    RunMatches(h, flushes, sink);
  }

  lemma {:induction false} CrashedRunsExtend(h: seq<Fill>, sink: Sink, events: seq<W.Event>, events': seq<W.Event>)
    requires CrashedRunsOf(h, sink, events) && P.Extends(events, events')
    ensures CrashedRunsOf(h, sink, events')
    decreases |events'|
  {
    hide PartOfRun;
    if |events| < |events'| {
      var init := events'[..|events'| - 1];
      assert P.Extends(events, init) by { P.ExtendsInit(events, events'); }
      CrashedRunsExtend(h, sink, events, init);
    } else {
      assert events == events';
    }
  }

  lemma NothingExecutedNothingFailed(max: nat, events: seq<W.Event>)
    requires W.Exec(max, events).Some? && W.Executed(events) == []
    ensures W.NoFailures(W.Exec(max, events).value)
  {
    hide W.Exec, W.Executed;
    W.IssueOrder(max, events);
    var s := W.Exec(max, events).value;
    assert |W.WritesOf(s.requests[s.base..])| == 0;
  }

  /**
   Main result, end to end: a process that consumes the stream through the
   pipeline, on top of whatever crashed processes left, against any environment
   that answers its requests.  If none of its requests failed, the tables hold
   exactly the expected rows when it returns; and none does in an environment
   that reports no errors.
   */
  method ConsumeThroughPipeline(fills: seq<Fill>, clock: seq<real>, start: real, flushSecs: real, sink: Sink,
                                pipe: P.Pipeline, env: P.Environment)
    returns (sampleKeys: seq<Pair>)
    requires |clock| == |fills|
    requires pipe.Valid() && pipe.max > 0 && pipe.s.caller.Idle? && W.Executed(pipe.events) == []
    requires P.Answers(env, pipe.max) && CrashedRunsOf(fills, sink, pipe.events)
    modifies pipe
    ensures pipe.Valid() && pipe.s.caller.Idle? && W.Quiet(pipe.s)
    ensures W.NoFailures(pipe.s) ==> Matches(W.Rows(pipe.s.store), fills, sink)
    ensures P.NeverFails(env) ==> Matches(W.Rows(pipe.s.store), fills, sink)
    ensures Consumer.Sampled(sampleKeys, fills)
  {
    hide W.Exec, W.Executed, W.Quiet, W.NoFailures, Matches, RunLog, P.Answers, CrashedRunsOf, Consumer.Sampled;
    hide Consumer.FlushTimes, P.Extends, P.NeverFails;
    ghost var before := pipe.events;
    NothingExecutedNothingFailed(pipe.max, pipe.events);
    sampleKeys := Consumer.Run(fills, clock, start, flushSecs, sink, pipe, env);
    CrashedRunsExtend(fills, sink, before, pipe.events);
    if W.NoFailures(pipe.s) {
      PipelinedRunMatches(fills, Consumer.FlushTimes(clock, start, flushSecs), sink, pipe.max, pipe.events);
    }
  }

  /**
   So a new process over empty tables, in an environment that answers every
   request without an error, always ends with exactly the expected rows.
   */
  method ConsumeIntoEmptyTables(fills: seq<Fill>, clock: seq<real>, start: real, flushSecs: real, sink: Sink,
                                max: nat, env: P.Environment)
    returns (pipe: P.Pipeline)
    requires |clock| == |fills| && max > 0
    requires P.Answers(env, max) && P.NeverFails(env)
    ensures Matches(W.Rows(pipe.s.store), fills, sink)
  {
    hide W.Exec, W.Quiet, W.NoFailures, Matches, P.Answers, P.NeverFails, Consumer.Sampled;
    pipe := new P.Pipeline(max);
    var keys := ConsumeThroughPipeline(fills, clock, start, flushSecs, sink, pipe, env);
  }

  // ---------- conservation, read off the tables ----------

  ghost function RowVolumeIn(t: Tables, w: Window): Slot -> real {
    (k: Slot) =>
      if BucketKey(k.0, w, k.1) in t && t[BucketKey(k.0, w, k.1)].BucketRow? then t[BucketKey(k.0, w, k.1)].snap.volume
      else 0.0
  }

  ghost function GrossIn(t: Tables): string -> real {
    a => if WalletKey(a) in t && t[WalletKey(a)].WalletRow? then t[WalletKey(a)].grossVolume else 0.0
  }

  lemma TableRows(t: Tables, h: seq<Fill>, sink: Sink, w: Window)
    requires Matches(t, h, sink)
    ensures forall c, b :: BucketKey(c, w, b) in t <==> (c, b) in Slots(h, w)
    ensures forall k :: k in Slots(h, w) ==> RowVolumeIn(t, w)(k) == RowVolume(h, w)(k)
    ensures forall a :: WalletKey(a) in t <==> a in Distinct(h, AddrOf)
    ensures forall a :: a in Distinct(h, AddrOf) ==> GrossIn(t)(a) == WalletGross(h)(a)
  {
    hide Distinct, Lifetime, BucketFills, Retained, Group, Sum, SnapAt;
    forall c, b
      ensures BucketKey(c, w, b) in t <==> (c, b) in Slots(h, w)
      ensures (c, b) in Slots(h, w) ==> RowVolumeIn(t, w)((c, b)) == RowVolume(h, w)((c, b))
    {
      assert Lookup(t, BucketKey(c, w, b)) == Expect(h, BucketKey(c, w, b), sink);
      RowFillsAreRetained(h, c, w, b);
      GroupNonEmpty(Retained(h, w), SlotOf(w), (c, b));
    }
    forall k: Slot | k in Slots(h, w) ensures RowVolumeIn(t, w)(k) == RowVolume(h, w)(k) {
      assert k == (k.0, k.1);
    }
    forall a
      ensures WalletKey(a) in t <==> a in Distinct(h, AddrOf)
      ensures a in Distinct(h, AddrOf) ==> GrossIn(t)(a) == WalletGross(h)(a)
    {
      assert Lookup(t, WalletKey(a)) == Expect(h, WalletKey(a), sink);
    }
  }

  /**
   Across the tables: the volume column of each window, summed over its rows,
   plus what the window dropped, is the gross volume column of the wallets.
   */
  lemma TablesConserveVolume(t: Tables, h: seq<Fill>, sink: Sink, w: Window)
    requires Matches(t, h, sink)
    ensures forall c, b :: BucketKey(c, w, b) in t <==> (c, b) in Slots(h, w)
    ensures forall a :: WalletKey(a) in t <==> a in Distinct(h, AddrOf)
    ensures Sum(Slots(h, w), RowVolumeIn(t, w)) + Sum(Dropped(h, w), NotionalOf) ==
            Sum(Distinct(h, AddrOf), GrossIn(t))
  {
    hide Matches, Distinct, Slots, RowVolume, WalletGross, RowVolumeIn, GrossIn, Sum, Dropped;
    TableRows(t, h, sink, w);
    RowVolumesAddUp(h, w);
    SumSame(Slots(h, w), RowVolumeIn(t, w), RowVolume(h, w));
    SumSame(Distinct(h, AddrOf), GrossIn(t), WalletGross(h));
  }
}
