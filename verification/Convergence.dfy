/**
 The tables converge: whatever the flush schedule, and however many runs were
 cut short before, a completed run leaves exactly the expected rows.
 */
module Convergence {
  import opened Seqs
  import opened Fills
  import opened FeatureSpec
  import opened Windows
  import opened Lifetimes
  import opened Tables

  // ---------- every write is right when it is issued ----------

  ghost predicate AllCurrent(ws: seq<Write>, h: seq<Fill>, sink: Sink) {
    forall w :: w in ws ==> Expect(h, w.key, sink) == Some(w.row)
  }

  lemma SnapWritesMembers(cs: seq<Closed>)
    ensures forall w :: w in SnapWrites(cs) <==> exists c :: c in cs && w == SnapWrite(c)
  {
    forall w | w in SnapWrites(cs) ensures exists c :: c in cs && w == SnapWrite(c) {
      var i :| 0 <= i < |cs| && SnapWrites(cs)[i] == w;
      assert cs[i] in cs;
    }
    forall c | c in cs ensures SnapWrite(c) in SnapWrites(cs) {
      var i :| 0 <= i < |cs| && cs[i] == c;
      assert SnapWrites(cs)[i] == SnapWrite(c);
    }
  }

  lemma ClosedRowsAreCurrent(h: seq<Fill>, f: Fill, sink: Sink)
    ensures AllCurrent(SnapWrites(ClosedBy(h, f, |WINDOWS|)), h + [f], sink)
  {
    hide SnapAt, OpenTs, Distinct, ClosedBy, Lifetime, BucketStart, BucketFills, Passed;
    SnapWritesMembers(ClosedBy(h, f, |WINDOWS|));
    forall c | c in ClosedBy(h, f, |WINDOWS|)
      ensures Expect(h + [f], SnapWrite(c).key, sink) == Some(SnapWrite(c).row)
    {
      CloseStep(h, f, c);
    }
  }

  lemma PairRowIsCurrent(h: seq<Fill>, f: Fill, sink: Sink)
    ensures AllCurrent([PairWrite(h + [f], PairOf(f))], h + [f], sink)
  {
    hide Distinct, Group, PositionOf;
    DistinctSnoc(h, f, PairOf);
  }

  lemma RawRowIsCurrent(h: seq<Fill>, f: Fill, sink: Sink)
    ensures AllCurrent(RawWrites(f, sink), h + [f], sink)
  {
    hide Distinct, Group;
    GroupSnoc(h, f, RawKey(sink), RawKey(sink)(f));
  }

  lemma FillWritesAreCurrent(h: seq<Fill>, f: Fill, sink: Sink)
    ensures AllCurrent(FillWrites(h, f, sink), h + [f], sink)
  {
    hide Expect, PairWrite, ClosedBy, RawWrites, SnapWrites;
    ClosedRowsAreCurrent(h, f, sink);
    PairRowIsCurrent(h, f, sink);
    RawRowIsCurrent(h, f, sink);
  }

  lemma OpenRowsAreCurrent(h: seq<Fill>, sink: Sink)
    ensures AllCurrent(SnapWrites(OpenSnapshots(h)), h, sink)
  {
    hide SnapAt, OpenTs, Distinct, Lifetime, BucketFills, OpenSnapshots;
    SnapWritesMembers(OpenSnapshots(h));
    OpenSnapshotsMembers(h);
    forall x | x in OpenSnapshots(h) ensures Expect(h, SnapWrite(x).key, sink) == Some(SnapWrite(x).row) {
      var b := OpenTs(h, x.coin, x.window);
      SnapAtKeepsStart(h, x.coin, x.window, b);
      LifetimeUnpassed(h, x.coin, x.window, b);
      OpenBucketOnly(h, x.coin, x.window, b);
    }
  }

  lemma WalletRowsAreCurrent(h: seq<Fill>, sink: Sink)
    ensures AllCurrent(WalletWrites(h, Distinct(h, AddrOf)), h, sink)
    ensures forall a :: a in Distinct(h, AddrOf) ==> Touches(WalletWrites(h, Distinct(h, AddrOf)), WalletKey(a))
  {
    hide Distinct, WalletOf, Group;
    var addrs := Distinct(h, AddrOf);
    forall a | a in addrs ensures Touches(WalletWrites(h, addrs), WalletKey(a)) {
      var i :| 0 <= i < |addrs| && addrs[i] == a;
      assert WalletWrites(h, addrs)[i].key == WalletKey(a);
    }
  }

  lemma FlushWritesAreCurrent(h: seq<Fill>, sink: Sink)
    ensures AllCurrent(FlushWrites(h), h, sink)
  {
    hide Expect, SnapWrites, OpenSnapshots, WalletWrites;
    OpenRowsAreCurrent(h, sink);
    WalletRowsAreCurrent(h, sink);
  }

  // ---------- how many writes there are, and in which order ----------

  /** A flush writes the three buckets of every coin, in order, and then one row for every wallet. */
  lemma FlushOrder(h: seq<Fill>)
    ensures var ws, coins, addrs := FlushWrites(h), Distinct(h, CoinOf), Distinct(h, AddrOf);
            && |ws| == 3 * |coins| + |addrs|
            && (forall i :: 0 <= i < |coins| ==>
                  && WritesBucket(ws[3 * i], coins[i], OneMin)
                  && WritesBucket(ws[3 * i + 1], coins[i], FiveMin)
                  && WritesBucket(ws[3 * i + 2], coins[i], OneHour))
            && (forall i :: 0 <= i < |addrs| ==> ws[3 * |coins| + i].key == WalletKey(addrs[i]))
  {
    hide Distinct, WalletOf, Group, OpenKeys, SnapAt, OpenTs;
    var ws, coins, keys := FlushWrites(h), Distinct(h, CoinOf), OpenKeys(Distinct(h, CoinOf));
    OpenKeysMembers(coins);
    forall i | 0 <= i < |coins|
      ensures WritesBucket(ws[3 * i], coins[i], OneMin)
      ensures WritesBucket(ws[3 * i + 1], coins[i], FiveMin)
      ensures WritesBucket(ws[3 * i + 2], coins[i], OneHour)
    {
      OpenKeysAt(coins, i);
    }
  }

  predicate WritesBucket(x: Write, coin: string, w: Window) {
    x.key.BucketKey? && x.key.coin == coin && x.key.window == w
  }

  /** A fill writes its pair first, then every bucket it closed, shortest first, then its raw row if there is a sink. */
  lemma FillOrder(h: seq<Fill>, f: Fill, sink: Sink)
    ensures var ws, n := FillWrites(h, f, sink), |ClosedBy(h, f, |WINDOWS|)|;
            && |ws| == 1 + n + (if sink == Off then 0 else 1)
            && ws[0].key == PairKey(f.addr, f.coin)
            && (forall i :: 0 < i <= n ==> ws[i].key.BucketKey? && ws[i].key.coin == f.coin)
            && (forall i, j :: 0 < i < j <= n ==> ws[i].key.window.Turn() < ws[j].key.window.Turn())
            && (sink != Off ==> ws[1 + n].key.FillBucketKey? || ws[1 + n].key.FillHotKey?)
  {
    hide ClosedBy, PositionOf, Group, SnapAt;
    var cs, ws := ClosedBy(h, f, |WINDOWS|), FillWrites(h, f, sink);
    ClosedByMembers(h, f, |WINDOWS|);
    ClosesByWindow(h, f, |WINDOWS|);
    forall i | 0 < i <= |cs| ensures ws[i] == SnapWrite(cs[i - 1]) && cs[i - 1] in cs {
    }
  }

  // ---------- what a batch of current writes does ----------

  lemma {:induction false} TouchedIsCurrent(t: Tables, ws: seq<Write>, h: seq<Fill>, key: Key, sink: Sink)
    requires AllCurrent(ws, h, sink)
    ensures Touches(ws, key) ==> Lookup(ApplyAll(t, ws), key) == Expect(h, key, sink)
    ensures !Touches(ws, key) ==> Lookup(ApplyAll(t, ws), key) == Lookup(t, key)
  {
    hide Expect, ApplyAll, Lookup;
    ApplyAllLookup(t, ws, key);
  }

  /** A key that nothing ever expected is absent from as-of tables. */
  lemma UnexpectedIsAbsent(t: Tables, h: seq<Fill>, key: Key, sink: Sink)
    requires AsOfSome(t, h, key, sink) && Expect(h, key, sink) == None
    ensures Lookup(t, key) == None
  {
    hide Expect, Lookup;
    var m :| 0 <= m <= |h| && Lookup(t, key) == Expect(h[..m], key, sink);
    if Expect(h[..m], key, sink) != None {
      ExpectMonotone(h, m, key, sink);
    }
  }

  lemma PresentIsExpected(t: Tables, h: seq<Fill>, key: Key, sink: Sink)
    requires AsOfSome(t, h, key, sink) && key in t
    ensures Expect(h, key, sink) != None
  {
    hide Expect;
    if Expect(h, key, sink) == None {
      UnexpectedIsAbsent(t, h, key, sink);
    }
  }

  // ---------- one fill ----------

  /** A written-through key that f does not touch was already settled, or is expected to be absent. */
  lemma Untouched(h: seq<Fill>, f: Fill, key: Key, sink: Sink)
    requires WriteThrough(h + [f], key) && !Touches(FillWrites(h, f, sink), key)
    ensures Expect(h + [f], key, sink) == None ||
            (WriteThrough(h, key) && Expect(h + [f], key, sink) == Expect(h, key, sink))
  {
    hide Distinct, Passed, Lifetime, BucketFills, Group, RawKey, PositionOf, SnapAt, OpenTs, BucketStart;
    hide ClosedBy, SnapWrites;
    var ws := FillWrites(h, f, sink);
    match key
    case PairKey(a, c) =>
      assert ws[0] in ws;
      GroupSnoc(h, f, PairOf, (a, c));
      DistinctSnoc(h, f, PairOf);
    case WalletKey(a) =>
    case BucketKey(c, w, b) => UntouchedBucket(h, f, c, w, b, sink);
    case _ =>
      GroupSnoc(h, f, RawKey(sink), Some(key));
      RawTouches(h, f, sink);
  }

  lemma RawTouches(h: seq<Fill>, f: Fill, sink: Sink)
    ensures RawKey(sink)(f).Some? ==> Touches(FillWrites(h, f, sink), RawKey(sink)(f).value)
  {
    hide RawKey, PairWrite, SnapWrites, ClosedBy;
    var ws := FillWrites(h, f, sink);
    if RawKey(sink)(f).Some? {
      assert ws[|ws| - 1].key == RawKey(sink)(f).value && ws[|ws| - 1] in ws;
    }
  }

  lemma ClosesTouch(h: seq<Fill>, f: Fill, sink: Sink)
    ensures forall x :: x in ClosedBy(h, f, |WINDOWS|) ==> Touches(FillWrites(h, f, sink), SnapWrite(x).key)
  {
    hide RawKey, PairWrite, ClosedBy, SnapWrites;
    SnapWritesMembers(ClosedBy(h, f, |WINDOWS|));
    forall x | x in ClosedBy(h, f, |WINDOWS|) ensures Touches(FillWrites(h, f, sink), SnapWrite(x).key) {
      assert SnapWrite(x) in SnapWrites(ClosedBy(h, f, |WINDOWS|));
      assert SnapWrite(x) in FillWrites(h, f, sink);
    }
  }

  lemma UntouchedBucket(h: seq<Fill>, f: Fill, c: string, w: Window, b: int, sink: Sink)
    requires Passed(h + [f], c, w, b) && !Touches(FillWrites(h, f, sink), BucketKey(c, w, b))
    ensures Expect(h + [f], BucketKey(c, w, b), sink) == None ||
            (Passed(h, c, w, b) && Expect(h + [f], BucketKey(c, w, b), sink) == Expect(h, BucketKey(c, w, b), sink))
  {
    hide Distinct, Passed, Lifetime, BucketFills, Group, RawKey, PositionOf, SnapAt, OpenTs, BucketStart;
    hide ClosedBy, FillWrites;
    LifetimeSnoc(h, f, c, w, b);
    SnapAtKeepsStart(h + [f], c, w, b);
    CloseStep(h, f, Closed(c, w, RowSnap(h + [f], c, w, b)));
    ClosesTouch(h, f, sink);
  }

  /** Writing through one fill keeps the tables fresh. */
  lemma {:induction false} FillKeepsFresh(t: Tables, h: seq<Fill>, f: Fill, sink: Sink)
    requires Fresh(t, h, sink)
    ensures Fresh(ApplyAll(t, FillWrites(h, f, sink)), h + [f], sink)
  {
    hide Expect, FillWrites, ApplyAll, Lookup, WriteThrough;
    var ws, h' := FillWrites(h, f, sink), h + [f];
    var t' := ApplyAll(t, ws);
    FillWritesAreCurrent(h, f, sink);
    forall key ensures AsOfSome(t', h', key, sink) {
      TouchedIsCurrent(t, ws, h', key, sink);
      if Touches(ws, key) {
        assert h'[..|h'|] == h';
      } else {
        assert AsOfSome(t, h, key, sink);
        var m :| 0 <= m <= |h| && Lookup(t, key) == Expect(h[..m], key, sink);
        assert h'[..m] == h[..m];
      }
    }
    forall key | WriteThrough(h', key) ensures Lookup(t', key) == Expect(h', key, sink) {
      TouchedIsCurrent(t, ws, h', key, sink);
      if !Touches(ws, key) {
        Untouched(h, f, key, sink);
        if Expect(h', key, sink) == None {
          assert AsOfSome(t', h', key, sink);
          UnexpectedIsAbsent(t', h', key, sink);
        }
      }
    }
  }

  // ---------- one flush ----------

  lemma FlushTouches(h: seq<Fill>, key: Key, sink: Sink)
    requires !WriteThrough(h, key) && Expect(h, key, sink) != None
    ensures Touches(FlushWrites(h), key)
  {
    hide Distinct, Lifetime, BucketFills, SnapAt, OpenTs, OpenSnapshots, WalletOf, WalletWrites;
    var snaps, wallets := SnapWrites(OpenSnapshots(h)), WalletWrites(h, Distinct(h, AddrOf));
    match key
    case WalletKey(a) =>
      WalletRowsAreCurrent(h, sink);
      var w :| w in wallets && w.key == key;
      assert w in FlushWrites(h);
    case BucketKey(c, w, b) =>
      LifetimeUnpassed(h, c, w, b);
      OpenBucketOnly(h, c, w, b);
      OpenSnapshotsMembers(h);
      var x := Closed(c, w, SnapAt(h, c, w, b));
      assert x in OpenSnapshots(h);
      SnapAtKeepsStart(h, c, w, b);
      SnapWritesMembers(OpenSnapshots(h));
      assert SnapWrite(x) in snaps;
      assert SnapWrite(x) in FlushWrites(h);
  }

  /** A flush brings every row up to date. */
  lemma FlushMatches(t: Tables, h: seq<Fill>, sink: Sink)
    requires Fresh(t, h, sink)
    ensures Matches(ApplyAll(t, FlushWrites(h)), h, sink)
  {
    hide Expect, FlushWrites, ApplyAll, Lookup, WriteThrough, AsOfSome;
    var ws := FlushWrites(h);
    FlushWritesAreCurrent(h, sink);
    forall key ensures Lookup(ApplyAll(t, ws), key) == Expect(h, key, sink) {
      TouchedIsCurrent(t, ws, h, key, sink);
      if !Touches(ws, key) && !WriteThrough(h, key) {
        if Expect(h, key, sink) == None {
          UnexpectedIsAbsent(t, h, key, sink);
        } else {
          FlushTouches(h, key, sink);
        }
      }
    }
  }

  lemma MatchesIsFresh(t: Tables, h: seq<Fill>, sink: Sink)
    requires Matches(t, h, sink)
    ensures Fresh(t, h, sink)
  {
    hide Expect, Lookup;
    assert h[..|h|] == h;
  }

  // ---------- whole runs ----------

  /** The invariant of the main loop, from empty tables, under any flush schedule. */
  lemma {:induction false} LoopStaysFresh(h: seq<Fill>, flushes: set<nat>, sink: Sink)
    ensures Fresh(ApplyAll(map[], LoopLog(h, flushes, sink)), h, sink)
  {
    hide Expect, FillWrites, FlushWrites, Fresh, ApplyAll;
    var log := LoopLog(h, flushes, sink);
    if h == [] {
      NothingWritten(sink);
    } else {
      var init, f := h[..|h| - 1], h[|h| - 1];
      SplitLast(h);
      LoopStaysFresh(init, flushes, sink);
      var before := LoopLog(init, flushes, sink);
      var written := before + FillWrites(init, f, sink);
      FillKeepsFresh(ApplyAll(map[], before), init, f, sink);
      ApplyConcat(map[], before, FillWrites(init, f, sink));
      if |h| in flushes {
        FlushMatches(ApplyAll(map[], written), h, sink);
        ApplyConcat(map[], written, FlushWrites(h));
        MatchesIsFresh(ApplyAll(map[], log), h, sink);
      } else {
        assert log == written;
      }
    }
  }

  lemma NothingWritten(sink: Sink)
    ensures Fresh(ApplyAll(map[], LoopLog([], {}, sink)), [], sink)
    ensures forall flushes :: LoopLog([], flushes, sink) == []
  {
    hide Expect;
    forall key ensures AsOfSome(map[], [], key, sink) && Expect([], key, sink) == None {
      EmptyExpectation(key, sink);
      var h: seq<Fill> := [];
      assert h[..0] == h;
    }
  }

  lemma EmptyExpectation(key: Key, sink: Sink)
    ensures Expect([], key, sink) == None
  {
  }

  // ---------- the tables at any moment ----------

  /** How many fills had been consumed at the last flush, among the first n. */
  function LastFlushed(n: nat, flushes: set<nat>): (m: nat)
    ensures m <= n
  {
    if n == 0 || n in flushes then n else LastFlushed(n - 1, flushes)
  }

  lemma {:induction false} LastFlushedIsLast(n: nat, flushes: set<nat>)
    ensures LastFlushed(n, flushes) == 0 || LastFlushed(n, flushes) in flushes
    ensures forall k :: LastFlushed(n, flushes) < k <= n ==> k !in flushes
  {
    if n > 0 && n !in flushes {
      LastFlushedIsLast(n - 1, flushes);
    }
  }

  /** The rows that a fill leaves alone: wallets, and buckets that are still open. */
  lemma FillTouchesWrittenThrough(h: seq<Fill>, f: Fill, sink: Sink, key: Key)
    requires !WriteThrough(h + [f], key)
    ensures !Touches(FillWrites(h, f, sink), key) && !WriteThrough(h, key)
  {
    hide Passed, PairWrite, ClosedBy, SnapWrites, BucketStart, RawKey;
    OtherKeys(h, f, sink);
    SnapWritesMembers(ClosedBy(h, f, |WINDOWS|));
    forall c | c in ClosedBy(h, f, |WINDOWS|) ensures SnapWrite(c).key != key {
      CloseStep(h, f, c);
    }
    if key.BucketKey? {
      PassedSnoc(h, f, key.coin, key.window, key.bucketTs);
    }
  }

  lemma OtherKeys(h: seq<Fill>, f: Fill, sink: Sink)
    ensures PairWrite(h + [f], PairOf(f)).key.PairKey?
    ensures forall x :: x in RawWrites(f, sink) ==> !x.key.BucketKey? && !x.key.WalletKey?
  {
  }

  lemma NothingToRead(flushes: set<nat>, key: Key, sink: Sink)
    ensures Lookup(ApplyAll(map[], LoopLog([], flushes, sink)), key) == Expect([], key, sink)
  {
    EmptyExpectation(key, sink);
  }

  /**
   Main result on live tables: with every issued write applied, at any moment and
   under any schedule, rows that are written through are those of now, and
   wallets and open buckets are exactly those of the last flush.
   */
  lemma {:induction false} TablesBetweenFlushes(h: seq<Fill>, flushes: set<nat>, sink: Sink, key: Key)
    ensures Lookup(ApplyAll(map[], LoopLog(h, flushes, sink)), key) ==
            if WriteThrough(h, key) then Expect(h, key, sink)
            else Expect(h[..LastFlushed(|h|, flushes)], key, sink)
  {
    hide Expect, FillWrites, FlushWrites, ApplyAll, WriteThrough, Lookup, AsOfSome;
    LoopStaysFresh(h, flushes, sink);
    if h == [] {
      assert h[..0] == h;
      NothingToRead(flushes, key, sink);
    } else {
      var init, f := h[..|h| - 1], h[|h| - 1];
      SplitLast(h);
      var before := LoopLog(init, flushes, sink);
      var t := ApplyAll(map[], before);
      ApplyConcat(map[], before, FillWrites(init, f, sink));
      if |h| in flushes {
        var written := before + FillWrites(init, f, sink);
        LoopStaysFresh(init, flushes, sink);
        FillKeepsFresh(t, init, f, sink);
        FlushMatches(ApplyAll(map[], written), h, sink);
        ApplyConcat(map[], written, FlushWrites(h));
        assert h[..|h|] == h;
      } else if !WriteThrough(h, key) {
        TablesBetweenFlushes(init, flushes, sink, key);
        FillTouchesWrittenThrough(init, f, sink, key);
        ApplyAllLookup(t, FillWrites(init, f, sink), key);
        assert LoopLog(h, flushes, sink) == before + FillWrites(init, f, sink);
        assert init[..LastFlushed(|init|, flushes)] == h[..LastFlushed(|h|, flushes)];
      }
    }
  }

  /** Main result: a completed run leaves exactly the expected rows, whatever its flush schedule. */
  lemma RunMatches(h: seq<Fill>, flushes: set<nat>, sink: Sink)
    ensures Matches(ApplyAll(map[], RunLog(h, flushes, sink)), h, sink)
  {
    hide Matches, Fresh, LoopLog, FlushWrites;
    LoopStaysFresh(h, flushes, sink);
    FlushMatches(ApplyAll(map[], LoopLog(h, flushes, sink)), h, sink);
    ApplyConcat(map[], LoopLog(h, flushes, sink), FlushWrites(h));
  }

  /** Tables are determined by their lookups. */
  lemma SameLookups(t: Tables, t': Tables)
    requires forall key :: Lookup(t, key) == Lookup(t', key)
    ensures t == t'
  {
    forall key ensures key in t <==> key in t' {
      assert Lookup(t, key) == Lookup(t', key);
    }
    forall key | key in t ensures t[key] == t'[key] {
      assert Lookup(t, key) == Lookup(t', key);
    }
  }

  /** Flush-schedule independence. */
  lemma FlushScheduleIsIrrelevant(h: seq<Fill>, flushes: set<nat>, flushes': set<nat>, sink: Sink)
    ensures ApplyAll(map[], RunLog(h, flushes, sink)) == ApplyAll(map[], RunLog(h, flushes', sink))
  {
    hide RunLog, Expect, Lookup;
    RunMatches(h, flushes, sink);
    RunMatches(h, flushes', sink);
    SameLookups(ApplyAll(map[], RunLog(h, flushes, sink)), ApplyAll(map[], RunLog(h, flushes', sink)));
  }

  // ---------- interrupted runs ----------

  /** Every row belongs to a key that the stream h expects. */
  ghost predicate Owned(t: Tables, h: seq<Fill>, sink: Sink) {
    forall key :: key in t ==> Expect(h, key, sink) != None
  }

  ghost predicate WritesOwned(ws: seq<Write>, h: seq<Fill>, sink: Sink) {
    forall w :: w in ws ==> Expect(h, w.key, sink) != None
  }

  /** The write carries the row that its key should have had after some prefix of h. */
  ghost predicate Dated(w: Write, h: seq<Fill>, sink: Sink) {
    exists m: nat :: m <= |h| && Expect(h[..m], w.key, sink) == Some(w.row)
  }

  ghost predicate AllDated(ws: seq<Write>, h: seq<Fill>, sink: Sink) {
    forall w :: w in ws ==> Dated(w, h, sink)
  }

  lemma DatedIsOwned(ws: seq<Write>, h: seq<Fill>, sink: Sink)
    requires AllDated(ws, h, sink)
    ensures WritesOwned(ws, h, sink)
  {
    hide Expect;
    forall w | w in ws ensures Expect(h, w.key, sink) != None {
      assert Dated(w, h, sink);
      var m: nat :| m <= |h| && Expect(h[..m], w.key, sink) == Some(w.row);
      ExpectMonotone(h, m, w.key, sink);
    }
  }

  lemma CurrentIsDated(ws: seq<Write>, h: seq<Fill>, m: nat, sink: Sink)
    requires m <= |h| && AllCurrent(ws, h[..m], sink)
    ensures AllDated(ws, h, sink)
  {
    hide Expect;
  }

  lemma {:induction false} LoopIsDated(h: seq<Fill>, m: nat, flushes: set<nat>, sink: Sink)
    requires m <= |h|
    ensures AllDated(LoopLog(h[..m], flushes, sink), h, sink)
  {
    hide Expect, FillWrites, FlushWrites, Dated;
    if m > 0 {
      var p, f := h[..m - 1], h[m - 1];
      assert h[..m] == p + [f] && h[..m][..m - 1] == p;
      LoopIsDated(h, m - 1, flushes, sink);
      FillWritesAreCurrent(p, f, sink);
      FlushWritesAreCurrent(h[..m], sink);
      CurrentIsDated(FillWrites(p, f, sink), h, m, sink);
      CurrentIsDated(FlushWrites(h[..m]), h, m, sink);
    }
  }

  /** Every write of a run on a prefix of the stream is right as of some moment of the stream. */
  lemma RunIsDated(h: seq<Fill>, m: nat, flushes: set<nat>, sink: Sink)
    requires m <= |h|
    ensures AllDated(RunLog(h[..m], flushes, sink), h, sink)
  {
    hide Expect, LoopLog, FlushWrites, Dated;
    LoopIsDated(h, m, flushes, sink);
    FlushWritesAreCurrent(h[..m], sink);
    CurrentIsDated(FlushWrites(h[..m]), h, m, sink);
  }

  lemma {:induction false} OwnedWritesKeepOwned(t: Tables, ws: seq<Write>, h: seq<Fill>, sink: Sink)
    requires Owned(t, h, sink) && WritesOwned(ws, h, sink)
    ensures Owned(ApplyAll(t, ws), h, sink)
  {
    hide Expect;
    if ws != [] {
      SplitLast(ws);
      assert ws[|ws| - 1] in ws;
      OwnedWritesKeepOwned(t, ws[..|ws| - 1], h, sink);
    }
  }

  /**
   A run on the first m fills, cut short after any n of its writes, leaves
   only rows that the full stream owns.
   */
  lemma CrashedRunIsOwned(t: Tables, h: seq<Fill>, m: nat, n: nat, flushes: set<nat>, sink: Sink)
    requires Owned(t, h, sink) && m <= |h| && n <= |RunLog(h[..m], flushes, sink)|
    ensures Owned(ApplyAll(t, RunLog(h[..m], flushes, sink)[..n]), h, sink)
  {
    hide Expect, RunLog, Owned, Dated;
    RunIsDated(h, m, flushes, sink);
    DatedIsOwned(RunLog(h[..m], flushes, sink), h, sink);
    OwnedWritesKeepOwned(t, RunLog(h[..m], flushes, sink)[..n], h, sink);
  }

  /** Replay converges: over tables left by any number of crashed runs, a full rerun gives the one-run tables. */
  lemma RerunConverges(t: Tables, h: seq<Fill>, flushes: set<nat>, sink: Sink)
    requires Owned(t, h, sink)
    ensures ApplyAll(t, RunLog(h, flushes, sink)) == ApplyAll(map[], RunLog(h, flushes, sink))
  {
    hide Expect, ApplyAll, RunLog, Touches;
    var log := RunLog(h, flushes, sink);
    var done := ApplyAll(map[], log);
    RunMatches(h, flushes, sink);
    forall key ensures Lookup(ApplyAll(t, log), key) == Lookup(done, key) {
      ApplyAllLookup(t, log, key);
      ApplyAllLookup(map[], log, key);
      assert Lookup(done, key) == Expect(h, key, sink);
    }
    SameLookups(ApplyAll(t, log), done);
  }

  /** Crash and rerun: any stopping point, then a full run from a fresh engine, equals one full run. */
  lemma CrashThenRerun(h: seq<Fill>, m: nat, n: nat, flushes: set<nat>, flushes': set<nat>, sink: Sink)
    requires m <= |h| && n <= |RunLog(h[..m], flushes, sink)|
    ensures var crashed := ApplyAll(map[], RunLog(h[..m], flushes, sink)[..n]);
            ApplyAll(crashed, RunLog(h, flushes', sink)) == ApplyAll(map[], RunLog(h, flushes', sink))
  {
    hide RunLog, Expect, ApplyAll;
    CrashedRunIsOwned(map[], h, m, n, flushes, sink);
    RerunConverges(ApplyAll(map[], RunLog(h[..m], flushes, sink)[..n]), h, flushes', sink);
  }

  // ---------- the read path ----------

  /** The newest row of a partition: what a LIMIT 1 read in descending bucket order returns. */
  ghost predicate IsLatest(t: Tables, coin: string, w: Window, b: int) {
    && BucketKey(coin, w, b) in t
    && forall b' :: BucketKey(coin, w, b') in t ==> b' <= b
  }

  /** After a flush the newest-first read of every (coin, window) returns the open bucket's snapshot. */
  lemma ReadReturnsOpenSnapshot(t: Tables, h: seq<Fill>, sink: Sink, coin: string, w: Window)
    requires Matches(t, h, sink) && coin in Distinct(h, CoinOf)
    ensures var b := OpenTs(h, coin, w);
            IsLatest(t, coin, w, b) && t[BucketKey(coin, w, b)] == BucketRow(SnapAt(h, coin, w, b))
  {
    hide Distinct, Lifetime, BucketFills, OpenTs, SnapAt, Lookup;
    LookupMeans(t);
    var b := OpenTs(h, coin, w);
    LifetimeUnpassed(h, coin, w, b);
    OpenBucketOnly(h, coin, w, b);
    assert Expect(h, BucketKey(coin, w, b), sink) == Some(BucketRow(SnapAt(h, coin, w, b)));
    assert Lookup(t, BucketKey(coin, w, b)) == Expect(h, BucketKey(coin, w, b), sink);
    forall b' | BucketKey(coin, w, b') in t ensures b' <= b {
      assert Lookup(t, BucketKey(coin, w, b')) == Expect(h, BucketKey(coin, w, b'), sink);
      LifetimeUnpassed(h, coin, w, b');
      if b' > b {
        OpenBucketOnly(h, coin, w, b');
      }
    }
  }

  lemma LookupMeans(t: Tables)
    ensures forall key :: (Lookup(t, key) == None <==> key !in t) && (key in t ==> Lookup(t, key) == Some(t[key]))
  {
  }

  /** A coin never traded has no row to read. */
  lemma ReadOfUnknownCoinIsEmpty(t: Tables, h: seq<Fill>, sink: Sink, coin: string, w: Window)
    requires Fresh(t, h, sink) && coin !in Distinct(h, CoinOf)
    ensures forall b :: BucketKey(coin, w, b) !in t
  {
    hide Distinct, Lifetime, BucketFills, OpenTs, SnapAt;
    forall b ensures BucketKey(coin, w, b) !in t {
      LifetimeUnpassed(h, coin, w, b);
      OpenBucketOnly(h, coin, w, b);
      UnexpectedIsAbsent(t, h, BucketKey(coin, w, b), sink);
    }
  }

  /**
   Between flushes: a row older than the open bucket is its final closed
   snapshot, and the open bucket's row never overstates volume.
   */
  lemma RowsBetweenFlushes(t: Tables, h: seq<Fill>, sink: Sink, coin: string, w: Window, b: int)
    requires Fresh(t, h, sink) && BucketKey(coin, w, b) in t
    ensures coin in Distinct(h, CoinOf) && b <= OpenTs(h, coin, w)
    ensures b < OpenTs(h, coin, w) ==> t[BucketKey(coin, w, b)] == BucketRow(RowSnap(h, coin, w, b))
    ensures b == OpenTs(h, coin, w) && NonNegative(h) ==>
              t[BucketKey(coin, w, b)].BucketRow? &&
              t[BucketKey(coin, w, b)].snap.volume <= SnapAt(h, coin, w, b).volume
  {
    hide Distinct, Lifetime, BucketFills, OpenTs, SnapAt;
    var key := BucketKey(coin, w, b);
    LifetimeUnpassed(h, coin, w, b);
    assert AsOfSome(t, h, key, sink);
    PresentIsExpected(t, h, key, sink);
    if !Passed(h, coin, w, b) {
      OpenBucketOnly(h, coin, w, b);
    }
    if b == OpenTs(h, coin, w) {
      var m :| 0 <= m <= |h| && Lookup(t, key) == Expect(h[..m], key, sink);
      PrefixUnpassed(h, m, coin, w, b);
      LifetimeUnpassed(h[..m], coin, w, b);
      if NonNegative(h) {
        RowVolumeGrows(h, m, coin, w, b);
      }
    }
  }

  lemma {:induction false} PrefixUnpassed(h: seq<Fill>, m: nat, coin: string, w: Window, b: int)
    requires m <= |h| && !Passed(h, coin, w, b)
    ensures !Passed(h[..m], coin, w, b)
  {
    hide Passed;
    if m == |h| {
      assert h[..m] == h;
    } else {
      SplitLast(h);
      PassedSnoc(h[..|h| - 1], h[|h| - 1], coin, w, b);
      PrefixUnpassed(h[..|h| - 1], m, coin, w, b);
      assert h[..|h| - 1][..m] == h[..m];
    }
  }

  /** A bucket's volume only grows, up to its final value. */
  lemma {:induction false} RowVolumeGrows(h: seq<Fill>, m: nat, coin: string, w: Window, b: int)
    requires m <= |h| && NonNegative(h)
    ensures RowSnap(h[..m], coin, w, b).volume <= RowSnap(h, coin, w, b).volume
  {
    hide Passed, Lifetime, BucketFills, Fill.Notional, Sum, FlowsOf, Hhi, WeightsAt, Filter, BucketStart;
    if m == |h| {
      assert h[..m] == h;
    } else {
      var init, f := h[..|h| - 1], h[|h| - 1];
      SplitLast(h);
      assert f in h && forall x :: x in init ==> x in h;
      assert init[..m] == h[..m];
      RowVolumeGrows(init, m, coin, w, b);
      LifetimeSnoc(init, f, coin, w, b);
      LifetimeUnpassed(init, coin, w, b);
      BucketFillsSnoc(init, f, coin, w, b);
      SumSnoc(BucketFills(init, coin, w, b), f, NotionalOf);
    }
  }
}
