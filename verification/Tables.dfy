/**
 The feature tables as keyed rows, the ordered log of blind upserts that the
 consumer issues, and what every row should be.
 */
module Tables {
  import opened Seqs
  import opened Fills
  import opened FeatureSpec
  import opened Windows
  import opened Lifetimes

  /** Primary keys, one constructor per table. */
  datatype Key =
    | PairKey(addr: string, coin: string)
    | BucketKey(coin: string, window: Window, bucketTs: int)
    | WalletKey(addr: string)
    | FillBucketKey(coin: string, timeBucket: int, tsMs: int, addr: string)
    | FillHotKey(coin: string, tsMs: int, addr: string)

  datatype TableRow =
    | PairRow(position: Position)
    | BucketRow(snap: Snapshot)
    | WalletRow(cumPnl: real, totalFills: nat, grossVolume: real, netVolume: real, churn: real,
                archetype: Archetype, lastTs: int)
    | FillRow(px: real, sz: real, side: string, crossed: bool, closedPnl: real)

  /** A blind upsert. */
  datatype Write = Write(key: Key, row: TableRow)

  type Tables = map<Key, TableRow>

  function ApplyAll(t: Tables, ws: seq<Write>): Tables {
    if |ws| == 0 then t
    else
      var w := ws[|ws| - 1];
      ApplyAll(t, ws[..|ws| - 1])[w.key := w.row]
  }

  function Lookup(t: Tables, key: Key): Option<TableRow> {
    if key in t then Some(t[key]) else None
  }

  ghost predicate Touches(ws: seq<Write>, key: Key) {
    exists w :: w in ws && w.key == key
  }

  lemma {:induction false} ApplyConcat(t: Tables, ws: seq<Write>, ws': seq<Write>)
    ensures ApplyAll(t, ws + ws') == ApplyAll(ApplyAll(t, ws), ws')
  {
    if ws' == [] {
      assert ws + ws' == ws;
    } else {
      assert (ws + ws')[..|ws + ws'| - 1] == ws + ws'[..|ws'| - 1];
      ApplyConcat(t, ws, ws'[..|ws'| - 1]);
    }
  }

  /** Index i holds the last write of key. */
  ghost predicate LastWrite(ws: seq<Write>, key: Key, i: nat) {
    i < |ws| && ws[i].key == key && forall j :: i < j < |ws| ==> ws[j].key != key
  }

  /** Last writer wins: a key holds the row of the last write of it, or what it held if there is none. */
  lemma {:induction false} ApplyAllLookup(t: Tables, ws: seq<Write>, key: Key)
    ensures Touches(ws, key) <==> exists i: nat :: LastWrite(ws, key, i)
    ensures forall i: nat :: LastWrite(ws, key, i) ==> Lookup(ApplyAll(t, ws), key) == Some(ws[i].row)
    ensures !Touches(ws, key) ==> Lookup(ApplyAll(t, ws), key) == Lookup(t, key)
  {
    if ws != [] {
      SplitLast(ws);
      var init, n := ws[..|ws| - 1], |ws| - 1;
      ApplyAllLookup(t, init, key);
      if ws[n].key == key {
        assert ws[n] in ws && LastWrite(ws, key, n);
      } else {
        assert forall i: nat :: LastWrite(ws, key, i) <==> LastWrite(init, key, i);
      }
    }
  }

  // ---------- the consumer's log ----------

  datatype Sink = Off | Bucketed | Hot

  const COIN_BUCKET_SECONDS := 10

  /** The raw-fill row a fill goes to, if there is a sink. */
  function RawKey(sink: Sink): Fill -> Option<Key> {
    (f: Fill) => match sink
      case Off => None
      case Bucketed => Some(FillBucketKey(f.coin, f.tsMs / 1000 / COIN_BUCKET_SECONDS * COIN_BUCKET_SECONDS,
                                          f.tsMs, f.addr))
      case Hot => Some(FillHotKey(f.coin, f.tsMs, f.addr))
  }

  function FillRowOf(f: Fill): TableRow { FillRow(f.px, f.sz, f.side, f.crossed, f.closedPnl) }

  function WalletRowOf(s: WalletStats): TableRow {
    WalletRow(s.cumPnl, s.totalFills, s.grossVolume, Abs(s.signedVolume), s.Churn(), s.Archetype(), s.lastTs)
  }

  function SnapWrite(c: Closed): Write {
    Write(BucketKey(c.coin, c.window, c.snap.bucketTs), BucketRow(c.snap))
  }

  function SnapWrites(cs: seq<Closed>): seq<Write> {
    seq(|cs|, i requires 0 <= i < |cs| => SnapWrite(cs[i]))
  }

  function WalletWrites(h: seq<Fill>, addrs: seq<string>): seq<Write> {
    seq(|addrs|, i requires 0 <= i < |addrs| =>
      Write(WalletKey(addrs[i]), WalletRowOf(WalletOf(Group(h, AddrOf, addrs[i])))))
  }

  function PairWrite(h: seq<Fill>, pair: Pair): Write {
    Write(PairKey(pair.0, pair.1), PairRow(PositionOf(Group(h, PairOf, pair))))
  }

  function RawWrites(f: Fill, sink: Sink): seq<Write> {
    if RawKey(sink)(f).Some? then [Write(RawKey(sink)(f).value, FillRowOf(f))] else []
  }

  /** What the arrival of f after h makes the consumer write. */
  function FillWrites(h: seq<Fill>, f: Fill, sink: Sink): seq<Write> {
    [PairWrite(h + [f], PairOf(f))] + SnapWrites(ClosedBy(h, f, |WINDOWS|)) + RawWrites(f, sink)
  }

  /** What a flush after h writes: every open snapshot, then every wallet. */
  function FlushWrites(h: seq<Fill>): seq<Write> {
    SnapWrites(OpenSnapshots(h)) + WalletWrites(h, Distinct(h, AddrOf))
  }

  /** The log of the main loop when a flush fires after the n-th fill for each n in flushes. */
  function LoopLog(h: seq<Fill>, flushes: set<nat>, sink: Sink): seq<Write> {
    if |h| == 0 then []
    else
      var init := h[..|h| - 1];
      LoopLog(init, flushes, sink) + FillWrites(init, h[|h| - 1], sink) +
      if |h| in flushes then FlushWrites(h) else []
  }

  /** The log of a whole run: the loop, then a last flush. */
  function RunLog(h: seq<Fill>, flushes: set<nat>, sink: Sink): seq<Write> {
    LoopLog(h, flushes, sink) + FlushWrites(h)
  }

  // ---------- what the tables should hold ----------

  /** The row that key should have after history h, if any. */
  function Expect(h: seq<Fill>, key: Key, sink: Sink): Option<TableRow> {
    match key
    case PairKey(a, c) =>
      if (a, c) in Distinct(h, PairOf) then Some(PairRow(PositionOf(Group(h, PairOf, (a, c))))) else None
    case WalletKey(a) =>
      if a in Distinct(h, AddrOf) then Some(WalletRowOf(WalletOf(Group(h, AddrOf, a)))) else None
    case BucketKey(c, w, b) =>
      if RowFills(h, c, w, b) != [] then Some(BucketRow(RowSnap(h, c, w, b))) else None
    case _ =>
      var fs := Group(h, RawKey(sink), Some(key));
      if fs != [] then Some(FillRowOf(fs[|fs| - 1])) else None
  }

  /** The tables hold exactly the expected rows. */
  ghost predicate Matches(t: Tables, h: seq<Fill>, sink: Sink) {
    forall key :: Lookup(t, key) == Expect(h, key, sink)
  }

  /** Rows that only a periodic flush refreshes: wallets, and buckets not yet closed. */
  ghost predicate WriteThrough(h: seq<Fill>, key: Key) {
    !key.WalletKey? && (key.BucketKey? ==> Passed(h, key.coin, key.window, key.bucketTs))
  }

  ghost predicate AsOfSome(t: Tables, h: seq<Fill>, key: Key, sink: Sink) {
    exists m :: 0 <= m <= |h| && Lookup(t, key) == Expect(h[..m], key, sink)
  }

  /**
   Between flushes: every row is what it should have been at some earlier
   moment, and every row that is written through is current.
   */
  ghost predicate Fresh(t: Tables, h: seq<Fill>, sink: Sink) {
    && (forall key :: AsOfSome(t, h, key, sink))
    && (forall key :: WriteThrough(h, key) ==> Lookup(t, key) == Expect(h, key, sink))
  }

  // ---------- expected rows never disappear ----------

  lemma ExpectGrows(h: seq<Fill>, f: Fill, key: Key, sink: Sink)
    requires Expect(h + [f], key, sink) == None
    ensures Expect(h, key, sink) == None
  {
    hide Distinct, Passed, Lifetime, BucketFills, Group, RawKey, PositionOf, WalletOf, BucketStart;
    match key
    case PairKey(a, c) => DistinctSnoc(h, f, PairOf);
    case WalletKey(a) => DistinctSnoc(h, f, AddrOf);
    case BucketKey(c, w, b) =>
      LifetimeSnoc(h, f, c, w, b);
      LifetimeUnpassed(h, c, w, b);
      BucketFillsSnoc(h, f, c, w, b);
    case _ => GroupSnoc(h, f, RawKey(sink), Some(key));
  }

  lemma {:induction false} ExpectMonotone(h: seq<Fill>, m: nat, key: Key, sink: Sink)
    requires m <= |h| && Expect(h[..m], key, sink) != None
    ensures Expect(h, key, sink) != None
  {
    hide Expect;
    if m == |h| {
      assert h[..m] == h;
    } else {
      var init := h[..|h| - 1];
      SplitLast(h);
      assert init[..m] == h[..m];
      ExpectMonotone(init, m, key, sink);
      if Expect(h, key, sink) == None {
        ExpectGrows(init, h[|h| - 1], key, sink);
      }
    }
  }
}
