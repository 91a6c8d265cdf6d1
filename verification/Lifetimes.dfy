/**
 The life of a bucket: it collects fills until a fill of its coin lands in a
 newer bucket, and every later fill for it is dropped.
 */
module Lifetimes {
  import opened Seqs
  import opened Fills
  import opened FeatureSpec
  import opened Windows

  /** Has h seen a fill of the coin in a bucket newer than b? */
  predicate Passed(h: seq<Fill>, coin: string, w: Window, b: int) {
    coin in Distinct(h, CoinOf) && OpenTs(h, coin, w) > b
  }

  /** Would f be dropped by window w on arrival after h? */
  predicate Late(h: seq<Fill>, f: Fill, w: Window) {
    Passed(h, f.coin, w, BucketStart(f.tsMs, w))
  }

  /** The fills of h that window w takes in. */
  function Retained(h: seq<Fill>, w: Window): seq<Fill> {
    if |h| == 0 then []
    else
      var init, f := h[..|h| - 1], h[|h| - 1];
      if Late(init, f, w) then Retained(init, w) else Retained(init, w) + [f]
  }

  /** The fills of h that window w drops. */
  function Dropped(h: seq<Fill>, w: Window): seq<Fill> {
    if |h| == 0 then []
    else
      var init, f := h[..|h| - 1], h[|h| - 1];
      if Late(init, f, w) then Dropped(init, w) + [f] else Dropped(init, w)
  }

  /** The history up to and including the fill that closed bucket (coin, w, b), or all of it. */
  function Lifetime(h: seq<Fill>, coin: string, w: Window, b: int): seq<Fill> {
    if |h| == 0 then []
    else if Passed(h[..|h| - 1], coin, w, b) then Lifetime(h[..|h| - 1], coin, w, b)
    else h
  }

  /** The fills a bucket collected in its life. */
  function RowFills(h: seq<Fill>, coin: string, w: Window, b: int): seq<Fill> {
    BucketFills(Lifetime(h, coin, w, b), coin, w, b)
  }

  /** The last snapshot a bucket gives: when it closed, or now if it has not. */
  function RowSnap(h: seq<Fill>, coin: string, w: Window, b: int): Snapshot {
    SnapAt(Lifetime(h, coin, w, b), coin, w, b)
  }

  lemma RetainedSnoc(h: seq<Fill>, f: Fill, w: Window)
    ensures Retained(h + [f], w) == if Late(h, f, w) then Retained(h, w) else Retained(h, w) + [f]
    ensures Dropped(h + [f], w) == if Late(h, f, w) then Dropped(h, w) + [f] else Dropped(h, w)
  {
    assert (h + [f])[..|h|] == h;
  }

  lemma LifetimeSnoc(h: seq<Fill>, f: Fill, coin: string, w: Window, b: int)
    ensures Lifetime(h + [f], coin, w, b) == if Passed(h, coin, w, b) then Lifetime(h, coin, w, b) else h + [f]
  {
    assert (h + [f])[..|h|] == h;
  }

  lemma PassedSnoc(h: seq<Fill>, f: Fill, coin: string, w: Window, b: int)
    ensures Passed(h + [f], coin, w, b) <==>
            Passed(h, coin, w, b) || (f.coin == coin && BucketStart(f.tsMs, w) > b)
  {
    hide Distinct, OpenTs, BucketStart;
    OpenTsSnoc(h, f, coin, w);
    DistinctSnoc(h, f, CoinOf);
  }

  /** A bucket is passed once the coin has traded in a later one. */
  lemma PassedMeans(h: seq<Fill>, coin: string, w: Window, b: int)
    ensures Passed(h, coin, w, b) <==> exists x :: x in h && x.coin == coin && BucketStart(x.tsMs, w) > b
  {
    hide OpenTs, BucketStart, Distinct;
    DistinctMembers(h, CoinOf);
    if Passed(h, coin, w, b) {
      var x := OpenTsAttained(h, coin, w);
    }
    forall x | x in h && x.coin == coin && BucketStart(x.tsMs, w) > b ensures Passed(h, coin, w, b) {
      OpenTsBounds(h, x, w);
    }
  }

  /** A fill is late exactly when its coin has already traded in a later minute, five minutes or hour. */
  lemma LateMeans(h: seq<Fill>, f: Fill, w: Window)
    ensures var secs := if w == OneMin then 60 else if w == FiveMin then 300 else 3600;
            Late(h, f, w) <==> exists x :: x in h && x.coin == f.coin && x.tsMs / 1000 / secs > f.tsMs / 1000 / secs
  {
    hide Passed;
    PassedMeans(h, f.coin, w, BucketStart(f.tsMs, w));
    forall x: Fill
      ensures BucketStart(x.tsMs, w) > BucketStart(f.tsMs, w) <==>
              x.tsMs / 1000 / w.Size() > f.tsMs / 1000 / w.Size()
    {
      LaterBucket(x.tsMs / 1000 / w.Size(), f.tsMs / 1000 / w.Size(), w.Size());
    }
    WindowLengths();
  }

  lemma LaterBucket(x: int, y: int, n: int)
    requires n > 0
    ensures x * n > y * n <==> x > y
  {
    assert (x - y) * n == x * n - y * n;
    FarMultiple(x - y, n);
  }

  lemma {:induction false} LifetimeUnpassed(h: seq<Fill>, coin: string, w: Window, b: int)
    ensures Lifetime(h, coin, w, b) <= h
    ensures !Passed(h, coin, w, b) ==> Lifetime(h, coin, w, b) == h
    ensures Passed(Lifetime(h, coin, w, b), coin, w, b) <==> Passed(h, coin, w, b)
  {
    hide Passed;
    if h != [] {
      var init, f := h[..|h| - 1], h[|h| - 1];
      SplitLast(h);
      LifetimeUnpassed(init, coin, w, b);
      LifetimeSnoc(init, f, coin, w, b);
      PassedSnoc(init, f, coin, w, b);
    }
  }

  /** A lifetime ends with the first fill that passes the bucket. */
  lemma {:induction false} LifetimeEndsAtOnce(h: seq<Fill>, coin: string, w: Window, b: int)
    requires Passed(h, coin, w, b)
    ensures var life := Lifetime(h, coin, w, b);
            life != [] && life <= h && Passed(life, coin, w, b) && !Passed(life[..|life| - 1], coin, w, b)
  {
    hide Passed;
    LifetimeUnpassed(h, coin, w, b);
    assert h != [] by { NothingPassedYet(coin, w, b); }
    if Passed(h[..|h| - 1], coin, w, b) {
      LifetimeEndsAtOnce(h[..|h| - 1], coin, w, b);
    }
  }

  lemma NothingPassedYet(coin: string, w: Window, b: int)
    ensures !Passed([], coin, w, b)
  {
  }

  /** A bucket's rows hold exactly the retained fills that fall in it. */
  lemma {:induction false} RowFillsAreRetained(h: seq<Fill>, coin: string, w: Window, b: int)
    ensures RowFills(h, coin, w, b) == Group(Retained(h, w), SlotOf(w), (coin, b))
  {
    hide Passed, Group, Lifetime, Retained, BucketStart;
    if h == [] {
      assert RowFills(h, coin, w, b) == Group(Retained(h, w), SlotOf(w), (coin, b)) by { NoRows(coin, w, b); }
    } else {
      var init, f := h[..|h| - 1], h[|h| - 1];
      SplitLast(h);
      RowFillsAreRetained(init, coin, w, b);
      RetainedSnoc(init, f, w);
      LifetimeSnoc(init, f, coin, w, b);
      LifetimeUnpassed(init, coin, w, b);
      BucketFillsSnoc(init, f, coin, w, b);
      GroupSnoc(Retained(init, w), f, SlotOf(w), (coin, b));
    }
  }

  lemma NoRows(coin: string, w: Window, b: int)
    ensures RowFills([], coin, w, b) == [] && Group(Retained([], w), SlotOf(w), (coin, b)) == []
  {
  }

  /** Every fill is either retained or dropped. */
  lemma {:induction false} RetainedAndDropped(h: seq<Fill>, w: Window, g: Fill -> real)
    ensures Sum(Retained(h, w), g) + Sum(Dropped(h, w), g) == Sum(h, g)
  {
    hide Late;
    if h != [] {
      var init, f := h[..|h| - 1], h[|h| - 1];
      RetainedAndDropped(init, w, g);
      SumSnoc(Retained(init, w), f, g);
      SumSnoc(Dropped(init, w), f, g);
    }
  }

  /** On a time-ordered stream nothing is late. */
  lemma {:induction false} TimeOrderedDropsNothing(h: seq<Fill>, w: Window)
    requires TimeOrdered(h)
    ensures Dropped(h, w) == [] && Retained(h, w) == h
  {
    hide OpenTs, BucketStart, Distinct;
    if h != [] {
      var init, f := h[..|h| - 1], h[|h| - 1];
      SplitLast(h);
      assert forall i :: 0 <= i < |init| ==> init[i] == h[i];
      TimeOrderedDropsNothing(init, w);
      if Late(init, f, w) {
        var x := OpenTsAttained(init, f.coin, w);
        BucketStartMono(x.tsMs, f.tsMs, w);
        assert false;
      }
    }
  }

  // ---------- closing ----------

  /** Every close of a whole run, in order. */
  function AllClosed(h: seq<Fill>): seq<Closed> {
    if |h| == 0 then []
    else AllClosed(h[..|h| - 1]) + ClosedBy(h[..|h| - 1], h[|h| - 1], |WINDOWS|)
  }

  lemma {:induction false} ClosedByMembers(h: seq<Fill>, f: Fill, i: nat)
    requires i <= |WINDOWS|
    ensures forall x :: x in ClosedBy(h, f, i) <==>
                        && x.coin == f.coin && x.window in WINDOWS[..i] && Rolls(h, f, x.window)
                        && x.snap == SnapAt(h + [f], f.coin, x.window, OpenTs(h, f.coin, x.window))
    ensures forall j, k :: 0 <= j < k < |ClosedBy(h, f, i)| ==>
                             ClosedBy(h, f, i)[j].window != ClosedBy(h, f, i)[k].window
  {
    hide Rolls, SnapAt, OpenTs;
    if i > 0 {
      ClosedByMembers(h, f, i - 1);
      assert WINDOWS[..i] == WINDOWS[..i - 1] + [WINDOWS[i - 1]];
      assert WINDOWS[i - 1] !in WINDOWS[..i - 1];
    }
  }

  /** A fill's closes come from the shortest window to the longest. */
  lemma {:induction false} ClosesByWindow(h: seq<Fill>, f: Fill, i: nat)
    requires i <= |WINDOWS|
    ensures forall x :: x in ClosedBy(h, f, i) ==> x.window.Turn() < i
    ensures forall j, k :: 0 <= j < k < |ClosedBy(h, f, i)| ==>
                             ClosedBy(h, f, i)[j].window.Turn() < ClosedBy(h, f, i)[k].window.Turn()
  {
    hide Rolls, SnapAt, OpenTs;
    if i > 0 {
      ClosesByWindow(h, f, i - 1);
      assert WINDOWS[i - 1].Turn() == i - 1;
    }
  }

  lemma AllWindows()
    ensures forall w: Window :: w in WINDOWS[..|WINDOWS|]
  {
    forall w: Window ensures w in WINDOWS[..|WINDOWS|] {
      match w
      case OneMin => assert WINDOWS[0] == w;
      case FiveMin => assert WINDOWS[1] == w;
      case OneHour => assert WINDOWS[2] == w;
    }
  }

  /**
   A bucket is closed exactly when it was opened and then passed, with the
   batch snapshot of everything it collected.
   */
  lemma {:induction false} ClosedExactlyWhenPassed(h: seq<Fill>)
    ensures forall x :: x in AllClosed(h) <==>
                        && Passed(h, x.coin, x.window, x.snap.bucketTs)
                        && RowFills(h, x.coin, x.window, x.snap.bucketTs) != []
                        && x.snap == RowSnap(h, x.coin, x.window, x.snap.bucketTs)
  {
    hide SnapAt, OpenTs, Passed, Rolls, Distinct, RowFills, RowSnap, ClosedBy, Lifetime;
    if h == [] {
      NothingPassed();
    } else {
      var init, f := h[..|h| - 1], h[|h| - 1];
      SplitLast(h);
      ClosedExactlyWhenPassed(init);
      forall x ensures x in AllClosed(h) <==> ClosedRow(h, x) {
        assert x in AllClosed(h) <==> x in AllClosed(init) || x in ClosedBy(init, f, |WINDOWS|);
        CloseStep(init, f, x);
      }
    }
  }

  lemma NothingPassed()
    ensures forall c, w, b :: !Passed([], c, w, b)
  {
  }

  ghost predicate ClosedRow(h: seq<Fill>, x: Closed) {
    && Passed(h, x.coin, x.window, x.snap.bucketTs)
    && RowFills(h, x.coin, x.window, x.snap.bucketTs) != []
    && x.snap == RowSnap(h, x.coin, x.window, x.snap.bucketTs)
  }

  lemma SnapAtKeepsStart(h: seq<Fill>, coin: string, w: Window, b: int)
    ensures SnapAt(h, coin, w, b).bucketTs == b
  {
  }

  lemma CloseStep(h: seq<Fill>, f: Fill, x: Closed)
    ensures ClosedRow(h + [f], x) <==> ClosedRow(h, x) || x in ClosedBy(h, f, |WINDOWS|)
  {
    hide SnapAt, OpenTs, Distinct, ClosedBy, Lifetime, BucketStart, BucketFills;
    var c, w, b := x.coin, x.window, x.snap.bucketTs;
    ClosedByMembers(h, f, |WINDOWS|);
    AllWindows();
    LifetimeSnoc(h, f, c, w, b);
    PassedSnoc(h, f, c, w, b);
    SnapAtKeepsStart(h + [f], c, w, OpenTs(h, c, w));
    LifetimeUnpassed(h, c, w, b);
    BucketFillsSnoc(h, f, c, w, b);
    if !Passed(h, c, w, b) && f.coin == c && BucketStart(f.tsMs, w) > b {
      OpenBucketOnly(h, c, w, b);
    }
  }

  /** Among the buckets not yet passed, only the open one has fills. */
  lemma OpenBucketOnly(h: seq<Fill>, coin: string, w: Window, b: int)
    requires !Passed(h, coin, w, b)
    ensures BucketFills(h, coin, w, b) != [] <==> coin in Distinct(h, CoinOf) && OpenTs(h, coin, w) == b
  {
    hide OpenTs, Distinct, BucketStart;
    if coin in Distinct(h, CoinOf) && OpenTs(h, coin, w) == b {
      var x := OpenTsAttained(h, coin, w);
      GroupMember(h, SlotOf(w), (coin, b), x);
    } else {
      NothingAbove(h, coin, w, b);
    }
  }

  ghost predicate InBucketOrder(cs: seq<Closed>) {
    forall i, j :: 0 <= i < j < |cs| && cs[i].coin == cs[j].coin && cs[i].window == cs[j].window ==>
      cs[i].snap.bucketTs < cs[j].snap.bucketTs
  }

  /** Each (coin, window) closes its buckets in strictly increasing order, so none closes twice. */
  lemma {:induction false} ClosesInOrder(h: seq<Fill>)
    ensures InBucketOrder(AllClosed(h))
  {
    hide SnapAt, OpenTs, Rolls, Distinct, RowFills, RowSnap, ClosedBy;
    if h != [] {
      var init, f := h[..|h| - 1], h[|h| - 1];
      ClosesInOrder(init);
      ClosedExactlyWhenPassed(init);
      var old', new' := AllClosed(init), ClosedBy(init, f, |WINDOWS|);
      var cs := AllClosed(h);
      ClosedByMembers(init, f, |WINDOWS|);
      forall i, j | 0 <= i < j < |cs| && cs[i].coin == cs[j].coin && cs[i].window == cs[j].window
        ensures cs[i].snap.bucketTs < cs[j].snap.bucketTs
      {
        assert cs == old' + new';
        if j < |old'| {
          assert cs[i] == old'[i] && cs[j] == old'[j];
        } else if i < |old'| {
          assert cs[i] in old' && new'[j - |old'|] in new';
          SnapAtKeepsStart(init + [f], f.coin, cs[j].window, OpenTs(init, f.coin, cs[j].window));
        }
      }
    }
  }

  // ---------- the newest closed bucket ----------

  /** Start of the newest bucket closed so far, if any. */
  function LastClosed(h: seq<Fill>, coin: string, w: Window): Option<int> {
    if |h| == 0 then None
    else
      var init, f := h[..|h| - 1], h[|h| - 1];
      if f.coin == coin && Rolls(init, f, w) then Some(OpenTs(init, coin, w)) else LastClosed(init, coin, w)
  }

  /** Did the bucket collect a fill and close? */
  predicate ClosedBucket(h: seq<Fill>, coin: string, w: Window, b: int) {
    Passed(h, coin, w, b) && RowFills(h, coin, w, b) != []
  }

  lemma ClosedBucketSnoc(h: seq<Fill>, f: Fill, coin: string, w: Window, b: int)
    ensures ClosedBucket(h + [f], coin, w, b) <==>
            ClosedBucket(h, coin, w, b) || (f.coin == coin && Rolls(h, f, w) && b == OpenTs(h, coin, w))
  {
    hide SnapAt, OpenTs, Distinct, Lifetime, BucketStart, BucketFills, ClosedBy, Passed, Rolls;
    var x := Closed(coin, w, RowSnap(h + [f], coin, w, b));
    SnapAtKeepsStart(Lifetime(h + [f], coin, w, b), coin, w, b);
    CloseStep(h, f, x);
    ClosedByMembers(h, f, |WINDOWS|);
    AllWindows();
    LifetimeSnoc(h, f, coin, w, b);
    SnapAtKeepsStart(h + [f], coin, w, OpenTs(h, coin, w));
    assert b == OpenTs(h, coin, w) ==> !Passed(h, coin, w, b) by { OpenIsUnpassed(h, coin, w); }
  }

  lemma OpenIsUnpassed(h: seq<Fill>, coin: string, w: Window)
    ensures !Passed(h, coin, w, OpenTs(h, coin, w))
  {
  }

  /** It is closed, older than the open bucket, and nothing newer is closed. */
  lemma {:induction false} LastClosedIsNewest(h: seq<Fill>, coin: string, w: Window)
    ensures LastClosed(h, coin, w).None? ==> forall b :: !ClosedBucket(h, coin, w, b)
    ensures LastClosed(h, coin, w).Some? ==>
              var last := LastClosed(h, coin, w).value;
              && ClosedBucket(h, coin, w, last)
              && (forall b :: ClosedBucket(h, coin, w, b) ==> b <= last)
              && coin in Distinct(h, CoinOf) && last < OpenTs(h, coin, w)
  {
    hide OpenTs, Distinct, RowFills;
    if h == [] {
      NothingPassed();
    } else {
      var init, f := h[..|h| - 1], h[|h| - 1];
      SplitLast(h);
      LastClosedIsNewest(init, coin, w);
      forall b ensures ClosedBucket(h, coin, w, b) <==>
                       ClosedBucket(init, coin, w, b) ||
                       (f.coin == coin && Rolls(init, f, w) && b == OpenTs(init, coin, w))
      {
        ClosedBucketSnoc(init, f, coin, w, b);
      }
      assert LastClosed(h, coin, w).Some? ==> ClosedBucket(h, coin, w, LastClosed(h, coin, w).value);
    }
  }

  /** The bucket open after the first m fills is still the open one. */
  predicate StillOpen(h: seq<Fill>, m: nat, coin: string, w: Window)
    requires m <= |h|
  {
    coin in Distinct(h[..m], CoinOf) && OpenTs(h[..m], coin, w) == OpenTs(h, coin, w)
  }

  /** Once a coin is traded its bucket stays open exactly until the next close. */
  lemma {:induction false} OpenUntilClosed(h: seq<Fill>, m: nat, coin: string, w: Window)
    requires m <= |h| && coin in Distinct(h[..m], CoinOf)
    ensures coin in Distinct(h, CoinOf) && OpenTs(h[..m], coin, w) <= OpenTs(h, coin, w)
    ensures StillOpen(h, m, coin, w) <==> LastClosed(h, coin, w) == LastClosed(h[..m], coin, w)
    ensures !StillOpen(h, m, coin, w) ==>
              LastClosed(h, coin, w).Some? && LastClosed(h, coin, w).value >= OpenTs(h[..m], coin, w)
  {
    hide OpenTs, Distinct, BucketStart;
    LastClosedIsNewest(h[..m], coin, w);
    if m == |h| {
      assert h[..m] == h;
    } else {
      var init, f := h[..|h| - 1], h[|h| - 1];
      SplitLast(h);
      assert init[..m] == h[..m];
      OpenUntilClosed(init, m, coin, w);
      OpenTsSnoc(init, f, coin, w);
      DistinctSnoc(init, f, CoinOf);
    }
  }
}
