/**
 Which bucket is open, and what may still reach it: facts about bucket starts
 and the newest fill of a coin.
 */
module Windows {
  import opened Seqs
  import opened Fills
  import opened FeatureSpec

  lemma BucketStartMono(s: int, t: int, w: Window)
    requires s <= t
    ensures BucketStart(s, w) <= BucketStart(t, w)
  {
    assert s / 1000 <= t / 1000;
    match w
    case OneMin => assert s / 1000 / 60 <= t / 1000 / 60;
    case FiveMin => assert s / 1000 / 300 <= t / 1000 / 300;
    case OneHour => assert s / 1000 / 3600 <= t / 1000 / 3600;
  }

  /** The length of a window, in seconds. */
  lemma WindowLengths()
    ensures OneMin.Size() == 60 && FiveMin.Size() == 300 && OneHour.Size() == 3600
  {
  }

  lemma FloorSpan(s: int, n: int)
    requires n > 0
    ensures s / n * n % n == 0 && s / n * n <= s < s / n * n + n
  {
    assert s == s / n * n + s % n;
    MultipleOf(s / n, n);
  }

  lemma MultipleOf(q: int, n: int)
    requires n > 0
    ensures q * n % n == 0
  {
    assert q * n == q * n / n * n + q * n % n;
    var d := q - q * n / n;
    assert d * n == q * n % n;
    FarMultiple(d, n);
  }

  lemma FarMultiple(d: int, n: int)
    requires n > 0
    ensures d > 0 ==> d * n >= n
    ensures d < 0 ==> d * n <= -n
  {
  }

  lemma SameMultiple(a: int, b: int, n: int)
    requires n > 0 && a % n == 0 && b % n == 0 && a - n < b < a + n
    ensures a == b
  {
    var d := a / n - b / n;
    assert a - b == d * n;
    FarMultiple(d, n);
  }

  /** A bucket starts at a multiple of its window's length and spans exactly that many seconds. */
  lemma BucketSpan(tsMs: int, w: Window)
    ensures var secs := if w == OneMin then 60 else if w == FiveMin then 300 else 3600;
            BucketStart(tsMs, w) % secs == 0 && BucketStart(tsMs, w) <= tsMs / 1000 < BucketStart(tsMs, w) + secs
  {
    var second := tsMs / 1000;
    FloorSpan(second, w.Size());
  }

  /** So a time lies in the bucket at b exactly when it is among its seconds. */
  lemma InBucket(tsMs: int, w: Window, b: int)
    ensures var secs := if w == OneMin then 60 else if w == FiveMin then 300 else 3600;
            BucketStart(tsMs, w) == b <==> b % secs == 0 && b <= tsMs / 1000 < b + secs
  {
    hide BucketStart;
    BucketSpan(tsMs, w);
    var secs := if w == OneMin then 60 else if w == FiveMin then 300 else 3600;
    if b % secs == 0 && b <= tsMs / 1000 < b + secs {
      SameMultiple(BucketStart(tsMs, w), b, secs);
    }
  }

  lemma LatestTsSnoc(fs: seq<Fill>, f: Fill)
    ensures LatestTs(fs + [f]) == if fs == [] || LatestTs(fs) < f.tsMs then f.tsMs else LatestTs(fs)
  {
    assert (fs + [f])[..|fs|] == fs;
  }

  lemma {:induction false} LatestTsIsMax(fs: seq<Fill>)
    ensures forall x :: x in fs ==> x.tsMs <= LatestTs(fs)
    ensures fs != [] ==> exists x :: x in fs && x.tsMs == LatestTs(fs)
  {
    if fs != [] {
      var init, last := fs[..|fs| - 1], fs[|fs| - 1];
      SplitLast(fs);
      LatestTsSnoc(init, last);
      LatestTsIsMax(init);
      assert last in fs;
    }
  }

  lemma OpenTsBounds(h: seq<Fill>, x: Fill, w: Window)
    requires x in h
    ensures BucketStart(x.tsMs, w) <= OpenTs(h, x.coin, w)
  {
    GroupMember(h, CoinOf, x.coin, x);
    LatestTsIsMax(Group(h, CoinOf, x.coin));
    BucketStartMono(x.tsMs, LatestTs(Group(h, CoinOf, x.coin)), w);
  }

  lemma OpenTsAttained(h: seq<Fill>, coin: string, w: Window) returns (x: Fill)
    requires coin in Distinct(h, CoinOf)
    ensures x in h && x.coin == coin && BucketStart(x.tsMs, w) == OpenTs(h, coin, w)
  {
    GroupNonEmpty(h, CoinOf, coin);
    LatestTsIsMax(Group(h, CoinOf, coin));
    x :| x in Group(h, CoinOf, coin) && x.tsMs == LatestTs(Group(h, CoinOf, coin));
    GroupMember(h, CoinOf, coin, x);
  }

  /** The open bucket spans the second of the coin's newest fill. */
  lemma OpenBucketSpan(h: seq<Fill>, coin: string, w: Window) returns (x: Fill)
    requires exists f :: f in h && f.coin == coin
    ensures x in h && x.coin == coin && forall f :: f in h && f.coin == coin ==> f.tsMs <= x.tsMs
    ensures var secs := if w == OneMin then 60 else if w == FiveMin then 300 else 3600;
            OpenTs(h, coin, w) % secs == 0 && OpenTs(h, coin, w) <= x.tsMs / 1000 < OpenTs(h, coin, w) + secs
  {
    hide BucketStart, LatestTs, Filter;
    var f :| f in h && f.coin == coin;
    GroupMember(h, CoinOf, coin, f);
    var fs := Group(h, CoinOf, coin);
    LatestTsIsMax(fs);
    x :| x in fs && x.tsMs == LatestTs(fs);
    forall y ensures y in fs <==> y in h && y.coin == coin {
      GroupMember(h, CoinOf, coin, y);
    }
    BucketSpan(x.tsMs, w);
  }

  /** The fills of a bucket are those of its coin in its seconds, in stream order. */
  lemma BucketHolds(h: seq<Fill>, coin: string, w: Window, b: int, p: Fill -> bool)
    requires var secs := if w == OneMin then 60 else if w == FiveMin then 300 else 3600;
             forall f :: p(f) <==> f.coin == coin && b % secs == 0 && b <= f.tsMs / 1000 < b + secs
    ensures BucketFills(h, coin, w, b) == Filter(h, p)
  {
    hide BucketStart;
    forall f ensures p(f) == KeyIs(SlotOf(w), (coin, b))(f) {
      InBucket(f.tsMs, w, b);
    }
    FilterSame(h, p, KeyIs(SlotOf(w), (coin, b)));
  }

  /** A fill moves the open bucket of its own coin forward, never back, and no other. */
  lemma OpenTsSnoc(h: seq<Fill>, f: Fill, coin: string, w: Window)
    ensures f.coin != coin ==> OpenTs(h + [f], coin, w) == OpenTs(h, coin, w)
    ensures f.coin == coin && coin !in Distinct(h, CoinOf) ==> OpenTs(h + [f], coin, w) == BucketStart(f.tsMs, w)
    ensures f.coin == coin && coin in Distinct(h, CoinOf) ==>
              OpenTs(h + [f], coin, w) ==
              if OpenTs(h, coin, w) < BucketStart(f.tsMs, w) then BucketStart(f.tsMs, w) else OpenTs(h, coin, w)
  {
    var g := Group(h, CoinOf, coin);
    GroupSnoc(h, f, CoinOf, coin);
    GroupNonEmpty(h, CoinOf, coin);
    LatestTsSnoc(g, f);
    if f.tsMs <= LatestTs(g) {
      BucketStartMono(f.tsMs, LatestTs(g), w);
    } else {
      BucketStartMono(LatestTs(g), f.tsMs, w);
    }
  }

  /** No fill lies in a bucket newer than the open one. */
  lemma NothingAbove(h: seq<Fill>, coin: string, w: Window, b: int)
    requires coin in Distinct(h, CoinOf) ==> OpenTs(h, coin, w) < b
    ensures BucketFills(h, coin, w, b) == []
  {
    var fs := BucketFills(h, coin, w, b);
    if fs != [] {
      var x := fs[0];
      GroupMember(h, SlotOf(w), (coin, b), x);
      DistinctMembers(h, CoinOf);
      OpenTsBounds(h, x, w);
    }
  }

  lemma BucketFillsSnoc(h: seq<Fill>, f: Fill, coin: string, w: Window, b: int)
    ensures BucketFills(h + [f], coin, w, b) ==
            if f.coin == coin && BucketStart(f.tsMs, w) == b then BucketFills(h, coin, w, b) + [f]
            else BucketFills(h, coin, w, b)
  {
    GroupSnoc(h, f, SlotOf(w), (coin, b));
  }

  lemma OpenKeysSnoc(coins: seq<string>, c: string)
    ensures OpenKeys(coins + [c]) == OpenKeys(coins) + [(c, OneMin), (c, FiveMin), (c, OneHour)]
  {
    assert (coins + [c])[..|coins|] == coins;
  }

  lemma WindowsOf(c: string)
    ensures forall k :: k in [(c, OneMin), (c, FiveMin), (c, OneHour)] <==> k.0 == c
    ensures NoDup([(c, OneMin), (c, FiveMin), (c, OneHour)])
  {
    var keys := [(c, OneMin), (c, FiveMin), (c, OneHour)];
    forall w: Window ensures (c, w) in keys {
      match w
      case OneMin => assert keys[0] == (c, w);
      case FiveMin => assert keys[1] == (c, w);
      case OneHour => assert keys[2] == (c, w);
    }
  }

  lemma NoDupConcat<T>(s: seq<T>, t: seq<T>)
    requires NoDup(s) && NoDup(t) && forall x :: x in s ==> x !in t
    ensures NoDup(s + t)
  {
    var u := s + t;
    forall i, j | 0 <= i < j < |u| ensures u[i] != u[j] {
      if i < |s| <= j {
        assert s[i] in s && t[j - |s|] in t;
      }
    }
  }

  lemma {:induction false} OpenKeysMembers(coins: seq<string>)
    ensures |OpenKeys(coins)| == 3 * |coins|
    ensures forall k :: k in OpenKeys(coins) <==> k.0 in coins
    ensures NoDup(coins) ==> NoDup(OpenKeys(coins))
  {
    if coins != [] {
      var init, c := coins[..|coins| - 1], coins[|coins| - 1];
      SplitLast(coins);
      OpenKeysMembers(init);
      var keys := [(c, OneMin), (c, FiveMin), (c, OneHour)];
      WindowsOf(c);
      assert OpenKeys(coins) == OpenKeys(init) + keys;
      if NoDup(coins) {
        assert c !in init;
        NoDupConcat(OpenKeys(init), keys);
      }
    }
  }

  /** Coins in order of first appearance, and for each its three windows from the shortest on. */
  lemma {:induction false} OpenKeysAt(coins: seq<string>, i: nat)
    requires i < |coins|
    ensures |OpenKeys(coins)| == 3 * |coins|
    ensures OpenKeys(coins)[3 * i] == (coins[i], OneMin)
    ensures OpenKeys(coins)[3 * i + 1] == (coins[i], FiveMin)
    ensures OpenKeys(coins)[3 * i + 2] == (coins[i], OneHour)
  {
    var init := coins[..|coins| - 1];
    SplitLast(coins);
    OpenKeysSnoc(init, coins[|coins| - 1]);
    OpenKeysMembers(init);
    if i < |init| {
      OpenKeysAt(init, i);
    }
  }

  /** The open snapshots are those of the seen coins, in every window. */
  lemma OpenSnapshotsMembers(h: seq<Fill>)
    ensures |OpenSnapshots(h)| == 3 * |Distinct(h, CoinOf)|
    ensures forall x :: x in OpenSnapshots(h) <==>
                        x.coin in Distinct(h, CoinOf) &&
                        x.snap == SnapAt(h, x.coin, x.window, OpenTs(h, x.coin, x.window))
  {
    hide SnapAt, OpenTs, Distinct;
    var coins := Distinct(h, CoinOf);
    var keys := OpenKeys(coins);
    OpenKeysMembers(coins);
    forall x: Closed ensures x in OpenSnapshots(h) <==>
                     x.coin in coins && x.snap == SnapAt(h, x.coin, x.window, OpenTs(h, x.coin, x.window))
    {
      if x.coin in coins && x.snap == SnapAt(h, x.coin, x.window, OpenTs(h, x.coin, x.window)) {
        assert (x.coin, x.window) in keys;
        var i :| 0 <= i < |keys| && keys[i] == (x.coin, x.window);
        assert OpenSnapshots(h)[i] == x;
      }
    }
  }
}
