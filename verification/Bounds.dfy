/** Ranges of the features of a bucket: concentration, flows, taker sides and imbalance. */
module Bounds {
  import opened Seqs
  import opened Fills
  import opened FeatureSpec
  import opened Reals

  function Square<K>(v: K -> real): K -> real { k => v(k) * v(k) }
  function Scaled<K>(v: K -> real, c: real): K -> real { k => v(k) * c }

  lemma {:induction false} SumScaled<K>(keys: seq<K>, v: K -> real, c: real)
    ensures Sum(keys, Scaled(v, c)) == Sum(keys, v) * c
  {
    if keys != [] {
      SumScaled(keys[..|keys| - 1], v, c);
    }
  }

  /** Cauchy-Schwarz against the constant vector. */
  lemma {:induction false} SquareOfSum<K>(keys: seq<K>, v: K -> real)
    ensures Sum(keys, v) * Sum(keys, v) <= |keys| as real * Sum(keys, Square(v))
  {
    if keys != [] {
      var init, y := keys[..|keys| - 1], v(keys[|keys| - 1]);
      SquareOfSum(init, v);
      AddTerm(|init|, Sum(init, v), Sum(init, Square(v)), y);
    }
  }

  lemma AddTerm(n: nat, s: real, q: real, y: real)
    requires s * s <= n as real * q
    requires n == 0 ==> s == 0.0 && q == 0.0
    ensures (s + y) * (s + y) <= (n + 1) as real * (q + y * y)
  {
    var m := n as real;
    assert (s + y) * (s + y) == s * s + 2.0 * s * y + y * y;
    assert (n + 1) as real * (q + y * y) == m * q + m * (y * y) + q + y * y;
    if n != 0 {
      assert m * (q + m * (y * y) - 2.0 * s * y) >= 0.0 by {
        assert (s - m * y) * (s - m * y) >= 0.0;
        assert (s - m * y) * (s - m * y) == s * s - 2.0 * m * s * y + m * m * y * y;
        assert m * (q + m * (y * y) - 2.0 * s * y) == m * q + m * m * y * y - 2.0 * m * s * y;
      }
      CancelPositive(m, q + m * (y * y) - 2.0 * s * y);
    }
  }

  lemma CancelPositive(m: real, x: real)
    requires m > 0.0 && m * x >= 0.0
    ensures x >= 0.0
  {
  }

  lemma {:induction false} SumOfSquares<K>(keys: seq<K>, v: K -> real)
    requires forall k :: k in keys ==> v(k) >= 0.0
    ensures Sum(keys, v) >= 0.0 && Sum(keys, Square(v)) <= Sum(keys, v) * Sum(keys, v)
  {
    if keys != [] {
      var init, y := keys[..|keys| - 1], v(keys[|keys| - 1]);
      SplitLast(keys);
      SumOfSquares(init, v);
      var s := Sum(init, v);
      assert (s + y) * (s + y) == s * s + 2.0 * (s * y) + y * y;
      assert s * y >= 0.0;
    }
  }

  /** The Herfindahl index lies between an even split and a single holder. */
  lemma HhiRange(flows: Flows)
    requires GrossFlow(flows) > 0.0
    ensures |flows.keys| > 0 && 1.0 / |flows.keys| as real <= Hhi(flows) <= 1.0
  {
    hide Sum, Square, Scaled, ShareSquaredIn, AbsFlowIn;
    var gross, keys, n := GrossFlow(flows), flows.keys, |flows.keys|;
    var shares := Scaled(AbsFlowIn(flows), 1.0 / gross);
    SumScaled(keys, AbsFlowIn(flows), 1.0 / gross);
    assert Sum(keys, shares) == 1.0 by { DivideSelf(gross); }
    SquareOfSum(keys, shares);
    SharesNonNegative(flows, gross);
    SumOfSquares(keys, shares);
    SumSame(keys, ShareSquaredIn(flows, gross), Square(shares));
    assert 1.0 <= n as real * Hhi(flows);
    PositiveFactor(n, Hhi(flows));
    DivideBound(n as real, Hhi(flows));
  }

  /** Every share is squared: undoing the division by gross flow leaves the sum of squared flows. */
  lemma HhiTimesGross(flows: Flows)
    ensures Hhi(flows) * GrossFlow(flows) * GrossFlow(flows) == Sum(flows.keys, Square(FlowIn(flows)))
  {
    hide Sum;
    var keys, gross := flows.keys, GrossFlow(flows);
    GrossNonNegative(flows);
    if gross > 0.0 {
      var shares := ShareSquaredIn(flows, gross);
      forall k ensures Scaled(shares, gross * gross)(k) == Square(FlowIn(flows))(k) {
        ShareBack(Abs(flows.GetOr(k, 0.0)), gross);
      }
      SumScaled(keys, shares, gross * gross);
      SumSame(keys, Scaled(shares, gross * gross), Square(FlowIn(flows)));
    } else {
      ZeroSum(keys, AbsFlowIn(flows));
      SumZero(keys, Square(FlowIn(flows)));
    }
  }

  lemma ShareBack(x: real, gross: real)
    requires gross > 0.0
    ensures (x / gross) * (x / gross) * (gross * gross) == x * x
  {
    DivideBack(x, gross);
    var q := x / gross;
    assert q * q * (gross * gross) == (q * gross) * (q * gross);
  }

  /** A sum of non-negative terms is 0 only if every term is. */
  lemma {:induction false} ZeroSum<K>(keys: seq<K>, v: K -> real)
    requires forall k :: k in keys ==> v(k) >= 0.0
    ensures Sum(keys, v) >= 0.0
    ensures Sum(keys, v) == 0.0 <==> forall k :: k in keys ==> v(k) == 0.0
  {
    if keys != [] {
      SplitLast(keys);
      ZeroSum(keys[..|keys| - 1], v);
      assert keys[|keys| - 1] in keys;
    }
  }

  /** At most one key has a non-zero value. */
  ghost predicate AtMostOne<K(!new)>(keys: seq<K>, v: K -> real) {
    forall j, k :: j in keys && k in keys && v(j) != 0.0 && v(k) != 0.0 ==> j == k
  }

  lemma AtMostOneSnoc<K(!new)>(keys: seq<K>, k: K, v: K -> real)
    requires k !in keys
    ensures AtMostOne(keys + [k], v) <==>
            AtMostOne(keys, v) && (v(k) == 0.0 || forall j :: j in keys ==> v(j) == 0.0)
  {
    var keys' := keys + [k];
    assert forall j :: j in keys' <==> j in keys || j == k;
    if AtMostOne(keys', v) && v(k) != 0.0 {
      assert k in keys';
      forall j | j in keys ensures v(j) == 0.0 {
        assert j in keys';
      }
    }
  }

  ghost predicate SquaresAddUp<K>(keys: seq<K>, v: K -> real) {
    Sum(keys, Square(v)) == Sum(keys, v) * Sum(keys, v)
  }

  /** The square of a sum is the sum of the squares exactly when at most one term counts. */
  lemma {:induction false} OneTermCounts<K(!new)>(keys: seq<K>, v: K -> real)
    requires NoDup(keys) && forall k :: k in keys ==> v(k) >= 0.0
    ensures SquaresAddUp(keys, v) <==> AtMostOne(keys, v)
  {
    if keys == [] {
      assert Sum(keys, Square(v)) == 0.0 && Sum(keys, v) == 0.0;
    } else {
      hide SquaresAddUp, AtMostOne;
      var init, last := keys[..|keys| - 1], keys[|keys| - 1];
      SplitLast(keys);
      assert last in keys && last !in init;
      OneTermCounts(init, v);
      OneMoreTerm(init, last, v);
    }
  }

  lemma OneMoreTerm<K(!new)>(keys: seq<K>, k: K, v: K -> real)
    requires k !in keys && v(k) >= 0.0 && forall j :: j in keys ==> v(j) >= 0.0
    requires SquaresAddUp(keys, v) <==> AtMostOne(keys, v)
    ensures SquaresAddUp(keys + [k], v) <==> AtMostOne(keys + [k], v)
  {
    hide AtMostOne, Sum;
    SumOfSquares(keys, v);
    ZeroSum(keys, v);
    AtMostOneSnoc(keys, k, v);
    SumSnoc(keys, k, v);
    SumSnoc(keys, k, Square(v));
    CrossTerm(Sum(keys, v), Sum(keys, Square(v)), v(k));
  }

  lemma CrossTerm(s: real, q: real, y: real)
    requires s >= 0.0 && y >= 0.0 && q <= s * s
    ensures q + y * y == (s + y) * (s + y) <==> q == s * s && (s == 0.0 || y == 0.0)
  {
    assert (s + y) * (s + y) == s * s + 2.0 * (s * y) + y * y;
    assert s > 0.0 && y > 0.0 ==> s * y > 0.0;
  }

  /** The index is 1 exactly when one wallet has all the flow. */
  lemma HhiIsOne(flows: Flows)
    requires NoDup(flows.keys) && GrossFlow(flows) > 0.0
    ensures Hhi(flows) == 1.0 <==> AtMostOne(flows.keys, FlowIn(flows))
  {
    hide Sum, Hhi;
    var keys, v, gross := flows.keys, AbsFlowIn(flows), GrossFlow(flows);
    HhiTimesGross(flows);
    OneTermCounts(keys, v);
    SumSame(keys, Square(v), Square(FlowIn(flows)));
    assert forall k :: v(k) == 0.0 <==> FlowIn(flows)(k) == 0.0;
    assert AtMostOne(keys, v) <==> AtMostOne(keys, FlowIn(flows));
    NormIsOne(Hhi(flows), gross, Sum(keys, Square(v)));
  }

  lemma NormIsOne(x: real, y: real, q: real)
    requires y > 0.0 && x * y * y == q
    ensures x == 1.0 <==> q == y * y
  {
    var z := x * y - y;
    assert z * y == q - y * y;
    ProductSign(z, y);
    assert (x - 1.0) * y == z;
    ProductSign(x - 1.0, y);
  }

  lemma SharesNonNegative(flows: Flows, gross: real)
    requires gross > 0.0
    ensures var shares := Scaled(AbsFlowIn(flows), 1.0 / gross);
            forall k :: shares(k) >= 0.0 && ShareSquaredIn(flows, gross)(k) == Square(shares)(k)
  {
    var shares := Scaled(AbsFlowIn(flows), 1.0 / gross);
    forall k ensures shares(k) >= 0.0 && ShareSquaredIn(flows, gross)(k) == Square(shares)(k) {
      TimesInverse(AbsFlowIn(flows)(k), gross);
    }
  }

  lemma PositiveFactor(n: nat, x: real)
    requires 1.0 <= n as real * x
    ensures n > 0
  {
  }

  lemma TimesInverse(x: real, y: real)
    requires y > 0.0
    ensures x / y == x * (1.0 / y)
    ensures x >= 0.0 ==> x * (1.0 / y) >= 0.0
  {
  }

  lemma DivideSelf(x: real)
    requires x > 0.0
    ensures x * (1.0 / x) == 1.0
  {
  }

  lemma DivideBound(n: real, x: real)
    requires n > 0.0 && 1.0 <= n * x
    ensures 1.0 / n <= x
  {
    assert n * (x - 1.0 / n) == n * x - 1.0;
  }

  lemma GrossNonNegative(flows: Flows)
    ensures GrossFlow(flows) >= 0.0
  {
    SumNonNegative(flows.keys, AbsFlowIn(flows));
  }

  lemma WeightInUnit(s: WalletStats)
    ensures 0.0 <= s.Weight() <= 1.0
  {
  }

  /** The archetypes without division: thresholds on net against gross volume and on maker fills. */
  lemma ArchetypeThresholds(s: WalletStats)
    ensures s.Archetype() == MarketMaker <==>
            && s.grossVolume > 0.0 && Abs(s.signedVolume) < 0.15 * s.grossVolume
            && s.closes as real > 0.6 * (s.opens + s.closes) as real
    ensures s.Archetype() == Directional <==> s.grossVolume > 0.0 && Abs(s.signedVolume) > 0.4 * s.grossVolume
    ensures s.Weight() == 0.0 <==> s.Archetype() == MarketMaker
    ensures s.Weight() == 1.0 <==> s.Archetype() == Directional && s.cumPnl > 0.0
  {
    var fills := if s.opens + s.closes != 0 then s.opens + s.closes else 1;
    QuotientAbove(s.closes as real, fills as real, 0.6);
    if s.grossVolume > 0.0 {
      QuotientAbove(Abs(s.signedVolume), s.grossVolume, 0.4);
      QuotientAbove(Abs(s.signedVolume), s.grossVolume, 0.15);
    }
  }

  /** What every archetype weighs, with and without profit. */
  lemma WeightValues(s: WalletStats)
    ensures s.Archetype() == MarketMaker ==> s.Weight() == 0.0
    ensures s.Archetype() == Directional ==> s.Weight() == if s.cumPnl > 0.0 then 1.0 else 0.25
    ensures s.Archetype() == Mixed ==> s.Weight() == if s.cumPnl > 0.0 then 0.5 else 0.125
  {
    hide WalletStats.Archetype;
  }

  lemma QuotientAbove(x: real, y: real, c: real)
    requires y > 0.0
    ensures x / y > c <==> x > c * y
    ensures x / y < c <==> x < c * y
  {
    var d := x / y - c;
    assert d * y == x - c * y;
    ProductSign(d, y);
  }

  /** A sum is no larger in magnitude than the sum of bounds on its terms. */
  lemma {:induction false} SumWithin<K>(keys: seq<K>, v: K -> real, bound: K -> real)
    requires forall k :: k in keys ==> Abs(v(k)) <= bound(k)
    ensures Abs(Sum(keys, v)) <= Sum(keys, bound)
  {
    if keys != [] {
      SplitLast(keys);
      SumWithin(keys[..|keys| - 1], v, bound);
    }
  }

  /** Large flow is bounded by the gross flow. */
  lemma LargeFlowWithinGross(flows: Flows)
    ensures Abs(Sum(Filter(flows.keys, IsLargeIn(flows)), FlowIn(flows))) <= GrossFlow(flows)
  {
    SumWithin(Filter(flows.keys, IsLargeIn(flows)), FlowIn(flows), AbsFlowIn(flows));
    SumFilterAtMost(flows.keys, IsLargeIn(flows), AbsFlowIn(flows));
  }

  /** So is smart flow, because every weight is in [0, 1]. */
  lemma SmartFlowWithinGross(flows: Flows, weights: map<string, real>)
    requires forall a :: a in weights ==> 0.0 <= weights[a] <= 1.0
    ensures Abs(Sum(flows.keys, SmartFlowIn(flows, weights))) <= GrossFlow(flows)
  {
    forall a ensures Abs(SmartFlowIn(flows, weights)(a)) <= AbsFlowIn(flows)(a) {
      WeightShrinks(flows.GetOr(a, 0.0), if a in weights then weights[a] else 0.0);
    }
    SumWithin(flows.keys, SmartFlowIn(flows, weights), AbsFlowIn(flows));
  }

  lemma WeightShrinks(v: real, w: real)
    requires 0.0 <= w <= 1.0
    ensures Abs(v * w) <= Abs(v)
  {
  }

  lemma NotionalsOf(fs: seq<Fill>)
    requires NonNegative(fs)
    ensures forall f :: f in fs ==> NotionalOf(f) >= 0.0 && Abs(SignedNotionalOf(f)) == NotionalOf(f)
  {
  }

  /** Netting a wallet's buys against its sells never exceeds what it traded. */
  lemma {:induction false} GrossWithinVolume(fs: seq<Fill>)
    requires NonNegative(fs)
    ensures GrossFlow(FlowsOf(fs)) <= Sum(fs, NotionalOf)
  {
    hide Sum, Group, Distinct, Fill.Notional, SignedNotionalOf;
    var addrs, flows := Distinct(fs, AddrOf), FlowsOf(fs);
    NotionalsOf(fs);
    forall a | a in addrs ensures AbsFlowIn(flows)(a) <= GroupTotal(fs, AddrOf, NotionalOf)(a) {
      var g := Group(fs, AddrOf, a);
      forall f | f in g ensures Abs(SignedNotionalOf(f)) <= NotionalOf(f) {
        GroupMember(fs, AddrOf, a, f);
      }
      SumWithin(g, SignedNotionalOf, NotionalOf);
    }
    SumMono(addrs, AbsFlowIn(flows), GroupTotal(fs, AddrOf, NotionalOf));
    GroupsAddUp(fs, AddrOf, NotionalOf);
  }

  lemma {:induction false} TakerSidesWithinVolume(fs: seq<Fill>)
    requires NonNegative(fs)
    ensures var buy := Sum(Filter(fs, TakerBuy), NotionalOf);
            var sell := Sum(Filter(fs, TakerSell), NotionalOf);
            0.0 <= buy && 0.0 <= sell && buy + sell <= Sum(fs, NotionalOf)
  {
    hide Sum, Fill.Notional;
    NotionalsOf(fs);
    FilterMembers(fs, TakerBuy);
    FilterMembers(fs, TakerSell);
    FilterMembers(fs, Taker);
    SumNonNegative(Filter(fs, TakerBuy), NotionalOf);
    SumNonNegative(Filter(fs, TakerSell), NotionalOf);
    SumSplit(fs, TakerBuy, TakerSell, Taker, NotionalOf);
    SumFilterAtMost(fs, Taker, NotionalOf);
  }

  /** A filter that is the disjoint union of two others sums to their sums. */
  lemma {:induction false} SumSplit<T>(s: seq<T>, p: T -> bool, q: T -> bool, r: T -> bool, g: T -> real)
    requires forall x :: r(x) == (p(x) || q(x)) && !(p(x) && q(x))
    ensures Sum(Filter(s, r), g) == Sum(Filter(s, p), g) + Sum(Filter(s, q), g)
  {
    if s != [] {
      var init, last := s[..|s| - 1], s[|s| - 1];
      SumSplit(init, p, q, r, g);
      SumSnoc(Filter(init, p), last, g);
      SumSnoc(Filter(init, q), last, g);
      SumSnoc(Filter(init, r), last, g);
    }
  }

  lemma ImbalanceRange(buy: real, sell: real)
    requires buy >= 0.0 && sell >= 0.0
    ensures -1.0 <= Imbalance(buy, sell) <= 1.0
  {
    if buy + sell > 0.0 {
      QuotientRange(buy - sell, buy + sell);
    }
  }

  lemma QuotientRange(x: real, y: real)
    requires y > 0.0 && -y <= x <= y
    ensures -1.0 <= x / y <= 1.0
  {
    OrderedQuotients(-y, x, y);
    OrderedQuotients(x, y, y);
  }

  lemma OrderedQuotients(x: real, z: real, y: real)
    requires y > 0.0 && x <= z
    ensures x / y <= z / y
  {
    var d := z / y - x / y;
    assert d * y == z - x;
    CancelPositive(y, d);
  }

  /** The sign of the imbalance says which taker side is larger. */
  lemma ImbalanceSign(buy: real, sell: real)
    requires buy >= 0.0 && sell >= 0.0
    ensures Imbalance(buy, sell) > 0.0 <==> buy > sell
    ensures Imbalance(buy, sell) < 0.0 <==> buy < sell
    ensures buy + sell > 0.0 ==> Imbalance(buy, sell) * (buy + sell) == buy - sell
  {
    if buy + sell > 0.0 {
      var q := Imbalance(buy, sell);
      assert q * (buy + sell) == buy - sell;
      ProductSign(q, buy + sell);
    }
  }

  lemma ProductSign(q: real, y: real)
    requires y > 0.0
    ensures q * y > 0.0 <==> q > 0.0
    ensures q * y < 0.0 <==> q < 0.0
  {
  }

  lemma {:induction false} SidesOfTakers(fs: seq<Fill>)
    ensures Sum(Filter(fs, TakerBuy), NotionalOf) - Sum(Filter(fs, TakerSell), NotionalOf) ==
            Sum(Filter(fs, Taker), SignedNotionalOf)
    ensures Sum(Filter(fs, TakerBuy), NotionalOf) + Sum(Filter(fs, TakerSell), NotionalOf) ==
            Sum(Filter(fs, Taker), NotionalOf)
  {
    hide Fill.Notional;
    if fs != [] {
      var init, f := fs[..|fs| - 1], fs[|fs| - 1];
      SidesOfTakers(init);
      SumSnoc(Filter(init, TakerBuy), f, NotionalOf);
      SumSnoc(Filter(init, TakerSell), f, NotionalOf);
      SumSnoc(Filter(init, Taker), f, NotionalOf);
      SumSnoc(Filter(init, Taker), f, SignedNotionalOf);
    }
  }

  /** Which side is which: the taker sides add up to the takers' notional and differ by its signed sum. */
  lemma TakerSidesMean(b: int, fs: seq<Fill>, h: seq<Fill>)
    ensures var s := SnapshotOf(b, fs, h);
            var signed, total := Sum(Filter(fs, Taker), SignedNotionalOf), Sum(Filter(fs, Taker), NotionalOf);
            && s.takerBuy - s.takerSell == signed && s.takerBuy + s.takerSell == total
            && (total > 0.0 ==> s.imbalance * total == signed)
  {
    hide Sum, Filter, FlowsOf, Hhi, WeightsAt;
    SidesOfTakers(fs);
    var s := SnapshotOf(b, fs, h);
    if s.takerBuy + s.takerSell > 0.0 {
      DivideBack(s.takerBuy - s.takerSell, s.takerBuy + s.takerSell);
    }
  }

  function IsSmallIn(flows: Flows): string -> bool { a => Abs(flows.GetOr(a, 0.0)) < LARGE_NOTIONAL }
  function AnyWallet(): string -> bool { a => true }

  /** The wallets' net flows add up to the bucket's net notional, split between large and other wallets. */
  lemma {:induction false} FlowsAddUp(fs: seq<Fill>)
    ensures var flows := FlowsOf(fs);
            && Sum(flows.keys, FlowIn(flows)) == Sum(fs, SignedNotionalOf)
            && Sum(Filter(flows.keys, IsLargeIn(flows)), FlowIn(flows)) +
               Sum(Filter(flows.keys, IsSmallIn(flows)), FlowIn(flows)) == Sum(fs, SignedNotionalOf)
  {
    hide Sum, Filter, Distinct, Group, SignedNotionalOf;
    var flows := FlowsOf(fs);
    GroupsAddUp(fs, AddrOf, SignedNotionalOf);
    SumSame(flows.keys, FlowIn(flows), GroupTotal(fs, AddrOf, SignedNotionalOf));
    SumSplit(flows.keys, IsLargeIn(flows), IsSmallIn(flows), AnyWallet(), FlowIn(flows));
    FilterAll(flows.keys, AnyWallet());
  }

  lemma {:induction false} FilterAll<T>(s: seq<T>, p: T -> bool)
    requires forall x :: p(x)
    ensures Filter(s, p) == s
  {
    if s != [] {
      SplitLast(s);
      FilterAll(s[..|s| - 1], p);
    }
  }

  /** What every snapshot of a bucket of non-negative fills keeps, whatever the wallets weigh. */
  ghost predicate InRange(s: Snapshot, gross: real) {
    && 0.0 <= gross <= s.volume
    && 0.0 <= s.takerBuy && 0.0 <= s.takerSell && s.takerBuy + s.takerSell <= s.volume
    && -1.0 <= s.imbalance <= 1.0
    && (gross > 0.0 ==> s.activeWallets > 0 && 1.0 / s.activeWallets as real <= s.hhi <= 1.0)
    && (gross == 0.0 ==> s.hhi == 0.0)
    && Abs(s.largeFlow) <= gross && Abs(s.smartFlow) <= gross
  }

  /** Every bucket the engine can reach stays in range. */
  lemma SnapshotInRange(b: int, fs: seq<Fill>, h: seq<Fill>)
    requires NonNegative(fs)
    ensures InRange(SnapshotOf(b, fs, h), GrossFlow(FlowsOf(fs)))
  {
    hide Sum, Filter, Distinct, Group, FlowsOf, GrossFlow;
    var flows, weights := FlowsOf(fs), WeightsAt(h, Distinct(fs, AddrOf));
    GrossNonNegative(flows);
    GrossWithinVolume(fs);
    TakerSidesWithinVolume(fs);
    ImbalanceRange(Sum(Filter(fs, TakerBuy), NotionalOf), Sum(Filter(fs, TakerSell), NotionalOf));
    if GrossFlow(flows) > 0.0 {
      HhiRange(flows);
    }
    LargeFlowWithinGross(flows);
    forall a | a in weights ensures 0.0 <= weights[a] <= 1.0 {
      WeightInUnit(WalletOf(Group(h, AddrOf, a)));
    }
    SmartFlowWithinGross(flows, weights);
  }
}
