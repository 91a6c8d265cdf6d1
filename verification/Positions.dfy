/**
 Average-cost accounting: what the entry price of a (wallet, coin) position means.
 No sign is assumed of prices or sizes.
 */
module Positions {
  import opened Seqs
  import opened Fills
  import opened FeatureSpec
  import opened Reals

  /** Signed cash paid for the fills. */
  function CashOf(f: Fill): real { f.SignedSz() * f.px }

  /** The size a fill takes off a position: nothing when it opens or grows it, the whole of it on a flip. */
  function Closed(net: real, d: real): real {
    if d == 0.0 || Grows(net, d) then 0.0
    else if Flips(net, d) then net
    else -d
  }

  /** Average-cost gains: every closed unit earns its fill's price less the entry price it had. */
  function Gains(fs: seq<Fill>): real {
    if |fs| == 0 then 0.0
    else
      var init, f := fs[..|fs| - 1], fs[|fs| - 1];
      Gains(init) + Gain(Net(init), AvgEntry(init), f.SignedSz(), f.px)
  }

  function Gain(net: real, avg: real, d: real, px: real): real {
    Closed(net, d) * (px - avg)
  }

  lemma GainsSnoc(fs: seq<Fill>, f: Fill)
    ensures Gains(fs + [f]) == Gains(fs) + Gain(Net(fs), AvgEntry(fs), f.SignedSz(), f.px)
    ensures Net(fs + [f]) == Net(fs) + f.SignedSz()
    ensures AvgEntry(fs + [f]) == NextEntry(Net(fs), AvgEntry(fs), f.SignedSz(), f.px)
    ensures Sum(fs + [f], CashOf) == Sum(fs, CashOf) + CashOf(f)
  {
    hide Gain, NextEntry, CashOf, Sum;
    SumSnoc(fs, f, CashOf);
    SumSnoc(fs, f, SignedSzOf);
    assert (fs + [f])[..|fs|] == fs;
  }

  /** One fill keeps the books balanced. */
  lemma BooksBalance(net: real, avg: real, d: real, px: real)
    ensures (net + d) * NextEntry(net, avg, d, px) == net * avg + d * px + Gain(net, avg, d, px)
  {
    if Grows(net, d) {
      DivideBack(net * avg + d * px, net + d);
    } else if Flips(net, d) {
      assert (net + d) * px == net * avg + d * px + net * (px - avg);
    } else if d != 0.0 {
      assert (net + d) * avg == net * avg + d * px + -d * (px - avg);
    }
  }

  /** Conservation: cash paid is the cost of what is still held less the gains on what was closed. */
  lemma {:induction false} CashIsCostLessGains(fs: seq<Fill>)
    ensures Sum(fs, CashOf) == Net(fs) * AvgEntry(fs) - Gains(fs)
  {
    hide Gain, NextEntry, Sum, Gains, AvgEntry;
    if fs == [] {
      SumEmpty<Fill>(CashOf);
      SumEmpty<Fill>(SignedSzOf);
      assert Gains([]) == 0.0 by { NothingGained(); }
    } else {
      var init, f := fs[..|fs| - 1], fs[|fs| - 1];
      SplitLast(fs);
      CashIsCostLessGains(init);
      GainsSnoc(init, f);
      BooksBalance(Net(init), AvgEntry(init), f.SignedSz(), f.px);
    }
  }

  lemma NothingGained()
    ensures Gains([]) == 0.0
  {
  }

  // ---------- the entry price on the fills' own columns ----------

  /**
   What a fill does to the entry price, on either side of the market: size on the
   side already held is averaged in, size against it changes nothing, and what
   goes beyond it opens a new leg at the fill's price.
   */
  lemma EntryAfterFill(fs: seq<Fill>, f: Fill)
    ensures var d := if f.side == "B" then f.sz else -f.sz;
            var held := if d > 0.0 then Net(fs) else -Net(fs);
            var before, after := AvgEntry(fs), AvgEntry(fs + [f]);
            && Net(fs + [f]) == Net(fs) + d
            && (d == 0.0 ==> after == before)
            && (d != 0.0 && held >= 0.0 ==> (held + Abs(d)) * after == held * before + Abs(d) * f.px)
            && (d != 0.0 && held < 0.0 && Abs(d) <= -held ==> after == before)
            && (d != 0.0 && held < 0.0 && Abs(d) > -held ==> after == f.px)
  {
    hide Gain, Sum, Gains, AvgEntry;
    GainsSnoc(fs, f);
    var net, avg, d := Net(fs), AvgEntry(fs), f.SignedSz();
    if Grows(net, d) {
      DivideBack(net * avg + d * f.px, net + d);
    }
  }

  /** Buying only, or selling only: the position has that side, at the size-weighted average price. */
  lemma {:induction false} OneWayEntry(fs: seq<Fill>, buy: bool)
    requires forall f :: f in fs ==> (f.side == "B") == buy && f.sz > 0.0
    ensures Net(fs) == if buy then Sum(fs, SizeOf) else -Sum(fs, SizeOf)
    ensures Sum(fs, SizeOf) * AvgEntry(fs) == Sum(fs, PaidOf)
    ensures if fs == [] then Sum(fs, SizeOf) == 0.0 else Sum(fs, SizeOf) > 0.0
  {
    hide AvgEntry, Sum;
    if fs == [] {
      SumEmpty<Fill>(SizeOf);
      SumEmpty<Fill>(PaidOf);
      SumEmpty<Fill>(SignedSzOf);
    } else {
      var init, f := fs[..|fs| - 1], fs[|fs| - 1];
      SplitLast(fs);
      assert f in fs;
      OneWayEntry(init, buy);
      EntryGrows(init, f, buy, Sum(init, SizeOf));
      SumSnoc(init, f, SizeOf);
      SumSnoc(init, f, PaidOf);
    }
  }

  lemma EntryGrows(fs: seq<Fill>, f: Fill, buy: bool, size: real)
    requires (f.side == "B") == buy && f.sz > 0.0
    requires size >= 0.0 && Net(fs) == if buy then size else -size
    ensures Net(fs + [f]) == if buy then size + f.sz else -(size + f.sz)
    ensures (size + f.sz) * AvgEntry(fs + [f]) == size * AvgEntry(fs) + f.px * f.sz
  {
    hide AvgEntry, Net;
    EntryAfterFill(fs, f);
  }

  // ---------- the entry price lies among the prices of the current leg ----------

  predicate SameSide(x: real, y: real) {
    (x > 0.0 && y > 0.0) || (x < 0.0 && y < 0.0)
  }

  /**
   Fill k opened, flipped into or increased the leg held after fs: it traded on
   the side now held, and the position has stayed on that side ever since.
   */
  ghost predicate Carries(fs: seq<Fill>, k: nat) {
    && k < |fs|
    && SameSide(fs[k].SignedSz(), Net(fs))
    && forall j :: k < j <= |fs| ==> SameSide(Net(fs[..j]), Net(fs))
  }

  lemma CarriesOn(fs: seq<Fill>, f: Fill, k: nat)
    requires Carries(fs, k) && SameSide(Net(fs), Net(fs + [f]))
    ensures Carries(fs + [f], k)
  {
    hide Sum;
    var fs' := fs + [f];
    assert fs'[..|fs'|] == fs';
    forall j | k < j <= |fs'| ensures SameSide(Net(fs'[..j]), Net(fs')) {
      if j <= |fs| {
        assert fs'[..j] == fs[..j];
      }
    }
  }

  lemma NewestCarries(fs: seq<Fill>, f: Fill)
    requires SameSide(f.SignedSz(), Net(fs + [f]))
    ensures Carries(fs + [f], |fs|)
  {
    assert (fs + [f])[..|fs| + 1] == fs + [f];
  }

  /** Where the new entry price may lie, by how the position moves. */
  lemma NextEntryBetween(net: real, avg: real, d: real, px: real)
    requires net + d != 0.0
    ensures !SameSide(net, net + d) ==> NextEntry(net, avg, d, px) == px && SameSide(d, net + d)
    ensures SameSide(net, net + d) && !Grows(net, d) ==> NextEntry(net, avg, d, px) == avg
    ensures SameSide(net, net + d) && Grows(net, d) ==>
              && SameSide(d, net + d)
              && ((avg <= NextEntry(net, avg, d, px) <= px) || (px <= NextEntry(net, avg, d, px) <= avg))
  {
    if net == 0.0 {
      assert Grows(net, d);
      Blend(0.0, 0.0, d, px);
      assert net * avg == 0.0;
    } else if Grows(net, d) {
      Blend(net, avg, d, px);
    }
  }

  /** A weighted average lies between the two values. */
  lemma Blend(a: real, x: real, b: real, y: real)
    requires a + b != 0.0 && (a == 0.0 || b == 0.0 || (a > 0.0) == (b > 0.0))
    ensures var m := (a * x + b * y) / (a + b); (x <= m <= y) || (y <= m <= x)
    ensures a == 0.0 ==> (a * x + b * y) / (a + b) == y
  {
    var w := b / (a + b);
    assert 0.0 <= w <= 1.0 by { ShareInUnit(a, b); }
    assert (a * x + b * y) / (a + b) == x + w * (y - x) by { ShareForm(a, x, b, y); }
    if x <= y {
      ScaleWithin(w, y - x);
    } else {
      ScaleWithin(w, x - y);
      assert w * (y - x) == -(w * (x - y));
    }
  }

  lemma ShareInUnit(a: real, b: real)
    requires a + b != 0.0 && (a == 0.0 || b == 0.0 || (a > 0.0) == (b > 0.0))
    ensures 0.0 <= b / (a + b) <= 1.0
    ensures a == 0.0 ==> b / (a + b) == 1.0
  {
  }

  lemma ShareForm(a: real, x: real, b: real, y: real)
    requires a + b != 0.0
    ensures (a * x + b * y) / (a + b) == x + b / (a + b) * (y - x)
  {
    var s := a + b;
    var w := b / s;
    DivideBack(b, s);
    assert a * x + b * y == s * (x + w * (y - x)) by {
      assert s * (x + w * (y - x)) == s * x + (s * w) * (y - x);
      assert s * x == a * x + b * x;
      assert b * (y - x) == b * y - b * x;
    }
  }

  lemma ScaleWithin(w: real, z: real)
    requires 0.0 <= w <= 1.0 && z >= 0.0
    ensures 0.0 <= w * z <= z
  {
  }

  /** Whenever a position is open, its entry price lies between two prices of its current leg. */
  lemma {:induction false} EntryWithinLeg(fs: seq<Fill>) returns (lo: nat, hi: nat)
    requires Net(fs) != 0.0
    ensures Carries(fs, lo) && Carries(fs, hi)
    ensures fs[lo].px <= AvgEntry(fs) <= fs[hi].px
  {
    hide NextEntry, Sum, Gain, Gains, AvgEntry, Carries;
    assert fs != [] by { SumEmpty<Fill>(SignedSzOf); }
    var init, f := fs[..|fs| - 1], fs[|fs| - 1];
    SplitLast(fs);
    GainsSnoc(init, f);
    var net, avg, d := Net(init), AvgEntry(init), f.SignedSz();
    NextEntryBetween(net, avg, d, f.px);
    if SameSide(net, net + d) {
      lo, hi := EntryWithinLeg(init);
      CarriesOn(init, f, lo);
      CarriesOn(init, f, hi);
      assert fs[lo] == init[lo] && fs[hi] == init[hi] by { CarriesInRange(init, lo); CarriesInRange(init, hi); }
      if Grows(net, d) {
        NewestCarries(init, f);
        if f.px < AvgEntry(fs) {
          lo := if fs[lo].px <= f.px then lo else |fs| - 1;
        } else {
          hi := if fs[hi].px >= f.px then hi else |fs| - 1;
          lo := if fs[lo].px <= AvgEntry(fs) then lo else |fs| - 1;
        }
      }
    } else {
      NewestCarries(init, f);
      lo, hi := |fs| - 1, |fs| - 1;
    }
    CarriesInRange(fs, lo);
    CarriesInRange(fs, hi);
  }

  lemma CarriesInRange(fs: seq<Fill>, k: nat)
    requires Carries(fs, k)
    ensures k < |fs|
  {
  }
}
