/**
 Streams as sequences that grow at the end: filtering, summing, and splitting a
 stream into groups by a key.  Every definition below recurses on the last
 element, because that is where a stream grows.
 */
module Seqs {

  /** The elements that satisfy p, in stream order. */
  function Filter<T>(s: seq<T>, p: T -> bool): seq<T> {
    if |s| == 0 then []
    else
      var init := Filter(s[..|s| - 1], p);
      if p(s[|s| - 1]) then init + [s[|s| - 1]] else init
  }

  function Sum<T>(s: seq<T>, g: T -> real): real {
    if |s| == 0 then 0.0 else Sum(s[..|s| - 1], g) + g(s[|s| - 1])
  }

  /** The distinct keys of s, in order of first appearance: the key order of a Python dict. */
  function Distinct<T, K(==)>(s: seq<T>, key: T -> K): seq<K> {
    if |s| == 0 then []
    else
      var init := Distinct(s[..|s| - 1], key);
      if key(s[|s| - 1]) in init then init else init + [key(s[|s| - 1])]
  }

  function KeyIs<T, K(==)>(key: T -> K, k: K): T -> bool {
    x => key(x) == k
  }

  /** The sub-stream of the elements whose key is k. */
  function Group<T, K(==)>(s: seq<T>, key: T -> K, k: K): seq<T> {
    Filter(s, KeyIs(key, k))
  }

  function GroupTotal<T, K(==)>(s: seq<T>, key: T -> K, g: T -> real): K -> real {
    k => Sum(Group(s, key, k), g)
  }

  ghost predicate NoDup<T>(s: seq<T>) {
    forall i, j :: 0 <= i < j < |s| ==> s[i] != s[j]
  }

  // ---------- appending one element ----------

  lemma FilterSnoc<T>(s: seq<T>, x: T, p: T -> bool)
    ensures Filter(s + [x], p) == if p(x) then Filter(s, p) + [x] else Filter(s, p)
  {
    assert (s + [x])[..|s|] == s;
  }

  lemma SumSnoc<T>(s: seq<T>, x: T, g: T -> real)
    ensures Sum(s + [x], g) == Sum(s, g) + g(x)
  {
    assert (s + [x])[..|s|] == s;
  }

  lemma DistinctSnoc<T, K>(s: seq<T>, x: T, key: T -> K)
    ensures Distinct(s + [x], key) ==
            if key(x) in Distinct(s, key) then Distinct(s, key) else Distinct(s, key) + [key(x)]
  {
    assert (s + [x])[..|s|] == s;
  }

  lemma GroupSnoc<T, K>(s: seq<T>, x: T, key: T -> K, k: K)
    ensures Group(s + [x], key, k) == if key(x) == k then Group(s, key, k) + [x] else Group(s, key, k)
  {
    FilterSnoc(s, x, KeyIs(key, k));
  }

  lemma SplitLast<T>(s: seq<T>)
    requires s != []
    ensures s == s[..|s| - 1] + [s[|s| - 1]]
  {
  }

  // ---------- membership ----------

  lemma {:induction false} FilterMembers<T>(s: seq<T>, p: T -> bool)
    ensures forall x :: x in Filter(s, p) <==> x in s && p(x)
  {
    if s != [] {
      SplitLast(s);
      FilterMembers(s[..|s| - 1], p);
    }
  }

  lemma {:induction false} DistinctMembers<T, K>(s: seq<T>, key: T -> K)
    ensures NoDup(Distinct(s, key))
    ensures forall x :: x in s ==> key(x) in Distinct(s, key)
    ensures forall k :: k in Distinct(s, key) ==> exists x :: x in s && key(x) == k
  {
    if s != [] {
      SplitLast(s);
      DistinctMembers(s[..|s| - 1], key);
    }
  }

  lemma GroupNonEmpty<T, K>(s: seq<T>, key: T -> K, k: K)
    ensures Group(s, key, k) != [] <==> k in Distinct(s, key)
  {
    FilterMembers(s, KeyIs(key, k));
    DistinctMembers(s, key);
    if k in Distinct(s, key) {
      var x :| x in s && key(x) == k;
      assert x in Group(s, key, k);
    }
    if Group(s, key, k) != [] {
      var x := Group(s, key, k)[0];
      assert x in Group(s, key, k);
    }
  }

  lemma GroupMember<T, K>(s: seq<T>, key: T -> K, k: K, x: T)
    ensures x in Group(s, key, k) <==> x in s && key(x) == k
  {
    FilterMembers(s, KeyIs(key, k));
  }

  lemma SumEmpty<T>(g: T -> real)
    ensures Sum<T>([], g) == 0.0
  {
  }

  /** What one more element does to the groups of a stream. */
  lemma {:induction false} GroupsAfter<T, K>(h: seq<T>, f: T, key: T -> K)
    ensures Distinct(h + [f], key) ==
            if key(f) in Distinct(h, key) then Distinct(h, key) else Distinct(h, key) + [key(f)]
    ensures Group(h + [f], key, key(f)) == Group(h, key, key(f)) + [f]
    ensures key(f) !in Distinct(h, key) ==> Group(h, key, key(f)) == []
    ensures forall k :: k != key(f) ==> Group(h + [f], key, k) == Group(h, key, k)
  {
    hide Group, Distinct;
    DistinctSnoc(h, f, key);
    GroupNonEmpty(h, key, key(f));
    GroupSnoc(h, f, key, key(f));
    forall k ensures Group(h + [f], key, k) ==
                     if k == key(f) then Group(h, key, k) + [f] else Group(h, key, k)
    {
      GroupSnoc(h, f, key, k);
    }
  }

  /** All the groups of a stream, by key. */
  function Groups<T, K(==)>(s: seq<T>, key: T -> K): map<K, seq<T>> {
    map k | k in Distinct(s, key) :: Group(s, key, k)
  }

  lemma GroupsStep<T, K>(h: seq<T>, f: T, key: T -> K)
    ensures Distinct(h + [f], key) ==
            if key(f) in Distinct(h, key) then Distinct(h, key) else Distinct(h, key) + [key(f)]
    ensures key(f) in Distinct(h, key) <==> key(f) in Groups(h, key)
    ensures Groups(h + [f], key) ==
            Groups(h, key)[key(f) := (if key(f) in Groups(h, key) then Groups(h, key)[key(f)] else []) + [f]]
  {
    hide Group, Distinct;
    GroupsAfter(h, f, key);
    var old', k := Groups(h, key), key(f);
    var new' := old'[k := (if k in old' then old'[k] else []) + [f]];
    forall j ensures j in Groups(h + [f], key) <==> j in new' {
    }
    forall j | j in new' ensures Groups(h + [f], key)[j] == new'[j] {
      assert Groups(h + [f], key)[j] == Group(h + [f], key, j);
      if j == k {
        assert [] + [f] == [f];
      } else {
        assert old'[j] == Group(h, key, j);
      }
    }
  }

  // ---------- filters of filters and of concatenations ----------

  lemma {:induction false} FilterConcat<T>(s: seq<T>, t: seq<T>, p: T -> bool)
    ensures Filter(s + t, p) == Filter(s, p) + Filter(t, p)
  {
    if t == [] {
      assert s + t == s;
    } else {
      assert (s + t)[..|s + t| - 1] == s + t[..|t| - 1];
      FilterConcat(s, t[..|t| - 1], p);
    }
  }

  lemma {:induction false} FilterSame<T>(s: seq<T>, p: T -> bool, q: T -> bool)
    requires forall x :: x in s ==> p(x) == q(x)
    ensures Filter(s, p) == Filter(s, q)
  {
    if s != [] {
      SplitLast(s);
      FilterSame(s[..|s| - 1], p, q);
    }
  }

  /** Filtering by a coarse predicate first does not change a finer filter. */
  lemma {:induction false} FilterFilter<T>(s: seq<T>, coarse: T -> bool, fine: T -> bool)
    requires forall x :: x in s && fine(x) ==> coarse(x)
    ensures Filter(Filter(s, coarse), fine) == Filter(s, fine)
  {
    if s != [] {
      var init, last := s[..|s| - 1], s[|s| - 1];
      SplitLast(s);
      FilterFilter(init, coarse, fine);
      if coarse(last) {
        FilterSnoc(Filter(init, coarse), last, fine);
      }
    }
  }

  // ---------- sums ----------

  lemma {:induction false} SumSame<T>(s: seq<T>, g: T -> real, g': T -> real)
    requires forall x :: x in s ==> g(x) == g'(x)
    ensures Sum(s, g) == Sum(s, g')
  {
    if s != [] {
      SplitLast(s);
      SumSame(s[..|s| - 1], g, g');
    }
  }

  /** Sums respect pointwise order. */
  lemma {:induction false} SumMono<T>(s: seq<T>, g: T -> real, g': T -> real)
    requires forall x :: x in s ==> g(x) <= g'(x)
    ensures Sum(s, g) <= Sum(s, g')
  {
    if s != [] {
      SplitLast(s);
      SumMono(s[..|s| - 1], g, g');
    }
  }

  function Zero<T>(): T -> real { x => 0.0 }

  lemma {:induction false} SumZero<T>(s: seq<T>, g: T -> real)
    requires forall x :: x in s ==> g(x) == 0.0
    ensures Sum(s, g) == 0.0
  {
    if s != [] {
      SplitLast(s);
      SumZero(s[..|s| - 1], g);
    }
  }

  lemma {:induction false} SumNonNegative<T>(s: seq<T>, g: T -> real)
    requires forall x :: x in s ==> g(x) >= 0.0
    ensures Sum(s, g) >= 0.0
  {
    SumMono(s, Zero(), g);
    SumZero(s, Zero());
  }

  /** Dropping elements of non-negative weight never raises a sum. */
  lemma {:induction false} SumFilterAtMost<T>(s: seq<T>, p: T -> bool, g: T -> real)
    requires forall x :: x in s ==> g(x) >= 0.0
    ensures Sum(Filter(s, p), g) <= Sum(s, g)
  {
    if s != [] {
      var init, last := s[..|s| - 1], s[|s| - 1];
      SplitLast(s);
      SumFilterAtMost(init, p, g);
      if p(last) {
        SumSnoc(Filter(init, p), last, g);
      }
    }
  }

  function Masked<T>(p: T -> bool, g: T -> real): T -> real {
    x => if p(x) then g(x) else 0.0
  }

  lemma {:induction false} SumFilterMasked<T>(s: seq<T>, p: T -> bool, g: T -> real)
    ensures Sum(Filter(s, p), g) == Sum(s, Masked(p, g))
  {
    if s != [] {
      var init, last := s[..|s| - 1], s[|s| - 1];
      SumFilterMasked(init, p, g);
      if p(last) {
        SumSnoc(Filter(init, p), last, g);
      }
    }
  }

  lemma {:induction false} SumConcat<T>(s: seq<T>, t: seq<T>, g: T -> real)
    ensures Sum(s + t, g) == Sum(s, g) + Sum(t, g)
  {
    if t == [] {
      assert s + t == s;
    } else {
      assert (s + t)[..|s + t| - 1] == s + t[..|t| - 1];
      SumConcat(s, t[..|t| - 1], g);
    }
  }

  /** Changing the summand at one key changes the sum by exactly that much. */
  lemma {:induction false} SumAdjustOne<K>(keys: seq<K>, k: K, d: real, v: K -> real, v': K -> real)
    requires NoDup(keys) && k in keys
    requires v'(k) == v(k) + d
    requires forall j :: j in keys && j != k ==> v'(j) == v(j)
    ensures Sum(keys, v') == Sum(keys, v) + d
  {
    var init, last := keys[..|keys| - 1], keys[|keys| - 1];
    SplitLast(keys);
    assert forall i :: 0 <= i < |init| ==> init[i] == keys[i] != last;
    if last == k {
      SumSame(init, v, v');
    } else {
      SumAdjustOne(init, k, d, v, v');
    }
  }

  /** Conservation: the group totals of a stream add up to the total of the stream. */
  lemma {:induction false} GroupsAddUp<T, K>(s: seq<T>, key: T -> K, g: T -> real)
    ensures Sum(Distinct(s, key), GroupTotal(s, key, g)) == Sum(s, g)
  {
    if s != [] {
      var init, last := s[..|s| - 1], s[|s| - 1];
      var keys, k := Distinct(init, key), key(last);
      SplitLast(s);
      GroupsAddUp(init, key, g);
      DistinctMembers(init, key);
      forall j ensures GroupTotal(s, key, g)(j) ==
                       GroupTotal(init, key, g)(j) + if j == k then g(last) else 0.0
      {
        GroupSnoc(init, last, key, j);
        if j == k {
          SumSnoc(Group(init, key, j), last, g);
        }
      }
      if k in keys {
        SumAdjustOne(keys, k, g(last), GroupTotal(init, key, g), GroupTotal(s, key, g));
      } else {
        GroupNonEmpty(init, key, k);
        SumSame(keys, GroupTotal(init, key, g), GroupTotal(s, key, g));
        SumSnoc(keys, k, GroupTotal(s, key, g));
      }
    }
  }

  // ---------- rearranged streams ----------

  lemma {:induction false} FilterMultiset<T>(s: seq<T>, p: T -> bool)
    ensures forall x :: multiset(Filter(s, p))[x] == if p(x) then multiset(s)[x] else 0
  {
    if s != [] {
      SplitLast(s);
      FilterMultiset(s[..|s| - 1], p);
    }
  }

  lemma MultisetExtensional<T>(a: multiset<T>, b: multiset<T>)
    requires forall x :: a[x] == b[x]
    ensures a == b
  {
  }

  lemma MultisetCancel<T>(a: multiset<T>, b: multiset<T>, c: multiset<T>)
    requires a + c == b + c
    ensures a == b
  {
    forall x ensures a[x] == b[x] {
      assert (a + c)[x] == (b + c)[x];
    }
    MultisetExtensional(a, b);
  }

  lemma FilterPermuted<T>(s: seq<T>, t: seq<T>, p: T -> bool)
    requires multiset(s) == multiset(t)
    ensures multiset(Filter(s, p)) == multiset(Filter(t, p))
  {
    FilterMultiset(s, p);
    FilterMultiset(t, p);
    MultisetExtensional(multiset(Filter(s, p)), multiset(Filter(t, p)));
  }

  lemma PermutedMembers<T>(s: seq<T>, t: seq<T>)
    requires multiset(s) == multiset(t)
    ensures |s| == |t| && forall x :: x in s <==> x in t
  {
    assert |s| == |multiset(s)| == |t|;
    forall x ensures x in s <==> x in t {
      assert x in s <==> x in multiset(s);
      assert x in t <==> x in multiset(t);
    }
  }

  lemma {:induction false} SumPermuted<T>(s: seq<T>, t: seq<T>, g: T -> real)
    requires multiset(s) == multiset(t)
    ensures Sum(s, g) == Sum(t, g)
  {
    PermutedMembers(s, t);
    if s != [] {
      var init, last := s[..|s| - 1], s[|s| - 1];
      SplitLast(s);
      assert last in t;
      var i :| 0 <= i < |t| && t[i] == last;
      var rest := t[..i] + t[i + 1..];
      assert t == t[..i] + [last] + t[i + 1..];
      assert multiset(t) == multiset(rest) + multiset{last};
      assert multiset(s) == multiset(init) + multiset{last};
      MultisetCancel(multiset(init), multiset(rest), multiset{last});
      SumPermuted(init, rest, g);
      SumConcat(t[..i] + [last], t[i + 1..], g);
      SumSnoc(t[..i], last, g);
      SumConcat(t[..i], t[i + 1..], g);
    }
  }

  lemma {:induction false} NoDupMultiset<T>(s: seq<T>)
    requires NoDup(s)
    ensures forall x :: multiset(s)[x] == if x in s then 1 else 0
  {
    if s != [] {
      SplitLast(s);
      NoDupMultiset(s[..|s| - 1]);
    }
  }

  lemma DistinctPermuted<T, K>(s: seq<T>, t: seq<T>, key: T -> K)
    requires multiset(s) == multiset(t)
    ensures multiset(Distinct(s, key)) == multiset(Distinct(t, key))
  {
    PermutedMembers(s, t);
    DistinctMembers(s, key);
    DistinctMembers(t, key);
    NoDupMultiset(Distinct(s, key));
    NoDupMultiset(Distinct(t, key));
    MultisetExtensional(multiset(Distinct(s, key)), multiset(Distinct(t, key)));
  }
}
