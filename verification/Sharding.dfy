/** Stride sharding of the load generator: every procs-th row of the concatenated files. */
module Sharding {
  import opened Fills

  /** A row as a worker keeps it: net is the signed size. */
  datatype ShardRow = ShardRow(addr: string, coin: string, net: real, px: real, pnl: real, time: int)

  function ToShardRow(r: Row): ShardRow {
    ShardRow(r.addr, r.coin, r.ToFill().SignedSz(), r.px, r.ToFill().closedPnl, r.time)
  }

  /** Where, among all rows, the j-th row of worker wid is. */
  function Place(j: int, wid: int, procs: nat): int { j * procs + wid }

  lemma PlacesApart(j: int, k: int, wid: int, procs: nat)
    requires j < k
    ensures Place(j, wid, procs) + procs <= Place(k, wid, procs)
  {
    var d := k - j - 1;
    assert Place(k, wid, procs) == Place(j, wid, procs) + procs + d * procs;
    assert d * procs >= 0;
  }

  lemma PlaceNext(j: int, wid: int, procs: nat)
    ensures Place(j + 1, wid, procs) == Place(j, wid, procs) + procs
  {
  }

  lemma PlaceOf(n: nat, procs: nat)
    requires procs > 0
    ensures Place(n / procs, n % procs, procs) == n && n % procs < procs
  {
  }

  lemma PlaceShift(j: int, w: int, w': int, procs: nat)
    ensures Place(j, w', procs) == Place(j, w, procs) + w' - w
  {
  }

  lemma PlaceUnique(j: int, w: nat, k: int, w': nat, procs: nat)
    requires w < procs && w' < procs && Place(j, w, procs) == Place(k, w', procs)
    ensures j == k && w == w'
  {
    hide Place;
    PlaceShift(j, w, w', procs);
    if j < k {
      PlacesApart(j, k, w', procs);
    } else if k < j {
      PlacesApart(k, j, w', procs);
    }
  }

  /** rows is worker wid's share of all: its j-th row is at place j, up to the end. */
  ghost predicate IsShard(rows: seq<ShardRow>, all: seq<Row>, wid: nat, procs: nat) {
    && (forall j :: 0 <= j < |rows| ==>
          0 <= Place(j, wid, procs) < |all| && rows[j] == ToShardRow(all[Place(j, wid, procs)]))
    && |all| <= Place(|rows|, wid, procs)
  }

  /** The loading loop of one worker. */
  method LoadShard(files: seq<seq<Row>>, wid: nat, procs: nat) returns (rows: seq<ShardRow>)
    requires wid < procs
    ensures IsShard(rows, Flatten(files), wid, procs)
  {
    hide Flatten, IsShard, Place;
    rows := [];
    var gi := 0;
    ghost var all := Flatten(files);
    LoadStart(files, wid, procs);
    for i := 0 to |files|
      invariant gi == |Flatten(files[..i])| <= |all|
      invariant IsShard(rows, all[..gi], wid, procs)
    {
      var file := files[i];
      FlattenStep(files, i);
      for k := 0 to |file|
        invariant gi == |Flatten(files[..i])| + k <= |all|
        invariant IsShard(rows, all[..gi], wid, procs)
      {
        FlattenPrefix(files, i, k + 1);
        assert all[gi] == file[k] by { assert (Flatten(files[..i]) + file[..k + 1])[gi] == file[k]; }
        PlaceOf(gi, procs);
        TakeStep(rows, all, gi, gi / procs, gi % procs, wid, procs);
        if gi % procs == wid {
          rows := rows + [ToShardRow(file[k])];
        }
        gi := gi + 1;
      }
    }
    assert files[..|files|] == files;
    assert all[..gi] == all;
  }

  lemma LoadStart(files: seq<seq<Row>>, wid: nat, procs: nat)
    ensures Flatten(files[..0]) == [] && IsShard([], Flatten(files)[..0], wid, procs)
  {
  }

  /** Row gi is turn d of lane w: it belongs to worker wid exactly when w is wid. */
  lemma TakeStep(rows: seq<ShardRow>, all: seq<Row>, gi: nat, d: nat, w: nat, wid: nat, procs: nat)
    requires wid < procs && gi < |all| && IsShard(rows, all[..gi], wid, procs)
    requires w < procs && Place(d, w, procs) == gi
    ensures IsShard(if w == wid then rows + [ToShardRow(all[gi])] else rows, all[..gi + 1], wid, procs)
  {
    hide Place, ToShardRow;
    var q := |rows|;
    PlaceNext(q, wid, procs);
    if w == wid {
      assert d < q ==> Place(d, wid, procs) < gi;
      if q < d {
        PlacesApart(q, d, wid, procs);
      }
    } else if Place(q, wid, procs) == gi {
      PlaceUnique(q, wid, d, w, procs);
    }
  }

  /** Each kept row carries its columns: the size with the sign of its side, and 0 for a missing PnL. */
  lemma ShardColumns(rows: seq<ShardRow>, all: seq<Row>, wid: nat, procs: nat, j: nat)
    requires IsShard(rows, all, wid, procs) && j < |rows|
    ensures 0 <= j * procs + wid < |all|
    ensures var s, r := rows[j], all[j * procs + wid];
            && s.addr == r.addr && s.coin == r.coin && s.px == r.px && s.time == r.time
            && s.net == (if r.side == "B" then r.sz else -r.sz)
            && s.pnl == (match r.closedPnl case None => 0.0 case Some(pnl) => pnl)
  {
    assert Place(j, wid, procs) == j * procs + wid;
  }

  /** The shards of procs workers partition the rows: each row is in one place of one shard, in order. */
  lemma ShardsPartition(shards: seq<seq<ShardRow>>, all: seq<Row>, procs: nat, n: nat)
    requires |shards| == procs > 0 && n < |all|
    requires forall w :: 0 <= w < procs ==> IsShard(shards[w], all, w, procs)
    ensures n / procs < |shards[n % procs]| && shards[n % procs][n / procs] == ToShardRow(all[n])
    ensures forall w, j :: 0 <= w < procs && 0 <= j < |shards[w]| && Place(j, w, procs) == n ==>
                             w == n % procs && j == n / procs
  {
    hide Place;
    var w, j := n % procs, n / procs;
    PlaceOf(n, procs);
    assert IsShard(shards[w], all, w, procs);
    if j > |shards[w]| {
      PlacesApart(|shards[w]|, j, w, procs);
    }
    forall w', j' | 0 <= w' < procs && 0 <= j' < |shards[w']| && Place(j', w', procs) == n ensures w' == w && j' == j {
      PlaceUnique(j', w', j, w, procs);
    }
  }

  /** Any two shards differ in size by at most one row. */
  lemma ShardsAreBalanced(a: seq<ShardRow>, b: seq<ShardRow>, all: seq<Row>, w: nat, w': nat, procs: nat)
    requires w <= w' < procs && IsShard(a, all, w, procs) && IsShard(b, all, w', procs)
    ensures |b| <= |a| <= |b| + 1
  {
    hide Place;
    PlaceShift(|a|, w, w', procs);
    PlaceShift(|b|, w, w', procs);
    PlaceNext(|b|, w, procs);
    assert |b| > |a| ==> Place(|a|, w', procs) < |all|;
    assert |a| > |b| + 1 ==> Place(|b| + 1, w, procs) < |all|;
  }
}
