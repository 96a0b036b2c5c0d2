/** What is in the database when `SyncBlocks` has returned nil through its flush. */
module Durability {
  import opened ByteOrder
  import opened Keys
  import opened Pebble
  import opened Blocks
  import opened Runs
  import opened Reads
  import opened Seqs
  import Writer
  import Pipeline

  // ---------- how many heights a nil return stands for ----------

  function Heights(c: Pipeline.Config): nat {
    if c.start <= c.end then c.end - c.start + 1 else 0
  }

  function HeightsFrom(start: int, n: nat): (r: seq<int>)
    ensures |r| == n
  {
    if n == 0 then [] else HeightsFrom(start, n - 1) + [start + n - 1]
  }

  lemma {:induction false} FromTimes(start: int, n: nat, h: int)
    ensures multiset(HeightsFrom(start, n))[h] == if start <= h < start + n then 1 else 0
  {
    if n > 0 { FromTimes(start, n - 1, h); }
  }

  /** A list that holds every height of a range once and no other is as long as the range. */
  lemma OncePerHeight(s: seq<int>, start: int, n: nat)
    requires forall h :: Pipeline.Times(s, h) == if start <= h < start + n then 1 else 0
    ensures |s| == n
  {
    forall h ensures multiset(s)[h] == multiset(HeightsFrom(start, n))[h] {
      FromTimes(start, n, h);
      assert Pipeline.Times(s, h) == multiset(s)[h];
    }
    assert multiset(s) == multiset(HeightsFrom(start, n));
    assert |multiset(s)| == |s| && |multiset(HeightsFrom(start, n))| == n;
  }

  // ---------- a sync, its flush, and the commits that finish after it ----------

  /** A pipeline run that returned nil, and the store's run beside it: from state `k`, between calls and with nothing
      counted, the pipeline's applies in order, the flush from state `i` to state `j`, and nothing but background
      commits from there to state `m`. Earlier syncs may have come before state `k`. */
  datatype Sync = Sync(ps: seq<Pipeline.State>, pe: seq<Pipeline.Event>,
                       ss: seq<Writer.State>, es: seq<Writer.Event>, k: nat, i: nat, j: nat, m: nat)
  {
    /** The blocks the store had been given before the sync, and with it. */
    function Before(): seq<DBBlock>
      requires k < |ss|
    {
      ss[k].applied
    }

    function With(): seq<DBBlock>
      requires i < |ss|
    {
      ss[i].applied
    }
  }

  predicate Background(e: Writer.Event) {
    e.BgWrite? || e.BgDecrement? || e.BgDone?
  }

  /** The blocks after the first `base` ones are those of these heights, in this order. */
  ghost predicate Carried(blocks: seq<DBBlock>, base: nat, heights: seq<int>) {
    && |blocks| == base + |heights|
    && forall n :: 0 <= n < |heights| ==> blocks[base + n].height == heights[n]
  }

  ghost predicate Flushed(db: DB, y: Sync) {
    && Writer.IsRun(db, y.ss, y.es) && y.k <= y.i < y.j <= y.m < |y.ss|
    && Writer.AtZero(y.ss[y.k]) && Writer.OnlyApplies(y.es, y.k, y.i) && y.es[y.i] == Writer.Flush(true)
    && y.ss[y.j].pc.Idle? && (forall n :: y.i < n < y.j ==> !y.ss[n].pc.Idle?)
    && (forall n :: y.j <= n < y.m ==> Background(y.es[n]))
  }

  ghost predicate IsSync(c: Pipeline.Config, db: DB, y: Sync) {
    && Pipeline.ValidConfig(c) && Pipeline.IsRun(c, y.ps, y.pe) && y.ps[|y.pe|].caller.ReturnedNil?
    && Flushed(db, y) && Carried(y.With(), |y.Before()|, y.ps[|y.pe|].applied)
  }

  lemma {:induction false} CommitsLeaveBatch(db: DB, y: Sync, n: nat)
    requires Flushed(db, y) && y.j <= n <= y.m
    ensures y.ss[n].active == y.ss[y.j].active && y.ss[n].applied == y.ss[y.j].applied && y.ss[n].pc.Idle?
    decreases n
  {
    if n > y.j { CommitsLeaveBatch(db, y, n - 1); }
  }

  /** The sync applied one block per height, and its flush left the last one exactly at a multiple of 201. */
  lemma AfterSync(c: Pipeline.Config, db: DB, y: Sync)
    requires IsSync(c, db, y)
    ensures y.ss[y.m].applied == y.With() && |y.With()| == |y.Before()| + Heights(c)
    ensures Heights(c) > 0 ==> (y.ss[y.m].active != [] <==> Heights(c) % Writer.PERIOD == 0)
  {
    forall h ensures Pipeline.Times(y.ps[|y.pe|].applied, h) == if c.start <= h < c.start + Heights(c) then 1 else 0 {
      Pipeline.NilMeansAllApplied(c, y.ps, y.pe, h);
    }
    OncePerHeight(y.ps[|y.pe|].applied, c.start, Heights(c));
    CommitsLeaveBatch(db, y, y.m);
    Writer.FlushKeepsApplied(db, y.ss, y.es, y.i, y.j);
    Writer.FlushLeavesIff(db, y.ss, y.es, y.k, y.i, y.j);
  }

  /** No height of a sync comes twice in it. */
  lemma HeightOnce(c: Pipeline.Config, db: DB, y: Sync, n: nat, l: nat)
    requires IsSync(c, db, y) && |y.Before()| <= n < l < |y.With()|
    ensures y.With()[n].height != y.With()[l].height
  {
    var s, base := y.ps[|y.pe|].applied, |y.Before()|;
    assert y.With()[base + (n - base)].height == s[n - base] && y.With()[base + (l - base)].height == s[l - base];
    Pipeline.NilMeansAllApplied(c, y.ps, y.pe, s[l - base]);
    if s[n - base] == s[l - base] { TwiceCounts(s, n - base, l - base); }
  }

  lemma TwiceCounts(s: seq<int>, k: nat, l: nat)
    requires k < l < |s| && s[k] == s[l]
    ensures Pipeline.Times(s, s[l]) >= 2
  {
    assert s == s[..l] + [s[l]] + s[l + 1..];
    assert s[..l][k] == s[l];
    assert s[l] in multiset(s[..l]);
    assert multiset(s) == multiset(s[..l]) + multiset([s[l]]) + multiset(s[l + 1..]);
  }

  lemma HeightApplied(c: Pipeline.Config, db: DB, y: Sync, h: int) returns (n: nat)
    requires IsSync(c, db, y) && c.start <= h <= c.end
    ensures |y.Before()| <= n < |y.With()| && y.With()[n].height == h
  {
    Pipeline.NilMeansAllApplied(c, y.ps, y.pe, h);
    var s := y.ps[|y.pe|].applied;
    assert h in multiset(s);
    var l :| 0 <= l < |s| && s[l] == h;
    n := |y.Before()| + l;
  }

  ghost predicate AllIndexed(c: Pipeline.Config, db: DB) {
    forall h: U32 :: c.start <= h <= c.end ==> GetBlockHashByHeight(db, h).Some?
  }

  /** No height of the range is indexed, or was given to the store before. */
  ghost predicate AllNew(c: Pipeline.Config, db: DB, before: seq<DBBlock>) {
    && (forall h: U32 :: c.start <= h <= c.end ==> GetBlockHashByHeight(db, h).None?)
    && forall n :: 0 <= n < |before| ==> !(c.start <= before[n].height <= c.end)
  }

  lemma IndexedIff(db: DB, blocks: seq<DBBlock>, h: U32)
    requires GetBlockHashByHeight(db, h).None?
    ensures GetBlockHashByHeight(Replay(db, blocks), h).Some? <==> exists b :: b in blocks && b.height == h
  {
    ReplayHas(db, blocks, CIHeight(h));
    if b :| b in blocks && b.height == h {
      assert Calls(b, Write(CIHeight(h), b.hash));
    }
  }

  // ---------- which heights are in the database, from the return on ----------

  /** Of everything given to the store, one block at most has a given height of the range. */
  lemma RangeHeightOnce(c: Pipeline.Config, db: DB, y: Sync, k: nat, l: nat)
    requires IsSync(c, db, y) && AllNew(c, db, y.Before()) && k < l < |y.With()|
    requires c.start <= y.With()[k].height <= c.end
    ensures y.With()[k].height != y.With()[l].height
  {
    Writer.AppliedGrows(db, y.ss, y.es, y.k, y.i);
    if k >= |y.Before()| { HeightOnce(c, db, y, k, l); }
  }

  /** What a state has not committed yet. */
  ghost function Uncommitted(s: Writer.State): seq<DBBlock> {
    s.active + Writer.InFlight(s)
  }

  /** From the return on, a height is indexed exactly when its block is neither in the active batch nor with a
      background commit that has not written. */
  lemma IndexedIffCommitted(c: Pipeline.Config, db: DB, y: Sync, n: nat, h: U32)
    requires IsSync(c, db, y) && AllNew(c, db, y.Before()) && y.j <= n <= y.m && c.start <= h <= c.end
    ensures GetBlockHashByHeight(y.ss[n].db, h).Some? <==>
      forall b :: b in Uncommitted(y.ss[n]) ==> b.height != h
  {
    var s := y.ss[n];
    Writer.RunSafe(db, y.ss, y.es, n);
    CommitsLeaveBatch(db, y, n);
    Writer.FlushKeepsApplied(db, y.ss, y.es, y.i, y.j);
    IndexedIff(db, s.committed, h);
    assert multiset(s.applied) == multiset(s.committed) + multiset(Uncommitted(s));
    if b :| b in s.committed && b.height == h {
      forall u | u in Uncommitted(s) ensures u.height != h {
        var k, l := TwoPlaces(s.applied, s.committed, Uncommitted(s), b, u);
        if k < l { RangeHeightOnce(c, db, y, k, l); } else if u.height == h { RangeHeightOnce(c, db, y, l, k); }
      }
    }
    var at := HeightApplied(c, db, y, h);
    assert s.applied[at] in multiset(s.applied);
    assert s.applied[at] in s.committed || s.applied[at] in Uncommitted(s);
  }

  /** The blocks applied since the last rotation, as many as the number of heights leaves over a multiple of 201, are
      in the database at the return: the flush commits them itself. */
  lemma LastIndexedAtReturn(c: Pipeline.Config, db: DB, y: Sync, n: nat)
    requires IsSync(c, db, y) && AllNew(c, db, y.Before())
    requires |y.With()| - Heights(c) % 201 <= n < |y.With()|
    requires 0 <= c.start && c.end <= MAX_U32
    ensures c.start <= y.With()[n].height <= c.end
    ensures GetBlockHashByHeight(y.ss[y.j].db, y.With()[n].height).Some?
  {
    AfterSync(c, db, y);
    NewInRange(c, db, y, n);
    Writer.LastFlushed(db, y.ss, y.es, y.k, y.i, y.j, n);
    Writer.RunSafe(db, y.ss, y.es, y.j);
    IndexedIff(db, y.ss[y.j].committed, y.With()[n].height);
  }

  lemma NewInRange(c: Pipeline.Config, db: DB, y: Sync, n: nat)
    requires IsSync(c, db, y) && |y.Before()| <= n < |y.With()|
    ensures c.start <= y.With()[n].height <= c.end
  {
    var s, l := y.ps[|y.pe|].applied, n - |y.Before()|;
    assert y.With()[|y.Before()| + l].height == s[l] && s[l] in multiset(s);
    Pipeline.NilMeansAllApplied(c, y.ps, y.pe, s[l]);
  }

  /** Once the background commits are done, a sync of new heights, the first on this store or a later one, has them
      all in the database exactly when their number is zero or no multiple of 201: otherwise the last block applied
      is still in the active batch. */
  lemma SyncDurableIff(c: Pipeline.Config, db: DB, y: Sync)
    requires IsSync(c, db, y) && AllNew(c, db, y.Before()) && Writer.Quiet(y.ss[y.m])
    requires 0 <= c.start && c.end <= MAX_U32
    ensures AllIndexed(c, y.ss[y.m].db) <==> Heights(c) == 0 || Heights(c) % 201 != 0
  {
    var s := y.ss[y.m];
    AfterSync(c, db, y);
    assert Uncommitted(s) == s.active;
    if s.active == [] {
      forall h: U32 | c.start <= h <= c.end ensures GetBlockHashByHeight(s.db, h).Some? {
        IndexedIffCommitted(c, db, y, y.m, h);
      }
    } else if Heights(c) > 0 {
      var last := |s.applied| - 1;
      NewInRange(c, db, y, last);
      Writer.RunSafe(db, y.ss, y.es, y.m);
      Writer.TailHas(s, last);
      IndexedIffCommitted(c, db, y, y.m, s.applied[last].height);
    }
  }

  // ---------- a sync that loses its last height ----------

  function BlocksOf(heights: seq<int>, make: U32 -> DBBlock): (r: seq<DBBlock>)
    requires forall n :: 0 <= n < |heights| ==> 0 <= heights[n] <= MAX_U32
    ensures |r| == |heights| && forall n :: 0 <= n < |heights| ==> r[n] == make(heights[n])
  {
    seq(|heights|, n requires 0 <= n < |heights| => make(heights[n]))
  }

  lemma NilHeights(c: Pipeline.Config, ps: seq<Pipeline.State>, pe: seq<Pipeline.Event>)
    requires Pipeline.ValidConfig(c) && Pipeline.IsRun(c, ps, pe) && ps[|pe|].caller.ReturnedNil?
    ensures |ps[|pe|].applied| == Heights(c)
    ensures forall n :: 0 <= n < |ps[|pe|].applied| ==> c.start <= ps[|pe|].applied[n] <= c.end
  {
    var s := ps[|pe|].applied;
    forall h ensures Pipeline.Times(s, h) == if c.start <= h < c.start + Heights(c) then 1 else 0 {
      Pipeline.NilMeansAllApplied(c, ps, pe, h);
    }
    OncePerHeight(s, c.start, Heights(c));
    forall n | 0 <= n < |s| ensures c.start <= s[n] <= c.end {
      assert s[n] in multiset(s) && Pipeline.Times(s, s[n]) > 0;
    }
  }

  /** Any 201 heights, synced into an empty store: the sync returns nil with the database still empty, its background
      commit ends, and a height is missing. */
  lemma SyncCanLose(start: U32, pulls: nat, workers: nat, make: U32 -> DBBlock) returns (c: Pipeline.Config, y: Sync)
    requires start + Writer.BATCH_SIZE <= MAX_U32 && pulls >= 1 && workers >= 1
    requires forall h: U32 :: make(h).height == h
    ensures c == Pipeline.Config(start, start + Writer.BATCH_SIZE, pulls, workers) && IsSync(c, map[], y)
    ensures y.ss[y.j].db == map[] && Writer.Quiet(y.ss[y.m]) && !AllIndexed(c, y.ss[y.m].db)
  {
    c := Pipeline.Config(start, start + Writer.BATCH_SIZE, pulls, workers);
    var ps, pe := Pipeline.SyncCanFinish(c);
    NilHeights(c, ps, pe);
    var blocks := BlocksOf(ps[|pe|].applied, make);
    var ss, es, i := Writer.FlushCanLeave(map[], blocks);
    y := CommitLast(map[], ps, pe, ss, es, i);
    SyncDurableIff(c, map[], y);
  }

  /** The background commit a flush did not wait for. */
  lemma CommitLast(db: DB, ps: seq<Pipeline.State>, pe: seq<Pipeline.Event>,
                   ss: seq<Writer.State>, es: seq<Writer.Event>, i: nat) returns (y: Sync)
    requires Writer.IsRun(db, ss, es) && i + 1 == |es| && es[i] == Writer.Flush(true) && Writer.OnlyApplies(es, 0, i)
    requires ss[i + 1].pc.Idle? && |ss[i + 1].running| == 1
    ensures y.ps == ps && y.pe == pe && y.k == 0 && y.i == i && y.j == i + 1 && y.m < |y.ss| && ss <= y.ss
    ensures Flushed(db, y) && Writer.Quiet(y.ss[y.m])
  {
    var e := Writer.BgWrite(0);
    var last := Writer.After(ss[i + 1], e);
    Writer.Extend(db, ss, es, e);
    y := Sync(ps, pe, ss + [last], es + [e], 0, i, i + 1, i + 2);
  }
}
