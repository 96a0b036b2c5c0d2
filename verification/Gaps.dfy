/** `identifyGapRanges` and the integrity check that fills what it finds. */
module Gaps {
  import opened ByteOrder
  import opened Keys
  import opened Pebble
  import opened Blocks
  import opened Runs
  import opened Reads
  import Pipeline

  datatype HeightRange = HeightRange(start: U32, end: U32)

  /** `GetBlockHashByHeight` of the store interface. */
  type Lookup = U32 -> Result<Option<Bytes>>

  function LookupIn(db: DB): Lookup {
    (h: U32) => Ok(GetBlockHashByHeight(db, h))
  }

  predicate Missing(lookup: Lookup, h: U32) {
    lookup(h) == Ok(None)
  }

  predicate Covers(r: HeightRange, h: int) {
    r.start <= h <= r.end
  }

  ghost predicate Covered(rs: seq<HeightRange>, h: int) {
    exists i :: 0 <= i < |rs| && Covers(rs[i], h)
  }

  /** A maximal run of missing heights that is closed by an indexed one. */
  ghost predicate MaximalRun(lookup: Lookup, start: U32, end: U32, r: HeightRange) {
    && start <= r.start <= r.end < end
    && (forall h: U32 :: r.start <= h <= r.end ==> Missing(lookup, h))
    && (r.start > start ==> !Missing(lookup, r.start - 1))
    && !Missing(lookup, r.end + 1)
  }

  /** Ordered, disjoint and not even touching. */
  ghost predicate Separated(rs: seq<HeightRange>) {
    forall i, j :: 0 <= i < j < |rs| ==> rs[i].end + 1 < rs[j].start
  }

  ghost predicate ClosedAbove(lookup: Lookup, h: int, end: U32) {
    exists g: U32 :: h < g <= end && !Missing(lookup, g)
  }

  /** `currentRange`: nil, or a start and an end, where an end of 0 stands for a single height. */
  datatype Open = Nil | Open(start: U32, end: U32)

  function Cut(open: Open, height: int): int {
    match open case Nil => height case Open(start, _) => start
  }

  /** What the loop has established when it comes to `height`. */
  ghost predicate Scanned(lookup: Lookup, start: U32, end: U32, rs: seq<HeightRange>, open: Open, height: int)
    requires height <= MAX_U32
  {
    && Separated(rs) && (forall i :: 0 <= i < |rs| ==> MaximalRun(lookup, start, end, rs[i]))
    && (forall i :: 0 <= i < |rs| ==> rs[i].end + 1 < Cut(open, height))
    && start <= Cut(open, height)
    && (open.Open? ==> open.start < height)
    && (open.Open? ==> if open.end == 0 then height == open.start + 1 else open.end == height - 1 > open.start)
    && (forall h: U32 :: Cut(open, height) <= h < height ==> Missing(lookup, h))
    && (Cut(open, height) > start ==> !Missing(lookup, Cut(open, height) - 1))
    && (forall h: U32 :: start <= h < Cut(open, height) && Missing(lookup, h) ==> Covered(rs, h))
  }

  /** An indexed height ends the open range, if there is one. */
  method AtIndexed(ghost lookup: Lookup, ghost start: U32, ghost end: U32, rs: seq<HeightRange>, open: Open,
                   ghost height: U32)
    returns (rs': seq<HeightRange>)
    requires height <= end < MAX_U32 && Scanned(lookup, start, end, rs, open, height) && !Missing(lookup, height)
    ensures Scanned(lookup, start, end, rs', Nil, height + 1)
  {
    rs' := rs;
    if open.Open? {
      var r := HeightRange(open.start, if open.end == 0 then open.start else open.end);
      rs' := rs + [r];
      assert MaximalRun(lookup, start, end, r) && Separated(rs');
      forall h: U32 | start <= h < height && Missing(lookup, h) ensures Covered(rs', h) {
        if h < open.start {
          var i :| 0 <= i < |rs| && Covers(rs[i], h);
          assert Covers(rs'[i], h);
        } else {
          assert Covers(rs'[|rs|], h);
        }
      }
    }
  }

  method AtMissing(ghost lookup: Lookup, ghost start: U32, ghost end: U32, ghost rs: seq<HeightRange>, open: Open,
                   height: U32)
    returns (open': Open)
    requires height <= end < MAX_U32 && Scanned(lookup, start, end, rs, open, height) && Missing(lookup, height)
    ensures Scanned(lookup, start, end, rs, open', height + 1)
  {
    open' := if open.Nil? then Open(height, 0) else open.(end := height);
  }

  /** The loop's counter after n turns, in 32-bit arithmetic. */
  function HeightAfter(start: U32, n: nat): U32 {
    (start + n) % 0x1_0000_0000
  }

  /** Without errors the loop ends exactly when the end height is below the top one, as every chain tip is. */
  lemma ScanEndsIff(start: U32, end: U32)
    ensures (exists n: nat :: HeightAfter(start, n) > end) <==> end < MAX_U32
  {
    if end < MAX_U32 {
      var n := if start > end then 0 else end + 1 - start;
      assert HeightAfter(start, n) > end;
    }
  }

  method IdentifyGapRanges(lookup: Lookup, startHeight: U32, endHeight: U32) returns (r: Result<seq<HeightRange>>)
    requires endHeight < MAX_U32
    ensures r.Err? <==> exists h: U32 :: startHeight <= h <= endHeight && lookup(h).Err?
    ensures r.Ok? ==> Separated(r.value)
    ensures r.Ok? ==> forall i :: 0 <= i < |r.value| ==> MaximalRun(lookup, startHeight, endHeight, r.value[i])
    ensures r.Ok? ==> Exact(lookup, startHeight, endHeight, r.value)
  {
    var rs, open: Open := [], Nil;
    var height: U32 := startHeight;
    while height <= endHeight
      invariant startHeight <= height && (height <= endHeight + 1 || height == startHeight)
      invariant Scanned(lookup, startHeight, endHeight, rs, open, height)
      invariant forall h: U32 :: startHeight <= h < height ==> lookup(h).Ok?
    {
      var found := lookup(height);
      if found.Err? {
        return Err;
      }
      if found.value.Some? {
        rs := AtIndexed(lookup, startHeight, endHeight, rs, open, height);
        open := Nil;
      } else {
        open := AtMissing(lookup, startHeight, endHeight, rs, open, height);
      }
      height := height + 1;
    }
    CoverageIs(lookup, startHeight, endHeight, rs, Cut(open, height));
    r := Ok(rs);
  }

  /** The ranges hold the missing heights that some later height up to the end closes, and no others. */
  ghost predicate Exact(lookup: Lookup, start: U32, end: U32, rs: seq<HeightRange>) {
    forall h: U32 :: Covered(rs, h) <==> start <= h <= end && Missing(lookup, h) && ClosedAbove(lookup, h, end)
  }

  /** What is left open at the end is the trailing run, which no indexed height closes. */
  lemma CoverageIs(lookup: Lookup, start: U32, end: U32, rs: seq<HeightRange>, cut: int)
    requires end < MAX_U32 && forall i :: 0 <= i < |rs| ==> MaximalRun(lookup, start, end, rs[i])
    requires forall h: U32 :: start <= h < cut && Missing(lookup, h) ==> Covered(rs, h)
    requires forall h: U32 :: cut <= h <= end ==> Missing(lookup, h)
    ensures Exact(lookup, start, end, rs)
  {
    forall h: U32 ensures Covered(rs, h) <==> start <= h <= end && Missing(lookup, h) && ClosedAbove(lookup, h, end) {
      if Covered(rs, h) {
        var i :| 0 <= i < |rs| && Covers(rs[i], h);
        assert !Missing(lookup, rs[i].end + 1);
      }
    }
  }

  /** Every missing height is found exactly when the last one looked at is indexed, as a chain tip is. */
  lemma FindsAllMissingIff(lookup: Lookup, start: U32, end: U32, rs: seq<HeightRange>)
    requires start <= end && Exact(lookup, start, end, rs)
    ensures (forall h: U32 :: start <= h <= end && Missing(lookup, h) ==> Covered(rs, h)) <==> !Missing(lookup, end)
  {
    if !Missing(lookup, end) {
      forall h: U32 | start <= h <= end && Missing(lookup, h) ensures Covered(rs, h) {
        assert h < end && ClosedAbove(lookup, h, end);
      }
    } else {
      assert !Covered(rs, end);
    }
  }

  // ---------- DBIntegrityCheck ----------

  ghost predicate Fills(blocks: seq<DBBlock>, rs: seq<HeightRange>) {
    forall h: U32 :: Covered(rs, h) ==> exists b :: b in blocks && b.height == h
  }

  /** Applying blocks never takes a height out of the index. */
  lemma HeightStays(db: DB, blocks: seq<DBBlock>, h: U32)
    requires !Missing(LookupIn(db), h) || exists b :: b in blocks && b.height == h
    ensures !Missing(LookupIn(Replay(db, blocks)), h)
  {
    ReplayHas(db, blocks, CIHeight(h));
    if b :| b in blocks && b.height == h {
      assert Calls(b, Write(CIHeight(h), b.hash));
    }
  }

  /** Once a sync has applied a block for every height of every range, no height up to the tip is missing. */
  lemma IntegrityRestored(db: DB, start: U32, tip: U32, rs: seq<HeightRange>, blocks: seq<DBBlock>)
    requires start <= tip && !Missing(LookupIn(db), tip)
    requires Exact(LookupIn(db), start, tip, rs) && Fills(blocks, rs)
    ensures forall h: U32 :: start <= h <= tip ==> !Missing(LookupIn(Replay(db, blocks)), h)
  {
    FindsAllMissingIff(LookupIn(db), start, tip, rs);
    forall h: U32 | start <= h <= tip ensures !Missing(LookupIn(Replay(db, blocks)), h) {
      HeightStays(db, blocks, h);
    }
  }

  /** A sync of one range, as a run of the pipeline that ended with a nil return. */
  datatype Sync = Sync(states: seq<Pipeline.State>, events: seq<Pipeline.Event>)

  function ConfigFor(r: HeightRange, pulls: nat, workers: nat): Pipeline.Config {
    Pipeline.Config(r.start, r.end, pulls, workers)
  }

  ghost predicate Returned(c: Pipeline.Config, y: Sync) {
    Pipeline.IsRun(c, y.states, y.events) && y.states[|y.events|].caller.ReturnedNil?
  }

  /** The heights a finished sync applied were handed to the store as blocks. */
  ghost predicate Delivered(c: Pipeline.Config, y: Sync, pulled: U32 -> DBBlock, blocks: seq<DBBlock>) {
    && Returned(c, y)
    && forall h: U32 :: h in y.states[|y.events|].applied ==> pulled(h) in blocks
  }

  /** Syncs of the ranges that all return nil apply a block for every height the ranges cover. */
  lemma SyncsFill(rs: seq<HeightRange>, pulls: nat, workers: nat, pulled: U32 -> DBBlock, blocks: seq<DBBlock>,
                  syncs: seq<Sync>)
    requires pulls >= 1 && workers >= 1 && |syncs| == |rs|
    requires forall h: U32 :: pulled(h).height == h
    requires forall i :: 0 <= i < |rs| ==> Delivered(ConfigFor(rs[i], pulls, workers), syncs[i], pulled, blocks)
    ensures Fills(blocks, rs)
  {
    forall h: U32 | Covered(rs, h) ensures exists b :: b in blocks && b.height == h {
      var i :| 0 <= i < |rs| && Covers(rs[i], h);
      var c, y := ConfigFor(rs[i], pulls, workers), syncs[i];
      Pipeline.NilMeansAllApplied(c, y.states, y.events, h);
      assert h in y.states[|y.events|].applied;
      assert pulled(h) in blocks;
    }
  }
}
