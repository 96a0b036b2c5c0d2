/** The compute index written with a block is the one the other indexes would rebuild. */
module ComputeViews {
  import opened ByteOrder
  import opened Keys
  import opened Pebble
  import opened Blocks
  import opened Runs
  import opened Seqs
  import opened Reads
  import opened FastReads
  import opened FastTweaks
  import opened ChainViews
  import opened CutThroughViews
  import opened ComputeIndexes

  ghost predicate AscendingVouts(t: DBTx) {
    forall i, j :: 0 <= i < j < |t.outs| ==> t.outs[i].vout < t.outs[j].vout
  }

  ghost predicate SameTx(s: DBTx, t: DBTx) {
    s.txid == t.txid ==> s.tweak == t.tweak && s.outs == t.outs
  }

  ghost predicate TxidFixesTx(blocks: seq<DBBlock>) {
    forall a, b, s, t {:trigger HasTx(a, s), HasTx(b, t), SameTx(s, t)} ::
      a in blocks && b in blocks && HasTx(a, s) && HasTx(b, t) ==> SameTx(s, t)
  }

  /** Fork-free runs of blocks made by the indexer. */
  ghost predicate ChainRun(blocks: seq<DBBlock>) {
    && GoodRun(blocks) && TxidFixesTx(blocks)
    && HashFixesBlock(SetOf(blocks)) && ForkFree(SetOf(blocks))
    && forall b, t {:trigger HasTx(b, t), AscendingVouts(t)} :: b in blocks && HasTx(b, t) ==> AscendingVouts(t)
  }

  // ---------- outputs read back ----------

  function OutKeyList(outs: seq<Output>): (r: seq<Bytes>)
    ensures |r| == |outs|
  {
    seq(|outs|, i requires 0 <= i < |outs| => Encode(Out(outs[i].txid, outs[i].vout)))
  }

  lemma OutKeyListAscends(t: DBTx)
    requires GoodTx(t) && AscendingVouts(t)
    ensures Ascending(OutKeyList(t.outs))
  {
    forall i, j | 0 <= i < j < |t.outs| ensures Lt(OutKeyList(t.outs)[i], OutKeyList(t.outs)[j]) {
      EncodeOrder(Out(t.outs[i].txid, t.outs[i].vout), Out(t.outs[j].txid, t.outs[j].vout));
    }
  }

  /** An output row of the run under this txid is one of the transaction's outputs, with its value. */
  lemma RowIsOutput(blocks: seq<DBBlock>, b: DBBlock, t: DBTx, v: U32) returns (i: nat)
    requires ChainRun(blocks) && b in blocks && HasTx(b, t)
    requires Encode(Out(t.txid, v)) in Replay(map[], blocks)
    ensures i < |t.outs| && t.outs[i].vout == v
    ensures Replay(map[], blocks)[Encode(Out(t.txid, v))] == ValOut(t.outs[i])
  {
    var val := Replay(map[], blocks)[Encode(Out(t.txid, v))];
    var c := RunHas(blocks, Out(t.txid, v));
    var s, o :| HasTx(c, s) && s.tweak.Some? && o in s.outs && IsOut(o, t.txid, v, val);
    assert GoodTx(s) && SameTx(s, t);
    i :| 0 <= i < |s.outs| && s.outs[i] == o;
  }

  lemma OutputIsRow(blocks: seq<DBBlock>, b: DBBlock, t: DBTx, i: nat)
    requires ChainRun(blocks) && b in blocks && HasTx(b, t) && t.tweak.Some? && i < |t.outs|
    ensures Encode(Out(t.txid, t.outs[i].vout)) in Replay(map[], blocks)
    ensures Replay(map[], blocks)[Encode(Out(t.txid, t.outs[i].vout))] == ValOut(t.outs[i])
  {
    var o := t.outs[i];
    assert GoodTx(t) && AscendingVouts(t);
    OutputCalled(b, t, i);
    RunKeeps(blocks, b, Write(Out(t.txid, o.vout), ValOut(o)));
    var j := RowIsOutput(blocks, b, t, o.vout);
    VoutFixesIndex(t, i, j);
  }

  lemma OutputCalled(b: DBBlock, t: DBTx, i: nat)
    requires HasTx(b, t) && t.tweak.Some? && GoodTx(t) && i < |t.outs|
    ensures Calls(b, Write(Out(t.txid, t.outs[i].vout), ValOut(t.outs[i])))
  {
    var o := t.outs[i];
    assert o in t.outs && IsOut(o, t.txid, o.vout, ValOut(o));
  }

  lemma VoutFixesIndex(t: DBTx, i: nat, j: nat)
    requires AscendingVouts(t) && i < |t.outs| && j < |t.outs| && t.outs[i].vout == t.outs[j].vout
    ensures i == j
  {
  }

  lemma ScanIsOutKeyList(blocks: seq<DBBlock>, b: DBBlock, t: DBTx)
    requires ChainRun(blocks) && b in blocks && HasTx(b, t) && t.tweak.Some?
    requires WellFormed(Replay(map[], blocks))
    ensures Scan(Replay(map[], blocks), BoundsOut(t.txid)) == OutKeyList(t.outs)
  {
    var db := Replay(map[], blocks);
    var keys := OutKeyList(t.outs);
    assert GoodTx(t) && AscendingVouts(t);
    OutKeyListAscends(t);
    forall k ensures k in Scan(db, BoundsOut(t.txid)) <==> k in keys {
      if k in Scan(db, BoundsOut(t.txid)) {
        ScanOut(db, t.txid, k);
        var v: U32 :| v != MAX_U32 && k == Encode(Out(t.txid, v));
        var i := RowIsOutput(blocks, b, t, v);
        assert keys[i] == k;
      }
      if k in keys {
        var i :| 0 <= i < |keys| && keys[i] == k;
        OutputIsRow(blocks, b, t, i);
        ScanOut(db, t.txid, k);
      }
    }
    AscendingUnique(Scan(db, BoundsOut(t.txid)), keys);
  }

  lemma ParseValOut(o: Output)
    requires |o.pubkey| == 32
    ensures OutRow(o.txid, Encode(Out(o.txid, o.vout)), ValOut(o)) == Ok(o)
  {
    var k, v := Encode(Out(o.txid, o.vout)), ValOut(o);
    OutKeyForm(k, Out(o.txid, o.vout), o.txid);
    LE64RoundTrip(o.amount);
    assert v[..8] == LE64(o.amount) && v[8..] == o.pubkey;
  }

  /** `OutputsForTx` returns a stored transaction's outputs exactly as they were applied. */
  lemma OutputsReadBack(blocks: seq<DBBlock>, b: DBBlock, t: DBTx)
    requires ChainRun(blocks) && b in blocks && HasTx(b, t) && t.tweak.Some?
    ensures WellFormed(Replay(map[], blocks)) && TxOutputs(Replay(map[], blocks), t.txid) == Ok(t.outs)
  {
    RunWellFormed(blocks);
    var db := Replay(map[], blocks);
    var keys := OutKeyList(t.outs);
    ScanIsOutKeyList(blocks, b, t);
    ScanOutKeys(db, t.txid);
    assert GoodTx(t);
    forall i | 0 <= i < |keys|
      ensures |db[keys[i]]| == 40 && OutRow(t.txid, keys[i], db[keys[i]]) == Ok(t.outs[i])
    {
      OutputIsRow(blocks, b, t, i);
      ParseValOut(t.outs[i]);
    }
    OutRowsOk(db, t.txid, keys);
    assert OutRows(db, t.txid, keys).value == t.outs;
  }

  // ---------- tweaks and txids read back ----------

  lemma TweakReadBack(blocks: seq<DBBlock>, b: DBBlock, t: DBTx)
    requires ChainRun(blocks) && b in blocks && HasTx(b, t)
    ensures LoadTweak(Replay(map[], blocks), t.txid) == (match t.tweak case None => None case Some(v) => Some(v))
  {
    if Encode(Tx(t.txid)) in Replay(map[], blocks) {
      var c := RunHas(blocks, Tx(t.txid));
      var s :| HasTx(c, s) && s.txid == t.txid && s.tweak.Some?
        && s.tweak.value == Replay(map[], blocks)[Encode(Tx(t.txid))];
      assert SameTx(s, t);
    } else if t.tweak.Some? {
      RunKeeps(blocks, b, Write(Tx(t.txid), t.tweak.value));
    }
  }

  lemma BlockTxReadBack(blocks: seq<DBBlock>, b: DBBlock, pos: U32)
    requires ChainRun(blocks) && b in blocks
    ensures Encode(BlockTx(b.hash, pos)) in Replay(map[], blocks) <==> pos < |b.txs| && b.txs[pos].Some?
    ensures Encode(BlockTx(b.hash, pos)) in Replay(map[], blocks) ==>
      Replay(map[], blocks)[Encode(BlockTx(b.hash, pos))] == b.txs[pos].value.txid
  {
    if Encode(BlockTx(b.hash, pos)) in Replay(map[], blocks) {
      var c := RunHas(blocks, BlockTx(b.hash, pos));
      assert c in SetOf(blocks) && b in SetOf(blocks);
    } else if pos < |b.txs| && b.txs[pos].Some? {
      RunKeeps(blocks, b, Write(BlockTx(b.hash, pos), b.txs[pos].value.txid));
    }
  }

  lemma BlockTxRow(blocks: seq<DBBlock>, b: DBBlock, i: nat)
    requires ChainRun(blocks) && b in blocks && WellFormed(Replay(map[], blocks))
    requires i < |Scan(Replay(map[], blocks), BoundsBlockTx(b.hash))|
    ensures var db := Replay(map[], blocks); var k := Scan(db, BoundsBlockTx(b.hash))[i];
      k in db && |db[k]| == 32 && exists t :: HasTx(b, t) && t.txid == db[k]
  {
    var db := Replay(map[], blocks);
    var k := Scan(db, BoundsBlockTx(b.hash))[i];
    assert k in Scan(db, BoundsBlockTx(b.hash));
    var key := KeyOf(db, k);
    BoundsExact(BoundsBlockTx(b.hash), key);
    BlockTxReadBack(blocks, b, key.pos);
    assert HasTx(b, b.txs[key.pos].value);
  }

  lemma BlockTxRowOf(blocks: seq<DBBlock>, b: DBBlock, t: DBTx) returns (i: nat)
    requires ChainRun(blocks) && b in blocks && HasTx(b, t)
    ensures var db := Replay(map[], blocks); var keys := Scan(db, BoundsBlockTx(b.hash));
      i < |keys| && keys[i] in db && db[keys[i]] == t.txid
  {
    var pos := IndexOf(b, t);
    BlockTxReadBack(blocks, b, pos);
    BoundsExact(BoundsBlockTx(b.hash), BlockTx(b.hash, pos));
    var keys := Scan(Replay(map[], blocks), BoundsBlockTx(b.hash));
    i :| 0 <= i < |keys| && keys[i] == Encode(BlockTx(b.hash, pos));
  }

  /** `BlockTxids` names exactly the stored transactions of the block. */
  lemma TxidsReadBack(blocks: seq<DBBlock>, b: DBBlock, txid: Hash)
    requires ChainRun(blocks) && b in blocks
    ensures Txids(Replay(map[], blocks), b.hash).Ok?
    ensures txid in Txids(Replay(map[], blocks), b.hash).value <==> exists t :: HasTx(b, t) && t.txid == txid
  {
    RunWellFormed(blocks);
    RunTxids(blocks, b.hash);
    var db := Replay(map[], blocks);
    var keys := Scan(db, BoundsBlockTx(b.hash));
    forall i | 0 <= i < |keys| ensures keys[i] in db && |db[keys[i]]| == 32
      ensures exists t :: HasTx(b, t) && t.txid == db[keys[i]]
    {
      BlockTxRow(blocks, b, i);
    }
    TxidRowsOk(db, keys);
    if t :| HasTx(b, t) && t.txid == txid {
      var i := BlockTxRowOf(blocks, b, t);
      assert Txids(db, b.hash).value[i] == txid;
    }
  }

  lemma TweakParts(blocks: seq<DBBlock>, hash: Hash)
    ensures Txids(Replay(map[], blocks), hash).Ok?
    ensures BlockTweaks(Replay(map[], blocks), hash)
      == Ok(Flatten(RefTweaks(Replay(map[], blocks), Txids(Replay(map[], blocks), hash).value)))
  {
    RunTxids(blocks, hash);
    var db := Replay(map[], blocks);
    var txids := Txids(db, hash).value;
    forall i | 0 <= i < |txids| && LoadTweak(db, txids[i]).Some?
      ensures |LoadTweak(db, txids[i]).value| == 33
    {
      RunTweak(blocks, txids[i]);
    }
    TweaksMatchReference(db, hash);
  }

  /** A tweak row of the block is one of its tweaked transactions, and every one has a row. */
  lemma TweakRowsReadBack(blocks: seq<DBBlock>, b: DBBlock, row: TweakRow)
    requires ChainRun(blocks) && b in blocks
    ensures BlockTweaks(Replay(map[], blocks), b.hash).Ok?
    ensures row in BlockTweaks(Replay(map[], blocks), b.hash).value <==>
      exists t :: HasTx(b, t) && t.txid == row.txid && t.tweak == Some(row.tweak)
  {
    var db := Replay(map[], blocks);
    TweakParts(blocks, b.hash);
    TxidsReadBack(blocks, b, row.txid);
    var txids := Txids(db, b.hash).value;
    var parts := RefTweaks(db, txids);
    FlattenMember(parts, row);
    if i :| 0 <= i < |parts| && row in parts[i] {
      assert parts[i] == RefTweakAt(db, txids[i]) && row.txid == txids[i];
      var t :| HasTx(b, t) && t.txid == row.txid;
      TweakReadBack(blocks, b, t);
      assert Fit33(t.tweak.value) == t.tweak.value;
    }
    if t :| HasTx(b, t) && t.txid == row.txid && t.tweak == Some(row.tweak) {
      TweakReadBack(blocks, b, t);
      assert Fit33(t.tweak.value) == t.tweak.value;
      var i :| 0 <= i < |txids| && txids[i] == row.txid;
      assert row in parts[i];
    }
  }

  // ---------- rebuilding a height ----------

  /** The block indexed at a height, if any. */
  lemma BlockAt(blocks: seq<DBBlock>, h: U32) returns (b: Option<DBBlock>)
    requires ChainRun(blocks)
    ensures b.Some? ==> b.value in blocks && b.value.height == h
    ensures b.Some? ==> HashToRebuild(Replay(map[], blocks), h) == b.value.hash
    ensures b.None? ==> GetBlockHashByHeight(Replay(map[], blocks), h).None?
    ensures b.None? ==> forall c :: c in blocks ==> c.height != h
  {
    if Encode(CIHeight(h)) in Replay(map[], blocks) {
      var c := RunHas(blocks, CIHeight(h));
      return Some(c);
    }
    forall c | c in blocks ensures c.height != h {
      if c.height == h { RunKeeps(blocks, c, Write(CIHeight(h), c.hash)); }
    }
    b := None;
  }

  lemma {:induction false} ShortsAreOutShorts(outs: seq<Output>)
    requires forall i :: 0 <= i < |outs| ==> |outs[i].pubkey| == 32
    ensures Flatten(Shorts(outs)) == OutShorts(outs)
  {
    if outs != [] {
      var n := |outs| - 1;
      ShortsAreOutShorts(outs[..n]);
      assert Shorts(outs)[..n] == Shorts(outs[..n]);
      FlattenNext(Shorts(outs), n);
      assert Shorts(outs)[..n + 1] == Shorts(outs);
    }
  }

  /** The entry a rebuild computes for a transaction is the row its block wrote. */
  lemma EntryIsRow(blocks: seq<DBBlock>, b: DBBlock, t: DBTx, e: Entry)
    requires ChainRun(blocks) && b in blocks && HasTx(b, t) && t.tweak.Some?
    requires e == Entry(t.txid, b.height, t.tweak.value, Shorts(t.outs))
    ensures var w := EntryWrite(e);
      Encode(w.key) in Replay(map[], blocks) && Replay(map[], blocks)[Encode(w.key)] == w.val
  {
    assert GoodTx(t);
    ShortsAreOutShorts(t.outs);
    var w := EntryWrite(e);
    assert IsComputeData(t, w.val);
    RunKeeps(blocks, b, w);
    var c := RunHas(blocks, w.key);
    assert b in SetOf(blocks) && c in SetOf(blocks);
    var s :| HasTx(c, s) && s.txid == t.txid && IsComputeData(s, Replay(map[], blocks)[Encode(w.key)]);
    assert SameTx(s, t);
  }

  lemma RebuiltEntryIs(blocks: seq<DBBlock>, b: DBBlock, t: DBTx)
    requires ChainRun(blocks) && b in blocks && HasTx(b, t) && t.tweak.Some?
    requires WellFormed(Replay(map[], blocks))
    ensures RebuiltEntry(Replay(map[], blocks), b.height, TweakRow(t.txid, t.tweak.value))
      == Ok([Entry(t.txid, b.height, t.tweak.value, Shorts(t.outs))])
  {
    OutputsReadBack(blocks, b, t);
  }

  ghost predicate IsEntryOf(b: DBBlock, e: Entry) {
    exists t :: HasTx(b, t) && t.tweak.Some? && e == Entry(t.txid, b.height, t.tweak.value, Shorts(t.outs))
  }

  lemma RebuiltRow(blocks: seq<DBBlock>, b: DBBlock, row: TweakRow)
    requires ChainRun(blocks) && b in blocks && WellFormed(Replay(map[], blocks))
    requires BlockTweaks(Replay(map[], blocks), b.hash).Ok?
    requires row in BlockTweaks(Replay(map[], blocks), b.hash).value
    ensures var r := RebuiltEntry(Replay(map[], blocks), b.height, row);
      r.Ok? && |r.value| == 1 && IsEntryOf(b, r.value[0])
  {
    TweakRowsReadBack(blocks, b, row);
    var t :| HasTx(b, t) && t.txid == row.txid && t.tweak == Some(row.tweak);
    RebuiltEntryIs(blocks, b, t);
  }

  lemma RebuiltJoin(blocks: seq<DBBlock>, b: DBBlock) returns (rows: seq<TweakRow>, parts: seq<seq<Entry>>)
    requires ChainRun(blocks) && b in blocks && HashToRebuild(Replay(map[], blocks), b.height) == b.hash
    ensures WellFormed(Replay(map[], blocks))
    ensures BlockTweaks(Replay(map[], blocks), b.hash) == Ok(rows) && |parts| == |rows|
    ensures Rebuilt(Replay(map[], blocks), b.height) == Ok(Flatten(parts))
    ensures forall i :: 0 <= i < |rows| ==> RebuiltEntry(Replay(map[], blocks), b.height, rows[i]) == Ok(parts[i])
    ensures forall i :: 0 <= i < |rows| ==> |parts[i]| == 1 && IsEntryOf(b, parts[i][0])
  {
    RunWellFormed(blocks);
    var db := Replay(map[], blocks);
    TweakParts(blocks, b.hash);
    rows := BlockTweaks(db, b.hash).value;
    var rs := RebuiltEntries(db, b.height, rows);
    forall i | 0 <= i < |rows| ensures rs[i].Ok? && |rs[i].value| == 1 && IsEntryOf(b, rs[i].value[0]) {
      assert rows[i] in rows;
      RebuiltRow(blocks, b, rows[i]);
    }
    parts := seq(|rs|, i requires 0 <= i < |rs| => rs[i].value);
    JoinOk(rs, parts);
  }

  /** A rebuild of an indexed height computes one entry per tweaked transaction of its block. */
  lemma RebuiltIs(blocks: seq<DBBlock>, b: DBBlock, e: Entry)
    requires ChainRun(blocks) && b in blocks && HashToRebuild(Replay(map[], blocks), b.height) == b.hash
    ensures WellFormed(Replay(map[], blocks)) && Rebuilt(Replay(map[], blocks), b.height).Ok?
    ensures e in Rebuilt(Replay(map[], blocks), b.height).value <==> IsEntryOf(b, e)
  {
    var rows, parts := RebuiltJoin(blocks, b);
    FlattenMember(parts, e);
    if IsEntryOf(b, e) {
      var row := EntryHasRow(blocks, b, e);
      var i :| 0 <= i < |rows| && rows[i] == row;
      assert e in parts[i];
    }
  }

  lemma EntryHasRow(blocks: seq<DBBlock>, b: DBBlock, e: Entry) returns (row: TweakRow)
    requires ChainRun(blocks) && b in blocks && WellFormed(Replay(map[], blocks)) && IsEntryOf(b, e)
    ensures BlockTweaks(Replay(map[], blocks), b.hash).Ok?
    ensures row in BlockTweaks(Replay(map[], blocks), b.hash).value
    ensures RebuiltEntry(Replay(map[], blocks), b.height, row) == Ok([e])
  {
    var t :| HasTx(b, t) && t.tweak.Some? && e == Entry(t.txid, b.height, t.tweak.value, Shorts(t.outs));
    row := TweakRow(t.txid, t.tweak.value);
    TweakRowsReadBack(blocks, b, row);
    RebuiltEntryIs(blocks, b, t);
  }

  /** Nothing was ever stored under the all-zero hash, so an unindexed height rebuilds to nothing. */
  lemma RebuiltMissing(blocks: seq<DBBlock>, h: U32)
    requires GetBlockHashByHeight(Replay(map[], blocks), h).None?
    requires forall b :: b in blocks ==> b.hash != ZERO_HASH
    ensures WellFormed(Replay(map[], blocks)) && Rebuilt(Replay(map[], blocks), h) == Ok([])
  {
    RunWellFormed(blocks);
    var db := Replay(map[], blocks);
    var keys := Scan(db, BoundsBlockTx(ZERO_HASH));
    if keys != [] {
      assert keys[0] in keys;
      var key := KeyOf(db, keys[0]);
      BoundsExact(BoundsBlockTx(ZERO_HASH), key);
      var b := RunHas(blocks, key);
    }
    assert Txids(db, ZERO_HASH) == Ok([]);
    assert TweaksPerTx(db, []) == [];
  }

  /** Rebuilding the compute index of any height leaves the store as it was. */
  lemma RebuildLeavesStore(blocks: seq<DBBlock>, h: U32)
    requires ChainRun(blocks)
    requires GetBlockHashByHeight(Replay(map[], blocks), h).Some? || forall b :: b in blocks ==> b.hash != ZERO_HASH
    ensures WellFormed(Replay(map[], blocks)) && Rebuilt(Replay(map[], blocks), h).Ok?
    ensures Put(Replay(map[], blocks), EntryWrites(Rebuilt(Replay(map[], blocks), h).value)) == Replay(map[], blocks)
  {
    var db := Replay(map[], blocks);
    var at := BlockAt(blocks, h);
    if at.None? {
      RebuiltMissing(blocks, h);
    } else {
      var b := at.value;
      RunWellFormed(blocks);
      TweakParts(blocks, b.hash);
      RebuiltIs(blocks, b, Entry(ZERO_HASH, h, Fill(0, 33), []));
      var entries := Rebuilt(db, h).value;
      forall i | 0 <= i < |entries|
        ensures var w := EntryWrites(entries)[i]; Encode(w.key) in db && db[Encode(w.key)] == w.val
      {
        assert entries[i] in entries;
        RebuiltIs(blocks, b, entries[i]);
        var t :| HasTx(b, t) && t.tweak.Some?
          && entries[i] == Entry(t.txid, b.height, t.tweak.value, Shorts(t.outs));
        EntryIsRow(blocks, b, t, entries[i]);
      }
      PutNoop(db, EntryWrites(entries));
    }
  }

  /** Every stored entry of a height is one the rebuild computes, so the two agree as txid-keyed maps. */
  lemma StoredIsRebuilt(blocks: seq<DBBlock>, h: U32, txid: Hash)
    requires ChainRun(blocks) && Encode(ComputeIndex(h, txid)) in Replay(map[], blocks)
    ensures WellFormed(Replay(map[], blocks)) && Rebuilt(Replay(map[], blocks), h).Ok?
    ensures var val := Replay(map[], blocks)[Encode(ComputeIndex(h, txid))];
      exists e :: e in Rebuilt(Replay(map[], blocks), h).value && e.txid == txid && EntryData(e) == val
  {
    var db := Replay(map[], blocks);
    var val := db[Encode(ComputeIndex(h, txid))];
    var b := RunHas(blocks, ComputeIndex(h, txid));
    var t :| HasTx(b, t) && t.txid == txid && IsComputeData(t, val);
    var at := BlockAt(blocks, h);
    assert b in SetOf(blocks) && at.value in SetOf(blocks);
    var e := Entry(t.txid, h, t.tweak.value, Shorts(t.outs));
    RebuiltIs(blocks, b, e);
    assert GoodTx(t);
    ShortsAreOutShorts(t.outs);
  }

  /** `FetchComputeIndex` hands out exactly the rebuilt entries, txid for txid; the all-0xFF txid is out of
      its range. */
  lemma FetchIsRebuilt(blocks: seq<DBBlock>, h: U32, txid: Hash)
    requires ChainRun(blocks) && txid != MAX_HASH && GetBlockHashByHeight(Replay(map[], blocks), h).Some?
    ensures WellFormed(Replay(map[], blocks)) && Rebuilt(Replay(map[], blocks), h).Ok?
    ensures ComputeRows(Replay(map[], blocks), Scan(Replay(map[], blocks), BoundsComputeIndex(h, h)))
    ensures var db := Replay(map[], blocks);
      var items := Items(db, Scan(db, BoundsComputeIndex(h, h)));
      forall tweak, shorts :: ComputeItem(Reverse(txid), tweak, shorts) in items <==>
        exists e :: e in Rebuilt(db, h).value && IsItemOf(e, txid, tweak, shorts)
  {
    RunWellFormed(blocks);
    var db := Replay(map[], blocks);
    var keys := Scan(db, BoundsComputeIndex(h, h));
    forall i | 0 <= i < |keys| ensures keys[i] in db && |keys[i]| >= 5 && |db[keys[i]]| >= 33 {
      assert keys[i] in keys;
      var key := ComputeKeyForm(db, h, keys[i]);
      var b := RunHas(blocks, ComputeIndex(h, key));
    }
    var at := BlockAt(blocks, h);
    RebuiltIs(blocks, at.value, Entry(ZERO_HASH, h, Fill(0, 33), []));
    var items := Items(db, keys);
    forall tweak, shorts ensures ComputeItem(Reverse(txid), tweak, shorts) in items <==>
      exists e :: e in Rebuilt(db, h).value && IsItemOf(e, txid, tweak, shorts)
    {
      var item := ComputeItem(Reverse(txid), tweak, shorts);
      if item in items {
        ItemIsRebuilt(blocks, h, txid, item, keys);
      }
      if e :| e in Rebuilt(db, h).value && IsItemOf(e, txid, tweak, shorts) {
        RebuiltIsItem(blocks, at.value, e, keys);
      }
    }
  }

  lemma ComputeKeyForm(db: DB, h: U32, k: Bytes) returns (txid: Hash)
    requires WellFormed(db) && k in Scan(db, BoundsComputeIndex(h, h))
    ensures k == Encode(ComputeIndex(h, txid)) && |k| == 37 && k[5..] == txid
  {
    var key := KeyOf(db, k);
    BoundsExact(BoundsComputeIndex(h, h), key);
    txid := key.txid;
    assert k == [0x0D] + BE32(h) + txid;
    assert k[5..] == txid;
  }

  lemma ComputeKeyAt(db: DB, h: U32, txid: Hash) returns (i: nat)
    requires WellFormed(db) && txid != MAX_HASH && Encode(ComputeIndex(h, txid)) in db
    ensures var keys := Scan(db, BoundsComputeIndex(h, h));
      i < |keys| && keys[i] == Encode(ComputeIndex(h, txid)) && |keys[i]| == 37 && keys[i][5..] == txid
  {
    var k, keys := Encode(ComputeIndex(h, txid)), Scan(db, BoundsComputeIndex(h, h));
    BoundsExact(BoundsComputeIndex(h, h), ComputeIndex(h, txid));
    i :| 0 <= i < |keys| && keys[i] == k;
    var id := ComputeKeyForm(db, h, k);
    EncodeInjective(ComputeIndex(h, id), ComputeIndex(h, txid));
  }

  predicate IsItemOf(e: Entry, txid: Hash, tweak: Bytes, shorts: Bytes) {
    e.txid == txid && e.tweak == tweak && Flatten(e.shorts) == shorts
  }

  lemma ItemIsRebuilt(blocks: seq<DBBlock>, h: U32, txid: Hash, item: ComputeItem, keys: seq<Bytes>)
    requires ChainRun(blocks) && item.txid == Reverse(txid)
    requires WellFormed(Replay(map[], blocks)) && Rebuilt(Replay(map[], blocks), h).Ok?
    requires keys == Scan(Replay(map[], blocks), BoundsComputeIndex(h, h))
    requires ComputeRows(Replay(map[], blocks), keys) && item in Items(Replay(map[], blocks), keys)
    ensures exists e :: e in Rebuilt(Replay(map[], blocks), h).value && IsItemOf(e, txid, item.tweak, item.outputsShort)
  {
    var db := Replay(map[], blocks);
    var i :| 0 <= i < |keys| && Items(db, keys)[i] == item;
    assert keys[i] in keys;
    var id := ComputeKeyForm(db, h, keys[i]);
    ReverseInvolutive(id);
    ReverseInvolutive(txid);
    StoredIsRebuilt(blocks, h, txid);
    var e :| e in Rebuilt(db, h).value && e.txid == txid && EntryData(e) == db[keys[i]];
    assert EntryData(e)[..33] == e.tweak && EntryData(e)[33..] == Flatten(e.shorts);
    assert IsItemOf(e, txid, item.tweak, item.outputsShort);
  }

  lemma RebuiltIsItem(blocks: seq<DBBlock>, b: DBBlock, e: Entry, keys: seq<Bytes>)
    requires ChainRun(blocks) && b in blocks && e.txid != MAX_HASH
    requires HashToRebuild(Replay(map[], blocks), b.height) == b.hash
    requires WellFormed(Replay(map[], blocks)) && Rebuilt(Replay(map[], blocks), b.height).Ok?
    requires e in Rebuilt(Replay(map[], blocks), b.height).value
    requires keys == Scan(Replay(map[], blocks), BoundsComputeIndex(b.height, b.height))
    requires ComputeRows(Replay(map[], blocks), keys)
    ensures ComputeItem(Reverse(e.txid), e.tweak, Flatten(e.shorts)) in Items(Replay(map[], blocks), keys)
  {
    var db, h := Replay(map[], blocks), b.height;
    RebuiltIs(blocks, b, e);
    var t :| HasTx(b, t) && t.tweak.Some? && e == Entry(t.txid, h, t.tweak.value, Shorts(t.outs));
    EntryIsRow(blocks, b, t, e);
    var i := ComputeKeyAt(db, h, e.txid);
    assert EntryData(e)[..33] == e.tweak && EntryData(e)[33..] == Flatten(e.shorts);
    assert Items(db, keys)[i] == ComputeItem(Reverse(e.txid), e.tweak, Flatten(e.shorts));
  }
}
