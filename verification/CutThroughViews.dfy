/** On stores built by applying blocks, the cut-through queries are views of one another. */
module CutThroughViews {
  import opened ByteOrder
  import opened Keys
  import opened Pebble
  import opened Blocks
  import opened Attach
  import opened Runs
  import opened Seqs
  import opened Reads
  import opened FastReads
  import opened FastTweaks
  import opened FetchEquivalence
  import opened ChainViews
  import opened CutThrough

  /** Transactions as the indexer makes them: storable, outputs under their own txid and below the top vout. */
  ghost predicate GoodTx(t: DBTx) {
    && EncodableTx(t)
    && forall i :: 0 <= i < |t.outs| ==> t.outs[i].txid == t.txid && t.outs[i].vout < MAX_U32
  }

  ghost predicate GoodRun(blocks: seq<DBBlock>) {
    && HashFixesHeight(blocks)
    && forall b, t {:trigger HasTx(b, t), GoodTx(t)} :: b in blocks && HasTx(b, t) ==> GoodTx(t)
  }

  function BestChain(db: DB): ActiveHeight {
    (hash: Hash) => match HeightIfOnBestChain(db, hash) case Err => None case Ok(h) => h
  }

  // ---------- what every such store satisfies ----------

  lemma RunOut(blocks: seq<DBBlock>, txid: Hash, v: U32)
    requires GoodRun(blocks) && Encode(Out(txid, v)) in Replay(map[], blocks)
    ensures |Replay(map[], blocks)[Encode(Out(txid, v))]| == 40 && v != MAX_U32
    ensures LoadTweak(Replay(map[], blocks), txid).Some?
  {
    var val := Replay(map[], blocks)[Encode(Out(txid, v))];
    var b := RunHas(blocks, Out(txid, v));
    var t, o :| HasTx(b, t) && t.tweak.Some? && o in t.outs && IsOut(o, txid, v, val);
    assert GoodTx(t);
    RunKeeps(blocks, b, Write(Tx(txid), t.tweak.value));
  }

  lemma RunTweak(blocks: seq<DBBlock>, txid: Hash)
    ensures var v := LoadTweak(Replay(map[], blocks), txid); v.Some? ==> |v.value| == 33
  {
    if Encode(Tx(txid)) in Replay(map[], blocks) {
      var b := RunHas(blocks, Tx(txid));
    }
  }

  lemma {:induction false} TxidRowsOk(db: DB, keys: seq<Bytes>)
    requires forall i :: 0 <= i < |keys| ==> keys[i] in db && |db[keys[i]]| == 32
    ensures TxidRows(db, keys).Ok? && |TxidRows(db, keys).value| == |keys|
    ensures forall i :: 0 <= i < |keys| ==> TxidRows(db, keys).value[i] == db[keys[i]]
  {
    if keys != [] { TxidRowsOk(db, keys[..|keys| - 1]); }
  }

  lemma RunTxids(blocks: seq<DBBlock>, hash: Hash)
    ensures Txids(Replay(map[], blocks), hash).Ok?
  {
    RunWellFormed(blocks);
    var db := Replay(map[], blocks);
    var keys := Scan(db, BoundsBlockTx(hash));
    forall i | 0 <= i < |keys| ensures keys[i] in db && |db[keys[i]]| == 32 {
      assert keys[i] in keys;
      var key := KeyOf(db, keys[i]);
      BoundsExact(BoundsBlockTx(hash), key);
      var b := RunHas(blocks, key);
    }
    TxidRowsOk(db, keys);
  }

  /** Both output reads succeed and agree; every output is under its own txid and has a tweak. */
  lemma RunOutputs(blocks: seq<DBBlock>, txid: Hash)
    requires GoodRun(blocks) && WellFormed(Replay(map[], blocks))
    ensures var db := Replay(map[], blocks);
      && TxOutputs(db, txid).Ok? && AllOutputs(db, txid) == TxOutputs(db, txid)
      && (TxOutputs(db, txid).value != [] ==> LoadTweak(db, txid).Some?)
  {
    var db := Replay(map[], blocks);
    forall t: Hash, v: U32 | Encode(Out(t, v)) in db ensures |db[Encode(Out(t, v))]| == 40 {
      RunOut(blocks, t, v);
    }
    RowCounts(db, txid);
    if TopVout(db, txid) { RunOut(blocks, txid, MAX_U32); }
    NoTopSame(db, txid);
    if TxKeys(db, txid) != [] {
      var k := TxKeys(db, txid)[0];
      assert k in TxKeys(db, txid);
      var key := KeyOf(db, k);
      OutKeyForm(k, key, txid);
      RunOut(blocks, txid, key.vout);
    }
  }

  lemma {:induction false} OutRowsTxid(db: DB, txid: Hash, keys: seq<Bytes>)
    requires OutKeys(db, keys) && OutRows(db, txid, keys).Ok?
    ensures forall i :: 0 <= i < |OutRows(db, txid, keys).value| ==> OutRows(db, txid, keys).value[i].txid == txid
  {
    if keys != [] { OutRowsTxid(db, txid, keys[..|keys| - 1]); }
  }

  /** Both spend tests are the same question about the applied blocks. */
  lemma RunSpent(blocks: seq<DBBlock>, txid: Hash, vout: U32, H: U32)
    requires HashFixesHeight(blocks) && WellFormed(Replay(map[], blocks))
    ensures SpentTip(Replay(map[], blocks), txid, vout, H) == Ok(SpentBy(blocks, txid, vout, H))
    ensures SpentActive(Replay(map[], blocks), txid, vout, H, BestChain(Replay(map[], blocks)))
      <==> SpentBy(blocks, txid, vout, H)
  {
    var db := Replay(map[], blocks);
    SpentExact(blocks, txid, vout, H);
    ScanSpendKeys(db, txid, vout);
    var keys := Scan(db, BoundsSpend(txid, vout));
    forall i | 0 <= i < |keys|
      ensures Counts(db, keys[i], H).Ok?
      ensures Active(BestChain(db), keys[i], H) <==> Counts(db, keys[i], H) == Ok(true)
    {
      assert keys[i] in keys;
      CountedBy(blocks, txid, vout, H, keys[i]);
    }
    FirstHitIs(db, keys, H);
  }

  // ---------- the three reads in terms of the blocks ----------

  ghost predicate Alive(blocks: seq<DBBlock>, o: Output, H: U32, dust: U64) {
    o.amount >= dust && !SpentBy(blocks, o.txid, o.vout, H)
  }

  ghost predicate AnyAlive(blocks: seq<DBBlock>, outs: seq<Output>, H: U32, dust: U64) {
    exists i :: 0 <= i < |outs| && Alive(blocks, outs[i], H, dust)
  }

  /** The outputs a run holds for a transaction. */
  ghost function RunOuts(blocks: seq<DBBlock>, txid: Hash): (outs: seq<Output>)
    requires GoodRun(blocks)
    ensures WellFormed(Replay(map[], blocks))
    ensures TxOutputs(Replay(map[], blocks), txid) == Ok(outs) == AllOutputs(Replay(map[], blocks), txid)
    ensures forall i :: 0 <= i < |outs| ==> outs[i].txid == txid
  {
    RunWellFormed(blocks);
    RunOutputs(blocks, txid);
    OutRowsTxid(Replay(map[], blocks), txid, TxKeys(Replay(map[], blocks), txid));
    TxOutputs(Replay(map[], blocks), txid).value
  }

  /** The row sent for a transaction when something of it is alive. */
  ghost function AliveRow(blocks: seq<DBBlock>, txid: Hash, H: U32, dust: U64): seq<TweakRow>
    requires GoodRun(blocks)
  {
    var v := LoadTweak(Replay(map[], blocks), txid);
    if v.Some? && AnyAlive(blocks, RunOuts(blocks, txid), H, dust) then [TweakRow(txid, Fit33(v.value))] else []
  }

  ghost function AliveRows(blocks: seq<DBBlock>, txids: seq<Hash>, H: U32, dust: U64): (r: seq<seq<TweakRow>>)
    requires GoodRun(blocks)
    ensures |r| == |txids|
  {
    seq(|txids|, i requires 0 <= i < |txids| => AliveRow(blocks, txids[i], H, dust))
  }

  lemma DustRowIs(blocks: seq<DBBlock>, txid: Hash, H: U32, dust: U64)
    requires GoodRun(blocks) && WellFormed(Replay(map[], blocks))
    ensures DustRow(Replay(map[], blocks), txid, H, dust, BestChain(Replay(map[], blocks)))
      == Ok(AliveRow(blocks, txid, H, dust))
  {
    var db, outs := Replay(map[], blocks), RunOuts(blocks, txid);
    forall i | 0 <= i < |outs|
      ensures Survives(db, txid, outs[i], H, dust, BestChain(db)) <==> Alive(blocks, outs[i], H, dust)
    {
      RunSpent(blocks, txid, outs[i].vout, H);
    }
  }

  lemma {:induction false} AnyUnspentIs(blocks: seq<DBBlock>, txid: Hash, outs: seq<Output>, H: U32)
    requires GoodRun(blocks) && WellFormed(Replay(map[], blocks))
    requires forall i :: 0 <= i < |outs| ==> outs[i].txid == txid
    ensures AnyUnspent(Replay(map[], blocks), txid, outs, H) == Ok(AnyAlive(blocks, outs, H, 0))
  {
    if outs != [] {
      RunSpent(blocks, txid, outs[0].vout, H);
      AnyUnspentIs(blocks, txid, outs[1..], H);
      if Alive(blocks, outs[0], H, 0) {
        assert AnyAlive(blocks, outs, H, 0);
      } else if i :| 0 <= i < |outs| && Alive(blocks, outs[i], H, 0) {
        assert Alive(blocks, outs[1..][i - 1], H, 0);
      } else {
        assert !AnyAlive(blocks, outs[1..], H, 0);
      }
    }
  }

  lemma CutRowIs(blocks: seq<DBBlock>, txid: Hash, H: U32)
    requires GoodRun(blocks) && WellFormed(Replay(map[], blocks))
    ensures CutRow(Replay(map[], blocks), txid, H) == Ok(AliveRow(blocks, txid, H, 0))
  {
    AnyUnspentIs(blocks, txid, RunOuts(blocks, txid), H);
  }

  lemma DustTweaksIs(blocks: seq<DBBlock>, hash: Hash, H: U32, dust: U64)
    requires GoodRun(blocks)
    ensures WellFormed(Replay(map[], blocks)) && Txids(Replay(map[], blocks), hash).Ok?
    ensures var db := Replay(map[], blocks);
      DustTweaks(db, hash, H, dust, BestChain(db)) == Ok(Flatten(AliveRows(blocks, Txids(db, hash).value, H, dust)))
  {
    RunWellFormed(blocks);
    RunTxids(blocks, hash);
    var db := Replay(map[], blocks);
    var txids := Txids(db, hash).value;
    var rs := DustRows(db, txids, H, dust, BestChain(db));
    forall i | 0 <= i < |txids| ensures rs[i] == Ok(AliveRows(blocks, txids, H, dust)[i]) {
      DustRowIs(blocks, txids[i], H, dust);
    }
    JoinOk(rs, AliveRows(blocks, txids, H, dust));
  }

  lemma CutTweaksIs(blocks: seq<DBBlock>, hash: Hash, H: U32)
    requires GoodRun(blocks)
    ensures WellFormed(Replay(map[], blocks)) && Txids(Replay(map[], blocks), hash).Ok?
    ensures var db := Replay(map[], blocks);
      CutTweaks(db, hash, H) == Ok(Flatten(AliveRows(blocks, Txids(db, hash).value, H, 0)))
  {
    RunWellFormed(blocks);
    RunTxids(blocks, hash);
    var db := Replay(map[], blocks);
    var txids := Txids(db, hash).value;
    var rs := CutRows(db, txids, H);
    forall i | 0 <= i < |txids| ensures rs[i] == Ok(AliveRows(blocks, txids, H, 0)[i]) {
      CutRowIs(blocks, txids[i], H);
    }
    JoinOk(rs, AliveRows(blocks, txids, H, 0));
  }

  // ---------- the theorems ----------

  /** Without a dust limit the two tweak queries are the same query. */
  lemma DustZeroIsCutThrough(blocks: seq<DBBlock>, hash: Hash, H: U32)
    requires GoodRun(blocks)
    ensures WellFormed(Replay(map[], blocks))
    ensures var db := Replay(map[], blocks); DustTweaks(db, hash, H, 0, BestChain(db)) == CutTweaks(db, hash, H)
  {
    DustTweaksIs(blocks, hash, H, 0);
    CutTweaksIs(blocks, hash, H);
  }

  /** A later tip or a higher dust limit only ever drops rows. */
  lemma RowsOnlyDrop(blocks: seq<DBBlock>, hash: Hash, H: U32, H': U32, dust: U64, dust': U64)
    requires GoodRun(blocks) && H <= H' && dust <= dust'
    ensures WellFormed(Replay(map[], blocks))
    ensures var db := Replay(map[], blocks);
      var before, after := DustTweaks(db, hash, H, dust, BestChain(db)), DustTweaks(db, hash, H', dust', BestChain(db));
      before.Ok? && after.Ok? && Subsequence(after.value, before.value)
  {
    DustTweaksIs(blocks, hash, H, dust);
    DustTweaksIs(blocks, hash, H', dust');
    var txids := Txids(Replay(map[], blocks), hash).value;
    var a, b := AliveRows(blocks, txids, H', dust'), AliveRows(blocks, txids, H, dust);
    forall i | 0 <= i < |txids| ensures a[i] == [] || a[i] == b[i] {
      RowOnlyDrops(blocks, txids[i], H, H', dust, dust');
    }
    FlattenSubsequence(a, b);
  }

  lemma RowOnlyDrops(blocks: seq<DBBlock>, txid: Hash, H: U32, H': U32, dust: U64, dust': U64)
    requires GoodRun(blocks) && H <= H' && dust <= dust'
    ensures var after := AliveRow(blocks, txid, H', dust'); after == [] || after == AliveRow(blocks, txid, H, dust)
  {
    var outs := RunOuts(blocks, txid);
    if j :| 0 <= j < |outs| && Alive(blocks, outs[j], H', dust') {
      assert Alive(blocks, outs[j], H, dust);
    }
  }

  lemma FilteredLast(blocks: seq<DBBlock>, outs: seq<Output>, H: U32, dust: U64)
    requires GoodRun(blocks) && WellFormed(Replay(map[], blocks)) && outs != []
    requires Filtered(Replay(map[], blocks), outs[..|outs| - 1], H, dust).Ok?
    ensures var last, kept := outs[|outs| - 1], Filtered(Replay(map[], blocks), outs[..|outs| - 1], H, dust).value;
      Filtered(Replay(map[], blocks), outs, H, dust) == Ok(if Alive(blocks, last, H, dust) then kept + [last] else kept)
  {
    var o := outs[|outs| - 1];
    RunSpent(blocks, o.txid, o.vout, H);
  }

  lemma {:induction false} FilteredIs(blocks: seq<DBBlock>, outs: seq<Output>, H: U32, dust: U64, o: Output)
    requires GoodRun(blocks) && WellFormed(Replay(map[], blocks))
    ensures Filtered(Replay(map[], blocks), outs, H, dust).Ok?
    ensures o in Filtered(Replay(map[], blocks), outs, H, dust).value <==> o in outs && Alive(blocks, o, H, dust)
  {
    if outs != [] {
      var n := |outs| - 1;
      FilteredIs(blocks, outs[..n], H, dust, o);
      FilteredLast(blocks, outs, H, dust);
      InLast(outs, o);
    }
  }

  lemma InLast<T>(s: seq<T>, x: T)
    requires s != []
    ensures x in s <==> x in s[..|s| - 1] || x == s[|s| - 1]
  {
    assert s == s[..|s| - 1] + [s[|s| - 1]];
  }

  ghost predicate Owns(outs: seq<Output>, txid: Hash) {
    exists o :: o in outs && o.txid == txid
  }

  ghost predicate Sent(rows: seq<TweakRow>, txid: Hash) {
    exists r :: r in rows && r.txid == txid
  }

  lemma SentIs(blocks: seq<DBBlock>, txids: seq<Hash>, H: U32, dust: U64, txid: Hash)
    requires GoodRun(blocks)
    ensures Sent(Flatten(AliveRows(blocks, txids, H, dust)), txid) <==>
      txid in txids && AnyAlive(blocks, RunOuts(blocks, txid), H, dust)
  {
    var parts := AliveRows(blocks, txids, H, dust);
    if r: TweakRow :| r in Flatten(parts) && r.txid == txid {
      FlattenMember(parts, r);
      var i :| 0 <= i < |parts| && r in parts[i];
      assert txids[i] == txid;
    }
    if txid in txids && AnyAlive(blocks, RunOuts(blocks, txid), H, dust) {
      RunOutputs(blocks, txid);
      var i :| 0 <= i < |txids| && txids[i] == txid;
      var r := TweakRow(txid, Fit33(LoadTweak(Replay(map[], blocks), txid).value));
      assert r in parts[i];
      FlattenMember(parts, r);
    }
  }

  ghost function RunParts(blocks: seq<DBBlock>, txids: seq<Hash>): (r: seq<seq<Output>>)
    requires GoodRun(blocks)
    ensures |r| == |txids|
  {
    seq(|txids|, i requires 0 <= i < |txids| => RunOuts(blocks, txids[i]))
  }

  lemma BlockOutputsIs(blocks: seq<DBBlock>, hash: Hash)
    requires GoodRun(blocks)
    ensures Txids(Replay(map[], blocks), hash).Ok?
    ensures BlockOutputs(Replay(map[], blocks), hash)
      == Ok(Flatten(RunParts(blocks, Txids(Replay(map[], blocks), hash).value)))
  {
    RunTxids(blocks, hash);
    var db := Replay(map[], blocks);
    var txids := Txids(db, hash).value;
    JoinOk(PerTx(db, txids), RunParts(blocks, txids));
  }

  lemma OwnsIs(blocks: seq<DBBlock>, txids: seq<Hash>, outs: seq<Output>, H: U32, dust: U64, txid: Hash)
    requires GoodRun(blocks)
    requires forall o :: o in outs <==> o in Flatten(RunParts(blocks, txids)) && Alive(blocks, o, H, dust)
    ensures Owns(outs, txid) <==> txid in txids && AnyAlive(blocks, RunOuts(blocks, txid), H, dust)
  {
    var parts := RunParts(blocks, txids);
    if o :| o in outs && o.txid == txid {
      FlattenMember(parts, o);
      var i :| 0 <= i < |parts| && o in parts[i];
      var j :| 0 <= j < |RunOuts(blocks, txids[i])| && RunOuts(blocks, txids[i])[j] == o;
      assert txids[i] == txid && Alive(blocks, RunOuts(blocks, txid)[j], H, dust);
    }
    if txid in txids && AnyAlive(blocks, RunOuts(blocks, txid), H, dust) {
      var i :| 0 <= i < |txids| && txids[i] == txid;
      var j :| 0 <= j < |RunOuts(blocks, txid)| && Alive(blocks, RunOuts(blocks, txid)[j], H, dust);
      var o := RunOuts(blocks, txid)[j];
      assert o in parts[i];
      FlattenMember(parts, o);
      assert o in outs;
    }
  }

  /** `TweaksForBlock` sends a tweak for exactly the transactions that own an output in the filtered outputs. */
  lemma TweaksOwnOutputs(blocks: seq<DBBlock>, hash: Hash, H: U32, dust: U64)
    requires GoodRun(blocks)
    ensures WellFormed(Replay(map[], blocks))
    ensures var db := Replay(map[], blocks);
      var rows, outs := DustTweaks(db, hash, H, dust, BestChain(db)), CutOutputs(db, hash, H, dust);
      rows.Ok? && outs.Ok? && forall txid: Hash :: Sent(rows.value, txid) <==> Owns(outs.value, txid)
  {
    DustTweaksIs(blocks, hash, H, dust);
    BlockOutputsIs(blocks, hash);
    var db := Replay(map[], blocks);
    var txids := Txids(db, hash).value;
    var all := Flatten(RunParts(blocks, txids));
    FilteredIs(blocks, all, H, dust, Output(ZERO_HASH, 0, 0, []));
    forall o ensures o in Filtered(db, all, H, dust).value <==> o in all && Alive(blocks, o, H, dust) {
      FilteredIs(blocks, all, H, dust, o);
    }
    var rows, outs := DustTweaks(db, hash, H, dust, BestChain(db)), CutOutputs(db, hash, H, dust);
    forall txid: Hash ensures Sent(rows.value, txid) <==> Owns(outs.value, txid) {
      SentIs(blocks, txids, H, dust, txid);
      OwnsIs(blocks, txids, outs.value, H, dust, txid);
    }
  }

  /** Transactions that have something unspent, but nothing unspent worth the dust limit. */
  ghost predicate OnlyDustLeft(blocks: seq<DBBlock>, txid: Hash, H: U32, dust: U64)
    requires GoodRun(blocks)
  {
    AnyAlive(blocks, RunOuts(blocks, txid), H, 0) && !AnyAlive(blocks, RunOuts(blocks, txid), H, dust)
  }

  /** Because it ignores its dust limit, the dust-limited cut-through query is right exactly
      when no transaction of the block has only dust left. */
  lemma DustLimitIgnoredIff(blocks: seq<DBBlock>, hash: Hash, H: U32, dust: U64)
    requires GoodRun(blocks)
    ensures WellFormed(Replay(map[], blocks)) && Txids(Replay(map[], blocks), hash).Ok?
    ensures var db := Replay(map[], blocks);
      var txids := Txids(db, hash).value;
      CutTweaks(db, hash, H) == DustTweaks(db, hash, H, dust, BestChain(db)) <==>
        forall i :: 0 <= i < |txids| ==> !OnlyDustLeft(blocks, txids[i], H, dust)
  {
    CutTweaksIs(blocks, hash, H);
    DustTweaksIs(blocks, hash, H, dust);
    var txids := Txids(Replay(map[], blocks), hash).value;
    var all, some := AliveRows(blocks, txids, H, 0), AliveRows(blocks, txids, H, dust);
    forall i | 0 <= i < |txids|
      ensures all[i] == some[i] || |all[i]| > |some[i]|
      ensures all[i] == some[i] <==> !OnlyDustLeft(blocks, txids[i], H, dust)
    {
      DustDrops(blocks, txids[i], H, dust);
    }
    FlattenSameIff(all, some);
  }

  lemma DustDrops(blocks: seq<DBBlock>, txid: Hash, H: U32, dust: U64)
    requires GoodRun(blocks)
    ensures AliveRow(blocks, txid, H, dust) ==
      (if OnlyDustLeft(blocks, txid, H, dust) then [] else AliveRow(blocks, txid, H, 0))
    ensures OnlyDustLeft(blocks, txid, H, dust) ==> |AliveRow(blocks, txid, H, 0)| == 1
  {
    var outs := RunOuts(blocks, txid);
    RunOutputs(blocks, txid);
    if i :| 0 <= i < |outs| && Alive(blocks, outs[i], H, dust) {
      assert Alive(blocks, outs[i], H, 0);
    }
  }
}
