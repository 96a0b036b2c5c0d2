/** Inputs at which the code falls short of what one might expect of it, one for each exact condition. */
module Witnesses {
  import opened ByteOrder
  import opened Keys
  import opened Pebble
  import opened Blocks
  import opened Runs
  import opened Reads
  import opened FastReads
  import opened FetchEquivalence
  import opened ChainViews
  import opened CutThrough
  import opened CutThroughViews
  import opened ComputeViews
  import opened Gaps
  import opened Backfill
  import opened Durability
  import opened ComputeIndexes
  import opened ReceiverScan
  import opened ComputeScan
  import ParallelScan
  import opened WorkQueue
  import opened PowersOfTwo

  // ---------- an output at the top vout ----------

  /** A block whose one listed transaction has its one output at index 0xFFFFFFFF. */
  function TopVoutStore(hash: Hash, txid: Hash): DB {
    map[Encode(BlockTx(hash, 0)) := txid, Encode(Out(txid, MAX_U32)) := Fill(0, 40)]
  }

  lemma TopVoutTxids(hash: Hash, txid: Hash)
    ensures Txids(TopVoutStore(hash, txid), hash) == Ok([txid])
  {
    var db := TopVoutStore(hash, txid);
    var k := Encode(BlockTx(hash, 0));
    EncodeInjective(BlockTx(hash, 0), Out(txid, MAX_U32));
    BoundsExact(BoundsBlockTx(hash), BlockTx(hash, 0));
    BoundsExact(BoundsBlockTx(hash), Out(txid, MAX_U32));
    var keys: seq<Bytes> := [k];
    AscendingUnique(Scan(db, BoundsBlockTx(hash)), keys);
    assert keys[..0] == [] && TxidRows(db, keys[..0]) == Ok([]);
    var none: seq<Hash> := [];
    assert TxidRows(db, keys) == Ok(none + [txid]) && none + [txid] == [txid];
  }

  lemma TopVoutShape(hash: Hash, txid: Hash)
    ensures WellFormed(TopVoutStore(hash, txid)) && OutValuesOk(TopVoutStore(hash, txid))
  {
    var db := TopVoutStore(hash, txid);
    forall k | k in db ensures IsKey(k) {
      assert k == Encode(BlockTx(hash, 0)) || k == Encode(Out(txid, MAX_U32));
    }
    forall t: Hash, v: U32 | Encode(Out(t, v)) in db ensures |db[Encode(Out(t, v))]| == 40 {
      EncodeInjective(Out(t, v), BlockTx(hash, 0));
    }
  }

  /** The fast read sees that output and the reference does not. */
  lemma FetchDiffers(hash: Hash, txid: Hash)
    ensures WellFormed(TopVoutStore(hash, txid))
    ensures BlockOutputs(TopVoutStore(hash, txid), hash) != RefBlockOutputs(TopVoutStore(hash, txid), hash)
  {
    var db := TopVoutStore(hash, txid);
    TopVoutShape(hash, txid);
    TopVoutTxids(hash, txid);
    assert TopVout(db, [txid][0]);
    FetchMatchesReferenceIff(db, hash);
  }

  // ---------- forks ----------

  lemma ForkHeights(a: DBBlock, b: DBBlock)
    requires a.height == b.height && a.hash != b.hash
    ensures HashFixesHeight([a, b])
    ensures HeightIfOnBestChain(Replay(map[], [a, b]), a.hash) == Ok(Some(a.height))
    ensures GetBlockHashByHeight(Replay(map[], [a, b]), a.height) == Some(b.hash)
  {
    HeightOfBlock([a, b], a);
    assert [a] + [b] == [a, b];
    ReplayConcat(map[], [a], [b]);
    HeightAfterDrain(Replay(map[], [a]), [b], b);
  }

  /** An orphaned block is still taken to be on the best chain. */
  lemma OrphanStays(a: DBBlock, b: DBBlock)
    requires a.height == b.height && a.hash != b.hash
    ensures !OnBestChain(Replay(map[], [a, b]), a.hash)
  {
    ForkHeights(a, b);
  }

  /** An output spent only by the orphaned block counts as spent. */
  lemma OrphanSpends(a: DBBlock, b: DBBlock, txid: Hash, vout: U32)
    requires a.height == b.height && a.hash != b.hash && a.hash != MAX_HASH
    requires Spends(a, txid, vout) && !Spends(b, txid, vout)
    ensures WellFormed(Replay(map[], [a, b]))
    ensures SpentTip(Replay(map[], [a, b]), txid, vout, a.height) == Ok(true)
    ensures !SpentOnBest([a, b], txid, vout, a.height)
  {
    ForkHeights(a, b);
    SpentExact([a, b], txid, vout, a.height);
    assert a in [a, b];
  }

  // ---------- dust ----------

  /** A block with one tweaked transaction that has one output and spends nothing. */
  function OneOutput(height: U32, hash: Hash, txid: Hash, tweak: Tweak, amount: U64, pubkey: Bytes): DBBlock {
    DBBlock(height, hash, [Some(OneOutputTx(txid, tweak, amount, pubkey))])
  }

  function OneOutputTx(txid: Hash, tweak: Tweak, amount: U64, pubkey: Bytes): DBTx {
    DBTx(txid, Some(tweak), [Output(txid, 0, amount, pubkey)], [])
  }

  lemma OneOutputRun(height: U32, hash: Hash, txid: Hash, tweak: Tweak, amount: U64, pubkey: Bytes)
    requires |pubkey| == 32
    ensures ChainRun([OneOutput(height, hash, txid, tweak, amount, pubkey)])
  {
    var b := OneOutput(height, hash, txid, tweak, amount, pubkey);
    forall c, t | c in [b] && HasTx(c, t) ensures t == OneOutputTx(txid, tweak, amount, pubkey) {}
  }

  lemma OneOutputDust(height: U32, hash: Hash, txid: Hash, tweak: Tweak, amount: U64, pubkey: Bytes, H: U32, dust: U64)
    requires |pubkey| == 32 && amount < dust
    ensures ChainRun([OneOutput(height, hash, txid, tweak, amount, pubkey)])
    ensures OnlyDustLeft([OneOutput(height, hash, txid, tweak, amount, pubkey)], txid, H, dust)
  {
    OneOutputRun(height, hash, txid, tweak, amount, pubkey);
    var b, t := OneOutput(height, hash, txid, tweak, amount, pubkey), OneOutputTx(txid, tweak, amount, pubkey);
    assert HasTx(b, t);
    OutputsReadBack([b], b, t);
    assert RunOuts([b], txid) == t.outs;
    OneOutputUnspent(b, t, H);
    assert Alive([b], t.outs[0], H, 0);
  }

  lemma OneOutputUnspent(b: DBBlock, t: DBTx, H: U32)
    requires b.txs == [Some(t)] && t.ins == []
    ensures !SpentBy([b], t.txid, 0, H)
  {
    assert forall s :: HasTx(b, s) ==> s == t;
  }

  /** The dust-limited cut-through query reports a transaction of which only dust is left. */
  lemma DustReported(height: U32, hash: Hash, txid: Hash, tweak: Tweak, amount: U64, pubkey: Bytes, H: U32, dust: U64)
    requires |pubkey| == 32 && amount < dust
    ensures var db := Replay(map[], [OneOutput(height, hash, txid, tweak, amount, pubkey)]);
      WellFormed(db) && CutTweaks(db, hash, H) != DustTweaks(db, hash, H, dust, BestChain(db))
  {
    var b, t := OneOutput(height, hash, txid, tweak, amount, pubkey), OneOutputTx(txid, tweak, amount, pubkey);
    OneOutputDust(height, hash, txid, tweak, amount, pubkey, H, dust);
    DustLimitIgnoredIff([b], hash, H, dust);
    TxidsReadBack([b], b, txid);
    assert HasTx(b, t);
    var txids := Txids(Replay(map[], [b]), hash).value;
    var i :| 0 <= i < |txids| && txids[i] == txid;
  }

  // ---------- a trailing gap ----------

  /** With only one height indexed and the scan going one further, the height above it is missing and not found. */
  lemma TrailingGap(b: DBBlock)
    requires b.height + 1 < MAX_U32
    ensures var lookup := LookupIn(Replay(map[], [b])); var end := b.height + 1;
      Missing(lookup, end) && Exact(lookup, b.height, end, []) && !Covered([], end)
  {
    var lookup := LookupIn(Replay(map[], [b]));
    forall h: U32 ensures Missing(lookup, h) <==> h != b.height {
      IndexedIff(map[], [b], h);
      assert b in [b];
    }
  }

  // ---------- a store with one payment to the wallet ----------

  function OneRow(height: U32, txid: Hash, key: Short8): DB {
    map[Encode(ComputeIndex(height, txid)) := Fill(0, 33) + key]
  }

  /** A wallet whose every key starts with the same eight bytes. */
  function OnePayment(key: Short8, tweak: Bytes): Wallet {
    (t: Bytes) => Ok((k: nat) => Ok(Derived(key, tweak)))
  }

  lemma OneRowOnly(height: U32, txid: Hash, key: Short8, h: U32, t: Hash)
    requires RowAt(OneRow(height, txid, key), h, t)
    ensures h == height && t == txid
  {
    EncodeInjective(ComputeIndex(height, txid), ComputeIndex(h, t));
  }

  lemma OneMatch(derive: Deriver, key: Short8, tweak: Bytes)
    requires forall k: nat :: derive(k) == Ok(Derived(key, tweak))
    ensures Matches(derive, multiset{key}, 0) == Ok([Found(key, tweak)])
  {
    MatchesCons(derive, multiset{key}, 0, Found(key, tweak));
    assert multiset{key} - multiset{key} == multiset{};
    PrependNothing([Found(key, tweak)], Ok([]));
    assert derive(1) == Ok(Derived(key, tweak)) && Matches(derive, multiset{}, 1) == Ok([]);
  }

  lemma OneRowStore(height: U32, txid: Hash, key: Short8, tweak: Bytes)
    ensures ComputeStore(OneRow(height, txid, key)) && RowAt(OneRow(height, txid, key), height, txid)
    ensures RowAtFound(OneRow(height, txid, key), OnePayment(key, tweak), height, txid)
      == Ok([FoundOutput(key, tweak, txid)])
  {
    var db := OneRow(height, txid, key);
    var k := Encode(ComputeIndex(height, txid));
    forall x | x in db ensures IsKey(x) { assert x == k; }
    RowShape(db, height, txid);
    var val := db[k];
    assert val[33..] == key;
    assert key[8 * 0..8 * 0 + 8] == key;
    assert Chunks(val[33..]) == [key];
    assert multiset([key]) == multiset{key};
    OneMatch(OnePayment(key, tweak)(val[..33]).value, key, tweak);
    assert WithTxid(txid, [Found(key, tweak)]) == [FoundOutput(key, tweak, txid)];
  }

  /** A store with one transaction that pays the wallet once: the sequential scan of its height finds the output,
      a parallel scan of that height starts no worker and returns nothing. */
  lemma SingleHeightMisses(height: U32, txid: Hash, key: Short8, tweak: Bytes)
    returns (db: DB, wallet: Wallet, j: ParallelScan.Job)
    requires txid != MAX_HASH
    ensures ComputeStore(db) && ParallelScan.IsJob(db, wallet, height, height, 144, [], j)
    ensures ParallelScan.IsRun(j, [ParallelScan.Init(j)], []) && ParallelScan.AllEnded(ParallelScan.Init(j))
    ensures ParallelScan.Outcome(ParallelScan.Init(j)) == Ok([])
    ensures Sequential(db, wallet, height, height).Ok?
    ensures FoundOutput(key, tweak, txid) in Sequential(db, wallet, height, height).value
  {
    db, wallet := OneRow(height, txid, key), OnePayment(key, tweak);
    j := ParallelScan.Job(0, 1, _ => Err);
    CurrentNext(height, 144, 0);
    assert ParallelScan.Founds([]) == [];
    OneRowStore(height, txid, key, tweak);
    SequentialFails(db, wallet, height, height);
    forall h: U32, t: Hash ensures !FailsAt(db, wallet, height, height, h, t) {
      if RowAt(db, h, t) { OneRowOnly(height, txid, key, h, t); }
    }
    var f := FoundOutput(key, tweak, txid);
    SequentialFinds(db, wallet, height, height, f);
    assert FindsAt(db, wallet, height, height, height, txid, f);
  }

  // ---------- a range size whose steps wrap ----------

  /** Whenever a range starts below the start height, a payment there is found that the sequential scan of the
      interval does not look for: no finished parallel scan of this store agrees with it. */
  lemma WrapFindsMore(start: U32, end: U32, size: U32, ranges: seq<WorkRange>, txid: Hash, key: Short8, tweak: Bytes)
    returns (db: DB, wallet: Wallet)
    requires start < end && Built(start, end, size, ranges) && ranges != [] && Lowest(ranges) < start
    ensures ComputeStore(db) && !ParallelScan.NoDifference(db, wallet, start, end, ranges)
  {
    var low := Lowest(ranges);
    db, wallet := OneRow(low, txid, key), OnePayment(key, tweak);
    OneRowStore(low, txid, key, tweak);
    var f := FoundOutput(key, tweak, txid);
    assert f in RowAtFound(db, wallet, low, txid).value;
    forall h: U32, t: Hash ensures !(RowAt(db, h, t) && Visits(start, end, h, t)) {
      if RowAt(db, h, t) { OneRowOnly(low, txid, key, h, t); }
    }
    assert !ParallelScan.HeldBetween(db, wallet, start, end, f);
    assert !ParallelScan.AddsNothing(db, wallet, low, txid, start, end);
  }

  /** From 0xFFFFFFF0 to 0xFFFFFFFF in steps of 17 the loop ends, after wrapping to height 1. */
  lemma WrapGoesBelow(ranges: seq<WorkRange>)
    requires Built(0xFFFF_FFF0, MAX_U32, 17, ranges)
    ensures LoopEnds(0xFFFF_FFF0, MAX_U32, 17) && ranges != [] && Lowest(ranges) < 0xFFFF_FFF0
  {
    assert Add32(0xFFFF_FFF0, 17) == 1 && Pow2In(17) == 1;
    LowestAfterWrap(0xFFFF_FFF0, MAX_U32, 17, ranges);
  }
}
