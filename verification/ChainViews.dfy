/** The chain index and the spend index, and what they say about the applied blocks. */
module ChainViews {
  import opened ByteOrder
  import opened Keys
  import opened Encoders
  import opened Pebble
  import opened Blocks
  import opened Runs
  import opened Reads

  // ---------- spentAtHeightTip ----------

  predicate SpendKey(k: Bytes) {
    |k| == 69
  }

  /** The block hash at the end of a spend key. */
  function SpendBlock(k: Bytes): Hash
    requires SpendKey(k)
  {
    k[37..]
  }

  ghost predicate SpendKeys(keys: seq<Bytes>) {
    forall i :: 0 <= i < |keys| ==> SpendKey(keys[i])
  }

  function Counts(db: DB, k: Bytes, H: U32): Result<bool>
    requires SpendKey(k)
  {
    match HeightIfOnBestChain(db, SpendBlock(k))
    case Err => Err
    case Ok(None) => Ok(false)
    case Ok(Some(h)) => Ok(h <= H)
  }

  /** The scan stops at the first spending block found at or below `H`, or at the first bad height. */
  ghost function FirstHit(db: DB, keys: seq<Bytes>, H: U32): Result<bool>
    requires SpendKeys(keys)
  {
    if keys == [] then Ok(false)
    else match Counts(db, keys[0], H)
      case Err => Err
      case Ok(hit) => if hit then Ok(true) else FirstHit(db, keys[1..], H)
  }

  lemma ScanSpendKeys(db: DB, txid: Hash, vout: U32)
    requires WellFormed(db)
    ensures SpendKeys(Scan(db, BoundsSpend(txid, vout)))
    ensures forall hash: Hash :: hash != MAX_HASH && Encode(Spend(txid, vout, hash)) in db ==>
      Encode(Spend(txid, vout, hash)) in Scan(db, BoundsSpend(txid, vout))
  {
    var keys := Scan(db, BoundsSpend(txid, vout));
    forall i | 0 <= i < |keys| ensures SpendKey(keys[i]) {
      assert keys[i] in keys;
      var hash := SpendKeyForm(db, txid, vout, keys[i]);
    }
    forall hash: Hash | hash != MAX_HASH && Encode(Spend(txid, vout, hash)) in db
      ensures Encode(Spend(txid, vout, hash)) in keys
    {
      BoundsExact(BoundsSpend(txid, vout), Spend(txid, vout, hash));
    }
  }

  lemma SpendKeyForm(db: DB, txid: Hash, vout: U32, k: Bytes) returns (hash: Hash)
    requires WellFormed(db) && k in Scan(db, BoundsSpend(txid, vout))
    ensures k == Encode(Spend(txid, vout, hash)) && hash != MAX_HASH
    ensures SpendKey(k) && SpendBlock(k) == hash
  {
    var key := KeyOf(db, k);
    BoundsExact(BoundsSpend(txid, vout), key);
    hash := key.hash;
    assert k == [0x04] + (txid + (BE32(vout) + hash));
    assert k[37..] == hash;
  }

  ghost function SpentTip(db: DB, txid: Hash, vout: U32, H: U32): Result<bool>
    requires WellFormed(db)
  {
    ScanSpendKeys(db, txid, vout);
    FirstHit(db, Scan(db, BoundsSpend(txid, vout)), H)
  }

  method SpentAtHeightTip(db: DB, prevTxid: Hash, prevVout: U32, H: U32) returns (r: Result<bool>)
    requires WellFormed(db)
    ensures r == SpentTip(db, prevTxid, prevVout, H)
  {
    ScanSpendKeys(db, prevTxid, prevVout);
    var lb, ub := MakeBoundsSpend(prevTxid, prevVout);
    var it := new Iterator(db, lb[..], ub[..]);
    r := ScanSpends(it, H);
  }

  method ScanSpends(it: Iterator, H: U32) returns (r: Result<bool>)
    requires it.Valid() && SpendKeys(it.keys)
    modifies it
    ensures r == FirstHit(it.db, it.keys, H)
  {
    var ok := it.First();
    while ok
      invariant it.Valid() && ok == (it.pos < |it.keys|)
      invariant FirstHit(it.db, it.keys, H) == FirstHit(it.db, it.keys[it.pos..], H)
      decreases |it.keys| - it.pos
    {
      var hit := Counts(it.db, it.Key(), H);
      if hit.Err? {
        return Err;
      }
      if hit.value {
        return Ok(true);
      }
      assert it.keys[it.pos..][1..] == it.keys[it.pos + 1..];
      ok := it.Next();
    }
    r := Ok(false);
  }

  /** With well-formed heights the answer is whether some scanned key counts. */
  lemma {:induction false} FirstHitIs(db: DB, keys: seq<Bytes>, H: U32)
    requires SpendKeys(keys) && forall i :: 0 <= i < |keys| ==> Counts(db, keys[i], H).Ok?
    ensures FirstHit(db, keys, H) == Ok(exists i :: 0 <= i < |keys| && Counts(db, keys[i], H) == Ok(true))
  {
    if keys != [] {
      FirstHitIs(db, keys[1..], H);
      if Counts(db, keys[0], H) != Ok(true) {
        if i :| 0 <= i < |keys| && Counts(db, keys[i], H) == Ok(true) {
          assert Counts(db, keys[1..][i - 1], H) == Ok(true);
        }
        if i :| 0 <= i < |keys[1..]| && Counts(db, keys[1..][i], H) == Ok(true) {
          assert Counts(db, keys[i + 1], H) == Ok(true);
        }
      }
    }
  }

  // ---------- the chain index of a run ----------

  ghost predicate HashFixesHeight(blocks: seq<DBBlock>) {
    forall a, b :: a in blocks && b in blocks && a.hash == b.hash ==> a.height == b.height
  }

  lemma RunWellFormed(blocks: seq<DBBlock>)
    ensures WellFormed(Replay(map[], blocks))
  {
    forall k | k in Replay(map[], blocks) ensures IsKey(k) {
      var key := RunKeys(blocks, k);
    }
  }

  lemma HeightOfBlock(blocks: seq<DBBlock>, b: DBBlock)
    requires HashFixesHeight(blocks) && b in blocks
    ensures HeightIfOnBestChain(Replay(map[], blocks), b.hash) == Ok(Some(b.height))
  {
    RunKeeps(blocks, b, Write(CIBlock(b.hash), BE32(b.height)));
    var c := RunHas(blocks, CIBlock(b.hash));
    BE32RoundTrip(b.height);
  }

  /** Every hash the hash index knows is that of an applied block, at that block's height. */
  lemma HashIndexExact(blocks: seq<DBBlock>, hash: Hash)
    requires HashFixesHeight(blocks)
    ensures HeightIfOnBestChain(Replay(map[], blocks), hash).Ok?
    ensures forall h: U32 :: HeightIfOnBestChain(Replay(map[], blocks), hash) == Ok(Some(h)) <==>
      exists b :: b in blocks && b.hash == hash && b.height == h
  {
    var db := Replay(map[], blocks);
    if Encode(CIBlock(hash)) in db {
      var b := RunHas(blocks, CIBlock(hash));
      HeightOfBlock(blocks, b);
      assert b.hash == hash;
    }
    forall b | b in blocks && b.hash == hash ensures HeightIfOnBestChain(db, hash) == Ok(Some(b.height)) {
      HeightOfBlock(blocks, b);
    }
  }

  /** Forks included: a height that maps to a hash is the height that hash maps back to. */
  lemma HeightThenHash(blocks: seq<DBBlock>, h: U32)
    requires HashFixesHeight(blocks)
    ensures var at := GetBlockHashByHeight(Replay(map[], blocks), h);
      at.Some? ==> |at.value| == 32 && HeightIfOnBestChain(Replay(map[], blocks), at.value) == Ok(Some(h))
  {
    if Encode(CIHeight(h)) in Replay(map[], blocks) {
      var b := RunHas(blocks, CIHeight(h));
      HeightOfBlock(blocks, b);
    }
  }

  ghost predicate HeightFixesHash(blocks: seq<DBBlock>) {
    forall a, b :: a in blocks && b in blocks && a.height == b.height ==> a.hash == b.hash
  }

  /** A hash found in the hash index is the one the height index names. */
  ghost predicate OnBestChain(db: DB, hash: Hash) {
    match HeightIfOnBestChain(db, hash)
    case Ok(Some(h)) => GetBlockHashByHeight(db, h) == Some(hash)
    case _ => true
  }

  lemma NoCompetitor(blocks: seq<DBBlock>, hash: Hash)
    requires HashFixesHeight(blocks) && HeightFixesHash(blocks)
    ensures OnBestChain(Replay(map[], blocks), hash)
  {
    if Encode(CIBlock(hash)) in Replay(map[], blocks) {
      var b := RunHas(blocks, CIBlock(hash));
      HeightOfBlock(blocks, b);
      RunKeeps(blocks, b, Write(CIHeight(b.height), b.hash));
      var c := RunHas(blocks, CIHeight(b.height));
    }
  }

  /** The hash index holds nothing off the best chain exactly when no two applied blocks competed for a height. */
  lemma BestChainExactIff(blocks: seq<DBBlock>)
    requires HashFixesHeight(blocks)
    ensures HeightFixesHash(blocks) <==> forall hash: Hash :: OnBestChain(Replay(map[], blocks), hash)
  {
    if HeightFixesHash(blocks) {
      forall hash: Hash ensures OnBestChain(Replay(map[], blocks), hash) {
        NoCompetitor(blocks, hash);
      }
    } else {
      var a, b :| a in blocks && b in blocks && a.height == b.height && a.hash != b.hash;
      HeightOfBlock(blocks, a);
      HeightOfBlock(blocks, b);
      assert !(OnBestChain(Replay(map[], blocks), a.hash) && OnBestChain(Replay(map[], blocks), b.hash));
    }
  }

  // ---------- the spend index of a run ----------

  ghost predicate Spends(b: DBBlock, txid: Hash, vout: U32) {
    exists t, i :: HasTx(b, t) && i in t.ins && i.prevTxid == txid && i.prevVout == vout
  }

  lemma SpendRow(blocks: seq<DBBlock>, txid: Hash, vout: U32, hash: Hash)
    ensures Encode(Spend(txid, vout, hash)) in Replay(map[], blocks) <==>
      exists b :: b in blocks && b.hash == hash && Spends(b, txid, vout)
  {
    if Encode(Spend(txid, vout, hash)) in Replay(map[], blocks) {
      var b := RunHas(blocks, Spend(txid, vout, hash));
      assert Spends(b, txid, vout);
    }
    if b :| b in blocks && b.hash == hash && Spends(b, txid, vout) {
      var t, i :| HasTx(b, t) && i in t.ins && i.prevTxid == txid && i.prevVout == vout;
      assert i == In(txid, vout, i.pubkey);
      RunKeeps(blocks, b, Write(Spend(txid, vout, hash), i.pubkey));
    }
  }

  ghost predicate SpentBy(blocks: seq<DBBlock>, txid: Hash, vout: U32, H: U32) {
    exists b :: b in blocks && b.hash != MAX_HASH && b.height <= H && Spends(b, txid, vout)
  }

  /** An outpoint reads as spent at `H` exactly when some applied block of height at most `H` spends it. */
  lemma SpentExact(blocks: seq<DBBlock>, txid: Hash, vout: U32, H: U32)
    requires HashFixesHeight(blocks)
    ensures WellFormed(Replay(map[], blocks))
    ensures SpentTip(Replay(map[], blocks), txid, vout, H) == Ok(SpentBy(blocks, txid, vout, H))
  {
    RunWellFormed(blocks);
    var db := Replay(map[], blocks);
    var keys := Scan(db, BoundsSpend(txid, vout));
    ScanSpendKeys(db, txid, vout);
    forall i | 0 <= i < |keys|
      ensures Counts(db, keys[i], H).Ok?
      ensures Counts(db, keys[i], H) == Ok(true) ==> SpentBy(blocks, txid, vout, H)
    {
      assert keys[i] in keys;
      CountedBy(blocks, txid, vout, H, keys[i]);
    }
    FirstHitIs(db, keys, H);
    if b :| b in blocks && b.hash != MAX_HASH && b.height <= H && Spends(b, txid, vout) {
      SpenderCounts(blocks, txid, vout, H, b);
    }
  }

  lemma SpenderCounts(blocks: seq<DBBlock>, txid: Hash, vout: U32, H: U32, b: DBBlock)
    requires HashFixesHeight(blocks) && WellFormed(Replay(map[], blocks))
    requires b in blocks && b.hash != MAX_HASH && b.height <= H && Spends(b, txid, vout)
    ensures var keys := Scan(Replay(map[], blocks), BoundsSpend(txid, vout));
      exists i :: 0 <= i < |keys| && SpendKey(keys[i]) && Counts(Replay(map[], blocks), keys[i], H) == Ok(true)
  {
    var db := Replay(map[], blocks);
    var k := Encode(Spend(txid, vout, b.hash));
    SpendRow(blocks, txid, vout, b.hash);
    ScanSpendKeys(db, txid, vout);
    var hash := SpendKeyForm(db, txid, vout, k);
    EncodeInjective(Spend(txid, vout, hash), Spend(txid, vout, b.hash));
    HeightOfBlock(blocks, b);
  }

  lemma CountedBy(blocks: seq<DBBlock>, txid: Hash, vout: U32, H: U32, k: Bytes)
    requires HashFixesHeight(blocks) && WellFormed(Replay(map[], blocks))
    requires k in Scan(Replay(map[], blocks), BoundsSpend(txid, vout)) && SpendKey(k)
    ensures Counts(Replay(map[], blocks), k, H).Ok?
    ensures Counts(Replay(map[], blocks), k, H) == Ok(true) ==> SpentBy(blocks, txid, vout, H)
  {
    var hash := SpendKeyForm(Replay(map[], blocks), txid, vout, k);
    HashIndexExact(blocks, hash);
    SpendRow(blocks, txid, vout, hash);
    var b :| b in blocks && b.hash == hash && Spends(b, txid, vout);
    HeightOfBlock(blocks, b);
  }

  // ---------- spent on the best chain ----------

  /** A block the height index names. */
  ghost predicate Named(db: DB, b: DBBlock) {
    GetBlockHashByHeight(db, b.height) == Some(b.hash)
  }

  /** An applied block the spend scan counts at `H`. */
  ghost predicate Spender(blocks: seq<DBBlock>, b: DBBlock, txid: Hash, vout: U32, H: U32) {
    b in blocks && b.hash != MAX_HASH && b.height <= H && Spends(b, txid, vout)
  }

  ghost predicate SpentOnBest(blocks: seq<DBBlock>, txid: Hash, vout: U32, H: U32) {
    exists b :: Spender(blocks, b, txid, vout, H) && Named(Replay(map[], blocks), b)
  }

  /** Every spender that lost its height is matched by one on the best chain. */
  ghost predicate OrphansMatched(blocks: seq<DBBlock>, txid: Hash, vout: U32, H: U32) {
    forall b :: Spender(blocks, b, txid, vout, H) && !Named(Replay(map[], blocks), b) ==>
      SpentOnBest(blocks, txid, vout, H)
  }

  /** "Spent" means spent on the best chain exactly when no outpoint is spent by orphaned blocks alone. */
  lemma SpentOnBestIff(blocks: seq<DBBlock>, txid: Hash, vout: U32, H: U32)
    requires HashFixesHeight(blocks)
    ensures WellFormed(Replay(map[], blocks))
    ensures SpentTip(Replay(map[], blocks), txid, vout, H) == Ok(SpentOnBest(blocks, txid, vout, H)) <==>
      OrphansMatched(blocks, txid, vout, H)
  {
    SpentExact(blocks, txid, vout, H);
    SpentBySpender(blocks, txid, vout, H);
    MatchedIff(blocks, txid, vout, H);
  }

  lemma SpentBySpender(blocks: seq<DBBlock>, txid: Hash, vout: U32, H: U32)
    ensures SpentBy(blocks, txid, vout, H) <==> exists b :: Spender(blocks, b, txid, vout, H)
  {
    if SpentBy(blocks, txid, vout, H) {
      var b :| b in blocks && b.hash != MAX_HASH && b.height <= H && Spends(b, txid, vout);
      assert Spender(blocks, b, txid, vout, H);
    }
  }

  lemma MatchedIff(blocks: seq<DBBlock>, txid: Hash, vout: U32, H: U32)
    ensures (SpentOnBest(blocks, txid, vout, H) <==> exists b :: Spender(blocks, b, txid, vout, H)) <==>
      OrphansMatched(blocks, txid, vout, H)
  {
  }

  /** Without competing blocks there are no orphans. */
  lemma SpentOnChain(blocks: seq<DBBlock>, txid: Hash, vout: U32, H: U32)
    requires HashFixesHeight(blocks) && HeightFixesHash(blocks)
    ensures WellFormed(Replay(map[], blocks))
    ensures SpentTip(Replay(map[], blocks), txid, vout, H) == Ok(SpentOnBest(blocks, txid, vout, H))
  {
    forall b | b in blocks ensures Named(Replay(map[], blocks), b) {
      NoCompetitor(blocks, b.hash);
      HeightOfBlock(blocks, b);
    }
    SpentOnBestIff(blocks, txid, vout, H);
  }
}
