/** The fast output read and the per-transaction reference return the same rows. */
module FetchEquivalence {
  import opened ByteOrder
  import opened Keys
  import opened Pebble
  import opened Blocks
  import opened Reads
  import opened FastReads

  ghost function RefPerTx(db: DB, txids: seq<Hash>): (r: seq<Result<seq<Output>>>)
    requires WellFormed(db)
    ensures |r| == |txids|
  {
    seq(|txids|, i requires 0 <= i < |txids| => TxOutputs(db, txids[i]))
  }

  /** `OutputsForTx` for every txid of the block, end to end. */
  ghost function RefBlockOutputs(db: DB, blockhash: Hash): Result<seq<Output>>
    requires WellFormed(db)
  {
    match Txids(db, blockhash)
    case Err => Err
    case Ok(txids) => Join(RefPerTx(db, txids))
  }

  /** The one output key a bounded scan misses. */
  ghost predicate TopVout(db: DB, txid: Hash) {
    Encode(Out(txid, MAX_U32)) in db
  }

  lemma ScanVersusTxKeys(db: DB, txid: Hash, k: Bytes)
    requires WellFormed(db) && k in db
    ensures k in TxKeys(db, txid) <==>
      k in Scan(db, BoundsOut(txid)) || k == Encode(Out(txid, MAX_U32))
  {
    var key := KeyOf(db, k);
    OutKeyForm(k, key, txid);
    BoundsExact(BoundsOut(txid), key);
    EncodeInjective(key, Out(txid, MAX_U32));
  }

  lemma NoTopSame(db: DB, txid: Hash)
    requires WellFormed(db) && !TopVout(db, txid)
    ensures AllOutputs(db, txid) == TxOutputs(db, txid)
  {
    ScanOutKeys(db, txid);
    forall k ensures k in TxKeys(db, txid) <==> k in Scan(db, BoundsOut(txid)) {
      if k in db { ScanVersusTxKeys(db, txid, k); }
    }
    AscendingUnique(TxKeys(db, txid), Scan(db, BoundsOut(txid)));
  }

  ghost predicate OutValuesOk(db: DB) {
    forall txid: Hash, v: U32 {:trigger Encode(Out(txid, v))} ::
      Encode(Out(txid, v)) in db ==> |db[Encode(Out(txid, v))]| == 40
  }

  lemma OutValueOk(db: DB, k: Bytes, txid: Hash)
    requires WellFormed(db) && OutValuesOk(db) && k in db && OutKeyOf(k, txid)
    ensures |db[k]| == 40
  {
    var key := KeyOf(db, k);
    OutKeyForm(k, key, txid);
    assert key == Out(key.txid, key.vout);
  }

  ghost predicate RowCountsAt(db: DB, txid: Hash)
    requires WellFormed(db)
  {
    AllOutputs(db, txid).Ok? && TxOutputs(db, txid).Ok?
    && |AllOutputs(db, txid).value| >= |TxOutputs(db, txid).value|
    && (TopVout(db, txid) ==> |AllOutputs(db, txid).value| > |TxOutputs(db, txid).value|)
  }

  /** With 40-byte values, both lists have one row per key; the top vout makes the fast one longer. */
  lemma RowCounts(db: DB, txid: Hash)
    requires WellFormed(db) && OutValuesOk(db)
    ensures RowCountsAt(db, txid)
  {
    var all, some := TxKeys(db, txid), Scan(db, BoundsOut(txid));
    ScanOutKeys(db, txid);
    forall i | 0 <= i < |all| ensures |db[all[i]]| == 40 {
      assert all[i] in all;
      OutValueOk(db, all[i], txid);
    }
    forall k | k in some ensures k in all {
      ScanVersusTxKeys(db, txid, k);
    }
    forall i | 0 <= i < |some| ensures |db[some[i]]| == 40 {
      assert some[i] in some;
      OutValueOk(db, some[i], txid);
    }
    OutRowsOk(db, txid, all);
    OutRowsOk(db, txid, some);
    if TopVout(db, txid) {
      var top := Encode(Out(txid, MAX_U32));
      ScanVersusTxKeys(db, txid, top);
      BoundsExact(BoundsOut(txid), Out(txid, MAX_U32));
      SubsetShorter(some, all, top);
    } else {
      NoTopSame(db, txid);
    }
  }

  /** An ascending list inside another that has one element more is shorter. */
  lemma SubsetShorter(some: seq<Bytes>, all: seq<Bytes>, extra: Bytes)
    requires Ascending(some) && (forall k :: k in some ==> k in all) && extra in all && extra !in some
    ensures |some| < |all|
  {
    AscendingCard(some);
    var a, b := (set k | k in some), (set k | k in all);
    assert a < b by { assert extra in b; }
    ProperSubsetSmaller(a, b);
    CardAtMostLength(all);
  }

  lemma {:induction false} AscendingCard(s: seq<Bytes>)
    requires Ascending(s)
    ensures |set k | k in s| == |s|
  {
    if s != [] {
      var n := |s| - 1;
      AscendingCard(s[..n]);
      assert s == s[..n] + [s[n]];
      assert (set k | k in s) == (set k | k in s[..n]) + {s[n]};
      forall i | 0 <= i < n ensures s[i] != s[n] { LtAsymmetric(s[i], s[n]); }
    }
  }

  lemma {:induction false} CardAtMostLength(s: seq<Bytes>)
    ensures |set k | k in s| <= |s|
  {
    if s != [] {
      var n := |s| - 1;
      CardAtMostLength(s[..n]);
      assert s == s[..n] + [s[n]];
      assert (set k | k in s) == (set k | k in s[..n]) + {s[n]};
    }
  }

  lemma ProperSubsetSmaller(a: set<Bytes>, b: set<Bytes>)
    requires a < b
    ensures |a| < |b|
  {
    var x :| x in b && x !in a;
    assert a <= b - {x};
    assert b == a + (b - a);
  }

  ghost predicate NoTopVout(db: DB, txids: seq<Hash>) {
    forall i :: 0 <= i < |txids| ==> !TopVout(db, txids[i])
  }

  /** Same rows, same order, same errors, whenever no listed transaction has an output at the top vout. */
  lemma FetchMatchesReference(db: DB, blockhash: Hash)
    requires WellFormed(db)
    requires Txids(db, blockhash).Ok? ==> NoTopVout(db, Txids(db, blockhash).value)
    ensures BlockOutputs(db, blockhash) == RefBlockOutputs(db, blockhash)
  {
    if Txids(db, blockhash).Ok? {
      var txids := Txids(db, blockhash).value;
      forall i | 0 <= i < |txids| ensures PerTx(db, txids)[i] == RefPerTx(db, txids)[i] {
        NoTopSame(db, txids[i]);
      }
      assert PerTx(db, txids) == RefPerTx(db, txids);
    }
  }

  /** With 40-byte values that condition is exact: a top-vout output is seen by one read and not the other. */
  lemma FetchMatchesReferenceIff(db: DB, blockhash: Hash)
    requires WellFormed(db) && OutValuesOk(db) && Txids(db, blockhash).Ok?
    ensures BlockOutputs(db, blockhash) == RefBlockOutputs(db, blockhash)
      <==> NoTopVout(db, Txids(db, blockhash).value)
  {
    var txids := Txids(db, blockhash).value;
    if NoTopVout(db, txids) {
      FetchMatchesReference(db, blockhash);
    } else {
      var i :| 0 <= i < |txids| && TopVout(db, txids[i]);
      TopMakesLonger(db, txids, i);
    }
  }

  lemma TopMakesLonger(db: DB, txids: seq<Hash>, top: nat)
    requires WellFormed(db) && OutValuesOk(db) && top < |txids| && TopVout(db, txids[top])
    ensures Join(PerTx(db, txids)) != Join(RefPerTx(db, txids))
  {
    var fast, ref := PerTx(db, txids), RefPerTx(db, txids);
    forall i | 0 <= i < |txids|
      ensures fast[i].Ok? && ref[i].Ok? && |fast[i].value| >= |ref[i].value|
      ensures i == top ==> |fast[i].value| > |ref[i].value|
    {
      RowCounts(db, txids[i]);
    }
    JoinLonger(fast, ref, top);
  }
}
