/** The plain per-key lookups, as scans of the ordered store. */
module Reads {
  import opened ByteOrder
  import opened Keys
  import opened Pebble
  import opened Blocks
  import opened Encoders

  /** Only keys the program writes are in the store; values may be anything. */
  ghost predicate WellFormed(db: DB) {
    forall k {:trigger IsKey(k)} :: k in db ==> IsKey(k)
  }

  ghost predicate IsKey(k: Bytes) {
    exists key :: k == Encode(key)
  }

  ghost function KeyOf(db: DB, k: Bytes): (key: Key)
    requires WellFormed(db) && k in db
    ensures k == Encode(key)
  {
    assert IsKey(k);
    var key :| k == Encode(key);
    key
  }

  // ---------- BlockTxids ----------

  ghost function TxidRows(db: DB, keys: seq<Bytes>): Result<seq<Hash>>
    requires forall i :: 0 <= i < |keys| ==> keys[i] in db
  {
    if keys == [] then Ok([])
    else var n := |keys| - 1; match TxidRows(db, keys[..n])
      case Err => Err
      case Ok(txids) => if |db[keys[n]]| != 32 then Err else var txid: Hash := db[keys[n]]; Ok(txids + [txid])
  }

  ghost function Txids(db: DB, hash: Hash): Result<seq<Hash>> {
    var keys := Scan(db, BoundsBlockTx(hash));
    assert forall i :: 0 <= i < |keys| ==> keys[i] in keys;
    TxidRows(db, keys)
  }

  lemma {:induction false} TxidRowsErr(db: DB, keys: seq<Bytes>, n: nat)
    requires n < |keys| && (forall i :: 0 <= i < |keys| ==> keys[i] in db) && |db[keys[n]]| != 32
    ensures TxidRows(db, keys) == Err
  {
    if n < |keys| - 1 { TxidRowsErr(db, keys[..|keys| - 1], n); }
  }

  method BlockTxids(db: DB, blockHash: Hash) returns (r: Result<seq<Hash>>)
    ensures r == Txids(db, blockHash)
  {
    var lb, ub := MakeBoundsBlockTx(blockHash);
    var it := new Iterator(db, lb[..], ub[..]);
    r := ReadTxids(it);
  }

  method ReadTxids(it: Iterator) returns (r: Result<seq<Hash>>)
    requires it.Valid()
    modifies it
    ensures it.Valid() && r == TxidRows(it.db, it.keys)
  {
    var out: seq<Hash> := [];
    var ok := it.First();
    while ok
      invariant it.Valid() && ok == (it.pos < |it.keys|)
      invariant TxidRows(it.db, it.keys[..it.pos]) == Ok(out)
      decreases |it.keys| - it.pos
    {
      assert it.keys[..it.pos + 1][..it.pos] == it.keys[..it.pos];
      var v := it.Value();
      if |v| != 32 {
        TxidRowsErr(it.db, it.keys, it.pos);
        return Err;
      }
      out := out + [v];
      ok := it.Next();
    }
    assert it.keys[..it.pos] == it.keys;
    r := Ok(out);
  }

  // ---------- OutputsForTx ----------

  /** One output row: vout from the last four key bytes, amount and pubkey from the value. */
  function OutRow(txid: Hash, k: Bytes, v: Bytes): Result<Output>
    requires |k| >= 4
  {
    if |v| != 40 then Err
    else Ok(Output(txid, FromBE32(k[|k| - 4..]), FromLE64(v[..8]), v[8..]))
  }

  ghost predicate OutKeys(db: DB, keys: seq<Bytes>) {
    forall i :: 0 <= i < |keys| ==> keys[i] in db && |keys[i]| == 37
  }

  ghost function OutRows(db: DB, txid: Hash, keys: seq<Bytes>): Result<seq<Output>>
    requires OutKeys(db, keys)
  {
    if keys == [] then Ok([])
    else var n := |keys| - 1; match OutRows(db, txid, keys[..n])
      case Err => Err
      case Ok(outs) => match OutRow(txid, keys[n], db[keys[n]])
        case Err => Err
        case Ok(o) => Ok(outs + [o])
  }

  lemma {:induction false} OutRowsErr(db: DB, txid: Hash, keys: seq<Bytes>, n: nat)
    requires n < |keys| && OutKeys(db, keys) && |db[keys[n]]| != 40
    ensures OutRows(db, txid, keys) == Err
  {
    if n < |keys| - 1 { OutRowsErr(db, txid, keys[..|keys| - 1], n); }
  }

  /** With 40-byte values there is one output per key, in key order. */
  lemma {:induction false} OutRowsOk(db: DB, txid: Hash, keys: seq<Bytes>)
    requires OutKeys(db, keys) && forall i :: 0 <= i < |keys| ==> |db[keys[i]]| == 40
    ensures OutRows(db, txid, keys).Ok? && |OutRows(db, txid, keys).value| == |keys|
    ensures forall i :: 0 <= i < |keys| ==>
      OutRow(txid, keys[i], db[keys[i]]) == Ok(OutRows(db, txid, keys).value[i])
  {
    if keys != [] { OutRowsOk(db, txid, keys[..|keys| - 1]); }
  }

  /** A scan of one transaction's outputs meets every vout but the top one. */
  lemma ScanOut(db: DB, txid: Hash, k: Bytes)
    requires WellFormed(db) && k in db
    ensures k in Scan(db, BoundsOut(txid)) <==> exists v: U32 :: v != MAX_U32 && k == Encode(Out(txid, v))
  {
    var key := KeyOf(db, k);
    BoundsExact(BoundsOut(txid), key);
    if v: U32 :| v != MAX_U32 && k == Encode(Out(txid, v)) {
      EncodeInjective(key, Out(txid, v));
    }
  }

  lemma ScanOutKeys(db: DB, txid: Hash)
    requires WellFormed(db)
    ensures OutKeys(db, Scan(db, BoundsOut(txid)))
  {
    var keys := Scan(db, BoundsOut(txid));
    forall i | 0 <= i < |keys| ensures keys[i] in db && |keys[i]| == 37 {
      assert keys[i] in keys;
      ScanOut(db, txid, keys[i]);
    }
  }

  /** `OutputsForTx` as a function of the store. */
  ghost function TxOutputs(db: DB, txid: Hash): Result<seq<Output>>
    requires WellFormed(db)
  {
    ScanOutKeys(db, txid);
    OutRows(db, txid, Scan(db, BoundsOut(txid)))
  }

  method OutputsForTx(db: DB, txid: Hash) returns (r: Result<seq<Output>>)
    requires WellFormed(db)
    ensures r == TxOutputs(db, txid)
  {
    ScanOutKeys(db, txid);
    var lb, ub := MakeBoundsOut(txid);
    var it := new Iterator(db, lb[..], ub[..]);
    r := ReadOutputs(it, txid);
  }

  method ReadOutputs(it: Iterator, txid: Hash) returns (r: Result<seq<Output>>)
    requires it.Valid() && OutKeys(it.db, it.keys)
    modifies it
    ensures r == OutRows(it.db, txid, it.keys)
  {
    var outs: seq<Output> := [];
    var ok := it.First();
    while ok
      invariant it.Valid() && ok == (it.pos < |it.keys|)
      invariant OutRows(it.db, txid, it.keys[..it.pos]) == Ok(outs)
      decreases |it.keys| - it.pos
    {
      assert it.keys[..it.pos + 1][..it.pos] == it.keys[..it.pos];
      var o := OutRow(txid, it.Key(), it.Value());
      if o.Err? {
        OutRowsErr(it.db, txid, it.keys, it.pos);
        return Err;
      }
      outs := outs + [o.value];
      ok := it.Next();
    }
    assert it.keys[..it.pos] == it.keys;
    r := Ok(outs);
  }

  // ---------- LoadTweak and the chain index ----------

  function LoadTweak(db: DB, txid: Hash): Option<Bytes> {
    if Encode(Tx(txid)) in db then Some(db[Encode(Tx(txid))]) else None
  }

  function GetBlockHashByHeight(db: DB, height: U32): Option<Bytes> {
    if Encode(CIHeight(height)) in db then Some(db[Encode(CIHeight(height))]) else None
  }

  function BlockhashInDB(db: DB, hash: Hash): bool {
    Encode(CIBlock(hash)) in db
  }

  /** `heightIfOnBestChain`: a hit in the hash index, an error on a malformed height. */
  function HeightIfOnBestChain(db: DB, hash: Hash): Result<Option<U32>> {
    var k := Encode(CIBlock(hash));
    if k !in db then Ok(None)
    else if |db[k]| != 4 then Err
    else Ok(Some(FromBE32(db[k])))
  }

  /** The highest indexed height; the top `uint32` is out of the scan's bounds. */
  ghost predicate TopHeight(db: DB, height: U32) {
    && height < MAX_U32 && GetBlockHashByHeight(db, height).Some?
    && forall h: U32 :: height < h < MAX_U32 ==> GetBlockHashByHeight(db, h).None?
  }

  ghost predicate NoHeights(db: DB) {
    forall h: U32 :: h < MAX_U32 ==> GetBlockHashByHeight(db, h).None?
  }

  /** The highest indexed height and its hash; an error exactly when that hash is malformed. */
  method GetChainTip(db: DB) returns (r: Result<Option<(Hash, U32)>>)
    requires WellFormed(db)
    ensures r == Ok(None) <==> NoHeights(db)
    ensures forall hash: Hash, height: U32 ::
      r == Ok(Some((hash, height))) <==> TopHeight(db, height) && GetBlockHashByHeight(db, height) == Some(hash)
    ensures r.Err? <==> exists h: U32 :: TopHeight(db, h) && |GetBlockHashByHeight(db, h).value| != 32
  {
    var lb, ub := MakeBoundsCIHeight();
    var it := new Iterator(db, lb[..], ub[..]);
    var ok := it.Last();
    if !ok {
      forall h: U32 | h < MAX_U32 ensures GetBlockHashByHeight(db, h).None? {
        BoundsExact(BoundsCIHeight, CIHeight(h));
      }
      return Ok(None);
    }
    ghost var h := LastHeight(db, it.keys);
    assert TopHeight(db, h);
    if |it.Value()| != 32 {
      return Err;
    }
    var hash: Hash, height: U32 := it.Value(), FromBE32(it.Key()[1..]);
    r := Ok(Some((hash, height)));
  }

  /** The last key of the height index carries the greatest height it holds. */
  lemma LastHeight(db: DB, keys: seq<Bytes>) returns (h: U32)
    requires WellFormed(db) && keys == Scan(db, BoundsCIHeight) && keys != []
    ensures var last := keys[|keys| - 1];
      h < MAX_U32 && last == Encode(CIHeight(h)) && |last| == 5 && FromBE32(last[1..]) == h
    ensures forall g: U32 :: h < g < MAX_U32 ==> Encode(CIHeight(g)) !in db
  {
    var last := keys[|keys| - 1];
    var key := KeyOf(db, last);
    BoundsExact(BoundsCIHeight, key);
    h := key.height;
    assert last[1..] == BE32(h);
    BE32RoundTrip(h);
    forall g: U32 | h < g < MAX_U32 ensures Encode(CIHeight(g)) !in db {
      BoundsExact(BoundsCIHeight, CIHeight(g));
      EncodeOrder(key, CIHeight(g));
      if Encode(CIHeight(g)) in keys {
        var i :| 0 <= i < |keys| && keys[i] == Encode(CIHeight(g));
        LtAsymmetric(last, keys[i]);
      }
    }
  }
}
