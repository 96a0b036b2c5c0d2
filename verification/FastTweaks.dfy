/** `TweaksForBlockAll`: the tweak index walked once in txid order. */
module FastTweaks {
  import opened ByteOrder
  import opened Keys
  import opened Pebble
  import opened Blocks
  import opened Seqs
  import opened Reads
  import opened FastReads

  datatype TweakRow = TweakRow(txid: Hash, tweak: Tweak)

  // ---------- specification ----------

  /** The row of one transaction: none without a tweak, an error on a tweak of the wrong length. */
  ghost function TweakAt(db: DB, txid: Hash): Result<seq<TweakRow>> {
    match LoadTweak(db, txid)
    case None => Ok([])
    case Some(v) => if |v| != 33 then Err else Ok([TweakRow(txid, v)])
  }

  ghost function TweaksPerTx(db: DB, txids: seq<Hash>): (r: seq<Result<seq<TweakRow>>>)
    ensures |r| == |txids|
  {
    seq(|txids|, i requires 0 <= i < |txids| => TweakAt(db, txids[i]))
  }

  ghost function BlockTweaks(db: DB, blockhash: Hash): Result<seq<TweakRow>> {
    match Txids(db, blockhash)
    case Err => Err
    case Ok(txids) => Join(TweaksPerTx(db, txids))
  }

  // ---------- seeking in the tweak index ----------

  ghost predicate TweakIndex(db: DB, keys: seq<Bytes>) {
    Ascending(keys) && forall txid: Hash {:trigger Encode(Tx(txid))} ::
      Encode(Tx(txid)) in db ==> Encode(Tx(txid)) in keys
  }

  lemma TweakIndexOf(db: DB, keys: seq<Bytes>)
    requires keys == Range(db, [0x02], [0x03])
    ensures TweakIndex(db, keys)
  {
    forall txid: Hash | Encode(Tx(txid)) in db ensures Encode(Tx(txid)) in keys {
      PrefixBoundsExact(0x02, Tx(txid));
    }
  }

  ghost predicate LandedAt(keys: seq<Bytes>, key: Bytes, p: nat) {
    && p <= |keys|
    && (forall i :: 0 <= i < p ==> Lt(keys[i], key))
    && (p < |keys| ==> !Lt(keys[p], key))
  }

  /** A seek that lands on another key means the key is absent. */
  lemma LandedElsewhere(keys: seq<Bytes>, key: Bytes, p: nat)
    requires Ascending(keys) && LandedAt(keys, key, p) && p < |keys| && keys[p] != key
    ensures key !in keys
  {
    forall i | 0 <= i < |keys| ensures keys[i] != key {
      if i < p {
        LtAsymmetric(keys[i], key);
      } else if p < i {
        assert Lt(keys[p], keys[i]);
      }
    }
  }

  /** A seek that runs off the end leaves no tweak for this txid or any later one. */
  lemma NoTweakAfter(db: DB, keys: seq<Bytes>, txid: Hash, later: Hash)
    requires TweakIndex(db, keys) && LandedAt(keys, Encode(Tx(txid)), |keys|) && !Lt(later, txid)
    ensures TweakAt(db, later) == Ok([])
  {
    if Encode(Tx(later)) in db {
      var i :| 0 <= i < |keys| && keys[i] == Encode(Tx(later));
      EncodeOrder(Tx(later), Tx(txid));
    }
  }

  lemma NoTweaksLeft(db: DB, keys: seq<Bytes>, txids: seq<Hash>, order: seq<nat>, n: nat)
    requires TweakIndex(db, keys) && SortedOrder(txids, order) && n < |order|
    requires LandedAt(keys, Encode(Tx(txids[order[n]])), |keys|)
    ensures forall j :: n <= j < |order| ==> TweakAt(db, txids[order[j]]) == Ok([])
  {
    forall j | n <= j < |order| ensures TweakAt(db, txids[order[j]]) == Ok([]) {
      Compare(txids[order[j]], txids[order[n]]);
      NoTweakAfter(db, keys, txids[order[n]], txids[order[j]]);
    }
  }

  // ---------- TweaksForBlockAll ----------

  function Bucket(row: Option<TweakRow>): seq<TweakRow> {
    match row case None => [] case Some(r) => [r]
  }

  method TweaksForBlockAll(db: DB, blockhash: Hash) returns (r: Result<seq<TweakRow>>)
    ensures r == BlockTweaks(db, blockhash)
  {
    var t := BlockTxids(db, blockhash);
    if t.Err? {
      return Err;
    }
    var txids := t.value;
    if |txids| == 0 {
      return Ok([]);
    }
    var it := new Iterator(db, [0x02], [0x03]);
    TweakIndexOf(db, it.keys);
    r := TweaksSorted(it, txids);
  }

  /** One seek: the row, no row, an error, or word that nothing is left. */
  method SeekTweak(it: Iterator, txid: Hash) returns (more: bool, r: Result<Option<TweakRow>>)
    requires it.Valid() && TweakIndex(it.db, it.keys)
    modifies it
    ensures it.Valid()
    ensures !more ==> LandedAt(it.keys, Encode(Tx(txid)), |it.keys|)
    ensures more ==> TweakAt(it.db, txid) == match r case Err => Err case Ok(row) => Ok(Bucket(row))
  {
    var key := Encode(Tx(txid));
    more := it.SeekGE(key);
    if !more {
      return false, Err;
    }
    if it.Key() != key {
      LandedElsewhere(it.keys, key, it.pos);
      return true, Ok(None);
    }
    var val := it.Value();
    if |val| != 33 {
      return true, Err;
    }
    var tweak: Tweak := val;
    r := Ok(Some(TweakRow(txid, tweak)));
  }

  method TweaksSorted(it: Iterator, txids: seq<Hash>) returns (r: Result<seq<TweakRow>>)
    requires it.Valid() && TweakIndex(it.db, it.keys)
    modifies it
    ensures r == Join(TweaksPerTx(it.db, txids))
  {
    var rows := new Option<TweakRow>[|txids|](_ => None);
    var order := SortedTxidOrder(txids);
    var n, more := 0, true;
    while n < |order| && more
      invariant it.Valid() && n <= |order|
      invariant forall j :: 0 <= j < n ==> TweakAt(it.db, txids[order[j]]) == Ok(Bucket(rows[order[j]]))
      invariant forall j :: n <= j < |order| ==> rows[order[j]] == None
      invariant !more ==> forall j :: n <= j < |order| ==> TweakAt(it.db, txids[order[j]]) == Ok([])
      decreases |order| - n, more
    {
      var pos := order[n];
      var row;
      more, row := SeekTweak(it, txids[pos]);
      if !more {
        NoTweaksLeft(it.db, it.keys, txids, order, n);
      } else if row.Err? {
        JoinErr(TweaksPerTx(it.db, txids), pos);
        return Err;
      } else {
        rows[pos] := row.value;
        n := n + 1;
      }
    }
    RowsPlaced(it.db, txids, order, rows[..]);
    var out := Compact(rows[..]);
    r := Ok(out);
  }

  /** Drops the empty buckets. */
  method Compact(rows: seq<Option<TweakRow>>) returns (out: seq<TweakRow>)
    ensures out == Flatten(Buckets(rows))
  {
    out := [];
    ghost var parts := Buckets(rows);
    for i := 0 to |rows|
      invariant out == Flatten(parts[..i])
    {
      FlattenNext(parts, i);
      if rows[i].Some? {
        out := out + [rows[i].value];
      }
    }
    assert parts[..|rows|] == parts;
  }

  function Buckets(rows: seq<Option<TweakRow>>): (r: seq<seq<TweakRow>>)
    ensures |r| == |rows|
  {
    seq(|rows|, i requires 0 <= i < |rows| => Bucket(rows[i]))
  }

  lemma RowsPlaced(db: DB, txids: seq<Hash>, order: seq<nat>, rows: seq<Option<TweakRow>>)
    requires IsPermutation(order, |txids|) && |rows| == |txids|
    requires forall j :: 0 <= j < |order| ==> TweakAt(db, txids[order[j]]) == Ok(Bucket(rows[order[j]]))
    ensures Join(TweaksPerTx(db, txids)) == Ok(Flatten(Buckets(rows)))
  {
    forall p | 0 <= p < |txids| ensures TweaksPerTx(db, txids)[p] == Ok(Buckets(rows)[p]) {
      assert p in order;
      var j :| 0 <= j < |order| && order[j] == p;
    }
    JoinOk(TweaksPerTx(db, txids), Buckets(rows));
  }

  // ---------- against a LoadTweak per txid ----------

  /** `copy(row.Tweak[:], tweak)` into a zeroed 33-byte array. */
  function Fit33(v: Bytes): Tweak {
    if |v| >= 33 then v[..33] else v + Fill(0, 33 - |v|)
  }

  ghost function RefTweakAt(db: DB, txid: Hash): seq<TweakRow> {
    match LoadTweak(db, txid)
    case None => []
    case Some(v) => [TweakRow(txid, Fit33(v))]
  }

  ghost function RefTweaks(db: DB, txids: seq<Hash>): (r: seq<seq<TweakRow>>)
    ensures |r| == |txids|
  {
    seq(|txids|, i requires 0 <= i < |txids| => RefTweakAt(db, txids[i]))
  }

  ghost function RefBlockTweaks(db: DB, blockhash: Hash): Result<seq<TweakRow>> {
    match Txids(db, blockhash)
    case Err => Err
    case Ok(txids) => Ok(Flatten(RefTweaks(db, txids)))
  }

  ghost predicate TweaksWellSized(db: DB, txids: seq<Hash>) {
    forall i :: 0 <= i < |txids| ==> LoadTweak(db, txids[i]).Some? ==> |LoadTweak(db, txids[i]).value| == 33
  }

  /** The walk returns the reference's rows in the reference's order exactly when every tweak it meets is 33 bytes. */
  lemma TweaksMatchReference(db: DB, blockhash: Hash)
    requires Txids(db, blockhash).Ok?
    ensures BlockTweaks(db, blockhash) == RefBlockTweaks(db, blockhash)
      <==> TweaksWellSized(db, Txids(db, blockhash).value)
  {
    var txids := Txids(db, blockhash).value;
    if TweaksWellSized(db, txids) {
      forall i | 0 <= i < |txids| ensures TweaksPerTx(db, txids)[i] == Ok(RefTweaks(db, txids)[i]) {
        assert LoadTweak(db, txids[i]).Some? ==> Fit33(LoadTweak(db, txids[i]).value) == LoadTweak(db, txids[i]).value;
      }
      JoinOk(TweaksPerTx(db, txids), RefTweaks(db, txids));
    } else {
      var i :| 0 <= i < |txids| && LoadTweak(db, txids[i]).Some? && |LoadTweak(db, txids[i]).value| != 33;
      JoinErr(TweaksPerTx(db, txids), i);
    }
  }
}
