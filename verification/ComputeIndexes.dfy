/** The compute index: its serialisation, its fetch and its rebuild from the other indexes. */
module ComputeIndexes {
  import opened ByteOrder
  import opened Keys
  import opened Pebble
  import opened Blocks
  import opened Attach
  import opened Encoders
  import opened Seqs
  import opened Reads
  import opened FastReads
  import opened FastTweaks

  type Short8 = b: Bytes | |b| == 8 witness Fill(0, 8)

  datatype Entry = Entry(txid: Hash, height: U32, tweak: Tweak, shorts: seq<Short8>)

  // ---------- serialisation ----------

  function EntryData(e: Entry): Bytes {
    e.tweak + Flatten(e.shorts)
  }

  function EntryWrite(e: Entry): Write {
    Write(ComputeIndex(e.height, e.txid), EntryData(e))
  }

  lemma {:induction false} FlattenEights(shorts: seq<Short8>)
    ensures |Flatten(shorts)| == 8 * |shorts|
    ensures forall i :: 0 <= i < |shorts| ==> Flatten(shorts)[8 * i..8 * i + 8] == shorts[i]
  {
    if shorts != [] {
      var n := |shorts| - 1;
      var front := shorts[..n];
      FlattenEights(front);
      forall i | 0 <= i < |shorts| ensures Flatten(shorts)[8 * i..8 * i + 8] == shorts[i] {
        if i < n {
          assert Flatten(shorts)[8 * i..8 * i + 8] == Flatten(front)[8 * i..8 * i + 8];
        }
      }
    }
  }

  /** Fills a fixed buffer: the tweak, then eight bytes per output at computed offsets. */
  method SerialiseData(e: Entry) returns (flattened: array<Byte>)
    ensures flattened[..] == EntryData(e)
  {
    flattened := new Byte[33 + |e.shorts| * 8](_ => 0);
    Copy(flattened, 0, e.tweak);
    for n := 0 to |e.shorts|
      invariant flattened[..] == e.tweak + Flatten(e.shorts[..n]) + Fill(0, 8 * (|e.shorts| - n))
    {
      FlattenEights(e.shorts[..n]);
      FlattenNext(e.shorts, n);
      Copy(flattened, 33 + n * 8, e.shorts[n]);
    }
    assert e.shorts[..|e.shorts|] == e.shorts;
  }

  /** The range handlers' splitting loop: whole 8-byte chunks, a shorter tail dropped. */
  method SplitChunks(data: Bytes) returns (chunks: seq<Short8>)
    ensures |chunks| == |data| / 8
    ensures forall i :: 0 <= i < |chunks| ==> chunks[i] == data[8 * i..8 * i + 8]
  {
    chunks := [];
    var i := 0;
    while i + 8 <= |data|
      invariant i == 8 * |chunks| <= |data|
      invariant forall j :: 0 <= j < |chunks| ==> chunks[j] == data[8 * j..8 * j + 8]
    {
      chunks := chunks + [data[i..i + 8]];
      i := i + 8;
    }
  }

  /** What the handlers split out of a stored entry is what was put in. */
  lemma ChunksRoundTrip(e: Entry, chunks: seq<Short8>)
    requires var data := EntryData(e)[33..];
      && |chunks| == |data| / 8
      && forall i :: 0 <= i < |chunks| ==> 8 * i + 8 <= |data| && chunks[i] == data[8 * i..8 * i + 8]
    ensures chunks == e.shorts && EntryData(e)[..33] == e.tweak
  {
    FlattenEights(e.shorts);
    assert EntryData(e)[33..] == Flatten(e.shorts);
  }

  // ---------- FetchComputeIndex ----------

  datatype ComputeItem = ComputeItem(txid: Bytes, tweak: Bytes, outputsShort: Bytes)

  function Reverse(b: Bytes): (r: Bytes)
    ensures |r| == |b| && forall i :: 0 <= i < |b| ==> r[i] == b[|b| - 1 - i]
  {
    seq(|b|, i requires 0 <= i < |b| => b[|b| - 1 - i])
  }

  lemma ReverseInvolutive(b: Bytes)
    ensures Reverse(Reverse(b)) == b
  {
  }

  function Deserialise(key: Bytes, value: Bytes): ComputeItem
    requires |key| >= 5 && |value| >= 33
  {
    ComputeItem(Reverse(key[5..]), value[..33], value[33..])
  }

  ghost predicate ComputeRows(db: DB, keys: seq<Bytes>) {
    forall i :: 0 <= i < |keys| ==> keys[i] in db && |keys[i]| >= 5 && |db[keys[i]]| >= 33
  }

  ghost function Items(db: DB, keys: seq<Bytes>): (r: seq<ComputeItem>)
    requires ComputeRows(db, keys)
    ensures |r| == |keys| && forall i :: 0 <= i < |keys| ==> r[i] == Deserialise(keys[i], db[keys[i]])
  {
    seq(|keys|, i requires 0 <= i < |keys| => Deserialise(keys[i], db[keys[i]]))
  }

  method FetchComputeIndex(db: DB, height: U32) returns (items: seq<ComputeItem>)
    requires ComputeRows(db, Scan(db, BoundsComputeIndex(height, height)))
    ensures items == Items(db, Scan(db, BoundsComputeIndex(height, height)))
  {
    var lb, ub := MakeBoundsComputeIndex(height, height);
    var it := new Iterator(db, lb[..], ub[..]);
    items := ReadItems(it);
  }

  method ReadItems(it: Iterator) returns (items: seq<ComputeItem>)
    requires it.Valid() && ComputeRows(it.db, it.keys)
    modifies it
    ensures items == Items(it.db, it.keys)
  {
    items := [];
    var ok := it.First();
    while ok
      invariant it.Valid() && ok == (it.pos < |it.keys|)
      invariant |items| == it.pos
      invariant forall i :: 0 <= i < it.pos ==> items[i] == Deserialise(it.keys[i], it.db[it.keys[i]])
      decreases |it.keys| - it.pos
    {
      items := items + [Deserialise(it.Key(), it.Value())];
      ok := it.Next();
    }
  }

  // ---------- BuildComputeIndexForHeight ----------

  function ShortOf(o: Output): Short8 {
    if |o.pubkey| >= 8 then o.pubkey[..8] else o.pubkey + Fill(0, 8 - |o.pubkey|)
  }

  function Shorts(outs: seq<Output>): (r: seq<Short8>)
    ensures |r| == |outs|
  {
    seq(|outs|, i requires 0 <= i < |outs| => ShortOf(outs[i]))
  }

  /** The block hash a rebuild works from; an unindexed height reads as the all-zero hash. */
  function HashToRebuild(db: DB, height: U32): Hash {
    match GetBlockHashByHeight(db, height)
    case None => ZERO_HASH
    case Some(v) => if |v| >= 32 then v[..32] else v + Fill(0, 32 - |v|)
  }

  ghost function RebuiltEntry(db: DB, height: U32, row: TweakRow): Result<seq<Entry>>
    requires WellFormed(db)
  {
    match TxOutputs(db, row.txid)
    case Err => Err
    case Ok(outs) => Ok([Entry(row.txid, height, row.tweak, Shorts(outs))])
  }

  ghost function RebuiltEntries(db: DB, height: U32, rows: seq<TweakRow>): (r: seq<Result<seq<Entry>>>)
    requires WellFormed(db)
    ensures |r| == |rows|
  {
    seq(|rows|, i requires 0 <= i < |rows| => RebuiltEntry(db, height, rows[i]))
  }

  ghost function Rebuilt(db: DB, height: U32): Result<seq<Entry>>
    requires WellFormed(db)
  {
    match BlockTweaks(db, HashToRebuild(db, height))
    case Err => Err
    case Ok(rows) => Join(RebuiltEntries(db, height, rows))
  }

  method BuildComputeIndexForHeight(db: DB, height: U32) returns (r: Result<seq<Entry>>)
    requires WellFormed(db)
    ensures r == Rebuilt(db, height)
  {
    var rows := TweaksForBlockAll(db, HashToRebuild(db, height));
    if rows.Err? {
      return Err;
    }
    r := BuildLoop(db, height, rows.value);
  }

  method BuildLoop(db: DB, height: U32, rows: seq<TweakRow>) returns (r: Result<seq<Entry>>)
    requires WellFormed(db)
    ensures r == Join(RebuiltEntries(db, height, rows))
  {
    ghost var rs := RebuiltEntries(db, height, rows);
    var out := [];
    for n := 0 to |rows|
      invariant Join(rs[..n]) == Ok(out)
    {
      var outs := OutputsForTx(db, rows[n].txid);
      assert rs[n] == RebuiltEntry(db, height, rows[n]);
      if outs.Err? {
        JoinErr(rs, n);
        return Err;
      }
      JoinNext(rs, n);
      out := out + [Entry(rows[n].txid, height, rows[n].tweak, Shorts(outs.value))];
    }
    assert rs[..|rows|] == rs;
    r := Ok(out);
  }

  function EntryWrites(entries: seq<Entry>): (r: seq<Write>)
    ensures |r| == |entries|
  {
    seq(|entries|, i requires 0 <= i < |entries| => EntryWrite(entries[i]))
  }

  method AttachComputeIndexToBatch(batch: Batch, entries: seq<Entry>)
    modifies batch
    ensures batch.ops == old(batch.ops) + EntryWrites(entries)
  {
    ghost var ws := EntryWrites(entries);
    for n := 0 to |entries|
      invariant batch.ops == old(batch.ops) + ws[..n]
    {
      var data := SerialiseData(entries[n]);
      batch.Set(ComputeIndex(entries[n].height, entries[n].txid), data[..]);
      assert ws[..n + 1] == ws[..n] + [ws[n]];
    }
    assert ws[..|ws|] == ws;
  }
}
