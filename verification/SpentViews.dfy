/** The spent-outputs and outpoints rows of a block, and their reads. */
module SpentViews {
  import opened ByteOrder
  import opened Keys
  import opened Pebble
  import opened Blocks
  import opened Attach
  import opened Runs
  import opened ComputeScan

  // ---------- what the values hold ----------

  /** The inputs of a block's first n transactions that are stored, in block order. */
  function StoredIns(b: DBBlock, n: nat): seq<In>
    requires n <= |b.txs|
  {
    if n == 0 then [] else StoredIns(b, n - 1) + if b.txs[n - 1].Some? then b.txs[n - 1].value.ins else []
  }

  /** Eight bytes per input: the first of its spent pubkey. */
  ghost predicate Eights(data: Bytes, ins: seq<In>) {
    && |data| == 8 * |ins|
    && forall k :: 0 <= k < |ins| ==> |ins[k].pubkey| == 32 && data[8 * k..8 * k + 8] == ins[k].pubkey[..8]
  }

  lemma EightsConcat(d: Bytes, ins: seq<In>, e: Bytes, more: seq<In>)
    requires Eights(d, ins) && Eights(e, more)
    ensures Eights(d + e, ins + more)
  {
    var n := |ins|;
    forall k | 0 <= k < |ins + more|
      ensures |(ins + more)[k].pubkey| == 32 && (d + e)[8 * k..8 * k + 8] == (ins + more)[k].pubkey[..8]
    {
      if k < n {
        assert (d + e)[8 * k..8 * k + 8] == d[8 * k..8 * k + 8];
      } else {
        assert (d + e)[8 * k..8 * k + 8] == e[8 * (k - n)..8 * (k - n) + 8];
      }
    }
  }

  lemma {:induction false} InShortsAre(ins: seq<In>)
    requires InsEncodable(ins)
    ensures Eights(InShorts(ins), ins)
  {
    if ins != [] {
      var n := |ins| - 1;
      InShortsAre(ins[..n]);
      var last := [ins[n]];
      assert Eights(Short(ins[n].pubkey), last);
      EightsConcat(InShorts(ins[..n]), ins[..n], Short(ins[n].pubkey), last);
      assert ins == ins[..n] + last;
    }
  }

  /** Every stored transaction's inputs are in the spent-outputs value, tweaked or not. */
  lemma {:induction false} SpentShortsAre(b: DBBlock, n: nat)
    requires Encodable(b) && n <= |b.txs|
    ensures Eights(SpentShorts(b, n), StoredIns(b, n))
  {
    if n > 0 {
      SpentShortsAre(b, n - 1);
      var shorts, ins: seq<In> := [], [];
      if b.txs[n - 1].Some? {
        EncodableEach(b, |b.txs|, n - 1);
        ins := b.txs[n - 1].value.ins;
        shorts := InShorts(ins);
        InShortsAre(ins);
      }
      EightsConcat(SpentShorts(b, n - 1), StoredIns(b, n - 1), shorts, ins);
      assert SpentShorts(b, n) == SpentShorts(b, n - 1) + shorts && StoredIns(b, n) == StoredIns(b, n - 1) + ins;
    }
  }

  /** 36 bytes per input: the txid and big-endian index of the output it spends. */
  ghost predicate OutpointsOf(data: Bytes, ins: seq<In>) {
    && |data| == 36 * |ins|
    && forall k :: 0 <= k < |ins| ==> data[36 * k..36 * k + 36] == ins[k].prevTxid + BE32(ins[k].prevVout)
  }

  lemma {:induction false} OutpointsAre(ins: seq<In>)
    ensures OutpointsOf(Outpoints(ins), ins)
  {
    if ins != [] {
      var n := |ins| - 1;
      OutpointsAre(ins[..n]);
      var data, front := Outpoints(ins), Outpoints(ins[..n]);
      forall k | 0 <= k < |ins| ensures data[36 * k..36 * k + 36] == ins[k].prevTxid + BE32(ins[k].prevVout) {
        if k < n { assert data[36 * k..36 * k + 36] == front[36 * k..36 * k + 36]; }
      }
    }
  }

  // ---------- the reads ----------

  /** A block without a row reads as empty. */
  function FetchSpentOutputsShort(db: DB, hash: Hash): Bytes {
    var k := Encode(SpentOutputsShort(hash));
    if k in db then db[k] else []
  }

  method ParseTxidOutpointsValue(v: Bytes) returns (r: Result<seq<Bytes>>)
    ensures r.Err? <==> |v| % 36 != 0
    ensures r.Ok? ==> 36 * |r.value| == |v| && forall i :: 0 <= i < |r.value| ==> r.value[i] == v[36 * i..36 * i + 36]
  {
    if |v| % 36 != 0 {
      return Err;
    }
    var outpoints := [];
    for i := 0 to |v| / 36
      invariant |outpoints| == i
      invariant forall k :: 0 <= k < i ==> outpoints[k] == v[36 * k..36 * k + 36]
    {
      outpoints := outpoints + [v[36 * i..36 * i + 36]];
    }
    r := Ok(outpoints);
  }

  method FetchTxidOutpoints(db: DB, hash: Hash, txid: Hash) returns (r: Result<seq<Bytes>>)
    ensures var k := Encode(TxidOutpoints(hash, txid));
      && (k !in db ==> r == Ok([]))
      && (k in db ==> (r.Err? <==> |db[k]| % 36 != 0))
      && (k in db && r.Ok? ==> 36 * |r.value| == |db[k]|)
      && (k in db && r.Ok? ==> forall i :: 0 <= i < |r.value| ==> r.value[i] == db[k][36 * i..36 * i + 36])
  {
    var k := Encode(TxidOutpoints(hash, txid));
    if k !in db {
      return Ok([]);
    }
    r := ParseTxidOutpointsValue(db[k]);
  }

  // ---------- read back from a run ----------

  /** The chunks the range handler serves for a block are the first eight bytes of every spent pubkey, in order. */
  lemma SpentOutputsReadBack(blocks: seq<DBBlock>, b: DBBlock)
    requires HashFixesBlock(SetOf(blocks)) && b in blocks && Encodable(b)
    ensures var ins := StoredIns(b, |b.txs|);
      var chunks := Chunks(FetchSpentOutputsShort(Replay(map[], blocks), b.hash));
      |chunks| == |ins| && forall k :: 0 <= k < |ins| ==> |ins[k].pubkey| == 32 && chunks[k] == ins[k].pubkey[..8]
  {
    RunKeeps(blocks, b, Write(SpentOutputsShort(b.hash), SpentShorts(b, |b.txs|)));
    var c := RunHas(blocks, SpentOutputsShort(b.hash));
    assert c in SetOf(blocks) && b in SetOf(blocks);
    SpentShortsAre(b, |b.txs|);
  }

  /** The outpoints stored for a transaction are those of its inputs, in order. */
  lemma OutpointsReadBack(blocks: seq<DBBlock>, b: DBBlock, t: DBTx) returns (s: DBTx)
    requires HashFixesBlock(SetOf(blocks)) && b in blocks && HasTx(b, t) && t.ins != []
    ensures HasTx(b, s) && s.txid == t.txid && s.ins != []
    ensures var k := Encode(TxidOutpoints(b.hash, t.txid));
      k in Replay(map[], blocks) && OutpointsOf(Replay(map[], blocks)[k], s.ins)
  {
    var key := TxidOutpoints(b.hash, t.txid);
    assert Calls(b, Write(key, Outpoints(t.ins)));
    RunKeeps(blocks, b, Write(key, Outpoints(t.ins)));
    var c := RunHas(blocks, key);
    assert c in SetOf(blocks) && b in SetOf(blocks);
    var val := Replay(map[], blocks)[Encode(key)];
    s :| HasTx(c, s) && s.txid == t.txid && s.ins != [] && val == Outpoints(s.ins);
    OutpointsAre(s.ins);
  }
}
