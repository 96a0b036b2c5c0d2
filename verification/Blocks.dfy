/** Blocks as the indexer hands them to the store, and the rows each one writes. */
module Blocks {
  import opened ByteOrder
  import opened Keys
  import opened Pebble
  import opened Seqs

  datatype Option<+T> = None | Some(value: T)
  datatype Result<+T> = Ok(value: T) | Err

  type Tweak = b: Bytes | |b| == 33 witness Fill(0, 33)

  datatype Output = Output(txid: Hash, vout: U32, amount: U64, pubkey: Bytes)
  datatype In = In(prevTxid: Hash, prevVout: U32, pubkey: Bytes)
  datatype DBTx = DBTx(txid: Hash, tweak: Option<Tweak>, outs: seq<Output>, ins: seq<In>)

  /** Positions in a block fit below the top `uint32`. */
  type TxList = s: seq<Option<DBTx>> | |s| < MAX_U32 witness []

  datatype DBBlock = DBBlock(height: U32, hash: Hash, txs: TxList)

  // ---------- values ----------

  function ValOut(o: Output): Bytes {
    LE64(o.amount) + o.pubkey
  }

  /** First 8 bytes of an x-only pubkey. */
  function Short(pubkey: Bytes): Bytes {
    if |pubkey| >= 8 then pubkey[..8] else pubkey
  }

  function OutShorts(outs: seq<Output>): Bytes {
    if outs == [] then [] else OutShorts(outs[..|outs| - 1]) + Short(outs[|outs| - 1].pubkey)
  }

  function InShorts(ins: seq<In>): Bytes {
    if ins == [] then [] else InShorts(ins[..|ins| - 1]) + Short(ins[|ins| - 1].pubkey)
  }

  function Outpoints(ins: seq<In>): Bytes {
    if ins == [] then []
    else var i := ins[|ins| - 1]; Outpoints(ins[..|ins| - 1]) + (i.prevTxid + BE32(i.prevVout))
  }

  // ---------- the writes of one block, in program order ----------

  function SpendWrites(hash: Hash, ins: seq<In>): (r: seq<Write>)
    ensures |r| == |ins|
  {
    seq(|ins|, i requires 0 <= i < |ins| => Write(Spend(ins[i].prevTxid, ins[i].prevVout, hash), ins[i].pubkey))
  }

  function OutWrites(outs: seq<Output>): (r: seq<Write>)
    ensures |r| == |outs|
  {
    seq(|outs|, i requires 0 <= i < |outs| => Write(Out(outs[i].txid, outs[i].vout), ValOut(outs[i])))
  }

  function TweakWrites(height: U32, t: DBTx): seq<Write> {
    match t.tweak
    case None => []
    case Some(tweak) =>
      [Write(Tx(t.txid), tweak)] + OutWrites(t.outs)
      + [Write(ComputeIndex(height, t.txid), tweak + OutShorts(t.outs))]
  }

  function TxWrites(b: DBBlock, i: nat): seq<Write>
    requires i < |b.txs|
  {
    match b.txs[i]
    case None => []
    case Some(t) =>
      [Write(BlockTx(b.hash, i), t.txid), Write(TxOccur(t.txid, b.hash), [])]
      + SpendWrites(b.hash, t.ins) + TweakWrites(b.height, t)
  }

  function TxParts(b: DBBlock): (r: seq<seq<Write>>)
    ensures |r| == |b.txs|
  {
    seq(|b.txs|, i requires 0 <= i < |b.txs| => TxWrites(b, i))
  }

  function SpentShorts(b: DBBlock, n: nat): Bytes
    requires n <= |b.txs|
  {
    if n == 0 then []
    else SpentShorts(b, n - 1) + match b.txs[n - 1] case None => [] case Some(t) => InShorts(t.ins)
  }

  function OutpointPart(b: DBBlock, i: nat): seq<Write>
    requires i < |b.txs|
  {
    match b.txs[i]
    case None => []
    case Some(t) => if t.ins == [] then [] else [Write(TxidOutpoints(b.hash, t.txid), Outpoints(t.ins))]
  }

  function OutpointParts(b: DBBlock): (r: seq<seq<Write>>)
    ensures |r| == |b.txs|
  {
    seq(|b.txs|, i requires 0 <= i < |b.txs| => OutpointPart(b, i))
  }

  function Header(b: DBBlock): seq<Write> {
    [Write(CIHeight(b.height), b.hash), Write(CIBlock(b.hash), BE32(b.height))]
  }

  function BlockWrites(b: DBBlock): seq<Write> {
    Header(b) + Flatten(TxParts(b))
    + [Write(SpentOutputsShort(b.hash), SpentShorts(b, |b.txs|))] + Flatten(OutpointParts(b))
  }

  // ---------- what a block writes, stated without the order ----------

  ghost predicate HasTx(b: DBBlock, t: DBTx) {
    Some(t) in b.txs
  }

  predicate IsOut(o: Output, txid: Hash, vout: U32, val: Bytes) {
    o.txid == txid && o.vout == vout && ValOut(o) == val
  }

  predicate IsComputeData(t: DBTx, val: Bytes) {
    t.tweak.Some? && val == t.tweak.value + OutShorts(t.outs)
  }

  /** The row `w` is one that block `b` calls for. */
  ghost predicate Calls(b: DBBlock, w: Write) {
    match w.key
    case CIHeight(h) => h == b.height && w.val == b.hash
    case CIBlock(hash) => hash == b.hash && w.val == BE32(b.height)
    case BlockTx(hash, pos) =>
      hash == b.hash && pos < |b.txs| && b.txs[pos].Some? && w.val == b.txs[pos].value.txid
    case TxOccur(txid, hash) => hash == b.hash && w.val == [] && exists t :: HasTx(b, t) && t.txid == txid
    case Spend(txid, vout, hash) => hash == b.hash && exists t :: HasTx(b, t) && In(txid, vout, w.val) in t.ins
    case Tx(txid) => exists t :: HasTx(b, t) && t.txid == txid && t.tweak.Some? && t.tweak.value == w.val
    case Out(txid, vout) =>
      (exists t, o :: HasTx(b, t) && t.tweak.Some? && o in t.outs && IsOut(o, txid, vout, w.val))
    case ComputeIndex(h, txid) =>
      h == b.height && exists t :: HasTx(b, t) && t.txid == txid && IsComputeData(t, w.val)
    case SpentOutputsShort(hash) => hash == b.hash && w.val == SpentShorts(b, |b.txs|)
    case TxidOutpoints(hash, txid) =>
      hash == b.hash && exists t :: HasTx(b, t) && t.txid == txid && t.ins != [] && w.val == Outpoints(t.ins)
  }

  lemma BlockWritesParts(b: DBBlock, w: Write)
    ensures w in BlockWrites(b) <==>
      (|| w in Header(b)
       || (exists i :: 0 <= i < |b.txs| && w in TxWrites(b, i))
       || w == Write(SpentOutputsShort(b.hash), SpentShorts(b, |b.txs|))
       || (exists i :: 0 <= i < |b.txs| && w in OutpointPart(b, i)))
  {
    FlattenMember(TxParts(b), w);
    FlattenMember(OutpointParts(b), w);
    assert forall i :: 0 <= i < |b.txs| ==> TxParts(b)[i] == TxWrites(b, i);
    assert forall i :: 0 <= i < |b.txs| ==> OutpointParts(b)[i] == OutpointPart(b, i);
  }

  /** Nothing is written that the block does not call for. */
  lemma WritesAreCalled(b: DBBlock, w: Write)
    requires w in BlockWrites(b)
    ensures Calls(b, w)
  {
    BlockWritesParts(b, w);
    if i :| 0 <= i < |b.txs| && w in TxWrites(b, i) {
      TxWritesCalled(b, i, w);
    } else if i :| 0 <= i < |b.txs| && w in OutpointPart(b, i) {
      assert HasTx(b, b.txs[i].value);
    }
  }

  lemma TxWritesCalled(b: DBBlock, i: nat, w: Write)
    requires i < |b.txs| && w in TxWrites(b, i)
    ensures Calls(b, w)
  {
    var t := b.txs[i].value;
    assert HasTx(b, t);
    if w in SpendWrites(b.hash, t.ins) {
      var j :| 0 <= j < |t.ins| && w == SpendWrites(b.hash, t.ins)[j];
      assert t.ins[j] == In(t.ins[j].prevTxid, t.ins[j].prevVout, w.val);
    } else if t.tweak.Some? && w in OutWrites(t.outs) {
      var j :| 0 <= j < |t.outs| && w == OutWrites(t.outs)[j];
      assert t.outs[j] in t.outs && IsOut(t.outs[j], w.key.txid, w.key.vout, w.val);
    }
  }

  /** Everything the block calls for is written. */
  lemma CalledAreWritten(b: DBBlock, w: Write)
    requires Calls(b, w)
    ensures w in BlockWrites(b)
  {
    BlockWritesParts(b, w);
    match w.key
    case BlockTx(_, pos) => assert w in TxWrites(b, pos);
    case TxOccur(txid, _) =>
      var t :| HasTx(b, t) && t.txid == txid;
      var i := IndexOf(b, t);
      assert w in TxWrites(b, i);
    case Spend(txid, vout, _) =>
      var t :| HasTx(b, t) && In(txid, vout, w.val) in t.ins;
      var i := IndexOf(b, t);
      var j :| 0 <= j < |t.ins| && t.ins[j] == In(txid, vout, w.val);
      assert w == SpendWrites(b.hash, t.ins)[j];
      assert w in TxWrites(b, i);
    case Tx(txid) =>
      var t :| HasTx(b, t) && t.txid == txid && t.tweak.Some? && t.tweak.value == w.val;
      var i := IndexOf(b, t);
      assert w in TweakWrites(b.height, t);
      assert w in TxWrites(b, i);
    case Out(txid, vout) =>
      var t, o :| HasTx(b, t) && t.tweak.Some? && o in t.outs && IsOut(o, txid, vout, w.val);
      var i := IndexOf(b, t);
      var j :| 0 <= j < |t.outs| && t.outs[j] == o;
      assert w == OutWrites(t.outs)[j];
      assert w in TweakWrites(b.height, t);
      assert w in TxWrites(b, i);
    case ComputeIndex(_, txid) =>
      var t :| HasTx(b, t) && t.txid == txid && IsComputeData(t, w.val);
      var i := IndexOf(b, t);
      assert w in TweakWrites(b.height, t);
      assert w in TxWrites(b, i);
    case TxidOutpoints(_, txid) =>
      var t :| HasTx(b, t) && t.txid == txid && t.ins != [] && w.val == Outpoints(t.ins);
      var i := IndexOf(b, t);
      assert w in OutpointPart(b, i);
    case _ =>
  }

  ghost function IndexOf(b: DBBlock, t: DBTx): (i: nat)
    requires HasTx(b, t)
    ensures i < |b.txs| && b.txs[i] == Some(t)
  {
    var i :| 0 <= i < |b.txs| && b.txs[i] == Some(t);
    i
  }
}
