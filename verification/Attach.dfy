/** `attachBlockToBatch`: the loops that turn a block into batch writes. */
module Attach {
  import opened ByteOrder
  import opened Keys
  import opened Pebble
  import opened Blocks
  import opened Seqs

  /** A Pebble batch: the operations set on it so far, in order. */
  class Batch {
    var ops: seq<Write>

    constructor ()
      ensures ops == []
    {
      ops := [];
    }

    method Set(key: Key, val: Bytes)
      modifies this
      ensures ops == old(ops) + [Write(key, val)]
    {
      ops := ops + [Write(key, val)];
    }
  }

  ghost predicate InsEncodable(ins: seq<In>) {
    forall i :: 0 <= i < |ins| ==> |ins[i].pubkey| == 32
  }

  ghost predicate OutsEncodable(outs: seq<Output>) {
    forall i :: 0 <= i < |outs| ==> |outs[i].pubkey| == 32
  }

  /** What the value encoders accept: 32-byte pubkeys wherever one is stored. */
  ghost predicate EncodableTx(t: DBTx) {
    InsEncodable(t.ins) && (t.tweak.Some? ==> OutsEncodable(t.outs))
  }

  ghost predicate EncodableAt(b: DBBlock, i: nat)
    requires i < |b.txs|
  {
    b.txs[i].Some? ==> EncodableTx(b.txs[i].value)
  }

  ghost predicate EncodableUpTo(b: DBBlock, n: nat)
    requires n <= |b.txs|
  {
    n == 0 || (EncodableUpTo(b, n - 1) && EncodableAt(b, n - 1))
  }

  ghost predicate Encodable(b: DBBlock) {
    EncodableUpTo(b, |b.txs|)
  }

  lemma {:induction false} EncodableEach(b: DBBlock, n: nat, i: nat)
    requires i < n <= |b.txs| && EncodableUpTo(b, n)
    ensures EncodableAt(b, i)
  {
    if i < n - 1 { EncodableEach(b, n - 1, i); }
  }

  /** Spend events of one transaction; `done` writes were made when it stops. */
  method AttachSpends(batch: Batch, hash: Hash, ins: seq<In>) returns (ok: bool, shorts: Bytes, ghost done: nat)
    modifies batch
    ensures ok <==> InsEncodable(ins)
    ensures done <= |ins| && (ok ==> done == |ins| && shorts == InShorts(ins))
    ensures batch.ops == old(batch.ops) + SpendWrites(hash, ins)[..done]
  {
    shorts := [];
    ghost var ws := SpendWrites(hash, ins);
    for n := 0 to |ins|
      invariant shorts == InShorts(ins[..n])
      invariant batch.ops == old(batch.ops) + ws[..n]
      invariant forall j :: 0 <= j < n ==> |ins[j].pubkey| == 32
    {
      var i := ins[n];
      if |i.pubkey| != 32 {
        return false, shorts, n;
      }
      batch.Set(Spend(i.prevTxid, i.prevVout, hash), i.pubkey);
      assert ws[..n + 1] == ws[..n] + [ws[n]];
      assert ins[..n + 1][..n] == ins[..n];
      shorts := shorts + Short(i.pubkey);
    }
    assert ins[..|ins|] == ins && ws[..|ws|] == ws;
    ok, done := true, |ins|;
  }

  /** Output rows of one transaction, and their short forms for the compute index. */
  method AttachOuts(batch: Batch, outs: seq<Output>) returns (ok: bool, shorts: Bytes, ghost done: nat)
    modifies batch
    ensures ok <==> OutsEncodable(outs)
    ensures done <= |outs| && (ok ==> done == |outs| && shorts == OutShorts(outs))
    ensures batch.ops == old(batch.ops) + OutWrites(outs)[..done]
  {
    shorts := [];
    ghost var ws := OutWrites(outs);
    for n := 0 to |outs|
      invariant shorts == OutShorts(outs[..n])
      invariant batch.ops == old(batch.ops) + ws[..n]
      invariant forall j :: 0 <= j < n ==> |outs[j].pubkey| == 32
    {
      var o := outs[n];
      if |o.pubkey| != 32 {
        return false, shorts, n;
      }
      batch.Set(Out(o.txid, o.vout), ValOut(o));
      assert ws[..n + 1] == ws[..n] + [ws[n]];
      assert outs[..n + 1][..n] == outs[..n];
      shorts := shorts + Short(o.pubkey);
    }
    assert outs[..|outs|] == outs && ws[..|ws|] == ws;
    ok, done := true, |outs|;
  }

  /** Tweak, outputs and compute index entry of a transaction that has a tweak. */
  method AttachTweak(batch: Batch, height: U32, t: DBTx) returns (ok: bool, ghost part: seq<Write>)
    requires t.tweak.Some?
    modifies batch
    ensures ok <==> OutsEncodable(t.outs)
    ensures batch.ops == old(batch.ops) + part
    ensures part <= TweakWrites(height, t) && (ok ==> part == TweakWrites(height, t))
  {
    batch.Set(Tx(t.txid), t.tweak.value);
    part := [Write(Tx(t.txid), t.tweak.value)];
    var shorts;
    ghost var done;
    ok, shorts, done := AttachOuts(batch, t.outs);
    Assoc(old(batch.ops), part, OutWrites(t.outs)[..done]);
    part := part + OutWrites(t.outs)[..done];
    if ok {
      batch.Set(ComputeIndex(height, t.txid), t.tweak.value + shorts);
      ghost var last := [Write(ComputeIndex(height, t.txid), t.tweak.value + shorts)];
      Assoc(old(batch.ops), part, last);
      part := part + last;
    }
  }

  method AttachTx(batch: Batch, b: DBBlock, i: nat, t: DBTx)
    returns (ok: bool, shorts: Bytes, ghost part: seq<Write>)
    requires i < |b.txs| && b.txs[i] == Some(t)
    modifies batch
    ensures ok <==> EncodableTx(t)
    ensures batch.ops == old(batch.ops) + part
    ensures part <= TxWrites(b, i) && (ok ==> part == TxWrites(b, i) && shorts == InShorts(t.ins))
  {
    ghost var done, was := 0, batch.ops;
    ghost var spends, tweaks := SpendWrites(b.hash, t.ins), TweakWrites(b.height, t);
    batch.Set(BlockTx(b.hash, i), t.txid);
    batch.Set(TxOccur(t.txid, b.hash), []);
    part := [Write(BlockTx(b.hash, i), t.txid), Write(TxOccur(t.txid, b.hash), [])];
    assert batch.ops == was + part;
    assert TxWrites(b, i) == part + spends + tweaks;
    ok, shorts, done := AttachSpends(batch, b.hash, t.ins);
    Assoc(was, part, spends[..done]);
    part := part + spends[..done];
    if ok && t.tweak.Some? {
      ghost var more;
      ok, more := AttachTweak(batch, b.height, t);
      Assoc(was, part, more);
      part := part + more;
    }
  }

  /** The `txidOutpointsMap` the loop has built after `n` transactions. */
  ghost function OutpointsTable(b: DBBlock, n: nat): map<Hash, Bytes>
    requires n <= |b.txs|
  {
    if n == 0 then map[]
    else var m := OutpointsTable(b, n - 1); match b.txs[n - 1]
      case None => m
      case Some(t) => if t.ins == [] then m else m[t.txid := Outpoints(t.ins)]
  }

  ghost function TableRows(hash: Hash, m: map<Hash, Bytes>): map<Key, Bytes> {
    map txid | txid in m :: TxidOutpoints(hash, txid) := m[txid]
  }

  lemma TableRowsSet(hash: Hash, m: map<Hash, Bytes>, ws: seq<Write>, txid: Hash, val: Bytes)
    requires Rows(ws) == TableRows(hash, m)
    ensures Rows(ws + [Write(TxidOutpoints(hash, txid), val)]) == TableRows(hash, m[txid := val])
  {
    var w := Write(TxidOutpoints(hash, txid), val);
    assert (ws + [w])[..|ws|] == ws;
    assert Rows(ws + [w]) == Rows(ws)[w.key := w.val];
    assert TableRows(hash, m[txid := val]) == TableRows(hash, m)[w.key := w.val];
  }

  /** Writing the map in any order leaves the rows that writing it in block order would. */
  lemma {:induction false} OutpointRows(b: DBBlock, n: nat)
    requires n <= |b.txs|
    ensures Rows(Flatten(OutpointParts(b)[..n])) == TableRows(b.hash, OutpointsTable(b, n))
  {
    if n > 0 {
      OutpointRows(b, n - 1);
      FlattenNext(OutpointParts(b), n - 1);
      var ws, part := Flatten(OutpointParts(b)[..n - 1]), OutpointPart(b, n - 1);
      if part == [] {
        assert ws + part == ws;
      } else {
        var t := b.txs[n - 1].value;
        TableRowsSet(b.hash, OutpointsTable(b, n - 1), ws, t.txid, Outpoints(t.ins));
      }
    }
  }

  /** The final loop: a Go map is walked in no particular order. */
  method AttachOutpoints(batch: Batch, hash: Hash, table: map<Hash, Bytes>) returns (ghost ws: seq<Write>)
    modifies batch
    ensures batch.ops == old(batch.ops) + ws && Rows(ws) == TableRows(hash, table)
  {
    var todo := table.Keys;
    ghost var done: map<Hash, Bytes> := map[];
    ws := [];
    while todo != {}
      invariant todo <= table.Keys && done.Keys == table.Keys - todo
      invariant forall x :: x in done ==> done[x] == table[x]
      invariant batch.ops == old(batch.ops) + ws && Rows(ws) == TableRows(hash, done)
      decreases todo
    {
      var txid :| txid in todo;
      batch.Set(TxidOutpoints(hash, txid), table[txid]);
      TableRowsSet(hash, done, ws, txid, table[txid]);
      ghost var w := Write(TxidOutpoints(hash, txid), table[txid]);
      Assoc(old(batch.ops), ws, [w]);
      ws := ws + [w];
      done, todo := done[txid := table[txid]], todo - {txid};
    }
    assert done == table;
  }

  /** One turn of the loop over the transactions; a nil transaction is skipped. */
  method AttachNext(batch: Batch, b: DBBlock, i: nat, spent: Bytes, table: map<Hash, Bytes>)
    returns (ok: bool, spent': Bytes, table': map<Hash, Bytes>, ghost part: seq<Write>)
    requires i < |b.txs| && spent == SpentShorts(b, i) && table == OutpointsTable(b, i)
    modifies batch
    ensures ok <==> EncodableAt(b, i)
    ensures batch.ops == old(batch.ops) + part && part <= TxParts(b)[i]
    ensures ok ==> part == TxParts(b)[i]
    ensures ok ==> spent' == SpentShorts(b, i + 1) && table' == OutpointsTable(b, i + 1)
  {
    ok, spent', table', part := true, spent, table, [];
    if b.txs[i].Some? {
      var t := b.txs[i].value;
      var shorts;
      ok, shorts, part := AttachTx(batch, b, i, t);
      assert TxParts(b)[i] == TxWrites(b, i);
      spent' := spent + shorts;
      if t.ins != [] {
        table' := table[t.txid := Outpoints(t.ins)];
      }
    }
  }

  /** The loop over the transactions of a block. */
  method AttachTxs(batch: Batch, b: DBBlock)
    returns (ok: bool, spent: Bytes, table: map<Hash, Bytes>, ghost ws: seq<Write>, ghost stop: nat)
    modifies batch
    ensures if ok then Encodable(b) else stop < |b.txs| && !EncodableAt(b, stop)
    ensures batch.ops == old(batch.ops) + ws && ws <= Flatten(TxParts(b))
    ensures ok ==> ws == Flatten(TxParts(b)) && spent == SpentShorts(b, |b.txs|)
    ensures ok ==> table == OutpointsTable(b, |b.txs|)
  {
    spent, table := [], map[];
    ghost var was, parts := batch.ops, TxParts(b);
    for i := 0 to |b.txs|
      invariant batch.ops == was + Flatten(parts[..i])
      invariant spent == SpentShorts(b, i) && table == OutpointsTable(b, i)
      invariant EncodableUpTo(b, i)
    {
      ghost var part;
      ok, spent, table, part := AttachNext(batch, b, i, spent, table);
      Assoc(was, Flatten(parts[..i]), part);
      if !ok {
        FlattenPart(parts, i, part);
        ws, stop := Flatten(parts[..i]) + part, i;
        return;
      }
      FlattenNext(parts, i);
    }
    assert parts[..|b.txs|] == parts;
    ok, ws, stop := true, Flatten(parts), |b.txs|;
  }

  /** Success writes exactly the block's rows; a bad pubkey stops it part way through them. */
  method AttachBlockToBatch(batch: Batch, b: DBBlock) returns (ok: bool, ghost ws: seq<Write>)
    modifies batch
    ensures ok <==> Encodable(b)
    ensures batch.ops == old(batch.ops) + ws
    ensures if ok then Rows(ws) == Rows(BlockWrites(b)) else ws <= BlockWrites(b)
  {
    batch.Set(CIHeight(b.height), b.hash);
    batch.Set(CIBlock(b.hash), BE32(b.height));
    var spent, table;
    ghost var mid, stop;
    ok, spent, table, mid, stop := AttachTxs(batch, b);
    ws := Header(b) + mid;
    assert batch.ops == old(batch.ops) + ws;
    if ok {
      batch.Set(SpentOutputsShort(b.hash), spent);
      ghost var short := [Write(SpentOutputsShort(b.hash), spent)];
      Assoc(old(batch.ops), ws, short);
      ghost var tail := AttachOutpoints(batch, b.hash, table);
      Assoc(old(batch.ops), ws + short, tail);
      SameBlockRows(b, tail);
      ws := ws + short + tail;
    } else if Encodable(b) {
      EncodableEach(b, |b.txs|, stop);
    }
  }

  lemma SameBlockRows(b: DBBlock, tail: seq<Write>)
    requires Rows(tail) == TableRows(b.hash, OutpointsTable(b, |b.txs|))
    ensures Rows(Header(b) + Flatten(TxParts(b))
      + [Write(SpentOutputsShort(b.hash), SpentShorts(b, |b.txs|))] + tail) == Rows(BlockWrites(b))
  {
    var ws := Header(b) + Flatten(TxParts(b)) + [Write(SpentOutputsShort(b.hash), SpentShorts(b, |b.txs|))];
    RowsConcat(ws, tail);
    RowsConcat(ws, Flatten(OutpointParts(b)));
    OutpointRows(b, |b.txs|);
    assert OutpointParts(b)[..|b.txs|] == OutpointParts(b);
  }
}
