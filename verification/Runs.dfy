/** Stores built by applying blocks, and why the order of application does not matter. */
module Runs {
  import opened ByteOrder
  import opened Keys
  import opened Pebble
  import opened Blocks
  import opened Seqs

  function AllWrites(blocks: seq<DBBlock>): seq<Write> {
    FlatMap(BlockWrites, blocks)
  }

  /** The database after the blocks were written in this order. */
  function Replay(db: DB, blocks: seq<DBBlock>): DB {
    Put(db, AllWrites(blocks))
  }

  ghost function BlockRows(b: DBBlock): map<Key, Bytes> {
    Rows(BlockWrites(b))
  }

  lemma AllWritesMember(blocks: seq<DBBlock>, w: Write)
    ensures w in AllWrites(blocks) <==> exists b :: b in blocks && w in BlockWrites(b)
  {
    FlatMapMember(BlockWrites, blocks, w);
    if i :| 0 <= i < |blocks| && w in BlockWrites(blocks[i]) {
      assert blocks[i] in blocks;
    }
  }

  lemma ReplayConcat(db: DB, a: seq<DBBlock>, b: seq<DBBlock>)
    ensures Replay(db, a + b) == Replay(Replay(db, a), b)
  {
    FlatMapConcat(BlockWrites, a, b);
    PutConcat(db, AllWrites(a), AllWrites(b));
  }

  lemma ReplayOne(db: DB, b: DBBlock)
    ensures Replay(db, [b]) == Put(db, BlockWrites(b))
  {
    FlatMapOne(BlockWrites, b);
  }

  // ---------- reading a run back ----------

  /** A row of a run comes from a block that calls for it. */
  lemma RunHas(blocks: seq<DBBlock>, key: Key) returns (b: DBBlock)
    requires Encode(key) in Replay(map[], blocks)
    ensures b in blocks && Calls(b, Write(key, Replay(map[], blocks)[Encode(key)]))
  {
    PutHas(map[], AllWrites(blocks), key);
    var w := Write(key, Replay(map[], blocks)[Encode(key)]);
    AllWritesMember(blocks, w);
    b :| b in blocks && w in BlockWrites(b);
    WritesAreCalled(b, w);
  }

  /** A row a block of the run calls for is in the store. */
  lemma RunKeeps(blocks: seq<DBBlock>, b: DBBlock, w: Write)
    requires b in blocks && Calls(b, w)
    ensures Encode(w.key) in Replay(map[], blocks)
  {
    CalledAreWritten(b, w);
    AllWritesMember(blocks, w);
    var i :| 0 <= i < |AllWrites(blocks)| && AllWrites(blocks)[i] == w;
    PutHas(map[], AllWrites(blocks), w.key);
  }

  /** Every key of a run is well formed. */
  lemma RunKeys(blocks: seq<DBBlock>, k: Bytes) returns (key: Key)
    requires k in Replay(map[], blocks)
    ensures k == Encode(key)
  {
    PutKeys(AllWrites(blocks), k);
    var i :| 0 <= i < |AllWrites(blocks)| && k == Encode(AllWrites(blocks)[i].key);
    key := AllWrites(blocks)[i].key;
  }

  /** What is under a key after more blocks: what one of them calls for, or what was there. */
  lemma ReplayHas(db: DB, blocks: seq<DBBlock>, key: Key)
    ensures Encode(key) in Replay(db, blocks) <==>
      Encode(key) in db || exists b, v :: b in blocks && Calls(b, Write(key, v))
    ensures Encode(key) in Replay(db, blocks) ==>
      || (Encode(key) in db && Replay(db, blocks)[Encode(key)] == db[Encode(key)])
      || exists b :: b in blocks && Calls(b, Write(key, Replay(db, blocks)[Encode(key)]))
    ensures (forall b, v :: b in blocks ==> !Calls(b, Write(key, v))) && Encode(key) in db ==>
      Replay(db, blocks)[Encode(key)] == db[Encode(key)]
    ensures (exists b, v :: b in blocks && Calls(b, Write(key, v))) ==>
      exists b :: b in blocks && Calls(b, Write(key, Replay(db, blocks)[Encode(key)]))
  {
    var ws := AllWrites(blocks);
    PutHas(db, ws, key);
    if Writes(ws, key) {
      var i :| 0 <= i < |ws| && ws[i].key == key;
      assert ws[i] in ws;
      AllWritesMember(blocks, ws[i]);
      var b :| b in blocks && ws[i] in BlockWrites(b);
      WritesAreCalled(b, ws[i]);
      assert ws[i] == Write(key, ws[i].val);
      var last := Write(key, Put(db, ws)[Encode(key)]);
      AllWritesMember(blocks, last);
      var c :| c in blocks && last in BlockWrites(c);
      WritesAreCalled(c, last);
    }
    forall b, v | b in blocks && Calls(b, Write(key, v)) ensures Writes(ws, key) {
      var w := Write(key, v);
      CalledAreWritten(b, w);
      AllWritesMember(blocks, w);
      var i :| 0 <= i < |ws| && ws[i] == w;
    }
  }

  // ---------- what blocks of one chain agree on ----------

  ghost predicate HashFixesBlock(blocks: set<DBBlock>) {
    forall a, b :: a in blocks && b in blocks && a.hash == b.hash ==> a == b
  }

  ghost predicate ForkFree(blocks: set<DBBlock>) {
    forall a, b :: a in blocks && b in blocks && a.height == b.height ==> a == b
  }

  ghost predicate TxidFixesTweak(blocks: set<DBBlock>) {
    forall a, b, s, t :: a in blocks && b in blocks && HasTx(a, s) && HasTx(b, t) && s.txid == t.txid ==>
      s.tweak.None? || t.tweak.None? || s.tweak == t.tweak
  }

  ghost predicate HasOut(b: DBBlock, o: Output) {
    exists t :: HasTx(b, t) && o in t.outs
  }

  ghost predicate OutpointFixesOutput(blocks: set<DBBlock>) {
    forall a, b, o, p :: a in blocks && b in blocks && HasOut(a, o) && HasOut(b, p) ==>
      o.txid == p.txid && o.vout == p.vout ==> o == p
  }

  ghost predicate Coherent(blocks: set<DBBlock>) {
    HashFixesBlock(blocks) && ForkFree(blocks) && TxidFixesTweak(blocks) && OutpointFixesOutput(blocks)
  }

  ghost function SetOf(blocks: seq<DBBlock>): set<DBBlock> {
    set b | b in blocks
  }

  // ---------- order independence ----------

  ghost predicate Compatible(blocks: set<DBBlock>) {
    forall a, b, key :: a in blocks && b in blocks && key in BlockRows(a) && key in BlockRows(b)
      ==> BlockRows(a)[key] == BlockRows(b)[key]
  }

  lemma SameTweak(blocks: set<DBBlock>, a: DBBlock, b: DBBlock, v: Write, w: Write)
    requires TxidFixesTweak(blocks) && a in blocks && b in blocks
    requires v.key == w.key && v.key.Tx? && Calls(a, v) && Calls(b, w)
    ensures v.val == w.val
  {
    var s :| HasTx(a, s) && s.txid == v.key.txid && s.tweak.Some? && s.tweak.value == v.val;
    var t :| HasTx(b, t) && t.txid == v.key.txid && t.tweak.Some? && t.tweak.value == w.val;
  }

  lemma SameOutput(blocks: set<DBBlock>, a: DBBlock, b: DBBlock, v: Write, w: Write)
    requires OutpointFixesOutput(blocks) && a in blocks && b in blocks
    requires v.key == w.key && v.key.Out? && Calls(a, v) && Calls(b, w)
    ensures v.val == w.val
  {
    var s, o :| HasTx(a, s) && s.tweak.Some? && o in s.outs && IsOut(o, v.key.txid, v.key.vout, v.val);
    var t, p :| HasTx(b, t) && t.tweak.Some? && p in t.outs && IsOut(p, v.key.txid, v.key.vout, w.val);
    assert HasOut(a, o) && HasOut(b, p);
  }

  lemma SameCall(blocks: set<DBBlock>, a: DBBlock, b: DBBlock, v: Write, w: Write)
    requires Coherent(blocks) && a in blocks && b in blocks && a != b
    requires v.key == w.key && Calls(a, v) && Calls(b, w)
    ensures v.val == w.val
  {
    if v.key.Tx? {
      SameTweak(blocks, a, b, v, w);
    } else if v.key.Out? {
      SameOutput(blocks, a, b, v, w);
    }
  }

  /** Distinct blocks of one chain only share tweak and output rows, and agree on them. */
  lemma CoherentCompatible(blocks: set<DBBlock>)
    requires Coherent(blocks)
    ensures Compatible(blocks)
  {
    forall a, b, key | a in blocks && b in blocks && key in BlockRows(a) && key in BlockRows(b)
      ensures BlockRows(a)[key] == BlockRows(b)[key]
    {
      if a != b {
        RowsHas(BlockWrites(a), key);
        RowsHas(BlockWrites(b), key);
        var v, w := Write(key, BlockRows(a)[key]), Write(key, BlockRows(b)[key]);
        WritesAreCalled(a, v);
        WritesAreCalled(b, w);
        SameCall(blocks, a, b, v, w);
      }
    }
  }

  /** The rows of a compatible run are the union of its blocks' rows. */
  lemma {:induction false} RunRows(blocks: seq<DBBlock>, key: Key)
    requires Compatible(SetOf(blocks))
    ensures key in Rows(AllWrites(blocks)) <==> exists b :: b in blocks && key in BlockRows(b)
    ensures forall b :: b in blocks && key in BlockRows(b) ==> Rows(AllWrites(blocks))[key] == BlockRows(b)[key]
  {
    if blocks != [] {
      var n := |blocks| - 1;
      var front, last := blocks[..n], blocks[n];
      assert blocks == front + [last] && SetOf(front) <= SetOf(blocks) && last in SetOf(blocks);
      RunRows(front, key);
      RowsConcat(AllWrites(front), BlockWrites(last));
      if key in BlockRows(last) {
        forall b | b in blocks && key in BlockRows(b)
          ensures Rows(AllWrites(blocks))[key] == BlockRows(b)[key] {
          assert b in SetOf(blocks);
        }
      }
    }
  }

  /** Whatever order, and however often, the same blocks are written, the store is the same. */
  lemma OrderIndependent(db: DB, a: seq<DBBlock>, b: seq<DBBlock>)
    requires SetOf(a) == SetOf(b) && Coherent(SetOf(a))
    ensures Replay(db, a) == Replay(db, b)
  {
    CoherentCompatible(SetOf(a));
    assert forall x :: x in a <==> x in SetOf(a);
    assert forall x :: x in b <==> x in SetOf(b);
    forall key ensures key in Rows(AllWrites(a)) <==> key in Rows(AllWrites(b))
               ensures key in Rows(AllWrites(a)) ==> Rows(AllWrites(a))[key] == Rows(AllWrites(b))[key] {
      RunRows(a, key);
      RunRows(b, key);
    }
    assert Rows(AllWrites(a)) == Rows(AllWrites(b));
    PutByRows(db, AllWrites(a), AllWrites(b));
  }
}
