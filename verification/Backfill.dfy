/** `SingleBlockPullAndHandle`: walking back from a new tip to the chain already indexed. */
module Backfill {
  import opened ByteOrder
  import opened Keys
  import opened Pebble
  import opened Blocks
  import opened Runs
  import opened Reads
  import opened Seqs

  /** A block as the node serves it, with the hash of its parent. */
  datatype NodeBlock = NodeBlock(block: DBBlock, prev: Hash)

  /** The node's best chain, one block per height from 0 to `tip`; pulls above it fail. */
  datatype Node = Node(chain: seq<NodeBlock>) {
    function HashAt(h: nat): Hash
      requires h < |chain|
    {
      chain[h].block.hash
    }
  }

  ghost predicate ValidNode(n: Node) {
    && |n.chain| < MAX_U32
    && (forall h :: 0 <= h < |n.chain| ==> n.chain[h].block.height == h)
    && (forall h :: 0 < h < |n.chain| ==> n.chain[h].prev == n.HashAt(h - 1))
    && (forall g, h :: 0 <= g < h < |n.chain| ==> n.HashAt(g) != n.HashAt(h))
    && (|n.chain| > 0 ==> forall h :: 0 <= h < |n.chain| ==> n.HashAt(h) != n.chain[0].prev)
  }

  predicate Indexed(n: Node, db: DB, h: int) {
    0 <= h < |n.chain| && BlockhashInDB(db, n.HashAt(h))
  }

  /** The blocks of heights `hi` down to just above `lo`. */
  function Descending(n: Node, hi: int, lo: int): (r: seq<DBBlock>)
    requires -1 <= lo <= hi < |n.chain|
    ensures |r| == hi - lo
    decreases hi - lo
  {
    if hi == lo then [] else [n.chain[hi].block] + Descending(n, hi - 1, lo)
  }

  // ---------- what draining queued blocks changes ----------

  /** A hash is found after draining iff it was there before or its block was drained. */
  lemma HashAfterDrain(db: DB, drained: seq<DBBlock>, hash: Hash)
    ensures BlockhashInDB(Replay(db, drained), hash) <==>
      BlockhashInDB(db, hash) || exists b :: b in drained && b.hash == hash
  {
    ReplayHas(db, drained, CIBlock(hash));
    if b :| b in drained && b.hash == hash {
      assert Calls(b, Write(CIBlock(hash), BE32(b.height)));
    }
  }

  lemma HeightAfterDrain(db: DB, drained: seq<DBBlock>, b: DBBlock)
    requires b in drained && forall c :: c in drained && c.height == b.height ==> c.hash == b.hash
    ensures GetBlockHashByHeight(Replay(db, drained), b.height) == Some(b.hash)
  {
    assert Calls(b, Write(CIHeight(b.height), b.hash));
    ReplayHas(db, drained, CIHeight(b.height));
    var c :| c in drained && Calls(c, Write(CIHeight(b.height), Replay(db, drained)[Encode(CIHeight(b.height))]));
  }

  lemma HeightUntouched(db: DB, drained: seq<DBBlock>, h: U32)
    requires forall c :: c in drained ==> c.height != h
    ensures GetBlockHashByHeight(Replay(db, drained), h) == GetBlockHashByHeight(db, h)
  {
    ReplayHas(db, drained, CIHeight(h));
  }

  // ---------- the recursion ----------

  /** The highest indexed height below `h`. */
  ghost predicate HighestIndexed(n: Node, db: DB, h: int, a: int) {
    a < h && Indexed(n, db, a) && forall g :: a < g < h ==> !Indexed(n, db, g)
  }

  /** Blocks of the node's chain from height `h` up. */
  ghost predicate FromChain(n: Node, blocks: seq<DBBlock>, h: int) {
    forall i :: 0 <= i < |blocks| ==>
      h <= blocks[i].height < |n.chain| && blocks[i] == n.chain[blocks[i].height].block
  }

  ghost predicate Fits(n: Node, db: DB) {
    ValidNode(n) && (n.chain != [] ==> !BlockhashInDB(db, n.chain[0].prev))
  }

  /** A height is known to the store or to what was handed to the writer. */
  ghost predicate Known(n: Node, db: DB, sent: seq<DBBlock>, h: int) {
    0 <= h < |n.chain| && (Indexed(n, db, h) || n.chain[h].block in sent)
  }

  lemma ChainHash(n: Node, blocks: seq<DBBlock>, h: nat)
    requires ValidNode(n) && h < |n.chain| && FromChain(n, blocks, 0)
    ensures (exists b :: b in blocks && b.hash == n.HashAt(h)) <==> n.chain[h].block in blocks
  {
    forall b | b in blocks && b.hash == n.HashAt(h) ensures b == n.chain[h].block {
      var i :| 0 <= i < |blocks| && blocks[i] == b;
      assert b.hash == n.HashAt(b.height);
    }
  }

  /** The parent is found exactly when it was indexed to begin with or has been drained since. */
  lemma ParentKnown(n: Node, db: DB, drained: seq<DBBlock>, h: nat)
    requires Fits(n, db) && h < |n.chain| && FromChain(n, drained, 0)
    ensures BlockhashInDB(Replay(db, drained), n.chain[h].prev) <==> Known(n, db, drained, h - 1)
  {
    HashAfterDrain(db, drained, n.chain[h].prev);
    if h > 0 {
      ChainHash(n, drained, h - 1);
    } else {
      GenesisParent(n, drained);
    }
  }

  lemma GenesisParent(n: Node, blocks: seq<DBBlock>)
    requires ValidNode(n) && n.chain != [] && FromChain(n, blocks, 0)
    ensures forall b :: b in blocks ==> b.hash != n.chain[0].prev
  {
    forall b | b in blocks ensures b.hash != n.chain[0].prev {
      var i :| 0 <= i < |blocks| && blocks[i] == b;
      assert b.hash == n.HashAt(b.height);
    }
  }

  /** The walk from `h` stops at `a`: known by then, and nothing between was in the store when the call began. */
  ghost predicate StopsAt(n: Node, db: DB, drained: seq<DBBlock>, sent: seq<DBBlock>, h: int, a: int) {
    && a < h && Known(n, db, sent, a)
    && forall g :: a < g < h ==> !Known(n, db, drained, g)
  }

  /** The blocks of a finished call: everything from the height down to just above where it stopped. */
  ghost predicate Filled(n: Node, db: DB, drained: seq<DBBlock>, sent: seq<DBBlock>, h: int, blocks: seq<DBBlock>) {
    h < |n.chain| && exists a :: StopsAt(n, db, drained, sent, h, a) && blocks == Descending(n, h, a)
  }

  lemma FilledByParent(n: Node, db: DB, drained: seq<DBBlock>, sent: seq<DBBlock>, h: nat)
    requires h < |n.chain| && Known(n, db, sent, h - 1)
    ensures Filled(n, db, drained, sent, h, [n.chain[h].block])
  {
    assert StopsAt(n, db, drained, sent, h, h - 1);
    assert Descending(n, h, h - 1) == [n.chain[h].block] + Descending(n, h - 1, h - 1);
  }

  /** A call for the height below, made later, is the rest of this one. */
  lemma FilledByMore(n: Node, db: DB, drained: seq<DBBlock>, sent: seq<DBBlock>, drained': seq<DBBlock>, h: nat,
                     rest: seq<DBBlock>)
    requires ValidNode(n) && h < |n.chain| && drained <= drained' && !Known(n, db, drained', h - 1)
    requires Filled(n, db, drained', sent + [n.chain[h].block], h - 1, rest)
    ensures Filled(n, db, drained, sent, h, [n.chain[h].block] + rest)
  {
    var a :| StopsAt(n, db, drained', sent + [n.chain[h].block], h - 1, a) && rest == Descending(n, h - 1, a);
    KnownBefore(n, db, sent, h, a);
    StopsHigher(n, db, drained, sent, drained', h, a);
  }

  lemma KnownGrows(n: Node, db: DB, drained: seq<DBBlock>, drained': seq<DBBlock>, g: int)
    requires drained <= drained' && Known(n, db, drained, g)
    ensures Known(n, db, drained', g)
  {
  }

  lemma KnownBefore(n: Node, db: DB, sent: seq<DBBlock>, h: nat, a: int)
    requires ValidNode(n) && a < h < |n.chain| && Known(n, db, sent + [n.chain[h].block], a)
    ensures Known(n, db, sent, a)
  {
    assert n.chain[a].block.height == a && n.chain[h].block.height == h;
  }

  lemma StopsHigher(n: Node, db: DB, drained: seq<DBBlock>, sent: seq<DBBlock>, drained': seq<DBBlock>, h: nat, a: int)
    requires drained <= drained' && !Known(n, db, drained', h - 1) && Known(n, db, sent, a)
    requires a < h - 1 && forall g :: a < g < h - 1 ==> !Known(n, db, drained', g)
    ensures StopsAt(n, db, drained, sent, h, a)
  {
    forall g | a < g < h ensures !Known(n, db, drained, g) {
      if Known(n, db, drained, g) { KnownGrows(n, db, drained, drained', g); }
    }
  }

  lemma ShiftOne(a: seq<DBBlock>, b: seq<DBBlock>)
    requires b != []
    ensures a + b == (a + [b[0]]) + b[1..]
  {
  }

  class Builder {
    const node: Node
    ghost const origin: DB
    var db: DB                       // what reads of the store see
    var writerChan: seq<DBBlock>
    ghost var drained: seq<DBBlock>  // taken off the channel and applied by the writer goroutine

    ghost predicate Valid()
      reads this
    {
      Fits(node, origin) && db == Replay(origin, drained)
    }

    /** Everything handed to the writer so far, in order. */
    ghost function Sent(): seq<DBBlock>
      reads this
    {
      drained + writerChan
    }

    constructor (node: Node, db: DB)
      requires Fits(node, db)
      ensures Valid() && this.node == node && origin == this.db == db && Sent() == []
    {
      this.node, origin, this.db := node, db, db;
      writerChan, drained := [], [];
    }

    /** The writer goroutine takes one block, applies it and flushes. */
    method DrainOne()
      requires Valid() && writerChan != []
      modifies this
      ensures Valid() && Sent() == old(Sent()) && |writerChan| < old(|writerChan|) && old(drained) <= drained
    {
      var b := writerChan[0];
      ReplayConcat(origin, drained, [b]);
      db := Replay(db, [b]);
      ShiftOne(drained, writerChan);
      drained, writerChan := drained + [b], writerChan[1..];
    }

    /** The writer goroutine gets through some of what is queued; how much is not ours to say. */
    method WriterRuns()
      requires Valid()
      modifies this
      ensures Valid() && Sent() == old(Sent()) && old(drained) <= drained
    {
      var more: bool := *;
      while more && writerChan != []
        invariant Valid() && Sent() == old(Sent()) && old(drained) <= drained
        decreases |writerChan|
      {
        ghost var before := drained;
        DrainOne();
        PrefixTransitive(old(drained), before, drained);
        more := *;
      }
    }

    method Send(b: DBBlock)
      requires Valid()
      modifies this
      ensures Valid() && Sent() == old(Sent()) + [b] && drained == old(drained)
    {
      writerChan := writerChan + [b];
      assert drained + writerChan == old(drained + writerChan) + [b];
    }

    /** Queues the block and, unless its parent is already known, goes on with the height below. Blocks of earlier
        calls may still be queued. */
    method SingleBlockPullAndHandle(height: U32) returns (ok: bool, ghost queued: seq<DBBlock>)
      requires Valid() && FromChain(node, Sent(), 0)
      modifies this
      ensures Valid() && FromChain(node, Sent(), 0) && Sent() == old(Sent()) + queued
      ensures ok ==> Filled(node, origin, old(drained), old(Sent()), height, queued)
      ensures height < |node.chain| && (exists a :: a < height && Known(node, origin, old(drained), a)) ==> ok
      decreases if height < |node.chain| then height + 1 else 0
    {
      if height >= |node.chain| {
        return false, [];            // the node has no such block
      }
      var b := node.chain[height];
      SendWhileDraining(b.block);
      StillFromChain(node, old(Sent()), height, drained, writerChan);
      ParentKnown(node, origin, drained, height);
      if BlockhashInDB(db, b.prev) {
        DrainedWasSent(node, old(Sent()), height, drained, writerChan);
        FilledByParent(node, origin, old(drained), old(Sent()), height);
        return true, [b.block];
      }
      ghost var now := drained;
      AncestorBelow(node, origin, old(drained), now, height);
      ok, queued := SingleBlockPullAndHandle(if height == 0 then MAX_U32 else height - 1);
      if ok { FilledByMore(node, origin, old(drained), old(Sent()), now, height, queued); }
      Assoc(old(Sent()), [b.block], queued);
      queued := [b.block] + queued;
    }

    method SendWhileDraining(b: DBBlock)
      requires Valid()
      modifies this
      ensures Valid() && Sent() == old(Sent()) + [b] && old(drained) <= drained
    {
      WriterRuns();
      ghost var before := drained;
      Send(b);
      WriterRuns();
      PrefixTransitive(old(drained), before, drained);
    }
  }

  lemma AncestorBelow(n: Node, db: DB, drained: seq<DBBlock>, drained': seq<DBBlock>, h: nat)
    requires drained <= drained' && !Known(n, db, drained', h - 1)
    ensures (exists a :: a < h && Known(n, db, drained, a)) ==>
      h > 0 && exists a :: a < h - 1 && Known(n, db, drained', a)
  {
    if a :| a < h && Known(n, db, drained, a) {
      KnownGrows(n, db, drained, drained', a);
    }
  }

  lemma StillFromChain(n: Node, was: seq<DBBlock>, h: nat, drained: seq<DBBlock>, rest: seq<DBBlock>)
    requires ValidNode(n) && h < |n.chain| && FromChain(n, was, 0)
    requires drained + rest == was + [n.chain[h].block]
    ensures FromChain(n, drained, 0) && FromChain(n, drained + rest, 0)
  {
    assert forall i :: 0 <= i < |drained| ==> drained[i] == (drained + rest)[i];
  }

  /** A drained parent was handed over before this call's own block. */
  lemma DrainedWasSent(n: Node, was: seq<DBBlock>, h: nat, drained: seq<DBBlock>, rest: seq<DBBlock>)
    requires ValidNode(n) && 0 < h < |n.chain| && drained + rest == was + [n.chain[h].block]
    ensures n.chain[h - 1].block in drained ==> n.chain[h - 1].block in was
  {
    assert n.HashAt(h - 1) != n.HashAt(h);
    if n.chain[h - 1].block in drained {
      assert n.chain[h - 1].block in drained + rest;
    }
  }

  /** A call with nothing of its heights or below in the queue stops at the highest indexed ancestor. */
  lemma SoleCallFills(n: Node, db: DB, drained: seq<DBBlock>, sent: seq<DBBlock>, h: nat, blocks: seq<DBBlock>)
    requires Filled(n, db, drained, sent, h, blocks) && FromChain(n, sent, h + 1) && ValidNode(n)
    ensures exists a :: HighestIndexed(n, db, h, a) && blocks == Descending(n, h, a)
  {
    var a :| StopsAt(n, db, drained, sent, h, a) && blocks == Descending(n, h, a);
    assert n.chain[a].block.height == a && n.chain[a].block !in sent;
    assert forall g :: a < g < h && Indexed(n, db, g) ==> Known(n, db, drained, g);
    assert HighestIndexed(n, db, h, a);
  }

  // ---------- overlapping calls ----------

  ghost predicate Sends(n: Node, sent: seq<DBBlock>, g: int) {
    0 <= g < |n.chain| && n.chain[g].block in sent
  }

  ghost predicate Anchor(n: Node, db: DB, sent: seq<DBBlock>, a: int, h: int) {
    a <= h && Indexed(n, db, a) && forall g :: a < g <= h ==> Sends(n, sent, g)
  }

  /** A height stands on blocks handed over, down to one that was indexed before. */
  ghost predicate Anchored(n: Node, db: DB, sent: seq<DBBlock>, h: int) {
    exists a :: Anchor(n, db, sent, a, h)
  }

  ghost predicate AllAnchored(n: Node, db: DB, sent: seq<DBBlock>) {
    forall h :: Sends(n, sent, h) ==> Anchored(n, db, sent, h)
  }

  lemma AnchorMore(n: Node, db: DB, sent: seq<DBBlock>, more: seq<DBBlock>, a: int, h: int)
    requires Anchor(n, db, sent, a, h)
    ensures Anchor(n, db, sent + more, a, h)
  {
    forall g | a < g <= h ensures Sends(n, sent + more, g) {
      assert Sends(n, sent, g);
    }
  }

  /** The blocks of a call stand on the anchor of the height it stopped at. */
  lemma AnchorUp(n: Node, db: DB, sent: seq<DBBlock>, low: int, a: int, h: nat, g: int)
    requires Anchor(n, db, sent, low, a) && a < g <= h < |n.chain|
    ensures Anchor(n, db, sent + Descending(n, h, a), low, g)
  {
    var all := sent + Descending(n, h, a);
    forall k | low < k <= g ensures Sends(n, all, k) {
      if k <= a {
        assert Sends(n, sent, k);
      } else {
        DescendingMember(n, h, a, n.chain[k].block);
      }
    }
  }

  /** Every finished call keeps everything anchored, whatever earlier calls left in the queue. */
  lemma StaysAnchored(n: Node, db: DB, drained: seq<DBBlock>, sent: seq<DBBlock>, h: nat, queued: seq<DBBlock>)
    requires ValidNode(n) && AllAnchored(n, db, sent) && Filled(n, db, drained, sent, h, queued)
    ensures AllAnchored(n, db, sent + queued) && Sends(n, sent + queued, h)
  {
    var a :| StopsAt(n, db, drained, sent, h, a) && queued == Descending(n, h, a);
    AnchoredAt(n, db, sent, a);
    var low :| Anchor(n, db, sent, low, a);
    forall g | Sends(n, sent + queued, g) ensures Anchored(n, db, sent + queued, g) {
      if n.chain[g].block in sent {
        assert Sends(n, sent, g);
        var at :| Anchor(n, db, sent, at, g);
        AnchorMore(n, db, sent, queued, at, g);
      } else {
        QueuedHeight(n, h, a, g);
        AnchorUp(n, db, sent, low, a, h, g);
      }
    }
    DescendingMember(n, h, a, n.chain[h].block);
  }

  lemma AnchoredAt(n: Node, db: DB, sent: seq<DBBlock>, a: int)
    requires AllAnchored(n, db, sent) && Known(n, db, sent, a)
    ensures Anchored(n, db, sent, a)
  {
    if n.chain[a].block in sent {
      assert Sends(n, sent, a);
    } else {
      assert Anchor(n, db, sent, a, a);
    }
  }

  lemma QueuedHeight(n: Node, h: nat, a: int, g: int)
    requires ValidNode(n) && -1 <= a <= h < |n.chain| && 0 <= g < |n.chain|
    requires n.chain[g].block in Descending(n, h, a)
    ensures a < g <= h
  {
    DescendingMember(n, h, a, n.chain[g].block);
    var k :| a < k <= h && n.chain[k].block == n.chain[g].block;
    assert n.chain[k].block.height == k && n.chain[g].block.height == g;
  }

  // ---------- after the queue has drained ----------

  ghost predicate AgreesUpTo(n: Node, db: DB, h: int)
    requires |n.chain| < MAX_U32
  {
    forall g :: 0 <= g <= h < |n.chain| ==> GetBlockHashByHeight(db, g) == Some(n.HashAt(g))
  }

  lemma {:induction false} DescendingMember(n: Node, hi: int, lo: int, b: DBBlock)
    requires -1 <= lo <= hi < |n.chain|
    ensures b in Descending(n, hi, lo) <==> exists h :: lo < h <= hi && n.chain[h].block == b
    decreases hi - lo
  {
    if lo < hi { DescendingMember(n, hi - 1, lo, b); }
  }

  lemma DrainedHeight(n: Node, db: DB, sent: seq<DBBlock>, g: nat)
    requires ValidNode(n) && FromChain(n, sent, 0) && g < |n.chain|
    requires Sends(n, sent, g) || GetBlockHashByHeight(db, g) == Some(n.HashAt(g))
    ensures GetBlockHashByHeight(Replay(db, sent), g) == Some(n.HashAt(g))
  {
    forall c | c in sent && c.height == g ensures c == n.chain[g].block {
      var i :| 0 <= i < |sent| && sent[i] == c;
    }
    if Sends(n, sent, g) {
      HeightAfterDrain(db, sent, n.chain[g].block);
    } else {
      HeightUntouched(db, sent, g);
    }
  }

  /** If the height index agreed with the node up to the ancestor, it agrees up to the new height once drained. */
  lemma AgreesAfterBackfill(n: Node, db: DB, h: nat, a: int)
    requires ValidNode(n) && h < |n.chain| && HighestIndexed(n, db, h, a) && AgreesUpTo(n, db, a)
    ensures AgreesUpTo(n, Replay(db, Descending(n, h, a)), h)
  {
    var blocks := Descending(n, h, a);
    forall i | 0 <= i < |blocks|
      ensures 0 <= blocks[i].height < |n.chain| && blocks[i] == n.chain[blocks[i].height].block
    {
      DescendingMember(n, h, a, blocks[i]);
    }
    forall g | 0 <= g <= h ensures GetBlockHashByHeight(Replay(db, blocks), g) == Some(n.HashAt(g)) {
      DescendingMember(n, h, a, n.chain[g].block);
      DrainedHeight(n, db, blocks, g);
    }
  }

  /** If the height index agreed with the node wherever it had an ancestor, then once everything handed over by any
      number of calls has drained, it agrees up to every height those calls were for. */
  lemma AgreesAfterOverlap(n: Node, db: DB, sent: seq<DBBlock>, h: nat)
    requires ValidNode(n) && FromChain(n, sent, 0) && AllAnchored(n, db, sent) && Sends(n, sent, h)
    requires forall a :: Indexed(n, db, a) ==> AgreesUpTo(n, db, a)
    ensures AgreesUpTo(n, Replay(db, sent), h)
  {
    var a :| Anchor(n, db, sent, a, h);
    assert AgreesUpTo(n, db, a);
    forall g | 0 <= g <= h ensures GetBlockHashByHeight(Replay(db, sent), g) == Some(n.HashAt(g)) {
      assert a < g ==> Sends(n, sent, g);
      DrainedHeight(n, db, sent, g);
    }
  }
}
