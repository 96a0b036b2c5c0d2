/** `Store` as it runs: the fields the writer updates, each call a run of the state machine. */
module StoreObject {
  import opened Pebble
  import opened Blocks
  import opened Attach
  import opened Runs
  import opened Seqs
  import opened Writer

  /** Committing the operations is replaying the blocks, whatever the database. */
  ghost predicate Holds(ops: seq<Write>, blocks: seq<DBBlock>) {
    forall d: DB {:trigger Put(d, ops)} :: Put(d, ops) == Replay(d, blocks)
  }

  lemma HoldsEmpty()
    ensures Holds([], [])
  {
  }

  lemma HoldsNext(ops: seq<Write>, blocks: seq<DBBlock>, ws: seq<Write>, b: DBBlock)
    requires Holds(ops, blocks) && Rows(ws) == Rows(BlockWrites(b))
    ensures Holds(ops + ws, blocks + [b])
  {
    forall d: DB ensures Put(d, ops + ws) == Replay(d, blocks + [b]) {
      PutConcat(d, ops, ws);
      PutByRows(Put(d, ops), ws, BlockWrites(b));
      ReplayConcat(d, blocks, [b]);
      ReplayOne(Replay(d, blocks), b);
    }
  }

  class Store {
    var db: DB
    var dbBatch: Batch
    var batchCounter: nat
    var pendingCommits: nat
    var waitGroup: nat
    var closed: bool
    var background: seq<seq<Write>>    // batches held by commit goroutines that have not written yet
    var written: nat                   // goroutines between their commit and their decrement
    var decremented: nat               // goroutines between their decrement and Done

    ghost const origin: DB
    ghost var now: State               // where the calls and goroutine steps so far lead

    /** The fields show the machine's state. */
    ghost predicate Valid()
      reads this, dbBatch
    {
      && Reachable(origin, now)
      && db == now.db && batchCounter == now.counter && closed == now.closed
      && pendingCommits == now.pendingCommits && waitGroup == now.waitGroup
      && written == now.written && decremented == now.decremented
      && Holds(dbBatch.ops, now.active)
      && |background| == |now.running|
      && forall i :: 0 <= i < |background| ==> Holds(background[i], now.running[i])
    }

    constructor (db: DB)
      ensures Valid() && now == Init(db) && origin == db && fresh(dbBatch)
    {
      ReachInit(db);
      this.db := db;
      dbBatch := new Batch();
      batchCounter, pendingCommits, waitGroup, closed := 0, 0, 0, false;
      background, written, decremented := [], 0, 0;
      origin, now := db, Init(db);
    }

    ghost method Log(e: Event)
      requires Reachable(origin, now) && Enabled(now, e)
      modifies this`now
      ensures Reachable(origin, now) && now == After(old(now), e)
    {
      ReachStep(origin, now, e);
      now := After(now, e);
    }

    /** A commit goroutine writes its batch. */
    method BackgroundWrite(i: nat)
      requires Valid() && i < |background|
      modifies this`db, this`background, this`written, this`now
      ensures Valid() && now == After(old(now), BgWrite(i))
      ensures |background| == old(|background|) - 1 && written == old(written) + 1
    {
      Log(BgWrite(i));
      db := Put(db, background[i]);
      background, written := Without(background, i), written + 1;
    }

    /** One commit goroutine takes its next step; which one is not ours to choose. */
    method BackgroundStep()
      requires Valid() && waitGroup > 0
      modifies this`db, this`background, this`written, this`decremented, this`pendingCommits, this`waitGroup, this`now
      ensures Valid() && unchanged(`dbBatch) && now.pc == old(now.pc)
      ensures now.counter == old(now.counter) && now.closed == old(now.closed)
      ensures now.active == old(now.active) && now.applied == old(now.applied)
      ensures 3 * |background| + 2 * written + decremented < old(3 * |background| + 2 * written + decremented)
    {
      ReachCounted(origin, now);
      if {
        case background != [] =>
          var i :| 0 <= i < |background|;
          BackgroundWrite(i);
        case written > 0 =>
          Log(BgDecrement);
          pendingCommits, written, decremented := pendingCommits - 1, written - 1, decremented + 1;
        case decremented > 0 =>
          Log(BgDone);
          waitGroup, decremented := waitGroup - 1, decremented - 1;
      }
    }

    /** `closeWaitGroup.Wait()`: the goroutines run in some order until none is left. */
    method WaitForPendingCommits()
      requires Valid()
      modifies this`db, this`background, this`written, this`decremented, this`pendingCommits, this`waitGroup, this`now
      ensures Valid() && waitGroup == 0 && unchanged(`dbBatch) && now.pc == old(now.pc)
      ensures now.counter == old(now.counter) && now.closed == old(now.closed)
      ensures now.active == old(now.active) && now.applied == old(now.applied)
    {
      while waitGroup > 0
        invariant Valid() && now.pc == old(now.pc)
        invariant now.counter == old(now.counter) && now.closed == old(now.closed)
        invariant now.active == old(now.active) && now.applied == old(now.applied)
        decreases 3 * |background| + 2 * written + decremented
      {
        BackgroundStep();
      }
    }

    /** Swaps in a fresh batch and hands back the old one's operations. */
    method RotateLocked() returns (ops: seq<Write>)
      modifies this`dbBatch, this`batchCounter
      ensures ops == old(dbBatch.ops) && fresh(dbBatch) && dbBatch.ops == [] && batchCounter == 0
    {
      ops := dbBatch.ops;
      dbBatch := new Batch();
      batchCounter := 0;
    }

    method CommitBatch(sync: bool, ghost k: Then)
      requires Valid() && now.pc == Committing(sync, k)
      modifies this
      ensures Valid() && now.pc == Resume(now, k).pc && now.applied == old(now.applied)
      ensures closed == old(closed)
      ensures if old(closed) then now.active == old(now.active) && unchanged(this`db) && unchanged(this`dbBatch)
              else now.active == [] && fresh(dbBatch)
      ensures !old(closed) && sync ==> multiset(old(now.active)) <= multiset(now.committed)
      ensures !old(closed) && !sync ==> old(now.active) in now.running
    {
      if closed {
        Log(Check);
        return;
      }
      var full := pendingCommits >= MAX_PENDING;
      Log(Check);
      if full {
        WaitForPendingCommits();
        Log(WaitOver);
      }
      RotateAndCommit(sync, k);
    }

    /** The caller itself writes the batch it took. */
    method WriteNow(ops: seq<Write>)
      requires Valid() && now.pc.SyncWriting? && Holds(ops, now.pc.batch)
      modifies this`db, this`now
      ensures Valid() && now.pc == Resume(now, old(now.pc.k)).pc && now.applied == old(now.applied)
      ensures now.active == old(now.active) && now.committed == old(now.committed) + old(now.pc.batch)
    {
      Log(SyncWrite);
      db := Put(db, ops);
    }

    /** Past the checks: the old batch is written here, or handed to a goroutine. */
    method RotateAndCommit(sync: bool, ghost k: Then)
      requires Valid() && now.pc == Rotating(sync, k)
      modifies this
      ensures Valid() && now.pc == Resume(now, k).pc && now.applied == old(now.applied)
      ensures closed == old(closed) && now.active == [] && fresh(dbBatch)
      ensures sync ==> multiset(old(now.active)) <= multiset(now.committed)
      ensures !sync ==> now.running == old(now.running) + [old(now.active)]
    {
      HoldsEmpty();
      ghost var s := now;
      Log(Rotate);
      var ops := RotateLocked();
      assert Holds(ops, s.active);
      if sync {
        WriteNow(ops);
      } else {
        pendingCommits, waitGroup := pendingCommits + 1, waitGroup + 1;
        background := background + [ops];
        assert now.running == s.running + [s.active];
      }
    }

    /** `ApplyBlock`: count, commit in the background when the batch is full, then attach. */
    method CollectAndWrite(b: DBBlock) returns (ok: bool)
      requires Valid() && now.pc.Idle?
      modifies this, dbBatch
      ensures ok <==> Encodable(b)
      ensures ok ==> Valid() && now.pc.Idle? && now.applied == old(now.applied) + [b]
      ensures ok ==> |now.active| <= BATCH_SIZE + 1 && b in now.active
    {
      Log(Apply(b));
      batchCounter := batchCounter + 1;
      if batchCounter > BATCH_SIZE {
        CommitBatch(false, AttachNext(b));
      }
      ghost var ws;
      ghost var was := dbBatch.ops;
      ok, ws := AttachBlockToBatch(dbBatch, b);
      if ok {
        HoldsNext(was, now.active, ws, b);
        Log(Event.Attach);
        ReachCounted(origin, now);
      }
    }

    /** Nothing to do at counter zero, even when the active batch still holds a block. */
    method FlushBatch(sync: bool)
      requires Valid() && now.pc.Idle?
      modifies this
      ensures Valid() && now.pc.Idle? && now.applied == old(now.applied)
      ensures now.active == [] <==> old(batchCounter) != 0 || old(now.active) == []
      ensures old(batchCounter) == 0 ==> now == old(now)
      ensures |now.active| <= 1
      ensures old(batchCounter) != 0 && sync ==> multiset(old(now.active)) <= multiset(now.committed)
      ensures old(batchCounter) != 0 && !sync ==> old(now.active) in now.running
    {
      ReachCounted(origin, now);
      Log(Flush(sync));
      if batchCounter == 0 {
        return;
      }
      CommitBatch(sync, Nothing);
    }

    /** Sets the flag, waits, and then finds it can no longer flush. */
    method CloseStore()
      requires Valid() && now.pc.Idle?
      modifies this
      ensures Valid() && now.pc.Closed? && now.applied == old(now.applied) && now.active == old(now.active)
      ensures RotatedOnly(origin, now)
    {
      ReachCounted(origin, now);
      Log(Event.Close);
      closed := true;
      WaitForPendingCommits();
      Log(CloseOver);
      if batchCounter != 0 {
        CommitBatch(true, Nothing);
      }
      CloseKeepsRotated(origin, now);
    }
  }
}
