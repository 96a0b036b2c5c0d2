/** The batched writer as a state machine: one calling thread and any number of background commits. */
module Writer {
  import opened Pebble
  import opened Blocks
  import opened Runs
  import opened Seqs

  const BATCH_SIZE: nat := 200
  const MAX_PENDING: nat := 10

  /** What the caller of `commitBatch` does when it returns. */
  datatype Then = AttachNext(b: DBBlock) | Nothing

  /** Where the calling thread is. */
  datatype PC =
    | Idle
    | Committing(sync: bool, k: Then)                   // entering commitBatch
    | Waiting(sync: bool, k: Then)                      // in WaitForPendingCommits
    | Rotating(sync: bool, k: Then)                     // about to take the lock and rotate
    | SyncWriting(batch: seq<DBBlock>, k: Then)         // committing the old batch itself
    | Attaching(b: DBBlock)                             // writing to the active batch
    | Closing                                           // closed flag set, waiting
    | Closed

  datatype State = State(
    db: DB,
    active: seq<DBBlock>,           // blocks in the active batch
    counter: nat,                   // batchCounter
    byCollect: bool,                // the active batch was opened by a rotation inside collectAndWrite
    running: seq<seq<DBBlock>>,     // background batches not yet written
    written: nat,                   // background commits written, pendingCommits not yet decremented
    decremented: nat,               // ... decremented, wait group not yet released
    pendingCommits: nat,
    waitGroup: nat,
    closed: bool,
    pc: PC,
    committed: seq<DBBlock>,        // blocks in the database, in commit order
    applied: seq<DBBlock>)          // blocks attached so far, in order

  function Init(db: DB): State {
    State(db, [], 0, false, [], 0, 0, 0, 0, false, Idle, [], [])
  }

  datatype Event =
    | Apply(b: DBBlock) | Flush(sync: bool) | Close      // calls
    | Check | WaitOver | Rotate | SyncWrite | Attach | CloseOver
    | BgWrite(i: nat) | BgDecrement | BgDone             // background goroutines

  predicate Enabled(s: State, e: Event) {
    match e
    case Apply(_) => s.pc.Idle?
    case Flush(_) => s.pc.Idle?
    case Close => s.pc.Idle?
    case Check => s.pc.Committing?
    case WaitOver => s.pc.Waiting? && s.waitGroup == 0
    case Rotate => s.pc.Rotating?
    case SyncWrite => s.pc.SyncWriting?
    case Attach => s.pc.Attaching?
    case CloseOver => s.pc.Closing? && s.waitGroup == 0
    case BgWrite(i) => i < |s.running|
    case BgDecrement => s.written > 0 && s.pendingCommits > 0
    case BgDone => s.decremented > 0 && s.waitGroup > 0
  }

  function Resume(s: State, k: Then): State {
    s.(pc := match k case AttachNext(b) => Attaching(b) case Nothing => if s.closed then Closed else Idle)
  }

  function RotateOut(s: State): State
    requires s.pc.Rotating?
  {
    var sync, k := s.pc.sync, s.pc.k;
    var base := s.(active := [], counter := 0, byCollect := k.AttachNext?);
    if sync then base.(pc := SyncWriting(s.active, k))
    else Resume(base.(running := s.running + [s.active], pendingCommits := s.pendingCommits + 1,
                       waitGroup := s.waitGroup + 1), k)
  }

  ghost function After(s: State, e: Event): State
    requires Enabled(s, e)
  {
    match e
    case Apply(b) =>
      var t := s.(counter := s.counter + 1);
      t.(pc := if t.counter > BATCH_SIZE then Committing(false, AttachNext(b)) else Attaching(b))
    case Flush(sync) => if s.counter == 0 then s else s.(pc := Committing(sync, Nothing))
    case Close => s.(closed := true, pc := Closing)
    case Check =>
      if s.closed then Resume(s, s.pc.k)
      else if s.pendingCommits >= MAX_PENDING then s.(pc := Waiting(s.pc.sync, s.pc.k))
      else s.(pc := Rotating(s.pc.sync, s.pc.k))
    case WaitOver => s.(pc := Rotating(s.pc.sync, s.pc.k))
    case Rotate => RotateOut(s)
    case SyncWrite =>
      Resume(s.(db := Replay(s.db, s.pc.batch), committed := s.committed + s.pc.batch), s.pc.k)
    case Attach => s.(active := s.active + [s.pc.b], applied := s.applied + [s.pc.b], pc := Idle)
    case CloseOver => if s.counter == 0 then s.(pc := Closed) else s.(pc := Committing(true, Nothing))
    case BgWrite(i) =>
      s.(db := Replay(s.db, s.running[i]), committed := s.committed + s.running[i],
         running := Without(s.running, i), written := s.written + 1)
    case BgDecrement =>
      s.(pendingCommits := s.pendingCommits - 1, written := s.written - 1, decremented := s.decremented + 1)
    case BgDone => s.(waitGroup := s.waitGroup - 1, decremented := s.decremented - 1)
  }

  /** A run: the states between the events, from a fresh store on. */
  ghost predicate IsRun(db: DB, ss: seq<State>, es: seq<Event>) {
    && |ss| == |es| + 1 && ss[0] == Init(db)
    && forall i :: 0 <= i < |es| ==> Enabled(ss[i], es[i]) && ss[i + 1] == After(ss[i], es[i])
  }

  // ---------- what every run keeps ----------

  /** Blocks rotated out but not yet in the database. */
  function InFlight(s: State): seq<DBBlock> {
    Flatten(s.running) + if s.pc.SyncWriting? then s.pc.batch else []
  }

  /** A collected block that still has to be attached. */
  predicate MidCollect(s: State) {
    || s.pc.Attaching?
    || ((s.pc.Committing? || s.pc.Waiting? || s.pc.Rotating? || s.pc.SyncWriting?) && s.pc.k.AttachNext?)
  }

  function Occupancy(s: State): nat {
    |s.active| + if MidCollect(s) then 1 else 0
  }

  /** Every attached block is in exactly one of active batch, in flight and committed. */
  ghost predicate Conserved(db: DB, s: State) {
    && multiset(s.applied) == multiset(s.active) + multiset(InFlight(s)) + multiset(s.committed)
    && s.db == Replay(db, s.committed)
  }

  /** The counters tell the truth, and the caps hold. */
  predicate Counted(s: State) {
    && s.pendingCommits == |s.running| + s.written
    && s.waitGroup == s.pendingCommits + s.decremented
    && s.pendingCommits <= MAX_PENDING
    && (s.pc.Rotating? ==> s.pendingCommits < MAX_PENDING)
    && Occupancy(s) == s.counter + (if s.byCollect then 1 else 0)
    && s.counter <= BATCH_SIZE + (if MidCollect(s) && !s.pc.Attaching? then 1 else 0)
    && (s.pc.SyncWriting? ==> s.active == [] && s.pc.k.Nothing?)
    && (s.pc.Closing? || s.pc.Closed? ==> s.closed)
    && (s.closed ==> s.pc.Closing? || s.pc.Closed? || (s.pc.Committing? && s.pc.k.Nothing?))
    && (s.closed && !s.pc.Closing? ==> s.waitGroup == 0)
    && ((s.pc.Committing? || s.pc.Waiting? || s.pc.Rotating?) && s.pc.sync ==> s.pc.k.Nothing?)
  }

  /** The active batch is the tail of what was applied. */
  predicate ActiveIsTail(s: State) {
    |s.active| <= |s.applied| && s.active == s.applied[|s.applied| - |s.active|..]
  }

  lemma ActiveIsTailStep(s: State, e: Event)
    requires ActiveIsTail(s) && Enabled(s, e)
    ensures ActiveIsTail(After(s, e))
  {
    if e.Attach? {
      assert s.applied[|s.applied| - |s.active|..] + [s.pc.b] == (s.applied + [s.pc.b])[|s.applied| - |s.active|..];
    }
  }

  lemma CountedStep(s: State, e: Event)
    requires Counted(s) && Enabled(s, e)
    ensures Counted(After(s, e))
  {
  }

  lemma RotateConserves(db: DB, s: State)
    requires Conserved(db, s) && s.pc.Rotating?
    ensures Conserved(db, After(s, Rotate))
  {
    var t := After(s, Rotate);
    FlattenSnoc(s.running, s.active);
    if s.pc.sync {
      assert InFlight(t) == Flatten(s.running) + s.active;
    } else {
      assert InFlight(t) == Flatten(s.running + [s.active]) + [];
    }
    assert multiset(InFlight(t)) == multiset(Flatten(s.running)) + multiset(s.active);
  }

  lemma BgWriteConserves(db: DB, s: State, i: nat)
    requires Conserved(db, s) && i < |s.running|
    ensures Conserved(db, After(s, BgWrite(i)))
  {
    var t := After(s, BgWrite(i));
    ReplayConcat(db, s.committed, s.running[i]);
    FlattenWithout(s.running, i);
    var rest := if s.pc.SyncWriting? then s.pc.batch else [];
    assert multiset(InFlight(s)) == multiset(Flatten(s.running)) + multiset(rest);
    assert multiset(InFlight(t)) == multiset(Flatten(t.running)) + multiset(rest);
  }

  lemma SyncWriteConserves(db: DB, s: State)
    requires Conserved(db, s) && s.pc.SyncWriting?
    ensures Conserved(db, After(s, SyncWrite))
  {
    ReplayConcat(db, s.committed, s.pc.batch);
    assert InFlight(After(s, SyncWrite)) == Flatten(s.running);
    assert multiset(InFlight(s)) == multiset(Flatten(s.running)) + multiset(s.pc.batch);
    assert multiset(s.committed + s.pc.batch) == multiset(s.committed) + multiset(s.pc.batch);
  }

  lemma AttachConserves(db: DB, s: State)
    requires Conserved(db, s) && s.pc.Attaching?
    ensures Conserved(db, After(s, Attach))
  {
    assert InFlight(After(s, Attach)) == InFlight(s);
  }

  /** Events that move no block. */
  predicate Moveless(e: Event) {
    !e.Rotate? && !e.BgWrite? && !e.SyncWrite? && !e.Attach?
  }

  lemma MovelessStep(s: State, e: Event)
    requires Enabled(s, e) && Moveless(e)
    ensures var t := After(s, e);
      && t.active == s.active && t.running == s.running && t.committed == s.committed
      && t.applied == s.applied && t.db == s.db && t.pc.SyncWriting? == s.pc.SyncWriting?
      && (s.pc.SyncWriting? ==> t.pc == s.pc)
  {
  }

  lemma ConservedStep(db: DB, s: State, e: Event)
    requires Conserved(db, s) && Enabled(s, e)
    ensures Conserved(db, After(s, e))
  {
    if Moveless(e) {
      MovelessStep(s, e);
      assert InFlight(After(s, e)) == InFlight(s);
    } else if e.Rotate? {
      RotateConserves(db, s);
    } else if e.BgWrite? {
      BgWriteConserves(db, s, e.i);
    } else if e.SyncWrite? {
      SyncWriteConserves(db, s);
    } else {
      AttachConserves(db, s);
    }
  }

  /** Conservation, the pending-commit cap and the batch bound hold in every state of every run. */
  lemma {:induction false} RunSafe(db: DB, ss: seq<State>, es: seq<Event>, i: nat)
    requires IsRun(db, ss, es) && i < |ss|
    ensures Conserved(db, ss[i]) && Counted(ss[i]) && ActiveIsTail(ss[i])
  {
    if i > 0 {
      RunSafe(db, ss, es, i - 1);
      ConservedStep(db, ss[i - 1], es[i - 1]);
      CountedStep(ss[i - 1], es[i - 1]);
      ActiveIsTailStep(ss[i - 1], es[i - 1]);
    }
  }

  // ---------- consequences ----------

  ghost predicate Reachable(db: DB, s: State) {
    exists ss, es :: IsRun(db, ss, es) && ss[|es|] == s
  }

  lemma ReachInit(db: DB)
    ensures Reachable(db, Init(db))
  {
    assert IsRun(db, [Init(db)], []);
  }

  lemma ReachStep(db: DB, s: State, e: Event)
    requires Reachable(db, s) && Enabled(s, e)
    ensures Reachable(db, After(s, e))
  {
    var ss, es :| IsRun(db, ss, es) && ss[|es|] == s;
    Extend(db, ss, es, e);
  }

  lemma ReachSafe(db: DB, s: State)
    requires Reachable(db, s)
    ensures Conserved(db, s) && Counted(s) && ActiveIsTail(s)
  {
    var ss, es :| IsRun(db, ss, es) && ss[|es|] == s;
    RunSafe(db, ss, es, |es|);
  }

  lemma ReachCounted(db: DB, s: State)
    requires Reachable(db, s)
    ensures Counted(s)
  {
    ReachSafe(db, s);
  }

  /** At most 201 blocks sit in the active batch and at most ten commits are pending, ever. */
  lemma BatchBounds(db: DB, s: State)
    requires Reachable(db, s)
    ensures |s.active| <= 201
    ensures s.pc.Idle? ==> |s.active| == s.counter + (if s.byCollect then 1 else 0)
    ensures s.pendingCommits == |s.running| + s.written <= 10
  {
    ReachSafe(db, s);
  }

  /** Between a flush and its return: the batch is on its way out, or gone. */
  ghost predicate Flushing(s: State) {
    && !s.closed
    && match s.pc
       case Idle => |s.active| <= 1
       case Committing(_, k) => k.Nothing?
       case Waiting(_, k) => k.Nothing?
       case Rotating(_, k) => k.Nothing?
       case SyncWriting(_, k) => k.Nothing? && s.active == []
       case _ => false
  }

  lemma FlushingStep(s: State, e: Event)
    requires Flushing(s) && Enabled(s, e) && !s.pc.Idle?
    ensures Flushing(After(s, e)) && After(s, e).applied == s.applied
  {
  }

  /** When `FlushBatch` returns, at most one block is left in the active batch. */
  lemma {:induction false} FlushLeavesAtMostOne(db: DB, ss: seq<State>, es: seq<Event>, i: nat, j: nat)
    requires IsRun(db, ss, es) && i < j < |ss| && es[i].Flush?
    requires forall n :: i < n < j ==> !ss[n].pc.Idle?
    ensures Flushing(ss[j])
    decreases j
  {
    if j == i + 1 {
      RunSafe(db, ss, es, i);
    } else {
      FlushLeavesAtMostOne(db, ss, es, i, j - 1);
      FlushingStep(ss[j - 1], es[j - 1]);
    }
  }

  /** Between a flush of a non-empty counter and its return. */
  ghost predicate Emptying(s: State) {
    Flushing(s) && (s.pc.Idle? || s.pc.SyncWriting? ==> s.active == [] && s.counter == 0)
  }

  lemma {:induction false} FlushEmpties(db: DB, ss: seq<State>, es: seq<Event>, i: nat, j: nat)
    requires IsRun(db, ss, es) && i < j < |ss| && es[i].Flush? && ss[i].counter != 0
    requires forall n :: i < n < j ==> !ss[n].pc.Idle?
    ensures Emptying(ss[j])
    decreases j
  {
    if j == i + 1 {
      RunSafe(db, ss, es, i);
    } else {
      FlushEmpties(db, ss, es, i, j - 1);
      FlushingStep(ss[j - 1], es[j - 1]);
    }
  }

  /** A flush empties the active batch unless its counter is zero and a rotation inside `collectAndWrite` opened it;
      at counter zero it does nothing at all. */
  lemma FlushExact(db: DB, ss: seq<State>, es: seq<Event>, i: nat, j: nat)
    requires IsRun(db, ss, es) && i < j < |ss| && es[i].Flush? && ss[j].pc.Idle?
    requires forall n :: i < n < j ==> !ss[n].pc.Idle?
    ensures ss[j].active == [] <==> ss[i].counter != 0 || !ss[i].byCollect
    ensures ss[i].counter == 0 ==> j == i + 1 && ss[j] == ss[i]
    ensures ss[j].counter == 0
  {
    RunSafe(db, ss, es, i);
    if ss[i].counter != 0 {
      FlushEmpties(db, ss, es, i, j);
    } else {
      assert ss[i + 1] == ss[i];
    }
  }

  /** A synchronous flush under way: the batch it took is still active, being written by the caller, or written. */
  ghost predicate Syncing(s: State, batch: seq<DBBlock>) {
    && !s.closed
    && match s.pc
       case Idle => multiset(batch) <= multiset(s.committed)
       case Committing(sync, k) => sync && k.Nothing? && s.active == batch
       case Waiting(sync, k) => sync && k.Nothing? && s.active == batch
       case Rotating(sync, k) => sync && k.Nothing? && s.active == batch
       case SyncWriting(written, k) => k.Nothing? && written == batch
       case _ => false
  }

  lemma SyncingStep(s: State, e: Event, batch: seq<DBBlock>)
    requires Syncing(s, batch) && Enabled(s, e) && !s.pc.Idle?
    ensures Syncing(After(s, e), batch)
  {
  }

  lemma SyncFlushStarts(s: State)
    requires s.pc.Idle? && s.counter != 0 && !s.closed
    ensures Syncing(After(s, Flush(true)), s.active)
  {
  }

  lemma {:induction false} FlushSyncing(db: DB, ss: seq<State>, es: seq<Event>, i: nat, j: nat)
    requires IsRun(db, ss, es) && i < j < |ss| && es[i] == Flush(true) && ss[i].counter != 0
    requires forall n :: i < n < j ==> !ss[n].pc.Idle?
    ensures Syncing(ss[j], ss[i].active)
    decreases j
  {
    if j == i + 1 {
      RunSafe(db, ss, es, i);
      SyncFlushStarts(ss[i]);
    } else {
      FlushSyncing(db, ss, es, i, j - 1);
      SyncingStep(ss[j - 1], es[j - 1], ss[i].active);
    }
  }

  /** A synchronous flush of a non-zero counter has every block of the active batch in the database when it returns. */
  lemma SyncFlushCommits(db: DB, ss: seq<State>, es: seq<Event>, i: nat, j: nat)
    requires IsRun(db, ss, es) && i < j < |ss| && es[i] == Flush(true) && ss[i].counter != 0 && ss[j].pc.Idle?
    requires forall n :: i < n < j ==> !ss[n].pc.Idle?
    ensures multiset(ss[i].active) <= multiset(ss[j].committed)
  {
    FlushSyncing(db, ss, es, i, j);
  }

  // ---------- a flush after nothing but applies ----------

  const PERIOD: nat := BATCH_SIZE + 1

  /** Since a state with `base` applied blocks and counter zero there was no flush and no close: where in its period
      of 201 blocks the store is. `left` says whether that state had a block left in the active batch. */
  ghost predicate InStep(base: nat, left: bool, s: State) {
    var n := |s.applied| - base + if MidCollect(s) then 1 else 0;
    && |s.applied| >= base
    && !s.closed && !s.pc.SyncWriting? && !s.pc.Closing? && !s.pc.Closed?
    && (s.pc.Committing? || s.pc.Waiting? || s.pc.Rotating? ==> s.pc.k.AttachNext? && !s.pc.sync)
    && if MidCollect(s) && !s.pc.Attaching?
       then s.counter == PERIOD && n % PERIOD == 0 && (s.byCollect <==> left || n > PERIOD)
       else s.counter == n % PERIOD && (s.byCollect <==> left || n >= PERIOD)
  }

  lemma InStepStep(base: nat, left: bool, s: State, e: Event)
    requires InStep(base, left, s) && Enabled(s, e) && !e.Flush? && !e.Close?
    ensures InStep(base, left, After(s, e))
  {
    if e.Apply? {
      ApplyInStep(base, left, s, e.b);
    } else if e.BgWrite? || e.BgDecrement? || e.BgDone? {
      BackgroundInStep(base, left, s, e);
    }
  }

  lemma ApplyInStep(base: nat, left: bool, s: State, b: DBBlock)
    requires InStep(base, left, s) && s.pc.Idle?
    ensures InStep(base, left, After(s, Apply(b)))
  {
    NextInPeriod(|s.applied| - base);
  }

  lemma NextInPeriod(n: nat)
    ensures (n + 1) % PERIOD == if n % PERIOD == BATCH_SIZE then 0 else n % PERIOD + 1
    ensures n % PERIOD == BATCH_SIZE || (n + 1 >= PERIOD <==> n >= PERIOD)
    ensures n % PERIOD == BATCH_SIZE ==> n + 1 >= PERIOD
  {
  }

  lemma BackgroundInStep(base: nat, left: bool, s: State, e: Event)
    requires InStep(base, left, s) && Enabled(s, e) && (e.BgWrite? || e.BgDecrement? || e.BgDone?)
    ensures InStep(base, left, After(s, e))
  {
    var t := After(s, e);
    assert t.pc == s.pc && t.applied == s.applied && t.counter == s.counter && t.byCollect == s.byCollect;
  }

  /** From state `k` to state `i` blocks are only applied and committed in the background. */
  ghost predicate OnlyApplies(es: seq<Event>, k: nat, i: nat)
    requires k <= i <= |es|
  {
    forall n :: k <= n < i ==> !es[n].Flush? && !es[n].Close?
  }

  /** Between calls, with nothing counted: a fresh store, or one that was flushed last. */
  predicate AtZero(s: State) {
    s.pc.Idle? && s.counter == 0
  }

  lemma ZeroInStep(db: DB, ss: seq<State>, es: seq<Event>, k: nat)
    requires IsRun(db, ss, es) && k < |ss| && AtZero(ss[k])
    ensures InStep(|ss[k].applied|, ss[k].active != [], ss[k])
  {
    RunSafe(db, ss, es, k);
    CountedAtZero(ss[k]);
  }

  lemma CountedAtZero(s: State)
    requires Counted(s) && AtZero(s)
    ensures InStep(|s.applied|, s.active != [], s)
  {
  }

  lemma {:induction false} RunInStep(db: DB, ss: seq<State>, es: seq<Event>, k: nat, i: nat)
    requires IsRun(db, ss, es) && k <= i < |ss| && AtZero(ss[k]) && OnlyApplies(es, k, i)
    ensures InStep(|ss[k].applied|, ss[k].active != [], ss[i])
    decreases i
  {
    if i == k {
      ZeroInStep(db, ss, es, k);
    } else {
      RunInStep(db, ss, es, k, i - 1);
      InStepStep(|ss[k].applied|, ss[k].active != [], ss[i - 1], es[i - 1]);
    }
  }

  /** A flush leaves a block behind exactly when the number of blocks applied since the counter was last zero between
      calls is a multiple of 201, and positive unless a block was left then already. */
  lemma FlushLeavesIff(db: DB, ss: seq<State>, es: seq<Event>, k: nat, i: nat, j: nat)
    requires IsRun(db, ss, es) && k <= i < j < |ss| && es[i].Flush? && ss[j].pc.Idle?
    requires AtZero(ss[k]) && OnlyApplies(es, k, i)
    requires forall n :: i < n < j ==> !ss[n].pc.Idle?
    ensures |ss[i].applied| >= |ss[k].applied| && AtZero(ss[j])
    ensures var n := |ss[i].applied| - |ss[k].applied|;
      ss[j].active != [] <==> n % 201 == 0 && (n > 0 || ss[k].active != [])
  {
    FlushExact(db, ss, es, i, j);
    RunInStep(db, ss, es, k, i);
  }

  lemma AppliedStep(s: State, e: Event)
    requires Enabled(s, e)
    ensures s.applied <= After(s, e).applied
  {
  }

  lemma AppliedGrows(db: DB, ss: seq<State>, es: seq<Event>, k: nat, i: nat)
    requires IsRun(db, ss, es) && k <= i < |ss|
    ensures ss[k].applied <= ss[i].applied
  {
    var parts := seq(|ss|, n requires 0 <= n < |ss| => ss[n].applied);
    forall n | 0 < n < |parts| ensures parts[n - 1] <= parts[n] {
      AppliedStep(ss[n - 1], es[n - 1]);
    }
    PrefixChain(parts, k, i);
  }

  /** The blocks applied since the last rotation are committed by the flush itself. */
  lemma LastFlushed(db: DB, ss: seq<State>, es: seq<Event>, k: nat, i: nat, j: nat, n: nat)
    requires IsRun(db, ss, es) && k <= i < j < |ss| && es[i] == Flush(true) && ss[j].pc.Idle?
    requires AtZero(ss[k]) && OnlyApplies(es, k, i) && |ss[i].applied| >= |ss[k].applied|
    requires forall x :: i < x < j ==> !ss[x].pc.Idle?
    requires |ss[i].applied| - (|ss[i].applied| - |ss[k].applied|) % PERIOD <= n < |ss[i].applied|
    ensures ss[i].applied[n] in ss[j].committed
  {
    RunSafe(db, ss, es, i);
    RunInStep(db, ss, es, k, i);
    SyncFlushCommits(db, ss, es, i, j);
    TailHas(ss[i], n);
    assert ss[i].applied[n] in multiset(ss[i].active);
    assert ss[i].applied[n] in multiset(ss[j].committed);
  }

  lemma TailHas(s: State, n: nat)
    requires ActiveIsTail(s) && |s.applied| - |s.active| <= n < |s.applied|
    ensures s.applied[n] in s.active
  {
    assert s.active[n - (|s.applied| - |s.active|)] == s.applied[n];
  }

  /** What one flush leaves, the next flush after at least one more block has rotated out: the blocks still in the
      active batch are among the new ones. */
  lemma LeftoverRotates(db: DB, ss: seq<State>, es: seq<Event>, k: nat, i: nat, j: nat)
    requires IsRun(db, ss, es) && k <= i < j < |ss| && es[i].Flush? && ss[j].pc.Idle?
    requires AtZero(ss[k]) && OnlyApplies(es, k, i) && |ss[i].applied| > |ss[k].applied|
    requires forall n :: i < n < j ==> !ss[n].pc.Idle?
    ensures ss[j].applied == ss[i].applied
    ensures ss[j].active <= ss[j].applied[|ss[j].applied| - 1..] && |ss[j].active| <= 1
  {
    FlushKeepsApplied(db, ss, es, i, j);
    FlushLeavesAtMostOne(db, ss, es, i, j);
    RunSafe(db, ss, es, j);
  }

  lemma FlushApplies(s: State, e: Event)
    requires Enabled(s, e) && e.Flush?
    ensures After(s, e).applied == s.applied
  {
  }

  lemma {:induction false} FlushKeepsApplied(db: DB, ss: seq<State>, es: seq<Event>, i: nat, j: nat)
    requires IsRun(db, ss, es) && i < j < |ss| && es[i].Flush?
    requires forall n :: i < n < j ==> !ss[n].pc.Idle?
    ensures ss[j].applied == ss[i].applied
    decreases j
  {
    if j == i + 1 {
      FlushApplies(ss[i], es[i]);
    } else {
      FlushKeepsApplied(db, ss, es, i, j - 1);
      FlushLeavesAtMostOne(db, ss, es, i, j - 1);
      FlushingStep(ss[j - 1], es[j - 1]);
    }
  }

  /** A run gone on by one event. */
  lemma Extend(db: DB, ss: seq<State>, es: seq<Event>, e: Event)
    requires IsRun(db, ss, es) && Enabled(ss[|es|], e)
    ensures IsRun(db, ss + [After(ss[|es|], e)], es + [e])
  {
  }

  /** A store that has only applied up to 200 blocks. */
  ghost predicate Filling(db: DB, s: State, blocks: seq<DBBlock>) {
    s == Init(db).(active := blocks, applied := blocks, counter := |blocks|)
  }

  lemma {:induction false} ApplyAll(db: DB, blocks: seq<DBBlock>) returns (ss: seq<State>, es: seq<Event>)
    requires |blocks| <= BATCH_SIZE
    ensures IsRun(db, ss, es) && OnlyApplies(es, 0, |es|) && Filling(db, ss[|es|], blocks)
  {
    if blocks == [] {
      ss, es := [Init(db)], [];
    } else {
      var n := |blocks| - 1;
      ss, es := ApplyAll(db, blocks[..n]);
      assert blocks == blocks[..n] + [blocks[n]];
      var s := After(ss[|es|], Apply(blocks[n]));
      Extend(db, ss, es, Apply(blocks[n]));
      ss, es := ss + [s], es + [Apply(blocks[n])];
      Extend(db, ss, es, Attach);
      ss, es := ss + [After(s, Attach)], es + [Attach];
    }
  }

  /** After any 201 applies a flush can return with the last block in the active batch and the other 200 still
      with a background commit: nothing at all is in the database. */
  lemma FlushCanLeave(db: DB, blocks: seq<DBBlock>) returns (ss: seq<State>, es: seq<Event>, i: nat)
    requires |blocks| == PERIOD
    ensures IsRun(db, ss, es) && i + 1 == |es| && es[i] == Flush(true) && OnlyApplies(es, 0, i) && ss[i] == ss[i + 1]
    ensures ss[i + 1].pc.Idle? && ss[i + 1].applied == blocks && ss[i + 1].active == [blocks[BATCH_SIZE]]
    ensures ss[i + 1].running == [blocks[..BATCH_SIZE]] && ss[i + 1].db == db
  {
    var last := blocks[BATCH_SIZE];
    ss, es := ApplyAll(db, blocks[..BATCH_SIZE]);
    assert blocks == blocks[..BATCH_SIZE] + [last];
    var s0 := ss[|es|];
    var s1 := After(s0, Apply(last));
    Extend(db, ss, es, Apply(last));
    ss, es := ss + [s1], es + [Apply(last)];
    var s2 := After(s1, Check);
    Extend(db, ss, es, Check);
    ss, es := ss + [s2], es + [Check];
    var s3 := After(s2, Rotate);
    Extend(db, ss, es, Rotate);
    ss, es := ss + [s3], es + [Rotate];
    var s4 := After(s3, Attach);
    Extend(db, ss, es, Attach);
    ss, es := ss + [s4], es + [Attach];
    i := |es|;
    Extend(db, ss, es, Flush(true));
    ss, es := ss + [After(s4, Flush(true))], es + [Flush(true)];
  }

  /** Nothing is on its way: what was applied is in the active batch or in the database. */
  predicate Quiet(s: State) {
    s.running == [] && !s.pc.SyncWriting?
  }

  /** The database is the original one plus every applied block but those of the active batch. */
  ghost predicate RotatedOnly(db: DB, s: State) {
    && s.db == Replay(db, s.committed) && |s.active| <= |s.applied|
    && multiset(s.committed) == multiset(s.applied[..|s.applied| - |s.active|])
  }

  /** A closed store is quiet, and its database holds the blocks rotated out before the close and no others:
      the blocks of the last active batch are not in it. */
  lemma CloseKeepsRotated(db: DB, s: State)
    requires Reachable(db, s) && s.pc.Closed?
    ensures Quiet(s) && RotatedOnly(db, s)
    ensures multiset(s.committed) == multiset(s.applied) <==> s.active == []
  {
    ReachSafe(db, s);
    var kept := s.applied[..|s.applied| - |s.active|];
    assert s.applied == kept + s.active;
    assert InFlight(s) == [];
    assert multiset(s.applied) == multiset(kept) + multiset(s.active);
    assert multiset(s.committed) == multiset(s.applied) - multiset(s.active);
    if s.active != [] { assert s.active[0] in multiset(s.active); }
  }

  /** A block applied just before `Close` is lost: nothing flushes it once the closed flag is set. */
  lemma CloseCanLose(db: DB, b: DBBlock) returns (s: State)
    ensures Reachable(db, s) && s.pc.Closed? && s.applied == [b] && s.committed == [] && s.db == db
  {
    var es := [Apply(b), Attach, Close, CloseOver, Check];
    var s1 := After(Init(db), Apply(b));
    var s2 := After(s1, Attach);
    var s3 := After(s2, Close);
    var s4 := After(s3, CloseOver);
    s := After(s4, Check);
    assert IsRun(db, [Init(db), s1, s2, s3, s4, s], es);
  }

  /** Drained: everything applied has reached the database. */
  predicate Drained(s: State) {
    Quiet(s) && s.active == []
  }

  lemma DrainedDatabase(db: DB, s: State)
    requires Reachable(db, s) && Drained(s) && Coherent(SetOf(s.applied))
    ensures s.db == Replay(db, s.applied)
  {
    ReachSafe(db, s);
    assert InFlight(s) == [];
    assert multiset(s.applied) == multiset(s.committed);
    forall b ensures b in s.applied <==> b in s.committed {
      assert b in s.applied <==> b in multiset(s.applied);
      assert b in s.committed <==> b in multiset(s.committed);
    }
    assert SetOf(s.applied) == SetOf(s.committed);
    OrderIndependent(db, s.committed, s.applied);
  }

  /** However the blocks arrived, were split into batches and were committed, the database is the same. */
  lemma SameDatabase(db: DB, s: State, t: State)
    requires Reachable(db, s) && Reachable(db, t) && Drained(s) && Drained(t)
    requires SetOf(s.applied) == SetOf(t.applied) && Coherent(SetOf(s.applied))
    ensures s.db == t.db
  {
    DrainedDatabase(db, s);
    DrainedDatabase(db, t);
    OrderIndependent(db, s.applied, t.applied);
  }
}
