/** `DBComputeComputeIndexParallel`: workers over one queue and two buffered channels, one step at a time. */
module ParallelScan {
  import opened ByteOrder
  import opened Pebble
  import opened Blocks
  import opened Seqs
  import opened FastReads
  import opened ComputeScan
  import opened WorkQueue

  /** Ranges in the queue, workers asked for, and what the scan of each range returns. */
  datatype Job = Job(ranges: nat, workers: nat, scan: nat -> Result<seq<FoundOutput>>)

  /** Ranges a worker has finished and the outputs it found in them. */
  datatype Haul = Haul(ranges: seq<nat>, found: seq<FoundOutput>)

  datatype PC = Fetching | Scanning(i: nat) | Sending | Failing(i: nat) | Failed(i: nat) | Ended
  datatype Worker = Worker(haul: Haul, pc: PC)
  datatype State = State(index: nat, workers: seq<Worker>, results: seq<Haul>, errors: nat)
  datatype Event = Fetch(w: nat) | ScanDone(w: nat) | SendResults(w: nat) | SendError(w: nat)

  const IDLE := Worker(Haul([], []), Fetching)

  /** `min(numWorkers, len(ranges))` workers are started. */
  function Init(j: Job): State {
    State(0, seq(Min(j.workers, j.ranges), _ => IDLE), [], 0)
  }

  predicate Enabled(j: Job, s: State, e: Event) {
    e.w < |s.workers| && var pc := s.workers[e.w].pc;
    match e
    case Fetch(_) => pc.Fetching?
    case ScanDone(_) => pc.Scanning?
    case SendResults(_) => pc.Sending? && |s.results| < j.workers
    case SendError(_) => pc.Failing? && s.errors < j.workers
  }

  function AfterScan(j: Job, w: Worker): Worker
    requires w.pc.Scanning?
  {
    match j.scan(w.pc.i)
    case Err => w.(pc := Failing(w.pc.i))
    case Ok(found) => Worker(Haul(w.haul.ranges + [w.pc.i], w.haul.found + found), Fetching)
  }

  function After(j: Job, s: State, e: Event): State
    requires Enabled(j, s, e)
  {
    var w := s.workers[e.w];
    match e
    case Fetch(_) =>
      s.(index := s.index + 1,
         workers := s.workers[e.w := w.(pc := if s.index < j.ranges then Scanning(s.index) else Sending)])
    case ScanDone(_) => s.(workers := s.workers[e.w := AfterScan(j, w)])
    case SendResults(_) =>
      s.(results := s.results + [w.haul], workers := s.workers[e.w := Worker(Haul([], []), Ended)])
    case SendError(_) => s.(errors := s.errors + 1, workers := s.workers[e.w := w.(pc := Failed(w.pc.i))])
  }

  ghost predicate IsRun(j: Job, ss: seq<State>, es: seq<Event>) {
    && |ss| == |es| + 1 && ss[0] == Init(j)
    && forall i :: 0 <= i < |es| ==> Enabled(j, ss[i], es[i]) && ss[i + 1] == After(j, ss[i], es[i])
  }

  // ---------- every range once ----------

  function InHaul(i: nat): Haul -> nat {
    (h: Haul) => multiset(h.ranges)[i]
  }

  function HeldBy(i: nat): Worker -> nat {
    (w: Worker) =>
      multiset(w.haul.ranges)[i]
      + if (w.pc.Scanning? || w.pc.Failing? || w.pc.Failed?) && w.pc.i == i then 1 else 0
  }

  /** How many hands a range has passed into. */
  function Handed(s: State, i: nat): nat {
    SumBy(HeldBy(i), s.workers) + SumBy(InHaul(i), s.results)
  }

  ghost predicate HandedOnce(j: Job, s: State) {
    forall i: nat :: Handed(s, i) == if i < Min(s.index, j.ranges) then 1 else 0
  }

  /** What the moving worker holds: a fetch adds a range, a send takes its haul away. */
  lemma HeldStep(j: Job, s: State, e: Event, i: nat)
    requires Enabled(j, s, e)
    ensures HeldBy(i)(After(j, s, e).workers[e.w]) + (if e.SendResults? then InHaul(i)(s.workers[e.w].haul) else 0)
      == HeldBy(i)(s.workers[e.w]) + (if e.Fetch? && i == s.index && i < j.ranges then 1 else 0)
  {
    var w := s.workers[e.w];
    if e.ScanDone? && j.scan(w.pc.i).Ok? {
      assert multiset(w.haul.ranges + [w.pc.i]) == multiset(w.haul.ranges) + multiset{w.pc.i};
    }
  }

  lemma HandedStep(j: Job, s: State, e: Event, i: nat)
    requires Enabled(j, s, e)
    ensures Handed(After(j, s, e), i) == Handed(s, i) + if e.Fetch? && i == s.index && i < j.ranges then 1 else 0
  {
    var t := After(j, s, e);
    HeldStep(j, s, e, i);
    SumUpdate(HeldBy(i), s.workers, e.w, t.workers[e.w]);
    assert t.workers == s.workers[e.w := t.workers[e.w]];
    if e.SendResults? { SumSnoc(InHaul(i), s.results, s.workers[e.w].haul); }
  }

  // ---------- channels ----------

  function IsOpen(): Worker -> nat {
    (w: Worker) => if w.pc.Failed? || w.pc.Ended? then 0 else 1
  }

  /** Every worker sends once on one of the two channels. */
  predicate Sends(s: State) {
    |s.results| + s.errors + SumBy(IsOpen(), s.workers) == |s.workers|
  }

  lemma SendsStep(j: Job, s: State, e: Event)
    requires Enabled(j, s, e) && Sends(s)
    ensures Sends(After(j, s, e))
  {
    SumUpdate(IsOpen(), s.workers, e.w, After(j, s, e).workers[e.w]);
  }

  // ---------- what a worker has ----------

  ghost function Scans(j: Job, ranges: seq<nat>): (r: seq<Result<seq<FoundOutput>>>)
    ensures |r| == |ranges| && forall i :: 0 <= i < |ranges| ==> r[i] == j.scan(ranges[i])
  {
    seq(|ranges|, i requires 0 <= i < |ranges| => j.scan(ranges[i]))
  }

  /** A haul holds exactly what the scans of its ranges returned. */
  ghost predicate HaulOk(j: Job, h: Haul) {
    Join(Scans(j, h.ranges)) == Ok(h.found)
  }

  lemma HaulGrows(j: Job, h: Haul, i: nat)
    requires HaulOk(j, h) && j.scan(i).Ok?
    ensures HaulOk(j, Haul(h.ranges + [i], h.found + j.scan(i).value))
  {
    var rs := Scans(j, h.ranges + [i]);
    JoinNext(rs, |h.ranges|);
    assert rs[..|h.ranges|] == Scans(j, h.ranges) && rs[..|h.ranges| + 1] == rs;
  }

  ghost predicate WorkerOk(j: Job, index: nat, w: Worker) {
    && HaulOk(j, w.haul)
    && (w.pc.Sending? || w.pc.Ended? ==> index >= j.ranges)
    && (w.pc.Ended? ==> w.haul.ranges == [])
    && (w.pc.Scanning? ==> w.pc.i < j.ranges)
    && (w.pc.Failing? || w.pc.Failed? ==> w.pc.i < j.ranges && j.scan(w.pc.i).Err?)
  }

  ghost predicate WorkersOk(j: Job, s: State) {
    && (forall w :: 0 <= w < |s.workers| ==> WorkerOk(j, s.index, s.workers[w]))
    && (forall r :: 0 <= r < |s.results| ==> HaulOk(j, s.results[r]))
    && (s.errors > 0 <==> exists w :: 0 <= w < |s.workers| && s.workers[w].pc.Failed?)
  }

  lemma WorkerStep(j: Job, s: State, e: Event)
    requires Enabled(j, s, e) && WorkerOk(j, s.index, s.workers[e.w])
    ensures var t := After(j, s, e); WorkerOk(j, t.index, t.workers[e.w])
  {
    var w := s.workers[e.w];
    if e.ScanDone? && j.scan(w.pc.i).Ok? { HaulGrows(j, w.haul, w.pc.i); }
  }

  lemma WorkersStep(j: Job, s: State, e: Event)
    requires Enabled(j, s, e) && WorkersOk(j, s)
    ensures WorkersOk(j, After(j, s, e))
  {
    var t := After(j, s, e);
    WorkerStep(j, s, e);
    forall w | 0 <= w < |t.workers| ensures WorkerOk(j, t.index, t.workers[w]) {
      if w != e.w { assert t.workers[w] == s.workers[w]; }
    }
    forall w | 0 <= w < |s.workers| && s.workers[w].pc.Failed? ensures t.workers[w].pc.Failed? {}
    forall w | 0 <= w < |t.workers| && t.workers[w].pc.Failed? ensures s.workers[w].pc.Failed? || e == SendError(w) {}
  }

  // ---------- whole runs ----------

  ghost predicate Inv(j: Job, s: State) {
    |s.workers| == Min(j.workers, j.ranges) && HandedOnce(j, s) && Sends(s) && WorkersOk(j, s)
  }

  lemma InitInv(j: Job)
    ensures Inv(j, Init(j))
  {
    var ws := Init(j).workers;
    forall i: nat ensures Handed(Init(j), i) == 0 { SumConstant(HeldBy(i), ws, 0); }
    SumConstant(IsOpen(), ws, 1);
  }

  lemma {:induction false} RunInv(j: Job, ss: seq<State>, es: seq<Event>, i: nat)
    requires IsRun(j, ss, es) && i < |ss|
    ensures Inv(j, ss[i])
  {
    if i == 0 {
      InitInv(j);
    } else {
      var s, e := ss[i - 1], es[i - 1];
      RunInv(j, ss, es, i - 1);
      forall r: nat ensures Handed(After(j, s, e), r) == if r < Min(After(j, s, e).index, j.ranges) then 1 else 0 {
        HandedStep(j, s, e, r);
      }
      SendsStep(j, s, e);
      WorkersStep(j, s, e);
    }
  }

  /** Under every interleaving each range is handed out once, in order, and no send ever blocks. */
  lemma HandOut(j: Job, ss: seq<State>, es: seq<Event>, i: nat, w: nat)
    requires IsRun(j, ss, es) && i < |ss| && w < |ss[i].workers|
    ensures forall r: nat :: Handed(ss[i], r) == if r < Min(ss[i].index, j.ranges) then 1 else 0
    ensures ss[i].workers[w].pc.Sending? ==> Enabled(j, ss[i], SendResults(w))
    ensures ss[i].workers[w].pc.Failing? ==> Enabled(j, ss[i], SendError(w))
  {
    RunInv(j, ss, es, i);
    if ss[i].workers[w].pc.Sending? || ss[i].workers[w].pc.Failing? {
      assert IsOpen()(ss[i].workers[w]) > 0;
      SumPositive(IsOpen(), ss[i].workers);
    }
  }

  function StepsLeft(pc: PC): nat {
    match pc
    case Fetching => 2
    case Scanning(_) => 3
    case Sending => 1
    case Failing(_) => 1
    case _ => 0
  }

  function Rank(): Worker -> nat {
    (w: Worker) => StepsLeft(w.pc)
  }

  function Measure(j: Job, s: State): nat {
    SumBy(Rank(), s.workers) + 2 * (j.ranges - Min(s.index, j.ranges))
  }

  lemma MeasureDrops(j: Job, s: State, e: Event)
    requires Enabled(j, s, e)
    ensures Measure(j, After(j, s, e)) < Measure(j, s)
  {
    SumUpdate(Rank(), s.workers, e.w, After(j, s, e).workers[e.w]);
  }

  predicate AllEnded(s: State) {
    forall w :: 0 <= w < |s.workers| ==> s.workers[w].pc.Ended? || s.workers[w].pc.Failed?
  }

  /** Until every worker has ended one of them can move, and every move uses up some of a fixed budget. */
  lemma {:induction false} ScanFinishes(j: Job, ss: seq<State>, es: seq<Event>)
    requires IsRun(j, ss, es)
    ensures |es| + Measure(j, ss[|es|]) <= Measure(j, Init(j))
    ensures AllEnded(ss[|es|]) || exists e :: Enabled(j, ss[|es|], e)
    decreases |es|
  {
    var n := |es|;
    if n > 0 {
      ScanFinishes(j, ss[..n], es[..n - 1]);
      MeasureDrops(j, ss[n - 1], es[n - 1]);
    }
    if !AllEnded(ss[n]) {
      var w :| 0 <= w < |ss[n].workers| && !(ss[n].workers[w].pc.Ended? || ss[n].workers[w].pc.Failed?);
      HandOut(j, ss, es, n, w);
      assert Enabled(j, ss[n], Fetch(w)) || Enabled(j, ss[n], ScanDone(w))
        || Enabled(j, ss[n], SendResults(w)) || Enabled(j, ss[n], SendError(w));
    }
  }

  // ---------- the result ----------

  ghost function Founds(hauls: seq<Haul>): (r: seq<seq<FoundOutput>>)
    ensures |r| == |hauls| && forall i :: 0 <= i < |hauls| ==> r[i] == hauls[i].found
  {
    seq(|hauls|, i requires 0 <= i < |hauls| => hauls[i].found)
  }

  /** What the caller collects once every worker has ended: an error if one was sent, else all results. */
  ghost function Outcome(s: State): Result<seq<FoundOutput>> {
    if s.errors > 0 then Err else Ok(Flatten(Founds(s.results)))
  }

  /** Without an error, each range ends up in exactly one of the collected results. */
  lemma AllCollected(j: Job, s: State, i: nat)
    requires Inv(j, s) && j.workers >= 1 && AllEnded(s) && s.errors == 0 && i < j.ranges
    ensures SumBy(InHaul(i), s.results) == 1
  {
    assert s.workers[0].pc.Ended? && WorkerOk(j, s.index, s.workers[0]);
    forall w | 0 <= w < |s.workers| ensures HeldBy(i)(s.workers[w]) == 0 {
      assert WorkerOk(j, s.index, s.workers[w]);
    }
    SumConstant(HeldBy(i), s.workers, 0);
    assert Handed(s, i) == 1;
  }

  lemma CollectedIn(j: Job, s: State, i: nat) returns (r: nat)
    requires Inv(j, s) && j.workers >= 1 && AllEnded(s) && s.errors == 0 && i < j.ranges
    ensures r < |s.results| && i in s.results[r].ranges && j.scan(i).Ok?
  {
    AllCollected(j, s, i);
    SumPositive(InHaul(i), s.results);
    r :| 0 <= r < |s.results| && InHaul(i)(s.results[r]) > 0;
    var k :| 0 <= k < |s.results[r].ranges| && s.results[r].ranges[k] == i;
    JoinFails(Scans(j, s.results[r].ranges));
    assert Scans(j, s.results[r].ranges)[k] == j.scan(i);
  }

  /** The caller sees an error exactly when the scan of some range fails. */
  lemma OutcomeFails(j: Job, s: State)
    requires Inv(j, s) && j.workers >= 1 && AllEnded(s)
    ensures Outcome(s).Err? <==> exists i: nat :: i < j.ranges && j.scan(i).Err?
  {
    if s.errors > 0 {
      var w :| 0 <= w < |s.workers| && s.workers[w].pc.Failed?;
      assert WorkerOk(j, s.index, s.workers[w]);
    } else {
      forall i: nat | i < j.ranges ensures j.scan(i).Ok? {
        var _ := CollectedIn(j, s, i);
      }
    }
  }

  lemma RangeOfHaul(j: Job, s: State, r: nat, i: nat)
    requires Inv(j, s) && r < |s.results| && i in s.results[r].ranges
    ensures i < j.ranges
  {
    assert InHaul(i)(s.results[r]) > 0;
    SumPositive(InHaul(i), s.results);
    assert Handed(s, i) > 0;
  }

  /** Without an error, the caller gets exactly what the scans of the ranges found. */
  lemma OutcomeFinds(j: Job, s: State, f: FoundOutput)
    requires Inv(j, s) && j.workers >= 1 && AllEnded(s) && Outcome(s).Ok?
    ensures f in Outcome(s).value <==> exists i: nat :: i < j.ranges && j.scan(i).Ok? && f in j.scan(i).value
  {
    FlattenMember(Founds(s.results), f);
    if r :| 0 <= r < |s.results| && f in Founds(s.results)[r] {
      var ranges := s.results[r].ranges;
      JoinMember(Scans(j, ranges), f);
      var k :| 0 <= k < |ranges| && Scans(j, ranges)[k].Ok? && f in Scans(j, ranges)[k].value;
      RangeOfHaul(j, s, r, ranges[k]);
    }
    if i: nat :| i < j.ranges && j.scan(i).Ok? && f in j.scan(i).value {
      var r := CollectedIn(j, s, i);
      var ranges := s.results[r].ranges;
      var k :| 0 <= k < |ranges| && ranges[k] == i;
      assert Scans(j, ranges)[k] == j.scan(i);
      JoinMember(Scans(j, ranges), f);
      assert f in Founds(s.results)[r];
    }
  }

  // ---------- against the sequential scan ----------

  /** A parallel scan of heights start to end of a store, over the ranges the queue's loop made. */
  ghost predicate IsJob(db: DB, wallet: Wallet, start: U32, end: U32, size: U32, ranges: seq<WorkRange>, j: Job)
    requires ComputeStore(db)
  {
    && Built(start, end, size, ranges) && j.ranges == |ranges| && j.workers >= 1
    && forall i :: 0 <= i < |ranges| ==> j.scan(i) == Sequential(db, wallet, ranges[i].start, ranges[i].end)
  }

  /** The ranges together visit the rows of one interval, from the lowest start to the end: the next range has the
      row a range's bound leaves out, and a range that wraps visits none. */
  lemma {:induction false} VisitsSplit(ranges: seq<WorkRange>, end: U32, height: U32, txid: Hash)
    requires Chained(ranges, end)
    ensures Visits(Lowest(ranges), end, height, txid) <==>
      exists i :: 0 <= i < |ranges| && Visits(ranges[i].start, ranges[i].end, height, txid)
  {
    if |ranges| == 1 {
      assert ChainedAt(ranges, end, 0);
      assert Visits(ranges[0].start, ranges[0].end, height, txid) <==> Visits(Lowest(ranges), end, height, txid);
    } else {
      var rest := ranges[1..];
      ChainedRest(ranges, end);
      VisitsSplit(rest, end, height, txid);
      LowestIs(rest);
      assert Lowest(rest) <= rest[0].start == ranges[0].end < end;
      if i :| 0 <= i < |rest| && Visits(rest[i].start, rest[i].end, height, txid) {
        assert Visits(ranges[i + 1].start, ranges[i + 1].end, height, txid);
      }
      if i :| 0 <= i < |ranges| && Visits(ranges[i].start, ranges[i].end, height, txid) {
        assert i > 0 ==> Visits(rest[i - 1].start, rest[i - 1].end, height, txid);
      }
    }
  }

  lemma FailureSplit(db: DB, wallet: Wallet, ranges: seq<WorkRange>, end: U32)
    requires ComputeStore(db) && Chained(ranges, end)
    ensures Sequential(db, wallet, Lowest(ranges), end).Err? <==>
      exists i :: 0 <= i < |ranges| && Sequential(db, wallet, ranges[i].start, ranges[i].end).Err?
  {
    var low := Lowest(ranges);
    SequentialFails(db, wallet, low, end);
    if height: U32, txid: Hash :| FailsAt(db, wallet, low, end, height, txid) {
      VisitsSplit(ranges, end, height, txid);
      var i :| 0 <= i < |ranges| && Visits(ranges[i].start, ranges[i].end, height, txid);
      assert FailsAt(db, wallet, ranges[i].start, ranges[i].end, height, txid);
      SequentialFails(db, wallet, ranges[i].start, ranges[i].end);
    }
    if i :| 0 <= i < |ranges| && Sequential(db, wallet, ranges[i].start, ranges[i].end).Err? {
      SequentialFails(db, wallet, ranges[i].start, ranges[i].end);
      var height: U32, txid: Hash :| FailsAt(db, wallet, ranges[i].start, ranges[i].end, height, txid);
      VisitsSplit(ranges, end, height, txid);
      assert FailsAt(db, wallet, low, end, height, txid);
    }
  }

  lemma FindSplit(db: DB, wallet: Wallet, ranges: seq<WorkRange>, end: U32, f: FoundOutput)
    requires ComputeStore(db) && Chained(ranges, end) && Sequential(db, wallet, Lowest(ranges), end).Ok?
    requires forall i :: 0 <= i < |ranges| ==> Sequential(db, wallet, ranges[i].start, ranges[i].end).Ok?
    ensures f in Sequential(db, wallet, Lowest(ranges), end).value <==>
      exists i :: 0 <= i < |ranges| && f in Sequential(db, wallet, ranges[i].start, ranges[i].end).value
  {
    var low := Lowest(ranges);
    SequentialFinds(db, wallet, low, end, f);
    if height: U32, txid: Hash :| FindsAt(db, wallet, low, end, height, txid, f) {
      VisitsSplit(ranges, end, height, txid);
      var i :| 0 <= i < |ranges| && Visits(ranges[i].start, ranges[i].end, height, txid);
      assert FindsAt(db, wallet, ranges[i].start, ranges[i].end, height, txid, f);
      SequentialFinds(db, wallet, ranges[i].start, ranges[i].end, f);
    }
    if i :| 0 <= i < |ranges| && f in Sequential(db, wallet, ranges[i].start, ranges[i].end).value {
      SequentialFinds(db, wallet, ranges[i].start, ranges[i].end, f);
      var height: U32, txid: Hash :| FindsAt(db, wallet, ranges[i].start, ranges[i].end, height, txid, f);
      VisitsSplit(ranges, end, height, txid);
      assert FindsAt(db, wallet, low, end, height, txid, f);
    }
  }

  /** Both fail, or both find the same set of outputs. */
  ghost predicate Agrees(a: Result<seq<FoundOutput>>, b: Result<seq<FoundOutput>>) {
    (a.Err? <==> b.Err?) && (a.Ok? ==> forall f :: f in a.value <==> f in b.value)
  }

  /** Whatever the interleaving and whether or not a step wrapped, a finished parallel scan is a sequential scan
      from the lowest start of a range to the end height. */
  lemma ParallelScansFromLowest(db: DB, wallet: Wallet, start: U32, end: U32, size: U32, ranges: seq<WorkRange>,
                                j: Job, ss: seq<State>, es: seq<Event>)
    requires ComputeStore(db) && start < end && IsJob(db, wallet, start, end, size, ranges, j)
    requires IsRun(j, ss, es) && AllEnded(ss[|es|])
    ensures ranges != [] && Agrees(Outcome(ss[|es|]), Sequential(db, wallet, Lowest(ranges), end))
  {
    var s := ss[|es|];
    BuiltChained(start, end, size, ranges);
    var low := Lowest(ranges);
    RunInv(j, ss, es, |es|);
    OutcomeFails(j, s);
    FailureSplit(db, wallet, ranges, end);
    if Outcome(s).Ok? {
      forall f ensures f in Outcome(s).value <==> f in Sequential(db, wallet, low, end).value {
        OutcomeFinds(j, s, f);
        FindSplit(db, wallet, ranges, end, f);
      }
    }
  }

  /** When no step wraps, it fails exactly when the sequential scan does, and otherwise finds the same set. */
  lemma ParallelMatchesSequential(db: DB, wallet: Wallet, start: U32, end: U32, size: U32, ranges: seq<WorkRange>,
                                  j: Job, ss: seq<State>, es: seq<Event>)
    requires ComputeStore(db) && start < end && IsJob(db, wallet, start, end, size, ranges, j)
    requires size > 0 && NoWrap(start, end, size) && IsRun(j, ss, es) && AllEnded(ss[|es|])
    ensures Outcome(ss[|es|]).Err? <==> Sequential(db, wallet, start, end).Err?
    ensures Outcome(ss[|es|]).Ok? ==>
      forall f :: f in Outcome(ss[|es|]).value <==> f in Sequential(db, wallet, start, end).value
  {
    ParallelScansFromLowest(db, wallet, start, end, size, ranges, j, ss, es);
    NoWrapLowest(start, end, size, ranges);
  }

  /** Without ranges there are no workers, and nothing is found. */
  lemma NoRangesFindNothing(db: DB, wallet: Wallet, start: U32, end: U32, size: U32, ranges: seq<WorkRange>,
                            j: Job, ss: seq<State>, es: seq<Event>)
    requires ComputeStore(db) && IsJob(db, wallet, start, end, size, ranges, j) && IsRun(j, ss, es)
    requires start >= end
    ensures Outcome(ss[|es|]) == Ok([])
  {
    CurrentNext(start, size, 0);
    assert |ranges| == 0;
    RunInv(j, ss, es, |es|);
    assert Founds(ss[|es|].results) == [];
  }

  /** No row the scan of this height visits has anything for the wallet, or fails. */
  ghost predicate NothingAt(db: DB, wallet: Wallet, height: U32)
    requires ComputeStore(db)
  {
    forall txid: Hash :: txid != MAX_HASH && RowAt(db, height, txid) ==> RowAtFound(db, wallet, height, txid) == Ok([])
  }

  lemma NothingAtIff(db: DB, wallet: Wallet, height: U32)
    requires ComputeStore(db)
    ensures NothingAt(db, wallet, height) <==> Sequential(db, wallet, height, height) == Ok([])
  {
    SequentialFails(db, wallet, height, height);
    var r := Sequential(db, wallet, height, height);
    if NothingAt(db, wallet, height) {
      forall h: U32, txid: Hash ensures !FailsAt(db, wallet, height, height, h, txid) {
        if RowAt(db, h, txid) && Visits(height, height, h, txid) { assert RowAt(db, height, txid); }
      }
      if r.value != [] {
        SequentialFinds(db, wallet, height, height, r.value[0]);
      }
    } else {
      var txid: Hash :| txid != MAX_HASH && RowAt(db, height, txid) && RowAtFound(db, wallet, height, txid) != Ok([]);
      SomethingFound(db, wallet, height, txid);
    }
  }

  lemma SomethingFound(db: DB, wallet: Wallet, height: U32, txid: Hash)
    requires ComputeStore(db) && txid != MAX_HASH && RowAt(db, height, txid)
    requires RowAtFound(db, wallet, height, txid) != Ok([])
    ensures Sequential(db, wallet, height, height) != Ok([])
  {
    var found := RowAtFound(db, wallet, height, txid);
    SequentialFails(db, wallet, height, height);
    if found.Err? {
      assert FailsAt(db, wallet, height, height, height, txid);
    } else if Sequential(db, wallet, height, height).Ok? {
      SequentialFinds(db, wallet, height, height, found.value[0]);
      assert FindsAt(db, wallet, height, height, height, txid, found.value[0]);
    }
  }

  // ---------- exactly when the two scans agree ----------

  /** A row below the start neither fails nor holds an output that no row from start to end holds. */
  ghost predicate AddsNothing(db: DB, wallet: Wallet, height: U32, txid: Hash, start: U32, end: U32)
    requires ComputeStore(db) && RowAt(db, height, txid)
  {
    var found := RowAtFound(db, wallet, height, txid);
    found.Ok? && forall f :: f in found.value ==> HeldBetween(db, wallet, start, end, f)
  }

  ghost predicate HeldBetween(db: DB, wallet: Wallet, start: U32, end: U32, f: FoundOutput)
    requires ComputeStore(db)
  {
    exists height: U32, txid: Hash :: FindsAt(db, wallet, start, end, height, txid, f)
  }

  /** A row from start to end fails, so both scans do, or no row from `low` up to the start adds anything. */
  ghost predicate NothingNewBelow(db: DB, wallet: Wallet, low: U32, start: U32, end: U32)
    requires ComputeStore(db)
  {
    || (exists height: U32, txid: Hash :: FailsAt(db, wallet, start, end, height, txid))
    || forall height: U32, txid: Hash ::
         low <= height < start && RowAt(db, height, txid) ==> AddsNothing(db, wallet, height, txid, start, end)
  }

  lemma LowerRows(low: U32, start: U32, end: U32, height: U32, txid: Hash)
    requires low <= start < end
    ensures Visits(low, end, height, txid) <==> low <= height < start || Visits(start, end, height, txid)
  {
  }

  lemma LowerScanFails(db: DB, wallet: Wallet, low: U32, start: U32, end: U32)
    requires ComputeStore(db) && low <= start < end
    ensures Sequential(db, wallet, start, end).Err? ==> Sequential(db, wallet, low, end).Err?
    ensures Sequential(db, wallet, low, end).Err? && NothingNewBelow(db, wallet, low, start, end) ==>
      Sequential(db, wallet, start, end).Err?
  {
    SequentialFails(db, wallet, low, end);
    SequentialFails(db, wallet, start, end);
    if height: U32, txid: Hash :| FailsAt(db, wallet, start, end, height, txid) {
      LowerRows(low, start, end, height, txid);
      assert FailsAt(db, wallet, low, end, height, txid);
    } else if height: U32, txid: Hash :| FailsAt(db, wallet, low, end, height, txid) {
      LowerRows(low, start, end, height, txid);
      assert !FailsAt(db, wallet, start, end, height, txid);
      assert !AddsNothing(db, wallet, height, txid, start, end);
    }
  }

  lemma LowerScanFinds(db: DB, wallet: Wallet, low: U32, start: U32, end: U32, f: FoundOutput)
    requires ComputeStore(db) && low <= start < end
    requires Sequential(db, wallet, low, end).Ok? && Sequential(db, wallet, start, end).Ok?
    ensures f in Sequential(db, wallet, low, end).value <==>
      || f in Sequential(db, wallet, start, end).value
      || exists height: U32, txid: Hash :: low <= height < start && FindsAt(db, wallet, low, end, height, txid, f)
  {
    SequentialFinds(db, wallet, low, end, f);
    SequentialFinds(db, wallet, start, end, f);
    forall height: U32, txid: Hash
      ensures FindsAt(db, wallet, low, end, height, txid, f) <==>
        FindsAt(db, wallet, start, end, height, txid, f)
        || (low <= height < start && FindsAt(db, wallet, low, end, height, txid, f))
    {
      LowerRows(low, start, end, height, txid);
    }
  }

  /** A scan from further down agrees exactly when it meets nothing new there. */
  lemma LowerScanIff(db: DB, wallet: Wallet, low: U32, start: U32, end: U32)
    requires ComputeStore(db) && low <= start < end
    ensures Agrees(Sequential(db, wallet, low, end), Sequential(db, wallet, start, end)) <==>
      NothingNewBelow(db, wallet, low, start, end)
  {
    LowerScanFails(db, wallet, low, start, end);
    SequentialFails(db, wallet, start, end);
    SequentialFails(db, wallet, low, end);
    if Sequential(db, wallet, low, end).Ok? {
      if NothingNewBelow(db, wallet, low, start, end) {
        forall f
          ensures f in Sequential(db, wallet, low, end).value <==> f in Sequential(db, wallet, start, end).value
        {
          LowerScanFinds(db, wallet, low, start, end, f);
          SequentialFinds(db, wallet, start, end, f);
        }
      } else {
        NewBelow(db, wallet, low, start, end);
      }
    }
  }

  lemma NewBelow(db: DB, wallet: Wallet, low: U32, start: U32, end: U32)
    requires ComputeStore(db) && low <= start < end && !NothingNewBelow(db, wallet, low, start, end)
    requires Sequential(db, wallet, low, end).Ok? && Sequential(db, wallet, start, end).Ok?
    ensures exists f :: f in Sequential(db, wallet, low, end).value && f !in Sequential(db, wallet, start, end).value
  {
    var height: U32, txid: Hash :| low <= height < start && RowAt(db, height, txid)
      && !AddsNothing(db, wallet, height, txid, start, end);
    LowerRows(low, start, end, height, txid);
    SequentialFails(db, wallet, low, end);
    assert !FailsAt(db, wallet, low, end, height, txid);
    var f :| f in RowAtFound(db, wallet, height, txid).value && !HeldBetween(db, wallet, start, end, f);
    assert FindsAt(db, wallet, low, end, height, txid, f);
    SequentialFinds(db, wallet, low, end, f);
    SequentialFinds(db, wallet, start, end, f);
  }

  /** What the parallel scan misses or adds: everything at a single height, for which there is no range, and
      whatever is new below the start, where a range that follows a wrap starts. */
  ghost predicate NoDifference(db: DB, wallet: Wallet, start: U32, end: U32, ranges: seq<WorkRange>)
    requires ComputeStore(db) && (start < end ==> ranges != [])
  {
    && (start == end ==> NothingAt(db, wallet, start))
    && (start < end ==> NothingNewBelow(db, wallet, Lowest(ranges), start, end))
  }

  /** For every start, end and range size with which the queue's loop ends, the two scans agree exactly then. */
  lemma ParallelAgreesIff(db: DB, wallet: Wallet, start: U32, end: U32, size: U32, ranges: seq<WorkRange>,
                          j: Job, ss: seq<State>, es: seq<Event>)
    requires ComputeStore(db) && IsJob(db, wallet, start, end, size, ranges, j)
    requires IsRun(j, ss, es) && AllEnded(ss[|es|])
    ensures start < end ==> ranges != []
    ensures Agrees(Outcome(ss[|es|]), Sequential(db, wallet, start, end)) <==>
      NoDifference(db, wallet, start, end, ranges)
  {
    if start < end {
      ParallelScansFromLowest(db, wallet, start, end, size, ranges, j, ss, es);
      BuiltChained(start, end, size, ranges);
      LowestIs(ranges);
      LowerScanIff(db, wallet, Lowest(ranges), start, end);
    } else {
      NoRangesFindNothing(db, wallet, start, end, size, ranges, j, ss, es);
      if start > end {
        EmptyIntervalScan(db, wallet, start, end);
      } else {
        NothingAtIff(db, wallet, start);
        var r := Sequential(db, wallet, start, start);
        if r.Ok? && r.value != [] { assert r.value[0] in r.value; }
      }
    }
  }

  /** Every scan can be run to its end. */
  lemma {:induction false} CanFinish(j: Job, ss: seq<State>, es: seq<Event>) returns (ss': seq<State>, es': seq<Event>)
    requires IsRun(j, ss, es)
    ensures IsRun(j, ss', es') && AllEnded(ss'[|es'|])
    decreases Measure(j, ss[|es|])
  {
    ss', es' := ss, es;
    ScanFinishes(j, ss, es);
    if !AllEnded(ss[|es|]) {
      var e :| Enabled(j, ss[|es|], e);
      MeasureDrops(j, ss[|es|], e);
      ss', es' := CanFinish(j, ss + [After(j, ss[|es|], e)], es + [e]);
    }
  }
}
