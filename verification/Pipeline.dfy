/** `SyncBlocks`: launcher, pull goroutines, workers, writer and caller, one step at a time. */
module Pipeline {
  import opened Seqs

  /** Heights to sync, parallel pulls allowed, and workers; both counts are clamped to at least one. */
  datatype Config = Config(start: int, end: int, pulls: nat, workers: nat)

  ghost predicate ValidConfig(c: Config) {
    c.pulls >= 1 && c.workers >= 1
  }

  datatype WriterPC = Receiving | Applying(h: int) | Failing(h: int) | Failed(h: int) | Done
  datatype Caller = Waiting | ReturnedNil | ReturnedErr

  datatype State = State(
    next: int,                  // next height the launcher starts
    pulling: seq<int>,          // pull goroutines before their send on newBlockChan
    stuck: seq<int>,            // pull goroutines blocked sending an error
    lost: seq<int>,             // heights whose pull error was delivered
    releasing: nat,             // goroutines that only have their semaphore slot to give back
    newChan: seq<int>,
    newClosed: bool,
    idle: nat,                  // workers at their select
    handling: seq<int>,         // workers with a block
    exited: nat,
    writerChan: seq<int>,
    writerClosed: bool,
    writer: WriterPC,
    applied: seq<int>,
    caller: Caller)

  function Init(c: Config): State {
    State(c.start, [], [], [], 0, [], false, c.workers, [], 0, [], false, Receiving, [], Waiting)
  }

  datatype Event =
    | Launch | PullSend(i: nat) | PullFail(i: nat) | Release | CloseNew
    | WorkerTake | WorkerSend(i: nat) | WorkerExit | CloseWriter
    | WriterTake | ApplyOk | ApplyFail | WriterExit
    | CallerDone | CallerPullErr(i: nat) | CallerApplyErr

  /** Slots of the pull semaphore in use. */
  function InUse(s: State): nat {
    |s.pulling| + |s.stuck| + s.releasing
  }

  /** Goroutines the launcher's wait group still counts; a failed pull never leaves it. */
  function WaitCount(s: State): nat {
    |s.pulling| + |s.stuck| + |s.lost|
  }

  predicate Enabled(c: Config, s: State, e: Event) {
    match e
    case Launch => s.next <= c.end && InUse(s) < c.pulls
    case PullSend(i) => i < |s.pulling| && |s.newChan| < 20 * c.pulls
    case PullFail(i) => i < |s.pulling|
    case Release => s.releasing > 0
    case CloseNew => s.next > c.end && WaitCount(s) == 0 && !s.newClosed
    case WorkerTake => s.idle > 0 && s.newChan != []
    case WorkerSend(i) => i < |s.handling| && |s.writerChan| < 20 * c.workers
    case WorkerExit => s.idle > 0 && s.newChan == [] && s.newClosed
    case CloseWriter => s.exited == c.workers && !s.writerClosed
    case WriterTake => s.writer.Receiving? && s.writerChan != []
    case ApplyOk => s.writer.Applying?
    case ApplyFail => s.writer.Applying?
    case WriterExit => s.writer.Receiving? && s.writerChan == [] && s.writerClosed
    case CallerDone => s.caller.Waiting? && (s.writer.Done? || s.writer.Failed?)
    case CallerPullErr(i) => s.caller.Waiting? && i < |s.stuck|
    case CallerApplyErr => s.caller.Waiting? && s.writer.Failing?
  }

  function After(c: Config, s: State, e: Event): State
    requires Enabled(c, s, e)
  {
    match e
    case Launch => s.(next := s.next + 1, pulling := s.pulling + [s.next])
    case PullSend(i) =>
      s.(pulling := Without(s.pulling, i), newChan := s.newChan + [s.pulling[i]], releasing := s.releasing + 1)
    case PullFail(i) => s.(pulling := Without(s.pulling, i), stuck := s.stuck + [s.pulling[i]])
    case Release => s.(releasing := s.releasing - 1)
    case CloseNew => s.(newClosed := true)
    case WorkerTake => s.(newChan := s.newChan[1..], handling := s.handling + [s.newChan[0]], idle := s.idle - 1)
    case WorkerSend(i) =>
      s.(handling := Without(s.handling, i), writerChan := s.writerChan + [s.handling[i]], idle := s.idle + 1)
    case WorkerExit => s.(idle := s.idle - 1, exited := s.exited + 1)
    case CloseWriter => s.(writerClosed := true)
    case WriterTake => s.(writerChan := s.writerChan[1..], writer := Applying(s.writerChan[0]))
    case ApplyOk => s.(applied := s.applied + [s.writer.h], writer := Receiving)
    case ApplyFail => s.(writer := Failing(s.writer.h))
    case WriterExit => s.(writer := Done)
    case CallerDone => s.(caller := ReturnedNil)
    case CallerPullErr(i) =>
      s.(caller := ReturnedErr, stuck := Without(s.stuck, i), lost := s.lost + [s.stuck[i]],
         releasing := s.releasing + 1)
    case CallerApplyErr => s.(caller := ReturnedErr, writer := Failed(s.writer.h))
  }

  ghost predicate IsRun(c: Config, ss: seq<State>, es: seq<Event>) {
    && |ss| == |es| + 1 && ss[0] == Init(c)
    && forall i :: 0 <= i < |es| ==> Enabled(c, ss[i], es[i]) && ss[i + 1] == After(c, ss[i], es[i])
  }

  // ---------- safety ----------

  function Times(s: seq<int>, h: int): nat {
    multiset(s)[h]
  }

  function TimesInWriter(w: WriterPC, h: int): nat {
    if (w.Applying? || w.Failing? || w.Failed?) && w.h == h then 1 else 0
  }

  /** How many stages of the pipeline hold a height. */
  function Stages(s: State, h: int): nat {
    Times(s.pulling, h) + Times(s.stuck, h) + Times(s.lost, h) + Times(s.newChan, h)
    + Times(s.handling, h) + Times(s.writerChan, h) + TimesInWriter(s.writer, h) + Times(s.applied, h)
  }

  /** Every launched height is in exactly one stage, once; no other height is anywhere. */
  ghost predicate Conserved(c: Config, s: State) {
    forall h :: Stages(s, h) == if c.start <= h < s.next then 1 else 0
  }

  /** Channels are closed only when their senders are gone; the caller returns nil only at the very end. */
  predicate Orderly(c: Config, s: State) {
    && c.start <= s.next && (s.next <= c.start || s.next <= c.end + 1)
    && InUse(s) <= c.pulls
    && |s.newChan| <= 20 * c.pulls && |s.writerChan| <= 20 * c.workers
    && s.idle + |s.handling| + s.exited == c.workers
    && (s.newClosed ==> s.next > c.end && WaitCount(s) == 0)
    && (s.exited > 0 ==> s.newClosed && s.newChan == [])
    && (s.writerClosed ==> s.exited == c.workers)
    && (s.writer.Done? ==> s.writerClosed && s.writerChan == [])
    && (s.writer.Failed? ==> s.caller.ReturnedErr?)
    && (s.caller.ReturnedNil? ==> s.writer.Done?)
    && (s.lost != [] ==> s.caller.ReturnedErr?)
  }

  lemma OrderlyStep(c: Config, s: State, e: Event)
    requires ValidConfig(c) && Orderly(c, s) && Enabled(c, s, e)
    ensures Orderly(c, After(c, s, e))
  {
  }

  lemma TimesAdd(s: seq<int>, x: int, h: int)
    ensures Times(s + [x], h) == Times(s, h) + if x == h then 1 else 0
  {
  }

  lemma TimesOut(s: seq<int>, i: nat, h: int)
    requires i < |s|
    ensures Times(s, h) == Times(Without(s, i), h) + if s[i] == h then 1 else 0
  {
    assert s == s[..i] + [s[i]] + s[i + 1..];
    assert multiset(s) == multiset(s[..i]) + multiset([s[i]]) + multiset(s[i + 1..]);
    assert multiset(Without(s, i)) == multiset(s[..i]) + multiset(s[i + 1..]);
  }

  lemma TimesHead(s: seq<int>, h: int)
    requires s != []
    ensures Times(s, h) == Times(s[1..], h) + if s[0] == h then 1 else 0
  {
    assert s == [s[0]] + s[1..];
  }

  lemma PullStages(c: Config, s: State, e: Event, h: int)
    requires Enabled(c, s, e) && (e.Launch? || e.PullSend? || e.PullFail?)
    ensures Stages(After(c, s, e), h) == Stages(s, h) + if e.Launch? && h == s.next then 1 else 0
  {
    if e.Launch? {
      TimesAdd(s.pulling, s.next, h);
    } else {
      TimesOut(s.pulling, e.i, h);
      TimesAdd(s.newChan, s.pulling[e.i], h);
      TimesAdd(s.stuck, s.pulling[e.i], h);
    }
  }

  lemma WorkerStages(c: Config, s: State, e: Event, h: int)
    requires Enabled(c, s, e) && (e.WorkerTake? || e.WorkerSend?)
    ensures Stages(After(c, s, e), h) == Stages(s, h)
  {
    if e.WorkerTake? {
      TimesHead(s.newChan, h);
      TimesAdd(s.handling, s.newChan[0], h);
    } else {
      TimesOut(s.handling, e.i, h);
      TimesAdd(s.writerChan, s.handling[e.i], h);
    }
  }

  lemma WriterStages(c: Config, s: State, e: Event, h: int)
    requires Enabled(c, s, e) && (e.WriterTake? || e.ApplyOk?)
    ensures Stages(After(c, s, e), h) == Stages(s, h)
  {
    if e.WriterTake? {
      TimesHead(s.writerChan, h);
    } else {
      TimesAdd(s.applied, s.writer.h, h);
    }
  }

  lemma CallerStages(c: Config, s: State, e: Event, h: int)
    requires Enabled(c, s, e) && e.CallerPullErr?
    ensures Stages(After(c, s, e), h) == Stages(s, h)
  {
    TimesOut(s.stuck, e.i, h);
    TimesAdd(s.lost, s.stuck[e.i], h);
  }

  /** A step moves a height from one stage to the next and leaves every other height where it is. */
  lemma StagesStep(c: Config, s: State, e: Event, h: int)
    requires Enabled(c, s, e)
    ensures Stages(After(c, s, e), h) == Stages(s, h) + if e.Launch? && h == s.next then 1 else 0
  {
    if e.Launch? || e.PullSend? || e.PullFail? {
      PullStages(c, s, e, h);
    } else if e.WorkerTake? || e.WorkerSend? {
      WorkerStages(c, s, e, h);
    } else if e.WriterTake? || e.ApplyOk? {
      WriterStages(c, s, e, h);
    } else if e.CallerPullErr? {
      CallerStages(c, s, e, h);
    }
  }

  lemma ConservedStep(c: Config, s: State, e: Event)
    requires Orderly(c, s) && Conserved(c, s) && Enabled(c, s, e)
    ensures Conserved(c, After(c, s, e))
  {
    forall h ensures Stages(After(c, s, e), h) == if c.start <= h < After(c, s, e).next then 1 else 0 {
      StagesStep(c, s, e, h);
    }
  }

  lemma {:induction false} RunSafe(c: Config, ss: seq<State>, es: seq<Event>, i: nat)
    requires ValidConfig(c) && IsRun(c, ss, es) && i < |ss|
    ensures Orderly(c, ss[i]) && Conserved(c, ss[i])
  {
    if i > 0 {
      RunSafe(c, ss, es, i - 1);
      OrderlyStep(c, ss[i - 1], es[i - 1]);
      ConservedStep(c, ss[i - 1], es[i - 1]);
    }
  }

  /** In every interleaving: one stage per height, the pull limit kept, and no send on a closed channel. */
  lemma Safety(c: Config, ss: seq<State>, es: seq<Event>, i: nat)
    requires ValidConfig(c) && IsRun(c, ss, es) && i < |ss|
    ensures forall h :: Stages(ss[i], h) == if c.start <= h < ss[i].next then 1 else 0
    ensures InUse(ss[i]) <= c.pulls
    ensures i < |es| && es[i].PullSend? ==> !ss[i].newClosed
    ensures i < |es| && es[i].WorkerSend? ==> !ss[i].writerClosed
    ensures i < |es| && es[i].CloseNew? ==> !ss[i].newClosed
    ensures i < |es| && es[i].CloseWriter? ==> !ss[i].writerClosed
  {
    RunSafe(c, ss, es, i);
  }

  /** A nil return means every height from start to end was applied exactly once, and nothing else was. */
  lemma NilMeansAllApplied(c: Config, ss: seq<State>, es: seq<Event>, h: int)
    requires ValidConfig(c) && IsRun(c, ss, es) && ss[|es|].caller.ReturnedNil?
    ensures Times(ss[|es|].applied, h) == if c.start <= h <= c.end then 1 else 0
  {
    RunSafe(c, ss, es, |es|);
    var s := ss[|es|];
    assert Stages(s, h) == Times(s.applied, h);
  }

  // ---------- progress ----------

  predicate Failure(e: Event) {
    e.PullFail? || e.ApplyFail? || e.CallerPullErr? || e.CallerApplyErr?
  }

  predicate NoFailures(s: State) {
    s.stuck == [] && s.lost == [] && !s.writer.Failing? && !s.writer.Failed? && !s.caller.ReturnedErr?
  }

  function Left(c: Config, s: State): nat {
    if s.next <= c.end then c.end + 1 - s.next else 0
  }

  /** Steps still to take, at most. */
  function Measure(c: Config, s: State): nat {
    8 * Left(c, s) + 7 * |s.pulling| + 2 * |s.stuck| + 5 * |s.newChan| + 5 * |s.handling| + 3 * |s.writerChan|
    + s.releasing + s.idle
    + (match s.writer case Receiving => 1 case Applying(_) => 3 case Failing(_) => 1 case _ => 0)
    + (if s.newClosed then 0 else 1) + (if s.writerClosed then 0 else 1) + (if s.caller.Waiting? then 1 else 0)
  }

  predicate PullSide(e: Event) {
    e.Launch? || e.PullSend? || e.Release? || e.CloseNew?
  }

  lemma PullMeasure(c: Config, s: State, e: Event)
    requires Enabled(c, s, e) && PullSide(e)
    ensures Measure(c, After(c, s, e)) < Measure(c, s)
  {
  }

  lemma WorkerMeasure(c: Config, s: State, e: Event)
    requires Enabled(c, s, e) && (e.WorkerTake? || e.WorkerSend? || e.WorkerExit? || e.CloseWriter?)
    ensures Measure(c, After(c, s, e)) < Measure(c, s)
  {
  }

  lemma WriterMeasure(c: Config, s: State, e: Event)
    requires Enabled(c, s, e) && (e.WriterTake? || e.ApplyOk? || e.WriterExit? || e.CallerDone?)
    ensures Measure(c, After(c, s, e)) < Measure(c, s)
  {
  }

  lemma FailureMeasure(c: Config, s: State, e: Event)
    requires Enabled(c, s, e) && Failure(e)
    ensures Measure(c, After(c, s, e)) < Measure(c, s)
  {
  }

  lemma MeasureDrops(c: Config, s: State, e: Event)
    requires Enabled(c, s, e)
    ensures Measure(c, After(c, s, e)) < Measure(c, s)
    ensures NoFailures(s) && !Failure(e) ==> NoFailures(After(c, s, e))
  {
    if Failure(e) {
      FailureMeasure(c, s, e);
    } else if PullSide(e) {
      PullMeasure(c, s, e);
    } else if e.WorkerTake? || e.WorkerSend? || e.WorkerExit? || e.CloseWriter? {
      WorkerMeasure(c, s, e);
    } else {
      WriterMeasure(c, s, e);
    }
  }

  /** No deadlock: until the caller has returned, some goroutine can move, full channels or not. */
  lemma SomeStep(c: Config, s: State) returns (e: Event)
    requires ValidConfig(c) && Orderly(c, s) && NoFailures(s) && s.caller.Waiting?
    ensures Enabled(c, s, e) && !Failure(e)
  {
    if s.writer.Done? { return CallerDone; }
    if s.writer.Applying? { return ApplyOk; }
    if s.writerChan != [] { return WriterTake; }
    if s.writerClosed { return WriterExit; }
    if s.handling != [] { return WorkerSend(0); }
    if s.idle == 0 { return CloseWriter; }
    if s.newChan != [] { return WorkerTake; }
    if s.newClosed { return WorkerExit; }
    if s.pulling != [] { return PullSend(0); }
    if s.releasing > 0 { return Release; }
    e := if s.next <= c.end then Launch else CloseNew;
  }

  /** With errors too: an error that is ready is one the caller can take, and until it has returned something can
      move. */
  lemma SomeStepOrError(c: Config, s: State) returns (e: Event)
    requires ValidConfig(c) && Orderly(c, s) && s.caller.Waiting?
    ensures Enabled(c, s, e)
    ensures s.stuck != [] || s.writer.Failing? ==> After(c, s, e).caller.ReturnedErr?
  {
    if s.stuck != [] { return CallerPullErr(0); }
    if s.writer.Failing? { return CallerApplyErr; }
    e := SomeStep(c, s);
  }

  ghost predicate FailureFree(es: seq<Event>) {
    forall i :: 0 <= i < |es| ==> !Failure(es[i])
  }

  lemma {:induction false} MeasureAlong(c: Config, ss: seq<State>, es: seq<Event>, i: nat)
    requires IsRun(c, ss, es) && FailureFree(es) && i < |ss|
    ensures NoFailures(ss[i]) && Measure(c, ss[i]) + i <= Measure(c, Init(c))
  {
    if i > 0 {
      MeasureAlong(c, ss, es, i - 1);
      MeasureDrops(c, ss[i - 1], es[i - 1]);
    }
  }

  /** Without errors a sync is never stuck short of its return and cannot take more steps than its measure:
      it finishes, having applied every height once. */
  lemma SyncFinishes(c: Config, ss: seq<State>, es: seq<Event>)
    requires ValidConfig(c) && IsRun(c, ss, es) && FailureFree(es)
    ensures |es| <= Measure(c, Init(c))
    ensures (forall e :: Enabled(c, ss[|es|], e) ==> Failure(e)) ==>
      ss[|es|].caller.ReturnedNil? && forall h :: Times(ss[|es|].applied, h) == if c.start <= h <= c.end then 1 else 0
  {
    MeasureAlong(c, ss, es, |es|);
    RunSafe(c, ss, es, |es|);
    if forall e :: Enabled(c, ss[|es|], e) ==> Failure(e) {
      if ss[|es|].caller.Waiting? { var e := SomeStep(c, ss[|es|]); }
      forall h ensures Times(ss[|es|].applied, h) == if c.start <= h <= c.end then 1 else 0 {
        NilMeansAllApplied(c, ss, es, h);
      }
    }
  }

  lemma {:induction false} MeasureBounds(c: Config, ss: seq<State>, es: seq<Event>, i: nat)
    requires IsRun(c, ss, es) && i < |ss|
    ensures Measure(c, ss[i]) + i <= Measure(c, Init(c))
  {
    if i > 0 {
      MeasureBounds(c, ss, es, i - 1);
      MeasureDrops(c, ss[i - 1], es[i - 1]);
    }
  }

  /** With or without errors no run is longer than its measure, and one that cannot go on has returned. */
  lemma SyncReturns(c: Config, ss: seq<State>, es: seq<Event>)
    requires ValidConfig(c) && IsRun(c, ss, es)
    ensures |es| <= Measure(c, Init(c))
    ensures (forall e :: !Enabled(c, ss[|es|], e)) ==> !ss[|es|].caller.Waiting?
  {
    MeasureBounds(c, ss, es, |es|);
    RunSafe(c, ss, es, |es|);
    if ss[|es|].caller.Waiting? { var e := SomeStepOrError(c, ss[|es|]); }
  }

  /** Every failure-free run can be run on to the nil return. */
  lemma {:induction false} FinishFrom(c: Config, ss: seq<State>, es: seq<Event>)
    returns (ss': seq<State>, es': seq<Event>)
    requires ValidConfig(c) && IsRun(c, ss, es) && FailureFree(es)
    ensures IsRun(c, ss', es') && FailureFree(es') && ss'[|es'|].caller.ReturnedNil?
    decreases Measure(c, ss[|es|])
  {
    ss', es' := ss, es;
    MeasureAlong(c, ss, es, |es|);
    RunSafe(c, ss, es, |es|);
    if ss[|es|].caller.Waiting? {
      var e := SomeStep(c, ss[|es|]);
      MeasureDrops(c, ss[|es|], e);
      ss', es' := FinishFrom(c, ss + [After(c, ss[|es|], e)], es + [e]);
    }
  }

  /** So a sync of any range can return nil. */
  lemma SyncCanFinish(c: Config) returns (ss: seq<State>, es: seq<Event>)
    requires ValidConfig(c)
    ensures IsRun(c, ss, es) && FailureFree(es) && ss[|es|].caller.ReturnedNil?
  {
    ss, es := FinishFrom(c, [Init(c)], []);
  }
}
