/** The disk fill-up work: coroutines that share two flags and a counter.

    A timer task, a task that floods logs, one that watches the search cluster
    and one for each node run under one gather.  They interleave only where they
    await, so the state names the task that is running, if any, and only that
    task moves until it awaits.  What the tasks read (disk usages, the clock,
    whether an outside call fails) is input.  The log records what was read and
    seen, in order, and the results are about the log of every run. */
module DiskFillup {
  import opened Wrappers

  const TIMER_START_THRESHOLD := 60
  const TIMER_TIMEOUT_MINUTES := 30
  const ELASTIC_DISK_THRESHOLD_CHECK := 99
  const NODE_DISK_THRESHOLD_CHECK := 99
  const MAX_THRESHOLD_COUNT := 15
  const RECHECKS := 5

  datatype Kind = Timer | ColdLog | Elastic | Node

  /** Where a task stands.  Scanning and Rechecking keep the usages of the last
      disk listing, the line reached and the highest usage seen; Rechecking also
      the number of readings that exceeded the threshold so far. */
  datatype Pc =
    | Begin
    | Waiting(until: int)
    | Asleep
    | Scanning(usages: seq<nat>, line: nat, highest: nat)
    | Rechecking(usages: seq<nat>, line: nat, highest: nat, exceeded: nat)
    | Done
    | Failed

  datatype Event =
    | ClusterRead(usage: nat)
    | DiskRead(p: nat, usage: nat)
    | CounterPassed(p: nat, count: nat)
    | Reread(p: nat, usage: nat)
    | FillupRaised(p: nat)
    | TimerSaw(now: int)
    | TimerFired(now: int)

  datatype Outcome = Running | Returned | RaisedFillup | RaisedOther

  datatype State = State(
    kinds: seq<Kind>, pcs: seq<Pc>, active: Option<nat>,
    completed: bool, triggered: bool, counter: nat,
    log: seq<Event>, outcome: Outcome)

  /** The inputs of one step: two readings of the clock, disk usages (of the
      cluster, of a listing, of one disk), whether an outside call fails, and
      whether the next usage to look at is no number. */
  datatype Input = Input(now: int, later: int, usages: seq<nat>, usage: nat, fails: bool, garbled: bool)

  ghost predicate Init(s: State) {
    && |s.kinds| >= 3 && s.kinds[0] == Timer && s.kinds[1] == ColdLog && s.kinds[2] == Elastic
    && (forall p | 3 <= p < |s.kinds| :: s.kinds[p] == Node)
    && s.pcs == seq(|s.kinds|, _ => Begin)
    && s.active == None && !s.completed && !s.triggered && s.counter == 0
    && s.log == [] && s.outcome == Running
  }

  // ---------------------------------------------------------------------------
  // The tasks
  // ---------------------------------------------------------------------------

  /** Task p awaits at the given place (or ends there). */
  function Await(s: State, p: nat, pc: Pc): State
    requires p < |s.pcs|
  {
    s.(pcs := s.pcs[p := pc], active := None)
  }

  /** Task p goes on without awaiting. */
  function GoOn(s: State, p: nat, pc: Pc): State
    requires p < |s.pcs|
  {
    s.(pcs := s.pcs[p := pc], active := Some(p))
  }

  function Log(s: State, e: Event): State {
    s.(log := s.log + [e])
  }

  /** An exception leaves a task and, through gather, ends the work. */
  function Raise(s: State, p: nat, outcome: Outcome): State
    requires p < |s.pcs|
  {
    Await(s, p, Failed).(outcome := outcome)
  }

  /** The end of the timer task's loop body. */
  function TimerChecks(s: State, p: nat): State
    requires p < |s.pcs|
  {
    Await(s, p, if s.completed then Done else Asleep)
  }

  /** The inner loop's body: fires, or awaits again. */
  function TimerWaits(s: State, p: nat, until: int, now: int): State
    requires p < |s.pcs|
  {
    if until <= now then TimerChecks(Log(s, TimerFired(now)).(completed := true), p)
    else Await(s, p, Waiting(until))
  }

  function TimerStep(s: State, p: nat, i: Input): State
    requires p < |s.pcs|
  {
    match s.pcs[p]
    case Waiting(until) => TimerWaits(s, p, until, i.now)
    case _ =>
      if s.triggered then TimerWaits(Log(s, TimerSaw(i.now)), p, i.now + TIMER_TIMEOUT_MINUTES, i.later)
      else TimerChecks(s, p)
  }

  function ColdLogStep(s: State, p: nat, i: Input): State
    requires p < |s.pcs|
  {
    if s.pcs[p] == Asleep && s.completed then Await(s, p, Done)
    else if i.fails then Raise(s, p, RaisedOther)
    else Await(s, p, Asleep)
  }

  /** Goes through the cluster's usages from the n-th on; a transport error is
      caught, so it only cuts the list short, but one that is no number after
      them raises. */
  function ClusterScan(s: State, p: nat, usages: seq<nat>, garbled: bool, n: nat): State
    requires p < |s.pcs| && n <= |usages|
    decreases |usages| - n
  {
    if n == |usages| then if garbled then Raise(s, p, RaisedOther) else Await(s, p, Asleep)
    else
      var usage := usages[n];
      var s' := Log(s, ClusterRead(usage)).(triggered := s.triggered || usage >= TIMER_START_THRESHOLD);
      if usage > ELASTIC_DISK_THRESHOLD_CHECK then Raise(s', p, RaisedOther)
      else ClusterScan(s', p, usages, garbled, n + 1)
  }

  function ElasticStep(s: State, p: nat, i: Input): State
    requires p < |s.pcs|
  {
    if s.pcs[p] == Asleep && s.completed then Await(s, p, Done)
    else if i.fails && s.pcs[p] == Begin then Raise(s, p, RaisedOther)
    else ClusterScan(s, p, i.usages, i.garbled, 0)
  }

  /** One line of the disk listing. */
  function ScanLine(s: State, p: nat, usages: seq<nat>, line: nat, highest: nat): State
    requires p < |s.pcs| && line < |usages|
  {
    var usage := usages[line];
    var highest' := if usage > highest then usage else highest;
    var s' := Log(s, DiskRead(p, usage)).(
      triggered := s.triggered || usage >= TIMER_START_THRESHOLD,
      counter := s.counter + if usage > NODE_DISK_THRESHOLD_CHECK then 1 else 0);
    if s'.counter > MAX_THRESHOLD_COUNT then
      GoOn(Log(s', CounterPassed(p, s'.counter)), p, Rechecking(usages, line, highest', 0))
    else
      GoOn(s', p, Scanning(usages, line + 1, highest'))
  }

  /** One round of the recheck, or its end. */
  function Recheck(s: State, p: nat, pc: Pc, i: Input): State
    requires p < |s.pcs| && pc.Rechecking?
  {
    if pc.exceeded < RECHECKS then
      if i.fails then Raise(s, p, RaisedOther)
      else
        var s' := Log(s, Reread(p, i.usage));
        if i.usage > NODE_DISK_THRESHOLD_CHECK then Await(s', p, pc.(exceeded := pc.exceeded + 1))
        else GoOn(s'.(counter := 0), p, Scanning(pc.usages, pc.line + 1, pc.highest))
    else
      var s' := s.(completed := true);
      if i.fails then Raise(s', p, RaisedOther)
      else Raise(Log(s', FillupRaised(p)), p, RaisedFillup)
  }

  function NodeStep(s: State, p: nat, i: Input): State
    requires p < |s.pcs|
  {
    match s.pcs[p]
    case Scanning(usages, line, highest) =>
      if line < |usages| then if i.garbled then Raise(s, p, RaisedOther) else ScanLine(s, p, usages, line, highest)
      // With no usage above zero the message about the highest one cannot be built.
      else if highest == 0 then Raise(s, p, RaisedOther)
      else Await(s, p, Asleep)
    case Rechecking(_, _, _, _) => Recheck(s, p, s.pcs[p], i)
    case _ =>
      if s.pcs[p] == Asleep && s.completed then Await(s, p, Done)
      else if i.fails then Raise(s, p, RaisedOther)
      else GoOn(s, p, Scanning(i.usages, 0, 0))
  }

  predicate CanStep(s: State, p: nat) {
    && s.outcome == Running && |s.pcs| == |s.kinds| && p < |s.pcs|
    && !s.pcs[p].Done? && !s.pcs[p].Failed?
    && (s.active.Some? ==> s.active.value == p)
  }

  function TaskStep(s: State, p: nat, i: Input): State
    requires CanStep(s, p)
  {
    match s.kinds[p]
    case Timer => TimerStep(s, p, i)
    case ColdLog => ColdLogStep(s, p, i)
    case Elastic => ElasticStep(s, p, i)
    case Node => NodeStep(s, p, i)
  }

  /** One move of one task.  The work returns when its last task has ended. */
  function Step(s: State, p: nat, i: Input): State {
    if !CanStep(s, p) then s
    else
      var s' := TaskStep(s, p, i);
      var over := forall q | 0 <= q < |s'.pcs| :: s'.pcs[q] == Done;
      if s'.outcome == Running && over then s'.(outcome := Returned) else s'
  }

  function Run(s: State, moves: seq<(nat, Input)>, n: nat): State
    requires n <= |moves|
  {
    if n == 0 then s else Step(Run(s, moves, n - 1), moves[n - 1].0, moves[n - 1].1)
  }

  // ---------------------------------------------------------------------------
  // Flags
  // ---------------------------------------------------------------------------

  /** A disk reading that reached the start threshold. */
  ghost predicate IsHigh(e: Event) {
    (e.ClusterRead? || e.DiskRead?) && e.usage >= TIMER_START_THRESHOLD
  }

  /** What every step of a task other than the timer does: it moves its own
      program counter only, adds to the log, raises the trigger flag only with a
      high reading, ends only when the work is complete, and completes the work
      only when it raises. */
  ghost predicate Harmless(s: State, s': State, p: nat) {
    && p < |s.pcs| && |s'.pcs| == |s.pcs| && s'.pcs == s.pcs[p := s'.pcs[p]] && s'.kinds == s.kinds
    && !s'.pcs[p].Waiting? && (s'.pcs[p] == Done ==> s.completed)
    && s.log <= s'.log
    && (s.triggered ==> s'.triggered)
    && (s'.triggered && !s.triggered ==> exists k | 0 <= k < |s'.log| :: IsHigh(s'.log[k]))
    && (s.completed ==> s'.completed)
    && (s'.completed && !s.completed ==> s'.outcome == RaisedFillup || s'.outcome == RaisedOther)
    && (s'.outcome == s.outcome || s'.outcome == RaisedFillup || s'.outcome == RaisedOther)
  }

  lemma {:induction false} ClusterScanIsHarmless(s: State, p: nat, usages: seq<nat>, garbled: bool, n: nat)
    requires p < |s.pcs| && n <= |usages|
    ensures Harmless(s, ClusterScan(s, p, usages, garbled, n), p)
    decreases |usages| - n
  {
    if n < |usages| {
      var usage := usages[n];
      var s' := Log(s, ClusterRead(usage)).(triggered := s.triggered || usage >= TIMER_START_THRESHOLD);
      assert s'.log[|s.log|] == ClusterRead(usage);
      if usage <= ELASTIC_DISK_THRESHOLD_CHECK {
        ClusterScanIsHarmless(s', p, usages, garbled, n + 1);
        var end := ClusterScan(s', p, usages, garbled, n + 1);
        assert end.log[|s.log|] == ClusterRead(usage);
      }
    }
  }

  lemma ScanLineIsHarmless(s: State, p: nat, usages: seq<nat>, line: nat, highest: nat)
    requires p < |s.pcs| && line < |usages|
    ensures Harmless(s, ScanLine(s, p, usages, line, highest), p)
  {
    assert ScanLine(s, p, usages, line, highest).log[|s.log|] == DiskRead(p, usages[line]);
  }

  lemma RecheckIsHarmless(s: State, p: nat, pc: Pc, i: Input)
    requires p < |s.pcs| && pc.Rechecking?
    ensures Harmless(s, Recheck(s, p, pc, i), p)
  {
  }

  lemma NodeStepIsHarmless(s: State, p: nat, i: Input)
    requires CanStep(s, p)
    ensures Harmless(s, NodeStep(s, p, i), p)
  {
    match s.pcs[p]
    case Scanning(usages, line, highest) =>
      if line < |usages| {
        ScanLineIsHarmless(s, p, usages, line, highest);
      }
    case Rechecking(_, _, _, _) => RecheckIsHarmless(s, p, s.pcs[p], i);
    case _ =>
  }

  lemma OthersAreHarmless(s: State, p: nat, i: Input)
    requires CanStep(s, p) && s.kinds[p] != Timer
    ensures Harmless(s, TaskStep(s, p, i), p)
  {
    match s.kinds[p]
    case ColdLog =>
    case Elastic => ClusterScanIsHarmless(s, p, i.usages, i.garbled, 0);
    case Node => NodeStepIsHarmless(s, p, i);
  }

  lemma TimerOnlyRises(s: State, p: nat, i: Input)
    requires CanStep(s, p)
    ensures var s' := TimerStep(s, p, i);
            (s.completed ==> s'.completed) && s.triggered == s'.triggered && s.log <= s'.log
  {
  }

  /** Both flags only ever go from false to true, and the log only grows. */
  lemma FlagsOnlyRise(s: State, p: nat, i: Input)
    ensures var s' := Step(s, p, i);
            (s.completed ==> s'.completed) && (s.triggered ==> s'.triggered) && s.log <= s'.log
  {
    if CanStep(s, p) {
      if s.kinds[p] == Timer { TimerOnlyRises(s, p, i); } else { OthersAreHarmless(s, p, i); }
    }
  }

  // ---------------------------------------------------------------------------
  // The work passes only by the timer
  // ---------------------------------------------------------------------------

  ghost predicate SeenHigh(log: seq<Event>, n: nat)
    requires n <= |log|
  {
    exists k | 0 <= k < n :: IsHigh(log[k])
  }

  /** The timer saw the flag at a time t, after a high reading. */
  ghost predicate SawAt(log: seq<Event>, n: nat, t: int)
    requires n <= |log|
  {
    exists k | 0 <= k < n :: log[k] == TimerSaw(t) && SeenHigh(log, k)
  }

  /** The timer fired at a time at least the timeout after it had seen the flag. */
  ghost predicate FiredInTime(log: seq<Event>, n: nat)
    requires n <= |log|
  {
    exists k, t | 0 <= k < n && log[k].TimerFired? :: t + TIMER_TIMEOUT_MINUTES <= log[k].now && SawAt(log, k, t)
  }

  ghost predicate TimerInv(s: State) {
    && |s.pcs| == |s.kinds| > 0
    && (s.triggered ==> SeenHigh(s.log, |s.log|))
    && (forall p | 0 <= p < |s.pcs| && s.pcs[p].Waiting? ::
          SawAt(s.log, |s.log|, s.pcs[p].until - TIMER_TIMEOUT_MINUTES))
    && (s.completed ==> FiredInTime(s.log, |s.log|) || s.outcome == RaisedFillup || s.outcome == RaisedOther)
    && ((exists p | 0 <= p < |s.pcs| :: s.pcs[p] == Done) ==> s.completed)
    && (s.outcome == Returned ==> s.completed)
  }

  /** What the log says stays said when it grows. */
  lemma LogGrows(log: seq<Event>, more: seq<Event>)
    requires log <= more
    ensures SeenHigh(log, |log|) ==> SeenHigh(more, |more|)
    ensures forall t | SawAt(log, |log|, t) :: SawAt(more, |more|, t)
    ensures FiredInTime(log, |log|) ==> FiredInTime(more, |more|)
  {
    forall k, t | 0 <= k <= |log| && SawAt(log, k, t)
      ensures SawAt(more, k, t)
    {
      var j :| 0 <= j < k && log[j] == TimerSaw(t) && SeenHigh(log, j);
      assert SeenHigh(more, j);
      assert more[j] == TimerSaw(t);
    }
    forall t | SawAt(log, |log|, t)
      ensures SawAt(more, |more|, t)
    {
      var j :| 0 <= j < |log| && log[j] == TimerSaw(t) && SeenHigh(log, j);
      assert SeenHigh(more, j) && more[j] == TimerSaw(t);
    }
    if FiredInTime(log, |log|) {
      var k, t :| 0 <= k < |log| && log[k].TimerFired? && t + TIMER_TIMEOUT_MINUTES <= log[k].now && SawAt(log, k, t);
      assert more[k] == log[k] && SawAt(more, k, t);
    }
  }

  lemma SawNow(log: seq<Event>, t: int)
    requires SeenHigh(log, |log|)
    ensures SawAt(log + [TimerSaw(t)], |log| + 1, t)
  {
    var more := log + [TimerSaw(t)];
    var k :| 0 <= k < |log| && IsHigh(log[k]);
    assert more[k] == log[k] && SeenHigh(more, |log|) && more[|log|] == TimerSaw(t);
  }

  lemma FiredNow(log: seq<Event>, t: int, now: int)
    requires SawAt(log, |log|, t) && t + TIMER_TIMEOUT_MINUTES <= now
    ensures FiredInTime(log + [TimerFired(now)], |log| + 1)
  {
    var more := log + [TimerFired(now)];
    var j :| 0 <= j < |log| && log[j] == TimerSaw(t) && SeenHigh(log, j);
    var k :| 0 <= k < j && IsHigh(log[k]);
    assert more[k] == log[k] && more[j] == TimerSaw(t) && SeenHigh(more, j);
    assert more[|log|] == TimerFired(now) && SawAt(more, |log|, t);
  }

  lemma TimerLogKeeps(s: State, e: Event)
    requires TimerInv(s)
    ensures TimerInv(Log(s, e))
  {
    LogGrows(s.log, s.log + [e]);
  }

  lemma FiringKeeps(s: State, until: int, now: int)
    requires TimerInv(s) && SawAt(s.log, |s.log|, until - TIMER_TIMEOUT_MINUTES) && until <= now
    ensures TimerInv(Log(s, TimerFired(now)).(completed := true))
  {
    TimerLogKeeps(s, TimerFired(now));
    FiredNow(s.log, until - TIMER_TIMEOUT_MINUTES, now);
  }

  /** The timer's wait keeps the invariant, whether it fires or not. */
  lemma TimerWaitsKeeps(s: State, p: nat, until: int, now: int)
    requires TimerInv(s) && p < |s.pcs| && s.outcome == Running
    requires SawAt(s.log, |s.log|, until - TIMER_TIMEOUT_MINUTES)
    ensures TimerInv(TimerWaits(s, p, until, now))
  {
    if until <= now {
      FiringKeeps(s, until, now);
    }
  }

  lemma TimerStepKeeps(s: State, p: nat, i: Input)
    requires TimerInv(s) && CanStep(s, p)
    ensures TimerInv(TimerStep(s, p, i))
  {
    if s.pcs[p].Waiting? {
      TimerWaitsKeeps(s, p, s.pcs[p].until, i.now);
    } else if s.triggered {
      TimerLogKeeps(s, TimerSaw(i.now));
      SawNow(s.log, i.now);
      TimerWaitsKeeps(Log(s, TimerSaw(i.now)), p, i.now + TIMER_TIMEOUT_MINUTES, i.later);
    }
  }

  /** The other tasks keep the invariant, because they are harmless. */
  lemma HarmlessKeeps(s: State, s': State, p: nat)
    requires TimerInv(s) && Harmless(s, s', p)
    ensures TimerInv(s')
  {
    LogGrows(s.log, s'.log);
    forall q | 0 <= q < |s'.pcs| && s'.pcs[q].Waiting?
      ensures SawAt(s'.log, |s'.log|, s'.pcs[q].until - TIMER_TIMEOUT_MINUTES)
    {
      assert s.pcs[q] == s'.pcs[q];
    }
    if q :| 0 <= q < |s'.pcs| && s'.pcs[q] == Done {
      assert q != p ==> s.pcs[q] == Done;
    }
  }

  lemma TimerInvInitially(s: State)
    requires Init(s)
    ensures TimerInv(s)
  {
    assert s.pcs[0] == Begin;
  }

  lemma StepKeepsTimerInv(s: State, p: nat, i: Input)
    requires TimerInv(s) && CanStep(s, p)
    ensures TimerInv(TaskStep(s, p, i))
  {
    if s.kinds[p] == Timer {
      TimerStepKeeps(s, p, i);
    } else {
      OthersAreHarmless(s, p, i);
      HarmlessKeeps(s, TaskStep(s, p, i), p);
    }
  }

  lemma {:induction false} RunsKeepTimerInv(s: State, moves: seq<(nat, Input)>, n: nat)
    requires Init(s) && n <= |moves|
    ensures TimerInv(Run(s, moves, n))
  {
    if n == 0 {
      TimerInvInitially(s);
    } else {
      RunsKeepTimerInv(s, moves, n - 1);
      var now, p, i := Run(s, moves, n - 1), moves[n - 1].0, moves[n - 1].1;
      if CanStep(now, p) {
        StepKeepsTimerInv(now, p, i);
        var s' := TaskStep(now, p, i);
        assert |s'.pcs| > 0;
        assert (forall q | 0 <= q < |s'.pcs| :: s'.pcs[q] == Done) ==> s'.pcs[0] == Done;
      }
    }
  }

  /** In every interleaving, the work ends without an exception only if a disk
      reading reached the start threshold, the timer saw that afterwards, and a
      later reading of the clock was past the whole timeout. */
  lemma ReturnsOnlyAfterTimeout(s: State, moves: seq<(nat, Input)>)
    requires Init(s) && Run(s, moves, |moves|).outcome == Returned
    ensures var log := Run(s, moves, |moves|).log;
            exists i, j, k | 0 <= i < j < k < |log| ::
              && (log[i].ClusterRead? || log[i].DiskRead?) && log[i].usage >= 60
              && log[j].TimerSaw? && log[k].TimerFired? && log[j].now + 30 <= log[k].now
  {
    RunsKeepTimerInv(s, moves, |moves|);
    var log := Run(s, moves, |moves|).log;
    var k, t :| 0 <= k < |log| && log[k].TimerFired? && t + TIMER_TIMEOUT_MINUTES <= log[k].now && SawAt(log, k, t);
    var j :| 0 <= j < k && log[j] == TimerSaw(t) && SeenHigh(log, j);
    var i :| 0 <= i < j && IsHigh(log[i]);
    assert IsHigh(log[i]) && log[j].TimerSaw? && log[k].TimerFired?;
  }

  // ---------------------------------------------------------------------------
  // The disk exception
  // ---------------------------------------------------------------------------

  /** What the log says of one node's task, among the first n entries. */
  ghost function Of(log: seq<Event>, n: nat, p: nat): seq<Event>
    requires n <= |log|
  {
    if n == 0 then []
    else Of(log, n - 1, p) + if IsOf(log[n - 1], p) then [log[n - 1]] else []
  }

  ghost predicate IsOf(e: Event, p: nat) {
    (e.DiskRead? || e.CounterPassed? || e.Reread? || e.FillupRaised?) && e.p == p
  }

  /** The task's own entries end with the counter passing its limit and then x
      readings in a row that exceed the disk threshold. */
  ghost predicate Exceeded(own: seq<Event>, x: nat) {
    if |own| == 0 then false
    else
      var last := own[|own| - 1];
      if x == 0 then last.CounterPassed? && last.count > 15
      else last.Reread? && last.usage > 99 && Exceeded(own[..|own| - 1], x - 1)
  }

  /** The readings above the disk threshold since the last one, on a recheck,
      that was not. */
  ghost function SinceReset(log: seq<Event>, n: nat): nat
    requires n <= |log|
  {
    if n == 0 then 0
    else
      match log[n - 1]
      case DiskRead(_, usage) => SinceReset(log, n - 1) + if usage > 99 then 1 else 0
      case Reread(_, usage) => if usage > 99 then SinceReset(log, n - 1) else 0
      case _ => SinceReset(log, n - 1)
  }

  /** What is true of each entry when it is made. */
  ghost predicate EntryOk(log: seq<Event>, k: nat)
    requires k < |log|
  {
    match log[k]
    case FillupRaised(p) => Exceeded(Of(log, k, p), RECHECKS)
    case CounterPassed(p, count) => count == SinceReset(log, k) && count > MAX_THRESHOLD_COUNT
    case _ => true
  }

  /** A task in a recheck has found what it says it has found. */
  ghost predicate PcOk(log: seq<Event>, pc: Pc, p: nat) {
    pc.Rechecking? ==> pc.exceeded <= RECHECKS && Exceeded(Of(log, |log|, p), pc.exceeded)
  }

  ghost predicate FillupInv(s: State) {
    && |s.pcs| == |s.kinds|
    && (forall k | 0 <= k < |s.log| :: EntryOk(s.log, k))
    && s.counter == SinceReset(s.log, |s.log|)
    && (forall p | 0 <= p < |s.pcs| :: PcOk(s.log, s.pcs[p], p))
    && (s.outcome == RaisedFillup ==> |s.log| > 0 && s.log[|s.log| - 1].FillupRaised?)
  }

  lemma {:induction false} PrefixSaysTheSame(log: seq<Event>, more: seq<Event>, n: nat, p: nat)
    requires log <= more && n <= |log|
    ensures Of(log, n, p) == Of(more, n, p) && SinceReset(log, n) == SinceReset(more, n)
  {
    if n > 0 {
      PrefixSaysTheSame(log, more, n - 1, p);
    }
  }

  lemma {:induction false} EntriesStayOk(log: seq<Event>, e: Event, k: nat)
    requires k < |log| && EntryOk(log, k)
    ensures EntryOk(log + [e], k)
  {
    PrefixSaysTheSame(log, log + [e], k, if log[k].FillupRaised? || log[k].CounterPassed? then log[k].p else 0);
  }

  lemma {:induction false} OfOneMore(log: seq<Event>, e: Event, q: nat)
    ensures Of(log + [e], |log| + 1, q) == if IsOf(e, q) then Of(log, |log|, q) + [e] else Of(log, |log|, q)
  {
    var more, own := log + [e], Of(log, |log|, q);
    PrefixSaysTheSame(log, more, |log|, q);
    assert more[|log|] == e;
    assert Of(more, |log| + 1, q) == own + if IsOf(e, q) then [e] else [];
    assert own + [] == own;
  }

  lemma {:induction false} PcStaysOk(log: seq<Event>, e: Event, pc: Pc, q: nat)
    requires !IsOf(e, q) && PcOk(log, pc, q)
    ensures PcOk(log + [e], pc, q)
  {
    OfOneMore(log, e, q);
  }

  lemma {:induction false} AllEntriesOk(log: seq<Event>, e: Event)
    requires forall k | 0 <= k < |log| :: EntryOk(log, k)
    requires EntryOk(log + [e], |log|)
    ensures forall k | 0 <= k < |log + [e]| :: EntryOk(log + [e], k)
  {
    forall k | 0 <= k < |log| {
      EntriesStayOk(log, e, k);
    }
  }

  /** One more entry: the old ones stay as they are, the counter is the number of
      readings since the last reset, and the other tasks' entries are untouched. */
  lemma {:induction false} OneMoreEntry(log: seq<Event>, e: Event)
    requires forall k | 0 <= k < |log| :: EntryOk(log, k)
    requires EntryOk(log + [e], |log|)
    ensures var more := log + [e];
            && (forall k | 0 <= k < |more| :: EntryOk(more, k))
            && (forall q: nat | IsOf(e, q) :: Of(more, |more|, q) == Of(log, |log|, q) + [e])
            && (forall pc, q: nat | !IsOf(e, q) && PcOk(log, pc, q) :: PcOk(more, pc, q))
            && SinceReset(more, |log|) == SinceReset(log, |log|)
  {
    AllEntriesOk(log, e);
    forall q: nat | IsOf(e, q)
      ensures Of(log + [e], |log| + 1, q) == Of(log, |log|, q) + [e]
    {
      OfOneMore(log, e, q);
    }
    forall pc: Pc, q: nat | !IsOf(e, q) && PcOk(log, pc, q)
      ensures PcOk(log + [e], pc, q)
    {
      PcStaysOk(log, e, pc, q);
    }
    PrefixSaysTheSame(log, log + [e], |log|, 0);
  }

  /** An entry that is no node's keeps the invariant. */
  lemma ForeignEntryKeeps(s: State, e: Event)
    requires FillupInv(s) && (e.ClusterRead? || e.TimerSaw? || e.TimerFired?) && s.outcome == Running
    ensures FillupInv(Log(s, e))
  {
    OneMoreEntry(s.log, e);
  }

  lemma {:induction false} ClusterScanKeepsFillup(s: State, p: nat, usages: seq<nat>, garbled: bool, n: nat)
    requires FillupInv(s) && p < |s.pcs| && n <= |usages| && s.outcome == Running
    ensures FillupInv(ClusterScan(s, p, usages, garbled, n))
    decreases |usages| - n
  {
    if n < |usages| {
      var usage := usages[n];
      ForeignEntryKeeps(s, ClusterRead(usage));
      var s' := Log(s, ClusterRead(usage)).(triggered := s.triggered || usage >= TIMER_START_THRESHOLD);
      if usage <= ELASTIC_DISK_THRESHOLD_CHECK {
        ClusterScanKeepsFillup(s', p, usages, garbled, n + 1);
      }
    }
  }

  lemma TimerKeepsFillup(s: State, p: nat, i: Input)
    requires FillupInv(s) && CanStep(s, p)
    ensures FillupInv(TimerStep(s, p, i))
  {
    if s.pcs[p].Waiting? {
      ForeignEntryKeeps(s, TimerFired(i.now));
    } else if s.triggered {
      ForeignEntryKeeps(s, TimerSaw(i.now));
      ForeignEntryKeeps(Log(s, TimerSaw(i.now)), TimerFired(i.later));
    }
  }

  /** A reading: the counter goes on agreeing with the log. */
  lemma DiskReadKeepsFillup(s: State, p: nat, usage: nat)
    requires FillupInv(s) && p < |s.pcs| && s.outcome == Running && s.pcs[p].Scanning?
    ensures FillupInv(Log(s, DiskRead(p, usage)).(
              triggered := s.triggered || usage >= TIMER_START_THRESHOLD,
              counter := s.counter + if usage > NODE_DISK_THRESHOLD_CHECK then 1 else 0))
  {
    OneMoreEntry(s.log, DiskRead(p, usage));
  }

  lemma NextLineKeepsFillup(s: State, p: nat, pc: Pc)
    requires FillupInv(s) && p < |s.pcs| && pc.Scanning?
    ensures FillupInv(GoOn(s, p, pc))
  {
  }

  /** A counter past its limit: the task that finds it so goes to its recheck. */
  lemma CounterPassedKeepsFillup(s: State, p: nat, pc: Pc)
    requires FillupInv(s) && p < |s.pcs| && s.outcome == Running && s.counter > MAX_THRESHOLD_COUNT
    requires s.pcs[p].Scanning? && pc.Rechecking? && pc.exceeded == 0
    ensures FillupInv(GoOn(Log(s, CounterPassed(p, s.counter)), p, pc))
  {
    var e := CounterPassed(p, s.counter);
    PrefixSaysTheSame(s.log, s.log + [e], |s.log|, p);
    OneMoreEntry(s.log, e);
  }

  lemma ScanLineKeepsFillup(s: State, p: nat, usages: seq<nat>, line: nat, highest: nat)
    requires FillupInv(s) && p < |s.pcs| && line < |usages| && s.outcome == Running && s.pcs[p].Scanning?
    ensures FillupInv(ScanLine(s, p, usages, line, highest))
  {
    var usage := usages[line];
    var highest' := if usage > highest then usage else highest;
    var s' := Log(s, DiskRead(p, usage)).(
      triggered := s.triggered || usage >= TIMER_START_THRESHOLD,
      counter := s.counter + if usage > NODE_DISK_THRESHOLD_CHECK then 1 else 0);
    assert FillupInv(s') by { DiskReadKeepsFillup(s, p, usage); }
    if s'.counter > MAX_THRESHOLD_COUNT {
      CounterPassedKeepsFillup(s', p, Rechecking(usages, line, highest', 0));
    } else {
      NextLineKeepsFillup(s', p, Scanning(usages, line + 1, highest'));
    }
  }

  lemma RereadKeepsFillup(s: State, p: nat, i: Input)
    requires FillupInv(s) && CanStep(s, p) && s.pcs[p].Rechecking? && s.pcs[p].exceeded < RECHECKS
    ensures FillupInv(Recheck(s, p, s.pcs[p], i))
  {
    var own := Of(s.log, |s.log|, p);
    OneMoreEntry(s.log, Reread(p, i.usage));
    assert (own + [Reread(p, i.usage)])[..|own|] == own;
  }

  lemma RaiseKeepsFillup(s: State, p: nat, i: Input)
    requires FillupInv(s) && CanStep(s, p) && s.pcs[p].Rechecking? && s.pcs[p].exceeded == RECHECKS
    ensures FillupInv(Recheck(s, p, s.pcs[p], i))
  {
    PrefixSaysTheSame(s.log, s.log + [FillupRaised(p)], |s.log|, p);
    OneMoreEntry(s.log, FillupRaised(p));
  }

  lemma NodeKeepsFillup(s: State, p: nat, i: Input)
    requires FillupInv(s) && CanStep(s, p)
    ensures FillupInv(NodeStep(s, p, i))
  {
    match s.pcs[p]
    case Scanning(usages, line, highest) =>
      if line < |usages| {
        ScanLineKeepsFillup(s, p, usages, line, highest);
      }
    case Rechecking(_, _, _, exceeded) =>
      if exceeded < RECHECKS { RereadKeepsFillup(s, p, i); } else { RaiseKeepsFillup(s, p, i); }
    case _ =>
  }

  lemma TaskKeepsFillup(s: State, p: nat, i: Input)
    requires FillupInv(s) && CanStep(s, p)
    ensures FillupInv(TaskStep(s, p, i))
  {
    match s.kinds[p]
    case Timer => TimerKeepsFillup(s, p, i);
    case ColdLog =>
    case Elastic => ClusterScanKeepsFillup(s, p, i.usages, i.garbled, 0);
    case Node => NodeKeepsFillup(s, p, i);
  }

  lemma StepKeepsFillup(s: State, p: nat, i: Input)
    requires FillupInv(s)
    ensures FillupInv(Step(s, p, i))
  {
    if CanStep(s, p) {
      TaskKeepsFillup(s, p, i);
      assert Step(s, p, i) in {TaskStep(s, p, i), TaskStep(s, p, i).(outcome := Returned)};
    }
  }

  lemma {:induction false} RunsKeepFillup(s: State, moves: seq<(nat, Input)>, n: nat)
    requires Init(s) && n <= |moves|
    ensures FillupInv(Run(s, moves, n))
  {
    if n > 0 {
      RunsKeepFillup(s, moves, n - 1);
      StepKeepsFillup(Run(s, moves, n - 1), moves[n - 1].0, moves[n - 1].1);
    }
  }

  /** In every interleaving, the disk exception is raised only by a task whose own
      last six readings and findings were: the shared counter past its limit,
      then five rereads in a row above the threshold. */
  lemma FillupOnlyAfterFiveRereads(s: State, moves: seq<(nat, Input)>) returns (p: nat, n: nat)
    requires Init(s) && Run(s, moves, |moves|).outcome == RaisedFillup
    ensures var log := Run(s, moves, |moves|).log;
            n < |log| && log[n] == FillupRaised(p) && Exceeded(Of(log, n, p), 5)
  {
    RunsKeepFillup(s, moves, |moves|);
    var log := Run(s, moves, |moves|).log;
    n := |log| - 1;
    p := log[n].p;
    assert EntryOk(log, n);
  }

  /** And when the counter is found past its limit, more than that many disk
      readings were above the threshold since a recheck last found one that was
      not: no reading is counted twice or lost between tasks. */
  lemma CounterIsReadingsSinceReset(s: State, moves: seq<(nat, Input)>, k: nat)
    requires Init(s) && k < |Run(s, moves, |moves|).log| && Run(s, moves, |moves|).log[k].CounterPassed?
    ensures var log := Run(s, moves, |moves|).log;
            log[k].count == SinceReset(log, k) > 15
  {
    RunsKeepFillup(s, moves, |moves|);
    assert EntryOk(Run(s, moves, |moves|).log, k);
  }
}
