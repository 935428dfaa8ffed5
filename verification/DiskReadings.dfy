/** What becomes of the readings of the disk fill-up work.

    High readings start the timer, a full cluster ends the work, a counter past its
    limit leads to a recheck, and no disk of a listing is passed over. */
module DiskReadings {
  import opened DiskFillup
  import opened Wrappers

  // ---------------------------------------------------------------------------
  // High readings and full clusters
  // ---------------------------------------------------------------------------

  /** A usage of the cluster above 99 per cent. */
  ghost predicate IsFull(e: Event) { e.ClusterRead? && e.usage > 99 }

  /** A usage of the cluster or of a disk from 60 per cent on. */
  ghost predicate Reaches60(e: Event) { (e.ClusterRead? || e.DiskRead?) && e.usage >= 60 }

  ghost predicate SomeReaches60(log: seq<Event>) {
    exists k | 0 <= k < |log| :: Reaches60(log[k])
  }

  /** The flag is up exactly if a reading was high, and a full cluster was read last
      and ended the work. */
  ghost predicate ReadingInv(s: State) {
    && (s.triggered <==> SomeReaches60(s.log))
    && forall k | 0 <= k < |s.log| && IsFull(s.log[k]) :: k == |s.log| - 1 && s.outcome == RaisedOther
  }

  lemma SomeReachesMore(log: seq<Event>, e: Event)
    ensures SomeReaches60(log + [e]) <==> SomeReaches60(log) || Reaches60(e)
  {
    var more := log + [e];
    assert more[|log|] == e;
    if k :| 0 <= k < |log| && Reaches60(log[k]) {
      assert Reaches60(more[k]);
    }
  }

  /** One more entry that is no full cluster. */
  lemma EntryKeepsReadings(s: State, e: Event, triggered: bool)
    requires ReadingInv(s) && s.outcome == Running && !IsFull(e) && triggered == (s.triggered || Reaches60(e))
    ensures ReadingInv(Log(s, e).(triggered := triggered))
  {
    SomeReachesMore(s.log, e);
  }

  lemma {:induction false} ClusterScanKeepsReadings(s: State, p: nat, usages: seq<nat>, garbled: bool, n: nat)
    requires ReadingInv(s) && s.outcome == Running && p < |s.pcs| && n <= |usages|
    ensures ReadingInv(ClusterScan(s, p, usages, garbled, n))
    ensures ClusterScan(s, p, usages, garbled, n).outcome
         == if garbled || exists k | n <= k < |usages| :: usages[k] > 99 then RaisedOther else Running
    decreases |usages| - n
  {
    if n < |usages| {
      var usage := usages[n];
      var s' := Log(s, ClusterRead(usage)).(triggered := s.triggered || usage >= 60);
      SomeReachesMore(s.log, ClusterRead(usage));
      if usage <= 99 {
        EntryKeepsReadings(s, ClusterRead(usage), s'.triggered);
        ClusterScanKeepsReadings(s', p, usages, garbled, n + 1);
      }
    }
  }

  lemma TimerKeepsReadings(s: State, p: nat, i: Input)
    requires ReadingInv(s) && CanStep(s, p)
    ensures ReadingInv(TimerStep(s, p, i)) && TimerStep(s, p, i).outcome == Running
  {
    SomeReachesMore(s.log, TimerFired(i.now));
    SomeReachesMore(s.log, TimerSaw(i.now));
    SomeReachesMore(s.log + [TimerSaw(i.now)], TimerFired(i.later));
  }

  lemma ScanLineKeepsReadings(s: State, p: nat, usages: seq<nat>, line: nat, highest: nat)
    requires ReadingInv(s) && s.outcome == Running && p < |s.pcs| && line < |usages|
    ensures ReadingInv(ScanLine(s, p, usages, line, highest))
  {
    var usage := usages[line];
    var count := s.counter + if usage > NODE_DISK_THRESHOLD_CHECK then 1 else 0;
    SomeReachesMore(s.log, DiskRead(p, usage));
    SomeReachesMore(s.log + [DiskRead(p, usage)], CounterPassed(p, count));
  }

  lemma RecheckKeepsReadings(s: State, p: nat, pc: Pc, i: Input)
    requires ReadingInv(s) && s.outcome == Running && p < |s.pcs| && pc.Rechecking?
    ensures ReadingInv(Recheck(s, p, pc, i))
  {
    SomeReachesMore(s.log, Reread(p, i.usage));
    SomeReachesMore(s.log, FillupRaised(p));
  }

  lemma NodeKeepsReadings(s: State, p: nat, i: Input)
    requires ReadingInv(s) && CanStep(s, p)
    ensures ReadingInv(NodeStep(s, p, i))
  {
    match s.pcs[p]
    case Scanning(usages, line, highest) =>
      if line < |usages| {
        ScanLineKeepsReadings(s, p, usages, line, highest);
      }
    case Rechecking(_, _, _, _) => RecheckKeepsReadings(s, p, s.pcs[p], i);
    case _ =>
  }

  lemma StepKeepsReadings(s: State, p: nat, i: Input)
    requires ReadingInv(s)
    ensures ReadingInv(Step(s, p, i))
  {
    if CanStep(s, p) {
      match s.kinds[p]
      case Timer => TimerKeepsReadings(s, p, i);
      case ColdLog =>
      case Elastic => ClusterScanKeepsReadings(s, p, i.usages, i.garbled, 0);
      case Node => NodeKeepsReadings(s, p, i);
    }
  }

  /** In every interleaving, the flag that starts the timer is up if and only if some
      reading was high, and a full cluster ends the work at once: a work that goes on
      or that returned never read one. */
  lemma {:induction false} RunsKeepReadings(s: State, moves: seq<(nat, Input)>, n: nat)
    requires Init(s) && n <= |moves|
    ensures ReadingInv(Run(s, moves, n))
  {
    if n > 0 {
      RunsKeepReadings(s, moves, n - 1);
      StepKeepsReadings(Run(s, moves, n - 1), moves[n - 1].0, moves[n - 1].1);
    }
  }

  lemma FullClusterEndsTheWork(s: State, moves: seq<(nat, Input)>)
    requires Init(s)
    ensures var now := Run(s, moves, |moves|);
            (exists k | 0 <= k < |now.log| :: now.log[k].ClusterRead? && now.log[k].usage > 99)
              ==> now.outcome == RaisedOther
  {
    RunsKeepReadings(s, moves, |moves|);
    var now := Run(s, moves, |moves|);
    if k :| 0 <= k < |now.log| && now.log[k].ClusterRead? && now.log[k].usage > 99 {
      assert IsFull(now.log[k]);
    }
  }

  /** The disk exception leaves the work completed, for the tasks that still run. */
  lemma {:induction false} RaisedIsCompleted(s: State, moves: seq<(nat, Input)>, n: nat)
    requires Init(s) && n <= |moves|
    ensures Run(s, moves, n).outcome == RaisedFillup ==> Run(s, moves, n).completed
  {
    if n > 0 {
      RaisedIsCompleted(s, moves, n - 1);
      var now, p, i := Run(s, moves, n - 1), moves[n - 1].0, moves[n - 1].1;
      if CanStep(now, p) {
        StepRaisesCompleted(now, p, i);
      }
    }
  }

  lemma StepRaisesCompleted(s: State, p: nat, i: Input)
    requires CanStep(s, p)
    ensures TaskStep(s, p, i).outcome == RaisedFillup ==> TaskStep(s, p, i).completed
  {
    if s.kinds[p] == Elastic {
      ClusterScanRaisesOther(s, p, i.usages, i.garbled, 0);
    }
  }

  lemma {:induction false} ClusterScanRaisesOther(s: State, p: nat, usages: seq<nat>, garbled: bool, n: nat)
    requires p < |s.pcs| && n <= |usages| && s.outcome == Running
    ensures ClusterScan(s, p, usages, garbled, n).outcome != RaisedFillup
    decreases |usages| - n
  {
    if n < |usages| {
      var s' := Log(s, ClusterRead(usages[n])).(triggered := s.triggered || usages[n] >= TIMER_START_THRESHOLD);
      ClusterScanRaisesOther(s', p, usages, garbled, n + 1);
    }
  }

  // ---------------------------------------------------------------------------
  // When the work breaks off
  // ---------------------------------------------------------------------------

  /** The task sleeps and finds the work completed. */
  predicate Ends(s: State, p: nat)
    requires p < |s.pcs|
  {
    s.pcs[p] == Asleep && s.completed
  }

  /** What makes a step raise another exception: an outside call that fails (of the
      cluster's task only its first, before the loop), a usage that is no number, a
      full cluster, and a listing that has no usage above zero. */
  ghost predicate Breaks(s: State, p: nat, i: Input)
    requires CanStep(s, p)
  {
    match s.kinds[p]
    case Timer => false
    case ColdLog => !Ends(s, p) && i.fails
    case Elastic =>
      !Ends(s, p) && ((s.pcs[p] == Begin && i.fails) || i.garbled || exists k | 0 <= k < |i.usages| :: i.usages[k] > 99)
    case Node =>
      match s.pcs[p]
      case Scanning(usages, line, highest) => if line < |usages| then i.garbled else highest == 0
      case Rechecking(_, _, _, _) => i.fails
      case _ => !Ends(s, p) && i.fails
  }

  lemma StepRaisesIff(s: State, p: nat, i: Input)
    requires CanStep(s, p) && ReadingInv(s)
    ensures Step(s, p, i).outcome == RaisedOther <==> Breaks(s, p, i)
  {
    match s.kinds[p]
    case Timer => TimerKeepsReadings(s, p, i);
    case ColdLog =>
    case Elastic => ClusterScanKeepsReadings(s, p, i.usages, i.garbled, 0);
    case Node =>
  }

  /** Once the work is completed, a task that sleeps ends at its next step and reads
      nothing more; before that no task but the timer ends. */
  lemma SleepersEndIff(s: State, p: nat, i: Input)
    requires CanStep(s, p) && s.kinds[p] != Timer
    ensures var s' := Step(s, p, i);
            && |s'.pcs| == |s.pcs| && (s'.pcs[p] == Done <==> Ends(s, p))
            && (Ends(s, p) ==> s'.log == s.log)
  {
    match s.kinds[p]
    case ColdLog =>
    case Elastic => ScanDoesNotEnd(s, p, i.usages, i.garbled, 0);
    case Node => NodeDoesNotEnd(s, p, i);
  }

  lemma NodeDoesNotEnd(s: State, p: nat, i: Input)
    requires CanStep(s, p)
    ensures var s' := NodeStep(s, p, i);
            && |s'.pcs| == |s.pcs| && (s'.pcs[p] == Done <==> Ends(s, p))
            && (Ends(s, p) ==> s'.log == s.log)
  {
    match s.pcs[p]
    case Scanning(usages, line, highest) =>
      if line < |usages| {
        ScanLineGoesOn(s, p, usages, line, highest);
      }
    case Rechecking(_, _, _, _) => RecheckGoesOn(s, p, s.pcs[p], i);
    case _ =>
  }

  lemma ScanLineGoesOn(s: State, p: nat, usages: seq<nat>, line: nat, highest: nat)
    requires p < |s.pcs| && line < |usages|
    ensures var s' := ScanLine(s, p, usages, line, highest); |s'.pcs| == |s.pcs| && s'.pcs[p] != Done
  {
  }

  lemma RecheckGoesOn(s: State, p: nat, pc: Pc, i: Input)
    requires p < |s.pcs| && pc.Rechecking?
    ensures var s' := Recheck(s, p, pc, i); |s'.pcs| == |s.pcs| && s'.pcs[p] != Done
  {
  }

  lemma {:induction false} ScanDoesNotEnd(s: State, p: nat, usages: seq<nat>, garbled: bool, n: nat)
    requires p < |s.pcs| && n <= |usages|
    ensures var s' := ClusterScan(s, p, usages, garbled, n); |s'.pcs| == |s.pcs| && s'.pcs[p] != Done
    decreases |usages| - n
  {
    if n < |usages| {
      var usage := usages[n];
      var s' := Log(s, ClusterRead(usage)).(triggered := s.triggered || usage >= TIMER_START_THRESHOLD);
      ScanDoesNotEnd(s', p, usages, garbled, n + 1);
    }
  }

  // ---------------------------------------------------------------------------
  // Rechecks follow, and no disk is passed over
  // ---------------------------------------------------------------------------

  /** The usages that one task has read from disks, among the first n entries. */
  ghost function ReadBy(log: seq<Event>, n: nat, p: nat): seq<nat>
    requires n <= |log|
  {
    if n == 0 then []
    else ReadBy(log, n - 1, p) + if log[n - 1].DiskRead? && log[n - 1].p == p then [log[n - 1].usage] else []
  }

  /** The last of all these are the first n usages of a listing. */
  ghost predicate EndsWith(all: seq<nat>, usages: seq<nat>, n: nat) {
    n <= |all| && n <= |usages| && forall k: nat | k < n :: all[|all| - n + k] == usages[k]
  }

  /** The highest of the first n usages, zero if there is none. */
  ghost predicate IsHighest(usages: seq<nat>, n: nat, h: nat)
    requires n <= |usages|
  {
    && (forall k: nat | k < n :: usages[k] <= h)
    && (h > 0 ==> exists k: nat | k < n :: usages[k] == h)
  }

  /** The first n usages of a listing were the last that its task has read, and h is
      the highest of them. */
  ghost predicate HasRead(all: seq<nat>, usages: seq<nat>, n: nat, h: nat) {
    EndsWith(all, usages, n) && IsHighest(usages, n, h)
  }

  /** A task in a listing has just read all of its lines so far, and knows the highest
      of them. */
  ghost predicate ListingOk(log: seq<Event>, pc: Pc, p: nat) {
    match pc
    case Scanning(usages, line, highest) => HasRead(ReadBy(log, |log|, p), usages, line, highest)
    case Rechecking(usages, line, highest, _) => HasRead(ReadBy(log, |log|, p), usages, line + 1, highest)
    case _ => true
  }

  ghost predicate ListingInv(s: State) {
    |s.pcs| == |s.kinds| && forall p | 0 <= p < |s.pcs| :: ListingOk(s.log, s.pcs[p], p)
  }

  lemma {:induction false} ReadPrefix(log: seq<Event>, more: seq<Event>, n: nat, p: nat)
    requires log <= more && n <= |log|
    ensures ReadBy(log, n, p) == ReadBy(more, n, p)
  {
    if n > 0 {
      ReadPrefix(log, more, n - 1, p);
    }
  }

  lemma ReadOneMore(log: seq<Event>, e: Event, p: nat)
    ensures ReadBy(log + [e], |log| + 1, p)
         == ReadBy(log, |log|, p) + if e.DiskRead? && e.p == p then [e.usage] else []
  {
    ReadPrefix(log, log + [e], |log|, p);
  }

  /** An entry that is no reading of its disks leaves a task's listing as it is. */
  lemma ForeignEntry(log: seq<Event>, e: Event, pc: Pc, p: nat)
    requires ListingOk(log, pc, p) && !(e.DiskRead? && e.p == p)
    ensures ListingOk(log + [e], pc, p)
  {
    ReadOneMore(log, e, p);
    assert ReadBy(log, |log|, p) + [] == ReadBy(log, |log|, p);
  }

  lemma LogKeepsListings(s: State, e: Event)
    requires ListingInv(s) && !e.DiskRead?
    ensures ListingInv(Log(s, e))
  {
    forall p | 0 <= p < |s.pcs| {
      ForeignEntry(s.log, e, s.pcs[p], p);
    }
  }

  /** A task moves to another place that its readings fit. */
  lemma MoveKeepsListings(s: State, s': State, p: nat)
    requires ListingInv(s) && p < |s.pcs| && s'.log == s.log && s'.kinds == s.kinds
    requires |s'.pcs| == |s.pcs| && s'.pcs == s.pcs[p := s'.pcs[p]] && ListingOk(s.log, s'.pcs[p], p)
    ensures ListingInv(s')
  {
  }

  lemma ReadOneLine(all: seq<nat>, usages: seq<nat>, line: nat, highest: nat)
    requires line < |usages| && HasRead(all, usages, line, highest)
    ensures HasRead(all + [usages[line]], usages, line + 1, if usages[line] > highest then usages[line] else highest)
  {
  }

  /** The entries of one line: the reading, and the finding about the counter. */
  lemma LineKeepsListings(s: State, p: nat, pc: Pc, pc': Pc)
    requires ListingInv(s) && p < |s.pcs| && s.pcs[p] == pc && pc.Scanning? && pc.line < |pc.usages|
    requires var h := if pc.usages[pc.line] > pc.highest then pc.usages[pc.line] else pc.highest;
             pc' == Scanning(pc.usages, pc.line + 1, h) || pc' == Rechecking(pc.usages, pc.line, h, 0)
    ensures ListingInv(Log(s, DiskRead(p, pc.usages[pc.line])).(pcs := s.pcs[p := pc']))
  {
    var e := DiskRead(p, pc.usages[pc.line]);
    ReadOneMore(s.log, e, p);
    ReadOneLine(ReadBy(s.log, |s.log|, p), pc.usages, pc.line, pc.highest);
    forall q | 0 <= q < |s.pcs| && q != p {
      ForeignEntry(s.log, e, s.pcs[q], q);
    }
  }

  lemma ScanLineKeepsListings(s: State, p: nat)
    requires ListingInv(s) && p < |s.pcs| && s.pcs[p].Scanning? && s.pcs[p].line < |s.pcs[p].usages|
    ensures ListingInv(ScanLine(s, p, s.pcs[p].usages, s.pcs[p].line, s.pcs[p].highest))
  {
    var pc := s.pcs[p];
    ScanLineGoesOn(s, p, pc.usages, pc.line, pc.highest);
    var s' := ScanLine(s, p, pc.usages, pc.line, pc.highest);
    var read := Log(s, DiskRead(p, pc.usages[pc.line])).(pcs := s'.pcs);
    LineKeepsListings(s, p, pc, s'.pcs[p]);
    if s'.log != read.log {
      LogKeepsListings(read, s'.log[|s'.log| - 1]);
      assert s'.log == read.log + [s'.log[|s'.log| - 1]];
    }
    SameListings(if s'.log == read.log then read else Log(read, s'.log[|s'.log| - 1]), s');
  }

  lemma SameListings(s: State, s': State)
    requires ListingInv(s) && s'.log == s.log && s'.pcs == s.pcs && s'.kinds == s.kinds
    ensures ListingInv(s')
  {
  }

  lemma NextLineIsOk(log: seq<Event>, pc: Pc, p: nat)
    requires pc.Rechecking? && ListingOk(log, pc, p)
    ensures ListingOk(log, Scanning(pc.usages, pc.line + 1, pc.highest), p)
    ensures ListingOk(log, pc.(exceeded := pc.exceeded + 1), p)
  {
  }

  /** A recheck adds at most one entry and moves its own task only. */
  lemma RecheckMoves(s: State, p: nat, pc: Pc, i: Input) returns (e: Event)
    requires p < |s.pcs| && pc.Rechecking?
    ensures !e.DiskRead?
    ensures var s' := Recheck(s, p, pc, i);
            && (s'.log == s.log || s'.log == s.log + [e]) && s'.kinds == s.kinds
            && |s'.pcs| == |s.pcs| && s'.pcs == s.pcs[p := s'.pcs[p]]
            && (s'.pcs[p] == Failed || s'.pcs[p] == pc.(exceeded := pc.exceeded + 1)
                || s'.pcs[p] == Scanning(pc.usages, pc.line + 1, pc.highest))
  {
    e := if pc.exceeded < RECHECKS then Reread(p, i.usage) else FillupRaised(p);
  }

  lemma RecheckKeepsListings(s: State, p: nat, i: Input)
    requires ListingInv(s) && p < |s.pcs| && s.pcs[p].Rechecking?
    ensures ListingInv(Recheck(s, p, s.pcs[p], i))
  {
    var s' := Recheck(s, p, s.pcs[p], i);
    var e := RecheckMoves(s, p, s.pcs[p], i);
    LogKeepsListings(s, e);
    var logged := if s'.log == s.log then s else Log(s, e);
    NextLineIsOk(logged.log, s.pcs[p], p);
    MoveKeepsListings(logged, s', p);
  }

  lemma ListingBegins(log: seq<Event>, usages: seq<nat>, p: nat)
    ensures ListingOk(log, Scanning(usages, 0, 0), p)
  {
  }

  /** A node's task that neither reads nor rechecks only moves. */
  lemma NodeMoves(s: State, p: nat, i: Input)
    requires CanStep(s, p) && !s.pcs[p].Rechecking?
    requires s.pcs[p].Scanning? ==> s.pcs[p].line >= |s.pcs[p].usages| || i.garbled
    ensures var s' := NodeStep(s, p, i);
            && s'.log == s.log && s'.kinds == s.kinds
            && |s'.pcs| == |s.pcs| && s'.pcs == s.pcs[p := s'.pcs[p]]
            && s'.pcs[p] in {Done, Failed, Asleep, Scanning(i.usages, 0, 0)}
  {
  }

  lemma NodeKeepsListings(s: State, p: nat, i: Input)
    requires ListingInv(s) && CanStep(s, p)
    ensures ListingInv(NodeStep(s, p, i))
  {
    var pc := s.pcs[p];
    if pc.Rechecking? {
      RecheckKeepsListings(s, p, i);
    } else if pc.Scanning? && pc.line < |pc.usages| && !i.garbled {
      ScanLineKeepsListings(s, p);
    } else {
      NodeMoves(s, p, i);
      ListingBegins(s.log, i.usages, p);
      MoveKeepsListings(s, NodeStep(s, p, i), p);
    }
  }

  /** The tasks that read no disks move on their own. */
  lemma {:induction false} ClusterScanKeepsListings(s: State, p: nat, usages: seq<nat>, garbled: bool, n: nat)
    requires ListingInv(s) && p < |s.pcs| && n <= |usages|
    ensures ListingInv(ClusterScan(s, p, usages, garbled, n))
    decreases |usages| - n
  {
    if n < |usages| {
      var e := ClusterRead(usages[n]);
      var s' := Log(s, e).(triggered := s.triggered || usages[n] >= TIMER_START_THRESHOLD);
      LogKeepsListings(s, e);
      SameListings(Log(s, e), s');
      ClusterScanKeepsListings(s', p, usages, garbled, n + 1);
      if ClusterScan(s, p, usages, garbled, n) != ClusterScan(s', p, usages, garbled, n + 1) {
        MoveKeepsListings(s', ClusterScan(s, p, usages, garbled, n), p);
      }
    } else {
      MoveKeepsListings(s, ClusterScan(s, p, usages, garbled, n), p);
    }
  }

  lemma TimerWaitsKeepsListings(s: State, p: nat, until: int, now: int)
    requires ListingInv(s) && p < |s.pcs|
    ensures ListingInv(TimerWaits(s, p, until, now))
  {
    LogKeepsListings(s, TimerFired(now));
    MoveKeepsListings(if until <= now then Log(s, TimerFired(now)) else s, TimerWaits(s, p, until, now), p);
  }

  lemma TimerKeepsListings(s: State, p: nat, i: Input)
    requires ListingInv(s) && CanStep(s, p)
    ensures ListingInv(TimerStep(s, p, i))
  {
    if s.pcs[p].Waiting? {
      TimerWaitsKeepsListings(s, p, s.pcs[p].until, i.now);
    } else if s.triggered {
      LogKeepsListings(s, TimerSaw(i.now));
      TimerWaitsKeepsListings(Log(s, TimerSaw(i.now)), p, i.now + TIMER_TIMEOUT_MINUTES, i.later);
    } else {
      MoveKeepsListings(s, TimerStep(s, p, i), p);
    }
  }

  lemma StepKeepsListings(s: State, p: nat, i: Input)
    requires ListingInv(s)
    ensures ListingInv(Step(s, p, i))
  {
    if CanStep(s, p) {
      match s.kinds[p] {
        case Timer => TimerKeepsListings(s, p, i);
        case ColdLog => MoveKeepsListings(s, TaskStep(s, p, i), p);
        case Elastic => ClusterScanKeepsListings(s, p, i.usages, i.garbled, 0);
          MoveKeepsListings(s, if Ends(s, p) || (i.fails && s.pcs[p] == Begin) then TaskStep(s, p, i) else s, p);
        case Node => NodeKeepsListings(s, p, i);
      }
      SameListings(TaskStep(s, p, i), Step(s, p, i));
    }
  }

  lemma {:induction false} RunsKeepListings(s: State, moves: seq<(nat, Input)>, n: nat)
    requires Init(s) && n <= |moves|
    ensures ListingInv(Run(s, moves, n))
  {
    if n > 0 {
      RunsKeepListings(s, moves, n - 1);
      StepKeepsListings(Run(s, moves, n - 1), moves[n - 1].0, moves[n - 1].1);
    }
  }

  /** In every interleaving, also when rechecks come in between, a node's task that
      goes to sleep after a listing has read each of its usages once and in order, and
      one of them is above zero; with none above zero it breaks off. */
  lemma ListingsAreReadToTheEnd(s: State, moves: seq<(nat, Input)>, p: nat, i: Input)
    requires Init(s)
    requires var now := Run(s, moves, |moves|);
             CanStep(now, p) && now.kinds[p] == Node && now.pcs[p].Scanning? && now.active == Some(p)
    ensures var now, next := Run(s, moves, |moves|), Step(Run(s, moves, |moves|), p, i);
            var usages := now.pcs[p].usages;
            |next.pcs| == |now.pcs|
            && (next.pcs[p] == Asleep ==>
                  && EndsWith(ReadBy(next.log, |next.log|, p), usages, |usages|)
                  && exists k | 0 <= k < |usages| :: usages[k] > 0)
            && (now.pcs[p].line == |usages| && (forall k | 0 <= k < |usages| :: usages[k] == 0) ==>
                  next.outcome == RaisedOther)
  {
    RunsKeepListings(s, moves, |moves|);
    RunsKeepReadings(s, moves, |moves|);
    var now := Run(s, moves, |moves|);
    var pc := now.pcs[p];
    NodeDoesNotEnd(now, p, i);
    StepRaisesIff(now, p, i);
    if pc.line < |pc.usages| {
      ScanLineGoesOn(now, p, pc.usages, pc.line, pc.highest);
    }
  }

  /** A disk reading that brings the counter past fifteen is followed by a recheck of
      the task that made it. */
  ghost predicate IsRechecked(log: seq<Event>, k: nat)
    requires k < |log|
  {
    log[k].DiskRead? && SinceReset(log, k + 1) > 15 ==>
      k + 1 < |log| && log[k + 1] == CounterPassed(log[k].p, SinceReset(log, k + 1))
  }

  ghost predicate AllRechecked(log: seq<Event>) {
    forall k | 0 <= k < |log| :: IsRechecked(log, k)
  }

  /** Entries were added that are no disk readings. */
  ghost predicate Quiet(log: seq<Event>, more: seq<Event>) {
    log <= more && forall k | |log| <= k < |more| :: !more[k].DiskRead?
  }

  lemma QuietKeepsRechecked(log: seq<Event>, more: seq<Event>)
    requires AllRechecked(log) && Quiet(log, more)
    ensures AllRechecked(more)
  {
    forall k | 0 <= k < |more|
      ensures IsRechecked(more, k)
    {
      if k < |log| {
        PrefixSaysTheSame(log, more, k + 1, 0);
        assert IsRechecked(log, k);
      }
    }
  }

  lemma {:induction false} ClusterScanIsQuiet(s: State, p: nat, usages: seq<nat>, garbled: bool, n: nat)
    requires p < |s.pcs| && n <= |usages|
    ensures Quiet(s.log, ClusterScan(s, p, usages, garbled, n).log)
    decreases |usages| - n
  {
    if n < |usages| {
      var s' := Log(s, ClusterRead(usages[n])).(triggered := s.triggered || usages[n] >= TIMER_START_THRESHOLD);
      ClusterScanIsQuiet(s', p, usages, garbled, n + 1);
    }
  }

  lemma OthersAreQuiet(s: State, p: nat, i: Input)
    requires CanStep(s, p) && !(s.kinds[p] == Node && s.pcs[p].Scanning?)
    ensures Quiet(s.log, TaskStep(s, p, i).log)
  {
    match s.kinds[p]
    case Timer =>
    case ColdLog =>
    case Elastic => ClusterScanIsQuiet(s, p, i.usages, i.garbled, 0);
    case Node =>
      if s.pcs[p].Rechecking? {
        var e := RecheckMoves(s, p, s.pcs[p], i);
      }
  }

  lemma ScanLineIsRechecked(s: State, p: nat, usages: seq<nat>, line: nat, highest: nat)
    requires FillupInv(s) && p < |s.pcs| && line < |usages| && AllRechecked(s.log)
    ensures AllRechecked(ScanLine(s, p, usages, line, highest).log)
  {
    var read := s.log + [DiskRead(p, usages[line])];
    var more := ScanLine(s, p, usages, line, highest).log;
    PrefixSaysTheSame(s.log, read, |s.log|, 0);
    PrefixSaysTheSame(read, more, |read|, 0);
    assert read[|s.log|] == more[|s.log|] == DiskRead(p, usages[line]);
    forall k | 0 <= k < |more|
      ensures IsRechecked(more, k)
    {
      if k < |s.log| {
        PrefixSaysTheSame(s.log, more, k + 1, 0);
        assert IsRechecked(s.log, k);
      }
    }
  }

  lemma StepIsRechecked(s: State, p: nat, i: Input)
    requires CanStep(s, p) && FillupInv(s) && AllRechecked(s.log)
    ensures AllRechecked(TaskStep(s, p, i).log)
  {
    var pc := s.pcs[p];
    if s.kinds[p] == Node && pc.Scanning? {
      if pc.line < |pc.usages| {
        ScanLineIsRechecked(s, p, pc.usages, pc.line, pc.highest);
      }
    } else {
      OthersAreQuiet(s, p, i);
      QuietKeepsRechecked(s.log, TaskStep(s, p, i).log);
    }
  }

  /** In every interleaving: no reading takes the counter past its limit unnoticed. */
  lemma {:induction false} LimitIsNeverMissed(s: State, moves: seq<(nat, Input)>, n: nat)
    requires Init(s) && n <= |moves|
    ensures AllRechecked(Run(s, moves, n).log)
  {
    if n > 0 {
      LimitIsNeverMissed(s, moves, n - 1);
      RunsKeepFillup(s, moves, n - 1);
      var now, p, i := Run(s, moves, n - 1), moves[n - 1].0, moves[n - 1].1;
      if CanStep(now, p) {
        StepIsRechecked(now, p, i);
        assert Step(now, p, i).log == TaskStep(now, p, i).log;
      }
    }
  }

  // ---------------------------------------------------------------------------
  // Where tasks may interleave
  // ---------------------------------------------------------------------------

  /** The places that a task does not await at: the lines of a listing, and the first
      reading of a recheck. */
  predicate InOneGo(pc: Pc) { pc.Scanning? || (pc.Rechecking? && pc.exceeded == 0) }

  /** Of all tasks, exactly the one that is running is at such a place. */
  ghost predicate ActiveInv(s: State) {
    && |s.pcs| == |s.kinds|
    && (s.outcome == Running ==> forall p: nat | p < |s.pcs| :: InOneGo(s.pcs[p]) <==> s.active == Some(p))
  }

  /** A step moves one task, which is running afterwards or not. */
  ghost predicate MovesOne(s: State, s': State, p: nat) {
    && p < |s.pcs| && |s'.pcs| == |s.pcs| && s'.pcs == s.pcs[p := s'.pcs[p]] && s'.kinds == s.kinds
    && (s'.active == None || s'.active == Some(p))
    && (s'.outcome == Running ==> (InOneGo(s'.pcs[p]) <==> s'.active == Some(p)))
  }

  lemma {:induction false} ClusterScanMovesOne(s: State, p: nat, usages: seq<nat>, garbled: bool, n: nat)
    requires p < |s.pcs| && n <= |usages|
    ensures MovesOne(s, ClusterScan(s, p, usages, garbled, n), p)
    decreases |usages| - n
  {
    if n < |usages| {
      var s' := Log(s, ClusterRead(usages[n])).(triggered := s.triggered || usages[n] >= TIMER_START_THRESHOLD);
      ClusterScanMovesOne(s', p, usages, garbled, n + 1);
    }
  }

  lemma ScanLineMovesOne(s: State, p: nat, usages: seq<nat>, line: nat, highest: nat)
    requires p < |s.pcs| && line < |usages|
    ensures MovesOne(s, ScanLine(s, p, usages, line, highest), p)
  {
  }

  lemma RecheckMovesOne(s: State, p: nat, pc: Pc, i: Input)
    requires p < |s.pcs| && pc.Rechecking?
    ensures MovesOne(s, Recheck(s, p, pc, i), p)
  {
  }

  lemma NodeMovesOne(s: State, p: nat, i: Input)
    requires CanStep(s, p)
    ensures MovesOne(s, NodeStep(s, p, i), p)
  {
    match s.pcs[p]
    case Scanning(usages, line, highest) =>
      if line < |usages| {
        ScanLineMovesOne(s, p, usages, line, highest);
      }
    case Rechecking(_, _, _, _) => RecheckMovesOne(s, p, s.pcs[p], i);
    case _ =>
  }

  lemma StepMovesOne(s: State, p: nat, i: Input)
    requires CanStep(s, p)
    ensures MovesOne(s, TaskStep(s, p, i), p)
  {
    match s.kinds[p]
    case Timer =>
    case ColdLog =>
    case Elastic => ClusterScanMovesOne(s, p, i.usages, i.garbled, 0);
    case Node => NodeMovesOne(s, p, i);
  }

  /** In every interleaving: while a task goes through a listing, up to the first
      reading of a recheck, no other task moves. */
  lemma {:induction false} RunsKeepActive(s: State, moves: seq<(nat, Input)>, n: nat)
    requires Init(s) && n <= |moves|
    ensures ActiveInv(Run(s, moves, n))
  {
    if n > 0 {
      RunsKeepActive(s, moves, n - 1);
      var now, p, i := Run(s, moves, n - 1), moves[n - 1].0, moves[n - 1].1;
      if CanStep(now, p) {
        StepMovesOne(now, p, i);
      }
    }
  }

  lemma ListingsAreNotInterrupted(s: State, moves: seq<(nat, Input)>, p: nat, q: nat, i: Input)
    requires Init(s)
    requires var now := Run(s, moves, |moves|);
             now.outcome == Running && p < |now.pcs| && InOneGo(now.pcs[p]) && q != p
    ensures Step(Run(s, moves, |moves|), q, i) == Run(s, moves, |moves|)
  {
    RunsKeepActive(s, moves, |moves|);
  }
}
