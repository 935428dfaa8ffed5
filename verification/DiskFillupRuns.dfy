/** Runs of the disk fill-up work that end: one that returns and one that raises the
    disk exception.  They show that the results about such runs are about
    something. */
module DiskFillupRuns {
  import opened DiskFillup
  import opened Wrappers

  // ---------------------------------------------------------------------------
  // A run that returns
  // ---------------------------------------------------------------------------

  /** A state of the three tasks that run without any node. */
  function Three(timer: Pc, cold: Pc, elastic: Pc, triggered: bool, log: seq<Event>): State {
    State([Timer, ColdLog, Elastic], [timer, cold, elastic], None,
          |log| > 0 && log[|log| - 1].TimerFired?, triggered, 0, log, Running)
  }

  /** Tasks of which one has not ended. */
  lemma NotAllDone(pcs: seq<Pc>, q: nat)
    requires q < |pcs| && pcs[q] != Done
    ensures !forall q | 0 <= q < |pcs| :: pcs[q] == Done
  {
  }

  lemma HighReading(i: Input)
    requires i.usages == [60] && !i.fails && !i.garbled
    ensures Step(Three(Begin, Begin, Begin, false, []), 2, i) == Three(Begin, Begin, Asleep, true, [ClusterRead(60)])
  {
    var s := Three(Begin, Begin, Begin, false, []);
    var s' := Log(s, ClusterRead(60)).(triggered := true);
    assert ClusterScan(s', 2, [60], false, 1) == Await(s', 2, Asleep);
    assert ClusterScan(s, 2, [60], false, 0) == Await(s', 2, Asleep);
    assert [Begin, Begin, Begin][2 := Asleep] == [Begin, Begin, Asleep];
    assert [] + [ClusterRead(60)] == [ClusterRead(60)];
    NotAllDone([Begin, Begin, Asleep], 0);
  }

  lemma TimerRuns(i: Input, later: Input)
    requires i.now == i.later == 0 && later.now == TIMER_TIMEOUT_MINUTES
    ensures var log := [ClusterRead(60), TimerSaw(0), TimerFired(TIMER_TIMEOUT_MINUTES)];
            var waiting := Three(Waiting(TIMER_TIMEOUT_MINUTES), Begin, Asleep, true, log[..2]);
            && Step(Three(Begin, Begin, Asleep, true, log[..1]), 0, i) == waiting
            && Step(waiting, 0, later) == Three(Done, Begin, Asleep, true, log)
  {
    var log := [ClusterRead(60), TimerSaw(0), TimerFired(TIMER_TIMEOUT_MINUTES)];
    assert log[..1] + [log[1]] == log[..2] && log[..2] + [log[2]] == log;
    var waiting := Waiting(TIMER_TIMEOUT_MINUTES);
    assert [Begin, Begin, Asleep][0 := waiting] == [waiting, Begin, Asleep];
    assert [waiting, Begin, Asleep][0 := Done] == [Done, Begin, Asleep];
    NotAllDone([waiting, Begin, Asleep], 1);
    NotAllDone([Done, Begin, Asleep], 1);
  }

  lemma OthersEnd(log: seq<Event>, i: Input)
    requires |log| > 0 && log[|log| - 1].TimerFired? && !i.fails
    ensures Step(Three(Done, Begin, Asleep, true, log), 1, i) == Three(Done, Asleep, Asleep, true, log)
    ensures Step(Three(Done, Asleep, Asleep, true, log), 1, i) == Three(Done, Done, Asleep, true, log)
    ensures Step(Three(Done, Done, Asleep, true, log), 2, i).outcome == Returned
  {
    assert [Done, Begin, Asleep][1 := Asleep] == [Done, Asleep, Asleep];
    assert [Done, Asleep, Asleep][1 := Done] == [Done, Done, Asleep];
    NotAllDone([Done, Asleep, Asleep], 1);
    NotAllDone([Done, Done, Asleep], 2);
  }

  lemma OneMoreMove(s: State, moves: seq<(nat, Input)>, p: nat, i: Input) returns (more: seq<(nat, Input)>)
    ensures Run(s, more, |more|) == Step(Run(s, moves, |moves|), p, i)
  {
    more := moves + [(p, i)];
    RunPrefix(s, moves, more, |moves|);
  }

  lemma {:induction false} RunPrefix(s: State, moves: seq<(nat, Input)>, more: seq<(nat, Input)>, n: nat)
    requires moves <= more && n <= |moves|
    ensures Run(s, moves, n) == Run(s, more, n)
  {
    if n > 0 {
      RunPrefix(s, moves, more, n - 1);
    }
  }

  lemma SomeRunFires() returns (s: State, moves: seq<(nat, Input)>)
    ensures Init(s)
    ensures Run(s, moves, |moves|)
         == Three(Done, Begin, Asleep, true, [ClusterRead(60), TimerSaw(0), TimerFired(TIMER_TIMEOUT_MINUTES)])
  {
    s := Three(Begin, Begin, Begin, false, []);
    assert s.pcs == seq(|s.kinds|, _ => Begin);
    var i, later := Input(0, 0, [60], 0, false, false), Input(TIMER_TIMEOUT_MINUTES, 0, [], 0, false, false);
    HighReading(i);
    TimerRuns(i, later);
    var log := [ClusterRead(60), TimerSaw(0), TimerFired(TIMER_TIMEOUT_MINUTES)];
    assert log[..1] == [ClusterRead(60)];
    moves := OneMoreMove(s, [], 2, i);
    moves := OneMoreMove(s, moves, 0, i);
    moves := OneMoreMove(s, moves, 0, later);
  }

  /** Some run does return: a reading of sixty per cent starts the timer, and when
      it has fired the tasks end one after the other. */
  lemma SomeRunReturns()
    ensures exists s, moves :: Init(s) && Run(s, moves, |moves|).outcome == Returned
  {
    var s, moves := SomeRunFires();
    var i := Input(0, 0, [], 0, false, false);
    OthersEnd([ClusterRead(60), TimerSaw(0), TimerFired(TIMER_TIMEOUT_MINUTES)], i);
    moves := OneMoreMove(s, moves, 1, i);
    moves := OneMoreMove(s, moves, 1, i);
    moves := OneMoreMove(s, moves, 2, i);
  }

  // ---------------------------------------------------------------------------
  // A run that raises the disk exception
  // ---------------------------------------------------------------------------

  const FULL := 100

  /** A disk listing that is full on each of its lines. */
  ghost predicate AllFull(u: seq<nat>) {
    |u| == MAX_THRESHOLD_COUNT + 1 && forall k | 0 <= k < |u| :: u[k] == FULL
  }

  /** A state of the work with one node, task 3, when the other tasks wait for their
      turn. */
  function OneNode(pc: Pc, active: bool, triggered: bool, counter: nat, log: seq<Event>): State {
    State([Timer, ColdLog, Elastic, Node], [Begin, Begin, Begin, pc], if active then Some(3) else None,
          false, triggered, counter, log, Running)
  }

  lemma OneNodeMoves(pc: Pc, pc': Pc)
    ensures [Begin, Begin, Begin, pc][3 := pc'] == [Begin, Begin, Begin, pc']
    ensures !forall q | 0 <= q < 4 :: [Begin, Begin, Begin, pc'][q] == Done
  {
    assert [Begin, Begin, Begin, pc'][0] == Begin;
  }

  /** The reading of a full disk on each line, up to the one before the limit. */
  lemma LineIsRead(u: seq<nat>, i: Input, k: nat, highest: nat, triggered: bool, log: seq<Event>)
    requires AllFull(u) && k < MAX_THRESHOLD_COUNT && !i.garbled && highest <= FULL
    ensures Step(OneNode(Scanning(u, k, highest), true, triggered, k, log), 3, i)
         == OneNode(Scanning(u, k + 1, FULL), true, true, k + 1, log + [DiskRead(3, FULL)])
  {
    OneNodeMoves(Scanning(u, k, highest), Scanning(u, k + 1, FULL));
  }

  lemma LimitIsPassed(u: seq<nat>, i: Input, log: seq<Event>)
    requires AllFull(u) && !i.garbled
    ensures Step(OneNode(Scanning(u, MAX_THRESHOLD_COUNT, FULL), true, true, MAX_THRESHOLD_COUNT, log), 3, i)
         == OneNode(Rechecking(u, MAX_THRESHOLD_COUNT, FULL, 0), true, true, MAX_THRESHOLD_COUNT + 1,
                    log + [DiskRead(3, FULL)] + [CounterPassed(3, MAX_THRESHOLD_COUNT + 1)])
  {
    OneNodeMoves(Scanning(u, MAX_THRESHOLD_COUNT, FULL), Rechecking(u, MAX_THRESHOLD_COUNT, FULL, 0));
  }

  lemma DiskIsReread(u: seq<nat>, i: Input, x: nat, active: bool, counter: nat, log: seq<Event>)
    requires x < RECHECKS && !i.fails && i.usage == FULL
    ensures Step(OneNode(FoundFull(u, x), active, true, counter, log), 3, i)
         == OneNode(FoundFull(u, x + 1), false, true, counter, log + [Reread(3, FULL)])
  {
    OneNodeMoves(FoundFull(u, x), FoundFull(u, x + 1));
  }

  lemma {:induction false} LinesAreRead(u: seq<nat>, k: nat)
    returns (moves: seq<(nat, Input)>, log: seq<Event>, highest: nat)
    requires AllFull(u) && k <= MAX_THRESHOLD_COUNT
    ensures highest <= FULL && (k > 0 ==> highest == FULL)
    ensures Run(OneNode(Begin, false, false, 0, []), moves, |moves|)
         == OneNode(Scanning(u, k, highest), true, k > 0, k, log)
  {
    var s, i := OneNode(Begin, false, false, 0, []), Input(0, 0, u, FULL, false, false);
    if k == 0 {
      highest, log := 0, [];
      OneNodeMoves(Begin, Scanning(u, 0, 0));
      moves := OneMoreMove(s, [], 3, i);
    } else {
      moves, log, highest := LinesAreRead(u, k - 1);
      LineIsRead(u, i, k - 1, highest, k > 1, log);
      moves := OneMoreMove(s, moves, 3, i);
      log, highest := log + [DiskRead(3, FULL)], FULL;
    }
  }

  /** The node's place when x rereads have found the disk full. */
  function FoundFull(u: seq<nat>, x: nat): Pc { Rechecking(u, MAX_THRESHOLD_COUNT, FULL, x) }

  lemma LimitIsReached(u: seq<nat>) returns (moves: seq<(nat, Input)>, log: seq<Event>)
    requires AllFull(u)
    ensures Run(OneNode(Begin, false, false, 0, []), moves, |moves|)
         == OneNode(FoundFull(u, 0), true, true, MAX_THRESHOLD_COUNT + 1, log)
  {
    var s, i := OneNode(Begin, false, false, 0, []), Input(0, 0, u, FULL, false, false);
    var highest;
    moves, log, highest := LinesAreRead(u, MAX_THRESHOLD_COUNT);
    LimitIsPassed(u, i, log);
    moves := OneMoreMove(s, moves, 3, i);
    log := log + [DiskRead(3, FULL)] + [CounterPassed(3, MAX_THRESHOLD_COUNT + 1)];
  }

  function Rereading(u: seq<nat>, x: nat, active: bool, log: seq<Event>): State {
    OneNode(FoundFull(u, x), active, true, MAX_THRESHOLD_COUNT + 1, log)
  }

  lemma OneMoreReread(u: seq<nat>, s: State, moves: seq<(nat, Input)>, x: nat, active: bool, log: seq<Event>)
    returns (more: seq<(nat, Input)>)
    requires x < RECHECKS && Run(s, moves, |moves|) == Rereading(u, x, active, log)
    ensures Run(s, more, |more|) == Rereading(u, x + 1, false, log + [Reread(3, FULL)])
  {
    var i := Input(0, 0, u, FULL, false, false);
    DiskIsReread(u, i, x, active, MAX_THRESHOLD_COUNT + 1, log);
    more := OneMoreMove(s, moves, 3, i);
  }

  lemma {:induction false} DisksAreReread(u: seq<nat>, x: nat)
    returns (moves: seq<(nat, Input)>, log: seq<Event>, active: bool)
    requires AllFull(u) && x <= RECHECKS
    ensures Run(OneNode(Begin, false, false, 0, []), moves, |moves|) == Rereading(u, x, active, log)
  {
    if x == 0 {
      moves, log := LimitIsReached(u);
      active := true;
    } else {
      moves, log, active := DisksAreReread(u, x - 1);
      moves := OneMoreReread(u, OneNode(Begin, false, false, 0, []), moves, x - 1, active, log);
      log, active := log + [Reread(3, FULL)], false;
    }
  }

  /** Some run does raise it: with one node, sixteen readings of a full disk and then
      five rereads. */
  lemma SomeRunRaises()
    ensures exists s, moves :: Init(s) && Run(s, moves, |moves|).outcome == RaisedFillup
  {
    var u: seq<nat> := seq(MAX_THRESHOLD_COUNT + 1, _ => FULL);
    var s, i := OneNode(Begin, false, false, 0, []), Input(0, 0, u, FULL, false, false);
    var moves, log, active := DisksAreReread(u, RECHECKS);
    moves := OneMoreMove(s, moves, 3, i);
    assert s.pcs == seq(|s.kinds|, _ => Begin);
    assert Init(s) && Run(s, moves, |moves|).outcome == RaisedFillup;
  }
}
