/** Statistics of assert tasks, kept by a callback plugin while a playbook runs.

    Counters are kept at three levels (run, group and host) and each is bumped
    on its own as results come in.  The results say that they always agree with
    each other and with the test entries that are recorded beside them. */
module AssertionStats {
  import opened Wrappers

  datatype Verdict = Passed | Skipped | Failed

  datatype Stats = Stats(assertions: nat, passed: nat, skipped: nat, failed: nat)

  const ZERO := Stats(0, 0, 0, 0)

  /** One recorded task: its assertions' verdicts and its own. */
  datatype TestEntry = TestEntry(name: string, tests: seq<Verdict>, verdict: Verdict)

  datatype Host = Host(stats: Stats, tests: seq<TestEntry>)

  datatype Group = Group(name: Option<string>, stats: Stats, hosts: map<string, Host>)

  /** What a task reports: whether it stands for a loop whose items are reported
      one by one, and its assertions (None if it lists none), each with what it
      evaluated to, if that is said. */
  datatype TaskResult = TaskResult(host: string, name: string, isLoop: bool, assertions: Option<seq<Option<bool>>>)

  datatype Event =
    | PlayStart(name: string)
    | Result(result: TaskResult, isAssert: bool, wasSkipped: bool)
    | TaskFailed(result: TaskResult, ignoreErrors: bool)
    | PlaybookStats

  datatype State = State(stats: Stats, groups: seq<Option<Group>>, group: Option<Group>)

  // ---------------------------------------------------------------------------
  // Specification of one step
  // ---------------------------------------------------------------------------

  function Plus(a: Stats, b: Stats): Stats {
    Stats(a.assertions + b.assertions, a.passed + b.passed, a.skipped + b.skipped, a.failed + b.failed)
  }

  /** How often a verdict occurs among the first n. */
  function Count(tests: seq<Verdict>, n: nat, v: Verdict): nat
    requires n <= |tests|
  {
    if n == 0 then 0 else Count(tests, n - 1, v) + if tests[n - 1] == v then 1 else 0
  }

  /** The counters that a list of verdicts stands for. */
  function Tally(tests: seq<Verdict>): Stats {
    Stats(|tests|, Count(tests, |tests|, Passed), Count(tests, |tests|, Skipped), Count(tests, |tests|, Failed))
  }

  datatype Key = AllAssertions | Of(v: Verdict)

  function One(key: Key): Stats {
    match key
    case AllAssertions => Stats(1, 0, 0, 0)
    case Of(Passed) => Stats(0, 1, 0, 0)
    case Of(Skipped) => Stats(0, 0, 1, 0)
    case Of(Failed) => Stats(0, 0, 0, 1)
  }

  function AddStats(g: Group, hostname: string, more: Stats): Group
    requires hostname in g.hosts
  {
    var host := g.hosts[hostname];
    g.(stats := Plus(g.stats, more), hosts := g.hosts[hostname := host.(stats := Plus(host.stats, more))])
  }

  lemma AddTwice(g: Group, hostname: string, a: Stats, b: Stats)
    requires hostname in g.hosts
    ensures AddStats(AddStats(g, hostname, a), hostname, b) == AddStats(g, hostname, Plus(a, b))
  {
    assert AddStats(AddStats(g, hostname, a), hostname, b).hosts == AddStats(g, hostname, Plus(a, b)).hosts;
  }

  lemma AddNothing(s: Stats, g: Group, hostname: string)
    requires hostname in g.hosts
    ensures Plus(s, Tally([])) == s && AddStats(g, hostname, Tally([])) == g
  {
    assert AddStats(g, hostname, Tally([])).hosts == g.hosts;
  }

  lemma PlusAssociates(a: Stats, b: Stats, c: Stats)
    ensures Plus(Plus(a, b), c) == Plus(a, Plus(b, c))
    ensures Plus(Plus(a, b), c) == Plus(Plus(a, c), b)
    ensures Plus(a, b) == Plus(b, a) && Plus(ZERO, a) == a && Plus(a, ZERO) == a
  {
  }

  lemma CountOfOne(v: Verdict, w: Verdict)
    ensures Count([v], 1, w) == if v == w then 1 else 0
  {
    assert Count([v], 0, w) == 0;
  }

  lemma {:induction false} CountConcat(a: seq<Verdict>, b: seq<Verdict>, n: nat, v: Verdict)
    requires n <= |b|
    ensures Count(a + b, |a| + n, v) == Count(a, |a|, v) + Count(b, n, v)
    decreases n
  {
    if n == 0 {
      CountPrefix(a, a + b, |a|, v);
    } else {
      CountConcat(a, b, n - 1, v);
    }
  }

  lemma {:induction false} CountPrefix(a: seq<Verdict>, b: seq<Verdict>, n: nat, v: Verdict)
    requires a <= b && n <= |a|
    ensures Count(a, n, v) == Count(b, n, v)
  {
    if n > 0 {
      CountPrefix(a, b, n - 1, v);
    }
  }

  lemma TallyConcat(a: seq<Verdict>, b: seq<Verdict>)
    ensures Tally(a + b) == Plus(Tally(a), Tally(b))
  {
    CountConcat(a, b, |b|, Passed);
    CountConcat(a, b, |b|, Skipped);
    CountConcat(a, b, |b|, Failed);
  }

  function VerdictOf(evaluated: Option<bool>, wasSkipped: bool): Verdict {
    if wasSkipped then Skipped else if evaluated == Some(false) then Failed else Passed
  }

  /** The verdicts of a result; one that lists no assertions counts as having one. */
  function Verdicts(r: TaskResult, wasSkipped: bool): seq<Verdict> {
    var listed := if r.assertions.Some? then r.assertions.value else [None];
    seq(|listed|, i requires 0 <= i < |listed| => VerdictOf(listed[i], wasSkipped))
  }

  /** A task failed if an assertion did, and was skipped if all of them were. */
  function Overall(tests: seq<Verdict>): Verdict {
    if Failed in tests then Failed
    else if forall v | v in tests :: v == Skipped then Skipped
    else Passed
  }

  /** The group with the host in it. */
  function Started(g: Group, hostname: string): Group {
    if hostname in g.hosts then g else g.(hosts := g.hosts[hostname := Host(ZERO, [])])
  }

  function Record(s: State, r: TaskResult, wasSkipped: bool): State {
    match s.group
    case None => s
    case Some(g) =>
      var g0 := Started(g, r.host);
      if r.isLoop then s.(group := Some(g0))
      else
        var tests := Verdicts(r, wasSkipped);
        var host := g0.hosts[r.host];
        var host' := Host(Plus(host.stats, Tally(tests)), host.tests + [TestEntry(r.name, tests, Overall(tests))]);
        s.(stats := Plus(s.stats, Tally(tests)),
           group := Some(g0.(stats := Plus(g0.stats, Tally(tests)), hosts := g0.hosts[r.host := host'])))
  }

  function Closed(s: State): State {
    s.(groups := s.groups + [s.group], group := None)
  }

  function Step(s: State, e: Event): State {
    match e
    case PlayStart(name) => Closed(s).(group := Some(Group(Some(name), ZERO, map[])))
    case Result(r, isAssert, wasSkipped) => if isAssert then Record(s, r, wasSkipped) else s
    case TaskFailed(_, _) => s
    case PlaybookStats => Closed(s)
  }

  // ---------------------------------------------------------------------------
  // The plugin
  // ---------------------------------------------------------------------------

  class CallbackModule {
    var stats: Stats
    var groups: seq<Option<Group>>
    var group: Option<Group>

    ghost function Now(): State
      reads this
    {
      State(stats, groups, group)
    }

    constructor ()
      ensures Now() == State(ZERO, [], None)
    {
      stats, groups, group := ZERO, [], None;
    }

    method StartHost(hostname: string)
      requires group.Some?
      modifies `group
      ensures group == Some(old(group).value.(hosts := old(group).value.hosts[hostname := Host(ZERO, [])]))
    {
      group := Some(group.value.(hosts := group.value.hosts[hostname := Host(ZERO, [])]));
    }

    method StartGroup(name: Option<string>)
      modifies `group
      ensures group == Some(Group(name, ZERO, map[]))
    {
      group := Some(Group(None, ZERO, map[]));
      if name.Some? {
        group := Some(group.value.(name := name));
      }
    }

    /** Bumps one counter at the three levels. */
    method IncStats(key: Key, hostname: string)
      requires group.Some? && hostname in group.value.hosts
      modifies `stats, `group
      ensures stats == Plus(old(stats), One(key))
      ensures group == Some(AddStats(old(group).value, hostname, One(key)))
    {
      stats := Plus(stats, One(key));
      var g := group.value;
      var host := g.hosts[hostname];
      var host' := host.(stats := Plus(host.stats, One(key)));
      group := Some(g.(stats := Plus(g.stats, One(key)), hosts := g.hosts[hostname := host']));
    }

    /** Counts one assertion, by its verdict and among all of them. */
    method CountAssertion(evaluated: Option<bool>, wasSkipped: bool, hostname: string) returns (testresult: Verdict)
      requires group.Some? && hostname in group.value.hosts
      modifies `stats, `group
      ensures testresult == VerdictOf(evaluated, wasSkipped)
      ensures testresult == Failed <==> !wasSkipped && evaluated == Some(false)
      ensures testresult == Skipped <==> wasSkipped
      ensures stats == Plus(old(stats), Tally([testresult]))
      ensures group == Some(AddStats(old(group).value, hostname, Tally([testresult])))
    {
      var failed := evaluated == Some(false);
      ghost var g, all := group.value, One(AllAssertions);
      IncStats(AllAssertions, hostname);
      if wasSkipped {
        testresult := Skipped;
      } else if failed {
        testresult := Failed;
      } else {
        testresult := Passed;
      }
      IncStats(Of(testresult), hostname);
      ghost var one := One(Of(testresult));
      assert Tally([testresult]) == Plus(all, one) by {
        CountOfOne(testresult, Passed);
        CountOfOne(testresult, Skipped);
        CountOfOne(testresult, Failed);
      }
      assert group == Some(AddStats(g, hostname, Plus(all, one))) by { AddTwice(g, hostname, all, one); }
      assert stats == Plus(old(stats), Plus(all, one)) by { PlusAssociates(old(stats), all, one); }
    }

    /** One more verdict: adding its tally is adding it to the tally so far. */
    static lemma CountOneMore(start: Stats, g: Group, hostname: string, tests: seq<Verdict>, v: Verdict)
      requires hostname in g.hosts
      ensures Plus(Plus(start, Tally(tests)), Tally([v])) == Plus(start, Tally(tests + [v]))
      ensures AddStats(AddStats(g, hostname, Tally(tests)), hostname, Tally([v]))
           == AddStats(g, hostname, Tally(tests + [v]))
    {
      PlusAssociates(start, Tally(tests), Tally([v]));
      AddTwice(g, hostname, Tally(tests), Tally([v]));
      TallyConcat(tests, [v]);
    }

    /** The loop over the assertions of a result. */
    method CountAssertions(result: TaskResult, wasSkipped: bool) returns (tests: seq<Verdict>)
      requires group.Some? && result.host in group.value.hosts
      modifies `stats, `group
      ensures tests == Verdicts(result, wasSkipped)
      ensures stats == Plus(old(stats), Tally(tests)) == Plus(old(stats), Adds(result, wasSkipped))
      ensures group == Some(AddStats(old(group).value, result.host, Tally(tests)))
    {
      ghost var start, g0, hostname := stats, group.value, result.host;
      tests := [];
      AddNothing(start, g0, hostname);
      var listed := if result.assertions.Some? then result.assertions.value else [None];
      for i := 0 to |listed|
        invariant tests == Verdicts(result, wasSkipped)[..i]
        invariant stats == Plus(start, Tally(tests))
        invariant group == Some(AddStats(g0, hostname, Tally(tests)))
      {
        var testresult := CountAssertion(listed[i], wasSkipped, result.host);
        CountOneMore(start, g0, hostname, tests, testresult);
        tests := tests + [testresult];
      }
      assert tests == Verdicts(result, wasSkipped);
      VerdictsCount(result, wasSkipped);
    }

    /** The last part: gives the task its own verdict and records its entry. */
    method AppendEntry(hostname: string, name: string, tests: seq<Verdict>)
      requires group.Some? && hostname in group.value.hosts
      modifies `group
      ensures var g, host := old(group).value, old(group).value.hosts[hostname];
              var host' := host.(tests := host.tests + [TestEntry(name, tests, Overall(tests))]);
              group == Some(g.(hosts := g.hosts[hostname := host']))
    {
      var failed := exists v | v in tests :: v == Failed;
      var skipped := forall v | v in tests :: v == Skipped;
      var verdict := if failed then Failed else if skipped then Skipped else Passed;
      var g := group.value;
      var host := g.hosts[hostname];
      group := Some(g.(hosts := g.hosts[hostname := host.(tests := host.tests + [TestEntry(name, tests, verdict)])]));
    }

    /** Counts and records one result.  Before the first play there is no group
        and the lookup fails with nothing changed; a loop's summary registers the
        host and is otherwise ignored. */
    method ProcessAssertResult(result: TaskResult, wasSkipped: bool) returns (raised: bool)
      modifies this
      ensures Now() == Record(old(Now()), result, wasSkipped)
      ensures raised <==> old(group).None?
      ensures stats == if raised || result.isLoop then old(stats) else Plus(old(stats), Adds(result, wasSkipped))
    {
      if group.None? {
        return true;
      }
      var hostname := result.host;
      if hostname !in group.value.hosts {
        StartHost(hostname);
      }
      if result.isLoop {
        return false;
      }
      var tests := CountAssertions(result, wasSkipped);
      AppendEntry(hostname, result.name, tests);
      assert group.value.hosts == Record(old(Now()), result, wasSkipped).group.value.hosts;
      return false;
    }

    method CloseGroup()
      modifies this
      ensures Now() == Closed(old(Now()))
    {
      groups := groups + [group];
      group := None;
    }

    method OnEvent(e: Event)
      modifies this
      ensures Now() == Step(old(Now()), e)
    {
      match e
      case PlayStart(name) =>
        CloseGroup();
        StartGroup(Some(name));
      case Result(result, isAssert, wasSkipped) =>
        if isAssert {
          var _ := ProcessAssertResult(result, wasSkipped);
        }
      case TaskFailed(_, _) =>
      case PlaybookStats =>
        CloseGroup();
    }

    /** The report written at the end leaves out the missing groups. */
    method Report() returns (report: seq<Group>)
      ensures report == Given(groups, |groups|)
    {
      report := [];
      for i := 0 to |groups|
        invariant report == Given(groups, i)
      {
        if groups[i].Some? {
          report := report + [groups[i].value];
        }
      }
    }
  }

  /** The groups among the first n that are there. */
  function Given(groups: seq<Option<Group>>, n: nat): seq<Group>
    requires n <= |groups|
  {
    if n == 0 then []
    else Given(groups, n - 1) + if groups[n - 1].Some? then [groups[n - 1].value] else []
  }

  // ---------------------------------------------------------------------------
  // Every run
  // ---------------------------------------------------------------------------

  function Run(events: seq<Event>): State {
    if |events| == 0 then State(ZERO, [], None)
    else Step(Run(events[..|events| - 1]), events[|events| - 1])
  }

  ghost predicate Balanced(s: Stats) { s.assertions == s.passed + s.skipped + s.failed }

  /** One counter. */
  function Get(s: Stats, k: Key): nat {
    match k
    case AllAssertions => s.assertions
    case Of(Passed) => s.passed
    case Of(Skipped) => s.skipped
    case Of(Failed) => s.failed
  }

  ghost function AnyKey(hosts: map<string, Host>): (n: string)
    requires |hosts| != 0
    ensures n in hosts
  {
    var n :| n in hosts; n
  }

  /** The sum of one counter over the hosts. */
  ghost function SumHosts(hosts: map<string, Host>, k: Key): nat
    decreases |hosts|
  {
    if |hosts| == 0 then 0
    else Get(hosts[AnyKey(hosts)].stats, k) + SumHosts(hosts - {AnyKey(hosts)}, k)
  }

  ghost function StatsOf(g: Option<Group>): Stats {
    if g.Some? then g.value.stats else ZERO
  }

  /** The sum of one counter over the first n groups. */
  ghost function SumGroups(groups: seq<Option<Group>>, n: nat, k: Key): nat
    requires n <= |groups|
  {
    if n == 0 then 0 else SumGroups(groups, n - 1, k) + Get(StatsOf(groups[n - 1]), k)
  }

  /** All verdicts recorded in the first n entries. */
  ghost function Recorded(entries: seq<TestEntry>, n: nat): seq<Verdict>
    requires n <= |entries|
  {
    if n == 0 then [] else Recorded(entries, n - 1) + entries[n - 1].tests
  }

  /** A host's counters are those of its recorded verdicts, and every entry's own
      verdict follows from its tests. */
  ghost predicate HostAgrees(h: Host) {
    && h.stats == Tally(Recorded(h.tests, |h.tests|))
    && forall e | e in h.tests :: e.verdict == Overall(e.tests)
  }

  ghost predicate HostsAgree(hosts: map<string, Host>) {
    forall n | n in hosts :: HostAgrees(hosts[n])
  }

  /** A group's counters are the sum of its hosts'. */
  ghost predicate GroupAgrees(g: Group) {
    (forall k: Key :: Get(g.stats, k) == SumHosts(g.hosts, k)) && HostsAgree(g.hosts)
  }

  /** The run's counters are the sum over all groups, the open one included. */
  ghost predicate Agrees(s: State) {
    && (forall k: Key :: Get(s.stats, k) == SumGroups(s.groups, |s.groups|, k) + Get(StatsOf(s.group), k))
    && (forall g | g in s.groups && g.Some? :: GroupAgrees(g.value))
    && (s.group.Some? ==> GroupAgrees(s.group.value))
  }

  /** Which host the sum starts with does not matter. */
  lemma {:induction false} SumHostsSplit(hosts: map<string, Host>, n: string, k: Key)
    requires n in hosts
    ensures SumHosts(hosts, k) == Get(hosts[n].stats, k) + SumHosts(hosts - {n}, k)
    decreases |hosts|
  {
    var m := AnyKey(hosts);
    if m != n {
      SumHostsSplit(hosts - {m}, n, k);
      SumHostsSplit(hosts - {n}, m, k);
      assert hosts - {m} - {n} == hosts - {n} - {m};
    }
  }

  lemma SumWithHost(hosts: map<string, Host>, n: string, h: Host, k: Key)
    ensures SumHosts(hosts[n := h], k)
         == SumHosts(hosts, k) + Get(h.stats, k) - if n in hosts then Get(hosts[n].stats, k) else 0
  {
    SumHostsSplit(hosts[n := h], n, k);
    if n in hosts {
      SumHostsSplit(hosts, n, k);
      assert hosts[n := h] - {n} == hosts - {n};
    } else {
      assert hosts[n := h] - {n} == hosts;
    }
  }

  lemma NewHostAgrees(h: Host)
    requires h == Host(ZERO, [])
    ensures HostAgrees(h)
  {
  }

  lemma StartedAgrees(g: Group, hostname: string)
    requires GroupAgrees(g)
    ensures GroupAgrees(Started(g, hostname)) && hostname in Started(g, hostname).hosts
  {
    if hostname !in g.hosts {
      var h := Host(ZERO, []);
      NewHostAgrees(h);
      forall k: Key {
        SumWithHost(g.hosts, hostname, h, k);
      }
      assert HostsAgree(g.hosts[hostname := h]);
    }
  }

  lemma {:induction false} RecordedPrefix(entries: seq<TestEntry>, more: seq<TestEntry>, n: nat)
    requires entries <= more && n <= |entries|
    ensures Recorded(entries, n) == Recorded(more, n)
  {
    if n > 0 { RecordedPrefix(entries, more, n - 1); }
  }

  lemma {:induction false} SumGroupsPrefix(groups: seq<Option<Group>>, more: seq<Option<Group>>, n: nat, k: Key)
    requires groups <= more && n <= |groups|
    ensures SumGroups(groups, n, k) == SumGroups(more, n, k)
  {
    if n > 0 { SumGroupsPrefix(groups, more, n - 1, k); }
  }

  lemma RecordedHostAgrees(h: Host, name: string, tests: seq<Verdict>)
    requires HostAgrees(h)
    ensures HostAgrees(Host(Plus(h.stats, Tally(tests)), h.tests + [TestEntry(name, tests, Overall(tests))]))
  {
    RecordedPrefix(h.tests, h.tests + [TestEntry(name, tests, Overall(tests))], |h.tests|);
    TallyConcat(Recorded(h.tests, |h.tests|), tests);
  }

  lemma GetOfPlus(a: Stats, b: Stats, k: Key)
    ensures Get(Plus(a, b), k) == Get(a, k) + Get(b, k)
  {
  }

  /** Recording one task at one host keeps group and host in agreement. */
  lemma RecordedAgrees(g: Group, hostname: string, name: string, tests: seq<Verdict>)
    requires GroupAgrees(g) && hostname in g.hosts
    ensures var host := g.hosts[hostname];
            var host' := Host(Plus(host.stats, Tally(tests)), host.tests + [TestEntry(name, tests, Overall(tests))]);
            GroupAgrees(g.(stats := Plus(g.stats, Tally(tests)), hosts := g.hosts[hostname := host']))
  {
    var host := g.hosts[hostname];
    RecordedHostAgrees(host, name, tests);
    var host' := Host(Plus(host.stats, Tally(tests)), host.tests + [TestEntry(name, tests, Overall(tests))]);
    var g' := g.(stats := Plus(g.stats, Tally(tests)), hosts := g.hosts[hostname := host']);
    forall k: Key
      ensures Get(g'.stats, k) == SumHosts(g'.hosts, k)
    {
      SumWithHost(g.hosts, hostname, host', k);
      assert Get(g.stats, k) == SumHosts(g.hosts, k);
      GetOfPlus(g.stats, Tally(tests), k);
      GetOfPlus(host.stats, Tally(tests), k);
    }
    assert HostsAgree(g'.hosts);
  }

  lemma ClosedAgrees(s: State)
    requires Agrees(s)
    ensures Agrees(Closed(s))
  {
    var n, s' := |s.groups|, Closed(s);
    forall k: Key
      ensures Get(s'.stats, k) == SumGroups(s'.groups, |s'.groups|, k) + Get(StatsOf(s'.group), k)
    {
      SumGroupsPrefix(s.groups, s'.groups, n, k);
      assert Get(s.stats, k) == SumGroups(s.groups, n, k) + Get(StatsOf(s.group), k);
      assert s'.groups[n] == s.group;
      NothingInZero(k);
    }
  }

  lemma NothingInZero(k: Key)
    ensures Get(ZERO, k) == 0
  {
    match k case AllAssertions => case Of(v) => match v case Passed => case Skipped => case Failed =>
  }

  lemma RecordAgrees(s: State, r: TaskResult, wasSkipped: bool)
    requires Agrees(s) && s.group.Some?
    ensures Agrees(Record(s, r, wasSkipped))
  {
    var g0, s' := Started(s.group.value, r.host), Record(s, r, wasSkipped);
    StartedAgrees(s.group.value, r.host);
    if !r.isLoop {
      var tests := Verdicts(r, wasSkipped);
      RecordedAgrees(g0, r.host, r.name, tests);
      forall k: Key
        ensures Get(s'.stats, k) == SumGroups(s'.groups, |s'.groups|, k) + Get(StatsOf(s'.group), k)
      {
        GetOfPlus(s.stats, Tally(tests), k);
        GetOfPlus(g0.stats, Tally(tests), k);
        assert Get(s.stats, k) == SumGroups(s.groups, |s.groups|, k) + Get(StatsOf(s.group), k);
      }
    }
  }

  lemma StepAgrees(s: State, e: Event)
    requires Agrees(s)
    ensures Agrees(Step(s, e))
  {
    match e
    case PlayStart(name) =>
      ClosedAgrees(s);
      NewGroupAgrees(Group(Some(name), ZERO, map[]));
    case Result(r, isAssert, wasSkipped) =>
      if isAssert && s.group.Some? {
        RecordAgrees(s, r, wasSkipped);
      }
    case TaskFailed(_, _) =>
    case PlaybookStats =>
      ClosedAgrees(s);
  }

  lemma NewGroupAgrees(g: Group)
    requires g.stats == ZERO && g.hosts == map[]
    ensures GroupAgrees(g) && forall k: Key :: Get(g.stats, k) == 0
  {
  }

  /** In every reachable state the three levels and the recorded entries agree. */
  lemma {:induction false} RunsAgree(events: seq<Event>)
    ensures Agrees(Run(events))
  {
    if |events| != 0 {
      RunsAgree(events[..|events| - 1]);
      StepAgrees(Run(events[..|events| - 1]), events[|events| - 1]);
    }
  }

  lemma {:induction false} CountsAddUp(tests: seq<Verdict>, n: nat)
    requires n <= |tests|
    ensures n == Count(tests, n, Passed) + Count(tests, n, Skipped) + Count(tests, n, Failed)
  {
    if n > 0 {
      CountsAddUp(tests, n - 1);
    }
  }

  lemma HostIsBalanced(h: Host)
    requires HostAgrees(h)
    ensures Balanced(h.stats)
  {
    var tests := Recorded(h.tests, |h.tests|);
    CountsAddUp(tests, |tests|);
  }

  lemma {:induction false} SumHostsIsBalanced(hosts: map<string, Host>)
    requires HostsAgree(hosts)
    ensures SumHosts(hosts, AllAssertions)
         == SumHosts(hosts, Of(Passed)) + SumHosts(hosts, Of(Skipped)) + SumHosts(hosts, Of(Failed))
    decreases |hosts|
  {
    if |hosts| != 0 {
      var n := AnyKey(hosts);
      HostIsBalanced(hosts[n]);
      SumHostsIsBalanced(hosts - {n});
    }
  }

  lemma GroupIsBalanced(g: Group)
    requires GroupAgrees(g)
    ensures Balanced(g.stats)
  {
    SumHostsIsBalanced(g.hosts);
    assert Get(g.stats, AllAssertions) == SumHosts(g.hosts, AllAssertions);
    assert Get(g.stats, Of(Passed)) == SumHosts(g.hosts, Of(Passed));
    assert Get(g.stats, Of(Skipped)) == SumHosts(g.hosts, Of(Skipped));
    assert Get(g.stats, Of(Failed)) == SumHosts(g.hosts, Of(Failed));
  }

  lemma {:induction false} SumGroupsIsBalanced(groups: seq<Option<Group>>, n: nat)
    requires n <= |groups| && forall g | g in groups && g.Some? :: GroupAgrees(g.value)
    ensures SumGroups(groups, n, AllAssertions)
         == SumGroups(groups, n, Of(Passed)) + SumGroups(groups, n, Of(Skipped)) + SumGroups(groups, n, Of(Failed))
  {
    if n > 0 {
      assert groups[n - 1] in groups;
      SumGroupsIsBalanced(groups, n - 1);
      if groups[n - 1].Some? {
        GroupIsBalanced(groups[n - 1].value);
      }
    }
  }

  /** Every assertion is counted as exactly one of passed, skipped and failed: in
      the run, in each group and at each host, in every reachable state. */
  lemma RunsAreBalanced(events: seq<Event>)
    ensures var s := Run(events);
            && Balanced(s.stats)
            && forall g | (g in s.groups || g == s.group) && g.Some? ::
                 Balanced(g.value.stats) && forall n | n in g.value.hosts :: Balanced(g.value.hosts[n].stats)
  {
    var s := Run(events);
    RunsAgree(events);
    forall g | (g in s.groups || g == s.group) && g.Some?
      ensures Balanced(g.value.stats)
      ensures forall n | n in g.value.hosts :: Balanced(g.value.hosts[n].stats)
    {
      GroupIsBalanced(g.value);
      forall n | n in g.value.hosts ensures Balanced(g.value.hosts[n].stats) {
        HostIsBalanced(g.value.hosts[n]);
      }
    }
    SumGroupsIsBalanced(s.groups, |s.groups|);
    RunIsBalanced(s);
  }

  lemma RunIsBalanced(s: State)
    requires Agrees(s) && (s.group.Some? ==> Balanced(s.group.value.stats))
    requires var n := |s.groups|;
             SumGroups(s.groups, n, AllAssertions)
             == SumGroups(s.groups, n, Of(Passed)) + SumGroups(s.groups, n, Of(Skipped))
                + SumGroups(s.groups, n, Of(Failed))
    ensures Balanced(s.stats)
  {
    var n := |s.groups|;
    assert Get(s.stats, AllAssertions) == SumGroups(s.groups, n, AllAssertions) + Get(StatsOf(s.group), AllAssertions);
    assert Get(s.stats, Of(Passed)) == SumGroups(s.groups, n, Of(Passed)) + Get(StatsOf(s.group), Of(Passed));
    assert Get(s.stats, Of(Skipped)) == SumGroups(s.groups, n, Of(Skipped)) + Get(StatsOf(s.group), Of(Skipped));
    assert Get(s.stats, Of(Failed)) == SumGroups(s.groups, n, Of(Failed)) + Get(StatsOf(s.group), Of(Failed));
  }

  // ---------------------------------------------------------------------------
  // The counters against the events themselves
  // ---------------------------------------------------------------------------

  /** A play is under way: the last start or end of one was a start. */
  ghost predicate InPlay(events: seq<Event>) {
    |events| != 0 &&
      var e := events[|events| - 1];
      e.PlayStart? || (!e.PlaybookStats? && InPlay(events[..|events| - 1]))
  }

  /** The verdicts of the assert results that came in during plays, in order. */
  ghost function Reported(events: seq<Event>): seq<Verdict> {
    if |events| == 0 then []
    else
      var before, e := events[..|events| - 1], events[|events| - 1];
      Reported(before)
      + if e.Result? && e.isAssert && !e.result.isLoop && InPlay(before) then Verdicts(e.result, e.wasSkipped) else []
  }

  ghost function Plays(events: seq<Event>): seq<string> {
    if |events| == 0 then []
    else
      var e := events[|events| - 1];
      Plays(events[..|events| - 1]) + if e.PlayStart? then [e.name] else []
  }

  lemma {:induction false} GivenPrefix(groups: seq<Option<Group>>, more: seq<Option<Group>>, n: nat)
    requires groups <= more && n <= |groups|
    ensures Given(groups, n) == Given(more, n)
  {
    if n > 0 { GivenPrefix(groups, more, n - 1); }
  }

  /** The run's counters are those of the results that came in during plays. */
  lemma {:induction false} RunCountsWhatWasReported(events: seq<Event>)
    ensures var s := Run(events);
            s.stats == Tally(Reported(events)) && (s.group.Some? <==> InPlay(events))
  {
    if |events| != 0 {
      var before, e := events[..|events| - 1], events[|events| - 1];
      RunCountsWhatWasReported(before);
      if e.Result? && e.isAssert && !e.result.isLoop && InPlay(before) {
        TallyConcat(Reported(before), Verdicts(e.result, e.wasSkipped));
      } else {
        assert Reported(events) == Reported(before);
      }
    }
  }

  /** All groups, the open one last. */
  ghost function AllGroups(s: State): seq<Group> {
    Given(s.groups, |s.groups|) + if s.group.Some? then [s.group.value] else []
  }

  ghost predicate AreNames(groups: seq<Group>, names: seq<string>) {
    |groups| == |names| && forall i | 0 <= i < |groups| :: groups[i].name == Some(names[i])
  }

  lemma ClosingKeepsGroups(s: State)
    ensures AllGroups(Closed(s)) == AllGroups(s)
  {
    GivenPrefix(s.groups, Closed(s).groups, |s.groups|);
  }

  lemma StepKeepsGroupNames(s: State, e: Event, names: seq<string>)
    requires AreNames(AllGroups(s), names)
    ensures AreNames(AllGroups(Step(s, e)), names + if e.PlayStart? then [e.name] else [])
  {
    ClosingKeepsGroups(s);
    assert names + [] == names;
    if e.PlayStart? {
      assert AllGroups(Step(s, e)) == AllGroups(Closed(s)) + [Group(Some(e.name), ZERO, map[])];
    }
  }

  /** The groups are the plays, in order. */
  lemma {:induction false} GroupsAreThePlays(events: seq<Event>)
    ensures AreNames(AllGroups(Run(events)), Plays(events))
  {
    if |events| != 0 {
      var before, e := events[..|events| - 1], events[|events| - 1];
      GroupsAreThePlays(before);
      StepKeepsGroupNames(Run(before), e, Plays(before));
    }
  }

  /** How often a group, or its absence, is closed. */
  ghost function Closings(events: seq<Event>): nat {
    if |events| == 0 then 0
    else
      var e := events[|events| - 1];
      Closings(events[..|events| - 1]) + if e.PlayStart? || e.PlaybookStats? then 1 else 0
  }

  /** Every start of a play and the end of the playbook leave one entry, also when no
      group is open. */
  lemma {:induction false} EveryClosingIsKept(events: seq<Event>)
    ensures |Run(events).groups| == Closings(events)
  {
    if |events| != 0 {
      EveryClosingIsKept(events[..|events| - 1]);
    }
  }

  /** Groups that were closed stay as they are, whatever happens afterwards. */
  lemma {:induction false} ClosedGroupsStay(events: seq<Event>, more: seq<Event>)
    ensures Run(events).groups <= Run(events + more).groups
  {
    var all, n := events + more, |more| - 1;
    if |more| == 0 {
      assert all == events;
    } else {
      ClosedGroupsStay(events, more[..n]);
      assert all[..|all| - 1] == events + more[..n] && all[|all| - 1] == more[n];
      assert Run(all) == Step(Run(events + more[..n]), more[n]);
    }
  }

  // ---------------------------------------------------------------------------
  // The counters against what the assertions evaluated to
  // ---------------------------------------------------------------------------

  /** How many assertions a result stands for: one if it lists none. */
  ghost function Size(r: TaskResult): nat {
    if r.assertions.Some? then |r.assertions.value| else 1
  }

  /** How many of them are said to have evaluated to false. */
  ghost function Falses(r: TaskResult): nat {
    if r.assertions.Some? then multiset(r.assertions.value)[Some(false)] else 0
  }

  ghost predicate IsFalse(r: TaskResult, i: nat) {
    r.assertions.Some? && i < |r.assertions.value| && r.assertions.value[i] == Some(false)
  }

  /** An assertion failed if and only if it was not skipped and is said to be false,
      and was skipped if and only if its task was. */
  lemma VerdictsMean(r: TaskResult, wasSkipped: bool)
    ensures var tests := Verdicts(r, wasSkipped);
            && |tests| == Size(r)
            && (forall i | 0 <= i < |tests| :: tests[i] == Failed <==> !wasSkipped && IsFalse(r, i))
            && (forall i | 0 <= i < |tests| :: tests[i] == Skipped <==> wasSkipped)
  {
    var listed, tests := if r.assertions.Some? then r.assertions.value else [None], Verdicts(r, wasSkipped);
    forall i | 0 <= i < |tests|
      ensures tests[i] == Failed <==> !wasSkipped && IsFalse(r, i)
      ensures tests[i] == Skipped <==> wasSkipped
    {
      assert tests[i] == VerdictOf(listed[i], wasSkipped);
    }
  }

  lemma {:induction false} FalsesAreFailed(tests: seq<Verdict>, listed: seq<Option<bool>>, n: nat)
    requires n <= |tests| == |listed|
    requires forall i | 0 <= i < |tests| :: tests[i] == Failed <==> listed[i] == Some(false)
    ensures Count(tests, n, Failed) == multiset(listed[..n])[Some(false)]
  {
    if n > 0 {
      FalsesAreFailed(tests, listed, n - 1);
      assert listed[..n] == listed[..n - 1] + [listed[n - 1]];
    }
  }

  lemma {:induction false} CountOfAll(tests: seq<Verdict>, v: Verdict, n: nat)
    requires n <= |tests|
    ensures (forall i | 0 <= i < n :: tests[i] == v) ==> Count(tests, n, v) == n
    ensures (forall i | 0 <= i < n :: tests[i] != v) ==> Count(tests, n, v) == 0
  {
    if n > 0 {
      CountOfAll(tests, v, n - 1);
    }
  }

  /** What a result adds to the counters, by what its assertions evaluated to. */
  ghost function Adds(r: TaskResult, wasSkipped: bool): Stats {
    if wasSkipped then Stats(Size(r), 0, Size(r), 0)
    else
      FewerFalses(r);
      Stats(Size(r), Size(r) - Falses(r), 0, Falses(r))
  }

  lemma FewerFalses(r: TaskResult)
    ensures Falses(r) <= Size(r)
  {
    if r.assertions.Some? {
      assert multiset(r.assertions.value)[Some(false)] <= |multiset(r.assertions.value)|;
    }
  }

  lemma VerdictsCount(r: TaskResult, wasSkipped: bool)
    ensures Tally(Verdicts(r, wasSkipped)) == Adds(r, wasSkipped)
  {
    var tests := Verdicts(r, wasSkipped);
    VerdictsMean(r, wasSkipped);
    CountsAddUp(tests, |tests|);
    CountOfAll(tests, Skipped, |tests|);
    CountOfAll(tests, Failed, |tests|);
    if !wasSkipped && r.assertions.Some? {
      FalsesAreFailed(tests, r.assertions.value, |tests|);
      assert r.assertions.value[..|tests|] == r.assertions.value;
    }
  }

  ghost predicate IsCounted(before: seq<Event>, e: Event) {
    e.Result? && e.isAssert && !e.result.isLoop && InPlay(before)
  }

  /** What the assert results that came in during plays add to the counters. */
  ghost function Added(events: seq<Event>): Stats {
    if |events| == 0 then ZERO
    else
      var before, e := events[..|events| - 1], events[|events| - 1];
      Plus(Added(before), if IsCounted(before, e) then Adds(e.result, e.wasSkipped) else ZERO)
  }

  /** Over every run: the failed counter is the number of assertions that are said to
      be false in unskipped results during plays, and so for the others. */
  lemma {:induction false} RunCountsEvaluations(events: seq<Event>)
    ensures Run(events).stats == Added(events)
  {
    if |events| != 0 {
      var before, e := events[..|events| - 1], events[|events| - 1];
      RunCountsEvaluations(before);
      RunCountsWhatWasReported(before);
      StepAdds(Run(before), before, e);
    }
  }

  lemma StepAdds(s: State, before: seq<Event>, e: Event)
    requires s.group.Some? <==> InPlay(before)
    ensures Step(s, e).stats
         == Plus(s.stats, if IsCounted(before, e) then Adds(e.result, e.wasSkipped) else ZERO)
  {
    PlusAssociates(s.stats, ZERO, ZERO);
    if IsCounted(before, e) {
      VerdictsCount(e.result, e.wasSkipped);
      RecordAdds(s, e.result, e.wasSkipped);
    }
  }

  lemma RecordAdds(s: State, r: TaskResult, wasSkipped: bool)
    requires s.group.Some? && !r.isLoop
    ensures Record(s, r, wasSkipped).stats == Plus(s.stats, Tally(Verdicts(r, wasSkipped)))
  {
  }

  // ---------------------------------------------------------------------------
  // The recorded entries against the results
  // ---------------------------------------------------------------------------

  /** A task that was not skipped failed if one of its assertions did. */
  lemma OverallMeans(r: TaskResult, wasSkipped: bool)
    ensures var verdict := Overall(Verdicts(r, wasSkipped));
            && (verdict == Failed <==> !wasSkipped && Falses(r) > 0)
            && (verdict == Skipped <==> wasSkipped || Size(r) == 0)
  {
    var tests := Verdicts(r, wasSkipped);
    VerdictsMean(r, wasSkipped);
    assert |tests| > 0 ==> tests[0] in tests;
    if i :| 0 <= i < |tests| && tests[i] == Failed {
      assert r.assertions.value[i] in r.assertions.value;
    }
    if Falses(r) > 0 {
      assert Some(false) in r.assertions.value;
      var i :| 0 <= i < |tests| && r.assertions.value[i] == Some(false);
      assert !wasSkipped ==> tests[i] == Failed;
    }
  }

  /** The entry of a result: its name, a verdict for each assertion, and the task's
      own verdict. */
  ghost predicate EntryShows(entry: TestEntry, r: TaskResult, wasSkipped: bool) {
    && entry.name == r.name && |entry.tests| == Size(r)
    && (forall i | 0 <= i < |entry.tests| :: entry.tests[i] == Failed <==> !wasSkipped && IsFalse(r, i))
    && (forall i | 0 <= i < |entry.tests| :: entry.tests[i] == Skipped <==> wasSkipped)
    && (entry.verdict == Failed <==> !wasSkipped && Falses(r) > 0)
    && (entry.verdict == Skipped <==> wasSkipped || Size(r) == 0)
  }

  ghost predicate EntriesShow(entries: seq<TestEntry>, results: seq<Event>) {
    && |entries| == |results|
    && forall i | 0 <= i < |entries| ::
         results[i].Result? && EntryShows(entries[i], results[i].result, results[i].wasSkipped)
  }

  /** The hosts that an assert result came from since the play began. */
  ghost function HostsHeard(events: seq<Event>): set<string> {
    if |events| == 0 then {}
    else
      var before, e := events[..|events| - 1], events[|events| - 1];
      if e.PlayStart? || e.PlaybookStats? then {}
      else HostsHeard(before) + if e.Result? && e.isAssert && InPlay(before) then {e.result.host} else {}
  }

  /** The results of one host that are counted, since the play began. */
  ghost function ResultsOf(events: seq<Event>, host: string): seq<Event> {
    if |events| == 0 then []
    else
      var before, e := events[..|events| - 1], events[|events| - 1];
      if e.PlayStart? || e.PlaybookStats? then []
      else ResultsOf(before, host) + if IsCounted(before, e) && e.result.host == host then [e] else []
  }

  ghost predicate GroupShows(g: Group, events: seq<Event>) {
    && g.hosts.Keys == HostsHeard(events)
    && forall h | h in g.hosts :: EntriesShow(g.hosts[h].tests, ResultsOf(events, h))
  }

  lemma {:induction false} NothingUnheard(events: seq<Event>, host: string)
    ensures host !in HostsHeard(events) ==> ResultsOf(events, host) == []
  {
    if |events| != 0 {
      NothingUnheard(events[..|events| - 1], host);
    }
  }

  lemma OneMoreEntryShows(entries: seq<TestEntry>, results: seq<Event>, e: Event)
    requires EntriesShow(entries, results) && e.Result?
    ensures var tests := Verdicts(e.result, e.wasSkipped);
            EntriesShow(entries + [TestEntry(e.result.name, tests, Overall(tests))], results + [e])
  {
    VerdictsMean(e.result, e.wasSkipped);
    OverallMeans(e.result, e.wasSkipped);
  }

  lemma HostShows(entries: seq<TestEntry>, before: seq<Event>, e: Event, h: string)
    requires EntriesShow(entries, ResultsOf(before, h)) && InPlay(before) && e.Result? && e.isAssert
    ensures var tests := Verdicts(e.result, e.wasSkipped);
            EntriesShow(if h == e.result.host && !e.result.isLoop
                        then entries + [TestEntry(e.result.name, tests, Overall(tests))] else entries,
                        ResultsOf(before + [e], h))
  {
    var events := before + [e];
    assert events[..|events| - 1] == before;
    if h == e.result.host && !e.result.isLoop {
      OneMoreEntryShows(entries, ResultsOf(before, h), e);
    } else {
      assert ResultsOf(events, h) == ResultsOf(before, h) + [];
    }
  }

  /** What a result does to the hosts of the group. */
  lemma RecordedHosts(s: State, r: TaskResult, wasSkipped: bool)
    requires s.group.Some?
    ensures var hosts, hosts' := s.group.value.hosts, Record(s, r, wasSkipped).group.value.hosts;
            var was := if r.host in hosts then hosts[r.host].tests else [];
            var tests := Verdicts(r, wasSkipped);
            && hosts'.Keys == hosts.Keys + {r.host}
            && (forall h | h in hosts && h != r.host :: hosts'[h] == hosts[h])
            && hosts'[r.host].tests == if r.isLoop then was else was + [TestEntry(r.name, tests, Overall(tests))]
  {
  }

  lemma ResultShows(s: State, before: seq<Event>, e: Event)
    requires s.group.Some? && GroupShows(s.group.value, before) && InPlay(before)
    requires e.Result? && e.isAssert
    ensures GroupShows(Record(s, e.result, e.wasSkipped).group.value, before + [e])
  {
    var events, g, g' := before + [e], s.group.value, Record(s, e.result, e.wasSkipped).group.value;
    assert events[..|events| - 1] == before;
    NothingUnheard(before, e.result.host);
    RecordedHosts(s, e.result, e.wasSkipped);
    forall h | h in g'.hosts
      ensures EntriesShow(g'.hosts[h].tests, ResultsOf(events, h))
    {
      HostShows(if h in g.hosts then g.hosts[h].tests else [], before, e, h);
    }
  }

  lemma OtherEventShows(g: Group, before: seq<Event>, e: Event)
    requires GroupShows(g, before) && !e.PlayStart? && !e.PlaybookStats? && !(e.Result? && e.isAssert)
    ensures GroupShows(g, before + [e])
  {
    var events := before + [e];
    assert events[..|events| - 1] == before;
    assert HostsHeard(events) == HostsHeard(before);
    forall h | h in g.hosts
      ensures EntriesShow(g.hosts[h].tests, ResultsOf(events, h))
    {
      assert ResultsOf(events, h) == ResultsOf(before, h) + [];
    }
  }

  /** Over every run: the open group has exactly the hosts that were heard of in its
      play, and for each of them one entry for each counted result, in order. */
  lemma {:induction false} OpenGroupShowsResults(events: seq<Event>)
    ensures var s := Run(events);
            (s.group.Some? <==> InPlay(events)) && (s.group.Some? ==> GroupShows(s.group.value, events))
  {
    RunCountsWhatWasReported(events);
    if |events| != 0 {
      var before, e := events[..|events| - 1], events[|events| - 1];
      OpenGroupShowsResults(before);
      assert events == before + [e];
      if e.Result? && e.isAssert && InPlay(before) {
        ResultShows(Run(before), before, e);
      } else if InPlay(events) && !e.PlayStart? {
        OtherEventShows(Run(before).group.value, before, e);
      }
    }
  }

  /** The report has all groups that are there and no others. */
  lemma {:induction false} GivenAreThere(groups: seq<Option<Group>>, n: nat, g: Group)
    requires n <= |groups|
    ensures g in Given(groups, n) <==> Some(g) in groups[..n]
  {
    if n > 0 {
      GivenAreThere(groups, n - 1, g);
      assert groups[..n] == groups[..n - 1] + [groups[n - 1]];
    }
  }
}
