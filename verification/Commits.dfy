/** What goes into a changelog: the commits that are new in a release, and the
    sections they are sorted into. */
module Commits {
  import opened Strings
  import opened Wrappers

  datatype Commit = Commit(hash: string, summary: string)

  const FIX := "(fix)"
  const FEAT := "(feat)"
  const PERF := "(perf)"
  const SUS := "(sus)"

  predicate Accepted(summary: string) {
    StartsWith(summary, FIX) || StartsWith(summary, FEAT) || StartsWith(summary, PERF) || StartsWith(summary, SUS)
  }

  // ---------------------------------------------------------------------------
  // New commits
  // ---------------------------------------------------------------------------

  /** The dictionary of the first n commits by summary: of several commits with
      one summary the last one stays. */
  function Summaries(commits: seq<Commit>, n: nat): (m: map<string, Commit>)
    requires n <= |commits|
    ensures forall s | s in m :: m[s].summary == s && m[s] in commits
    ensures forall i | 0 <= i < n :: commits[i].summary in m
  {
    if n == 0 then map[]
    else
      Summaries(commits, n - 1)[commits[n - 1].summary := commits[n - 1]]
  }

  lemma {:induction false} SummariesKeepTheLast(commits: seq<Commit>, n: nat, i: nat)
    requires i < n <= |commits|
    requires forall j | i < j < n :: commits[j].summary != commits[i].summary
    ensures IsEntry(Summaries(commits, n), commits[i])
  {
    var before, last := Summaries(commits, n - 1), commits[n - 1];
    assert Summaries(commits, n) == before[last.summary := last];
    if i < n - 1 {
      SummariesKeepTheLast(commits, n - 1, i);
      assert last.summary != commits[i].summary;
    }
  }

  ghost function SummarySet(commits: seq<Commit>): set<string> {
    set c | c in commits :: c.summary
  }

  lemma KeysAreSummaries(commits: seq<Commit>)
    ensures Summaries(commits, |commits|).Keys == SummarySet(commits)
  {
    var m := Summaries(commits, |commits|);
    assert commits[..|commits|] == commits;
    forall s | s in SummarySet(commits) ensures s in m {
      var c :| c in commits && c.summary == s;
      var i :| 0 <= i < |commits| && commits[i] == c;
    }
    forall s | s in m ensures s in SummarySet(commits) {
      assert m[s] in commits;
    }
  }

  ghost predicate NoSummaryTwice(commits: seq<Commit>) {
    forall i, j | 0 <= i < j < |commits| :: commits[i].summary != commits[j].summary
  }

  predicate IsEntry(commitOf: map<string, Commit>, c: Commit) {
    c.summary in commitOf && commitOf[c.summary] == c
  }

  /** The comprehension over a set, which comes in no particular order: one commit
      for each accepted summary that is not taken. */
  method Pick(summaries: set<string>, commitOf: map<string, Commit>, taken: set<string>) returns (picked: seq<Commit>)
    requires summaries <= commitOf.Keys && forall s | s in commitOf :: commitOf[s].summary == s
    ensures NoSummaryTwice(picked)
    ensures SummarySet(picked) == set s | s in summaries && Accepted(s) && s !in taken
    ensures forall c | c in picked :: IsEntry(commitOf, c)
  {
    picked := [];
    var todo := summaries;
    while todo != {}
      invariant todo <= summaries && NoSummaryTwice(picked)
      invariant forall s :: s in SummarySet(picked) <==> s in summaries && s !in todo && Accepted(s) && s !in taken
      invariant forall c | c in picked :: c.summary in summaries && IsEntry(commitOf, c)
      decreases todo
    {
      var summary :| summary in todo;
      todo := todo - {summary};
      ghost var before := picked;
      if Accepted(summary) && summary !in taken {
        forall c | c in picked ensures c.summary != summary {
          assert c.summary in SummarySet(picked);
        }
        picked := picked + [commitOf[summary]];
        assert SummarySet(picked) == SummarySet(before) + {summary};
      }
    }
  }

  method UniqueCommits(previous: seq<Commit>, release: seq<Commit>, regular: Option<seq<Commit>>)
    returns (filtered: seq<Commit>)
    ensures NoSummaryTwice(filtered)
    ensures SummarySet(filtered) == set s | s in Fresh(previous, release, regular) && Accepted(s)
    ensures forall c | c in filtered ::
              || IsEntry(Summaries(release, |release|), c)
              || (regular.Some? && c.summary !in SummarySet(release)
                  && IsEntry(Summaries(regular.value, |regular.value|), c))
  {
    var previousSummaries := Summaries(previous, |previous|);
    var releaseSummaries := Summaries(release, |release|);
    KeysAreSummaries(previous);
    KeysAreSummaries(release);
    filtered := Pick(releaseSummaries.Keys - previousSummaries.Keys, releaseSummaries, {});
    ghost var before, now := SummarySet(previous), SummarySet(release);
    if regular.Some? {
      var branchSummaries := Summaries(regular.value, |regular.value|);
      KeysAreSummaries(regular.value);
      var taken := set c | c in filtered :: c.summary;
      var more := Pick(branchSummaries.Keys - releaseSummaries.Keys, branchSummaries, taken);
      FreshParts(now - before, SummarySet(regular.value) - now, taken);
      Extended(filtered, more);
      OnlyNewOnBranch(more, now);
      filtered := filtered + more;
    } else {
      FreshParts(now - before, {}, {});
    }
  }

  /** None of the further branch's new summaries was taken, so that test of the
      code never leaves one out. */
  lemma FreshParts(first: set<string>, second: set<string>, taken: set<string>)
    requires first !! second && taken <= first
    ensures (set s | s in second && Accepted(s) && s !in taken) == (set s | s in second && Accepted(s))
    ensures (set s | s in first && Accepted(s) && s !in {}) + (set s | s in second && Accepted(s))
         == set s | s in first + second && Accepted(s)
  {
  }

  lemma OnlyNewOnBranch(more: seq<Commit>, now: set<string>)
    requires SummarySet(more) !! now
    ensures forall c | c in more :: c.summary !in now
  {
    assert forall c | c in more :: c.summary in SummarySet(more);
  }

  /** The summaries that are new: in the release but not in the one before, or on
      the further branch but not in the release. */
  ghost function Fresh(previous: seq<Commit>, release: seq<Commit>, regular: Option<seq<Commit>>): set<string> {
    (SummarySet(release) - SummarySet(previous))
    + if regular.Some? then SummarySet(regular.value) - SummarySet(release) else {}
  }

  ghost predicate IsAmong(commits: seq<Commit>, s: string) {
    exists c :: c in commits && c.summary == s
  }

  lemma FreshIff(previous: seq<Commit>, release: seq<Commit>, regular: Option<seq<Commit>>, s: string)
    ensures s in Fresh(previous, release, regular) <==>
            || (IsAmong(release, s) && !IsAmong(previous, s))
            || (regular.Some? && IsAmong(regular.value, s) && !IsAmong(release, s))
  {
  }

  lemma Extended(commits: seq<Commit>, more: seq<Commit>)
    requires NoSummaryTwice(commits) && NoSummaryTwice(more) && SummarySet(commits) !! SummarySet(more)
    ensures NoSummaryTwice(commits + more) && SummarySet(commits + more) == SummarySet(commits) + SummarySet(more)
  {
    var all := commits + more;
    forall i, j | 0 <= i < j < |all| ensures all[i].summary != all[j].summary {
      if i < |commits| <= j {
        assert all[i].summary in SummarySet(commits) && all[j].summary in SummarySet(more);
      }
    }
    forall s | s in SummarySet(commits) + SummarySet(more) ensures s in SummarySet(all) {
      if s in SummarySet(commits) {
        var c :| c in commits && c.summary == s;
        assert c in all;
      } else {
        var c :| c in more && c.summary == s;
        assert c in all;
      }
    }
  }

  // ---------------------------------------------------------------------------
  // Sections
  // ---------------------------------------------------------------------------

  datatype Section = Section(title: string, prefix: string, commits: seq<Commit>)

  /** The commits with a prefix, among the first n. */
  function FilterCommits(commits: seq<Commit>, prefix: string, n: nat): seq<Commit>
    requires n <= |commits|
  {
    if n == 0 then []
    else
      var last := commits[n - 1];
      FilterCommits(commits, prefix, n - 1) + if StartsWith(last.summary, prefix) then [last] else []
  }

  function MakeSection(title: string, commits: seq<Commit>, prefix: string): Section {
    Section(title, prefix, FilterCommits(commits, prefix, |commits|))
  }

  function NonEmpty(s: Section): seq<Section> {
    if |s.commits| == 0 then [] else [s]
  }

  /** The sections that have a commit.  For an empty list the code asks the section
      for commits it does not have yet, and raises. */
  function MakeSections(commits: seq<Commit>): Result<seq<Section>, string> {
    if |commits| == 0 then Err("AttributeError")
    else Ok(NonEmpty(MakeSection("Added", commits, FEAT)) + NonEmpty(MakeSection("Fixed", commits, FIX))
            + NonEmpty(MakeSection("Changed", commits, SUS)))
  }

  /** Where the commits of a section come from. */
  ghost function Positions(commits: seq<Commit>, prefix: string, n: nat): seq<nat>
    requires n <= |commits|
  {
    if n == 0 then []
    else Positions(commits, prefix, n - 1) + if StartsWith(commits[n - 1].summary, prefix) then [n - 1] else []
  }

  /** A section has exactly the commits with its prefix, each once for each time
      it is in the list, in the order of the list. */
  lemma {:induction false} FilterKeepsOrder(commits: seq<Commit>, prefix: string, n: nat)
    requires n <= |commits|
    ensures IsOrderedPick(commits, prefix, n, Positions(commits, prefix, n), FilterCommits(commits, prefix, n))
  {
    if n > 0 {
      FilterKeepsOrder(commits, prefix, n - 1);
      var at, kept := Positions(commits, prefix, n - 1), FilterCommits(commits, prefix, n - 1);
      OneMore(commits, prefix, n - 1, at, kept);
    }
  }

  ghost predicate IsOrderedPick(commits: seq<Commit>, prefix: string, n: nat, at: seq<nat>, kept: seq<Commit>)
    requires n <= |commits|
  {
    && |at| == |kept|
    && (forall k | 0 <= k < |at| :: at[k] < n && kept[k] == commits[at[k]])
    && (forall k, m | 0 <= k < m < |at| :: at[k] < at[m])
    && (forall i | 0 <= i < n :: i in at <==> StartsWith(commits[i].summary, prefix))
  }

  lemma OneMore(commits: seq<Commit>, prefix: string, n: nat, at: seq<nat>, kept: seq<Commit>)
    requires n < |commits| && IsOrderedPick(commits, prefix, n, at, kept)
    ensures if StartsWith(commits[n].summary, prefix)
            then IsOrderedPick(commits, prefix, n + 1, at + [n], kept + [commits[n]])
            else IsOrderedPick(commits, prefix, n + 1, at + [], kept + [])
  {
    assert at + [] == at && kept + [] == kept;
    forall i | 0 <= i <= n
      ensures i in at + [n] <==> i in at || i == n
    {
      assert (at + [n])[|at|] == n;
    }
  }

  /** No summary has two of the prefixes. */
  lemma PrefixesExclude(s: string)
    ensures !(StartsWith(s, FEAT) && StartsWith(s, FIX)) && !(StartsWith(s, FEAT) && StartsWith(s, SUS))
    ensures !(StartsWith(s, FIX) && StartsWith(s, SUS))
    ensures StartsWith(s, PERF) ==> !StartsWith(s, FEAT) && !StartsWith(s, FIX) && !StartsWith(s, SUS)
  {
    if |s| >= 5 {
      assert StartsWith(s, FIX) ==> s[1] == 'f' && s[2] == 'i';
      assert StartsWith(s, FEAT) ==> s[1] == 'f' && s[2] == 'e';
      assert StartsWith(s, PERF) ==> s[1] == 'p';
      assert StartsWith(s, SUS) ==> s[1] == 's';
    }
  }

  predicate Listed(s: string) {
    StartsWith(s, FEAT) || StartsWith(s, FIX) || StartsWith(s, SUS)
  }

  /** How often a commit is shown, over the first n sections. */
  ghost function TimesShown(sections: seq<Section>, c: Commit, n: nat): nat
    requires n <= |sections|
  {
    if n == 0 then 0 else TimesShown(sections, c, n - 1) + multiset(sections[n - 1].commits)[c]
  }

  lemma {:induction false} ShownConcat(a: seq<Section>, b: seq<Section>, c: Commit, n: nat)
    requires n <= |b|
    ensures TimesShown(a + b, c, |a| + n) == TimesShown(a, c, |a|) + TimesShown(b, c, n)
    decreases n
  {
    if n == 0 {
      ShownPrefix(a, a + b, c, |a|);
    } else {
      ShownConcat(a, b, c, n - 1);
    }
  }

  lemma {:induction false} ShownPrefix(a: seq<Section>, b: seq<Section>, c: Commit, n: nat)
    requires a <= b && n <= |a|
    ensures TimesShown(a, c, n) == TimesShown(b, c, n)
  {
    if n > 0 {
      ShownPrefix(a, b, c, n - 1);
    }
  }

  /** A section that is left out for being empty would not have shown anything. */
  lemma ShownIn(s: Section, c: Commit)
    ensures TimesShown(NonEmpty(s), c, |NonEmpty(s)|) == multiset(s.commits)[c]
  {
    if |s.commits| > 0 {
      assert NonEmpty(s) == [s];
      assert TimesShown([s], c, 1) == TimesShown([s], c, 0) + multiset(s.commits)[c];
    }
  }

  /** One more commit, kept or not: the kept ones stay those with the property. */
  lemma KeepOneMore(kept: seq<Commit>, before: seq<Commit>, last: Commit, c: Commit, keepsLast: bool, keepsC: bool)
    requires multiset(kept)[c] == if keepsC then multiset(before)[c] else 0
    requires last == c ==> keepsLast == keepsC
    ensures multiset(kept + if keepsLast then [last] else [])[c]
         == if keepsC then multiset(before + [last])[c] else 0
  {
    assert kept + [] == kept;
  }

  lemma TakeOneMore(commits: seq<Commit>, n: nat)
    requires 0 < n <= |commits|
    ensures commits[..n - 1] + [commits[n - 1]] == commits[..n]
  {
  }

  lemma {:induction false} FilterCounts(commits: seq<Commit>, prefix: string, c: Commit, n: nat)
    requires n <= |commits|
    ensures multiset(FilterCommits(commits, prefix, n))[c]
         == if StartsWith(c.summary, prefix) then multiset(commits[..n])[c] else 0
  {
    if n > 0 {
      var last := commits[n - 1];
      FilterCounts(commits, prefix, c, n - 1);
      KeepOneMore(FilterCommits(commits, prefix, n - 1), commits[..n - 1], last, c,
                  StartsWith(last.summary, prefix), StartsWith(c.summary, prefix));
      TakeOneMore(commits, n);
    }
  }

  /** How often the sections of three prefixes show a commit. */
  lemma ShownInThree(a: Section, b: Section, d: Section, c: Commit)
    ensures var all := NonEmpty(a) + NonEmpty(b) + NonEmpty(d);
            TimesShown(all, c, |all|) == multiset(a.commits)[c] + multiset(b.commits)[c] + multiset(d.commits)[c]
  {
    ShownConcat(NonEmpty(a) + NonEmpty(b), NonEmpty(d), c, |NonEmpty(d)|);
    ShownConcat(NonEmpty(a), NonEmpty(b), c, |NonEmpty(b)|);
    ShownIn(a, c);
    ShownIn(b, c);
    ShownIn(d, c);
  }

  /** The sections that are made show each feat, fix and sus commit exactly as often
      as it is in the list, and no other commit at all. */
  lemma EachCommitOnce(commits: seq<Commit>, c: Commit)
    requires MakeSections(commits).Ok?
    ensures var sections := MakeSections(commits).value;
            TimesShown(sections, c, |sections|) == if Listed(c.summary) then multiset(commits)[c] else 0
    ensures StartsWith(c.summary, PERF) ==> !Listed(c.summary)
  {
    ShownInThree(MakeSection("Added", commits, FEAT), MakeSection("Fixed", commits, FIX),
                 MakeSection("Changed", commits, SUS), c);
    FilterCounts(commits, FEAT, c, |commits|);
    FilterCounts(commits, FIX, c, |commits|);
    FilterCounts(commits, SUS, c, |commits|);
    assert commits[..|commits|] == commits;
    PrefixesExclude(c.summary);
  }

  lemma SectionOfThree(a: Section, b: Section, d: Section, s: Section)
    ensures s in NonEmpty(a) + NonEmpty(b) + NonEmpty(d) <==> (s == a || s == b || s == d) && |s.commits| > 0
  {
  }

  /** The section of a title and a prefix: some commits, namely all those with the
      prefix, in the order of the list. */
  ghost predicate IsSectionOf(s: Section, commits: seq<Commit>, title: string, prefix: string) {
    && s.title == title && s.prefix == prefix && |s.commits| > 0
    && IsOrderedPick(commits, prefix, |commits|, Positions(commits, prefix, |commits|), s.commits)
  }

  lemma SectionsKeepOrder(commits: seq<Commit>, s: Section)
    requires MakeSections(commits).Ok? && s in MakeSections(commits).value
    ensures || IsSectionOf(s, commits, "Added", "(feat)")
            || IsSectionOf(s, commits, "Fixed", "(fix)")
            || IsSectionOf(s, commits, "Changed", "(sus)")
  {
    var a, b := MakeSection("Added", commits, FEAT), MakeSection("Fixed", commits, FIX);
    var d := MakeSection("Changed", commits, SUS);
    SectionOfThree(a, b, d, s);
    if s == a {
      FilterKeepsOrder(commits, FEAT, |commits|);
    } else if s == b {
      FilterKeepsOrder(commits, FIX, |commits|);
    } else {
      FilterKeepsOrder(commits, SUS, |commits|);
    }
  }

  /** The three sections come in this order, as far as they are there. */
  lemma SectionsInOrder(commits: seq<Commit>, i: nat, j: nat)
    requires MakeSections(commits).Ok? && i < j < |MakeSections(commits).value|
    ensures var a, b := MakeSections(commits).value[i].title, MakeSections(commits).value[j].title;
            (a == "Added" && (b == "Fixed" || b == "Changed")) || (a == "Fixed" && b == "Changed")
  {
  }

  // ---------------------------------------------------------------------------
  // The changelog of a release
  // ---------------------------------------------------------------------------

  /** Exactly one commit with this summary is shown, and once. */
  ghost predicate ShownOnce(sections: seq<Section>, s: string) {
    exists c: Commit | c.summary == s ::
      && TimesShown(sections, c, |sections|) == 1
      && forall d: Commit | d.summary == s && d != c :: TimesShown(sections, d, |sections|) == 0
  }

  ghost predicate NotShown(sections: seq<Section>, s: string) {
    forall c: Commit | c.summary == s :: TimesShown(sections, c, |sections|) == 0
  }

  lemma {:induction false} NoSummaryTwiceCounts(commits: seq<Commit>, c: Commit)
    requires NoSummaryTwice(commits)
    ensures multiset(commits)[c] == if c in commits then 1 else 0
    ensures c in commits ==> forall d: Commit | d.summary == c.summary && d in commits :: d == c
  {
    if |commits| > 0 {
      var n := |commits| - 1;
      assert commits == commits[..n] + [commits[n]];
      NoSummaryTwiceCounts(commits[..n], c);
    }
  }

  /** What the changelog of a release is for: of the summaries that are new, those of
      features, fixes and changes are shown, each by one commit and once, and no other
      summary is shown at all. */
  lemma ChangelogShowsTheNew(previous: seq<Commit>, release: seq<Commit>, regular: Option<seq<Commit>>,
                             commits: seq<Commit>, s: string)
    requires NoSummaryTwice(commits) && |commits| > 0
    requires SummarySet(commits) == set s | s in Fresh(previous, release, regular) && Accepted(s)
    ensures MakeSections(commits).Ok?
    ensures var sections := MakeSections(commits).value;
            if ((IsAmong(release, s) && !IsAmong(previous, s))
                || (regular.Some? && IsAmong(regular.value, s) && !IsAmong(release, s)))
               && (StartsWith(s, "(feat)") || StartsWith(s, "(fix)") || StartsWith(s, "(sus)"))
            then ShownOnce(sections, s) else NotShown(sections, s)
  {
    var sections := MakeSections(commits).value;
    FreshIff(previous, release, regular, s);
    forall c: Commit | c.summary == s
      ensures TimesShown(sections, c, |sections|) == if Listed(s) && c in commits then 1 else 0
    {
      EachCommitOnce(commits, c);
      NoSummaryTwiceCounts(commits, c);
    }
    if s in SummarySet(commits) {
      var c :| c in commits && c.summary == s;
      NoSummaryTwiceCounts(commits, c);
      if Listed(s) {
        assert TimesShown(sections, c, |sections|) == 1;
        assert ShownOnce(sections, s);
      }
    } else {
      forall c: Commit | c.summary == s ensures c !in commits {
        assert c in commits ==> c.summary in SummarySet(commits);
      }
      assert NotShown(sections, s);
    }
  }

  /** There is nothing to show, and the code raises, exactly if no new summary has one
      of the four prefixes. */
  lemma ChangelogRaisesIff(previous: seq<Commit>, release: seq<Commit>, regular: Option<seq<Commit>>,
                           commits: seq<Commit>)
    requires SummarySet(commits) == set s | s in Fresh(previous, release, regular) && Accepted(s)
    ensures MakeSections(commits).Err? <==>
            forall s | s in Fresh(previous, release, regular) ::
              !StartsWith(s, "(feat)") && !StartsWith(s, "(fix)") && !StartsWith(s, "(sus)") && !StartsWith(s, "(perf)")
  {
    if |commits| > 0 {
      assert commits[0].summary in SummarySet(commits);
    } else {
      forall s | s in Fresh(previous, release, regular) ensures !Accepted(s) {
        assert s !in SummarySet(commits);
      }
    }
  }

  lemma {:induction false} SectionIsEmptyIff(commits: seq<Commit>, prefix: string, n: nat)
    requires n <= |commits|
    ensures |FilterCommits(commits, prefix, n)| == 0
       <==> forall i | 0 <= i < n :: !StartsWith(commits[i].summary, prefix)
  {
    if n > 0 {
      SectionIsEmptyIff(commits, prefix, n - 1);
    }
  }

  /** So a release of nothing but performance commits has no section at all, and
      only such a release has none. */
  lemma NoSectionsIff(commits: seq<Commit>)
    requires |commits| > 0 && forall c | c in commits :: Accepted(c.summary)
    ensures MakeSections(commits).Ok?
    ensures |MakeSections(commits).value| == 0
       <==> forall i | 0 <= i < |commits| :: StartsWith(commits[i].summary, PERF)
  {
    SectionIsEmptyIff(commits, FEAT, |commits|);
    SectionIsEmptyIff(commits, FIX, |commits|);
    SectionIsEmptyIff(commits, SUS, |commits|);
    forall i | 0 <= i < |commits|
      ensures Listed(commits[i].summary) <==> !StartsWith(commits[i].summary, PERF)
    {
      assert commits[i] in commits;
      PrefixesExclude(commits[i].summary);
    }
  }
}
