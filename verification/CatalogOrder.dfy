/** Reordering the list of applications to install, while walking over it.

    The walk inserts into and pops from the list that it enumerates, so the
    index moves over a list that shifts under it: after an insertion the same
    application is looked at again, after a removal the next one is not looked at
    at all. */
module CatalogOrder {
  import opened PythonLists

  const VIEWER := "Arkime-viewer"
  const AGENT := "Remote-health-agent"

  function LowerChar(c: char): char {
    if 'A' <= c <= 'Z' then (c as int + 32) as char else if c == '\U{212A}' then 'k' else c
  }

  function Lower(s: string): string {
    seq(|s|, i requires 0 <= i < |s| => LowerChar(s[i]))
  }

  predicate IsArkime(app: string) { Lower(app) == "arkime" }

  /** The letters of the name in either case; the Kelvin sign is a third k. */
  const LETTERS := ["aA", "rR", "kK\U{212A}", "iI", "mM", "eE"]

  /** The name is compared without regard to case, and as a whole. */
  lemma IsArkimeIff(app: string)
    ensures IsArkime(app) <==> |app| == 6 && forall i | 0 <= i < 6 :: app[i] in LETTERS[i]
  {
    if |app| == 6 {
      var lower, name := Lower(app), "arkime";
      assert lower == name <==> forall i | 0 <= i < 6 :: lower[i] == name[i];
      forall i | 0 <= i < 6 ensures lower[i] == name[i] <==> app[i] in LETTERS[i] {
        assert lower[i] == LowerChar(app[i]);
      }
    }
  }

  lemma NamesDiffer(app: string)
    ensures IsArkime(app) ==> app != VIEWER && app != AGENT
    ensures VIEWER != AGENT
  {
    assert |VIEWER| == 13 && |AGENT| == 19;
    assert IsArkime(app) ==> |app| == 6;
  }

  /** What comes of the walk when `done` lies behind the index and `rest` ahead. */
  function Reorder(done: seq<string>, rest: seq<string>): seq<string>
    decreases |rest| + if VIEWER in done then 0 else 1
  {
    if |rest| == 0 then done
    else if IsArkime(rest[0]) && VIEWER !in done then Reorder(done + [VIEWER], rest)
    else if rest[0] == AGENT then
      if |rest| == 1 then done else Reorder(done + [rest[1]], rest[2..])
    else Reorder(done + [rest[0]], rest[1..])
  }

  method ReorderCatalogInstallList(list: PyList<string>)
    modifies list
    ensures list.items == Reorder([], old(list.items))
  {
    var index := 0;
    while index < |list.items|
      invariant index <= |list.items| || (index == |list.items| + 1 && list.items == Reorder([], old(list.items)))
      invariant index <= |list.items| ==>
                  Reorder(list.items[..index], list.items[index..]) == Reorder([], old(list.items))
      decreases |list.items| - index + if index <= |list.items| && VIEWER in list.items[..index] then 0 else 1
    {
      var app := list.items[index];
      ghost var done, rest := list.items[..index], list.items[index..];
      NamesDiffer(app);
      if IsArkime(app) {
        if VIEWER !in list.items[..index] {
          list.Insert(index, VIEWER);
          assert list.items[..index + 1] == done + [VIEWER] && list.items[index + 1..] == rest;
        } else {
          assert list.items[..index + 1] == done + [app] && list.items[index + 1..] == rest[1..];
        }
      }
      if app == AGENT {
        list.Pop(index);
        if |rest| > 1 {
          assert list.items[..index + 1] == done + [rest[1]] && list.items[index + 1..] == rest[2..];
        } else {
          assert list.items == done;
        }
      } else if !IsArkime(app) {
        assert list.items[..index + 1] == done + [app] && list.items[index + 1..] == rest[1..];
      }
      index := index + 1;
    }
    if index == |list.items| {
      assert list.items[..index] == list.items;
    }
  }

  // ---------------------------------------------------------------------------
  // What is kept
  // ---------------------------------------------------------------------------

  /** The applications other than the viewer and the agent, in order. */
  function Others(apps: seq<string>): seq<string> {
    if |apps| == 0 then []
    else
      var last := apps[|apps| - 1];
      Others(apps[..|apps| - 1]) + if last == VIEWER || last == AGENT then [] else [last]
  }

  lemma {:induction false} OthersConcat(a: seq<string>, b: seq<string>)
    ensures Others(a + b) == Others(a) + Others(b)
    decreases |b|
  {
    if |b| == 0 {
      assert a + b == a;
    } else {
      OthersConcat(a, b[..|b| - 1]);
      assert (a + b)[..|a + b| - 1] == a + b[..|b| - 1];
    }
  }

  lemma OthersOfOne(app: string)
    ensures Others([app]) == if app == VIEWER || app == AGENT then [] else [app]
  {
    assert [app][..0] == [];
  }

  /** A viewer or an agent in the middle makes no difference to the others. */
  lemma OthersAround(a: seq<string>, app: string, b: seq<string>)
    requires app == VIEWER || app == AGENT
    ensures Others(a + [app] + b) == Others(a + b)
  {
    OthersConcat(a + [app], b);
    OthersConcat(a, [app]);
    OthersOfOne(app);
    OthersConcat(a, b);
  }

  lemma AgentTakenOut(done: seq<string>, rest: seq<string>)
    requires |rest| > 0 && rest[0] == AGENT
    ensures Others(done + rest) == Others(done + rest[1..])
  {
    assert done + rest == done + [AGENT] + rest[1..];
    OthersAround(done, AGENT, rest[1..]);
  }

  /** Every other application stays, once for each time it was there, and their
      relative order is the same. */
  lemma {:induction false} OthersStayInOrder(done: seq<string>, rest: seq<string>)
    ensures Others(Reorder(done, rest)) == Others(done + rest)
    decreases |rest| + if VIEWER in done then 0 else 1
  {
    if |rest| == 0 {
      assert done + rest == done;
    } else if IsArkime(rest[0]) && VIEWER !in done {
      OthersStayInOrder(done + [VIEWER], rest);
      OthersAround(done, VIEWER, rest);
    } else if rest[0] == AGENT {
      AgentTakenOut(done, rest);
      if |rest| > 1 {
        OthersStayInOrder(done + [rest[1]], rest[2..]);
        assert done + [rest[1]] + rest[2..] == done + rest[1..];
      } else {
        assert done + rest[1..] == done;
      }
    } else {
      OthersStayInOrder(done + [rest[0]], rest[1..]);
      assert done + [rest[0]] + rest[1..] == done + rest;
    }
  }

  function Count(apps: seq<string>, app: string): nat {
    multiset(apps)[app]
  }

  /** At most one viewer is added, and none if there is one behind the index. */
  lemma {:induction false} AtMostOneViewerAdded(done: seq<string>, rest: seq<string>)
    ensures Count(Reorder(done, rest), VIEWER)
         <= Count(done, VIEWER) + Count(rest, VIEWER) + if VIEWER in done then 0 else 1
    ensures Count(done, VIEWER) + Count(rest, VIEWER) <= Count(Reorder(done, rest), VIEWER)
    decreases |rest| + if VIEWER in done then 0 else 1
  {
    if |rest| > 0 {
      var tail := rest[1..];
      assert rest == [rest[0]] + tail;
      NamesDiffer(rest[0]);
      if IsArkime(rest[0]) && VIEWER !in done {
        AtMostOneViewerAdded(done + [VIEWER], rest);
      } else if rest[0] == AGENT {
        if |rest| > 1 {
          assert tail == [rest[1]] + rest[2..];
          AtMostOneViewerAdded(done + [rest[1]], rest[2..]);
        }
      } else {
        AtMostOneViewerAdded(done + [rest[0]], tail);
      }
    }
  }

  // ---------------------------------------------------------------------------
  // Which agents are left
  // ---------------------------------------------------------------------------

  ghost predicate TwoAgentsInARow(apps: seq<string>) {
    exists i | 0 <= i < |apps| - 1 :: apps[i] == AGENT && apps[i + 1] == AGENT
  }

  lemma TwoAgentsTail(apps: seq<string>)
    requires |apps| > 0
    ensures TwoAgentsInARow(apps)
       <==> (|apps| > 1 && apps[0] == AGENT && apps[1] == AGENT) || TwoAgentsInARow(apps[1..])
  {
    if i :| 0 <= i < |apps| - 1 && apps[i] == AGENT && apps[i + 1] == AGENT {
      if i > 0 {
        assert apps[1..][i - 1] == AGENT && apps[1..][i] == AGENT;
      }
    }
    if i :| 0 <= i < |apps[1..]| - 1 && apps[1..][i] == AGENT && apps[1..][i + 1] == AGENT {
      assert apps[i + 1] == AGENT && apps[i + 2] == AGENT;
    }
  }

  lemma {:induction false} DoneStays(done: seq<string>, rest: seq<string>)
    ensures done <= Reorder(done, rest)
    decreases |rest| + if VIEWER in done then 0 else 1
  {
    if |rest| > 0 {
      if IsArkime(rest[0]) && VIEWER !in done {
        DoneStays(done + [VIEWER], rest);
      } else if rest[0] == AGENT {
        if |rest| > 1 {
          DoneStays(done + [rest[1]], rest[2..]);
        }
      } else {
        DoneStays(done + [rest[0]], rest[1..]);
      }
    }
  }

  /** The walk removes every agent if and only if no two stand in a row: the one
      after a removed one is never looked at. */
  lemma {:induction false} AgentIsLeftIff(done: seq<string>, rest: seq<string>)
    requires AGENT !in done
    ensures AGENT in Reorder(done, rest) <==> TwoAgentsInARow(rest)
    decreases |rest| + if VIEWER in done then 0 else 1
  {
    if |rest| > 0 {
      TwoAgentsTail(rest);
      NamesDiffer(rest[0]);
      if IsArkime(rest[0]) && VIEWER !in done {
        AgentIsLeftIff(done + [VIEWER], rest);
      } else if rest[0] == AGENT {
        if |rest| > 1 {
          TwoAgentsTail(rest[1..]);
          if rest[1] == AGENT {
            DoneStays(done + [AGENT], rest[2..]);
            assert Reorder(done + [AGENT], rest[2..])[|done|] == AGENT;
          } else {
            AgentIsLeftIff(done + [rest[1]], rest[2..]);
          }
        }
      } else {
        AgentIsLeftIff(done + [rest[0]], rest[1..]);
      }
    }
  }

  // ---------------------------------------------------------------------------
  // Where the viewer is
  // ---------------------------------------------------------------------------

  /** Every Arkime has a viewer before it. */
  ghost predicate ViewerFirst(apps: seq<string>) {
    forall k | 0 <= k < |apps| && IsArkime(apps[k]) :: VIEWER in apps[..k]
  }

  /** The first application that is an Arkime or the viewer. */
  function FirstNeed(apps: seq<string>, i: nat): (k: nat)
    requires i <= |apps|
    ensures i <= k <= |apps|
    ensures forall j | i <= j < k :: !IsArkime(apps[j]) && apps[j] != VIEWER
    ensures k < |apps| ==> IsArkime(apps[k]) || apps[k] == VIEWER
    decreases |apps| - i
  {
    if i == |apps| || IsArkime(apps[i]) || apps[i] == VIEWER then i else FirstNeed(apps, i + 1)
  }

  /** How many agents stand in a row right before position k, counted from i on. */
  function AgentsBefore(apps: seq<string>, i: nat, k: nat): nat
    requires i <= k <= |apps|
  {
    if k > i && apps[k - 1] == AGENT then 1 + AgentsBefore(apps, i, k - 1) else 0
  }

  /** The first Arkime comes before any viewer and is not looked at, because the
      agents right before it are odd in number and the last is removed. */
  predicate ArkimeIsSkipped(apps: seq<string>, i: nat)
    requires i <= |apps|
  {
    var k := FirstNeed(apps, i);
    k < |apps| && IsArkime(apps[k]) && AgentsBefore(apps, i, k) % 2 == 1
  }

  lemma {:induction false} AgentsBeforeFrom(apps: seq<string>, i: nat, k: nat)
    requires i < k <= |apps|
    ensures AgentsBefore(apps, i, k)
         == AgentsBefore(apps, i + 1, k)
            + if apps[i] == AGENT && AgentsBefore(apps, i + 1, k) == k - i - 1 then 1 else 0
    ensures AgentsBefore(apps, i + 1, k) <= k - i - 1
    ensures AgentsBefore(apps, i + 1, k) == k - i - 1 ==> forall j | i + 1 <= j < k :: apps[j] == AGENT
  {
    if k > i + 1 {
      AgentsBeforeFrom(apps, i, k - 1);
    }
  }

  /** Once a viewer is behind the index, no Arkime is without one. */
  lemma {:induction false} ViewerBehindIsEnough(done: seq<string>, rest: seq<string>)
    requires VIEWER in done && ViewerFirst(done)
    ensures ViewerFirst(Reorder(done, rest))
    decreases |rest|
  {
    if |rest| > 0 {
      if rest[0] == AGENT {
        if |rest| > 1 {
          StillFirst(done, rest[1]);
          ViewerBehindIsEnough(done + [rest[1]], rest[2..]);
        }
      } else {
        StillFirst(done, rest[0]);
        ViewerBehindIsEnough(done + [rest[0]], rest[1..]);
      }
    }
  }

  lemma StillFirst(done: seq<string>, app: string)
    requires ViewerFirst(done) && (IsArkime(app) ==> VIEWER in done)
    ensures ViewerFirst(done + [app])
  {
    var more := done + [app];
    forall k | 0 <= k < |more| && IsArkime(more[k]) ensures VIEWER in more[..k] {
      if k < |done| {
        assert more[..k] == done[..k];
      } else {
        assert more[..k] == done;
      }
    }
  }

  /** The viewer comes before every Arkime if and only if the first Arkime is not
      skipped in that way. */
  lemma {:induction false} ViewerFirstIff(apps: seq<string>, i: nat, done: seq<string>)
    requires i <= |apps| && VIEWER !in done && ViewerFirst(done)
    ensures ViewerFirst(Reorder(done, apps[i..])) <==> !ArkimeIsSkipped(apps, i)
    decreases |apps| - i
  {
    if i < |apps| {
      var app, rest := apps[i], apps[i..];
      var k := FirstNeed(apps, i);
      NamesDiffer(app);
      assert rest[0] == app && rest[1..] == apps[i + 1..];
      if IsArkime(app) {
        StillFirst(done, VIEWER);
        ViewerBehindIsEnough(done + [VIEWER], rest);
      } else if app == VIEWER {
        StillFirst(done, VIEWER);
        ViewerBehindIsEnough(done + [VIEWER], rest[1..]);
      } else if app == AGENT {
        AgentsBeforeFrom(apps, i, k);
        if |rest| > 1 {
          NextIsSkipped(apps, i, done);
        }
      } else {
        StillFirst(done, app);
        ViewerFirstIff(apps, i + 1, done + [app]);
        AgentsBeforeFrom(apps, i, k);
      }
    }
  }

  /** Whether the first Arkime is skipped, when an agent comes first. */
  lemma {:induction false} SkippedAfterAgent(apps: seq<string>, i: nat)
    requires i + 1 < |apps| && apps[i] == AGENT
    ensures ArkimeIsSkipped(apps, i)
       <==> IsArkime(apps[i + 1]) || (apps[i + 1] != VIEWER && ArkimeIsSkipped(apps, i + 2))
  {
    var next, k := apps[i + 1], FirstNeed(apps, i);
    NamesDiffer(next);
    NamesDiffer(apps[i]);
    AgentsBeforeFrom(apps, i, k);
    if !IsArkime(next) && next != VIEWER {
      AgentsBeforeFrom(apps, i + 1, k);
    }
  }

  /** The case of a removed agent with another application after it. */
  lemma {:induction false} NextIsSkipped(apps: seq<string>, i: nat, done: seq<string>)
    requires i + 1 < |apps| && VIEWER !in done && ViewerFirst(done) && apps[i] == AGENT
    ensures ViewerFirst(Reorder(done + [apps[i + 1]], apps[i + 2..])) <==> !ArkimeIsSkipped(apps, i)
    decreases |apps| - i, 0
  {
    var next := apps[i + 1];
    NamesDiffer(next);
    SkippedAfterAgent(apps, i);
    if IsArkime(next) {
      ArkimeIsJumped(done, next, apps[i + 2..]);
    } else if next == VIEWER {
      StillFirst(done, VIEWER);
      ViewerBehindIsEnough(done + [VIEWER], apps[i + 2..]);
    } else {
      StillFirst(done, next);
      ViewerFirstIff(apps, i + 2, done + [next]);
    }
  }

  /** An Arkime that is put behind the index unseen stays without a viewer. */
  lemma ArkimeIsJumped(done: seq<string>, app: string, rest: seq<string>)
    requires IsArkime(app) && VIEWER !in done
    ensures !ViewerFirst(Reorder(done + [app], rest))
  {
    var result := Reorder(done + [app], rest);
    DoneStays(done + [app], rest);
    assert result[|done|] == app && result[..|done|] == done;
  }

  // ---------------------------------------------------------------------------
  // Each application on its own
  // ---------------------------------------------------------------------------

  /** The walk looks at position p: it jumps over exactly those with a removed
      agent right before them. */
  predicate LookedAt(apps: seq<string>, p: nat)
    requires p <= |apps|
  {
    AgentsBefore(apps, 0, p) % 2 == 0
  }

  /** What becomes of position p when `before` stands for the positions before it. */
  function Piece(apps: seq<string>, p: nat, before: seq<string>): seq<string>
    requires p < |apps|
  {
    if !LookedAt(apps, p) then [apps[p]]
    else if apps[p] == AGENT then []
    else if IsArkime(apps[p]) && VIEWER !in before then [VIEWER, apps[p]]
    else [apps[p]]
  }

  /** What becomes of the first n positions. */
  function Placed(apps: seq<string>, n: nat): seq<string>
    requires n <= |apps|
  {
    if n == 0 then [] else Placed(apps, n - 1) + Piece(apps, n - 1, Placed(apps, n - 1))
  }

  lemma NextLookedAt(apps: seq<string>, p: nat)
    requires p < |apps|
    ensures LookedAt(apps, p + 1) <==> !(LookedAt(apps, p) && apps[p] == AGENT)
  {
  }

  lemma ReorderUnfolds(done: seq<string>, rest: seq<string>)
    requires |rest| > 0
    ensures Reorder(done, rest)
         == if IsArkime(rest[0]) && VIEWER !in done then Reorder(done + [VIEWER] + [rest[0]], rest[1..])
            else if rest[0] == AGENT then if |rest| == 1 then done else Reorder(done + [rest[1]], rest[2..])
            else Reorder(done + [rest[0]], rest[1..])
  {
    NamesDiffer(rest[0]);
    if IsArkime(rest[0]) && VIEWER !in done {
      assert VIEWER in done + [VIEWER];
    }
  }

  /** The walk over a list that shifts under it treats every position as Piece says. */
  lemma {:induction false} WalkPlaces(apps: seq<string>, i: nat)
    requires i <= |apps| && LookedAt(apps, i)
    ensures Reorder(Placed(apps, i), apps[i..]) == Placed(apps, |apps|)
    decreases |apps| - i
  {
    if i < |apps| {
      var done, rest := Placed(apps, i), apps[i..];
      assert rest[0] == apps[i] && rest[1..] == apps[i + 1..];
      ReorderUnfolds(done, rest);
      NamesDiffer(apps[i]);
      NextLookedAt(apps, i);
      if apps[i] == AGENT {
        assert Placed(apps, i + 1) == done;
        if i + 1 < |apps| {
          assert rest[1] == apps[i + 1] && rest[2..] == apps[i + 2..];
          NextLookedAt(apps, i + 1);
          WalkPlaces(apps, i + 2);
        }
      } else {
        if IsArkime(apps[i]) && VIEWER !in done {
          assert done + [VIEWER] + [apps[i]] == done + [VIEWER, apps[i]];
        }
        WalkPlaces(apps, i + 1);
      }
    }
  }

  lemma {:induction false} PlacedStays(apps: seq<string>, n: nat, m: nat)
    requires n <= m <= |apps|
    ensures Placed(apps, n) <= Placed(apps, m)
    decreases m
  {
    if n < m {
      PlacedStays(apps, n, m - 1);
    }
  }

  /** Position q brings a viewer into the list: it is one, or an Arkime that the
      walk looks at. */
  predicate BringsViewer(apps: seq<string>, q: nat)
    requires q < |apps|
  {
    apps[q] == VIEWER || (IsArkime(apps[q]) && LookedAt(apps, q))
  }

  /** One of the first n positions brings a viewer. */
  ghost predicate ViewerBrought(apps: seq<string>, n: nat)
    requires n <= |apps|
  {
    exists q | 0 <= q < n :: BringsViewer(apps, q)
  }

  lemma PieceBringsViewer(apps: seq<string>, p: nat, before: seq<string>)
    requires p < |apps|
    ensures VIEWER in before + Piece(apps, p, before) <==> VIEWER in before || BringsViewer(apps, p)
  {
    NamesDiffer(apps[p]);
    assert VIEWER in before + Piece(apps, p, before) <==> VIEWER in before || VIEWER in Piece(apps, p, before);
    assert [VIEWER, apps[p]][0] == VIEWER && [apps[p]][0] == apps[p];
  }

  lemma {:induction false} ViewerPlacedIff(apps: seq<string>, n: nat)
    requires n <= |apps|
    ensures VIEWER in Placed(apps, n) <==> ViewerBrought(apps, n)
  {
    if n > 0 {
      ViewerPlacedIff(apps, n - 1);
      PieceBringsViewer(apps, n - 1, Placed(apps, n - 1));
    }
  }

  /** Where position p stands in the end, if it is not removed. */
  function Place(apps: seq<string>, p: nat): int
    requires p < |apps|
  {
    |Placed(apps, p + 1)| - 1
  }

  /** The Arkime at position p stays, at k, and it has a viewer before it if and
      only if the walk looks at it, or a viewer or an Arkime that it looks at comes
      earlier. */
  ghost predicate ServedAt(apps: seq<string>, result: seq<string>, p: nat, k: int)
    requires p < |apps|
  {
    && 0 <= k < |result| && result[k] == apps[p]
    && (VIEWER in result[..k] <==> ViewerBrought(apps, p + 1))
  }

  lemma ArkimePlaced(apps: seq<string>, p: nat)
    requires p < |apps| && IsArkime(apps[p])
    ensures var placed, k := Placed(apps, p + 1), Place(apps, p);
            && 0 <= k && k + 1 == |placed| && placed[k] == apps[p]
            && (VIEWER in placed[..k] <==> VIEWER in placed)
  {
    var before, placed, k := Placed(apps, p), Placed(apps, p + 1), Place(apps, p);
    NamesDiffer(apps[p]);
    var piece := Piece(apps, p, before);
    assert placed == before + piece && piece[|piece| - 1] == apps[p];
    assert placed == placed[..k] + [apps[p]];
  }

  lemma {:induction false} WholeWalk(apps: seq<string>)
    ensures Reorder([], apps) == Placed(apps, |apps|)
  {
    assert apps[0..] == apps;
    WalkPlaces(apps, 0);
  }

  lemma ServedInPrefix(apps: seq<string>, placed: seq<string>, result: seq<string>, p: nat, k: nat)
    requires p < |apps| && placed <= result && k + 1 == |placed| && placed[k] == apps[p]
    requires VIEWER in placed[..k] <==> VIEWER in placed
    requires VIEWER in placed <==> ViewerBrought(apps, p + 1)
    ensures ServedAt(apps, result, p, k)
  {
    assert result[..k] == placed[..k];
  }

  lemma {:induction false} ArkimeInPrefix(apps: seq<string>, p: nat)
    requires p < |apps| && IsArkime(apps[p])
    ensures var placed, k := Placed(apps, p + 1), Place(apps, p);
            && 0 <= k && k + 1 == |placed| && placed[k] == apps[p] && placed <= Placed(apps, |apps|)
            && (VIEWER in placed[..k] <==> VIEWER in placed)
            && (VIEWER in placed <==> ViewerBrought(apps, p + 1))
  {
    ArkimePlaced(apps, p);
    PlacedStays(apps, p + 1, |apps|);
    ViewerPlacedIff(apps, p + 1);
  }

  lemma {:induction false} ArkimeIsServed(apps: seq<string>, p: nat)
    requires p < |apps| && IsArkime(apps[p])
    ensures ServedAt(apps, Placed(apps, |apps|), p, Place(apps, p))
  {
    ArkimeInPrefix(apps, p);
    ServedInPrefix(apps, Placed(apps, p + 1), Placed(apps, |apps|), p, Place(apps, p));
  }

  lemma LookedAtBrings(apps: seq<string>, p: nat)
    requires p < |apps| && IsArkime(apps[p]) && LookedAt(apps, p)
    ensures ViewerBrought(apps, p + 1)
  {
    assert BringsViewer(apps, p);
  }

  /** Every Arkime of the result is one of the list, in the same order. */
  lemma {:induction false} PlacedArkime(apps: seq<string>, n: nat, k: nat) returns (p: nat)
    requires n <= |apps| && k < |Placed(apps, n)| && IsArkime(Placed(apps, n)[k])
    ensures p < n && IsArkime(apps[p]) && Place(apps, p) == k
  {
    NamesDiffer(Placed(apps, n)[k]);
    if k < |Placed(apps, n - 1)| {
      p := PlacedArkime(apps, n - 1, k);
    } else {
      p := n - 1;
    }
  }

  lemma PlacesGoUp(apps: seq<string>, p: nat, q: nat)
    requires p < q < |apps| && IsArkime(apps[p]) && IsArkime(apps[q])
    ensures Place(apps, p) < Place(apps, q)
  {
    NamesDiffer(apps[q]);
    PlacedStays(apps, p + 1, q);
  }

  /** The Arkimes of the list are those of the result, one for one, and each is
      served as it should be. */
  ghost predicate AllArkimesServed(apps: seq<string>, result: seq<string>) {
    && (forall p: nat | p < |apps| && IsArkime(apps[p]) :: ServedAt(apps, result, p, Place(apps, p)))
    && (forall p: nat | p < |apps| && IsArkime(apps[p]) && LookedAt(apps, p) :: VIEWER in result[..Place(apps, p)])
    && (forall p: nat, q: nat | p < q < |apps| && IsArkime(apps[p]) && IsArkime(apps[q]) ::
          Place(apps, p) < Place(apps, q))
    && (forall k | 0 <= k < |result| && IsArkime(result[k]) ::
          exists p: nat | p < |apps| && IsArkime(apps[p]) :: Place(apps, p) == k)
  }

  lemma {:induction false} ArkimesAreServed(apps: seq<string>)
    ensures AllArkimesServed(apps, Placed(apps, |apps|))
  {
    var result := Placed(apps, |apps|);
    forall p: nat | p < |apps| && IsArkime(apps[p])
      ensures ServedAt(apps, result, p, Place(apps, p))
      ensures LookedAt(apps, p) ==> VIEWER in result[..Place(apps, p)]
    {
      ArkimeIsServed(apps, p);
      if LookedAt(apps, p) {
        LookedAtBrings(apps, p);
      }
    }
    forall p: nat, q: nat | p < q < |apps| && IsArkime(apps[p]) && IsArkime(apps[q]) {
      PlacesGoUp(apps, p, q);
    }
    forall k | 0 <= k < |result| && IsArkime(result[k])
      ensures exists p: nat | p < |apps| && IsArkime(apps[p]) :: Place(apps, p) == k
    {
      var p := PlacedArkime(apps, |apps|, k);
    }
  }

  // ---------------------------------------------------------------------------
  // How many viewers and agents there are
  // ---------------------------------------------------------------------------

  /** The walk looks at an Arkime at p and has no viewer behind it. */
  ghost predicate AddsViewer(apps: seq<string>, p: nat)
    requires p < |apps|
  {
    IsArkime(apps[p]) && LookedAt(apps, p) && !ViewerBrought(apps, p)
  }

  ghost predicate ViewerAdded(apps: seq<string>, n: nat)
    requires n <= |apps|
  {
    exists p: nat | p < n :: AddsViewer(apps, p)
  }

  /** The agents that the walk does not look at, among the first n positions. */
  ghost function AgentsLeft(apps: seq<string>, n: nat): nat
    requires n <= |apps|
  {
    if n == 0 then 0 else AgentsLeft(apps, n - 1) + if AgentStays(apps, n - 1) then 1 else 0
  }

  predicate AgentStays(apps: seq<string>, p: nat)
    requires p < |apps|
  {
    apps[p] == AGENT && !LookedAt(apps, p)
  }

  /** A viewer is added once: afterwards there is one. */
  lemma AddedOnce(apps: seq<string>, p: nat)
    requires p < |apps| && AddsViewer(apps, p)
    ensures !ViewerAdded(apps, p)
  {
    forall q: nat | q < p ensures !AddsViewer(apps, q) {
      assert IsArkime(apps[q]) && LookedAt(apps, q) ==> BringsViewer(apps, q);
    }
  }

  lemma PieceCounts(apps: seq<string>, p: nat, before: seq<string>)
    requires p < |apps| && (VIEWER in before <==> ViewerBrought(apps, p))
    ensures Count(Piece(apps, p, before), VIEWER)
         == (if apps[p] == VIEWER then 1 else 0) + if AddsViewer(apps, p) then 1 else 0
    ensures Count(Piece(apps, p, before), AGENT) == if AgentStays(apps, p) then 1 else 0
  {
    NamesDiffer(apps[p]);
  }

  lemma CountConcat(a: seq<string>, b: seq<string>, app: string)
    ensures Count(a + b, app) == Count(a, app) + Count(b, app)
  {
  }

  lemma PlacedUnfolds(apps: seq<string>, p: nat)
    requires p < |apps|
    ensures Placed(apps, p + 1) == Placed(apps, p) + Piece(apps, p, Placed(apps, p))
  {
  }

  lemma {:induction false} PlacedOneMore(apps: seq<string>, p: nat, app: string)
    requires p < |apps|
    ensures Count(Placed(apps, p + 1), app) == Count(Placed(apps, p), app) + Count(Piece(apps, p, Placed(apps, p)), app)
  {
    PlacedUnfolds(apps, p);
    CountConcat(Placed(apps, p), Piece(apps, p, Placed(apps, p)), app);
  }

  lemma CountOneMore(apps: seq<string>, p: nat, app: string)
    requires p < |apps|
    ensures Count(apps[..p + 1], app) == Count(apps[..p], app) + if apps[p] == app then 1 else 0
  {
    assert apps[..p + 1] == apps[..p] + [apps[p]];
    CountConcat(apps[..p], [apps[p]], app);
  }

  lemma AddedOneMore(apps: seq<string>, p: nat)
    requires p < |apps|
    ensures ViewerAdded(apps, p + 1) <==> ViewerAdded(apps, p) || AddsViewer(apps, p)
    ensures !(ViewerAdded(apps, p) && AddsViewer(apps, p))
  {
    if AddsViewer(apps, p) {
      AddedOnce(apps, p);
    }
  }

  lemma {:induction false} ViewerPlaced(apps: seq<string>, p: nat)
    requires p < |apps|
    ensures Count(Placed(apps, p + 1), VIEWER) - Count(Placed(apps, p), VIEWER)
         == (if apps[p] == VIEWER then 1 else 0) + if AddsViewer(apps, p) then 1 else 0
  {
    ViewerPlacedIff(apps, p);
    PieceCounts(apps, p, Placed(apps, p));
    PlacedOneMore(apps, p, VIEWER);
  }

  /** Two counts that begin equal and change alike stay equal. */
  lemma {:induction false} ChangeAlike(f: nat -> int, g: nat -> int, n: nat)
    requires f(0) == g(0) && forall k: nat | k < n :: f(k + 1) - f(k) == g(k + 1) - g(k)
    ensures f(n) == g(n)
  {
    if n > 0 {
      ChangeAlike(f, g, n - 1);
      assert f(n - 1 + 1) - f(n - 1) == g(n - 1 + 1) - g(n - 1);
    }
  }

  /** How many of an application there are when n positions are placed. */
  ghost function PlacedSoFar(apps: seq<string>, app: string, n: nat): int {
    if n <= |apps| then Count(Placed(apps, n), app) else 0
  }

  ghost function ViewersSoFar(apps: seq<string>, n: nat): int {
    if n <= |apps| then Count(apps[..n], VIEWER) + (if ViewerAdded(apps, n) then 1 else 0) else 0
  }

  ghost function AgentsSoFar(apps: seq<string>, n: nat): int {
    if n <= |apps| then AgentsLeft(apps, n) else 0
  }

  lemma ViewersChangeAlike(apps: seq<string>, p: nat)
    requires p < |apps|
    ensures PlacedSoFar(apps, VIEWER, p + 1) - PlacedSoFar(apps, VIEWER, p)
         == ViewersSoFar(apps, p + 1) - ViewersSoFar(apps, p)
  {
    ViewerPlaced(apps, p);
    CountOneMore(apps, p, VIEWER);
    AddedOneMore(apps, p);
  }

  lemma ViewersPlaced(apps: seq<string>)
    ensures PlacedSoFar(apps, VIEWER, |apps|) == ViewersSoFar(apps, |apps|)
  {
    forall k: nat | k < |apps| {
      ViewersChangeAlike(apps, k);
    }
    NothingPlaced(apps);
    ChangeAlike((k: nat) => PlacedSoFar(apps, VIEWER, k), (k: nat) => ViewersSoFar(apps, k), |apps|);
  }

  lemma NothingPlaced(apps: seq<string>)
    ensures forall app :: PlacedSoFar(apps, app, 0) == 0
    ensures ViewersSoFar(apps, 0) == 0 && AgentsSoFar(apps, 0) == 0
  {
  }

  lemma {:induction false} AgentPlaced(apps: seq<string>, p: nat)
    requires p < |apps|
    ensures Count(Placed(apps, p + 1), AGENT) == Count(Placed(apps, p), AGENT) + if AgentStays(apps, p) then 1 else 0
  {
    ViewerPlacedIff(apps, p);
    PieceCounts(apps, p, Placed(apps, p));
    PlacedOneMore(apps, p, AGENT);
  }

  lemma AgentsChangeAlike(apps: seq<string>, p: nat)
    requires p < |apps|
    ensures PlacedSoFar(apps, AGENT, p + 1) - PlacedSoFar(apps, AGENT, p)
         == AgentsSoFar(apps, p + 1) - AgentsSoFar(apps, p)
  {
    AgentPlaced(apps, p);
  }

  lemma AgentsPlaced(apps: seq<string>)
    ensures PlacedSoFar(apps, AGENT, |apps|) == AgentsSoFar(apps, |apps|)
  {
    forall k: nat | k < |apps| {
      AgentsChangeAlike(apps, k);
    }
    NothingPlaced(apps);
    ChangeAlike((k: nat) => PlacedSoFar(apps, AGENT, k), (k: nat) => AgentsSoFar(apps, k), |apps|);
  }

  /** Exactly one viewer is added if the walk looks at some Arkime without a viewer
      behind it, and otherwise none; and the agents that are left are those that the
      walk jumps over. */
  lemma CountsAre(apps: seq<string>)
    ensures var result := Reorder([], apps);
            && Count(result, VIEWER) == Count(apps, VIEWER) + (if ViewerAdded(apps, |apps|) then 1 else 0)
            && Count(result, AGENT) == AgentsLeft(apps, |apps|)
  {
    WholeWalk(apps);
    ViewersPlaced(apps);
    AgentsPlaced(apps);
    assert apps[..|apps|] == apps;
  }

  /** The viewer that is added stands right before its Arkime. */
  lemma ViewerRightBefore(apps: seq<string>, p: nat)
    requires p < |apps| && AddsViewer(apps, p)
    ensures var result, k := Reorder([], apps), Place(apps, p);
            0 < k < |result| && result[k] == apps[p] && result[k - 1] == VIEWER
  {
    WholeWalk(apps);
    ViewerPlacedIff(apps, p);
    NamesDiffer(apps[p]);
    assert Placed(apps, p + 1) == Placed(apps, p) + [VIEWER, apps[p]];
    PlacedStays(apps, p + 1, |apps|);
  }

  /** The whole call, for any list. */
  lemma ReorderedList(apps: seq<string>)
    ensures var result := Reorder([], apps);
            && Others(result) == Others(apps)
            && Count(result, VIEWER) == Count(apps, VIEWER) + (if ViewerAdded(apps, |apps|) then 1 else 0)
            && Count(result, AGENT) == AgentsLeft(apps, |apps|)
            && (AGENT in result <==> TwoAgentsInARow(apps))
            && (ViewerFirst(result) <==> !ArkimeIsSkipped(apps, 0))
            && AllArkimesServed(apps, result)
  {
    WholeWalk(apps);
    ArkimesAreServed(apps);
    assert [] + apps == apps && apps[0..] == apps;
    OthersStayInOrder([], apps);
    CountsAre(apps);
    AgentIsLeftIff([], apps);
    ViewerFirstIff(apps, 0, []);
  }
}
