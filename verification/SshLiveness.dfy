/** Waiting for machines to come up: a loop that removes from the list it
    iterates over.

    Python walks a list by index, so removing the current element makes the walk
    skip the next one.  The model keeps the index and the mutable list explicit.
    Connection tests and the clock are oracles: the t-th test made succeeds when
    answers(t) holds, and the t-th reading of the clock is clock(t). */
module SshLiveness {
  import opened PythonLists

  /** One connection test. */
  datatype Probe<T> = Probe(node: T, ok: bool)

  // ---------------------------------------------------------------------------
  // One walk over the list
  // ---------------------------------------------------------------------------

  datatype Walk<T> = Walk(left: seq<T>, log: seq<Probe<T>>)

  /** The walk from index i on, when t tests were made before. */
  function WalkFrom<T(==)>(items: seq<T>, i: nat, answers: nat -> bool, t: nat): Walk<T>
    decreases |items| - i
  {
    if i >= |items| then Walk(items, [])
    else
      var node := items[i];
      RemoveFirstKeepsOthers(items, node);
      var rest := WalkFrom(if answers(t) then RemoveFirst(items, node) else items, i + 1, answers, t + 1);
      Walk(rest.left, [Probe(node, answers(t))] + rest.log)
  }

  /** The inner loop. */
  method TestOnce<T(==)>(list: PyList<T>, answers: nat -> bool, t0: nat) returns (t: nat, ghost log: seq<Probe<T>>)
    modifies list
    ensures list.items == WalkFrom(old(list.items), 0, answers, t0).left
    ensures log == WalkFrom(old(list.items), 0, answers, t0).log && t == t0 + |log|
  {
    var i := 0;
    t, log := t0, [];
    ghost var whole := WalkFrom(list.items, 0, answers, t0);
    while i < |list.items|
      invariant t == t0 + |log|
      invariant WalkFrom(list.items, i, answers, t).left == whole.left
      invariant log + WalkFrom(list.items, i, answers, t).log == whole.log
      decreases |list.items| - i
    {
      var node := list.items[i];
      ghost var w := WalkFrom(list.items, i, answers, t);
      RemoveFirstKeepsOthers(list.items, node);
      var result := answers(t);
      if result {
        list.Remove(node);
      }
      ghost var rest := WalkFrom(list.items, i + 1, answers, t + 1);
      assert w == Walk(rest.left, [Probe(node, result)] + rest.log);
      ConcatAssociates(log, [Probe(node, result)], rest.log);
      i, t, log := i + 1, t + 1, log + [Probe(node, result)];
    }
    assert log + [] == log;
  }

  lemma ConcatAssociates<T>(a: seq<T>, b: seq<T>, c: seq<T>)
    ensures (a + b) + c == a + (b + c)
  {
  }

  /** Nobody leaves the list without a successful test of an equal node, each
      success takes out exactly one, and nobody comes in. */
  lemma {:induction false} WalkIsSafe<T>(items: seq<T>, i: nat, answers: nat -> bool, t: nat)
    ensures var w := WalkFrom(items, i, answers, t);
            && (forall n | n in items :: n in w.left || Probe(n, true) in w.log)
            && (forall n | n in w.left :: n in items)
            && |w.left| == |items| - Successes(w.log, |w.log|)
    decreases |items| - i
  {
    if i < |items| {
      var node, ok := items[i], answers(t);
      RemoveFirstKeepsOthers(items, node);
      var items' := if ok then RemoveFirst(items, node) else items;
      WalkIsSafe(items', i + 1, answers, t + 1);
      var rest := WalkFrom(items', i + 1, answers, t + 1);
      SuccessesCons(Probe(node, ok), rest.log, |rest.log|);
    }
  }

  function Successes<T>(log: seq<Probe<T>>, n: nat): nat
    requires n <= |log|
  {
    if n == 0 then 0 else Successes(log, n - 1) + if log[n - 1].ok then 1 else 0
  }

  lemma {:induction false} SuccessesCons<T>(p: Probe<T>, log: seq<Probe<T>>, n: nat)
    requires n <= |log|
    ensures Successes([p] + log, n + 1) == (if p.ok then 1 else 0) + Successes(log, n)
  {
    if n > 0 {
      SuccessesCons(p, log, n - 1);
    }
  }

  /** A walk goes on to the end of the list that is left, whatever the tests say. */
  lemma {:induction false} WalkGoesToTheEnd<T>(items: seq<T>, i: nat, answers: nat -> bool, t: nat)
    requires i <= |items|
    ensures var w := WalkFrom(items, i, answers, t); |w.left| <= i + |w.log| <= |w.left| + 1
    decreases |items| - i
  {
    if i < |items| {
      RemoveFirstKeepsOthers(items, items[i]);
      var items' := if answers(t) then RemoveFirst(items, items[i]) else items;
      if i + 1 <= |items'| {
        WalkGoesToTheEnd(items', i + 1, answers, t + 1);
      } else {
        assert WalkFrom(items', i + 1, answers, t + 1) == Walk(items', []);
      }
    }
  }

  /** The tests that are made of the nodes ahead: after a failure comes the next node,
      after a success the next but one. */
  ghost function Tests<T>(ahead: seq<T>, answers: nat -> bool, t: nat): seq<Probe<T>>
    decreases |ahead|
  {
    if |ahead| == 0 then []
    else if !answers(t) then [Probe(ahead[0], false)] + Tests(ahead[1..], answers, t + 1)
    else [Probe(ahead[0], true)] + if |ahead| == 1 then [] else Tests(ahead[2..], answers, t + 1)
  }

  /** What a walk over distinct nodes tests, in terms of the list as it was. */
  lemma {:induction false} WalkTests<T>(items: seq<T>, i: nat, answers: nat -> bool, t: nat)
    requires i <= |items| && Distinct(items)
    ensures WalkFrom(items, i, answers, t).log == Tests(items[i..], answers, t)
    decreases |items| - i
  {
    if i < |items| {
      var ahead := items[i..];
      assert ahead[0] == items[i] && ahead[1..] == items[i + 1..];
      if answers(t) {
        var items' := items[..i] + items[i + 1..];
        RemoveFirstAt(items, items[i], i);
        if i + 1 < |items| {
          OneOut(items, i);
          assert ahead[2..] == items[i + 2..];
          WalkTests(items', i + 1, answers, t + 1);
        }
      } else {
        WalkTests(items, i + 1, answers, t + 1);
      }
    }
  }

  ghost predicate AllAnswer(answers: nat -> bool) {
    forall t: nat :: answers(t)
  }

  /** When every node answers, a walk still skips every other one: of n nodes it
      leaves half, rounded down. */
  lemma {:induction false} WalkLeavesHalf<T>(items: seq<T>, i: nat, answers: nat -> bool, t: nat)
    requires AllAnswer(answers) && i <= |items|
    ensures |WalkFrom(items, i, answers, t).left| == i + (|items| - i) / 2
    decreases |items| - i
  {
    if i < |items| {
      RemoveFirstKeepsOthers(items, items[i]);
      var items' := RemoveFirst(items, items[i]);
      if i < |items'| {
        WalkLeavesHalf(items', i + 1, answers, t + 1);
      } else {
        assert WalkFrom(items', i + 1, answers, t + 1).left == items';
      }
    }
  }

  function EveryOther<T>(s: seq<T>): seq<T> {
    if |s| < 2 then [] else [s[1]] + EveryOther(s[2..])
  }

  ghost predicate Distinct<T>(s: seq<T>) {
    forall i, j | 0 <= i < j < |s| :: s[i] != s[j]
  }

  /** And if the nodes are distinct, those left are the second, the fourth
      and so on. */
  lemma {:induction false} WalkLeavesEveryOther<T>(items: seq<T>, i: nat, answers: nat -> bool, t: nat)
    requires AllAnswer(answers) && i <= |items| && Distinct(items)
    ensures WalkFrom(items, i, answers, t).left == items[..i] + EveryOther(items[i..])
    decreases |items| - i
  {
    if i < |items| {
      var items' := items[..i] + items[i + 1..];
      WalkRemoves(items, i, answers, t);
      if i + 1 < |items| {
        WalkLeavesEveryOther(items', i + 1, answers, t + 1);
        EveryOtherStep(items, i);
        OneOut(items, i);
        ConcatAssociates(items[..i], [items[i + 1]], EveryOther(items[i + 2..]));
      } else {
        assert WalkFrom(items', i + 1, answers, t + 1).left == items';
      }
    } else {
      assert items[..i] + [] == items;
    }
  }

  /** The step at index i when the node there answers. */
  lemma WalkRemoves<T>(items: seq<T>, i: nat, answers: nat -> bool, t: nat)
    requires AllAnswer(answers) && i < |items| && Distinct(items)
    ensures var items' := items[..i] + items[i + 1..];
            Distinct(items') && WalkFrom(items, i, answers, t).left == WalkFrom(items', i + 1, answers, t + 1).left
  {
    RemoveFirstAt(items, items[i], i);
    assert answers(t);
  }

  lemma OneOut<T>(items: seq<T>, i: nat)
    requires i + 1 < |items|
    ensures var items' := items[..i] + items[i + 1..];
            items'[i + 1..] == items[i + 2..] && items'[..i + 1] == items[..i] + [items[i + 1]]
  {
  }

  lemma EveryOtherStep<T>(s: seq<T>, i: nat)
    requires i + 1 < |s|
    ensures EveryOther(s[i..]) == [s[i + 1]] + EveryOther(s[i + 2..])
  {
    assert s[i..][2..] == s[i + 2..];
  }

  function Halved(n: nat, k: nat): nat {
    if k == 0 then n else Halved(n, k - 1) / 2
  }

  function Pow2(k: nat): (r: nat)
    ensures r > 0
  {
    if k == 0 then 1 else 2 * Pow2(k - 1)
  }

  lemma AtLeastOnce(x: int, d: int)
    requires x >= 1 && d > 0
    ensures x * d >= d
  {
  }

  lemma DivUnique(n: int, d: int, q: int, r: int)
    requires d > 0 && n == q * d + r && 0 <= r < d
    ensures n / d == q
  {
    var q', r' := n / d, n % d;
    assert n == q' * d + r' && 0 <= r' < d;
    assert (q' - q) * d == q' * d - q * d && (q - q') * d == q * d - q' * d;
    if q' > q {
      AtLeastOnce(q' - q, d);
    } else if q' < q {
      AtLeastOnce(q - q', d);
    }
  }

  lemma DivTwice(n: nat, d: nat)
    requires d > 0
    ensures n / d / 2 == n / (2 * d)
  {
    var q, r := n / d, n % d;
    var h, low := q / 2, q % 2;
    assert n == q * d + r;
    assert (2 * h + low) * d == h * (2 * d) + low * d;
    assert low == 0 || low == 1;
    DivUnique(n, 2 * d, h, low * d + r);
  }

  lemma {:induction false} HalvedIsDiv(n: nat, k: nat)
    ensures Halved(n, k) == n / Pow2(k)
  {
    if k > 0 {
      HalvedIsDiv(n, k - 1);
      DivTwice(n, Pow2(k - 1));
    }
  }

  // ---------------------------------------------------------------------------
  // Walks until nobody is left
  // ---------------------------------------------------------------------------

  /** The list after k walks, and the tests made. */
  ghost function Walks<T>(items: seq<T>, answers: nat -> bool, k: nat): Walk<T> {
    if k == 0 then Walk(items, [])
    else
      var before := Walks(items, answers, k - 1);
      var w := WalkFrom(before.left, 0, answers, |before.log|);
      Walk(w.left, before.log + w.log)
  }

  /** Somebody is left after k walks. */
  ghost predicate Pending<T>(items: seq<T>, answers: nat -> bool, k: nat) {
    Walks(items, answers, k).left != []
  }

  /** When every node answers, k walks leave n / 2^k of n nodes: the wait ends
      after the first k with 2^k above n. */
  lemma {:induction false} WalksHalve<T>(items: seq<T>, answers: nat -> bool, k: nat)
    requires AllAnswer(answers)
    ensures |Walks(items, answers, k).left| == |items| / Pow2(k)
  {
    HalvedIsDiv(|items|, k);
    if k > 0 {
      WalksHalve(items, answers, k - 1);
      HalvedIsDiv(|items|, k - 1);
      var before := Walks(items, answers, k - 1);
      WalkLeavesHalf(before.left, 0, answers, |before.log|);
    }
  }

  lemma {:induction false} WalksAreSafe<T>(items: seq<T>, answers: nat -> bool, k: nat)
    ensures var w := Walks(items, answers, k);
            forall n | n in items :: n in w.left || Probe(n, true) in w.log
  {
    if k > 0 {
      WalksAreSafe(items, answers, k - 1);
      var before := Walks(items, answers, k - 1);
      WalkIsSafe(before.left, 0, answers, |before.log|);
    }
  }

  /** The k-th walk is the first to leave nobody, and the clock had not passed the
      deadline by then. */
  ghost predicate UpAfter<T>(items: seq<T>, answers: nat -> bool, clock: nat -> int, timeout: nat, k: nat) {
    && k > 0 && !Pending(items, answers, k)
    && forall m | 1 <= m <= k :: clock(m) < clock(0) + timeout && (m < k ==> Pending(items, answers, m))
  }

  /** The reading after k walks is the first past the deadline, and somebody was
      left after each of them. */
  ghost predicate LateAfter<T>(items: seq<T>, answers: nat -> bool, clock: nat -> int, timeout: nat, k: nat) {
    && clock(k + 1) >= clock(0) + timeout
    && forall m | 1 <= m <= k :: clock(m) < clock(0) + timeout && Pending(items, answers, m)
  }

  /** Some walk up to the k-th is the first to leave nobody. */
  lemma {:induction false} FirstThatLeavesNobody<T>(items: seq<T>, answers: nat -> bool, k: nat) returns (first: nat)
    requires k > 0 && Walks(items, answers, k).left == []
    ensures 0 < first <= k && !Pending(items, answers, first)
    ensures forall m | 1 <= m < first :: Pending(items, answers, m)
  {
    first := 1;
    while Walks(items, answers, first).left != []
      invariant 1 <= first <= k && forall m | 1 <= m < first :: Pending(items, answers, m)
      decreases k - first
    {
      first := first + 1;
    }
  }

  /** The wait succeeds if and only if some walk leaves nobody before a reading of the
      clock has got to the deadline. */
  lemma UpIff<T>(items: seq<T>, answers: nat -> bool, clock: nat -> int, timeout: nat)
    ensures (exists k: nat :: UpAfter(items, answers, clock, timeout, k)) <==>
            exists k: nat :: k > 0 && Walks(items, answers, k).left == []
                          && forall m: nat | 1 <= m <= k :: clock(m) - clock(0) < timeout
  {
    if k: nat :| UpAfter(items, answers, clock, timeout, k) {
      assert Walks(items, answers, k).left == [];
    }
    if k: nat :| k > 0 && Walks(items, answers, k).left == []
                 && forall m: nat | 1 <= m <= k :: clock(m) - clock(0) < timeout {
      var first := FirstThatLeavesNobody(items, answers, k);
      assert UpAfter(items, answers, clock, timeout, first);
    }
  }

  /** Everybody has passed a test within k walks. */
  ghost predicate AllTested<T(!new)>(items: seq<T>, answers: nat -> bool, k: nat) {
    forall n | n in items :: Probe(n, true) in Walks(items, answers, k).log
  }

  /** Returns only when every node has passed a test, or gives up (exits) once the
      clock has passed the deadline.  The caller's list is not touched: it is not
      in the frame.  That the clock gets there is what makes the loop end. */
  method TestNodesUpAndAlive<T(==, !new)>(nodesToTest: PyList<T>, answers: nat -> bool, clock: nat -> int,
                                          timeout: nat, ghost bound: nat)
    returns (allUp: bool)
    requires bound > 0 && clock(bound) >= clock(0) + timeout
    ensures allUp <==> exists k: nat :: UpAfter(nodesToTest.items, answers, clock, timeout, k)
    ensures !allUp <==> exists k: nat :: LateAfter(nodesToTest.items, answers, clock, timeout, k)
    ensures allUp ==>
              forall k: nat | UpAfter(nodesToTest.items, answers, clock, timeout, k) ::
                AllTested(nodesToTest.items, answers, k)
  {
    var nodes := nodesToTest.Copy();
    ghost var items := nodesToTest.items;
    var futureTime := clock(0) + timeout;
    var t, reading := 0, 1;
    ghost var walks: nat, log: seq<Probe<T>> := 0, [];
    while true
      invariant reading == walks + 1 <= bound && t == |log| && fresh(nodes)
      invariant Walks(items, answers, walks) == Walk(nodes.items, log)
      invariant forall k | 1 <= k <= walks :: clock(k) < futureTime && Pending(items, answers, k)
      decreases bound - reading
    {
      var now := clock(reading);
      if futureTime <= now {
        assert LateAfter(nodesToTest.items, answers, clock, timeout, walks);
        LateNotUp(items, answers, clock, timeout, walks);
        return false;
      }
      ghost var more, before := [], nodes.items;
      t, more := TestOnce(nodes, answers, t);
      assert Walks(items, answers, walks + 1) == Walk(nodes.items, log + more) by {
        assert Walks(items, answers, walks) == Walk(before, log);
      }
      log, walks, reading := log + more, walks + 1, reading + 1;
      if nodes.items == [] {
        assert UpAfter(nodesToTest.items, answers, clock, timeout, walks);
        UpNotLate(items, answers, clock, timeout, walks);
        UpMeansTested(items, answers, clock, timeout);
        return true;
      }
    }
  }

  lemma UpOrLate<T>(items: seq<T>, answers: nat -> bool, clock: nat -> int, timeout: nat, k: nat, m: nat)
    ensures !(UpAfter(items, answers, clock, timeout, k) && LateAfter(items, answers, clock, timeout, m))
  {
    if m < k {
      assert UpAfter(items, answers, clock, timeout, k) ==> clock(m + 1) < clock(0) + timeout;
    }
  }

  lemma UpNotLate<T>(items: seq<T>, answers: nat -> bool, clock: nat -> int, timeout: nat, k: nat)
    requires UpAfter(items, answers, clock, timeout, k)
    ensures forall m: nat :: !LateAfter(items, answers, clock, timeout, m)
  {
    forall m: nat { UpOrLate(items, answers, clock, timeout, k, m); }
  }

  lemma LateNotUp<T>(items: seq<T>, answers: nat -> bool, clock: nat -> int, timeout: nat, m: nat)
    requires LateAfter(items, answers, clock, timeout, m)
    ensures forall k: nat :: !UpAfter(items, answers, clock, timeout, k)
  {
    forall k: nat { UpOrLate(items, answers, clock, timeout, k, m); }
  }

  lemma UpMeansTested<T(!new)>(items: seq<T>, answers: nat -> bool, clock: nat -> int, timeout: nat)
    ensures forall k: nat | UpAfter(items, answers, clock, timeout, k) :: AllTested(items, answers, k)
  {
    forall k: nat | UpAfter(items, answers, clock, timeout, k)
      ensures AllTested(items, answers, k)
    {
      WalksAreSafe(items, answers, k);
    }
  }
}
