/** Parsing the properties that systemctl prints, one per line.

    A value may go on over several lines when it is a block in braces under a key
    that starts with Exec; the block ends with the first line that ends with a
    closing brace. */
module SystemctlParser {
  import opened Strings
  import opened Wrappers

  // ---------------------------------------------------------------------------
  // Text
  // ---------------------------------------------------------------------------

  /** What str.strip takes away. */
  predicate IsSpace(c: char) {
    var n := c as int;
    9 <= n <= 13 || 28 <= n <= 32 || n == 133 || n == 160 || n == 5760 || 8192 <= n <= 8202
    || n == 8232 || n == 8233 || n == 8239 || n == 8287 || n == 12288
  }

  /** Of the ASCII characters that can be typed, only blanks, tabs and the ends of
      lines. */
  lemma SpacesAre(c: char)
    requires ' ' <= c <= '~' || c in "\t\n\r"
    ensures IsSpace(c) <==> c in " \t\n\r"
  {
  }

  function LStrip(s: string): (r: string)
    ensures |r| <= |s|
  {
    if |s| > 0 && IsSpace(s[0]) then LStrip(s[1..]) else s
  }

  function RStrip(s: string): (r: string)
    ensures |r| <= |s|
  {
    if |s| > 0 && IsSpace(s[|s| - 1]) then RStrip(s[..|s| - 1]) else s
  }

  function Strip(s: string): (r: string)
    ensures |r| <= |s|
  {
    LStrip(RStrip(s))
  }

  predicate OpensBlock(v: string) {
    var t := LStrip(v);
    |t| > 0 && t[0] == '{'
  }

  predicate ClosesBlock(line: string) {
    var t := RStrip(line);
    |t| > 0 && t[|t| - 1] == '}'
  }

  predicate AllSpace(s: string) { forall i | 0 <= i < |s| :: IsSpace(s[i]) }

  lemma {:induction false} LStripCuts(s: string)
    ensures var n := |s| - |LStrip(s)|; LStrip(s) == s[n..] && AllSpace(s[..n])
    ensures |LStrip(s)| > 0 ==> !IsSpace(LStrip(s)[0])
  {
    if |s| > 0 && IsSpace(s[0]) {
      LStripCuts(s[1..]);
      var n := |s| - |LStrip(s)|;
      assert s[1..][n - 1..] == s[n..];
      assert s[..n] == [s[0]] + s[1..][..n - 1];
    }
  }

  lemma {:induction false} RStripCuts(s: string)
    ensures var n := |RStrip(s)|; RStrip(s) == s[..n] && AllSpace(s[n..])
    ensures |RStrip(s)| > 0 ==> !IsSpace(RStrip(s)[|RStrip(s)| - 1])
  {
    if |s| > 0 && IsSpace(s[|s| - 1]) {
      var n, front := |RStrip(s)|, s[..|s| - 1];
      RStripCuts(front);
      assert s[n..] == front[n..] + [s[|s| - 1]];
    }
  }

  /** Spaces around some text that begins and ends with none. */
  ghost predicate Trims(s: string, before: string, text: string, after: string) {
    && s == before + text + after && AllSpace(before) && AllSpace(after)
    && (|text| > 0 ==> !IsSpace(text[0]) && !IsSpace(text[|text| - 1]))
  }

  /** Stripping takes away the spaces at both ends and nothing else. */
  lemma StripTrims(s: string) returns (before: string, after: string)
    ensures Trims(s, before, Strip(s), after)
  {
    RStripCuts(s);
    var r := RStrip(s);
    LStripCuts(r);
    before, after := r[..|r| - |LStrip(r)|], s[|r|..];
    assert s == r + after && r == before + LStrip(r);
  }

  lemma {:induction false} LStripOf(spaces: string, text: string)
    requires AllSpace(spaces) && (|text| > 0 ==> !IsSpace(text[0]))
    ensures LStrip(spaces + text) == text
  {
    if |spaces| > 0 {
      LStripOf(spaces[1..], text);
      assert (spaces + text)[1..] == spaces[1..] + text;
    } else {
      assert spaces + text == text;
    }
  }

  lemma {:induction false} RStripOf(text: string, spaces: string)
    requires AllSpace(spaces) && (|text| > 0 ==> !IsSpace(text[|text| - 1]))
    ensures RStrip(text + spaces) == text
  {
    var n := |spaces| - 1;
    if |spaces| > 0 {
      RStripOf(text, spaces[..n]);
      assert (text + spaces)[..|text| + n] == text + spaces[..n];
    } else {
      assert text + spaces == text;
    }
  }

  /** A line opens a block if a brace is the first of its characters but spaces. */
  lemma OpensBlockIff(line: string)
    ensures OpensBlock(line) <==>
            exists spaces: string, rest: string :: AllSpace(spaces) && line == spaces + ("{" + rest)
  {
    LStripCuts(line);
    var t := LStrip(line);
    if OpensBlock(line) {
      var n := |line| - |t|;
      assert line == line[..n] + ("{" + t[1..]);
    }
    if spaces: string, rest: string :| AllSpace(spaces) && line == spaces + ("{" + rest) {
      LStripOf(spaces, "{" + rest);
    }
  }

  /** A line closes a block if a brace is the last of its characters but spaces. */
  lemma ClosesBlockIff(line: string)
    ensures ClosesBlock(line) <==>
            exists rest: string, spaces: string :: AllSpace(spaces) && line == (rest + "}") + spaces
  {
    RStripCuts(line);
    var t := RStrip(line);
    if ClosesBlock(line) {
      assert line == (t[..|t| - 1] + "}") + line[|t|..];
    }
    if rest: string, spaces: string :| AllSpace(spaces) && line == (rest + "}") + spaces {
      RStripOf(rest + "}", spaces);
    }
  }

  /** The position of the first equals sign, or the length if there is none. */
  function EqualsAt(s: string): (i: nat)
    ensures i <= |s| && (forall k | 0 <= k < i :: s[k] != '=') && (i < |s| ==> s[i] == '=')
  {
    if |s| == 0 || s[0] == '=' then 0 else 1 + EqualsAt(s[1..])
  }

  function JoinLines(lines: seq<string>): string {
    if |lines| == 0 then ""
    else if |lines| == 1 then lines[0]
    else JoinLines(lines[..|lines| - 1]) + "\n" + lines[|lines| - 1]
  }

  lemma {:induction false} JoinWithLast(lines: seq<string>, last: string)
    requires |lines| > 0
    ensures Join(lines + [last], '\n') == Join(lines, '\n') + "\n" + last
  {
    var all := lines + [last];
    if |lines| > 1 {
      JoinWithLast(lines[1..], last);
      assert all[1..] == lines[1..] + [last];
    } else {
      assert all == [lines[0], last] && all[1..] == [last];
    }
  }

  /** Lines are joined by newlines, so the text of a block has its lines again. */
  lemma {:induction false} LinesOfJoined(lines: seq<string>)
    ensures JoinLines(lines) == Join(lines, '\n')
    ensures |lines| > 0 && (forall line | line in lines :: '\n' !in line) ==> Split(JoinLines(lines), '\n') == lines
  {
    if |lines| > 1 {
      var n := |lines| - 1;
      LinesOfJoined(lines[..n]);
      assert lines == lines[..n] + [lines[n]];
      JoinWithLast(lines[..n], lines[n]);
    }
    if |lines| > 0 && forall line | line in lines :: '\n' !in line {
      SplitOfJoin(lines, '\n');
    }
  }

  // ---------------------------------------------------------------------------
  // The parser
  // ---------------------------------------------------------------------------

  /** Between two lines: what was parsed, the key that waits for the end of its
      block, and the lines of the block so far. */
  datatype State = State(parsed: map<string, string>, key: Option<string>, block: seq<string>)

  const START := State(map[], None, [])

  function StepLine(s: State, line: string): State {
    match s.key
    case None =>
      var i := EqualsAt(line);
      if i == |line| then s
      else
        var key, v := line[..i], line[i + 1..];
        if StartsWith(key, "Exec") && OpensBlock(v) && !ClosesBlock(v)
        then s.(key := Some(key), block := s.block + [v])
        else s.(parsed := s.parsed[key := Strip(v)])
    case Some(key) =>
      var block := s.block + [line];
      if ClosesBlock(line) then State(s.parsed[key := Strip(JoinLines(block))], None, [])
      else s.(block := block)
  }

  /** The state that a step function reaches from s over the first n lines. */
  function Fold<S, L>(step: (S, L) -> S, s: S, lines: seq<L>, n: nat): S
    requires n <= |lines|
  {
    if n == 0 then s else step(Fold(step, s, lines, n - 1), lines[n - 1])
  }

  lemma {:induction false} FoldPrefix<S, L>(step: (S, L) -> S, s: S, a: seq<L>, b: seq<L>, n: nat)
    requires n <= |a|
    ensures Fold(step, s, a + b, n) == Fold(step, s, a, n)
  {
    if n > 0 {
      FoldPrefix(step, s, a, b, n - 1);
    }
  }

  lemma {:induction false} FoldTwo<S, L>(step: (S, L) -> S, s: S, lines: seq<L>, m: nat, n: nat)
    requires m + n <= |lines|
    ensures Fold(step, s, lines, m + n) == Fold(step, Fold(step, s, lines, m), lines[m..], n)
  {
    if n > 0 {
      FoldTwo(step, s, lines, m, n - 1);
    }
  }

  lemma FoldConcat<S, L>(step: (S, L) -> S, s: S, a: seq<L>, b: seq<L>, n: nat)
    requires n <= |b|
    ensures Fold(step, s, a + b, |a| + n) == Fold(step, Fold(step, s, a, |a|), b, n)
  {
    FoldPrefix(step, s, a, b, |a|);
    FoldTwo(step, s, a + b, |a|, n);
    assert (a + b)[|a|..] == b;
  }

  lemma FoldFirst<S, L>(step: (S, L) -> S, s: S, first: L, rest: seq<L>)
    ensures Fold(step, s, [first] + rest, 1 + |rest|) == Fold(step, step(s, first), rest, |rest|)
  {
    FoldConcat(step, s, [first], rest, |rest|);
    assert Fold(step, s, [first], 1) == step(Fold(step, s, [first], 0), first);
  }

  /** The state after the first n lines. */
  function After(s: State, lines: seq<string>, n: nat): State
    requires n <= |lines|
  {
    Fold(StepLine, s, lines, n)
  }

  method ParseSystemctlShow(lines: seq<string>) returns (parsed: map<string, string>)
    ensures parsed == After(START, lines, |lines|).parsed
  {
    parsed := map[];
    var multival: seq<string> := [];
    var k: Option<string> := None;
    for n := 0 to |lines|
      invariant After(START, lines, n) == State(parsed, k, multival)
      invariant k.Some? <==> |multival| > 0
    {
      var line := lines[n];
      if k.None? {
        var i := EqualsAt(line);
        if i < |line| {
          k := Some(line[..i]);
          var v := line[i + 1..];
          if StartsWith(k.value, "Exec") && OpensBlock(v) && !ClosesBlock(v) {
            multival := multival + [v];
          } else {
            parsed := parsed[k.value := Strip(v)];
            k := None;
          }
        }
      } else {
        multival := multival + [line];
        if ClosesBlock(line) {
          parsed := parsed[k.value := Strip(JoinLines(multival))];
          multival := [];
          k := None;
        }
      }
    }
  }

  // ---------------------------------------------------------------------------
  // Rendering and reading back
  // ---------------------------------------------------------------------------

  /** A property: its key and the lines of its value. */
  datatype Property = Property(key: string, lines: seq<string>)

  function Value(p: Property): string { JoinLines(p.lines) }

  function Render(p: Property): seq<string>
    requires |p.lines| > 0
  {
    [p.key + "=" + p.lines[0]] + p.lines[1..]
  }

  /** The properties that can be told from their lines: no equals sign in the key,
      no space around the value; if there are several lines, it is an Exec key, a
      brace opens the first line and only the last one ends with a brace; if
      there is one, it does not leave a block open. */
  predicate WellFormed(p: Property) {
    && |p.lines| > 0
    && '=' !in p.key
    && Strip(Value(p)) == Value(p)
    && var block := StartsWith(p.key, "Exec") && OpensBlock(p.lines[0]);
       if |p.lines| == 1 then block ==> ClosesBlock(p.lines[0])
       else
         block && ClosesBlock(p.lines[|p.lines| - 1]) && forall i | 0 <= i < |p.lines| - 1 :: !ClosesBlock(p.lines[i])
  }

  lemma FirstLine(p: Property)
    requires |p.lines| > 0 && '=' !in p.key
    ensures EqualsAt(p.key + "=" + p.lines[0]) == |p.key|
    ensures (p.key + "=" + p.lines[0])[..|p.key|] == p.key && (p.key + "=" + p.lines[0])[|p.key| + 1..] == p.lines[0]
  {
    var line := p.key + "=" + p.lines[0];
    assert line[|p.key|] == '=';
    assert forall k | 0 <= k < |p.key| :: line[k] == p.key[k];
  }

  /** While no line closes the block, the lines are collected. */
  lemma {:induction false} BlockGrows(s: State, lines: seq<string>, n: nat)
    requires s.key.Some? && n <= |lines| && forall i | 0 <= i < n :: !ClosesBlock(lines[i])
    ensures After(s, lines, n) == s.(block := s.block + lines[..n])
  {
    if n == 0 {
      assert s.block + lines[..0] == s.block;
    } else {
      BlockGrows(s, lines, n - 1);
      assert (s.block + lines[..n - 1]) + [lines[n - 1]] == s.block + lines[..n];
    }
  }

  /** The first line, then the others. */
  lemma AfterFirst(s: State, p: Property)
    requires |p.lines| > 0
    ensures After(s, Render(p), |p.lines|)
         == After(StepLine(s, p.key + "=" + p.lines[0]), p.lines[1..], |p.lines| - 1)
  {
    FoldFirst(StepLine, s, p.key + "=" + p.lines[0], p.lines[1..]);
  }

  predicate Opens(p: Property)
    requires |p.lines| > 0
  {
    StartsWith(p.key, "Exec") && OpensBlock(p.lines[0]) && !ClosesBlock(p.lines[0])
  }

  lemma FirstStep(s: State, p: Property)
    requires |p.lines| > 0 && '=' !in p.key && s.key.None? && s.block == []
    ensures StepLine(s, p.key + "=" + p.lines[0])
         == if Opens(p) then State(s.parsed, Some(p.key), [p.lines[0]])
            else s.(parsed := s.parsed[p.key := Strip(p.lines[0])])
  {
    FirstLine(p);
  }

  /** One line is read at once, unless it opens a block. */
  lemma OneLine(s: State, p: Property)
    requires |p.lines| == 1 && '=' !in p.key && s.key.None? && s.block == []
    ensures After(s, Render(p), 1)
         == if Opens(p) then State(s.parsed, Some(p.key), p.lines) else s.(parsed := s.parsed[p.key := Strip(Value(p))])
  {
    FirstStep(s, p);
    AfterFirst(s, p);
  }

  /** A block that has begun, up to the line that may close it. */
  lemma BlockThenLine(s: State, key: string, rest: seq<string>, block: seq<string>)
    requires s.key == Some(key) && |rest| > 0 && forall i | 0 <= i < |rest| - 1 :: !ClosesBlock(rest[i])
    requires block == s.block + rest[..|rest| - 1]
    ensures After(s, rest, |rest|) == StepLine(s.(block := block), rest[|rest| - 1])
  {
    BlockGrows(s, rest, |rest| - 1);
  }

  /** A block that no line but perhaps the last closes. */
  lemma WholeBlock(s: State, p: Property)
    requires |p.lines| > 1 && '=' !in p.key && s.key.None? && s.block == []
    requires Opens(p) && forall i | 0 <= i < |p.lines| - 1 :: !ClosesBlock(p.lines[i])
    ensures After(s, Render(p), |p.lines|)
         == if ClosesBlock(p.lines[|p.lines| - 1]) then s.(parsed := s.parsed[p.key := Strip(Value(p))])
            else State(s.parsed, Some(p.key), p.lines)
  {
    var n := |p.lines| - 1;
    AfterBlock(s, p);
    assert p.lines == p.lines[..n] + [p.lines[n]];
    BlockLine(State(s.parsed, Some(p.key), p.lines[..n]), p.key, p.lines[n]);
  }

  lemma HeadThenTake<T>(s: seq<T>, n: nat)
    requires 0 < n <= |s|
    ensures [s[0]] + s[1..][..n - 1] == s[..n]
  {
  }

  lemma TailThenDrop<T>(s: seq<T>, n: nat)
    requires n < |s|
    ensures s[1..][n..] == s[n + 1..]
  {
  }

  lemma AfterBlock(s: State, p: Property)
    requires |p.lines| > 1 && '=' !in p.key && s.key.None? && s.block == []
    requires Opens(p) && forall i | 0 <= i < |p.lines| - 1 :: !ClosesBlock(p.lines[i])
    ensures After(s, Render(p), |p.lines|)
         == StepLine(State(s.parsed, Some(p.key), p.lines[..|p.lines| - 1]), p.lines[|p.lines| - 1])
  {
    var begun := State(s.parsed, Some(p.key), [p.lines[0]]);
    AfterFirst(s, p);
    assert StepLine(s, p.key + "=" + p.lines[0]) == begun by {
      FirstStep(s, p);
    }
    HeadThenTake(p.lines, |p.lines| - 1);
    BlockThenLine(begun, p.key, p.lines[1..], p.lines[..|p.lines| - 1]);
  }

  /** One more line of a block. */
  lemma BlockLine(s: State, key: string, line: string)
    requires s.key == Some(key)
    ensures StepLine(s, line)
         == if ClosesBlock(line) then State(s.parsed[key := Strip(JoinLines(s.block + [line]))], None, [])
            else s.(block := s.block + [line])
  {
  }

  /** A well-formed property is read from its lines, whatever was read before. */
  lemma WellFormedIsRead(s: State, p: Property)
    requires WellFormed(p) && s.key.None? && s.block == []
    ensures After(s, Render(p), |p.lines|) == s.(parsed := s.parsed[p.key := Value(p)])
  {
    if |p.lines| == 1 { OneLine(s, p); } else { WholeBlock(s, p); }
  }

  function RenderAll(ps: seq<Property>, n: nat): seq<string>
    requires n <= |ps| && forall p | p in ps :: |p.lines| > 0
  {
    if n == 0 then [] else assert ps[n - 1] in ps; RenderAll(ps, n - 1) + Render(ps[n - 1])
  }

  function Updated(m: map<string, string>, ps: seq<Property>, n: nat): map<string, string>
    requires n <= |ps|
  {
    if n == 0 then m else Updated(m, ps, n - 1)[ps[n - 1].key := Value(ps[n - 1])]
  }

  lemma AfterConcat(s: State, a: seq<string>, b: seq<string>)
    ensures After(s, a + b, |a + b|) == After(After(s, a, |a|), b, |b|)
  {
    FoldConcat(StepLine, s, a, b, |b|);
  }

  lemma ReadOneMore(s: State, lines: seq<string>, s': State, p: Property)
    requires After(s, lines, |lines|) == s' && s'.key.None? && s'.block == [] && WellFormed(p)
    ensures After(s, lines + Render(p), |lines + Render(p)|) == s'.(parsed := s'.parsed[p.key := Value(p)])
  {
    AfterConcat(s, lines, Render(p));
    assert |Render(p)| == |p.lines|;
    WellFormedIsRead(s', p);
  }

  /** Parsing undoes rendering: of well-formed properties, in any order, every one
      is read back (and of two with the same key the later one). */
  lemma {:induction false} ParsingUndoesRendering(s: State, ps: seq<Property>, n: nat)
    requires s.key.None? && s.block == [] && n <= |ps|
    requires forall p | p in ps :: |p.lines| > 0
    requires forall p | p in ps :: WellFormed(p)
    ensures After(s, RenderAll(ps, n), |RenderAll(ps, n)|) == s.(parsed := Updated(s.parsed, ps, n))
  {
    if n == 0 {
      assert RenderAll(ps, n) == [];
    } else {
      assert ps[n - 1] in ps;
      ParsingUndoesRendering(s, ps, n - 1);
      ReadOneMore(s, RenderAll(ps, n - 1), s.(parsed := Updated(s.parsed, ps, n - 1)), ps[n - 1]);
    }
  }

  // ---------------------------------------------------------------------------
  // Only well-formed properties are read back
  // ---------------------------------------------------------------------------

  lemma {:induction false} JoinLength(lines: seq<string>, more: seq<string>)
    requires |lines| > 0 && |more| > 0
    ensures |JoinLines(lines + more)| == |JoinLines(lines)| + 1 + |JoinLines(more)|
    decreases |more|
  {
    var all := lines + more;
    assert all[..|all| - 1] == lines + more[..|more| - 1];
    if |more| == 1 {
      assert lines + [] == lines;
    } else {
      JoinLength(lines, more[..|more| - 1]);
    }
  }

  lemma JoinGrows(lines: seq<string>, line: string)
    ensures |JoinLines(lines + [line])| == if |lines| == 0 then |line| else |JoinLines(lines)| + 1 + |line|
  {
    assert (lines + [line])[..|lines|] == lines;
  }

  /** A block waits exactly while a key does. */
  ghost predicate Balanced(s: State) { s.key.Some? <==> |s.block| > 0 }

  /** What one line can add is no longer than the block with it; keys stay. */
  lemma StepIsNoLonger(s: State, line: string, k: string)
    requires Balanced(s)
    ensures var s', whole := StepLine(s, line), JoinLines(s.block + [line]);
            && Balanced(s') && |JoinLines(s'.block)| <= |whole|
            && (k in s'.parsed ==> (k in s.parsed && s'.parsed[k] == s.parsed[k]) || |s'.parsed[k]| <= |whole|)
            && (k in s.parsed ==> k in s'.parsed)
  {
    JoinGrows(s.block, line);
  }

  /** Everything read from some lines is no longer than those lines together. */
  lemma {:induction false} ReadIsNoLonger(s: State, lines: seq<string>, n: nat, k: string)
    requires n <= |lines| && Balanced(s)
    ensures var s', whole := After(s, lines, n), JoinLines(s.block + lines[..n]);
            && Balanced(s') && |JoinLines(s'.block)| <= |whole| && (|s'.block| > 0 ==> |s.block| + n > 0)
            && (k in s'.parsed ==> (k in s.parsed && s'.parsed[k] == s.parsed[k]) || |s'.parsed[k]| <= |whole|)
            && (k in s.parsed ==> k in s'.parsed)
  {
    if n == 0 {
      assert s.block + lines[..0] == s.block;
    } else {
      ReadIsNoLonger(s, lines, n - 1, k);
      var before, line := After(s, lines, n - 1), lines[n - 1];
      var whole := s.block + lines[..n - 1];
      assert s.block + lines[..n] == whole + [line];
      LongerWithLine(before.block, whole, line);
      StepIsNoLonger(before, line, k);
    }
  }

  lemma LongerWithLine(a: seq<string>, b: seq<string>, line: string)
    requires |JoinLines(a)| <= |JoinLines(b)| && (|a| > 0 ==> |b| > 0)
    ensures |JoinLines(a + [line])| <= |JoinLines(b + [line])|
    ensures |JoinLines(b)| <= |JoinLines(b + [line])|
  {
    JoinGrows(a, line);
    JoinGrows(b, line);
  }

  /** A waiting key is either still waiting, with nothing else read, or was read. */
  lemma {:induction false} WaitingKey(s: State, lines: seq<string>, n: nat, k: string)
    requires n <= |lines| && s.key == Some(k)
    ensures var s' := After(s, lines, n);
            (s'.key == Some(k) && s'.parsed == s.parsed) || k in s'.parsed
  {
    if n > 0 {
      WaitingKey(s, lines, n - 1, k);
    }
  }

  lemma FirstCut(p: Property) returns (cut: string)
    requires |p.lines| > 0 && '=' in p.key
    ensures |cut| < |p.key|
    ensures var s1 := StepLine(START, p.key + "=" + p.lines[0]);
            Balanced(s1) && (s1.key == Some(cut) || cut in s1.parsed)
  {
    var line := p.key + "=" + p.lines[0];
    var at :| 0 <= at < |p.key| && p.key[at] == '=';
    assert line[at] == '=';
    cut := line[..EqualsAt(line)];
  }

  /** A key with an equals sign is cut at the sign, so another key comes out. */
  lemma CutKey(p: Property)
    requires |p.lines| > 0 && '=' in p.key
    ensures After(START, Render(p), |p.lines|).parsed != map[p.key := Value(p)]
  {
    var rest, s1 := p.lines[1..], StepLine(START, p.key + "=" + p.lines[0]);
    var cut := FirstCut(p);
    AfterFirst(START, p);
    var end := After(s1, rest, |rest|);
    if s1.key == Some(cut) {
      WaitingKey(s1, rest, |rest|, cut);
      assert s1.parsed == map[];
    } else {
      ReadIsNoLonger(s1, rest, |rest|, cut);
    }
    assert cut in end.parsed || p.key !in end.parsed;
  }

  /** A block that is closed by its line m, or is none, is read from the lines up
      to that one. */
  lemma ClosedAt(p: Property, m: nat)
    requires |p.lines| > 1 && '=' !in p.key && m < |p.lines| - 1
    requires var opens := StartsWith(p.key, "Exec") && OpensBlock(p.lines[0]);
             if opens then ClosesBlock(p.lines[m]) && forall i | 0 <= i < m :: !ClosesBlock(p.lines[i]) else m == 0
    ensures After(StepLine(START, p.key + "=" + p.lines[0]), p.lines[1..], m)
         == State(map[p.key := Strip(JoinLines(p.lines[..m + 1]))], None, [])
  {
    FirstStep(START, p);
    var s1, rest, head := StepLine(START, p.key + "=" + p.lines[0]), p.lines[1..], p.lines[..m + 1];
    if m == 0 {
      assert head == [p.lines[0]];
    } else {
      BlockGrows(s1, rest, m - 1);
      assert s1.block + rest[..m - 1] + [rest[m - 1]] == head;
    }
  }

  lemma AfterTwo(s: State, lines: seq<string>, m: nat, tail: seq<string>)
    requires m <= |lines| && tail == lines[m..]
    ensures After(s, lines, |lines|) == After(After(s, lines, m), tail, |tail|)
  {
    FoldTwo(StepLine, s, lines, m, |tail|);
  }

  /** The first line, then m more, then the others. */
  lemma AfterSplit(s: State, p: Property, m: nat, tail: seq<string>)
    requires m < |p.lines| && tail == p.lines[m + 1..]
    ensures After(s, Render(p), |p.lines|)
         == After(After(StepLine(s, p.key + "=" + p.lines[0]), p.lines[1..], m), tail, |tail|)
  {
    AfterFirst(s, p);
    TailThenDrop(p.lines, m);
    AfterTwo(StepLine(s, p.key + "=" + p.lines[0]), p.lines[1..], m, tail);
  }

  /** A value of several lines that do not make one block comes out shorter. */
  lemma BrokenBlockIsShorter(p: Property, m: nat)
    requires |p.lines| > 1 && '=' !in p.key && m < |p.lines| - 1
    requires var opens := StartsWith(p.key, "Exec") && OpensBlock(p.lines[0]);
             if opens then ClosesBlock(p.lines[m]) && forall i | 0 <= i < m :: !ClosesBlock(p.lines[i]) else m == 0
    ensures var parsed := After(START, Render(p), |p.lines|).parsed;
            p.key in parsed ==> |parsed[p.key]| < |Value(p)|
  {
    ClosedAt(p, m);
    AfterSplit(START, p, m, p.lines[m + 1..]);
    TailIsShorter(p, m, State(map[p.key := Strip(JoinLines(p.lines[..m + 1]))], None, []));
  }

  lemma TailIsShorter(p: Property, m: nat, s: State)
    requires m < |p.lines| - 1
    requires s.key.None? && s.block == [] && s.parsed == map[p.key := Strip(JoinLines(p.lines[..m + 1]))]
    ensures var parsed := After(s, p.lines[m + 1..], |p.lines| - m - 1).parsed;
            p.key in parsed ==> |parsed[p.key]| < |Value(p)|
  {
    var head, tail := p.lines[..m + 1], p.lines[m + 1..];
    assert p.lines == head + tail;
    JoinLength(head, tail);
    assert s.block + tail[..|tail|] == tail;
    ReadIsNoLonger(s, tail, |tail|, p.key);
  }

  /** A single property comes back from its lines if and only if it is well
      formed: the condition is exactly the one that rendering needs. */
  lemma ReadBackIffWellFormed(p: Property)
    requires |p.lines| > 0
    ensures After(START, Render(p), |p.lines|).parsed == map[p.key := Value(p)] <==> WellFormed(p)
  {
    var parsed, lines := After(START, Render(p), |p.lines|).parsed, p.lines;
    if WellFormed(p) {
      WellFormedIsRead(START, p);
    } else if '=' in p.key {
      CutKey(p);
    } else {
      var opens := StartsWith(p.key, "Exec") && OpensBlock(lines[0]);
      if |lines| > 1 && (!opens || exists i | 0 <= i < |lines| - 1 :: ClosesBlock(lines[i])) {
        var m := if opens then FirstClosing(lines, 0) else 0;
        BrokenBlockIsShorter(p, m);
      } else {
        EndsOpenOrUntrimmed(p);
      }
    }
  }

  function FirstClosing(lines: seq<string>, i: nat): (m: nat)
    requires i <= |lines|
    ensures i <= m <= |lines| && (m < |lines| ==> ClosesBlock(lines[m]))
    ensures forall k | i <= k < m :: !ClosesBlock(lines[k])
    decreases |lines| - i
  {
    if i == |lines| || ClosesBlock(lines[i]) then i else FirstClosing(lines, i + 1)
  }

  /** The other two ways of not being well formed: the block is not closed, or
      there is space around the value. */
  lemma EndsOpenOrUntrimmed(p: Property)
    requires |p.lines| > 0 && '=' !in p.key && !WellFormed(p)
    requires |p.lines| > 1 ==>
               && StartsWith(p.key, "Exec") && OpensBlock(p.lines[0])
               && forall i | 0 <= i < |p.lines| - 1 :: !ClosesBlock(p.lines[i])
    ensures After(START, Render(p), |p.lines|).parsed != map[p.key := Value(p)]
  {
    if |p.lines| == 1 { OneLine(START, p); } else { WholeBlock(START, p); }
    var end := After(START, Render(p), |p.lines|);
    assert p.key in end.parsed ==> end.parsed[p.key] == Strip(Value(p));
  }
}
