/** What a session promises its caller, stated over the step functions that
    the Session methods are proved against. */
module TokiProperties {
  import opened Positions
  import opened Toki

  /** The results of `n` successive calls of Next from the cursor `c`. */
  function Run(rules: seq<Def>, c: Cursor, n: nat): (rs: seq<Result>)
    requires Compiled(rules)
    ensures |rs| == n
    decreases n
  {
    if n == 0 then [] else [StepResult(rules, c)] + Run(rules, AfterNext(rules, c), n - 1)
  }

  /** The cursor after `n` successive calls of Next from the cursor `c`. */
  function Iterate(rules: seq<Def>, c: Cursor, n: nat): Cursor
    requires Compiled(rules)
    decreases n
  {
    if n == 0 then c else Iterate(rules, AfterNext(rules, c), n - 1)
  }

  predicate Terminal(r: Result) { r.token == EOF || r.token == Error }

  // ---------------------------------------------------------------- skip

  /** The skip removes a prefix made only of blanks, moves the position over
      exactly that prefix, and leaves input that does not start with a blank. */
  lemma SkipRemovesBlanks(c: Cursor)
    ensures var r := AfterSkip(c);
            && |r.input| <= |c.input|
            && c.input == c.input[..|c.input| - |r.input|] + r.input
            && (forall i :: 0 <= i < |c.input| - |r.input| ==> IsBlank(c.input[i]))
            && r.pos == c.pos.Move(c.input[..|c.input| - |r.input|])
            && (r.input == [] || !IsBlank(r.input[0]))
  {
    var n := Span(c.input, IsBlank);
    if n == 0 {
      assert c.input[..0] == [];
      assert c.input[..0] + c.input == c.input;
    } else {
      assert c.input[..n] + c.input[n..] == c.input;
    }
  }

  /** Skipping twice is skipping once. */
  lemma SkipIdempotent(c: Cursor)
    ensures AfterSkip(AfterSkip(c)) == AfterSkip(c)
  {
    SkipRemovesBlanks(c);
  }

  // ---------------------------------------------------------------- scan

  /** EOF, with no text, exactly when nothing but blanks remains; it is
      reported at the position after the blanks. */
  lemma EofExactlyAtEnd(rules: seq<Def>, c: Cursor)
    requires Compiled(rules) && NoReservedTokens(rules)
    ensures var r := StepResult(rules, c);
            (r.token == EOF <==> AfterSkip(c).input == [])
            && (r.token == EOF ==> r.value == [] && r.pos == AfterSkip(c).pos)
  {
    var s := AfterSkip(c);
    if s.input != [] {
      var m := FirstMatch(rules, s.input, 0);
      if m.Some? {
        assert rules[m.value.0].token != EOF;
      }
    }
  }

  /** Error, with no text, exactly when input remains and no definition
      matches it; it is reported at the position after the blanks. */
  lemma ErrorExactlyWhenNoRuleMatches(rules: seq<Def>, c: Cursor)
    requires Compiled(rules) && NoReservedTokens(rules)
    ensures var r := StepResult(rules, c);
            var s := AfterSkip(c);
            (r.token == Error <==>
               s.input != [] && forall j :: 0 <= j < |rules| ==> rules[j].regexp.value(s.input).None?)
            && (r.token == Error ==> r.value == [] && r.pos == s.pos)
  {
    var s := AfterSkip(c);
    if s.input != [] {
      var m := FirstMatch(rules, s.input, 0);
      if m.Some? {
        assert rules[m.value.0].token != Error;
      }
    }
  }

  /** First match wins: when definition `k` is the first whose matcher
      matches the non-empty input, the scan yields its token, the matched
      prefix, and the current position. */
  lemma ScanAtFirstMatch(rules: seq<Def>, s: Cursor, k: nat, n: nat)
    requires Compiled(rules) && k < |rules| && s.input != []
    requires rules[k].regexp.value(s.input) == Some(n)
    requires forall j :: 0 <= j < k ==> rules[j].regexp.value(s.input).None?
    ensures n <= |s.input|
    ensures ScanAt(rules, s) == Result(rules[k].token, s.input[..n], s.pos)
  {
    assert FirstMatch(rules, s.input, 0).Some?;
  }

  /** The same, for a whole scan step: the definitions are tried against the
      input left after the skip, and the token is reported where the skip ended. */
  lemma FirstMatchWins(rules: seq<Def>, c: Cursor, k: nat, n: nat)
    requires Compiled(rules) && k < |rules|
    requires AfterSkip(c).input != []
    requires rules[k].regexp.value(AfterSkip(c).input) == Some(n)
    requires forall j :: 0 <= j < k ==> rules[j].regexp.value(AfterSkip(c).input).None?
    ensures n <= |AfterSkip(c).input|
    ensures StepResult(rules, c) == Result(rules[k].token, AfterSkip(c).input[..n], AfterSkip(c).pos)
  {
    ScanAtFirstMatch(rules, AfterSkip(c), k, n);
  }

  /** Every token other than EOF and Error comes from a definition that
      matches, with no earlier definition matching; its text is a prefix of
      the input left after the skip. */
  lemma UserTokenFromFirstMatch(rules: seq<Def>, c: Cursor)
    requires Compiled(rules)
    requires !Terminal(StepResult(rules, c))
    ensures var s := AfterSkip(c);
            var r := StepResult(rules, c);
            && r.value <= s.input
            && r.pos == s.pos
            && exists k :: 0 <= k < |rules| && rules[k].token == r.token
                 && rules[k].regexp.value(s.input) == Some(|r.value|)
                 && forall j :: 0 <= j < k ==> rules[j].regexp.value(s.input).None?
  {
    var s := AfterSkip(c);
    var m := FirstMatch(rules, s.input, 0);
    assert m.Some?;
    var k := m.value.0;
    assert rules[k].token == StepResult(rules, c).token;
  }

  // ---------------------------------------------------------------- next

  /** On a token other than EOF or Error, Next removes exactly the token's
      text from the input left after the skip and moves over it. */
  lemma NextConsumesToken(rules: seq<Def>, c: Cursor)
    requires Compiled(rules)
    requires !Terminal(StepResult(rules, c))
    ensures var s := AfterSkip(c);
            var r := StepResult(rules, c);
            && s.input == r.value + AfterNext(rules, c).input
            && AfterNext(rules, c) == Cursor(s.input[|r.value|..], s.pos.Move(r.value))
  {
    UserTokenFromFirstMatch(rules, c);
  }

  /** On EOF or Error, Next consumes nothing beyond the skip. */
  lemma NextStopsAtTerminal(rules: seq<Def>, c: Cursor)
    requires Compiled(rules)
    requires Terminal(StepResult(rules, c))
    ensures AfterNext(rules, c) == AfterSkip(c)
  {
  }

  /** After EOF or Error, the next call of Next returns the same result and
      leaves the cursor where it is. */
  lemma TerminalIsStable(rules: seq<Def>, c: Cursor)
    requires Compiled(rules)
    requires Terminal(StepResult(rules, c))
    ensures StepResult(rules, AfterNext(rules, c)) == StepResult(rules, c)
    ensures AfterNext(rules, AfterNext(rules, c)) == AfterNext(rules, c)
  {
    SkipIdempotent(c);
  }

  /** Once EOF or Error is returned, every later call of Next returns it again. */
  lemma {:induction false} TerminalForever(rules: seq<Def>, c: Cursor, n: nat)
    requires Compiled(rules)
    requires Terminal(StepResult(rules, c))
    ensures forall i :: 0 <= i < n ==> Run(rules, c, n)[i] == StepResult(rules, c)
    decreases n
  {
    if n > 0 {
      TerminalIsStable(rules, c);
      TerminalForever(rules, AfterNext(rules, c), n - 1);
    }
  }

  /** Two Peeks in a row return the same result and leave the same cursor;
      Next after a Peek returns that result and ends where it would have. */
  lemma PeekIsRepeatable(rules: seq<Def>, c: Cursor)
    requires Compiled(rules)
    ensures StepResult(rules, AfterSkip(c)) == StepResult(rules, c)
    ensures AfterSkip(AfterSkip(c)) == AfterSkip(c)
    ensures AfterNext(rules, AfterSkip(c)) == AfterNext(rules, c)
  {
    SkipIdempotent(c);
  }

  /** `d` is `c` after a prefix of `c`'s input has been consumed: the
      position of `d` is that of `c` moved over the consumed prefix. */
  predicate Advanced(c: Cursor, d: Cursor)
  {
    && |d.input| <= |c.input|
    && c.input == c.input[..|c.input| - |d.input|] + d.input
    && d.pos == c.pos.Move(c.input[..|c.input| - |d.input|])
  }

  /** Consuming in two steps is consuming the two prefixes together. */
  lemma AdvancedTransitive(a: Cursor, b: Cursor, c: Cursor)
    requires Advanced(a, b) && Advanced(b, c)
    ensures Advanced(a, c)
  {
    var x := a.input[..|a.input| - |b.input|];
    var y := b.input[..|b.input| - |c.input|];
    assert a.input == (x + y) + c.input;
    assert a.input[..|a.input| - |c.input|] == x + y;
    MoveConcat(a.pos, x, y);
  }

  /** Next removes blanks and then the token's text: what remains is a suffix
      of what was there, and the position has moved over what was removed. */
  lemma NextAdvances(rules: seq<Def>, c: Cursor)
    requires Compiled(rules)
    ensures Advanced(c, AfterNext(rules, c))
  {
    var s := AfterSkip(c);
    var d := AfterNext(rules, c);
    SkipRemovesBlanks(c);
    assert Advanced(c, s);
    if Terminal(StepResult(rules, c)) {
      NextStopsAtTerminal(rules, c);
    } else {
      NextConsumesToken(rules, c);
      assert Advanced(s, d);
      AdvancedTransitive(c, s, d);
    }
  }

  /** Next never lengthens the input. A token with non-empty text makes
      progress; one whose pattern matched the empty string leaves the cursor
      where the skip left it. */
  lemma NextProgress(rules: seq<Def>, c: Cursor)
    requires Compiled(rules)
    ensures |AfterNext(rules, c).input| <= |c.input|
    ensures var r := StepResult(rules, c);
            !Terminal(r) && r.value != [] ==> |AfterNext(rules, c).input| < |c.input|
    ensures var r := StepResult(rules, c);
            !Terminal(r) && r.value == [] ==> AfterNext(rules, c) == AfterSkip(c)
  {
    NextAdvances(rules, c);
    SkipRemovesBlanks(c);
    var r := StepResult(rules, c);
    if !Terminal(r) {
      NextConsumesToken(rules, c);
      if r.value == [] {
        var s := AfterSkip(c);
        assert s.input[|r.value|..] == s.input;
        assert s.pos.Move(r.value) == s.pos;
      }
    }
  }

  /** Over any number of Next calls from the start of a text, the remaining
      input is a suffix of the text and the position is line 1, column 1
      moved over everything consumed so far. */
  lemma {:induction false} PositionAfterRun(rules: seq<Def>, text: string, n: nat)
    requires Compiled(rules)
    ensures Advanced(Cursor(text, Position(1, 1)), Iterate(rules, Cursor(text, Position(1, 1)), n))
  {
    IterateAdvances(rules, Cursor(text, Position(1, 1)), n);
  }

  /** Any number of calls of Next from a cursor leave it advanced. */
  lemma {:induction false} IterateAdvances(rules: seq<Def>, c: Cursor, n: nat)
    requires Compiled(rules)
    ensures Advanced(c, Iterate(rules, c, n))
    decreases n
  {
    if n == 0 {
      AdvancedReflexive(c);
    } else {
      var d := AfterNext(rules, c);
      IterateAdvances(rules, d, n - 1);
      AdvancedFirstStep(rules, c, d, Iterate(rules, d, n - 1));
      IterateFirst(rules, c, n);
    }
  }

  /** The first call of Next, followed by calls that keep the cursor advanced. */
  lemma AdvancedFirstStep(rules: seq<Def>, c: Cursor, d: Cursor, e: Cursor)
    requires Compiled(rules) && d == AfterNext(rules, c) && Advanced(d, e)
    ensures Advanced(c, e)
  {
    NextAdvances(rules, c);
    AdvancedTransitive(c, d, e);
  }

  lemma IterateFirst(rules: seq<Def>, c: Cursor, n: nat)
    requires Compiled(rules) && n > 0
    ensures Iterate(rules, c, n) == Iterate(rules, AfterNext(rules, c), n - 1)
  {
  }

  /** Consuming nothing. */
  lemma AdvancedReflexive(c: Cursor)
    ensures Advanced(c, c)
  {
    assert c.input[..0] == [];
  }

  lemma {:induction false} IterateLast(rules: seq<Def>, c: Cursor, n: nat)
    requires Compiled(rules) && n > 0
    ensures Iterate(rules, c, n) == AfterNext(rules, Iterate(rules, c, n - 1))
    decreases n
  {
    if n > 1 {
      IterateLast(rules, AfterNext(rules, c), n - 1);
    }
  }

  /** The `i`-th of `n` results is what Next returns after `i` earlier calls. */
  lemma {:induction false} RunAt(rules: seq<Def>, c: Cursor, n: nat, i: nat)
    requires Compiled(rules) && i < n
    ensures Run(rules, c, n)[i] == StepResult(rules, Iterate(rules, c, i))
    decreases i
  {
    if i > 0 {
      RunAt(rules, AfterNext(rules, c), n - 1, i - 1);
    }
  }

  /** A leading run of characters of a class adds its length to the span. */
  lemma {:induction false} SpanOfRun(run: string, tail: string, inClass: char -> bool)
    requires forall i :: 0 <= i < |run| ==> inClass(run[i])
    ensures Span(run + tail, inClass) == |run| + Span(tail, inClass)
  {
    if run == [] {
      assert run + tail == tail;
    } else {
      assert (run + tail)[0] == run[0];
      assert (run + tail)[1..] == run[1..] + tail;
      SpanOfRun(run[1..], tail, inClass);
    }
  }

  /** The skip removes exactly a leading run of blanks, whatever its length. */
  lemma SkipOverBlanks(blanks: string, s: string, p: Position)
    requires forall i :: 0 <= i < |blanks| ==> IsBlank(blanks[i])
    requires s == [] || !IsBlank(s[0])
    ensures AfterSkip(Cursor(blanks + s, p)) == Cursor(s, p.Move(blanks))
  {
    SpanOfRun(blanks, s, IsBlank);
    assert Span(s, IsBlank) == 0;
    if blanks == [] {
      assert blanks + s == s;
      assert p.Move(blanks) == p;
    } else {
      assert RegexSpace(blanks + s) == Some(|blanks|);
      assert (blanks + s)[..|blanks|] == blanks;
      assert (blanks + s)[|blanks|..] == s;
    }
  }

  /** Input that does not start with a blank is not skipped. */
  lemma SkipNothing(c: Cursor)
    requires c.input == [] || !IsBlank(c.input[0])
    ensures AfterSkip(c) == c
  {
  }

  /** What a scan step reports, apart from where, depends only on the input. */
  lemma ScanIgnoresPosition(rules: seq<Def>, s: string, p: Position, q: Position)
    requires Compiled(rules)
    ensures ScanAt(rules, Cursor(s, p)).token == ScanAt(rules, Cursor(s, q)).token
    ensures ScanAt(rules, Cursor(s, p)).value == ScanAt(rules, Cursor(s, q)).value
    ensures ScanAt(rules, Cursor(s, p)).pos == p
  {
  }

  /** Blanks before a token change only its position: the token and its text
      are the same after one blank, many, or none. */
  lemma BlanksAreTransparent(rules: seq<Def>, blanks: string, s: string, p: Position, q: Position)
    requires Compiled(rules)
    requires forall i :: 0 <= i < |blanks| ==> IsBlank(blanks[i])
    requires s == [] || !IsBlank(s[0])
    ensures StepResult(rules, Cursor(blanks + s, p)) == ScanAt(rules, Cursor(s, p.Move(blanks)))
    ensures StepResult(rules, Cursor(blanks + s, p)).token == StepResult(rules, Cursor(s, q)).token
    ensures StepResult(rules, Cursor(blanks + s, p)).value == StepResult(rules, Cursor(s, q)).value
  {
    SkipOverBlanks(blanks, s, p);
    SkipNothing(Cursor(s, q));
    ScanIgnoresPosition(rules, s, p.Move(blanks), q);
  }

  // ---------------------------------------------------------------- tokens

  /** The reserved tokens are the two largest 32-bit values, and distinct. */
  lemma SentinelValues()
    ensures EOF as int == 0x1_0000_0000 - 1 && Error as int == 0x1_0000_0000 - 2
    ensures EOF != Error
  {
  }
}
