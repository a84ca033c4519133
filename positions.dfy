/** Line/column tracking over consumed text (scanner.go, Position and its move).
    Text is a sequence of Unicode code points, so the rune count of a piece of
    text is its length. */
module Positions {

  /** Number of occurrences of `c` in `s` (the library's byte count). */
  function Count(s: string, c: char): (r: nat)
    ensures r <= |s|
    ensures r == 0 <==> c !in s
  {
    if s == [] then 0
    else Count(s[..|s| - 1], c) + (if s[|s| - 1] == c then 1 else 0)
  }

  /** Index of the last occurrence of `c` in `s`, or -1 when there is none. */
  function LastIndex(s: string, c: char): (r: int)
    ensures -1 <= r < |s|
    ensures r == -1 <==> c !in s
    ensures r != -1 ==> s[r] == c && c !in s[r + 1..]
  {
    if s == [] then -1
    else if s[|s| - 1] == c then |s| - 1
    else LastIndex(s[..|s| - 1], c)
  }

  /** A 1-based line and column. A value type: a scan result keeps a copy. */
  datatype Position = Position(line: int, column: int) {

    /** The position after the text `s` has been consumed from this one:
        the line grows by the number of newlines in `s`; the column restarts
        at 1 after the last newline (if any) and then grows by the number of
        characters that follow it. */
    function Move(s: string): (p: Position)
      ensures p.line >= line
      ensures '\n' in s ==> p.line > line && p.column >= 1
      ensures '\n' !in s ==> p == Position(line, column + |s|)
    {
      var last := LastIndex(s, '\n');
      Position(line + Count(s, '\n'), (if last != -1 then 1 else column) + |s[last + 1..]|)
    }
  }

  /** The effect of consuming one character, as a text editor's cursor moves. */
  function Step(p: Position, c: char): Position
  {
    if c == '\n' then Position(p.line + 1, 1) else Position(p.line, p.column + 1)
  }

  /** Reference definition: consume the text one character at a time. */
  function Walk(p: Position, s: string): Position
  {
    if s == [] then p else Step(Walk(p, s[..|s| - 1]), s[|s| - 1])
  }

  /** Moving over a piece of text in one go agrees with walking it character by character. */
  lemma {:induction false} MoveIsWalk(p: Position, s: string)
    ensures p.Move(s) == Walk(p, s)
  {
    if s != [] {
      var t := s[..|s| - 1];
      MoveIsWalk(p, t);
      var lt := LastIndex(t, '\n');
      if s[|s| - 1] != '\n' {
        assert LastIndex(s, '\n') == lt;
        assert |s[lt + 1..]| == |t[lt + 1..]| + 1;
      }
    }
  }

  lemma {:induction false} WalkConcat(p: Position, a: string, b: string)
    ensures Walk(p, a + b) == Walk(Walk(p, a), b)
  {
    if b == [] {
      assert a + b == a;
    } else {
      assert (a + b)[..|a + b| - 1] == a + b[..|b| - 1];
      WalkConcat(p, a, b[..|b| - 1]);
    }
  }

  /** Moving over `a` and then over `b` is moving over `a + b`: the position
      after several consumptions depends only on the text consumed in all. */
  lemma MoveConcat(p: Position, a: string, b: string)
    ensures p.Move(a).Move(b) == p.Move(a + b)
  {
    MoveIsWalk(p, a);
    MoveIsWalk(p.Move(a), b);
    MoveIsWalk(p, a + b);
    WalkConcat(p, a, b);
  }

  /** The line advances by exactly the number of newlines consumed; after a
      newline the column is one more than the characters after the last one. */
  lemma MoveLineColumn(p: Position, s: string)
    ensures p.Move(s).line == p.line + Count(s, '\n')
    ensures '\n' in s ==> p.Move(s).column == |s| - LastIndex(s, '\n')
    ensures '\n' !in s ==> p.Move(s).column == p.column + |s|
  {
  }

  /** A position with both coordinates at least 1 stays so. */
  lemma MoveKeepsOneBased(p: Position, s: string)
    requires p.line >= 1 && p.column >= 1
    ensures p.Move(s).line >= p.line >= 1 && p.Move(s).column >= 1
  {
  }
}
