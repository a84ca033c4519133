/** A regex-driven lexer (scanner.go): a Scanner holds an ordered list of token
    definitions; a Session walks one input, skipping blanks and returning the
    token of the first definition whose anchored pattern matches. */
module Toki {
  import opened Positions

  datatype Option<+T> = None | Some(value: T)

  /** Token identifiers are unsigned 32-bit integers. */
  newtype Token = x: int | 0 <= x < 0x1_0000_0000

  /** The two reserved tokens take the top of the range: 1<<32 - 1 - iota. */
  const EOF: Token := (0x1_0000_0000 - 1 - 0) as Token
  const Error: Token := (0x1_0000_0000 - 1 - 1) as Token

  /** A compiled pattern anchored at the start of its subject: given the
      remaining input it reports the length of the match, which is a prefix. */
  type Matcher = m: string -> Option<nat> | forall s :: m(s).Some? ==> m(s).value <= |s|
    witness (s: string) => None

  /** Length of the longest prefix of `s` whose characters all belong to a class. */
  function Span(s: string, inClass: char -> bool): (n: nat)
    ensures n <= |s|
    ensures forall i :: 0 <= i < n ==> inClass(s[i])
    ensures n < |s| ==> !inClass(s[n])
  {
    if s != [] && inClass(s[0]) then 1 + Span(s[1..], inClass) else 0
  }

  predicate IsBlank(c: char) { c == ' ' || c == '\t' }

  /** The fixed whitespace rule `^[\t ]+`: the maximal non-empty run of blanks. */
  function RegexSpace(s: string): (r: Option<nat>)
    ensures r.Some? ==> 0 < r.value <= |s|
    ensures r.None? <==> s == [] || !IsBlank(s[0])
  {
    var n := Span(s, IsBlank);
    if n == 0 then None else Some(n)
  }

  /** A token definition; `regexp` is empty until the scanner compiles `pattern`. */
  datatype Def = Def(token: Token, pattern: string, regexp: Option<Matcher>)

  predicate Compiled(rules: seq<Def>)
  {
    forall i :: 0 <= i < |rules| ==> rules[i].regexp.Some?
  }

  /** No definition uses a reserved token. */
  predicate NoReservedTokens(rules: seq<Def>)
  {
    forall i :: 0 <= i < |rules| ==> rules[i].token != EOF && rules[i].token != Error
  }

  /** Outcome of one scan step: the token, the matched text and where it starts. */
  datatype Result = Result(token: Token, value: string, pos: Position)

  /** The library's prefix trimming: drops `prefix` from `s` when `s` starts with it. */
  function TrimPrefix(s: string, prefix: string): (r: string)
    ensures prefix <= s ==> s == prefix + r
    ensures !(prefix <= s) ==> r == s
  {
    if prefix <= s then s[|prefix|..] else s
  }

  /** The state a session moves through: the remaining input and the position. */
  datatype Cursor = Cursor(input: string, pos: Position)

  /** The first definition, from index `k` on, whose matcher matches `s`: its
      index and the match length. */
  function FirstMatch(rules: seq<Def>, s: string, k: nat): (r: Option<(nat, nat)>)
    requires Compiled(rules) && k <= |rules|
    ensures r.Some? ==> k <= r.value.0 < |rules|
                        && rules[r.value.0].regexp.value(s) == Some(r.value.1)
                        && r.value.1 <= |s|
    ensures r.Some? ==> forall j :: k <= j < r.value.0 ==> rules[j].regexp.value(s).None?
    ensures r.None? <==> forall j :: k <= j < |rules| ==> rules[j].regexp.value(s).None?
    decreases |rules| - k
  {
    if k == |rules| then None
    else match rules[k].regexp.value(s)
      case Some(n) => Some((k, n))
      case None => FirstMatch(rules, s, k + 1)
  }

  /** The cursor after the whitespace skip that starts every scan step. */
  function AfterSkip(c: Cursor): Cursor
  {
    match RegexSpace(c.input)
    case None => c
    case Some(n) =>
      var blank := c.input[..n];
      Cursor(TrimPrefix(c.input, blank), c.pos.Move(blank))
  }

  /** The result of a scan step taken from a cursor whose blanks are already skipped. */
  function ScanAt(rules: seq<Def>, c: Cursor): Result
    requires Compiled(rules)
  {
    if |c.input| == 0 then Result(EOF, [], c.pos)
    else match FirstMatch(rules, c.input, 0)
      case None => Result(Error, [], c.pos)
      case Some((k, n)) => Result(rules[k].token, c.input[..n], c.pos)
  }

  /** The result Peek and Next return from the cursor `c`. */
  function StepResult(rules: seq<Def>, c: Cursor): Result
    requires Compiled(rules)
  {
    ScanAt(rules, AfterSkip(c))
  }

  /** The cursor after Next from the cursor `c`. */
  function AfterNext(rules: seq<Def>, c: Cursor): Cursor
    requires Compiled(rules)
  {
    var s := AfterSkip(c);
    var r := ScanAt(rules, s);
    if r.token == Error || r.token == EOF then s
    else Cursor(TrimPrefix(s.input, r.value), s.pos.Move(r.value))
  }

  /** The registry of definitions. Go's `Scanner` never changes after construction. */
  class Scanner {
    const space: Matcher := RegexSpace
    const def: array<Def>

    ghost predicate Valid()
      reads this, def
    {
      Compiled(def[..])
    }

    constructor (def: array<Def>)
      ensures this.def == def
    {
      this.def := def;
    }

    /** Opens a session over `input` at line 1, column 1. */
    method Scan(input: string) returns (s: Session)
      ensures fresh(s)
      ensures s.scanner == this && s.State() == Cursor(input, Position(1, 1))
    {
      s := new Session(this, input);
    }
  }

  /** Compiles every definition in place, anchoring its pattern with "^", and
      wraps the definitions into a scanner. `compile` is the regular-expression
      engine; its `Matcher` result type carries the anchoring guarantee. */
  method NewScanner(def: array<Def>, compile: string -> Matcher) returns (s: Scanner)
    modifies def
    ensures fresh(s) && s.def == def && s.Valid()
    ensures forall i :: 0 <= i < def.Length ==>
              def[i] == old(def[i]).(regexp := Some(compile("^" + old(def[i]).pattern)))
  {
    for i := 0 to def.Length
      invariant forall j :: 0 <= j < i ==>
                  def[j] == old(def[j]).(regexp := Some(compile("^" + old(def[j]).pattern)))
      invariant forall j :: i <= j < def.Length ==> def[j] == old(def[j])
    {
      def[i] := def[i].(regexp := Some(compile("^" + def[i].pattern)));
    }
    s := new Scanner(def);
  }

  /** One pass over one input: the remaining input and the current position. */
  class Session {
    const scanner: Scanner
    var pos: Position
    var input: string

    constructor (scanner: Scanner, input: string)
      ensures this.scanner == scanner && pos == Position(1, 1) && this.input == input
    {
      this.scanner := scanner;
      this.pos := Position(1, 1);
      this.input := input;
    }

    ghost function State(): Cursor
      reads this
    {
      Cursor(input, pos)
    }

    ghost function Rules(): seq<Def>
      reads this, scanner, scanner.def
    {
      scanner.def[..]
    }

    ghost predicate Valid()
      reads this, scanner, scanner.def
    {
      scanner.Valid() && pos.line >= 1 && pos.column >= 1
    }

    /** Drops one leading run of blanks and moves the position over it. */
    method Skip()
      requires Valid()
      modifies this
      ensures Valid()
      ensures State() == AfterSkip(old(State()))
    {
      var result := scanner.space(input);
      if result.None? {
        return;
      }
      var blank := input[..result.value];
      MoveKeepsOneBased(pos, blank);
      pos := pos.Move(blank);
      input := TrimPrefix(input, blank);
    }

    /** Skips blanks, then reports EOF, the first matching definition's token, or Error. */
    method Scan() returns (r: Result)
      requires Valid()
      modifies this
      ensures Valid()
      ensures State() == AfterSkip(old(State()))
      ensures r == ScanAt(Rules(), State())
    {
      Skip();
      if |input| == 0 {
        return Result(EOF, [], pos);
      }
      var defs := scanner.def;
      ghost var rules := defs[..];
      for i := 0 to defs.Length
        invariant FirstMatch(rules, input, i) == FirstMatch(rules, input, 0)
      {
        var result := defs[i].regexp.value(input);
        if result.Some? {
          assert FirstMatch(rules, input, i) == Some((i, result.value));
          return Result(defs[i].token, input[..result.value], pos);
        }
      }
      assert FirstMatch(rules, input, defs.Length) == None;
      r := Result(Error, [], pos);
    }

    /** Looks at the next token. Not free of effects: the blank skip is kept. */
    method Peek() returns (r: Result)
      requires Valid()
      modifies this
      ensures Valid()
      ensures State() == AfterSkip(old(State()))
      ensures r == StepResult(Rules(), old(State()))
    {
      r := Scan();
    }

    /** Scans and, unless the token is EOF or Error, consumes its text. */
    method Next() returns (r: Result)
      requires Valid()
      modifies this
      ensures Valid()
      ensures r == StepResult(Rules(), old(State()))
      ensures State() == AfterNext(Rules(), old(State()))
    {
      r := Scan();
      if r.token == Error || r.token == EOF {
        return;
      }
      input := TrimPrefix(input, r.value);
      MoveKeepsOneBased(pos, r.value);
      pos := pos.Move(r.value);
    }
  }
}
