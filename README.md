# toki scanner model

A Dafny model of the lexical scanner in `scanner.go` of the Go package
`toki`. A `Scanner` holds an ordered list of token definitions, each a token
identifier and a regular expression. `NewScanner` compiles every pattern
with `^` prepended, which anchors it at the head of the input unless the
pattern has a top-level alternation (see "Left out"). `Scanner.Scan` opens
a `Session` over one input at line 1, column 1. Each call of `Peek` or `Next` does the following:

- drops one leading run of blanks (`^[\t ]+`);
- reports `EOF` when nothing is left;
- otherwise reports the token of the first definition whose pattern matches
  at the head of the input, with the matched text and the position where it
  starts;
- reports `Error` when no definition matches.

`Next` also consumes the matched text and moves the line/column position over
it.

Modules:

- `Positions` (`positions.dfy`): `Position` and its `Move`, the line/column
  update over consumed text. It is proved equal to a character-by-character
  reference walk, and to compose over concatenation.
- `Toki` (`scanner.dfy`): the token type with the reserved `EOF` and `Error`,
  definitions, results, the `Scanner` and `Session` classes, and
  `NewScanner`. The session methods update `input` and `pos` in place. Each
  is proved against pure step functions over a `Cursor` (the remaining input
  and the position):
  - `AfterSkip`: the cursor after the blank skip;
  - `ScanAt` and `StepResult`: the result of one step;
  - `AfterNext`: the cursor after `Next`.
- `TokiProperties` (`scanner_properties.dfy`): what these steps promise.
  - The skip removes exactly a leading run of blanks and is idempotent.
  - `EOF` and `Error` occur exactly in their cases.
  - The first matching definition wins.
  - `Next` consumes exactly the token's text, and `EOF`/`Error` are stable.
  - `Peek` can be repeated.
  - The position after any number of calls is the start position moved over
    everything consumed.
- `TokiTest` (`scanner_test.dfy`): the scenario of `scanner_test.go`, proved
  for every call of `Next`. The definitions are NUMBER `[0-9]+`, PLUS `\+`
  and STRING `[a-z]+`, over `"1  + 2+3 + happy birthday  "`. The nine calls
  of `Next` return NUMBER, PLUS, NUMBER, PLUS, NUMBER, PLUS, STRING, STRING
  and EOF, with their text and positions.
  `TestScanner` follows the test itself. It builds the scanner with
  `NewScanner` and a compiler for the three anchored patterns, opens a
  session with `Scan`, and calls `Next` once per expected token, stopping at
  the first mismatch. It is proved to pass.

Text is a sequence of Unicode code points, so the library's rune count of a
piece of text is its length. The regular-expression engine is a parameter:
a `Matcher` maps the remaining input to the length of its anchored match, if
any. The subset type guarantees that this length is at most the input's
length. The whitespace rule is concrete. The test's three patterns get
concrete matchers in `TokiTest`.

One point where the code differs from what the library's names suggest:

- The name `Peek` suggests a look without effect. In `scanner.go:102-104`
  it runs the same scan step as `Next`, and that step keeps the blank skip.
- The model follows the code: `Toki.Session.Peek` ensures the new state is
  `AfterSkip` of the old one.
- `TokiProperties.PeekIsRepeatable` shows why this is harmless: repeated
  `Peek`s, and a `Next` after a `Peek`, see the same result and reach the
  same cursor.

## Model

| member | source | states |
|---|---|---|
| Positions.Count | scanner.go:25 | the number of newlines is at most the text's length, and zero exactly when there is none |
| Positions.LastIndex | scanner.go:26 | the index of the last newline, or -1 exactly when there is none; no newline follows it |
| Positions.Position.Move | scanner.go:24-31 | the line never decreases; with a newline the line grows and the column is at least 1; without one only the column moves, by the number of characters |
| Positions.MoveIsWalk | scanner.go:24-31 | moving over a text in one go equals walking it one character at a time (a newline goes to the next line, column 1; any other character advances the column) |
| Positions.WalkConcat | scanner.go:24-31 | walking a concatenation is walking its two parts in turn |
| Positions.MoveConcat | scanner.go:24-31 | moving over `a`, then over `b`, is moving over `a + b`: the position depends only on the text consumed in all |
| Positions.MoveLineColumn | scanner.go:24-31 | the line grows by the number of newlines; after a newline the column is one more than the characters after the last one; otherwise it grows by the length |
| Positions.MoveKeepsOneBased | scanner.go:24-31 | a position with line and column at least 1 keeps them so, and its line does not decrease |
| Toki.Span | scanner.go:10 | the length of the longest prefix in a class: all its characters are in the class and the next one is not |
| Toki.RegexSpace | scanner.go:10 | `^[\t ]+` matches exactly when the input starts with a blank, and then a non-empty prefix |
| Toki.TrimPrefix | scanner.go:84 | when the input starts with the prefix the result is the rest after it, otherwise the input unchanged |
| Toki.FirstMatch | scanner.go:92-98 | the first definition from index `k` whose matcher matches, with its match length; every earlier one fails; none exactly when all fail |
| Toki.Scanner.constructor | scanner.go:58-61 | the scanner keeps the caller's definitions array itself, not a copy |
| Toki.NewScanner | scanner.go:54-62 | every definition gets the compiled `"^" + pattern`, and its token and pattern are kept; the returned scanner holds that same array and is fully compiled |
| Toki.Scanner.Scan | scanner.go:64-70 | a new session over the input, at line 1 column 1, bound to this scanner |
| Toki.Session.constructor | scanner.go:65-69 | the session's scanner, input and the position line 1, column 1 |
| Toki.Session.Skip | scanner.go:78-85 | the new remaining input and position are `AfterSkip` of the old ones, and the position stays 1-based |
| Toki.Session.Scan | scanner.go:87-100 | the state is skipped; the result is EOF with no text at the end, the first matching definition's token, its matched prefix and the current position, or Error with no text |
| Toki.Session.Peek | scanner.go:102-104 | returns the step's result and keeps the blank skip (the code's behaviour, not a state-free look) |
| Toki.Session.Next | scanner.go:106-114 | returns the step's result; the new state is `AfterNext`: the skip, then, unless the token is EOF or Error, the token's text removed and the position moved over it |
| TokiProperties.Run | scanner_test.go:34-41 | `n` calls of Next give `n` results |
| TokiProperties.SkipRemovesBlanks | scanner.go:78-85 | the skip removes a prefix made only of blanks, moves the position over exactly it, and leaves input that does not start with a blank |
| TokiProperties.SkipIdempotent | scanner.go:78-85 | skipping twice is skipping once |
| TokiProperties.SkipOverBlanks | scanner.go:78-85 | before text that does not start with a blank, the skip removes a whole run of blanks of any length, and moves over it |
| TokiProperties.SkipNothing | scanner.go:79-82 | input that does not start with a blank is left as it is |
| TokiProperties.EofExactlyAtEnd | scanner.go:88-91 | EOF exactly when only blanks remained; it has no text and is reported where the skip ended |
| TokiProperties.ErrorExactlyWhenNoRuleMatches | scanner.go:92-99 | Error exactly when input remains after the skip and every definition fails; it has no text and is reported where the skip ended |
| TokiProperties.ScanAtFirstMatch | scanner.go:92-98 | when definition `k` is the first that matches non-empty input, the scan returns its token, the matched prefix and the current position |
| TokiProperties.FirstMatchWins | scanner.go:87-98 | the same for a whole step: the definitions are tried on the input left after the skip, and the token is placed where the skip ended |
| TokiProperties.UserTokenFromFirstMatch | scanner.go:92-97 | every token other than EOF and Error comes from a matching definition with no earlier one matching, and its text is a prefix of the skipped input |
| TokiProperties.ScanIgnoresPosition | scanner.go:87-100 | the token and text of a scan depend only on the input; the result carries the current position |
| TokiProperties.BlanksAreTransparent | scanner.go:78-100 | blanks before a token change only its reported position, not the token or its text |
| TokiProperties.NextConsumesToken | scanner.go:106-114 | on a user token, Next removes exactly its text from the skipped input and moves the position over that text |
| TokiProperties.NextStopsAtTerminal | scanner.go:107-110 | on EOF or Error, Next consumes nothing beyond the skip |
| TokiProperties.TerminalIsStable | scanner.go:106-110 | after EOF or Error, the next Next returns the same result and leaves the cursor where it is |
| TokiProperties.TerminalForever | scanner.go:106-110 | once EOF or Error is returned, every later call of Next returns it again |
| TokiProperties.PeekIsRepeatable | scanner.go:102-107 | a Peek after a Peek returns the same result and cursor; a Next after a Peek returns that result and ends where a Next alone would |
| TokiProperties.AdvancedTransitive | scanner.go:24-31 | consuming two prefixes one after the other is consuming their concatenation, position included |
| TokiProperties.NextAdvances | scanner.go:106-114 | what remains after Next is a suffix of what was there, and the position has moved over exactly what was removed |
| TokiProperties.NextProgress | scanner.go:106-114 | Next never lengthens the input; a token with text shortens it; a token with empty text leaves the cursor where the skip left it |
| TokiProperties.IterateLast | scanner.go:106-114 | `n` calls of Next are `n - 1` calls followed by one more |
| TokiProperties.IterateFirst | scanner.go:106-114 | `n` calls of Next are one call followed by `n - 1` more |
| TokiProperties.RunAt | scanner.go:106-114 | the `i`-th of `n` results is the result of a step from the cursor after `i` earlier calls |
| TokiProperties.AdvancedReflexive | scanner.go:24-31 | consuming nothing leaves the input and the position as they are |
| TokiProperties.AdvancedFirstStep | scanner.go:106-114 | a first call of Next followed by calls that consume a prefix consume a prefix from the first cursor, position included |
| TokiProperties.IterateAdvances | scanner.go:106-114 | after any number of calls of Next the remaining input is a suffix of the first cursor's, and the position has moved over exactly what was removed |
| TokiProperties.PositionAfterRun | scanner.go:64-114 | after any number of calls of Next from the start of a text, the remaining input is a suffix of the text and the position is line 1, column 1 moved over all that was consumed |
| TokiProperties.SpanOfRun | scanner.go:10 | a leading run of the class adds its length to the span |
| TokiProperties.SentinelValues | scanner.go:14-17 | EOF is 2^32 - 1 and Error is 2^32 - 2, and they are distinct |
| TokiTest.Digits | scanner_test.go:18 | `^[0-9]+` matches exactly when the input starts with a digit, and then a non-empty prefix of digits |
| TokiTest.PlusSign | scanner_test.go:19 | `^\+` matches exactly when the input starts with `+`, and then one character |
| TokiTest.Lowers | scanner_test.go:20 | `^[a-z]+` matches exactly when the input starts with a lower-case letter, and then a non-empty prefix of them |
| TokiTest.DigitsRun | scanner_test.go:18 | the digits pattern matches exactly a maximal run of digits |
| TokiTest.LowersRun | scanner_test.go:20 | the lower-case pattern matches exactly a maximal run of lower-case letters |
| TokiTest.NumberMatch | scanner_test.go:18-20 | at a maximal run of digits NUMBER, the first definition, matches the whole run |
| TokiTest.PlusMatch | scanner_test.go:18-20 | at a `+` NUMBER fails and PLUS matches one character |
| TokiTest.StringMatch | scanner_test.go:18-20 | at a maximal run of lower-case letters NUMBER and PLUS fail and STRING matches the whole run |
| TokiTest.UserStep | scanner.go:106-114 | a call of Next whose skip reaches a cursor where definition `k` is the first to match returns its token and text there and moves past the text |
| TokiTest.TokenStep | scanner.go:106-114 | a call of Next on one line, over blanks and then a token, reports the token after the blanks and leaves the cursor after it, with the column advanced by what was consumed |
| TokiTest.EndStep | scanner.go:88-91 | over trailing blanks Next reports EOF at the column after them and leaves nothing |
| TokiTest.ScenarioRun | scanner_test.go:14-41 | the nine calls of Next over the test's input, under the test's definitions: the expected NUMBER, PLUS, NUMBER, PLUS, NUMBER, PLUS, STRING, STRING, EOF, each with its text and position |
| TokiTest.ScenarioResults | scanner_test.go:7-41 | the same for the test's own definitions and input as constants |
| TokiTest.CompileDigits | scanner_test.go:18 | the test's compiler turns `^[0-9]+` into the digits matcher |
| TokiTest.CompilePlus | scanner_test.go:19 | the test's compiler turns `^\+` into the plus matcher |
| TokiTest.CompileLowers | scanner_test.go:20 | the test's compiler turns `^[a-z]+` into the lower-case matcher |
| TokiTest.CompileScenario | scanner_test.go:16-21 | the test's compiler gives each anchored pattern of the test its matcher |
| TokiTest.DefsAfterCompile | scanner.go:54-57 | the three definitions, each with the compiled `"^" + pattern`, have the scenario's tokens and matchers in order |
| TokiTest.ArrayAfterCompile | scanner.go:54-57 | the same for the array NewScanner leaves |
| TokiTest.ScenarioArray | scanner_test.go:17-21 | the test's three definitions NUMBER, PLUS and STRING, in order and not yet compiled |
| TokiTest.ScenarioScanner | scanner_test.go:16-21 | NewScanner over the test's definitions gives a new, fully compiled scanner with the scenario's tokens and matchers |
| TokiTest.RunGivesExpected | scanner_test.go:34-41 | when the tokens of `n` results are the expected ones, each successive call of Next returns the next expected token |
| TokiTest.NineGiveExpected | scanner_test.go:23-41 | nine calls of Next with the scenario's results return the expected token list |
| TokiTest.TokensOfScenario | scanner_test.go:23-33 | the tokens of the scenario's nine results are the test's expected list |
| TokiTest.ScenarioTokens | scanner_test.go:14-41 | under the scenario's definitions, calls of Next over the test's input return NUMBER, PLUS, NUMBER, PLUS, NUMBER, PLUS, STRING, STRING, EOF |
| TokiTest.NextGives | scanner_test.go:35-36 | a call of Next returns the current expected token, and later calls give the rest |
| TokiTest.ExpectTokens | scanner_test.go:22-41 | the test's loop over a session passes when the calls of Next give the expected tokens |
| TokiTest.TestScanner | scanner_test.go:7-41 | the library's test passes: NewScanner, Scan, then one Next per expected token, each returning that token |

## Left out

- The regular-expression engine is not modelled. `NewScanner` takes the compiler as a parameter. A compiled pattern is any matcher whose match is a prefix of its subject. Only the blank rule and the three test patterns are concrete.
- A pattern with a top-level alternation is not anchored by the prepended `^`. Go reads `^a|b` as `(^a)|b`. Its `Find` may then report text that does not start at the head of the input. `Next` returns that text as the token's value (scanner.go:97). `bytes.TrimPrefix` then removes nothing (scanner.go:111), yet the position still moves over the text (scanner.go:112). Later calls see the same input again while the column drifts. The model's `Matcher` type admits only prefix matches, so this behaviour is left out.
- `regexp.MustCompile` panics on an invalid pattern. The model's compiler is total, so that panic is left out.
- Input is a sequence of code points. The byte slices of the Go code are not modelled, nor invalid UTF-8. Go's `utf8.RuneCount` counts each invalid byte as one rune; that case is left out.
- Line and column are unbounded integers. Go's `int` overflow on inputs of more than 2^63 lines or columns is left out.
- `Result.String` (scanner.go:45-47) formats a result for display. It is left out as presentation.
- Aliasing of results is left out. Go returns a `*Result` whose `Value` shares the session's input buffer, and the model returns `Result` values.
- Sharing of a `Scanner` between goroutines is left out: the model is sequential.
- The test's logging (`t.Logf`, `t.Log`) and its failure reporting are left out. The scenario is stated as the full sequence of results.
- TokiProperties.EofExactlyAtEnd: requires that no definition uses EOF as its token. The code does not forbid this, and then a user token equal to EOF also stops `Next` and is not consumed.
- TokiProperties.ErrorExactlyWhenNoRuleMatches: requires that no definition uses Error as its token, for the same reason.
