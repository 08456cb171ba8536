# Regular-expression line scanner of the SpecFlow Visual Studio 2008 integration

This project models, in Dafny, the `RegularExpressionScanner` that colours
Gherkin feature files in the editor. The scanner works one line at a time.

- **Pattern table.** At construction it turns the keywords of the active
  Gherkin dialect into an ordered table of `(pattern, colour)` entries. The
  step wildcard `*` becomes the escaped pattern `\*`. Every other keyword
  is copied as it is. Every entry is coloured `Keyword`.
- **Matching.** `MatchRegEx` tries the table in order against the start of
  the unconsumed text. It skips an entry whose expression does not compile.
  It skips a zero-length match. The first entry with a non-empty match
  decides the token's length and colour, even when a later entry would
  match more. Without such an entry, one character of plain text is taken.
- **Scanner state.** The object keeps the unconsumed text
  (`sourceString`) and the position of its first character (`currentPos`).
  `SetSource` resets both. Each call of `ScanTokenAndProvideInfoAboutIt`
  answers `false` on an empty remainder. Otherwise it fills in the host's
  token record (colour, type `Text`, inclusive start and end), advances the
  position and cuts the consumed prefix.

Files and modules:

- `host_types.dfy` (`HostTypes`): the colour and token-type tags, 32-bit
  positions with C#'s unchecked wrap-around, and `Math.Max`.
- `regex_engine.dfy` (`RegexEngine`): the regular-expression engine as an
  opaque function from (expression, text) to *compile error*, *no match*
  or *match of length n*. The ghost predicate `WellFormedEngine` says a
  match never exceeds the text. `LiteralEngine` is one concrete engine: it
  handles literal text with backslash-escaped metacharacters, anchored by
  `^` or preceded by the quantified anchor `^*`.
- `pattern_table.dfy` (`PatternTable`): `String.Trim`, the table entry and
  the table construction.
- `line_scan.dfy` (`LineScan`): the value-level specification.
  `FirstMatch` is the reference definition of table matching. `NextToken`
  is one scan call on a value state. `Tokenize` is every token of one line.
  The lemmas prove first-match-wins, the bounds, progress, contiguity and
  exact coverage.
- `scanner.dfy` (`Scanner`): the class `RegularExpressionScanner` with the
  two mutable fields, and the host's `TokenInfo` record that the scanner
  fills in place. `MatchRegEx` is a loop proved against `FirstMatch`. The
  scan method is proved against `NextToken`.
- `scenarios.dfy` (`Scenarios`): worked cases that use `LiteralEngine`, plus
  a client that scans the line `xyz` through the class.

## Model

| member | source | states |
|---|---|---|
| `PatternTable.BuildTable` | IdeIntegration/Vs2008Integration/RegExScanner.cs:20-25 | The table has one entry per keyword, in the same order. Every entry is coloured `Keyword`. A keyword that trims to `*` gets the pattern `\*`. Every other keyword is its own pattern. |
| `PatternTable.BuildTableAppend` | IdeIntegration/Vs2008Integration/RegExScanner.cs:20-25 | Building is element-wise. The table of two concatenated keyword lists is the concatenation of their tables, so order is kept. |
| `PatternTable.LeadingWhiteSpace` | IdeIntegration/Vs2008Integration/RegExScanner.cs:23 | Gives the length of the longest prefix made only of white space, as `String.Trim` removes it. |
| `PatternTable.TrailingWhiteSpace` | IdeIntegration/Vs2008Integration/RegExScanner.cs:23 | Gives the length of the longest suffix made only of white space. |
| `PatternTable.Trim` | IdeIntegration/Vs2008Integration/RegExScanner.cs:23 | The definition of `String.Trim`: the keyword without its leading and trailing white space. It carries no contract of its own; `TrimSlice` and `TrimEnds` state what it computes. |
| `PatternTable.TrimSlice` | IdeIntegration/Vs2008Integration/RegExScanner.cs:23 | `Trim` removes only white space: the result is the slice of the keyword after its white-space prefix, and only white space follows it. |
| `PatternTable.TrimEnds` | IdeIntegration/Vs2008Integration/RegExScanner.cs:23 | `Trim` removes all the surrounding white space: a non-empty result neither starts nor ends with white space. |
| `PatternTable.TrimIsStar` | IdeIntegration/Vs2008Integration/RegExScanner.cs:23 | Proves both directions: `keyword.Trim() == "*"` holds exactly when the keyword is one `*` with only white space around it. |
| `PatternTable.StarEntryMatchesLiterally` | IdeIntegration/Vs2008Integration/RegExScanner.cs:23-24 | The entry built for a star keyword, anchored with `^`, matches exactly one literal `*` at the start of the text, and matches nothing else. |
| `PatternTable.UnescapedStarMatchesEmpty` | IdeIntegration/Vs2008Integration/RegExScanner.cs:23-24 | A fact about the literal stand-in, which here follows .NET: unescaped, the star keyword gives the expression `^*`, a quantified anchor. It compiles and matches only the empty prefix, so it never matches a literal `*`, and line 66 rejects the empty match. |
| `RegexEngine.LiteralEngineWellFormed` | IdeIntegration/Vs2008Integration/RegExScanner.cs:65 | The literal stand-in engine only reports matches that fit in the text, as a real match does. |
| `RegexEngine.LiteralEngineOnPlainText` | IdeIntegration/Vs2008Integration/RegExScanner.cs:51 | When a keyword has no metacharacters, the anchored expression `"^" + keyword` is plain prefix matching. |
| `LineScan.Accepts` | IdeIntegration/Vs2008Integration/RegExScanner.cs:51-66 | The test `m.Success && m.Length != 0` on the anchored expression. An expression that does not compile, one without a match and one with an empty match are refused. A non-empty match is accepted. |
| `LineScan.AcceptedLength` | IdeIntegration/Vs2008Integration/RegExScanner.cs:66-68 | The length `m.Length` taken from an accepted match is at least 1. |
| `LineScan.FirstMatch` | IdeIntegration/Vs2008Integration/RegExScanner.cs:41-77 | The reference definition of the `foreach` over the table: entries are tried in order and the first accepting one decides. Its own contract says that at least one character is matched; `FirstMatchWinner` and `FirstMatchSource` describe the result in full. |
| `LineScan.FirstMatchWinner` | IdeIntegration/Vs2008Integration/RegExScanner.cs:43-71 | The earliest entry that compiles and matches a non-empty prefix fixes the matched length and the colour, whatever later entries match. |
| `LineScan.FirstMatchFallback` | IdeIntegration/Vs2008Integration/RegExScanner.cs:74-76 | When no entry yields a non-empty match, the result is one character coloured `Text`. |
| `LineScan.FirstMatchSource` | IdeIntegration/Vs2008Integration/RegExScanner.cs:41-77 | The converse. Every result either comes from the earliest accepting entry, or is the fallback, and then no entry accepts. |
| `LineScan.FirstMatchSkipsRejected` | IdeIntegration/Vs2008Integration/RegExScanner.cs:48-66 | Entries in front that do not accept change nothing. This covers entries that do not compile, entries with a zero-length match and entries with no match. |
| `LineScan.FirstMatchIgnoresLater` | IdeIntegration/Vs2008Integration/RegExScanner.cs:66-71 | Once an entry accepts, entries appended after it are never consulted. |
| `LineScan.FirstMatchBounds` | IdeIntegration/Vs2008Integration/RegExScanner.cs:66-76 | At least one character is always matched. On non-empty text at most the text's length is matched, so the `Substring` stays in bounds. |
| `LineScan.NextToken` | IdeIntegration/Vs2008Integration/RegExScanner.cs:86-116 | The call reports no token exactly on an empty remainder. Otherwise the token starts at `currentPos` and ends no earlier. Its type is `Text` and its length and colour are those of the first match. The remainder becomes the suffix after the matched characters. Without overflow, the end is `currentPos + n - 1` and the position advances by `n`. |
| `LineScan.Tokenize` | IdeIntegration/Vs2008Integration/RegExScanner.cs:89-115 | Scanning until `false` gives at most one token per character of the line. It gives none exactly when the line is empty. |
| `LineScan.TokenizeContiguous` | IdeIntegration/Vs2008Integration/RegExScanner.cs:105-110 | Each token starts right after the previous token's end. |
| `LineScan.TokenizeEnds` | IdeIntegration/Vs2008Integration/RegExScanner.cs:105-113 | The first token starts at the offset given to `SetSource`. The last token ends at `offset + length - 1`, where `length` is the line length. |
| `LineScan.TokenizeOrdered` | IdeIntegration/Vs2008Integration/RegExScanner.cs:105-106 | Every token spans at least one position. Tokens are strictly increasing, so none overlap. |
| `LineScan.TokenizeWithin` | IdeIntegration/Vs2008Integration/RegExScanner.cs:105-113 | Every token lies within `[offset, offset + length - 1]`. |
| `LineScan.TokenizeReaches` | IdeIntegration/Vs2008Integration/RegExScanner.cs:105-113 | Every position in `[offset, offset + length - 1]` lies in some token. |
| `LineScan.TokenizeCovers` | IdeIntegration/Vs2008Integration/RegExScanner.cs:105-113 | Proves both directions: a position lies in some token's range exactly when it lies in `[offset, offset + length - 1]`. |
| `LineScan.TokenizeFallback` | IdeIntegration/Vs2008Integration/RegExScanner.cs:74-76 | When no entry accepts at any position, the line becomes one plain-text token per character, at consecutive positions. |
| `HostTypes.Wrap32` | IdeIntegration/Vs2008Integration/RegExScanner.cs:110 | `currentPos += charsMatched` is unchecked 32-bit addition. The result agrees with the true sum modulo 2^32, and equals it when the sum fits. |
| `HostTypes.Max` | IdeIntegration/Vs2008Integration/RegExScanner.cs:106 | `Math.Max` returns one of its arguments, and that argument is at least the other one. |
| `Scanner.RegularExpressionScanner.constructor` | IdeIntegration/Vs2008Integration/RegExScanner.cs:16-26 | The pattern table is the table built from the given keywords. No source is set yet. |
| `Scanner.RegularExpressionScanner.MatchRegEx` | IdeIntegration/Vs2008Integration/RegExScanner.cs:41-77 | The `foreach` loop, with its `continue` on a bad pattern and its early return, computes exactly `FirstMatch`. The result is at least 1, and at most the source length on non-empty source. |
| `Scanner.RegularExpressionScanner.ScanTokenAndProvideInfoAboutIt` | IdeIntegration/Vs2008Integration/RegExScanner.cs:86-116 | The result is `true` exactly when the remainder was non-empty. On `false`, the state and the token record are unchanged. On `true`, the new state and the filled-in record are those of `NextToken`. The state advances even when no record is given. |
| `Scanner.RegularExpressionScanner.SetSource` | IdeIntegration/Vs2008Integration/RegExScanner.cs:124-128 | Sets the remainder to the line and the position to the offset, without checking the offset. |
| `Scenarios.PlainKeywordEntry` | IdeIntegration/Vs2008Integration/RegExScanner.cs:20-25 | A keyword without metacharacters becomes the entry `(keyword, Keyword)`. |
| `Scenarios.PlainKeywordTable` | IdeIntegration/Vs2008Integration/RegExScanner.cs:20-25 | A list of such keywords becomes a table of the keywords themselves, each coloured `Keyword`. |
| `Scenarios.FirstEntryWins` | IdeIntegration/Vs2008Integration/RegExScanner.cs:43-71 | With the table `ab`, `a` and the input `abc`, the match is `ab`: length 2, `Keyword`. |
| `Scenarios.FirstEntryWinsOverLonger` | IdeIntegration/Vs2008Integration/RegExScanner.cs:66-71 | With the table `a`, `ab` and the input `abc`, the match is `a`: length 1. The longer later match is not taken. |
| `Scenarios.BadPatternIsSkipped` | IdeIntegration/Vs2008Integration/RegExScanner.cs:48-61 | An uncompilable entry `(` followed by `Given ` still colours `Given x` as a keyword of length 6. |
| `Scenarios.StarKeywordIsLiteral` | IdeIntegration/Vs2008Integration/RegExScanner.cs:20-25 | With the keywords `*`, `Given ` and the input `* I do something`, the match is one literal `*` coloured `Keyword`. |
| `Scenarios.UnescapedStarKeywordMisfires` | IdeIntegration/Vs2008Integration/RegExScanner.cs:23-24 | Without the escape, the keyword `* ` gives `^* `, which matches a space anywhere in the text. Its length 1 is taken as a `Keyword` match although the text does not start with `*`. |
| `Scenarios.EscapedStarKeywordWaits` | IdeIntegration/Vs2008Integration/RegExScanner.cs:23-24 | With the escape, the entry built for `* ` accepts nothing on a text that does not start with `*`, so the fallback applies. |
| `Scenarios.GivenWhenThenTable` | IdeIntegration/Vs2008Integration/RegExScanner.cs:20-25 | The keywords Given, When, Then become three keyword entries holding those words. |
| `Scenarios.NoStepKeywordStarts` | IdeIntegration/Vs2008Integration/RegExScanner.cs:74-76 | Text that starts with none of G, W, T falls back to one plain-text character. |
| `Scenarios.PlainCharacterStep` | IdeIntegration/Vs2008Integration/RegExScanner.cs:103-113 | On such text, one scan call emits the token `[pos, pos]` coloured `Text` and moves to `pos + 1`. |
| `Scenarios.FallbackTokens` | IdeIntegration/Vs2008Integration/RegExScanner.cs:74-76 | A line such as `xyz` becomes one plain-text token per character at consecutive positions. The client `ScanXyzLine` then checks that the fourth call answers `false`. |

## Left out

- The .NET regular-expression engine and its syntax: the model keeps it as an opaque function (`Engine`). Regex syntax is foreign code. `LiteralEngine` is only a stand-in for the worked cases. It reports every expression outside literal text, `^` and `^*` (for example `a*`) as not compilable, although .NET would accept it.
- Dialect loading (`GherkinDialectServices`, `GetDefaultDialect`, `GetKeywords`, `CultureInfo`, lines 16-19): the model takes the keyword list as a constructor parameter. These calls belong to an external library.
- The host types `IScanner`, `TokenInfo`, `TokenColor`, `TokenType`: they are replaced by a two-colour datatype, a token-type datatype and a `TokenInfo` class with only the four fields the scanner writes.
- The unused `ref int state` parameter of `ScanTokenAndProvideInfoAboutIt`: it is dropped because nothing reads or writes it.
- Scanning before `SetSource`, when `sourceString` is null: this is a `requires hasSource` on the scan method, not modelled behaviour, because it is a programming error in the host.
- Re-compiling every pattern on every attempt: this is a cost, not behaviour, so it is not modelled.
- UTF-16: Dafny characters are Unicode scalar values, so a line's length counts scalar values where .NET counts UTF-16 code units.
- `PatternTable.Trim`: uses the white-space set of `Char.IsWhiteSpace` in current .NET. The .NET Framework 3.5 `Trim` also removed U+200B and U+FEFF, and did not remove U+202F and U+205F. The model does not follow that older list, because the scanner's code does not fix which .NET runtime hosts it.
- The `patternTable` field is a read-only array that is never written after construction. The model keeps it as an immutable sequence.
- LineScan.TokenizeContiguous: requires that `offset` plus the line length is at most 2^31 (`NoOverflow`). Past that the C# position wraps around and the property fails; `NextToken` and the class model the wrap-around itself.
- LineScan.TokenizeEnds: requires that `offset` plus the line length is at most 2^31 (`NoOverflow`). Past that the C# position wraps around and the property fails; `NextToken` and the class model the wrap-around itself.
- LineScan.TokenizeOrdered: requires that `offset` plus the line length is at most 2^31 (`NoOverflow`). Past that the C# position wraps around and the property fails; `NextToken` and the class model the wrap-around itself.
- LineScan.TokenizeWithin: requires that `offset` plus the line length is at most 2^31 (`NoOverflow`). Past that the C# position wraps around and the property fails; `NextToken` and the class model the wrap-around itself.
- LineScan.TokenizeReaches: requires that `offset` plus the line length is at most 2^31 (`NoOverflow`). Past that the C# position wraps around and the property fails; `NextToken` and the class model the wrap-around itself.
- LineScan.TokenizeCovers: requires that `offset` plus the line length is at most 2^31 (`NoOverflow`). Past that the C# position wraps around and the property fails; `NextToken` and the class model the wrap-around itself.
