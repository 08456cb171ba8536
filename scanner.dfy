/**
 * The line scanner object: built once from the dialect's keywords, then fed
 * one line at a time with `SetSource` and asked for tokens with
 * `ScanTokenAndProvideInfoAboutIt` until it answers `false`.
 */
module Scanner {
  import opened HostTypes
  import opened RegexEngine
  import opened PatternTable
  import opened LineScan

  /** The host's token record, which the scanner fills in place. */
  class TokenInfo {
    var color: TokenColor
    var tokenType: TokenType
    var startIndex: int32
    var endIndex: int32

    constructor ()
      ensures color == TokenColor.Text && tokenType == Unknown && startIndex == 0 && endIndex == 0
    {
      color, tokenType, startIndex, endIndex := TokenColor.Text, Unknown, 0, 0;
    }

    /** The record's contents as a token value. */
    function AsToken(): (t: Token)
      reads this
    {
      Token(color, tokenType, startIndex, endIndex)
    }
  }

  class RegularExpressionScanner {
    /** The regular-expression engine the table is matched with. */
    const engine: Engine
    /** Built by the constructor and never changed afterwards. */
    const patternTable: seq<TableEntry>

    var sourceString: string
    var currentPos: int32
    /** Whether `SetSource` has been called; before that the source string is null. */
    ghost var hasSource: bool

    /** The engine never reports a match longer than the text it ran on. */
    ghost predicate Valid()
    {
      WellFormedEngine(engine)
    }

    /** The per-line state as a value. */
    function State(): (st: ScanState)
      reads this
    {
      ScanState(sourceString, currentPos)
    }

    /** The keywords of the dialect become the pattern table, in order. */
    constructor (keywords: seq<string>, engine: Engine)
      requires WellFormedEngine(engine)
      ensures Valid() && this.engine == engine
      ensures patternTable == BuildTable(keywords)
      ensures !hasSource
    {
      this.engine := engine;
      patternTable := BuildTable(keywords);
      sourceString, currentPos := "", 0;
      hasSource := false;
    }

    /**
     * Tries the table in order against the start of `source`: an entry whose
     * expression does not compile is skipped, an empty match is skipped, and
     * the first non-empty match decides; without one, one character of plain
     * text.
     */
    method MatchRegEx(source: string) returns (charsMatched: nat, color: TokenColor)
      requires Valid()
      ensures MatchResult(charsMatched, color) == FirstMatch(engine, patternTable, source)
      ensures 1 <= charsMatched
      ensures source != [] ==> charsMatched <= |source|
    {
      FirstMatchBounds(engine, patternTable, source);
      for i := 0 to |patternTable|
        invariant FirstMatch(engine, patternTable[i..], source) == FirstMatch(engine, patternTable, source)
      {
        var tableEntry := patternTable[i];
        assert patternTable[i..][1..] == patternTable[i + 1..];
        var outcome := engine("^" + tableEntry.pattern, source);
        if outcome.CompileError? {
          continue;
        }
        if outcome.Matched? && outcome.length != 0 {
          charsMatched := outcome.length;
          color := tableEntry.color;
          return;
        }
      }
      charsMatched := 1;
      color := TokenColor.Text;
    }

    /**
     * Emits the next token of the line. On an empty remainder nothing changes
     * and the answer is `false`; otherwise the token is written into
     * `tokenInfo` when there is one, and in any case the position advances by
     * the matched length and the matched prefix is cut off.
     */
    method ScanTokenAndProvideInfoAboutIt(tokenInfo: TokenInfo?) returns (more: bool)
      requires Valid() && hasSource
      modifies this, tokenInfo
      ensures hasSource
      ensures more <==> old(sourceString) != []
      ensures !more ==> State() == old(State()) && (tokenInfo != null ==> unchanged(tokenInfo))
      ensures more ==> NextToken(engine, patternTable, old(State())).Emitted?
      ensures more ==> State() == NextToken(engine, patternTable, old(State())).next
      ensures more && tokenInfo != null ==> tokenInfo.AsToken() == NextToken(engine, patternTable, old(State())).token
    {
      if |sourceString| == 0 {
        return false;
      }
      var charsMatched, color := MatchRegEx(sourceString);
      if tokenInfo != null {
        tokenInfo.color := color;
        tokenInfo.tokenType := TokenType.Text;
        tokenInfo.startIndex := currentPos;
        tokenInfo.endIndex := Max(currentPos, Wrap32(currentPos as int + charsMatched - 1));
      }
      currentPos := Wrap32(currentPos as int + charsMatched);
      sourceString := sourceString[charsMatched..];
      return true;
    }

    /** Starts a new line: any offset is accepted, it only shifts the reported positions. */
    method SetSource(source: string, offset: int32)
      modifies this
      ensures sourceString == source && currentPos == offset
      ensures hasSource
    {
      sourceString := source;
      currentPos := offset;
      hasSource := true;
    }
  }
}
