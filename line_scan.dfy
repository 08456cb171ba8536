/**
 * The scanner's behaviour on values: which table entry decides the next
 * token (first match wins), what one scan step emits and how it moves the
 * state, and what the whole sequence of tokens of one line looks like.
 * The class in module Scanner is proved against these definitions.
 */
module LineScan {
  import opened HostTypes
  import opened RegexEngine
  import opened PatternTable

  /** What matching the remaining text against the table decides. */
  datatype MatchResult = MatchResult(charsMatched: nat, color: TokenColor)

  /** A token as the host receives it: colour, type and inclusive start and end positions. */
  datatype Token = Token(color: TokenColor, tokenType: TokenType, startIndex: int32, endIndex: int32)

  /** The scanner's per-line state: the text not yet consumed and the position of its first character. */
  datatype ScanState = ScanState(sourceString: string, currentPos: int32)

  /** One scan call: either no more tokens (state untouched) or a token and the next state. */
  datatype ScanStep = NoMoreTokens | Emitted(token: Token, next: ScanState)

  /**
   * The entry's expression, anchored at the start, compiles and matches a
   * non-empty prefix of `source`: an expression that does not compile, one
   * that finds no match and one that finds an empty match are all refused.
   */
  predicate Accepts(engine: Engine, entry: TableEntry, source: string): (b: bool)
    ensures engine("^" + entry.pattern, source) == CompileError ==> !b
    ensures engine("^" + entry.pattern, source) == NoMatch ==> !b
    ensures engine("^" + entry.pattern, source) == Matched(0) ==> !b
    ensures engine("^" + entry.pattern, source).Matched? && engine("^" + entry.pattern, source).length >= 1 ==> b
  {
    var outcome := engine("^" + entry.pattern, source);
    outcome.Matched? && outcome.length != 0
  }

  /** The length of the match an accepting entry makes. */
  function AcceptedLength(engine: Engine, entry: TableEntry, source: string): (n: nat)
    requires Accepts(engine, entry, source)
    ensures 1 <= n
  {
    engine("^" + entry.pattern, source).length
  }

  /** One character of plain text: the result when no entry accepts. */
  const Fallback := MatchResult(1, TokenColor.Text)

  /**
   * The table tried in order: an entry whose expression does not compile is
   * passed over, a zero-length match is passed over, and the first entry that
   * matches a non-empty prefix decides length and colour.
   */
  function FirstMatch(engine: Engine, table: seq<TableEntry>, source: string): (r: MatchResult)
    ensures 1 <= r.charsMatched
  {
    if table == [] then Fallback
    else if Accepts(engine, table[0], source) then
      MatchResult(AcceptedLength(engine, table[0], source), table[0].color)
    else FirstMatch(engine, table[1..], source)
  }

  /** The earliest accepting entry decides, whatever the entries after it would match. */
  lemma {:induction false} FirstMatchWinner(engine: Engine, table: seq<TableEntry>, source: string, k: nat)
    requires k < |table| && Accepts(engine, table[k], source)
    requires forall j :: 0 <= j < k ==> !Accepts(engine, table[j], source)
    ensures FirstMatch(engine, table, source) == MatchResult(AcceptedLength(engine, table[k], source), table[k].color)
  {
    if k > 0 {
      assert !Accepts(engine, table[0], source);
      FirstMatchWinner(engine, table[1..], source, k - 1);
    }
  }

  /** When no entry accepts, one character of plain text is consumed. */
  lemma {:induction false} FirstMatchFallback(engine: Engine, table: seq<TableEntry>, source: string)
    requires forall j :: 0 <= j < |table| ==> !Accepts(engine, table[j], source)
    ensures FirstMatch(engine, table, source) == Fallback
  {
    if table != [] {
      assert !Accepts(engine, table[0], source);
      FirstMatchFallback(engine, table[1..], source);
    }
  }

  /**
   * Conversely, every result comes from the earliest accepting entry, or is the
   * fallback and then no entry accepts.
   */
  lemma {:induction false} FirstMatchSource(engine: Engine, table: seq<TableEntry>, source: string)
    ensures var r := FirstMatch(engine, table, source);
      (exists k :: 0 <= k < |table| && Accepts(engine, table[k], source)
         && (forall j :: 0 <= j < k ==> !Accepts(engine, table[j], source))
         && r == MatchResult(AcceptedLength(engine, table[k], source), table[k].color))
      || ((forall j :: 0 <= j < |table| ==> !Accepts(engine, table[j], source)) && r == Fallback)
  {
    if table != [] && !Accepts(engine, table[0], source) {
      FirstMatchSource(engine, table[1..], source);
      var r := FirstMatch(engine, table, source);
      var tail := table[1..];
      if exists k :: (0 <= k < |tail| && Accepts(engine, tail[k], source)
           && (forall j :: 0 <= j < k ==> !Accepts(engine, tail[j], source))
           && r == MatchResult(AcceptedLength(engine, tail[k], source), tail[k].color)) {
        var k :| (0 <= k < |tail| && Accepts(engine, tail[k], source)
           && (forall j :: 0 <= j < k ==> !Accepts(engine, tail[j], source))
           && r == MatchResult(AcceptedLength(engine, tail[k], source), tail[k].color));
        assert forall j :: 0 <= j < k + 1 ==> !Accepts(engine, table[j], source) by {
          forall j | 0 <= j < k + 1 ensures !Accepts(engine, table[j], source) {
            if j > 0 { assert table[j] == tail[j - 1]; }
          }
        }
        assert Accepts(engine, table[k + 1], source);
      } else {
        assert forall j :: 0 <= j < |table| ==> !Accepts(engine, table[j], source) by {
          forall j | 0 <= j < |table| ensures !Accepts(engine, table[j], source) {
            if j > 0 { assert table[j] == tail[j - 1]; }
          }
        }
      }
    }
  }

  /** Entries in front that do not accept (bad patterns, empty matches, misses) change nothing. */
  lemma {:induction false} FirstMatchSkipsRejected(engine: Engine, front: seq<TableEntry>, back: seq<TableEntry>, source: string)
    requires forall j :: 0 <= j < |front| ==> !Accepts(engine, front[j], source)
    ensures FirstMatch(engine, front + back, source) == FirstMatch(engine, back, source)
  {
    if front != [] {
      assert (front + back)[0] == front[0] && !Accepts(engine, front[0], source);
      assert (front + back)[1..] == front[1..] + back;
      assert forall j :: 0 <= j < |front| - 1 ==> front[1..][j] == front[j + 1];
      FirstMatchSkipsRejected(engine, front[1..], back, source);
    } else {
      assert front + back == back;
    }
  }

  /** Once an entry accepts, entries appended after the table are never consulted. */
  lemma {:induction false} FirstMatchIgnoresLater(engine: Engine, front: seq<TableEntry>, back: seq<TableEntry>, source: string, k: nat)
    requires k < |front| && Accepts(engine, front[k], source)
    ensures FirstMatch(engine, front + back, source) == FirstMatch(engine, front, source)
  {
    if !Accepts(engine, front[0], source) {
      assert (front + back)[1..] == front[1..] + back;
      FirstMatchIgnoresLater(engine, front[1..], back, source, k - 1);
    }
  }

  /**
   * At least one character is consumed, and on a non-empty text no more than
   * the text holds.
   */
  lemma {:induction false} FirstMatchBounds(engine: Engine, table: seq<TableEntry>, source: string)
    requires WellFormedEngine(engine)
    ensures 1 <= FirstMatch(engine, table, source).charsMatched
    ensures source != [] ==> FirstMatch(engine, table, source).charsMatched <= |source|
  {
    if table != [] && !Accepts(engine, table[0], source) {
      FirstMatchBounds(engine, table[1..], source);
    }
  }

  /** One scan call on the value state, as `ScanTokenAndProvideInfoAboutIt` performs it. */
  function NextToken(engine: Engine, table: seq<TableEntry>, st: ScanState): (r: ScanStep)
    requires WellFormedEngine(engine)
    ensures r.NoMoreTokens? <==> st.sourceString == []
    ensures r.Emitted? ==>
      var n := |st.sourceString| - |r.next.sourceString|;
      && 1 <= n
      && r.next.sourceString == st.sourceString[n..]
      && MatchResult(n, r.token.color) == FirstMatch(engine, table, st.sourceString)
      && r.token.tokenType == TokenType.Text
      && r.token.startIndex == st.currentPos
      && r.token.startIndex <= r.token.endIndex
      && (st.currentPos as int + n <= MaxInt32 + 1 ==> r.token.endIndex as int == st.currentPos as int + n - 1)
      && (st.currentPos as int + n <= MaxInt32 ==> r.next.currentPos as int == st.currentPos as int + n)
  {
    if st.sourceString == [] then NoMoreTokens
    else
      var m := FirstMatch(engine, table, st.sourceString);
      FirstMatchBounds(engine, table, st.sourceString);
      var token := Token(m.color, TokenType.Text, st.currentPos,
                         Max(st.currentPos, Wrap32(st.currentPos as int + m.charsMatched - 1)));
      Emitted(token, ScanState(st.sourceString[m.charsMatched..], Wrap32(st.currentPos as int + m.charsMatched)))
  }

  /** The tokens a caller receives by scanning until the scanner reports no more tokens. */
  function Tokenize(engine: Engine, table: seq<TableEntry>, st: ScanState): (tokens: seq<Token>)
    requires WellFormedEngine(engine)
    ensures |tokens| <= |st.sourceString|
    ensures tokens == [] <==> st.sourceString == []
    decreases |st.sourceString|
  {
    match NextToken(engine, table, st)
    case NoMoreTokens => []
    case Emitted(token, next) => [token] + Tokenize(engine, table, next)
  }

  /** The remaining text and the position of its first character still fit in 32 bits. */
  predicate NoOverflow(st: ScanState)
  {
    st.currentPos as int + |st.sourceString| <= MaxInt32 + 1
  }

  /** Each token starts right after the previous one ends. */
  predicate Contiguous(tokens: seq<Token>)
  {
    forall i :: 0 <= i < |tokens| - 1 ==> tokens[i + 1].startIndex as int == tokens[i].endIndex as int + 1
  }

  /** Consecutive tokens of one line are contiguous: each starts right after the previous one ends. */
  lemma {:induction false} TokenizeContiguous(engine: Engine, table: seq<TableEntry>, st: ScanState)
    requires WellFormedEngine(engine) && NoOverflow(st)
    ensures Contiguous(Tokenize(engine, table, st))
    decreases |st.sourceString|
  {
    match NextToken(engine, table, st)
    case NoMoreTokens =>
    case Emitted(token, next) =>
      var rest := Tokenize(engine, table, next);
      if rest != [] {
        assert next.currentPos as int == st.currentPos as int + (|st.sourceString| - |next.sourceString|);
        TokenizeContiguous(engine, table, next);
        assert NoOverflow(next);
        assert rest == Tokenize(engine, table, next);
        var tokens := Tokenize(engine, table, st);
        assert tokens == [token] + rest;
        forall i | 0 <= i < |tokens| - 1
          ensures tokens[i + 1].startIndex as int == tokens[i].endIndex as int + 1
        {
          if i > 0 {
            assert tokens[i] == rest[i - 1] && tokens[i + 1] == rest[(i - 1) + 1];
            assert rest[(i - 1) + 1].startIndex as int == rest[i - 1].endIndex as int + 1;
          } else {
            assert tokens[0] == token;
            assert token.endIndex as int == st.currentPos as int + (|st.sourceString| - |next.sourceString|) - 1;
            assert tokens[1] == rest[0] == NextToken(engine, table, next).token;
            assert rest[0].startIndex == next.currentPos;
            assert tokens[1].startIndex as int == tokens[0].endIndex as int + 1;
          }
        }
      }
  }

  /** The first token starts at the line's offset and the last ends at its final character. */
  lemma {:induction false} TokenizeEnds(engine: Engine, table: seq<TableEntry>, st: ScanState)
    requires WellFormedEngine(engine) && NoOverflow(st)
    ensures var tokens := Tokenize(engine, table, st);
      tokens != [] ==>
        && tokens[0].startIndex == st.currentPos
        && tokens[|tokens| - 1].endIndex as int == st.currentPos as int + |st.sourceString| - 1
    decreases |st.sourceString|
  {
    match NextToken(engine, table, st)
    case NoMoreTokens =>
    case Emitted(token, next) =>
      var rest := Tokenize(engine, table, next);
      if rest != [] {
        TokenizeEnds(engine, table, next);
      }
  }

  /** Every token spans at least one position, and each ends before the next one starts. */
  predicate Ordered(tokens: seq<Token>)
  {
    && (forall i :: 0 <= i < |tokens| ==> tokens[i].startIndex <= tokens[i].endIndex)
    && (forall i, j :: 0 <= i < j < |tokens| ==> tokens[i].endIndex < tokens[j].startIndex)
  }

  /** Every token spans at least one position, and tokens appear in strictly increasing order. */
  lemma {:induction false} TokenizeOrdered(engine: Engine, table: seq<TableEntry>, st: ScanState)
    requires WellFormedEngine(engine) && NoOverflow(st)
    ensures Ordered(Tokenize(engine, table, st))
    decreases |st.sourceString|
  {
    match NextToken(engine, table, st)
    case NoMoreTokens =>
    case Emitted(token, next) =>
      var rest := Tokenize(engine, table, next);
      var tokens := Tokenize(engine, table, st);
      assert tokens == [token] + rest;
      if rest != [] {
        TokenizeOrdered(engine, table, next);
        TokenizeEnds(engine, table, next);
        assert next.currentPos as int == token.endIndex as int + 1;
        forall i, j | 0 <= i < j < |tokens|
          ensures tokens[i].endIndex < tokens[j].startIndex
        {
          if i > 0 {
            assert tokens[i] == rest[i - 1] && tokens[j] == rest[j - 1];
          } else {
            assert tokens[j] == rest[j - 1];
            assert rest[0].startIndex <= rest[j - 1].startIndex;
          }
        }
      }
  }

  /** Every token lies in the positions `from` to `from + length - 1`. */
  predicate InsideLine(tokens: seq<Token>, from: int, length: int)
  {
    forall i :: 0 <= i < |tokens| ==> from <= tokens[i].startIndex as int && tokens[i].endIndex as int < from + length
  }

  /** Every token lies inside the positions from the line's offset to its last character. */
  lemma {:induction false} TokenizeWithin(engine: Engine, table: seq<TableEntry>, st: ScanState)
    requires WellFormedEngine(engine) && NoOverflow(st)
    ensures InsideLine(Tokenize(engine, table, st), st.currentPos as int, |st.sourceString|)
    decreases |st.sourceString|
  {
    match NextToken(engine, table, st)
    case NoMoreTokens =>
    case Emitted(token, next) =>
      var rest := Tokenize(engine, table, next);
      var tokens := Tokenize(engine, table, st);
      assert tokens == [token] + rest;
      if rest != [] {
        assert next.currentPos as int == st.currentPos as int + (|st.sourceString| - |next.sourceString|);
        TokenizeWithin(engine, table, next);
        assert rest == Tokenize(engine, table, next);
        forall i | 0 < i < |tokens|
          ensures st.currentPos as int <= tokens[i].startIndex as int && tokens[i].endIndex as int < st.currentPos as int + |st.sourceString|
        {
          assert tokens[i] == rest[i - 1];
        }
      }
  }

  /** Some token's inclusive range holds position `p`. */
  predicate Covers(tokens: seq<Token>, p: int)
  {
    exists i :: 0 <= i < |tokens| && tokens[i].startIndex as int <= p <= tokens[i].endIndex as int
  }

  /** Every position from the line's offset to its last character lies in some token. */
  lemma {:induction false} TokenizeReaches(engine: Engine, table: seq<TableEntry>, st: ScanState, p: int)
    requires WellFormedEngine(engine) && NoOverflow(st)
    requires st.currentPos as int <= p < st.currentPos as int + |st.sourceString|
    ensures Covers(Tokenize(engine, table, st), p)
    decreases |st.sourceString|
  {
    var token := NextToken(engine, table, st).token;
    var next := NextToken(engine, table, st).next;
    var rest := Tokenize(engine, table, next);
    var tokens := Tokenize(engine, table, st);
    assert tokens == [token] + rest;
    var n := |st.sourceString| - |next.sourceString|;
    if p < st.currentPos as int + n {
      assert 0 < |tokens| && tokens[0].startIndex as int <= p <= tokens[0].endIndex as int;
    } else {
      assert next.currentPos as int == st.currentPos as int + n;
      TokenizeReaches(engine, table, next, p);
      assert rest == Tokenize(engine, table, next);
      var i :| 0 <= i < |rest| && rest[i].startIndex as int <= p <= rest[i].endIndex as int;
      assert tokens[i + 1] == rest[i];
      assert tokens[i + 1].startIndex as int <= p <= tokens[i + 1].endIndex as int;
    }
  }

  /** The tokens of a line cover exactly the positions from its offset to its last character. */
  lemma TokenizeCovers(engine: Engine, table: seq<TableEntry>, st: ScanState, p: int)
    requires WellFormedEngine(engine) && NoOverflow(st)
    ensures (st.currentPos as int <= p < st.currentPos as int + |st.sourceString|) <==> Covers(Tokenize(engine, table, st), p)
  {
    TokenizeWithin(engine, table, st);
    TokenizeOrdered(engine, table, st);
    if st.currentPos as int <= p < st.currentPos as int + |st.sourceString| {
      TokenizeReaches(engine, table, st, p);
    }
  }

  /**
   * Where no entry accepts at any position of the line, the line falls apart
   * into one plain-text token per character, at consecutive positions.
   */
  lemma {:induction false} TokenizeFallback(engine: Engine, table: seq<TableEntry>, st: ScanState)
    requires WellFormedEngine(engine) && NoOverflow(st)
    requires forall k :: 0 <= k < |st.sourceString| ==> FirstMatch(engine, table, st.sourceString[k..]) == Fallback
    ensures var tokens := Tokenize(engine, table, st);
      && |tokens| == |st.sourceString|
      && forall i :: 0 <= i < |tokens| ==>
           tokens[i].color == TokenColor.Text && tokens[i].startIndex as int == tokens[i].endIndex as int == st.currentPos as int + i
    decreases |st.sourceString|
  {
    var s := st.sourceString;
    if s != [] {
      assert s[0..] == s;
      var step := NextToken(engine, table, st);
      var next := step.next;
      assert |next.sourceString| == |s| - 1;
      forall k | 0 <= k < |next.sourceString|
        ensures FirstMatch(engine, table, next.sourceString[k..]) == Fallback
      {
        assert next.sourceString[k..] == s[k + 1..];
      }
      TokenizeFallback(engine, table, next);
      var tokens := Tokenize(engine, table, st);
      var rest := Tokenize(engine, table, next);
      assert tokens == [step.token] + rest;
      forall i | 0 < i < |tokens|
        ensures tokens[i].color == TokenColor.Text && tokens[i].startIndex as int == tokens[i].endIndex as int == st.currentPos as int + i
      {
        assert tokens[i] == rest[i - 1];
      }
    }
  }
}
