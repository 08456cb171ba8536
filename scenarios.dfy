/**
 * Worked scenarios of the scanner's documented behaviour, stated over the
 * literal engine: first match wins over a longer later match, a bad pattern
 * is passed over, the star keyword is matched literally (and would misfire
 * unescaped), and text that no keyword starts falls apart into
 * one-character plain-text tokens.
 */
module Scenarios {
  import opened HostTypes
  import opened RegexEngine
  import opened PatternTable
  import opened LineScan
  import opened Scanner

  /** A keyword without metacharacters is its own pattern. */
  lemma PlainKeywordEntry(keyword: string)
    requires forall i :: 0 <= i < |keyword| ==> !IsMeta(keyword[i])
    ensures BuildTable([keyword]) == [TableEntry(keyword, Keyword)]
  {
    assert IsMeta('*');
    assert forall k :: 0 <= k < |keyword| ==> keyword[k] != '*';
    TrimIsStar(keyword);
  }

  /** A table of keywords without metacharacters is the keywords themselves, coloured `Keyword`. */
  lemma {:induction false} PlainKeywordTable(keywords: seq<string>)
    requires forall k, i :: 0 <= k < |keywords| && 0 <= i < |keywords[k]| ==> !IsMeta(keywords[k][i])
    ensures forall k :: 0 <= k < |keywords| ==> BuildTable(keywords)[k] == TableEntry(keywords[k], Keyword)
  {
    forall k | 0 <= k < |keywords|
      ensures BuildTable(keywords)[k] == TableEntry(keywords[k], Keyword)
    {
      PlainKeywordEntry(keywords[k]);
      assert BuildTable(keywords)[k].pattern == keywords[k];
    }
  }

  /** Table `ab`, `a` on `abc`: the first entry wins with two characters. */
  lemma FirstEntryWins()
    ensures FirstMatch(LiteralEngine, BuildTable(["ab", "a"]), "abc") == MatchResult(2, Keyword)
  {
    var table := BuildTable(["ab", "a"]);
    PlainKeywordTable(["ab", "a"]);
    LiteralEngineOnPlainText("ab", "abc");
    assert "ab" <= "abc";
    FirstMatchWinner(LiteralEngine, table, "abc", 0);
  }

  /** Table `a`, `ab` on `abc`: the first entry still wins, although the second would match more. */
  lemma FirstEntryWinsOverLonger()
    ensures FirstMatch(LiteralEngine, BuildTable(["a", "ab"]), "abc") == MatchResult(1, Keyword)
  {
    var table := BuildTable(["a", "ab"]);
    PlainKeywordTable(["a", "ab"]);
    LiteralEngineOnPlainText("a", "abc");
    LiteralEngineOnPlainText("ab", "abc");
    assert "a" <= "abc" && "ab" <= "abc";
    assert AcceptedLength(LiteralEngine, table[1], "abc") == 2;
    FirstMatchWinner(LiteralEngine, table, "abc", 0);
  }

  /** A pattern that does not compile is passed over and the keyword after it still colours the text. */
  lemma BadPatternIsSkipped()
    ensures FirstMatch(LiteralEngine, [TableEntry("(", Keyword), TableEntry("Given ", Keyword)], "Given x")
      == MatchResult(6, Keyword)
  {
    var table := [TableEntry("(", Keyword), TableEntry("Given ", Keyword)];
    assert ("^" + "(")[1..] == "(";
    assert LiteralEngine("^" + "(", "Given x") == CompileError;
    LiteralEngineOnPlainText("Given ", "Given x");
    assert "Given " <= "Given x";
    FirstMatchWinner(LiteralEngine, table, "Given x", 1);
  }

  /** The star keyword matches one literal star as a keyword. */
  lemma StarKeywordIsLiteral()
    ensures FirstMatch(LiteralEngine, BuildTable(["*", "Given "]), "* I do something") == MatchResult(1, Keyword)
  {
    var text := "* I do something";
    assert Trim("*") == "*";
    BuildTableAppend(["*"], ["Given "]);
    assert ["*"] + ["Given "] == ["*", "Given "];
    var table := BuildTable(["*", "Given "]);
    assert table[0] == BuildTable(["*"])[0];
    StarEntryMatchesLiterally("*", text);
    FirstMatchWinner(LiteralEngine, table, text, 0);
  }

  /**
   * Why the star keyword `* ` (with trailing white space) is escaped.
   * Unescaped, `^* ` finds a space anywhere in the text, and its length is
   * taken as a keyword match although the text does not start with a star.
   */
  lemma UnescapedStarKeywordMisfires(text: string, i: nat)
    requires i < |text| && text[i] == ' '
    ensures FirstMatch(LiteralEngine, [TableEntry("* ", Keyword)], text) == MatchResult(1, Keyword)
  {
    var regex := "^" + "* ";
    assert regex[0] == '^' && regex[1] == '*' && regex[2..] == " ";
    UnescapePlainText(" ");
    assert text[i..i + 1] == " ";
    OccursAt(" ", text, i);
    assert LiteralEngine(regex, text) == Matched(1);
    FirstMatchWinner(LiteralEngine, [TableEntry("* ", Keyword)], text, 0);
  }

  /** The escaped entry built for `* ` leaves a text that does not start with a star to the fallback. */
  lemma EscapedStarKeywordWaits(text: string)
    requires text != [] && text[0] != '*'
    ensures FirstMatch(LiteralEngine, BuildTable(["* "]), text) == Fallback
  {
    var keyword := "* ";
    assert IsWhiteSpace(keyword[1]);
    TrimIsStar(keyword);
    StarEntryMatchesLiterally(keyword, text);
    FirstMatchFallback(LiteralEngine, BuildTable([keyword]), text);
  }

  /** The English step keywords of the scenarios below. */
  const GivenWhenThen: seq<string> := ["Given", "When", "Then"]

  lemma GivenWhenThenTable()
    ensures BuildTable(GivenWhenThen)
      == [TableEntry("Given", Keyword), TableEntry("When", Keyword), TableEntry("Then", Keyword)]
    ensures forall k, i :: 0 <= k < |GivenWhenThen| && 0 <= i < |GivenWhenThen[k]| ==> !IsMeta(GivenWhenThen[k][i])
  {
    assert forall k, i :: 0 <= k < |GivenWhenThen| && 0 <= i < |GivenWhenThen[k]| ==> 'A' <= GivenWhenThen[k][i] <= 'z';
    PlainKeywordTable(GivenWhenThen);
  }

  /** None of Given, When, Then starts a text whose first letter is none of G, W, T. */
  lemma NoStepKeywordStarts(text: string)
    requires text != [] && text[0] != 'G' && text[0] != 'W' && text[0] != 'T'
    ensures FirstMatch(LiteralEngine, BuildTable(GivenWhenThen), text) == Fallback
  {
    var table := BuildTable(GivenWhenThen);
    GivenWhenThenTable();
    forall j | 0 <= j < |table|
      ensures !Accepts(LiteralEngine, table[j], text)
    {
      LiteralEngineOnPlainText(GivenWhenThen[j], text);
      assert GivenWhenThen[j][0] != text[0];
    }
    FirstMatchFallback(LiteralEngine, table, text);
  }

  /** None of the letters G, W, T, with which the step keywords begin. */
  predicate NoStepInitial(c: char)
  {
    c != 'G' && c != 'W' && c != 'T'
  }

  /** On such a text one scan call emits a one-character plain-text token. */
  lemma PlainCharacterStep(text: string, pos: int32)
    requires text != [] && NoStepInitial(text[0])
    requires 0 <= pos < 0x1000
    ensures (LiteralEngineWellFormed(); NextToken(LiteralEngine, BuildTable(GivenWhenThen), ScanState(text, pos)))
      == Emitted(Token(TokenColor.Text, TokenType.Text, pos, pos), ScanState(text[1..], pos + 1))
  {
    LiteralEngineWellFormed();
    NoStepKeywordStarts(text);
  }

  /** A line in which no character starts a step keyword (`xyz`, say) falls apart into plain-text characters. */
  lemma FallbackTokens(text: string, pos: int32)
    requires forall i :: 0 <= i < |text| ==> NoStepInitial(text[i])
    requires 0 <= pos && pos as int + |text| < 0x1000
    ensures var tokens := (LiteralEngineWellFormed(); Tokenize(LiteralEngine, BuildTable(GivenWhenThen), ScanState(text, pos)));
      && |tokens| == |text|
      && forall i :: 0 <= i < |text| ==>
           tokens[i].color == TokenColor.Text && tokens[i].startIndex as int == tokens[i].endIndex as int == pos as int + i
  {
    LiteralEngineWellFormed();
    forall k | 0 <= k < |text|
      ensures FirstMatch(LiteralEngine, BuildTable(GivenWhenThen), text[k..]) == Fallback
    {
      NoStepKeywordStarts(text[k..]);
    }
    TokenizeFallback(LiteralEngine, BuildTable(GivenWhenThen), ScanState(text, pos));
  }

  /** The host's protocol on one line, `xyz`: set the source, then scan until the scanner says no. */
  method ScanXyzLine()
  {
    LiteralEngineWellFormed();
    var scanner := new RegularExpressionScanner(GivenWhenThen, LiteralEngine);
    var info := new TokenInfo();
    var line := "xyz";
    scanner.SetSource(line, 0);
    PlainCharacterStep(line, 0);
    var more := scanner.ScanTokenAndProvideInfoAboutIt(info);
    assert more && info.AsToken() == Token(TokenColor.Text, TokenType.Text, 0, 0);
    PlainCharacterStep(line[1..], 1);
    more := scanner.ScanTokenAndProvideInfoAboutIt(null);
    assert more && scanner.State() == ScanState(line[2..], 2);
    PlainCharacterStep(line[2..], 2);
    more := scanner.ScanTokenAndProvideInfoAboutIt(info);
    assert more && info.AsToken() == Token(TokenColor.Text, TokenType.Text, 2, 2);
    assert line[2..][1..] == [];
    more := scanner.ScanTokenAndProvideInfoAboutIt(info);
    assert !more && info.AsToken() == Token(TokenColor.Text, TokenType.Text, 2, 2);
  }
}
