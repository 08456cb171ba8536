/**
 * The pattern table the scanner is built around: one entry per keyword of
 * the active dialect, in the dialect's order, every entry coloured as a
 * keyword. The one keyword that is a regular-expression metacharacter on
 * its own, the step wildcard `*`, is replaced by its escaped form `\*` so
 * that it is matched literally.
 */
module PatternTable {
  import opened HostTypes
  import opened RegexEngine

  /** One row of the table: the expression to try and the colour it gives. */
  datatype TableEntry = TableEntry(pattern: string, color: TokenColor)

  /** `Char.IsWhiteSpace`: the separators of the Unicode categories Zs, Zl and Zp, and U+0009..U+000D, U+0085. */
  predicate IsWhiteSpace(c: char)
  {
    var n := c as int;
    (0x09 <= n <= 0x0D) || n == 0x20 || n == 0x85 || n == 0xA0 || n == 0x1680
    || (0x2000 <= n <= 0x200A) || n == 0x2028 || n == 0x2029 || n == 0x202F
    || n == 0x205F || n == 0x3000
  }

  /** The number of white-space characters at the start of `s`. */
  function LeadingWhiteSpace(s: string): (k: nat)
    ensures k <= |s|
    ensures forall i :: 0 <= i < k ==> IsWhiteSpace(s[i])
    ensures k < |s| ==> !IsWhiteSpace(s[k])
  {
    if s != [] && IsWhiteSpace(s[0]) then 1 + LeadingWhiteSpace(s[1..]) else 0
  }

  /** The number of white-space characters at the end of `s`. */
  function TrailingWhiteSpace(s: string): (k: nat)
    ensures k <= |s|
    ensures forall i :: |s| - k <= i < |s| ==> IsWhiteSpace(s[i])
    ensures k < |s| ==> !IsWhiteSpace(s[|s| - 1 - k])
  {
    if s != [] && IsWhiteSpace(s[|s| - 1]) then 1 + TrailingWhiteSpace(s[..|s| - 1]) else 0
  }

  /**
   * `String.Trim()`: `s` without its leading and trailing white space.
   */
  function Trim(s: string): (r: string)
  {
    var rest := s[LeadingWhiteSpace(s)..];
    rest[..|rest| - TrailingWhiteSpace(rest)]
  }

  /**
   * What `Trim` removes is white space only: the result is the slice of `s`
   * after its white-space prefix, and only white space follows it in `s`.
   */
  lemma TrimSlice(s: string)
    ensures LeadingWhiteSpace(s) + |Trim(s)| <= |s|
    ensures s[LeadingWhiteSpace(s)..LeadingWhiteSpace(s) + |Trim(s)|] == Trim(s)
    ensures forall i :: 0 <= i < LeadingWhiteSpace(s) ==> IsWhiteSpace(s[i])
    ensures forall i :: LeadingWhiteSpace(s) + |Trim(s)| <= i < |s| ==> IsWhiteSpace(s[i])
  {
    var lead := LeadingWhiteSpace(s);
    var rest := s[lead..];
    var r := rest[..|rest| - TrailingWhiteSpace(rest)];
    assert Trim(s) == r;
    assert s[lead..lead + |r|] == r;
    forall i | lead + |r| <= i < |s|
      ensures IsWhiteSpace(s[i])
    {
      assert s[i] == rest[i - lead];
    }
  }

  /** `Trim` removes all the white space around `s`: what is left neither starts nor ends with white space. */
  lemma TrimEnds(s: string)
    ensures Trim(s) != [] ==> !IsWhiteSpace(Trim(s)[0]) && !IsWhiteSpace(Trim(s)[|Trim(s)| - 1])
  {
    var lead := LeadingWhiteSpace(s);
    var rest := s[lead..];
    var trail := TrailingWhiteSpace(rest);
    var r := rest[..|rest| - trail];
    assert Trim(s) == r;
    if r != [] {
      assert r[0] == s[lead];
      assert r[|r| - 1] == rest[|rest| - 1 - trail];
    }
  }

  /** A keyword trims to `*` exactly when it is one star with nothing but white space around it. */
  lemma TrimIsStar(s: string)
    ensures Trim(s) == "*" <==>
      exists k :: 0 <= k < |s| && s[k] == '*' &&
        (forall i :: 0 <= i < |s| && i != k ==> IsWhiteSpace(s[i]))
  {
    var lead := LeadingWhiteSpace(s);
    var rest := s[lead..];
    var trail := TrailingWhiteSpace(rest);
    if Trim(s) == "*" {
      assert |rest| - trail == 1 && rest[0] == '*';
      assert s[lead] == '*';
      forall i | 0 <= i < |s| && i != lead
        ensures IsWhiteSpace(s[i])
      {
        if i > lead {
          assert s[i] == rest[i - lead];
        }
      }
    }
    if k :| 0 <= k < |s| && s[k] == '*' && (forall i :: 0 <= i < |s| && i != k ==> IsWhiteSpace(s[i])) {
      assert !IsWhiteSpace(s[k]);
      assert lead == k;
      assert rest[0] == '*';
      assert trail == |rest| - 1;
      assert Trim(s) == rest[..1];
    }
  }

  /**
   * The table built from the dialect's keywords, in order: a keyword that
   * trims to `*` gets the pattern `\*`, every other keyword is its own
   * pattern, and every entry is coloured `Keyword`.
   */
  function BuildTable(keywords: seq<string>): (table: seq<TableEntry>)
    ensures |table| == |keywords|
    ensures forall i :: 0 <= i < |table| ==> table[i].color == Keyword
    ensures forall i :: 0 <= i < |table| && Trim(keywords[i]) == "*" ==> table[i].pattern == "\\*"
    ensures forall i :: 0 <= i < |table| && Trim(keywords[i]) != "*" ==> table[i].pattern == keywords[i]
  {
    if keywords == [] then []
    else
      var keyword := keywords[0];
      var entry := if Trim(keyword) == "*" then TableEntry("\\*", Keyword) else TableEntry(keyword, Keyword);
      [entry] + BuildTable(keywords[1..])
  }

  /** The table of a keyword list followed by more keywords starts with the table of the list. */
  lemma {:induction false} BuildTableAppend(front: seq<string>, back: seq<string>)
    ensures BuildTable(front + back) == BuildTable(front) + BuildTable(back)
  {
    if front != [] {
      assert (front + back)[1..] == front[1..] + back;
      BuildTableAppend(front[1..], back);
    }
  }

  /**
   * Under the literal engine, the entry of a star keyword matches one literal
   * star at the start of the text and nothing else.
   */
  lemma StarEntryMatchesLiterally(keyword: string, text: string)
    requires Trim(keyword) == "*"
    ensures LiteralEngine("^" + BuildTable([keyword])[0].pattern, text)
      == if text != [] && text[0] == '*' then Matched(1) else NoMatch
  {
    var regex := "^" + BuildTable([keyword])[0].pattern;
    assert regex == "^\\*";
    assert regex[1..] == "\\*";
    UnescapeEscapedStar();
    assert "*" <= text <==> text != [] && text[0] == '*';
  }

  /**
   * Why the star keyword is escaped. Unescaped, `^*` is the anchor under a
   * quantifier: under the literal stand-in, as in .NET, it compiles and
   * matches the empty prefix of every text, so it never matches a literal
   * star, and a zero-length match is no token.
   */
  lemma UnescapedStarMatchesEmpty(text: string)
    ensures LiteralEngine("^*", text) == Matched(0)
  {
    assert AnchorBody("^*") == [];
  }
}
