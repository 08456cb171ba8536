/**
 * The regular-expression engine, seen from the scanner: given the source of
 * a regular expression and a text, it either refuses to compile the
 * expression, finds no match, or reports the length of the match it found.
 * The scanner always prepends `^`, but only the length of a match is used,
 * not where it starts: an expression such as `^a|b` or `^*b` can match
 * away from position 0 of the text, and its length is still taken.
 *
 * `LiteralEngine` is one concrete engine: it understands expressions that
 * are literal text (metacharacters escaped with a backslash), optionally
 * anchored with `^`, or starting with the quantified anchor `^*`, and
 * reports every other expression as not compilable.
 */
module RegexEngine {

  datatype Option<T> = None | Some(value: T)

  /** What compiling and running one expression against one text yields. */
  datatype MatchOutcome = CompileError | NoMatch | Matched(length: nat)

  /** An engine maps (expression source, text) to the outcome. */
  type Engine = (string, string) -> MatchOutcome

  /** Every match an engine reports fits inside the text it is given. */
  ghost predicate WellFormedEngine(engine: Engine)
  {
    forall regex, text :: engine(regex, text).Matched? ==> engine(regex, text).length <= |text|
  }

  /** The characters that carry a meaning of their own in a regular expression. */
  predicate IsMeta(c: char)
  {
    c in {'\\', '*', '+', '?', '|', '{', '[', '(', ')', '^', '$', '.'}
  }

  /**
   * The literal text an expression stands for, or `None` when the expression
   * is not plain literal text: an unescaped metacharacter, a backslash that
   * escapes anything but a metacharacter, or a trailing lone backslash.
   */
  function Unescape(p: string): (r: Option<string>)
    ensures r.Some? ==> |r.value| <= |p|
  {
    if p == [] then Some([])
    else if p[0] == '\\' then
      if |p| >= 2 && IsMeta(p[1]) then
        match Unescape(p[2..])
        case None => None
        case Some(rest) => Some([p[1]] + rest)
      else None
    else if IsMeta(p[0]) then None
    else
      match Unescape(p[1..])
      case None => None
      case Some(rest) => Some([p[0]] + rest)
  }

  /** Text without metacharacters is its own literal. */
  lemma {:induction false} UnescapePlainText(s: string)
    requires forall i :: 0 <= i < |s| ==> !IsMeta(s[i])
    ensures Unescape(s) == Some(s)
  {
    if s != [] {
      UnescapePlainText(s[1..]);
      assert [s[0]] + s[1..] == s;
    }
  }

  /** The escaped star stands for a single literal star. */
  lemma UnescapeEscapedStar()
    ensures Unescape("\\*") == Some("*")
  {
    var p := "\\*";
    assert p[0] == '\\' && p[1] == '*' && p[2..] == [];
    assert Unescape(p[2..]) == Some([]);
    assert [p[1]] + [] == "*";
  }

  /** True when `lit` occurs somewhere in `text`. */
  predicate Occurs(lit: string, text: string)
    decreases |text|
  {
    lit <= text || (text != [] && Occurs(lit, text[1..]))
  }

  /** A literal that appears at position `i` of a text occurs in it. */
  lemma {:induction false} OccursAt(lit: string, text: string, i: nat)
    requires i + |lit| <= |text| && text[i..i + |lit|] == lit
    ensures Occurs(lit, text)
    decreases i
  {
    if i > 0 {
      assert text[1..][i - 1..i - 1 + |lit|] == text[i..i + |lit|];
      OccursAt(lit, text[1..], i - 1);
    } else {
      assert text[..|lit|] == lit;
    }
  }

  /** Whatever occurs in a text is no longer than it. */
  lemma {:induction false} OccursFits(lit: string, text: string)
    requires Occurs(lit, text)
    ensures |lit| <= |text|
    decreases |text|
  {
    if !(lit <= text) {
      OccursFits(lit, text[1..]);
    }
  }

  /**
   * The literal engine: `^L` matches a text that starts with the literal of
   * `L`. In `^*L` the star quantifies the anchor, which may then hold zero
   * times, so like an unanchored `L` it matches a text that contains the
   * literal anywhere. The match is as long as the literal.
   */
  function LiteralEngine(regex: string, text: string): (r: MatchOutcome)
  {
    match Unescape(AnchorBody(regex))
    case None => CompileError
    case Some(lit) =>
      if (if IsAnchored(regex) then lit <= text else Occurs(lit, text)) then Matched(|lit|) else NoMatch
  }

  /** The expression starts with an anchor `^` that is not quantified. */
  predicate IsAnchored(regex: string)
  {
    regex != [] && regex[0] == '^' && !(|regex| >= 2 && regex[1] == '*')
  }

  /** The expression with its leading `^` or `^*` removed. */
  function AnchorBody(regex: string): (body: string)
    ensures |body| <= |regex|
  {
    if |regex| >= 2 && regex[0] == '^' && regex[1] == '*' then regex[2..]
    else if regex != [] && regex[0] == '^' then regex[1..]
    else regex
  }

  /** The literal stand-in only reports matches that fit in the text. */
  lemma LiteralEngineWellFormed()
    ensures WellFormedEngine(LiteralEngine)
  {
    forall regex, text | LiteralEngine(regex, text).Matched?
      ensures LiteralEngine(regex, text).length <= |text|
    {
      var lit := Unescape(AnchorBody(regex)).value;
      if !IsAnchored(regex) {
        OccursFits(lit, text);
      }
    }
  }

  /** On an anchored plain-text expression, the literal engine is prefix matching. */
  lemma LiteralEngineOnPlainText(word: string, text: string)
    requires forall i :: 0 <= i < |word| ==> !IsMeta(word[i])
    ensures LiteralEngine("^" + word, text) == if word <= text then Matched(|word|) else NoMatch
  {
    assert ("^" + word)[1..] == word;
    UnescapePlainText(word);
  }
}
