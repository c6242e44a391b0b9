/** The tokenizer (src/components/tokenization/Tokenization.cpp): an ordered
    list of (token type, pattern) pairs, a first-match recogniser, and the
    loop that cuts a whole text into tokens. */
module Tokenization {
  import opened Wrappers
  import opened Tokens

  /** The regular-expression search the source delegates to `std::regex`:
      given a pattern and a text it returns the offset of the first match and
      the matched text, or offset -1 when there is none. */
  type Matcher = (string, string) -> (int, string)

  /** A registered pattern: the token type it produces and its regex. */
  datatype TokenPattern = TokenPattern(kind: string, regex: string)

  /** Every match of a registered pattern that starts at offset 0 consumes
      at least one character; without this `tokenize` would loop for ever. */
  ghost predicate MatchesAdvance(patterns: seq<TokenPattern>, matcher: Matcher)
  {
    forall i, text :: 0 <= i < |patterns| && matcher(patterns[i].regex, text).0 == 0 ==>
      |matcher(patterns[i].regex, text).1| > 0
  }

  predicate MatchesAtStart(p: TokenPattern, matcher: Matcher, text: string)
  {
    matcher(p.regex, text).0 == 0
  }

  /** Index of the first pattern, in registration order, that matches at
      offset 0 (`std::find_if`). */
  function FirstMatch(patterns: seq<TokenPattern>, matcher: Matcher, text: string): (r: Option<nat>)
    ensures r.Some? ==> r.value < |patterns| && MatchesAtStart(patterns[r.value], matcher, text)
    ensures r.Some? ==> forall j :: 0 <= j < r.value ==> !MatchesAtStart(patterns[j], matcher, text)
    ensures r.None? ==> forall j :: 0 <= j < |patterns| ==> !MatchesAtStart(patterns[j], matcher, text)
  {
    if patterns == [] then None
    else if MatchesAtStart(patterns[0], matcher, text) then Some(0)
    else match FirstMatch(patterns[1..], matcher, text)
      case None => None
      case Some(i) => Some(i + 1)
  }

  /** `recognizeToken`: the token of the first pattern matching at the start
      of `text`, spanning the matched text relative to `text`. */
  function RecognizeToken(patterns: seq<TokenPattern>, matcher: Matcher, text: string): (r: Result<Token>)
  {
    match FirstMatch(patterns, matcher, text)
    case None => Err("Error during tokenizing.")
    case Some(i) =>
      var m := matcher(patterns[i].regex, text);
      Ok(Token(patterns[i].kind, m.1, m.0, m.0 + |m.1|))
  }

  /** Keyword priority: the recognised token comes from the earliest pattern
      that matches at offset 0, and recognition fails exactly when none does. */
  lemma RecognizeTokenFirstMatch(patterns: seq<TokenPattern>, matcher: Matcher, text: string)
    ensures RecognizeToken(patterns, matcher, text).Err? <==>
      forall j :: 0 <= j < |patterns| ==> !MatchesAtStart(patterns[j], matcher, text)
    ensures RecognizeToken(patterns, matcher, text).Ok? ==>
      exists i :: 0 <= i < |patterns| && MatchesAtStart(patterns[i], matcher, text) &&
        (forall j :: 0 <= j < i ==> !MatchesAtStart(patterns[j], matcher, text)) &&
        RecognizeToken(patterns, matcher, text).value ==
          Token(patterns[i].kind, matcher(patterns[i].regex, text).1, 0, |matcher(patterns[i].regex, text).1|)
  {
    var r := FirstMatch(patterns, matcher, text);
    if r.Some? {
      var i := r.value;
      assert MatchesAtStart(patterns[i], matcher, text);
    }
  }

  predicate IsSkipped(kind: string) { kind == "comment" || kind == "whitespace" }

  /** The loop of `tokenize` from character offset `pos` on. */
  function TokenizeFrom(patterns: seq<TokenPattern>, matcher: Matcher, text: string, pos: nat): Result<seq<Token>>
    requires MatchesAdvance(patterns, matcher)
    decreases |text| - pos
  {
    if pos == |text| then Ok([Token("end", "", pos, pos)])
    else if pos > |text| then Err("basic_string::substr: position out of range")
    else match RecognizeToken(patterns, matcher, text[pos..])
      case Err(e) => Err(e)
      case Ok(t) =>
        var token := t.(startPos := pos, endPos := pos + |t.value|);
        match TokenizeFrom(patterns, matcher, text, token.endPos)
        case Err(e) => Err(e)
        case Ok(rest) => Ok(if IsSkipped(token.kind) then rest else [token] + rest)
  }

  /** The tokens emitted so far followed by the outcome of the rest of the loop. */
  function Prepend(emitted: seq<Token>, rest: Result<seq<Token>>): Result<seq<Token>>
  {
    match rest
    case Err(e) => Err(e)
    case Ok(ts) => Ok(emitted + ts)
  }

  /** One turn of the loop: the token recognised at `pos`, made absolute,
      is emitted unless it is skipped, and the loop goes on from its end. */
  lemma TokenizeUnfold(patterns: seq<TokenPattern>, matcher: Matcher, text: string, pos: nat, t: Token)
    requires MatchesAdvance(patterns, matcher)
    requires pos < |text|
    requires RecognizeToken(patterns, matcher, text[pos..]) == Ok(t)
    ensures TokenizeFrom(patterns, matcher, text, pos) ==
      var token := t.(startPos := pos, endPos := pos + |t.value|);
      var rest := TokenizeFrom(patterns, matcher, text, token.endPos);
      if IsSkipped(token.kind) then rest else Prepend([token], rest)
    ensures |t.value| > 0
  {
    RecognizeTokenFirstMatch(patterns, matcher, text[pos..]);
  }

  /** The loop stops at the end of the text with the end token, and past it
      with the error `substr` raises. */
  lemma TokenizeStops(patterns: seq<TokenPattern>, matcher: Matcher, text: string, pos: nat, emitted: seq<Token>)
    requires MatchesAdvance(patterns, matcher)
    requires pos >= |text|
    ensures Prepend(emitted, TokenizeFrom(patterns, matcher, text, pos)) ==
      if pos == |text| then Ok(emitted + [Token("end", "", pos, pos)])
      else Err("basic_string::substr: position out of range")
  {
  }

  lemma PrependNothing(rest: Result<seq<Token>>)
    ensures Prepend([], rest) == rest
  {
    if rest.Ok? {
      assert [] + rest.value == rest.value;
    }
  }

  lemma PrependTwice(emitted: seq<Token>, token: Token, rest: Result<seq<Token>>)
    ensures Prepend(emitted, Prepend([token], rest)) == Prepend(emitted + [token], rest)
  {
    if rest.Ok? {
      assert (emitted + [token]) + rest.value == emitted + ([token] + rest.value);
    }
  }

  /** The loop invariant survives one turn: the recognised token, made
      absolute, joins the emitted tokens unless it is skipped. */
  lemma TokenizeStep(patterns: seq<TokenPattern>, matcher: Matcher, text: string, pos: nat, token: Token, emitted: seq<Token>)
    requires MatchesAdvance(patterns, matcher)
    requires pos < |text|
    requires RecognizeToken(patterns, matcher, text[pos..]).Ok?
    requires token == RecognizeToken(patterns, matcher, text[pos..]).value.(startPos := pos, endPos := pos + |token.value|)
    ensures pos < token.endPos
    ensures !IsSkipped(token.kind) ==>
      Prepend(emitted, TokenizeFrom(patterns, matcher, text, pos)) == Prepend(emitted + [token], TokenizeFrom(patterns, matcher, text, token.endPos))
    ensures IsSkipped(token.kind) ==>
      Prepend(emitted, TokenizeFrom(patterns, matcher, text, pos)) == Prepend(emitted, TokenizeFrom(patterns, matcher, text, token.endPos))
  {
    var t := RecognizeToken(patterns, matcher, text[pos..]).value;
    TokenizeUnfold(patterns, matcher, text, pos, t);
    PrependTwice(emitted, token, TokenizeFrom(patterns, matcher, text, token.endPos));
  }

  /** The tokenizer object: the list of patterns `addRegexPattern` fills. */
  class Tokenizer {
    var patterns: seq<TokenPattern>

    constructor ()
      ensures patterns == []
    {
      patterns := [];
    }

    /** Registers a pattern after all earlier ones. */
    method AddRegexPattern(kind: string, regex: string)
      modifies this
      ensures patterns == old(patterns) + [TokenPattern(kind, regex)]
    {
      patterns := patterns + [TokenPattern(kind, regex)];
    }

    /** `tokenize`: cuts `text` into tokens, dropping comments and whitespace
        and closing with an end token. */
    method Tokenize(text: string, matcher: Matcher) returns (r: Result<seq<Token>>)
      requires MatchesAdvance(patterns, matcher)
      ensures r == TokenizeFrom(patterns, matcher, text, 0)
    {
      var tokens: seq<Token> := [];
      var pos: nat := 0;
      PrependNothing(TokenizeFrom(patterns, matcher, text, 0));
      while true
        invariant TokenizeFrom(patterns, matcher, text, 0) == Prepend(tokens, TokenizeFrom(patterns, matcher, text, pos))
        decreases |text| - pos
      {
        if pos >= |text| {
          TokenizeStops(patterns, matcher, text, pos, tokens);
        }
        if pos == |text| {
          tokens := tokens + [Token("end", "", pos, pos)];
          r := Ok(tokens);
          return;
        }
        if pos > |text| {
          r := Err("basic_string::substr: position out of range");
          return;
        }
        var recognized := RecognizeToken(patterns, matcher, text[pos..]);
        if recognized.Err? {
          r := Err(recognized.msg);
          return;
        }
        var token := recognized.value.(startPos := pos, endPos := pos + |recognized.value.value|);
        TokenizeStep(patterns, matcher, text, pos, token, tokens);
        if !IsSkipped(token.kind) {
          tokens := tokens + [token];
        }
        pos := token.endPos;
      }
    }
  }

  /** The facts the tokenizer promises about a successful run from `pos`:
      spans are absolute and match the token text, nothing skipped is emitted,
      tokens are in order without overlap, and exactly one empty token, the
      end token at `|text|`, closes the list. */
  predicate WellFormedFrom(tokens: seq<Token>, text: string, pos: nat)
  {
    |tokens| >= 1 &&
    tokens[|tokens| - 1] == Token("end", "", |text|, |text|) &&
    (forall i :: 0 <= i < |tokens| - 1 ==>
      pos <= tokens[i].startPos < tokens[i].endPos <= |text| &&
      tokens[i].endPos == tokens[i].startPos + |tokens[i].value| &&
      !IsSkipped(tokens[i].kind)) &&
    (forall i :: 0 <= i < |tokens| - 1 ==> tokens[i].endPos <= tokens[i + 1].startPos)
  }

  /** Emitting a token in front of a well-formed rest that starts at its end
      keeps the list well formed. */
  lemma WellFormedCons(token: Token, rest: seq<Token>, text: string, pos: nat)
    requires token.startPos == pos && token.endPos == pos + |token.value| && |token.value| > 0
    requires WellFormedFrom(rest, text, token.endPos)
    requires token.endPos <= |text| && !IsSkipped(token.kind)
    ensures WellFormedFrom([token] + rest, text, pos)
  {
    var ts := [token] + rest;
    forall i | 0 <= i < |ts| - 1
      ensures pos <= ts[i].startPos < ts[i].endPos <= |text|
      ensures ts[i].endPos == ts[i].startPos + |ts[i].value| && !IsSkipped(ts[i].kind)
      ensures ts[i].endPos <= ts[i + 1].startPos
    {
      if i > 0 {
        assert ts[i] == rest[i - 1] && ts[i + 1] == rest[i];
      } else if |rest| > 1 {
        assert ts[1] == rest[0];
      } else {
        assert ts[1] == rest[0] == Token("end", "", |text|, |text|);
      }
    }
  }

  /** A list well formed from a later offset is well formed from an earlier one. */
  lemma WellFormedEarlier(tokens: seq<Token>, text: string, pos: nat, later: nat)
    requires WellFormedFrom(tokens, text, later) && pos <= later
    ensures WellFormedFrom(tokens, text, pos)
  {
  }

  lemma {:induction false} TokenizeFromWellFormed(patterns: seq<TokenPattern>, matcher: Matcher, text: string, pos: nat)
    requires MatchesAdvance(patterns, matcher)
    requires pos <= |text|
    ensures TokenizeFrom(patterns, matcher, text, pos).Ok? ==>
      WellFormedFrom(TokenizeFrom(patterns, matcher, text, pos).value, text, pos)
    decreases |text| - pos
  {
    if pos < |text| {
      var t := RecognizeToken(patterns, matcher, text[pos..]);
      if t.Ok? {
        RecognizeTokenFirstMatch(patterns, matcher, text[pos..]);
        TokenizeUnfold(patterns, matcher, text, pos, t.value);
        var token := t.value.(startPos := pos, endPos := pos + |t.value.value|);
        var rest := TokenizeFrom(patterns, matcher, text, token.endPos);
        if token.endPos <= |text| {
          TokenizeFromWellFormed(patterns, matcher, text, token.endPos);
          if rest.Ok? {
            if IsSkipped(token.kind) {
              WellFormedEarlier(rest.value, text, pos, token.endPos);
            } else {
              WellFormedCons(token, rest.value, text, pos);
            }
          }
        } else {
          TokenizeStops(patterns, matcher, text, token.endPos, []);
        }
      }
    } else {
      TokenizeStops(patterns, matcher, text, pos, []);
      PrependNothing(TokenizeFrom(patterns, matcher, text, pos));
    }
  }

  /** `tokenize` on the whole text. */
  lemma TokenizeWellFormed(patterns: seq<TokenPattern>, matcher: Matcher, text: string)
    requires MatchesAdvance(patterns, matcher)
    ensures TokenizeFrom(patterns, matcher, text, 0).Ok? ==>
      WellFormedFrom(TokenizeFrom(patterns, matcher, text, 0).value, text, 0)
  {
    TokenizeFromWellFormed(patterns, matcher, text, 0);
  }

  /** Tokenizing fails when some remainder of the text that the loop reaches
      matches no pattern; in particular on any non-empty text when no pattern
      is registered. */
  lemma TokenizeWithoutPatternsFails(matcher: Matcher, text: string)
    requires |text| > 0
    ensures TokenizeFrom([], matcher, text, 0).Err?
  {
  }

  // A worked example: patterns for comments, whitespace and parentheses, with
  // a hand-written recogniser standing in for the regular expressions.

  function ExampleMatcher(regex: string, text: string): (int, string)
  {
    if regex == "comment" && |text| >= 3 && text[0] == '/' && text[1] == '/' && text[2] == '\n' then (0, "//\n")
    else if regex == "whitespace" && |text| >= 1 && text[0] == ' ' then (0, " ")
    else if regex == "parentheses" && |text| >= 1 && (text[0] == '(' || text[0] == ')') then (0, [text[0]])
    else (-1, "")
  }

  const ExamplePatterns := [TokenPattern("comment", "comment"), TokenPattern("whitespace", "whitespace"),
                            TokenPattern("parentheses", "parentheses")]

  lemma ExampleMatcherAdvances()
    ensures MatchesAdvance(ExamplePatterns, ExampleMatcher)
  {
  }

  lemma ExampleRecognizesBlank(s: string)
    requires |s| >= 1 && s[0] == ' '
    ensures RecognizeToken(ExamplePatterns, ExampleMatcher, s) == Ok(Token("whitespace", " ", 0, 1))
  {
    assert !MatchesAtStart(ExamplePatterns[0], ExampleMatcher, s);
    assert MatchesAtStart(ExamplePatterns[1], ExampleMatcher, s);
  }

  lemma ExampleRecognizesParenthesis(s: string)
    requires |s| >= 1 && (s[0] == '(' || s[0] == ')')
    ensures RecognizeToken(ExamplePatterns, ExampleMatcher, s) == Ok(Token("parentheses", [s[0]], 0, 1))
  {
    assert !MatchesAtStart(ExamplePatterns[0], ExampleMatcher, s);
    assert !MatchesAtStart(ExamplePatterns[1], ExampleMatcher, s);
    assert MatchesAtStart(ExamplePatterns[2], ExampleMatcher, s);
  }

  lemma ExampleRecognizesComment(s: string)
    requires |s| >= 3 && s[0] == '/' && s[1] == '/' && s[2] == '\n'
    ensures RecognizeToken(ExamplePatterns, ExampleMatcher, s) == Ok(Token("comment", "//\n", 0, 3))
  {
    assert MatchesAtStart(ExamplePatterns[0], ExampleMatcher, s);
  }

  /** The example run, one loop turn per lemma, from the last character back. */
  predicate IsExampleText(text: string)
  {
    |text| == 7 && text[0] == '/' && text[1] == '/' && text[2] == '\n' && text[3] == ' ' &&
    text[4] == '(' && text[5] == ')' && text[6] == ' '
  }

  lemma ExampleFrom6(text: string)
    requires IsExampleText(text)
    ensures MatchesAdvance(ExamplePatterns, ExampleMatcher)
    ensures TokenizeFrom(ExamplePatterns, ExampleMatcher, text, 6) == Ok([Token("end", "", 7, 7)])
  {
    ExampleMatcherAdvances();
    ExampleRecognizesBlank(text[6..]);
    TokenizeUnfold(ExamplePatterns, ExampleMatcher, text, 6, Token("whitespace", " ", 0, 1));
    TokenizeStops(ExamplePatterns, ExampleMatcher, text, 7, []);
    PrependNothing(TokenizeFrom(ExamplePatterns, ExampleMatcher, text, 7));
  }

  lemma ExampleFrom5(text: string)
    requires IsExampleText(text)
    ensures MatchesAdvance(ExamplePatterns, ExampleMatcher)
    ensures TokenizeFrom(ExamplePatterns, ExampleMatcher, text, 5) ==
      Ok([Token("parentheses", ")", 5, 6), Token("end", "", 7, 7)])
  {
    ExampleFrom6(text);
    ExampleRecognizesParenthesis(text[5..]);
    assert [text[5..][0]] == ")";
    TokenizeUnfold(ExamplePatterns, ExampleMatcher, text, 5, Token("parentheses", ")", 0, 1));
    assert [Token("parentheses", ")", 5, 6)] + [Token("end", "", 7, 7)] ==
      [Token("parentheses", ")", 5, 6), Token("end", "", 7, 7)];
  }

  lemma ExampleFrom4(text: string)
    requires IsExampleText(text)
    ensures MatchesAdvance(ExamplePatterns, ExampleMatcher)
    ensures TokenizeFrom(ExamplePatterns, ExampleMatcher, text, 4) ==
      Ok([Token("parentheses", "(", 4, 5), Token("parentheses", ")", 5, 6), Token("end", "", 7, 7)])
  {
    ExampleFrom5(text);
    ExampleRecognizesParenthesis(text[4..]);
    assert [text[4..][0]] == "(";
    TokenizeUnfold(ExamplePatterns, ExampleMatcher, text, 4, Token("parentheses", "(", 0, 1));
    assert [Token("parentheses", "(", 4, 5)] + [Token("parentheses", ")", 5, 6), Token("end", "", 7, 7)] ==
      [Token("parentheses", "(", 4, 5), Token("parentheses", ")", 5, 6), Token("end", "", 7, 7)];
  }

  lemma ExampleFrom0(text: string)
    requires IsExampleText(text)
    ensures MatchesAdvance(ExamplePatterns, ExampleMatcher)
    ensures TokenizeFrom(ExamplePatterns, ExampleMatcher, text, 0) ==
      Ok([Token("parentheses", "(", 4, 5), Token("parentheses", ")", 5, 6), Token("end", "", 7, 7)])
  {
    ExampleFrom4(text);
    ExampleRecognizesBlank(text[3..]);
    TokenizeUnfold(ExamplePatterns, ExampleMatcher, text, 3, Token("whitespace", " ", 0, 1));
    assert text[0..] == text;
    ExampleRecognizesComment(text[0..]);
    TokenizeUnfold(ExamplePatterns, ExampleMatcher, text, 0, Token("comment", "//\n", 0, 3));
  }

  /** "//\n () " yields "(" at 4..5, ")" at 5..6 and the end token at 7..7:
      the comment and both blanks are dropped. */
  lemma TokenizeParenthesesExample()
    ensures MatchesAdvance(ExamplePatterns, ExampleMatcher)
    ensures TokenizeFrom(ExamplePatterns, ExampleMatcher, "//\n () ", 0) ==
      Ok([Token("parentheses", "(", 4, 5), Token("parentheses", ")", 5, 6), Token("end", "", 7, 7)])
  {
    ExampleFrom0("//\n () ");
  }
}
