/** `Parsing::ChainParser` (src/components/parsing/ChainParser.cpp): a run of
    elements separated by a separator token, where a rule decides after each
    element whether the separator may be left out. */
module ChainParsers {
  import opened Wrappers
  import opened Tokens
  import opened Expressions
  import opened Parsing

  /** The element parser: whether it applies at a position, and the parse. */
  datatype Element = Element(canParseAt: (seq<Token>, int) -> bool, parse: Parser)

  /** A separator-optionality rule; the rules of the language index the
      token list and may throw. */
  type Rule = (seq<Token>, int) -> Result<bool>

  datatype Chain = Chain(kind: string, separator: string, element: Element, separatorOptional: Rule)

  /** Reported for every element that does not end after its start and
      within the token list, and for an empty separator matching the end
      token. The source loops for ever only in the last case and for an
      element ending at its start with no separator after it where the rule
      makes the separator optional; otherwise it skips the separators that
      follow, raises the missing-separator error, steps back, or reads the
      end token past the list, and carries on. */
  const NoProgress := "ChainParser: no progress"

  /** What makes the source's loops terminate: a non-empty separator and an
      element parser that, where it applies, ends after its start and within
      the token list. */
  ghost predicate ChainWellFormed(c: Chain, tokens: seq<Token>)
  {
    c.separator != "" &&
    forall p :: c.element.canParseAt(tokens, p) && c.element.parse(tokens, p).Ok? ==>
      p < c.element.parse(tokens, p).value.endPos <= |tokens|
  }

  /** The inner loop: skips every separator token from `cursor` on. */
  function SkipSeparators(tokens: seq<Token>, separator: string, cursor: int): (r: Result<int>)
    requires |tokens| > 0
    ensures r.Ok? ==> cursor <= r.value
    ensures r.Ok? ==> forall k :: cursor <= k < r.value ==> 0 <= k < |tokens| && tokens[k].value == separator
    ensures r.Ok? ==> PeekAt(tokens, r.value).Ok? && PeekAt(tokens, r.value).value.value != separator
    ensures r.Ok? && cursor <= |tokens| ==> r.value <= |tokens|
    ensures cursor >= 0 && separator != "" ==> r.Ok?
    decreases if cursor < |tokens| then |tokens| - cursor else 0
  {
    var token :- PeekAt(tokens, cursor);
    if token.value != separator then Ok(cursor)
    else if cursor >= |tokens| then Err(NoProgress)
    else SkipSeparators(tokens, separator, cursor + 1)
  }

  /** The outer loop from `cursor`, with `parsed` the elements read so far:
      the elements and the final cursor. */
  function Elements(c: Chain, tokens: seq<Token>, cursor: int, parsed: seq<Node>): Result<(seq<Node>, int)>
    requires |tokens| > 0
    decreases if cursor < |tokens| then |tokens| - cursor else 0
  {
    if !c.element.canParseAt(tokens, cursor) then Ok((parsed, cursor))
    else
      var e :- c.element.parse(tokens, cursor);
      if e.endPos <= cursor || e.endPos > |tokens| then Err(NoProgress)
      else
        var optional :- c.separatorOptional(tokens, e.endPos);
        var next :- PeekAt(tokens, e.endPos);
        if !optional && next.value != c.separator then
          Err("Expected a separator character '" + c.separator + "' to follow but '" +
              next.value + "' was encountered instead")
        else
          var after :- SkipSeparators(tokens, c.separator, e.endPos);
          Elements(c, tokens, after, parsed + [e])
  }

  /** "open" when the chain's last token is not a separator, "closed" when it
      is or the chain ends at position 0; `vector::at` throws past the
      end. */
  function Openness(tokens: seq<Token>, separator: string, cursor: int): (r: Result<string>)
    ensures r == Ok("open") <==> 0 < cursor <= |tokens| && tokens[cursor - 1].value != separator
    ensures r == Ok("closed") <==> cursor <= 0 || (cursor <= |tokens| && tokens[cursor - 1].value == separator)
    ensures r.Err? <==> cursor > |tokens| && cursor > 0
  {
    if cursor > 0 then
      if cursor - 1 < |tokens| then Ok(if tokens[cursor - 1].value != separator then "open" else "closed")
      else Err("vector::at: position out of range")
    else Ok("closed")
  }

  /** `parse`: the elements, then the node of the chain's type spanning from
      `position` to the final cursor, with the openness as a sub-type. */
  function ChainParse(c: Chain, tokens: seq<Token>, position: int): Result<Node>
  {
    if |tokens| == 0 then Err("TokenSequence: empty token list")
    else
      var run :- Elements(c, tokens, position, []);
      var openness :- Openness(tokens, c.separator, run.1);
      Ok(Node(c.kind, position, run.1, run.0, [], map["openness" := openness]))
  }

  /** The loop stops exactly where the element parser does not apply; it keeps
      the elements read before; every element read adds one child and moves
      the cursor forward by at least one token. */
  lemma {:induction false} ElementsProgress(c: Chain, tokens: seq<Token>, cursor: int, parsed: seq<Node>)
    requires |tokens| > 0
    ensures var r := Elements(c, tokens, cursor, parsed);
      r.Ok? ==>
        !c.element.canParseAt(tokens, r.value.1) &&
        |parsed| <= |r.value.0| && r.value.0[..|parsed|] == parsed &&
        |r.value.0| - |parsed| <= r.value.1 - cursor &&
        (cursor <= |tokens| ==> r.value.1 <= |tokens|) &&
        (|r.value.0| > |parsed| ==> r.value.1 <= |tokens|)
    decreases if cursor < |tokens| then |tokens| - cursor else 0
  {
    if c.element.canParseAt(tokens, cursor) && Elements(c, tokens, cursor, parsed).Ok? {
      var e := c.element.parse(tokens, cursor).value;
      var after := SkipSeparators(tokens, c.separator, e.endPos).value;
      ElementsProgress(c, tokens, after, parsed + [e]);
      var r := Elements(c, tokens, after, parsed + [e]);
      assert r.value.0[..|parsed| + 1] == parsed + [e];
      assert r.value.0[..|parsed|] == (parsed + [e])[..|parsed|];
    }
  }

  /** The result of a chain: its type, its span from `position` to where the
      elements stop, at most one child per token it covers, and the openness
      of its last token. */
  lemma ChainParseShape(c: Chain, tokens: seq<Token>, position: int)
    ensures var r := ChainParse(c, tokens, position);
      r.Ok? ==>
        r.value.kind == c.kind && r.value.startPos == position &&
        !c.element.canParseAt(tokens, r.value.endPos) &&
        |r.value.children| <= r.value.endPos - position &&
        r.value.tokens == [] &&
        r.value.subTypes == map["openness" := Openness(tokens, c.separator, r.value.endPos).value]
  {
    if |tokens| > 0 {
      ElementsProgress(c, tokens, position, []);
    }
  }

  /** With no element at `position`, the chain is empty and spans
      `[position, position]`. */
  lemma ChainZeroElements(c: Chain, tokens: seq<Token>, position: int)
    requires |tokens| > 0 && 0 <= position <= |tokens|
    requires !c.element.canParseAt(tokens, position)
    ensures ChainParse(c, tokens, position) ==
      Ok(Node(c.kind, position, position, [], [], map["openness" := Openness(tokens, c.separator, position).value]))
  {
  }

  /** One turn of the outer loop: an element followed by a separator, or by
      anything where the rule makes the separator optional, is kept and the
      loop goes on after the separators. */
  lemma ElementsContinue(c: Chain, tokens: seq<Token>, cursor: int, parsed: seq<Node>)
    requires |tokens| > 0
    requires c.element.canParseAt(tokens, cursor) && c.element.parse(tokens, cursor).Ok?
    requires var e := c.element.parse(tokens, cursor).value;
      0 <= cursor < e.endPos < |tokens| && c.separatorOptional(tokens, e.endPos).Ok? &&
      (c.separatorOptional(tokens, e.endPos).value || tokens[e.endPos].value == c.separator) &&
      SkipSeparators(tokens, c.separator, e.endPos).Ok?
    ensures var e := c.element.parse(tokens, cursor).value;
      Elements(c, tokens, cursor, parsed) ==
      Elements(c, tokens, SkipSeparators(tokens, c.separator, e.endPos).value, parsed + [e])
  {
  }

  /** Wherever the outer loop stands, an element followed by something other
      than the separator, where the rule does not make it optional, ends the
      loop with the "Expected a separator" error naming both. */
  lemma ElementsMissingSeparator(c: Chain, tokens: seq<Token>, cursor: int, parsed: seq<Node>)
    requires |tokens| > 0
    requires c.element.canParseAt(tokens, cursor) && c.element.parse(tokens, cursor).Ok?
    requires var e := c.element.parse(tokens, cursor).value;
      0 <= cursor < e.endPos < |tokens| &&
      c.separatorOptional(tokens, e.endPos) == Ok(false) && tokens[e.endPos].value != c.separator
    ensures var e := c.element.parse(tokens, cursor).value;
      Elements(c, tokens, cursor, parsed) ==
      Err("Expected a separator character '" + c.separator + "' to follow but '" +
          tokens[e.endPos].value + "' was encountered instead")
  {
  }

  /** A missing separator after the first element fails the chain unless the
      rule makes it optional; later elements fail the same way once
      `ElementsContinue` has carried the loop to them. */
  lemma ChainMissingSeparator(c: Chain, tokens: seq<Token>, position: int)
    requires |tokens| > 0
    requires c.element.canParseAt(tokens, position) && c.element.parse(tokens, position).Ok?
    requires var e := c.element.parse(tokens, position).value;
      0 <= position < e.endPos < |tokens| &&
      c.separatorOptional(tokens, e.endPos) == Ok(false) && tokens[e.endPos].value != c.separator
    ensures ChainParse(c, tokens, position).Err?
  {
    ElementsMissingSeparator(c, tokens, position, []);
  }

  /** The element parser and the optionality rule never report the chain's
      own "no progress" error themselves. */
  ghost predicate NoStallReported(c: Chain, tokens: seq<Token>)
  {
    (forall p :: c.element.parse(tokens, p) != Err(NoProgress)) &&
    (forall p :: c.separatorOptional(tokens, p) != Err(NoProgress))
  }

  /** On a well-formed chain the outer loop always moves forward, and the
      model never reports the missing progress. */
  lemma {:induction false} ElementsNeverStall(c: Chain, tokens: seq<Token>, cursor: int, parsed: seq<Node>)
    requires |tokens| > 0 && 0 <= cursor <= |tokens|
    requires ChainWellFormed(c, tokens) && NoStallReported(c, tokens)
    ensures Elements(c, tokens, cursor, parsed) != Err(NoProgress)
    decreases |tokens| - cursor
  {
    if c.element.canParseAt(tokens, cursor) && c.element.parse(tokens, cursor).Ok? {
      var e := c.element.parse(tokens, cursor).value;
      if c.separatorOptional(tokens, e.endPos).Ok? {
        var after := SkipSeparators(tokens, c.separator, e.endPos);
        if after.Ok? {
          ElementsNeverStall(c, tokens, after.value, parsed + [e]);
        }
      }
    }
  }

  /** A well-formed chain parsed from inside the token list never ends in the
      "no progress" error. */
  lemma ChainNeverStalls(c: Chain, tokens: seq<Token>, position: int)
    requires 0 <= position <= |tokens|
    requires ChainWellFormed(c, tokens) && NoStallReported(c, tokens)
    ensures ChainParse(c, tokens, position) != Err(NoProgress)
  {
    if |tokens| > 0 {
      ElementsNeverStall(c, tokens, position, []);
    }
  }

  /** `parse` as the source runs it: an outer loop over elements with an inner
      loop skipping separators, on a cursor. */
  method ParseChain(c: Chain, tokens: seq<Token>, position: int) returns (r: Result<Node>)
    requires ChainWellFormed(c, tokens)
    ensures r == ChainParse(c, tokens, position)
  {
    if |tokens| == 0 {
      return Err("TokenSequence: empty token list");
    }
    var expressions: seq<Node> := [];
    var cursor := position;
    while c.element.canParseAt(tokens, cursor)
      invariant Elements(c, tokens, position, []) == Elements(c, tokens, cursor, expressions)
      decreases |tokens| - cursor
    {
      var parsed := c.element.parse(tokens, cursor);
      if parsed.Err? {
        return Err(parsed.msg);
      }
      var e := parsed.value;
      ghost var before := cursor;
      expressions := expressions + [e];
      cursor := e.endPos;
      var optional := c.separatorOptional(tokens, cursor);
      if optional.Err? {
        return Err(optional.msg);
      }
      var next := PeekAt(tokens, cursor);
      if next.Err? {
        return Err(next.msg);
      }
      if !optional.value && next.value.value != c.separator {
        return Err("Expected a separator character '" + c.separator + "' to follow but '" +
                   next.value.value + "' was encountered instead");
      }
      while true
        invariant e.endPos <= cursor <= |tokens|
        invariant SkipSeparators(tokens, c.separator, e.endPos) == SkipSeparators(tokens, c.separator, cursor)
        decreases |tokens| - cursor
      {
        var token := PeekAt(tokens, cursor);
        if token.Err? {
          return Err(token.msg);
        }
        if token.value.value != c.separator {
          break;
        }
        cursor := cursor + 1;
      }
      assert before < cursor <= |tokens|;
    }
    var openness := Openness(tokens, c.separator, cursor);
    if openness.Err? {
      return Err(openness.msg);
    }
    r := Ok(Node(c.kind, position, cursor, expressions, [], map["openness" := openness.value]));
  }
}
