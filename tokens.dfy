/** Tokens (src/components/tokenization/DToken.h) and the cursor the parsers
    read them through (src/components/parsing/TokenSequence.cpp). */
module Tokens {
  import opened Wrappers

  /** A token: its type, the matched text and its span of character offsets.
      The two `Location` fields of the source's token only feed error messages
      and are not carried. */
  datatype Token = Token(kind: string, value: string, startPos: int, endPos: int)

  /** The synthetic token read past the last one: type "end", empty value,
      starting and ending where the last real token ends. */
  function EndToken(tokens: seq<Token>): Token
    requires |tokens| > 0
  {
    Token("end", "", tokens[|tokens| - 1].endPos, tokens[|tokens| - 1].endPos)
  }

  /** `peek` at a given cursor position. A negative position makes
      `vector::at` throw, since it converts the index to an unsigned size.
      An empty list fails the assertion in the constructor before any read;
      the parsers, which build a fresh cursor on every call, see that as an
      error too. */
  function PeekAt(tokens: seq<Token>, position: int): Result<Token>
  {
    if |tokens| == 0 then Err("TokenSequence: empty token list")
    else if position < |tokens| then
      if position < 0 then Err("vector::at: position out of range") else Ok(tokens[position])
    else
      Ok(EndToken(tokens))
  }

  /** What `peek` yields: the token itself inside the list, the synthetic end
      token at and past the end, and an error only before the start. */
  lemma PeekAtCases(tokens: seq<Token>, position: int)
    ensures PeekAt(tokens, position).Ok? <==> |tokens| > 0 && position >= 0
    ensures 0 <= position < |tokens| ==> PeekAt(tokens, position).value == tokens[position]
    ensures 0 < |tokens| <= position ==>
      PeekAt(tokens, position).value.kind == "end" &&
      PeekAt(tokens, position).value.value == "" &&
      PeekAt(tokens, position).value.startPos == tokens[|tokens| - 1].endPos &&
      PeekAt(tokens, position).value.endPos == tokens[|tokens| - 1].endPos
  {
  }

  /** A cursor over a token list that it does not own or change. */
  class TokenSequence {
    const tokens: seq<Token>
    var position: int

    constructor (tokens: seq<Token>)
      requires |tokens| != 0
      ensures this.tokens == tokens && position == 0
    {
      this.tokens := tokens;
      position := 0;
    }

    /** Reads the token under the cursor without moving it. */
    method Peek() returns (r: Result<Token>)
      requires |tokens| != 0
      ensures r == PeekAt(tokens, position)
    {
      if position < |tokens| {
        if position < 0 {
          r := Err("vector::at: position out of range");
        } else {
          r := Ok(tokens[position]);
        }
      } else {
        var last := tokens[|tokens| - 1];
        r := Ok(Token("end", "", last.endPos, last.endPos));
      }
    }

    /** Returns what `Peek` returns and advances the cursor by exactly one,
        also past the end; when `peek` throws the cursor does not move. */
    method Consume() returns (r: Result<Token>)
      requires |tokens| != 0
      modifies this
      ensures r == PeekAt(tokens, old(position))
      ensures position == if r.Ok? then old(position) + 1 else old(position)
    {
      r := Peek();
      if r.Ok? {
        position := position + 1;
      }
    }

    method SetPosition(p: int)
      modifies this
      ensures position == p
    {
      position := p;
    }
  }
}
