/** `MapParser` (src/components/parsing/MapParser.cpp) and its older twin
    `ExpressionMap` (src/components/parsing/ExpressionMap.cpp): choose the
    parser by the type of the next token. The registered constructors are a
    map from token type to parser. */
module MapParsers {
  import opened Wrappers
  import opened Tokens
  import opened Expressions
  import opened Parsing
  import opened Decimal

  /** `parseWith`: runs the parser registered for `kind`, whatever token is
      at `position`; `map::at` throws for an unregistered type. */
  function MapParseWith(constructors: map<string, Parser>, kind: string, tokens: seq<Token>, position: int): (r: Result<Node>)
    ensures kind in constructors ==> r == constructors[kind](tokens, position)
    ensures kind !in constructors ==> r.Err?
  {
    if kind in constructors then constructors[kind](tokens, position)
    else Err("map::at: key not found")
  }

  /** `parse`: peeks at the token at `position` without consuming it and
      dispatches on its type. */
  function MapParse(constructors: map<string, Parser>, tokens: seq<Token>, position: int): Result<Node>
  {
    var token :- PeekAt(tokens, position);
    if token.kind in constructors then MapParseWith(constructors, token.kind, tokens, position)
    else Err("Unexpected token '" + token.kind + "' found at position " + IntToString(position))
  }

  /** Dispatch keeps progress: if every registered parser advances, so does
      the map parser. */
  lemma MapParseAdvances(constructors: map<string, Parser>, tokens: seq<Token>)
    requires forall kind :: kind in constructors ==> Advances(constructors[kind], tokens)
    ensures Advances((ts, p) => MapParse(constructors, ts, p), tokens)
  {
    forall p | MapParse(constructors, tokens, p).Ok?
      ensures p < MapParse(constructors, tokens, p).value.endPos
    {
      var kind := PeekAt(tokens, p).value.kind;
      assert Advances(constructors[kind], tokens);
    }
  }

  /** `ExpressionMap` keeps its own cursor over a fixed token list; `parse`
      moves it to the requested position before peeking. */
  class ExpressionMap {
    const tokens: seq<Token>
    const constructors: map<string, Parser>
    var cursor: int

    constructor (tokens: seq<Token>, constructors: map<string, Parser>)
      ensures this.tokens == tokens && this.constructors == constructors && cursor == 0
    {
      this.tokens := tokens;
      this.constructors := constructors;
      cursor := 0;
    }

    method Parse(position: int) returns (r: Result<Node>)
      modifies this
      ensures cursor == position
      ensures r == MapParse(constructors, tokens, position)
    {
      cursor := position;
      var token := PeekAt(tokens, cursor);
      if token.Err? {
        return Err(token.msg);
      }
      if token.value.kind in constructors {
        r := ParseWith(token.value.kind, position);
      } else {
        r := Err("Unexpected token '" + token.value.kind + "' found at position " + IntToString(position));
      }
    }

    method ParseWith(kind: string, position: int) returns (r: Result<Node>)
      ensures r == MapParseWith(constructors, kind, tokens, position)
    {
      if kind in constructors {
        var parse := constructors[kind];
        r := parse(tokens, position);
      } else {
        r := Err("map::at: key not found");
      }
    }
  }
}
