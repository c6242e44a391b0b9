/** `ConflictParser` (src/components/parsing/ConflictParser.cpp): tries every
    candidate parser at the same position and keeps the longest result. */
module ConflictParsers {
  import opened Wrappers
  import opened Tokens
  import opened Expressions
  import opened Parsing

  /** A failed candidate becomes the placeholder node "none" spanning
      (-1, -1). */
  function Outcome(r: Result<Node>): (n: Node)
    ensures r.Ok? ==> n == r.value
    ensures r.Err? ==> n.endPos == -1 && n.kind == "none"
  {
    if r.Ok? then r.value else Leaf("none", -1, -1)
  }

  /** `std::max_element` with "ends earlier" as the order: the first
      candidate among those that end last. */
  function Longest(candidates: seq<Node>): (i: nat)
    requires |candidates| > 0
    ensures i < |candidates|
    ensures forall j :: 0 <= j < |candidates| ==> candidates[j].endPos <= candidates[i].endPos
    ensures forall j :: 0 <= j < i ==> candidates[j].endPos < candidates[i].endPos
  {
    if |candidates| == 1 then 0
    else
      var k := Longest(candidates[..|candidates| - 1]);
      if candidates[k].endPos < candidates[|candidates| - 1].endPos then |candidates| - 1 else k
  }

  /** The candidates' outcomes, in candidate order. */
  function Outcomes(parsers: seq<Parser>, tokens: seq<Token>, position: int): (s: seq<Node>)
    ensures |s| == |parsers|
    ensures forall i :: 0 <= i < |parsers| ==> s[i] == Outcome(parsers[i](tokens, position))
  {
    seq(|parsers|, i requires 0 <= i < |parsers| => Outcome(parsers[i](tokens, position)))
  }

  /** `parse`: the longest outcome, unless even that is a placeholder. An
      empty candidate list leaves `max_element` undefined. */
  function ConflictParse(parsers: seq<Parser>, tokens: seq<Token>, position: int): (r: Result<Node>)
    requires |parsers| > 0
    ensures r.Ok? ==> exists i :: 0 <= i < |parsers| && parsers[i](tokens, position) == Ok(r.value)
    ensures r.Ok? ==> forall j :: 0 <= j < |parsers| && parsers[j](tokens, position).Ok? ==>
      parsers[j](tokens, position).value.endPos <= r.value.endPos
  {
    var outcomes := Outcomes(parsers, tokens, position);
    var best := outcomes[Longest(outcomes)];
    if best.endPos == -1 then Err("No parsing rule could be matched")
    else Ok(best)
  }

  /** On a tie the earliest candidate wins: every candidate before the chosen
      one ends strictly earlier or failed. */
  lemma ConflictPrefersEarliest(parsers: seq<Parser>, tokens: seq<Token>, position: int)
    requires |parsers| > 0
    ensures ConflictParse(parsers, tokens, position).Ok? ==>
      exists i :: 0 <= i < |parsers| &&
        parsers[i](tokens, position) == ConflictParse(parsers, tokens, position) &&
        forall j :: 0 <= j < i && parsers[j](tokens, position).Ok? ==>
          parsers[j](tokens, position).value.endPos < ConflictParse(parsers, tokens, position).value.endPos
  {
    var outcomes := Outcomes(parsers, tokens, position);
    var i := Longest(outcomes);
    if ConflictParse(parsers, tokens, position).Ok? {
      assert parsers[i](tokens, position).Ok?;
    }
  }

  /** When successful trees never end before position 0, the conflict parser
      fails exactly when every candidate fails. */
  lemma ConflictFailsIffAllFail(parsers: seq<Parser>, tokens: seq<Token>, position: int)
    requires |parsers| > 0
    requires forall i :: 0 <= i < |parsers| && parsers[i](tokens, position).Ok? ==>
      parsers[i](tokens, position).value.endPos >= 0
    ensures ConflictParse(parsers, tokens, position).Err? <==>
      forall i :: 0 <= i < |parsers| ==> parsers[i](tokens, position).Err?
  {
    var outcomes := Outcomes(parsers, tokens, position);
    var k := Longest(outcomes);
    if forall i :: 0 <= i < |parsers| ==> parsers[i](tokens, position).Err? {
      assert outcomes[k].endPos == -1;
    } else {
      var i :| 0 <= i < |parsers| && parsers[i](tokens, position).Ok?;
      assert outcomes[i].endPos >= 0;
    }
  }

  /** The conflict parser advances when all its candidates do. */
  lemma ConflictAdvances(parsers: seq<Parser>, tokens: seq<Token>)
    requires |parsers| > 0
    requires forall i :: 0 <= i < |parsers| ==> Advances(parsers[i], tokens)
    ensures Advances((ts, p) => ConflictParse(parsers, ts, p), tokens)
  {
    forall p | ConflictParse(parsers, tokens, p).Ok?
      ensures p < ConflictParse(parsers, tokens, p).value.endPos
    {
      var i :| 0 <= i < |parsers| && parsers[i](tokens, p) == Ok(ConflictParse(parsers, tokens, p).value);
      assert Advances(parsers[i], tokens);
    }
  }
}
