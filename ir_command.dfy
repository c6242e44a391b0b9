/** `MyLanguage::IRCommand` (src/my-language/ir-generator/IRCommand.cpp): a
    command of the intermediate representation, its type and parameters,
    and its textual form. */
module IRCommands {

  /** A parameter: a single variable or a list of variables. */
  datatype Param = Variable(name: string) | VariableList(names: seq<string>)

  /** An IR command: its type and parameters, read back unchanged by
      `type()` and `params()`. */
  datatype IRCommand = IRCommand(kind: string, params: seq<Param>)

  /** Reference rendering: the items separated by ", ". */
  function Join(items: seq<string>): (s: string)
    ensures items == [] ==> s == ""
    ensures |items| == 1 ==> s == items[0]
  {
    if items == [] then "" else items[0] + Separated(items[1..])
  }

  /** Each item preceded by ", ". */
  function Separated(items: seq<string>): string
  {
    if items == [] then "" else ", " + items[0] + Separated(items[1..])
  }

  /** Reference rendering of one parameter: a variable as itself, a list in
      square brackets. */
  function Render(p: Param): (s: string)
    ensures p.Variable? ==> s == p.name
    ensures p.VariableList? ==> s == "[" + Join(p.names) + "]"
  {
    match p
    case Variable(name) => name
    case VariableList(names) => "[" + Join(names) + "]"
  }

  function RenderAll(params: seq<Param>): seq<string>
  {
    seq(|params|, i requires 0 <= i < |params| => Render(params[i]))
  }

  /** The inner `accumulate` over a list: the first variable replaces the
      accumulator, each later one is appended after ", ". */
  function FoldList(names: seq<string>, acc: string, first: bool): string
  {
    if names == [] then acc
    else FoldList(names[1..], if first then names[0] else acc + ", " + names[0], false)
  }

  /** One parameter as the outer `accumulate` renders it: a list through
      the inner fold, in square brackets. */
  function RenderFolded(p: Param): string
  {
    match p
    case Variable(name) => name
    case VariableList(names) => "[" + FoldList(names, "", true) + "]"
  }

  /** The outer `accumulate`: each parameter is appended, after ", " unless
      it is the first. */
  function FoldParams(params: seq<Param>, acc: string, first: bool): string
  {
    if params == [] then acc
    else FoldParams(params[1..], acc + (if first then "" else ", ") + RenderFolded(params[0]), false)
  }

  /** `toString`: the type, then the parameters in parentheses. */
  function ToString(c: IRCommand): string
  {
    c.kind + "(" + FoldParams(c.params, "", true) + ")"
  }

  /** Once past the first item, the fold appends each item after ", ". */
  lemma {:induction false} FoldListContinues(names: seq<string>, acc: string)
    ensures FoldList(names, acc, false) == acc + Separated(names)
    decreases |names|
  {
    if names != [] {
      FoldListContinues(names[1..], acc + ", " + names[0]);
      assert acc + ", " + names[0] + Separated(names[1..]) == acc + Separated(names);
    }
  }

  /** The list fold joins the variables with ", ". */
  lemma FoldListJoins(names: seq<string>)
    ensures FoldList(names, "", true) == Join(names)
  {
    if names != [] {
      FoldListContinues(names[1..], names[0]);
    }
  }

  /** The fold renders each parameter as the reference does. */
  lemma RenderFoldedIsRender(p: Param)
    ensures RenderFolded(p) == Render(p)
  {
    if p.VariableList? {
      FoldListJoins(p.names);
    }
  }

  lemma {:induction false} FoldParamsContinues(params: seq<Param>, acc: string)
    ensures FoldParams(params, acc, false) == acc + Separated(RenderAll(params))
    decreases |params|
  {
    if params != [] {
      var text := Render(params[0]);
      var rest := RenderAll(params[1..]);
      RenderFoldedIsRender(params[0]);
      assert FoldParams(params, acc, false) == FoldParams(params[1..], acc + ", " + text, false);
      FoldParamsContinues(params[1..], acc + ", " + text);
      assert RenderAll(params) == [text] + rest;
      assert Separated([text] + rest) == ", " + text + Separated(rest) by {
        assert ([text] + rest)[1..] == rest;
      }
      assert (acc + ", ") + text == acc + (", " + text);
      assert (acc + ", " + text) + Separated(rest) == acc + (", " + text + Separated(rest));
    }
  }

  /** The parameter fold joins the rendered parameters with ", ". */
  lemma FoldParamsJoins(params: seq<Param>)
    ensures FoldParams(params, "", true) == Join(RenderAll(params))
  {
    if params != [] {
      var text := Render(params[0]);
      RenderFoldedIsRender(params[0]);
      assert FoldParams(params, "", true) == FoldParams(params[1..], "" + "" + text, false);
      assert "" + "" + text == text;
      FoldParamsContinues(params[1..], text);
      var rendered := RenderAll(params);
      assert rendered[0] == text && rendered[1..] == RenderAll(params[1..]);
      assert Join(rendered) == text + Separated(RenderAll(params[1..]));
    }
  }

  /** `toString` is the type followed by the rendered parameters joined with
      ", " in parentheses; with no parameters, the type followed by "()". */
  lemma ToStringJoins(c: IRCommand)
    ensures ToString(c) == c.kind + "(" + Join(RenderAll(c.params)) + ")"
    ensures c.params == [] ==> ToString(c) == c.kind + "()"
  {
    FoldParamsJoins(c.params);
    if c.params == [] {
      assert c.kind + "(" + "" + ")" == c.kind + "()";
    }
  }

  /** The list fold on two variables: "x1, x2". */
  lemma FoldListExample()
    ensures FoldList(["x1", "x2"], "", true) == "x1, x2"
  {
    assert FoldList(["x1", "x2"], "", true) == FoldList(["x2"], "x1", false);
    assert FoldList(["x2"], "x1", false) == FoldList([], "x1" + ", " + "x2", false);
  }

  /** The parameters of the worked rendering below. */
  const CallParams: seq<Param> := [Variable("f"), VariableList(["x1", "x2"]), Variable("x3")]

  lemma CallParamsFold()
    ensures FoldParams(CallParams, "", true) == "f, [x1, x2], x3"
  {
    var list := "[" + "x1, x2" + "]";
    assert RenderFolded(CallParams[1]) == list by {
      FoldListExample();
    }
    assert FoldParams(CallParams, "", true) == FoldParams(CallParams[1..], "f", false) by {
      assert "" + "" + "f" == "f";
    }
    assert FoldParams(CallParams[1..], "f", false) == FoldParams(CallParams[2..], "f" + ", " + list, false);
    assert FoldParams(CallParams[2..], "f" + ", " + list, false) == "f" + ", " + list + ", " + "x3" by {
      assert CallParams[2..][1..] == [];
    }
  }

  /** Worked rendering: `Call(f, [x1, x2], x3)`. */
  lemma ToStringCallExample()
    ensures ToString(IRCommand("Call", CallParams)) == "Call(f, [x1, x2], x3)"
  {
    CallParamsFold();
  }

  /** An empty list parameter renders as "[]". */
  lemma ToStringEmptyListExample()
    ensures ToString(IRCommand("Call", [VariableList([])])) == "Call([])"
  {
    var params := [VariableList([])];
    assert RenderFolded(params[0]) == "[]";
    assert FoldParams(params, "", true) == FoldParams([], "[]", false) by {
      assert params[1..] == [];
      assert "" + "" + "[]" == "[]";
    }
  }
}
