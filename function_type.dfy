/** `MyLanguage::FunctionType` (src/my-language/type-checker/FunctionType.cpp):
    the type of a function and its textual form. The text of a plain type
    comes from its own `toString`, which is not part of this model: a
    `Named` type stands for a type whose text is given. */
module FunctionTypes {
  import opened IRCommands
  import opened Texts

  /** A type: one whose text is given, or a function type with its
      parameter types and return type (read back by `parameterTypes()` and
      `returnType()`). */
  datatype TypeValue =
    | Named(text: string)
    | FunctionType(parameterTypes: seq<TypeValue>, returnType: TypeValue)

  /** The `accumulate` as written: the flag that should add ", " before all
      but the first parameter is cleared only after the `return`, so it is
      never cleared and no separator is ever added. */
  function FoldAsWritten(parameters: seq<string>, acc: string, first: bool): string
  {
    if parameters == [] then acc
    else FoldAsWritten(parameters[1..], (if first then acc else acc + ", ") + parameters[0], first)
  }

  /** `toString` as written. */
  function ToStringAsWritten(t: TypeValue): string
    decreases t, 1
  {
    match t
    case Named(text) => text
    case FunctionType(parameters, returned) =>
      FoldAsWritten(RenderedAsWritten(parameters), "(", true) + ")" + " => " + ToStringAsWritten(returned)
  }

  /** The parameter types' texts, as written. */
  function RenderedAsWritten(parameters: seq<TypeValue>): (texts: seq<string>)
    ensures |texts| == |parameters|
    decreases parameters, 0
  {
    seq(|parameters|, i requires 0 <= i < |parameters| => ToStringAsWritten(parameters[i]))
  }

  lemma {:induction false} FoldAsWrittenConcatenates(parameters: seq<string>, acc: string)
    ensures FoldAsWritten(parameters, acc, true) == acc + Concatenated(parameters)
    decreases |parameters|
  {
    if parameters != [] {
      FoldAsWrittenConcatenates(parameters[1..], acc + parameters[0]);
      assert (acc + parameters[0]) + Concatenated(parameters[1..]) == acc + (parameters[0] + Concatenated(parameters[1..]));
    }
  }

  /** As written, the parameter texts are run together inside the
      parentheses; with no parameters the text is "() => " and the return
      type. */
  lemma ToStringAsWrittenRunsTogether(parameters: seq<TypeValue>, returned: TypeValue)
    ensures ToStringAsWritten(FunctionType(parameters, returned)) ==
      "(" + Concatenated(RenderedAsWritten(parameters)) + ") => " + ToStringAsWritten(returned)
    ensures parameters == [] ==> ToStringAsWritten(FunctionType(parameters, returned)) == "() => " + ToStringAsWritten(returned)
  {
    var inner := "(" + Concatenated(RenderedAsWritten(parameters));
    FoldAsWrittenConcatenates(RenderedAsWritten(parameters), "(");
    assert (inner + ")") + " => " == inner + (")" + " => ");
    if parameters == [] {
      assert inner == "(";
    }
  }

  /** As written, (int, bool) => int is written "(intbool) => int". */
  lemma AsWrittenTwoParameters()
    ensures ToStringAsWritten(FunctionType([Named("int"), Named("bool")], Named("int"))) == "(intbool) => int"
  {
    ToStringAsWrittenRunsTogether([Named("int"), Named("bool")], Named("int"));
    var two := RenderedAsWritten([Named("int"), Named("bool")]);
    assert two == ["int", "bool"];
    assert Concatenated(two) == "intbool" by {
      assert two[1..] == ["bool"];
      assert Concatenated(["bool"]) == "bool";
    }
  }

  /** As written, (intbool) => int is written "(intbool) => int" too. */
  lemma AsWrittenOneParameter()
    ensures ToStringAsWritten(FunctionType([Named("intbool")], Named("int"))) == "(intbool) => int"
  {
    ToStringAsWrittenRunsTogether([Named("intbool")], Named("int"));
    var one := RenderedAsWritten([Named("intbool")]);
    assert one == ["intbool"];
    assert Concatenated(one) == "intbool";
  }

  /** Two different function types, (int, bool) => int and (intbool) => int,
      get the same text. */
  lemma AsWrittenMergesParameters()
    ensures FunctionType([Named("int"), Named("bool")], Named("int")) != FunctionType([Named("intbool")], Named("int"))
    ensures ToStringAsWritten(FunctionType([Named("int"), Named("bool")], Named("int"))) ==
      ToStringAsWritten(FunctionType([Named("intbool")], Named("int")))
  {
    AsWrittenTwoParameters();
    AsWrittenOneParameter();
  }

  /** The `accumulate` as intended: the flag is cleared after the first
      parameter, so every later one follows ", ". */
  function FoldIntended(parameters: seq<string>, acc: string, first: bool): string
  {
    if parameters == [] then acc
    else FoldIntended(parameters[1..], (if first then acc else acc + ", ") + parameters[0], false)
  }

  /** `toString` as intended. */
  function ToStringIntended(t: TypeValue): string
    decreases t, 1
  {
    match t
    case Named(text) => text
    case FunctionType(parameters, returned) =>
      FoldIntended(RenderedIntended(parameters), "(", true) + ")" + " => " + ToStringIntended(returned)
  }

  /** The parameter types' texts, as intended. */
  function RenderedIntended(parameters: seq<TypeValue>): (texts: seq<string>)
    ensures |texts| == |parameters|
    decreases parameters, 0
  {
    seq(|parameters|, i requires 0 <= i < |parameters| => ToStringIntended(parameters[i]))
  }

  lemma {:induction false} FoldIntendedContinues(parameters: seq<string>, acc: string)
    ensures FoldIntended(parameters, acc, false) == acc + Separated(parameters)
    decreases |parameters|
  {
    if parameters != [] {
      FoldIntendedContinues(parameters[1..], acc + ", " + parameters[0]);
      assert (acc + ", ") + parameters[0] == acc + (", " + parameters[0]);
      assert (acc + ", " + parameters[0]) + Separated(parameters[1..]) == acc + (", " + parameters[0] + Separated(parameters[1..]));
    }
  }

  /** As intended, the parameter texts are joined with ", ". */
  lemma ToStringIntendedJoins(parameters: seq<TypeValue>, returned: TypeValue)
    ensures ToStringIntended(FunctionType(parameters, returned)) ==
      "(" + Join(RenderedIntended(parameters)) + ") => " + ToStringIntended(returned)
  {
    var rendered := RenderedIntended(parameters);
    if rendered != [] {
      assert FoldIntended(rendered, "(", true) == FoldIntended(rendered[1..], "(" + rendered[0], false);
      FoldIntendedContinues(rendered[1..], "(" + rendered[0]);
      assert ("(" + rendered[0]) + Separated(rendered[1..]) == "(" + (rendered[0] + Separated(rendered[1..]));
    }
    assert FoldIntended(rendered, "(", true) == "(" + Join(rendered);
    assert ("(" + Join(rendered) + ")") + " => " == "(" + Join(rendered) + (")" + " => ");
  }

  /** The intended text separates the parameters: (int, bool) => int is
      written "(int, bool) => int". */
  lemma IntendedSeparatesParameters()
    ensures ToStringIntended(FunctionType([Named("int"), Named("bool")], Named("int"))) == "(int, bool) => int"
  {
    ToStringIntendedJoins([Named("int"), Named("bool")], Named("int"));
    var two := RenderedIntended([Named("int"), Named("bool")]);
    assert two == ["int", "bool"];
    assert Join(two) == "int, bool" by {
      assert two[1..] == ["bool"];
      assert Separated(["bool"]) == ", bool";
    }
  }

  /** The other type the as-written text merges with it keeps its own text,
      "(intbool) => int". */
  lemma IntendedKeepsSingleParameter()
    ensures ToStringIntended(FunctionType([Named("intbool")], Named("int"))) == "(intbool) => int"
  {
    ToStringIntendedJoins([Named("intbool")], Named("int"));
    assert RenderedIntended([Named("intbool")]) == ["intbool"];
  }

  /** As intended, the two types the as-written text merges are told
      apart. */
  lemma IntendedDistinguishesParameters()
    ensures ToStringIntended(FunctionType([Named("int"), Named("bool")], Named("int"))) !=
      ToStringIntended(FunctionType([Named("intbool")], Named("int")))
  {
    IntendedSeparatesParameters();
    IntendedKeepsSingleParameter();
    assert "(int, bool) => int"[4] != "(intbool) => int"[4];
  }

  /** With at most one parameter, and plain parameter and return types, the
      two texts agree: the bug shows only from two parameters on. */
  lemma AgreeOnOneParameter(parameters: seq<TypeValue>, returned: TypeValue)
    requires |parameters| <= 1 && returned.Named?
    requires forall i :: 0 <= i < |parameters| ==> parameters[i].Named?
    ensures ToStringAsWritten(FunctionType(parameters, returned)) == ToStringIntended(FunctionType(parameters, returned))
  {
    ToStringAsWrittenRunsTogether(parameters, returned);
    ToStringIntendedJoins(parameters, returned);
    if |parameters| == 1 {
      var a := RenderedAsWritten(parameters);
      var b := RenderedIntended(parameters);
      assert a == b == [parameters[0].text];
      assert a[1..] == [];
    }
  }
}
