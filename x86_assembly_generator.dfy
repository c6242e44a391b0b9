/** `MyLanguage::X86AssemblyGenerator`
    (src/my-language/assembly-generator/X86AssemblyGenerator.cpp): the
    assembly generator configured for x86-64, with its prelude and the one
    command it can emit, LoadIntConst. */
module X86AssemblyGenerators {
  import opened Wrappers
  import opened Expressions
  import opened Decimal
  import opened VariableStacks
  import opened IRCommands
  import opened AssemblyGenerators
  import opened IRCommandFactories
  import opened Tokens
  import IRGenerators

  /** Four spaces. */
  const Indent: string := "    "

  /** The opening of the prelude: the external print and read routines, the
      global `main` and the text section. */
  const Declarations: string :=
    Indent + ".extern print_int" + "\n" +
    Indent + ".extern print_bool" + "\n" +
    Indent + ".extern read_int" + "\n" +
    Indent + ".global main" + "\n" +
    Indent + "\n" +
    Indent + ".section .text" + "\n" +
    Indent + "\n"

  /** The end of the prelude: `main` and its frame set up. */
  const FrameSetup: string :=
    "main:" + "\n" +
    Indent + "pushq %rbp" + "\n" +
    Indent + "movq %rsp, %rbp" + "\n"

  /** The prelude: the declarations, then `main`'s frame set up. */
  const Prelude: string := Declarations + FrameSetup

  /** The frame set-up, spelled out: `main:`, then `pushq %rbp` and
      `movq %rsp, %rbp` on indented lines. */
  lemma FrameSetupText()
    ensures FrameSetup == "main:\n    pushq %rbp\n    movq %rsp, %rbp\n"
  {
  }

  /** The prelude ends with the frame set-up. */
  lemma PreludeEndsWithFrameSetup()
    ensures |Prelude| >= |FrameSetup| && Prelude[|Prelude| - |FrameSetup|..] == FrameSetup
  {
    assert Prelude[|Declarations|..] == FrameSetup;
  }

  /** The line moving `value` into the slot `offset` bytes below the frame
      pointer. */
  function MoveLine(indent: string, value: string, offset: int): string
  {
    indent + "movl " + "$" + value + ", " + "-" + IntToString(offset) + "(%rbp)" + "\n"
  }

  /** `generateLoadIntConst`: the number's value moved into the variable's
      slot, at 8 bytes past its stack location. The `at` calls throw on a
      missing child or sub-type, and the stack on a variable it does not
      hold. */
  function LoadIntConst(locations: map<string, int>, indent: string, command: Node): (r: Result<string>)
    ensures r.Ok? ==> (|command.children| >= 2 && "value" in command.children[0].subTypes &&
      "name" in command.children[1].subTypes && command.children[1].subTypes["name"] in locations)
    ensures r.Ok? ==> r.value == MoveLine(indent, command.children[0].subTypes["value"],
      locations[command.children[1].subTypes["name"]] + 8)
  {
    if |command.children| < 1 then Err("vector::at: position out of range")
    else if "value" !in command.children[0].subTypes then Err("map::at")
    else if |command.children| < 2 then Err("vector::at: position out of range")
    else if "name" !in command.children[1].subTypes then Err("map::at")
    else
      var value := command.children[0].subTypes["value"];
      var variable := command.children[1].subTypes["name"];
      var location :- LocationOf(locations, variable);
      Ok(MoveLine(indent, value, location + 8))
  }

  /** On a command the factory builds, LoadIntConst emits the move line when
      the stack holds the variable and fails with the stack's error when it
      does not. */
  lemma LoadIntConstOfFactory(locations: map<string, int>, indent: string, value: string, variable: string)
    ensures variable in locations ==>
      LoadIntConst(locations, indent, CreateLoadIntConst(value, variable)) == Ok(MoveLine(indent, value, locations[variable] + 8))
    ensures variable !in locations ==>
      LoadIntConst(locations, indent, CreateLoadIntConst(value, variable)) == Err("No variable in stack: '" + variable + "'.")
  {
  }

  /** The emitted offset is a positive multiple of 8 when the slots are
      valid: the move always targets memory below the frame pointer. */
  lemma {:induction false} LoadIntConstBelowFramePointer(locations: map<string, int>, next: int, indent: string, command: Node)
    requires SlotsValid(locations, next)
    requires LoadIntConst(locations, indent, command).Ok?
    ensures exists offset :: (offset >= 8 && offset % 8 == 0 &&
      LoadIntConst(locations, indent, command).value == MoveLine(indent, command.children[0].subTypes["value"], offset))
    ensures IntToString(locations[command.children[1].subTypes["name"]] + 8)[0] != '-'
  {
    var offset := locations[command.children[1].subTypes["name"]] + 8;
    IntToStringSign(offset);
    assert offset >= 8 && offset % 8 == 0;
  }

  /** The same for the slots a `VariableStack` hands out: its class
      invariant is the slot layout the lemma above needs. */
  lemma StackLoadBelowFramePointer(stack: VariableStack, indent: string, command: Node)
    requires stack.Valid()
    requires LoadIntConst(stack.locations, indent, command).Ok?
    ensures exists offset :: (offset >= 8 && offset % 8 == 0 &&
      LoadIntConst(stack.locations, indent, command).value ==
      MoveLine(indent, command.children[0].subTypes["value"], offset))
  {
    LoadIntConstBelowFramePointer(stack.locations, stack.currentLocation, indent, command);
  }

  /** With valid slots, two different variables are moved into different
      slots: their move lines differ even for the same value. */
  lemma {:induction false} DistinctVariablesDistinctLines(locations: map<string, int>, next: int, indent: string, value: string, v: string, w: string)
    requires SlotsValid(locations, next)
    requires v in locations && w in locations && v != w
    ensures MoveLine(indent, value, locations[v] + 8) != MoveLine(indent, value, locations[w] + 8)
  {
    var a := IntToString(locations[v] + 8);
    var b := IntToString(locations[w] + 8);
    var head := indent + "movl " + "$" + value + ", " + "-";
    var tail := "(%rbp)" + "\n";
    if MoveLine(indent, value, locations[v] + 8) == MoveLine(indent, value, locations[w] + 8) {
      assert MoveLine(indent, value, locations[v] + 8) == head + a + tail;
      assert MoveLine(indent, value, locations[w] + 8) == head + b + tail;
      assert |a| == |b|;
      assert a == (head + a + tail)[|head|..|head| + |a|];
      assert b == (head + b + tail)[|head|..|head| + |b|];
      IntToStringInjective(locations[v] + 8, locations[w] + 8);
    }
  }

  /** The LoadIntConst generator reading the given stack, with the x86
      indent. */
  function LoadIntConstGenerator(locations: map<string, int>): Generator
  {
    command => LoadIntConst(locations, Indent, command)
  }

  /** The registry: LoadIntConst only. */
  function Registry(locations: map<string, int>): (g: map<string, Generator>)
    ensures g.Keys == {"LoadIntConst"}
  {
    map["LoadIntConst" := LoadIntConstGenerator(locations)]
  }

  /** Any command other than a LoadIntConst has no generator. */
  lemma OnlyLoadIntConst(locations: map<string, int>, command: Node)
    requires CommandType(command) != "LoadIntConst"
    ensures AssembleOne(Registry(locations), command) == Err(NoGenerator(CommandType(command)))
  {
  }

  /** The x86 generator: an assembly generator set up with the x86 indent,
      prelude and registry. The stack the LoadIntConst generator reads is
      given to the constructor. */
  class X86AssemblyGenerator {
    const assemblyGenerator: AssemblyGenerator
    const locations: map<string, int>

    /** The configuration the constructor establishes. */
    ghost predicate Valid()
      reads this, assemblyGenerator
    {
      assemblyGenerator.indent == Indent && assemblyGenerator.prelude == Prelude &&
      assemblyGenerator.generators == Registry(locations)
    }

    constructor (locations: map<string, int>)
      ensures this.locations == locations && fresh(assemblyGenerator) && Valid()
    {
      this.locations := locations;
      var g := new AssemblyGenerator();
      g.SetIndent(Indent);
      g.SetPrelude(Prelude);
      g.Register("LoadIntConst", LoadIntConstGenerator(locations));
      assemblyGenerator := g;
    }

    /** `generate`: the output starts with the prelude, and it is produced
        exactly when every command is a LoadIntConst that can be emitted. */
    function Generate(commands: seq<Node>): (r: Result<string>)
      requires Valid()
      reads this, assemblyGenerator
      ensures r.Ok? ==> |Prelude| <= |r.value| && r.value[..|Prelude|] == Prelude
      ensures r.Ok? <==> forall i :: 0 <= i < |commands| ==>
        CommandType(commands[i]) == "LoadIntConst" && LoadIntConst(locations, Indent, commands[i]).Ok?
    {
      assert forall c :: AssembleOne(Registry(locations), c).Ok? <==>
        CommandType(c) == "LoadIntConst" && LoadIntConst(locations, Indent, c).Ok?;
      assemblyGenerator.Generate(commands)
    }
  }

  /** The IR of a program `1`, a number node with its token: one
      LoadIntConst of 1 into x1. */
  lemma NumberIRExample()
    ensures var number := Node("number", 0, 1, [], [Token("number", "1", 0, 1)], map[]);
      IRGenerators.GenerateTree(number, 1) ==
        Ok((IRGenerators.GeneratorResult("x1", [CreateLoadIntConst("1", "x1")]), 2))
  {
    assert VariableName(1) == "x1" by {
      assert IntToString(1) == "1";
    }
    assert IRGenerators.GenerateForest([], 1) == Ok(([], 1));
  }

  /** The move of 1 into the first slot. */
  lemma MoveOneLine()
    ensures MoveLine(Indent, "1", 0 + 8) == "    movl $1, -8(%rbp)\n"
  {
    assert IntToString(8) == "8";
  }

  /** That command, with x1 in the first slot, becomes the prelude followed
      by `    movl $1, -8(%rbp)`. */
  lemma LoadOneExample(x: X86AssemblyGenerator)
    requires x.Valid() && x.locations == map["x1" := 0]
    ensures x.Generate([CreateLoadIntConst("1", "x1")]) == Ok(Prelude + "    movl $1, -8(%rbp)\n")
  {
    var command := CreateLoadIntConst("1", "x1");
    var line := MoveLine(Indent, "1", 0 + 8);
    MoveOneLine();
    assert CommandType(command) == "LoadIntConst";
    assert AssembleOne(Registry(x.locations), command) == Ok(line) by {
      assert Registry(x.locations)["LoadIntConst"](command) == LoadIntConst(x.locations, Indent, command);
    }
    assert Assemble(Registry(x.locations), [command], "") == Assemble(Registry(x.locations), [], "" + line);
    assert "" + line == line;
  }
}
