/** `MyLanguage::AssemblyGenerator`
    (src/my-language/assembly-generator/AssemblyGenerator.cpp): the assembly
    text of a list of IR commands, a prelude followed by what the generator
    registered for each command's type makes of it. */
module AssemblyGenerators {
  import opened Wrappers
  import opened Expressions
  import opened IRCommands
  import opened Texts

  /** A generator for one type of IR command; an exception it throws is an
      `Err`. */
  type Generator = Node -> Result<string>

  /** The type of IR command a command node stands for: its "command"
      sub-type, as the command factory records it. */
  function CommandType(command: Node): string
  {
    if "command" in command.subTypes then command.subTypes["command"] else ""
  }

  /** The error for a command type with no registered generator. */
  function NoGenerator(kind: string): string
  {
    "No assembly generator found command with type: '" + kind + "'."
  }

  /** The text of one command on its own: the registered generator's output,
      or the error for an unregistered type. */
  function AssembleOne(generators: map<string, Generator>, command: Node): (r: Result<string>)
    ensures CommandType(command) !in generators ==> r == Err(NoGenerator(CommandType(command)))
    ensures CommandType(command) in generators ==> r == generators[CommandType(command)](command)
  {
    var kind := CommandType(command);
    if kind !in generators then Err(NoGenerator(kind)) else generators[kind](command)
  }

  /** The `accumulate`: each command's text is appended in order; the first
      command that cannot be assembled ends the fold with its error. */
  function Assemble(generators: map<string, Generator>, commands: seq<Node>, assembly: string): Result<string>
    decreases |commands|
  {
    if commands == [] then Ok(assembly)
    else
      var text :- AssembleOne(generators, commands[0]);
      Assemble(generators, commands[1..], assembly + text)
  }

  /** Reference: the texts of commands that can all be assembled, one per
      command, in order. */
  function Pieces(generators: map<string, Generator>, commands: seq<Node>): seq<string>
    requires forall i :: 0 <= i < |commands| ==> AssembleOne(generators, commands[i]).Ok?
  {
    seq(|commands|, i requires 0 <= i < |commands| && AssembleOne(generators, commands[i]).Ok? =>
      AssembleOne(generators, commands[i]).value)
  }

  /** When every command can be assembled, the fold appends their texts in
      command order. */
  lemma {:induction false} AssembleConcatenates(generators: map<string, Generator>, commands: seq<Node>, assembly: string)
    requires forall i :: 0 <= i < |commands| ==> AssembleOne(generators, commands[i]).Ok?
    ensures Assemble(generators, commands, assembly) == Ok(assembly + Concatenated(Pieces(generators, commands)))
    decreases |commands|
  {
    if commands != [] {
      var text := AssembleOne(generators, commands[0]).value;
      assert forall i :: 0 <= i < |commands[1..]| ==> commands[1..][i] == commands[i + 1];
      AssembleConcatenates(generators, commands[1..], assembly + text);
      assert Pieces(generators, commands)[1..] == Pieces(generators, commands[1..]);
      assert assembly + text + Concatenated(Pieces(generators, commands[1..])) ==
        assembly + Concatenated(Pieces(generators, commands));
    } else {
      assert Pieces(generators, commands) == [];
      assert assembly + "" == assembly;
    }
  }

  /** The first command that cannot be assembled decides the error: the
      fold fails with that command's own error. */
  lemma {:induction false} AssembleFirstFailure(generators: map<string, Generator>, commands: seq<Node>, assembly: string, k: int)
    requires 0 <= k < |commands| && AssembleOne(generators, commands[k]).Err?
    requires forall i :: 0 <= i < k ==> AssembleOne(generators, commands[i]).Ok?
    ensures Assemble(generators, commands, assembly) == Err(AssembleOne(generators, commands[k]).msg)
    decreases |commands|
  {
    if k > 0 {
      var text := AssembleOne(generators, commands[0]).value;
      AssembleFirstFailure(generators, commands[1..], assembly + text, k - 1);
    }
  }

  /** The fold fails exactly when some command cannot be assembled. */
  lemma {:induction false} AssembleFailsIff(generators: map<string, Generator>, commands: seq<Node>, assembly: string)
    ensures Assemble(generators, commands, assembly).Err? <==>
      exists i :: 0 <= i < |commands| && AssembleOne(generators, commands[i]).Err?
    decreases |commands|
  {
    if commands != [] {
      var first := AssembleOne(generators, commands[0]);
      if first.Err? {
        assert AssembleOne(generators, commands[0]).Err?;
      } else {
        AssembleFailsIff(generators, commands[1..], assembly + first.value);
        if exists i :: 0 <= i < |commands| && AssembleOne(generators, commands[i]).Err? {
          var i :| 0 <= i < |commands| && AssembleOne(generators, commands[i]).Err?;
          assert commands[1..][i - 1] == commands[i];
        }
        if exists j :: 0 <= j < |commands[1..]| && AssembleOne(generators, commands[1..][j]).Err? {
          var j :| 0 <= j < |commands[1..]| && AssembleOne(generators, commands[1..][j]).Err?;
          assert commands[j + 1] == commands[1..][j];
        }
      }
    }
  }

  /** The generator: its prelude, its indent and its registry of generators
      by command type. */
  class AssemblyGenerator {
    var prelude: string
    var indent: string
    var generators: map<string, Generator>

    constructor ()
      ensures prelude == "" && indent == "" && generators == map[]
    {
      prelude := "";
      indent := "";
      generators := map[];
    }

    /** `generate`: the prelude, then the commands' texts in order. An empty
        list gives the prelude alone; the output always starts with the
        prelude; it fails exactly when some command cannot be assembled. */
    function Generate(commands: seq<Node>): (r: Result<string>)
      reads this
      ensures commands == [] ==> r == Ok(prelude)
      ensures r.Ok? ==> |prelude| <= |r.value| && r.value[..|prelude|] == prelude
      ensures r.Err? <==> exists i :: 0 <= i < |commands| && AssembleOne(generators, commands[i]).Err?
    {
      AssembleFailsIff(generators, commands, "");
      var body :- Assemble(generators, commands, "");
      assert (prelude + body)[..|prelude|] == prelude;
      assert prelude + "" == prelude;
      Ok(prelude + body)
    }

    /** `prelude()`. */
    method Prelude() returns (p: string)
      ensures p == prelude
    {
      p := prelude;
    }

    /** `indent()`. */
    method Indent() returns (s: string)
      ensures s == indent
    {
      s := indent;
    }

    /** `setPrelude`: `prelude()` then gives back `p`; nothing else changes. */
    method SetPrelude(p: string)
      modifies this
      ensures prelude == p
      ensures indent == old(indent) && generators == old(generators)
    {
      prelude := p;
    }

    /** `setIndent`: `indent()` then gives back `s`; nothing else changes. */
    method SetIndent(s: string)
      modifies this
      ensures indent == s
      ensures prelude == old(prelude) && generators == old(generators)
    {
      indent := s;
    }

    /** `generators().insert(...)`: registers `g` for `kind`; as with
        `std::map::insert`, a type that already has a generator keeps it. */
    method Register(kind: string, g: Generator)
      modifies this
      ensures generators == if kind in old(generators) then old(generators) else old(generators)[kind := g]
      ensures prelude == old(prelude) && indent == old(indent)
    {
      if kind !in generators {
        generators := generators[kind := g];
      }
    }
  }
}
