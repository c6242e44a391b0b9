/** The end-to-end test protocol (src/test/end_to_end.py): each case file
    holds a program and the output it must print, separated by a delimiter
    line; the program is compiled and run, and its output compared with the
    expected text. Compiling and running a program is the parameter `run`,
    from program text to printed output; the case folder is a map from file
    names to contents. */
module EndToEnd {
  import opened Wrappers

  /** The line separating a case's program from its expected output. */
  const Delimiter: string := "\n!expect!\n"

  /** The scratch file the run writes each program into, inside the case
      folder. */
  const Scratch: string := "_program.mylang"

  /** `sep` occurs in `s` starting at `i`. */
  predicate OccursAt(s: string, sep: string, i: int)
  {
    0 <= i && i + |sep| <= |s| && s[i..i + |sep|] == sep
  }

  predicate Occurs(s: string, sep: string)
  {
    exists i :: 0 <= i <= |s| && OccursAt(s, sep, i)
  }

  /** Python's `str.split(sep)`: the pieces between the occurrences of
      `sep` found left to right, each search starting after the previous
      occurrence. */
  function Split(s: string, sep: string): (pieces: seq<string>)
    requires |sep| > 0
    ensures |pieces| >= 1
    decreases |s|
  {
    if |s| < |sep| then [s]
    else if s[..|sep|] == sep then [""] + Split(s[|sep|..], sep)
    else
      var rest := Split(s[1..], sep);
      [[s[0]] + rest[0]] + rest[1..]
  }

  /** The pieces put back together with `sep` between them. */
  function Joined(pieces: seq<string>, sep: string): string
    requires |pieces| >= 1
    decreases |pieces|
  {
    if |pieces| == 1 then pieces[0] else pieces[0] + sep + Joined(pieces[1..], sep)
  }

  /** Splitting loses nothing: joining the pieces gives the text back. */
  lemma {:induction false} SplitJoin(s: string, sep: string)
    requires |sep| > 0
    ensures Joined(Split(s, sep), sep) == s
    decreases |s|
  {
    if |s| < |sep| {
    } else if s[..|sep|] == sep {
      var rest := Split(s[|sep|..], sep);
      SplitJoin(s[|sep|..], sep);
      assert ([""] + rest)[1..] == rest;
      assert "" + sep + s[|sep|..] == s;
    } else {
      var rest := Split(s[1..], sep);
      SplitJoin(s[1..], sep);
      var pieces := [[s[0]] + rest[0]] + rest[1..];
      if |rest| == 1 {
        assert pieces == [[s[0]] + s[1..]];
      } else {
        assert pieces[1..] == rest[1..];
        assert Joined(rest, sep) == rest[0] + sep + Joined(rest[1..], sep);
        assert [s[0]] + rest[0] + sep + Joined(rest[1..], sep) == [s[0]] + s[1..];
      }
      assert [s[0]] + s[1..] == s;
    }
  }

  /** A text without `sep` is a single piece. */
  lemma {:induction false} SplitWithoutSeparator(s: string, sep: string)
    requires |sep| > 0 && !Occurs(s, sep)
    ensures Split(s, sep) == [s]
    decreases |s|
  {
    if |s| >= |sep| {
      assert !OccursAt(s, sep, 0);
      assert s[0..|sep|] == s[..|sep|];
      if Occurs(s[1..], sep) {
        var i :| 0 <= i <= |s[1..]| && OccursAt(s[1..], sep, i);
        assert i + |sep| <= |s| - 1;
        assert s[1..][i..i + |sep|] == s[i + 1..i + 1 + |sep|];
        assert OccursAt(s, sep, i + 1);
      }
      SplitWithoutSeparator(s[1..], sep);
      assert [s[0]] + s[1..] == s;
    }
  }

  /** An occurrence in the text after its first character is one in the
      text, one position later. */
  lemma ShiftOccurrence(s: string, sep: string, i: int)
    requires |s| >= 1 && 0 <= i
    ensures OccursAt(s[1..], sep, i) <==> OccursAt(s, sep, i + 1)
  {
    if i + |sep| <= |s| - 1 {
      assert s[1..][i..i + |sep|] == s[i + 1..i + 1 + |sep|];
    }
  }

  /** Splitting a text that does not start with `sep` puts its first
      character in front of the first piece of the rest. */
  lemma SplitUnfold(s: string, sep: string)
    requires |sep| > 0 && |s| >= 1 && !OccursAt(s, sep, 0)
    ensures Split(s, sep)[0] == [s[0]] + Split(s[1..], sep)[0]
    ensures Split(s, sep)[1..] == Split(s[1..], sep)[1..]
  {
    if |s| >= |sep| {
      assert s[0..|sep|] == s[..|sep|];
    }
  }

  /** The first occurrence of `sep` ends the first piece; the rest of the
      text is split after it. */
  lemma {:induction false} SplitAtFirst(s: string, sep: string, k: int)
    requires |sep| > 0 && OccursAt(s, sep, k)
    requires forall j :: 0 <= j < k ==> !OccursAt(s, sep, j)
    ensures Split(s, sep) == [s[..k]] + Split(s[k + |sep|..], sep)
    decreases k
  {
    if k == 0 {
      assert s[0..|sep|] == s[..|sep|];
    } else {
      var t := s[1..];
      forall j | 0 <= j < k - 1
        ensures !OccursAt(t, sep, j)
      {
        ShiftOccurrence(s, sep, j);
      }
      ShiftOccurrence(s, sep, k - 1);
      SplitAtFirst(t, sep, k - 1);
      SplitUnfold(s, sep);
      var tail := Split(s[k + |sep|..], sep);
      assert t[k - 1 + |sep|..] == s[k + |sep|..];
      assert Split(s, sep)[0] == s[..k] by {
        assert Split(t, sep)[0] == t[..k - 1];
        assert [s[0]] + t[..k - 1] == s[..k];
      }
      assert Split(s, sep)[1..] == tail by {
        assert ([t[..k - 1]] + tail)[1..] == tail;
      }
      assert Split(s, sep) == [Split(s, sep)[0]] + Split(s, sep)[1..];
    }
  }

  const NotEnoughValues: string := "not enough values to unpack (expected 2, got 1)"
  const TooManyValues: string := "too many values to unpack (expected 2)"

  /** `programCode, expectedPrints = contents.split(...)`: the unpacking
      succeeds only when the text splits into exactly two pieces, and
      otherwise raises the `ValueError` that ends the run. */
  function Unpack(contents: string): Result<(string, string)>
  {
    var pieces := Split(contents, Delimiter);
    if |pieces| == 2 then Ok((pieces[0], pieces[1]))
    else if |pieces| < 2 then Err(NotEnoughValues)
    else Err(TooManyValues)
  }

  /** The two parts of a case put back around the delimiter are the case
      text, with nothing trimmed. */
  lemma UnpackRoundTrip(contents: string)
    requires Unpack(contents).Ok?
    ensures Unpack(contents).value.0 + Delimiter + Unpack(contents).value.1 == contents
  {
    SplitJoin(contents, Delimiter);
    var pieces := Split(contents, Delimiter);
    assert Joined(pieces[1..], Delimiter) == pieces[1];
  }

  /** A case text without the delimiter is rejected. */
  lemma UnpackWithoutDelimiter(contents: string)
    requires !Occurs(contents, Delimiter)
    ensures Unpack(contents) == Err(NotEnoughValues)
  {
    SplitWithoutSeparator(contents, Delimiter);
  }

  /** A program and an expected output are read back unchanged from the
      case text made of them, provided the delimiter first occurs where
      they are joined and not at all in the expected output. */
  lemma UnpackOfCase(program: string, expected: string)
    requires forall j :: 0 <= j < |program| ==> !OccursAt(program + Delimiter + expected, Delimiter, j)
    requires !Occurs(expected, Delimiter)
    ensures Unpack(program + Delimiter + expected) == Ok((program, expected))
  {
    var s := program + Delimiter + expected;
    assert s[|program|..|program| + |Delimiter|] == Delimiter;
    SplitAtFirst(s, Delimiter, |program|);
    assert s[..|program|] == program;
    assert s[|program| + |Delimiter|..] == expected;
    SplitWithoutSeparator(expected, Delimiter);
  }

  /** A case with a second delimiter after the first is rejected. */
  lemma UnpackTwoDelimiters(program: string, middle: string, rest: string)
    requires forall j :: 0 <= j < |program| ==> !OccursAt(program + Delimiter + middle + Delimiter + rest, Delimiter, j)
    ensures Unpack(program + Delimiter + middle + Delimiter + rest) == Err(TooManyValues)
  {
    var after := middle + Delimiter + rest;
    var s := program + Delimiter + middle + Delimiter + rest;
    assert s == program + Delimiter + after;
    assert s[|program|..|program| + |Delimiter|] == Delimiter;
    assert s[|program| + |Delimiter|..] == after;
    SplitAtFirst(s, Delimiter, |program|);
    assert after[|middle|..|middle| + |Delimiter|] == Delimiter;
    SplitLongerWithSeparator(after, Delimiter, |middle|);
    assert |Split(s, Delimiter)| >= 3;
  }

  /** A text with an occurrence of `sep` splits into at least two pieces. */
  lemma {:induction false} SplitLongerWithSeparator(s: string, sep: string, i: int)
    requires |sep| > 0 && OccursAt(s, sep, i)
    ensures |Split(s, sep)| >= 2
    decreases i
  {
    if s[..|sep|] != sep {
      assert i != 0 by {
        assert s[0..|sep|] == s[..|sep|];
      }
      assert s[1..][i - 1..i - 1 + |sep|] == s[i..i + |sep|];
      SplitLongerWithSeparator(s[1..], sep, i - 1);
    }
  }

  /** What a case prints: the pass line, or the fail line with both texts. */
  datatype Verdict = Passed(message: string) | Failed(message: string)

  /** The comparison: a case passes exactly when the output equals the
      expected text, with no normalisation of either. */
  function Judge(name: string, expected: string, received: string): (v: Verdict)
    ensures v.Passed? <==> received == expected
  {
    if received != expected then
      Failed("Failed test: " + name + "\nExpected:\n" + expected + "\n\nReceived:\n" + received)
    else Passed("Passed test: " + name)
  }

  /** A pass line and a fail line never coincide, whatever the names, so the
      log tells the two apart. */
  lemma VerdictsDistinguishable(name: string, expected: string, received: string, other: string, e: string, r: string)
    requires Judge(name, expected, received).Passed? && Judge(other, e, r).Failed?
    ensures Judge(name, expected, received).message != Judge(other, e, r).message
  {
    assert Judge(name, expected, received).message[0] == 'P';
    assert Judge(other, e, r).message[0] == 'F';
  }

  /** An output that only lacks the expected text's final newline fails. */
  lemma MissingNewlineFails(name: string, expected: string)
    ensures Judge(name, expected + "\n", expected).Failed?
  {
    assert |expected + "\n"| != |expected|;
  }

  /** What a run prints, and the error that ended it early if one did. */
  datatype Report = Report(printed: seq<string>, aborted: Option<string>)

  /** The run as written, over the folder listing in order: each entry is
      unpacked, its program is written to the scratch file, and its verdict
      printed; an entry that does not unpack ends the run. Every entry of
      the listing is treated as a case. */
  function RunCases(names: seq<string>, folder: map<string, string>, run: string -> string): (r: Report)
    requires forall i :: 0 <= i < |names| ==> names[i] in folder
    ensures |r.printed| <= |names|
    decreases |names|
  {
    if names == [] then Report([], None)
    else
      match Unpack(folder[names[0]])
      case Err(e) => Report([], Some(e))
      case Ok((program, expected)) =>
        var rest := RunCases(names[1..], folder[Scratch := program], run);
        Report([Judge(names[0], expected, run(program)).message] + rest.printed, rest.aborted)
  }

  /** `run` as the source writes it: one iteration per listed entry, the
      folder updated with the scratch file on the way. */
  method Run(names: seq<string>, folder: map<string, string>, run: string -> string) returns (report: Report)
    requires forall i :: 0 <= i < |names| ==> names[i] in folder
    ensures report == RunCases(names, folder, run)
  {
    var files := folder;
    var printed: seq<string> := [];
    for i := 0 to |names|
      invariant forall j :: 0 <= j < |names| ==> names[j] in files
      invariant RunCases(names, folder, run) ==
        Report(printed + RunCases(names[i..], files, run).printed, RunCases(names[i..], files, run).aborted)
    {
      assert names[i..][1..] == names[i + 1..];
      var unpacked := Unpack(files[names[i]]);
      if unpacked.Err? {
        assert printed + [] == printed;
        return Report(printed, Some(unpacked.msg));
      }
      var (program, expected) := unpacked.value;
      files := files[Scratch := program];
      printed := printed + [Judge(names[i], expected, run(program)).message];
    }
    assert names[|names|..] == [];
    assert printed + [] == printed;
    report := Report(printed, None);
  }

  /** The listing with the scratch file left out. */
  function WithoutScratch(names: seq<string>): (cases: seq<string>)
    ensures forall i :: 0 <= i < |cases| ==> cases[i] in names && cases[i] != Scratch
    ensures forall i :: 0 <= i < |names| && names[i] != Scratch ==> names[i] in cases
  {
    if names == [] then []
    else (if names[0] == Scratch then [] else [names[0]]) + WithoutScratch(names[1..])
  }

  /** The run as intended: the scratch file is not a case. */
  function RunIntended(names: seq<string>, folder: map<string, string>, run: string -> string): Report
    requires forall i :: 0 <= i < |names| ==> names[i] in folder
  {
    RunCases(WithoutScratch(names), folder, run)
  }

  /** Every case well formed: each listed entry other than the scratch file
      holds a program and its expected output. */
  ghost predicate WellFormedCases(names: seq<string>, folder: map<string, string>)
  {
    forall i :: 0 <= i < |names| && names[i] != Scratch ==> names[i] in folder && Unpack(folder[names[i]]).Ok?
  }

  /** When the cases are well formed and none is the scratch file, the run
      completes and prints one verdict per case, in listing order: the
      case's pass line exactly when the program's output is its expected
      text. */
  lemma {:induction false} CasesComplete(names: seq<string>, folder: map<string, string>, run: string -> string)
    requires forall i :: 0 <= i < |names| ==> names[i] in folder && names[i] != Scratch
    requires WellFormedCases(names, folder)
    ensures RunCases(names, folder, run).aborted == None
    ensures |RunCases(names, folder, run).printed| == |names|
    ensures forall i :: 0 <= i < |names| ==>
      var parts := Unpack(folder[names[i]]).value;
      RunCases(names, folder, run).printed[i] == Judge(names[i], parts.1, run(parts.0)).message
    decreases |names|
  {
    if names != [] {
      var parts := Unpack(folder[names[0]]).value;
      var next := folder[Scratch := parts.0];
      assert forall i :: 0 <= i < |names[1..]| ==> names[1..][i] == names[i + 1];
      assert forall i :: 0 <= i < |names[1..]| ==> next[names[1..][i]] == folder[names[1..][i]];
      CasesComplete(names[1..], next, run);
    }
  }

  /** The intended run completes on a folder of well-formed cases, whatever
      the listing holds besides them, with one verdict per case. */
  lemma IntendedRunCompletes(names: seq<string>, folder: map<string, string>, run: string -> string)
    requires forall i :: 0 <= i < |names| ==> names[i] in folder
    requires WellFormedCases(names, folder)
    ensures RunIntended(names, folder, run).aborted == None
    ensures |RunIntended(names, folder, run).printed| == |WithoutScratch(names)|
  {
    var cases := WithoutScratch(names);
    forall i | 0 <= i < |cases|
      ensures cases[i] in folder && cases[i] != Scratch && Unpack(folder[cases[i]]).Ok?
    {
      var j :| 0 <= j < |names| && names[j] == cases[i];
    }
    CasesComplete(cases, folder, run);
  }

  /** A folder where a previous run left the scratch file behind, holding
      program text. */
  const OneCase: map<string, string> := map["one" := "1" + Delimiter + "1", Scratch := "1"]

  /** As written: the scratch file is listed, read as a case and, having no
      delimiter, ends the run with an error after the real case. */
  lemma ScratchEntryAborts(run: string -> string)
    ensures RunCases(["one", Scratch], OneCase, run).aborted == Some(NotEnoughValues)
  {
    UnpackOfCase("1", "1");
    var next := OneCase[Scratch := "1"];
    assert ["one", Scratch][1..] == [Scratch];
    UnpackWithoutDelimiter(next[Scratch]);
    assert RunCases([Scratch], next, run) == Report([], Some(NotEnoughValues));
  }

  /** As intended, the same folder runs its one case to the end. */
  lemma ScratchEntrySkipped(run: string -> string)
    ensures RunIntended(["one", Scratch], OneCase, run).aborted == None
    ensures |RunIntended(["one", Scratch], OneCase, run).printed| == 1
  {
    UnpackOfCase("1", "1");
    assert WithoutScratch([Scratch]) == [];
    assert WithoutScratch(["one", Scratch]) == ["one"];
    IntendedRunCompletes(["one", Scratch], OneCase, run);
  }
}
