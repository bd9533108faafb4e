/** utils.py: cutting the tracebacks the `traceback` module formats out of
    arbitrary text. */
module Traces {
  import opened Heap
  import opened Lines

  const Header := "Traceback (most recent call last):"

  predicate Indented(line: string) {
    StartsWith(line, "  ")
  }

  /** The first index at or after `i` whose line is not indented, or `|lines|`. */
  function EndOf(lines: seq<string>, i: nat): (e: nat)
    requires i <= |lines|
    ensures i <= e <= |lines|
    ensures forall k :: i <= k < e ==> Indented(lines[k])
    ensures e < |lines| ==> !Indented(lines[e])
    decreases |lines| - i
  {
    if i == |lines| || !Indented(lines[i]) then i else EndOf(lines, i + 1)
  }

  /** The tracebacks in `lines`, each as its list of lines: a block opens at a
      line equal to the header and runs to the first later line that is not
      indented, which it includes. Lines outside blocks are dropped, and a
      block the input ends inside yields nothing. */
  function Blocks(lines: seq<string>): seq<seq<string>>
    decreases |lines|
  {
    if lines == [] then []
    else if lines[0] != Header then Blocks(lines[1..])
    else
      var e := EndOf(lines, 1);
      if e == |lines| then [] else [lines[..e + 1]] + Blocks(lines[e + 1..])
  }

  function JoinAll(blocks: seq<seq<string>>): (r: seq<string>)
    ensures |r| == |blocks| && forall i :: 0 <= i < |r| ==> r[i] == Join(blocks[i])
  {
    seq(|blocks|, i requires 0 <= i < |blocks| => Join(blocks[i]))
  }

  /** The blocks still to come when `buff` holds the lines of the block open
      so far (empty when none is open) and `rest` is the input left. */
  function Resume(buff: seq<string>, rest: seq<string>): seq<seq<string>> {
    if buff == [] then Blocks(rest)
    else
      var e := EndOf(rest, 0);
      if e == |rest| then [] else [buff + rest[..e + 1]] + Blocks(rest[e + 1..])
  }

  lemma {:induction false} EndOfShift(line: string, rest: seq<string>, i: nat)
    requires i <= |rest|
    ensures EndOf([line] + rest, i + 1) == 1 + EndOf(rest, i)
    decreases |rest| - i
  {
    var lines := [line] + rest;
    assert forall k :: 0 <= k < |rest| ==> lines[k + 1] == rest[k];
    if i < |rest| && Indented(rest[i]) {
      EndOfShift(line, rest, i + 1);
    }
  }

  // One turn of the loop over `line` followed by `rest`, in each of its four
  // cases, keeps what is yielded so far plus what is still to come equal to
  // the blocks of the input.

  /** Outside a block, a line other than the header is dropped. */
  lemma SkipStep(line: string, rest: seq<string>)
    requires line != Header
    ensures Resume([], [line] + rest) == Resume([], rest)
  {
  }

  /** The header opens a block. */
  lemma OpenStep(rest: seq<string>)
    ensures Resume([], [Header] + rest) == Resume([Header], rest)
  {
    var lines := [Header] + rest;
    EndOfShift(Header, rest, 0);
    var e := EndOf(rest, 0);
    if e < |rest| {
      assert lines[..e + 2] == [Header] + rest[..e + 1];
      assert lines[e + 2..] == rest[e + 1..];
    }
  }

  /** An indented line extends the open block. */
  lemma ExtendStep(buff: seq<string>, line: string, rest: seq<string>)
    requires buff != [] && Indented(line)
    ensures Resume(buff, [line] + rest) == Resume(buff + [line], rest)
  {
    var lines := [line] + rest;
    EndOfShift(line, rest, 0);
    assert EndOf(lines, 0) == EndOf(lines, 1);
    var e := EndOf(rest, 0);
    if e < |rest| {
      assert lines[..e + 2] == [line] + rest[..e + 1];
      assert buff + lines[..e + 2] == (buff + [line]) + rest[..e + 1];
      assert lines[e + 2..] == rest[e + 1..];
    }
  }

  /** Any other line closes the open block, which is yielded. */
  lemma CloseStep(buff: seq<string>, line: string, rest: seq<string>)
    requires buff != [] && !Indented(line)
    ensures Resume(buff, [line] + rest) == [buff + [line]] + Resume([], rest)
  {
  }

  /** The four turns of the loop, at index `i` of the input. */
  lemma StepAt(buff: seq<string>, lines: seq<string>, i: nat)
    requires i < |lines|
    ensures buff == [] && lines[i] != Header ==> Resume(buff, lines[i..]) == Resume([], lines[i + 1..])
    ensures buff == [] && lines[i] == Header ==> Resume(buff, lines[i..]) == Resume([Header], lines[i + 1..])
    ensures buff != [] && Indented(lines[i]) ==> Resume(buff, lines[i..]) == Resume(buff + [lines[i]], lines[i + 1..])
    ensures buff != [] && !Indented(lines[i]) ==>
      Resume(buff, lines[i..]) == [buff + [lines[i]]] + Resume([], lines[i + 1..])
  {
    var line, rest := lines[i], lines[i + 1..];
    assert lines[i..] == [line] + rest;
    if buff == [] && line != Header {
      SkipStep(line, rest);
    } else if buff == [] {
      OpenStep(rest);
    } else if Indented(line) {
      ExtendStep(buff, line, rest);
    } else {
      CloseStep(buff, line, rest);
    }
  }

  /** `get_traces(text)`: the blocks of `text.splitlines()`, each joined with
      "\n", in input order. */
  method GetTraces(text: string) returns (traces: seq<string>)
    ensures traces == JoinAll(Blocks(SplitLines(text)))
  {
    var lines := SplitLines(text);
    var buff: seq<string> := [];
    traces := [];
    ghost var done: seq<seq<string>> := [];
    for i := 0 to |lines|
      invariant traces == JoinAll(done)
      invariant done + Resume(buff, lines[i..]) == Blocks(lines)
    {
      var line := lines[i];
      StepAt(buff, lines, i);
      if buff == [] && line != Header {
        continue;
      }
      buff := buff + [line];
      assert |buff| == 1 ==> buff == [Header];
      if |buff| > 1 && !Indented(line) {
        assert done + [buff] + Resume([], lines[i + 1..]) == done + ([buff] + Resume([], lines[i + 1..]));
        traces := traces + [Join(buff)];
        done := done + [buff];
        buff := [];
      }
    }
    assert lines[|lines|..] == [];
  }

  /** The shape of one traceback: the header, indented lines, and a last
      line that is not indented. */
  predicate IsBlock(b: seq<string>) {
    && |b| >= 2 && b[0] == Header && !Indented(b[|b| - 1])
    && (forall k :: 1 <= k < |b| - 1 ==> Indented(b[k]))
  }

  /** The block a header opens has that shape. */
  lemma HeadBlock(lines: seq<string>)
    requires lines != [] && lines[0] == Header && EndOf(lines, 1) < |lines|
    ensures IsBlock(lines[..EndOf(lines, 1) + 1])
  {
  }

  /** Every block is well shaped and made of lines of the input. */
  lemma {:induction false} BlocksShape(lines: seq<string>)
    ensures forall b :: b in Blocks(lines) ==> IsBlock(b) && forall k :: 0 <= k < |b| ==> b[k] in lines
    decreases |lines|
  {
    if lines != [] {
      if lines[0] != Header {
        BlocksShape(lines[1..]);
      } else {
        var e := EndOf(lines, 1);
        if e < |lines| {
          BlocksShape(lines[e + 1..]);
          HeadBlock(lines);
          assert forall x :: x in lines[e + 1..] ==> x in lines;
        }
      }
    }
  }

  /** Lines before the first header are dropped. */
  lemma {:induction false} SkipPrefix(pre: seq<string>, rest: seq<string>)
    requires Header !in pre
    ensures Blocks(pre + rest) == Blocks(rest)
  {
    if pre != [] {
      var lines := pre + rest;
      assert lines[0] == pre[0] != Header;
      assert lines[1..] == pre[1..] + rest;
      assert Header !in pre[1..];
      SkipPrefix(pre[1..], rest);
    } else {
      assert pre + rest == rest;
    }
  }

  /** A header, indented lines and a closing line form one block, and the input
      after it is searched afresh. */
  lemma OneBlock(mid: seq<string>, last: string, rest: seq<string>)
    requires forall k :: 0 <= k < |mid| ==> Indented(mid[k])
    requires !Indented(last)
    ensures Blocks([Header] + mid + [last] + rest) == [[Header] + mid + [last]] + Blocks(rest)
  {
    var lines := [Header] + mid + [last] + rest;
    assert EndOf(lines, 1) == |mid| + 1 by {
      assert lines[|mid| + 1] == last;
      assert forall k :: 1 <= k <= |mid| ==> lines[k] == mid[k - 1];
    }
    assert lines[..|mid| + 2] == [Header] + mid + [last];
    assert lines[|mid| + 2..] == rest;
  }

  /** A header whose lines run indented to the end of the input yields nothing. */
  lemma Unterminated(mid: seq<string>)
    requires forall k :: 0 <= k < |mid| ==> Indented(mid[k])
    ensures Blocks([Header] + mid) == []
  {
  }

  /** Splitting a yielded traceback gives its block back, as long as the block
      does not end with an empty line. */
  lemma TraceRoundTrip(text: string, j: nat)
    requires j < |Blocks(SplitLines(text))|
    requires var b := Blocks(SplitLines(text))[j]; |b| > 0 && b[|b| - 1] != ""
    ensures SplitLines(JoinAll(Blocks(SplitLines(text)))[j]) == Blocks(SplitLines(text))[j]
  {
    var lines := SplitLines(text);
    BlocksShape(lines);
    var b := Blocks(lines)[j];
    assert b in Blocks(lines);
    forall k | 0 <= k < |b| ensures NoBreaks(b[k]) {
      var m :| 0 <= m < |lines| && lines[m] == b[k];
    }
    SplitJoin(b);
  }

  /** How the example's noise shows a module: `print(name, module)`. */
  function ModuleLine(name: string, path: string): string {
    name + " <module '" + name + "' from '" + path + "'>"
  }

  /** How it shows a built-in module. */
  function BuiltinLine(name: string): string {
    name + " <module '" + name + "' (built-in)>"
  }

  /** A file of the standard library in the example's installation. */
  function LibPath(file: string): string {
    "C:\\Program Files\\" + "Python36\\lib\\" + file
  }

  const ProjectDir: string := "D:\\Documents\\TEST\\pydump"

  /** The worked example of tests/test_utils.py: the lines before the
      traceback (each `\t` of the Python literal is a tab character), ... */
  const ExampleNoise: seq<string> := [
    "",
    "package__ None",
    "__spec__ None",
    ModuleLine("keepTrace", "d:\\documents\\test\\" + "pydump\\keepTrace.py"),
    ModuleLine("os", LibPath("os.py")),
    ModuleLine("pickle", LibPath("pickle.py")),
    BuiltinLine("sys"),
    ModuleLine("traceback", LibPath("traceback.py")),
    ModuleLine("unittest", LibPath("unittest\\__init__.py")),
    ProjectDir + "\tests\test_pickle.py"
  ]

  /** A stack entry's first line, as the `traceback` module formats it. */
  function FileLine(path: string, line: string, name: string): string {
    "  File \"" + path + "\", line " + line + ", in " + name
  }

  /** ... the lines of the traceback itself ... */
  const FileLine24: string := FileLine("tests\test_pickle.py", "24", "test_roundtrip")
  const FileLine21: string := FileLine("tests\test_pickle.py", "21", "error")
  const ExampleIndented: seq<string> := [FileLine24, "    error()", FileLine21, "    raise RuntimeError()"]

  /** ... the whole input, line by line ... */
  const ExampleLines: seq<string> :=
    ExampleNoise + [Header] + ExampleIndented + ["RuntimeError", ProjectDir]

  /** ... and as the one string the test passes, which starts with a newline
      and ends with one. */
  const ExampleText: string := Concat(WithNewlines(ExampleLines))

  /** The one traceback the example expects, its lines joined by newlines. */
  const ExampleTrace: string :=
    Header + "\n" + (FileLine24 + "\n" + ("    error()" + "\n" + (FileLine21 + "\n"
    + ("    raise RuntimeError()" + "\n" + "RuntimeError"))))

  lemma ModuleLineClear(name: string, path: string)
    requires NoBreaks(name) && NoBreaks(path)
    ensures NoBreaks(ModuleLine(name, path))
  {
    assert NoBreaks(" <module '") && NoBreaks("' from '") && NoBreaks("'>");
    NoBreaksAppend(name, " <module '");
    NoBreaksAppend(name + " <module '", name);
    NoBreaksAppend(name + " <module '" + name, "' from '");
    NoBreaksAppend(name + " <module '" + name + "' from '", path);
    NoBreaksAppend(name + " <module '" + name + "' from '" + path, "'>");
  }

  lemma LibPathClear(file: string)
    requires NoBreaks(file)
    ensures NoBreaks(LibPath(file))
  {
    assert NoBreaks("C:\\Program Files\\") && NoBreaks("Python36\\lib\\");
    NoBreaksAppend("C:\\Program Files\\", "Python36\\lib\\");
    NoBreaksAppend("C:\\Program Files\\" + "Python36\\lib\\", file);
  }

  lemma HeaderClear()
    ensures NoBreaks(Header)
  {
  }

  lemma LibModuleClear(name: string, file: string)
    requires NoBreaks(name) && NoBreaks(file)
    ensures NoBreaks(ModuleLine(name, LibPath(file)))
  {
    LibPathClear(file);
    ModuleLineClear(name, LibPath(file));
  }

  lemma LibModulesClear()
    ensures NoBreaks(ModuleLine("os", LibPath("os.py")))
    ensures NoBreaks(ModuleLine("pickle", LibPath("pickle.py")))
  {
    assert NoBreaks("os") && NoBreaks("os.py");
    LibModuleClear("os", "os.py");
    assert NoBreaks("pickle") && NoBreaks("pickle.py");
    LibModuleClear("pickle", "pickle.py");
  }

  lemma MoreLibModulesClear()
    ensures NoBreaks(ModuleLine("traceback", LibPath("traceback.py")))
    ensures NoBreaks(ModuleLine("unittest", LibPath("unittest\\__init__.py")))
  {
    assert NoBreaks("traceback") && NoBreaks("traceback.py");
    LibModuleClear("traceback", "traceback.py");
    assert NoBreaks("unittest") && NoBreaks("unittest\\__init__.py");
    LibModuleClear("unittest", "unittest\\__init__.py");
  }

  lemma LocalModulesClear()
    ensures NoBreaks(ModuleLine("keepTrace", "d:\\documents\\test\\" + "pydump\\keepTrace.py"))
    ensures NoBreaks(BuiltinLine("sys"))
  {
    assert NoBreaks("d:\\documents\\test\\") && NoBreaks("pydump\\keepTrace.py");
    NoBreaksAppend("d:\\documents\\test\\", "pydump\\keepTrace.py");
    assert NoBreaks("keepTrace");
    ModuleLineClear("keepTrace", "d:\\documents\\test\\" + "pydump\\keepTrace.py");
    assert NoBreaks("sys") && NoBreaks(" <module '") && NoBreaks("' (built-in)>");
    NoBreaksAppend("sys", " <module '");
    NoBreaksAppend("sys" + " <module '", "sys");
    NoBreaksAppend("sys" + " <module '" + "sys", "' (built-in)>");
  }

  lemma ProjectLinesClear()
    ensures NoBreaks(ProjectDir) && NoBreaks(ProjectDir + "\tests\test_pickle.py")
  {
    assert NoBreaks(ProjectDir) && NoBreaks("\tests\test_pickle.py");
    NoBreaksAppend(ProjectDir, "\tests\test_pickle.py");
  }

  lemma NoiseClear()
    ensures forall i :: 0 <= i < |ExampleNoise| ==> NoBreaks(ExampleNoise[i])
  {
    LibModulesClear();
    MoreLibModulesClear();
    LocalModulesClear();
    ProjectLinesClear();
  }

  lemma FileLineClear(path: string, line: string, name: string)
    requires NoBreaks(path) && NoBreaks(line) && NoBreaks(name)
    ensures NoBreaks(FileLine(path, line, name))
  {
    assert NoBreaks("  File \"") && NoBreaks("\", line ") && NoBreaks(", in ");
    NoBreaksAppend("  File \"", path);
    NoBreaksAppend("  File \"" + path, "\", line ");
    NoBreaksAppend("  File \"" + path + "\", line ", line);
    NoBreaksAppend("  File \"" + path + "\", line " + line, ", in ");
    NoBreaksAppend("  File \"" + path + "\", line " + line + ", in ", name);
  }

  lemma IndentedClear()
    ensures forall i :: 0 <= i < |ExampleIndented| ==> NoBreaks(ExampleIndented[i])
  {
    assert NoBreaks("tests\test_pickle.py") && NoBreaks("24") && NoBreaks("test_roundtrip");
    FileLineClear("tests\test_pickle.py", "24", "test_roundtrip");
    assert NoBreaks("21") && NoBreaks("error");
    FileLineClear("tests\test_pickle.py", "21", "error");
    assert NoBreaks("    error()") && NoBreaks("    raise RuntimeError()");
  }

  /** `test_string.splitlines()` gives the lines back. */
  lemma ExampleSplit()
    ensures SplitLines(ExampleText) == ExampleLines
  {
    NoiseClear();
    IndentedClear();
    HeaderClear();
    var tail := ["RuntimeError", ProjectDir];
    ProjectLinesClear();
    assert NoBreaks("RuntimeError");
    forall i | 0 <= i < |ExampleLines| ensures NoBreaks(ExampleLines[i]) {
      if i < |ExampleNoise| {
        assert ExampleLines[i] == ExampleNoise[i];
      } else if i == |ExampleNoise| {
        assert ExampleLines[i] == Header;
      } else if i <= |ExampleNoise| + |ExampleIndented| {
        assert ExampleLines[i] == ExampleIndented[i - |ExampleNoise| - 1];
      } else {
        assert ExampleLines[i] == tail[i - |ExampleNoise| - |ExampleIndented| - 1];
      }
    }
    SplitTerminated(ExampleLines);
  }

  lemma ExampleIndentation()
    ensures forall k :: 0 <= k < |ExampleIndented| ==> Indented(ExampleIndented[k])
    ensures !Indented("RuntimeError")
  {
    var e := ExampleIndented;
    assert e[0][..2] == "  " && e[1][..2] == "  " && e[2][..2] == "  " && e[3][..2] == "  ";
    assert "RuntimeError"[..2] != "  " by { assert "RuntimeError"[..2][0] == 'R'; }
  }

  lemma NoiseWithoutHeader()
    ensures Header !in ExampleNoise
  {
    var n := ExampleNoise;
    assert |Header| == 34;
    assert |n[0]| == 0 && |n[1]| == 14 && |n[2]| == 13 && |n[3]| == 75 && |n[4]| == 59;
    assert |n[5]| == 71 && |n[6]| == 29 && |n[7]| == 80 && |n[8]| == 86 && |n[9]| == 43;
  }

  /** The example's lines hold exactly one block: the header, the four
      indented lines and "RuntimeError". */
  lemma ExampleBlocks()
    ensures Blocks(ExampleLines) == [[Header] + ExampleIndented + ["RuntimeError"]]
  {
    var post := [ProjectDir];
    var rest := [Header] + ExampleIndented + ["RuntimeError"] + post;
    assert ExampleLines == ExampleNoise + rest;
    NoiseWithoutHeader();
    SkipPrefix(ExampleNoise, rest);
    ExampleIndentation();
    OneBlock(ExampleIndented, "RuntimeError", post);
    SkipPrefix(post, []);
    assert post + [] == post;
  }

  lemma ExampleJoin()
    ensures Join([Header] + ExampleIndented + ["RuntimeError"]) == ExampleTrace
  {
    var b := [Header] + ExampleIndented + ["RuntimeError"];
    assert Join(b[5..]) == "RuntimeError";
    assert Join(b[4..]) == b[4] + "\n" + Join(b[5..]);
    assert Join(b[3..]) == b[3] + "\n" + Join(b[4..]);
    assert Join(b[2..]) == b[2] + "\n" + Join(b[3..]);
    assert Join(b[1..]) == b[1] + "\n" + Join(b[2..]);
  }

  /** tests/test_utils.py: `get_traces` finds the traceback among the
      surrounding lines, and it is the only one. */
  method DetectTraceback() returns (traces: seq<string>)
    ensures traces == [ExampleTrace]
  {
    traces := GetTraces(ExampleText);
    ExampleSplit();
    ExampleBlocks();
    ExampleJoin();
  }
}
