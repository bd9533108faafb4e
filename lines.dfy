/** Python's `str.splitlines()` and the two ways the sources put lines back
    together: `"\n".join(lines)` and `line + "\n"` for each line. */
module Lines {

  /** The characters `str.splitlines` breaks at: "\n", "\v", "\f", "\r"
      (10 to 13), the separators 0x1C to 0x1E, NEL (0x85) and the Unicode
      line and paragraph separators; "\r\n" counts as one break. */
  predicate IsBreak(c: char) {
    var n := c as int;
    10 <= n <= 13 || 0x1C <= n <= 0x1E || n == 0x85 || n == 0x2028 || n == 0x2029
  }

  predicate NoBreaks(s: string) {
    forall i :: 0 <= i < |s| ==> !IsBreak(s[i])
  }

  lemma NoBreaksAppend(a: string, b: string)
    requires NoBreaks(a) && NoBreaks(b)
    ensures NoBreaks(a + b)
  {
    forall i | |a| <= i < |a + b| ensures !IsBreak((a + b)[i]) {
      assert (a + b)[i] == b[i - |a|];
    }
  }

  /** A text whose only line breaks are "\n", as files written on POSIX systems are. */
  predicate OnlyNewlines(s: string) {
    forall i :: 0 <= i < |s| && IsBreak(s[i]) ==> s[i] == '\n'
  }

  /** The index of the first break in `s`, or `|s|` when there is none. */
  function FirstBreak(s: string): (i: nat)
    ensures i <= |s| && NoBreaks(s[..i]) && (i < |s| ==> IsBreak(s[i]))
  {
    if s == [] || IsBreak(s[0]) then 0
    else
      var j := FirstBreak(s[1..]);
      assert s[..1 + j] == [s[0]] + s[1..][..j];
      1 + j
  }

  /** `s.splitlines()`: the texts between breaks. A break at the very end
      opens no further line, so "" and "a\n" give [] and ["a"]. */
  function SplitLines(s: string): (lines: seq<string>)
    ensures forall i :: 0 <= i < |lines| ==> NoBreaks(lines[i])
    ensures s == [] <==> lines == []
    decreases |s|
  {
    if s == [] then []
    else
      var i := FirstBreak(s);
      if i == |s| then
        assert s[..i] == s;
        [s]
      else
        var next := if s[i] == '\r' && i + 1 < |s| && s[i + 1] == '\n' then i + 2 else i + 1;
        [s[..i]] + SplitLines(s[next..])
  }

  /** `"\n".join(lines)`. */
  function Join(lines: seq<string>): string {
    if lines == [] then ""
    else if |lines| == 1 then lines[0]
    else lines[0] + "\n" + Join(lines[1..])
  }

  /** `[line + "\n" for line in lines]`. */
  function WithNewlines(lines: seq<string>): (r: seq<string>)
    ensures |r| == |lines| && forall i :: 0 <= i < |r| ==> r[i] == lines[i] + "\n"
  {
    seq(|lines|, i requires 0 <= i < |lines| => lines[i] + "\n")
  }

  /** `"".join(parts)`. */
  function Concat(parts: seq<string>): string {
    if parts == [] then "" else parts[0] + Concat(parts[1..])
  }

  /** The text with a final "\n" added unless it is empty or already ends in one. */
  function Newlined(s: string): string {
    if s == [] || s[|s| - 1] == '\n' then s else s + "\n"
  }

  lemma {:induction false} FirstBreakAfter(line: string, c: char, rest: string)
    requires NoBreaks(line) && IsBreak(c)
    ensures FirstBreak(line + [c] + rest) == |line|
  {
    if line != [] {
      assert (line + [c] + rest)[1..] == line[1..] + [c] + rest;
      FirstBreakAfter(line[1..], c, rest);
    }
  }

  /** A line without breaks, then "\n": splitting takes the line off the front. */
  lemma SplitLinesCons(line: string, rest: string)
    requires NoBreaks(line)
    ensures SplitLines(line + "\n" + rest) == [line] + SplitLines(rest)
  {
    var s := line + "\n" + rest;
    FirstBreakAfter(line, '\n', rest);
    assert s[..|line|] == line;
    assert s[|line| + 1..] == rest;
  }

  /** Terminating every line and splitting again gives the lines back. */
  lemma {:induction false} SplitTerminated(lines: seq<string>)
    requires forall i :: 0 <= i < |lines| ==> NoBreaks(lines[i])
    ensures SplitLines(Concat(WithNewlines(lines))) == lines
  {
    if lines != [] {
      assert WithNewlines(lines)[1..] == WithNewlines(lines[1..]);
      SplitTerminated(lines[1..]);
      SplitLinesCons(lines[0], Concat(WithNewlines(lines[1..])));
    }
  }

  /** Joining lines with "\n" and splitting again gives them back, as long as
      the last one is not empty (a trailing "\n" opens no line). */
  lemma {:induction false} SplitJoin(lines: seq<string>)
    requires lines != [] && lines[|lines| - 1] != ""
    requires forall i :: 0 <= i < |lines| ==> NoBreaks(lines[i])
    ensures SplitLines(Join(lines)) == lines
  {
    if |lines| == 1 {
      assert FirstBreak(lines[0]) == |lines[0]|;
    } else {
      SplitJoin(lines[1..]);
      SplitLinesCons(lines[0], Join(lines[1..]));
    }
  }

  lemma ConcatCons(line: string, rest: string)
    requires NoBreaks(line)
    ensures Concat(WithNewlines(SplitLines(line + "\n" + rest)))
         == line + "\n" + Concat(WithNewlines(SplitLines(rest)))
  {
    SplitLinesCons(line, rest);
    var parts := WithNewlines(SplitLines(line + "\n" + rest));
    assert parts[1..] == WithNewlines(SplitLines(rest));
  }

  lemma ConcatSingle(s: string)
    requires s != [] && NoBreaks(s)
    ensures Concat(WithNewlines(SplitLines(s))) == s + "\n" && s[|s| - 1] != '\n'
  {
  }

  lemma NewlinedCons(line: string, rest: string)
    ensures Newlined(line + "\n" + rest) == line + "\n" + Newlined(rest)
  {
  }

  /** Splitting a text whose only breaks are "\n" and terminating each line
      rebuilds the text, with a final "\n" added when it lacked one. */
  lemma {:induction false} TerminatedSplit(s: string)
    requires OnlyNewlines(s)
    ensures Concat(WithNewlines(SplitLines(s))) == Newlined(s)
    decreases |s|
  {
    if s != [] {
      var i := FirstBreak(s);
      if i == |s| {
        assert s[..i] == s;
        ConcatSingle(s);
      } else {
        var line, rest := s[..i], s[i + 1..];
        assert s == line + "\n" + rest;
        assert OnlyNewlines(rest) by {
          forall k | 0 <= k < |rest| && IsBreak(rest[k]) ensures rest[k] == '\n' {
            assert rest[k] == s[i + 1 + k];
          }
        }
        TerminatedSplit(rest);
        ConcatCons(line, rest);
        NewlinedCons(line, rest);
      }
    }
  }
}
