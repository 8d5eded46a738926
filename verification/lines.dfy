/** Text as lines: splitting, joining, and the newlines a text ends with. */
module TextLines {
  import opened Basics

  /** What ends a line, for `str.splitlines`. */
  predicate IsBreak(c: char) {
    '\n' <= c <= '\r' || '\U{1C}' <= c <= '\U{1E}' || c == '\U{85}' || c == '\U{2028}' || c == '\U{2029}'
  }

  function BreakLength(text: string): nat
    requires text != "" && IsBreak(text[0])
  {
    if |text| > 1 && text[0] == '\r' && text[1] == '\n' then 2 else 1
  }

  function LinesFrom(text: string, current: string): seq<string>
    decreases |text|
  {
    if text == "" then if current == "" then [] else [current]
    else if IsBreak(text[0]) then [current] + LinesFrom(text[BreakLength(text)..], "")
    else LinesFrom(text[1..], current + [text[0]])
  }

  /** `text.splitlines()` */
  function SplitLines(text: string): seq<string> {
    LinesFrom(text, "")
  }

  predicate IsOneLine(line: string) {
    forall i :: 0 <= i < |line| ==> !IsBreak(line[i])
  }

  predicate AreLines(lines: seq<string>) {
    forall i :: 0 <= i < |lines| ==> IsOneLine(lines[i])
  }

  /** `"\n".join(lines)` */
  function JoinLines(lines: seq<string>): string {
    if lines == [] then "" else if |lines| == 1 then lines[0] else lines[0] + "\n" + JoinLines(lines[1..])
  }

  /** `text.rstrip("\n")` */
  function StripNewlines(text: string): (stripped: string)
    ensures stripped == "" || stripped[|stripped| - 1] != '\n'
    ensures stripped <= text
    decreases |text|
  {
    if text != "" && text[|text| - 1] == '\n' then StripNewlines(text[..|text| - 1]) else text
  }

  /** The lines up to the last one that is not empty. */
  function DropEmpty(lines: seq<string>): (kept: seq<string>)
    ensures kept <= lines
    ensures kept == [] || kept[|kept| - 1] != ""
    decreases |lines|
  {
    if lines != [] && lines[|lines| - 1] == "" then DropEmpty(lines[..|lines| - 1]) else lines
  }

  lemma {:induction false} LinesAreLines(text: string, current: string)
    requires IsOneLine(current)
    ensures AreLines(LinesFrom(text, current))
    decreases |text|
  {
    if text != "" {
      if IsBreak(text[0]) {
        LinesAreLines(text[BreakLength(text)..], "");
      } else {
        LinesAreLines(text[1..], current + [text[0]]);
      }
    }
  }

  /** A newline ends a line whatever follows it. */
  lemma {:induction false} NewlineSplits(text: string, rest: string, current: string)
    ensures LinesFrom(text + "\n" + rest, current) == LinesFrom(text + "\n", current) + SplitLines(rest)
    decreases |text|
  {
    var all := text + "\n" + rest;
    if text == "" {
      assert all == "\n" + rest && text + "\n" == "\n";
      assert all[1..] == rest;
      assert LinesFrom("\n", current) == [current] + LinesFrom("", "");
    } else {
      Associate(text, "\n", rest);
      ConcatTail(text, "\n" + rest);
      ConcatTail(text, "\n");
      if IsBreak(text[0]) {
        var n := BreakLength(all);
        if n <= |text| {
          assert all[n..] == text[n..] + "\n" + rest && (text + "\n")[n..] == text[n..] + "\n";
          NewlineSplits(text[n..], rest, "");
        } else {
          assert text == "\r";
          assert all[2..] == rest && (text + "\n")[2..] == "";
        }
      } else {
        Associate(text[1..], "\n", rest);
        NewlineSplits(text[1..], rest, current + [text[0]]);
      }
    }
  }

  /** Reading on to the end of one line. */
  lemma {:induction false} LineReads(line: string, rest: string, current: string)
    requires IsOneLine(line)
    ensures LinesFrom(line + "\n" + rest, current) == [current + line] + SplitLines(rest)
    decreases |line|
  {
    var all := line + "\n" + rest;
    if line == "" {
      assert all == "\n" + rest && current + line == current;
      assert all[1..] == rest;
    } else {
      Associate(line, "\n", rest);
      ConcatTail(line, "\n" + rest);
      Associate(line[1..], "\n", rest);
      LineReads(line[1..], rest, current + [line[0]]);
      assert current + [line[0]] + line[1..] == current + line;
    }
  }

  /** A line ends at any of the ten characters that end one, and at a carriage return with its newline at once. */
  lemma {:induction false} BreaksSplit(line: string, c: char, rest: string)
    requires IsOneLine(line)
    requires c in ['\n', '\r', '\U{0B}', '\U{0C}', '\U{1C}', '\U{1D}', '\U{1E}', '\U{85}', '\U{2028}', '\U{2029}']
    ensures SplitLines(line + "\r\n" + rest) == [line] + SplitLines(rest)
    ensures c != '\r' || rest == "" || rest[0] != '\n' ==> SplitLines(line + [c] + rest) == [line] + SplitLines(rest)
  {
    BreakReads(line, "\r\n", rest, "");
    if c != '\r' || rest == "" || rest[0] != '\n' {
      BreakReads(line, [c], rest, "");
    }
    assert "" + line == line;
  }

  lemma {:induction false} BreakReads(line: string, ending: string, rest: string, current: string)
    requires IsOneLine(line) && ending != "" && IsBreak(ending[0])
    requires BreakLength(ending + rest) == |ending|
    ensures LinesFrom(line + ending + rest, current) == [current + line] + SplitLines(rest)
    decreases |line|
  {
    Associate(line, ending, rest);
    if line == "" {
      assert line + ending + rest == ending + rest && current + line == current;
      assert (ending + rest)[|ending|..] == rest && (ending + rest)[0] == ending[0];
    } else {
      ConcatTail(line, ending + rest);
      Associate(line[1..], ending, rest);
      BreakReads(line[1..], ending, rest, current + [line[0]]);
      assert current + [line[0]] + line[1..] == current + line;
    }
  }

  /** Joining lines and splitting them again gives them back. */
  lemma {:induction false} JoinSplits(lines: seq<string>)
    requires AreLines(lines) && lines != []
    ensures SplitLines(JoinLines(lines) + "\n") == lines
    decreases |lines|
  {
    if |lines| == 1 {
      LineReads(lines[0], "", "");
      assert lines[0] + "\n" + "" == JoinLines(lines) + "\n";
      assert "" + lines[0] == lines[0];
    } else {
      JoinSplits(lines[1..]);
      LineReads(lines[0], JoinLines(lines[1..]) + "\n", "");
      assert lines[0] + "\n" + (JoinLines(lines[1..]) + "\n") == JoinLines(lines) + "\n";
      assert "" + lines[0] == lines[0];
    }
  }

  lemma {:induction false} JoinConcat(a: seq<string>, b: seq<string>)
    requires a != [] && b != []
    ensures JoinLines(a + b) == JoinLines(a) + "\n" + JoinLines(b)
    decreases |a|
  {
    ConcatTail(a, b);
    if |a| == 1 {
      assert a[1..] + b == b;
    } else {
      JoinConcat(a[1..], b);
      assert JoinLines(a + b) == a[0] + "\n" + (JoinLines(a[1..]) + "\n" + JoinLines(b));
    }
  }

  /** Stripping newlines off joined lines drops the empty lines at the end. */
  lemma {:induction false} StripDrops(lines: seq<string>)
    requires AreLines(lines) && DropEmpty(lines) != []
    ensures StripNewlines(JoinLines(lines)) == JoinLines(DropEmpty(lines))
    decreases |lines|
  {
    var init, last := lines[..|lines| - 1], lines[|lines| - 1];
    Snoc(lines);
    if init != [] {
      JoinConcat(init, [last]);
    }
    if last == "" {
      StripDrops(init);
      assert JoinLines(lines) == JoinLines(init) + "\n";
      assert JoinLines(lines)[..|JoinLines(lines)| - 1] == JoinLines(init);
    } else {
      assert JoinLines(lines)[|JoinLines(lines)| - 1] == last[|last| - 1];
      assert !IsBreak(last[|last| - 1]);
    }
  }

  lemma {:induction false} DropTail(a: seq<string>, b: seq<string>)
    requires a != [] && a[|a| - 1] != ""
    ensures DropEmpty(a + b) == a + DropEmpty(b)
    decreases |b|
  {
    if b == [] {
      assert a + b == a;
      assert a + DropEmpty(b) == a;
    } else {
      ConcatInit(a, b);
      if b[|b| - 1] == "" {
        DropTail(a, b[..|b| - 1]);
      }
    }
  }

  /** A newline at the end adds at most an empty line. */
  lemma {:induction false} NewlineAtEnd(text: string, current: string)
    ensures LinesFrom(text + "\n", current) == LinesFrom(text, current)
         || LinesFrom(text + "\n", current) == LinesFrom(text, current) + [""]
    decreases |text|
  {
    if text == "" {
      assert text + "\n" == "\n";
      assert LinesFrom("\n", current) == [current] + LinesFrom("", "");
    } else {
      ConcatTail(text, "\n");
      if IsBreak(text[0]) {
        var n := BreakLength(text + "\n");
        if n <= |text| {
          assert (text + "\n")[n..] == text[n..] + "\n";
          NewlineAtEnd(text[n..], "");
        } else {
          assert text == "\r" && (text + "\n")[2..] == "" && text[1..] == "";
        }
      } else {
        NewlineAtEnd(text[1..], current + [text[0]]);
      }
    }
  }

  /** Texts that differ in the newlines at their end have the same lines, up to empty ones at the end. */
  lemma {:induction false} StripKeepsLines(text: string)
    ensures DropEmpty(SplitLines(text)) == DropEmpty(SplitLines(StripNewlines(text)))
    decreases |text|
  {
    if text != "" && text[|text| - 1] == '\n' {
      var init := text[..|text| - 1];
      Snoc(text);
      StripKeepsLines(init);
      NewlineAtEnd(init, "");
      var lines := SplitLines(init);
      assert (lines + [""])[..|lines + [""]| - 1] == lines;
    }
  }

  lemma {:induction false} DropKeepsIndex(lines: seq<string>, k: nat)
    requires k < |lines| && lines[k] != ""
    ensures k < |DropEmpty(lines)|
    decreases |lines|
  {
    if lines[|lines| - 1] == "" {
      DropKeepsIndex(lines[..|lines| - 1], k);
    }
  }
}
