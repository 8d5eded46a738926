/** Splicing a managed block into a configuration somebody else also writes. */
module Splice {
  import opened Basics
  import opened TextLines

  /** The two lines a managed block is recognised by. */
  datatype Markers = Markers(begin: string, end: string)

  predicate IsMarkers(m: Markers) {
    m.begin != "" && m.end != "" && m.begin != m.end && IsOneLine(m.begin) && IsOneLine(m.end)
  }

  /** `lines.index(line)` */
  function First(lines: seq<string>, line: string): (at: nat)
    requires line in lines
    ensures at < |lines| && lines[at] == line && line !in lines[..at]
    decreases |lines|
  {
    if lines[0] == line then 0
    else
      assert lines == [lines[0]] + lines[1..];
      var later := First(lines[1..], line);
      assert lines[..later + 1] == [lines[0]] + lines[1..][..later];
      later + 1
  }

  predicate HasBoth(lines: seq<string>, m: Markers) {
    m.begin in lines && m.end in lines
  }

  /** `lines[start:end + 1]`, empty when the end comes first. */
  function Slice(lines: seq<string>, start: nat, end: nat): seq<string>
    requires start < |lines| && end < |lines|
  {
    if start <= end then lines[start..end + 1] else []
  }

  /** From the first begin to the first end after it, if a text has both. */
  function CurrentBlock(text: string, m: Markers): Option<string> {
    var lines := SplitLines(text);
    if HasBoth(lines, m) then Some(JoinLines(Slice(lines, First(lines, m.begin), First(lines, m.end)))) else None
  }

  function Replaced(lines: seq<string>, block: seq<string>, m: Markers): seq<string>
    requires HasBoth(lines, m)
  {
    lines[..First(lines, m.begin)] + block + lines[First(lines, m.end) + 1..]
  }

  /** What an appended block follows: the text and an empty line, or nothing. */
  function Before(text: string): string {
    var base := StripNewlines(text);
    if base == "" then "" else base + "\n" + "\n"
  }

  /** The text after the splice: a new block where the old one stood, else at the end. */
  function ConfigWith(text: string, block: string, m: Markers): string {
    var lines := SplitLines(text);
    if HasBoth(lines, m) then StripNewlines(JoinLines(Replaced(lines, SplitLines(block), m))) + "\n"
    else Before(text) + block + "\n"
  }

  /** A block's lines: the markers at its ends and nowhere else. */
  ghost predicate IsBlock(block: seq<string>, m: Markers) {
    && AreLines(block) && |block| >= 2 && block[0] == m.begin && block[|block| - 1] == m.end
    && m.begin !in block[1..] && m.end !in block[..|block| - 1]
  }

  /** Neither marker, or both with the first begin before the first end. */
  predicate IsClean(lines: seq<string>, m: Markers) {
    (m.begin !in lines && m.end !in lines) || (HasBoth(lines, m) && First(lines, m.begin) < First(lines, m.end))
  }

  /** The lines outside the block. */
  function Outside(lines: seq<string>, m: Markers): seq<string> {
    if HasBoth(lines, m) && First(lines, m.begin) < First(lines, m.end)
    then lines[..First(lines, m.begin)] + lines[First(lines, m.end) + 1..]
    else lines
  }

  // ── what is written, as lines ──

  lemma BlockSplits(block: seq<string>, m: Markers)
    requires IsMarkers(m) && IsBlock(block, m)
    ensures SplitLines(JoinLines(block)) == block
  {
    JoinSplits(block);
    NewlineAtEnd(JoinLines(block), "");
    var lines := SplitLines(JoinLines(block));
    assert (lines + [""])[|lines|] == "";
  }

  /** The lines of a text whose block is replaced, and how they are joined. */
  lemma ReplacedForm(text: string, block: seq<string>, m: Markers)
    requires IsMarkers(m) && IsBlock(block, m) && HasBoth(SplitLines(text), m)
    ensures var lines := SplitLines(text);
            var kept := lines[..First(lines, m.begin)] + block + DropEmpty(lines[First(lines, m.end) + 1..]);
            && kept == DropEmpty(Replaced(lines, block, m))
            && ConfigWith(text, JoinLines(block), m) == JoinLines(kept) + "\n"
            && SplitLines(ConfigWith(text, JoinLines(block), m)) == kept
  {
    var lines := SplitLines(text);
    var head, tail := lines[..First(lines, m.begin)], lines[First(lines, m.end) + 1..];
    BlockSplits(block, m);
    LinesAreLines(text, "");
    assert AreLines(head + block + tail) && block[|block| - 1] != "";
    assert Replaced(lines, block, m) == head + block + tail;
    assert (head + block)[|head + block| - 1] == block[|block| - 1];
    hide First, SplitLines, JoinLines, StripNewlines, DropEmpty, IsOneLine, AreLines, IsBlock, Replaced;
    DropTail(head + block, tail);
    StripDrops(head + block + tail);
    KeptAreLines(head + block + tail);
    JoinSplits(DropEmpty(head + block + tail));
  }

  lemma {:induction false} KeptAreLines(lines: seq<string>)
    requires AreLines(lines)
    ensures AreLines(DropEmpty(lines))
  {
    hide DropEmpty, IsOneLine;
    assert DropEmpty(lines) <= lines;
  }

  /** The lines of a text whose block is appended. */
  lemma AppendedForm(text: string, block: seq<string>, m: Markers)
    requires IsMarkers(m) && IsBlock(block, m) && !HasBoth(SplitLines(text), m)
    ensures SplitLines(ConfigWith(text, JoinLines(block), m)) == SplitLines(Before(text)) + block
  {
    JoinSplits(block);
    var base, rest := StripNewlines(text), JoinLines(block) + "\n";
    if base == "" {
      assert Before(text) + JoinLines(block) + "\n" == rest;
    } else {
      NewlineSplits(base + "\n", rest, "");
      assert Before(text) + JoinLines(block) + "\n" == base + "\n" + "\n" + rest;
    }
  }

  lemma StripOne(text: string)
    ensures StripNewlines(text + "\n") == StripNewlines(text)
  {
    assert (text + "\n")[..|text|] == text;
  }

  lemma BeforeStrips(text: string)
    ensures StripNewlines(Before(text)) == StripNewlines(text)
    ensures DropEmpty(SplitLines(Before(text))) == DropEmpty(SplitLines(text))
  {
    var base := StripNewlines(text);
    StripOne(base);
    StripOne(base + "\n");
    StripKeepsLines(text);
    StripKeepsLines(Before(text));
  }

  /** Lines that differ only in empty ones at the end hold the same others at the same places. */
  lemma SameLine(a: seq<string>, b: seq<string>, line: string)
    requires DropEmpty(a) == DropEmpty(b) && line != ""
    ensures line in a <==> line in b
    ensures line in a ==> First(a, line) == First(b, line) && a[..First(a, line)] == b[..First(a, line)]
  {
    KeptLine(a, line);
    KeptLine(b, line);
  }

  lemma KeptLine(a: seq<string>, line: string)
    requires line != ""
    ensures line in a <==> line in DropEmpty(a)
    ensures line in a ==> First(a, line) == First(DropEmpty(a), line)
    ensures line in a ==> a[..First(a, line)] == DropEmpty(a)[..First(a, line)]
  {
    var kept := DropEmpty(a);
    if line in a {
      var k := First(a, line);
      DropKeepsIndex(a, k);
      assert kept[k] == line;
      assert kept[..k] == a[..k];
      FirstIs(kept, line, k);
    }
    if line in kept {
      var k := First(kept, line);
      assert a[k] == line;
    }
  }

  lemma FirstIs(lines: seq<string>, line: string, k: nat)
    requires k < |lines| && lines[k] == line && line !in lines[..k]
    ensures line in lines && First(lines, line) == k
  {
    var at := First(lines, line);
    assert forall i :: 0 <= i < k ==> lines[..k][i] == lines[i];
    assert forall i :: 0 <= i < at ==> lines[..at][i] == lines[i];
  }

  lemma FirstWithin(head: seq<string>, rest: seq<string>, line: string)
    requires line in head
    ensures line in head + rest && First(head + rest, line) == First(head, line)
  {
    var k := First(head, line);
    assert (head + rest)[..k] == head[..k];
    FirstIs(head + rest, line, k);
  }

  lemma FirstAfter(head: seq<string>, rest: seq<string>, line: string)
    requires line !in head && line in rest
    ensures line in head + rest && First(head + rest, line) == |head| + First(rest, line)
  {
    var k := First(rest, line);
    assert (head + rest)[..|head| + k] == head + rest[..k];
    FirstIs(head + rest, line, |head| + k);
  }

  lemma BlockMarkers(block: seq<string>, tail: seq<string>, m: Markers)
    requires IsMarkers(m) && IsBlock(block, m)
    ensures HasBoth(block + tail, m) && First(block + tail, m.begin) == 0 && First(block + tail, m.end) == |block| - 1
  {
    assert block[..0] == [];
    FirstIs(block, m.begin, 0);
    FirstIs(block, m.end, |block| - 1);
    FirstWithin(block, tail, m.begin);
    FirstWithin(block, tail, m.end);
  }

  /** Where the markers are found once a block stands after lines without its begin. */
  lemma MarkersIn(head: seq<string>, block: seq<string>, tail: seq<string>, m: Markers)
    requires IsMarkers(m) && IsBlock(block, m) && m.begin !in head
    ensures var all := head + block + tail;
            && HasBoth(all, m) && First(all, m.begin) == |head|
            && (m.end in head ==> First(all, m.end) == First(head, m.end))
            && (m.end !in head ==> First(all, m.end) == |head| + |block| - 1)
  {
    hide First, IsBlock, IsMarkers;
    Associate(head, block, tail);
    BlockMarkers(block, tail, m);
    FirstAfter(head, block + tail, m.begin);
    if m.end in head {
      FirstWithin(head, block + tail, m.end);
    } else {
      FirstAfter(head, block + tail, m.end);
    }
  }

  // ── reading back what was written ──

  /** The lines a block is appended to have the markers exactly where the text had them. */
  lemma SameMarkers(text: string, m: Markers)
    requires IsMarkers(m)
    ensures var lines, head := SplitLines(text), SplitLines(Before(text));
            && (m.begin in lines <==> m.begin in head) && (m.end in lines <==> m.end in head)
            && (m.begin in lines ==> First(lines, m.begin) == First(head, m.begin)
                                     && lines[..First(lines, m.begin)] == head[..First(lines, m.begin)])
  {
    hide First;
    BeforeStrips(text);
    SameLine(SplitLines(text), SplitLines(Before(text)), m.begin);
    SameLine(SplitLines(text), SplitLines(Before(text)), m.end);
  }

  /** A text with a block between lines that have no marker before it reads as that block. */
  lemma BlockIsRead(text: string, head: seq<string>, block: seq<string>, tail: seq<string>, m: Markers)
    requires IsMarkers(m) && IsBlock(block, m) && SplitLines(text) == head + block + tail
    requires m.begin !in head && m.end !in head
    ensures CurrentBlock(text, m) == Some(JoinLines(block))
    ensures Outside(SplitLines(text), m) == head + tail
  {
    hide First, SplitLines, JoinLines, IsBlock, IsMarkers;
    assert |block| >= 2 by {
      BlockLength(block, m);
    }
    MarkersIn(head, block, tail, m);
    var all := head + block + tail;
    assert all[|head|..|head| + |block|] == block;
    assert all[..|head|] == head && all[|head| + |block|..] == tail;
  }

  lemma BlockLength(block: seq<string>, m: Markers)
    requires IsBlock(block, m)
    ensures |block| >= 2
  {
  }

  lemma CleanReadsBack(text: string, block: seq<string>, m: Markers)
    requires IsMarkers(m) && IsBlock(block, m) && IsClean(SplitLines(text), m)
    ensures CurrentBlock(ConfigWith(text, JoinLines(block), m), m) == Some(JoinLines(block))
    ensures Outside(SplitLines(ConfigWith(text, JoinLines(block), m)), m)
         == if HasBoth(SplitLines(text), m)
            then SplitLines(text)[..First(SplitLines(text), m.begin)]
                   + DropEmpty(SplitLines(text)[First(SplitLines(text), m.end) + 1..])
            else SplitLines(Before(text))
  {
    hide First, SplitLines, JoinLines, IsBlock, IsMarkers, CurrentBlock, ConfigWith, Before, Outside;
    var lines, once := SplitLines(text), ConfigWith(text, JoinLines(block), m);
    if HasBoth(lines, m) {
      ReplacedForm(text, block, m);
      EndLater(lines, m);
      BlockIsRead(once, lines[..First(lines, m.begin)], block, DropEmpty(lines[First(lines, m.end) + 1..]), m);
    } else {
      AppendedForm(text, block, m);
      SameMarkers(text, m);
      var head := SplitLines(Before(text));
      assert head + block + [] == head + block && head + [] == head;
      BlockIsRead(once, head, block, [], m);
    }
  }

  lemma EndLater(lines: seq<string>, m: Markers)
    requires HasBoth(lines, m) && First(lines, m.begin) < First(lines, m.end)
    ensures m.end !in lines[..First(lines, m.begin)]
  {
    var s, e := First(lines, m.begin), First(lines, m.end);
    assert lines[..s] == lines[..e][..s];
  }

  lemma EndEarlier(lines: seq<string>, m: Markers)
    requires HasBoth(lines, m) && First(lines, m.end) < First(lines, m.begin)
    ensures m.end in lines[..First(lines, m.begin)]
    ensures First(lines[..First(lines, m.begin)], m.end) == First(lines, m.end)
  {
    var s, e := First(lines, m.begin), First(lines, m.end);
    assert lines[..s][e] == m.end && lines[..s][..e] == lines[..e];
    FirstIs(lines[..s], m.end, e);
  }

  /** Only a begin: it and everything after it is taken for the block. */
  lemma BeginOnly(text: string, block: seq<string>, m: Markers)
    requires IsMarkers(m) && IsBlock(block, m) && m.begin in SplitLines(text) && m.end !in SplitLines(text)
    ensures var f, head := First(SplitLines(text), m.begin), SplitLines(Before(text));
            var all := head + block;
            && SplitLines(ConfigWith(text, JoinLines(block), m)) == all && HasBoth(all, m)
            && f < |head| && First(all, m.begin) == f && First(all, m.end) == |all| - 1
            && head[..f] == SplitLines(text)[..f]
  {
    var lines, head := SplitLines(text), SplitLines(Before(text));
    var f := First(lines, m.begin);
    AppendedForm(text, block, m);
    BeforeStrips(text);
    SameLine(lines, head, m.begin);
    SameLine(lines, head, m.end);
    var all := head + block;
    assert all[f] == m.begin && all[..f] == head[..f];
    FirstIs(all, m.begin, f);
    assert all[..|all| - 1] == head + block[..|block| - 1];
    FirstIs(all, m.end, |all| - 1);
  }

  /** An end before any begin, and the lines that are written then. */
  lemma EndFirst(text: string, block: seq<string>, m: Markers)
    requires IsMarkers(m) && IsBlock(block, m) && m.end in SplitLines(text)
    requires m.begin in SplitLines(text) ==> First(SplitLines(text), m.end) < First(SplitLines(text), m.begin)
    ensures var all := SplitLines(ConfigWith(text, JoinLines(block), m));
            && HasBoth(all, m) && First(all, m.end) < First(all, m.begin) && all[|all| - 1] != ""
  {
    hide First, SplitLines, JoinLines, IsOneLine, ConfigWith, Before;
    var lines := SplitLines(text);
    if m.begin in lines {
      ReplacedForm(text, block, m);
      EndEarlier(lines, m);
      MarkersIn(lines[..First(lines, m.begin)], block, DropEmpty(lines[First(lines, m.end) + 1..]), m);
    } else {
      var head := SplitLines(Before(text));
      AppendedForm(text, block, m);
      SameMarkers(text, m);
      MarkersIn(head, block, [], m);
      assert head + block + [] == head + block;
    }
  }

  lemma TailIsLonger(head: seq<string>, block: seq<string>, f: nat)
    requires f < |head| && block != []
    ensures |JoinLines((head + block)[f..])| > |JoinLines(block)|
  {
    assert (head + block)[f..] == head[f..] + block;
    JoinConcat(head[f..], block);
  }

  lemma ReadsToEnd(text: string, all: seq<string>, f: nat, m: Markers)
    requires SplitLines(text) == all && HasBoth(all, m) && f < |all|
    requires First(all, m.begin) == f && First(all, m.end) == |all| - 1
    ensures CurrentBlock(text, m) == Some(JoinLines(all[f..]))
  {
    assert all[f..|all| - 1 + 1] == all[f..];
  }

  lemma BeginOnlyMisread(text: string, block: seq<string>, m: Markers)
    requires IsMarkers(m) && IsBlock(block, m) && m.begin in SplitLines(text) && m.end !in SplitLines(text)
    ensures CurrentBlock(ConfigWith(text, JoinLines(block), m), m) != Some(JoinLines(block))
  {
    hide First, SplitLines, JoinLines, IsOneLine, ConfigWith, Before, CurrentBlock;
    var f, head := First(SplitLines(text), m.begin), SplitLines(Before(text));
    BeginOnly(text, block, m);
    TailIsLonger(head, block, f);
    ReadsToEnd(ConfigWith(text, JoinLines(block), m), head + block, f, m);
  }

  lemma EndFirstMisread(text: string, block: seq<string>, m: Markers)
    requires IsMarkers(m) && IsBlock(block, m) && m.end in SplitLines(text)
    requires m.begin in SplitLines(text) ==> First(SplitLines(text), m.end) < First(SplitLines(text), m.begin)
    ensures CurrentBlock(ConfigWith(text, JoinLines(block), m), m) != Some(JoinLines(block))
  {
    assert |JoinLines(block)| > 0 && JoinLines([]) == "";
    hide First, SplitLines, JoinLines, IsBlock, IsMarkers, ConfigWith;
    EndFirst(text, block, m);
  }

  /** What was written reads back as the block exactly when the text was clean: neither marker in
      it, or its first begin before its first end. */
  lemma ReadsBackIff(text: string, block: seq<string>, m: Markers)
    requires IsMarkers(m) && IsBlock(block, m)
    ensures CurrentBlock(ConfigWith(text, JoinLines(block), m), m) == Some(JoinLines(block))
       <==> IsClean(SplitLines(text), m)
  {
    hide SplitLines, JoinLines, IsBlock, ConfigWith, CurrentBlock;
    var lines := SplitLines(text);
    if IsClean(lines, m) {
      CleanReadsBack(text, block, m);
    } else if m.end !in lines {
      BeginOnlyMisread(text, block, m);
    } else {
      assert m.begin in lines ==> First(lines, m.end) != First(lines, m.begin);
      EndFirstMisread(text, block, m);
    }
  }

  // ── writing twice ──

  /** No line break but a plain newline. */
  predicate HasPlainBreaks(text: string) {
    forall i :: 0 <= i < |text| && IsBreak(text[i]) ==> text[i] == '\n'
  }

  lemma Rejoined(current: string, joined: string, text: string)
    requires text != "" && text[0] == '\n' && joined + "\n" == text[1..]
    ensures current + "\n" + joined + "\n" == current + text
  {
    assert text == "\n" + (joined + "\n");
  }

  lemma {:induction false} PlainRejoins(text: string, current: string)
    requires HasPlainBreaks(text) && text != "" && text[|text| - 1] == '\n'
    ensures JoinLines(LinesFrom(text, current)) + "\n" == current + text
    ensures LinesFrom(text, current) != []
    decreases |text|
  {
    if text[0] == '\n' {
      assert BreakLength(text) == 1;
      if |text| == 1 {
        assert text == "\n" && text[1..] == "";
      } else {
        PlainRejoins(text[1..], "");
        var rest := LinesFrom(text[1..], "");
        assert ([current] + rest)[1..] == rest;
        assert "" + text[1..] == text[1..];
        Rejoined(current, JoinLines(rest), text);
      }
    } else {
      PlainRejoins(text[1..], current + [text[0]]);
      assert current + [text[0]] + text[1..] == current + text;
    }
  }

  lemma {:induction false} JoinIsPlain(lines: seq<string>)
    requires AreLines(lines)
    ensures HasPlainBreaks(JoinLines(lines))
    decreases |lines|
  {
    if |lines| > 1 {
      JoinIsPlain(lines[1..]);
    }
  }

  /** A text that already has the block where it belongs is only joined again. */
  lemma ReplacedStays(text: string, head: seq<string>, block: seq<string>, tail: seq<string>, m: Markers)
    requires IsMarkers(m) && IsBlock(block, m) && SplitLines(text) == head + block + tail
    requires m.begin !in head && m.end !in head && DropEmpty(tail) == tail
    ensures ConfigWith(text, JoinLines(block), m) == JoinLines(head + block + tail) + "\n"
  {
    MarkersIn(head, block, tail, m);
    ReplacedForm(text, block, m);
    var all := head + block + tail;
    assert all[..|head|] == head && all[|head| + |block|..] == tail;
  }

  lemma {:induction false} CleanTwice(text: string, block: seq<string>, m: Markers)
    requires IsMarkers(m) && IsBlock(block, m) && IsClean(SplitLines(text), m)
    ensures var once := ConfigWith(text, JoinLines(block), m);
            ConfigWith(once, JoinLines(block), m) == once <==> HasBoth(SplitLines(text), m) || HasPlainBreaks(text)
  {
    hide First, SplitLines, JoinLines, IsBlock, IsMarkers, DropEmpty, HasPlainBreaks, Before;
    var lines, once := SplitLines(text), ConfigWith(text, JoinLines(block), m);
    if HasBoth(lines, m) {
      hide ConfigWith;
      EndLater(lines, m);
      ReplacedForm(text, block, m);
      var tail := lines[First(lines, m.end) + 1..];
      DropOnce(tail);
      ReplacedStays(once, lines[..First(lines, m.begin)], block, DropEmpty(tail), m);
    } else {
      var head := SplitLines(Before(text));
      AppendedForm(text, block, m);
      SameMarkers(text, m);
      assert head + block + [] == head + block;
      DropOnce([]);
      ReplacedStays(once, head, block, [], m);
      AppendedTwice(text, block, m);
    }
  }

  lemma DropOnce(lines: seq<string>)
    ensures DropEmpty(DropEmpty(lines)) == DropEmpty(lines)
    ensures DropEmpty([]) == []
  {
  }

  lemma AppendedTwice(text: string, block: seq<string>, m: Markers)
    requires IsMarkers(m) && IsBlock(block, m)
    ensures Before(text) + JoinLines(block) + "\n" == JoinLines(SplitLines(Before(text)) + block) + "\n"
       <==> HasPlainBreaks(text)
  {
    var before, head := Before(text), SplitLines(Before(text));
    PlainBefore(text);
    if before == "" {
      LinesAreLines(before, "");
      JoinIsPlain(head + block);
      assert head + block == block;
      assert before + JoinLines(block) + "\n" == JoinLines(block) + "\n";
    } else if HasPlainBreaks(before) {
      PlainRejoins(before, "");
      hide SplitLines, HasPlainBreaks, IsBlock, IsMarkers;
      JoinConcat(head, block);
      assert "" + before == before;
    } else {
      BrokenBefore(before, block);
    }
  }

  lemma BrokenBefore(before: string, block: seq<string>)
    requires !HasPlainBreaks(before) && AreLines(block)
    ensures before + JoinLines(block) + "\n" != JoinLines(SplitLines(before) + block) + "\n"
  {
    var head := SplitLines(before);
    LinesAreLines(before, "");
    JoinIsPlain(head + block);
    var i :| 0 <= i < |before| && IsBreak(before[i]) && before[i] != '\n';
    hide SplitLines, JoinLines;
    assert (before + JoinLines(block) + "\n")[i] == before[i];
    assert HasPlainBreaks(JoinLines(head + block) + "\n");
  }

  lemma PlainBefore(text: string)
    ensures HasPlainBreaks(Before(text)) <==> HasPlainBreaks(text)
  {
    var base := StripNewlines(text);
    StrippedAreNewlines(text);
    if base != "" {
      assert HasPlainBreaks(base) <==> HasPlainBreaks(Before(text)) by {
        assert Before(text)[..|base|] == base;
        if i :| 0 <= i < |base| && IsBreak(base[i]) && base[i] != '\n' {
          assert Before(text)[i] == base[i];
        }
      }
    }
    if i :| 0 <= i < |base| && IsBreak(base[i]) && base[i] != '\n' {
      assert text[i] == base[i];
    }
  }

  lemma {:induction false} StrippedAreNewlines(text: string)
    ensures forall i :: |StripNewlines(text)| <= i < |text| ==> text[i] == '\n'
    decreases |text|
  {
    if text != "" && text[|text| - 1] == '\n' {
      StrippedAreNewlines(text[..|text| - 1]);
    }
  }

  /** Only a begin: the second time, everything after it is gone. */
  lemma BeginOnlySwallows(text: string, block: seq<string>, m: Markers)
    requires IsMarkers(m) && IsBlock(block, m) && m.begin in SplitLines(text) && m.end !in SplitLines(text)
    ensures SplitLines(ConfigWith(ConfigWith(text, JoinLines(block), m), JoinLines(block), m))
         == SplitLines(text)[..First(SplitLines(text), m.begin)] + block
  {
    var once := ConfigWith(text, JoinLines(block), m);
    BeginOnly(text, block, m);
    ReplacedForm(once, block, m);
    var f, all := First(SplitLines(text), m.begin), SplitLines(once);
    assert all[|all|..] == [];
    assert all[..f] == SplitLines(text)[..f];
    assert all[..f] + block + [] == all[..f] + block;
  }

  /** An end first: every time, the lines between it and the begin are written once more. */
  lemma EndFirstGrows(text: string, block: seq<string>, m: Markers)
    requires IsMarkers(m) && IsBlock(block, m) && HasBoth(SplitLines(text), m)
    requires First(SplitLines(text), m.end) < First(SplitLines(text), m.begin)
    requires SplitLines(text)[|SplitLines(text)| - 1] != ""
    ensures |SplitLines(ConfigWith(text, JoinLines(block), m))| > |SplitLines(text)|
  {
    var lines := SplitLines(text);
    ReplacedForm(text, block, m);
    var tail := lines[First(lines, m.end) + 1..];
    assert tail[|tail| - 1] == lines[|lines| - 1];
    assert DropEmpty(tail) == tail;
  }

  /** Writing twice is writing once exactly when the text was clean, and either had the block
      already or has no line break but newlines. */
  lemma {:induction false} IdempotentIff(text: string, block: seq<string>, m: Markers)
    requires IsMarkers(m) && IsBlock(block, m)
    ensures var once := ConfigWith(text, JoinLines(block), m);
            ConfigWith(once, JoinLines(block), m) == once <==>
              IsClean(SplitLines(text), m) && (HasBoth(SplitLines(text), m) || HasPlainBreaks(text))
  {
    var lines, once := SplitLines(text), ConfigWith(text, JoinLines(block), m);
    if IsClean(lines, m) {
      CleanTwice(text, block, m);
    } else if m.begin in lines && m.end !in lines {
      BeginOnly(text, block, m);
      BeginOnlySwallows(text, block, m);
    } else {
      assert m.begin in lines ==> First(lines, m.end) != First(lines, m.begin);
      EndFirst(text, block, m);
      EndFirstGrows(once, block, m);
    }
  }

  // ── the lines somebody else wrote ──

  lemma {:induction false} DropInner(a: seq<string>, b: seq<string>)
    ensures DropEmpty(a + DropEmpty(b)) == DropEmpty(a + b)
    decreases |b|
  {
    if b != [] && b[|b| - 1] == "" {
      ConcatInit(a, b);
      DropInner(a, b[..|b| - 1]);
    }
  }

  /** In a clean text every line outside the block survives, in order, but for empty lines at the end. */
  lemma OutsideSurvives(text: string, block: seq<string>, m: Markers)
    requires IsMarkers(m) && IsBlock(block, m) && IsClean(SplitLines(text), m)
    ensures DropEmpty(Outside(SplitLines(ConfigWith(text, JoinLines(block), m)), m))
         == DropEmpty(Outside(SplitLines(text), m))
  {
    hide First, SplitLines, JoinLines, IsBlock, IsMarkers, IsClean, ConfigWith, Before, DropEmpty, Outside;
    var lines := SplitLines(text);
    CleanReadsBack(text, block, m);
    OutsideOfClean(lines, m);
    if HasBoth(lines, m) {
      DropInner(lines[..First(lines, m.begin)], lines[First(lines, m.end) + 1..]);
    } else {
      BeforeStrips(text);
    }
  }

  lemma OutsideOfClean(lines: seq<string>, m: Markers)
    requires IsClean(lines, m)
    ensures HasBoth(lines, m) ==>
              Outside(lines, m) == lines[..First(lines, m.begin)] + lines[First(lines, m.end) + 1..]
    ensures !HasBoth(lines, m) ==> Outside(lines, m) == lines
  {
  }

  /** A block that stands in a text is replaced where it stands: the lines before it and after it are what they
      were, up to empty lines at the end. */
  lemma BlockIsReplaced(text: string, head: seq<string>, old': seq<string>, tail: seq<string>, block: seq<string>,
                        m: Markers)
    requires IsMarkers(m) && IsBlock(old', m) && IsBlock(block, m)
    requires SplitLines(text) == head + old' + tail
    requires m.begin !in head && m.end !in head
    ensures SplitLines(ConfigWith(text, JoinLines(block), m)) == head + block + DropEmpty(tail)
  {
    var lines := SplitLines(text);
    var last := |head| + |old'| - 1;
    assert lines[|head|] == old'[0] && lines[last] == old'[|old'| - 1];
    FirstIs(lines, m.begin, |head|);
    assert m.end !in lines[..last] by {
      assert lines[..last] == head + old'[..|old'| - 1];
    }
    FirstIs(lines, m.end, last);
    assert lines[..|head|] == head && lines[last + 1..] == tail;
    hide SplitLines, ConfigWith, JoinLines, DropEmpty, IsBlock;
    ReplacedForm(text, block, m);
  }
}
