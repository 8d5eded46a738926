/** One service declared by two files of a repo: how the later declaration merges into the earlier. */
module OverrideMerge {
  import opened Basics
  import opened Dicts
  import opened ComposeText

  // ── a body as blocks ──

  datatype Split = Split(leading: Body, blocks: Dict<string, Body>)

  function AddLine(s: Split, line: Line): Split {
    if IsOwnKey(line) then Split(s.leading, s.blocks + [Dicts.Entry(line.key, [line])])
    else if s.blocks != [] then
      var last := s.blocks[|s.blocks| - 1];
      Split(s.leading, s.blocks[|s.blocks| - 1 := Dicts.Entry(last.key, last.value + [line])])
    else Split(s.leading + [line], s.blocks)
  }

  /** A body split at its four-space keys. */
  function BlocksOf(body: Body): Split
    decreases |body|
  {
    if body == [] then Split([], [])
    else AddLine(BlocksOf(body[..|body| - 1]), body[|body| - 1])
  }

  function Joined(blocks: Dict<string, Body>): Body
    decreases |blocks|
  {
    if blocks == [] then [] else Joined(blocks[..|blocks| - 1]) + blocks[|blocks| - 1].value
  }

  function Join(s: Split): Body {
    s.leading + Joined(s.blocks)
  }

  predicate IsBlock(key: string, lines: Body) {
    && lines != [] && IsOwnKey(lines[0]) && lines[0].key == key
    && forall i :: 0 < i < |lines| ==> !IsOwnKey(lines[i])
  }

  ghost predicate WellSplit(s: Split) {
    && (forall i :: 0 <= i < |s.leading| ==> !IsOwnKey(s.leading[i]))
    && (forall i :: 0 <= i < |s.blocks| ==> IsBlock(s.blocks[i].key, s.blocks[i].value))
  }

  method SplitBody(body: Body) returns (leading: Body, blocks: Dict<string, Body>)
    ensures Split(leading, blocks) == BlocksOf(body)
  {
    leading, blocks := [], [];
    for i := 0 to |body|
      invariant Split(leading, blocks) == BlocksOf(body[..i])
    {
      TakeSnoc(body, i);
      var line := body[i];
      if IsOwnKey(line) {
        blocks := blocks + [Dicts.Entry(line.key, [line])];
      } else if blocks != [] {
        var last := blocks[|blocks| - 1];
        blocks := blocks[|blocks| - 1 := Dicts.Entry(last.key, last.value + [line])];
      } else {
        leading := leading + [line];
      }
    }
    TakeAll(body);
  }

  /** Splitting loses nothing: the blocks in order are the body. */
  lemma {:induction false} SplitIsLossless(body: Body)
    ensures Join(BlocksOf(body)) == body
    ensures WellSplit(BlocksOf(body))
    decreases |body|
  {
    if body != [] {
      var init, last := body[..|body| - 1], body[|body| - 1];
      SplitIsLossless(init);
      var s := BlocksOf(init);
      if IsOwnKey(last) {
        assert (s.blocks + [Dicts.Entry(last.key, [last])])[..|s.blocks|] == s.blocks;
      } else if s.blocks != [] {
        var grown := AddLine(s, last).blocks;
        assert grown[..|grown| - 1] == s.blocks[..|s.blocks| - 1];
      }
      Snoc(body);
    }
  }

  lemma {:induction false} AddBlock(s: Split, key: string, lines: Body)
    requires WellSplit(s) && BlocksOf(Join(s)) == s
    requires IsBlock(key, lines)
    ensures BlocksOf(Join(s) + lines) == Split(s.leading, s.blocks + [Dicts.Entry(key, lines)])
    decreases |lines|
  {
    var init, last := lines[..|lines| - 1], lines[|lines| - 1];
    assert (Join(s) + lines)[..|Join(s) + lines| - 1] == Join(s) + init;
    if |lines| > 1 {
      AddBlock(s, key, init);
      assert init + [last] == lines;
    } else {
      assert Join(s) + init == Join(s);
      assert lines == [last];
    }
  }

  lemma {:induction false} LeadingSplits(leading: Body)
    requires forall i :: 0 <= i < |leading| ==> !IsOwnKey(leading[i])
    ensures BlocksOf(leading) == Split(leading, [])
    decreases |leading|
  {
    if leading != [] {
      var init, last := leading[..|leading| - 1], leading[|leading| - 1];
      Snoc(leading);
      LeadingSplits(init);
      assert BlocksOf(leading) == AddLine(Split(init, []), last);
    }
  }

  /** Joining well-formed blocks and splitting again gives the same blocks. */
  lemma {:induction false} JoinResplits(s: Split)
    requires WellSplit(s)
    ensures BlocksOf(Join(s)) == s
    decreases |s.blocks|
  {
    if s.blocks == [] {
      LeadingSplits(s.leading);
      assert Join(s) == s.leading;
    } else {
      var init, last := s.blocks[..|s.blocks| - 1], s.blocks[|s.blocks| - 1];
      var before := Split(s.leading, init);
      Snoc(s.blocks);
      assert WellSplit(before) && IsBlock(last.key, last.value);
      Associate(s.leading, Joined(init), last.value);
      assert Join(s) == Join(before) + last.value;
      hide WellSplit, IsBlock, BlocksOf, Join, Joined;
      JoinResplits(before);
      AddBlock(before, last.key, last.value);
    }
  }

  // ── extending a block ──

  /** The key of an indented `key: value` line, the block's own key line included. */
  function InnerKey(line: Line): Option<string> {
    if line.Entry? && line.indent >= 1 then Some(line.key) else None
  }

  predicate Carries(line: Line, key: string) {
    InnerKey(line) == Some(key)
  }

  predicate HasKey(lines: seq<Line>, key: string) {
    exists i :: 0 <= i < |lines| && Carries(lines[i], key)
  }

  /** The last line carrying a key: the one a later value wins by. */
  function LastLine(lines: seq<Line>, key: string): (line: Line)
    requires HasKey(lines, key)
    ensures Carries(line, key)
    decreases |lines|
  {
    if Carries(lines[|lines| - 1], key) then lines[|lines| - 1]
    else
      assert HasKey(lines[..|lines| - 1], key) by {
        var i :| 0 <= i < |lines| && Carries(lines[i], key);
        assert lines[..|lines| - 1][i] == lines[i];
      }
      LastLine(lines[..|lines| - 1], key)
  }

  /** `base` with the last line of each key replaced by the last line `over` has for it. */
  function Overlaid(base: seq<Line>, over: seq<Line>, settled: set<string>): (result: seq<Line>)
    ensures |result| == |base|
    decreases |base|
  {
    if base == [] then []
    else
      var init, last := base[..|base| - 1], base[|base| - 1];
      match InnerKey(last)
      case None => Overlaid(init, over, settled) + [last]
      case Some(key) =>
        Overlaid(init, over, settled + {key})
          + [if key !in settled && HasKey(over, key) then LastLine(over, key) else last]
  }

  /** The lines of `over` that `base` has no key for. */
  function Fresh(base: seq<Line>, over: seq<Line>): seq<Line>
    decreases |over|
  {
    if over == [] then []
    else
      var last := over[|over| - 1];
      Fresh(base, over[..|over| - 1])
        + if InnerKey(last).Some? && HasKey(base, InnerKey(last).value) then [] else [last]
  }

  /** A mapping laid over another: each key once more where it was, new ones at the end. */
  function Over(base: seq<Line>, over: seq<Line>): seq<Line> {
    Overlaid(base, over, {}) + Fresh(base, over)
  }

  function NonBlank(lines: seq<Line>): seq<Line>
    decreases |lines|
  {
    if lines == [] then []
    else NonBlank(lines[..|lines| - 1]) + if lines[|lines| - 1].Blank? then [] else [lines[|lines| - 1]]
  }

  /** Is the first line of substance under the key anything but a list item? */
  predicate FirstIsMapping(lines: seq<Line>)
    decreases |lines|
  {
    lines != [] &&
    if lines[0].Blank? || lines[0].Comment? then FirstIsMapping(lines[1..])
    else !(lines[0].Item? && lines[0].indent >= 1)
  }

  predicate IsMapping(block: Body) {
    block != [] && FirstIsMapping(block[1..])
  }

  function Tail(block: Body): Body {
    if block == [] then [] else block[1..]
  }

  /** `extend_block`: a mapping is laid over, anything else is appended. */
  function Extend(earlier: Body, later: Body): Body {
    if IsMapping(later) then Over(earlier, Tail(later)) else earlier + NonBlank(Tail(later))
  }

  lemma HasKeyConcat(a: seq<Line>, b: seq<Line>, key: string)
    ensures HasKey(a + b, key) <==> HasKey(a, key) || HasKey(b, key)
  {
    if HasKey(a, key) {
      var i :| 0 <= i < |a| && Carries(a[i], key);
      assert (a + b)[i] == a[i];
    }
    if HasKey(b, key) {
      var i :| 0 <= i < |b| && Carries(b[i], key);
      assert (a + b)[|a| + i] == b[i];
    }
  }

  lemma {:induction false} LastLineConcat(a: seq<Line>, b: seq<Line>, key: string)
    requires HasKey(a + b, key)
    ensures HasKey(b, key) ==> LastLine(a + b, key) == LastLine(b, key)
    ensures !HasKey(b, key) ==> HasKey(a, key) && LastLine(a + b, key) == LastLine(a, key)
    decreases |b|
  {
    HasKeyConcat(a, b, key);
    if b == [] {
      assert a + b == a;
    } else {
      var init, last := b[..|b| - 1], b[|b| - 1];
      assert (a + b)[..|a + b| - 1] == a + init;
      Snoc(b);
      HasKeyConcat(init, [last], key);
      assert [last][0] == last;
      if !Carries(last, key) {
        HasKeyConcat(a, init, key);
        LastLineConcat(a, init, key);
      }
    }
  }

  lemma HasKeyOne(line: Line, key: string)
    ensures HasKey([line], key) <==> Carries(line, key)
  {
    assert [line][0] == line;
  }

  /** Laying over keeps which keys there are, line by line. */
  lemma {:induction false} OverlaidKeepsKeys(base: seq<Line>, over: seq<Line>, settled: set<string>)
    ensures forall i :: 0 <= i < |base| ==> InnerKey(Overlaid(base, over, settled)[i]) == InnerKey(base[i])
    decreases |base|
  {
    if base != [] {
      var init, last := base[..|base| - 1], base[|base| - 1];
      OverlaidKeepsKeys(init, over, if InnerKey(last).Some? then settled + {InnerKey(last).value} else settled);
    }
  }

  lemma OverlaidHasKey(base: seq<Line>, over: seq<Line>, settled: set<string>, key: string)
    ensures HasKey(Overlaid(base, over, settled), key) <==> HasKey(base, key)
  {
    OverlaidKeepsKeys(base, over, settled);
    var r := Overlaid(base, over, settled);
    if HasKey(base, key) {
      var i :| 0 <= i < |base| && Carries(base[i], key);
      assert Carries(r[i], key);
    }
    if HasKey(r, key) {
      var i :| 0 <= i < |r| && Carries(r[i], key);
      assert Carries(base[i], key);
    }
  }

  lemma {:induction false} FreshHasKey(base: seq<Line>, over: seq<Line>, key: string)
    ensures HasKey(Fresh(base, over), key) <==> HasKey(over, key) && !HasKey(base, key)
    decreases |over|
  {
    if over != [] {
      var init, last := over[..|over| - 1], over[|over| - 1];
      FreshHasKey(base, init, key);
      Snoc(over);
      HasKeyConcat(init, [last], key);
      HasKeyConcat(Fresh(base, init), [last], key);
      HasKeyOne(last, key);
      assert Fresh(base, init) + [] == Fresh(base, init);
    }
  }

  /** One more overlaying line: in place of the last line of its key, or at the end. */
  lemma {:induction false} OverlaidSnoc(base: seq<Line>, over: seq<Line>, line: Line, settled: set<string>, at: nat)
    requires InnerKey(line).Some? && InnerKey(line).value !in settled
    requires at < |base| && Carries(base[at], InnerKey(line).value)
    requires forall j :: at < j < |base| ==> !Carries(base[j], InnerKey(line).value)
    ensures Overlaid(base, over + [line], settled) == Overlaid(base, over, settled)[at := line]
    decreases |base|
  {
    var init, last := base[..|base| - 1], base[|base| - 1];
    var key := InnerKey(line).value;
    OverLineLast(over, line);
    if at == |base| - 1 {
      OverlaidIgnores(init, over, line, settled + {key});
    } else {
      var settled' := if InnerKey(last).Some? then settled + {InnerKey(last).value} else settled;
      OverlaidSnoc(init, over, line, settled', at);
    }
  }

  lemma OverLineLast(over: seq<Line>, line: Line)
    ensures forall k :: HasKey(over + [line], k) <==> HasKey(over, k) || Carries(line, k)
    ensures forall k :: HasKey(over + [line], k) ==>
              LastLine(over + [line], k) == if Carries(line, k) then line else LastLine(over, k)
  {
    forall k ensures HasKey(over + [line], k) <==> HasKey(over, k) || Carries(line, k) {
      HasKeyConcat(over, [line], k);
      HasKeyOne(line, k);
    }
    forall k | HasKey(over + [line], k)
      ensures LastLine(over + [line], k) == if Carries(line, k) then line else LastLine(over, k)
    {
      LastLineConcat(over, [line], k);
      HasKeyOne(line, k);
      assert [line][|[line]| - 1] == line;
    }
  }

  lemma {:induction false} OverlaidIgnores(base: seq<Line>, over: seq<Line>, line: Line, settled: set<string>)
    requires InnerKey(line).Some? ==> InnerKey(line).value in settled || !HasKey(base, InnerKey(line).value)
    ensures Overlaid(base, over + [line], settled) == Overlaid(base, over, settled)
    decreases |base|
  {
    if base != [] {
      var init, last := base[..|base| - 1], base[|base| - 1];
      OverLineLast(over, line);
      Snoc(base);
      if InnerKey(line).Some? {
        HasKeyConcat(init, [last], InnerKey(line).value);
        HasKeyOne(last, InnerKey(line).value);
      }
      OverlaidIgnores(init, over, line, if InnerKey(last).Some? then settled + {InnerKey(last).value} else settled);
    }
  }

  /** `at` is the last line of `lines` to carry `key`. */
  predicate IsLastAt(lines: seq<Line>, key: string, at: nat) {
    && at < |lines| && Carries(lines[at], key)
    && forall j :: at < j < |lines| ==> !Carries(lines[j], key)
  }

  lemma LastAtSnoc(lines: seq<Line>, line: Line, key: string, at: nat)
    ensures Carries(line, key) ==> IsLastAt(lines + [line], key, |lines|)
    ensures !Carries(line, key) && IsLastAt(lines, key, at) ==> IsLastAt(lines + [line], key, at)
  {
  }

  /** Where each key of a block last is. */
  method Positions(lines: Body) returns (positions: map<string, nat>)
    ensures forall k :: k in positions <==> HasKey(lines, k)
    ensures forall k :: k in positions ==> IsLastAt(lines, k, positions[k])
  {
    positions := map[];
    for i := 0 to |lines|
      invariant forall k :: k in positions <==> HasKey(lines[..i], k)
      invariant forall k :: k in positions ==> IsLastAt(lines[..i], k, positions[k])
    {
      TakeSnoc(lines, i);
      OverLineLast(lines[..i], lines[i]);
      forall k | k in positions || Carries(lines[i], k)
        ensures Carries(lines[i], k) ==> IsLastAt(lines[..i] + [lines[i]], k, i)
        ensures !Carries(lines[i], k) && k in positions ==> IsLastAt(lines[..i] + [lines[i]], k, positions[k])
      {
        LastAtSnoc(lines[..i], lines[i], k, if k in positions then positions[k] else 0);
      }
      var key := InnerKey(lines[i]);
      if key.Some? {
        positions := positions[key.value := i];
      }
    }
    TakeAll(lines);
  }

  lemma LayOverStep(earlier: Body, over: seq<Line>, line: Line, at: nat)
    ensures InnerKey(line).Some? && IsLastAt(earlier, InnerKey(line).value, at) ==>
              Over(earlier, over + [line]) == Over(earlier, over)[at := line]
    ensures InnerKey(line) == None || !HasKey(earlier, InnerKey(line).value) ==>
              Over(earlier, over + [line]) == Over(earlier, over) + [line]
  {
    assert (over + [line])[..|over|] == over;
    if InnerKey(line).Some? && IsLastAt(earlier, InnerKey(line).value, at) {
      OverlaidSnoc(earlier, over, line, {}, at);
      assert Fresh(earlier, over + [line]) == Fresh(earlier, over);
    }
    if InnerKey(line) == None || !HasKey(earlier, InnerKey(line).value) {
      OverlaidIgnores(earlier, over, line, {});
    }
  }

  /** The loop of `extend_block` over a mapping: in place of the key's line, or at the end. */
  method LayOver(earlier: Body, lines: seq<Line>) returns (kept: seq<Line>)
    ensures kept == Over(earlier, lines)
  {
    kept := earlier;
    var positions := Positions(earlier);
    OverlaidNothing(earlier, {});
    for i := 0 to |lines|
      invariant kept == Over(earlier, lines[..i])
    {
      TakeSnoc(lines, i);
      var line := lines[i];
      var key := InnerKey(line);
      LayOverStep(earlier, lines[..i], line, if key.Some? && key.value in positions then positions[key.value] else 0);
      if key.Some? && key.value in positions {
        kept := kept[positions[key.value] := line];
      } else {
        kept := kept + [line];
      }
    }
    TakeAll(lines);
  }

  lemma {:induction false} OverlaidNothing(base: seq<Line>, settled: set<string>)
    ensures Overlaid(base, [], settled) == base
    decreases |base|
  {
    if base != [] {
      var init, last := base[..|base| - 1], base[|base| - 1];
      OverlaidNothing(init, if InnerKey(last).Some? then settled + {InnerKey(last).value} else settled);
      Snoc(base);
    }
  }

  method ExtendBlock(earlier: Body, later: Body) returns (block: Body)
    requires later != []
    ensures block == Extend(earlier, later)
  {
    if IsMapping(later) {
      block := LayOver(earlier, later[1..]);
    } else {
      block := earlier;
      for i := 1 to |later|
        invariant block == earlier + NonBlank(later[1..i])
      {
        assert later[1..i + 1][..i - 1] == later[1..i];
        if !later[i].Blank? {
          block := block + [later[i]];
        }
      }
      assert later[1..|later|] == later[1..];
    }
  }
}
