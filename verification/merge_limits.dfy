/** What the merge does to a profile gate, and where it falls short of adding the later items. */
module MergeLimits {
  import opened Basics
  import opened Dicts
  import opened ComposeText
  import opened OverrideMerge
  import opened MergeLaws
  import opened Rendering

  // ── the gate of a merged body ──

  predicate IsProfiles(line: Line) {
    IsOwnKey(line) && line.key == "profiles"
  }

  /** A `profiles:` line that puts the service behind a profile. */
  predicate IsGate(line: Line) {
    IsProfiles(line) && ((line.value.Flow? && line.value.names != []) || line.value == Nothing)
  }

  /** A `profiles:` line in one of the two forms the checker reads. */
  predicate IsReadable(line: Line) {
    IsProfiles(line) ==> line.value.Flow? || line.value == Nothing
  }

  ghost predicate OneProfiles(body: Body) {
    && (forall i, j :: 0 <= i < j < |body| ==> !(IsProfiles(body[i]) && IsProfiles(body[j])))
    && (forall i :: 0 <= i < |body| ==> IsReadable(body[i]))
  }

  lemma {:induction false} GatedHasGate(body: Body)
    requires Gated(body)
    ensures exists i :: 0 <= i < |body| && IsGate(body[i])
    decreases |body|
  {
    var last := body[|body| - 1];
    if !IsGate(last) {
      GatedHasGate(body[..|body| - 1]);
      var i :| 0 <= i < |body| - 1 && IsGate(body[..|body| - 1][i]);
      assert IsGate(body[i]);
    }
  }

  lemma {:induction false} GateGates(body: Body, i: nat)
    requires i < |body| && IsGate(body[i])
    requires forall j :: i < j < |body| ==> !IsProfiles(body[j])
    ensures Gated(body)
    decreases |body|
  {
    if i < |body| - 1 {
      GateGates(body[..|body| - 1], i);
    }
  }

  lemma {:induction false} JoinedIn(blocks: Dict<string, Body>, line: Line)
    requires line in Joined(blocks)
    ensures exists i :: 0 <= i < |blocks| && line in blocks[i].value
    decreases |blocks|
  {
    var init, last := blocks[..|blocks| - 1], blocks[|blocks| - 1];
    if line in last.value {
      assert blocks[|blocks| - 1] == last;
    } else {
      JoinedIn(init, line);
      var i :| 0 <= i < |init| && line in init[i].value;
      assert blocks[i] == init[i];
    }
  }

  lemma {:induction false} InJoined(blocks: Dict<string, Body>, i: nat, line: Line)
    requires i < |blocks| && line in blocks[i].value
    ensures line in Joined(blocks)
    decreases |blocks|
  {
    if i < |blocks| - 1 {
      InJoined(blocks[..|blocks| - 1], i, line);
    }
  }

  ghost predicate FromEither(lines: Body, a: Body, b: Body) {
    forall l :: l in lines ==> l in a || l in b
  }

  lemma {:induction false} MergedBlocksFrom(a: Dict<string, Body>, b: Dict<string, Body>, x: Body, y: Body)
    requires forall i :: 0 <= i < |a| ==> FromEither(a[i].value, x, y)
    requires forall i :: 0 <= i < |b| ==> FromEither(b[i].value, x, y)
    ensures forall i :: 0 <= i < |MergeBlocks(a, b)| ==> FromEither(MergeBlocks(a, b)[i].value, x, y)
    decreases |b|
  {
    if b != [] {
      var init, last := b[..|b| - 1], b[|b| - 1];
      MergedBlocksFrom(a, init, x, y);
      var m := MergeBlocks(a, init);
      if Has(m, last.key) && IsAppendKey(last.key) {
        var earlier := Get(m, last.key);
        assert FromEither(earlier, x, y);
        forall l | l in Extend(earlier, last.value) ensures l in x || l in y {
          var i :| 0 <= i < |Extend(earlier, last.value)| && Extend(earlier, last.value)[i] == l;
          ExtendIn(earlier, last.value, i);
          assert l in Tail(last.value) ==> l in last.value;
        }
      }
    }
  }

  /** A merge invents no line: each is one of the earlier body or of the later. */
  lemma MergeFrom(earlier: Body, later: Body)
    ensures FromEither(Merge(earlier, later), earlier, later)
  {
    SplitIsLossless(earlier);
    SplitIsLossless(later);
    var e, l := BlocksOf(earlier), BlocksOf(later);
    forall i | 0 <= i < |e.blocks| ensures FromEither(e.blocks[i].value, earlier, later) {
      forall line | line in e.blocks[i].value ensures line in earlier {
        InJoined(e.blocks, i, line);
      }
    }
    forall i | 0 <= i < |l.blocks| ensures FromEither(l.blocks[i].value, earlier, later) {
      forall line | line in l.blocks[i].value ensures line in later {
        InJoined(l.blocks, i, line);
      }
    }
    MergedBlocksFrom(e.blocks, l.blocks, earlier, later);
    var merged := MergeBlocks(e.blocks, l.blocks);
    forall line | line in Merge(earlier, later) ensures line in earlier || line in later {
      if line !in e.leading {
        JoinedIn(merged, line);
        var i :| 0 <= i < |merged| && line in merged[i].value;
        assert FromEither(merged[i].value, earlier, later);
      }
    }
  }

  /** A gated merge had a gated part: the generator never gates what no file gates. */
  lemma {:induction false} MergedGateIsOwed(earlier: Body, later: Body)
    requires OneProfiles(earlier) && OneProfiles(later)
    requires Gated(Merge(earlier, later))
    ensures Gated(earlier) || Gated(later)
  {
    GatedHasGate(Merge(earlier, later));
    MergeFrom(earlier, later);
    var i :| 0 <= i < |Merge(earlier, later)| && IsGate(Merge(earlier, later)[i]);
    var line := Merge(earlier, later)[i];
    if line in earlier {
      var j :| 0 <= j < |earlier| && earlier[j] == line;
      GateGates(earlier, j);
    } else {
      var j :| 0 <= j < |later| && later[j] == line;
      GateGates(later, j);
    }
  }

  lemma SplitSnoc(s: Split)
    requires WellSplit(s) && UniqueKeys(s.blocks) && s.blocks != []
    ensures var init, last := s.blocks[..|s.blocks| - 1], s.blocks[|s.blocks| - 1];
            && s.blocks == init + [last] && WellSplit(Split(s.leading, init)) && UniqueKeys(init)
            && IsBlock(last.key, last.value) && !Has(init, last.key)
            && Join(s) == Join(Split(s.leading, init)) + last.value
  {
    hide IsBlock, IsOwnKey;
    var init, last := s.blocks[..|s.blocks| - 1], s.blocks[|s.blocks| - 1];
    Snoc(s.blocks);
    forall i | 0 <= i < |init| ensures init[i].key != last.key {
      assert s.blocks[i].key != s.blocks[|init|].key;
    }
    Associate(s.leading, Joined(init), last.value);
  }

  /** The gate of a body, read off its `profiles` block. */
  lemma {:induction false} GateByBlock(s: Split)
    requires WellSplit(s) && UniqueKeys(s.blocks)
    ensures Gated(Join(s)) <==> Has(s.blocks, "profiles") && IsGate(Get(s.blocks, "profiles")[0])
    decreases |s.blocks|
  {
    if s.blocks == [] {
      assert Join(s) == s.leading;
      if Gated(s.leading) {
        GatedHasGate(s.leading);
      }
    } else {
      hide WellSplit, UniqueKeys, IsBlock, Has, Get, Join, Gated;
      SplitSnoc(s);
      var init, last := s.blocks[..|s.blocks| - 1], s.blocks[|s.blocks| - 1];
      HasSnoc(init, last, "profiles");
      GateByBlock(Split(s.leading, init));
      GateThroughBlock(Join(Split(s.leading, init)), last.key, last.value);
    }
  }

  lemma {:induction false} GateThroughBlock(before: Body, key: string, lines: Body)
    requires IsBlock(key, lines)
    requires key == "profiles" ==> !Gated(before)
    ensures Gated(before + lines) <==> if key == "profiles" then IsGate(lines[0]) else Gated(before)
    decreases |lines|
  {
    var all := before + lines;
    assert all[..|all| - 1] == before + lines[..|lines| - 1];
    if |lines| > 1 {
      GateThroughBlock(before, key, lines[..|lines| - 1]);
    } else {
      assert before + lines[..0] == before;
    }
  }

  /** The merged gate is the OR of the two exactly when the earlier file does not say, in effect,
      `profiles: []` where the later file gates: a later inline value gets through only where the
      earlier body has no `profiles:` of its own. */
  lemma {:induction false} MergedGateIsOr(earlier: Body, later: Body)
    requires UniqueKeys(BlocksOf(earlier).blocks) && UniqueKeys(BlocksOf(later).blocks)
    requires NoSelfEntry(BlocksOf(later).blocks)
    ensures var merged := Gated(Merge(earlier, later));
            (merged <==> Gated(earlier) || Gated(later))
              <==> !(Has(BlocksOf(earlier).blocks, "profiles") && !Gated(earlier) && Gated(later))
  {
    var e, l := BlocksOf(earlier), BlocksOf(later);
    SplitIsLossless(earlier);
    SplitIsLossless(later);
    GateByBlock(e);
    GateByBlock(l);
    MergedBlocks(e.blocks, l.blocks);
    MergeKeepsBlocks(e.blocks, l.blocks);
    var m := Split(e.leading, MergeBlocks(e.blocks, l.blocks));
    GateByBlock(m);
    if Has(e.blocks, "profiles") && Has(l.blocks, "profiles") {
      var x, y := Get(e.blocks, "profiles"), Get(l.blocks, "profiles");
      assert IsBlock("profiles", x) && IsBlock("profiles", y);
      assert !HasKey(Tail(y), "profiles");
      ExtendKeepsHead("profiles", x, y);
    }
  }

  lemma ExtendKeepsHead(key: string, earlier: Body, later: Body)
    requires IsBlock(key, earlier) && IsBlock(key, later) && !HasKey(Tail(later), key)
    ensures Extend(earlier, later) != [] && Extend(earlier, later)[0] == earlier[0]
  {
    if IsMapping(later) {
      assert earlier == [earlier[0]] + Tail(earlier);
      OverlaidHead(earlier[0], Tail(earlier), Tail(later), {}, key);
    }
  }

  // ── the later items ──

  function InlineItems(block: Body): set<string> {
    if block != [] && block[0].Entry? && block[0].value.Flow? then Elements(block[0].value.names) else {}
  }

  function ListedItems(block: Body): set<Line> {
    set l | l in Tail(block) && l.Item?
  }

  /** The later items of a list key are all added exactly when the later file lists them one to a
      line, or inline items only that the earlier file has inline too: the rest are lost. */
  lemma LaterItemsAdded(key: string, earlier: Body, later: Body)
    requires IsBlock(key, earlier) && IsBlock(key, later) && !IsMapping(later)
    ensures (InlineItems(later) <= InlineItems(Extend(earlier, later))
              && ListedItems(later) <= ListedItems(Extend(earlier, later)))
              <==> InlineItems(later) <= InlineItems(earlier)
  {
    var r := Extend(earlier, later);
    assert r[0] == earlier[0];
    ConcatTail(earlier, NonBlank(Tail(later)));
    ListedAdded(Tail(earlier), Tail(later));
    assert forall l :: l in ListedItems(later) ==> l in Tail(later) && l.Item?;
  }

  lemma ListedAdded(earlier: seq<Line>, later: seq<Line>)
    ensures forall l :: l in later && l.Item? ==> l in earlier + NonBlank(later)
  {
    NonBlankIn(later);
  }
}
