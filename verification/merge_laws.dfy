/** Merging whole service bodies, and the laws the merge obeys. */
module MergeLaws {
  import opened Basics
  import opened Dicts
  import opened ComposeText
  import opened OverrideMerge
  import opened Rendering

  /** Keys whose later declaration is added to the earlier one instead of replacing it. */
  predicate IsAppendKey(key: string) {
    key in {"ports", "expose", "volumes", "environment", "env_file", "depends_on", "networks", "dns", "dns_search",
            "extra_hosts", "labels", "profiles", "cap_add", "cap_drop", "security_opt", "devices", "tmpfs", "command"}
  }

  function Combined(key: string, earlier: Body, later: Body): Body {
    if IsAppendKey(key) then Extend(earlier, later) else later
  }

  function MergeBlock(blocks: Dict<string, Body>, key: string, lines: Body): Dict<string, Body> {
    Put(blocks, key, if Has(blocks, key) then Combined(key, Get(blocks, key), lines) else lines)
  }

  function MergeBlocks(blocks: Dict<string, Body>, later: Dict<string, Body>): Dict<string, Body>
    decreases |later|
  {
    if later == [] then blocks
    else MergeBlock(MergeBlocks(blocks, later[..|later| - 1]), later[|later| - 1].key, later[|later| - 1].value)
  }

  /** The later body merged into the earlier: its own leading lines are dropped. */
  function Merge(earlier: Body, later: Body): Body {
    var s := BlocksOf(earlier);
    Join(Split(s.leading, MergeBlocks(s.blocks, BlocksOf(later).blocks)))
  }

  /** Where every key's last block is. */
  ghost predicate ArePositions(blocks: Dict<string, Body>, positions: map<string, nat>) {
    && (forall k :: k in positions <==> Has(blocks, k))
    && (forall k :: k in positions ==> Has(blocks, k) && positions[k] == Find(blocks, k))
  }

  lemma PositionsSnoc(blocks: Dict<string, Body>, positions: map<string, nat>, key: string, lines: Body)
    requires ArePositions(blocks, positions)
    ensures ArePositions(blocks + [Dicts.Entry(key, lines)], positions[key := |blocks|])
  {
    var grown := blocks + [Dicts.Entry(key, lines)];
    forall k ensures k in positions[key := |blocks|] <==> Has(grown, k) {
      if k == key {
        assert grown[|blocks|].key == key;
      }
      if Has(blocks, k) {
        assert grown[Find(blocks, k)].key == k;
      }
    }
    forall k | Has(grown, k) ensures positions[key := |blocks|][k] == Find(grown, k) {
      if k != key {
        assert grown[Find(grown, k)] == blocks[Find(grown, k)];
      } else {
        assert grown[|blocks|].key == key;
      }
    }
  }

  lemma PositionsReplace(blocks: Dict<string, Body>, positions: map<string, nat>, key: string, lines: Body)
    requires ArePositions(blocks, positions) && Has(blocks, key)
    ensures ArePositions(blocks[Find(blocks, key) := Dicts.Entry(key, lines)], positions)
  {
    var changed := blocks[Find(blocks, key) := Dicts.Entry(key, lines)];
    assert forall i :: 0 <= i < |blocks| ==> changed[i].key == blocks[i].key;
    forall k ensures Has(changed, k) <==> Has(blocks, k) {
      if Has(blocks, k) {
        assert changed[Find(blocks, k)].key == k;
      }
    }
    forall k | Has(changed, k) ensures Find(changed, k) == Find(blocks, k) {
      assert changed[Find(blocks, k)].key == k;
      assert blocks[Find(changed, k)].key == k;
    }
  }

  method LocateBlocks(blocks: Dict<string, Body>) returns (positions: map<string, nat>)
    ensures ArePositions(blocks, positions)
  {
    positions := map[];
    for i := 0 to |blocks|
      invariant ArePositions(blocks[..i], positions)
    {
      TakeSnoc(blocks, i);
      PositionsSnoc(blocks[..i], positions, blocks[i].key, blocks[i].value);
      positions := positions[blocks[i].key := i];
    }
    TakeAll(blocks);
  }

  /** One later block: appended under a new key, or combined where its key is. */
  method MergeOne(blocks: Dict<string, Body>, positions: map<string, nat>, key: string, lines: Body)
    returns (blocks': Dict<string, Body>, positions': map<string, nat>)
    requires ArePositions(blocks, positions) && IsBlock(key, lines)
    ensures blocks' == MergeBlock(blocks, key, lines) && ArePositions(blocks', positions')
  {
    if key !in positions {
      PositionsSnoc(blocks, positions, key, lines);
      positions' := positions[key := |blocks|];
      blocks' := blocks + [Dicts.Entry(key, lines)];
    } else {
      var combined := lines;
      if IsAppendKey(key) {
        combined := ExtendBlock(blocks[positions[key]].value, lines);
      }
      PositionsReplace(blocks, positions, key, combined);
      positions' := positions;
      blocks' := blocks[positions[key] := Dicts.Entry(key, combined)];
    }
  }

  method JoinBlocks(leading: Body, blocks: Dict<string, Body>) returns (merged: Body)
    ensures merged == Join(Split(leading, blocks))
  {
    merged := leading;
    for i := 0 to |blocks|
      invariant merged == leading + Joined(blocks[..i])
    {
      TakeSnoc(blocks, i);
      merged := merged + blocks[i].value;
    }
    TakeAll(blocks);
  }

  /** `merge_service`: a dict of positions, and one pass over the later file's blocks. */
  method MergeService(earlier: Body, later: Body) returns (merged: Body, changed: seq<string>)
    ensures merged == Merge(earlier, later)
    ensures changed == Dicts.Keys(BlocksOf(later).blocks)
  {
    var leading, blocks := SplitBody(earlier);
    var _, laterBlocks := SplitBody(later);
    ghost var start := blocks;
    SplitIsLossless(later);
    var positions := LocateBlocks(blocks);
    changed := [];
    hide ArePositions, Combined, Has, Get, Put;
    for i := 0 to |laterBlocks|
      invariant blocks == MergeBlocks(start, laterBlocks[..i])
      invariant ArePositions(blocks, positions)
      invariant changed == Dicts.Keys(laterBlocks[..i])
    {
      TakeSnoc(laterBlocks, i);
      blocks, positions := MergeOne(blocks, positions, laterBlocks[i].key, laterBlocks[i].value);
      changed := changed + [laterBlocks[i].key];
    }
    TakeAll(laterBlocks);
    merged := JoinBlocks(leading, blocks);
  }

  // ── which keys, in what order, with what blocks ──

  /** The later keys the earlier blocks do not have, in order. */
  function NewKeys(blocks: Dict<string, Body>, later: Dict<string, Body>): seq<string>
    decreases |later|
  {
    if later == [] then []
    else
      var last := later[|later| - 1].key;
      NewKeys(blocks, later[..|later| - 1]) + if Has(blocks, last) then [] else [last]
  }

  lemma KeysPut(d: Dict<string, Body>, key: string, lines: Body)
    ensures Dicts.Keys(Put(d, key, lines)) == if Has(d, key) then Dicts.Keys(d) else Dicts.Keys(d) + [key]
  {
  }

  lemma HasSnoc(init: Dict<string, Body>, last: Dicts.Entry<string, Body>, key: string)
    ensures Has(init + [last], key) <==> Has(init, key) || key == last.key
    ensures Has(init, key) && key != last.key ==> Get(init + [last], key) == Get(init, key)
    ensures Has(init + [last], last.key) && Get(init + [last], last.key) == last.value
  {
    var d := init + [last];
    assert d[|init|] == last;
    if Has(init, key) {
      assert d[Find(init, key)].key == key;
    }
    if Has(init, key) && key != last.key {
      assert Find(d, key) == Find(init, key);
    }
  }

  /** What a merge holds under one key: the block of the one that has it, or both combined. */
  ghost predicate IsMergedAt(a: Dict<string, Body>, b: Dict<string, Body>, m: Dict<string, Body>, k: string) {
    && (Has(m, k) <==> Has(a, k) || Has(b, k))
    && (Has(m, k) ==>
          Get(m, k) == if !Has(b, k) then Get(a, k)
                       else if !Has(a, k) then Get(b, k)
                       else Combined(k, Get(a, k), Get(b, k)))
  }

  lemma PutMergedAt(a: Dict<string, Body>, init: Dict<string, Body>, last: Dicts.Entry<string, Body>,
                    m: Dict<string, Body>, k: string)
    requires IsMergedAt(a, init, m, k) && IsMergedAt(a, init, m, last.key) && !Has(init, last.key)
    ensures var value := if Has(m, last.key) then Combined(last.key, Get(m, last.key), last.value) else last.value;
            IsMergedAt(a, init + [last], Put(m, last.key, value), k)
  {
    var value := if Has(m, last.key) then Combined(last.key, Get(m, last.key), last.value) else last.value;
    GetPut(m, last.key, value, k);
    HasSnoc(init, last, k);
    hide Has, Get, Put, Combined;
  }

  lemma {:induction false} MergedAt(a: Dict<string, Body>, b: Dict<string, Body>)
    requires UniqueKeys(a) && UniqueKeys(b)
    ensures UniqueKeys(MergeBlocks(a, b))
    ensures Dicts.Keys(MergeBlocks(a, b)) == Dicts.Keys(a) + NewKeys(a, b)
    ensures forall k :: IsMergedAt(a, b, MergeBlocks(a, b), k)
    decreases |b|
  {
    if b != [] {
      var init, last := b[..|b| - 1], b[|b| - 1];
      MergedAt(a, init);
      Snoc(b);
      forall i | 0 <= i < |init| ensures init[i].key != last.key {
        assert b[i].key != b[|init|].key;
      }
      assert !Has(init, last.key);
      var m := MergeBlocks(a, init);
      var value := if Has(m, last.key) then Combined(last.key, Get(m, last.key), last.value) else last.value;
      PutKeepsUnique(m, last.key, value);
      KeysPut(m, last.key, value);
      assert IsMergedAt(a, init, m, last.key);
      forall k ensures IsMergedAt(a, b, Put(m, last.key, value), k) {
        PutMergedAt(a, init, last, m, k);
      }
      hide IsMergedAt, Combined, Get, Put;
    }
  }

  /** The merge keeps the earlier keys in order and adds the later-only ones after them; a key of
      both has the combined block, a key of one has that one's. */
  lemma MergedBlocks(a: Dict<string, Body>, b: Dict<string, Body>)
    requires UniqueKeys(a) && UniqueKeys(b)
    ensures UniqueKeys(MergeBlocks(a, b))
    ensures Dicts.Keys(MergeBlocks(a, b)) == Dicts.Keys(a) + NewKeys(a, b)
    ensures forall k :: Has(MergeBlocks(a, b), k) <==> Has(a, k) || Has(b, k)
    ensures forall k :: Has(MergeBlocks(a, b), k) ==>
              Get(MergeBlocks(a, b), k) ==
                if !Has(b, k) then Get(a, k)
                else if !Has(a, k) then Get(b, k)
                else Combined(k, Get(a, k), Get(b, k))
  {
    MergedAt(a, b);
    hide Has, Get, MergeBlocks, Combined;
    forall k
      ensures Has(MergeBlocks(a, b), k) <==> Has(a, k) || Has(b, k)
      ensures Has(MergeBlocks(a, b), k) ==>
                Get(MergeBlocks(a, b), k) ==
                  if !Has(b, k) then Get(a, k)
                  else if !Has(a, k) then Get(b, k)
                  else Combined(k, Get(a, k), Get(b, k))
    {
      assert IsMergedAt(a, b, MergeBlocks(a, b), k);
    }
  }

  lemma DictsEqual(d: Dict<string, Body>, e: Dict<string, Body>)
    requires UniqueKeys(d) && UniqueKeys(e) && Dicts.Keys(d) == Dicts.Keys(e)
    requires forall k :: Has(d, k) && Has(e, k) ==> Get(d, k) == Get(e, k)
    ensures d == e
  {
    assert |d| == |Dicts.Keys(d)| == |e|;
    forall i | 0 <= i < |d| ensures d[i] == e[i] {
      assert d[i].key == Dicts.Keys(d)[i] == e[i].key;
      GetAt(d, i);
      GetAt(e, i);
    }
  }

  // ── a mapping laid over another ──

  /** Which line a key ends up with: the later one where the later mapping has the key. */
  lemma {:induction false} OverlaidLast(base: seq<Line>, over: seq<Line>, settled: set<string>, key: string)
    requires HasKey(base, key)
    ensures HasKey(Overlaid(base, over, settled), key)
    ensures LastLine(Overlaid(base, over, settled), key)
         == if key !in settled && HasKey(over, key) then LastLine(over, key) else LastLine(base, key)
    decreases |base|
  {
    OverlaidHasKey(base, over, settled, key);
    var init, last := base[..|base| - 1], base[|base| - 1];
    Snoc(base);
    var r := Overlaid(base, over, settled);
    if !Carries(last, key) {
      OverLineLast(init, last);
      var settled' := if InnerKey(last).Some? then settled + {InnerKey(last).value} else settled;
      OverlaidLast(init, over, settled', key);
      OverlaidKeepsKeys(base, over, settled);
      assert r[..|r| - 1] == Overlaid(init, over, settled');
    }
  }

  /** Whatever the lines, the last line of every key is the later mapping's where it has the key. */
  lemma LaterValueWins(base: seq<Line>, over: seq<Line>, key: string)
    ensures HasKey(Over(base, over), key) <==> HasKey(base, key) || HasKey(over, key)
    ensures HasKey(Over(base, over), key) ==>
              LastLine(Over(base, over), key) == if HasKey(over, key) then LastLine(over, key) else LastLine(base, key)
  {
    var front, back := Overlaid(base, over, {}), Fresh(base, over);
    HasKeyConcat(front, back, key);
    OverlaidHasKey(base, over, {}, key);
    FreshHasKey(base, over, key);
    if HasKey(Over(base, over), key) {
      LastLineConcat(front, back, key);
      if HasKey(base, key) {
        OverlaidLast(base, over, {}, key);
      } else {
        FreshLast(base, over, key);
      }
    }
  }

  lemma {:induction false} FreshLast(base: seq<Line>, over: seq<Line>, key: string)
    requires HasKey(over, key) && !HasKey(base, key)
    ensures HasKey(Fresh(base, over), key)
    ensures LastLine(Fresh(base, over), key) == LastLine(over, key)
    decreases |over|
  {
    FreshHasKey(base, over, key);
    var init, last := over[..|over| - 1], over[|over| - 1];
    Snoc(over);
    OverLineLast(init, last);
    if Carries(last, key) {
      OverLineLast(Fresh(base, init), last);
    } else {
      FreshLast(base, init, key);
      OverLineLast(Fresh(base, init), last);
      assert Fresh(base, init) + [] == Fresh(base, init);
    }
  }

  // ── the merged body splits again ──

  lemma {:induction false} OverlaidFrom(base: seq<Line>, over: seq<Line>, settled: set<string>, i: nat)
    requires i < |base|
    ensures Overlaid(base, over, settled)[i] == base[i] ||
              (InnerKey(base[i]).Some? && HasKey(over, InnerKey(base[i]).value)
                && Overlaid(base, over, settled)[i] == LastLine(over, InnerKey(base[i]).value))
    decreases |base|
  {
    var init, last := base[..|base| - 1], base[|base| - 1];
    if i < |init| {
      OverlaidFrom(init, over, if InnerKey(last).Some? then settled + {InnerKey(last).value} else settled, i);
    }
  }

  lemma {:induction false} LastLineIn(lines: seq<Line>, key: string)
    requires HasKey(lines, key)
    ensures LastLine(lines, key) in lines
    decreases |lines|
  {
    if !Carries(lines[|lines| - 1], key) {
      Snoc(lines);
      OverLineLast(lines[..|lines| - 1], lines[|lines| - 1]);
      LastLineIn(lines[..|lines| - 1], key);
    }
  }

  lemma {:induction false} FreshIn(base: seq<Line>, over: seq<Line>)
    ensures forall l :: l in Fresh(base, over) ==> l in over
    decreases |over|
  {
    if over != [] {
      FreshIn(base, over[..|over| - 1]);
    }
  }

  lemma {:induction false} NonBlankIn(lines: seq<Line>)
    ensures forall l :: l in NonBlank(lines) <==> l in lines && !l.Blank?
    decreases |lines|
  {
    if lines != [] {
      NonBlankIn(lines[..|lines| - 1]);
      Snoc(lines);
    }
  }

  /** Nothing is invented: every line of an extended block is a line of one of the two. */
  lemma ExtendIn(earlier: Body, later: Body, i: nat)
    requires i < |Extend(earlier, later)|
    ensures (i < |earlier| && Extend(earlier, later)[i] == earlier[i]) || Extend(earlier, later)[i] in Tail(later)
  {
    var r := Extend(earlier, later);
    if IsMapping(later) {
      if i < |earlier| {
        OverlaidFrom(earlier, Tail(later), {}, i);
        if r[i] != earlier[i] {
          LastLineIn(Tail(later), InnerKey(earlier[i]).value);
        }
      } else {
        FreshIn(earlier, Tail(later));
        assert r[i] == Fresh(earlier, Tail(later))[i - |earlier|];
      }
    } else {
      NonBlankIn(Tail(later));
      assert i >= |earlier| ==> r[i] == NonBlank(Tail(later))[i - |earlier|];
    }
  }

  /** The block's key line is lost exactly when the later mapping has an inner entry named as the
      key and the earlier block has none: the inner entry then takes the key line's place. */
  lemma ExtendKeepsBlock(key: string, earlier: Body, later: Body)
    requires IsBlock(key, earlier) && IsBlock(key, later)
    ensures IsBlock(key, Extend(earlier, later)) <==>
              !(IsMapping(later) && HasKey(Tail(later), key) && !HasKey(Tail(earlier), key))
  {
    var r := Extend(earlier, later);
    forall i | 0 < i < |r| ensures !IsOwnKey(r[i]) {
      ExtendIn(earlier, later, i);
      if r[i] in Tail(later) {
        var j :| 0 <= j < |Tail(later)| && Tail(later)[j] == r[i];
        assert Tail(later)[j] == later[j + 1];
      }
    }
    if IsMapping(later) {
      assert earlier == [earlier[0]] + Tail(earlier);
      OverlaidHead(earlier[0], Tail(earlier), Tail(later), {}, key);
      if HasKey(Tail(later), key) && !HasKey(Tail(earlier), key) {
        LastLineIn(Tail(later), key);
        var j :| 0 <= j < |Tail(later)| && Tail(later)[j] == LastLine(Tail(later), key);
        assert !IsOwnKey(later[j + 1]);
        assert r[0] == Tail(later)[j];
      } else {
        assert r[0] == earlier[0];
      }
    } else {
      assert r[0] == earlier[0];
    }
  }

  lemma {:induction false} OverlaidHead(head: Line, rest: seq<Line>, over: seq<Line>, settled: set<string>, key: string)
    requires Carries(head, key)
    ensures Overlaid([head] + rest, over, settled)[0]
         == if key !in settled && !HasKey(rest, key) && HasKey(over, key) then LastLine(over, key) else head
    decreases |rest|
  {
    var base := [head] + rest;
    if rest == [] {
      assert base[..0] == [];
      assert Overlaid([], over, settled) == [];
    } else {
      var init, last := rest[..|rest| - 1], rest[|rest| - 1];
      assert base[..|base| - 1] == [head] + init;
      Snoc(rest);
      HasKeyConcat(init, [last], key);
      HasKeyOne(last, key);
      OverlaidHead(head, init, over, if InnerKey(last).Some? then settled + {InnerKey(last).value} else settled, key);
    }
  }

  /** No later block of an append key has an inner entry named as the key itself. */
  ghost predicate NoSelfEntry(blocks: Dict<string, Body>) {
    forall i :: 0 <= i < |blocks| && IsAppendKey(blocks[i].key) ==> !HasKey(Tail(blocks[i].value), blocks[i].key)
  }

  lemma {:induction false} MergeKeepsBlocks(a: Dict<string, Body>, b: Dict<string, Body>)
    requires forall i :: 0 <= i < |a| ==> IsBlock(a[i].key, a[i].value)
    requires forall i :: 0 <= i < |b| ==> IsBlock(b[i].key, b[i].value)
    requires NoSelfEntry(b)
    ensures forall i :: 0 <= i < |MergeBlocks(a, b)| ==>
              IsBlock(MergeBlocks(a, b)[i].key, MergeBlocks(a, b)[i].value)
    decreases |b|
  {
    if b != [] {
      var init, last := b[..|b| - 1], b[|b| - 1];
      MergeKeepsBlocks(a, init);
      var m := MergeBlocks(a, init);
      if Has(m, last.key) && IsAppendKey(last.key) {
        ExtendKeepsBlock(last.key, Get(m, last.key), last.value);
      }
    }
  }

  /** The merged body splits back into exactly the merged blocks. */
  lemma {:induction false} MergeResplits(earlier: Body, later: Body)
    requires NoSelfEntry(BlocksOf(later).blocks)
    ensures BlocksOf(Merge(earlier, later))
         == Split(BlocksOf(earlier).leading, MergeBlocks(BlocksOf(earlier).blocks, BlocksOf(later).blocks))
  {
    SplitIsLossless(earlier);
    SplitIsLossless(later);
    MergeKeepsBlocks(BlocksOf(earlier).blocks, BlocksOf(later).blocks);
    JoinResplits(Split(BlocksOf(earlier).leading, MergeBlocks(BlocksOf(earlier).blocks, BlocksOf(later).blocks)));
  }

  // ── laying over in two steps ──

  lemma {:induction false} NonBlankConcat(a: seq<Line>, b: seq<Line>)
    ensures NonBlank(a + b) == NonBlank(a) + NonBlank(b)
    decreases |b|
  {
    if b == [] {
      assert a + b == a;
    } else {
      ConcatInit(a, b);
      NonBlankConcat(a, b[..|b| - 1]);
    }
  }

  lemma {:induction false} NonBlankTwice(a: seq<Line>)
    ensures NonBlank(NonBlank(a)) == NonBlank(a)
    decreases |a|
  {
    if a != [] {
      NonBlankTwice(a[..|a| - 1]);
      var last := a[|a| - 1];
      if !last.Blank? {
        NonBlankConcat(NonBlank(a[..|a| - 1]), [last]);
        assert NonBlank([last]) == [last] by {
          assert [last][..0] == [];
        }
      } else {
        assert NonBlank(a[..|a| - 1]) + [] == NonBlank(a[..|a| - 1]);
      }
    }
  }

  lemma {:induction false} FirstIsMappingConcat(a: seq<Line>, b: seq<Line>)
    requires !FirstIsMapping(a) && !FirstIsMapping(b)
    ensures !FirstIsMapping(a + b)
    decreases |a|
  {
    if a == [] {
      assert a + b == b;
    } else {
      ConcatTail(a, b);
      if a[0].Blank? || a[0].Comment? {
        FirstIsMappingConcat(a[1..], b);
      }
    }
  }

  lemma {:induction false} FirstIsMappingNonBlank(a: seq<Line>)
    ensures FirstIsMapping(NonBlank(a)) == FirstIsMapping(a)
    decreases |a|
  {
    if a != [] {
      assert a == [a[0]] + a[1..];
      NonBlankConcat([a[0]], a[1..]);
      FirstIsMappingNonBlank(a[1..]);
      assert NonBlank([a[0]]) == if a[0].Blank? then [] else [a[0]] by {
        assert [a[0]][..0] == [];
      }
      if a[0].Blank? {
        assert NonBlank(a) == NonBlank(a[1..]);
      } else {
        assert NonBlank(a)[1..] == NonBlank(a[1..]);
      }
    }
  }

  lemma {:induction false} FirstIsMappingPrefix(a: seq<Line>, b: seq<Line>)
    requires FirstIsMapping(a)
    ensures FirstIsMapping(a + b)
    decreases |a|
  {
    ConcatTail(a, b);
    if a[0].Blank? || a[0].Comment? {
      FirstIsMappingPrefix(a[1..], b);
    }
  }

  /** Laying lines over a mapping leaves its first line of substance a mapping line. */
  lemma {:induction false} FirstIsMappingKept(a: seq<Line>, b: seq<Line>)
    requires FirstIsMapping(a) && |a| == |b|
    requires forall i :: 0 <= i < |a| ==> b[i] == a[i] || (InnerKey(a[i]).Some? && InnerKey(b[i]).Some?)
    ensures FirstIsMapping(b)
    decreases |a|
  {
    if a[0].Blank? || a[0].Comment? {
      FirstIsMappingKept(a[1..], b[1..]);
    }
  }

  lemma {:induction false} OverlaidConcat(a: seq<Line>, b: seq<Line>, over: seq<Line>, settled: set<string>,
                                          more: set<string>)
    requires forall k :: k in more <==> k in settled || HasKey(b, k)
    ensures Overlaid(a + b, over, settled) == Overlaid(a, over, more) + Overlaid(b, over, settled)
    decreases |b|
  {
    if b == [] {
      assert a + b == a;
      assert more == settled;
    } else {
      var init, last := b[..|b| - 1], b[|b| - 1];
      assert (a + b)[..|a + b| - 1] == a + init;
      Snoc(b);
      forall k ensures HasKey(b, k) <==> HasKey(init, k) || Carries(last, k) {
        HasKeyConcat(init, [last], k);
        HasKeyOne(last, k);
      }
      OverlaidConcat(a, init, over, if InnerKey(last).Some? then settled + {InnerKey(last).value} else settled, more);
    }
  }

  lemma {:induction false} OverlaidSettles(base: seq<Line>, over: seq<Line>, a: set<string>, b: set<string>)
    requires forall k :: HasKey(base, k) ==> (k in a <==> k in b)
    ensures Overlaid(base, over, a) == Overlaid(base, over, b)
    decreases |base|
  {
    if base != [] {
      var init, last := base[..|base| - 1], base[|base| - 1];
      Snoc(base);
      forall k ensures HasKey(base, k) <==> HasKey(init, k) || Carries(last, k) {
        HasKeyConcat(init, [last], k);
        HasKeyOne(last, k);
      }
      if InnerKey(last).Some? {
        var key := InnerKey(last).value;
        assert HasKey(base, key);
        OverlaidSettles(init, over, a + {key}, b + {key});
      } else {
        OverlaidSettles(init, over, a, b);
      }
    }
  }

  /** Two overlays in turn are one overlay by the two laid over each other. */
  lemma {:induction false} OverlaidTwice(x: seq<Line>, y: seq<Line>, z: seq<Line>, settled: set<string>)
    ensures Overlaid(Overlaid(x, y, settled), z, settled) == Overlaid(x, Over(y, z), settled)
    decreases |x|
  {
    if x != [] {
      var init, last := x[..|x| - 1], x[|x| - 1];
      var settled' := if InnerKey(last).Some? then settled + {InnerKey(last).value} else settled;
      OverlaidTwice(init, y, z, settled');
      OverlaidKeepsKeys(x, y, settled);
      var once := Overlaid(x, y, settled);
      assert once[..|once| - 1] == Overlaid(init, y, settled');
      if InnerKey(last).Some? {
        LaterValueWins(y, z, InnerKey(last).value);
      }
    }
  }

  lemma {:induction false} FreshConcat(base: seq<Line>, a: seq<Line>, b: seq<Line>)
    ensures Fresh(base, a + b) == Fresh(base, a) + Fresh(base, b)
    decreases |b|
  {
    if b == [] {
      assert a + b == a;
    } else {
      ConcatInit(a, b);
      FreshConcat(base, a, b[..|b| - 1]);
    }
  }

  /** Dropping the lines a base already has commutes with laying over. */
  lemma {:induction false} FreshOfOverlaid(base: seq<Line>, y: seq<Line>, z: seq<Line>, settled: set<string>)
    ensures Overlaid(Fresh(base, y), z, settled) == Fresh(base, Overlaid(y, z, settled))
    decreases |y|
  {
    if y != [] {
      var init, last := y[..|y| - 1], y[|y| - 1];
      var settled' := if InnerKey(last).Some? then settled + {InnerKey(last).value} else settled;
      FreshOfOverlaid(base, init, z, settled');
      var r := Overlaid(y, z, settled);
      OverlaidKeepsKeys(y, z, settled);
      assert r[..|r| - 1] == Overlaid(init, z, settled');
      var front := Fresh(base, init);
      if InnerKey(last).Some? && HasKey(base, InnerKey(last).value) {
        assert Fresh(base, y) == front;
        forall k | HasKey(front, k) ensures k in settled' <==> k in settled {
          FreshHasKey(base, init, k);
        }
        OverlaidSettles(front, z, settled', settled);
      } else {
        assert (front + [last])[..|front|] == front;
      }
    }
  }

  lemma {:induction false} FreshTwice(x: seq<Line>, y: seq<Line>, xy: seq<Line>, z: seq<Line>)
    requires forall k :: HasKey(xy, k) <==> HasKey(x, k) || HasKey(y, k)
    ensures Fresh(xy, z) == Fresh(x, Fresh(y, z))
    decreases |z|
  {
    if z != [] {
      var init, last := z[..|z| - 1], z[|z| - 1];
      FreshTwice(x, y, xy, init);
      FreshConcat(x, Fresh(y, init), [last]);
      assert Fresh(x, [last]) == if InnerKey(last).Some? && HasKey(x, InnerKey(last).value) then [] else [last] by {
        assert [last][..0] == [];
      }
      assert Fresh(y, init) + [] == Fresh(y, init);
    }
  }

  /** Mappings: laying over is associative, whatever the keys. */
  lemma OverAssociative(x: seq<Line>, y: seq<Line>, z: seq<Line>)
    ensures Over(Over(x, y), z) == Over(x, Over(y, z))
  {
    var front, back := Overlaid(x, y, {}), Fresh(x, y);
    OverlaidOver(x, y, z);
    FreshOver(x, y, z);
    FreshConcat(x, Overlaid(y, z, {}), Fresh(y, z));
    Associate(Overlaid(x, Over(y, z), {}), Fresh(x, Overlaid(y, z, {})), Fresh(x, Fresh(y, z)));
  }

  lemma {:induction false} FreshOver(x: seq<Line>, y: seq<Line>, z: seq<Line>)
    ensures Fresh(Over(x, y), z) == Fresh(x, Fresh(y, z))
  {
    forall k ensures HasKey(Over(x, y), k) <==> HasKey(x, k) || HasKey(y, k) {
      LaterValueWins(x, y, k);
    }
    FreshTwice(x, y, Over(x, y), z);
  }

  lemma OverlaidOver(x: seq<Line>, y: seq<Line>, z: seq<Line>)
    ensures Overlaid(Over(x, y), z, {}) == Overlaid(x, Over(y, z), {}) + Fresh(x, Overlaid(y, z, {}))
  {
    var front, back := Overlaid(x, y, {}), Fresh(x, y);
    var settled := KeysOf(back);
    OverlaidConcat(front, back, z, {}, settled);
    forall k | HasKey(front, k) ensures k !in settled {
      OverlaidHasKey(x, y, {}, k);
      FreshHasKey(x, y, k);
    }
    OverlaidSettles(front, z, settled, {});
    OverlaidTwice(x, y, z, {});
    FreshOfOverlaid(x, y, z, {});
  }

  function KeysOf(lines: seq<Line>): (keys: set<string>)
    ensures forall k :: k in keys <==> HasKey(lines, k)
  {
    set i | 0 <= i < |lines| && InnerKey(lines[i]).Some? :: InnerKey(lines[i]).value
  }

  /** Laying over a block leaves its key line alone, given no inner entry of that name. */
  lemma OverBlock(head: Line, ys: seq<Line>, zs: seq<Line>, key: string)
    requires Carries(head, key) && !HasKey(zs, key)
    ensures Over([head] + ys, zs) == [head] + Over(ys, zs)
  {
    var settled := KeysOf(ys);
    OverlaidConcat([head], ys, zs, {}, settled);
    assert Overlaid([head], zs, settled) == [head] by {
      assert [head][..0] == [];
    }
    FreshHead(head, ys, zs, key);
  }

  lemma OverIsMapping(ys: seq<Line>, zs: seq<Line>)
    requires FirstIsMapping(ys)
    ensures FirstIsMapping(Over(ys, zs))
  {
    OverlaidKeepsKeys(ys, zs, {});
    forall i | 0 <= i < |ys|
      ensures Overlaid(ys, zs, {})[i] == ys[i] || (InnerKey(ys[i]).Some? && InnerKey(Overlaid(ys, zs, {})[i]).Some?)
    {
      OverlaidFrom(ys, zs, {}, i);
    }
    FirstIsMappingKept(ys, Overlaid(ys, zs, {}));
    FirstIsMappingPrefix(Overlaid(ys, zs, {}), Fresh(ys, zs));
  }

  lemma {:induction false} FreshHead(head: Line, ys: seq<Line>, zs: seq<Line>, key: string)
    requires Carries(head, key) && !HasKey(zs, key)
    ensures Fresh([head] + ys, zs) == Fresh(ys, zs)
    decreases |zs|
  {
    if zs != [] {
      var init, last := zs[..|zs| - 1], zs[|zs| - 1];
      Snoc(zs);
      HasKeyConcat(init, [last], key);
      HasKeyOne(last, key);
      FreshHead(head, ys, init, key);
      if InnerKey(last).Some? {
        HasKeyConcat([head], ys, InnerKey(last).value);
        HasKeyOne(head, InnerKey(last).value);
      }
    }
  }
}
