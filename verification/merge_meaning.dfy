/** What an override means, key by key and line by line. */
module MergeMeaning {
  import opened Basics
  import opened Dicts
  import opened ComposeText
  import opened OverrideMerge
  import opened MergeLaws

  /** The merged body is the earlier file's leading lines and then one block for each key: the earlier keys in
      their order, then those only the later file has. The later file's block replaces the earlier one, except
      that under eighteen keys it is added to it. */
  lemma MergeIsOverride(earlier: Body, later: Body) returns (blocks: Dict<string, Body>)
    requires UniqueKeys(BlocksOf(earlier).blocks) && UniqueKeys(BlocksOf(later).blocks)
    ensures Merge(earlier, later) == BlocksOf(earlier).leading + Joined(blocks)
    ensures UniqueKeys(blocks)
    ensures Dicts.Keys(blocks)
         == Dicts.Keys(BlocksOf(earlier).blocks) + NewKeys(BlocksOf(earlier).blocks, BlocksOf(later).blocks)
    ensures forall k :: Has(blocks, k) <==> Has(BlocksOf(earlier).blocks, k) || Has(BlocksOf(later).blocks, k)
    ensures forall k :: Has(BlocksOf(earlier).blocks, k) && !Has(BlocksOf(later).blocks, k) ==>
              Get(blocks, k) == Get(BlocksOf(earlier).blocks, k)
    ensures forall k :: !Has(BlocksOf(earlier).blocks, k) && Has(BlocksOf(later).blocks, k) ==>
              Get(blocks, k) == Get(BlocksOf(later).blocks, k)
    ensures forall k :: Has(BlocksOf(earlier).blocks, k) && Has(BlocksOf(later).blocks, k) ==>
              Get(blocks, k) ==
                if k in {"ports", "expose", "volumes", "environment", "env_file", "depends_on", "networks", "dns",
                         "dns_search", "extra_hosts", "labels", "profiles", "cap_add", "cap_drop", "security_opt",
                         "devices", "tmpfs", "command"}
                then Extend(Get(BlocksOf(earlier).blocks, k), Get(BlocksOf(later).blocks, k))
                else Get(BlocksOf(later).blocks, k)
    ensures NoSelfEntry(BlocksOf(later).blocks) ==>
              BlocksOf(Merge(earlier, later)) == Split(BlocksOf(earlier).leading, blocks)
  {
    var a, b := BlocksOf(earlier).blocks, BlocksOf(later).blocks;
    blocks := MergeBlocks(a, b);
    MergedBlocks(a, b);
    if NoSelfEntry(b) {
      MergeResplits(earlier, later);
    }
    hide BlocksOf, MergeBlocks, Has, Get, Extend, NewKeys, Joined, NoSelfEntry;
  }

  /** The later-only keys, in the later file's order. */
  lemma {:induction false} NewKeysAre(blocks: Dict<string, Body>, later: Dict<string, Body>)
    ensures forall k :: k in NewKeys(blocks, later) <==> Has(later, k) && !Has(blocks, k)
    ensures later != [] && Has(blocks, later[|later| - 1].key) ==>
              NewKeys(blocks, later) == NewKeys(blocks, later[..|later| - 1])
    ensures later != [] && !Has(blocks, later[|later| - 1].key) ==>
              NewKeys(blocks, later) == NewKeys(blocks, later[..|later| - 1]) + [later[|later| - 1].key]
    decreases |later|
  {
    if later != [] {
      var init, last := later[..|later| - 1], later[|later| - 1];
      NewKeysAre(blocks, init);
      Snoc(later);
      forall k ensures k in NewKeys(blocks, later) <==> Has(later, k) && !Has(blocks, k) {
        HasSnoc(init, last, k);
      }
    }
  }

  // ── a list ──

  /** Does the block open with a list item, blank lines and comments aside? */
  ghost predicate OpensWithItem(block: Body) {
    exists i :: 0 < i < |block| && block[i].Item? && block[i].indent >= 1
      && forall j :: 0 < j < i ==> block[j].Blank? || block[j].Comment?
  }

  lemma {:induction false} ItemsAreNoMapping(lines: seq<Line>, i: nat)
    requires i < |lines| && lines[i].Item? && lines[i].indent >= 1
    requires forall j :: 0 <= j < i ==> lines[j].Blank? || lines[j].Comment?
    ensures !FirstIsMapping(lines)
    decreases i
  {
    if i > 0 {
      ItemsAreNoMapping(lines[1..], i - 1);
    }
  }

  lemma {:induction false} NonBlankAll(lines: seq<Line>)
    requires forall i :: 0 <= i < |lines| ==> !lines[i].Blank?
    ensures NonBlank(lines) == lines
    decreases |lines|
  {
    if lines != [] {
      NonBlankAll(lines[..|lines| - 1]);
      Snoc(lines);
    }
  }

  /** A later list adds its lines after the earlier ones. */
  lemma ItemsAreAppended(earlier: Body, later: Body)
    requires OpensWithItem(later)
    requires forall i :: 0 < i < |later| ==> !later[i].Blank?
    ensures Extend(earlier, later) == earlier + later[1..]
  {
    var i :| 0 < i < |later| && later[i].Item? && later[i].indent >= 1
      && forall j :: 0 < j < i ==> later[j].Blank? || later[j].Comment?;
    ItemsAreNoMapping(later[1..], i - 1);
    NonBlankAll(later[1..]);
  }

  /** Blank lines in a later list count for nothing. */
  lemma BlanksAreDropped(earlier: Body, head: Line, a: Body, b: Body)
    requires OpensWithItem([head] + (a + b)) && OpensWithItem([head] + (a + [Blank] + b))
    ensures Extend(earlier, [head] + (a + [Blank] + b)) == Extend(earlier, [head] + (a + b))
  {
    OpensWithNoMapping([head] + (a + b));
    OpensWithNoMapping([head] + (a + [Blank] + b));
    assert ([head] + (a + b))[1..] == a + b && ([head] + (a + [Blank] + b))[1..] == a + [Blank] + b;
    NonBlankConcat(a + [Blank], b);
    NonBlankConcat(a, [Blank]);
    NonBlankConcat(a, b);
    assert [Blank][..0] == [] && NonBlank([Blank]) == [] + [];
    assert NonBlank(a) + [] == NonBlank(a);
  }

  lemma OpensWithNoMapping(block: Body)
    requires OpensWithItem(block)
    ensures !IsMapping(block)
  {
    var i :| 0 < i < |block| && block[i].Item? && block[i].indent >= 1
      && forall j :: 0 < j < i ==> block[j].Blank? || block[j].Comment?;
    ItemsAreNoMapping(block[1..], i - 1);
  }

  // ── a mapping ──

  /** The last entry of `lines` called `key`, wherever it is indented. */
  ghost predicate IsLastEntry(lines: seq<Line>, key: string, at: nat) {
    && at < |lines| && lines[at].Entry? && lines[at].indent >= 1 && lines[at].key == key
    && forall j :: at < j < |lines| ==> !(lines[j].Entry? && lines[j].indent >= 1 && lines[j].key == key)
  }

  /** Every entry of a later mapping, from its first on, takes the place of the earlier entry of its name or
      comes at the end. */
  lemma EntriesTakeTheirPlace(earlier: Body, later: Body, line: Line, at: nat)
    requires |later| >= 1 && line.Entry? && line.indent >= 1
    requires |later| == 1 || later[1].Entry?
    ensures var before := if |later| == 1 then earlier else Extend(earlier, later);
            && |before| >= |earlier|
            && (IsLastEntry(earlier, line.key, at) ==> Extend(earlier, later + [line]) == before[at := line])
            && ((forall j :: 0 <= j < |earlier| ==>
                   !(earlier[j].Entry? && earlier[j].indent >= 1 && earlier[j].key == line.key)) ==>
                  Extend(earlier, later + [line]) == before + [line])
  {
    assert (later + [line])[1..] == later[1..] + [line];
    assert IsMapping(later + [line]);
    LayOverStep(earlier, later[1..], line, at);
    if |later| == 1 {
      assert later[1..] == [];
      OverlaidNothing(earlier, {});
      assert Over(earlier, []) == earlier;
    } else {
      assert IsMapping(later);
    }
    if IsLastEntry(earlier, line.key, at) {
      assert IsLastAt(earlier, line.key, at);
    }
  }
}
