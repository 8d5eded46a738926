/** Three files of a repo: when it does not matter which two are merged first. */
module MergeOrder {
  import opened Basics
  import opened Dicts
  import opened ComposeText
  import opened OverrideMerge
  import opened MergeLaws
  import opened Rendering

  // ── one shape throughout ──

  /** Lists: appending is associative. */
  lemma ExtendListsAssociative(x: Body, y: Body, z: Body)
    requires y != [] && !IsMapping(y) && !IsMapping(z)
    ensures Extend(Extend(x, y), z) == Extend(x, Extend(y, z))
  {
    var zs := NonBlank(Tail(z));
    ExtendList(Extend(x, y), z);
    ExtendList(x, y);
    ExtendList(y, z);
    assert !FirstIsMapping(zs) by {
      FirstIsMappingNonBlank(Tail(z));
    }
    AppendedIsList(y, zs);
    ExtendList(x, y + zs);
    assert NonBlank(Tail(y) + zs) == NonBlank(Tail(y)) + zs by {
      NonBlankConcat(Tail(y), zs);
      NonBlankTwice(Tail(z));
    }
    SequenceAssociative(x, NonBlank(Tail(y)), zs);
  }

  lemma ExtendList(x: Body, y: Body)
    requires !IsMapping(y)
    ensures Extend(x, y) == x + NonBlank(Tail(y))
  {
  }

  lemma SequenceAssociative(a: Body, b: Body, c: Body)
    ensures a + b + c == a + (b + c)
  {
  }

  lemma AppendedIsList(y: Body, zs: seq<Line>)
    requires y != [] && !IsMapping(y)
    ensures Tail(y + zs) == Tail(y) + zs
    ensures !FirstIsMapping(zs) ==> !IsMapping(y + zs)
  {
    ConcatTail(y, zs);
    if !FirstIsMapping(zs) {
      FirstIsMappingConcat(y[1..], zs);
    }
  }

  /** Mapping blocks: extending is associative when no inner entry is named as the block's key. */
  lemma {:induction false} ExtendMappingsAssociative(key: string, x: Body, y: Body, z: Body)
    requires IsBlock(key, y) && IsMapping(y) && IsMapping(z)
    requires !HasKey(Tail(z), key)
    ensures Extend(Extend(x, y), z) == Extend(x, Extend(y, z))
  {
    var head, ys, zs := y[0], Tail(y), Tail(z);
    assert y == [head] + ys;
    OverBlock(head, ys, zs, key);
    assert Tail([head] + Over(ys, zs)) == Over(ys, zs);
    OverIsMapping(ys, zs);
    OverAssociative(x, ys, zs);
  }

  // ── when the order does not matter, one block at a time ──

  predicate HasSubstance(lines: seq<Line>) {
    exists l :: l in lines && !l.Blank? && !l.Comment?
  }

  /** Every key of the lines that the base has too is one the block between them has. */
  predicate SharesOnly(lines: seq<Line>, base: seq<Line>, between: seq<Line>) {
    forall l :: l in lines && InnerKey(l).Some? && HasKey(base, InnerKey(l).value) ==>
      HasKey(between, InnerKey(l).value)
  }

  /** Three declarations of an append key, extended in either order: one shape throughout is always
      fine; a list after a mapping when they share no inner key with the first; a mapping after a
      list when it has no blank line and shares with the first only what the list has too; a mapping
      after blank lines and comments only when none of them is blank. */
  predicate AreOrderFree(x: Body, y: Body, z: Body) {
    if IsMapping(y) == IsMapping(z) then true
    else if IsMapping(y) then SharesOnly(Tail(z), x, [])
    else if HasSubstance(Tail(y)) then Blank !in Tail(z) && SharesOnly(Tail(z), x, Tail(y))
    else Blank !in Tail(y)
  }

  lemma {:induction false} NonBlankAll(lines: seq<Line>)
    ensures NonBlank(lines) == lines <==> Blank !in lines
    decreases |lines|
  {
    NonBlankIn(lines);
    if lines != [] && Blank !in lines {
      Snoc(lines);
      assert lines[|lines| - 1] in lines;
      NonBlankAll(lines[..|lines| - 1]);
    }
  }

  lemma {:induction false} FreshMembers(base: seq<Line>, over: seq<Line>)
    ensures forall l :: l in Fresh(base, over) <==>
              l in over && !(InnerKey(l).Some? && HasKey(base, InnerKey(l).value))
    decreases |over|
  {
    if over != [] {
      FreshMembers(base, over[..|over| - 1]);
      Snoc(over);
    }
  }

  lemma {:induction false} FreshLength(base: seq<Line>, over: seq<Line>)
    ensures |Fresh(base, over)| <= |over|
    ensures Fresh(base, over) == over <==> SharesOnly(over, base, [])
    decreases |over|
  {
    if over != [] {
      var init, last := over[..|over| - 1], over[|over| - 1];
      FreshLength(base, init);
      Snoc(over);
      var shared := InnerKey(last).Some? && HasKey(base, InnerKey(last).value);
      assert forall l :: l in over <==> l in init || l == last;
      if !shared && Fresh(base, over) == over {
        assert Fresh(base, over)[..|init|] == init;
      }
    }
  }

  lemma {:induction false} OverlaidNonBlank(ys: seq<Line>, zs: seq<Line>, settled: set<string>)
    ensures NonBlank(Overlaid(ys, zs, settled)) == Overlaid(NonBlank(ys), zs, settled)
    decreases |ys|
  {
    if ys != [] {
      var init, last := ys[..|ys| - 1], ys[|ys| - 1];
      var settled' := if InnerKey(last).Some? then settled + {InnerKey(last).value} else settled;
      OverlaidNonBlank(init, zs, settled');
      var r := Overlaid(ys, zs, settled);
      assert r[..|r| - 1] == Overlaid(init, zs, settled');
      var n := NonBlank(ys);
      if last.Blank? {
        assert n == NonBlank(init);
      } else {
        assert n[..|n| - 1] == NonBlank(init) && n[|n| - 1] == last;
        assert InnerKey(r[|r| - 1]) == InnerKey(last) by {
          OverlaidKeepsKeys(ys, zs, settled);
        }
      }
    }
  }

  /** Nothing is replaced when every shared key is settled. */
  lemma {:induction false} OverlaidIdle(base: seq<Line>, over: seq<Line>, settled: set<string>)
    requires forall k :: HasKey(base, k) && HasKey(over, k) ==> k in settled
    ensures Overlaid(base, over, settled) == base
    decreases |base|
  {
    if base != [] {
      var init, last := base[..|base| - 1], base[|base| - 1];
      Snoc(base);
      OverLineLast(init, last);
      OverlaidIdle(init, over, if InnerKey(last).Some? then settled + {InnerKey(last).value} else settled);
    }
  }

  lemma HasKeyIn(lines: seq<Line>, key: string)
    ensures HasKey(lines, key) <==> exists l :: l in lines && Carries(l, key)
  {
    if HasKey(lines, key) {
      var i :| 0 <= i < |lines| && Carries(lines[i], key);
      assert lines[i] in lines;
    }
  }

  /** Laying over more lines amounts to appending them exactly when they share no key. */
  lemma {:induction false} OverAppends(x: seq<Line>, ys: seq<Line>, more: seq<Line>)
    ensures Over(x, ys + more) == Over(x, ys) + more <==> SharesOnly(more, x, [])
  {
    FreshConcat(x, ys, more);
    FreshLength(x, more);
    if SharesOnly(more, x, []) {
      OverIgnores(x, ys, more);
      Associate(Overlaid(x, ys, {}), Fresh(x, ys), more);
    } else {
      assert Fresh(x, more) != more;
      if |Fresh(x, more)| == |more| {
        assert (Over(x, ys) + more)[|Over(x, ys)|..] == more;
        assert Over(x, ys + more)[|Over(x, ys)|..] == Fresh(x, more);
      }
    }
  }

  lemma {:induction false} OverIgnores(x: seq<Line>, ys: seq<Line>, more: seq<Line>)
    requires SharesOnly(more, x, [])
    ensures Overlaid(x, ys + more, {}) == Overlaid(x, ys, {})
    decreases |more|
  {
    if more == [] {
      assert ys + more == ys;
    } else {
      var init, last := more[..|more| - 1], more[|more| - 1];
      Snoc(more);
      assert last in more && forall l :: l in init ==> l in more;
      OverIgnores(x, ys, init);
      assert ys + more == ys + init + [last];
      OverlaidIgnores(x, ys + init, last, {});
    }
  }

  lemma SharesNonBlank(lines: seq<Line>, base: seq<Line>, between: seq<Line>)
    ensures SharesOnly(NonBlank(lines), base, between) <==> SharesOnly(lines, base, between)
  {
    NonBlankIn(lines);
  }

  lemma MappingThenList(x: Body, y: Body, z: Body)
    requires y != [] && IsMapping(y) && !IsMapping(z)
    ensures Extend(Extend(x, y), z) == Extend(x, Extend(y, z)) <==> SharesOnly(Tail(z), x, [])
  {
    var ys, more := Tail(y), NonBlank(Tail(z));
    ConcatTail(y, more);
    FirstIsMappingPrefix(ys, more);
    OverAppends(x, ys, more);
    SharesNonBlank(Tail(z), x, []);
  }

  lemma {:induction false} SubstanceDecides(ys: seq<Line>, more: seq<Line>)
    requires HasSubstance(ys)
    ensures FirstIsMapping(ys + more) == FirstIsMapping(ys)
    decreases |ys|
  {
    ConcatTail(ys, more);
    if ys[0].Blank? || ys[0].Comment? {
      assert forall l :: l in ys <==> l == ys[0] || l in ys[1..];
      SubstanceDecides(ys[1..], more);
    }
  }

  lemma {:induction false} NoSubstance(ys: seq<Line>, more: seq<Line>)
    requires !HasSubstance(ys)
    ensures FirstIsMapping(ys + more) == FirstIsMapping(more)
    ensures forall k :: !HasKey(ys, k)
    decreases |ys|
  {
    if ys == [] {
      assert ys + more == more;
    } else {
      ConcatTail(ys, more);
      assert forall l :: l in ys <==> l == ys[0] || l in ys[1..];
      NoSubstance(ys[1..], more);
      forall k ensures !HasKey(ys, k) {
        HasKeyIn(ys, k);
        HasKeyIn(ys[1..], k);
      }
    }
  }

  /** Laying over changes no line without a key, so a list stays a list. */
  lemma {:induction false} OverlaidIsList(a: seq<Line>, b: seq<Line>)
    requires |a| == |b| && (forall i :: 0 <= i < |a| ==> b[i] == a[i] || (InnerKey(a[i]).Some? && InnerKey(b[i]).Some?))
    ensures FirstIsMapping(a) == FirstIsMapping(b) && HasSubstance(a) == HasSubstance(b)
    decreases |a|
  {
    if HasSubstance(a) {
      var l :| l in a && !l.Blank? && !l.Comment?;
      var i :| 0 <= i < |a| && a[i] == l;
      assert b[i] in b;
    }
    if HasSubstance(b) {
      var l :| l in b && !l.Blank? && !l.Comment?;
      var i :| 0 <= i < |b| && b[i] == l;
      assert a[i] in a;
    }
    if a != [] && (a[0].Blank? || a[0].Comment?) {
      OverlaidIsList(a[1..], b[1..]);
    }
  }

  lemma OverListIsList(ys: seq<Line>, zs: seq<Line>)
    requires HasSubstance(ys) && !FirstIsMapping(ys)
    ensures !FirstIsMapping(Over(ys, zs))
  {
    forall i | 0 <= i < |ys|
      ensures Overlaid(ys, zs, {})[i] == ys[i] || (InnerKey(ys[i]).Some? && InnerKey(Overlaid(ys, zs, {})[i]).Some?)
    {
      OverlaidFrom(ys, zs, {}, i);
    }
    OverlaidIsList(ys, Overlaid(ys, zs, {}));
    SubstanceDecides(Overlaid(ys, zs, {}), Fresh(ys, zs));
  }

  /** The mapping `zs` over a first block and a list: what was settled by the list stays. */
  lemma OverConcat(x: seq<Line>, ys: seq<Line>, zs: seq<Line>)
    ensures Over(x + ys, zs) == Overlaid(x, zs, KeysOf(ys)) + Overlaid(ys, zs, {}) + Fresh(x, Fresh(ys, zs))
  {
    OverlaidConcat(x, ys, zs, {}, KeysOf(ys));
    forall k ensures HasKey(x + ys, k) <==> HasKey(x, k) || HasKey(ys, k) {
      HasKeyConcat(x, ys, k);
    }
    FreshTwice(x, ys, x + ys, zs);
  }

  lemma NonBlankKeys(ys: seq<Line>)
    ensures KeysOf(NonBlank(ys)) == KeysOf(ys)
    ensures forall k :: HasKey(NonBlank(ys), k) <==> HasKey(ys, k)
  {
    NonBlankIn(ys);
    forall k ensures HasKey(NonBlank(ys), k) <==> HasKey(ys, k) {
      HasKeyIn(ys, k);
      HasKeyIn(NonBlank(ys), k);
    }
  }

  lemma {:induction false} FreshByKeys(a: seq<Line>, b: seq<Line>, zs: seq<Line>)
    requires forall k :: HasKey(a, k) <==> HasKey(b, k)
    ensures Fresh(a, zs) == Fresh(b, zs)
    decreases |zs|
  {
    if zs != [] {
      FreshByKeys(a, b, zs[..|zs| - 1]);
    }
  }

  /** Both orders for a mapping over a list, written out. */
  lemma MappingOverList(key: string, x: Body, y: Body, z: Body)
    requires IsBlock(key, y) && !IsMapping(y) && IsMapping(z) && !HasKey(Tail(z), key) && HasSubstance(Tail(y))
    ensures var ys, zs := Tail(y), Tail(z);
            var middle := NonBlank(Overlaid(ys, zs, {}));
            && Extend(Extend(x, y), z) == Overlaid(x, zs, KeysOf(ys)) + middle + Fresh(x, Fresh(ys, zs))
            && Extend(x, Extend(y, z)) == x + middle + NonBlank(Fresh(ys, zs))
  {
    hide HasKey, HasSubstance, FirstIsMapping, Overlaid, Fresh, KeysOf, NonBlank;
    var ys, zs := Tail(y), Tail(z);
    OverConcat(x, NonBlank(ys), zs);
    NonBlankKeys(ys);
    FreshByKeys(NonBlank(ys), ys, zs);
    OverlaidNonBlank(ys, zs, {});
    assert y == [y[0]] + ys;
    OverBlock(y[0], ys, zs, key);
    assert Tail([y[0]] + Over(ys, zs)) == Over(ys, zs);
    OverListIsList(ys, zs);
    NonBlankConcat(Overlaid(ys, zs, {}), Fresh(ys, zs));
    Associate(x, NonBlank(Overlaid(ys, zs, {})), NonBlank(Fresh(ys, zs)));
  }

  /** Dropping known keys is dropping blank lines exactly when there is neither. */
  lemma FreshIsNonBlank(x: seq<Line>, lines: seq<Line>)
    ensures Fresh(x, lines) == NonBlank(lines) <==> Blank !in lines && SharesOnly(lines, x, [])
  {
    FreshLength(x, lines);
    NonBlankAll(lines);
    FreshMembers(x, lines);
    NonBlankIn(lines);
  }

  lemma FreshShares(x: seq<Line>, ys: seq<Line>, zs: seq<Line>)
    ensures Blank in Fresh(ys, zs) <==> Blank in zs
    ensures SharesOnly(Fresh(ys, zs), x, []) <==> SharesOnly(zs, x, ys)
  {
    FreshMembers(ys, zs);
  }

  lemma ListThenMapping(key: string, x: Body, y: Body, z: Body)
    requires IsBlock(key, y) && !IsMapping(y) && IsMapping(z) && !HasKey(Tail(z), key) && HasSubstance(Tail(y))
    ensures Extend(Extend(x, y), z) == Extend(x, Extend(y, z)) <==>
              Blank !in Tail(z) && SharesOnly(Tail(z), x, Tail(y))
  {
    var ys, zs := Tail(y), Tail(z);
    MappingOverList(key, x, y, z);
    var middle := NonBlank(Overlaid(ys, zs, {}));
    FreshIsNonBlank(x, Fresh(ys, zs));
    FreshShares(x, ys, zs);
    if Blank !in zs && SharesOnly(zs, x, ys) {
      forall k | HasKey(x, k) && HasKey(zs, k) ensures k in KeysOf(ys) {
        HasKeyIn(zs, k);
      }
      OverlaidIdle(x, zs, KeysOf(ys));
    } else {
      Parts(Overlaid(x, zs, KeysOf(ys)) + middle, Fresh(x, Fresh(ys, zs)), x + middle, NonBlank(Fresh(ys, zs)));
    }
  }

  lemma Parts<T>(a: seq<T>, b: seq<T>, c: seq<T>, d: seq<T>)
    requires |a| == |c| && b != d
    ensures a + b != c + d
  {
    assert (a + b)[|a|..] == b && (c + d)[|c|..] == d;
  }

  lemma CommentsThenMapping(key: string, x: Body, y: Body, z: Body)
    requires IsBlock(key, y) && !IsMapping(y) && IsMapping(z) && !HasKey(Tail(z), key) && !HasSubstance(Tail(y))
    ensures Extend(Extend(x, y), z) == Extend(x, Extend(y, z)) <==> Blank !in Tail(y)
  {
    var ys, zs := Tail(y), Tail(z);
    NoSubstance(ys, zs);
    NonBlankKeys(ys);
    KeylessOver(ys, zs);
    assert y == [y[0]] + ys;
    OverBlock(y[0], ys, zs, key);
    assert Tail([y[0]] + (ys + zs)) == ys + zs;
    KeylessUnder(x, NonBlank(ys), zs);
    KeylessFirst(x, ys, zs);
    NonBlankAll(ys);
    var front, back := Overlaid(x, zs, {}), Fresh(x, zs);
    if NonBlank(ys) != ys {
      NonBlankShorter(ys);
      assert |front + NonBlank(ys) + back| < |front + ys + back|;
    }
  }

  lemma {:induction false} NonBlankShorter(lines: seq<Line>)
    ensures |NonBlank(lines)| <= |lines|
    ensures NonBlank(lines) != lines ==> |NonBlank(lines)| < |lines|
    decreases |lines|
  {
    if lines != [] {
      NonBlankShorter(lines[..|lines| - 1]);
      Snoc(lines);
    }
  }

  lemma KeylessOver(ys: seq<Line>, zs: seq<Line>)
    requires forall k :: !HasKey(ys, k)
    ensures Over(ys, zs) == ys + zs
  {
    OverlaidIdle(ys, zs, {});
    FreshLength(ys, zs);
  }

  lemma KeylessUnder(x: seq<Line>, ys: seq<Line>, zs: seq<Line>)
    requires forall k :: !HasKey(ys, k)
    ensures Over(x + ys, zs) == Overlaid(x, zs, {}) + ys + Fresh(x, zs)
  {
    OverConcat(x, ys, zs);
    OverlaidIdle(ys, zs, {});
    FreshLength(ys, zs);
    assert KeysOf(ys) == {} by {
      assert forall k :: k !in KeysOf(ys);
    }
  }

  lemma KeylessFirst(x: seq<Line>, ys: seq<Line>, zs: seq<Line>)
    requires forall k :: !HasKey(ys, k)
    ensures Over(x, ys + zs) == Overlaid(x, zs, {}) + ys + Fresh(x, zs)
  {
    FreshConcat(x, ys, zs);
    FreshLength(x, ys);
    assert SharesOnly(ys, x, []) by {
      forall l | l in ys ensures InnerKey(l) == None {
        var i :| 0 <= i < |ys| && ys[i] == l;
        assert InnerKey(l).Some? ==> HasKey(ys, InnerKey(l).value);
      }
    }
    forall k | HasKey(ys + zs, k) ensures HasKey(zs, k) && LastLine(ys + zs, k) == LastLine(zs, k) {
      LastLineConcat(ys, zs, k);
      HasKeyConcat(ys, zs, k);
    }
    forall k | HasKey(zs, k) ensures HasKey(ys + zs, k) {
      HasKeyConcat(ys, zs, k);
    }
    OverlaidByLast(x, ys + zs, zs, {});
    Associate(Overlaid(x, zs, {}), ys, Fresh(x, zs));
  }

  lemma {:induction false} OverlaidByLast(x: seq<Line>, a: seq<Line>, b: seq<Line>, settled: set<string>)
    requires forall k :: HasKey(a, k) <==> HasKey(b, k)
    requires forall k :: HasKey(a, k) && HasKey(b, k) ==> LastLine(a, k) == LastLine(b, k)
    ensures Overlaid(x, a, settled) == Overlaid(x, b, settled)
    decreases |x|
  {
    if x != [] {
      var last := x[|x| - 1];
      OverlaidByLast(x[..|x| - 1], a, b, if InnerKey(last).Some? then settled + {InnerKey(last).value} else settled);
    }
  }

  /** Extending by two blocks in turn, or by the two extended: exactly when it is the same. */
  lemma ExtendAssociativeIff(key: string, x: Body, y: Body, z: Body)
    requires IsBlock(key, y) && IsBlock(key, z) && !HasKey(Tail(z), key)
    ensures Extend(Extend(x, y), z) == Extend(x, Extend(y, z)) <==> AreOrderFree(x, y, z)
  {
    hide HasSubstance, SharesOnly, Extend, HasKey;
    if IsMapping(y) && IsMapping(z) {
      ExtendMappingsAssociative(key, x, y, z);
    } else if IsMapping(y) {
      MappingThenList(x, y, z);
    } else if !IsMapping(z) {
      ExtendListsAssociative(x, y, z);
    } else if HasSubstance(Tail(y)) {
      ListThenMapping(key, x, y, z);
    } else {
      CommentsThenMapping(key, x, y, z);
    }
  }

  // ── whole bodies ──

  /** The keys later than `a`, filtered out of a list of keys. */
  function Later(a: Dict<string, Body>, keys: seq<string>): seq<string>
    decreases |keys|
  {
    if keys == [] then []
    else Later(a, keys[..|keys| - 1]) + if Has(a, keys[|keys| - 1]) then [] else [keys[|keys| - 1]]
  }

  lemma {:induction false} NewKeysLater(a: Dict<string, Body>, b: Dict<string, Body>)
    ensures NewKeys(a, b) == Later(a, Dicts.Keys(b))
    decreases |b|
  {
    if b != [] {
      NewKeysLater(a, b[..|b| - 1]);
      assert Dicts.Keys(b)[..|b| - 1] == Dicts.Keys(b[..|b| - 1]);
    }
  }

  lemma {:induction false} LaterConcat(a: Dict<string, Body>, s: seq<string>, t: seq<string>)
    ensures Later(a, s + t) == Later(a, s) + Later(a, t)
    decreases |t|
  {
    if t == [] {
      assert s + t == s;
    } else {
      ConcatInit(s, t);
      LaterConcat(a, s, t[..|t| - 1]);
    }
  }

  lemma {:induction false} LaterTwice(a: Dict<string, Body>, b: Dict<string, Body>, ab: Dict<string, Body>,
                                      s: seq<string>)
    requires forall k :: Has(ab, k) <==> Has(a, k) || Has(b, k)
    ensures Later(ab, s) == Later(a, Later(b, s))
    decreases |s|
  {
    if s != [] {
      var init, last := s[..|s| - 1], s[|s| - 1];
      LaterTwice(a, b, ab, init);
      LaterConcat(a, Later(b, init), [last]);
      assert Later(a, [last]) == if Has(a, last) then [] else [last] by {
        assert [last][..0] == [];
      }
      assert Later(b, init) + [] == Later(b, init);
    }
  }

  lemma {:induction false} MergedKeysAssociative(a: Dict<string, Body>, b: Dict<string, Body>, c: Dict<string, Body>,
                                                 ab: Dict<string, Body>, bc: Dict<string, Body>)
    requires forall k :: Has(ab, k) <==> Has(a, k) || Has(b, k)
    requires Dicts.Keys(bc) == Dicts.Keys(b) + NewKeys(b, c)
    ensures Dicts.Keys(a) + NewKeys(a, b) + NewKeys(ab, c) == Dicts.Keys(a) + NewKeys(a, bc)
  {
    NewKeysLater(ab, c);
    NewKeysLater(b, c);
    NewKeysLater(a, bc);
    NewKeysLater(a, b);
    LaterConcat(a, Dicts.Keys(b), Later(b, Dicts.Keys(c)));
    LaterTwice(a, b, ab, Dicts.Keys(c));
  }

  /** The keys all three files declare and the merge appends are order-free. */
  ghost predicate IsOrderFreeAt(a: Dict<string, Body>, b: Dict<string, Body>, c: Dict<string, Body>, k: string) {
    IsAppendKey(k) && Has(a, k) && Has(b, k) && Has(c, k) ==> AreOrderFree(Get(a, k), Get(b, k), Get(c, k))
  }

  ghost predicate AreBlocks(blocks: Dict<string, Body>) {
    forall i :: 0 <= i < |blocks| ==> IsBlock(blocks[i].key, blocks[i].value)
  }

  lemma MergedAtIff(a: Dict<string, Body>, b: Dict<string, Body>, c: Dict<string, Body>, k: string)
    requires UniqueKeys(a) && UniqueKeys(b) && UniqueKeys(c)
    requires AreBlocks(b) && AreBlocks(c) && NoSelfEntry(c)
    requires Has(MergeBlocks(MergeBlocks(a, b), c), k) && Has(MergeBlocks(a, MergeBlocks(b, c)), k)
    ensures Get(MergeBlocks(MergeBlocks(a, b), c), k) == Get(MergeBlocks(a, MergeBlocks(b, c)), k) <==>
              IsOrderFreeAt(a, b, c, k)
  {
    MergedBlocks(a, b);
    MergedBlocks(b, c);
    MergedBlocks(MergeBlocks(a, b), c);
    MergedBlocks(a, MergeBlocks(b, c));
    if Has(a, k) && Has(b, k) && Has(c, k) && IsAppendKey(k) {
      assert IsBlock(b[Find(b, k)].key, Get(b, k)) && IsBlock(c[Find(c, k)].key, Get(c, k));
      hide AreOrderFree, Extend, IsBlock, HasKey;
      ExtendAssociativeIff(k, Get(a, k), Get(b, k), Get(c, k));
    }
  }

  /** Blocks of three files merge the same either way exactly when every shared append key does. */
  lemma {:induction false} MergeBlocksAssociativeIff(a: Dict<string, Body>, b: Dict<string, Body>,
                                                     c: Dict<string, Body>)
    requires UniqueKeys(a) && UniqueKeys(b) && UniqueKeys(c)
    requires AreBlocks(b) && AreBlocks(c) && NoSelfEntry(c)
    ensures MergeBlocks(MergeBlocks(a, b), c) == MergeBlocks(a, MergeBlocks(b, c)) <==>
              forall k :: IsOrderFreeAt(a, b, c, k)
  {
    var ab, bc := MergeBlocks(a, b), MergeBlocks(b, c);
    MergedBlocks(a, b);
    MergedBlocks(b, c);
    MergedBlocks(ab, c);
    MergedBlocks(a, bc);
    MergedKeysAssociative(a, b, c, ab, bc);
    var left, right := MergeBlocks(ab, c), MergeBlocks(a, bc);
    hide MergeBlocks, AreBlocks, NoSelfEntry, Get, Has;
    forall k | Has(left, k) && Has(right, k)
      ensures Get(left, k) == Get(right, k) <==> IsOrderFreeAt(a, b, c, k)
    {
      MergedAtIff(a, b, c, k);
    }
    if forall k :: IsOrderFreeAt(a, b, c, k) {
      DictsEqual(left, right);
    }
    if left == right {
      forall k ensures IsOrderFreeAt(a, b, c, k) {
        assert Has(left, k) && Has(right, k) ==> Get(left, k) == Get(right, k);
        assert Has(a, k) ==> Has(left, k);
      }
    }
  }

  lemma ExtendNoSelf(key: string, y: Body, z: Body)
    requires IsBlock(key, y) && IsBlock(key, z) && !HasKey(Tail(y), key) && !HasKey(Tail(z), key)
    ensures !HasKey(Tail(Extend(y, z)), key)
  {
    var ys, zs := Tail(y), Tail(z);
    assert y == [y[0]] + ys;
    if IsMapping(z) {
      OverBlock(y[0], ys, zs, key);
      LaterValueWins(ys, zs, key);
      assert Tail([y[0]] + Over(ys, zs)) == Over(ys, zs);
    } else {
      ConcatTail(y, NonBlank(zs));
      NonBlankKeys(zs);
      HasKeyConcat(ys, NonBlank(zs), key);
    }
  }

  lemma {:induction false} MergedNoSelf(b: Dict<string, Body>, c: Dict<string, Body>)
    requires AreBlocks(b) && AreBlocks(c) && NoSelfEntry(b) && NoSelfEntry(c)
    ensures NoSelfEntry(MergeBlocks(b, c))
    decreases |c|
  {
    if c != [] {
      var init, last := c[..|c| - 1], c[|c| - 1];
      MergedNoSelf(b, init);
      MergeKeepsBlocks(b, init);
      var m := MergeBlocks(b, init);
      hide IsBlock, HasKey;
      if Has(m, last.key) && IsAppendKey(last.key) {
        ExtendNoSelf(last.key, Get(m, last.key), last.value);
      }
    }
  }

  /** The merge of three files does not depend on which two are merged first exactly when it does not
      at any append key all three declare. */
  lemma {:induction false} MergeAssociativeIff(a: Body, b: Body, c: Body)
    requires UniqueKeys(BlocksOf(a).blocks) && UniqueKeys(BlocksOf(b).blocks) && UniqueKeys(BlocksOf(c).blocks)
    requires NoSelfEntry(BlocksOf(b).blocks) && NoSelfEntry(BlocksOf(c).blocks)
    ensures Merge(Merge(a, b), c) == Merge(a, Merge(b, c)) <==>
              forall k :: IsOrderFreeAt(BlocksOf(a).blocks, BlocksOf(b).blocks, BlocksOf(c).blocks, k)
  {
    var p, q, r := BlocksOf(a), BlocksOf(b), BlocksOf(c);
    SplitIsLossless(b);
    SplitIsLossless(c);
    MergeResplits(a, b);
    MergeResplits(b, c);
    MergedNoSelf(q.blocks, r.blocks);
    MergeResplits(Merge(a, b), c);
    MergeResplits(a, Merge(b, c));
    hide BlocksOf, WellSplit, NoSelfEntry, UniqueKeys, IsOrderFreeAt;
    MergeBlocksAssociativeIff(p.blocks, q.blocks, r.blocks);
  }

  function Environment(): Line {
    Line.Entry(4, "environment", Nothing)
  }

  /** The witness: three files declaring `environment` as a mapping, a list and a mapping. */
  lemma MixedShapesWitness()
    ensures var x := [Environment(), Line.Entry(6, "A", Scalar("1"))];
            var y := [Environment(), Line.Item(6, "", Scalar("B=2"))];
            var z := [Environment(), Line.Entry(6, "A", Scalar("3"))];
            Extend(Extend(x, y), z) != Extend(x, Extend(y, z))
  {
    var x := [Environment(), Line.Entry(6, "A", Scalar("1"))];
    var y := [Environment(), Line.Item(6, "", Scalar("B=2"))];
    var z := [Environment(), Line.Entry(6, "A", Scalar("3"))];
    hide Extend;
    assert HasKey(x, "A") by {
      assert Carries(x[1], "A");
    }
    assert Tail(y) == [y[1]] && Tail(z) == [z[1]];
    assert !IsMapping(y) && IsMapping(z);
    assert y[1] in Tail(y) && z[1] in Tail(z);
    assert !HasKey(Tail(y), "A") && !HasKey(Tail(z), "environment");
    ExtendAssociativeIff("environment", x, y, z);
  }
}
