/** Mappings inside mappings: which path each line is at, and when extending gets every path right. */
module NestedMappings {
  import opened Basics
  import opened Dicts
  import opened ComposeText
  import opened OverrideMerge
  import opened MergeLaws

  // ── paths by indentation ──

  predicate IsKeyed(line: Line) {
    InnerKey(line).Some?
  }

  /** The keys still open, after some lines, for a line at an indentation: the last line indented
      less, the last one before it indented less than that one, and so on. */
  function OpenPath(lines: seq<Line>, indent: nat): seq<string>
    decreases |lines|
  {
    if lines == [] then []
    else
      var init, last := lines[..|lines| - 1], lines[|lines| - 1];
      if IsKeyed(last) && last.indent < indent then OpenPath(init, last.indent) + [last.key]
      else OpenPath(init, indent)
  }

  function PathAt(lines: seq<Line>, i: nat): seq<string>
    requires i < |lines| && IsKeyed(lines[i])
  {
    OpenPath(lines[..i], lines[i].indent) + [lines[i].key]
  }

  predicate IsAt(lines: seq<Line>, path: seq<string>, i: nat) {
    i < |lines| && IsKeyed(lines[i]) && PathAt(lines, i) == path
  }

  ghost predicate HasPath(lines: seq<Line>, path: seq<string>) {
    exists i :: IsAt(lines, path, i)
  }

  ghost predicate Declares(lines: seq<Line>, path: seq<string>, line: Line) {
    exists i: nat :: IsAt(lines, path, i) && lines[i] == line
  }

  ghost predicate EachPathOnce(lines: seq<Line>) {
    forall path, i, j :: IsAt(lines, path, i) && IsAt(lines, path, j) ==> i == j
  }

  /** What is under a key of a service, two spaces to a level and no path twice. */
  ghost predicate IsTree(lines: seq<Line>) {
    && EachPathOnce(lines)
    && forall i :: 0 <= i < |lines| && IsKeyed(lines[i]) ==> lines[i].indent == 4 + 2 * |PathAt(lines, i)|
  }

  /** What a merge of mappings is meant to be: at every path the later line where there is one, else
      the earlier line, and no path twice. */
  ghost predicate IsMeant(result: seq<Line>, base: seq<Line>, over: seq<Line>) {
    && EachPathOnce(result)
    && forall path, line ::
         Declares(result, path, line) <==>
           Declares(over, path, line) || (Declares(base, path, line) && !HasPath(over, path))
  }

  // ── the condition ──

  /** A line of the later mapping whose key is nowhere in the earlier one: it goes to the end. */
  predicate IsNew(base: seq<Line>, over: seq<Line>, t: nat) {
    t < |over| && IsKeyed(over[t]) && !HasKey(base, over[t].key)
  }

  /** The line a merge should have at the path of an earlier line. */
  ghost predicate IsMeantAt(base: seq<Line>, over: seq<Line>, i: nat, line: Line)
    requires i < |base| && IsKeyed(base[i])
  {
    if HasPath(over, PathAt(base, i)) then Declares(over, PathAt(base, i), line) else line == base[i]
  }

  /** Shared keys: every later line under one is at a path the earlier mapping has too; the last
      earlier line of the key is the one the last later line is meant for; and the others agree. */
  ghost predicate SharedInPlace(base: seq<Line>, over: seq<Line>) {
    && (forall t :: 0 <= t < |over| && IsKeyed(over[t]) && HasKey(base, over[t].key) ==> HasPath(base, PathAt(over, t)))
    && (forall i :: 0 <= i < |base| && IsKeyed(base[i]) && HasKey(over, base[i].key) ==>
          IsMeantAt(base, over, i, if IsLastAt(base, base[i].key, i) then LastLine(over, base[i].key) else base[i]))
  }

  /** The last line before `t` that is indented less than `indent`. */
  function LastBelow(lines: seq<Line>, t: nat, indent: nat): (at: Option<nat>)
    requires t <= |lines|
    ensures at.Some? ==> at.value < t && IsKeyed(lines[at.value]) && lines[at.value].indent < indent
    ensures forall j :: 0 <= j < t && IsKeyed(lines[j]) && lines[j].indent < indent ==> at.Some? && j <= at.value
    decreases t
  {
    if t == 0 then None
    else if IsKeyed(lines[t - 1]) && lines[t - 1].indent < indent then Some(t - 1)
    else LastBelow(lines, t - 1, indent)
  }

  /** A new line lands where it belongs: its parent is new as well and goes to the end before it; or no
      new line before it is indented less, and its parent is the one the earlier mapping leaves open. */
  predicate LandsRight(base: seq<Line>, over: seq<Line>, t: nat)
    requires t < |over| && IsKeyed(over[t])
  {
    var indent := over[t].indent;
    var parent := LastBelow(over, t, indent);
    || (parent.Some? && IsNew(base, over, parent.value))
    || ((forall s :: 0 <= s < t && IsNew(base, over, s) ==> over[s].indent >= indent)
          && OpenPath(base, indent) == OpenPath(over[..t], indent))
  }

  predicate NewInPlace(base: seq<Line>, over: seq<Line>) {
    forall t :: 0 <= t < |over| && IsNew(base, over, t) ==> LandsRight(base, over, t)
  }

  // ── open paths ──

  lemma OpenSnoc(lines: seq<Line>, last: Line, indent: nat)
    ensures OpenPath(lines + [last], indent) ==
              if IsKeyed(last) && last.indent < indent then OpenPath(lines, last.indent) + [last.key]
              else OpenPath(lines, indent)
  {
    assert (lines + [last])[..|lines|] == lines;
  }

  lemma SameParent(a: seq<string>, b: seq<string>, key: string)
    ensures a + [key] == b + [key] <==> a == b
  {
    assert (a + [key])[..|a|] == a && (b + [key])[..|b|] == b;
  }

  lemma {:induction false} OpenFrom(lines: seq<Line>, t: nat, indent: nat)
    requires t <= |lines|
    ensures var at := LastBelow(lines, t, indent);
            OpenPath(lines[..t], indent) == if at == None then [] else PathAt(lines, at.value)
    decreases t
  {
    if t > 0 {
      TakeSnoc(lines, t - 1);
      OpenFrom(lines, t - 1, indent);
    }
  }

  /** Lines that agree on keys and indentation leave the same paths open. */
  ghost predicate SameLayout(a: seq<Line>, b: seq<Line>, n: nat) {
    && n <= |a| && n <= |b|
    && (forall i :: 0 <= i < n ==> InnerKey(a[i]) == InnerKey(b[i]))
    && (forall i :: 0 <= i < n && IsKeyed(a[i]) ==> a[i].indent == b[i].indent)
  }

  lemma {:induction false} SameOpen(a: seq<Line>, b: seq<Line>, n: nat, indent: nat)
    requires SameLayout(a, b, n)
    ensures OpenPath(a[..n], indent) == OpenPath(b[..n], indent)
    decreases n
  {
    if n > 0 {
      TakeSnoc(a, n - 1);
      TakeSnoc(b, n - 1);
      assert InnerKey(a[n - 1]) == InnerKey(b[n - 1]);
      SameOpen(a, b, n - 1, if IsKeyed(a[n - 1]) && a[n - 1].indent < indent then a[n - 1].indent else indent);
    }
  }

  // ── the lines laid over ──

  lemma {:induction false} OverlaidAt(base: seq<Line>, over: seq<Line>, settled: set<string>, i: nat)
    requires i < |base|
    ensures Overlaid(base, over, settled)[i] ==
              if && IsKeyed(base[i]) && base[i].key !in settled
                 && IsLastAt(base, base[i].key, i) && HasKey(over, base[i].key)
              then LastLine(over, base[i].key) else base[i]
    decreases |base|
  {
    var init, last := base[..|base| - 1], base[|base| - 1];
    if i < |init| {
      var settled' := if InnerKey(last).Some? then settled + {InnerKey(last).value} else settled;
      OverlaidAt(init, over, settled', i);
      if IsKeyed(base[i]) {
        assert IsLastAt(base, base[i].key, i) <==> IsLastAt(init, base[i].key, i) && !Carries(last, base[i].key);
      }
    }
  }

  // ── where new lines land ──

  /** The result as far as the first `t` later lines go. */
  function LaidUpTo(base: seq<Line>, over: seq<Line>, t: nat): seq<Line>
    requires t <= |over|
  {
    Overlaid(base, over, {}) + Fresh(base, over[..t])
  }

  /** The path of a new line in the result. */
  function Landing(base: seq<Line>, over: seq<Line>, t: nat): seq<string>
    requires t < |over| && IsKeyed(over[t])
  {
    OpenPath(LaidUpTo(base, over, t), over[t].indent) + [over[t].key]
  }

  function Place(base: seq<Line>, over: seq<Line>, t: nat): nat
    requires t <= |over|
  {
    |base| + |Fresh(base, over[..t])|
  }

  lemma FreshStep(base: seq<Line>, over: seq<Line>, t: nat)
    requires t < |over|
    ensures Fresh(base, over[..t + 1])
         == Fresh(base, over[..t]) + if IsKeyed(over[t]) && HasKey(base, over[t].key) then [] else [over[t]]
  {
    TakeSnoc(over, t);
  }

  lemma LaidStep(base: seq<Line>, over: seq<Line>, t: nat)
    requires t < |over|
    ensures LaidUpTo(base, over, t + 1)
         == if IsKeyed(over[t]) && HasKey(base, over[t].key) then LaidUpTo(base, over, t)
            else LaidUpTo(base, over, t) + [over[t]]
  {
    FreshStep(base, over, t);
  }

  lemma NewIsAt(base: seq<Line>, over: seq<Line>, t: nat)
    requires IsNew(base, over, t)
    ensures var p := Place(base, over, t);
            && p < |Over(base, over)| && Over(base, over)[p] == over[t]
            && IsAt(Over(base, over), Landing(base, over, t), p)
  {
    var r, front := Over(base, over), Overlaid(base, over, {}) + Fresh(base, over[..t]);
    FreshStep(base, over, t);
    assert over == over[..t + 1] + over[t + 1..];
    FreshConcat(base, over[..t + 1], over[t + 1..]);
    assert r == front + [over[t]] + Fresh(base, over[t + 1..]);
    assert r[..|front|] == front;
  }

  lemma {:induction false} NewOrder(base: seq<Line>, over: seq<Line>, s: nat, t: nat)
    requires s < t <= |over| && IsNew(base, over, s)
    ensures Place(base, over, s) < Place(base, over, t)
    decreases t
  {
    FreshStep(base, over, t - 1);
    if s < t - 1 {
      NewOrder(base, over, s, t - 1);
    }
  }

  lemma {:induction false} NewFrom(base: seq<Line>, over: seq<Line>, i: nat, n: nat) returns (t: nat)
    requires n <= |over| && i < |Fresh(base, over[..n])| && IsKeyed(Fresh(base, over[..n])[i])
    ensures t < n && IsNew(base, over, t) && Place(base, over, t) == |base| + i
    decreases n
  {
    assert n > 0;
    FreshStep(base, over, n - 1);
    if i < |Fresh(base, over[..n - 1])| {
      t := NewFrom(base, over, i, n - 1);
    } else {
      t := n - 1;
    }
  }

  /** Every keyed line of the result stands where an earlier line stood or is a new one. */
  lemma LineIsFrom(base: seq<Line>, over: seq<Line>, m: nat) returns (t: nat)
    requires m < |Over(base, over)| && IsKeyed(Over(base, over)[m])
    ensures m < |base| ==> InnerKey(Over(base, over)[m]) == InnerKey(base[m])
    ensures m >= |base| ==> IsNew(base, over, t) && Place(base, over, t) == m && Over(base, over)[m] == over[t]
    ensures m >= |base| ==> PathAt(Over(base, over), m) == Landing(base, over, t)
  {
    t := 0;
    OverlaidKeepsKeys(base, over, {});
    if m >= |base| {
      TakeAll(over);
      t := NewFrom(base, over, m - |base|, |over|);
      NewIsAt(base, over, t);
    }
  }

  /** The last new line before `t` that is indented less than `indent`. */
  function LastNewBelow(base: seq<Line>, over: seq<Line>, t: nat, indent: nat): (at: Option<nat>)
    requires t <= |over|
    ensures at.Some? ==> at.value < t && IsNew(base, over, at.value) && over[at.value].indent < indent
    ensures forall j :: 0 <= j < t && IsNew(base, over, j) && over[j].indent < indent ==> at.Some? && j <= at.value
    decreases t
  {
    if t == 0 then None
    else if IsNew(base, over, t - 1) && over[t - 1].indent < indent then Some(t - 1)
    else LastNewBelow(base, over, t - 1, indent)
  }

  lemma {:induction false} NewOpen(base: seq<Line>, over: seq<Line>, t: nat, indent: nat)
    requires t <= |over|
    ensures var at := LastNewBelow(base, over, t, indent);
            OpenPath(LaidUpTo(base, over, t), indent) ==
              if at == None then OpenPath(Overlaid(base, over, {}), indent) else Landing(base, over, at.value)
    decreases t
  {
    if t == 0 {
      assert over[..0] == [] && Overlaid(base, over, {}) + [] == Overlaid(base, over, {});
    } else {
      hide Overlaid, LaidUpTo, OpenPath, HasKey;
      NewOpen(base, over, t - 1, indent);
      LaidStep(base, over, t - 1);
      OpenSnoc(LaidUpTo(base, over, t - 1), over[t - 1], indent);
    }
  }

  lemma UnderNew(base: seq<Line>, over: seq<Line>, t: nat, v: nat)
    requires IsNew(base, over, t) && LastNewBelow(base, over, t, over[t].indent) == Some(v)
    ensures Landing(base, over, t) == Landing(base, over, v) + [over[t].key]
  {
    NewOpen(base, over, t, over[t].indent);
  }

  lemma UnderOld(base: seq<Line>, over: seq<Line>, t: nat)
    requires IsNew(base, over, t) && LastNewBelow(base, over, t, over[t].indent) == None
    ensures Landing(base, over, t) == OpenPath(Overlaid(base, over, {}), over[t].indent) + [over[t].key]
  {
    NewOpen(base, over, t, over[t].indent);
  }

  // ── the earlier part of the result ──

  /** The shared lines keep the earlier layout, so earlier lines keep their paths. */
  lemma FrontPaths(base: seq<Line>, over: seq<Line>, i: nat)
    requires SameLayout(Overlaid(base, over, {}), base, |base|)
    requires i < |base|
    ensures IsKeyed(Over(base, over)[i]) <==> IsKeyed(base[i])
    ensures IsKeyed(base[i]) ==> PathAt(Over(base, over), i) == PathAt(base, i)
  {
    var r, front := Over(base, over), Overlaid(base, over, {});
    assert r[..i] == front[..i];
    assert InnerKey(front[i]) == InnerKey(base[i]);
    if IsKeyed(base[i]) {
      SameOpen(front, base, i, base[i].indent);
    }
  }

  lemma TreeIndent(lines: seq<Line>, path: seq<string>, line: Line)
    requires IsTree(lines) && Declares(lines, path, line)
    ensures IsKeyed(line) && line.indent == 4 + 2 * |path| && path != [] && path[|path| - 1] == line.key
  {
    var i: nat :| IsAt(lines, path, i) && lines[i] == line;
  }

  lemma MeantKeyed(base: seq<Line>, over: seq<Line>, i: nat, line: Line)
    requires IsTree(base) && IsTree(over) && i < |base| && IsKeyed(base[i]) && IsMeantAt(base, over, i, line)
    ensures InnerKey(line) == InnerKey(base[i]) && IsKeyed(line) && line.indent == base[i].indent
  {
    var path := PathAt(base, i);
    assert path[|path| - 1] == base[i].key;
    if HasPath(over, path) {
      TreeIndent(over, path, line);
    }
  }

  /** Given the condition on shared keys, the earlier lines stay where they were. */
  lemma SharedKeepsLayout(base: seq<Line>, over: seq<Line>)
    requires IsTree(base) && IsTree(over) && SharedInPlace(base, over)
    ensures SameLayout(Overlaid(base, over, {}), base, |base|)
  {
    var front := Overlaid(base, over, {});
    OverlaidKeepsKeys(base, over, {});
    forall i | 0 <= i < |base| && IsKeyed(front[i]) ensures front[i].indent == base[i].indent {
      OverlaidAt(base, over, {}, i);
      assert IsKeyed(base[i]);
      if front[i] != base[i] {
        MeantKeyed(base, over, i, LastLine(over, base[i].key));
      }
    }
  }

  lemma FrontIsMeant(base: seq<Line>, over: seq<Line>, i: nat)
    requires SharedInPlace(base, over) && i < |base| && IsKeyed(base[i])
    ensures IsMeantAt(base, over, i, Overlaid(base, over, {})[i])
  {
    OverlaidAt(base, over, {}, i);
    var path := PathAt(base, i);
    if !HasKey(over, base[i].key) && HasPath(over, path) {
      PathHasKey(over, path);
    }
  }

  lemma PathHasKey(lines: seq<Line>, path: seq<string>)
    requires HasPath(lines, path)
    ensures path != [] && HasKey(lines, path[|path| - 1])
  {
    var i: nat :| IsAt(lines, path, i);
    assert Carries(lines[i], path[|path| - 1]);
  }

  // ── the condition suffices ──

  lemma NewParent(base: seq<Line>, over: seq<Line>, t: nat, indent: nat, v: nat)
    requires t <= |over| && LastBelow(over, t, indent) == Some(v) && IsNew(base, over, v)
    ensures LastNewBelow(base, over, t, indent) == Some(v)
  {
    hide LastBelow, LastNewBelow, HasKey, InnerKey;
  }

  lemma NothingNew(base: seq<Line>, over: seq<Line>, t: nat, indent: nat)
    requires t <= |over| && forall s :: 0 <= s < t && IsNew(base, over, s) ==> over[s].indent >= indent
    ensures LastNewBelow(base, over, t, indent) == None
  {
    hide LastNewBelow, HasKey, InnerKey;
  }

  lemma RightIsEither(base: seq<Line>, over: seq<Line>, t: nat)
    requires NewInPlace(base, over) && IsNew(base, over, t)
    ensures var indent := over[t].indent;
            var above := LastNewBelow(base, over, t, indent);
            || (above.Some? && LastBelow(over, t, indent) == above)
            || (above == None && OpenPath(base, indent) == OpenPath(over[..t], indent))
  {
    assert LandsRight(base, over, t);
    hide OpenPath, LastBelow, LastNewBelow, HasKey, InnerKey, NewInPlace;
    var parent := LastBelow(over, t, over[t].indent);
    if parent.Some? && IsNew(base, over, parent.value) {
      NewParent(base, over, t, over[t].indent, parent.value);
    } else {
      NothingNew(base, over, t, over[t].indent);
    }
  }

  lemma {:induction false} NewLandsRight(base: seq<Line>, over: seq<Line>, t: nat)
    requires SameLayout(Overlaid(base, over, {}), base, |base|)
    requires NewInPlace(base, over) && IsNew(base, over, t)
    ensures Landing(base, over, t) == PathAt(over, t)
    decreases t
  {
    hide Landing, Overlaid, SameLayout, OpenPath, LandsRight, LastBelow, LastNewBelow;
    var indent := over[t].indent;
    RightIsEither(base, over, t);
    var above := LastNewBelow(base, over, t, indent);
    if above.Some? {
      OpenFrom(over, t, indent);
      NewLandsRight(base, over, above.value);
      UnderNew(base, over, t, above.value);
    } else {
      UnderOld(base, over, t);
      FrontOpen(base, over, indent);
    }
  }

  lemma FrontOpen(base: seq<Line>, over: seq<Line>, indent: nat)
    requires SameLayout(Overlaid(base, over, {}), base, |base|)
    ensures OpenPath(Overlaid(base, over, {}), indent) == OpenPath(base, indent)
  {
    SameOpen(Overlaid(base, over, {}), base, |base|, indent);
    TakeAll(base);
    TakeAll(Overlaid(base, over, {}));
  }

  lemma ResultOnce(base: seq<Line>, over: seq<Line>, path: seq<string>, i: nat, j: nat)
    requires IsTree(base) && IsTree(over) && SharedInPlace(base, over) && NewInPlace(base, over)
    requires IsAt(Over(base, over), path, i) && IsAt(Over(base, over), path, j) && i <= j
    ensures i == j
  {
    var r := Over(base, over);
    SharedKeepsLayout(base, over);
    var s := LineIsFrom(base, over, i);
    var t := LineIsFrom(base, over, j);
    assert path[|path| - 1] == r[i].key == r[j].key;
    if i < |base| {
      FrontPaths(base, over, i);
      assert Carries(base[i], r[i].key);
    }
    if j < |base| {
      FrontPaths(base, over, j);
      assert IsAt(base, path, i) && IsAt(base, path, j);
    } else if i < |base| {
      assert false;
    } else {
      NewLandsRight(base, over, s);
      NewLandsRight(base, over, t);
      assert IsAt(over, path, s) && IsAt(over, path, t);
    }
  }

  lemma ResultIsMeant(base: seq<Line>, over: seq<Line>, path: seq<string>, line: Line)
    requires IsTree(base) && IsTree(over) && SharedInPlace(base, over) && NewInPlace(base, over)
    requires Declares(Over(base, over), path, line)
    ensures Declares(over, path, line) || (Declares(base, path, line) && !HasPath(over, path))
  {
    var r := Over(base, over);
    var m: nat :| IsAt(r, path, m) && r[m] == line;
    SharedKeepsLayout(base, over);
    var t := LineIsFrom(base, over, m);
    if m < |base| {
      FrontPaths(base, over, m);
      FrontIsMeant(base, over, m);
      assert IsAt(base, path, m);
    } else {
      NewLandsRight(base, over, t);
      assert IsAt(over, path, t);
    }
  }

  lemma LaterIsThere(base: seq<Line>, over: seq<Line>, path: seq<string>, t: nat)
    requires IsTree(base) && IsTree(over) && SharedInPlace(base, over) && NewInPlace(base, over)
    requires IsAt(over, path, t)
    ensures Declares(Over(base, over), path, over[t])
  {
    SharedKeepsLayout(base, over);
    if IsNew(base, over, t) {
      NewIsAt(base, over, t);
      NewLandsRight(base, over, t);
    } else {
      assert HasPath(base, PathAt(over, t));
      var i: nat :| IsAt(base, path, i);
      SharedIsThere(base, over, path, t, i);
    }
  }

  lemma SharedIsThere(base: seq<Line>, over: seq<Line>, path: seq<string>, t: nat, i: nat)
    requires IsTree(over) && SharedInPlace(base, over) && SameLayout(Overlaid(base, over, {}), base, |base|)
    requires IsAt(over, path, t) && IsAt(base, path, i)
    ensures Declares(Over(base, over), path, over[t])
  {
    FrontPaths(base, over, i);
    FrontIsMeant(base, over, i);
    hide SharedInPlace, SameLayout, PathAt;
    assert HasPath(over, path);
    OnlyThere(over, path, t, Overlaid(base, over, {})[i]);
    assert IsAt(Over(base, over), path, i) && Over(base, over)[i] == over[t];
  }

  lemma OnlyThere(lines: seq<Line>, path: seq<string>, t: nat, line: Line)
    requires EachPathOnce(lines) && IsAt(lines, path, t) && Declares(lines, path, line)
    ensures line == lines[t]
  {
    var i: nat :| IsAt(lines, path, i) && lines[i] == line;
    assert i == t;
  }

  lemma EarlierStays(base: seq<Line>, over: seq<Line>, path: seq<string>, i: nat)
    requires IsTree(base) && IsTree(over) && SharedInPlace(base, over)
    requires IsAt(base, path, i) && !HasPath(over, path)
    ensures Declares(Over(base, over), path, base[i])
  {
    SharedKeepsLayout(base, over);
    FrontPaths(base, over, i);
    FrontIsMeant(base, over, i);
    assert IsAt(Over(base, over), path, i) && Over(base, over)[i] == base[i];
  }

  lemma ConditionSuffices(base: seq<Line>, over: seq<Line>)
    requires IsTree(base) && IsTree(over) && SharedInPlace(base, over) && NewInPlace(base, over)
    ensures IsMeant(Over(base, over), base, over)
  {
    var r := Over(base, over);
    hide Over, SharedInPlace, NewInPlace, IsTree;
    forall path, i, j | IsAt(r, path, i) && IsAt(r, path, j) ensures i == j {
      if i <= j {
        ResultOnce(base, over, path, i, j);
      } else {
        ResultOnce(base, over, path, j, i);
      }
    }
    forall path, line
      ensures Declares(r, path, line) <==>
                Declares(over, path, line) || (Declares(base, path, line) && !HasPath(over, path))
    {
      if Declares(r, path, line) {
        ResultIsMeant(base, over, path, line);
      }
      if Declares(over, path, line) {
        var t: nat :| IsAt(over, path, t) && over[t] == line;
        LaterIsThere(base, over, path, t);
      }
      if Declares(base, path, line) && !HasPath(over, path) {
        var i: nat :| IsAt(base, path, i) && base[i] == line;
        EarlierStays(base, over, path, i);
      }
    }
  }

  // ── the condition is needed ──

  lemma MeantIsDeclared(base: seq<Line>, over: seq<Line>, path: seq<string>, line: Line) returns (m: nat)
    requires IsMeant(Over(base, over), base, over)
    requires Declares(over, path, line) || (Declares(base, path, line) && !HasPath(over, path))
    ensures IsAt(Over(base, over), path, m) && Over(base, over)[m] == line
  {
    assert Declares(Over(base, over), path, line);
    m :| IsAt(Over(base, over), path, m) && Over(base, over)[m] == line;
  }

  /** Where the line meant for an earlier line's path is: among the earlier ones. */
  lemma MeantForEarlier(base: seq<Line>, over: seq<Line>, i: nat, line: Line) returns (m: nat)
    requires IsTree(base) && IsTree(over) && IsMeant(Over(base, over), base, over)
    requires i < |base| && IsKeyed(base[i]) && IsMeantAt(base, over, i, line)
    ensures m < |base| && IsAt(Over(base, over), PathAt(base, i), m) && Over(base, over)[m] == line
    ensures InnerKey(base[m]) == InnerKey(base[i])
  {
    var path := PathAt(base, i);
    assert IsAt(base, path, i) && Declares(base, path, base[i]);
    m := MeantIsDeclared(base, over, path, line);
    MeantKeyed(base, over, i, line);
    var t := LineIsFrom(base, over, m);
    assert Carries(base[i], base[i].key);
  }

  /** In a right result no earlier line changes its depth. */
  lemma {:induction false} RightKeepsLayout(base: seq<Line>, over: seq<Line>, n: nat)
    requires IsTree(base) && IsTree(over) && IsMeant(Over(base, over), base, over) && n <= |base|
    ensures SameLayout(Overlaid(base, over, {}), base, n)
    decreases n
  {
    var front := Overlaid(base, over, {});
    OverlaidKeepsKeys(base, over, {});
    if n > 0 {
      hide IsMeant, IsTree, PathAt;
      RightKeepsLayout(base, over, n - 1);
      OverlaidAt(base, over, {}, n - 1);
      if front[n - 1] != base[n - 1] {
        LastKeepsDepth(base, over, n - 1);
      }
    }
  }

  lemma LastKeepsDepth(base: seq<Line>, over: seq<Line>, i: nat)
    requires IsTree(base) && IsTree(over) && IsMeant(Over(base, over), base, over)
    requires i < |base| && IsKeyed(base[i]) && IsLastAt(base, base[i].key, i)
    requires SameLayout(Overlaid(base, over, {}), base, i) && IsKeyed(Over(base, over)[i])
    ensures Over(base, over)[i].indent == base[i].indent
  {
    var line := SomeMeant(base, over, i);
    var m := MeantForEarlier(base, over, i, line);
    assert Carries(base[m], base[i].key);
    if m < i {
      var front := Overlaid(base, over, {});
      assert Over(base, over)[..m] == front[..m] && Over(base, over)[m] == front[m];
      SameOpen(front, base, m, base[m].indent);
      assert IsAt(base, PathAt(base, i), m) && IsAt(base, PathAt(base, i), i);
    } else {
      MeantKeyed(base, over, i, line);
    }
  }

  lemma SomeMeant(base: seq<Line>, over: seq<Line>, i: nat) returns (line: Line)
    requires i < |base| && IsKeyed(base[i])
    ensures IsMeantAt(base, over, i, line)
  {
    if HasPath(over, PathAt(base, i)) {
      var t: nat :| IsAt(over, PathAt(base, i), t);
      line := over[t];
    } else {
      line := base[i];
    }
  }

  lemma SharedIsNeeded(base: seq<Line>, over: seq<Line>)
    requires IsTree(base) && IsTree(over) && IsMeant(Over(base, over), base, over)
    ensures SharedInPlace(base, over)
  {
    var r := Over(base, over);
    RightKeepsLayout(base, over, |base|);
    forall t | 0 <= t < |over| && IsKeyed(over[t]) && HasKey(base, over[t].key)
      ensures HasPath(base, PathAt(over, t))
    {
      LaterPathIsShared(base, over, t);
    }
    forall i | 0 <= i < |base| && IsKeyed(base[i]) && HasKey(over, base[i].key)
      ensures IsMeantAt(base, over, i, if IsLastAt(base, base[i].key, i) then LastLine(over, base[i].key) else base[i])
    {
      OverlaidAt(base, over, {}, i);
      EarlierIsMeant(base, over, i);
    }
  }

  lemma LaterPathIsShared(base: seq<Line>, over: seq<Line>, t: nat)
    requires IsTree(base) && IsTree(over) && IsMeant(Over(base, over), base, over)
    requires SameLayout(Overlaid(base, over, {}), base, |base|)
    requires t < |over| && IsKeyed(over[t]) && HasKey(base, over[t].key)
    ensures HasPath(base, PathAt(over, t))
  {
    var path := PathAt(over, t);
    assert IsAt(over, path, t);
    var m := MeantIsDeclared(base, over, path, over[t]);
    var s := LineIsFrom(base, over, m);
    FrontPaths(base, over, m);
    assert IsAt(base, path, m);
  }

  lemma EarlierIsMeant(base: seq<Line>, over: seq<Line>, i: nat)
    requires IsTree(base) && IsTree(over) && IsMeant(Over(base, over), base, over)
    requires SameLayout(Overlaid(base, over, {}), base, |base|)
    requires i < |base| && IsKeyed(base[i])
    ensures IsMeantAt(base, over, i, Overlaid(base, over, {})[i])
  {
    var line := SomeMeant(base, over, i);
    var m := MeantForEarlier(base, over, i, line);
    FrontPaths(base, over, m);
    assert IsAt(base, PathAt(base, i), m) && IsAt(base, PathAt(base, i), i);
  }

  /** A new line of the later mapping, found in the result at its own path: it is a new line too. */
  lemma MeantForNew(base: seq<Line>, over: seq<Line>, t: nat) returns (s: nat)
    requires IsMeant(Over(base, over), base, over) && IsNew(base, over, t)
    ensures IsNew(base, over, s) && over[s] == over[t] && Landing(base, over, s) == PathAt(over, t)
  {
    var path := PathAt(over, t);
    assert IsAt(over, path, t);
    var m := MeantIsDeclared(base, over, path, over[t]);
    s := LineIsFrom(base, over, m);
    if m < |base| {
      assert Carries(base[m], over[t].key);
    }
  }

  lemma DeclaredHasKey(lines: seq<Line>, path: seq<string>, line: Line)
    requires IsKeyed(line)
    ensures Declares(lines, path, line) ==> HasKey(lines, line.key)
  {
    if Declares(lines, path, line) {
      var i: nat :| IsAt(lines, path, i) && lines[i] == line;
      assert Carries(lines[i], line.key);
    }
  }

  /** What is at the path a new line lands on is a later line of the same text. */
  lemma LandsOnLater(base: seq<Line>, over: seq<Line>, t: nat) returns (s: nat)
    requires IsMeant(Over(base, over), base, over) && IsNew(base, over, t)
    ensures IsNew(base, over, s) && over[s] == over[t] && PathAt(over, s) == Landing(base, over, t)
  {
    var path := Landing(base, over, t);
    NewIsAt(base, over, t);
    assert Declares(Over(base, over), path, over[t]);
    DeclaredHasKey(base, path, over[t]);
    s :| IsAt(over, path, s) && over[s] == over[t];
  }

  lemma LandedApart(base: seq<Line>, over: seq<Line>, s: nat, t: nat)
    requires IsMeant(Over(base, over), base, over) && IsNew(base, over, s) && IsNew(base, over, t)
    requires Landing(base, over, s) == Landing(base, over, t)
    ensures s == t
  {
    NewIsAt(base, over, s);
    NewIsAt(base, over, t);
    if s < t {
      NewOrder(base, over, s, t);
    }
    if t < s {
      NewOrder(base, over, t, s);
    }
  }

  lemma OnePlace(lines: seq<Line>, s: nat, t: nat)
    requires EachPathOnce(lines) && s < |lines| && t < |lines| && IsKeyed(lines[s]) && IsKeyed(lines[t])
    ensures PathAt(lines, s) == PathAt(lines, t) ==> s == t
  {
    assert IsAt(lines, PathAt(lines, s), s) && IsAt(lines, PathAt(lines, t), t);
  }

  lemma ParentIs(lines: seq<Line>, t: nat, indent: nat, v: nat)
    requires EachPathOnce(lines) && t <= |lines| && v < |lines| && IsKeyed(lines[v])
    requires OpenPath(lines[..t], indent) == PathAt(lines, v)
    ensures LastBelow(lines, t, indent) == Some(v)
  {
    OpenFrom(lines, t, indent);
    var at := LastBelow(lines, t, indent);
    assert PathAt(lines, v) != [];
    assert IsAt(lines, PathAt(lines, v), v);
    assert at.Some? ==> IsAt(lines, PathAt(lines, at.value), at.value);
  }

  lemma BelowBefore(lines: seq<Line>, t: nat, s: nat, indent: nat, v: nat)
    requires t <= s <= |lines| && v < t && LastBelow(lines, s, indent) == Some(v)
    ensures LastBelow(lines, t, indent) == Some(v)
  {
  }

  ghost predicate LandedBefore(base: seq<Line>, over: seq<Line>, t: nat) {
    forall s :: 0 <= s < t && IsNew(base, over, s) ==> Landing(base, over, s) == PathAt(over, s)
  }

  ghost predicate HasOldParent(base: seq<Line>, over: seq<Line>, t: nat)
    requires t < |over| && IsKeyed(over[t])
  {
    var parent := LastBelow(over, t, over[t].indent);
    parent.Some? ==> !IsNew(base, over, parent.value)
  }

  /** A line that lands under an earlier new line, though its parent is not new: its path is taken. */
  lemma UnderNewLine(base: seq<Line>, over: seq<Line>, t: nat, v: nat)
    requires EachPathOnce(over) && IsMeant(Over(base, over), base, over) && IsNew(base, over, t)
    requires LandedBefore(base, over, t) && HasOldParent(base, over, t)
    requires LastNewBelow(base, over, t, over[t].indent) == Some(v)
    ensures Landing(base, over, t) == PathAt(over, t)
  {
    hide IsMeant, Over, Landing, OpenPath, EachPathOnce, LastBelow, LastNewBelow;
    var indent := over[t].indent;
    UnderNew(base, over, t, v);
    var s := LandsOnLater(base, over, t);
    if s < t {
      LandedApart(base, over, s, t);
    } else if t < s {
      SameParent(OpenPath(over[..s], indent), PathAt(over, v), over[t].key);
      ParentIs(over, s, indent, v);
      BelowBefore(over, t, s, indent, v);
    }
  }

  /** A new line's path never goes through an earlier key: no line under a new one is at it. */
  lemma NotUnderNew(base: seq<Line>, over: seq<Line>, t: nat, v: nat)
    requires IsNew(base, over, t) && IsNew(base, over, v) && HasOldParent(base, over, t)
    ensures Landing(base, over, v) != OpenPath(over[..t], over[t].indent)
  {
    var indent := over[t].indent;
    OpenFrom(over, t, indent);
    var path := Landing(base, over, v);
    assert path[|path| - 1] == over[v].key;
    var parent := LastBelow(over, t, indent);
    if parent.Some? {
      var other := PathAt(over, parent.value);
      assert other[|other| - 1] == over[parent.value].key;
    }
  }

  /** A line that lands under an earlier line not its parent: nothing is left to land on its path. */
  lemma UnderOldLine(base: seq<Line>, over: seq<Line>, t: nat)
    requires EachPathOnce(over) && IsMeant(Over(base, over), base, over) && IsNew(base, over, t)
    requires LandedBefore(base, over, t) && HasOldParent(base, over, t)
    requires LastNewBelow(base, over, t, over[t].indent) == None
    ensures Landing(base, over, t) == PathAt(over, t)
  {
    hide IsMeant, Over, Landing, OpenPath, Overlaid;
    var indent := over[t].indent;
    UnderOld(base, over, t);
    var s := MeantForNew(base, over, t);
    if s < t {
      OnePlace(over, s, t);
    } else {
      var above := LastNewBelow(base, over, s, indent);
      if above.Some? {
        UnderNew(base, over, s, above.value);
        SameParent(Landing(base, over, above.value), OpenPath(over[..t], indent), over[t].key);
        NotUnderNew(base, over, t, above.value);
      } else {
        UnderOld(base, over, s);
      }
    }
  }

  /** In a right result every new line lands on its own path. */
  lemma {:induction false} RightLands(base: seq<Line>, over: seq<Line>, t: nat)
    requires EachPathOnce(over) && IsMeant(Over(base, over), base, over)
    requires IsNew(base, over, t)
    ensures Landing(base, over, t) == PathAt(over, t)
    decreases t
  {
    hide IsMeant, Over, Landing, OpenPath, EachPathOnce;
    assert LandedBefore(base, over, t) by {
      forall s | 0 <= s < t && IsNew(base, over, s) ensures Landing(base, over, s) == PathAt(over, s) {
        RightLands(base, over, s);
      }
    }
    var parent, above := LastBelow(over, t, over[t].indent), LastNewBelow(base, over, t, over[t].indent);
    if parent.Some? && IsNew(base, over, parent.value) {
      assert above == parent;
      OpenFrom(over, t, over[t].indent);
      UnderNew(base, over, t, parent.value);
    } else if above.Some? {
      UnderNewLine(base, over, t, above.value);
    } else {
      UnderOldLine(base, over, t);
    }
  }

  lemma NewIsNeeded(base: seq<Line>, over: seq<Line>)
    requires IsTree(base) && IsTree(over) && IsMeant(Over(base, over), base, over)
    ensures NewInPlace(base, over)
  {
    RightKeepsLayout(base, over, |base|);
    forall t | 0 <= t < |over| && IsNew(base, over, t) ensures LandsRight(base, over, t) {
      RightLands(base, over, t);
      var above := LastNewBelow(base, over, t, over[t].indent);
      if above.Some? {
        RightLands(base, over, above.value);
      }
      LandedIsRight(base, over, t);
    }
  }

  lemma LandedIsRight(base: seq<Line>, over: seq<Line>, t: nat)
    requires EachPathOnce(over) && SameLayout(Overlaid(base, over, {}), base, |base|) && IsNew(base, over, t)
    requires Landing(base, over, t) == PathAt(over, t)
    requires var above := LastNewBelow(base, over, t, over[t].indent);
             above.Some? ==> Landing(base, over, above.value) == PathAt(over, above.value)
    ensures LandsRight(base, over, t)
  {
    hide Landing, Overlaid, SameLayout, EachPathOnce;
    var indent := over[t].indent;
    var above := LastNewBelow(base, over, t, indent);
    if above.Some? {
      UnderNew(base, over, t, above.value);
      SameParent(PathAt(over, above.value), OpenPath(over[..t], indent), over[t].key);
      ParentIs(over, t, indent, above.value);
    } else {
      UnderOld(base, over, t);
      FrontOpen(base, over, indent);
      SameParent(OpenPath(base, indent), OpenPath(over[..t], indent), over[t].key);
    }
  }

  /** Laying a nested mapping over another does what is meant exactly when the shared keys are in
      place and the new ones land where they belong. */
  lemma OverIsMeantIff(base: seq<Line>, over: seq<Line>)
    requires IsTree(base) && IsTree(over)
    ensures IsMeant(Over(base, over), base, over) <==> SharedInPlace(base, over) && NewInPlace(base, over)
  {
    hide IsTree, Over, SharedInPlace, NewInPlace, IsMeant;
    if SharedInPlace(base, over) && NewInPlace(base, over) {
      ConditionSuffices(base, over);
    }
    if IsMeant(Over(base, over), base, over) {
      SharedIsNeeded(base, over);
      NewIsNeeded(base, over);
    }
  }

  /** A mapping under a key, extended by a later one of any depth, reads as meant exactly when the
      shared keys are in place and the new ones land where they belong. */
  lemma ExtendIsMeantIff(key: string, earlier: Body, later: Body)
    requires IsBlock(key, earlier) && IsBlock(key, later) && IsMapping(later) && !HasKey(Tail(later), key)
    requires IsTree(Tail(earlier)) && IsTree(Tail(later))
    ensures IsMeant(Tail(Extend(earlier, later)), Tail(earlier), Tail(later)) <==>
              SharedInPlace(Tail(earlier), Tail(later)) && NewInPlace(Tail(earlier), Tail(later))
  {
    var base, over := Tail(earlier), Tail(later);
    assert earlier == [earlier[0]] + base;
    OverBlock(earlier[0], base, over, key);
    assert Tail([earlier[0]] + Over(base, over)) == Over(base, over);
    OverIsMeantIff(base, over);
  }

  /** No key on two lines, at whatever depth. */
  ghost predicate EachKeyOnce(lines: seq<Line>) {
    forall i, j :: 0 <= i < j < |lines| && IsKeyed(lines[i]) ==> InnerKey(lines[i]) != InnerKey(lines[j])
  }

  ghost predicate SamePaths(base: seq<Line>, over: seq<Line>) {
    forall i, t :: 0 <= i < |base| && 0 <= t < |over| && IsKeyed(base[i]) && InnerKey(base[i]) == InnerKey(over[t]) ==>
      PathAt(base, i) == PathAt(over, t)
  }

  lemma OneLine(lines: seq<Line>, key: string, i: nat)
    requires EachKeyOnce(lines) && i < |lines| && Carries(lines[i], key)
    ensures forall j :: 0 <= j < |lines| && Carries(lines[j], key) ==> j == i
    ensures IsLastAt(lines, key, i) && HasKey(lines, key) && LastLine(lines, key) == lines[i]
  {
    forall j | 0 <= j < |lines| && j != i ensures !Carries(lines[j], key) {
      assert j < i && IsKeyed(lines[j]) ==> InnerKey(lines[j]) != InnerKey(lines[i]);
    }
    LastLineIn(lines, key);
  }

  /** Where no key is on two lines, shared keys are in place exactly when they are at the same paths. */
  lemma SharedOnceIff(base: seq<Line>, over: seq<Line>)
    requires EachKeyOnce(base) && EachKeyOnce(over)
    ensures SharedInPlace(base, over) <==> SamePaths(base, over)
  {
    if SharedInPlace(base, over) {
      forall i, t | 0 <= i < |base| && 0 <= t < |over| && IsKeyed(base[i]) && InnerKey(base[i]) == InnerKey(over[t])
        ensures PathAt(base, i) == PathAt(over, t)
      {
        OneLine(base, base[i].key, i);
        var path := PathAt(over, t);
        assert HasPath(base, path);
        var j: nat :| IsAt(base, path, j);
        assert path[|path| - 1] == base[j].key == over[t].key;
      }
    }
    if SamePaths(base, over) {
      forall t | 0 <= t < |over| && IsKeyed(over[t]) && HasKey(base, over[t].key)
        ensures HasPath(base, PathAt(over, t))
      {
        var i :| 0 <= i < |base| && Carries(base[i], over[t].key);
        assert IsAt(base, PathAt(over, t), i);
      }
      forall i | 0 <= i < |base| && IsKeyed(base[i]) && HasKey(over, base[i].key)
        ensures IsLastAt(base, base[i].key, i) && IsMeantAt(base, over, i, LastLine(over, base[i].key))
      {
        OneLine(base, base[i].key, i);
        var t :| 0 <= t < |over| && Carries(over[t], base[i].key);
        OneLine(over, base[i].key, t);
        assert IsAt(over, PathAt(base, i), t);
      }
    }
  }

  /** So between mappings of any depth without a repeated key, extending reads as meant exactly when the
      keys both have are at the same paths and the new ones land under their parents. */
  lemma ExtendOnceIff(key: string, earlier: Body, later: Body)
    requires IsBlock(key, earlier) && IsBlock(key, later) && IsMapping(later) && !HasKey(Tail(later), key)
    requires IsTree(Tail(earlier)) && IsTree(Tail(later))
    requires EachKeyOnce(Tail(earlier)) && EachKeyOnce(Tail(later))
    ensures IsMeant(Tail(Extend(earlier, later)), Tail(earlier), Tail(later)) <==>
              SamePaths(Tail(earlier), Tail(later)) && NewInPlace(Tail(earlier), Tail(later))
  {
    ExtendIsMeantIff(key, earlier, later);
    SharedOnceIff(Tail(earlier), Tail(later));
  }

  // ── one level ──

  /** One level of keys, each on one line. */
  ghost predicate IsFlat(lines: seq<Line>) {
    && (forall i :: 0 <= i < |lines| && IsKeyed(lines[i]) ==> lines[i].indent == 6)
    && EachKeyOnce(lines)
  }

  lemma {:induction false} FlatOpen(lines: seq<Line>, n: nat)
    requires n <= |lines| && forall i :: 0 <= i < |lines| && IsKeyed(lines[i]) ==> lines[i].indent == 6
    ensures OpenPath(lines[..n], 6) == []
    decreases n
  {
    if n > 0 {
      TakeSnoc(lines, n - 1);
      FlatOpen(lines, n - 1);
    }
  }

  lemma FlatIsTree(lines: seq<Line>)
    requires IsFlat(lines)
    ensures IsTree(lines)
    ensures forall i :: 0 <= i < |lines| && IsKeyed(lines[i]) ==> PathAt(lines, i) == [lines[i].key]
  {
    forall i | 0 <= i < |lines| && IsKeyed(lines[i]) ensures PathAt(lines, i) == [lines[i].key] {
      FlatOpen(lines, i);
    }
  }

  lemma FlatShares(base: seq<Line>, over: seq<Line>)
    requires IsFlat(base) && IsFlat(over)
    ensures SharedInPlace(base, over)
  {
    FlatIsTree(base);
    FlatIsTree(over);
    forall t | 0 <= t < |over| && IsKeyed(over[t]) && HasKey(base, over[t].key) ensures HasPath(base, PathAt(over, t)) {
      var i :| 0 <= i < |base| && Carries(base[i], over[t].key);
      assert IsAt(base, [over[t].key], i);
    }
    forall i | 0 <= i < |base| && IsKeyed(base[i]) && HasKey(over, base[i].key)
      ensures IsMeantAt(base, over, i, if IsLastAt(base, base[i].key, i) then LastLine(over, base[i].key) else base[i])
    {
      var key := base[i].key;
      forall j | i < j < |base| ensures !Carries(base[j], key) {
        assert InnerKey(base[i]) != InnerKey(base[j]);
      }
      LastLineIn(over, key);
      var t :| 0 <= t < |over| && over[t] == LastLine(over, key);
      assert IsAt(over, [key], t);
    }
  }

  lemma FlatStays(base: seq<Line>, over: seq<Line>)
    requires IsFlat(base) && IsFlat(over) && EachPathOnce(Over(base, over))
    ensures IsFlat(Over(base, over))
  {
    var r := Over(base, over);
    forall m | 0 <= m < |r| && IsKeyed(r[m]) ensures r[m].indent == 6 {
      var t := LineIsFrom(base, over, m);
      if m < |base| {
        OverlaidAt(base, over, {}, m);
        if r[m] != base[m] {
          LastLineIn(over, base[m].key);
        }
      }
    }
    forall i, j | 0 <= i < j < |r| && IsKeyed(r[i]) ensures InnerKey(r[i]) != InnerKey(r[j]) {
      FlatOpen(r, i);
      FlatOpen(r, j);
      if InnerKey(r[i]) == InnerKey(r[j]) {
        assert IsAt(r, [r[i].key], i) && IsAt(r, [r[i].key], j);
      }
    }
  }

  /** Between mappings of one level extending always does what is meant, and leaves one level. */
  lemma FlatIsMeant(base: seq<Line>, over: seq<Line>)
    requires IsFlat(base) && IsFlat(over)
    ensures IsMeant(Over(base, over), base, over)
    ensures IsFlat(Over(base, over))
  {
    FlatIsTree(base);
    FlatIsTree(over);
    assert NewInPlace(base, over) by {
      FlatOpen(base, |base|);
      TakeAll(base);
      forall t | 0 <= t < |over| && IsNew(base, over, t) ensures LandsRight(base, over, t) {
        FlatOpen(over, t);
      }
    }
    FlatShares(base, over);
    OverIsMeantIff(base, over);
    FlatStays(base, over);
  }

  // ── two levels ──

  function Networks(): Line {
    Line.Entry(4, "networks", Nothing)
  }

  function Parent(name: string): Line {
    Line.Entry(6, name, Nothing)
  }

  function Child(name: string, value: Value): Line {
    Line.Entry(8, name, value)
  }

  /** The path of a line two levels down, after its parent and that one's other children. */
  lemma ChildPath(before: seq<Line>, parent: Line, children: seq<Line>, child: Line)
    requires parent.Entry? && parent.indent == 6 && child.Entry? && child.indent == 8
    requires forall l :: l in before && IsKeyed(l) ==> l.indent >= 6
    requires forall l :: l in children ==> IsKeyed(l) && l.indent >= 8
    ensures var lines := before + [parent] + children + [child];
            IsAt(lines, [parent.key, child.key], |lines| - 1)
    decreases |children|
  {
    var lines := before + [parent] + children;
    assert (lines + [child])[..|lines|] == lines;
    UnderParent(before, parent, children);
  }

  lemma {:induction false} TopOpen(lines: seq<Line>)
    requires forall l :: l in lines && IsKeyed(l) ==> l.indent >= 6
    ensures OpenPath(lines, 6) == []
    decreases |lines|
  {
    if lines != [] {
      assert lines[|lines| - 1] in lines;
      TopOpen(lines[..|lines| - 1]);
    }
  }

  lemma {:induction false} UnderParent(before: seq<Line>, parent: Line, children: seq<Line>)
    requires parent.Entry? && parent.indent == 6
    requires forall l :: l in before && IsKeyed(l) ==> l.indent >= 6
    requires forall l :: l in children ==> IsKeyed(l) && l.indent >= 8
    ensures OpenPath(before + [parent] + children, 8) == [parent.key]
    decreases |children|
  {
    if children == [] {
      assert before + [parent] + children == before + [parent];
      OpenSnoc(before, parent, 8);
      TopOpen(before);
    } else {
      var init, last := children[..|children| - 1], children[|children| - 1];
      assert last in children;
      assert before + [parent] + children == before + [parent] + init + [last];
      OpenSnoc(before + [parent] + init, last, 8);
      UnderParent(before, parent, init);
    }
  }

  /** What the result declares of a child is that of the one line it can be. */
  lemma NotMeant(result: seq<Line>, base: seq<Line>, over: seq<Line>, path: seq<string>, line: Line, i: nat)
    requires Declares(over, path, line)
    requires i < |result| && forall j :: 0 <= j < |result| && result[j] == line ==> j == i
    requires !IsAt(result, path, i)
    ensures !IsMeant(result, base, over)
  {
    assert !Declares(result, path, line);
  }

  lemma OneByOne(base: seq<Line>, first: Line, second: Line, i: nat)
    requires IsKeyed(first) && IsKeyed(second) && IsLastAt(base, first.key, i) && base[i] == first
    ensures !HasKey(base, second.key) ==> Over(base, [first, second]) == base + [second]
    ensures forall j: nat :: IsLastAt(base, second.key, j) ==> Over(base, [first, second]) == base[j := second]
  {
    OverlaidNothing(base, {});
    assert Over(base, []) == base;
    LayOverStep(base, [], first, i);
    assert [] + [first] == [first] && base[i := first] == base;
    assert [first] + [second] == [first, second];
    LayOverStep(base, [first], second, 0);
    forall j: nat | IsLastAt(base, second.key, j) ensures Over(base, [first, second]) == base[j := second] {
      LayOverStep(base, [first], second, j);
    }
  }

  lemma UnderNetworks(base: seq<Line>, over: seq<Line>)
    requires FirstIsMapping(over) && !HasKey(over, "networks")
    ensures Extend([Networks()] + base, [Networks()] + over) == [Networks()] + Over(base, over)
  {
    assert Tail([Networks()] + over) == over;
    OverBlock(Networks(), base, over, "networks");
  }

  /** Two children of one name, under `front` and `back`: the later value for the first replaces the
      second one's, and the first keeps the earlier value. */
  lemma ChildrenCross(one: Value, two: Value, three: Value)
    requires one != three
    ensures var base := [Parent("front"), Child("address", one), Parent("back"), Child("address", two)];
            var over := [Parent("front"), Child("address", three)];
            var r := [Parent("front"), Child("address", one), Parent("back"), Child("address", three)];
            Extend([Networks()] + base, [Networks()] + over) == [Networks()] + r && !IsMeant(r, base, over)
  {
    var front, back, child := Parent("front"), Parent("back"), Child("address", three);
    var base := [front, Child("address", one), back, Child("address", two)];
    var r := [front, Child("address", one), back, child];
    hide Over, IsMeant, PathAt, Extend;
    OneByOne(base, front, child, 0);
    assert IsLastAt(base, "address", 3);
    assert base[3 := child] == r;
    UnderNetworks(base, [front, child]);
    ChildPath([], front, [], child);
    assert [] + [front] + [] + [child] == [front, child];
    assert [front, child][1] == child;
    ChildPath([front, Child("address", one)], back, [], child);
    assert [front, Child("address", one)] + [back] + [] + [child] == r;
    assert ["back", "address"][0] != ["front", "address"][0];
    NotMeant(r, base, [front, child], ["front", "address"], child, 3);
  }

  /** A new child of the first of two mappings goes to the end: it lands in the second one. */
  lemma NewChildMoves(address: Value, timeout: Value, port: Value)
    ensures var base := [Parent("front"), Child("address", address), Parent("back"), Child("timeout", timeout)];
            var over := [Parent("front"), Child("port", port)];
            && Extend([Networks()] + base, [Networks()] + over) == [Networks()] + (base + [Child("port", port)])
            && IsAt(base + [Child("port", port)], ["back", "port"], 4)
            && !IsMeant(base + [Child("port", port)], base, over)
  {
    var front, back, child := Parent("front"), Parent("back"), Child("port", port);
    var base := [front, Child("address", address), back, Child("timeout", timeout)];
    hide Over, IsMeant, PathAt, Extend;
    assert IsLastAt(base, "front", 0);
    assert !HasKey(base, "port");
    OneByOne(base, front, child, 0);
    UnderNetworks(base, [front, child]);
    ChildPath([], front, [], child);
    assert [] + [front] + [] + [child] == [front, child];
    assert [front, child][1] == child;
    ChildPath([front, Child("address", address)], back, [Child("timeout", timeout)], child);
    assert [front, Child("address", address)] + [back] + [Child("timeout", timeout)] + [child] == base + [child];
    assert ["back", "port"][0] != ["front", "port"][0];
    NotMeant(base + [child], base, [front, child], ["front", "port"], child, 4);
  }
}
