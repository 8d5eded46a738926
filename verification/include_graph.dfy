/** Following `include:` from a group file, and the services the whole of it declares. */
module IncludeGraph {
  import opened Basics
  import opened ComposeText
  import opened Paths

  /** What an `include:` names: a path, absolute or read from the including file's directory. */
  datatype Ref = Ref(absolute: bool, steps: seq<string>)

  /** A compose file: what it includes, and its lines. */
  datatype File = File(includes: seq<Ref>, lines: seq<Line>)

  /** The files there are, by resolved path. */
  type Tree = map<Path, File>

  /** `"$" in ref or "*" in ref` is not a path that can be followed. */
  predicate IsLiteral(ref: Ref) {
    forall i :: 0 <= i < |ref.steps| ==> '$' !in ref.steps[i] && '*' !in ref.steps[i]
  }

  function Target(from: Path, ref: Ref): Path {
    if ref.absolute then Resolve([], ref.steps) else Resolve(Parent(from), ref.steps)
  }

  /** A file that cannot be read includes nothing. */
  function Includes(tree: Tree, path: Path): seq<Ref> {
    if path in tree then tree[path].includes else []
  }

  predicate Leads(tree: Tree, from: Path, ref: Ref, to: Path) {
    IsLiteral(ref) && Target(from, ref) == to && to in tree
  }

  ghost predicate Follows(tree: Tree, from: Path, to: Path) {
    exists i :: 0 <= i < |Includes(tree, from)| && Leads(tree, from, Includes(tree, from)[i], to)
  }

  ghost predicate IsChain(tree: Tree, chain: seq<Path>) {
    |chain| > 0 && forall i :: 0 <= i < |chain| - 1 ==> Follows(tree, chain[i], chain[i + 1])
  }

  ghost predicate Reachable(tree: Tree, from: Path, to: Path) {
    exists chain: seq<Path> :: IsChain(tree, chain) && chain[0] == from && chain[|chain| - 1] == to
  }

  /** Each file of a run after the first is included by one the run lists earlier. */
  ghost predicate IncludedEarlier(tree: Tree, files: seq<Path>) {
    forall i :: 0 < i < |files| ==> HasIncluder(tree, files, i)
  }

  ghost predicate HasIncluder(tree: Tree, files: seq<Path>, i: nat)
    requires i < |files|
  {
    exists j :: 0 <= j < i && Follows(tree, files[j], files[i])
  }

  /** Every file a followable include of a listed file leads to has been seen. */
  ghost predicate Closed(tree: Tree, files: seq<Path>, seen: set<Path>) {
    forall i, to :: 0 <= i < |files| && Follows(tree, files[i], to) ==> to in seen
  }

  /** What `followed_files` returns for a root: root first, each file once, an includer before it. */
  ghost predicate IsFollowed(tree: Tree, root: Path, files: seq<Path>) {
    && |files| > 0 && files[0] == root
    && Distinct(files)
    && IncludedEarlier(tree, files)
    && Closed(tree, files, Elements(files))
  }

  lemma ChainExtend(tree: Tree, from: Path, mid: Path, to: Path)
    requires Reachable(tree, from, mid) && Follows(tree, mid, to)
    ensures Reachable(tree, from, to)
  {
    var chain: seq<Path> :| IsChain(tree, chain) && chain[0] == from && chain[|chain| - 1] == mid;
    var longer := chain + [to];
    assert IsChain(tree, longer);
    assert longer[0] == from && longer[|longer| - 1] == to;
  }

  lemma {:induction false} ListedIsReachable(tree: Tree, root: Path, files: seq<Path>, i: nat)
    requires IsFollowed(tree, root, files) && i < |files|
    ensures Reachable(tree, root, files[i])
    decreases i
  {
    if i == 0 {
      var chain := [root];
      assert IsChain(tree, chain) && chain[0] == root && chain[|chain| - 1] == root;
    } else {
      assert HasIncluder(tree, files, i);
      var j :| 0 <= j < i && Follows(tree, files[j], files[i]);
      ListedIsReachable(tree, root, files, j);
      ChainExtend(tree, root, files[j], files[i]);
    }
  }

  lemma {:induction false} ChainIsListed(tree: Tree, root: Path, files: seq<Path>, chain: seq<Path>)
    requires IsFollowed(tree, root, files)
    requires IsChain(tree, chain) && chain[0] == root
    ensures chain[|chain| - 1] in files
    decreases |chain|
  {
    if |chain| > 1 {
      var shorter := chain[..|chain| - 1];
      forall i | 0 <= i < |shorter| - 1 ensures Follows(tree, shorter[i], shorter[i + 1]) {
        assert Follows(tree, chain[i], chain[i + 1]);
      }
      ChainIsListed(tree, root, files, shorter);
      var i :| 0 <= i < |files| && files[i] == shorter[|shorter| - 1];
      var last := |chain| - 2;
      assert Follows(tree, chain[last], chain[last + 1]);
      assert Follows(tree, files[i], chain[last + 1]);
      assert chain[last + 1] in Elements(files);
    }
  }

  /** A followed list holds exactly the files reachable from its root, on any graph. */
  lemma FollowedExactly(tree: Tree, root: Path, files: seq<Path>)
    requires IsFollowed(tree, root, files)
    ensures forall p :: p in files <==> Reachable(tree, root, p)
  {
    forall p ensures p in files <==> Reachable(tree, root, p) {
      if p in files {
        var i :| 0 <= i < |files| && files[i] == p;
        ListedIsReachable(tree, root, files, i);
      }
      if Reachable(tree, root, p) {
        var chain: seq<Path> :| IsChain(tree, chain) && chain[0] == root && chain[|chain| - 1] == p;
        ChainIsListed(tree, root, files, chain);
      }
    }
  }

  /** The files a list of includes leads to, in order. */
  function Targets(tree: Tree, from: Path, refs: seq<Ref>): (targets: seq<Path>)
    ensures forall i :: 0 <= i < |targets| ==> targets[i] in tree
    decreases |refs|
  {
    if refs == [] then []
    else
      var init, last := Targets(tree, from, refs[..|refs| - 1]), refs[|refs| - 1];
      if IsLiteral(last) && Target(from, last) in tree then init + [Target(from, last)] else init
  }

  function Next(tree: Tree, path: Path): seq<Path> {
    Targets(tree, path, Includes(tree, path))
  }

  /** The files a walk may still list: the measure that makes it end on any graph. */
  function Unseen(tree: Tree, stack: seq<Path>, seen: set<Path>): set<Path> {
    tree.Keys + Elements(stack) - seen
  }

  lemma UnseenShrinks(tree: Tree, top: Path, rest: seq<Path>, seen: set<Path>)
    ensures top in seen ==> Unseen(tree, rest, seen) == Unseen(tree, [top] + rest, seen)
    ensures top !in seen ==>
              Unseen(tree, Next(tree, top) + rest, seen + {top}) < Unseen(tree, [top] + rest, seen)
  {
    ElementsConcat([top], rest);
    assert Elements([top]) == {top};
    ElementsConcat(Next(tree, top), rest);
    assert Elements(Next(tree, top)) <= tree.Keys;
    assert top !in seen ==> top in Unseen(tree, [top] + rest, seen);
  }

  /** The order of the walk, by an explicit stack instead of nested calls. */
  function Preorder(tree: Tree, stack: seq<Path>, seen: set<Path>): seq<Path>
    decreases Unseen(tree, stack, seen), |stack|
  {
    if stack == [] then []
    else
      var top, rest := stack[0], stack[1..];
      assert stack == [top] + rest;
      UnseenShrinks(tree, top, rest, seen);
      if top in seen then Preorder(tree, rest, seen)
      else [top] + Preorder(tree, Next(tree, top) + rest, seen + {top})
  }

  lemma PreorderTop(tree: Tree, top: Path, rest: seq<Path>, seen: set<Path>)
    ensures top in seen ==> Preorder(tree, [top] + rest, seen) == Preorder(tree, rest, seen)
    ensures top !in seen ==>
              Preorder(tree, [top] + rest, seen) == [top] + Preorder(tree, Next(tree, top) + rest, seen + {top})
  {
    assert ([top] + rest)[1..] == rest;
  }

  lemma {:induction false} TargetsAre(tree: Tree, from: Path, refs: seq<Ref>)
    ensures forall to :: to in Targets(tree, from, refs) <==>
              exists i :: 0 <= i < |refs| && Leads(tree, from, refs[i], to)
    decreases |refs|
  {
    if refs != [] {
      var init, last := refs[..|refs| - 1], refs[|refs| - 1];
      TargetsAre(tree, from, init);
      forall to ensures to in Targets(tree, from, refs) <==>
                          exists i :: 0 <= i < |refs| && Leads(tree, from, refs[i], to)
      {
        if Leads(tree, from, last, to) {
          assert Leads(tree, from, refs[|refs| - 1], to);
        }
        if i :| 0 <= i < |init| && Leads(tree, from, init[i], to) {
          assert Leads(tree, from, refs[i], to);
        }
        if i :| 0 <= i < |refs| && Leads(tree, from, refs[i], to) && i < |init| {
          assert Leads(tree, from, init[i], to);
        }
      }
    }
  }

  lemma ChainBefore(tree: Tree, from: Path, mid: Path, to: Path)
    requires Follows(tree, from, mid) && Reachable(tree, mid, to)
    ensures Reachable(tree, from, to)
  {
    var chain: seq<Path> :| IsChain(tree, chain) && chain[0] == mid && chain[|chain| - 1] == to;
    var longer := [from] + chain;
    forall i | 0 <= i < |longer| - 1 ensures Follows(tree, longer[i], longer[i + 1]) {
      assert i > 0 ==> Follows(tree, chain[i - 1], chain[i]);
    }
    assert IsChain(tree, longer) && longer[0] == from && longer[|longer| - 1] == to;
  }

  lemma ReachesItself(tree: Tree, path: Path)
    ensures Reachable(tree, path, path)
  {
    var chain := [path];
    assert IsChain(tree, chain) && chain[0] == path && chain[|chain| - 1] == path;
  }

  ghost predicate ReachedFrom(tree: Tree, stack: seq<Path>, p: Path) {
    exists s :: s in stack && Reachable(tree, s, p)
  }

  /** The order lists what it starts from, and with a file what that includes, and nothing it cannot reach. */
  lemma {:induction false} PreorderCloses(tree: Tree, stack: seq<Path>, seen: set<Path>)
    ensures forall s :: s in stack ==> s in seen || s in Preorder(tree, stack, seen)
    ensures forall p, q :: p in Preorder(tree, stack, seen) && Follows(tree, p, q) ==>
              q in seen || q in Preorder(tree, stack, seen)
    ensures forall p :: p in Preorder(tree, stack, seen) ==> ReachedFrom(tree, stack, p)
    decreases Unseen(tree, stack, seen), |stack|
  {
    hide Reachable;
    if stack != [] {
      var top, rest := stack[0], stack[1..];
      assert stack == [top] + rest;
      PreorderTop(tree, top, rest, seen);
      UnseenShrinks(tree, top, rest, seen);
      if top in seen {
        PreorderCloses(tree, rest, seen);
      } else {
        var next := Next(tree, top);
        PreorderCloses(tree, next + rest, seen + {top});
        TargetsAre(tree, top, Includes(tree, top));
        assert forall q :: Follows(tree, top, q) <==> q in next;
        assert forall s :: s in next + rest <==> s in next || s in rest;
        forall p | p in Preorder(tree, stack, seen) ensures ReachedFrom(tree, stack, p) {
          if p == top {
            ReachesItself(tree, top);
          } else {
            var s :| s in next + rest && Reachable(tree, s, p);
            if s in next {
              ChainBefore(tree, top, s, p);
            }
          }
        }
        hide Preorder, Follows;
      }
    }
  }

  lemma {:induction false} ChainStaysIn(tree: Tree, listed: seq<Path>, chain: seq<Path>)
    requires forall p, q :: p in listed && Follows(tree, p, q) ==> q in listed
    requires IsChain(tree, chain) && chain[0] in listed
    ensures chain[|chain| - 1] in listed
    decreases |chain|
  {
    if |chain| > 1 {
      var shorter := chain[..|chain| - 1];
      forall i | 0 <= i < |shorter| - 1 ensures Follows(tree, shorter[i], shorter[i + 1]) {
        assert Follows(tree, chain[i], chain[i + 1]);
      }
      ChainStaysIn(tree, listed, shorter);
      var last := |chain| - 2;
      assert Follows(tree, chain[last], chain[last + 1]);
    }
  }

  /** From one file the order lists exactly what can be reached. */
  lemma PreorderReaches(tree: Tree, root: Path)
    ensures forall p :: p in Preorder(tree, [root], {}) <==> Reachable(tree, root, p)
  {
    PreorderCloses(tree, [root], {});
    var listed := Preorder(tree, [root], {});
    assert root in [root];
    forall p | Reachable(tree, root, p) ensures p in listed {
      var chain: seq<Path> :| IsChain(tree, chain) && chain[0] == root && chain[|chain| - 1] == p;
      ChainStaysIn(tree, listed, chain);
    }
    hide Preorder, Follows;
  }

  /** Walking two stacks is walking the first, then the second with what the first saw. */
  lemma {:induction false} PreorderConcat(tree: Tree, a: seq<Path>, b: seq<Path>, seen: set<Path>)
    ensures Preorder(tree, a + b, seen)
         == Preorder(tree, a, seen) + Preorder(tree, b, seen + Elements(Preorder(tree, a, seen)))
    decreases Unseen(tree, a, seen), |a|
  {
    if a == [] {
      assert a + b == b;
      assert seen + Elements(Preorder(tree, a, seen)) == seen;
    } else {
      var top, rest := a[0], a[1..];
      assert a == [top] + rest && a + b == [top] + (rest + b);
      PreorderTop(tree, top, rest, seen);
      PreorderTop(tree, top, rest + b, seen);
      UnseenShrinks(tree, top, rest, seen);
      if top in seen {
        PreorderConcat(tree, rest, b, seen);
      } else {
        var next := Next(tree, top);
        assert next + (rest + b) == next + rest + b;
        PreorderConcat(tree, next + rest, b, seen + {top});
        SeenAfter(top, Preorder(tree, next + rest, seen + {top}), seen);
        Reassociate(top, Preorder(tree, next + rest, seen + {top}),
                    Preorder(tree, b, seen + Elements(Preorder(tree, a, seen))));
      }
    }
  }

  lemma Reassociate(top: Path, a: seq<Path>, b: seq<Path>)
    ensures [top] + (a + b) == [top] + a + b
  {
  }

  lemma SeenAfter(top: Path, walked: seq<Path>, seen: set<Path>)
    ensures seen + {top} + Elements(walked) == seen + Elements([top] + walked)
  {
    ElementsConcat([top], walked);
    assert Elements([top]) == {top};
  }

  /** Appending a nested walk to a run whose first file includes where that walk began. */
  lemma Glue(tree: Tree, files: seq<Path>, more: seq<Path>, target: Path)
    requires |files| > 0 && Follows(tree, files[0], target)
    requires more != [] ==> more[0] == target
    requires IncludedEarlier(tree, files) && IncludedEarlier(tree, more)
    requires Distinct(files) && Distinct(more) && Elements(files) !! Elements(more)
    ensures IncludedEarlier(tree, files + more)
    ensures Distinct(files + more)
    ensures Elements(files + more) == Elements(files) + Elements(more)
  {
    var grown := files + more;
    forall k | 0 < k < |grown| ensures HasIncluder(tree, grown, k) {
      if k < |files| {
        assert HasIncluder(tree, files, k);
        var j :| 0 <= j < k && Follows(tree, files[j], files[k]);
        assert Follows(tree, grown[j], grown[k]);
      } else if k == |files| {
        assert Follows(tree, grown[0], grown[k]);
      } else {
        assert HasIncluder(tree, more, k - |files|);
        var j :| 0 <= j < k - |files| && Follows(tree, more[j], more[k - |files|]);
        assert Follows(tree, grown[j + |files|], grown[k]);
      }
    }
    forall i, j | 0 <= i < j < |grown| ensures grown[i] != grown[j] {
      if i < |files| <= j {
        assert files[i] in Elements(files) && more[j - |files|] in Elements(more);
      }
    }
  }

  /** How far a walk from `path` is, having followed the first `i` of its includes. */
  ghost predicate Progress(tree: Tree, path: Path, i: nat, start: set<Path>, files: seq<Path>, seen: set<Path>)
    requires i <= |Includes(tree, path)|
  {
    && |files| > 0 && files[0] == path
    && seen == start + Elements(files) && Elements(files) !! start
    && Distinct(files) && IncludedEarlier(tree, files)
    && Closed(tree, files[1..], seen)
    && (forall j, to :: 0 <= j < i && Leads(tree, path, Includes(tree, path)[j], to) ==> to in seen)
    && files == [path] + Preorder(tree, Targets(tree, path, Includes(tree, path)[..i]), start + {path})
  }

  /** One followed include: everything the walk has established so far holds with it. */
  lemma Extend(tree: Tree, path: Path, i: nat, start: set<Path>, files: seq<Path>, before: set<Path>,
               more: seq<Path>, after: set<Path>)
    requires i < |Includes(tree, path)| && IsLiteral(Includes(tree, path)[i])
    requires Target(path, Includes(tree, path)[i]) in tree
    requires Progress(tree, path, i, start, files, before)
    requires Target(path, Includes(tree, path)[i]) in before ==> more == []
    requires Target(path, Includes(tree, path)[i]) !in before ==>
               |more| > 0 && more[0] == Target(path, Includes(tree, path)[i])
    requires after == before + Elements(more) && Elements(more) !! before
    requires Distinct(more) && IncludedEarlier(tree, more) && Closed(tree, more, after)
    requires more == Preorder(tree, [Target(path, Includes(tree, path)[i])], before)
    ensures Progress(tree, path, i + 1, start, files + more, after)
  {
    var refs := Includes(tree, path);
    var target := Target(path, refs[i]);
    assert Leads(tree, path, refs[i], target);
    assert Follows(tree, files[0], target);
    Glue(tree, files, more, target);
    ExtendClosed(tree, files, more, before, after);
    forall j, to | 0 <= j < i + 1 && Leads(tree, path, refs[j], to) ensures to in after {
      if j == i && more != [] {
        assert more[0] in Elements(more);
      }
    }
    var done := Targets(tree, path, refs[..i]);
    TakeSnoc(refs, i);
    SeenAfter(path, Preorder(tree, done, start + {path}), start);
    ExtendOrder(tree, path, done, target, start + {path}, before);
  }

  lemma ExtendClosed(tree: Tree, files: seq<Path>, more: seq<Path>, before: set<Path>, after: set<Path>)
    requires |files| > 0 && before <= after
    requires Closed(tree, files[1..], before) && Closed(tree, more, after)
    ensures Closed(tree, (files + more)[1..], after)
  {
    ConcatTail(files, more);
    var grown := files[1..] + more;
    forall k, to | 0 <= k < |grown| && Follows(tree, grown[k], to) ensures to in after {
      if k < |files| - 1 {
        assert Follows(tree, files[1..][k], to);
      } else {
        assert Follows(tree, more[k + 1 - |files|], to);
      }
    }
  }

  lemma Skip(tree: Tree, path: Path, i: nat, start: set<Path>, files: seq<Path>, seen: set<Path>)
    requires i < |Includes(tree, path)|
    requires !IsLiteral(Includes(tree, path)[i]) || Target(path, Includes(tree, path)[i]) !in tree
    requires Progress(tree, path, i, start, files, seen)
    ensures Progress(tree, path, i + 1, start, files, seen)
  {
    var refs := Includes(tree, path);
    TakeSnoc(refs, i);
  }

  lemma Finish(tree: Tree, path: Path, start: set<Path>, files: seq<Path>, seen: set<Path>)
    requires path !in start
    requires Progress(tree, path, |Includes(tree, path)|, start, files, seen)
    ensures Closed(tree, files, seen)
    ensures files == Preorder(tree, [path], start)
  {
    var refs := Includes(tree, path);
    TakeAll(refs);
    PreorderTop(tree, path, [], start);
    assert [path] + [] == [path] && Next(tree, path) + [] == Next(tree, path);
    forall k, to | 0 <= k < |files| && Follows(tree, files[k], to) ensures to in seen {
      if k > 0 {
        assert Follows(tree, files[1..][k - 1], to);
      }
    }
  }

  lemma {:induction false} ExtendOrder(tree: Tree, path: Path, done: seq<Path>, target: Path, start: set<Path>,
                                       before: set<Path>)
    requires path in start && before == start + Elements([path] + Preorder(tree, done, start))
    ensures [path] + Preorder(tree, done, start) + Preorder(tree, [target], before)
         == [path] + Preorder(tree, done + [target], start)
  {
    var walked := Preorder(tree, done, start);
    PreorderConcat(tree, done, [target], start);
    SeenAfter(path, walked, start);
    assert start + {path} == start;
    assert [path] + walked + Preorder(tree, [target], before) == [path] + (walked + Preorder(tree, [target], before));
  }

  /** The walk: a set of files already seen, shared by every nested call. */
  class Walk {
    var seen: set<Path>

    constructor ()
      ensures seen == {}
    {
      seen := {};
    }

    /** Depth first from `path`, skipping what has been seen: a cycle ends the walk. */
    method Follow(tree: Tree, path: Path) returns (files: seq<Path>)
      modifies this
      ensures path in old(seen) ==> files == []
      ensures path !in old(seen) ==> |files| > 0 && files[0] == path
      ensures seen == old(seen) + Elements(files)
      ensures Elements(files) !! old(seen)
      ensures Distinct(files)
      ensures IncludedEarlier(tree, files)
      ensures Closed(tree, files, seen)
      ensures files == Preorder(tree, [path], old(seen))
      decreases tree.Keys + {path} - seen
    {
      if path in seen {
        return [];
      }
      seen := seen + {path};
      files := [path];
      assert Elements(files) == {path};
      assert Targets(tree, path, []) == [] && [path] + [] == [path];
      var refs := Includes(tree, path);
      for i := 0 to |refs|
        invariant Progress(tree, path, i, old(seen), files, seen)
      {
        if IsLiteral(refs[i]) && Target(path, refs[i]) in tree {
          ghost var before := seen;
          assert path in Elements(files);
          var more := Follow(tree, Target(path, refs[i]));
          Extend(tree, path, i, old(seen), files, before, more, seen);
          files := files + more;
        } else {
          Skip(tree, path, i, old(seen), files, seen);
        }
      }
      Finish(tree, path, old(seen), files, seen);
    }
  }

  /** `followed_files(root)`, from an empty `seen`. */
  method FollowedFiles(tree: Tree, root: Path) returns (files: seq<Path>)
    ensures IsFollowed(tree, root, files)
    ensures files == Preorder(tree, [root], {})
    ensures forall p :: p in files <==> Reachable(tree, root, p)
  {
    var walk := new Walk();
    files := walk.Follow(tree, root);
    assert walk.seen == Elements(files);
    FollowedExactly(tree, root, files);
  }

  // ── what the followed files declare together ──

  function DeclaredIn(tree: Tree, path: Path): map<string, bool> {
    if path in tree then Declared(tree[path].lines) else map[]
  }

  /** Two sets of services as one: a name is gated when either side gates it. */
  function Union(before: map<string, bool>, found: map<string, bool>): map<string, bool> {
    map n | n in before.Keys + found.Keys :: GetOr(before, n, false) || GetOr(found, n, false)
  }

  /** The services of a list of files taken together. */
  function Merged(tree: Tree, files: seq<Path>): map<string, bool>
    decreases |files|
  {
    if files == [] then map[]
    else Union(Merged(tree, files[..|files| - 1]), DeclaredIn(tree, files[|files| - 1]))
  }

  predicate Declares(tree: Tree, path: Path, name: string) {
    name in DeclaredIn(tree, path)
  }

  predicate GatesIn(tree: Tree, path: Path, name: string) {
    Declares(tree, path, name) && DeclaredIn(tree, path)[name]
  }

  ghost predicate SomeDeclares(tree: Tree, files: seq<Path>, name: string) {
    exists i :: 0 <= i < |files| && Declares(tree, files[i], name)
  }

  ghost predicate SomeGates(tree: Tree, files: seq<Path>, name: string) {
    exists i :: 0 <= i < |files| && GatesIn(tree, files[i], name)
  }

  /** `path` is the first of `files` to declare `name`. */
  ghost predicate FirstDeclares(tree: Tree, files: seq<Path>, name: string, path: Path) {
    exists i :: 0 <= i < |files| && files[i] == path && Declares(tree, path, name)
      && !SomeDeclares(tree, files[..i], name)
  }

  /** Declared iff some file declares it, gated iff some file gates it, owed to its first declarer. */
  ghost predicate EffectiveAt(tree: Tree, files: seq<Path>, services: map<string, bool>,
                              declaredBy: map<string, Path>, n: string) {
    && (n in services <==> n in declaredBy)
    && (n in services <==> SomeDeclares(tree, files, n))
    && (n in services ==> (services[n] <==> SomeGates(tree, files, n)))
    && (n in services ==> FirstDeclares(tree, files, n, declaredBy[n]))
  }

  ghost predicate IsEffective(tree: Tree, files: seq<Path>,
                              services: map<string, bool>, declaredBy: map<string, Path>) {
    forall n :: EffectiveAt(tree, files, services, declaredBy, n)
  }

  lemma OneMore(tree: Tree, files: seq<Path>, i: nat, name: string)
    requires i < |files|
    ensures SomeDeclares(tree, files[..i + 1], name) <==>
              SomeDeclares(tree, files[..i], name) || Declares(tree, files[i], name)
    ensures SomeGates(tree, files[..i + 1], name) <==>
              SomeGates(tree, files[..i], name) || GatesIn(tree, files[i], name)
    ensures forall p :: FirstDeclares(tree, files[..i], name, p) ==> FirstDeclares(tree, files[..i + 1], name, p)
    ensures !SomeDeclares(tree, files[..i], name) && Declares(tree, files[i], name) ==>
              FirstDeclares(tree, files[..i + 1], name, files[i])
  {
    var some, more := files[..i], files[..i + 1];
    assert more == some + [files[i]];
    if Declares(tree, files[i], name) {
      assert more[i] == files[i];
      assert more[..i] == some;
    }
    if SomeDeclares(tree, some, name) {
      var k :| 0 <= k < |some| && Declares(tree, some[k], name);
      assert more[k] == some[k];
    }
    if SomeGates(tree, some, name) {
      var k :| 0 <= k < |some| && GatesIn(tree, some[k], name);
      assert more[k] == some[k];
    }
    forall p | FirstDeclares(tree, some, name, p) ensures FirstDeclares(tree, more, name, p) {
      var k :| 0 <= k < |some| && some[k] == p && Declares(tree, p, name) && !SomeDeclares(tree, some[..k], name);
      assert more[k] == p && more[..k] == some[..k];
    }
  }

  /** One file's services folded in, one at a time, in any order. */
  method MergeFile(services: map<string, bool>, declaredBy: map<string, Path>,
                   path: Path, found: map<string, bool>)
    returns (services': map<string, bool>, declaredBy': map<string, Path>)
    requires services.Keys == declaredBy.Keys
    ensures services' == Union(services, found)
    ensures declaredBy'.Keys == services'.Keys
    ensures forall n :: n in services' ==>
              declaredBy'[n] == if n in services then declaredBy[n] else path
  {
    services', declaredBy' := services, declaredBy;
    var left := found.Keys;
    while left != {}
      invariant left <= found.Keys
      invariant services'.Keys == services.Keys + (found.Keys - left) == declaredBy'.Keys
      invariant forall n :: n in services' ==>
                  (services'[n] <==> (n in services && services[n]) || (n in found && n !in left && found[n]))
      invariant forall n :: n in services' ==>
                  declaredBy'[n] == if n in services then declaredBy[n] else path
      decreases left
    {
      var name :| name in left;
      if name !in services' {
        services' := services'[name := found[name]];
        declaredBy' := declaredBy'[name := path];
      } else if found[name] {
        services' := services'[name := true];
      }
      left := left - {name};
    }
  }

  /** `effective_compose`: a group file and everything it includes, as one set of services. */
  method EffectiveCompose(tree: Tree, root: Path)
    returns (services: map<string, bool>, declaredBy: map<string, Path>, files: seq<Path>)
    ensures IsFollowed(tree, root, files)
    ensures files == Preorder(tree, [root], {})
    ensures services == Merged(tree, files)
    ensures IsEffective(tree, files, services, declaredBy)
  {
    files := FollowedFiles(tree, root);
    services, declaredBy := map[], map[];
    for i := 0 to |files|
      invariant services == Merged(tree, files[..i])
      invariant services.Keys == declaredBy.Keys
      invariant IsEffective(tree, files[..i], services, declaredBy)
    {
      var found: map<string, bool> := map[];
      if files[i] in tree {
        found := ParseServices(tree[files[i]].lines);
      }
      var services', declaredBy' := MergeFile(services, declaredBy, files[i], found);
      TakeSnoc(files, i);
      assert found == DeclaredIn(tree, files[i]);
      ghost var more := files[..i + 1];
      forall n ensures EffectiveAt(tree, more, services', declaredBy', n) {
        assert EffectiveAt(tree, files[..i], services, declaredBy, n);
        EffectiveStep(tree, files, i, services, declaredBy, services', declaredBy', n);
      }
      services, declaredBy := services', declaredBy';
    }
    TakeAll(files);
  }

  lemma EffectiveStep(tree: Tree, files: seq<Path>, i: nat,
                      services: map<string, bool>, declaredBy: map<string, Path>,
                      services': map<string, bool>, declaredBy': map<string, Path>, n: string)
    requires i < |files|
    requires EffectiveAt(tree, files[..i], services, declaredBy, n)
    requires services' == Union(services, DeclaredIn(tree, files[i]))
    requires n in services' <==> n in declaredBy'
    requires n in services' ==> declaredBy'[n] == if n in declaredBy then declaredBy[n] else files[i]
    ensures EffectiveAt(tree, files[..i + 1], services', declaredBy', n)
  {
    OneMore(tree, files, i, n);
    GatesDeclare(tree, files[..i], n);
  }

  lemma GatesDeclare(tree: Tree, files: seq<Path>, name: string)
    ensures SomeGates(tree, files, name) ==> SomeDeclares(tree, files, name)
  {
    if SomeGates(tree, files, name) {
      var k :| 0 <= k < |files| && GatesIn(tree, files[k], name);
      assert Declares(tree, files[k], name);
    }
  }

  // ── one include, as it is written ──

  /** A path with a variable or a pattern in it. */
  ghost predicate HasPattern(ref: Ref) {
    exists i :: 0 <= i < |ref.steps| && ('$' in ref.steps[i] || '*' in ref.steps[i])
  }

  /** What a file leads to is what it names, from the root or from its own directory, of the files there are;
      a path with a variable or a pattern in it leads nowhere. */
  lemma FollowsIff(tree: Tree, dir: Path, name: string, to: Path)
    ensures Follows(tree, dir + [name], to) <==>
              dir + [name] in tree && to in tree
                && exists ref :: ref in tree[dir + [name]].includes && !HasPattern(ref)
                     && to == Resolve(if ref.absolute then [] else dir, ref.steps)
  {
    var from := dir + [name];
    assert Parent(from) == dir;
    var refs := Includes(tree, from);
    if i :| 0 <= i < |refs| && Leads(tree, from, refs[i], to) {
      assert refs[i] in tree[from].includes && !HasPattern(refs[i]);
    }
    if from in tree && to in tree {
      if ref :| ref in tree[from].includes && !HasPattern(ref)
                && to == Resolve(if ref.absolute then [] else dir, ref.steps) {
        var i :| 0 <= i < |refs| && refs[i] == ref;
        assert Leads(tree, from, refs[i], to);
      }
    }
  }
}
