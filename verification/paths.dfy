/** Paths as component sequences, and what a relative path means. */
module Paths {
  import opened Basics


  /** An absolute, resolved path. */
  type Path = seq<string>

  /** One step of lexical resolution. */
  function Step(at: Path, component: string): Path {
    if component == "" || component == "." then at
    else if component == ".." then (if at == [] then [] else at[..|at| - 1])
    else at + [component]
  }

  /** Where the relative path `steps` leads when it is read from the directory `at`. */
  function Resolve(at: Path, steps: seq<string>): Path
    decreases |steps|
  {
    if steps == [] then at else Resolve(Step(at, steps[0]), steps[1..])
  }

  /** The directory holding a file. */
  function Parent(file: Path): Path {
    if file == [] then [] else file[..|file| - 1]
  }

  /** A component that names a directory entry, rather than a step up or nothing. */
  predicate Plain(component: string) {
    component != "" && component != "." && component != ".."
  }

  lemma {:induction false} ResolveConcat(at: Path, a: seq<string>, b: seq<string>)
    ensures Resolve(at, a + b) == Resolve(Resolve(at, a), b)
    decreases |a|
  {
    if a == [] {
      assert a + b == b;
    } else {
      ConcatTail(a, b);
      ResolveConcat(Step(at, a[0]), a[1..], b);
    }
  }

  lemma {:induction false} ResolvePlain(at: Path, names: seq<string>)
    requires forall i :: 0 <= i < |names| ==> Plain(names[i])
    ensures Resolve(at, names) == at + names
    decreases |names|
  {
    if names != [] {
      ResolvePlain(Step(at, names[0]), names[1..]);
      assert at + [names[0]] + names[1..] == at + names;
    } else {
      assert at + names == at;
    }
  }

  /** Resolution only ever yields plain components on top of a plain start. */
  lemma {:induction false} ResolveStaysPlain(at: Path, steps: seq<string>)
    requires forall i :: 0 <= i < |at| ==> Plain(at[i])
    ensures forall i :: 0 <= i < |Resolve(at, steps)| ==> Plain(Resolve(at, steps)[i])
    decreases |steps|
  {
    if steps != [] {
      ResolveStaysPlain(Step(at, steps[0]), steps[1..]);
    }
  }

  /** Resolving an already resolved prefix changes nothing: norm(norm(a) + b) = norm(a + b). */
  lemma ResolveNormalised(a: seq<string>, b: seq<string>)
    ensures Resolve([], Resolve([], a) + b) == Resolve([], a + b)
  {
    ResolveStaysPlain([], a);
    ResolvePlain([], Resolve([], a));
    assert [] + Resolve([], a) == Resolve([], a);
    ResolveConcat([], Resolve([], a), b);
    ResolveConcat([], a, b);
  }
}
