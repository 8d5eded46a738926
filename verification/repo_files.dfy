/** A repo's compose files: what both readers find in them, and the gate of a service of several. */
module RepoFiles {
  import opened Basics
  import opened Dicts
  import opened ComposeText
  import opened Rendering
  import opened OverrideMerge
  import opened MergeLaws
  import opened MergeLimits
  import opened Sources

  // ── both readers on a repo's files ──

  /** A compose file both readers take the same way: no services, or one section of them in block form,
      each body in place, and at most one `profiles:` to a service, inline or as a list. */
  ghost predicate IsComposeFile(lines: seq<Line>) {
    && WellFormed(Services(lines))
    && (forall i :: 0 <= i < |Services(lines)| ==> OneProfiles(Services(lines)[i].value))
    && (HasNoServices(lines) || HasSection(lines))
  }

  ghost predicate HasSection(lines: seq<Line>) {
    exists head, gap, tail :: WellFramed(head, gap, tail) && lines == Document(head, gap, Services(lines), tail)
  }

  lemma DeclaredIsGates(lines: seq<Line>)
    requires IsComposeFile(lines)
    ensures Declared(lines) == Gates(Services(lines))
    ensures forall n :: n in Declared(lines) <==> Has(Services(lines), n) && !IsExtension(n)
    ensures forall n :: n in Declared(lines) ==> Declared(lines)[n] == Gated(Get(Services(lines), n))
  {
    if HasNoServices(lines) {
      ReadHead(lines);
      ParseHead(lines);
    } else {
      var head, gap, tail :| WellFramed(head, gap, tail) && lines == Document(head, gap, Services(lines), tail);
      ParseDocument(head, gap, Services(lines), tail);
    }
    GatesAre(Services(lines));
  }

  ghost predicate InFile(files: seq<seq<Line>>, n: string) {
    exists k :: 0 <= k < |files| && Has(Services(files[k]), n)
  }

  ghost predicate GatedInFile(files: seq<seq<Line>>, n: string) {
    exists k :: 0 <= k < |files| && Has(Services(files[k]), n) && Gated(Get(Services(files[k]), n))
  }

  ghost predicate LineInFile(files: seq<seq<Line>>, n: string, l: Line) {
    exists k :: 0 <= k < |files| && Has(Services(files[k]), n) && l in Get(Services(files[k]), n)
  }

  lemma InFileSnoc(files: seq<seq<Line>>, last: seq<Line>, n: string)
    ensures InFile(files + [last], n) <==> InFile(files, n) || Has(Services(last), n)
    ensures forall l :: LineInFile(files, n, l) ==> LineInFile(files + [last], n, l)
    ensures Has(Services(last), n) ==> forall l :: l in Get(Services(last), n) ==> LineInFile(files + [last], n, l)
  {
    var all := files + [last];
    assert all[|files|] == last;
    if InFile(files, n) {
      var k :| 0 <= k < |files| && Has(Services(files[k]), n);
      assert all[k] == files[k];
    }
    forall l | LineInFile(files, n, l) ensures LineInFile(all, n, l) {
      var k :| 0 <= k < |files| && Has(Services(files[k]), n) && l in Get(Services(files[k]), n);
      assert all[k] == files[k];
    }
  }

  /** A service of the merged files: in both, its lines come from the two; in one, it is that one's. */
  lemma {:induction false} MergedServices(base: Dict<string, Body>, later: Dict<string, Body>, n: string)
    requires UniqueKeys(base) && UniqueKeys(later)
    ensures Has(MergeServices(base, later), n) <==> Has(base, n) || Has(later, n)
    ensures Has(MergeServices(base, later), n) ==>
              forall l :: l in Get(MergeServices(base, later), n) ==>
                (Has(base, n) && l in Get(base, n)) || (Has(later, n) && l in Get(later, n))
    ensures Has(base, n) && !Has(later, n) ==> Get(MergeServices(base, later), n) == Get(base, n)
    ensures !Has(base, n) && Has(later, n) ==> Get(MergeServices(base, later), n) == Get(later, n)
    ensures Has(base, n) && Has(later, n) ==>
              Get(MergeServices(base, later), n) == Merge(Get(base, n), Get(later, n))
    decreases |later|
  {
    if later != [] {
      var init, last := later[..|later| - 1], later[|later| - 1];
      Snoc(later);
      forall i | 0 <= i < |init| ensures init[i].key != last.key {
        assert later[i].key != later[|init|].key;
      }
      MergedServices(base, init, n);
      MergedServices(base, init, last.key);
      HasSnoc(init, last, n);
      var before := MergeServices(base, init);
      var body := if Has(before, last.key) then Merge(Get(before, last.key), last.value) else last.value;
      GetPut(before, last.key, body, n);
      if n == last.key && Has(before, n) {
        MergeFrom(Get(before, n), last.value);
      }
    }
  }

  /** The merged service of a repo is declared by a file, and every line of it is some file's. */
  lemma {:induction false} MergedFilesFrom(files: seq<seq<Line>>, n: string)
    ensures Has(MergeFiles(files), n) <==> InFile(files, n)
    ensures Has(MergeFiles(files), n) ==> forall l :: l in Get(MergeFiles(files), n) ==> LineInFile(files, n, l)
    decreases |files|
  {
    if files != [] {
      var init, last := files[..|files| - 1], files[|files| - 1];
      Snoc(files);
      MergedFilesFrom(init, n);
      MergeFilesUnique(init);
      ServicesUnique(last);
      MergedServices(MergeFiles(init), Services(last), n);
      InFileSnoc(init, last, n);
    }
  }

  lemma GateLineGates(lines: seq<Line>, n: string, l: Line)
    requires IsComposeFile(lines) && Has(Services(lines), n) && l in Get(Services(lines), n) && IsGate(l)
    ensures Gated(Get(Services(lines), n))
  {
    var own := Get(Services(lines), n);
    assert OneProfiles(Services(lines)[Find(Services(lines), n)].value);
    var j :| 0 <= j < |own| && own[j] == l;
    GateGates(own, j);
  }

  /** The generator gates a merged service only if a file of the repo gates it. */
  lemma MergedFilesGate(files: seq<seq<Line>>, n: string)
    requires forall k :: 0 <= k < |files| ==> IsComposeFile(files[k])
    requires Has(MergeFiles(files), n) && Gated(Get(MergeFiles(files), n))
    ensures GatedInFile(files, n)
  {
    MergedFilesFrom(files, n);
    var k, l := GateOrigin(files, n, Get(MergeFiles(files), n));
    GateLineGates(files[k], n, l);
  }

  lemma GateOrigin(files: seq<seq<Line>>, n: string, body: Body) returns (k: nat, l: Line)
    requires Gated(body) && forall l :: l in body ==> LineInFile(files, n, l)
    ensures k < |files| && Has(Services(files[k]), n) && l in Get(Services(files[k]), n) && IsGate(l)
  {
    GatedHasGate(body);
    var i :| 0 <= i < |body| && IsGate(body[i]);
    l := body[i];
    assert LineInFile(files, n, l);
    k :| 0 <= k < |files| && Has(Services(files[k]), n) && l in Get(Services(files[k]), n);
  }

  // ── the gate of a service declared in several files ──

  predicate HasProfiles(body: Body) {
    Has(BlocksOf(body).blocks, "profiles")
  }

  /** No key twice in a body, and no inner entry named as the block it is in. */
  ghost predicate IsRegular(body: Body) {
    UniqueKeys(BlocksOf(body).blocks) && NoSelfEntry(BlocksOf(body).blocks)
  }

  ghost predicate AreRegular(files: seq<seq<Line>>, n: string) {
    forall k :: 0 <= k < |files| && Has(Services(files[k]), n) ==> IsRegular(Get(Services(files[k]), n))
  }

  ghost predicate ProfilesIn(files: seq<seq<Line>>, n: string, k: nat) {
    k < |files| && Has(Services(files[k]), n) && HasProfiles(Get(Services(files[k]), n))
  }

  ghost predicate GatesIn(files: seq<seq<Line>>, n: string, k: nat) {
    k < |files| && Has(Services(files[k]), n) && Gated(Get(Services(files[k]), n))
  }

  /** The first file that gives the service a `profiles:`, whatever it says. */
  ghost predicate IsFirstWithProfiles(files: seq<seq<Line>>, n: string, k: nat) {
    ProfilesIn(files, n, k) && forall j :: 0 <= j < k ==> !ProfilesIn(files, n, j)
  }

  /** That file gates the service, or no later one does. */
  ghost predicate FirstDecides(files: seq<seq<Line>>, n: string) {
    forall k :: IsFirstWithProfiles(files, n, k) ==> GatesIn(files, n, k) || forall j :: k < j ==> !GatesIn(files, n, j)
  }

  lemma GatedHasProfiles(body: Body)
    requires IsRegular(body) && Gated(body)
    ensures HasProfiles(body)
  {
    SplitIsLossless(body);
    GateByBlock(BlocksOf(body));
  }

  /** The gate of a merge is the earlier body's where that one has a `profiles:` at all. */
  lemma {:induction false} MergedGate(earlier: Body, later: Body)
    requires UniqueKeys(BlocksOf(earlier).blocks) && IsRegular(later)
    ensures UniqueKeys(BlocksOf(Merge(earlier, later)).blocks)
    ensures HasProfiles(Merge(earlier, later)) <==> HasProfiles(earlier) || HasProfiles(later)
    ensures Gated(Merge(earlier, later)) <==> if HasProfiles(earlier) then Gated(earlier) else Gated(later)
  {
    var e, l := BlocksOf(earlier), BlocksOf(later);
    MergeResplits(earlier, later);
    MergedBlocks(e.blocks, l.blocks);
    MergedGateIsOr(earlier, later);
    SplitIsLossless(earlier);
    SplitIsLossless(later);
    GateByBlock(e);
    GateByBlock(l);
  }

  ghost predicate AnyProfiles(files: seq<seq<Line>>, n: string) {
    exists k :: ProfilesIn(files, n, k)
  }

  ghost predicate FirstGates(files: seq<seq<Line>>, n: string) {
    exists k :: IsFirstWithProfiles(files, n, k) && GatesIn(files, n, k)
  }

  /** One more file decides only where no file before it did. */
  lemma FirstSnoc(files: seq<seq<Line>>, last: seq<Line>, n: string)
    ensures var all, k := files + [last], |files|;
            && (AnyProfiles(all, n) <==> AnyProfiles(files, n) || ProfilesIn(all, n, k))
            && (FirstGates(all, n) <==>
                  if AnyProfiles(files, n) then FirstGates(files, n) else ProfilesIn(all, n, k) && GatesIn(all, n, k))
  {
    var all := files + [last];
    assert forall k: nat :: k < |files| ==> all[k] == files[k];
    assert forall k: nat :: k < |files| ==> (ProfilesIn(all, n, k) <==> ProfilesIn(files, n, k));
    assert forall k: nat :: k < |files| ==> (GatesIn(all, n, k) <==> GatesIn(files, n, k));
    if AnyProfiles(files, n) {
      var k :| ProfilesIn(files, n, k);
      var first := FirstOf(files, n, k);
      assert IsFirstWithProfiles(all, n, first) && IsFirstWithProfiles(files, n, first);
      assert forall j :: IsFirstWithProfiles(all, n, j) ==> j == first;
      assert forall j :: IsFirstWithProfiles(files, n, j) ==> j == first;
    } else {
      assert ProfilesIn(all, n, |files|) ==> IsFirstWithProfiles(all, n, |files|);
    }
  }

  lemma {:induction false} FirstOf(files: seq<seq<Line>>, n: string, k: nat) returns (first: nat)
    requires ProfilesIn(files, n, k)
    ensures IsFirstWithProfiles(files, n, first)
    decreases k
  {
    if j: nat :| j < k && ProfilesIn(files, n, j) {
      first := FirstOf(files, n, j);
    } else {
      first := k;
    }
  }

  /** The fold over all files: the merged service is gated exactly when the first file that gives it a
      `profiles:` gates it. */
  lemma {:induction false} MergedGateIsFirst(files: seq<seq<Line>>, n: string)
    requires Has(MergeFiles(files), n) && AreRegular(files, n)
    ensures UniqueKeys(BlocksOf(Get(MergeFiles(files), n)).blocks)
    ensures HasProfiles(Get(MergeFiles(files), n)) <==> AnyProfiles(files, n)
    ensures Gated(Get(MergeFiles(files), n)) <==> FirstGates(files, n)
    decreases |files|
  {
    var init, last := files[..|files| - 1], files[|files| - 1];
    Snoc(files);
    FirstSnoc(init, last, n);
    MergeFilesUnique(init);
    ServicesUnique(last);
    MergedServices(MergeFiles(init), Services(last), n);
    MergedFilesFrom(init, n);
    assert forall k :: 0 <= k < |init| ==> init[k] == files[k];
    if Has(MergeFiles(init), n) {
      MergedGateIsFirst(init, n);
    }
    hide FirstGates, HasProfiles, Gated, Merge, MergeServices, Services;
    if Has(Services(last), n) {
      assert IsRegular(Get(Services(files[|init|]), n));
      if Has(MergeFiles(init), n) {
        MergedGate(Get(MergeFiles(init), n), Get(Services(last), n));
      }
      if Gated(Get(Services(last), n)) {
        GatedHasProfiles(Get(Services(last), n));
      }
    }
  }

  lemma SomeFileGates(files: seq<seq<Line>>, n: string)
    ensures GatedInFile(files, n) <==> exists k :: GatesIn(files, n, k)
  {
    if GatedInFile(files, n) {
      var k :| 0 <= k < |files| && Has(Services(files[k]), n) && Gated(Get(Services(files[k]), n));
      assert GatesIn(files, n, k);
    }
  }

  /** The generator's gate is the OR over the files, which is what the checker takes it to be, exactly
      when the first file with a `profiles:` gates the service or no later one does. */
  lemma MergedGateIsOrIff(files: seq<seq<Line>>, n: string)
    requires Has(MergeFiles(files), n) && AreRegular(files, n)
    ensures (Gated(Get(MergeFiles(files), n)) <==> GatedInFile(files, n)) <==> FirstDecides(files, n)
  {
    MergedGateIsFirst(files, n);
    forall k: nat | GatesIn(files, n, k) ensures ProfilesIn(files, n, k) {
      GatedHasProfiles(Get(Services(files[k]), n));
    }
    SomeFileGates(files, n);
    if AnyProfiles(files, n) {
      var k :| ProfilesIn(files, n, k);
      var first := FirstOf(files, n, k);
      assert forall j :: IsFirstWithProfiles(files, n, j) ==> j == first;
    }
  }
}
