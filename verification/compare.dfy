/** `compare`, pass by pass, and what its report guarantees. */
module Compare {
  import opened Basics
  import opened ComposeText
  import opened IncludeGraph
  import opened Names
  import opened Drift
  import opened DriftReport
  import Paths

  /** `findings.remove(f)`: the first occurrence goes. */
  function Remove(findings: seq<Finding>, f: Finding): seq<Finding>
    decreases |findings|
  {
    if findings == [] then []
    else if findings[0] == f then findings[1..]
    else [findings[0]] + Remove(findings[1..], f)
  }

  lemma {:induction false} WithoutConcat(a: seq<Finding>, b: seq<Finding>, gone: set<Finding>)
    ensures Without(a + b, gone) == Without(a, gone) + Without(b, gone)
    decreases |b|
  {
    if b == [] {
      assert a + b == a;
    } else {
      ConcatInit(a, b);
      WithoutConcat(a, b[..|b| - 1], gone);
    }
  }

  lemma {:induction false} WithoutNone(findings: seq<Finding>, gone: set<Finding>)
    requires forall i :: 0 <= i < |findings| ==> findings[i] !in gone
    ensures Without(findings, gone) == findings
    decreases |findings|
  {
    if findings != [] {
      WithoutNone(findings[..|findings| - 1], gone);
    }
  }

  lemma {:induction false} WithoutIs(findings: seq<Finding>, gone: set<Finding>, f: Finding)
    ensures f in Without(findings, gone) <==> f in findings && f !in gone
    decreases |findings|
  {
    if findings != [] {
      WithoutIs(findings[..|findings| - 1], gone, f);
    }
  }

  lemma {:induction false} WithoutDistinct(findings: seq<Finding>, gone: set<Finding>)
    requires Distinct(findings)
    ensures Distinct(Without(findings, gone))
    decreases |findings|
  {
    if findings != [] {
      var init, last := findings[..|findings| - 1], findings[|findings| - 1];
      WithoutDistinct(init, gone);
      WithoutIs(init, gone, last);
      assert last !in init;
    }
  }

  lemma {:induction false} WithoutTwice(findings: seq<Finding>, a: set<Finding>, b: set<Finding>)
    ensures Without(Without(findings, a), b) == Without(findings, a + b)
    decreases |findings|
  {
    if findings != [] {
      var init, last := findings[..|findings| - 1], findings[|findings| - 1];
      WithoutTwice(init, a, b);
      assert Without(init, a) + [] == Without(init, a);
      assert Without(init, a + b) + [] == Without(init, a + b);
      if last !in a {
        WithoutConcat(Without(init, a), [last], b);
        assert Without([last][..0], b) == [];
      }
    }
  }

  lemma WithoutOne(f: Finding, gone: set<Finding>)
    ensures Without([f], gone) == if f in gone then [] else [f]
  {
    assert [f][..0] == [];
  }

  lemma {:induction false} RemoveIsWithout(findings: seq<Finding>, f: Finding)
    requires Distinct(findings)
    ensures Remove(findings, f) == Without(findings, {f})
    decreases |findings|
  {
    if findings != [] {
      assert findings == [findings[0]] + findings[1..];
      WithoutConcat([findings[0]], findings[1..], {f});
      WithoutOne(findings[0], {f});
      hide Without;
      assert [] + findings[1..] == findings[1..];
      if findings[0] == f {
        WithoutNone(findings[1..], {f});
      } else {
        RemoveIsWithout(findings[1..], f);
      }
    }
  }

  lemma RemoveStep(all: seq<Finding>, gone: seq<Finding>, k: nat)
    requires Distinct(all) && k < |gone|
    ensures Remove(Without(all, Elements(gone[..k])), gone[k]) == Without(all, Elements(gone[..k + 1]))
  {
    var before := Elements(gone[..k]);
    WithoutDistinct(all, before);
    RemoveIsWithout(Without(all, before), gone[k]);
    WithoutTwice(all, before, {gone[k]});
    TakeSnoc(gone, k);
    assert Elements(gone[..k + 1]) == before + {gone[k]};
  }

  /** `for f in gone: findings.remove(f)` */
  method RemoveAll(all: seq<Finding>, gone: seq<Finding>) returns (findings: seq<Finding>)
    requires Distinct(all)
    ensures findings == Without(all, Elements(gone))
  {
    findings := all;
    WithoutNone(all, {});
    assert Elements(gone[..0]) == {};
    for k := 0 to |gone|
      invariant findings == Without(all, Elements(gone[..k]))
    {
      RemoveStep(all, gone, k);
      findings := Remove(findings, gone[k]);
    }
    TakeAll(gone);
  }

  method FindMissing(names: seq<string>, owned: map<string, string>, declared: set<string>)
    returns (findings: seq<Finding>)
    requires forall i :: 0 <= i < |names| ==> names[i] in owned
    ensures findings == MissingFindings(names, owned, declared)
  {
    findings := [];
    for i := 0 to |names|
      invariant findings == MissingFindings(names[..i], owned, declared)
    {
      TakeSnoc(names, i);
      if names[i] !in declared {
        findings := findings + [Missing(names[i], owned[names[i]])];
      }
    }
    TakeAll(names);
  }

  /** The pairing loop over a shrinking set of remaining extras. */
  method PairFindings(missing: seq<Finding>, extras: set<string>) returns (pairs: seq<Pair>, paired: seq<Finding>)
    requires forall i :: 0 <= i < |missing| ==> missing[i].Missing?
    ensures pairs == PairUp(missing, extras)
    ensures Elements(paired) == PairedFindings(pairs)
  {
    pairs, paired := [], [];
    var remaining := extras;
    assert PairedFindings([]) == {};
    for i := 0 to |missing|
      invariant pairs + PairUp(missing[i..], remaining) == PairUp(missing, extras)
      invariant Elements(paired) == PairedFindings(pairs)
    {
      var finding := missing[i];
      assert missing[i..][1..] == missing[i + 1..];
      var candidates := Lookalikes(finding.service, remaining);
      if candidates != {} {
        var name := Best(finding.repo, candidates);
        PairedSnoc(pairs, Pair(finding, name), paired);
        Associate(pairs, [Pair(finding, name)], PairUp(missing[i + 1..], remaining - {name}));
        pairs := pairs + [Pair(finding, name)];
        paired := paired + [finding, Extra(name)];
        remaining := remaining - {name};
      }
    }
    assert pairs + [] == pairs;
  }

  lemma PairedSnoc(pairs: seq<Pair>, last: Pair, paired: seq<Finding>)
    requires Elements(paired) == PairedFindings(pairs)
    ensures Elements(paired + [last.missing, Extra(last.extra)]) == PairedFindings(pairs + [last])
  {
    var more := pairs + [last];
    assert PairedMissing(more) == PairedMissing(pairs) + {last.missing} by {
      assert more[|pairs|] == last;
      assert forall i :: 0 <= i < |pairs| ==> more[i] == pairs[i];
    }
    assert PairedExtras(more) == PairedExtras(pairs) + {last.extra} by {
      assert more[|pairs|] == last;
      assert forall i :: 0 <= i < |pairs| ==> more[i] == pairs[i];
    }
    ElementsConcat(paired, [last.missing, Extra(last.extra)]);
    assert Elements([last.missing, Extra(last.extra)]) == {last.missing, Extra(last.extra)};
  }

  /** The pass over what pairing left: the group's own names are set aside. */
  method CollectAside(members: map<string, Gating>, findings: seq<Finding>)
    returns (aside: seq<Finding>, groupOwned: set<string>)
    ensures Elements(aside) == SetAside(members, findings)
    ensures groupOwned == set f | f in SetAside(members, findings) && f.Extra? :: f.service
  {
    aside, groupOwned := [], {};
    var optIn := AllOptIn(members);
    for i := 0 to |findings|
      invariant forall f :: f in aside <==> f in findings[..i] && IsSetAside(optIn, f)
      invariant groupOwned == set f | f in aside && f.Extra? :: f.service
    {
      var finding := findings[i];
      assert findings[..i + 1] == findings[..i] + [finding];
      if !finding.Extra? {
        continue;
      }
      if IsGroupOwned(finding.service) || IsGated(optIn, finding.service) {
        AsideSnoc(aside, finding);
        groupOwned := groupOwned + {finding.service};
        aside := aside + [finding];
      }
    }
    TakeAll(findings);
  }

  lemma AsideSnoc(aside: seq<Finding>, f: Finding)
    requires f.Extra?
    ensures (set g | g in aside + [f] && g.Extra? :: g.service)
         == (set g | g in aside && g.Extra? :: g.service) + {f.service}
  {
    assert f in aside + [f];
    assert forall g :: g in aside + [f] <==> g in aside || g == f;
  }

  method OwnHostPass(ownHosts: set<string>, deployed: set<string>, present: set<string>)
    returns (findings: seq<Finding>, stale: seq<string>)
    ensures findings == OwnHostFindings(Sorted(ownHosts), deployed)
    ensures stale == StaleEntries(Sorted(ownHosts), deployed, present)
  {
    findings, stale := [], [];
    var entries := Sorted(ownHosts);
    for i := 0 to |entries|
      invariant findings == OwnHostFindings(entries[..i], deployed)
      invariant stale == StaleEntries(entries[..i], deployed, present)
    {
      TakeSnoc(entries, i);
      if entries[i] in deployed {
        findings := findings + [OwnHost(entries[i])];
      } else if entries[i] !in present {
        stale := stale + [entries[i]];
      }
    }
    TakeAll(entries);
  }

  method FindExtras(missing: seq<Finding>, extras: seq<string>) returns (findings: seq<Finding>)
    ensures findings == missing + ExtraFindings(extras)
  {
    findings := missing;
    for i := 0 to |extras|
      invariant findings == missing + ExtraFindings(extras[..i])
    {
      assert ExtraFindings(extras[..i + 1]) == ExtraFindings(extras[..i]) + [Extra(extras[i])];
      Associate(missing, ExtraFindings(extras[..i]), [Extra(extras[i])]);
      findings := findings + [Extra(extras[i])];
    }
    TakeAll(extras);
  }

  /** The passes that list what is missing and what is extra. */
  method FindAll(members: map<string, Gating>, group: Gating) returns (missing: seq<Finding>, findings: seq<Finding>)
    ensures missing == MissingOf(members, group)
    ensures findings == missing + ExtraFindings(Sorted(ExtrasOf(members, group)))
  {
    var owned := CollectRepoServices(members);
    var declared := AlwaysOn(group);
    missing := FindMissing(Sorted(owned.Keys), owned, declared);
    findings := FindExtras(missing, Sorted(declared - owned.Keys));
  }

  /** The passes that take out what pairs, then what is the group's own. */
  method SetFindingsAside(members: map<string, Gating>, group: Gating, missing: seq<Finding>, findings: seq<Finding>)
    returns (kept: seq<Finding>, pairs: seq<Pair>, groupOwned: set<string>)
    requires missing == MissingOf(members, group)
    requires findings == missing + ExtraFindings(Sorted(ExtrasOf(members, group)))
    ensures pairs == PairsOf(members, group)
    ensures kept == Without(Unpaired(members, group), SetAside(members, Unpaired(members, group)))
    ensures groupOwned == set f | f in SetAside(members, Unpaired(members, group)) && f.Extra? :: f.service
  {
    MissingFindingsKind(Sorted(RepoServices(members).Keys), RepoServices(members), AlwaysOn(group));
    FindingsDistinct(members, group);
    var paired;
    pairs, paired := PairFindings(missing, set n | n in ExtrasOf(members, group) && !IsGroupOwned(n));
    var left := RemoveAll(findings, paired);
    WithoutDistinct(findings, PairedFindings(pairs));
    var aside;
    aside, groupOwned := CollectAside(members, left);
    kept := RemoveAll(left, aside);
  }

  /** The comparison of a group's merged services with its members' services. */
  method CompareServices(members: map<string, Gating>, group: Gating, deployed: set<string>,
                         ownHosts: set<string>, present: set<string>) returns (report: Report)
    ensures report == ReportOn(members, group, deployed, ownHosts, present)
  {
    var missing, findings := FindAll(members, group);
    var kept, pairs, groupOwned := SetFindingsAside(members, group, missing, findings);
    var exempted, stale := OwnHostPass(ownHosts, deployed, present);
    report := Report(kept + exempted, pairs, groupOwned, stale);
  }

  /** The exempted repos that are there to be exempted. */
  function Present(repos: map<string, Directory>, ownHosts: set<string>): set<string> {
    set r | r in repos && r in ownHosts && repos[r] != map[]
  }

  /** The report on a group file and its directory: follow the file, read the members, compare. */
  function Verdict(tree: Tree, groupFile: Paths.Path, repos: map<string, Directory>, ownHosts: set<string>): Report {
    var files := Preorder(tree, [groupFile], {});
    var deployed := Deployed(tree, files);
    ReportOn(Members(repos, deployed, ownHosts), Merged(tree, files), deployed.Keys, ownHosts, Present(repos, ownHosts))
  }

  /** `compare`, from the group file to the report. */
  method CompareGroup(tree: Tree, groupFile: Paths.Path, repos: map<string, Directory>, ownHosts: set<string>)
    returns (report: Report)
    ensures report == Verdict(tree, groupFile, repos, ownHosts)
  {
    var followed := FollowedFiles(tree, groupFile);
    var deployed := DeployedSources(tree, followed);
    var members := CollectMembers(repos, deployed, ownHosts);
    var group, declaredBy, files := EffectiveCompose(tree, groupFile);
    report := CompareServices(members, group, deployed.Keys, ownHosts, Present(repos, ownHosts));
  }

  // ── the findings before pairing ──

  lemma {:induction false} MissingFindingsAre(names: seq<string>, owned: map<string, string>, declared: set<string>)
    requires forall i :: 0 <= i < |names| ==> names[i] in owned
    requires Distinct(names)
    ensures Distinct(MissingFindings(names, owned, declared))
    ensures forall f :: f in MissingFindings(names, owned, declared) <==>
              f.Missing? && f.service in names && f.service !in declared && f.repo == owned[f.service]
    decreases |names|
  {
    if names != [] {
      var init, last := names[..|names| - 1], names[|names| - 1];
      MissingFindingsAre(init, owned, declared);
      Snoc(names);
    }
  }

  /** A missing finding is an always-on repo service that the group does not declare always on. */
  lemma MissingOfAre(members: map<string, Gating>, group: Gating)
    ensures Distinct(MissingOf(members, group))
    ensures forall f :: f in MissingOf(members, group) <==>
              f.Missing? && f.service in RepoServices(members) && f.service !in AlwaysOn(group)
                && f.repo == RepoServices(members)[f.service]
  {
    var owned := RepoServices(members);
    MissingFindingsAre(Sorted(owned.Keys), owned, AlwaysOn(group));
    RepoServicesKeys(members);
  }

  lemma FindingsDistinct(members: map<string, Gating>, group: Gating)
    ensures Distinct(MissingOf(members, group) + ExtraFindings(Sorted(ExtrasOf(members, group))))
  {
    MissingOfAre(members, group);
    var extras := Sorted(ExtrasOf(members, group));
    forall i, j | 0 <= i < j < |ExtraFindings(extras)| ensures ExtraFindings(extras)[i] != ExtraFindings(extras)[j] {
      assert extras[i] != extras[j];
    }
  }

  // ── what the report guarantees ──

  /** Every finding is paired, set aside or reported, and only one of these. */
  lemma FindingsPartitioned(members: map<string, Gating>, group: Gating, deployed: set<string>,
                            ownHosts: set<string>, present: set<string>, f: Finding)
    requires !f.OwnHost?
    requires f in MissingOf(members, group) || (f.Extra? && f.service in ExtrasOf(members, group))
    ensures var report := ReportOn(members, group, deployed, ownHosts, present);
            var paired := f in PairedFindings(report.renamed);
            var aside := f.Extra? && f.service in report.groupOwned;
            var reported := f in report.findings;
            && (paired || aside || reported) && !(paired && aside) && !(paired && reported) && !(aside && reported)
  {
    var report := ReportOn(members, group, deployed, ownHosts, present);
    var extras := Sorted(ExtrasOf(members, group));
    var all := MissingOf(members, group) + ExtraFindings(extras);
    assert f in all by {
      if f.Extra? && f !in MissingOf(members, group) {
        var k :| 0 <= k < |extras| && extras[k] == f.service;
        assert ExtraFindings(extras)[k] == f;
      }
    }
    var left := Unpaired(members, group);
    WithoutIs(all, PairedFindings(PairsOf(members, group)), f);
    WithoutIs(left, SetAside(members, left), f);
    OwnHostKind(Sorted(ownHosts), deployed);
    assert f.Extra? ==> (f.service in report.groupOwned <==> f in SetAside(members, left));
  }

  lemma {:induction false} OwnHostKind(repos: seq<string>, deployed: set<string>)
    ensures forall f :: f in OwnHostFindings(repos, deployed) <==> f.OwnHost? && f.repo in repos && f.repo in deployed
    decreases |repos|
  {
    if repos != [] {
      OwnHostKind(repos[..|repos| - 1], deployed);
      Snoc(repos);
    }
  }

  /** Everything the report still lists is a violation: nothing it prints is let through. */
  lemma ReportedAreViolations(members: map<string, Gating>, group: Gating, deployed: set<string>,
                              ownHosts: set<string>, present: set<string>)
    ensures forall f :: f in ReportOn(members, group, deployed, ownHosts, present).findings ==> IsViolation(f)
  {
    var left := Unpaired(members, group);
    forall f | f in ReportOn(members, group, deployed, ownHosts, present).findings ensures IsViolation(f) {
      WithoutIs(left, SetAside(members, left), f);
      OwnHostKind(Sorted(ownHosts), deployed);
    }
  }

  /** The renames reported are a maximal matching, at least half the size of any other. */
  lemma RenamesAreMaximal(members: map<string, Gating>, group: Gating, other: seq<Pair>)
    ensures var extras := set n | n in ExtrasOf(members, group) && !IsGroupOwned(n);
            && IsMatching(PairsOf(members, group), MissingOf(members, group), extras)
            && IsMaximal(PairsOf(members, group), MissingOf(members, group), extras)
            && (IsMatching(other, MissingOf(members, group), extras) ==> |other| <= 2 * |PairsOf(members, group)|)
  {
    var extras := set n | n in ExtrasOf(members, group) && !IsGroupOwned(n);
    MissingOfAre(members, group);
    MissingFindingsKind(Sorted(RepoServices(members).Keys), RepoServices(members), AlwaysOn(group));
    PairingIsMatching(MissingOf(members, group), extras);
    PairingIsMaximal(MissingOf(members, group), extras);
    if IsMatching(other, MissingOf(members, group), extras) {
      MaximalIsHalf(PairsOf(members, group), other, MissingOf(members, group), extras);
    }
  }

  /** `n` was paired, and `name` is what it was paired with. */
  ghost predicate IsNamedBy(pairs: seq<Pair>, n: string, name: string) {
    exists i :: 0 <= i < |pairs| && pairs[i].missing.Missing? && pairs[i].missing.service == n && pairs[i].extra == name
  }

  lemma PairedName(pairs: seq<Pair>, missing: seq<Finding>, extras: set<string>, f: Finding) returns (name: string)
    requires IsMatching(pairs, missing, extras) && f in PairedMissing(pairs)
    ensures f.Missing? && IsNamedBy(pairs, f.service, name) && name in extras && LooksRenamed(f.service, name)
  {
    var i :| 0 <= i < |pairs| && pairs[i].missing == f;
    name := pairs[i].extra;
    assert LooksRenamed(pairs[i].missing.service, pairs[i].extra);
  }

  lemma Paired(members: map<string, Gating>, group: Gating, deployed: set<string>,
               ownHosts: set<string>, present: set<string>, n: string) returns (name: string)
    requires forall f :: f in ReportOn(members, group, deployed, ownHosts, present).findings ==> !f.Missing?
    requires n in RepoNames(members) && n !in AlwaysOn(group)
    ensures IsNamedBy(PairsOf(members, group), n, name)
    ensures name in AlwaysOn(group) && name !in RepoNames(members) && LooksRenamed(n, name)
  {
    RepoServicesKeys(members);
    MissingOfAre(members, group);
    var f := Missing(n, RepoServices(members)[n]);
    FindingsPartitioned(members, group, deployed, ownHosts, present, f);
    RenamesAreMaximal(members, group, []);
    var extras := set e | e in ExtrasOf(members, group) && !IsGroupOwned(e);
    name := PairedName(PairsOf(members, group), MissingOf(members, group), extras, f);
  }

  lemma NamesDiffer(pairs: seq<Pair>, missing: seq<Finding>, extras: set<string>, a: string, b: string,
                    nameA: string, nameB: string)
    requires IsMatching(pairs, missing, extras) && IsNamedBy(pairs, a, nameA) && IsNamedBy(pairs, b, nameB) && a != b
    ensures nameA != nameB
  {
    var i :| 0 <= i < |pairs| && pairs[i].missing.Missing? && pairs[i].missing.service == a && pairs[i].extra == nameA;
    var j :| 0 <= j < |pairs| && pairs[j].missing.Missing? && pairs[j].missing.service == b && pairs[j].extra == nameB;
    if i < j {
      assert pairs[i].extra != pairs[j].extra;
    } else {
      assert pairs[j].extra != pairs[i].extra;
    }
  }

  /** One service's name in the group: its own, or the one it was paired with. */
  ghost predicate Covers(members: map<string, Gating>, group: Gating, n: string, name: string) {
    && name in AlwaysOn(group)
    && (n in AlwaysOn(group) ==> name == n)
    && (n !in AlwaysOn(group) ==>
          IsNamedBy(PairsOf(members, group), n, name) && name !in RepoNames(members) && LooksRenamed(n, name))
  }

  lemma CoversDiffer(members: map<string, Gating>, group: Gating, a: string, b: string, nameA: string, nameB: string)
    requires Covers(members, group, a, nameA) && Covers(members, group, b, nameB)
    requires a in RepoNames(members) && b in RepoNames(members) && a != b
    ensures nameA != nameB
  {
    if a !in AlwaysOn(group) && b !in AlwaysOn(group) {
      RenamesAreMaximal(members, group, []);
      var extras := set e | e in ExtrasOf(members, group) && !IsGroupOwned(e);
      NamesDiffer(PairsOf(members, group), MissingOf(members, group), extras, a, b, nameA, nameB);
    }
  }

  /** With no missing finding, each always-on repo service has a declared name all its own. */
  lemma CleanMeansCovered(members: map<string, Gating>, group: Gating, deployed: set<string>,
                          ownHosts: set<string>, present: set<string>) returns (cover: map<string, string>)
    requires forall f :: f in ReportOn(members, group, deployed, ownHosts, present).findings ==> !f.Missing?
    ensures cover.Keys == RepoNames(members)
    ensures forall n :: n in cover ==> cover[n] in AlwaysOn(group) && (cover[n] == n || LooksRenamed(n, cover[n]))
    ensures forall a, b :: a in cover && b in cover && a != b ==> cover[a] != cover[b]
  {
    var names := RepoNames(members);
    forall n | n in names ensures exists name :: Covers(members, group, n, name) {
      if n in AlwaysOn(group) {
        assert Covers(members, group, n, n);
      } else {
        var name := Paired(members, group, deployed, ownHosts, present, n);
        assert Covers(members, group, n, name);
      }
    }
    cover := map n | n in names :: var name :| Covers(members, group, n, name); name;
    assert forall n :: n in cover ==> Covers(members, group, n, cover[n]);
    forall a, b | a in cover && b in cover && a != b ensures cover[a] != cover[b] {
      CoversDiffer(members, group, a, b, cover[a], cover[b]);
    }
  }
}
