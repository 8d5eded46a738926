/** What the report on a group finds, said of the files themselves: the repos' compose files, the group's, and
    the headers that say which of the one are deployed by the other. */
module Coverage {
  import opened Basics
  import opened Names
  import opened ComposeText
  import opened IncludeGraph
  import opened SourcesHeader
  import opened Drift
  import opened DriftReport
  import opened Compare
  import Paths

  /** A group file with all it may include, the directories beside it, and the repos with a host of their own. */
  datatype Place = Place(tree: Tree, groupFile: Paths.Path, repos: map<string, Directory>, ownHosts: set<string>)

  function ReportAt(p: Place): Report {
    Verdict(p.tree, p.groupFile, p.repos, p.ownHosts)
  }

  // ── what the files say ──

  ghost predicate EntryNames(entries: seq<(string, seq<string>)>, repo: string) {
    exists k :: 0 <= k < |entries| && entries[k].0 == repo
  }

  ghost predicate EntryLists(entries: seq<(string, seq<string>)>, repo: string, file: string) {
    exists k :: 0 <= k < |entries| && entries[k].0 == repo && file in entries[k].1
  }

  /** The group file, or one it includes, directly or not. */
  ghost predicate IsOfGroup(p: Place, path: Paths.Path) {
    Reachable(p.tree, p.groupFile, path) && path in p.tree
  }

  /** A header of the group's files has a line for the repo. */
  ghost predicate IsNamed(p: Place, repo: string) {
    exists path :: IsOfGroup(p, path) && EntryNames(HeaderEntries(p.tree[path].lines), repo)
  }

  ghost predicate IsListed(p: Place, repo: string, file: string) {
    exists path :: IsOfGroup(p, path) && EntryLists(HeaderEntries(p.tree[path].lines), repo, file)
  }

  /** A file the repo is held to: one a header lists for it, or any of them where no header lists one. */
  ghost predicate IsHeldTo(p: Place, repo: string, file: string) {
    && repo in p.repos && file in p.repos[repo]
    && (IsListed(p, repo, file) || forall f :: !IsListed(p, repo, f))
  }

  ghost predicate DeclaresIn(p: Place, repo: string, file: string, n: string) {
    IsHeldTo(p, repo, file) && n in Declared(p.repos[repo][file])
  }

  ghost predicate GatesInFile(p: Place, repo: string, file: string, n: string) {
    DeclaresIn(p, repo, file, n) && Declared(p.repos[repo][file])[n]
  }

  /** A repo of the group runs the service: a file it is held to declares it, and none of them gates it. */
  ghost predicate RepoRuns(p: Place, repo: string, n: string) {
    repo !in p.ownHosts && (exists f :: DeclaresIn(p, repo, f, n)) && forall f :: !GatesInFile(p, repo, f, n)
  }

  /** A repo of the group has the service to be opted into. */
  ghost predicate RepoOffers(p: Place, repo: string, n: string) {
    repo !in p.ownHosts && exists f :: GatesInFile(p, repo, f, n)
  }

  /** The group runs it: one of its files declares it, and none of them gates it. */
  ghost predicate GroupRuns(p: Place, n: string) {
    && (exists path :: IsOfGroup(p, path) && n in Declared(p.tree[path].lines))
    && forall path :: IsOfGroup(p, path) && n in Declared(p.tree[path].lines) ==> !Declared(p.tree[path].lines)[n]
  }

  // ── the tables the check builds ──

  function FilesOf(p: Place): seq<Paths.Path> {
    Preorder(p.tree, [p.groupFile], {})
  }

  function TableOf(p: Place): map<string, seq<string>> {
    Deployed(p.tree, FilesOf(p))
  }

  function MembersOf(p: Place): map<string, Gating> {
    Members(p.repos, TableOf(p), p.ownHosts)
  }

  function GroupOf(p: Place): Gating {
    Merged(p.tree, FilesOf(p))
  }

  lemma {:induction false} AddedSources(table: map<string, seq<string>>, sources: seq<(string, seq<string>)>,
                                        repo: string, file: string)
    ensures repo in AddSources(table, sources) <==> repo in table || EntryNames(sources, repo)
    ensures file in GetOr(AddSources(table, sources), repo, []) <==>
              file in GetOr(table, repo, []) || EntryLists(sources, repo, file)
    decreases |sources|
  {
    if sources != [] {
      var init, last := sources[..|sources| - 1], sources[|sources| - 1];
      AddedSources(table, init, repo, file);
      EntriesSnoc(init, last, repo, file);
      assert sources == init + [last];
    }
  }

  lemma EntriesSnoc(init: seq<(string, seq<string>)>, last: (string, seq<string>), repo: string, file: string)
    ensures EntryNames(init + [last], repo) <==> EntryNames(init, repo) || last.0 == repo
    ensures EntryLists(init + [last], repo, file) <==>
              EntryLists(init, repo, file) || (last.0 == repo && file in last.1)
  {
    var all := init + [last];
    assert all[|init|] == last;
    if EntryNames(init, repo) {
      var k :| 0 <= k < |init| && init[k].0 == repo;
      assert all[k].0 == repo;
    }
    if EntryLists(init, repo, file) {
      var k :| 0 <= k < |init| && init[k].0 == repo && file in init[k].1;
      assert all[k].0 == repo && file in all[k].1;
    }
  }

  ghost predicate SomeNames(tree: Tree, files: seq<Paths.Path>, repo: string) {
    exists path :: path in files && path in tree && EntryNames(HeaderEntries(tree[path].lines), repo)
  }

  ghost predicate SomeLists(tree: Tree, files: seq<Paths.Path>, repo: string, file: string) {
    exists path :: path in files && path in tree && EntryLists(HeaderEntries(tree[path].lines), repo, file)
  }

  lemma {:induction false} DeployedLists(tree: Tree, files: seq<Paths.Path>, repo: string, file: string)
    ensures repo in Deployed(tree, files) <==> SomeNames(tree, files, repo)
    ensures file in GetOr(Deployed(tree, files), repo, []) <==> SomeLists(tree, files, repo, file)
    decreases |files|
  {
    hide HeaderEntries, EntryNames, EntryLists, AddSources;
    if files != [] {
      var init, last := files[..|files| - 1], files[|files| - 1];
      DeployedLists(tree, init, repo, file);
      AddedSources(Deployed(tree, init), HeaderOf(tree, last), repo, file);
      NoEntries(repo, file);
      Snoc(files);
      assert forall path :: path in files <==> path in init || path == last;
    }
  }

  lemma NoEntries(repo: string, file: string)
    ensures !EntryNames([], repo) && !EntryLists([], repo, file)
  {
  }

  lemma TableIs(p: Place, repo: string, file: string)
    ensures repo in TableOf(p) <==> IsNamed(p, repo)
    ensures file in GetOr(TableOf(p), repo, []) <==> IsListed(p, repo, file)
  {
    PreorderReaches(p.tree, p.groupFile);
    DeployedLists(p.tree, FilesOf(p), repo, file);
    hide Preorder, HeaderEntries, EntryNames, EntryLists, Deployed, Reachable;
  }

  lemma ComparedIs(p: Place, repo: string)
    requires repo in p.repos
    ensures forall f :: f in Compared(p.repos[repo], GetOr(TableOf(p), repo, [])) <==> IsHeldTo(p, repo, f)
  {
    hide TableOf, IsListed;
    var wanted := GetOr(TableOf(p), repo, []);
    forall f ensures f in wanted <==> IsListed(p, repo, f) {
      TableIs(p, repo, f);
    }
    if wanted != [] {
      assert wanted[0] in wanted;
    }
  }

  /** The names of the files, against the files themselves. */
  lemma ByName(p: Place, repo: string, names: seq<string>, n: string)
    requires repo in p.repos && forall i :: 0 <= i < |names| ==> names[i] in p.repos[repo]
    requires forall f :: f in names <==> IsHeldTo(p, repo, f)
    ensures (exists i :: 0 <= i < |names| && n in Declared(p.repos[repo][names[i]]))
       <==> exists f :: DeclaresIn(p, repo, f, n)
    ensures (exists i :: 0 <= i < |names| && n in Declared(p.repos[repo][names[i]])
                && Declared(p.repos[repo][names[i]])[n])
       <==> exists f :: GatesInFile(p, repo, f, n)
  {
    hide IsListed;
    forall i | 0 <= i < |names| ensures IsHeldTo(p, repo, names[i]) {
      assert names[i] in names;
    }
    if i :| 0 <= i < |names| && n in Declared(p.repos[repo][names[i]]) {
      assert DeclaresIn(p, repo, names[i], n);
    }
    if f :| DeclaresIn(p, repo, f, n) {
      var i :| 0 <= i < |names| && names[i] == f;
      assert n in Declared(p.repos[repo][names[i]]);
    }
    if i :| 0 <= i < |names| && n in Declared(p.repos[repo][names[i]]) && Declared(p.repos[repo][names[i]])[n] {
      assert GatesInFile(p, repo, names[i], n);
    }
    if f :| GatesInFile(p, repo, f, n) {
      var i :| 0 <= i < |names| && names[i] == f;
      assert n in Declared(p.repos[repo][names[i]]) && Declared(p.repos[repo][names[i]])[n];
    }
  }

  lemma {:induction false} MembersAreRepos(repos: map<string, Directory>, deployed: map<string, seq<string>>,
                                           ownHosts: set<string>, names: seq<string>)
    requires forall i :: 0 <= i < |names| ==> names[i] in repos
    ensures forall r :: r in MembersAmong(repos, deployed, ownHosts, names) ==> r in repos
    decreases |names|
  {
    if names != [] {
      MembersAreRepos(repos, deployed, ownHosts, names[..|names| - 1]);
    }
  }

  /** What the check holds of one repo: declared where a file it is held to declares it, gated where one gates it. */
  lemma MemberIs(p: Place, repo: string, n: string)
    ensures repo in MembersOf(p) && n in MembersOf(p)[repo] <==>
              repo !in p.ownHosts && exists f :: DeclaresIn(p, repo, f, n)
    ensures repo in MembersOf(p) && n in MembersOf(p)[repo] ==>
              (MembersOf(p)[repo][n] <==> exists f :: GatesInFile(p, repo, f, n))
  {
    MembersAreRepos(p.repos, TableOf(p), p.ownHosts, Sorted(p.repos.Keys));
    if repo in p.repos {
      hide TableOf, IsListed;
      MembersAmongAre(p.repos, TableOf(p), p.ownHosts, Sorted(p.repos.Keys), repo);
      ComparedIs(p, repo);
      var compared := Compared(p.repos[repo], GetOr(TableOf(p), repo, []));
      var names := Sorted(compared);
      UnionOfIs(p.repos[repo], names, n);
      ByName(p, repo, names, n);
      if compared == {} {
        assert forall f :: !DeclaresIn(p, repo, f, n);
      }
      hide UnionOf, MembersAmong, Sorted, Compared, IsHeldTo;
    }
  }

  lemma MembersRun(p: Place, n: string)
    ensures forall r :: r in Declarers(MembersOf(p), n) <==> RepoRuns(p, r, n)
    ensures n in RepoNames(MembersOf(p)) <==> exists r :: RepoRuns(p, r, n)
    ensures n in AllOptIn(MembersOf(p)) <==> exists r :: RepoOffers(p, r, n)
  {
    hide MembersOf, DeclaresIn;
    var members := MembersOf(p);
    forall r
      ensures r in Declarers(members, n) <==> RepoRuns(p, r, n)
      ensures r in members && n in OptIn(members[r]) <==> RepoOffers(p, r, n)
    {
      MemberIs(p, r, n);
      GatesDeclareIn(p, r, n);
      hide GatesInFile;
    }
    assert n in RepoNames(members) <==> exists r :: r in Declarers(members, n);
    hide RepoRuns, RepoOffers, GatesInFile;
  }

  lemma GatesDeclareIn(p: Place, repo: string, n: string)
    ensures (exists f :: GatesInFile(p, repo, f, n)) ==> exists f :: DeclaresIn(p, repo, f, n)
  {
    if f :| GatesInFile(p, repo, f, n) {
      assert DeclaresIn(p, repo, f, n);
    }
  }

  lemma {:induction false} MergedIs(tree: Tree, files: seq<Paths.Path>, n: string)
    ensures n in Merged(tree, files) <==> SomeDeclares(tree, files, n)
    ensures n in Merged(tree, files) ==> (Merged(tree, files)[n] <==> SomeGates(tree, files, n))
    decreases |files|
  {
    if files != [] {
      MergedIs(tree, files[..|files| - 1], n);
      TakeAll(files);
      OneMore(tree, files, |files| - 1, n);
      GatesDeclare(tree, files, n);
    }
  }

  lemma GroupIs(p: Place, n: string)
    ensures n in AlwaysOn(GroupOf(p)) <==> GroupRuns(p, n)
  {
    var files := FilesOf(p);
    PreorderReaches(p.tree, p.groupFile);
    MergedIs(p.tree, files, n);
    hide Preorder, Reachable, Merged;
    if SomeDeclares(p.tree, files, n) {
      var i :| 0 <= i < |files| && Declares(p.tree, files[i], n);
      assert IsOfGroup(p, files[i]) && n in Declared(p.tree[files[i]].lines);
    }
    forall path | IsOfGroup(p, path) && n in Declared(p.tree[path].lines)
      ensures SomeDeclares(p.tree, files, n) && (Declared(p.tree[path].lines)[n] ==> SomeGates(p.tree, files, n))
    {
      var i :| 0 <= i < |files| && files[i] == path;
      assert Declares(p.tree, files[i], n);
      assert Declared(p.tree[path].lines)[n] ==> GatesIn(p.tree, files[i], n);
    }
    if SomeGates(p.tree, files, n) {
      var i :| 0 <= i < |files| && GatesIn(p.tree, files[i], n);
      assert IsOfGroup(p, files[i]) && Declared(p.tree[files[i]].lines)[n];
    }
  }

  // ── what the report says ──

  ghost predicate IsPaired(r: Report, f: Finding) {
    exists i :: 0 <= i < |r.renamed| && r.renamed[i].missing == f
  }

  ghost predicate IsTaken(r: Report, n: string) {
    exists i :: 0 <= i < |r.renamed| && r.renamed[i].extra == n
  }

  lemma PairedIs(p: Place)
    ensures forall f :: f in PairedMissing(ReportAt(p).renamed) <==> IsPaired(ReportAt(p), f)
    ensures forall n :: n in PairedExtras(ReportAt(p).renamed) <==> IsTaken(ReportAt(p), n)
    ensures forall f :: f in PairedFindings(ReportAt(p).renamed) <==>
              (f in PairedMissing(ReportAt(p).renamed)
               || (f.Extra? && f.service in PairedExtras(ReportAt(p).renamed)))
  {
    hide Verdict;
  }

  /** A service some repo runs and the group does not is reported as missing or paired with a name the group
      gave it, never both, on account of the first repo in order that runs it; and nothing else is. */
  lemma MissingIff(p: Place, n: string, repo: string)
    ensures (Missing(n, repo) in ReportAt(p).findings || IsPaired(ReportAt(p), Missing(n, repo))) <==>
              !GroupRuns(p, n) && RepoRuns(p, repo, n) && forall r :: RepoRuns(p, r, n) ==> AtMost(repo, r)
    ensures !(Missing(n, repo) in ReportAt(p).findings && IsPaired(ReportAt(p), Missing(n, repo)))
  {
    var members, group, deployed, present := MembersOf(p), GroupOf(p), TableOf(p).Keys, Present(p.repos, p.ownHosts);
    var f := Missing(n, repo);
    MembersRun(p, n);
    GroupIs(p, n);
    MissingOfAre(members, group);
    RepoServicesKeys(members);
    PairedIs(p);
    RenamesAreMaximal(members, group, []);
    ReportedOnce(members, group, deployed, p.ownHosts, present, f);
    assert ReportAt(p) == ReportOn(members, group, deployed, p.ownHosts, present);
    hide ReportOn, MembersOf, GroupOf, TableOf, RepoRuns, GroupRuns, AtMost, PairsOf;
    if !GroupRuns(p, n) && RepoRuns(p, repo, n) && forall r :: RepoRuns(p, r, n) ==> AtMost(repo, r) {
      AtMostAntisymmetric(repo, Least(Declarers(members, n)));
    }
  }

  /** Only findings of the comparison are paired or reported, and none of them is both. */
  lemma ReportedOnce(members: map<string, Gating>, group: Gating, deployed: set<string>, ownHosts: set<string>,
                     present: set<string>, f: Finding)
    requires !f.OwnHost?
    ensures var report := ReportOn(members, group, deployed, ownHosts, present);
            var found := f in MissingOf(members, group) || (f.Extra? && f.service in ExtrasOf(members, group));
            var paired, aside := f in PairedFindings(report.renamed), f.Extra? && f.service in report.groupOwned;
            && (found <==> f in report.findings || paired || aside)
            && !(f in report.findings && paired) && !(f in report.findings && aside) && !(paired && aside)
  {
    var report := ReportOn(members, group, deployed, ownHosts, present);
    var extras, left := Sorted(ExtrasOf(members, group)), Unpaired(members, group);
    var all := MissingOf(members, group) + ExtraFindings(extras);
    OwnHostKind(Sorted(ownHosts), deployed);
    WithoutIs(all, PairedFindings(PairsOf(members, group)), f);
    WithoutIs(left, SetAside(members, left), f);
    InAll(members, group, f);
    PairedAreFound(members, group, f);
    AsideIs(members, left, f);
    hide Unpaired, SetAside, PairsOf, PairedFindings, MissingOf, ExtrasOf, Without, OwnHostFindings;
  }

  lemma InAll(members: map<string, Gating>, group: Gating, f: Finding)
    requires !f.OwnHost?
    ensures f in MissingOf(members, group) + ExtraFindings(Sorted(ExtrasOf(members, group))) <==>
              f in MissingOf(members, group) || (f.Extra? && f.service in ExtrasOf(members, group))
  {
    hide MissingOf;
    var extras := Sorted(ExtrasOf(members, group));
    if f.Extra? && f.service in extras {
      var k :| 0 <= k < |extras| && extras[k] == f.service;
      assert ExtraFindings(extras)[k] == f;
    }
  }

  lemma PairedAreFound(members: map<string, Gating>, group: Gating, f: Finding)
    ensures f in PairedFindings(PairsOf(members, group)) ==>
              f in MissingOf(members, group) || (f.Extra? && f.service in ExtrasOf(members, group))
  {
    RenamesAreMaximal(members, group, []);
    hide PairsOf, MissingOf, ExtrasOf;
  }

  lemma AsideIs(members: map<string, Gating>, left: seq<Finding>, f: Finding)
    ensures f in SetAside(members, left) ==> f.Extra? && f in left
    ensures f.Extra? ==>
              (f in SetAside(members, left) <==>
                 f.service in set g | g in SetAside(members, left) && g.Extra? :: g.service)
  {
  }

  /** A name the group is known to have of its own. */
  predicate IsKnownOwn(n: string) {
    n in {"watchtower", "oasis-mail", "subscribe-portal"} || "consul-reg-g" <= n || "tutor-" <= n
  }

  /** Or one a repo offers, under that name or one that it resembles. */
  ghost predicate IsExcused(p: Place, n: string) {
    IsKnownOwn(n) || exists r, m :: RepoOffers(p, r, m) && (m == n || Resembles(m, n))
  }

  lemma ExcusedIs(p: Place, n: string)
    ensures IsSetAside(AllOptIn(MembersOf(p)), Extra(n)) <==> IsExcused(p, n)
  {
    hide MembersOf, AllOptIn, LooksRenamed, Resembles, RepoOffers;
    var optIn := AllOptIn(MembersOf(p));
    forall m
      ensures m in optIn <==> exists r :: RepoOffers(p, r, m)
      ensures LooksRenamed(m, n) <==> Resembles(m, n)
    {
      MembersRun(p, m);
      LooksRenamedIff(m, n);
    }
  }

  lemma AsideAre(members: map<string, Gating>, group: Gating, deployed: set<string>, ownHosts: set<string>,
                 present: set<string>, n: string)
    ensures var report := ReportOn(members, group, deployed, ownHosts, present);
            n in report.groupOwned <==>
              n in ExtrasOf(members, group) && Extra(n) !in PairedFindings(report.renamed)
                && IsSetAside(AllOptIn(members), Extra(n))
  {
    var left := Unpaired(members, group);
    var all := MissingOf(members, group) + ExtraFindings(Sorted(ExtrasOf(members, group)));
    WithoutIs(all, PairedFindings(PairsOf(members, group)), Extra(n));
    InAll(members, group, Extra(n));
    MissingOfAre(members, group);
    AsideIs(members, left, Extra(n));
    hide MissingOf, ExtrasOf, PairsOf, PairedFindings, IsSetAside, Without;
  }

  /** A service the group runs and no repo does is reported, taken as some repo service's new name, or excused;
      only one of these, excused exactly when it is not taken and there is an excuse; and nothing else is. */
  lemma ExtraIff(p: Place, n: string)
    ensures var r := ReportAt(p);
            var found := GroupRuns(p, n) && forall repo :: !RepoRuns(p, repo, n);
            && (IsTaken(r, n) ==> found && !IsKnownOwn(n))
            && (n in r.groupOwned <==> found && !IsTaken(r, n) && IsExcused(p, n))
            && (Extra(n) in r.findings <==> found && !IsTaken(r, n) && !IsExcused(p, n))
  {
    var members, group, deployed, present := MembersOf(p), GroupOf(p), TableOf(p).Keys, Present(p.repos, p.ownHosts);
    MembersRun(p, n);
    GroupIs(p, n);
    RepoServicesKeys(members);
    MissingOfAre(members, group);
    PairedIs(p);
    ReportedOnce(members, group, deployed, p.ownHosts, present, Extra(n));
    AsideAre(members, group, deployed, p.ownHosts, present, n);
    ExcusedIs(p, n);
    TakenIsExtra(members, group, n);
    assert ReportAt(p) == ReportOn(members, group, deployed, p.ownHosts, present);
    hide ReportOn, MembersOf, GroupOf, TableOf, RepoRuns, GroupRuns, PairsOf, IsSetAside, IsExcused, PairedFindings,
         MissingOf, RepoServices, PairedExtras;
  }

  lemma TakenIsExtra(members: map<string, Gating>, group: Gating, n: string)
    ensures n in PairedExtras(PairsOf(members, group)) ==> n in ExtrasOf(members, group) && !IsKnownOwn(n)
  {
    RenamesAreMaximal(members, group, []);
    hide PairsOf, MissingOf, ExtrasOf;
  }

  /** A pair is a missing service and an extra name that resembles it, each in one pair only. */
  lemma PairsResemble(p: Place, i: nat)
    requires i < |ReportAt(p).renamed|
    ensures var pairs := ReportAt(p).renamed;
            && pairs[i].missing.Missing? && Resembles(pairs[i].missing.service, pairs[i].extra)
            && forall j :: 0 <= j < |pairs| && j != i ==>
                 pairs[j].missing != pairs[i].missing && pairs[j].extra != pairs[i].extra
  {
    RenamesAreMaximal(MembersOf(p), GroupOf(p), []);
    var pairs := ReportAt(p).renamed;
    LooksRenamedIff(pairs[i].missing.service, pairs[i].extra);
    hide PairsOf, MissingOf, ExtrasOf, MembersOf, GroupOf, LooksRenamed, Resembles;
  }

  /** An extra the group is not known for that no pair took. */
  ghost predicate IsLeft(p: Place, e: string) {
    Extra(e) in ReportAt(p).findings || (e in ReportAt(p).groupOwned && !IsKnownOwn(e))
  }

  lemma LeftIs(p: Place, e: string)
    requires IsLeft(p, e)
    ensures e in ExtrasOf(MembersOf(p), GroupOf(p)) && !IsGroupOwned(e)
    ensures e !in PairedExtras(PairsOf(MembersOf(p), GroupOf(p)))
  {
    LeftIsFound(p, e);
    MembersRun(p, e);
    GroupIs(p, e);
    RepoServicesKeys(MembersOf(p));
    hide Verdict, MembersOf, GroupOf, TableOf, RepoRuns, GroupRuns, PairsOf, PairedExtras;
    assert !IsKnownOwn(e);
  }

  lemma LeftIsFound(p: Place, e: string)
    requires IsLeft(p, e)
    ensures GroupRuns(p, e) && (forall repo :: !RepoRuns(p, repo, e)) && !IsKnownOwn(e)
    ensures e !in PairedExtras(PairsOf(MembersOf(p), GroupOf(p)))
  {
    ExtraIff(p, e);
    PairedIs(p);
    assert ReportAt(p).renamed == PairsOf(MembersOf(p), GroupOf(p));
    hide Verdict, ReportOn, MembersOf, GroupOf, RepoRuns, GroupRuns, PairsOf, PairedExtras, IsTaken;
  }

  lemma MissingIsLeft(p: Place, n: string, repo: string)
    requires Missing(n, repo) in ReportAt(p).findings
    ensures Missing(n, repo) in MissingOf(MembersOf(p), GroupOf(p))
    ensures Missing(n, repo) !in PairedMissing(PairsOf(MembersOf(p), GroupOf(p)))
  {
    var members, group, deployed, present := MembersOf(p), GroupOf(p), TableOf(p).Keys, Present(p.repos, p.ownHosts);
    ReportedOnce(members, group, deployed, p.ownHosts, present, Missing(n, repo));
    assert ReportAt(p) == ReportOn(members, group, deployed, p.ownHosts, present);
    assert ReportAt(p).renamed == PairsOf(members, group);
    hide ReportOn, MembersOf, GroupOf, TableOf, MissingOf, PairsOf, PairedMissing;
  }

  lemma LeftApart(members: map<string, Gating>, group: Gating, m: Finding, e: string)
    requires m in MissingOf(members, group) && m.Missing? && m !in PairedMissing(PairsOf(members, group))
    requires e in ExtrasOf(members, group) && !IsGroupOwned(e) && e !in PairedExtras(PairsOf(members, group))
    ensures !LooksRenamed(m.service, e)
  {
    RenamesAreMaximal(members, group, []);
    hide MissingOf, ExtrasOf, PairsOf, PairedMissing, PairedExtras, LooksRenamed, IsGroupOwned, IsMatching;
    var extras := set n | n in ExtrasOf(members, group) && !IsGroupOwned(n);
    assert e in extras - PairedExtras(PairsOf(members, group));
  }

  /** No missing service is reported beside a name left over that resembles it. */
  lemma NothingLeftResembles(p: Place, n: string, repo: string, e: string)
    requires Missing(n, repo) in ReportAt(p).findings && IsLeft(p, e)
    ensures !Resembles(n, e)
  {
    hide *;
    LeftIs(p, e);
    MissingIsLeft(p, n, repo);
    LeftApart(MembersOf(p), GroupOf(p), Missing(n, repo), e);
    LooksRenamedIff(n, e);
  }

  /** A service is paired with a name that starts with its repo's, if any left over does, and of two that do, or
      two that do not, with the later one in order. */
  lemma RepoNameWins(p: Place, i: nat, e: string)
    requires i < |ReportAt(p).renamed| && IsLeft(p, e)
    requires Resembles(ReportAt(p).renamed[i].missing.service, e)
    ensures var pair := ReportAt(p).renamed[i];
            pair.missing.Missing? &&
            if pair.missing.repo + "-" <= e then pair.missing.repo + "-" <= pair.extra && AtMost(e, pair.extra)
            else pair.missing.repo + "-" <= pair.extra || AtMost(e, pair.extra)
  {
    PairsResemble(p, i);
    LeftIs(p, e);
    var members, group := MembersOf(p), GroupOf(p);
    LooksRenamedIff(ReportAt(p).renamed[i].missing.service, e);
    MissingFindingsKind(Sorted(RepoServices(members).Keys), RepoServices(members), AlwaysOn(group));
    var extras := set n | n in ExtrasOf(members, group) && !IsGroupOwned(n);
    PairingPrefersScore(MissingOf(members, group), extras, i, e);
    hide MembersOf, GroupOf, LooksRenamed, Resembles, ExtrasOf, MissingOf, IsGroupOwned, PairUp;
  }

  // ── the exemptions ──

  lemma {:induction false} StaleAre(repos: seq<string>, deployed: set<string>, present: set<string>)
    ensures forall r :: r in StaleEntries(repos, deployed, present) <==>
              r in repos && r !in deployed && r !in present
    decreases |repos|
  {
    if repos != [] {
      StaleAre(repos[..|repos| - 1], deployed, present);
      Snoc(repos);
    }
  }

  /** A repo said to have a host of its own is a finding when a header names it after all, and only a warning
      when it is not there either. */
  lemma OwnHostIff(p: Place, repo: string)
    ensures OwnHost(repo) in ReportAt(p).findings <==> repo in p.ownHosts && IsNamed(p, repo)
    ensures repo in ReportAt(p).stale <==>
              repo in p.ownHosts && !IsNamed(p, repo) && !(repo in p.repos && p.repos[repo] != map[])
  {
    TableIs(p, repo, "");
    var entries, deployed, present := Sorted(p.ownHosts), TableOf(p).Keys, Present(p.repos, p.ownHosts);
    OwnHostKind(entries, deployed);
    StaleAre(entries, deployed, present);
    NoOwnHosts(MembersOf(p), GroupOf(p), OwnHost(repo));
    hide Unpaired, SetAside, MembersOf, GroupOf, TableOf, IsNamed, Without, OwnHostFindings, StaleEntries, Sorted;
  }

  lemma NoOwnHosts(members: map<string, Gating>, group: Gating, f: Finding)
    requires f.OwnHost?
    ensures var left := Unpaired(members, group); f !in Without(left, SetAside(members, left))
  {
    var left := Unpaired(members, group);
    var all := MissingOf(members, group) + ExtraFindings(Sorted(ExtrasOf(members, group)));
    WithoutIs(left, SetAside(members, left), f);
    WithoutIs(all, PairedFindings(PairsOf(members, group)), f);
    MissingOfAre(members, group);
    hide MissingOf, ExtrasOf, PairsOf;
  }
}
