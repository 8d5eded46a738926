/** The generator and the drift checker on the same estate: what each reads there, and what the file written
    by the one declares to the other. */
module Agreement {
  import opened Basics
  import opened Dicts
  import opened Names
  import opened ComposeText
  import opened Rendering
  import opened OverrideMerge
  import opened MergeLaws
  import opened MergeLimits
  import opened Relocation
  import opened Emission
  import opened Naming
  import opened Generation
  import opened Sources
  import opened RepoFiles
  import opened IncludeGraph
  import opened SourcesHeader
  import opened Drift
  import opened DriftReport
  import opened Compare
  import Paths

  // ── the checker's member and the generator's ──

  ghost predicate IsAmong(directory: Directory, wanted: seq<string>, file: seq<Line>) {
    exists f :: f in Compared(directory, wanted) && directory[f] == file
  }

  /** The files of a source, as the directory has them: the ones listed that exist. */
  ghost predicate SameFiles(files: seq<seq<Line>>, directory: Directory, wanted: seq<string>) {
    && wanted != []
    && (forall k :: 0 <= k < |files| ==> IsAmong(directory, wanted, files[k]))
    && (forall f :: f in Compared(directory, wanted) ==> directory[f] in files)
  }

  lemma FileOf(files: seq<seq<Line>>, directory: Directory, wanted: seq<string>, f: string, n: string)
    requires SameFiles(files, directory, wanted)
    requires forall k :: 0 <= k < |files| ==> IsComposeFile(files[k])
    requires f in Compared(directory, wanted) && n in Declared(directory[f])
    ensures InFile(files, n) && !IsExtension(n)
    ensures Declared(directory[f])[n] ==> GatedInFile(files, n)
  {
    assert directory[f] in files;
    var k :| 0 <= k < |files| && files[k] == directory[f];
    DeclaredIsGates(files[k]);
    assert Has(Services(files[k]), n);
  }

  /** A file of the source, found in the checker's list of names to compare. */
  lemma NameOfFile(files: seq<seq<Line>>, directory: Directory, wanted: seq<string>, k: nat) returns (i: nat)
    requires SameFiles(files, directory, wanted) && k < |files|
    ensures var names := Sorted(Compared(directory, wanted)); i < |names| && directory[names[i]] == files[k]
  {
    var names := Sorted(Compared(directory, wanted));
    assert IsAmong(directory, wanted, files[k]);
    var f :| f in Compared(directory, wanted) && directory[f] == files[k];
    i :| 0 <= i < |names| && names[i] == f;
  }

  /** The checker's view of a repo: a service is declared when a file has it. */
  lemma ViewDeclares(files: seq<seq<Line>>, directory: Directory, wanted: seq<string>, n: string)
    requires SameFiles(files, directory, wanted)
    requires forall k :: 0 <= k < |files| ==> IsComposeFile(files[k])
    ensures n in RepoView(directory, wanted) <==> InFile(files, n) && !IsExtension(n)
  {
    var names := Sorted(Compared(directory, wanted));
    UnionOfIs(directory, names, n);
    if n in RepoView(directory, wanted) {
      var i :| 0 <= i < |names| && n in Declared(directory[names[i]]);
      FileOf(files, directory, wanted, names[i], n);
    }
    if InFile(files, n) && !IsExtension(n) {
      var k :| 0 <= k < |files| && Has(Services(files[k]), n);
      DeclaredIsGates(files[k]);
      var i := NameOfFile(files, directory, wanted, k);
      assert n in Declared(directory[names[i]]);
    }
  }

  /** The checker's view of a repo: a service is opt-in when a file gates it. */
  lemma ViewGates(files: seq<seq<Line>>, directory: Directory, wanted: seq<string>, n: string)
    requires SameFiles(files, directory, wanted)
    requires forall k :: 0 <= k < |files| ==> IsComposeFile(files[k])
    requires n in RepoView(directory, wanted)
    ensures RepoView(directory, wanted)[n] <==> GatedInFile(files, n)
  {
    var names := Sorted(Compared(directory, wanted));
    UnionOfIs(directory, names, n);
    ViewDeclares(files, directory, wanted, n);
    if RepoView(directory, wanted)[n] {
      var i :| 0 <= i < |names| && n in Declared(directory[names[i]]) && Declared(directory[names[i]])[n];
      FileOf(files, directory, wanted, names[i], n);
    }
    if GatedInFile(files, n) {
      var k :| 0 <= k < |files| && Has(Services(files[k]), n) && Gated(Get(Services(files[k]), n));
      DeclaredIsGates(files[k]);
      var i := NameOfFile(files, directory, wanted, k);
      assert n in Declared(directory[names[i]]) && Declared(directory[names[i]])[n];
    }
  }

  /** On a service of several files the generator and the checker agree about the gate exactly when the
      first file with a `profiles:` gates it or no later one does. */
  lemma GateAgreesIff(files: seq<seq<Line>>, directory: Directory, wanted: seq<string>, n: string)
    requires SameFiles(files, directory, wanted)
    requires forall k :: 0 <= k < |files| ==> IsComposeFile(files[k])
    requires n in RepoView(directory, wanted) && AreRegular(files, n)
    ensures Has(MergeFiles(files), n)
    ensures Gated(Get(MergeFiles(files), n)) == RepoView(directory, wanted)[n] <==> FirstDecides(files, n)
  {
    ViewDeclares(files, directory, wanted, n);
    ViewGates(files, directory, wanted, n);
    MergedFilesFrom(files, n);
    MergedGateIsOrIff(files, n);
  }

  // ── a comparison that finds nothing ──

  /** What it takes for a report to be empty: every always-on repo service is declared always on, every
      other name is one the checker sets aside, and no exemption is false. */
  lemma NothingToReport(members: map<string, Gating>, group: Gating, deployed: set<string>,
                        ownHosts: set<string>, present: set<string>)
    requires RepoNames(members) <= AlwaysOn(group)
    requires forall n :: n in AlwaysOn(group) - RepoNames(members) ==> IsSetAside(AllOptIn(members), Extra(n))
    requires ownHosts !! deployed
    ensures ReportOn(members, group, deployed, ownHosts, present).findings == []
  {
    var report := ReportOn(members, group, deployed, ownHosts, present);
    MissingOfAre(members, group);
    RepoServicesKeys(members);
    OwnHostKind(Sorted(ownHosts), deployed);
    var left := Unpaired(members, group);
    var extras := Sorted(ExtrasOf(members, group));
    ExtraFindingsAre(extras);
    forall f ensures f !in report.findings {
      WithoutIs(left, SetAside(members, left), f);
      WithoutIs(MissingOf(members, group) + ExtraFindings(extras), PairedFindings(PairsOf(members, group)), f);
    }
    SomeOrNone(report.findings);
  }

  lemma SomeOrNone(findings: seq<Finding>)
    ensures findings == [] || exists f :: f in findings
  {
    if findings != [] {
      assert findings[0] in findings;
    }
  }

  lemma ExtraFindingsAre(names: seq<string>)
    ensures forall f: Finding :: f in ExtraFindings(names) <==> f.Extra? && f.service in names
  {
    forall f: Finding | f.Extra? && f.service in names ensures f in ExtraFindings(names) {
      var k :| 0 <= k < |names| && names[k] == f.service;
      assert ExtraFindings(names)[k] == f;
    }
  }

  // ── the estate ──

  /** One group of an estate: its SOURCES entry with the files found, the directories of its repos,
      its own services, its pins, and the repos that have a host of their own. */
  datatype Estate = Estate(id: string, sources: seq<Source>, wanted: map<string, seq<string>>,
                           repos: map<string, Directory>, extras: seq<Line>, dedupe: map<string, string>,
                           ownHosts: set<string>)

  function TheGroup(e: Estate): Group {
    GroupOf(e.id, e.sources, e.extras, e.dedupe)
  }

  /** A source is in the table and in the estate, with the compose files found for it. */
  ghost predicate IsFound(e: Estate, s: Source) {
    && s.repo in e.repos && s.repo in e.wanted
    && SameFiles(s.files, e.repos[s.repo], e.wanted[s.repo])
    && forall j :: 0 <= j < |s.files| ==> IsComposeFile(s.files[j])
  }

  /** The tables agree with the directories: every repo with compose files is deployed or exempted,
      every source lists files, and the files found are the ones listed that exist. */
  ghost predicate IsKept(e: Estate) {
    && DistinctRepos(e.sources)
    && (forall k :: 0 <= k < |e.sources| ==> IsFound(e, e.sources[k]))
    && (forall r :: r in e.wanted <==> exists k :: 0 <= k < |e.sources| && e.sources[k].repo == r)
    && (forall r :: r in e.repos && r !in e.wanted ==> r in e.ownHosts || e.repos[r] == map[])
    && e.ownHosts !! e.wanted.Keys
  }

  ghost predicate IsSource(e: Estate, k: nat, i: nat) {
    k < |e.sources| && i < |TheGroup(e).members| && ComesFrom(TheGroup(e).members[i], e.sources[k])
  }

  lemma SourceOf(e: Estate, i: nat) returns (k: nat)
    requires IsKept(e) && i < |TheGroup(e).members|
    ensures IsSource(e, k, i)
  {
    MembersAre(e.sources);
    assert HasSource(e.sources, TheGroup(e).members[i]);
    k :| 0 <= k < |e.sources| && ComesFrom(TheGroup(e).members[i], e.sources[k]);
  }

  // ── what the generated file declares ──

  lemma FileBodyStays(lines: seq<Line>, n: string)
    requires IsComposeFile(lines) && Has(Services(lines), n)
    ensures forall l :: l in Get(Services(lines), n) ==> StaysInBody(l)
    ensures IsChildKey(Line.Entry(2, n, Nothing))
  {
    var services := Services(lines);
    var at := Find(services, n);
    assert services[at].key == n;
    forall l | l in Get(services, n) ensures StaysInBody(l) {
      var j :| 0 <= j < |services[at].value| && services[at].value[j] == l;
    }
  }

  /** Merged bodies stay bodies: each of their lines is a line of a service in some file. */
  lemma MergedStays(e: Estate, i: nat, n: string)
    requires IsKept(e) && i < |TheGroup(e).members| && Claims(TheGroup(e), i, n)
    ensures var body := Get(TheGroup(e).members[i].services, n);
            forall j :: 0 <= j < |body| ==> StaysInBody(body[j])
    ensures IsChildKey(Line.Entry(2, n, Nothing))
  {
    var files := FilesOf(e, i);
    FilesStay(files, n);
  }

  lemma FilesOf(e: Estate, i: nat) returns (files: seq<seq<Line>>)
    requires IsKept(e) && i < |TheGroup(e).members|
    ensures TheGroup(e).members[i].services == MergeFiles(files)
    ensures forall j :: 0 <= j < |files| ==> IsComposeFile(files[j])
  {
    var k := SourceOf(e, i);
    assert IsFound(e, e.sources[k]);
    files := e.sources[k].files;
  }

  lemma FilesStay(files: seq<seq<Line>>, n: string)
    requires forall j :: 0 <= j < |files| ==> IsComposeFile(files[j])
    requires Has(MergeFiles(files), n)
    ensures var body := Get(MergeFiles(files), n); forall j :: 0 <= j < |body| ==> StaysInBody(body[j])
    ensures IsChildKey(Line.Entry(2, n, Nothing))
  {
    var body := Get(MergeFiles(files), n);
    MergedFilesFrom(files, n);
    forall j | 0 <= j < |body| ensures StaysInBody(body[j]) {
      assert LineInFile(files, n, body[j]);
      var f :| 0 <= f < |files| && Has(Services(files[f]), n) && body[j] in Get(Services(files[f]), n);
      FileBodyStays(files[f], n);
    }
    var f :| 0 <= f < |files| && Has(Services(files[f]), n);
    FileBodyStays(files[f], n);
  }

  lemma BlankEnds(body: Body)
    ensures Gated(body + [Blank]) == Gated(body)
    ensures (forall j :: 0 <= j < |body| ==> StaysInBody(body[j])) ==>
              forall j :: 0 <= j < |body + [Blank]| ==> StaysInBody((body + [Blank])[j])
  {
    assert (body + [Blank])[..|body|] == body;
  }

  /** Every emitted name is one that opens a service where it is written. */
  ghost predicate AreKeys(e: Estate) {
    forall c :: c in Kept(Candidates(TheGroup(e))) ==> IsChildKey(Line.Entry(2, c.name, Nothing))
  }

  lemma CandidateStays(e: Estate, c: Candidate)
    requires IsKept(e) && IsComposeFile(e.extras) && IsCandidate(TheGroup(e), c)
    ensures forall j :: 0 <= j < |c.body| ==> StaysInBody(c.body[j])
  {
    var g := TheGroup(e);
    match c.origin {
      case FromRepo(i, n) =>
        MergedStays(e, i, n);
        EmissionKeeps(Get(g.members[i].services, n), Renames(g, i), Rel(g.id, g.members[i].repo), n, NameOf(g, i, n));
      case FromExtras(n) =>
        FileBodyStays(e.extras, n);
        assert forall j :: 0 <= j < |c.body| ==> c.body[j] in c.body;
    }
  }

  lemma KeptAre(e: Estate)
    requires IsKept(e)
    ensures IsGroup(TheGroup(e))
    ensures forall c :: c in Kept(Candidates(TheGroup(e))) ==> IsCandidate(TheGroup(e), c)
  {
    GroupIsGroup(e.id, e.sources, e.extras, e.dedupe);
    CandidatesAre(TheGroup(e));
    KeptOrSkipped(Candidates(TheGroup(e)));
  }

  /** The emitted services are well formed, so the checker reads them as they were written. */
  lemma EmittedWellFormed(e: Estate)
    requires IsKept(e) && IsComposeFile(e.extras) && AreKeys(e)
    ensures WellFormed(EmittedServices(Kept(Candidates(TheGroup(e)))))
  {
    var kept := Kept(Candidates(TheGroup(e)));
    var services := EmittedServices(kept);
    EmittedNamesDistinct(TheGroup(e));
    KeptAre(e);
    forall i | 0 <= i < |services|
      ensures IsChildKey(Line.Entry(2, services[i].key, Nothing))
      ensures forall j :: 0 <= j < |services[i].value| ==> StaysInBody(services[i].value[j])
    {
      assert kept[i] in kept;
      CandidateStays(e, kept[i]);
      BlankEnds(kept[i].body);
    }
  }

  /** The generated file declares each emitted service under its name, with its own gate. */
  lemma EmittedIsDeclared(e: Estate, head: seq<Line>, tail: seq<Line>, c: Candidate)
    requires IsKept(e) && IsComposeFile(e.extras) && AreKeys(e) && WellFramed(head, [], tail)
    requires c in Kept(Candidates(TheGroup(e))) && !IsExtension(c.name)
    ensures var declared := Declared(GroupFile(TheGroup(e), head, tail));
            c.name in declared && declared[c.name] == Gated(c.body)
  {
    var kept := Kept(Candidates(TheGroup(e)));
    var services := EmittedServices(kept);
    EmittedWellFormed(e);
    ParseDocument(head, [], services, tail);
    GatesAre(services);
    var i :| 0 <= i < |kept| && kept[i] == c;
    assert services[i].key == c.name;
    GetAt(services, i);
    BlankEnds(c.body);
  }

  lemma GeneratedIsDeclared(e: Estate, head: seq<Line>, tail: seq<Line>, n: string) returns (c: Candidate)
    requires IsKept(e) && IsComposeFile(e.extras) && AreKeys(e) && WellFramed(head, [], tail)
    requires n in Declared(GroupFile(TheGroup(e), head, tail))
    ensures c in Kept(Candidates(TheGroup(e))) && IsCandidate(TheGroup(e), c) && c.name == n && !IsExtension(n)
    ensures Declared(GroupFile(TheGroup(e), head, tail))[n] == Gated(c.body)
  {
    var kept := Kept(Candidates(TheGroup(e)));
    var services := EmittedServices(kept);
    EmittedWellFormed(e);
    ParseDocument(head, [], services, tail);
    GatesAre(services);
    KeptAre(e);
    c := kept[Find(services, n)];
    assert services[Find(services, n)].key == n;
    assert c in kept;
    BlankEnds(c.body);
  }

  // ── agreement ──

  function CheckedMembers(e: Estate): map<string, Gating> {
    Members(e.repos, e.wanted, e.ownHosts)
  }

  /** A repo the checker compares is a source, and it sees exactly that source's files. */
  lemma ComparedIsSource(e: Estate, r: string) returns (k: nat)
    requires IsKept(e) && r in CheckedMembers(e)
    ensures k < |e.sources| && e.sources[k].repo == r && r in e.repos && r in e.wanted
    ensures CheckedMembers(e)[r] == RepoView(e.repos[r], e.wanted[r])
  {
    MembersKnown(e, r);
    MembersAmongAre(e.repos, e.wanted, e.ownHosts, Sorted(e.repos.Keys), r);
    assert r !in e.ownHosts;
    var nothing: Directory := map[];
    assert Compared(nothing, GetOr(e.wanted, r, [])) == {};
    assert r in e.wanted;
    k :| 0 <= k < |e.sources| && e.sources[k].repo == r;
  }

  lemma {:induction false} AmongInRepos(repos: map<string, Directory>, deployed: map<string, seq<string>>,
                                        ownHosts: set<string>, names: seq<string>, r: string)
    requires forall i :: 0 <= i < |names| ==> names[i] in repos
    requires r in MembersAmong(repos, deployed, ownHosts, names)
    ensures r in repos
    decreases |names|
  {
    if names != [] && r != names[|names| - 1] {
      AmongInRepos(repos, deployed, ownHosts, names[..|names| - 1], r);
    }
  }

  lemma MembersKnown(e: Estate, r: string)
    requires r in CheckedMembers(e)
    ensures r in e.repos
  {
    AmongInRepos(e.repos, e.wanted, e.ownHosts, Sorted(e.repos.Keys), r);
  }

  lemma SomethingToCompare(files: seq<seq<Line>>, directory: Directory, wanted: seq<string>)
    requires SameFiles(files, directory, wanted) && files != []
    ensures Compared(directory, wanted) != {}
  {
    assert IsAmong(directory, wanted, files[0]);
    var f :| f in Compared(directory, wanted) && directory[f] == files[0];
  }

  lemma CheckedMember(e: Estate, r: string)
    requires r in e.repos && r in e.wanted && r !in e.ownHosts && Compared(e.repos[r], e.wanted[r]) != {}
    ensures r in CheckedMembers(e) && CheckedMembers(e)[r] == RepoView(e.repos[r], e.wanted[r])
  {
    MembersAmongAre(e.repos, e.wanted, e.ownHosts, Sorted(e.repos.Keys), r);
  }

  lemma SourceIsCompared(e: Estate, k: nat)
    requires IsKept(e) && k < |e.sources| && MergeFiles(e.sources[k].files) != []
    ensures e.sources[k].repo in e.repos && e.sources[k].repo in e.wanted
    ensures var r := e.sources[k].repo;
            r in CheckedMembers(e) && CheckedMembers(e)[r] == RepoView(e.repos[r], e.wanted[r])
  {
    var s := e.sources[k];
    assert IsFound(e, s);
    SomethingToCompare(s.files, e.repos[s.repo], e.wanted[s.repo]);
    CheckedMember(e, s.repo);
  }

  /** An always-on service of the checker's view of a source, in the generator's: ungated too. */
  lemma UngatedInSource(e: Estate, k: nat, n: string)
    requires IsKept(e) && k < |e.sources|
    requires e.sources[k].repo in e.repos && e.sources[k].repo in e.wanted
    requires n in AlwaysOn(RepoView(e.repos[e.sources[k].repo], e.wanted[e.sources[k].repo]))
    ensures Has(MergeFiles(e.sources[k].files), n) && !Gated(Get(MergeFiles(e.sources[k].files), n))
    ensures !IsExtension(n)
  {
    var s := e.sources[k];
    assert IsFound(e, s);
    ViewDeclares(s.files, e.repos[s.repo], e.wanted[s.repo], n);
    ViewGates(s.files, e.repos[s.repo], e.wanted[s.repo], n);
    MergedFilesFrom(s.files, n);
    if Gated(Get(MergeFiles(s.files), n)) {
      MergedFilesGate(s.files, n);
    }
  }

  lemma MemberOfSource(e: Estate, k: nat) returns (i: nat)
    requires IsKept(e) && k < |e.sources| && MergeFiles(e.sources[k].files) != []
    ensures i < |TheGroup(e).members| && TheGroup(e).members[i].services == MergeFiles(e.sources[k].files)
    ensures TheGroup(e).members[i].repo == e.sources[k].repo
  {
    MembersAre(e.sources);
    assert HasMember(MembersOf(e.sources), e.sources[k]);
    i :| 0 <= i < |MembersOf(e.sources)| && ComesFrom(MembersOf(e.sources)[i], e.sources[k]);
  }

  // ── through the group's pointer file ──

  /** The group's own compose file is a pointer: it includes the generated file and declares nothing. */
  ghost predicate PointsAt(tree: Tree, pointer: Paths.Path, generated: Paths.Path) {
    && pointer in tree && generated in tree && pointer != generated
    && |tree[pointer].includes| == 1 && IsLiteral(tree[pointer].includes[0])
    && Target(pointer, tree[pointer].includes[0]) == generated
    && tree[generated].includes == []
    && HeaderEntries(tree[pointer].lines) == [] && Declared(tree[pointer].lines) == map[]
  }

  lemma PointerFollowed(tree: Tree, pointer: Paths.Path, generated: Paths.Path)
    requires PointsAt(tree, pointer, generated)
    ensures Preorder(tree, [pointer], {}) == [pointer, generated]
  {
    var refs := Includes(tree, pointer);
    assert refs[..0] == [] && Targets(tree, pointer, []) == [];
    assert Next(tree, pointer) == [generated];
    assert Next(tree, generated) == [];
    PreorderTop(tree, pointer, [], {});
    PreorderTop(tree, generated, [], {pointer});
    assert [pointer] + [] == [pointer] && [generated] + [] == [generated];
    assert {} + {pointer} == {pointer};
    assert Preorder(tree, [], {pointer} + {generated}) == [];
    assert [pointer] + ([generated] + []) == [pointer, generated];
  }

  lemma PointerMerged(tree: Tree, pointer: Paths.Path, generated: Paths.Path)
    requires PointsAt(tree, pointer, generated)
    ensures Merged(tree, [pointer, generated]) == Declared(tree[generated].lines)
    ensures Deployed(tree, [pointer, generated]) == AddSources(map[], HeaderEntries(tree[generated].lines))
  {
    assert [pointer, generated][..1] == [pointer] && [pointer][..0] == [];
    assert Merged(tree, [pointer]) == map[];
    assert Deployed(tree, [pointer]) == map[];
  }

  /** Through the pointer the check compares the estate's members with what the generated file declares. */
  lemma VerdictIs(e: Estate, tree: Tree, pointer: Paths.Path, generated: Paths.Path)
    requires PointsAt(tree, pointer, generated)
    requires AddSources(map[], HeaderEntries(tree[generated].lines)) == e.wanted
    ensures Verdict(tree, pointer, e.repos, e.ownHosts)
         == ReportOn(CheckedMembers(e), Declared(tree[generated].lines), e.wanted.Keys, e.ownHosts,
                     Present(e.repos, e.ownHosts))
  {
    PointerFollowed(tree, pointer, generated);
    PointerMerged(tree, pointer, generated);
  }
}
