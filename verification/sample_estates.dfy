/** Small estates, all of one service name: where the report is clean, and where it is not. */
module SampleEstates {
  import opened Basics
  import opened Dicts
  import opened Names
  import opened ComposeText
  import opened Rendering
  import opened Emission
  import opened Naming
  import opened Generation
  import opened Sources
  import opened RepoFiles
  import opened Drift
  import opened DriftReport
  import opened Compare
  import opened Agreement
  import opened CleanReport

  const FILE := "docker-compose.yml"

  function OneBody(gated: bool): Body {
    if gated then [Line.Entry(4, "profiles", Flow(["manual"]))] else []
  }

  /** A compose file of one service. */
  function OneService(n: string, gated: bool): seq<Line> {
    Document([], [], [Dicts.Entry(n, OneBody(gated))], [])
  }

  lemma OneServiceRead(n: string, gated: bool)
    requires IsChildKey(Line.Entry(2, n, Nothing))
    ensures Services(OneService(n, gated)) == [Dicts.Entry(n, OneBody(gated))]
    ensures IsComposeFile(OneService(n, gated))
    ensures Gated(OneBody(gated)) == gated
  {
    var services := [Dicts.Entry(n, OneBody(gated))];
    assert WellFormed(services) && WellFramed([], [], []);
    ReadDocument([], [], services, []);
    assert OneBody(true)[..0] == [];
    assert HasSection(OneService(n, gated));
  }

  /** Repos that each have one file with one service, all of one name, without pins; the group may have one
      of its own by that name. */
  function OneNameEstate(repos: seq<string>, gated: set<string>, own: bool, n: string): Estate {
    Estate("1-core",
           seq(|repos|, i requires 0 <= i < |repos| => Source(repos[i], [OneService(n, repos[i] in gated)])),
           map r | r in repos :: [FILE],
           map r | r in repos :: map[FILE := OneService(n, r in gated)],
           if own then OneService(n, false) else [], map[], {})
  }

  /** Names that open a service, under any of the repos' prefixes too, and are no extension's. */
  ghost predicate AreUsable(repos: seq<string>, n: string) {
    && Distinct(repos) && IsChildKey(Line.Entry(2, n, Nothing)) && !IsExtension(n)
    && forall r :: r in repos ==> IsChildKey(Line.Entry(2, r, Nothing)) && !IsExtension(Prefixed(r, n))
  }

  lemma NothingRead()
    ensures Services([]) == [] && IsComposeFile([])
  {
  }

  lemma OneFileSame(file: seq<Line>)
    ensures SameFiles([file], map[FILE := file], [FILE])
  {
    var directory: Directory := map[FILE := file];
    assert FILE in Compared(directory, [FILE]);
    assert IsAmong(directory, [FILE], file);
  }

  lemma OneNameKept(repos: seq<string>, gated: set<string>, own: bool, n: string)
    requires AreUsable(repos, n)
    ensures IsReadable(OneNameEstate(repos, gated, own, n), [], [])
  {
    hide OneService, IsComposeFile, IsExtension, IsChildKey;
    var e := OneNameEstate(repos, gated, own, n);
    NothingRead();
    OneServiceRead(n, false);
    forall k | 0 <= k < |e.sources| ensures IsFound(e, e.sources[k]) {
      OneServiceRead(n, repos[k] in gated);
      OneFileSame(OneService(n, repos[k] in gated));
    }
    forall r | r in repos ensures exists k :: 0 <= k < |e.sources| && e.sources[k].repo == r {
      var k :| 0 <= k < |repos| && repos[k] == r;
      assert e.sources[k].repo == r;
    }
  }

  function OneMember(repo: string, gated: set<string>, n: string): Member {
    Member(repo, [Dicts.Entry(n, OneBody(repo in gated))])
  }

  lemma OneFileMerged(n: string, gated: bool)
    requires IsChildKey(Line.Entry(2, n, Nothing))
    ensures MergeFiles([OneService(n, gated)]) == [Dicts.Entry(n, OneBody(gated))]
  {
    OneServiceRead(n, gated);
    hide OneService, Services, OneBody;
    var file := OneService(n, gated);
    ServicesUnique(file);
    assert [file][..0] == [] && MergeFiles([]) == [];
    MergeIntoNothing(Services(file));
  }

  lemma OneNameMembers(repos: seq<string>, gated: set<string>, own: bool, n: string)
    requires IsChildKey(Line.Entry(2, n, Nothing))
    ensures var members := MembersOf(OneNameEstate(repos, gated, own, n).sources);
            |members| == |repos| && forall i :: 0 <= i < |repos| ==> members[i] == OneMember(repos[i], gated, n)
  {
    hide OneService, MergeFiles, OneBody, IsChildKey, MembersOf;
    var sources := OneNameEstate(repos, gated, own, n).sources;
    forall i | 0 <= i < |sources|
      ensures MergeFiles(sources[i].files) == [Dicts.Entry(n, OneBody(repos[i] in gated))]
    {
      OneFileMerged(n, repos[i] in gated);
    }
    AllAreMembers(sources);
  }

  lemma OneNameGroup(repos: seq<string>, gated: set<string>, own: bool, n: string)
    requires AreUsable(repos, n)
    ensures var g := TheGroup(OneNameEstate(repos, gated, own, n));
            && |g.members| == |repos| && g.dedupe == map[]
            && g.extras == (if own then [Dicts.Entry(n, OneBody(false))] else [])
            && (forall i :: 0 <= i < |repos| ==> g.members[i] == OneMember(repos[i], gated, n))
            && (forall i, m :: 0 <= i < |repos| ==> (Claims(g, i, m) <==> m == n))
  {
    var g := TheGroup(OneNameEstate(repos, gated, own, n));
    OneNameMembers(repos, gated, own, n);
    NothingRead();
    OneServiceRead(n, false);
    forall i, m | 0 <= i < |repos| ensures Claims(g, i, m) <==> m == n {
      assert g.members[i].services[0].key == n;
    }
  }

  /** In every one of these estates the name is renamed in each repo. */
  lemma OneNameRenamed(repos: seq<string>, gated: set<string>, own: bool, n: string, i: nat)
    requires AreUsable(repos, n) && (own || |repos| > 1) && i < |repos|
    ensures var g := TheGroup(OneNameEstate(repos, gated, own, n));
            i < |g.members| && IsRenamed(g, i, n) && !IsDropped(g, i, n) && g.members[i].repo == repos[i]
  {
    var g := TheGroup(OneNameEstate(repos, gated, own, n));
    OneNameGroup(repos, gated, own, n);
    hide OneNameEstate, AreUsable;
    if own {
      assert g.extras[0].key == n;
    } else {
      assert Claims(g, 0, n) && Claims(g, 1, n);
    }
  }

  lemma PrefixedKey(repo: string, n: string)
    requires IsChildKey(Line.Entry(2, repo, Nothing))
    ensures IsChildKey(Line.Entry(2, Prefixed(repo, n), Nothing))
  {
    assert Prefixed(repo, n)[0] == repo[0];
  }

  lemma OneNameCandidate(repos: seq<string>, gated: set<string>, own: bool, n: string, c: Candidate)
    requires AreUsable(repos, n) && (own || |repos| > 1)
    requires IsCandidate(TheGroup(OneNameEstate(repos, gated, own, n)), c)
    ensures c.origin.name == n
    ensures c.origin.FromRepo? ==> c.origin.member < |repos| && c.name == Prefixed(repos[c.origin.member], n)
    ensures c.origin.FromExtras? ==> c.name == n && own
  {
    var g := TheGroup(OneNameEstate(repos, gated, own, n));
    OneNameGroup(repos, gated, own, n);
    match c.origin {
      case FromRepo(i, m) =>
        OneNameRenamed(repos, gated, own, n, i);
        NameOfIs(g, i, n);
      case FromExtras(m) =>
    }
  }

  lemma UsableKey(repos: seq<string>, n: string, i: nat)
    requires AreUsable(repos, n) && i < |repos|
    ensures IsChildKey(Line.Entry(2, Prefixed(repos[i], n), Nothing))
  {
    PrefixedKey(repos[i], n);
  }

  lemma OneRepoChecked(repos: seq<string>, gated: set<string>, own: bool, n: string, r: string)
    requires AreUsable(repos, n) && r in repos
    ensures r in CheckedMembers(OneNameEstate(repos, gated, own, n))
    ensures CheckedMembers(OneNameEstate(repos, gated, own, n))[r] == map[n := r in gated]
  {
    hide OneService, RepoView, Compared, IsComposeFile, CheckedMembers, InFile, GatedInFile, IsChildKey;
    var e := OneNameEstate(repos, gated, own, n);
    OneNameKept(repos, gated, own, n);
    var k :| 0 <= k < |repos| && repos[k] == r;
    assert IsFound(e, e.sources[k]);
    hide IsReadable, IsKept, SameFiles;
    var files := e.sources[k].files;
    SomethingToCompare(files, e.repos[r], e.wanted[r]);
    CheckedMember(e, r);
    OneView(files, e.repos[r], e.wanted[r], n, r in gated);
  }

  lemma OneView(files: seq<seq<Line>>, directory: Directory, wanted: seq<string>, n: string, gated: bool)
    requires IsChildKey(Line.Entry(2, n, Nothing)) && !IsExtension(n)
    requires SameFiles(files, directory, wanted) && files == [OneService(n, gated)]
    ensures RepoView(directory, wanted) == map[n := gated]
  {
    OneServiceRead(n, gated);
    hide OneService, SameFiles, IsComposeFile, RepoView, InFile, GatedInFile;
    var view := RepoView(directory, wanted);
    forall m ensures m in view <==> m == n {
      ViewDeclares(files, directory, wanted, m);
      OneFileHas(n, gated, m);
    }
    ViewGates(files, directory, wanted, n);
    OneFileHas(n, gated, n);
  }

  lemma OneFileHas(n: string, gated: bool, m: string)
    requires IsChildKey(Line.Entry(2, n, Nothing))
    ensures InFile([OneService(n, gated)], m) <==> m == n
    ensures GatedInFile([OneService(n, gated)], n) <==> gated
  {
    OneServiceRead(n, gated);
    var files := [OneService(n, gated)];
    var services := Services(files[0]);
    assert services[0].key == n;
    assert Get(services, n) == OneBody(gated);
  }

  /** What the checker reads of such an estate: the one name, in every repo. */
  lemma OneNameChecked(repos: seq<string>, gated: set<string>, own: bool, n: string)
    requires AreUsable(repos, n)
    ensures var members := CheckedMembers(OneNameEstate(repos, gated, own, n));
            && members.Keys == Elements(repos)
            && (forall r :: r in members ==> members[r] == map[n := r in gated])
            && (forall r, m :: r in members && m in AlwaysOn(members[r]) ==> m == n)
            && (forall r :: r in members ==> (n in AlwaysOn(members[r]) <==> r !in gated))
  {
    hide OneNameEstate, CheckedMembers, IsChildKey, IsExtension;
    var members := CheckedMembers(OneNameEstate(repos, gated, own, n));
    OneNameKeys(repos, gated, own, n);
    forall r | r in members ensures members[r] == map[n := r in gated] {
      assert r in Elements(repos);
      OneRepoChecked(repos, gated, own, n, r);
    }
    hide AreUsable;
  }

  lemma OneNameKeys(repos: seq<string>, gated: set<string>, own: bool, n: string)
    requires AreUsable(repos, n)
    ensures CheckedMembers(OneNameEstate(repos, gated, own, n)).Keys == Elements(repos)
  {
    var e := OneNameEstate(repos, gated, own, n);
    OneNameKept(repos, gated, own, n);
    hide CheckedMembers, IsKept, OneService, IsChildKey, IsExtension;
    forall r | r in CheckedMembers(e) ensures r in repos {
      var k := ComparedIsSource(e, r);
    }
    hide OneNameEstate;
    forall r | r in repos ensures r in CheckedMembers(e) {
      OneRepoChecked(repos, gated, own, n, r);
    }
  }

  lemma NeverDropped(g: Group, i: nat, n: string)
    requires g.dedupe == map[] && i < |g.members|
    ensures !IsDropped(g, i, n)
  {
  }

  lemma OneNameView(repos: seq<string>, gated: set<string>, own: bool, n: string, i: nat)
    requires AreUsable(repos, n) && i < |repos|
    ensures var e := OneNameEstate(repos, gated, own, n);
            && i < |TheGroup(e).members| && CopyOf(e, i, n) == Prefixed(repos[i], n)
            && ViewOf(e, i) == map[n := repos[i] in gated]
  {
    OneNameGroup(repos, gated, own, n);
    OneNameChecked(repos, gated, own, n);
    hide OneNameEstate, CheckedMembers, TheGroup, AreUsable;
    assert repos[i] in Elements(repos);
  }

  lemma OnByView(e: Estate, i: nat, n: string, gated: bool, m: string)
    requires i < |TheGroup(e).members| && !IsDropped(TheGroup(e), i, m) && (Claims(TheGroup(e), i, m) <==> m == n)
    requires !IsExtension(n) && ViewOf(e, i) == map[n := gated]
    ensures IsOn(e, i, m) <==> m == n && !gated
  {
    hide TheGroup, ViewOf, IsDropped, Claims, IsExtension;
  }

  /** The always-on services are those of the repos that do not gate the name. */
  lemma OneNameOn(repos: seq<string>, gated: set<string>, own: bool, n: string, i: nat, m: string)
    requires AreUsable(repos, n)
    ensures var e := OneNameEstate(repos, gated, own, n);
            && (IsOn(e, i, m) <==> i < |repos| && m == n && repos[i] !in gated)
            && (i < |repos| ==> i < |TheGroup(e).members| && CopyOf(e, i, n) == Prefixed(repos[i], n))
  {
    var e := OneNameEstate(repos, gated, own, n);
    OneNameGroup(repos, gated, own, n);
    hide OneNameEstate, TheGroup, OneMember, IsDropped, Claims, ViewOf, CopyOf;
    if i < |repos| {
      OneNameView(repos, gated, own, n, i);
      UsableIsService(repos, n);
      NeverDropped(TheGroup(e), i, m);
      hide AreUsable, IsOn;
      OnByView(e, i, n, repos[i] in gated, m);
    }
  }

  lemma UsableIsService(repos: seq<string>, n: string)
    requires AreUsable(repos, n)
    ensures !IsExtension(n)
  {
  }

  lemma OneNameViews(repos: seq<string>, gated: set<string>, own: bool, n: string)
    requires AreUsable(repos, n)
    ensures var e := OneNameEstate(repos, gated, own, n);
            && e.wanted.Keys == Elements(repos) && e.ownHosts == {}
            && (forall m :: m in RepoNames(CheckedMembers(e)) ==> m == n)
            && (forall r :: r in repos && r !in gated ==> n in RepoNames(CheckedMembers(e)))
            && (n in RepoNames(CheckedMembers(e)) ==> exists i :: 0 <= i < |repos| && repos[i] !in gated)
            && (gated !! Elements(repos) ==> AllOptIn(CheckedMembers(e)) == {})
  {
    var e := OneNameEstate(repos, gated, own, n);
    var members := CheckedMembers(e);
    OneNameChecked(repos, gated, own, n);
    assert e.wanted.Keys == Elements(repos);
    hide OneNameEstate, CheckedMembers, AreUsable;
    if n in RepoNames(members) {
      var r :| r in members && n in AlwaysOn(members[r]);
      assert r in Elements(repos);
      var i :| 0 <= i < |repos| && repos[i] == r;
    }
    forall r | r in repos && r !in gated ensures n in RepoNames(members) {
      assert r in Elements(repos);
      assert n in AlwaysOn(members[r]);
    }
    if gated !! Elements(repos) {
      forall r | r in members ensures OptIn(members[r]) == {} {
        assert r !in gated;
      }
    }
  }

  lemma CopiesApart(repos: seq<string>, n: string, c: Candidate, d: Candidate)
    requires Distinct(repos) && c.origin.name == d.origin.name == n && c.origin != d.origin
    requires c.origin.FromRepo? ==> c.origin.member < |repos| && c.name == Prefixed(repos[c.origin.member], n)
    requires d.origin.FromRepo? ==> d.origin.member < |repos| && d.name == Prefixed(repos[d.origin.member], n)
    requires (c.origin.FromExtras? ==> c.name == n) && (d.origin.FromExtras? ==> d.name == n)
    ensures c.name != d.name
  {
    if c.origin.FromRepo? && d.origin.FromRepo? {
      SamePrefixSameRepo(repos[c.origin.member], repos[d.origin.member], n);
    } else if c.origin.FromRepo? {
      assert |c.name| > |n|;
    } else if d.origin.FromRepo? {
      assert |d.name| > |n|;
    }
  }

  lemma OneNameKeysOpen(repos: seq<string>, gated: set<string>, own: bool, n: string)
    requires AreUsable(repos, n) && (own || |repos| > 1)
    ensures AreKeys(OneNameEstate(repos, gated, own, n))
  {
    var e := OneNameEstate(repos, gated, own, n);
    OneNameKept(repos, gated, own, n);
    KeptAre(e);
    hide OneNameEstate, IsReadable, IsCandidate, Candidates, Kept, IsChildKey, IsExtension, IsKept, IsGroup, TheGroup;
    forall c | c in Kept(Candidates(TheGroup(e))) ensures IsChildKey(Line.Entry(2, c.name, Nothing)) {
      OneNameCandidate(repos, gated, own, n, c);
      if c.origin.FromRepo? {
        UsableKey(repos, n, c.origin.member);
      }
    }
  }

  lemma OneNameNoClash(repos: seq<string>, gated: set<string>, own: bool, n: string)
    requires AreUsable(repos, n) && (own || |repos| > 1)
    ensures NoPrefixClash(TheGroup(OneNameEstate(repos, gated, own, n)))
  {
    var e := OneNameEstate(repos, gated, own, n);
    OneNameKept(repos, gated, own, n);
    KeptAre(e);
    CandidatesAre(TheGroup(e));
    hide OneNameEstate, IsReadable, IsCandidate, Candidates, Kept, IsChildKey, IsExtension, IsKept, IsGroup, TheGroup;
    forall c, d | c in Candidates(TheGroup(e)) && d in Candidates(TheGroup(e)) && c.origin != d.origin
      ensures c.name != d.name
    {
      OneNameCandidate(repos, gated, own, n, c);
      OneNameCandidate(repos, gated, own, n, d);
      CopiesApart(repos, n, c, d);
    }
  }

  lemma OneNameApart(repos: seq<string>, gated: set<string>, own: bool, n: string)
    requires AreUsable(repos, n) && (own || |repos| > 1)
    ensures IsEmittable(OneNameEstate(repos, gated, own, n))
  {
    var e := OneNameEstate(repos, gated, own, n);
    OneNameKeysOpen(repos, gated, own, n);
    OneNameNoClash(repos, gated, own, n);
    hide OneNameEstate, IsOn, TheGroup, NoPrefixClash, AreKeys, IsExtension, IsChildKey, CopyOf;
    forall i: nat, m ensures IsRenamedOn(e, i, m) ==> !IsExtension(CopyOf(e, i, m)) {
      OneNameOn(repos, gated, own, n, i, m);
    }
  }

  lemma OneNameComparable(repos: seq<string>, gated: set<string>, own: bool, n: string)
    requires AreUsable(repos, n) && (own || |repos| > 1)
    requires if own then repos != [] && gated == {} else gated == {} || Elements(repos) <= gated
    requires forall r :: r in repos && r !in gated ==> !IsGroupOwned(Prefixed(r, n))
    ensures IsComparable(OneNameEstate(repos, gated, own, n), [], [])
  {
    OneNameKept(repos, gated, own, n);
    OneNameApart(repos, gated, own, n);
    OneNamePins(repos, gated, own, n);
    OneNameStandsOut(repos, gated, own, n);
    OneNameOwn(repos, gated, own, n);
  }

  lemma OneNamePins(repos: seq<string>, gated: set<string>, own: bool, n: string)
    requires AreUsable(repos, n)
    ensures PinsHold(OneNameEstate(repos, gated, own, n))
  {
    var e := OneNameEstate(repos, gated, own, n);
    OneNameViews(repos, gated, own, n);
    hide OneNameEstate, CheckedMembers, IsOn, AreUsable;
    forall m | m in RepoNames(CheckedMembers(e)) ensures exists i: nat :: IsOn(e, i, m) {
      var i :| 0 <= i < |repos| && repos[i] !in gated;
      OneNameOn(repos, gated, own, n, i, n);
    }
  }

  lemma OneNameStandsOut(repos: seq<string>, gated: set<string>, own: bool, n: string)
    requires AreUsable(repos, n) && (gated == {} || Elements(repos) <= gated)
    requires forall r :: r in repos && r !in gated ==> !IsGroupOwned(Prefixed(r, n))
    ensures CopiesStandOut(OneNameEstate(repos, gated, own, n))
  {
    var e := OneNameEstate(repos, gated, own, n);
    OneNameViews(repos, gated, own, n);
    hide OneNameEstate, CheckedMembers, IsOn, AreUsable, TheGroup, IsGroupOwned, AllOptIn;
    forall i: nat, m | IsRenamedOn(e, i, m)
      ensures !IsSetAside(AllOptIn(CheckedMembers(e)), Extra(CopyOf(e, i, m)))
    {
      OneNameOn(repos, gated, own, n, i, m);
      assert repos[i] in repos && repos[i] in Elements(repos);
    }
  }

  lemma OneNameOwn(repos: seq<string>, gated: set<string>, own: bool, n: string)
    requires AreUsable(repos, n) && (own ==> repos != [] && gated == {})
    ensures OwnStandAside(OneNameEstate(repos, gated, own, n))
  {
    OneNameViews(repos, gated, own, n);
    OneNameGroup(repos, gated, own, n);
    hide OneNameEstate, CheckedMembers, TheGroup, AreUsable, OneMember, IsSetAside;
    if own {
      assert repos[0] in repos;
    }
  }

  /** With no profile anywhere, a name of two repos, or of one and the group itself, leaves a copy reported. */
  lemma OneNameLeavesExtra(repos: seq<string>, own: bool, n: string, present: set<string>)
    requires AreUsable(repos, n) && repos != [] && (own || |repos| > 1)
    requires forall r :: r in repos ==> !IsGroupOwned(Prefixed(r, n))
    ensures var findings := FindingsOf(OneNameEstate(repos, {}, own, n), [], [], present);
            exists r :: r in repos && Extra(Prefixed(r, n)) in findings
  {
    var e := OneNameEstate(repos, {}, own, n);
    OneNameComparable(repos, {}, own, n);
    OneNameRenamed(repos, {}, own, n, 0);
    OneNameOn(repos, {}, own, n, 0, n);
    hide OneNameEstate, IsComparable, IsOn, FindingsOf, AreUsable, IsGroupOwned;
    var i, m := RenamedCopyIsReported(e, [], [], present, 0, n);
    OneNameOn(repos, {}, own, n, i, m);
    assert repos[i] in repos;
  }

  /** Two repos with one always-on name: the report on the file generated for them is never clean. */
  lemma TwoReposLeaveExtra(r: string, s: string, n: string, present: set<string>)
    requires AreUsable([r, s], n) && !IsGroupOwned(Prefixed(r, n)) && !IsGroupOwned(Prefixed(s, n))
    ensures var findings := FindingsOf(OneNameEstate([r, s], {}, false, n), [], [], present);
            exists q :: q in [r, s] && Extra(Prefixed(q, n)) in findings
  {
    OneNameLeavesExtra([r, s], false, n, present);
  }

  /** One repo whose always-on service the group has one of by that name: no name is in two repos, and the
      repo's copy is reported. */
  lemma OwnNameLeavesExtra(r: string, n: string, present: set<string>)
    requires AreUsable([r], n) && !IsGroupOwned(Prefixed(r, n))
    ensures var e := OneNameEstate([r], {}, true, n);
            Extra(Prefixed(r, n)) in FindingsOf(e, [], [], present) && forall m :: !IsShared(TheGroup(e), m)
  {
    OneNameLeavesExtra([r], true, n, present);
    OneNameGroup([r], {}, true, n);
    assert |[r]| == 1;
  }

  /** A name that every repo has behind a profile: shared, renamed everywhere, and nothing to report. */
  lemma AllGatedIsClean(repos: seq<string>, n: string, present: set<string>)
    requires AreUsable(repos, n) && |repos| > 1
    ensures var e := OneNameEstate(repos, Elements(repos), false, n);
            IsShared(TheGroup(e), n) && FindingsOf(e, [], [], present) == []
  {
    var e := OneNameEstate(repos, Elements(repos), false, n);
    OneNameComparable(repos, Elements(repos), false, n);
    OneNameGroup(repos, Elements(repos), false, n);
    OneNameRenamed(repos, Elements(repos), false, n, 0);
    forall i: nat, m ensures !IsOn(e, i, m) {
      OneNameOn(repos, Elements(repos), false, n, i, m);
    }
    assert Claims(TheGroup(e), 0, n) && Claims(TheGroup(e), 1, n);
    hide OneNameEstate, IsComparable, IsOn, CheckedMembers, GeneratedView, ReportOn, TheGroup, AreUsable;
    ReportIsCleanIff(e, [], [], present);
  }

  /** What is set aside is not reported, and what could be paired is. */
  lemma OnlyGatedLeft(members: map<string, Gating>, group: Gating, deployed: set<string>, present: set<string>,
                      n: string, copy: string)
    requires RepoNames(members) == {n} && n in AllOptIn(members) && n !in AlwaysOn(group)
    requires forall d :: d in AlwaysOn(group) ==> LooksRenamed(n, d)
    requires copy in AlwaysOn(group) && !IsGroupOwned(copy)
    ensures ReportOn(members, group, deployed, {}, present).findings == []
  {
    hide LooksRenamed, IsGroupOwned, PairsOf, MissingOf;
    var report := ReportOn(members, group, deployed, {}, present);
    RepoServicesKeys(members);
    var missing := Missing(n, RepoServices(members)[n]);
    MissingIsPaired(members, group, n, copy);
    OwnHostKind(Sorted({}), deployed);
    forall f ensures f !in report.findings {
      NotLeft(members, group, f, n, missing);
    }
    SomeOrNone(report.findings);
  }

  lemma MissingIsPaired(members: map<string, Gating>, group: Gating, n: string, copy: string)
    requires RepoNames(members) == {n} && n !in AlwaysOn(group)
    requires copy in AlwaysOn(group) && !IsGroupOwned(copy) && LooksRenamed(n, copy)
    ensures RepoServices(members).Keys == {n}
    ensures Missing(n, RepoServices(members)[n]) in PairedMissing(PairsOf(members, group))
  {
    MissingOfAre(members, group);
    RepoServicesKeys(members);
    RenamesAreMaximal(members, group, []);
    hide LooksRenamed, IsGroupOwned, PairsOf, MissingOf, RepoServices;
    var pairs := PairsOf(members, group);
    var missing := Missing(n, RepoServices(members)[n]);
    NotItsOwn(n);
    if copy in PairedExtras(pairs) {
      var j :| 0 <= j < |pairs| && pairs[j].extra == copy;
      assert pairs[j].missing in MissingOf(members, group);
      assert pairs[j].missing == missing;
    } else {
      var extras := set x | x in ExtrasOf(members, group) && !IsGroupOwned(x);
      assert missing in MissingOf(members, group) && copy in extras - PairedExtras(pairs);
    }
  }

  lemma NotLeft(members: map<string, Gating>, group: Gating, f: Finding, n: string, missing: Finding)
    requires RepoNames(members) == {n} && n in AllOptIn(members)
    requires forall d :: d in AlwaysOn(group) ==> LooksRenamed(n, d)
    requires RepoServices(members).Keys == {n} && missing == Missing(n, RepoServices(members)[n])
    requires missing in PairedMissing(PairsOf(members, group))
    ensures f !in Without(Unpaired(members, group), SetAside(members, Unpaired(members, group)))
  {
    hide LooksRenamed, IsGroupOwned;
    var left := Unpaired(members, group);
    var extras := Sorted(ExtrasOf(members, group));
    MissingOfAre(members, group);
    ExtraFindingsAre(extras);
    WithoutIs(left, SetAside(members, left), f);
    WithoutIs(MissingOf(members, group) + ExtraFindings(extras), PairedFindings(PairsOf(members, group)), f);
  }

  lemma OneNameEmits(repos: seq<string>, gated: set<string>, n: string, d: string)
    requires AreUsable(repos, n) && |repos| > 1
    ensures var e := OneNameEstate(repos, gated, false, n);
            d in GeneratedView(e, [], []) ==> LooksRenamed(n, d)
  {
    var e := OneNameEstate(repos, gated, false, n);
    OneNameKept(repos, gated, false, n);
    OneNameApart(repos, gated, false, n);
    hide OneNameEstate, LooksRenamed, IsKept, IsComposeFile;
    if d in GeneratedView(e, [], []) {
      var c := GeneratedIsDeclared(e, [], [], d);
      OneNameCandidate(repos, gated, false, n, c);
      PrefixLooksRenamed(repos[c.origin.member], n);
    }
  }

  /** A copy whose name looks like one a repo opts into is never reported: with the same name behind a
      profile in a third repo, the report on two always-on copies of it is clean. */
  lemma GatedNameHidesExtra(r: string, s: string, t: string, n: string, present: set<string>)
    requires AreUsable([r, s, t], n) && !IsGroupOwned(Prefixed(r, n))
    ensures var e := OneNameEstate([r, s, t], {t}, false, n);
            IsRenamedOn(e, 0, n) && IsRenamedOn(e, 1, n) && FindingsOf(e, [], [], present) == []
  {
    var repos := [r, s, t];
    var e := OneNameEstate(repos, {t}, false, n);
    var members, group := CheckedMembers(e), GeneratedView(e, [], []);
    OneNameKept(repos, {t}, false, n);
    OneNameApart(repos, {t}, false, n);
    ThirdIsOptIn(r, s, t, n);
    TwoAreRenamed(r, s, t, n);
    hide OneNameEstate, CheckedMembers, GeneratedView, IsReadable, IsEmittable, LooksRenamed, IsOn, ReportOn;
    forall d ensures d in AlwaysOn(group) ==> LooksRenamed(n, d) {
      OneNameEmits(repos, {t}, n, d);
    }
    hide AreUsable, IsGroupOwned;
    FirstCopyIsOn(e, n);
    NotItsOwn(n);
    OnlyGatedLeft(members, group, e.wanted.Keys, present, n, Prefixed(r, n));
  }

  lemma TwoAreRenamed(r: string, s: string, t: string, n: string)
    requires AreUsable([r, s, t], n)
    ensures var e := OneNameEstate([r, s, t], {t}, false, n);
            && IsRenamedOn(e, 0, n) && IsRenamedOn(e, 1, n) && CopyOf(e, 0, n) == Prefixed(r, n)
            && RepoNames(CheckedMembers(e)) == {n} && e.ownHosts == {}
  {
    var repos := [r, s, t];
    OneNameViews(repos, {t}, false, n);
    ThirdIsOptIn(r, s, t, n);
    assert repos[0] == r && repos[1] == s && repos[0] in repos;
    OneNameOn(repos, {t}, false, n, 0, n);
    OneNameOn(repos, {t}, false, n, 1, n);
    OneNameRenamed(repos, {t}, false, n, 0);
    OneNameRenamed(repos, {t}, false, n, 1);
    hide OneNameEstate, CheckedMembers, IsOn, AreUsable, RepoNames;
  }

  lemma FirstCopyIsOn(e: Estate, n: string)
    requires IsReadable(e, [], []) && IsEmittable(e) && IsRenamedOn(e, 0, n)
    ensures CopyOf(e, 0, n) in AlwaysOn(GeneratedView(e, [], []))
  {
    NameOfIs(TheGroup(e), 0, n);
    hide GeneratedView, IsReadable, TheGroup, IsOn, NameOf;
    var c := OnIsEmitted(e, [], [], 0, n);
  }

  lemma NotItsOwn(n: string)
    ensures !LooksRenamed(n, n)
  {
  }

  lemma ThirdIsOptIn(r: string, s: string, t: string, n: string)
    requires AreUsable([r, s, t], n)
    ensures n in AllOptIn(CheckedMembers(OneNameEstate([r, s, t], {t}, false, n)))
    ensures r != t && s != t
  {
    var repos := [r, s, t];
    var members := CheckedMembers(OneNameEstate(repos, {t}, false, n));
    OneNameChecked(repos, {t}, false, n);
    assert repos[0] == r && repos[1] == s && repos[2] == t;
    assert t in Elements(repos);
    hide OneNameEstate, CheckedMembers, AreUsable;
    assert members[t] == map[n := true];
    assert n in OptIn(members[t]);
  }
}
