/** Exactly when the checker has nothing to report on the file the generator writes. */
module CleanReport {
  import opened Basics
  import opened Dicts
  import opened Names
  import opened ComposeText
  import opened Rendering
  import opened Relocation
  import opened Emission
  import opened Naming
  import opened Generation
  import opened Sources
  import opened RepoFiles
  import opened IncludeGraph
  import opened SourcesHeader
  import opened Drift
  import opened DriftReport
  import opened Compare
  import opened Agreement
  import Paths

  // ── the services that matter ──

  /** An estate both scripts read the same way. */
  ghost predicate IsReadable(e: Estate, head: seq<Line>, tail: seq<Line>) {
    IsKept(e) && IsComposeFile(e.extras) && WellFramed(head, [], tail)
  }

  function GeneratedView(e: Estate, head: seq<Line>, tail: seq<Line>): Gating {
    Declared(GroupFile(TheGroup(e), head, tail))
  }

  /** What the checker sees of the repo of a member. */
  function ViewOf(e: Estate, i: nat): Gating
    requires i < |TheGroup(e).members|
  {
    GetOr(CheckedMembers(e), TheGroup(e).members[i].repo, map[])
  }

  /** A repo's service that is emitted and that the checker takes to be always on. An extension is no
      service to the checker: for one, that no profile gates it. */
  ghost predicate IsOn(e: Estate, i: nat, n: string) {
    && i < |TheGroup(e).members| && Claims(TheGroup(e), i, n) && !IsDropped(TheGroup(e), i, n)
    && if IsExtension(n) then !Gated(Get(TheGroup(e).members[i].services, n)) else n in AlwaysOn(ViewOf(e, i))
  }

  /** One that is emitted under its repo's prefix: another repo declares the name and it is not pinned,
      or the group's own services have it. */
  ghost predicate IsRenamedOn(e: Estate, i: nat, n: string) {
    IsOn(e, i, n) && IsRenamed(TheGroup(e), i, n)
  }

  function CopyOf(e: Estate, i: nat, n: string): string
    requires i < |TheGroup(e).members|
  {
    Prefixed(TheGroup(e).members[i].repo, n)
  }

  // ── where the two scripts can be compared ──

  /** No emitted name clashes with another, each opens a service, and a prefix makes no extension. */
  ghost predicate IsEmittable(e: Estate) {
    && NoPrefixClash(TheGroup(e)) && AreKeys(e)
    && forall i, n :: IsRenamedOn(e, i, n) ==> !IsExtension(CopyOf(e, i, n))
  }

  /** No pin loses an always-on name: the copy it keeps is always on where any is. */
  ghost predicate PinsHold(e: Estate) {
    forall n :: n in RepoNames(CheckedMembers(e)) ==> exists i :: IsOn(e, i, n)
  }

  /** The copies are recognisably copies: none has a name the checker takes to be the group's own or
      opted into by a repo. */
  ghost predicate CopiesStandOut(e: Estate) {
    forall i, n :: IsRenamedOn(e, i, n) ==> !IsSetAside(AllOptIn(CheckedMembers(e)), Extra(CopyOf(e, i, n)))
  }

  /** The group's own services: what is always on is an always-on repo name too or is set aside, and
      what is behind a profile is no always-on repo name. */
  ghost predicate OwnStandAside(e: Estate) {
    var members, own := CheckedMembers(e), TheGroup(e).extras;
    forall n :: Has(own, n) && !IsExtension(n) ==>
      if Gated(Get(own, n)) then n !in RepoNames(members)
      else n in RepoNames(members) || IsSetAside(AllOptIn(members), Extra(n))
  }

  ghost predicate IsComparable(e: Estate, head: seq<Line>, tail: seq<Line>) {
    IsReadable(e, head, tail) && IsEmittable(e) && PinsHold(e) && CopiesStandOut(e) && OwnStandAside(e)
  }

  // ── members and views ──

  /** Every member is a repo the checker compares, and it sees exactly that source's files. */
  lemma MemberIsSeen(e: Estate, i: nat) returns (k: nat)
    requires IsKept(e) && i < |TheGroup(e).members|
    ensures k < |e.sources| && e.sources[k].repo in e.repos && e.sources[k].repo in e.wanted
    ensures TheGroup(e).members[i].services == MergeFiles(e.sources[k].files)
    ensures TheGroup(e).members[i].repo == e.sources[k].repo && e.sources[k].repo in CheckedMembers(e)
    ensures ViewOf(e, i) == CheckedMembers(e)[e.sources[k].repo]
         == RepoView(e.repos[e.sources[k].repo], e.wanted[e.sources[k].repo])
  {
    k := SourceOf(e, i);
    SourceIsCompared(e, k);
  }

  /** A member's service is in the checker's view, unless it is an extension. */
  lemma ClaimIsSeen(e: Estate, i: nat, n: string)
    requires IsKept(e) && i < |TheGroup(e).members| && Claims(TheGroup(e), i, n)
    ensures n in ViewOf(e, i) <==> !IsExtension(n)
    ensures n in ViewOf(e, i) && ViewOf(e, i)[n] ==> n in AllOptIn(CheckedMembers(e))
    ensures n in AlwaysOn(ViewOf(e, i)) ==> n in RepoNames(CheckedMembers(e))
  {
    hide RepoView, CheckedMembers, TheGroup, MergeFiles;
    var k := MemberIsSeen(e, i);
    var s := e.sources[k];
    MergedFilesFrom(s.files, n);
    assert IsFound(e, s);
    ViewDeclares(s.files, e.repos[s.repo], e.wanted[s.repo], n);
    if n in ViewOf(e, i) && ViewOf(e, i)[n] {
      assert n in OptIn(CheckedMembers(e)[s.repo]);
    }
  }

  lemma OnIsUngated(e: Estate, i: nat, n: string)
    requires IsKept(e) && IsOn(e, i, n)
    ensures !Gated(Get(TheGroup(e).members[i].services, n))
  {
    hide RepoView, CheckedMembers, TheGroup, MergeFiles;
    if !IsExtension(n) {
      var k := MemberIsSeen(e, i);
      UngatedInSource(e, k, n);
    }
  }

  /** The emitted copy of a service that is always on, under its own name or its repo's prefix. */
  lemma OnIsEmitted(e: Estate, head: seq<Line>, tail: seq<Line>, i: nat, n: string) returns (c: Candidate)
    requires IsReadable(e, head, tail) && IsEmittable(e)
    requires IsOn(e, i, n) && !IsExtension(NameOf(TheGroup(e), i, n))
    ensures c in Kept(Candidates(TheGroup(e))) && c.origin == FromRepo(i, n) && c.name == NameOf(TheGroup(e), i, n)
    ensures c.name == if IsRenamed(TheGroup(e), i, n) then CopyOf(e, i, n) else n
    ensures c.name in AlwaysOn(GeneratedView(e, head, tail))
  {
    var g := TheGroup(e);
    OnIsUngated(e, i, n);
    c := RepoCandidate(g, i, n, Get(g.members[i].services, n));
    CandidateIsKept(e, i, n);
    NameOfIs(g, i, n);
    hide TheGroup, IsOn, IsKept, IsComposeFile, Kept, Candidates, RepoCandidate, NoPrefixClash, NameOf;
    EmittedIsDeclared(e, head, tail, c);
  }

  lemma CandidateIsKept(e: Estate, i: nat, n: string)
    requires IsKept(e) && NoPrefixClash(TheGroup(e)) && i < |TheGroup(e).members|
    requires Claims(TheGroup(e), i, n) && !IsDropped(TheGroup(e), i, n)
    ensures var g := TheGroup(e);
            var body := Get(g.members[i].services, n);
            var c := RepoCandidate(g, i, n, body);
            && c in Kept(Candidates(g)) && c.name == NameOf(g, i, n) && c.origin == FromRepo(i, n)
            && Gated(c.body) == Gated(body)
  {
    var g := TheGroup(e);
    var body := Get(g.members[i].services, n);
    KeptAre(e);
    NothingSkippedIff(g);
    CandidatesAre(g);
    KeptOrSkipped(Candidates(g));
    NamesOfHas(g.members[i].services, n);
    hide IsKept, Kept, Candidates, NoPrefixClash;
    assert IsCandidate(g, RepoCandidate(g, i, n, body));
    EmissionKeeps(body, Renames(g, i), Rel(g.id, g.members[i].repo), n, NameOf(g, i, n));
  }

  lemma OwnIsEmitted(e: Estate, head: seq<Line>, tail: seq<Line>, n: string) returns (c: Candidate)
    requires IsReadable(e, head, tail) && IsEmittable(e)
    requires Has(TheGroup(e).extras, n) && !IsExtension(n) && !Gated(Get(TheGroup(e).extras, n))
    ensures c in Kept(Candidates(TheGroup(e))) && c.origin == FromExtras(n) && c.name == n
    ensures n in AlwaysOn(GeneratedView(e, head, tail))
  {
    hide TheGroup, IsKept, IsComposeFile, Kept, Candidates, IsRenamedOn;
    c := Candidate(n, FromExtras(n), Get(TheGroup(e).extras, n));
    OwnIsKept(e, n);
    EmittedIsDeclared(e, head, tail, c);
  }

  lemma OwnIsKept(e: Estate, n: string)
    requires IsKept(e) && NoPrefixClash(TheGroup(e)) && Has(TheGroup(e).extras, n)
    ensures Candidate(n, FromExtras(n), Get(TheGroup(e).extras, n)) in Kept(Candidates(TheGroup(e)))
  {
    KeptAre(e);
    OwnIsCandidate(TheGroup(e), n);
    hide TheGroup, IsKept, Kept, Candidates;
  }

  lemma OwnIsCandidate(g: Group, n: string)
    requires IsGroup(g) && NoPrefixClash(g) && Has(g.extras, n)
    ensures Candidate(n, FromExtras(n), Get(g.extras, n)) in Kept(Candidates(g))
  {
    NothingSkippedIff(g);
    CandidatesAre(g);
    KeptOrSkipped(Candidates(g));
    hide IsGroup, Kept, Candidates, NoPrefixClash, Has, Get, RepoCandidate, Drops;
    assert IsCandidate(g, Candidate(n, FromExtras(n), Get(g.extras, n)));
  }

  // ── nothing renamed: nothing to report ──

  lemma PrefixLooksRenamed(r: string, n: string)
    requires n != ""
    ensures LooksRenamed(n, Prefixed(r, n))
  {
    var p := Prefixed(r, n);
    assert p[|p| - |"-" + n|..] == "-" + n;
  }

  /** Where nothing always on is renamed, every always-on repo name is declared under itself. */
  lemma NamesAreDeclared(e: Estate, head: seq<Line>, tail: seq<Line>, n: string)
    requires IsComparable(e, head, tail) && (forall i, m :: !IsRenamedOn(e, i, m))
    requires n in RepoNames(CheckedMembers(e))
    ensures n in AlwaysOn(GeneratedView(e, head, tail))
  {
    var i :| IsOn(e, i, n);
    assert !IsRenamedOn(e, i, n);
    NameOfIs(TheGroup(e), i, n);
    RepoNameIsService(e, n);
    hide IsOn, IsReadable, IsEmittable;
    var c := OnIsEmitted(e, head, tail, i, n);
  }

  lemma RepoNameIsService(e: Estate, n: string)
    requires IsKept(e) && n in RepoNames(CheckedMembers(e))
    ensures !IsExtension(n)
  {
    var r :| r in CheckedMembers(e) && n in AlwaysOn(CheckedMembers(e)[r]);
    var k := ComparedIsSource(e, r);
    UngatedInSource(e, k, n);
  }

  /** And every other always-on name of the generated file is one the checker sets aside. */
  lemma RestIsSetAside(e: Estate, head: seq<Line>, tail: seq<Line>, d: string)
    requires IsComparable(e, head, tail) && (forall i, m :: !IsRenamedOn(e, i, m))
    requires d in AlwaysOn(GeneratedView(e, head, tail)) && d !in RepoNames(CheckedMembers(e))
    ensures IsSetAside(AllOptIn(CheckedMembers(e)), Extra(d))
  {
    hide IsKept, IsComposeFile, CheckedMembers, TheGroup, RepoCandidate, Kept, Candidates, NoPrefixClash, AreKeys;
    var c := GeneratedIsDeclared(e, head, tail, d);
    if c.origin.FromRepo? {
      RepoRestIsSetAside(e, c);
    }
  }

  lemma RepoRestIsSetAside(e: Estate, c: Candidate)
    requires IsKept(e) && (forall i, m :: !IsRenamedOn(e, i, m))
    requires IsCandidate(TheGroup(e), c) && c.origin.FromRepo? && !IsExtension(c.name) && !Gated(c.body)
    requires c.name !in RepoNames(CheckedMembers(e))
    ensures IsSetAside(AllOptIn(CheckedMembers(e)), Extra(c.name))
  {
    var g, i, n := TheGroup(e), c.origin.member, c.origin.name;
    NameOfIs(g, i, n);
    NamesOfHas(g.members[i].services, n);
    ClaimIsSeen(e, i, n);
    MergedStays(e, i, n);
    EmissionKeeps(Get(g.members[i].services, n), Renames(g, i), Rel(g.id, g.members[i].repo), n, NameOf(g, i, n));
    assert !IsRenamedOn(e, i, n);
    PrefixLooksRenamed(g.members[i].repo, n);
  }

  // ── names answered for ──

  ghost predicate IsPairFor(pairs: seq<Pair>, extra: string, j: nat) {
    j < |pairs| && pairs[j].extra == extra && pairs[j].missing.Missing?
  }

  /** The repo name an always-on group name answers for: itself, or the one it is paired with. */
  ghost function Answers(members: map<string, Gating>, group: Gating, name: string): string {
    var pairs := PairsOf(members, group);
    if name !in RepoNames(members) && exists j: nat :: IsPairFor(pairs, name, j)
    then var j: nat :| IsPairFor(pairs, name, j); pairs[j].missing.service
    else name
  }

  ghost predicate IsPaired(members: map<string, Gating>, group: Gating, name: string) {
    exists j :: IsPairFor(PairsOf(members, group), name, j)
  }

  lemma AnswerIsMissing(members: map<string, Gating>, group: Gating, name: string) returns (j: nat)
    requires name !in RepoNames(members) && IsPaired(members, group, name)
    ensures IsPairFor(PairsOf(members, group), name, j)
    ensures Answers(members, group, name) == PairsOf(members, group)[j].missing.service
    ensures PairsOf(members, group)[j].missing in MissingOf(members, group)
    ensures Answers(members, group, name) in RepoNames(members) - AlwaysOn(group)
  {
    var pairs := PairsOf(members, group);
    RenamesAreMaximal(members, group, []);
    j :| IsPairFor(pairs, name, j) && Answers(members, group, name) == pairs[j].missing.service;
    MissingOfAre(members, group);
    RepoServicesKeys(members);
  }

  /** Different names answer for different services. */
  lemma AnswersDiffer(members: map<string, Gating>, group: Gating, a: string, b: string)
    requires a in AlwaysOn(group) && b in AlwaysOn(group) && a != b
    requires a in RepoNames(members) || IsPaired(members, group, a)
    requires b in RepoNames(members) || IsPaired(members, group, b)
    ensures Answers(members, group, a) != Answers(members, group, b)
  {
    if a !in RepoNames(members) && b !in RepoNames(members) {
      var i := AnswerIsMissing(members, group, a);
      var j := AnswerIsMissing(members, group, b);
      PairsDiffer(members, group, i, j);
    } else if a !in RepoNames(members) {
      var i := AnswerIsMissing(members, group, a);
    } else if b !in RepoNames(members) {
      var j := AnswerIsMissing(members, group, b);
    }
  }

  lemma PairsDiffer(members: map<string, Gating>, group: Gating, i: nat, j: nat)
    requires var pairs := PairsOf(members, group);
             i < |pairs| && j < |pairs| && pairs[i].extra != pairs[j].extra
    requires PairsOf(members, group)[i].missing in MissingOf(members, group)
    requires PairsOf(members, group)[j].missing in MissingOf(members, group)
    ensures PairsOf(members, group)[i].missing.service != PairsOf(members, group)[j].missing.service
  {
    var pairs := PairsOf(members, group);
    RenamesAreMaximal(members, group, []);
    MissingOfAre(members, group);
    assert i < j ==> pairs[i].missing != pairs[j].missing;
    assert j < i ==> pairs[j].missing != pairs[i].missing;
  }

  // ── a renamed copy is reported ──

  lemma KeptOnce(g: Group, c: Candidate, d: Candidate)
    requires c in Kept(Candidates(g)) && d in Kept(Candidates(g)) && c.name == d.name
    ensures c == d
  {
    hide Kept, Skipped, Candidates, NamesIn;
    KeptOrSkipped(Candidates(g));
    var kept := Kept(Candidates(g));
    var i :| 0 <= i < |kept| && kept[i] == c;
    var j :| 0 <= j < |kept| && kept[j] == d;
    assert !(i < j) && !(j < i);
  }

  /** A copy that is no repo's name, is not reported and is not set aside was paired. */
  lemma UnreportedIsPaired(members: map<string, Gating>, group: Gating, deployed: set<string>,
                           ownHosts: set<string>, present: set<string>, name: string)
    requires name in AlwaysOn(group) - RepoNames(members)
    requires Extra(name) !in ReportOn(members, group, deployed, ownHosts, present).findings
    requires !IsSetAside(AllOptIn(members), Extra(name))
    ensures IsPaired(members, group, name)
  {
    RepoServicesKeys(members);
    FindingsPartitioned(members, group, deployed, ownHosts, present, Extra(name));
    ReportIs(members, group, deployed, ownHosts, present);
    hide ReportOn, IsSetAside, PairsOf, RepoServices;
    ExtraIsPaired(members, group, name);
  }

  lemma ReportIs(members: map<string, Gating>, group: Gating, deployed: set<string>,
                 ownHosts: set<string>, present: set<string>)
    ensures var report := ReportOn(members, group, deployed, ownHosts, present);
            && report.renamed == PairsOf(members, group)
            && forall n :: n in report.groupOwned ==> IsSetAside(AllOptIn(members), Extra(n))
  {
    hide PairsOf, Unpaired, IsGroupOwned, IsGated;
  }

  lemma ExtraIsPaired(members: map<string, Gating>, group: Gating, name: string)
    requires Extra(name) in PairedFindings(PairsOf(members, group))
    ensures IsPaired(members, group, name)
  {
    MissingOfAre(members, group);
    RenamesAreMaximal(members, group, []);
    hide LooksRenamed, PairsOf, MissingOf;
    var pairs := PairsOf(members, group);
    assert name in PairedExtras(pairs);
    var j :| 0 <= j < |pairs| && pairs[j].extra == name;
    assert IsPairFor(pairs, name, j);
  }


  ghost predicate IsReported(e: Estate, findings: seq<Finding>, i: nat, n: string) {
    IsRenamedOn(e, i, n) && Extra(CopyOf(e, i, n)) in findings
  }

  /** No copy of a renamed service is among the findings. */
  ghost predicate NoCopyIn(e: Estate, findings: seq<Finding>) {
    forall i, n :: !IsReported(e, findings, i, n)
  }

  ghost function FindingsOf(e: Estate, head: seq<Line>, tail: seq<Line>, present: set<string>): seq<Finding> {
    ReportOn(CheckedMembers(e), GeneratedView(e, head, tail), e.wanted.Keys, e.ownHosts, present).findings
  }

  /** The always-on services of all repos, but for those emitted as extensions. */
  ghost function AllOn(e: Estate): set<Origin> {
    set i: nat, n | i < |TheGroup(e).members| && n in NamesOf(TheGroup(e).members[i].services)
                    && IsOn(e, i, n) && !IsExtension(NameOf(TheGroup(e), i, n)) :: FromRepo(i, n)
  }

  lemma AllOnAre(e: Estate, i: nat, n: string)
    ensures FromRepo(i, n) in AllOn(e) <==> IsOn(e, i, n) && !IsExtension(NameOf(TheGroup(e), i, n))
  {
    if IsOn(e, i, n) {
      NamesOfHas(TheGroup(e).members[i].services, n);
    }
  }

  lemma AllOnMembers(e: Estate)
    ensures forall o :: o in AllOn(e) ==> o.FromRepo? && o.member < |TheGroup(e).members|
  {
  }

  lemma OnIsRepoName(e: Estate, i: nat, n: string)
    requires IsKept(e) && IsEmittable(e) && IsOn(e, i, n)
    ensures n in RepoNames(CheckedMembers(e)) <==> !IsExtension(n)
    ensures !IsExtension(n) || IsRenamedOn(e, i, n) ==> FromRepo(i, n) in AllOn(e)
  {
    OnIsSeen(e, i, n);
    OnIsPlaced(e, i, n);
    hide *;
  }

  lemma OnIsPlaced(e: Estate, i: nat, n: string)
    requires IsEmittable(e) && IsOn(e, i, n)
    ensures !IsExtension(n) || IsRenamedOn(e, i, n) ==> FromRepo(i, n) in AllOn(e)
  {
    hide TheGroup, NoPrefixClash, AreKeys, AllOn, NameOf, IsRenamed, IsExtension, ViewOf, AlwaysOn, Gated;
    AllOnAre(e, i, n);
    NameOfIs(TheGroup(e), i, n);
    if IsRenamedOn(e, i, n) {
      assert !IsExtension(CopyOf(e, i, n));
    }
  }

  lemma OnIsSeen(e: Estate, i: nat, n: string)
    requires IsKept(e) && IsOn(e, i, n)
    ensures n in RepoNames(CheckedMembers(e)) <==> !IsExtension(n)
  {
    hide TheGroup, CheckedMembers, IsKept, RepoNames, IsExtension;
    ClaimIsSeen(e, i, n);
    if n in RepoNames(CheckedMembers(e)) {
      RepoNameIsService(e, n);
    }
  }

  /** Every copy that is neither a repo's name nor reported is paired. */
  lemma CopyIsAnswered(e: Estate, head: seq<Line>, tail: seq<Line>, present: set<string>, i: nat, n: string)
    requires IsComparable(e, head, tail) && NoCopyIn(e, FindingsOf(e, head, tail, present))
    requires FromRepo(i, n) in AllOn(e)
    ensures var members, group, name := CheckedMembers(e), GeneratedView(e, head, tail), NameOf(TheGroup(e), i, n);
            && name in AlwaysOn(group) && (name in RepoNames(members) || IsPaired(members, group, name))
            && Answers(members, group, name) in RepoNames(members)
  {
    var members, group, name := CheckedMembers(e), GeneratedView(e, head, tail), NameOf(TheGroup(e), i, n);
    AllOnAre(e, i, n);
    var c := OnIsEmitted(e, head, tail, i, n);
    OnIsRepoName(e, i, n);
    hide GeneratedView, ReportOn, IsReadable, IsOn, IsSetAside, CheckedMembers, NameOf, TheGroup, AllOn, IsPaired;
    if name !in RepoNames(members) {
      assert IsRenamedOn(e, i, n) && !IsReported(e, FindingsOf(e, head, tail, present), i, n);
      UnreportedIsPaired(members, group, e.wanted.Keys, e.ownHosts, present, name);
      var j := AnswerIsMissing(members, group, name);
    }
  }

  lemma AnswersApart(e: Estate, head: seq<Line>, tail: seq<Line>, present: set<string>,
                     i: nat, n: string, j: nat, m: string)
    requires IsComparable(e, head, tail) && NoCopyIn(e, FindingsOf(e, head, tail, present))
    requires FromRepo(i, n) in AllOn(e) && FromRepo(j, m) in AllOn(e) && !(i == j && n == m)
    ensures var members, group, g := CheckedMembers(e), GeneratedView(e, head, tail), TheGroup(e);
            Answers(members, group, NameOf(g, i, n)) != Answers(members, group, NameOf(g, j, m))
  {
    var g := TheGroup(e);
    AllOnAre(e, i, n);
    AllOnAre(e, j, m);
    var c := OnIsEmitted(e, head, tail, i, n);
    var d := OnIsEmitted(e, head, tail, j, m);
    CopyIsAnswered(e, head, tail, present, i, n);
    CopyIsAnswered(e, head, tail, present, j, m);
    hide IsComparable, IsOn, AllOn, NoCopyIn, Answers, IsPaired, NameOf, TheGroup, Kept, Candidates, GeneratedView;
    hide CheckedMembers;
    if c.name == d.name {
      KeptOnce(g, c, d);
    }
    AnswersDiffer(CheckedMembers(e), GeneratedView(e, head, tail), NameOf(g, i, n), NameOf(g, j, m));
  }

  /** With no copy reported there are no more copies than the names they answer for. */
  lemma NoMoreThan(e: Estate, head: seq<Line>, tail: seq<Line>, present: set<string>, targets: set<string>)
    requires IsComparable(e, head, tail) && NoCopyIn(e, FindingsOf(e, head, tail, present))
    requires forall i, n :: FromRepo(i, n) in AllOn(e) ==>
               Answers(CheckedMembers(e), GeneratedView(e, head, tail), NameOf(TheGroup(e), i, n)) in targets
    ensures |AllOn(e)| <= |targets|
  {
    hide IsComparable, NoCopyIn, AllOn, Answers, GeneratedView, CheckedMembers;
    var on := AllOn(e);
    var members, group, g := CheckedMembers(e), GeneratedView(e, head, tail), TheGroup(e);
    AllOnMembers(e);
    hide TheGroup, NameOf;
    var answers := map o | o in on :: Answers(members, group, NameOf(g, o.member, o.name));
    forall o | o in on ensures answers[o] in targets {
      assert FromRepo(o.member, o.name) in on;
    }
    forall o, q | o in on && q in on && o != q ensures answers[o] != answers[q] {
      AnswersApart(e, head, tail, present, o.member, o.name, q.member, q.name);
    }
    InjectionBound(on, answers, targets);
  }

  /** One always-on service of each name. */
  ghost function FirstOn(e: Estate, n: string): nat {
    if exists i: nat :: IsOn(e, i, n) then var i: nat :| IsOn(e, i, n); i else 0
  }

  lemma FirstIsOn(e: Estate, n: string)
    requires IsKept(e) && IsEmittable(e) && PinsHold(e) && n in RepoNames(CheckedMembers(e))
    ensures FromRepo(FirstOn(e, n), n) in AllOn(e)
  {
    hide IsOn, AllOn, CheckedMembers;
    assert exists i: nat :: IsOn(e, i, n);
    RepoNameIsService(e, n);
    OnIsRepoName(e, FirstOn(e, n), n);
  }

  /** There is a copy for each name, and one more where a service is not the one counted for its name. */
  lemma NoFewerThan(e: Estate, spare: set<Origin>)
    requires IsKept(e) && IsEmittable(e) && PinsHold(e)
    requires spare <= AllOn(e)
    requires forall o :: o in spare ==>
               o != FromRepo(FirstOn(e, o.name), o.name) || o.name !in RepoNames(CheckedMembers(e))
    ensures |RepoNames(CheckedMembers(e))| + |spare| <= |AllOn(e)|
  {
    var names, on := RepoNames(CheckedMembers(e)), AllOn(e);
    forall n | n in names ensures FromRepo(FirstOn(e, n), n) in on {
      FirstIsOn(e, n);
    }
    hide IsKept, IsEmittable, PinsHold, AllOn, FirstOn, RepoNames, CheckedMembers;
    var firsts := map n | n in names :: FromRepo(FirstOn(e, n), n);
    InjectionBound(names, firsts, on - spare);
    assert |on - spare| == |on| - |spare|;
  }

  /** A name another repo declares as well, unpinned, is always on there too, or its copy does not stand out. */
  lemma SharedIsOnTwice(e: Estate, i: nat, n: string) returns (j: nat)
    requires IsKept(e) && CopiesStandOut(e) && IsRenamedOn(e, i, n)
    requires !IsExtension(n) && !Has(TheGroup(e).extras, n)
    ensures j != i && IsOn(e, j, n)
  {
    var g := TheGroup(e);
    var a, b :| 0 <= a < b < |g.members| && Claims(g, a, n) && Claims(g, b, n);
    j := if i == a then b else a;
    ClaimIsSeen(e, j, n);
    MergedStays(e, i, n);
    PrefixLooksRenamed(g.members[i].repo, n);
  }

  lemma NotAnsweredFor(e: Estate, head: seq<Line>, tail: seq<Line>, present: set<string>, n: string,
                       i: nat, m: string)
    requires IsComparable(e, head, tail) && NoCopyIn(e, FindingsOf(e, head, tail, present))
    requires Has(TheGroup(e).extras, n) && !IsExtension(n) && !Gated(Get(TheGroup(e).extras, n))
    requires FromRepo(i, m) in AllOn(e)
    ensures Answers(CheckedMembers(e), GeneratedView(e, head, tail), NameOf(TheGroup(e), i, m)) != n
  {
    var members, group, name := CheckedMembers(e), GeneratedView(e, head, tail), NameOf(TheGroup(e), i, m);
    AllOnAre(e, i, m);
    var c := OnIsEmitted(e, head, tail, i, m);
    var d := OwnIsEmitted(e, head, tail, n);
    CopyIsAnswered(e, head, tail, present, i, m);
    if name == n {
      KeptOnce(TheGroup(e), c, d);
    } else if name !in RepoNames(members) {
      var j := AnswerIsMissing(members, group, name);
    }
  }

  /** With no copy reported no always-on repo name is one of the group's own. */
  lemma UnreportedIsNotOwn(e: Estate, head: seq<Line>, tail: seq<Line>, present: set<string>, n: string)
    requires IsComparable(e, head, tail) && NoCopyIn(e, FindingsOf(e, head, tail, present))
    requires n in RepoNames(CheckedMembers(e))
    ensures !Has(TheGroup(e).extras, n)
  {
    hide AllOn, Answers, NameOf, RepoNames, GeneratedView, CheckedMembers, TheGroup, NoCopyIn, FindingsOf;
    var members, group := CheckedMembers(e), GeneratedView(e, head, tail);
    var targets := RepoNames(members) - {n};
    RepoNameIsService(e, n);
    if Has(TheGroup(e).extras, n) {
      assert !Gated(Get(TheGroup(e).extras, n));
      hide IsComparable;
      forall j: nat, m | FromRepo(j, m) in AllOn(e)
        ensures j < |TheGroup(e).members| && Answers(members, group, NameOf(TheGroup(e), j, m)) in targets
      {
        AllOnAre(e, j, m);
        CopyIsAnswered(e, head, tail, present, j, m);
        NotAnsweredFor(e, head, tail, present, n, j, m);
      }
      NoMoreThan(e, head, tail, present, targets);
      NoFewerThan(e, {});
    }
  }

  /** And every copy is the one counted for its name. */
  lemma UnreportedIsFirst(e: Estate, head: seq<Line>, tail: seq<Line>, present: set<string>, i: nat, n: string)
    requires IsComparable(e, head, tail) && NoCopyIn(e, FindingsOf(e, head, tail, present))
    requires FromRepo(i, n) in AllOn(e)
    ensures i == FirstOn(e, n) && n in RepoNames(CheckedMembers(e))
  {
    var members, group := CheckedMembers(e), GeneratedView(e, head, tail);
    hide AllOn, FirstOn, Answers, NameOf, RepoNames, GeneratedView, CheckedMembers, TheGroup, NoCopyIn, FindingsOf;
    forall j: nat, m | FromRepo(j, m) in AllOn(e)
      ensures j < |TheGroup(e).members| && Answers(members, group, NameOf(TheGroup(e), j, m)) in RepoNames(members)
    {
      AllOnAre(e, j, m);
      CopyIsAnswered(e, head, tail, present, j, m);
    }
    NoMoreThan(e, head, tail, present, RepoNames(members));
    if i != FirstOn(e, n) || n !in RepoNames(members) {
      NoFewerThan(e, {FromRepo(i, n)});
    }
  }

  /** With no copy reported nothing is renamed: the copies would outnumber the names. */
  lemma UnreportedIsPlain(e: Estate, head: seq<Line>, tail: seq<Line>, present: set<string>, i: nat, n: string)
    requires IsComparable(e, head, tail) && NoCopyIn(e, FindingsOf(e, head, tail, present))
    ensures !IsRenamedOn(e, i, n)
  {
    if IsRenamedOn(e, i, n) {
      OnIsRepoName(e, i, n);
      UnreportedIsFirst(e, head, tail, present, i, n);
      RepoNameIsService(e, n);
      UnreportedIsNotOwn(e, head, tail, present, n);
      var j := SharedIsOnTwice(e, i, n);
      OnIsRepoName(e, j, n);
      UnreportedIsFirst(e, head, tail, present, j, n);
    }
  }

  /** The checker keys repo services by name alone, the generator by repo and name. So where an always-on
      service is renamed, because another repo declares the name or the group's own services do, the
      copies outnumber the names, and one of them at least is reported as an extra. */
  lemma RenamedCopyIsReported(e: Estate, head: seq<Line>, tail: seq<Line>, present: set<string>, i: nat, n: string)
    returns (j: nat, m: string)
    requires IsComparable(e, head, tail) && IsRenamedOn(e, i, n)
    ensures IsRenamedOn(e, j, m) && Extra(CopyOf(e, j, m)) in FindingsOf(e, head, tail, present)
  {
    PlainUnlessReported(e, head, tail, present, i, n);
    j, m :| IsReported(e, FindingsOf(e, head, tail, present), j, m);
  }

  lemma PlainUnlessReported(e: Estate, head: seq<Line>, tail: seq<Line>, present: set<string>, i: nat, n: string)
    requires IsComparable(e, head, tail)
    ensures NoCopyIn(e, FindingsOf(e, head, tail, present)) ==> !IsRenamedOn(e, i, n)
  {
    if NoCopyIn(e, FindingsOf(e, head, tail, present)) {
      UnreportedIsPlain(e, head, tail, present, i, n);
    }
  }

  // ── exactly when the report is clean ──

  /** No always-on name of a repo is another repo's unpinned one too, or one of the group's own. */
  ghost predicate NoneRenamed(e: Estate) {
    forall i, n :: IsOn(e, i, n) ==> !IsRenamed(TheGroup(e), i, n)
  }

  /** The generator and the checker agree exactly when nothing always on is renamed: then, and only then,
      is there nothing to report on the file the generator writes, whatever is behind a profile in
      which file. */
  lemma ReportIsCleanIff(e: Estate, head: seq<Line>, tail: seq<Line>, present: set<string>)
    requires IsComparable(e, head, tail)
    ensures var members, group := CheckedMembers(e), GeneratedView(e, head, tail);
            ReportOn(members, group, e.wanted.Keys, e.ownHosts, present).findings == [] <==> NoneRenamed(e)
  {
    var members, group := CheckedMembers(e), GeneratedView(e, head, tail);
    hide GeneratedView, CheckedMembers, ReportOn, CopiesStandOut, OwnStandAside, PinsHold, IsEmittable;
    if NoneRenamed(e) {
      assert forall i, n :: !IsRenamedOn(e, i, n);
      forall n | n in RepoNames(members) ensures n in AlwaysOn(group) {
        NamesAreDeclared(e, head, tail, n);
      }
      forall n | n in AlwaysOn(group) - RepoNames(members) ensures IsSetAside(AllOptIn(members), Extra(n)) {
        RestIsSetAside(e, head, tail, n);
      }
      NothingToReport(members, group, e.wanted.Keys, e.ownHosts, present);
    }
    if FindingsOf(e, head, tail, present) == [] {
      forall i: nat, n | IsOn(e, i, n) ensures !IsRenamed(TheGroup(e), i, n) {
        UnreportedIsPlain(e, head, tail, present, i, n);
      }
    }
  }

  // ── names that do not collide ──

  /** No two repos share a name, and the group's own are no repo's. */
  ghost predicate IsDisjoint(e: Estate) {
    && (forall n :: !IsShared(TheGroup(e), n))
    && (forall n, i :: Has(TheGroup(e).extras, n) && 0 <= i < |TheGroup(e).members| ==> !Claims(TheGroup(e), i, n))
  }

  lemma DisjointIsPlain(e: Estate, i: nat, n: string)
    requires IsDisjoint(e) && i < |TheGroup(e).members| && Claims(TheGroup(e), i, n)
    ensures !IsRenamed(TheGroup(e), i, n) && !IsDropped(TheGroup(e), i, n) && NameOf(TheGroup(e), i, n) == n
  {
    NameOfIs(TheGroup(e), i, n);
    assert !IsShared(TheGroup(e), n);
  }

  lemma DisjointIsEmittable(e: Estate)
    requires IsKept(e) && IsDisjoint(e) && IsComposeFile(e.extras)
    ensures IsEmittable(e)
  {
    KeptAre(e);
    CandidatesAre(TheGroup(e));
    KeptOrSkipped(Candidates(TheGroup(e)));
    hide IsKept, IsComposeFile, Kept, Candidates, TheGroup;
    forall c | IsCandidate(TheGroup(e), c)
      ensures !IsPrefixed(TheGroup(e), c) && IsChildKey(Line.Entry(2, c.name, Nothing))
    {
      match c.origin {
        case FromRepo(i, n) =>
          DisjointIsPlain(e, i, n);
          MergedStays(e, i, n);
        case FromExtras(n) =>
          ExtrasAre(e);
          FileBodyStays(e.extras, n);
      }
    }
    forall i, n ensures !IsRenamedOn(e, i, n) {
      if IsOn(e, i, n) {
        DisjointIsPlain(e, i, n);
      }
    }
  }

  lemma ExtrasAre(e: Estate)
    ensures TheGroup(e).extras == Services(e.extras)
  {
  }

  lemma DisjointHolds(e: Estate, n: string)
    requires IsKept(e) && IsDisjoint(e) && n in RepoNames(CheckedMembers(e))
    ensures exists i: nat :: IsOn(e, i, n)
    ensures !Has(TheGroup(e).extras, n)
  {
    var r :| r in CheckedMembers(e) && n in AlwaysOn(CheckedMembers(e)[r]);
    hide CheckedMembers, TheGroup;
    var k := ComparedIsSource(e, r);
    UngatedInSource(e, k, n);
    var i := MemberOfSource(e, k);
    DisjointIsPlain(e, i, n);
    assert IsOn(e, i, n);
  }

  /** In particular the report is clean where no name is shared, the group's own services are under names
      the checker knows the group owns, and the exemptions are true. */
  lemma GeneratedFilePasses(e: Estate, head: seq<Line>, tail: seq<Line>, present: set<string>)
    requires IsReadable(e, head, tail) && IsDisjoint(e)
    requires forall n :: Has(TheGroup(e).extras, n) ==> IsGroupOwned(n)
    ensures ReportOn(CheckedMembers(e), GeneratedView(e, head, tail), e.wanted.Keys, e.ownHosts, present).findings == []
  {
    DisjointIsEmittable(e);
    forall i, n ensures !IsRenamedOn(e, i, n) {
      if IsOn(e, i, n) {
        DisjointIsPlain(e, i, n);
      }
    }
    hide CheckedMembers, GeneratedView, ReportOn, TheGroup, IsEmittable, IsKept, IsComposeFile, IsDisjoint;
    forall n | n in RepoNames(CheckedMembers(e))
      ensures (exists i: nat :: IsOn(e, i, n)) && !Has(TheGroup(e).extras, n)
    {
      DisjointHolds(e, n);
    }
    ReportIsCleanIff(e, head, tail, present);
  }

  // ── the whole check ──

  /** The table the generator writes into its header: each repo with the files it is deployed from. */
  function TableOf(e: Estate): seq<(string, seq<string>)> {
    seq(|e.sources|, k requires 0 <= k < |e.sources| => (e.sources[k].repo, GetOr(e.wanted, e.sources[k].repo, [])))
  }

  ghost predicate IsListed(entries: seq<(string, seq<string>)>, repo: string) {
    exists k :: 0 <= k < |entries| && entries[k].0 == repo
  }

  ghost predicate HasEntry(table: map<string, seq<string>>, entry: (string, seq<string>)) {
    entry.0 in table && table[entry.0] == entry.1
  }

  /** A table that holds the listed entries and no other. */
  ghost predicate Tabulates(table: map<string, seq<string>>, entries: seq<(string, seq<string>)>) {
    && (forall r :: r in table ==> IsListed(entries, r))
    && (forall k :: 0 <= k < |entries| ==> HasEntry(table, entries[k]))
  }

  lemma OneTable(a: map<string, seq<string>>, b: map<string, seq<string>>, entries: seq<(string, seq<string>)>)
    requires Tabulates(a, entries) && Tabulates(b, entries)
    ensures a == b
  {
    forall r | IsListed(entries, r) ensures r in a && r in b && a[r] == b[r] {
      var k :| 0 <= k < |entries| && entries[k].0 == r;
      assert HasEntry(a, entries[k]) && HasEntry(b, entries[k]);
    }
  }

  lemma {:induction false} AddedTabulates(entries: seq<(string, seq<string>)>)
    requires forall i, j :: 0 <= i < j < |entries| ==> entries[i].0 != entries[j].0
    ensures Tabulates(AddSources(map[], entries), entries)
    decreases |entries|
  {
    if entries != [] {
      var init, last := entries[..|entries| - 1], entries[|entries| - 1];
      assert forall i :: 0 <= i < |init| ==> init[i] == entries[i];
      AddedTabulates(init);
      var before := AddSources(map[], init);
      forall k | 0 <= k < |init| ensures init[k].0 != last.0 {
        assert entries[k].0 != entries[|init|].0;
      }
      assert last.0 !in before;
      assert [] + last.1 == last.1;
      forall r | r in before ensures IsListed(entries, r) {
        var k :| 0 <= k < |init| && init[k].0 == r;
        assert entries[k].0 == r;
      }
      forall k | 0 <= k < |init| ensures HasEntry(before[last.0 := last.1], init[k]) {
        assert HasEntry(before, init[k]);
      }
      assert entries[|init|].0 == last.0;
    }
  }

  lemma TableHas(e: Estate, k: nat)
    requires IsKept(e) && k < |e.sources|
    ensures e.sources[k].repo in e.wanted && TableOf(e)[k] == (e.sources[k].repo, e.wanted[e.sources[k].repo])
    ensures TableOf(e)[k].1 != []
  {
    assert IsFound(e, e.sources[k]);
  }

  lemma TableIsWanted(e: Estate)
    requires IsKept(e)
    ensures AddSources(map[], TableOf(e)) == e.wanted
    ensures forall k :: 0 <= k < |TableOf(e)| ==> TableOf(e)[k].1 != []
  {
    var entries := TableOf(e);
    AddedTabulates(entries);
    hide AddSources;
    forall k | 0 <= k < |entries| ensures HasEntry(e.wanted, entries[k]) && entries[k].1 != [] {
      TableHas(e, k);
    }
    forall r | r in e.wanted ensures IsListed(entries, r) {
      var k :| 0 <= k < |e.sources| && e.sources[k].repo == r;
      assert entries[k].0 == r;
    }
    hide IsKept, IsFound, TableOf, HasEntry, IsListed;
    OneTable(AddSources(map[], entries), e.wanted, entries);
  }

  lemma Regroup<T>(a: seq<T>, b: seq<T>, c: seq<T>, d: seq<T>, e: seq<T>)
    ensures a + b + c + d + e == a + (b + c + d + e)
  {
  }

  /** The generated file's own header gives the checker the table back. */
  lemma HeaderIsWanted(e: Estate, before: seq<Line>, after: seq<Line>, tail: seq<Line>)
    requires IsKept(e) && HasNoTitle(before) && IsName(e.id) && IsGroupId(e.id) && AreWritable(TableOf(e))
    ensures var head := before + WriteHeader(e.id, TableOf(e)) + after;
            AddSources(map[], HeaderEntries(GroupFile(TheGroup(e), head, tail))) == e.wanted
  {
    var written := before + WriteHeader(e.id, TableOf(e));
    var services := Blocks(EmittedServices(Kept(Candidates(TheGroup(e)))));
    GroupFileIs(TheGroup(e), written + after, tail);
    TableIsWanted(e);
    hide GroupFile, WriteHeader, TableOf, Blocks, EmittedServices, Kept, TheGroup, HeaderEntries, IsName, IsGroupId;
    Regroup(written, after, [SERVICES_KEY], services, tail);
    HeaderReadsBackIff(before, e.id, TableOf(e), after + [SERVICES_KEY] + services + tail);
  }

  /** The whole check, from the group's pointer file: the generated file it includes, read as it was
      written with its header, leaves nothing to report exactly when nothing always on is renamed. */
  lemma CheckIsCleanIff(e: Estate, tree: Tree, pointer: Paths.Path, generated: Paths.Path,
                        before: seq<Line>, after: seq<Line>, tail: seq<Line>)
    requires HasNoTitle(before) && IsName(e.id) && IsGroupId(e.id) && AreWritable(TableOf(e))
    requires IsComparable(e, before + WriteHeader(e.id, TableOf(e)) + after, tail)
    requires PointsAt(tree, pointer, generated)
    requires tree[generated].lines
          == GroupFile(TheGroup(e), before + WriteHeader(e.id, TableOf(e)) + after, tail)
    ensures Verdict(tree, pointer, e.repos, e.ownHosts).findings == [] <==> NoneRenamed(e)
  {
    var head := before + WriteHeader(e.id, TableOf(e)) + after;
    HeaderIsWanted(e, before, after, tail);
    hide GroupFile, WriteHeader, TableOf, CheckedMembers, Verdict, ReportOn, HeaderEntries, IsEmittable, NoneRenamed;
    VerdictIs(e, tree, pointer, generated);
    ReportIsCleanIff(e, head, tail, Present(e.repos, e.ownHosts));
  }
}
