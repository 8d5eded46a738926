/** From the compose files a group deploys to the group file itself. */
module Sources {
  import opened Basics
  import opened Dicts
  import opened ComposeText
  import opened Rendering
  import opened OverrideMerge
  import opened MergeLaws
  import opened MergeLimits
  import opened Relocation
  import opened Naming
  import opened Generation

  // ── a repo deployed from several files ──

  /** A later file's services merged into the ones read so far. */
  function MergeServices(base: Dict<string, Body>, later: Dict<string, Body>): Dict<string, Body>
    decreases |later|
  {
    if later == [] then base
    else
      var before := MergeServices(base, later[..|later| - 1]);
      var (name, body) := (later[|later| - 1].key, later[|later| - 1].value);
      Put(before, name, if Has(before, name) then Merge(Get(before, name), body) else body)
  }

  function MergeFiles(files: seq<seq<Line>>): Dict<string, Body>
    decreases |files|
  {
    if files == [] then [] else MergeServices(MergeFiles(files[..|files| - 1]), Services(files[|files| - 1]))
  }

  lemma {:induction false} ReadingUnique(r: Reading, lines: seq<Line>)
    requires UniqueKeys(r.services)
    ensures UniqueKeys(ReadAll(r, lines).services)
    decreases |lines|
  {
    if lines != [] {
      ReadingUnique(ReadLine(r, lines[0]), lines[1..]);
    }
  }

  lemma ServicesUnique(lines: seq<Line>)
    ensures UniqueKeys(Services(lines))
  {
    ReadingUnique(START, lines);
  }

  lemma {:induction false} MergeIntoNothing(later: Dict<string, Body>)
    requires UniqueKeys(later)
    ensures MergeServices([], later) == later
    decreases |later|
  {
    if later != [] {
      var init, last := later[..|later| - 1], later[|later| - 1];
      Snoc(later);
      MergeIntoNothing(init);
      forall i | 0 <= i < |init| ensures init[i].key != last.key {
        assert later[i].key != later[|init|].key;
      }
    }
  }

  lemma {:induction false} MergeServicesUnique(base: Dict<string, Body>, later: Dict<string, Body>)
    requires UniqueKeys(base)
    ensures UniqueKeys(MergeServices(base, later))
    ensures base != [] ==> MergeServices(base, later) != []
    decreases |later|
  {
    if later != [] {
      MergeServicesUnique(base, later[..|later| - 1]);
    }
  }

  lemma {:induction false} MergeFilesUnique(files: seq<seq<Line>>)
    ensures UniqueKeys(MergeFiles(files))
    decreases |files|
  {
    if files != [] {
      MergeFilesUnique(files[..|files| - 1]);
      MergeServicesUnique(MergeFiles(files[..|files| - 1]), Services(files[|files| - 1]));
    }
  }

  /** The files of one repo in load order: the first with services is the base, the rest merge in. */
  method BuildMember(files: seq<seq<Line>>) returns (base: Option<Dict<string, Body>>)
    ensures base == if MergeFiles(files) == [] then None else Some(MergeFiles(files))
  {
    base := None;
    for i := 0 to |files|
      invariant base == if MergeFiles(files[..i]) == [] then None else Some(MergeFiles(files[..i]))
    {
      TakeSnoc(files, i);
      var services := Read(files[i]);
      ServicesUnique(files[i]);
      MergeFilesUnique(files[..i]);
      MergeServicesUnique(MergeFiles(files[..i]), services);
      if services == [] {
        continue;
      }
      if base == None {
        MergeIntoNothing(services);
        base := Some(services);
        continue;
      }
      var merged := base.value;
      for j := 0 to |services|
        invariant merged == MergeServices(base.value, services[..j])
      {
        TakeSnoc(services, j);
        var name, body := services[j].key, services[j].value;
        if !Has(merged, name) {
          merged := Put(merged, name, body);
        } else {
          var combined, _ := MergeService(Get(merged, name), body);
          merged := Put(merged, name, combined);
        }
      }
      TakeAll(services);
      base := Some(merged);
    }
    TakeAll(files);
  }

  // ── the whole run ──

  /** One line of the SOURCES table, with the files found for it, in load order. */
  datatype Source = Source(repo: string, files: seq<seq<Line>>)

  /** The members: every source with a service in its files. */
  function MembersOf(sources: seq<Source>): seq<Member>
    decreases |sources|
  {
    if sources == [] then []
    else
      var last := sources[|sources| - 1];
      var services := MergeFiles(last.files);
      MembersOf(sources[..|sources| - 1]) + if services == [] then [] else [Member(last.repo, services)]
  }

  function GroupOf(id: string, sources: seq<Source>, extras: seq<Line>, dedupe: map<string, string>): Group {
    Group(id, MembersOf(sources), Services(extras), dedupe)
  }

  ghost predicate DistinctRepos(sources: seq<Source>) {
    forall i, j :: 0 <= i < j < |sources| ==> sources[i].repo != sources[j].repo
  }

  predicate ComesFrom(m: Member, s: Source) {
    m == Member(s.repo, MergeFiles(s.files)) && m.services != []
  }

  ghost predicate HasSource(sources: seq<Source>, m: Member) {
    exists k :: 0 <= k < |sources| && ComesFrom(m, sources[k])
  }

  ghost predicate HasMember(members: seq<Member>, s: Source) {
    exists i :: 0 <= i < |members| && ComesFrom(members[i], s)
  }

  lemma {:induction false} MembersHaveSources(sources: seq<Source>)
    ensures forall i :: 0 <= i < |MembersOf(sources)| ==> HasSource(sources, MembersOf(sources)[i])
    decreases |sources|
  {
    if sources != [] {
      var init, last := sources[..|sources| - 1], sources[|sources| - 1];
      MembersHaveSources(init);
      var some, all := MembersOf(init), MembersOf(sources);
      forall i | 0 <= i < |all| ensures HasSource(sources, all[i]) {
        if i < |some| {
          assert all[i] == some[i] && HasSource(init, some[i]);
          var k :| 0 <= k < |init| && ComesFrom(some[i], init[k]);
          assert ComesFrom(all[i], sources[k]);
        } else {
          assert ComesFrom(all[i], sources[|init|]);
        }
      }
    }
  }

  lemma {:induction false} SourcesHaveMembers(sources: seq<Source>, k: nat)
    requires k < |sources| && MergeFiles(sources[k].files) != []
    ensures HasMember(MembersOf(sources), sources[k])
    decreases |sources|
  {
    var init := sources[..|sources| - 1];
    var some, all := MembersOf(init), MembersOf(sources);
    if k < |init| {
      SourcesHaveMembers(init, k);
      var i :| 0 <= i < |some| && ComesFrom(some[i], init[k]);
      assert ComesFrom(all[i], sources[k]);
    } else {
      assert ComesFrom(all[|some|], sources[k]);
    }
  }

  lemma {:induction false} AllAreMembers(sources: seq<Source>)
    requires forall k :: 0 <= k < |sources| ==> MergeFiles(sources[k].files) != []
    ensures |MembersOf(sources)| == |sources|
    ensures forall k :: 0 <= k < |sources| ==>
              MembersOf(sources)[k] == Member(sources[k].repo, MergeFiles(sources[k].files))
    decreases |sources|
  {
    if sources != [] {
      hide MergeFiles;
      var init := sources[..|sources| - 1];
      assert forall k :: 0 <= k < |init| ==> init[k] == sources[k];
      AllAreMembers(init);
    }
  }

  lemma {:induction false} MemberReposDistinct(sources: seq<Source>)
    requires DistinctRepos(sources)
    ensures forall i, j :: 0 <= i < j < |MembersOf(sources)| ==>
              MembersOf(sources)[i].repo != MembersOf(sources)[j].repo
    decreases |sources|
  {
    if sources != [] {
      var init, last := sources[..|sources| - 1], sources[|sources| - 1];
      assert forall i :: 0 <= i < |init| ==> init[i] == sources[i];
      MemberReposDistinct(init);
      MembersHaveSources(init);
      var some := MembersOf(init);
      forall i | 0 <= i < |some| ensures some[i].repo != last.repo {
        assert HasSource(init, some[i]);
        var k :| 0 <= k < |init| && ComesFrom(some[i], init[k]);
        assert sources[k].repo != sources[|init|].repo;
      }
    }
  }

  /** Each member is one source's, each source with a service has its member, and no repo has two. */
  lemma MembersAre(sources: seq<Source>)
    requires DistinctRepos(sources)
    ensures forall i :: 0 <= i < |MembersOf(sources)| ==> HasSource(sources, MembersOf(sources)[i])
    ensures forall k :: 0 <= k < |sources| && MergeFiles(sources[k].files) != [] ==>
              HasMember(MembersOf(sources), sources[k])
    ensures forall i, j :: 0 <= i < j < |MembersOf(sources)| ==>
              MembersOf(sources)[i].repo != MembersOf(sources)[j].repo
  {
    MembersHaveSources(sources);
    MemberReposDistinct(sources);
    forall k | 0 <= k < |sources| && MergeFiles(sources[k].files) != []
      ensures HasMember(MembersOf(sources), sources[k])
    {
      SourcesHaveMembers(sources, k);
    }
  }

  lemma GroupIsGroup(id: string, sources: seq<Source>, extras: seq<Line>, dedupe: map<string, string>)
    requires DistinctRepos(sources)
    ensures IsGroup(GroupOf(id, sources, extras, dedupe))
  {
    MembersAre(sources);
    ServicesUnique(extras);
    var members := MembersOf(sources);
    forall i | 0 <= i < |members| ensures UniqueKeys(members[i].services) {
      assert HasSource(sources, members[i]);
      var k :| 0 <= k < |sources| && ComesFrom(members[i], sources[k]);
      MergeFilesUnique(sources[k].files);
    }
  }

  /** The text of the group file: what precedes the services, the services, what follows them. */
  function GroupFile(g: Group, head: seq<Line>, tail: seq<Line>): seq<Line> {
    Document(head, [], EmittedServices(Kept(Candidates(g))), tail)
  }

  lemma GroupFileIs(g: Group, head: seq<Line>, tail: seq<Line>)
    ensures GroupFile(g, head, tail) == head + [SERVICES_KEY] + Blocks(EmittedServices(Kept(Candidates(g)))) + tail
  {
    assert head + [SERVICES_KEY] + [] == head + [SERVICES_KEY];
  }

  method BuildContributions(id: string, sources: seq<Source>) returns (cs: seq<Contribution>)
    requires DistinctRepos(sources)
    ensures |cs| == |MembersOf(sources)|
    ensures forall i :: 0 <= i < |cs| ==> fresh(cs[i])
    ensures Distinct(cs)
    ensures forall i :: 0 <= i < |cs| ==>
              && cs[i].repo == MembersOf(sources)[i].repo && cs[i].services == MembersOf(sources)[i].services
              && cs[i].rel == Rel(id, cs[i].repo) && cs[i].renamed == map[] && cs[i].dropped == {}
  {
    cs := [];
    for k := 0 to |sources|
      invariant |cs| == |MembersOf(sources[..k])|
      invariant forall i :: 0 <= i < |cs| ==> fresh(cs[i])
      invariant Distinct(cs)
      invariant forall i :: 0 <= i < |cs| ==>
                  && cs[i].repo == MembersOf(sources[..k])[i].repo
                  && cs[i].services == MembersOf(sources[..k])[i].services
                  && cs[i].rel == Rel(id, cs[i].repo) && cs[i].renamed == map[] && cs[i].dropped == {}
    {
      TakeSnoc(sources, k);
      var base := BuildMember(sources[k].files);
      if base.Some? {
        var c := new Contribution(id, Member(sources[k].repo, base.value));
        assert c !in cs;
        cs := cs + [c];
      }
    }
    TakeAll(sources);
  }

  /** `generate`: read and merge the sources, decide the names, emit the services. It stops only on
      a name pinned to a repo that does not declare it. */
  method Generate(id: string, sources: seq<Source>, extras: seq<Line>, dedupe: map<string, string>,
                  head: seq<Line>, tail: seq<Line>)
    returns (stopped: Option<string>, lines: seq<Line>, skipped: seq<Origin>)
    requires DistinctRepos(sources)
    ensures var g := GroupOf(id, sources, extras, dedupe);
            && (stopped.Some? <==> exists n :: IsMispinned(g, n))
            && (stopped.None? ==> lines == GroupFile(g, head, tail))
            && (stopped.None? ==> (skipped == [] <==> NoPrefixClash(g)))
  {
    ghost var g := GroupOf(id, sources, extras, dedupe);
    GroupIsGroup(id, sources, extras, dedupe);
    var own := Read(extras);
    var cs := BuildContributions(id, sources);
    stopped := NameServices(Group(id, MembersOf(sources), own, dedupe), cs);
    lines, skipped := [], [];
    if stopped.None? {
      var services, claimed;
      NamedAll(g, cs, |cs|);
      services, claimed, skipped := EmitServices(Group(id, MembersOf(sources), own, dedupe), cs);
      lines := head + [SERVICES_KEY] + services + tail;
      hide GroupFile, NoPrefixClash, Blocks, Kept, Candidates;
      GroupFileIs(g, head, tail);
      NothingSkippedIff(g);
    }
  }
}
