/** The drift checker's report on one group: what it finds, pairs, sets aside and fails on. */
module DriftReport {
  import opened Basics
  import opened ComposeText
  import opened IncludeGraph
  import opened Names
  import opened SourcesHeader
  import opened Drift
  import Paths

  // ── who is compared ──

  /** `table.setdefault(repo, []).extend(files)` for each line of a `# Sources:` header. */
  function AddSources(table: map<string, seq<string>>, sources: seq<(string, seq<string>)>): map<string, seq<string>>
    decreases |sources|
  {
    if sources == [] then table
    else
      var before := AddSources(table, sources[..|sources| - 1]);
      var (repo, files) := sources[|sources| - 1];
      before[repo := GetOr(before, repo, []) + files]
  }

  function HeaderOf(tree: Tree, path: Paths.Path): seq<(string, seq<string>)> {
    if path in tree then HeaderEntries(tree[path].lines) else []
  }

  /** Which files each repo is deployed from, by the headers of the followed files. */
  function Deployed(tree: Tree, files: seq<Paths.Path>): map<string, seq<string>>
    decreases |files|
  {
    if files == [] then map[]
    else AddSources(Deployed(tree, files[..|files| - 1]), HeaderOf(tree, files[|files| - 1]))
  }

  lemma AddSnoc(table: map<string, seq<string>>, sources: seq<(string, seq<string>)>, repo: string, files: seq<string>)
    ensures AddSources(table, sources + [(repo, files)])
         == AddSources(table, sources)[repo := GetOr(AddSources(table, sources), repo, []) + files]
  {
    assert (sources + [(repo, files)])[..|sources|] == sources;
  }

  /** One file, line by line: past the title each entry is added, up to the first line that is none. */
  method AddHeader(lines: seq<Line>, table: map<string, seq<string>>) returns (table': map<string, seq<string>>)
    ensures table' == AddSources(table, HeaderEntries(lines))
  {
    table' := table;
    ghost var done: seq<(string, seq<string>)> := [];
    var inside := false;
    for i := 0 to |lines|
      invariant table' == AddSources(table, done)
      invariant done + EntriesFrom(lines[i..], inside) == HeaderEntries(lines)
    {
      assert lines[i..][1..] == lines[i + 1..];
      if IsTitle(lines[i]) {
        inside := true;
        continue;
      }
      if inside {
        var entry := EntryOf(lines[i]);
        if entry.None? {
          assert done + [] == done;
          return;
        }
        var (repo, files) := entry.value;
        AddSnoc(table, done, repo, files);
        Associate(done, [(repo, files)], EntriesFrom(lines[i + 1..], true));
        table' := table'[repo := (if repo in table' then table'[repo] else []) + files];
        done := done + [(repo, files)];
      }
    }
    assert done + [] == done;
  }

  method DeployedSources(tree: Tree, files: seq<Paths.Path>) returns (table: map<string, seq<string>>)
    ensures table == Deployed(tree, files)
  {
    table := map[];
    for i := 0 to |files|
      invariant table == Deployed(tree, files[..i])
    {
      TakeSnoc(files, i);
      if files[i] in tree {
        table := AddHeader(tree[files[i]].lines, table);
      }
    }
    TakeAll(files);
  }

  /** A repo's compose files by name. */
  type Directory = map<string, seq<Line>>

  /** The files of a repo that are compared: those the group deploys, or all when it lists none. */
  function Compared(files: Directory, wanted: seq<string>): set<string> {
    if wanted == [] then files.Keys else set f | f in files && f in wanted
  }

  /** Several files' services as one: declared when one declares it, gated when one gates it. */
  function UnionOf(files: Directory, names: seq<string>): Gating
    requires forall i :: 0 <= i < |names| ==> names[i] in files
    decreases |names|
  {
    if names == [] then map[]
    else Union(UnionOf(files, names[..|names| - 1]), Declared(files[names[|names| - 1]]))
  }

  function RepoView(files: Directory, wanted: seq<string>): Gating {
    var compared := Compared(files, wanted);
    UnionOf(files, Sorted(compared))
  }

  /** What one repo is compared on: nothing when it has a host of its own, or no file to compare. */
  function MemberOf(repo: string, files: Directory, deployed: map<string, seq<string>>, ownHosts: set<string>)
    : Option<Gating>
  {
    var wanted := GetOr(deployed, repo, []);
    if repo in ownHosts || Compared(files, wanted) == {} then None else Some(RepoView(files, wanted))
  }

  function MembersAmong(repos: map<string, Directory>, deployed: map<string, seq<string>>, ownHosts: set<string>,
                        names: seq<string>): map<string, Gating>
    requires forall i :: 0 <= i < |names| ==> names[i] in repos
    decreases |names|
  {
    if names == [] then map[]
    else
      var last := names[|names| - 1];
      var before := MembersAmong(repos, deployed, ownHosts, names[..|names| - 1]);
      var member := MemberOf(last, repos[last], deployed, ownHosts);
      if member.Some? then before[last := member.value] else before
  }

  /** The member repos of a group, each with its services. */
  function Members(repos: map<string, Directory>, deployed: map<string, seq<string>>, ownHosts: set<string>)
    : map<string, Gating>
  {
    MembersAmong(repos, deployed, ownHosts, Sorted(repos.Keys))
  }

  lemma {:induction false} MembersAmongAre(repos: map<string, Directory>, deployed: map<string, seq<string>>,
                                           ownHosts: set<string>, names: seq<string>, r: string)
    requires forall i :: 0 <= i < |names| ==> names[i] in repos
    requires r in repos
    ensures r in MembersAmong(repos, deployed, ownHosts, names) <==>
              r in names && MemberOf(r, repos[r], deployed, ownHosts).Some?
    ensures r in MembersAmong(repos, deployed, ownHosts, names) ==>
              Some(MembersAmong(repos, deployed, ownHosts, names)[r]) == MemberOf(r, repos[r], deployed, ownHosts)
    decreases |names|
  {
    if names != [] {
      var init, last := names[..|names| - 1], names[|names| - 1];
      MembersAmongAre(repos, deployed, ownHosts, init, r);
      Snoc(names);
    }
  }

  method UnionFiles(files: Directory, names: seq<string>) returns (services: Gating)
    requires forall i :: 0 <= i < |names| ==> names[i] in files
    ensures services == UnionOf(files, names)
  {
    services := map[];
    for i := 0 to |names|
      invariant services == UnionOf(files, names[..i])
    {
      TakeSnoc(names, i);
      var other := ParseServices(files[names[i]]);
      services := Union(services, other);
    }
    TakeAll(names);
  }

  method ReadMember(repo: string, files: Directory, deployed: map<string, seq<string>>, ownHosts: set<string>)
    returns (member: Option<Gating>)
    ensures member == MemberOf(repo, files, deployed, ownHosts)
  {
    if repo in ownHosts {
      return None;
    }
    var wanted := if repo in deployed then deployed[repo] else [];
    var compared := Compared(files, wanted);
    if compared == {} {
      return None;
    }
    var services := UnionFiles(files, Sorted(compared));
    member := Some(services);
  }

  method CollectMembers(repos: map<string, Directory>, deployed: map<string, seq<string>>, ownHosts: set<string>)
    returns (members: map<string, Gating>)
    ensures members == Members(repos, deployed, ownHosts)
  {
    members := map[];
    var children := Sorted(repos.Keys);
    hide Sorted, MemberOf;
    for i := 0 to |children|
      invariant members == MembersAmong(repos, deployed, ownHosts, children[..i])
    {
      var child := children[i];
      TakeSnoc(children, i);
      var member := ReadMember(child, repos[child], deployed, ownHosts);
      if member.Some? {
        members := members[child := member.value];
      }
    }
    TakeAll(children);
  }

  lemma {:induction false} UnionOfIs(files: Directory, names: seq<string>, n: string)
    requires forall i :: 0 <= i < |names| ==> names[i] in files
    ensures n in UnionOf(files, names) <==> exists i :: 0 <= i < |names| && n in Declared(files[names[i]])
    ensures n in UnionOf(files, names) ==>
              (UnionOf(files, names)[n] <==>
                 exists i :: 0 <= i < |names| && n in Declared(files[names[i]]) && Declared(files[names[i]])[n])
    decreases |names|
  {
    if names != [] {
      var init := names[..|names| - 1];
      assert forall i :: 0 <= i < |init| ==> init[i] == names[i];
      UnionOfIs(files, init, n);
      if n in UnionOf(files, init) {
        var k :| 0 <= k < |init| && n in Declared(files[init[k]]);
        assert n in Declared(files[names[k]]);
      }
      if n in UnionOf(files, init) && UnionOf(files, init)[n] {
        var k :| 0 <= k < |init| && n in Declared(files[init[k]]) && Declared(files[init[k]])[n];
        assert Declared(files[names[k]])[n];
      }
    }
  }

  // ── the findings ──

  datatype Report = Report(findings: seq<Finding>, renamed: seq<Pair>, groupOwned: set<string>, stale: seq<string>)

  function MissingFindings(names: seq<string>, owned: map<string, string>, declared: set<string>): seq<Finding>
    requires forall i :: 0 <= i < |names| ==> names[i] in owned
    decreases |names|
  {
    if names == [] then []
    else
      var last := names[|names| - 1];
      MissingFindings(names[..|names| - 1], owned, declared)
        + if last in declared then [] else [Missing(last, owned[last])]
  }

  function ExtraFindings(names: seq<string>): seq<Finding> {
    seq(|names|, i requires 0 <= i < |names| => Extra(names[i]))
  }

  /** A sequence of findings with some of them gone. */
  function Without(findings: seq<Finding>, gone: set<Finding>): seq<Finding>
    decreases |findings|
  {
    if findings == [] then []
    else
      Without(findings[..|findings| - 1], gone)
        + if findings[|findings| - 1] in gone then [] else [findings[|findings| - 1]]
  }

  function OwnHostFindings(repos: seq<string>, deployed: set<string>): seq<Finding>
    decreases |repos|
  {
    if repos == [] then []
    else
      var last := repos[|repos| - 1];
      OwnHostFindings(repos[..|repos| - 1], deployed) + if last in deployed then [OwnHost(last)] else []
  }

  function StaleEntries(repos: seq<string>, deployed: set<string>, present: set<string>): seq<string>
    decreases |repos|
  {
    if repos == [] then []
    else
      var last := repos[|repos| - 1];
      StaleEntries(repos[..|repos| - 1], deployed, present)
        + if last !in deployed && last !in present then [last] else []
  }

  function AllOptIn(members: map<string, Gating>): set<string> {
    set r, n | r in members && n in OptIn(members[r]) :: n
  }

  /** Opted into on the repos' side, under this name or one it looks renamed from. */
  predicate IsGated(optIn: set<string>, name: string) {
    name in optIn || exists g :: g in optIn && LooksRenamed(g, name)
  }

  predicate IsSetAside(optIn: set<string>, f: Finding) {
    f.Extra? && (IsGroupOwned(f.service) || IsGated(optIn, f.service))
  }

  function MissingOf(members: map<string, Gating>, group: Gating): seq<Finding> {
    var owned := RepoServices(members);
    MissingFindings(Sorted(owned.Keys), owned, AlwaysOn(group))
  }

  function ExtrasOf(members: map<string, Gating>, group: Gating): set<string> {
    AlwaysOn(group) - RepoServices(members).Keys
  }

  function PairsOf(members: map<string, Gating>, group: Gating): seq<Pair> {
    MissingFindingsKind(Sorted(RepoServices(members).Keys), RepoServices(members), AlwaysOn(group));
    PairUp(MissingOf(members, group), set n | n in ExtrasOf(members, group) && !IsGroupOwned(n))
  }

  function PairedFindings(pairs: seq<Pair>): set<Finding> {
    PairedMissing(pairs) + set e | e in PairedExtras(pairs) :: Extra(e)
  }

  /** What is left once the pairs are taken out, before the group's own names are. */
  function Unpaired(members: map<string, Gating>, group: Gating): seq<Finding> {
    Without(MissingOf(members, group) + ExtraFindings(Sorted(ExtrasOf(members, group))),
            PairedFindings(PairsOf(members, group)))
  }

  function SetAside(members: map<string, Gating>, findings: seq<Finding>): set<Finding> {
    set f | f in findings && IsSetAside(AllOptIn(members), f)
  }

  /** The report, as the passes of `compare` leave it. */
  function ReportOn(members: map<string, Gating>, group: Gating, deployed: set<string>,
                    ownHosts: set<string>, present: set<string>): Report
  {
    var left := Unpaired(members, group);
    var aside := SetAside(members, left);
    Report(Without(left, aside) + OwnHostFindings(Sorted(ownHosts), deployed),
           PairsOf(members, group),
           set f | f in aside && f.Extra? :: f.service,
           StaleEntries(Sorted(ownHosts), deployed, present))
  }

  lemma {:induction false} MissingFindingsKind(names: seq<string>, owned: map<string, string>, declared: set<string>)
    requires forall i :: 0 <= i < |names| ==> names[i] in owned
    ensures forall i :: 0 <= i < |MissingFindings(names, owned, declared)| ==>
              MissingFindings(names, owned, declared)[i].Missing?
    decreases |names|
  {
    if names != [] {
      MissingFindingsKind(names[..|names| - 1], owned, declared);
    }
  }
}
