/** Packing what a group's compose files declare, and planning the restore from it. */
module Restore {
  import opened Basics
  import opened Dicts

  /** A container as recorded; a name it lacks is empty. */
  datatype Container = Container(service: string, dir: string, files: seq<string>)

  /** What one used list of compose files declares. */
  datatype ServiceSet = ServiceSet(dir: string, files: seq<string>, services: seq<string>)

  datatype Bundle = Bundle(excluded: set<string>, containers: seq<Container>, sets: seq<ServiceSet>)

  /** A compose directory and the files it is brought up with. */
  datatype Project = Project(dir: string, files: seq<string>)

  /** Each element the first time it occurs. */
  function Once<T(==)>(s: seq<T>): seq<T>
    decreases |s|
  {
    if s == [] then []
    else
      var once, last := Once(s[..|s| - 1]), s[|s| - 1];
      if last in once then once else once + [last]
  }

  lemma {:induction false} OnceHas<T>(s: seq<T>)
    ensures Distinct(Once(s))
    ensures forall x :: x in Once(s) <==> x in s
    decreases |s|
  {
    if s != [] {
      OnceHas(s[..|s| - 1]);
      Snoc(s);
    }
  }

  // ── what is packed ──

  function ProjectsOf(containers: seq<Container>): seq<Project>
    decreases |containers|
  {
    if containers == [] then []
    else
      var last := containers[|containers| - 1];
      ProjectsOf(containers[..|containers| - 1])
        + if last.files == [] then [] else [Project(last.dir, last.files)]
  }

  function Declared(projects: seq<Project>, declares: seq<string> -> seq<string>): seq<ServiceSet>
    decreases |projects|
  {
    if projects == [] then []
    else
      var last := projects[|projects| - 1];
      Declared(projects[..|projects| - 1], declares)
        + if declares(last.files) == [] then [] else [ServiceSet(last.dir, last.files, declares(last.files))]
  }

  lemma {:induction false} OnceSnoc<T>(s: seq<T>, x: T)
    ensures Once(s + [x]) == if x in s then Once(s) else Once(s) + [x]
  {
    assert (s + [x])[..|s|] == s;
    OnceHas(s);
  }

  lemma DeclaredSnoc(projects: seq<Project>, p: Project, declares: seq<string> -> seq<string>)
    ensures Declared(projects + [p], declares)
         == Declared(projects, declares)
              + if declares(p.files) == [] then [] else [ServiceSet(p.dir, p.files, declares(p.files))]
  {
    assert (projects + [p])[..|projects|] == projects;
  }

  /** One entry per list of files some container was created with. */
  method DeclaredServices(containers: seq<Container>, declares: seq<string> -> seq<string>)
    returns (out: seq<ServiceSet>)
    ensures out == Declared(Once(ProjectsOf(containers)), declares)
  {
    out := [];
    var seen: set<Project> := {};
    for i := 0 to |containers|
      invariant out == Declared(Once(ProjectsOf(containers[..i])), declares)
      invariant forall p :: p in seen <==> p in ProjectsOf(containers[..i])
    {
      TakeSnoc(containers, i);
      var c := containers[i];
      ghost var before := ProjectsOf(containers[..i]);
      assert before + [] == before;
      if c.files == [] {
        continue;
      }
      var key := Project(c.dir, c.files);
      OnceSnoc(before, key);
      if key in seen {
        continue;
      }
      seen := seen + {key};
      DeclaredSnoc(Once(before), key, declares);
      var services := declares(c.files);
      if services != [] {
        out := out + [ServiceSet(c.dir, c.files, services)];
      } else {
        assert out + [] == out;
      }
    }
    TakeAll(containers);
  }

  // ── the plans ──

  /** Services named for one project, at one point of the bundle. */
  datatype Mention = Mention(project: Project, services: seq<string>)

  function Relative(dir: string, files: seq<string>, rel: string -> string): Project {
    Project(rel(dir), seq(|files|, i requires 0 <= i < |files| => rel(files[i])))
  }

  function PackedMentions(containers: seq<Container>, rel: string -> string): seq<Mention>
    decreases |containers|
  {
    if containers == [] then []
    else
      var last := containers[|containers| - 1];
      PackedMentions(containers[..|containers| - 1], rel)
        + if last.service == "" || last.dir == "" then []
          else [Mention(Relative(last.dir, last.files, rel), [last.service])]
  }

  function DeclaredMentions(sets: seq<ServiceSet>, rel: string -> string): seq<Mention>
    decreases |sets|
  {
    if sets == [] then []
    else
      var last := sets[|sets| - 1];
      DeclaredMentions(sets[..|sets| - 1], rel)
        + if last.files == [] then [] else [Mention(Relative(last.dir, last.files, rel), last.services)]
  }

  /** Every mention, the containers' first. */
  function Mentions(b: Bundle, rel: string -> string): seq<Mention> {
    PackedMentions(b.containers, rel) + DeclaredMentions(b.sets, rel)
  }

  function Projects(mentions: seq<Mention>): seq<Project> {
    seq(|mentions|, i requires 0 <= i < |mentions| => mentions[i].project)
  }

  /** Everything named for a project, in order. */
  function NamedFor(mentions: seq<Mention>, p: Project): seq<string>
    decreases |mentions|
  {
    if mentions == [] then []
    else
      NamedFor(mentions[..|mentions| - 1], p)
        + if mentions[|mentions| - 1].project == p then mentions[|mentions| - 1].services else []
  }

  function Without(services: seq<string>, excluded: set<string>): seq<string>
    decreases |services|
  {
    if services == [] then []
    else
      Without(services[..|services| - 1], excluded)
        + if services[|services| - 1] in excluded then [] else [services[|services| - 1]]
  }

  /** The services to start for a project: each one named for it, once, but for the excluded. */
  function PlanOf(mentions: seq<Mention>, p: Project, excluded: set<string>): seq<string> {
    Once(Without(NamedFor(mentions, p), excluded))
  }

  /** A plan for each project, in the order they are first mentioned. */
  function PlansOf(mentions: seq<Mention>, excluded: set<string>): Dict<Project, seq<string>> {
    PlansFor(Once(Projects(mentions)), mentions, excluded)
  }

  function PlansFor(projects: seq<Project>, mentions: seq<Mention>, excluded: set<string>): Dict<Project, seq<string>> {
    seq(|projects|, i requires 0 <= i < |projects| => Dicts.Entry(projects[i], PlanOf(mentions, projects[i], excluded)))
  }

  lemma PlansHave(mentions: seq<Mention>, excluded: set<string>, p: Project)
    ensures Has(PlansOf(mentions, excluded), p) <==> p in Projects(mentions)
    ensures UniqueKeys(PlansOf(mentions, excluded))
    ensures Has(PlansOf(mentions, excluded), p) ==> Get(PlansOf(mentions, excluded), p) == PlanOf(mentions, p, excluded)
  {
    var projects, plans := Once(Projects(mentions)), PlansOf(mentions, excluded);
    OnceHas(Projects(mentions));
    if p in projects {
      var i :| 0 <= i < |projects| && projects[i] == p;
      assert plans[i].key == p;
      GetAt(plans, i);
    }
  }

  lemma NamedSnoc(mentions: seq<Mention>, m: Mention, p: Project)
    ensures NamedFor(mentions + [m], p) == NamedFor(mentions, p) + if m.project == p then m.services else []
  {
    assert (mentions + [m])[..|mentions|] == mentions;
  }

  lemma {:induction false} WithoutConcat(a: seq<string>, b: seq<string>, excluded: set<string>)
    ensures Without(a + b, excluded) == Without(a, excluded) + Without(b, excluded)
    decreases |b|
  {
    if b == [] {
      assert a + b == a;
      assert Without(a, excluded) + [] == Without(a, excluded);
    } else {
      ConcatInit(a, b);
      WithoutConcat(a, b[..|b| - 1], excluded);
      Associate(Without(a, excluded), Without(b[..|b| - 1], excluded),
                if b[|b| - 1] in excluded then [] else [b[|b| - 1]]);
    }
  }

  lemma PlanSnoc(mentions: seq<Mention>, m: Mention, p: Project, excluded: set<string>)
    ensures PlanOf(mentions + [m], p, excluded)
         == if p == m.project then Once(Without(NamedFor(mentions, p) + m.services, excluded))
            else PlanOf(mentions, p, excluded)
  {
    NamedSnoc(mentions, m, p);
    assert NamedFor(mentions, p) + [] == NamedFor(mentions, p);
  }

  /** A mention changes the plan of its own project and no other. */
  lemma {:induction false} OtherPlansStay(projects: seq<Project>, mentions: seq<Mention>, m: Mention,
                                          excluded: set<string>)
    requires Distinct(projects)
    ensures var after := PlansFor(projects, mentions + [m], excluded);
            var plan := PlanOf(mentions + [m], m.project, excluded);
            forall i :: 0 <= i < |projects| ==>
              after[i] == if projects[i] == m.project then Dicts.Entry(m.project, plan)
                          else PlansFor(projects, mentions, excluded)[i]
  {
    hide PlanOf;
    forall i | 0 <= i < |projects| && projects[i] != m.project
      ensures PlanOf(mentions + [m], projects[i], excluded) == PlanOf(mentions, projects[i], excluded)
    {
      PlanSnoc(mentions, m, projects[i], excluded);
    }
  }

  lemma {:induction false} PutAt(plans: Dict<Project, seq<string>>, plans': Dict<Project, seq<string>>, p: Project,
                                 plan: seq<string>)
    requires UniqueKeys(plans) && |plans'| == |plans| && Has(plans, p)
    requires forall i :: 0 <= i < |plans| ==>
               plans'[i] == if plans[i].key == p then Dicts.Entry(p, plan) else plans[i]
    ensures plans' == Put(plans, p, plan)
  {
    var k := Find(plans, p);
    forall i | 0 <= i < |plans| ensures plans'[i] == plans[k := Dicts.Entry(p, plan)][i] {
      assert i != k ==> plans[i].key != plans[k].key;
    }
  }

  lemma PlansForHave(projects: seq<Project>, mentions: seq<Mention>, excluded: set<string>, p: Project)
    requires Distinct(projects)
    ensures UniqueKeys(PlansFor(projects, mentions, excluded))
    ensures p in projects ==> Has(PlansFor(projects, mentions, excluded), p)
  {
    hide PlanOf;
    var plans := PlansFor(projects, mentions, excluded);
    if p in projects {
      var i :| 0 <= i < |projects| && projects[i] == p;
      assert plans[i].key == p;
    }
  }

  lemma {:induction false} KnownPlan(projects: seq<Project>, mentions: seq<Mention>, m: Mention, excluded: set<string>)
    requires Distinct(projects) && m.project in projects
    ensures PlansFor(projects, mentions + [m], excluded)
         == Put(PlansFor(projects, mentions, excluded), m.project, PlanOf(mentions + [m], m.project, excluded))
  {
    hide PlanOf, Put, Has, UniqueKeys;
    OtherPlansStay(projects, mentions, m, excluded);
    PlansForHave(projects, mentions, excluded, m.project);
    PutAt(PlansFor(projects, mentions, excluded), PlansFor(projects, mentions + [m], excluded), m.project,
          PlanOf(mentions + [m], m.project, excluded));
  }

  lemma {:induction false} NewPlan(projects: seq<Project>, mentions: seq<Mention>, m: Mention, excluded: set<string>)
    requires Distinct(projects) && m.project !in projects
    ensures PlansFor(projects + [m.project], mentions + [m], excluded)
         == Put(PlansFor(projects, mentions, excluded), m.project, PlanOf(mentions + [m], m.project, excluded))
  {
    OtherPlansStay(projects, mentions, m, excluded);
    hide PlanOf, Put;
    PutNew(PlansFor(projects, mentions, excluded), m.project, PlanOf(mentions + [m], m.project, excluded));
  }

  /** A mention of a project known or new. */
  lemma {:induction false} PlansSnoc(mentions: seq<Mention>, m: Mention, excluded: set<string>)
    ensures PlansOf(mentions + [m], excluded)
         == Put(PlansOf(mentions, excluded), m.project,
                Once(Without(NamedFor(mentions, m.project) + m.services, excluded)))
  {
    var projects := Once(Projects(mentions));
    assert Projects(mentions + [m]) == Projects(mentions) + [m.project];
    OnceSnoc(Projects(mentions), m.project);
    OnceHas(Projects(mentions));
    PlanSnoc(mentions, m, m.project, excluded);
    hide Once, Without, NamedFor, PlanOf, PlansFor, Put, Projects;
    if m.project in Projects(mentions) {
      KnownPlan(projects, mentions, m, excluded);
    } else {
      NewPlan(projects, mentions, m, excluded);
    }
  }

  lemma PutNew(plans: Dict<Project, seq<string>>, p: Project, plan: seq<string>)
    requires !Has(plans, p)
    ensures Put(plans, p, plan) == plans + [Dicts.Entry(p, plan)]
  {
  }

  lemma {:induction false} NotNamed(mentions: seq<Mention>, p: Project)
    requires p !in Projects(mentions)
    ensures NamedFor(mentions, p) == []
    decreases |mentions|
  {
    if mentions != [] {
      var init := mentions[..|mentions| - 1];
      assert Projects(mentions)[|init|] == mentions[|init|].project;
      assert forall i :: 0 <= i < |init| ==> Projects(init)[i] == Projects(mentions)[i];
      NotNamed(init, p);
    }
  }

  lemma WithoutSnoc(services: seq<string>, svc: string, excluded: set<string>)
    ensures Without(services + [svc], excluded) == Without(services, excluded) + if svc in excluded then [] else [svc]
  {
    assert (services + [svc])[..|services|] == services;
  }

  lemma AddOne(named: seq<string>, svc: string, excluded: set<string>)
    ensures var plan := Once(Without(named, excluded));
            Once(Without(named + [svc], excluded)) == if svc in excluded || svc in plan then plan else plan + [svc]
  {
    WithoutSnoc(named, svc, excluded);
    OnceSnoc(Without(named, excluded), svc);
    OnceHas(Without(named, excluded));
    assert Without(named, excluded) + [] == Without(named, excluded);
  }

  /** The services of one mention, added to a project's plan. */
  method AddServices(services: seq<string>, more: seq<string>, excluded: set<string>, ghost named: seq<string>)
    returns (services': seq<string>)
    requires services == Once(Without(named, excluded))
    ensures services' == Once(Without(named + more, excluded))
  {
    hide Once, Without;
    services' := services;
    assert named + more[..0] == named;
    for i := 0 to |more|
      invariant services' == Once(Without(named + more[..i], excluded))
    {
      assert named + more[..i] + [more[i]] == named + more[..i + 1];
      AddOne(named + more[..i], more[i], excluded);
      if more[i] in excluded || more[i] in services' {
        continue;
      }
      services' := services' + [more[i]];
    }
    TakeAll(more);
  }

  method AddMention(plans: Dict<Project, seq<string>>, m: Mention, excluded: set<string>, ghost mentions: seq<Mention>)
    returns (plans': Dict<Project, seq<string>>)
    requires plans == PlansOf(mentions, excluded)
    ensures plans' == PlansOf(mentions + [m], excluded)
  {
    PlansHave(mentions, excluded, m.project);
    PlansSnoc(mentions, m, excluded);
    var services := if Has(plans, m.project) then Get(plans, m.project) else [];
    if !Has(plans, m.project) {
      NotNamed(mentions, m.project);
    }
    services := AddServices(services, m.services, excluded, NamedFor(mentions, m.project));
    plans' := Put(plans, m.project, services);
  }

  lemma PackedSnoc(containers: seq<Container>, i: nat, rel: string -> string)
    requires i < |containers|
    ensures PackedMentions(containers[..i + 1], rel)
         == PackedMentions(containers[..i], rel)
            + if containers[i].service == "" || containers[i].dir == "" then []
              else [Mention(Relative(containers[i].dir, containers[i].files, rel), [containers[i].service])]
  {
    TakeSnoc(containers, i);
  }

  lemma DeclaredMentionsSnoc(sets: seq<ServiceSet>, i: nat, rel: string -> string)
    requires i < |sets|
    ensures DeclaredMentions(sets[..i + 1], rel)
         == DeclaredMentions(sets[..i], rel)
            + if sets[i].files == [] then [] else [Mention(Relative(sets[i].dir, sets[i].files, rel), sets[i].services)]
  {
    TakeSnoc(sets, i);
  }

  function PackedServices(containers: seq<Container>): set<string> {
    set c | c in containers :: c.service
  }

  /** The plan of every project, and the services that came from a container. */
  method BuildRestorePlans(b: Bundle, rel: string -> string)
    returns (plans: Dict<Project, seq<string>>, packed: set<string>)
    ensures plans == PlansOf(Mentions(b, rel), b.excluded)
    ensures packed == PackedServices(b.containers)
  {
    packed := PackedServices(b.containers);
    plans := [];
    for i := 0 to |b.containers|
      invariant plans == PlansOf(PackedMentions(b.containers[..i], rel), b.excluded)
    {
      PackedSnoc(b.containers, i, rel);
      var c := b.containers[i];
      ghost var before := PackedMentions(b.containers[..i], rel);
      assert before + [] == before;
      if c.service == "" || c.dir == "" {
        continue;
      }
      plans := AddMention(plans, Mention(Relative(c.dir, c.files, rel), [c.service]), b.excluded, before);
    }
    TakeAll(b.containers);
    ghost var packedMentions := PackedMentions(b.containers, rel);
    assert packedMentions + DeclaredMentions(b.sets[..0], rel) == packedMentions;
    for i := 0 to |b.sets|
      invariant plans == PlansOf(packedMentions + DeclaredMentions(b.sets[..i], rel), b.excluded)
    {
      DeclaredMentionsSnoc(b.sets, i, rel);
      var s := b.sets[i];
      ghost var before := DeclaredMentions(b.sets[..i], rel);
      assert before + [] == before;
      if s.files == [] {
        continue;
      }
      var m := Mention(Relative(s.dir, s.files, rel), s.services);
      Associate(packedMentions, before, [m]);
      plans := AddMention(plans, m, b.excluded, packedMentions + before);
    }
    TakeAll(b.sets);
  }

  // ── what the plans hold ──

  /** The project is this directory with these files, in this order. */
  predicate IsAt(p: Project, dir: string, files: seq<string>, rel: string -> string) {
    p.dir == rel(dir) && |p.files| == |files| && forall i :: 0 <= i < |files| ==> p.files[i] == rel(files[i])
  }

  /** A container of this service was recorded for the project. */
  ghost predicate IsPacked(b: Bundle, rel: string -> string, p: Project, svc: string) {
    exists c :: c in b.containers && c.service == svc && svc != "" && c.dir != "" && IsAt(p, c.dir, c.files, rel)
  }

  /** The project's compose files declare the service. */
  ghost predicate IsDeclared(b: Bundle, rel: string -> string, p: Project, svc: string) {
    exists s :: s in b.sets && s.files != [] && IsAt(p, s.dir, s.files, rel) && svc in s.services
  }

  lemma AtIs(p: Project, dir: string, files: seq<string>, rel: string -> string)
    ensures IsAt(p, dir, files, rel) <==> Relative(dir, files, rel) == p
  {
  }

  lemma NamedByRelative(b: Bundle, rel: string -> string, p: Project, svc: string)
    ensures IsPacked(b, rel, p, svc) <==>
              exists c :: c in b.containers && c.service == svc && svc != "" && c.dir != ""
                && Relative(c.dir, c.files, rel) == p
    ensures IsDeclared(b, rel, p, svc) <==>
              exists s :: s in b.sets && s.files != [] && Relative(s.dir, s.files, rel) == p && svc in s.services
  {
    forall c: Container ensures IsAt(p, c.dir, c.files, rel) <==> Relative(c.dir, c.files, rel) == p {
      AtIs(p, c.dir, c.files, rel);
    }
    forall s: ServiceSet ensures IsAt(p, s.dir, s.files, rel) <==> Relative(s.dir, s.files, rel) == p {
      AtIs(p, s.dir, s.files, rel);
    }
    hide IsAt, Relative;
  }

  lemma {:induction false} NamedHas(mentions: seq<Mention>, p: Project, svc: string)
    ensures svc in NamedFor(mentions, p) <==> exists m :: m in mentions && m.project == p && svc in m.services
    decreases |mentions|
  {
    if mentions != [] {
      NamedHas(mentions[..|mentions| - 1], p, svc);
      Snoc(mentions);
    }
  }

  lemma {:induction false} WithoutHas(services: seq<string>, excluded: set<string>)
    ensures forall svc :: svc in Without(services, excluded) <==> svc in services && svc !in excluded
    decreases |services|
  {
    if services != [] {
      WithoutHas(services[..|services| - 1], excluded);
      Snoc(services);
    }
  }

  lemma {:induction false} PackedAre(containers: seq<Container>, rel: string -> string, m: Mention)
    ensures m in PackedMentions(containers, rel) <==>
              exists c :: c in containers && c.service != "" && c.dir != ""
                && m == Mention(Relative(c.dir, c.files, rel), [c.service])
    decreases |containers|
  {
    if containers != [] {
      PackedAre(containers[..|containers| - 1], rel, m);
      Snoc(containers);
    }
  }

  lemma {:induction false} DeclaredAre(sets: seq<ServiceSet>, rel: string -> string, m: Mention)
    ensures m in DeclaredMentions(sets, rel) <==>
              exists s :: s in sets && s.files != [] && m == Mention(Relative(s.dir, s.files, rel), s.services)
    decreases |sets|
  {
    if sets != [] {
      DeclaredAre(sets[..|sets| - 1], rel, m);
      Snoc(sets);
    }
  }

  /** A project's plan lists, once each, exactly the services packed for it or declared by its
      files, but for the excluded; a project without one has no such service. */
  lemma PlanIsExact(b: Bundle, rel: string -> string, p: Project, svc: string)
    ensures var plans := PlansOf(Mentions(b, rel), b.excluded);
            Has(plans, p) && svc in Get(plans, p) <==>
              svc !in b.excluded && (IsPacked(b, rel, p, svc) || IsDeclared(b, rel, p, svc))
    ensures svc in PlanOf(Mentions(b, rel), p, b.excluded) <==>
              svc !in b.excluded && (IsPacked(b, rel, p, svc) || IsDeclared(b, rel, p, svc))
    ensures Distinct(PlanOf(Mentions(b, rel), p, b.excluded))
  {
    var mentions := Mentions(b, rel);
    PlansHave(mentions, b.excluded, p);
    PlannedIsMentioned(mentions, b.excluded, p, svc);
    NamedByRelative(b, rel, p, svc);
    hide IsPacked, IsDeclared, Relative, PlansOf;
    OnceHas(Without(NamedFor(mentions, p), b.excluded));
    WithoutHas(NamedFor(mentions, p), b.excluded);
    NamedHas(mentions, p, svc);
    if m :| m in mentions && m.project == p && svc in m.services {
      PackedAre(b.containers, rel, m);
      DeclaredAre(b.sets, rel, m);
    }
    if c :| c in b.containers && c.service == svc && svc != "" && c.dir != "" && Relative(c.dir, c.files, rel) == p {
      var m := Mention(p, [svc]);
      PackedAre(b.containers, rel, m);
      assert m in mentions && svc in m.services;
    }
    if s :| s in b.sets && s.files != [] && Relative(s.dir, s.files, rel) == p && svc in s.services {
      var m := Mention(p, s.services);
      DeclaredAre(b.sets, rel, m);
      assert m in mentions;
    }
  }

  /** Projects come in the order they are first mentioned. */
  lemma {:induction false} FirstMentionedFirst<T>(s: seq<T>, i: nat, j: nat)
    requires i < j < |s| && s[i] !in s[..i] && s[j] !in s[..j]
    ensures exists k, l :: 0 <= k < l < |Once(s)| && Once(s)[k] == s[i] && Once(s)[l] == s[j]
    decreases |s|
  {
    var init, last := s[..|s| - 1], |s| - 1;
    OnceHas(init);
    if j < last {
      assert init[..i] == s[..i] && init[..j] == s[..j];
      FirstMentionedFirst(init, i, j);
      var k, l :| 0 <= k < l < |Once(init)| && Once(init)[k] == s[i] && Once(init)[l] == s[j];
      assert Once(s)[k] == s[i] && Once(s)[l] == s[j];
    } else {
      assert init[i] == s[i] && init[i] in init;
      var k :| 0 <= k < |Once(init)| && Once(init)[k] == s[i];
      assert Once(s)[k] == s[i] && Once(s)[|Once(init)|] == s[j];
    }
  }

  // ── from the pack to the restore ──

  lemma PlannedIsMentioned(mentions: seq<Mention>, excluded: set<string>, p: Project, svc: string)
    ensures svc in PlanOf(mentions, p, excluded) ==> p in Projects(mentions)
  {
    OnceHas(Without(NamedFor(mentions, p), excluded));
    WithoutHas(NamedFor(mentions, p), excluded);
    if p !in Projects(mentions) {
      NotNamed(mentions, p);
    }
  }

  lemma {:induction false} DeclaredHas(projects: seq<Project>, declares: seq<string> -> seq<string>, s: ServiceSet)
    ensures s in Declared(projects, declares) <==>
              Project(s.dir, s.files) in projects && s.services == declares(s.files) && s.services != []
    decreases |projects|
  {
    if projects != [] {
      DeclaredHas(projects[..|projects| - 1], declares, s);
      Snoc(projects);
    }
  }

  lemma {:induction false} ProjectsHave(containers: seq<Container>, p: Project)
    ensures p in ProjectsOf(containers) <==>
              exists c :: c in containers && c.files != [] && p == Project(c.dir, c.files)
    decreases |containers|
  {
    if containers != [] {
      ProjectsHave(containers[..|containers| - 1], p);
      Snoc(containers);
    }
  }

  /** A bundle as it is packed: its service sets are what its containers' files declare. */
  ghost predicate IsPackedWith(b: Bundle, declares: seq<string> -> seq<string>) {
    b.sets == Declared(Once(ProjectsOf(b.containers)), declares)
  }

  /** Nothing is left behind: every service a container had, and every service its compose files
      declare, is started again with the files the container was created with. */
  lemma RestoreIsComplete(b: Bundle, declares: seq<string> -> seq<string>, rel: string -> string, c: Container,
                          p: Project, svc: string)
    requires IsPackedWith(b, declares) && c in b.containers && svc !in b.excluded
    requires p.dir == rel(c.dir) && |p.files| == |c.files|
    requires forall i :: 0 <= i < |c.files| ==> p.files[i] == rel(c.files[i])
    ensures var plans := PlansOf(Mentions(b, rel), b.excluded);
            && (svc == c.service != "" && c.dir != "" ==> Has(plans, p) && svc in Get(plans, p))
            && (c.files != [] && svc in declares(c.files) ==> Has(plans, p) && svc in Get(plans, p))
  {
    PlanIsExact(b, rel, p, svc);
    hide PlansOf, PlanOf, Mentions;
    if svc == c.service != "" && c.dir != "" {
      assert IsPacked(b, rel, p, svc);
    }
    if c.files != [] && svc in declares(c.files) {
      var key, s := Project(c.dir, c.files), ServiceSet(c.dir, c.files, declares(c.files));
      OnceHas(ProjectsOf(b.containers));
      ProjectsHave(b.containers, key);
      DeclaredHas(Once(ProjectsOf(b.containers)), declares, s);
      assert IsDeclared(b, rel, p, svc);
    }
  }

  // ── starting without building ──

  /** The services of a plan that came from no container at all. */
  predicate NothingAdded(plan: seq<string>, packed: set<string>) {
    forall svc :: svc in plan ==> svc in packed
  }

  /** A service declared for one project, without a container there, and packed for something else. */
  ghost predicate IsBorrowed(b: Bundle, rel: string -> string, p: Project, svc: string) {
    && svc !in b.excluded && IsDeclared(b, rel, p, svc) && !IsPacked(b, rel, p, svc)
    && svc in PackedServices(b.containers)
  }

  /** When nothing seems added, everything the plan starts had a container in that project exactly
      when the plan borrows no name from elsewhere. */
  lemma NoBuildIsSafeIff(b: Bundle, rel: string -> string, p: Project)
    requires NothingAdded(PlanOf(Mentions(b, rel), p, b.excluded), PackedServices(b.containers))
    ensures (forall svc :: svc in PlanOf(Mentions(b, rel), p, b.excluded) ==> IsPacked(b, rel, p, svc))
       <==> (forall svc :: !IsBorrowed(b, rel, p, svc))
  {
    forall svc
      ensures svc in PlanOf(Mentions(b, rel), p, b.excluded) && !IsPacked(b, rel, p, svc) <==>
                IsBorrowed(b, rel, p, svc)
    {
      PlanIsExact(b, rel, p, svc);
    }
  }

  /** Names that belong to one project only, on containers that all have a compose directory, are
      never borrowed. */
  lemma UniqueNamesAreSafe(b: Bundle, rel: string -> string, p: Project, svc: string)
    requires "" !in PackedServices(b.containers) && forall c :: c in b.containers ==> c.dir != ""
    requires forall q, r :: IsPacked(b, rel, q, svc) && IsDeclared(b, rel, r, svc) ==> q == r
    ensures !IsBorrowed(b, rel, p, svc)
  {
    if svc in PackedServices(b.containers) {
      var c :| c in b.containers && c.service == svc;
      assert c.service in PackedServices(b.containers);
      assert IsPacked(b, rel, Relative(c.dir, c.files, rel), svc);
    }
  }

  /** Two projects that declare one name, only one of them with a container of it: the other's is
      started as if it had been packed, although no container of it ever was. */
  lemma SharedNameIsBorrowed(a: Container, d: Container, declares: seq<string> -> seq<string>, rel: string -> string)
    requires a.service != "" && d.service != "" && a.service != d.service && a.dir != "" && d.dir != "" && d.files != []
    requires Relative(a.dir, a.files, rel) != Relative(d.dir, d.files, rel)
    requires declares(d.files) == [d.service, a.service]
    ensures var b := Bundle({}, [a, d], Declared(Once(ProjectsOf([a, d])), declares));
            var p := Relative(d.dir, d.files, rel);
            && NothingAdded(PlanOf(Mentions(b, rel), p, b.excluded), PackedServices(b.containers))
            && a.service in PlanOf(Mentions(b, rel), p, b.excluded) && !IsPacked(b, rel, p, a.service)
  {
    hide Once, ProjectsOf, Declared, PlanOf, Mentions, Relative;
    var containers := [a, d];
    var b, p := Bundle({}, containers, Declared(Once(ProjectsOf(containers)), declares)), Relative(d.dir, d.files, rel);
    assert a in containers && d in containers;
    assert a.service in declares(d.files);
    AtIs(p, d.dir, d.files, rel);
    RestoreIsComplete(b, declares, rel, d, p, a.service);
    NamedByRelative(b, rel, p, a.service);
    assert !IsPacked(b, rel, p, a.service);
    forall svc | svc in PlanOf(Mentions(b, rel), p, b.excluded) ensures svc in PackedServices(b.containers) {
      PlanIsExact(b, rel, p, svc);
      if IsDeclared(b, rel, p, svc) {
        DeclaredByOne(a, d, declares, rel, svc);
      }
    }
  }

  lemma DeclaredByOne(a: Container, d: Container, declares: seq<string> -> seq<string>, rel: string -> string,
                      svc: string)
    requires Relative(a.dir, a.files, rel) != Relative(d.dir, d.files, rel)
    requires IsDeclared(Bundle({}, [a, d], Declared(Once(ProjectsOf([a, d])), declares)), rel,
                        Relative(d.dir, d.files, rel), svc)
    ensures svc in declares(d.files)
  {
    var containers := [a, d];
    var sets, p := Declared(Once(ProjectsOf(containers)), declares), Relative(d.dir, d.files, rel);
    NamedByRelative(Bundle({}, containers, sets), rel, p, svc);
    hide Once, ProjectsOf, Declared, Relative, IsDeclared;
    var s :| s in sets && s.files != [] && Relative(s.dir, s.files, rel) == p && svc in s.services;
    DeclaredHas(Once(ProjectsOf(containers)), declares, s);
    OnceHas(ProjectsOf(containers));
    ProjectsHave(containers, Project(s.dir, s.files));
    var c :| c in containers && c.files != [] && Project(s.dir, s.files) == Project(c.dir, c.files);
    assert c == d;
  }
}
