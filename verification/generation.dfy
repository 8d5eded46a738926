/** Emitting a whole group: which candidates are kept, and what their names and references mean. */
module Generation {
  import opened Basics
  import opened Dicts
  import opened ComposeText
  import opened Rendering
  import opened Relocation
  import opened Emission
  import opened References
  import opened Naming

  datatype Origin = FromRepo(member: nat, name: string) | FromExtras(name: string)

  /** A service that would be emitted: under which name, from where, with which body. */
  datatype Candidate = Candidate(name: string, origin: Origin, body: Body)

  /** A group as the generator reads it: its repos and every dict keyed once. */
  ghost predicate IsGroup(g: Group) {
    && (forall i, j :: 0 <= i < j < |g.members| ==> g.members[i].repo != g.members[j].repo)
    && (forall i :: 0 <= i < |g.members| ==> UniqueKeys(g.members[i].services))
    && UniqueKeys(g.extras)
  }

  function RepoCandidate(g: Group, i: nat, name: string, body: Body): Candidate
    requires i < |g.members|
  {
    var newName := NameOf(g, i, name);
    Candidate(newName, FromRepo(i, name),
              EmitBody(body, Renames(g, i), Rel(g.id, g.members[i].repo), name, newName, ""))
  }

  function RepoCandidates(g: Group, i: nat, services: Dict<string, Body>): seq<Candidate>
    requires i < |g.members|
    decreases |services|
  {
    if services == [] then []
    else
      var last := services[|services| - 1];
      RepoCandidates(g, i, services[..|services| - 1])
        + if last.key in Drops(g, i) then [] else [RepoCandidate(g, i, last.key, last.value)]
  }

  function MemberCandidates(g: Group, k: nat): seq<Candidate>
    requires k <= |g.members|
  {
    if k == 0 then [] else MemberCandidates(g, k - 1) + RepoCandidates(g, k - 1, g.members[k - 1].services)
  }

  function ExtraCandidates(extras: Dict<string, Body>): seq<Candidate> {
    seq(|extras|, i requires 0 <= i < |extras| => Candidate(extras[i].key, FromExtras(extras[i].key), extras[i].value))
  }

  /** Everything that is not dropped, in the order it is considered: the repos', then the group's own. */
  function Candidates(g: Group): seq<Candidate> {
    MemberCandidates(g, |g.members|) + ExtraCandidates(g.extras)
  }

  function NamesIn(candidates: seq<Candidate>): set<string> {
    set c | c in candidates :: c.name
  }

  /** The first candidate for each name. */
  function Kept(candidates: seq<Candidate>): seq<Candidate>
    decreases |candidates|
  {
    if candidates == [] then []
    else
      var kept := Kept(candidates[..|candidates| - 1]);
      var last := candidates[|candidates| - 1];
      if last.name in NamesIn(kept) then kept else kept + [last]
  }

  /** The candidates whose name was taken. */
  function Skipped(candidates: seq<Candidate>): seq<Candidate>
    decreases |candidates|
  {
    if candidates == [] then []
    else
      var last := candidates[|candidates| - 1];
      Skipped(candidates[..|candidates| - 1])
        + if last.name in NamesIn(Kept(candidates[..|candidates| - 1])) then [last] else []
  }

  /** The emitted services, each followed by a blank line. */
  function EmittedServices(kept: seq<Candidate>): Dict<string, Body> {
    seq(|kept|, i requires 0 <= i < |kept| => Dicts.Entry(kept[i].name, kept[i].body + [Blank]))
  }

  lemma EmittedSnoc(kept: seq<Candidate>, c: Candidate)
    ensures Blocks(EmittedServices(kept + [c])) == Blocks(EmittedServices(kept)) + Block(c.name, c.body + [Blank])
  {
    var services := EmittedServices(kept + [c]);
    assert services[..|services| - 1] == EmittedServices(kept);
  }

  lemma NamesInSnoc(candidates: seq<Candidate>, c: Candidate)
    ensures NamesIn(candidates + [c]) == NamesIn(candidates) + {c.name}
  {
    assert c in candidates + [c];
    assert forall d :: d in candidates + [c] <==> d in candidates || d == c;
  }

  // ── the emission loop ──

  /** What the loop has after considering `done`: the lines out, the names taken, the skips noted. */
  ghost predicate Emitted(done: seq<Candidate>, lines: seq<Line>, claimed: map<string, Origin>, skipped: seq<Origin>) {
    && lines == Blocks(EmittedServices(Kept(done)))
    && claimed.Keys == NamesIn(Kept(done))
    && |skipped| == |Skipped(done)|
    && forall i :: 0 <= i < |skipped| ==> skipped[i] == Skipped(done)[i].origin
  }

  lemma KeptSnoc(done: seq<Candidate>, c: Candidate)
    ensures Kept(done + [c]) == if c.name in NamesIn(Kept(done)) then Kept(done) else Kept(done) + [c]
    ensures Skipped(done + [c]) == Skipped(done) + if c.name in NamesIn(Kept(done)) then [c] else []
  {
    assert (done + [c])[..|done|] == done;
  }

  lemma BlockWritten(lines: seq<Line>, c: Candidate)
    ensures lines + [Line.Entry(2, c.name, Nothing)] + c.body + [Blank] == lines + Block(c.name, c.body + [Blank])
  {
  }

  lemma KeepOne(done: seq<Candidate>, lines: seq<Line>, claimed: map<string, Origin>, skipped: seq<Origin>,
                c: Candidate)
    requires Emitted(done, lines, claimed, skipped) && c.name !in claimed
    ensures Emitted(done + [c], lines + [Line.Entry(2, c.name, Nothing)] + c.body + [Blank],
                    claimed[c.name := c.origin], skipped)
  {
    hide Kept, Skipped, EmittedServices, NamesIn, Blocks, Block;
    KeptSnoc(done, c);
    EmittedSnoc(Kept(done), c);
    NamesInSnoc(Kept(done), c);
    assert Skipped(done) + [] == Skipped(done);
    BlockWritten(lines, c);
  }

  lemma SkipOne(done: seq<Candidate>, lines: seq<Line>, claimed: map<string, Origin>, skipped: seq<Origin>,
                c: Candidate)
    requires Emitted(done, lines, claimed, skipped) && c.name in claimed
    ensures Emitted(done + [c], lines, claimed, skipped + [c.origin])
  {
    KeptSnoc(done, c);
    hide Kept, Skipped, EmittedServices, NamesIn, Blocks;
  }

  lemma ConsiderOne(done: seq<Candidate>, lines: seq<Line>, claimed: map<string, Origin>, skipped: seq<Origin>,
                    c: Candidate)
    requires Emitted(done, lines, claimed, skipped)
    ensures c.name in claimed ==> Emitted(done + [c], lines, claimed, skipped + [c.origin])
    ensures c.name !in claimed ==>
              Emitted(done + [c], lines + [Line.Entry(2, c.name, Nothing)] + c.body + [Blank],
                      claimed[c.name := c.origin], skipped)
  {
    hide Emitted;
    if c.name in claimed {
      SkipOne(done, lines, claimed, skipped, c);
    } else {
      KeepOne(done, lines, claimed, skipped, c);
    }
  }

  method EmitMember(g: Group, i: nat, c: Contribution, ghost done: seq<Candidate>,
                    lines: seq<Line>, claimed: map<string, Origin>, skipped: seq<Origin>)
    returns (lines': seq<Line>, claimed': map<string, Origin>, skipped': seq<Origin>)
    requires i < |g.members| && c.repo == g.members[i].repo && c.services == g.members[i].services
    requires c.rel == Rel(g.id, c.repo) && c.renamed == Renames(g, i) && c.dropped == Drops(g, i)
    requires Emitted(done, lines, claimed, skipped)
    modifies c`section, c`inDependsOn
    ensures Emitted(done + RepoCandidates(g, i, c.services), lines', claimed', skipped')
  {
    hide Emitted, Renames, Drops, EmitBody, EmitLine;
    lines', claimed', skipped' := lines, claimed, skipped;
    assert done + [] == done;
    for j := 0 to |c.services|
      invariant Emitted(done + RepoCandidates(g, i, c.services[..j]), lines', claimed', skipped')
    {
      TakeSnoc(c.services, j);
      var name, body := c.services[j].key, c.services[j].value;
      ghost var before := done + RepoCandidates(g, i, c.services[..j]);
      if name in c.dropped {
        assert RepoCandidates(g, i, c.services[..j]) + [] == RepoCandidates(g, i, c.services[..j]);
        continue;
      }
      ghost var candidate := RepoCandidate(g, i, name, body);
      assert before + [candidate] == done + (RepoCandidates(g, i, c.services[..j]) + [candidate]);
      ConsiderOne(before, lines', claimed', skipped', candidate);
      var newName := if name in c.renamed then c.renamed[name] else name;
      if newName in claimed' {
        skipped' := skipped' + [FromRepo(i, name)];
        continue;
      }
      claimed' := claimed'[newName := FromRepo(i, name)];
      var emitted := c.Emit(name, newName, body);
      lines' := lines' + [Line.Entry(2, newName, Nothing)] + emitted + [Blank];
    }
    TakeAll(c.services);
  }

  /** The naming passes are done: the first `k` contributions know their renames and drops. */
  ghost predicate Named(g: Group, cs: seq<Contribution>, k: nat)
    requires k <= |cs| == |g.members|
    reads cs`renamed, cs`dropped
  {
    k == 0 ||
    (Named(g, cs, k - 1)
     && cs[k - 1].repo == g.members[k - 1].repo && cs[k - 1].services == g.members[k - 1].services
     && cs[k - 1].rel == Rel(g.id, cs[k - 1].repo)
     && cs[k - 1].renamed == Renames(g, k - 1) && cs[k - 1].dropped == Drops(g, k - 1))
  }

  lemma {:induction false} NamedOne(g: Group, cs: seq<Contribution>, k: nat, i: nat)
    requires i < k <= |cs| == |g.members| && Named(g, cs, k)
    ensures cs[i].repo == g.members[i].repo && cs[i].services == g.members[i].services
    ensures cs[i].rel == Rel(g.id, cs[i].repo) && cs[i].renamed == Renames(g, i) && cs[i].dropped == Drops(g, i)
  {
    if i < k - 1 {
      NamedOne(g, cs, k - 1, i);
    }
  }

  lemma {:induction false} NamedAll(g: Group, cs: seq<Contribution>, k: nat)
    requires k <= |cs| == |g.members|
    requires forall i :: 0 <= i < k ==>
               && cs[i].repo == g.members[i].repo && cs[i].services == g.members[i].services
               && cs[i].rel == Rel(g.id, cs[i].repo) && cs[i].renamed == Renames(g, i) && cs[i].dropped == Drops(g, i)
    ensures Named(g, cs, k)
  {
    if k > 0 {
      NamedAll(g, cs, k - 1);
    }
  }

  lemma NothingEmitted(g: Group)
    ensures Emitted(MemberCandidates(g, 0), [], map[], [])
  {
  }

  method EmitNext(g: Group, cs: seq<Contribution>, i: nat,
                  lines: seq<Line>, claimed: map<string, Origin>, skipped: seq<Origin>)
    returns (lines': seq<Line>, claimed': map<string, Origin>, skipped': seq<Origin>)
    requires |cs| == |g.members| && Named(g, cs, |cs|)
    requires i < |cs| && Emitted(MemberCandidates(g, i), lines, claimed, skipped)
    modifies cs`section, cs`inDependsOn
    ensures Named(g, cs, |cs|) && Emitted(MemberCandidates(g, i + 1), lines', claimed', skipped')
  {
    NamedOne(g, cs, |cs|, i);
    lines', claimed', skipped' := EmitMember(g, i, cs[i], MemberCandidates(g, i), lines, claimed, skipped);
  }

  method EmitMembers(g: Group, cs: seq<Contribution>)
    returns (lines: seq<Line>, claimed: map<string, Origin>, skipped: seq<Origin>)
    requires |cs| == |g.members| && Named(g, cs, |cs|)
    modifies cs`section, cs`inDependsOn
    ensures Emitted(MemberCandidates(g, |cs|), lines, claimed, skipped)
  {
    hide Kept, Skipped, EmittedServices, NamesIn, RepoCandidates;
    lines, claimed, skipped := [], map[], [];
    NothingEmitted(g);
    for i := 0 to |cs|
      invariant Named(g, cs, |cs|) && Emitted(MemberCandidates(g, i), lines, claimed, skipped)
    {
      lines, claimed, skipped := EmitNext(g, cs, i, lines, claimed, skipped);
    }
  }

  /** The services section of a group: the repos' services, then the group's own. */
  method EmitServices(g: Group, cs: seq<Contribution>)
    returns (lines: seq<Line>, claimed: map<string, Origin>, skipped: seq<Origin>)
    requires |cs| == |g.members| && Named(g, cs, |cs|)
    modifies cs`section, cs`inDependsOn
    ensures Emitted(Candidates(g), lines, claimed, skipped)
  {
    lines, claimed, skipped := EmitMembers(g, cs);
    lines, claimed, skipped := EmitExtras(g.extras, MemberCandidates(g, |g.members|), lines, claimed, skipped);
  }

  method EmitExtras(extras: Dict<string, Body>, ghost done: seq<Candidate>,
                    lines: seq<Line>, claimed: map<string, Origin>, skipped: seq<Origin>)
    returns (lines': seq<Line>, claimed': map<string, Origin>, skipped': seq<Origin>)
    requires Emitted(done, lines, claimed, skipped)
    ensures Emitted(done + ExtraCandidates(extras), lines', claimed', skipped')
  {
    lines', claimed', skipped' := lines, claimed, skipped;
    assert done + ExtraCandidates(extras[..0]) == done;
    for j := 0 to |extras|
      invariant Emitted(done + ExtraCandidates(extras[..j]), lines', claimed', skipped')
    {
      var name, body := extras[j].key, extras[j].value;
      ghost var c := Candidate(name, FromExtras(name), body);
      assert done + ExtraCandidates(extras[..j]) + [c] == done + ExtraCandidates(extras[..j + 1]);
      ConsiderOne(done + ExtraCandidates(extras[..j]), lines', claimed', skipped', c);
      if name in claimed' {
        skipped' := skipped' + [FromExtras(name)];
      } else {
        lines' := lines' + [Line.Entry(2, name, Nothing)] + body + [Blank];
        claimed' := claimed'[name := FromExtras(name)];
      }
    }
    TakeAll(extras);
  }

  // ── nothing is lost and no name is used twice ──

  lemma {:induction false} KeptOrSkipped(candidates: seq<Candidate>)
    ensures forall c :: c in candidates <==> c in Kept(candidates) || c in Skipped(candidates)
    ensures NamesIn(Kept(candidates)) == NamesIn(candidates)
    ensures forall i, j :: 0 <= i < j < |Kept(candidates)| ==> Kept(candidates)[i].name != Kept(candidates)[j].name
    ensures |Kept(candidates)| + |Skipped(candidates)| == |candidates|
    decreases |candidates|
  {
    if candidates != [] {
      var init, last := candidates[..|candidates| - 1], candidates[|candidates| - 1];
      KeptOrSkipped(init);
      Snoc(candidates);
      NamesInSnoc(init, last);
      NamesInSnoc(Kept(init), last);
      if last.name !in NamesIn(Kept(init)) {
        forall i | 0 <= i < |Kept(init)| ensures Kept(init)[i].name != last.name {
          assert Kept(init)[i] in Kept(init);
        }
      }
    }
  }

  ghost predicate DistinctOrigins(candidates: seq<Candidate>) {
    forall i, j :: 0 <= i < j < |candidates| ==> candidates[i].origin != candidates[j].origin
  }

  lemma LastIsApart(candidates: seq<Candidate>)
    requires DistinctOrigins(candidates) && candidates != []
    ensures var init, last := candidates[..|candidates| - 1], candidates[|candidates| - 1];
            DistinctOrigins(init) && forall c :: c in init ==> c.origin != last.origin
  {
    var init := candidates[..|candidates| - 1];
    assert forall i :: 0 <= i < |init| ==> init[i] == candidates[i];
    forall c | c in init ensures c.origin != candidates[|init|].origin {
      var i :| 0 <= i < |init| && init[i] == c;
      assert candidates[i].origin != candidates[|init|].origin;
    }
  }

  lemma {:induction false} KeptXorSkipped(candidates: seq<Candidate>)
    requires DistinctOrigins(candidates)
    ensures forall c, d :: c in Kept(candidates) && d in Skipped(candidates) ==> c.origin != d.origin
    decreases |candidates|
  {
    if candidates != [] {
      var init, last := candidates[..|candidates| - 1], candidates[|candidates| - 1];
      LastIsApart(candidates);
      hide DistinctOrigins, NamesIn;
      KeptXorSkipped(init);
      KeptOrSkipped(init);
    }
  }

  lemma {:induction false} RepoCandidatesAre(g: Group, i: nat, services: Dict<string, Body>)
    requires i < |g.members| && UniqueKeys(services)
    ensures DistinctOrigins(RepoCandidates(g, i, services))
    ensures forall c :: c in RepoCandidates(g, i, services) ==>
              c.origin.FromRepo? && c.origin.member == i && c.origin.name !in Drops(g, i)
                && Has(services, c.origin.name)
                && c == RepoCandidate(g, i, c.origin.name, Get(services, c.origin.name))
    ensures forall n :: Has(services, n) && n !in Drops(g, i) ==>
              RepoCandidate(g, i, n, Get(services, n)) in RepoCandidates(g, i, services)
    decreases |services|
  {
    if services != [] {
      var init, last := services[..|services| - 1], services[|services| - 1];
      RepoCandidatesAre(g, i, init);
      Snoc(services);
      forall k | 0 <= k < |init| ensures init[k].key != last.key {
        assert services[k].key != services[|init|].key;
      }
      assert !Has(init, last.key);
      forall n
        ensures Has(services, n) <==> Has(init, n) || n == last.key
        ensures Has(init, n) ==> n != last.key && Get(services, n) == Get(init, n)
        ensures Has(services, last.key) && Get(services, last.key) == last.value
      {
        LastWins(init, last, n);
      }
      OriginIs(g, i, last.key, last.value);
      hide Has, Get, Drops, RepoCandidate, UniqueKeys, DistinctOrigins;
      var before := RepoCandidates(g, i, init);
      DistinctSnoc(before, RepoCandidate(g, i, last.key, last.value));
      assert before + [] == before;
    }
  }

  lemma DistinctSnoc(candidates: seq<Candidate>, c: Candidate)
    requires DistinctOrigins(candidates) && forall d :: d in candidates ==> d.origin != c.origin
    ensures DistinctOrigins(candidates + [c])
  {
  }

  lemma OriginIs(g: Group, i: nat, name: string, body: Body)
    requires i < |g.members|
    ensures RepoCandidate(g, i, name, body).origin == FromRepo(i, name)
  {
  }

  ghost predicate IsRepoCandidate(g: Group, c: Candidate, k: nat)
    requires k <= |g.members|
  {
    && c.origin.FromRepo? && c.origin.member < k && c.origin.name !in Drops(g, c.origin.member)
    && Claims(g, c.origin.member, c.origin.name)
    && c == RepoCandidate(g, c.origin.member, c.origin.name, Get(g.members[c.origin.member].services, c.origin.name))
  }

  lemma {:induction false} MemberCandidatesAre(g: Group, k: nat)
    requires IsGroup(g) && k <= |g.members|
    ensures forall c :: c in MemberCandidates(g, k) <==> IsRepoCandidate(g, c, k)
  {
    if k > 0 {
      MemberCandidatesAre(g, k - 1);
      var services := g.members[k - 1].services;
      RepoCandidatesAre(g, k - 1, services);
      forall c ensures c in MemberCandidates(g, k) <==> IsRepoCandidate(g, c, k) {
        if c in RepoCandidates(g, k - 1, services) {
          assert IsRepoCandidate(g, c, k);
        }
        if IsRepoCandidate(g, c, k) && c.origin.member == k - 1 {
          var own := RepoCandidate(g, k - 1, c.origin.name, Get(services, c.origin.name));
          assert own in RepoCandidates(g, k - 1, services);
        }
      }
    }
  }

  lemma {:induction false} MemberOrigins(g: Group, k: nat)
    requires IsGroup(g) && k <= |g.members|
    ensures DistinctOrigins(MemberCandidates(g, k))
    ensures forall i :: 0 <= i < |MemberCandidates(g, k)| ==>
              MemberCandidates(g, k)[i].origin.FromRepo? && MemberCandidates(g, k)[i].origin.member < k
  {
    if k > 0 {
      MemberOrigins(g, k - 1);
      var b := RepoCandidates(g, k - 1, g.members[k - 1].services);
      RepoOrigins(g, k - 1, g.members[k - 1].services);
    }
  }

  lemma RepoOrigins(g: Group, i: nat, services: Dict<string, Body>)
    requires i < |g.members| && UniqueKeys(services)
    ensures DistinctOrigins(RepoCandidates(g, i, services))
    ensures forall j :: 0 <= j < |RepoCandidates(g, i, services)| ==>
              RepoCandidates(g, i, services)[j].origin.FromRepo? && RepoCandidates(g, i, services)[j].origin.member == i
  {
    RepoCandidatesAre(g, i, services);
    var b := RepoCandidates(g, i, services);
    assert forall j :: 0 <= j < |b| ==> b[j] in b;
  }

  /** A candidate of the group: a service of a repo that is not dropped, or one of the group's own. */
  ghost predicate IsCandidate(g: Group, c: Candidate) {
    match c.origin
    case FromRepo(i, n) =>
      i < |g.members| && Claims(g, i, n) && n !in Drops(g, i)
        && c == RepoCandidate(g, i, n, Get(g.members[i].services, n))
    case FromExtras(n) => Has(g.extras, n) && c == Candidate(n, FromExtras(n), Get(g.extras, n))
  }

  lemma CandidatesAre(g: Group)
    requires IsGroup(g)
    ensures DistinctOrigins(Candidates(g))
    ensures forall c :: c in Candidates(g) <==> IsCandidate(g, c)
  {
    MemberCandidatesAre(g, |g.members|);
    MemberOrigins(g, |g.members|);
    var a, b := MemberCandidates(g, |g.members|), ExtraCandidates(g.extras);
    var all: seq<Candidate> := a + b;
    forall i, j | 0 <= i < j < |all| ensures all[i].origin != all[j].origin {
      if i < |a| <= j {
        assert a[i].origin.FromRepo?;
      }
    }
    forall c ensures c in Candidates(g) <==> IsCandidate(g, c) {
      if c in b {
        var j :| 0 <= j < |b| && b[j] == c;
        GetAt(g.extras, j);
      }
      if c.origin.FromExtras? && IsCandidate(g, c) {
        assert b[Find(g.extras, c.name)] == c;
      }
    }
  }

  ghost predicate IsEmitted(g: Group, o: Origin) {
    exists c :: c in Kept(Candidates(g)) && c.origin == o
  }

  ghost predicate IsSkipped(g: Group, o: Origin) {
    exists c :: c in Skipped(Candidates(g)) && c.origin == o
  }

  /** Emitted names are pairwise distinct. */
  lemma EmittedNamesDistinct(g: Group)
    ensures UniqueKeys(EmittedServices(Kept(Candidates(g))))
  {
    KeptOrSkipped(Candidates(g));
  }

  /** Each repo's service is exactly one of emitted, dropped by its pin, or skipped with a note. */
  lemma EveryServiceAccounted(g: Group, i: nat, n: string)
    requires IsGroup(g) && i < |g.members| && Claims(g, i, n)
    ensures var o := FromRepo(i, n);
            && (IsEmitted(g, o) || IsDropped(g, i, n) || IsSkipped(g, o))
            && !(IsEmitted(g, o) && IsDropped(g, i, n))
            && !(IsEmitted(g, o) && IsSkipped(g, o))
            && !(IsDropped(g, i, n) && IsSkipped(g, o))
  {
    CandidatesAre(g);
    KeptOrSkipped(Candidates(g));
    KeptXorSkipped(Candidates(g));
    NamesOfHas(g.members[i].services, n);
    if n !in Drops(g, i) {
      var c := RepoCandidate(g, i, n, Get(g.members[i].services, n));
      assert IsCandidate(g, c);
    }
  }

  /** Each of the group's own services is exactly one of emitted or skipped. */
  lemma EveryExtraAccounted(g: Group, n: string)
    requires IsGroup(g) && Has(g.extras, n)
    ensures IsEmitted(g, FromExtras(n)) <==> !IsSkipped(g, FromExtras(n))
  {
    CandidatesAre(g);
    KeptOrSkipped(Candidates(g));
    KeptXorSkipped(Candidates(g));
    var c := Candidate(n, FromExtras(n), Get(g.extras, n));
    assert IsCandidate(g, c);
  }

  // ── when nothing is skipped ──

  ghost predicate IsPrefixed(g: Group, c: Candidate) {
    c.origin.FromRepo? && c.origin.member < |g.members| && IsRenamed(g, c.origin.member, c.origin.name)
  }

  /** No prefixed name is the name of another candidate. */
  ghost predicate NoPrefixClash(g: Group) {
    forall c, d :: c in Candidates(g) && d in Candidates(g) && c.origin != d.origin && IsPrefixed(g, c)
      ==> c.name != d.name
  }

  lemma NameOfIs(g: Group, i: nat, n: string)
    requires i < |g.members| && Claims(g, i, n)
    ensures NameOf(g, i, n) == if IsRenamed(g, i, n) then Prefixed(g.members[i].repo, n) else n
  {
    NamesOfHas(g.members[i].services, n);
  }

  /** Two candidates that keep their plain names never share one. */
  lemma PlainNamesDiffer(g: Group, c: Candidate, d: Candidate)
    requires IsGroup(g) && IsCandidate(g, c) && IsCandidate(g, d)
    requires !IsPrefixed(g, c) && !IsPrefixed(g, d) && c.origin != d.origin
    ensures c.name != d.name
  {
    if c.origin.FromRepo? {
      NameOfIs(g, c.origin.member, c.origin.name);
      NamesOfHas(g.members[c.origin.member].services, c.origin.name);
    }
    if d.origin.FromRepo? {
      NameOfIs(g, d.origin.member, d.origin.name);
      NamesOfHas(g.members[d.origin.member].services, d.origin.name);
    }
    TwoClaimsShare(g, c.name);
  }

  lemma TwoClaimsShare(g: Group, n: string)
    ensures forall i, j :: 0 <= i < |g.members| && 0 <= j < |g.members| && i != j && Claims(g, i, n) && Claims(g, j, n)
              ==> IsShared(g, n)
  {
    forall i, j | 0 <= i < |g.members| && 0 <= j < |g.members| && i != j && Claims(g, i, n) && Claims(g, j, n)
      ensures IsShared(g, n)
    {
      if i < j {
        assert Claims(g, i, n) && Claims(g, j, n);
      } else {
        assert Claims(g, j, n) && Claims(g, i, n);
      }
    }
  }

  /** Nothing is skipped exactly when no prefixed name clashes with another candidate's. */
  lemma NothingSkippedIff(g: Group)
    requires IsGroup(g)
    ensures Skipped(Candidates(g)) == [] <==> NoPrefixClash(g)
  {
    CandidatesAre(g);
    var all := Candidates(g);
    KeptOrSkipped(all);
    if NoPrefixClash(g) {
      forall i, j | 0 <= i < j < |all| ensures all[i].name != all[j].name {
        assert all[i] in all && all[j] in all;
        if !IsPrefixed(g, all[i]) && !IsPrefixed(g, all[j]) {
          PlainNamesDiffer(g, all[i], all[j]);
        }
      }
      DistinctNamesKept(all);
    }
    if Skipped(all) == [] {
      forall c, d | c in all && d in all && c.origin != d.origin ensures c.name != d.name {
        assert c in Kept(all) && d in Kept(all);
        var i :| 0 <= i < |Kept(all)| && Kept(all)[i] == c;
        var j :| 0 <= j < |Kept(all)| && Kept(all)[j] == d;
        assert i < j || j < i;
      }
    }
  }

  lemma NameNotIn(candidates: seq<Candidate>, name: string)
    requires forall i :: 0 <= i < |candidates| ==> candidates[i].name != name
    ensures name !in NamesIn(candidates)
  {
  }

  lemma {:induction false} DistinctNamesKept(candidates: seq<Candidate>)
    requires forall i, j :: 0 <= i < j < |candidates| ==> candidates[i].name != candidates[j].name
    ensures Kept(candidates) == candidates && Skipped(candidates) == []
    decreases |candidates|
  {
    if candidates != [] {
      var init, last := candidates[..|candidates| - 1], candidates[|candidates| - 1];
      assert forall i :: 0 <= i < |init| ==> init[i] == candidates[i];
      DistinctNamesKept(init);
      NameNotIn(init, last.name);
      Snoc(candidates);
    }
  }

  // ── what a reference means ──

  /** The emitted service called `name` is the one that came from `o`. */
  ghost predicate MeansService(g: Group, name: string, o: Origin) {
    exists c :: c in Kept(Candidates(g)) && c.name == name && c.origin == o
  }

  /** A service of the same repo is called what it was emitted as, unless it was dropped or skipped. */
  lemma SiblingIsMeant(g: Group, i: nat, s: string)
    requires IsGroup(g) && i < |g.members| && Claims(g, i, s)
    ensures MeansService(g, NameOf(g, i, s), FromRepo(i, s)) <==> !IsDropped(g, i, s) && !IsSkipped(g, FromRepo(i, s))
  {
    EveryServiceAccounted(g, i, s);
    CandidatesAre(g);
    KeptOrSkipped(Candidates(g));
    if IsEmitted(g, FromRepo(i, s)) {
      var c :| c in Kept(Candidates(g)) && c.origin == FromRepo(i, s);
      assert IsCandidate(g, c);
    }
  }

  /** A service dropped for its owner's copy is called what that copy was emitted as, exactly when
      the group has no service of its own by that name: then both repos' names are prefixed, and
      the dropped one's leads nowhere the owner's copy is. */
  lemma DroppedMeansKept(g: Group, i: nat, owner: nat, s: string)
    requires IsGroup(g) && NoPrefixClash(g) && i < |g.members| && owner < |g.members|
    requires IsDropped(g, i, s) && Claims(g, owner, s) && g.members[owner].repo == Owner(g, s)
    ensures MeansService(g, NameOf(g, i, s), FromRepo(owner, s)) <==> !Has(g.extras, s)
  {
    NothingSkippedIff(g);
    NameOfIs(g, i, s);
    NameOfIs(g, owner, s);
    SiblingIsMeant(g, owner, s);
    CandidatesAre(g);
    KeptOrSkipped(Candidates(g));
    if Has(g.extras, s) {
      SamePrefixSameRepo(g.members[i].repo, g.members[owner].repo, s);
      forall c | c in Kept(Candidates(g)) && c.origin == FromRepo(owner, s) ensures c.name != NameOf(g, i, s) {
        assert IsCandidate(g, c);
      }
    }
  }

  lemma SamePrefixSameRepo(a: string, b: string, s: string)
    ensures Prefixed(a, s) == Prefixed(b, s) ==> a == b
  {
    assert |Prefixed(a, s)| - |s| - 1 == |a| && |Prefixed(b, s)| - |s| - 1 == |b|;
    assert a == Prefixed(a, s)[..|a|] && b == Prefixed(b, s)[..|b|];
  }

  /** Repos named like services give names usable as services. */
  lemma RenamesKeepNames(g: Group, i: nat)
    requires i < |g.members| && IsNameLike(g.members[i].repo)
    ensures KeepsNames(Renames(g, i))
  {
    forall n | n in Renames(g, i) && IsNameLike(n) ensures IsNameLike(Renames(g, i)[n]) {
      var s := Prefixed(g.members[i].repo, n);
      forall k | 0 <= k < |s| ensures IsNameChar(s[k]) {
        if k > |g.members[i].repo| {
          assert s[k] == n[k - |g.members[i].repo| - 1];
        }
      }
    }
  }

  /** Where a reference of member `i` to its own name `s` should lead. */
  ghost predicate LeadsHome(g: Group, i: nat, s: string, name: string)
    requires i < |g.members|
  {
    if IsDropped(g, i, s)
    then exists owner :: 0 <= owner < |g.members| && Claims(g, owner, s)
           && g.members[owner].repo == Owner(g, s) && MeansService(g, name, FromRepo(owner, s))
    else MeansService(g, name, FromRepo(i, s))
  }

  /** What a reference of member `i` to `n` is written as once it is emitted. */
  ghost predicate Follows(g: Group, i: nat, n: string, emitted: string)
    requires i < |g.members|
  {
    if Claims(g, i, n) then LeadsHome(g, i, n, emitted) else emitted == n
  }

  lemma CalledFollows(g: Group, i: nat, n: string)
    requires IsGroup(g) && NoPrefixClash(g) && i < |g.members|
    requires forall s :: !IsMispinned(g, s)
    requires forall s :: IsDropped(g, i, s) ==> !Has(g.extras, s)
    ensures Follows(g, i, n, Called(Renames(g, i), n))
  {
    NamesOfHas(g.members[i].services, n);
    if Claims(g, i, n) {
      NothingSkippedIff(g);
      SiblingIsMeant(g, i, n);
      if IsDropped(g, i, n) {
        assert !IsMispinned(g, n);
        var owner :| 0 <= owner < |g.members| && Claims(g, owner, n) && g.members[owner].repo == Owner(g, n);
        DroppedMeansKept(g, i, owner, n);
      }
    }
  }

  /** Every reference of every body follows its service. With no clash and no bad pin, the place of line `k`
      that names a service of the same repo names in the emitted body what that service was emitted as, or
      the copy that was kept of one that was dropped; any other name is as the repo wrote it. */
  lemma ReferencesFollow(g: Group, i: nat, n: string, k: nat, place: nat, s: string)
    requires IsGroup(g) && NoPrefixClash(g) && i < |g.members| && Claims(g, i, n)
    requires IsNameLike(g.members[i].repo)
    requires forall s :: !IsMispinned(g, s)
    requires forall s :: IsDropped(g, i, s) ==> !Has(g.extras, s)
    requires k < |Get(g.members[i].services, n)| && IsReference(Get(g.members[i].services, n), k, place, s)
    ensures var emitted := RepoCandidate(g, i, n, Get(g.members[i].services, n)).body;
            |emitted| == |Get(g.members[i].services, n)|
              && exists s' :: IsReference(emitted, k, place, s') && Follows(g, i, s, s')
  {
    var body := Get(g.members[i].services, n);
    RenamesKeepNames(g, i);
    ReferenceFollows(body, Renames(g, i), Rel(g.id, g.members[i].repo), n, NameOf(g, i, n), k, place, s);
    CalledFollows(g, i, s);
    assert IsReference(RepoCandidate(g, i, n, body).body, k, place, Called(Renames(g, i), s));
  }

  // ── who is called what ──

  /** Another repo of the group declares the name too. */
  ghost predicate IsElsewhere(g: Group, i: nat, n: string) {
    exists j :: 0 <= j < |g.members| && j != i && Has(g.members[j].services, n)
  }

  /** A service keeps its name unless the group has one of its own by it, or another repo does and no repo is
      pinned as its owner: then its repo's name goes before it. It is dropped exactly when another repo has the
      name and a repo that is not its own is pinned. */
  lemma NamesAreDecided(g: Group, i: nat, n: string)
    requires i < |g.members| && Has(g.members[i].services, n)
    ensures var repo, pin := g.members[i].repo, if n in g.dedupe then g.dedupe[n] else "";
            && NameOf(g, i, n) == (if Has(g.extras, n) || (IsElsewhere(g, i, n) && pin == "")
                                   then repo + "-" + n else n)
            && (n in Drops(g, i) <==> IsElsewhere(g, i, n) && pin != "" && pin != repo)
  {
    NamesOfHas(g.members[i].services, n);
    if j :| 0 <= j < |g.members| && j != i && Has(g.members[j].services, n) {
      assert Claims(g, i, n) && Claims(g, j, n);
      assert i < j || j < i;
    }
    if IsShared(g, n) {
      var a, b :| 0 <= a < b < |g.members| && Claims(g, a, n) && Claims(g, b, n);
      assert a != i || b != i;
    }
    assert IsShared(g, n) <==> IsElsewhere(g, i, n);
  }

  /** A pin stops the run exactly when two repos have the name and none of them is the one it is pinned to. */
  lemma MispinnedIff(g: Group, n: string)
    ensures IsMispinned(g, n) <==>
              && (exists i :: 0 <= i < |g.members| && Has(g.members[i].services, n) && IsElsewhere(g, i, n))
              && n in g.dedupe && g.dedupe[n] != ""
              && forall i :: 0 <= i < |g.members| && Has(g.members[i].services, n) ==>
                   g.members[i].repo != g.dedupe[n]
  {
    if IsShared(g, n) {
      var i, j :| 0 <= i < j < |g.members| && Claims(g, i, n) && Claims(g, j, n);
      assert IsElsewhere(g, i, n);
    }
    if i :| 0 <= i < |g.members| && Has(g.members[i].services, n) && IsElsewhere(g, i, n) {
      var j :| 0 <= j < |g.members| && j != i && Has(g.members[j].services, n);
      assert Claims(g, i, n) && Claims(g, j, n);
      assert i < j || j < i;
    }
    forall i | 0 <= i < |g.members| ensures Claims(g, i, n) <==> Has(g.members[i].services, n) {
    }
  }
}
