/** Which emitted services end up with the same container name: two containers cannot share one. */
module ContainerNames {
  import opened Basics
  import opened Dicts
  import opened ComposeText
  import opened Relocation
  import opened Emission
  import opened Naming
  import opened Generation

  /** The container names a body spells out. */
  function NamesSet(body: Body): set<Value> {
    set l | l in body && IsContainerName(l) :: l.value
  }

  lemma EmitLineNames(line: Line, renamed: map<string, string>, rel: seq<string>, name: string, newName: string,
                      section: string)
    ensures var emitted := EmitLine(line, renamed, rel, name, newName, section);
            && (IsContainerName(emitted) <==> IsContainerName(line))
            && (IsContainerName(line) ==> emitted.value == if newName == name then line.value else Token([newName]))
  {
  }

  /** An emitted body has the container names of the repo's body, or, where the service was renamed, its
      new name in place of each. */
  lemma {:induction false} EmittedNames(body: Body, renamed: map<string, string>, rel: seq<string>, name: string,
                                        newName: string, section: string)
    ensures NamesSet(EmitBody(body, renamed, rel, name, newName, section)) ==
              if newName == name then NamesSet(body)
              else if NamesSet(body) == {} then {} else {Token([newName])}
    decreases |body|
  {
    if body != [] {
      var under := Under(section, body[0]);
      var emitted := EmitBody(body, renamed, rel, name, newName, section);
      EmitLineNames(body[0], renamed, rel, name, newName, under);
      EmittedNames(body[1..], renamed, rel, name, newName, under);
      NamesCons(body);
      NamesCons(emitted);
      assert emitted[1..] == EmitBody(body[1..], renamed, rel, name, newName, under);
    }
  }

  lemma NamesCons(body: Body)
    requires body != []
    ensures NamesSet(body) == (if IsContainerName(body[0]) then {body[0].value} else {}) + NamesSet(body[1..])
  {
    assert forall l :: l in body <==> l == body[0] || l in body[1..];
    forall v ensures v in NamesSet(body) <==>
                       v in (if IsContainerName(body[0]) then {body[0].value} else {}) + NamesSet(body[1..])
    {
      if v in NamesSet(body) {
        var l :| l in body && IsContainerName(l) && l.value == v;
        assert l == body[0] || l in body[1..];
      }
      if v in NamesSet(body[1..]) {
        var l :| l in body[1..] && IsContainerName(l) && l.value == v;
        assert l in body;
      }
    }
  }

  /** The body a candidate comes from, as its repo or the group wrote it. */
  function SourceBody(g: Group, c: Candidate): Body
    requires IsCandidate(g, c)
  {
    match c.origin
    case FromRepo(i, n) => Get(g.members[i].services, n)
    case FromExtras(n) => Get(g.extras, n)
  }

  /** Was the service emitted under a name its source does not use? */
  predicate WasRenamed(c: Candidate) {
    c.origin.FromRepo? && c.name != c.origin.name
  }

  function NamesOfSource(g: Group, c: Candidate): set<Value>
    requires IsCandidate(g, c)
  {
    NamesSet(SourceBody(g, c))
  }

  lemma CandidateNames(g: Group, c: Candidate)
    requires IsCandidate(g, c)
    ensures NamesSet(c.body) ==
              if !WasRenamed(c) then NamesOfSource(g, c)
              else if NamesOfSource(g, c) == {} then {} else {Token([c.name])}
  {
    match c.origin {
      case FromRepo(i, n) =>
        EmittedNames(SourceBody(g, c), Renames(g, i), Rel(g.id, g.members[i].repo), n, c.name, "");
      case FromExtras(n) =>
    }
  }

  /** A renamed service that takes the container name another one's source spells out. */
  predicate TakesName(g: Group, c: Candidate, d: Candidate)
    requires IsCandidate(g, c) && IsCandidate(g, d)
  {
    WasRenamed(c) && !WasRenamed(d) && NamesOfSource(g, c) != {} && Token([c.name]) in NamesOfSource(g, d)
  }

  /** Two emitted services have a container name in common exactly when neither was renamed and their
      sources already had, or one was renamed to the other's container name: renaming tells apart
      what two repos both call by one name, and two renamed services never meet. */
  lemma SharedContainerNameIff(g: Group, c: Candidate, d: Candidate)
    requires IsGroup(g) && c in Kept(Candidates(g)) && d in Kept(Candidates(g)) && c != d
    ensures IsCandidate(g, c) && IsCandidate(g, d)
    ensures NamesSet(c.body) !! NamesSet(d.body) <==>
              && (WasRenamed(c) || WasRenamed(d) || NamesOfSource(g, c) !! NamesOfSource(g, d))
              && !TakesName(g, c, d) && !TakesName(g, d, c)
  {
    CandidatesAre(g);
    KeptOrSkipped(Candidates(g));
    CandidateNames(g, c);
    CandidateNames(g, d);
    var kept := Kept(Candidates(g));
    var i :| 0 <= i < |kept| && kept[i] == c;
    var j :| 0 <= j < |kept| && kept[j] == d;
    assert c.name != d.name;
    assert [c.name][0] == c.name && [d.name][0] == d.name;
    DisjointCases(NamesOfSource(g, c), NamesOfSource(g, d), Token([c.name]), Token([d.name]));
  }

  lemma DisjointCases<T>(a: set<T>, b: set<T>, x: T, y: T)
    ensures a !! {y} <==> y !in a
    ensures {x} !! b <==> x !in b
    ensures {x} !! {y} <==> x != y
    ensures a !! {} && {} !! b
  {
    if x == y {
      assert x in {x} * {y};
    }
    if y in a {
      assert y in a * {y};
    }
    if x in b {
      assert x in {x} * b;
    }
  }
}
