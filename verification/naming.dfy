/** Deciding what each service of a group is emitted as. */
module Naming {
  import opened Basics
  import opened Dicts
  import opened Names
  import opened ComposeText
  import opened Relocation
  import opened Emission

  /** A member repo: its services after its files are merged. */
  datatype Member = Member(repo: string, services: Dict<string, Body>)

  /** A group: its members in order, its own services, and the pins of its DEDUPE entry. */
  datatype Group = Group(id: string, members: seq<Member>, extras: Dict<string, Body>, dedupe: map<string, string>)

  predicate Claims(g: Group, i: nat, n: string)
    requires i < |g.members|
  {
    Has(g.members[i].services, n)
  }

  /** More than one repo declares the name. */
  predicate IsShared(g: Group, n: string) {
    exists i, j :: 0 <= i < j < |g.members| && Claims(g, i, n) && Claims(g, j, n)
  }

  /** The repo a name is pinned to, or nothing. */
  function Owner(g: Group, n: string): string {
    GetOr(g.dedupe, n, "")
  }

  function Prefixed(repo: string, n: string): string {
    repo + "-" + n
  }

  predicate IsRenamed(g: Group, i: nat, n: string)
    requires i < |g.members|
  {
    Claims(g, i, n) && ((IsShared(g, n) && Owner(g, n) == "") || Has(g.extras, n))
  }

  predicate IsDropped(g: Group, i: nat, n: string)
    requires i < |g.members|
  {
    Claims(g, i, n) && IsShared(g, n) && Owner(g, n) != "" && g.members[i].repo != Owner(g, n)
  }

  /** A shared name pinned to a repo that does not declare it. */
  predicate IsMispinned(g: Group, n: string) {
    && IsShared(g, n) && Owner(g, n) != ""
    && forall i :: 0 <= i < |g.members| && Claims(g, i, n) ==> g.members[i].repo != Owner(g, n)
  }

  function NamesOf(services: Dict<string, Body>): set<string> {
    Elements(Dicts.Keys(services))
  }

  function Renames(g: Group, i: nat): map<string, string>
    requires i < |g.members|
  {
    map n | n in NamesOf(g.members[i].services) && IsRenamed(g, i, n) :: Prefixed(g.members[i].repo, n)
  }

  function Drops(g: Group, i: nat): set<string>
    requires i < |g.members|
  {
    set n | n in NamesOf(g.members[i].services) && IsDropped(g, i, n)
  }

  /** What a repo's service is emitted as, if it is. */
  function NameOf(g: Group, i: nat, n: string): string
    requires i < |g.members|
  {
    Renamed(Renames(g, i), n)
  }

  lemma NamesOfHas(services: Dict<string, Body>, n: string)
    ensures n in NamesOf(services) <==> Has(services, n)
  {
    var keys := Dicts.Keys(services);
    if Has(services, n) {
      assert keys[Find(services, n)] == n;
    }
    if n in NamesOf(services) {
      var i :| 0 <= i < |keys| && keys[i] == n;
      assert services[i].key == n;
    }
  }

  lemma Reassociate(out: Body, line: Line, rest: Body)
    ensures out + ([line] + rest) == out + [line] + rest
  {
  }

  /** One source's services, with the names and sections the generator works out as it goes. */
  class Contribution {
    const repo: string
    const services: Dict<string, Body>
    const rel: seq<string>
    var renamed: map<string, string>
    var dropped: set<string>
    var section: string
    var inDependsOn: bool

    constructor (group: string, member: Member)
      ensures repo == member.repo && services == member.services && rel == Rel(group, member.repo)
      ensures renamed == map[] && dropped == {}
    {
      repo, services, rel := member.repo, member.services, Rel(group, member.repo);
      renamed, dropped, section, inDependsOn := map[], {}, "", false;
    }

    /** One service body, line by line, remembering which key each line is under. */
    method Emit(name: string, newName: string, body: Body) returns (out: Body)
      modifies this`section, this`inDependsOn
      ensures out == EmitBody(body, renamed, rel, name, newName, "")
    {
      out := [];
      section, inDependsOn := "", false;
      for i := 0 to |body|
        invariant inDependsOn == (section == "depends_on")
        invariant out + EmitBody(body[i..], renamed, rel, name, newName, section)
               == EmitBody(body, renamed, rel, name, newName, "")
      {
        var line := body[i];
        assert body[i..][1..] == body[i + 1..];
        if IsOwnKey(line) {
          section := line.key;
          inDependsOn := section == "depends_on";
        }
        var emitted := EmitLine(line, renamed, rel, name, newName, section);
        Reassociate(out, emitted, EmitBody(body[i + 1..], renamed, rel, name, newName, section));
        out := out + [emitted];
      }
      assert out + [] == out;
    }
  }

  /** The contributions standing for a group's members, in order. */
  ghost predicate Stands(g: Group, cs: seq<Contribution>) {
    && |cs| == |g.members| && Distinct(cs)
    && (forall i :: 0 <= i < |cs| ==> cs[i].repo == g.members[i].repo && cs[i].services == g.members[i].services)
    && (forall i :: 0 <= i < |cs| ==> UniqueKeys(cs[i].services))
  }

  function ClaimantsOf(cs: seq<Contribution>, n: string): seq<Contribution>
    decreases |cs|
  {
    if cs == [] then []
    else ClaimantsOf(cs[..|cs| - 1], n) + if Has(cs[|cs| - 1].services, n) then [cs[|cs| - 1]] else []
  }

  lemma {:induction false} ClaimantsAre(cs: seq<Contribution>, n: string)
    requires Distinct(cs)
    ensures Distinct(ClaimantsOf(cs, n))
    ensures forall k :: 0 <= k < |ClaimantsOf(cs, n)| ==>
              ClaimantsOf(cs, n)[k] in cs && Has(ClaimantsOf(cs, n)[k].services, n)
    ensures forall i :: 0 <= i < |cs| ==> (Has(cs[i].services, n) <==> cs[i] in ClaimantsOf(cs, n))
    decreases |cs|
  {
    if cs != [] {
      var init, last := cs[..|cs| - 1], cs[|cs| - 1];
      ClaimantsAre(init, n);
      Snoc(cs);
    }
  }

  lemma TwoClaimants(cs: seq<Contribution>, n: string)
    requires Distinct(cs)
    ensures |ClaimantsOf(cs, n)| >= 2 <==>
              exists i, j :: 0 <= i < j < |cs| && Has(cs[i].services, n) && Has(cs[j].services, n)
  {
    ClaimantsAre(cs, n);
    var some := ClaimantsOf(cs, n);
    if |some| >= 2 {
      assert some[0] in some && some[1] in some && some[0] != some[1];
      var i :| 0 <= i < |cs| && cs[i] == some[0];
      var j :| 0 <= j < |cs| && cs[j] == some[1];
      assert Has(cs[i].services, n) && Has(cs[j].services, n);
    }
    if i, j :| 0 <= i < j < |cs| && Has(cs[i].services, n) && Has(cs[j].services, n) {
      assert cs[i] in some && cs[j] in some && cs[i] != cs[j];
    }
  }

  lemma SharedIsTwoClaimants(g: Group, cs: seq<Contribution>, n: string)
    requires Stands(g, cs)
    ensures |ClaimantsOf(cs, n)| >= 2 <==> IsShared(g, n)
  {
    TwoClaimants(cs, n);
    if IsShared(g, n) {
      var i, j :| 0 <= i < j < |g.members| && Claims(g, i, n) && Claims(g, j, n);
      assert Has(cs[i].services, n) && Has(cs[j].services, n);
    }
    if i, j :| 0 <= i < j < |cs| && Has(cs[i].services, n) && Has(cs[j].services, n) {
      assert Claims(g, i, n) && Claims(g, j, n);
    }
  }

  /** Which contributions claim each name, in member order. */
  ghost predicate AreOwners(owners: map<string, seq<Contribution>>, cs: seq<Contribution>) {
    && (forall n :: n in owners <==> ClaimantsOf(cs, n) != [])
    && (forall n :: n in owners ==> owners[n] == ClaimantsOf(cs, n))
  }

  method FindOwners(cs: seq<Contribution>) returns (owners: map<string, seq<Contribution>>)
    requires forall i :: 0 <= i < |cs| ==> UniqueKeys(cs[i].services)
    ensures AreOwners(owners, cs)
  {
    owners := map[];
    for i := 0 to |cs|
      invariant AreOwners(owners, cs[..i])
    {
      TakeSnoc(cs, i);
      owners := AddClaims(owners, cs[..i], cs[i]);
      assert cs[..i] + [cs[i]] == cs[..i + 1];
    }
    TakeAll(cs);
  }

  method AddClaims(owners: map<string, seq<Contribution>>, before: seq<Contribution>, c: Contribution)
    returns (owners': map<string, seq<Contribution>>)
    requires AreOwners(owners, before) && UniqueKeys(c.services)
    ensures AreOwners(owners', before + [c])
  {
    owners' := owners;
    for j := 0 to |c.services|
      invariant forall n :: Has(c.services[..j], n) ==> n in owners' && owners'[n] == ClaimantsOf(before, n) + [c]
      invariant forall n :: !Has(c.services[..j], n) ==>
                  (n in owners' <==> n in owners) && (n in owners' ==> owners'[n] == owners[n])
    {
      var name := c.services[j].key;
      TakeSnoc(c.services, j);
      assert !Has(c.services[..j], name);
      forall n ensures Has(c.services[..j + 1], n) <==> Has(c.services[..j], n) || n == name {
        if Has(c.services[..j], n) {
          assert c.services[..j + 1][Find(c.services[..j], n)].key == n;
        }
        if n == name {
          assert c.services[..j + 1][j].key == n;
        }
      }
      assert [] + [c] == [c];
      owners' := owners'[name := (if name in owners' then owners'[name] else []) + [c]];
    }
    TakeAll(c.services);
    assert (before + [c])[..|before|] == before;
  }

  // ── the decisions ──

  /** The renames once the shared names of one set and the group's own of another are decided. */
  function RenamesWith(g: Group, i: nat, shared: set<string>, own: set<string>): map<string, string>
    requires i < |g.members|
  {
    map n | n in NamesOf(g.members[i].services)
            && ((n in shared && IsShared(g, n) && Owner(g, n) == "") || (n in own && Has(g.extras, n)))
      :: Prefixed(g.members[i].repo, n)
  }

  function DropsAmong(g: Group, i: nat, shared: set<string>): set<string>
    requires i < |g.members|
  {
    set n | n in NamesOf(g.members[i].services) && n in shared && IsDropped(g, i, n)
  }

  ghost predicate Decided(g: Group, cs: seq<Contribution>, shared: set<string>, own: set<string>)
    requires Stands(g, cs)
    reads cs
  {
    forall i :: 0 <= i < |cs| ==>
      cs[i].renamed == RenamesWith(g, i, shared, own) && cs[i].dropped == DropsAmong(g, i, shared)
  }

  function PrefixedOnce(g: Group, i: nat, renamed: map<string, string>, name: string, when: bool): map<string, string>
    requires i < |g.members|
  {
    if Claims(g, i, name) && when then renamed[name := Prefixed(g.members[i].repo, name)] else renamed
  }

  function DroppedOnce(g: Group, i: nat, dropped: set<string>, name: string): set<string>
    requires i < |g.members|
  {
    if IsDropped(g, i, name) then dropped + {name} else dropped
  }

  lemma DecideShared(g: Group, shared: set<string>, name: string)
    ensures forall i :: 0 <= i < |g.members| ==>
              RenamesWith(g, i, shared + {name}, {})
                == PrefixedOnce(g, i, RenamesWith(g, i, shared, {}), name, IsShared(g, name) && Owner(g, name) == "")
    ensures forall i :: 0 <= i < |g.members| ==>
              DropsAmong(g, i, shared + {name}) == DroppedOnce(g, i, DropsAmong(g, i, shared), name)
  {
    forall i | 0 <= i < |g.members|
      ensures RenamesWith(g, i, shared + {name}, {})
           == PrefixedOnce(g, i, RenamesWith(g, i, shared, {}), name, IsShared(g, name) && Owner(g, name) == "")
      ensures DropsAmong(g, i, shared + {name}) == DroppedOnce(g, i, DropsAmong(g, i, shared), name)
    {
      NamesOfHas(g.members[i].services, name);
    }
  }

  lemma DecideOwn(g: Group, shared: set<string>, own: set<string>, name: string)
    ensures forall i :: 0 <= i < |g.members| ==>
              RenamesWith(g, i, shared, own + {name})
                == PrefixedOnce(g, i, RenamesWith(g, i, shared, own), name, Has(g.extras, name))
  {
    forall i | 0 <= i < |g.members|
      ensures RenamesWith(g, i, shared, own + {name})
           == PrefixedOnce(g, i, RenamesWith(g, i, shared, own), name, Has(g.extras, name))
    {
      NamesOfHas(g.members[i].services, name);
    }
  }

  lemma ClaimantsClaim(g: Group, cs: seq<Contribution>, name: string)
    requires Stands(g, cs)
    ensures Distinct(ClaimantsOf(cs, name))
    ensures forall i :: 0 <= i < |cs| ==> (cs[i] in ClaimantsOf(cs, name) <==> Claims(g, i, name))
    ensures forall k :: 0 <= k < |ClaimantsOf(cs, name)| ==> ClaimantsOf(cs, name)[k] in cs
  {
    ClaimantsAre(cs, name);
  }

  method PrefixAll(claimants: seq<Contribution>, name: string)
    requires Distinct(claimants)
    modifies claimants`renamed
    ensures forall c :: c in claimants ==> c.renamed == old(c.renamed)[name := Prefixed(c.repo, name)]
  {
    for j := 0 to |claimants|
      invariant forall k :: 0 <= k < j ==>
                  claimants[k].renamed == old(claimants[k].renamed)[name := Prefixed(claimants[k].repo, name)]
      invariant forall k :: j <= k < |claimants| ==> claimants[k].renamed == old(claimants[k].renamed)
    {
      claimants[j].renamed := claimants[j].renamed[name := Prefixed(claimants[j].repo, name)];
    }
  }

  method DropAllBut(claimants: seq<Contribution>, name: string, owner: string) returns (kept: bool)
    requires Distinct(claimants)
    modifies claimants`dropped
    ensures forall c :: c in claimants ==> c.dropped == old(c.dropped) + (if c.repo != owner then {name} else {})
    ensures kept <==> exists c :: c in claimants && c.repo == owner
  {
    kept := false;
    for j := 0 to |claimants|
      invariant forall k :: 0 <= k < j ==>
                  claimants[k].dropped
                    == old(claimants[k].dropped) + (if claimants[k].repo != owner then {name} else {})
      invariant forall k :: j <= k < |claimants| ==> claimants[k].dropped == old(claimants[k].dropped)
      invariant kept <==> exists c :: c in claimants[..j] && c.repo == owner
    {
      TakeSnoc(claimants, j);
      if claimants[j].repo != owner {
        claimants[j].dropped := claimants[j].dropped + {name};
      } else {
        assert claimants[j] in claimants[..j + 1];
        kept := true;
      }
    }
    TakeAll(claimants);
  }

  /** One shared or unshared name of `owners`: prefixed per repo, left to its owner, or neither. */
  method DecideName(g: Group, cs: seq<Contribution>, claimants: seq<Contribution>, name: string,
                    ghost shared: set<string>)
    returns (sound: bool)
    requires Stands(g, cs) && claimants == ClaimantsOf(cs, name)
    requires Decided(g, cs, shared, {})
    modifies cs
    ensures sound <==> !IsMispinned(g, name)
    ensures sound ==> Decided(g, cs, shared + {name}, {})
  {
    SharedIsTwoClaimants(g, cs, name);
    ClaimantsClaim(g, cs, name);
    DecideShared(g, shared, name);
    sound := true;
    if |claimants| < 2 {
      return;
    }
    var owner := Owner(g, name);
    if owner == "" {
      PrefixAll(claimants, name);
    } else {
      sound := DropAllBut(claimants, name, owner);
      PinnedIsKept(g, cs, name);
    }
  }

  lemma PinnedIsKept(g: Group, cs: seq<Contribution>, name: string)
    requires Stands(g, cs) && IsShared(g, name) && Owner(g, name) != ""
    ensures (exists c :: c in ClaimantsOf(cs, name) && c.repo == Owner(g, name)) <==> !IsMispinned(g, name)
  {
    ClaimantsAre(cs, name);
    if !IsMispinned(g, name) {
      var i :| 0 <= i < |g.members| && Claims(g, i, name) && g.members[i].repo == Owner(g, name);
      assert cs[i] in ClaimantsOf(cs, name);
    }
    if c :| c in ClaimantsOf(cs, name) && c.repo == Owner(g, name) {
      var i :| 0 <= i < |cs| && cs[i] == c;
      assert Claims(g, i, name);
    }
  }

  /** Each name in turn, up to the first that cannot be decided. */
  method DecideAll(g: Group, cs: seq<Contribution>, owners: map<string, seq<Contribution>>, names: seq<string>)
    returns (stopped: Option<string>)
    requires Stands(g, cs) && Decided(g, cs, {}, {})
    requires forall k :: 0 <= k < |names| ==> names[k] in owners && owners[names[k]] == ClaimantsOf(cs, names[k])
    modifies cs
    ensures stopped.Some? ==> IsMispinned(g, stopped.value)
    ensures stopped.None? ==> (forall k :: 0 <= k < |names| ==> !IsMispinned(g, names[k]))
    ensures stopped.None? ==> Decided(g, cs, Elements(names), {})
  {
    ghost var done := {};
    var k := 0;
    stopped := None;
    while k < |names| && stopped.None?
      invariant 0 <= k <= |names| && done == Elements(names[..k])
      invariant stopped.Some? ==> IsMispinned(g, stopped.value)
      invariant stopped.None? ==> Decided(g, cs, done, {}) && forall j :: 0 <= j < k ==> !IsMispinned(g, names[j])
      decreases |names| - k, stopped.None?
    {
      var sound := DecideName(g, cs, owners[names[k]], names[k], done);
      if sound {
        OneMoreName(names, k);
        done := done + {names[k]};
        k := k + 1;
      } else {
        stopped := Some(names[k]);
      }
    }
    assert stopped.None? ==> names[..k] == names;
  }

  lemma OneMoreName(names: seq<string>, k: nat)
    requires k < |names|
    ensures Elements(names[..k + 1]) == Elements(names[..k]) + {names[k]}
  {
    TakeSnoc(names, k);
  }

  /** A name the group owns outright is prefixed in every repo that declares it. */
  method PrefixOwn(g: Group, cs: seq<Contribution>, owners: map<string, seq<Contribution>>, names: seq<string>,
                   ghost shared: set<string>)
    requires Stands(g, cs) && Decided(g, cs, shared, {})
    requires forall k :: 0 <= k < |names| ==> names[k] in owners && owners[names[k]] == ClaimantsOf(cs, names[k])
    modifies cs
    ensures Decided(g, cs, shared, Elements(names))
  {
    assert Elements(names[..0]) == {};
    for k := 0 to |names|
      invariant Decided(g, cs, shared, Elements(names[..k]))
    {
      OneMoreName(names, k);
      ClaimantsClaim(g, cs, names[k]);
      DecideOwn(g, shared, Elements(names[..k]), names[k]);
      if Has(g.extras, names[k]) {
        PrefixAll(owners[names[k]], names[k]);
      }
    }
    TakeAll(names);
  }

  /** The naming passes of `generate`. A shared name pinned to a repo that does not declare it
      stops the run: the list of its keepers is empty, and its first element is asked for. */
  method NameServices(g: Group, cs: seq<Contribution>) returns (stopped: Option<string>)
    requires Stands(g, cs)
    requires forall i :: 0 <= i < |cs| ==> cs[i].renamed == map[] && cs[i].dropped == {}
    modifies cs
    ensures stopped.Some? ==> IsMispinned(g, stopped.value)
    ensures stopped.None? ==> forall n :: !IsMispinned(g, n)
    ensures stopped.None? ==>
              forall i :: 0 <= i < |cs| ==> cs[i].renamed == Renames(g, i) && cs[i].dropped == Drops(g, i)
  {
    var owners := FindOwners(cs);
    AllOwned(g, cs, owners);
    var names := Sorted(owners.Keys);
    stopped := DecideAll(g, cs, owners, names);
    if stopped.None? {
      PrefixOwn(g, cs, owners, names, owners.Keys);
      assert forall n :: IsMispinned(g, n) ==> n in names;
    }
  }

  /** Every declared name is among the owners, so what was decided for those is decided. */
  lemma AllOwned(g: Group, cs: seq<Contribution>, owners: map<string, seq<Contribution>>)
    requires Stands(g, cs) && AreOwners(owners, cs)
    ensures forall i, n :: 0 <= i < |g.members| && Claims(g, i, n) ==> n in owners
    ensures forall i :: 0 <= i < |g.members| ==>
              && RenamesWith(g, i, owners.Keys, owners.Keys) == Renames(g, i)
              && DropsAmong(g, i, owners.Keys) == Drops(g, i)
    ensures forall n :: IsMispinned(g, n) ==> n in owners
  {
    forall i, n | 0 <= i < |g.members| && Claims(g, i, n) ensures n in owners {
      ClaimantsAre(cs, n);
      assert cs[i] in ClaimantsOf(cs, n);
    }
    forall i | 0 <= i < |g.members|
      ensures RenamesWith(g, i, owners.Keys, owners.Keys) == Renames(g, i)
      ensures DropsAmong(g, i, owners.Keys) == Drops(g, i)
    {
      forall n | n in NamesOf(g.members[i].services) ensures n in owners {
        NamesOfHas(g.members[i].services, n);
        assert Claims(g, i, n);
      }
    }
    forall n | IsMispinned(g, n) ensures n in owners {
      var i, j :| 0 <= i < j < |g.members| && Claims(g, i, n) && Claims(g, j, n);
    }
  }
}
