/** What a run of the reconciler leaves behind, and what the next run finds. */
module Convergence {
  import opened Basics
  import opened Certificates
  import opened Hosts
  import opened Reconcile

  ghost predicate IsServer(s: Server) {
    && (forall i, j :: 0 <= i < j < |s.hosts| ==> s.hosts[i].id != s.hosts[j].id)
    && (forall i :: 0 <= i < |s.hosts| ==> s.hosts[i].id < s.nextHost)
  }

  /** The names of a run: each once, and none of them a wildcard. */
  ghost predicate IsRoster(names: seq<string>) {
    && (forall i, j :: 0 <= i < j < |names| ==> Lower(names[i]) != Lower(names[j]))
    && (forall i :: 0 <= i < |names| ==> !IsStarred(Lower(names[i])))
  }

  /** Every name resolves and the proxy refuses nothing. */
  ghost predicate AllSucceed(w: World, names: seq<string>) {
    forall i :: 0 <= i < |names| ==>
      names[i] in w.resolving && names[i] !in w.denied && names[i] !in w.broken && names[i] !in w.rejected
  }

  /** The name is covered and live, and its host shows no drift. */
  ghost predicate InSync(w: World, s: Server, name: string) {
    var at, cert := At(s.hosts, Lower(name)), Covering(IndexOf(s.certs), name);
    at >= 0 && cert.Some? && Drifts(s.hosts[at].fields, Desired(name, w.portal, cert.value)) == []
  }

  // ── certificates ──

  /** How the run's index and the proxy's certificates have moved on from where they started, once
      the names of `used` are done. */
  ghost predicate Follows(was: map<string, nat>, index: map<string, nat>, now: map<string, nat>, used: set<string>) {
    && (forall u :: u in used ==> !IsStarred(u))
    && (forall key :: key !in used ==> (key in index <==> key in was) && (key in was ==> index[key] == was[key]))
    && (forall key :: key in was ==> key in now && now[key] == was[key])
    && (forall key :: key in now && key !in was && !IsStarred(key) ==> key in used)
  }

  lemma CoverSame(was: map<string, nat>, index: map<string, nat>, now: map<string, nat>, used: set<string>,
                  name: string)
    requires Follows(was, index, now, used) && Lower(name) !in used && !IsStarred(Lower(name))
    ensures Covering(index, name).Some? ==> Covering(now, name) == Covering(index, name)
    ensures Covering(index, name).None? ==> Lower(name) !in now
  {
    hide Lower;
  }

  lemma IssuedPatterns(id: nat, name: string)
    ensures Patterns(Certificate(id, name, [name])) == OwnPatterns(name, IsWildcard(Certificate(id, name, [name])))
  {
    var cert := Certificate(id, name, [name]);
    assert cert.names[..0] == [];
    assert PatternsOf([], IsWildcard(cert)) == {};
  }

  lemma IssueIndexes(certs: seq<Certificate>, id: nat, name: string)
    ensures IndexOf(certs + [Certificate(id, name, [name])])
         == AddPatterns(IndexOf(certs), OwnPatterns(name, IsWildcard(Certificate(id, name, [name]))), id)
  {
    IssuedPatterns(id, name);
    var all := certs + [Certificate(id, name, [name])];
    assert all[..|all| - 1] == certs;
  }

  lemma IssueFollows(was: map<string, nat>, index: map<string, nat>, now: map<string, nat>, used: set<string>,
                     name: string, wildcard: bool, id: nat)
    requires Follows(was, index, now, used) && Lower(name) !in now && !IsStarred(Lower(name))
    ensures var now' := AddPatterns(now, OwnPatterns(name, wildcard), id);
            && Follows(was, index[Lower(name) := id], now', used + {Lower(name)})
            && Covering(now', name) == Some(id)
  {
    hide Lower;
  }

  lemma IssueKeepsCovered(now: map<string, nat>, name: string, wildcard: bool, id: nat, other: string)
    requires Covering(now, other).Some? && Lower(other) != Lower(name) && !IsStarred(Lower(other))
    ensures Covering(AddPatterns(now, OwnPatterns(name, wildcard), id), other) == Covering(now, other)
  {
    hide Lower;
  }

  // ── hosts ──

  lemma InSyncNames(fields: Host, name: string, portal: Portal, cert: nat)
    requires Drifts(fields, Desired(name, portal, cert)) == []
    ensures LowerNames(fields) == {Lower(name)}
  {
    SettledIff(fields, Desired(name, portal, cert));
    assert SameField(fields, Desired(name, portal, cert), DomainNames);
    var names := NamesOf(GetOr(fields, DomainNames, Null));
    assert multiset(names) == multiset([name]);
    assert forall n :: n in names <==> n in multiset(names);
    assert name in names;
  }

  lemma UpdatedNames(existing: Host, name: string, portal: Portal, cert: nat)
    ensures LowerNames(existing + Payload(existing, Desired(name, portal, cert))) == {Lower(name)}
  {
    DesiredIsWhole(name, portal, cert);
    UpdatedIsSettled(existing, Desired(name, portal, cert));
    InSyncNames(existing + Payload(existing, Desired(name, portal, cert)), name, portal, cert);
  }

  lemma CreatedNames(name: string, portal: Portal, cert: nat)
    ensures LowerNames(Desired(name, portal, cert)) == {Lower(name)}
  {
    CreatedIsSettled(name, portal, cert);
    InSyncNames(Desired(name, portal, cert), name, portal, cert);
  }

  lemma {:induction false} AtReplace(hosts: seq<Record>, p: nat, r: Record, d: string)
    requires p < |hosts|
    ensures d in LowerNames(r.fields) && At(hosts, d) == p ==> At(hosts[p := r], d) == p
    ensures d !in LowerNames(r.fields) && At(hosts, d) != p ==> At(hosts[p := r], d) == At(hosts, d)
    decreases |hosts|
  {
    hide LowerNames;
    var after := hosts[p := r];
    if p < |hosts| - 1 {
      assert after[..|after| - 1] == hosts[..|hosts| - 1][p := r];
      AtReplace(hosts[..|hosts| - 1], p, r, d);
    } else {
      assert after[..|after| - 1] == hosts[..|hosts| - 1];
    }
  }

  lemma UpdateIsReplace(s: Server, p: nat, payload: Host)
    requires IsServer(s) && p < |s.hosts|
    ensures Update(s, s.hosts[p].id, payload).hosts
         == s.hosts[p := Record(s.hosts[p].id, s.hosts[p].fields + payload)]
    ensures IsServer(Update(s, s.hosts[p].id, payload))
  {
    var after := Update(s, s.hosts[p].id, payload).hosts;
    forall i | 0 <= i < |after| && i != p ensures after[i] == s.hosts[i] {
      assert s.hosts[i].id != s.hosts[p].id;
    }
  }

  /** A name is settled by its own step when its snapshot still stands. */
  ghost predicate Stands(hosts: seq<Record>, live: map<string, Record>, d: string) {
    (d in live <==> At(hosts, d) >= 0) && (d in live ==> live[d] == hosts[At(hosts, d)])
  }

  lemma HostStepSettles(w: World, live: map<string, Record>, p: Progress, name: string, cert: nat)
    requires IsServer(p.server) && Stands(p.server.hosts, live, Lower(name)) && name !in w.rejected
    ensures var after := StepHost(w, false, live, p, name, cert);
            && after == p.(server := after.server) && IsServer(after.server)
            && after.server.certs == p.server.certs && after.server.nextCert == p.server.nextCert
            && |after.server.hosts| >= |p.server.hosts|
            && At(after.server.hosts, Lower(name)) >= 0
            && Drifts(after.server.hosts[At(after.server.hosts, Lower(name))].fields,
                      Desired(name, w.portal, cert)) == []
  {
    hide Drifts, Payload, LowerNames, Desired;
    var want, d := Desired(name, w.portal, cert), Lower(name);
    var hosts := p.server.hosts;
    if d !in live {
      CreatedNames(name, w.portal, cert);
      CreatedIsSettled(name, w.portal, cert);
      AtSnoc(hosts, Record(p.server.nextHost, want), d);
    } else if Drifts(live[d].fields, want) != [] {
      var at := At(hosts, d);
      DesiredIsWhole(name, w.portal, cert);
      UpdatedIsSettled(hosts[at].fields, want);
      UpdatedNames(hosts[at].fields, name, w.portal, cert);
      UpdateIsReplace(p.server, at, Payload(hosts[at].fields, want));
      AtReplace(hosts, at, Record(hosts[at].id, hosts[at].fields + Payload(hosts[at].fields, want)), d);
    }
  }

  /** The step of one name leaves every name found elsewhere where it was. */
  lemma HostStepKeeps(w: World, live: map<string, Record>, p: Progress, name: string, cert: nat, d: string)
    requires IsServer(p.server) && Stands(p.server.hosts, live, Lower(name))
    requires d != Lower(name)
    requires At(p.server.hosts, d) >= 0 ==> At(p.server.hosts, d) != At(p.server.hosts, Lower(name))
    ensures var hosts, after := p.server.hosts, StepHost(w, false, live, p, name, cert).server.hosts;
            At(after, d) == At(hosts, d) && (At(hosts, d) >= 0 ==> after[At(hosts, d)] == hosts[At(hosts, d)])
  {
    hide Drifts, Payload, LowerNames, Desired;
    var want := Desired(name, w.portal, cert);
    var hosts, at := p.server.hosts, At(p.server.hosts, Lower(name));
    if at < 0 {
      CreatedNames(name, w.portal, cert);
      AtSnoc(hosts, Record(p.server.nextHost, want), d);
    } else {
      UpdatedNames(hosts[at].fields, name, w.portal, cert);
      UpdateIsReplace(p.server, at, Payload(hosts[at].fields, want));
      AtReplace(hosts, at, Record(hosts[at].id, hosts[at].fields + Payload(hosts[at].fields, want)), d);
    }
  }

  // ── one pass settles everything ──

  /** No two names are found on the same host. */
  ghost predicate NoneShared(s: Server, names: seq<string>) {
    forall i, j :: 0 <= i < j < |names| && At(s.hosts, Lower(names[i])) >= 0 ==>
      At(s.hosts, Lower(names[i])) != At(s.hosts, Lower(names[j]))
  }

  /** Where a name was at the start is where it still is, as it was. */
  ghost predicate Untouched(was: seq<Record>, now: seq<Record>, d: string) {
    var at := At(was, d);
    At(now, d) == at && (0 <= at < |now| ==> now[at] == was[at])
  }

  /** After `k` names: those are in sync, and what the run knows of the others still holds. */
  ghost predicate Converging(w: World, s: Server, p: Progress, names: seq<string>, k: nat)
    requires k <= |names|
  {
    && !p.crashed && p.failed == [] && IsServer(p.server) && |p.server.hosts| >= |s.hosts|
    && Follows(IndexOf(s.certs), p.index, IndexOf(p.server.certs), LowerAll(names[..k]))
    && (forall j :: 0 <= j < k ==> InSync(w, p.server, names[j]))
    && (forall j :: k <= j < |names| ==> Untouched(s.hosts, p.server.hosts, Lower(names[j])))
  }

  lemma LiveStands(s: Server, hosts: seq<Record>, d: string)
    requires Untouched(s.hosts, hosts, d)
    ensures Stands(hosts, LiveOf(s.hosts), d)
  {
  }

  lemma UsedBefore(names: seq<string>, k: nat, j: nat)
    requires IsRoster(names) && k <= |names| && j < |names|
    ensures k <= j ==> Lower(names[j]) !in LowerAll(names[..k])
    ensures k < |names| ==> LowerAll(names[..k + 1]) == LowerAll(names[..k]) + {Lower(names[k])}
  {
    if k < |names| {
      LowerSnoc(names, k);
    }
  }

  /** The step of one name, once its certificate is known. */
  lemma HostStepConverges(w: World, s: Server, p: Progress, names: seq<string>, k: nat, cert: nat, used: set<string>)
    requires IsRoster(names) && AllSucceed(w, names) && NoneShared(s, names) && k < |names|
    requires !p.crashed && p.failed == [] && IsServer(p.server) && |p.server.hosts| >= |s.hosts|
    requires Follows(IndexOf(s.certs), p.index, IndexOf(p.server.certs), used) && used == LowerAll(names[..k + 1])
    requires Covering(IndexOf(p.server.certs), names[k]) == Some(cert)
    requires forall j :: 0 <= j < k ==> InSync(w, p.server, names[j])
    requires forall j :: k <= j < |names| ==> Untouched(s.hosts, p.server.hosts, Lower(names[j]))
    ensures Converging(w, s, StepHost(w, false, LiveOf(s.hosts), p, names[k], cert), names, k + 1)
  {
    hide StepHost, Drifts, Desired, LowerNames, LowerAll, Lower, Covering, IndexOf, Follows, LiveOf;
    var name, live := names[k], LiveOf(s.hosts);
    LiveStands(s, p.server.hosts, Lower(name));
    HostStepSettles(w, live, p, name, cert);
    forall j | 0 <= j < k ensures InSync(w, StepHost(w, false, live, p, name, cert).server, names[j]) {
      OthersKept(w, s, p, names, k, cert, j);
    }
    forall j | k < j < |names|
      ensures Untouched(s.hosts, StepHost(w, false, live, p, name, cert).server.hosts, Lower(names[j]))
    {
      assert Untouched(s.hosts, p.server.hosts, Lower(name));
      HostStepKeeps(w, live, p, name, cert, Lower(names[j]));
    }
  }

  lemma OthersKept(w: World, s: Server, p: Progress, names: seq<string>, k: nat, cert: nat, j: nat)
    requires IsRoster(names) && AllSucceed(w, names) && j < k < |names| && IsServer(p.server)
    requires InSync(w, p.server, names[j]) && Stands(p.server.hosts, LiveOf(s.hosts), Lower(names[k]))
    ensures InSync(w, StepHost(w, false, LiveOf(s.hosts), p, names[k], cert).server, names[j])
  {
    hide StepHost, Drifts, Desired, LowerNames, Lower, Covering, IndexOf, LiveOf;
    var hosts, d := p.server.hosts, Lower(names[j]);
    InSyncNames(hosts[At(hosts, d)].fields, names[j], w.portal, Covering(IndexOf(p.server.certs), names[j]).value);
    assert d != Lower(names[k]);
    HostStepKeeps(w, LiveOf(s.hosts), p, names[k], cert, d);
    HostStepSettles(w, LiveOf(s.hosts), p, names[k], cert);
  }

  lemma ConvergeStep(w: World, s: Server, p: Progress, names: seq<string>, k: nat)
    requires IsRoster(names) && AllSucceed(w, names) && NoneShared(s, names) && k < |names|
    requires Converging(w, s, p, names, k)
    ensures Converging(w, s, StepName(w, false, LiveOf(s.hosts), p, names[k]), names, k + 1)
  {
    hide StepHost, Drifts, Desired, LowerNames, LowerAll, Lower, Covering, IndexOf, LiveOf;
    var name := names[k];
    UsedBefore(names, k, k);
    var was, now, used := IndexOf(s.certs), IndexOf(p.server.certs), LowerAll(names[..k]);
    CoverSame(was, p.index, now, used, name);
    if Covering(p.index, name).Some? {
      FollowsMore(was, p.index, now, used, Lower(name));
      HostStepConverges(w, s, p, names, k, Covering(p.index, name).value, LowerAll(names[..k + 1]));
    } else {
      var id := p.server.nextCert + 1;
      var q := p.(server := Issue(p.server, name), index := p.index[Lower(name) := id]);
      IssueStep(w, s, p, names, k);
      HostStepConverges(w, s, q, names, k, id, LowerAll(names[..k + 1]));
    }
  }

  lemma FollowsMore(was: map<string, nat>, index: map<string, nat>, now: map<string, nat>, used: set<string>, u: string)
    requires Follows(was, index, now, used) && !IsStarred(u)
    ensures Follows(was, index, now, used + {u})
  {
  }

  lemma IssueStep(w: World, s: Server, p: Progress, names: seq<string>, k: nat)
    requires IsRoster(names) && k < |names| && Converging(w, s, p, names, k)
    requires Lower(names[k]) !in IndexOf(p.server.certs)
    ensures var id := p.server.nextCert + 1;
            var q := p.(server := Issue(p.server, names[k]), index := p.index[Lower(names[k]) := id]);
            && Follows(IndexOf(s.certs), q.index, IndexOf(q.server.certs), LowerAll(names[..k + 1]))
            && Covering(IndexOf(q.server.certs), names[k]) == Some(id)
            && forall j :: 0 <= j < k ==> InSync(w, q.server, names[j])
  {
    hide Drifts, Desired, LowerNames, LowerAll, Lower, Covering, IndexOf, Follows, AddPatterns;
    var name, id := names[k], p.server.nextCert + 1;
    var was, now, used := IndexOf(s.certs), IndexOf(p.server.certs), LowerAll(names[..k]);
    var wildcard := IsWildcard(Certificate(id, name, [name]));
    UsedBefore(names, k, k);
    IssueIndexes(p.server.certs, id, name);
    IssueFollows(was, p.index, now, used, name, wildcard, id);
    forall j | 0 <= j < k ensures InSync(w, Issue(p.server, name), names[j]) {
      assert InSync(w, p.server, names[j]);
      IssueKeepsCovered(now, name, wildcard, id, names[j]);
    }
  }

  lemma ConvergingAtFirst(w: World, s: Server, names: seq<string>)
    requires IsServer(s)
    ensures Converging(w, s, Start(s), names, 0)
  {
    hide InSync, IndexOf, At, Lower;
    assert LowerAll(names[..0]) == {};
  }

  lemma {:induction false} Converges(w: World, s: Server, names: seq<string>, k: nat)
    requires IsServer(s) && IsRoster(names) && AllSucceed(w, names) && NoneShared(s, names) && k <= |names|
    ensures Converging(w, s, StepAll(w, false, LiveOf(s.hosts), Start(s), names[..k]), names, k)
  {
    hide StepName, LiveOf, Converging, IsServer, IsRoster, AllSucceed, NoneShared;
    if k == 0 {
      ConvergingAtFirst(w, s, names);
    } else {
      TakeSnoc(names, k - 1);
      Converges(w, s, names, k - 1);
      ConvergeStep(w, s, StepAll(w, false, LiveOf(s.hosts), Start(s), names[..k - 1]), names, k - 1);
    }
  }

  /** A run over names that are in sync reports nothing and writes nothing. */
  lemma {:induction false} SettledRunIsQuiet(w: World, check: bool, s: Server, names: seq<string>)
    requires forall i :: 0 <= i < |names| ==> names[i] in w.resolving && InSync(w, s, names[i])
    ensures Run(w, check, s, names) == Start(s)
    decreases |names|
  {
    if names != [] {
      hide InSync, StepName, LiveOf, Start;
      var init, last := names[..|names| - 1], names[|names| - 1];
      forall i | 0 <= i < |init| ensures init[i] in w.resolving && InSync(w, s, init[i]) {
        assert init[i] == names[i];
      }
      SettledRunIsQuiet(w, check, s, init);
      SettledStepIsQuiet(w, check, s, last);
    }
  }

  lemma SettledStepIsQuiet(w: World, check: bool, s: Server, name: string)
    requires name in w.resolving && InSync(w, s, name)
    ensures StepName(w, check, LiveOf(s.hosts), Start(s), name) == Start(s)
  {
    LiveStands(s, s.hosts, Lower(name));
    hide Drifts, Desired, Lower, Covering, IndexOf, LiveOf, At;
  }

  /** One pass is enough. When every name resolves, no request is refused, and no two names are
      found on the same host, nothing is reported, and a second run finds everything in sync and
      changes nothing. */
  lemma OnePassConverges(w: World, s: Server, names: seq<string>, check: bool)
    requires IsServer(s) && IsRoster(names) && AllSucceed(w, names) && NoneShared(s, names)
    ensures var first := Run(w, false, s, names);
            && first.failed == [] && !first.crashed
            && (forall i :: 0 <= i < |names| ==> InSync(w, first.server, names[i]))
            && Run(w, check, first.server, names) == Start(first.server)
  {
    Converges(w, s, names, |names|);
    TakeAll(names);
    SettledRunIsQuiet(w, check, Run(w, false, s, names).server, names);
  }

  // ── what a run may write ──

  /** The record a step writes over another: its fields, and the payload made from the snapshot. */
  function Written(w: World, now: Record, was: Record, name: string, cert: nat): Record {
    Record(now.id, now.fields + Payload(was.fields, Desired(name, w.portal, cert)))
  }

  ghost predicate Overwrites(w: World, was: seq<Record>, now: seq<Record>, after: seq<Record>, name: string,
                             cert: nat)
  {
    var at := At(was, Lower(name));
    0 <= at < |now| && after == now[at := Written(w, now[at], was[at], name, cert)]
  }

  ghost predicate Adds(w: World, was: seq<Record>, now: seq<Record>, after: seq<Record>, name: string, cert: nat,
                       id: nat)
  {
    At(was, Lower(name)) < 0 && after == now + [Record(id, Desired(name, w.portal, cert))]
  }

  /** A step writes at most once: to the host the name was found on, or to a new one. */
  ghost predicate Writes(w: World, was: seq<Record>, now: seq<Record>, after: seq<Record>, name: string) {
    || after == now
    || (exists cert :: Overwrites(w, was, now, after, name, cert))
    || (exists cert, id :: Adds(w, was, now, after, name, cert, id))
  }

  ghost predicate SameIds(was: seq<Record>, now: seq<Record>) {
    |was| <= |now| && forall i :: 0 <= i < |was| ==> now[i].id == was[i].id
  }

  lemma UpdateWrites(w: World, s: Server, now: Server, name: string, cert: nat)
    requires IsServer(now) && SameIds(s.hosts, now.hosts) && At(s.hosts, Lower(name)) >= 0
    ensures var was := s.hosts[At(s.hosts, Lower(name))];
            var after := Update(now, was.id, Payload(was.fields, Desired(name, w.portal, cert)));
            && Overwrites(w, s.hosts, now.hosts, after.hosts, name, cert)
            && IsServer(after) && SameIds(s.hosts, after.hosts)
  {
    hide Payload, Desired, Lower;
    var at := At(s.hosts, Lower(name));
    UpdateIsReplace(now, at, Payload(s.hosts[at].fields, Desired(name, w.portal, cert)));
  }

  lemma CreateAdds(w: World, s: Server, now: Server, name: string, cert: nat)
    requires IsServer(now) && SameIds(s.hosts, now.hosts) && At(s.hosts, Lower(name)) < 0
    ensures var after := Create(now, Desired(name, w.portal, cert));
            && Adds(w, s.hosts, now.hosts, after.hosts, name, cert, now.nextHost)
            && IsServer(after) && SameIds(s.hosts, after.hosts)
  {
  }

  /** A step that writes, or leaves everything as it is. */
  ghost predicate Continues(w: World, s: Server, now: Server, after: Server, name: string) {
    Writes(w, s.hosts, now.hosts, after.hosts, name) && IsServer(after) && SameIds(s.hosts, after.hosts)
  }

  lemma StayContinues(w: World, s: Server, now: Server, name: string)
    requires IsServer(now) && SameIds(s.hosts, now.hosts)
    ensures Continues(w, s, now, now, name)
  {
  }

  lemma WriteContinues(w: World, s: Server, now: Server, name: string, cert: nat)
    requires IsServer(now) && SameIds(s.hosts, now.hosts)
    ensures Lower(name) !in LiveOf(s.hosts) ==> Continues(w, s, now, Create(now, Desired(name, w.portal, cert)), name)
    ensures Lower(name) in LiveOf(s.hosts) ==>
              var was := LiveOf(s.hosts)[Lower(name)];
              Continues(w, s, now, Update(now, was.id, Payload(was.fields, Desired(name, w.portal, cert))), name)
  {
    LiveStands(s, s.hosts, Lower(name));
    hide Payload, Desired, Lower, LiveOf, At, Overwrites, Adds, IsServer, SameIds, Create, Update;
    if Lower(name) !in LiveOf(s.hosts) {
      CreateAdds(w, s, now, name, cert);
    } else {
      UpdateWrites(w, s, now, name, cert);
    }
  }

  lemma StepHostWrites(w: World, check: bool, s: Server, p: Progress, name: string, cert: nat)
    requires IsServer(p.server) && SameIds(s.hosts, p.server.hosts)
    ensures Continues(w, s, p.server, StepHost(w, check, LiveOf(s.hosts), p, name, cert).server, name)
  {
    hide Continues, Drifts, Payload, Desired, Lower, Update, Create, LiveOf, At, IsServer, SameIds;
    StayContinues(w, s, p.server, name);
    WriteContinues(w, s, p.server, name, cert);
  }

  lemma StepWrites(w: World, check: bool, s: Server, p: Progress, name: string)
    requires IsServer(p.server) && SameIds(s.hosts, p.server.hosts)
    ensures Continues(w, s, p.server, StepName(w, check, LiveOf(s.hosts), p, name).server, name)
  {
    hide StepHost, Covering, Lower, LiveOf;
    var cert := Covering(p.index, name);
    if cert.Some? {
      StepHostWrites(w, check, s, p, name, cert.value);
    } else {
      var id := p.server.nextCert + 1;
      StepHostWrites(w, check, s, p.(server := Issue(p.server, name), index := p.index[Lower(name) := id]), name, id);
    }
  }

  predicate IsOwnMeta(k: string) {
    k == "letsencrypt_agree" || k == "dns_challenge"
  }

  /** What the script does not own of a host is as it was, but for a gate, which may be cleared, and
      a missing list of locations, which may be filled in. */
  ghost predicate Kept(was: Host, now: Host) {
    && (forall f :: !IsManaged(f) && f != AdvancedConfig && f in was ==> f in now && now[f] == was[f])
    && (forall f :: !IsManaged(f) && f != AdvancedConfig && f != Locations && f in now ==> f in was)
    && (GetOr(now, AdvancedConfig, Null) == GetOr(was, AdvancedConfig, Null)
        || (HasGate(was) && GetOr(now, AdvancedConfig, Null) == Text("")))
    && (forall k :: !IsOwnMeta(k) ==>
          GetOr(EntriesOf(GetOr(now, Meta, Null)), k, Null) == GetOr(EntriesOf(GetOr(was, Meta, Null)), k, Null))
  }

  lemma WriteKeepsField(w: World, was: Host, now: Host, name: string, cert: nat, f: Field)
    requires Kept(was, now) && !IsManaged(f) && f != AdvancedConfig
    ensures var after := now + Payload(was, Desired(name, w.portal, cert));
            && (f in was ==> f in after && after[f] == was[f])
            && (f != Locations && f in after ==> f in was)
  {
    hide HasGate, Payload, Desired;
    UpdateSends(was, Desired(name, w.portal, cert), f);
  }

  lemma WriteKeepsGate(w: World, was: Host, now: Host, name: string, cert: nat)
    requires Kept(was, now)
    ensures var after := GetOr(now + Payload(was, Desired(name, w.portal, cert)), AdvancedConfig, Null);
            after == GetOr(was, AdvancedConfig, Null) || (HasGate(was) && after == Text(""))
  {
    hide HasGate, MergedMeta;
    var payload := Payload(was, Desired(name, w.portal, cert));
    assert HasGate(was) ==> payload[AdvancedConfig] == Text("");
    assert !HasGate(was) ==> (AdvancedConfig in payload <==> AdvancedConfig in was);
  }

  lemma WriteKeepsMeta(w: World, was: Host, now: Host, name: string, cert: nat, k: string)
    requires !IsOwnMeta(k)
    ensures GetOr(EntriesOf(GetOr(now + Payload(was, Desired(name, w.portal, cert)), Meta, Null)), k, Null)
         == GetOr(EntriesOf(GetOr(was, Meta, Null)), k, Null)
  {
    hide HasGate;
    assert k !in EntriesOf(GetOr(Desired(name, w.portal, cert), Meta, Null));
  }

  lemma WriteKeeps(w: World, was: Host, now: Host, name: string, cert: nat)
    requires Kept(was, now)
    ensures Kept(was, now + Payload(was, Desired(name, w.portal, cert)))
  {
    hide HasGate, Payload, Desired;
    var after := now + Payload(was, Desired(name, w.portal, cert));
    WriteKeepsGate(w, was, now, name, cert);
    forall f | !IsManaged(f) && f != AdvancedConfig
      ensures (f in was ==> f in after && after[f] == was[f]) && (f != Locations && f in after ==> f in was)
    {
      WriteKeepsField(w, was, now, name, cert, f);
    }
    forall k | !IsOwnMeta(k)
      ensures GetOr(EntriesOf(GetOr(after, Meta, Null)), k, Null) == GetOr(EntriesOf(GetOr(was, Meta, Null)), k, Null)
    {
      WriteKeepsMeta(w, was, now, name, cert, k);
    }
  }

  /** Nothing but the managed part of the hosts found for these names has changed. */
  ghost predicate HostsKept(was: seq<Record>, now: seq<Record>, names: seq<string>) {
    && SameIds(was, now)
    && (forall i :: 0 <= i < |was| ==> Kept(was[i].fields, now[i].fields))
    && (forall i :: 0 <= i < |was| && (forall n :: n in names ==> At(was, Lower(n)) != i) ==> now[i] == was[i])
  }

  lemma WritesKeep(w: World, was: seq<Record>, now: seq<Record>, after: seq<Record>, names: seq<string>, name: string)
    requires HostsKept(was, now, names) && Writes(w, was, now, after, name)
    ensures HostsKept(was, after, names + [name])
  {
    hide Kept, Payload, Desired, Lower;
    var at := At(was, Lower(name));
    forall i | 0 <= i < |was| ensures Kept(was[i].fields, after[i].fields) {
      if cert: nat :| Overwrites(w, was, now, after, name, cert) {
        WriteKeeps(w, was[at].fields, now[at].fields, name, cert);
      }
    }
    forall i | 0 <= i < |was| && forall n :: n in names + [name] ==> At(was, Lower(n)) != i ensures after[i] == was[i] {
      assert name in names + [name];
      assert forall n :: n in names ==> n in names + [name];
    }
  }

  lemma KeptAtFirst(h: Host)
    ensures Kept(h, h)
  {
  }

  /** Whatever is refused on the way, a run leaves every other host alone, and of the hosts it
      updates all that it does not own. */
  lemma {:induction false} RunKeepsTheRest(w: World, check: bool, s: Server, names: seq<string>)
    requires IsServer(s)
    ensures HostsKept(s.hosts, Run(w, check, s, names).server.hosts, names)
    ensures IsServer(Run(w, check, s, names).server)
    decreases |names|
  {
    hide Kept, StepName, Lower, LiveOf, IndexOf;
    if names == [] {
      forall i | 0 <= i < |s.hosts| ensures Kept(s.hosts[i].fields, s.hosts[i].fields) {
        KeptAtFirst(s.hosts[i].fields);
      }
    } else {
      var init, last := names[..|names| - 1], names[|names| - 1];
      Snoc(names);
      RunKeepsTheRest(w, check, s, init);
      StepWrites(w, check, s, Run(w, check, s, init), last);
      WritesKeep(w, s.hosts, Run(w, check, s, init).server.hosts, Run(w, check, s, names).server.hosts, init, last);
    }
  }

  // ── a check ──

  /** The names a check has something to say about. */
  ghost function OutOfSync(w: World, s: Server, names: seq<string>): seq<string>
    decreases |names|
  {
    if names == [] then []
    else
      OutOfSync(w, s, names[..|names| - 1])
        + if names[|names| - 1] in w.resolving && InSync(w, s, names[|names| - 1]) then [] else [names[|names| - 1]]
  }

  /** A check writes nothing, and reports exactly the names that do not resolve or are out of sync. */
  lemma {:induction false} CheckReports(w: World, s: Server, names: seq<string>)
    ensures Run(w, true, s, names) == Start(s).(failed := OutOfSync(w, s, names))
    decreases |names|
  {
    hide Drifts, Desired, Lower, Covering, IndexOf, LiveOf;
    if names != [] {
      var init, last := names[..|names| - 1], names[|names| - 1];
      CheckReports(w, s, init);
      LiveStands(s, s.hosts, Lower(last));
      assert OutOfSync(w, s, init) + [] == OutOfSync(w, s, init);
    }
  }
}
