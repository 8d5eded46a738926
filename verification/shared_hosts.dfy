/** Two names on one proxy host: the first run leaves the host to one of them, the second makes the
    others hosts of their own, and the third finds nothing to do. */
module SharedHosts {
  import opened Basics
  import opened Certificates
  import opened Hosts
  import opened Reconcile
  import opened Convergence

  /** The proxy lists a name under one host at most. */
  ghost predicate OneHostEach(s: Server) {
    forall p, q, d :: 0 <= p < |s.hosts| && 0 <= q < |s.hosts| && p != q && d in LowerNames(s.hosts[p].fields)
      ==> d !in LowerNames(s.hosts[q].fields)
  }

  predicate IsOn(s: Server, names: seq<string>, i: int, a: int) {
    0 <= i < |names| && At(s.hosts, Lower(names[i])) == a
  }

  ghost predicate AloneOn(s: Server, now: seq<Record>, names: seq<string>, i: int, a: int)
    requires 0 <= a < |now|
  {
    IsOn(s, names, i, a) && LowerNames(now[a].fields) == {Lower(names[i])}
  }

  /** After `k` names, the shared host lists only the last of its names so far, and no other host
      lists any of them. */
  ghost predicate Narrowed(s: Server, p: Progress, names: seq<string>, k: nat, a: nat) {
    && !p.crashed && IsServer(p.server) && SameIds(s.hosts, p.server.hosts) && a < |s.hosts|
    && ((exists i :: i < k && IsOn(s, names, i, a)) ==> exists i :: i < k && AloneOn(s, p.server.hosts, names, i, a))
    && (forall q, i :: 0 <= q < |p.server.hosts| && q != a && IsOn(s, names, i, a) ==>
          Lower(names[i]) !in LowerNames(p.server.hosts[q].fields))
  }

  lemma PayloadNames(now: Host, was: Host, name: string, portal: Portal, cert: nat)
    ensures LowerNames(now + Payload(was, Desired(name, portal, cert))) == {Lower(name)}
  {
    hide HasGate, MergedMeta;
    var payload := Payload(was, Desired(name, portal, cert));
    assert payload[DomainNames] == Names([name]);
    assert GetOr(now + payload, DomainNames, Null) == Names([name]);
    assert LowerAll([name]) == {Lower(name)} by {
      assert name in [name];
    }
  }

  /** Whatever a step writes lists the step's own name and no other. */
  lemma WritesOwnName(w: World, was: seq<Record>, now: seq<Record>, after: seq<Record>, name: string)
    requires Writes(w, was, now, after, name) && SameIds(was, now)
    ensures |after| >= |now|
    ensures forall q :: 0 <= q < |after| ==>
              (q < |now| && after[q] == now[q])
              || (LowerNames(after[q].fields) == {Lower(name)}
                  && (q == At(was, Lower(name)) || (At(was, Lower(name)) < 0 && q >= |now|)))
  {
    hide Payload, Desired, LowerNames, Lower;
    if cert :| Overwrites(w, was, now, after, name, cert) {
      PayloadNames(now[At(was, Lower(name))].fields, was[At(was, Lower(name))].fields, name, w.portal, cert);
    }
    if cert, id :| Adds(w, was, now, after, name, cert, id) {
      CreatedNames(name, w.portal, cert);
    }
  }

  /** With nothing refused, every step reaches its host. */
  lemma StepReaches(w: World, live: map<string, Record>, p: Progress, name: string)
    requires !p.crashed && name in w.resolving && name !in w.denied && name !in w.broken && name !in w.rejected
    ensures exists cert: nat, q ::
              StepName(w, false, live, p, name) == StepHost(w, false, live, q, name, cert)
              && q.server.hosts == p.server.hosts && q.server.nextHost == p.server.nextHost && !q.crashed
  {
    hide StepHost, Covering, Lower;
    var cert := Covering(p.index, name);
    if cert.Some? {
      assert StepName(w, false, live, p, name) == StepHost(w, false, live, p, name, cert.value);
    } else {
      var id := p.server.nextCert + 1;
      var q := p.(server := Issue(p.server, name), index := p.index[Lower(name) := id]);
      assert StepName(w, false, live, p, name) == StepHost(w, false, live, q, name, id);
    }
  }

  /** A host listing more than its name is always written over. */
  lemma SharedIsWritten(w: World, s: Server, p: Progress, name: string, other: string)
    requires IsServer(p.server) && SameIds(s.hosts, p.server.hosts) && !p.crashed
    requires name in w.resolving && name !in w.denied && name !in w.broken && name !in w.rejected
    requires At(s.hosts, Lower(name)) >= 0 && At(s.hosts, Lower(other)) == At(s.hosts, Lower(name))
    requires Lower(other) != Lower(name)
    ensures var a, after := At(s.hosts, Lower(name)), StepName(w, false, LiveOf(s.hosts), p, name);
            !after.crashed && a < |after.server.hosts| && LowerNames(after.server.hosts[a].fields) == {Lower(name)}
  {
    hide Drifts, Payload, Desired, LowerNames, Lower, LiveOf;
    var a, live := At(s.hosts, Lower(name)), LiveOf(s.hosts);
    LiveStands(s, s.hosts, Lower(name));
    StepReaches(w, live, p, name);
    var cert: nat, q :| StepName(w, false, live, p, name) == StepHost(w, false, live, q, name, cert)
                   && q.server.hosts == p.server.hosts && q.server.nextHost == p.server.nextHost && !q.crashed;
    var want := Desired(name, w.portal, cert);
    if Drifts(s.hosts[a].fields, want) == [] {
      InSyncNames(s.hosts[a].fields, name, w.portal, cert);
    }
    UpdateIsReplace(q.server, a, Payload(s.hosts[a].fields, want));
    PayloadNames(p.server.hosts[a].fields, s.hosts[a].fields, name, w.portal, cert);
  }

  lemma NoCrash(w: World, live: map<string, Record>, p: Progress, name: string)
    requires !p.crashed && name in w.resolving && name !in w.denied && name !in w.broken && name !in w.rejected
    ensures !StepName(w, false, live, p, name).crashed
  {
    hide Covering, Lower, Drifts, Desired, Payload;
  }

  lemma NarrowStep(w: World, s: Server, p: Progress, names: seq<string>, k: nat, a: nat, i0: nat, i1: nat)
    requires IsRoster(names) && AllSucceed(w, names) && k < |names|
    requires i0 < i1 && IsOn(s, names, i0, a) && IsOn(s, names, i1, a) && Narrowed(s, p, names, k, a)
    ensures Narrowed(s, StepName(w, false, LiveOf(s.hosts), p, names[k]), names, k + 1, a)
  {
    hide StepName, Writes, LowerNames, Lower, LiveOf;
    var name := names[k];
    var after := StepName(w, false, LiveOf(s.hosts), p, name);
    NoCrash(w, LiveOf(s.hosts), p, name);
    StepWrites(w, false, s, p, name);
    WritesOwnName(w, s.hosts, p.server.hosts, after.server.hosts, name);
    if IsOn(s, names, k, a) {
      SharedIsWritten(w, s, p, name, names[if k == i0 then i1 else i0]);
      assert AloneOn(s, after.server.hosts, names, k, a);
    } else {
      assert after.server.hosts[a] == p.server.hosts[a];
      forall i | 0 <= i < k && AloneOn(s, p.server.hosts, names, i, a)
        ensures AloneOn(s, after.server.hosts, names, i, a)
      {
      }
    }
    forall q, i | 0 <= q < |after.server.hosts| && q != a && IsOn(s, names, i, a)
      ensures Lower(names[i]) !in LowerNames(after.server.hosts[q].fields)
    {
      if i != k {
        assert Lower(names[i]) != Lower(name);
      }
    }
  }

  lemma {:induction false} Narrows(w: World, s: Server, names: seq<string>, k: nat, a: nat, i0: nat, i1: nat)
    requires IsServer(s) && OneHostEach(s) && IsRoster(names) && AllSucceed(w, names) && k <= |names| && a < |s.hosts|
    requires i0 < i1 && IsOn(s, names, i0, a) && IsOn(s, names, i1, a)
    ensures Narrowed(s, StepAll(w, false, LiveOf(s.hosts), Start(s), names[..k]), names, k, a)
  {
    hide StepName, LowerNames, Lower, LiveOf;
    if k == 0 {
      assert names[..0] == [];
      forall q, i | 0 <= q < |s.hosts| && q != a && IsOn(s, names, i, a)
        ensures Lower(names[i]) !in LowerNames(s.hosts[q].fields)
      {
        assert Lower(names[i]) in LowerNames(s.hosts[a].fields);
      }
    } else {
      TakeSnoc(names, k - 1);
      Narrows(w, s, names, k - 1, a, i0, i1);
      NarrowStep(w, s, StepAll(w, false, LiveOf(s.hosts), Start(s), names[..k - 1]), names, k - 1, a, i0, i1);
    }
  }

  lemma LostBeside(s: Server, p: Progress, names: seq<string>, a: nat, i: int, z: int)
    requires IsRoster(names) && Narrowed(s, p, names, |names|, a)
    requires AloneOn(s, p.server.hosts, names, z, a) && IsOn(s, names, i, a) && i != z
    ensures At(p.server.hosts, Lower(names[i])) < 0
  {
    hide LowerNames, Lower;
    assert Lower(names[i]) != Lower(names[z]);
    var at := At(p.server.hosts, Lower(names[i]));
  }

  /** Of two names found on one host, a run leaves one on no host at all. */
  lemma OneIsLost(w: World, s: Server, names: seq<string>)
    requires IsServer(s) && OneHostEach(s) && IsRoster(names) && AllSucceed(w, names) && !NoneShared(s, names)
    ensures exists i :: 0 <= i < |names| && At(Run(w, false, s, names).server.hosts, Lower(names[i])) < 0
  {
    hide StepName, StepAll, LowerNames, Lower, LiveOf, IndexOf;
    var i0, i1 :| 0 <= i0 < i1 < |names| && At(s.hosts, Lower(names[i0])) >= 0
                    && At(s.hosts, Lower(names[i0])) == At(s.hosts, Lower(names[i1]));
    var a := At(s.hosts, Lower(names[i0]));
    var hosts := Run(w, false, s, names).server.hosts;
    assert IsOn(s, names, i0, a) && IsOn(s, names, i1, a);
    Narrows(w, s, names, |names|, a, i0, i1);
    TakeAll(names);
    var z :| z < |names| && AloneOn(s, hosts, names, z, a);
    LostBeside(s, Run(w, false, s, names), names, a, if z == i0 then i1 else i0, z);
  }

  /** A run creates a host for each name it finds on none. */
  lemma {:induction false} LostIsCreated(w: World, s: Server, names: seq<string>, i: nat, k: nat)
    requires IsServer(s) && AllSucceed(w, names) && i < |names| && k <= |names| && At(s.hosts, Lower(names[i])) < 0
    ensures var p := StepAll(w, false, LiveOf(s.hosts), Start(s), names[..k]);
            && !p.crashed && IsServer(p.server) && SameIds(s.hosts, p.server.hosts)
            && (i < k ==> |p.server.hosts| > |s.hosts|)
  {
    hide StepName, StepHost, LowerNames, Lower, LiveOf, IndexOf, Writes;
    if k == 0 {
      assert names[..0] == [];
    } else {
      TakeSnoc(names, k - 1);
      LostIsCreated(w, s, names, i, k - 1);
      var p := StepAll(w, false, LiveOf(s.hosts), Start(s), names[..k - 1]);
      NoCrash(w, LiveOf(s.hosts), p, names[k - 1]);
      StepWrites(w, false, s, p, names[k - 1]);
      var after := StepName(w, false, LiveOf(s.hosts), p, names[k - 1]).server;
      WritesOwnName(w, s.hosts, p.server.hosts, after.hosts, names[k - 1]);
      if i == k - 1 {
        LostStep(w, s, p, names[i]);
      }
    }
  }

  lemma LostStep(w: World, s: Server, p: Progress, name: string)
    requires !p.crashed && name in w.resolving && name !in w.denied && name !in w.broken && name !in w.rejected
    requires At(s.hosts, Lower(name)) < 0
    ensures |StepName(w, false, LiveOf(s.hosts), p, name).server.hosts| == |p.server.hosts| + 1
  {
    hide Drifts, Payload, Desired, Lower, LiveOf, StepName;
    LiveStands(s, s.hosts, Lower(name));
    StepReaches(w, LiveOf(s.hosts), p, name);
  }

  /** One pass is enough exactly when no two of the names are found on the same host: otherwise the
      second one still creates a host for each name the first one lost. */
  lemma OnePassIffNoneShared(w: World, s: Server, names: seq<string>)
    requires IsServer(s) && OneHostEach(s) && IsRoster(names) && AllSucceed(w, names)
    ensures var first := Run(w, false, s, names).server;
            Run(w, false, first, names).server == first <==> NoneShared(s, names)
  {
    hide StepAll, Lower, At;
    var first := Run(w, false, s, names).server;
    if NoneShared(s, names) {
      OnePassConverges(w, s, names, false);
    } else {
      OneIsLost(w, s, names);
      var i :| 0 <= i < |names| && At(first.hosts, Lower(names[i])) < 0;
      RunKeepsTheRest(w, false, s, names);
      LostIsCreated(w, first, names, i, |names|);
      TakeAll(names);
    }
  }

  // ── two passes ──

  ghost predicate IsSingle(r: Record, names: seq<string>) {
    exists m :: 0 <= m < |names| && LowerNames(r.fields) == {Lower(names[m])}
  }

  ghost predicate Share(s: Server, names: seq<string>, i: nat, j: nat)
    requires i < |names| && j < |names|
  {
    i != j && At(s.hosts, Lower(names[i])) >= 0 && At(s.hosts, Lower(names[i])) == At(s.hosts, Lower(names[j]))
  }

  /** After `k` names: a host is as it was or lists one name of the run, and where one of those names
      shared a host, that host lists one. */
  ghost predicate Parted(s: Server, p: Progress, names: seq<string>, k: nat) {
    && k <= |names| && !p.crashed && IsServer(p.server) && SameIds(s.hosts, p.server.hosts)
    && (forall q :: 0 <= q < |p.server.hosts| && !IsSingle(p.server.hosts[q], names) ==>
          q < |s.hosts| && p.server.hosts[q] == s.hosts[q])
    && (forall i, j :: 0 <= i < k && 0 <= j < |names| && Share(s, names, i, j) ==>
          IsSingle(p.server.hosts[At(s.hosts, Lower(names[i]))], names))
  }

  lemma PartStep(w: World, s: Server, p: Progress, names: seq<string>, k: nat)
    requires IsRoster(names) && AllSucceed(w, names) && k < |names| && Parted(s, p, names, k)
    ensures Parted(s, StepName(w, false, LiveOf(s.hosts), p, names[k]), names, k + 1)
  {
    hide StepName, Writes, LowerNames, Lower, LiveOf;
    var name := names[k];
    var after := StepName(w, false, LiveOf(s.hosts), p, name);
    NoCrash(w, LiveOf(s.hosts), p, name);
    StepWrites(w, false, s, p, name);
    WritesOwnName(w, s.hosts, p.server.hosts, after.server.hosts, name);
    var hosts := after.server.hosts;
    forall q | 0 <= q < |hosts|
      ensures IsSingle(hosts[q], names) || (q < |p.server.hosts| && hosts[q] == p.server.hosts[q])
    {
      assert LowerNames(hosts[q].fields) == {Lower(names[k])} ==> IsSingle(hosts[q], names);
    }
    forall i, j | 0 <= i < k + 1 && 0 <= j < |names| && Share(s, names, i, j)
      ensures IsSingle(hosts[At(s.hosts, Lower(names[i]))], names)
    {
      if i == k {
        assert Lower(names[j]) != Lower(name);
        SharedIsWritten(w, s, p, name, names[j]);
      }
    }
  }

  lemma {:induction false} Parts(w: World, s: Server, names: seq<string>, k: nat)
    requires IsServer(s) && IsRoster(names) && AllSucceed(w, names) && k <= |names|
    ensures Parted(s, StepAll(w, false, LiveOf(s.hosts), Start(s), names[..k]), names, k)
  {
    hide StepName, LowerNames, Lower, LiveOf, IndexOf, Parted;
    if k == 0 {
      assert names[..0] == [];
      PartedAtFirst(s, names);
    } else {
      TakeSnoc(names, k - 1);
      Parts(w, s, names, k - 1);
      PartStep(w, s, StepAll(w, false, LiveOf(s.hosts), Start(s), names[..k - 1]), names, k - 1);
    }
  }

  lemma PartedAtFirst(s: Server, names: seq<string>)
    requires IsServer(s)
    ensures Parted(s, Start(s), names, 0)
  {
    hide IndexOf;
  }

  /** A host that lists two of the names afterwards would have listed them before: but then it was
      left to one. */
  lemma ListsOne(s: Server, p: Progress, names: seq<string>, q: nat, i: nat, j: nat)
    requires OneHostEach(s) && IsRoster(names) && Parted(s, p, names, |names|)
    requires i < j < |names| && q < |p.server.hosts|
    ensures !(Lower(names[i]) in LowerNames(p.server.hosts[q].fields)
              && Lower(names[j]) in LowerNames(p.server.hosts[q].fields))
  {
    hide LowerNames, Lower;
    assert Lower(names[i]) != Lower(names[j]);
    var now := p.server.hosts;
    if q < |s.hosts| && now[q] == s.hosts[q] {
      assert Lower(names[i]) in LowerNames(s.hosts[q].fields) ==> At(s.hosts, Lower(names[i])) == q;
      assert Lower(names[j]) in LowerNames(s.hosts[q].fields) ==> At(s.hosts, Lower(names[j])) == q;
      assert At(s.hosts, Lower(names[i])) == q == At(s.hosts, Lower(names[j])) ==> Share(s, names, i, j);
    }
  }

  /** However the names share hosts before a run, none do after it. */
  lemma FirstRunParts(w: World, s: Server, names: seq<string>)
    requires IsServer(s) && OneHostEach(s) && IsRoster(names) && AllSucceed(w, names)
    ensures NoneShared(Run(w, false, s, names).server, names)
  {
    hide StepAll, LowerNames, Lower, LiveOf, IndexOf;
    Parts(w, s, names, |names|);
    TakeAll(names);
    var now := Run(w, false, s, names).server.hosts;
    forall i, j | 0 <= i < j < |names| && At(now, Lower(names[i])) >= 0
      ensures At(now, Lower(names[i])) != At(now, Lower(names[j]))
    {
      ListsOne(s, Run(w, false, s, names), names, At(now, Lower(names[i])), i, j);
    }
  }

  /** Two passes are always enough: after the first no two names are on one host, so the second
      reports nothing, leaves every name in sync, and a third changes and reports nothing. */
  lemma TwoPassesConverge(w: World, s: Server, names: seq<string>, check: bool)
    requires IsServer(s) && OneHostEach(s) && IsRoster(names) && AllSucceed(w, names)
    ensures var first := Run(w, false, s, names).server;
            var second := Run(w, false, first, names);
            && NoneShared(first, names) && second.failed == [] && !second.crashed
            && (forall i :: 0 <= i < |names| ==> InSync(w, second.server, names[i]))
            && Run(w, check, second.server, names) == Start(second.server)
  {
    hide StepAll, Lower, At, Start;
    FirstRunParts(w, s, names);
    RunKeepsTheRest(w, false, s, names);
    OnePassConverges(w, Run(w, false, s, names).server, names, check);
  }
}
