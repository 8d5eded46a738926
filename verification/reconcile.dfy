/** Bringing every subscribe host of the edge proxy in line, one name at a time. */
module Reconcile {
  import opened Basics
  import opened Certificates
  import opened Hosts

  datatype Record = Record(id: nat, fields: Host)

  /** What the proxy holds. */
  datatype Server = Server(hosts: seq<Record>, certs: seq<Certificate>, nextHost: nat, nextCert: nat)

  /** What a run meets outside: which names resolve, and which requests are refused. A certificate
      request can come back without one, or fail outright. */
  datatype World = World(portal: Portal, resolving: set<string>, denied: set<string>, broken: set<string>,
                         rejected: set<string>)

  function LowerAll(names: seq<string>): set<string> {
    set d | d in names :: Lower(d)
  }

  function LowerNames(fields: Host): set<string> {
    LowerAll(NamesOf(GetOr(fields, DomainNames, Null)))
  }

  /** Where a name is live: the last host listing it. */
  function At(hosts: seq<Record>, d: string): (at: int)
    ensures -1 <= at < |hosts|
    ensures at >= 0 ==> d in LowerNames(hosts[at].fields)
    ensures forall i :: at < i < |hosts| ==> d !in LowerNames(hosts[i].fields)
    decreases |hosts|
  {
    if hosts == [] then -1
    else if d in LowerNames(hosts[|hosts| - 1].fields) then |hosts| - 1
    else At(hosts[..|hosts| - 1], d)
  }

  /** Every name any host lists, with the host it is found under. */
  ghost predicate IsLive(live: map<string, Record>, hosts: seq<Record>) {
    forall d :: (d in live <==> At(hosts, d) >= 0) && (d in live ==> live[d] == hosts[At(hosts, d)])
  }

  lemma AtSnoc(hosts: seq<Record>, r: Record, d: string)
    ensures At(hosts + [r], d) == if d in LowerNames(r.fields) then |hosts| else At(hosts, d)
  {
    assert (hosts + [r])[..|hosts|] == hosts;
  }

  method FindLive(hosts: seq<Record>) returns (live: map<string, Record>)
    ensures IsLive(live, hosts)
  {
    live := map[];
    for i := 0 to |hosts|
      invariant IsLive(live, hosts[..i])
    {
      TakeSnoc(hosts, i);
      live := AddHost(live, hosts[..i], hosts[i]);
    }
    TakeAll(hosts);
  }

  lemma LowerSnoc(names: seq<string>, j: nat)
    requires j < |names|
    ensures LowerAll(names[..j + 1]) == LowerAll(names[..j]) + {Lower(names[j])}
  {
    TakeSnoc(names, j);
    assert forall n :: n in names[..j + 1] <==> n in names[..j] || n == names[j];
  }

  function Pointed(live: map<string, Record>, names: set<string>, r: Record): map<string, Record> {
    live + map d | d in names :: r
  }

  lemma PointOne(live: map<string, Record>, names: set<string>, r: Record, d: string)
    ensures Pointed(live, names + {d}, r) == Pointed(live, names, r)[d := r]
  {
  }

  method PointNames(live: map<string, Record>, names: seq<string>, r: Record) returns (live': map<string, Record>)
    ensures live' == Pointed(live, LowerAll(names), r)
  {
    live' := live;
    assert Pointed(live, LowerAll(names[..0]), r) == live;
    hide LowerAll, Lower, Pointed;
    for j := 0 to |names|
      invariant live' == Pointed(live, LowerAll(names[..j]), r)
    {
      LowerSnoc(names, j);
      PointOne(live, LowerAll(names[..j]), r, Lower(names[j]));
      live' := live'[Lower(names[j]) := r];
    }
    TakeAll(names);
  }

  method AddHost(live: map<string, Record>, before: seq<Record>, r: Record) returns (live': map<string, Record>)
    requires IsLive(live, before)
    ensures IsLive(live', before + [r])
  {
    hide LowerAll, IsLive, Pointed;
    live' := PointNames(live, NamesOf(GetOr(r.fields, DomainNames, Null)), r);
    PointedIsLive(live, before, r);
  }

  lemma PointedIsLive(live: map<string, Record>, before: seq<Record>, r: Record)
    requires IsLive(live, before)
    ensures IsLive(Pointed(live, LowerNames(r.fields), r), before + [r])
  {
    hide LowerNames;
    forall d {
      AtSnoc(before, r, d);
    }
  }

  // ── one name ──

  datatype Progress = Progress(server: Server, index: map<string, nat>, failed: seq<string>, crashed: bool)

  function Fail(p: Progress, name: string): Progress {
    p.(failed := p.failed + [name])
  }

  /** The proxy's side of a request for a certificate, a new host, and an update. */
  function Issue(s: Server, name: string): Server {
    s.(certs := s.certs + [Certificate(s.nextCert + 1, name, [name])], nextCert := s.nextCert + 1)
  }

  function Create(s: Server, fields: Host): Server {
    s.(hosts := s.hosts + [Record(s.nextHost, fields)], nextHost := s.nextHost + 1)
  }

  function Updated(r: Record, id: nat, payload: Host): Record {
    if r.id == id then Record(id, r.fields + payload) else r
  }

  function Update(s: Server, id: nat, payload: Host): Server {
    s.(hosts := seq(|s.hosts|, i requires 0 <= i < |s.hosts| => Updated(s.hosts[i], id, payload)))
  }

  function StepHost(w: World, check: bool, live: map<string, Record>, p: Progress, name: string, cert: nat): Progress {
    var want := Desired(name, w.portal, cert);
    if Lower(name) !in live then
      if check || name in w.rejected then Fail(p, name) else p.(server := Create(p.server, want))
    else
      var existing := live[Lower(name)];
      if Drifts(existing.fields, want) == [] then p
      else if check || name in w.rejected then Fail(p, name)
      else p.(server := Update(p.server, existing.id, Payload(existing.fields, want)))
  }

  function StepName(w: World, check: bool, live: map<string, Record>, p: Progress, name: string): Progress {
    if p.crashed then p
    else if name !in w.resolving then Fail(p, name)
    else match Covering(p.index, name)
      case Some(cert) => StepHost(w, check, live, p, name, cert)
      case None =>
        if check then Fail(p, name)
        else if name in w.broken then p.(crashed := true)
        else if name in w.denied then Fail(p, name)
        else
          var cert := p.server.nextCert + 1;
          StepHost(w, check, live,
                   p.(server := Issue(p.server, name), index := p.index[Lower(name) := cert]), name, cert)
  }

  function StepAll(w: World, check: bool, live: map<string, Record>, p: Progress, names: seq<string>): Progress
    decreases |names|
  {
    if names == [] then p
    else StepName(w, check, live, StepAll(w, check, live, p, names[..|names| - 1]), names[|names| - 1])
  }

  function LiveOf(hosts: seq<Record>): map<string, Record> {
    map d | d in AllNames(hosts) :: hosts[At(hosts, d)]
  }

  function AllNames(hosts: seq<Record>): (names: set<string>)
    ensures forall d :: d in names <==> At(hosts, d) >= 0
    decreases |hosts|
  {
    if hosts == [] then {}
    else AllNames(hosts[..|hosts| - 1]) + LowerNames(hosts[|hosts| - 1].fields)
  }

  function Start(s: Server): Progress {
    Progress(s, IndexOf(s.certs), [], false)
  }

  /** A whole run: the live hosts are read once, before the first name. */
  function Run(w: World, check: bool, s: Server, names: seq<string>): Progress {
    StepAll(w, check, LiveOf(s.hosts), Start(s), names)
  }

  lemma LiveIsOne(live: map<string, Record>, hosts: seq<Record>)
    requires IsLive(live, hosts)
    ensures live == LiveOf(hosts)
  {
    assert live.Keys == LiveOf(hosts).Keys;
  }

  // ── the run, step by step ──

  class Npm {
    var hosts: seq<Record>
    var certs: seq<Certificate>
    var nextHost: nat
    var nextCert: nat

    function State(): Server
      reads this
    {
      Server(hosts, certs, nextHost, nextCert)
    }

    constructor (s: Server)
      ensures State() == s
    {
      hosts, certs, nextHost, nextCert := s.hosts, s.certs, s.nextHost, s.nextCert;
    }

    method IssueCertificate(name: string) returns (cert: nat)
      modifies this`certs, this`nextCert
      ensures State() == Issue(old(State()), name) && cert == old(nextCert) + 1
    {
      nextCert := nextCert + 1;
      cert := nextCert;
      certs := certs + [Certificate(cert, name, [name])];
    }

    method CreateHost(fields: Host)
      modifies this`hosts, this`nextHost
      ensures State() == Create(old(State()), fields)
    {
      hosts := hosts + [Record(nextHost, fields)];
      nextHost := nextHost + 1;
    }

    method UpdateHost(id: nat, payload: Host)
      modifies this`hosts
      ensures State() == Update(old(State()), id, payload)
    {
      hosts := Update(State(), id, payload).hosts;
    }
  }

  /** One name whose certificate is known: create its host, update it, or leave it. */
  method ReconcileHost(w: World, check: bool, npm: Npm, live: map<string, Record>, name: string, cert: nat,
                       ghost p: Progress)
    returns (ok: bool)
    requires npm.State() == p.server
    modifies npm
    ensures var after := StepHost(w, check, live, p, name, cert);
            npm.State() == after.server && after == (if ok then p else Fail(p, name)).(server := npm.State())
  {
    var want := Desired(name, w.portal, cert);
    if Lower(name) !in live {
      if check || name in w.rejected {
        return false;
      }
      npm.CreateHost(want);
      return true;
    }
    var existing := live[Lower(name)];
    var diffs := Differences(existing.fields, want);
    if diffs == [] {
      return true;
    }
    if check || name in w.rejected {
      return false;
    }
    DesiredIsWhole(name, w.portal, cert);
    var payload := UpdatePayload(existing.fields, want);
    npm.UpdateHost(existing.id, payload);
    return true;
  }

  /** How one name went. */
  datatype Outcome = Fine | Failed | Crashed

  function After(p: Progress, name: string, server: Server, index: map<string, nat>, outcome: Outcome): Progress {
    Progress(server, index, if outcome == Failed then p.failed + [name] else p.failed, outcome == Crashed)
  }

  method ReconcileName(w: World, check: bool, npm: Npm, live: map<string, Record>, index: map<string, nat>,
                       name: string, ghost p: Progress)
    returns (index': map<string, nat>, outcome: Outcome)
    requires p.server == npm.State() && p.index == index && !p.crashed
    modifies npm
    ensures StepName(w, check, live, p, name) == After(p, name, npm.State(), index', outcome)
  {
    index' := index;
    if name !in w.resolving {
      return index', Failed;
    }
    var cert := Covering(index, name);
    if cert.None? {
      if check {
        return index', Failed;
      }
      if name in w.broken {
        return index', Crashed;
      }
      if name in w.denied {
        return index', Failed;
      }
      var id := npm.IssueCertificate(name);
      cert := Some(id);
      index' := index'[Lower(name) := id];
    }
    var ok := ReconcileHost(w, check, npm, live, name, cert.value, Progress(npm.State(), index', p.failed, false));
    return index', if ok then Fine else Failed;
  }

  /** The run. A name is reported when it does not resolve, when no certificate can be had for it,
      when its host cannot be written, and in a check whenever anything would be. */
  method Reconcile(w: World, check: bool, npm: Npm, names: seq<string>)
    returns (failed: seq<string>, crashed: bool)
    modifies npm
    ensures var run := Run(w, check, old(npm.State()), names);
            npm.State() == run.server && failed == run.failed && crashed == run.crashed
  {
    ghost var start := npm.State();
    var index: map<string, nat> := CertIndex(npm.certs);
    var live := FindLive(npm.hosts);
    LiveIsOne(live, npm.hosts);
    hide StepName, IndexOf, LiveOf, IsLive;
    failed, crashed := [], false;
    var k := 0;
    while k < |names| && !crashed
      invariant 0 <= k <= |names|
      invariant Progress(npm.State(), index, failed, crashed) == StepAll(w, check, live, Start(start), names[..k])
      decreases |names| - k
    {
      TakeSnoc(names, k);
      var outcome: Outcome;
      ghost var p := Progress(npm.State(), index, failed, false);
      index, outcome := ReconcileName(w, check, npm, live, index, names[k], p);
      if outcome == Failed {
        failed := failed + [names[k]];
      }
      crashed := outcome == Crashed;
      k := k + 1;
    }
    CrashStays(w, check, live, Start(start), names, k);
  }

  lemma {:induction false} CrashStays(w: World, check: bool, live: map<string, Record>, p: Progress,
                                      names: seq<string>, k: nat)
    requires k <= |names|
    ensures StepAll(w, check, live, p, names[..k]).crashed ==>
              StepAll(w, check, live, p, names) == StepAll(w, check, live, p, names[..k])
    ensures k == |names| ==> StepAll(w, check, live, p, names) == StepAll(w, check, live, p, names[..k])
    decreases |names|
  {
    TakeAll(names);
    if k < |names| {
      var init := names[..|names| - 1];
      assert init[..k] == names[..k];
      CrashStays(w, check, live, p, init, k);
    }
  }
}
