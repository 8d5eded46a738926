/** What a run that writes reports, and where it stops short, whatever is refused on the way. */
module RunReports {
  import opened Basics
  import opened Certificates
  import opened Hosts
  import opened Reconcile
  import opened Convergence
  import opened HostValues

  // ── what is to be expected of each name ──

  function CertOf(s: Server, name: string): Option<nat> {
    Covering(IndexOf(s.certs), name)
  }

  /** A name the run asks a certificate for: it resolves, and none covers it. */
  predicate IsAsked(w: World, s: Server, name: string) {
    name in w.resolving && CertOf(s, name).None?
  }

  /** Asking for it breaks the run off. */
  predicate Breaks(w: World, s: Server, name: string) {
    IsAsked(w, s, name) && name in w.broken
  }

  /** How many certificates the names before `k` are given. */
  function Granted(w: World, s: Server, names: seq<string>, k: nat): nat
    requires k <= |names|
  {
    if k == 0 then 0
    else
      Granted(w, s, names, k - 1)
        + if IsAsked(w, s, names[k - 1]) && names[k - 1] !in w.denied + w.broken then 1 else 0
  }

  /** No host lists the name, or the last to list it does not hold what it should with that certificate. */
  ghost predicate NeedsWrite(w: World, s: Server, name: string, cert: nat) {
    var at := At(s.hosts, Lower(name));
    at < 0 || !IsAsWanted(s.hosts[at].fields, name, w.portal, cert)
  }

  /** The name does not resolve; or it is covered, but its host has to be written and that is refused; or a
      certificate for it is refused, or granted and then its host has to be written and that is. */
  ghost predicate Misses(w: World, s: Server, names: seq<string>, k: nat)
    requires k < |names|
  {
    var name := names[k];
    || name !in w.resolving
    || (CertOf(s, name).Some? && name in w.rejected && NeedsWrite(w, s, name, CertOf(s, name).value))
    || (CertOf(s, name).None? && name in w.denied)
    || (CertOf(s, name).None? && name in w.rejected
        && NeedsWrite(w, s, name, s.nextCert + Granted(w, s, names, k) + 1))
  }

  ghost predicate BreaksBefore(w: World, s: Server, names: seq<string>, k: nat) {
    exists j :: 0 <= j < k && j < |names| && Breaks(w, s, names[j])
  }

  // ── how the run gets there ──

  /** The run's index is still the proxy's for every name to come. */
  ghost predicate Agrees(was: map<string, nat>, index: map<string, nat>, used: set<string>) {
    && (forall u :: u in used ==> !IsStarred(u))
    && (forall key :: key !in used ==> (key in index <==> key in was) && (key in was ==> index[key] == was[key]))
  }

  lemma CoverAgrees(was: map<string, nat>, index: map<string, nat>, used: set<string>, name: string)
    requires Agrees(was, index, used) && Lower(name) !in used && !IsStarred(Lower(name))
    ensures Covering(index, name) == Covering(was, name)
  {
    hide Lower;
  }

  /** After `k` names with no break among them: how many certificates there are, and what is reported. */
  ghost predicate Reached(w: World, s: Server, names: seq<string>, k: nat, p: Progress)
    requires k <= |names|
  {
    && !p.crashed && p.server.nextCert == s.nextCert + Granted(w, s, names, k)
    && Agrees(IndexOf(s.certs), p.index, LowerAll(names[..k]))
    && forall j :: 0 <= j < |names| ==> (names[j] in p.failed <==> j < k && Misses(w, s, names, j))
  }

  lemma HostStepFails(w: World, live: map<string, Record>, p: Progress, name: string, cert: nat)
    ensures var after := StepHost(w, false, live, p, name, cert);
            var settled := Lower(name) in live && Drifts(live[Lower(name)].fields, Desired(name, w.portal, cert)) == [];
            && after.index == p.index && after.crashed == p.crashed && after.server.nextCert == p.server.nextCert
            && after.failed == if name in w.rejected && !settled then p.failed + [name] else p.failed
  {
    hide Lower, Drifts, Desired, Payload;
  }

  lemma SnapshotNeeds(w: World, s: Server, name: string, cert: nat)
    ensures var live := LiveOf(s.hosts);
            NeedsWrite(w, s, name, cert) <==>
              !(Lower(name) in live && Drifts(live[Lower(name)].fields, Desired(name, w.portal, cert)) == [])
  {
    hide Lower, LiveOf, Drifts, Desired, IsAsWanted, LowerNames;
    LiveStands(s, s.hosts, Lower(name));
    var at := At(s.hosts, Lower(name));
    if at >= 0 {
      SettledIsWanted(s.hosts[at].fields, name, w.portal, cert);
    }
  }

  /** One name, whose certificate is known: it is reported exactly when its host has to be written and that is
      refused. */
  lemma HostStepReports(w: World, s: Server, p: Progress, name: string, cert: nat)
    ensures var after := StepHost(w, false, LiveOf(s.hosts), p, name, cert);
            && after.index == p.index && after.crashed == p.crashed && after.server.nextCert == p.server.nextCert
            && after.failed
                 == if name in w.rejected && NeedsWrite(w, s, name, cert) then p.failed + [name] else p.failed
  {
    hide *;
    HostStepFails(w, LiveOf(s.hosts), p, name, cert);
    SnapshotNeeds(w, s, name, cert);
  }

  /** One name more, when a certificate covers it, */
  lemma CoveredStepReports(w: World, s: Server, names: seq<string>, k: nat, p: Progress)
    requires k < |names| && !p.crashed && Covering(p.index, names[k]) == CertOf(s, names[k])
    requires names[k] in w.resolving && CertOf(s, names[k]).Some?
    ensures var after := StepName(w, false, LiveOf(s.hosts), p, names[k]);
            && !after.crashed && after.server.nextCert == p.server.nextCert && after.index == p.index
            && after.failed == (if Misses(w, s, names, k) then p.failed + [names[k]] else p.failed)
  {
    HostStepReports(w, s, p, names[k], CertOf(s, names[k]).value);
    hide CertOf, Covering, StepHost, NeedsWrite, LiveOf, Granted;
  }

  /** and when one has to be asked for. */
  lemma AskedStepReports(w: World, s: Server, names: seq<string>, k: nat, p: Progress)
    requires k < |names| && !p.crashed && Covering(p.index, names[k]) == CertOf(s, names[k])
    requires IsAsked(w, s, names[k]) && names[k] !in w.broken
    requires p.server.nextCert == s.nextCert + Granted(w, s, names, k)
    ensures var after, id := StepName(w, false, LiveOf(s.hosts), p, names[k]), p.server.nextCert + 1;
            var granted := names[k] !in w.denied;
            && !after.crashed && after.server.nextCert == (if granted then id else p.server.nextCert)
            && after.index == (if granted then p.index[Lower(names[k]) := id] else p.index)
            && after.failed == (if Misses(w, s, names, k) then p.failed + [names[k]] else p.failed)
  {
    hide CertOf, Covering, StepHost, NeedsWrite, LiveOf, Granted, Lower;
    var id := p.server.nextCert + 1;
    if names[k] !in w.denied {
      var q := p.(server := Issue(p.server, names[k]), index := p.index[Lower(names[k]) := id]);
      HostStepReports(w, s, q, names[k], id);
    }
  }

  lemma GrantedMore(w: World, s: Server, names: seq<string>, k: nat)
    requires k < |names|
    ensures Granted(w, s, names, k + 1)
         == Granted(w, s, names, k) + if IsAsked(w, s, names[k]) && names[k] !in w.denied + w.broken then 1 else 0
  {
  }

  /** One name more, whatever comes of it. */
  lemma NameStepReports(w: World, s: Server, names: seq<string>, k: nat, p: Progress)
    requires IsRoster(names) && k < |names| && Reached(w, s, names, k, p)
    ensures var after := StepName(w, false, LiveOf(s.hosts), p, names[k]);
            && after.crashed == Breaks(w, s, names[k])
            && (!after.crashed ==>
                  && after.server.nextCert == s.nextCert + Granted(w, s, names, k + 1)
                  && after.failed == (if Misses(w, s, names, k) then p.failed + [names[k]] else p.failed)
                  && Agrees(IndexOf(s.certs), after.index, LowerAll(names[..k + 1])))
            && (after.crashed ==> after.failed == p.failed)
  {
    hide Lower, LowerAll, LiveOf, StepHost, StepName, Covering, IndexOf, Agrees, Granted, Misses;
    var name, was, used := names[k], IndexOf(s.certs), LowerAll(names[..k]);
    UsedBefore(names, k, k);
    CoverAgrees(was, p.index, used, name);
    AgreesMore(was, p.index, used, Lower(name), p.server.nextCert + 1);
    GrantedMore(w, s, names, k);
    if name !in w.resolving || Breaks(w, s, name) {
      EarlyStepReports(w, s, names, k, p);
    } else if CertOf(s, name).Some? {
      CoveredStepReports(w, s, names, k, p);
    } else {
      AskedStepReports(w, s, names, k, p);
    }
  }

  lemma EarlyStepReports(w: World, s: Server, names: seq<string>, k: nat, p: Progress)
    requires k < |names| && !p.crashed && Covering(p.index, names[k]) == CertOf(s, names[k])
    requires names[k] !in w.resolving || Breaks(w, s, names[k])
    ensures var after := StepName(w, false, LiveOf(s.hosts), p, names[k]);
            if names[k] in w.resolving then after == p.(crashed := true)
            else after == Fail(p, names[k]) && Misses(w, s, names, k)
  {
    hide CertOf, Covering, StepHost, NeedsWrite, LiveOf, Granted, Lower;
  }

  lemma AgreesMore(was: map<string, nat>, index: map<string, nat>, used: set<string>, u: string, id: nat)
    requires Agrees(was, index, used) && !IsStarred(u)
    ensures Agrees(was, index, used + {u}) && Agrees(was, index[u := id], used + {u})
  {
  }

  ghost predicate BreaksBy(w: World, s: Server, names: seq<string>, k: nat) {
    exists j :: 0 <= j <= k && j < |names| && Breaks(w, s, names[j])
  }

  lemma BreaksMore(w: World, s: Server, names: seq<string>, k: nat)
    requires k < |names|
    ensures BreaksBefore(w, s, names, k + 1) <==> BreaksBefore(w, s, names, k) || Breaks(w, s, names[k])
  {
  }

  /** What the run has reported when it stops at a break, or has got to `k`. */
  ghost predicate Reported(w: World, s: Server, names: seq<string>, k: nat, p: Progress)
    requires k <= |names|
  {
    forall j :: 0 <= j < |names| ==>
      (names[j] in p.failed <==> j < k && !BreaksBy(w, s, names, j) && Misses(w, s, names, j))
  }

  lemma ReportStep(w: World, s: Server, names: seq<string>, k: nat, p: Progress, after: Progress)
    requires IsRoster(names) && k < |names| && Reached(w, s, names, k, p) && !BreaksBefore(w, s, names, k)
    requires after.failed
          == if !Breaks(w, s, names[k]) && Misses(w, s, names, k) then p.failed + [names[k]] else p.failed
    ensures Reported(w, s, names, k + 1, after)
  {
    hide Misses, Breaks;
    BreaksMore(w, s, names, k);
    forall j | 0 <= j < |names|
      ensures names[j] in after.failed <==>
                j < k + 1 && !BreaksBy(w, s, names, j) && Misses(w, s, names, j)
    {
      assert j != k ==> Lower(names[j]) != Lower(names[k]);
      if j < k {
        BreaksLess(w, s, names, j, k);
      }
    }
  }

  lemma BreaksLess(w: World, s: Server, names: seq<string>, j: nat, k: nat)
    requires j < k && !BreaksBefore(w, s, names, k)
    ensures !BreaksBy(w, s, names, j)
  {
  }

  lemma {:induction false} RunReaches(w: World, s: Server, names: seq<string>, k: nat)
    requires IsRoster(names) && k <= |names|
    ensures var p := StepAll(w, false, LiveOf(s.hosts), Start(s), names[..k]);
            && p.crashed == BreaksBefore(w, s, names, k)
            && (!p.crashed ==> Reached(w, s, names, k, p))
            && Reported(w, s, names, k, p)
  {
    hide StepName, Misses, Breaks, LiveOf, IndexOf, Granted, Agrees, IsRoster, LowerAll;
    if k == 0 {
      ReachedAtFirst(w, s, names);
    } else {
      TakeSnoc(names, k - 1);
      var p := StepAll(w, false, LiveOf(s.hosts), Start(s), names[..k - 1]);
      RunReaches(w, s, names, k - 1);
      BreaksMore(w, s, names, k - 1);
      if !p.crashed {
        NameStepReports(w, s, names, k - 1, p);
        ReportStep(w, s, names, k - 1, p, StepName(w, false, LiveOf(s.hosts), p, names[k - 1]));
        BreaksNone(w, s, names, k - 1);
      } else {
        StaysBroken(w, s, names, k - 1, p);
      }
    }
  }

  lemma ReachedAtFirst(w: World, s: Server, names: seq<string>)
    ensures var p := StepAll(w, false, LiveOf(s.hosts), Start(s), names[..0]);
            && !p.crashed && !BreaksBefore(w, s, names, 0)
            && Reached(w, s, names, 0, p) && Reported(w, s, names, 0, p)
  {
    hide IndexOf, Misses, LiveOf;
    assert LowerAll(names[..0]) == {};
  }

  lemma BreaksNone(w: World, s: Server, names: seq<string>, k: nat)
    requires k < |names| && !BreaksBefore(w, s, names, k)
    ensures !BreaksBefore(w, s, names, k + 1) ==> forall j: nat :: j <= k ==> !BreaksBy(w, s, names, j)
  {
  }

  lemma StaysBroken(w: World, s: Server, names: seq<string>, k: nat, p: Progress)
    requires k < |names| && BreaksBefore(w, s, names, k) && Reported(w, s, names, k, p)
    ensures StepName(w, false, LiveOf(s.hosts), p, names[k]) == p || !p.crashed
    ensures BreaksBefore(w, s, names, k + 1) && Reported(w, s, names, k + 1, p)
  {
    hide Misses, Breaks, StepHost;
  }

  /** A run breaks off exactly when asking for some name's certificate does, and reports exactly the names
      before that which it misses. */
  lemma ReportsIff(w: World, s: Server, names: seq<string>)
    requires IsRoster(names)
    ensures var run := Run(w, false, s, names);
            && (run.crashed <==> exists j :: 0 <= j < |names| && Breaks(w, s, names[j]))
            && (forall j :: 0 <= j < |names| ==>
                  (names[j] in run.failed <==>
                     Misses(w, s, names, j) && forall i :: 0 <= i <= j ==> !Breaks(w, s, names[i])))
  {
    RunReaches(w, s, names, |names|);
    TakeAll(names);
    hide Misses, Breaks, StepName, LiveOf, IndexOf;
  }
}
