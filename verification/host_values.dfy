/** What a host in sync holds, field by field, and what the run leaves every name's host holding. */
module HostValues {
  import opened Basics
  import opened Certificates
  import opened Hosts
  import opened Reconcile
  import opened Convergence
  import opened SharedHosts

  /** A number, or a flag where a flag can stand for it. */
  predicate IsNumber(v: Value, n: int) {
    v == Number(n) || (v == Flag(true) && n == 1) || (v == Flag(false) && n == 0)
  }

  /** The snippet that puts a page behind the sign-on, under any of its three names. */
  ghost predicate IsGated(h: Host) {
    AdvancedConfig in h && h[AdvancedConfig].Text?
      && (Spells(h[AdvancedConfig].text, "auth_request") || Spells(h[AdvancedConfig].text, "authentik")
          || Spells(h[AdvancedConfig].text, "forward_auth"))
  }

  /** The field holds what a page called `name` needs, if it is one of the ten the run answers for. */
  predicate HoldsWanted(h: Host, f: Field, name: string, portal: Portal, cert: nat) {
    match f
    case DomainNames => f in h && h[f] == Names([name])
    case ForwardScheme => f in h && h[f] == Text("http")
    case ForwardHost => f in h && h[f] == Text(portal.host)
    case ForwardPort => f in h && IsNumber(h[f], portal.port)
    case CertificateId => if f in h && (h[f].Number? || h[f].Flag?) then IsNumber(h[f], cert) else cert == 0
    case SslForced => f in h && IsNumber(h[f], 1)
    case Enabled => f in h && IsNumber(h[f], 1)
    case AllowWebsocketUpgrade => f in h && IsNumber(h[f], 0)
    case AccessListId =>
      f in h ==> h[f] == Null || IsNumber(h[f], 0) || h[f] == Text("") || h[f] == Text("0") || h[f] == Names([])
                 || h[f] == List([]) || h[f] == Object(map[])
    case Meta =>
      f in h && h[f].Object?
        && "letsencrypt_agree" in h[f].entries && IsNumber(h[f].entries["letsencrypt_agree"], 0)
        && "dns_challenge" in h[f].entries && IsNumber(h[f].entries["dns_challenge"], 0)
    case _ => true
  }

  /** Every field holds what it should, and the page is open to all. */
  ghost predicate IsAsWanted(h: Host, name: string, portal: Portal, cert: nat) {
    !IsGated(h) && forall f :: HoldsWanted(h, f, name, portal, cert)
  }

  // ── the marker ──

  lemma GatedIs(h: Host)
    ensures HasGate(h) <==> IsGated(h)
  {
    var text := TextOf(GetOr(h, AdvancedConfig, Null));
    SpelledIsContained(text, "auth_request");
    SpelledIsContained(text, "authentik");
    SpelledIsContained(text, "forward_auth");
    if !(AdvancedConfig in h && h[AdvancedConfig].Text?) {
      assert text == "" && Lower(text) == "";
      NoGate();
    }
    hide Contains, Lower, Spells;
  }

  // ── field by field ──

  lemma OneName(names: seq<string>, name: string)
    ensures multiset(names) == multiset([name]) <==> names == [name]
  {
    if multiset(names) == multiset([name]) {
      assert |names| == |multiset(names)| == 1;
      assert names[0] in multiset(names);
    }
  }

  lemma FieldHolds(h: Host, f: Field, name: string, portal: Portal, cert: nat)
    requires IsManaged(f)
    ensures SameField(h, Desired(name, portal, cert), f) <==> HoldsWanted(h, f, name, portal, cert)
  {
    var v := GetOr(h, f, Null);
    match f {
      case DomainNames => OneName(Hosts.NamesOf(v), name);
      case Meta => MetaHolds(h, name, portal, cert);
      case AccessListId => assert IsNoList(Text("0"));
      case _ =>
    }
  }

  lemma MetaHolds(h: Host, name: string, portal: Portal, cert: nat)
    ensures SameField(h, Desired(name, portal, cert), Meta) <==> HoldsWanted(h, Meta, name, portal, cert)
  {
    var wanted := EntriesOf(Desired(name, portal, cert)[Meta]);
    assert wanted == map["letsencrypt_agree" := Flag(false), "dns_challenge" := Flag(false)];
    var entries := EntriesOf(GetOr(h, Meta, Null));
    assert Equal(GetOr(entries, "letsencrypt_agree", Null), Flag(false))
      <==> "letsencrypt_agree" in entries && IsNumber(entries["letsencrypt_agree"], 0);
    assert Equal(GetOr(entries, "dns_challenge", Null), Flag(false))
      <==> "dns_challenge" in entries && IsNumber(entries["dns_challenge"], 0);
  }

  lemma {:induction false} DriftsListed(existing: Host, want: Host, fields: seq<Field>)
    ensures Gate !in FieldDrift(existing, want, fields)
    ensures forall f :: In(f) in FieldDrift(existing, want, fields) <==> f in fields && !SameField(existing, want, f)
    decreases |fields|
  {
    hide SameField;
    if fields != [] {
      DriftsListed(existing, want, fields[..|fields| - 1]);
      Snoc(fields);
    }
  }

  /** What the comparison lists: exactly the fields that do not hold what they should, and the gate exactly
      when one of its names is in the config. */
  lemma ListedIff(h: Host, name: string, portal: Portal, cert: nat)
    ensures forall f :: In(f) in Drifts(h, Desired(name, portal, cert)) <==> !HoldsWanted(h, f, name, portal, cert)
    ensures Gate in Drifts(h, Desired(name, portal, cert)) <==> IsGated(h)
    ensures Drifts(h, Desired(name, portal, cert)) == [] <==> IsAsWanted(h, name, portal, cert)
  {
    var want := Desired(name, portal, cert);
    DriftsListed(h, want, Managed());
    GatedIs(h);
    SettledIff(h, want);
    forall f
      ensures In(f) in Drifts(h, want) <==> !HoldsWanted(h, f, name, portal, cert)
      ensures IsManaged(f) ==> (SameField(h, want, f) <==> HoldsWanted(h, f, name, portal, cert))
      ensures !IsManaged(f) ==> HoldsWanted(h, f, name, portal, cert)
    {
      ManagedAre(f);
      hide SameField, HasGate, Managed, IsGated, Desired;
      if IsManaged(f) {
        FieldHolds(h, f, name, portal, cert);
      }
    }
    hide SameField, HasGate, Managed, Desired, HoldsWanted, IsManaged;
  }

  lemma SettledIsWanted(h: Host, name: string, portal: Portal, cert: nat)
    ensures Drifts(h, Desired(name, portal, cert)) == [] <==> IsAsWanted(h, name, portal, cert)
  {
    ListedIff(h, name, portal, cert);
    hide Drifts, Desired, IsAsWanted, HoldsWanted;
  }

  // ── what a run leaves ──

  /** The name's host, the last one to list it, holds everything it should for the certificate that covers it. */
  ghost predicate IsServed(w: World, s: Server, name: string) {
    exists at: nat, cert: nat :: IsServedBy(w, s, name, at, cert)
  }

  ghost predicate IsServedBy(w: World, s: Server, name: string, at: nat, cert: nat) {
    && at < |s.hosts| && Lower(name) in LowerNames(s.hosts[at].fields)
    && (forall i :: at < i < |s.hosts| ==> Lower(name) !in LowerNames(s.hosts[i].fields))
    && Covering(IndexOf(s.certs), name) == Some(cert)
    && IsAsWanted(s.hosts[at].fields, name, w.portal, cert)
  }

  lemma LastIsAt(hosts: seq<Record>, d: string, at: nat)
    requires at < |hosts| && d in LowerNames(hosts[at].fields)
    requires forall i :: at < i < |hosts| ==> d !in LowerNames(hosts[i].fields)
    ensures At(hosts, d) == at
  {
    hide LowerNames;
  }

  lemma ServedIsInSync(w: World, s: Server, name: string, at: nat, cert: nat)
    requires IsServedBy(w, s, name, at, cert)
    ensures InSync(w, s, name)
  {
    hide Lower, LowerNames, IndexOf, Covering, Drifts, Desired, IsAsWanted, At;
    LastIsAt(s.hosts, Lower(name), at);
    ListedIff(s.hosts[at].fields, name, w.portal, cert);
  }

  lemma InSyncIs(w: World, s: Server, name: string)
    ensures InSync(w, s, name) <==> IsServed(w, s, name)
  {
    hide Lower, LowerNames, IndexOf, Covering, Drifts, Desired, IsAsWanted, IsServedBy;
    if InSync(w, s, name) {
      InSyncIsServed(w, s, name);
    }
    if at: nat, cert: nat :| IsServedBy(w, s, name, at, cert) {
      ServedIsInSync(w, s, name, at, cert);
    }
  }

  lemma InSyncIsServed(w: World, s: Server, name: string)
    requires InSync(w, s, name)
    ensures IsServed(w, s, name)
  {
    hide Lower, LowerNames, IndexOf, Covering, Drifts, Desired, IsAsWanted;
    var at, cert := At(s.hosts, Lower(name)), Covering(IndexOf(s.certs), name);
    ListedIff(s.hosts[at].fields, name, w.portal, cert.value);
    assert IsServedBy(w, s, name, at, cert.value);
  }

  /** One pass over names on hosts of their own leaves each of them with a host that holds all it should. */
  lemma OnePassSetsValues(w: World, s: Server, names: seq<string>)
    requires IsServer(s) && IsRoster(names) && AllSucceed(w, names) && NoneShared(s, names)
    ensures forall i :: 0 <= i < |names| ==> IsServed(w, Run(w, false, s, names).server, names[i])
  {
    OnePassConverges(w, s, names, false);
    hide Run, InSync, IsServed;
    forall i | 0 <= i < |names| ensures IsServed(w, Run(w, false, s, names).server, names[i]) {
      InSyncIs(w, Run(w, false, s, names).server, names[i]);
    }
  }

  /** Two passes do, however the names were spread over hosts. */
  lemma TwoPassesSetValues(w: World, s: Server, names: seq<string>)
    requires IsServer(s) && OneHostEach(s) && IsRoster(names) && AllSucceed(w, names)
    ensures var first := Run(w, false, s, names).server;
            forall i :: 0 <= i < |names| ==> IsServed(w, Run(w, false, first, names).server, names[i])
  {
    TwoPassesConverge(w, s, names, false);
    hide Run, InSync, IsServed;
    var first := Run(w, false, s, names).server;
    forall i | 0 <= i < |names| ensures IsServed(w, Run(w, false, first, names).server, names[i]) {
      InSyncIs(w, Run(w, false, first, names).server, names[i]);
    }
  }

  /** A check reports a name exactly when it does not resolve or is not served as it should be. */
  lemma {:induction false} CheckFindsValues(w: World, s: Server, names: seq<string>, name: string)
    ensures name in Run(w, true, s, names).failed <==>
              name in names && !(name in w.resolving && IsServed(w, s, name))
  {
    CheckReports(w, s, names);
    OutOfSyncAre(w, s, names, name);
    InSyncIs(w, s, name);
    hide Run, InSync, IsServed;
  }

  lemma {:induction false} OutOfSyncAre(w: World, s: Server, names: seq<string>, name: string)
    ensures name in OutOfSync(w, s, names) <==> name in names && !(name in w.resolving && InSync(w, s, name))
    decreases |names|
  {
    hide InSync;
    if names != [] {
      OutOfSyncAre(w, s, names[..|names| - 1], name);
      Snoc(names);
    }
  }

  /** Of every host there was, what is none of the ten fields, the config or the locations is what it was,
      whatever was refused on the way. */
  lemma FieldsKept(w: World, check: bool, s: Server, names: seq<string>, i: nat, f: Field)
    requires IsServer(s) && i < |s.hosts|
    requires f !in {DomainNames, ForwardScheme, ForwardHost, ForwardPort, CertificateId, SslForced, Enabled,
                    AllowWebsocketUpgrade, AccessListId, Meta, AdvancedConfig, Locations}
    ensures var was, now := s.hosts[i].fields, Run(w, check, s, names).server.hosts;
            i < |now| && (f in now[i].fields <==> f in was) && (f in was ==> now[i].fields[f] == was[f])
  {
    RunKeepsTheRest(w, check, s, names);
    hide Run, HasGate;
    assert !IsManaged(f);
  }

  /** A config with none of the markers is what it was; one with a marker is that or empty. */
  lemma ConfigKept(w: World, check: bool, s: Server, names: seq<string>, i: nat)
    requires IsServer(s) && i < |s.hosts|
    ensures var was, now := s.hosts[i].fields, Run(w, check, s, names).server.hosts;
            i < |now| &&
            (GetOr(now[i].fields, AdvancedConfig, Null) == GetOr(was, AdvancedConfig, Null)
             || (IsGated(was) && GetOr(now[i].fields, AdvancedConfig, Null) == Text("")))
  {
    RunKeepsTheRest(w, check, s, names);
    GatedIs(s.hosts[i].fields);
    hide Run, HasGate, IsGated;
  }

  // ── hosts that were not there ──

  /** A new page's host: what the run answers for as it should be, and its choice of the rest. */
  ghost predicate IsNewHost(h: Host, name: string, portal: Portal, cert: nat) {
    && IsAsWanted(h, name, portal, cert)
    && h.Keys == {DomainNames, ForwardScheme, ForwardHost, ForwardPort, CertificateId, SslForced, Enabled,
                  AllowWebsocketUpgrade, AccessListId, Meta, AdvancedConfig, Locations, Http2Support, HstsEnabled,
                  HstsSubdomains, BlockExploits, CachingEnabled}
    && h[AdvancedConfig] == Text("") && h[Locations] == List([])
    && h[Http2Support] == Flag(true) && h[BlockExploits] == Flag(true)
    && h[HstsEnabled] == Flag(false) && h[HstsSubdomains] == Flag(false) && h[CachingEnabled] == Flag(false)
  }

  lemma DesiredIsNew(name: string, portal: Portal, cert: nat)
    ensures IsNewHost(Desired(name, portal, cert), name, portal, cert)
  {
    CreatedIsSettled(name, portal, cert);
    ListedIff(Desired(name, portal, cert), name, portal, cert);
    hide IsAsWanted, Drifts;
  }

  ghost predicate IsNewFor(w: World, h: Host, names: seq<string>) {
    exists name, cert: nat :: name in names && IsNewHost(h, name, w.portal, cert)
  }

  lemma NewForMore(w: World, h: Host, names: seq<string>, name: string)
    requires IsNewFor(w, h, names)
    ensures IsNewFor(w, h, names + [name])
  {
    hide IsNewHost;
    var n, cert: nat :| n in names && IsNewHost(h, n, w.portal, cert);
    assert n in names + [name];
  }

  lemma NewStep(w: World, was: seq<Record>, now: seq<Record>, after: seq<Record>, names: seq<string>, name: string)
    requires |was| <= |now| && Writes(w, was, now, after, name)
    requires forall q :: |was| <= q < |now| ==> IsNewFor(w, now[q].fields, names)
    ensures forall q :: |was| <= q < |after| ==> IsNewFor(w, after[q].fields, names + [name])
  {
    hide IsNewHost, IsNewFor, Payload, Desired;
    forall q | |was| <= q < |after| ensures IsNewFor(w, after[q].fields, names + [name]) {
      if q < |now| {
        assert after[q] == now[q];
        NewForMore(w, now[q].fields, names, name);
      } else {
        NewIsNew(w, was, now, after, names, name);
      }
    }
  }

  lemma NewIsNew(w: World, was: seq<Record>, now: seq<Record>, after: seq<Record>, names: seq<string>, name: string)
    requires Writes(w, was, now, after, name) && |after| > |now|
    ensures |after| == |now| + 1 && IsNewFor(w, after[|now|].fields, names + [name])
  {
    hide IsNewHost, Payload, Desired;
    var cert: nat, id: nat :| Adds(w, was, now, after, name, cert, id);
    DesiredIsNew(name, w.portal, cert);
    assert name in names + [name];
  }

  /** Whatever a run adds is a page's host: nothing else is ever created. */
  lemma {:induction false} AddedAreNew(w: World, check: bool, s: Server, names: seq<string>)
    requires IsServer(s)
    ensures var now := Run(w, check, s, names).server.hosts;
            forall q :: |s.hosts| <= q < |now| ==> IsNewFor(w, now[q].fields, names)
    decreases |names|
  {
    if names != [] {
      var init, last := names[..|names| - 1], names[|names| - 1];
      Snoc(names);
      AddedAreNew(w, check, s, init);
      RunKeepsTheRest(w, check, s, init);
      hide Kept, StepName, Lower, LiveOf, IndexOf, IsNewFor;
      StepWrites(w, check, s, Run(w, check, s, init), last);
      NewStep(w, s.hosts, Run(w, check, s, init).server.hosts, Run(w, check, s, names).server.hosts, init, last);
    }
  }
}
