/** One proxy host: what the script owns of it, how it sees drift, and what it writes back. */
module Hosts {
  import opened Basics
  import opened Certificates

  /** The fields of a proxy host, as the proxy's API names them. */
  datatype Field =
    | DomainNames | ForwardScheme | ForwardHost | ForwardPort | CertificateId | SslForced | Enabled
    | AllowWebsocketUpgrade | AccessListId | Meta
    | HideHeaders | Http2Support | HstsEnabled | HstsSubdomains | BlockExploits | CachingEnabled
    | AdvancedConfig | Locations
    | ReadOnly(name: string)

  datatype Value =
    | Null
    | Flag(on: bool)
    | Number(number: int)
    | Text(text: string)
    | Names(names: seq<string>)
    | List(items: seq<Value>)
    | Object(entries: map<string, Value>)

  type Host = map<Field, Value>

  /** The fields a run may overwrite; all others are the administrator's. */
  predicate IsManaged(f: Field) {
    match f
    case DomainNames | ForwardScheme | ForwardHost | ForwardPort | CertificateId | SslForced | Enabled
      | AllowWebsocketUpgrade | AccessListId | Meta => true
    case _ => false
  }

  function Managed(): seq<Field> {
    [DomainNames, ForwardScheme, ForwardHost, ForwardPort, CertificateId, SslForced, Enabled,
     AllowWebsocketUpgrade, AccessListId, Meta]
  }

  /** What the proxy accepts on an update. */
  predicate IsAccepted(f: Field) {
    !f.ReadOnly?
  }

  /** Where every subscribe page is served from. */
  datatype Portal = Portal(host: string, port: int)

  /** The fields of one subscribe host, as the script would create it. */
  function Desired(name: string, portal: Portal, certificate: nat): Host {
    map[DomainNames := Names([name]), ForwardScheme := Text("http"), ForwardHost := Text(portal.host),
        ForwardPort := Number(portal.port), AdvancedConfig := Text(""), AllowWebsocketUpgrade := Flag(false),
        SslForced := Flag(true), CertificateId := Number(certificate), Http2Support := Flag(true),
        HstsEnabled := Flag(false), HstsSubdomains := Flag(false), BlockExploits := Flag(true),
        CachingEnabled := Flag(false), AccessListId := Text("0"), Locations := List([]), Enabled := Flag(true),
        Meta := Object(map["letsencrypt_agree" := Flag(false), "dns_challenge" := Flag(false)])]
  }

  function TextOf(v: Value): string {
    if v.Text? then v.text else ""
  }

  function EntriesOf(v: Value): map<string, Value> {
    if v.Object? then v.entries else map[]
  }

  function NamesOf(v: Value): seq<string> {
    if v.Names? then v.names else []
  }

  /** A certificate's number, or zero for none; a flag counts as one or zero. */
  function IdOf(v: Value): int {
    match v
    case Number(n) => n
    case Flag(on) => if on then 1 else 0
    case _ => 0
  }

  predicate IsNumeric(v: Value) {
    v.Number? || v.Flag?
  }

  /** Equality as the script's language has it: a flag equals one or zero, at any depth. */
  predicate Equal(a: Value, b: Value)
    decreases a
  {
    if IsNumeric(a) && IsNumeric(b) then IdOf(a) == IdOf(b)
    else if a.List? && b.List? then
      |a.items| == |b.items| && forall i :: 0 <= i < |a.items| ==> Equal(a.items[i], b.items[i])
    else if a.Object? && b.Object? then
      a.entries.Keys == b.entries.Keys && forall k :: k in a.entries ==> Equal(a.entries[k], b.entries[k])
    else a == b
  }

  lemma {:induction false} EqualRefl(v: Value)
    ensures Equal(v, v)
    decreases v
  {
    match v {
      case List(items) =>
        forall i | 0 <= i < |items| ensures Equal(items[i], items[i]) {
          EqualRefl(items[i]);
        }
      case Object(entries) =>
        forall k | k in entries ensures Equal(entries[k], entries[k]) {
          EqualRefl(entries[k]);
        }
      case _ =>
    }
  }

  /** No access list: nothing, in any of the ways JSON says it, or a zero. */
  predicate IsNoList(v: Value) {
    match v
    case Null => true
    case Flag(on) => !on
    case Number(n) => n == 0
    case Text(s) => s == "" || s == "0"
    case Names(names) => names == []
    case List(items) => items == []
    case Object(entries) => entries == map[]
  }

  /** An advanced config that puts the page behind the sign-on gate. */
  predicate IsGate(config: string) {
    Contains(config, "auth_request") || Contains(config, "authentik") || Contains(config, "forward_auth")
  }

  predicate HasGate(existing: Host) {
    IsGate(Lower(TextOf(GetOr(existing, AdvancedConfig, Null))))
  }

  /** A live field reads as wanted. The access list wanted is always none. */
  predicate Same(f: Field, current: Value, wanted: Value) {
    match f
    case CertificateId => IdOf(current) == IdOf(wanted)
    case DomainNames => multiset(NamesOf(current)) == multiset(NamesOf(wanted))
    case AccessListId => IsNoList(current) == IsNoList(wanted)
    case Meta => forall k :: k in EntriesOf(wanted) ==> Equal(GetOr(EntriesOf(current), k, Null), EntriesOf(wanted)[k])
    case _ => Equal(current, wanted)
  }

  predicate SameField(existing: Host, want: Host, f: Field) {
    Same(f, GetOr(existing, f, Null), GetOr(want, f, Null))
  }

  datatype Drift = In(field: Field) | Gate

  function FieldDrift(existing: Host, want: Host, fields: seq<Field>): seq<Drift>
    decreases |fields|
  {
    if fields == [] then []
    else
      FieldDrift(existing, want, fields[..|fields| - 1])
        + if SameField(existing, want, fields[|fields| - 1]) then [] else [In(fields[|fields| - 1])]
  }

  function Drifts(existing: Host, want: Host): seq<Drift> {
    FieldDrift(existing, want, Managed()) + if HasGate(existing) then [Gate] else []
  }

  /** One pass over the managed fields: those that do not read as wanted, then the gate. */
  method Differences(existing: Host, want: Host) returns (diffs: seq<Drift>)
    ensures diffs == Drifts(existing, want)
  {
    diffs := [];
    var fields := Managed();
    for i := 0 to |fields|
      invariant diffs == FieldDrift(existing, want, fields[..i])
    {
      TakeSnoc(fields, i);
      var same := SameField(existing, want, fields[i]);
      if !same {
        diffs := diffs + [In(fields[i])];
      } else {
        assert diffs + [] == diffs;
      }
    }
    TakeAll(fields);
    if HasGate(existing) {
      diffs := diffs + [Gate];
    } else {
      assert diffs + [] == diffs;
    }
  }

  function ManagedPart(want: Host): Host {
    map f | f in want && IsManaged(f) :: want[f]
  }

  function AcceptedPart(existing: Host): Host {
    map f | f in existing && IsAccepted(f) :: existing[f]
  }

  function MergedMeta(existing: Host, want: Host): Value {
    Object(EntriesOf(GetOr(existing, Meta, Null)) + EntriesOf(GetOr(want, Meta, Null)))
  }

  /** What an update sends: accepted fields as found, managed ones as wanted, and no gate. */
  function Payload(existing: Host, want: Host): Host {
    var owned := (AcceptedPart(existing) + ManagedPart(want))[Meta := MergedMeta(existing, want)];
    var placed := if Locations in owned then owned else owned[Locations := List([])];
    if HasGate(existing) then placed[AdvancedConfig := Text("")] else placed
  }

  lemma ManagedAre(f: Field)
    ensures f in Managed() <==> IsManaged(f)
  {
    hide Managed;
    assert IsManaged(f) ==> f in Managed() by {
      EachManaged(f);
    }
    assert f in Managed() ==> IsManaged(f) by {
      OnlyManaged(f);
    }
  }

  lemma EachManaged(f: Field)
    ensures IsManaged(f) ==> f in Managed()
  {
    var s := Managed();
    assert s[0] == DomainNames && s[1] == ForwardScheme && s[2] == ForwardHost && s[3] == ForwardPort
      && s[4] == CertificateId && s[5] == SslForced && s[6] == Enabled && s[7] == AllowWebsocketUpgrade
      && s[8] == AccessListId && s[9] == Meta;
  }

  lemma OnlyManaged(f: Field)
    ensures f in Managed() ==> IsManaged(f)
  {
  }

  lemma AllManaged(want: Host)
    requires forall f :: IsManaged(f) ==> f in want
    ensures (map f | f in Managed() :: GetOr(want, f, Null)) == ManagedPart(want)
  {
    forall f ensures f in Managed() <==> IsManaged(f) {
      ManagedAre(f);
    }
  }

  lemma SetNext(payload: Host, want: Host, fields: seq<Field>, i: nat)
    requires i < |fields| && fields[i] in want
    ensures (payload + map f | f in fields[..i] :: GetOr(want, f, Null))[fields[i] := want[fields[i]]]
         == payload + map f | f in fields[..i + 1] :: GetOr(want, f, Null)
  {
    TakeSnoc(fields, i);
  }

  method SetManaged(payload: Host, want: Host) returns (payload': Host)
    requires forall f :: IsManaged(f) ==> f in want
    ensures payload' == payload + ManagedPart(want)
  {
    payload' := payload;
    hide Managed, ManagedPart;
    var fields := Managed();
    for i := 0 to |fields|
      invariant payload' == payload + map f | f in fields[..i] :: GetOr(want, f, Null)
    {
      ManagedAre(fields[i]);
      SetNext(payload, want, fields, i);
      payload' := payload'[fields[i] := want[fields[i]]];
    }
    TakeAll(fields);
    AllManaged(want);
  }

  method UpdatePayload(existing: Host, want: Host) returns (payload: Host)
    requires forall f :: IsManaged(f) ==> f in want
    ensures payload == Payload(existing, want)
  {
    payload := AcceptedPart(existing);
    payload := SetManaged(payload, want);
    payload := payload[Meta := MergedMeta(existing, want)];
    if Locations !in payload {
      payload := payload[Locations := List([])];
    }
    if HasGate(existing) {
      payload := payload[AdvancedConfig := Text("")];
    }
  }

  lemma {:induction false} NoFieldDrift(existing: Host, want: Host, fields: seq<Field>)
    ensures FieldDrift(existing, want, fields) == [] <==> forall f :: f in fields ==> SameField(existing, want, f)
    decreases |fields|
  {
    if fields != [] {
      NoFieldDrift(existing, want, fields[..|fields| - 1]);
      Snoc(fields);
    }
  }

  /** No drift is found exactly when every managed field reads as wanted and there is no gate. */
  lemma SettledIff(existing: Host, want: Host)
    ensures Drifts(existing, want) == [] <==>
              !HasGate(existing) && forall f :: IsManaged(f) ==> SameField(existing, want, f)
  {
    NoFieldDrift(existing, want, Managed());
    forall f ensures f in Managed() <==> IsManaged(f) {
      ManagedAre(f);
    }
  }

  lemma NoGate()
    ensures !IsGate("")
  {
  }

  /** A host as it was just created shows no drift. */
  lemma CreatedIsSettled(name: string, portal: Portal, certificate: nat)
    ensures Drifts(Desired(name, portal, certificate), Desired(name, portal, certificate)) == []
  {
    var want := Desired(name, portal, certificate);
    NoGate();
    assert Lower("") == "";
    SettledIff(want, want);
  }

  lemma PayloadClearsGate(existing: Host, want: Host)
    ensures !HasGate(existing + Payload(existing, want))
  {
    NoGate();
    assert Lower("") == "";
    hide Lower, IsGate, MergedMeta;
    var updated := existing + Payload(existing, want);
    assert GetOr(updated, AdvancedConfig, Null)
        == if HasGate(existing) then Text("") else GetOr(existing, AdvancedConfig, Null);
  }

  lemma PayloadHas(existing: Host, want: Host, f: Field)
    requires IsManaged(f) && f in want
    ensures GetOr(existing + Payload(existing, want), f, Null)
         == if f == Meta then MergedMeta(existing, want) else want[f]
  {
    hide HasGate, MergedMeta;
    assert f != AdvancedConfig && f != Locations;
  }

  lemma SameRefl(f: Field, v: Value)
    ensures Same(f, v, v)
    ensures forall k :: k in EntriesOf(v) ==> Equal(EntriesOf(v)[k], EntriesOf(v)[k])
  {
    EqualRefl(v);
    forall k | k in EntriesOf(v) ensures Equal(EntriesOf(v)[k], EntriesOf(v)[k]) {
      EqualRefl(EntriesOf(v)[k]);
    }
  }

  lemma PayloadSets(existing: Host, want: Host, f: Field)
    requires IsManaged(f) && f in want
    ensures SameField(existing + Payload(existing, want), want, f)
  {
    hide HasGate, Payload;
    PayloadHas(existing, want, f);
    SameRefl(f, want[f]);
  }

  lemma DesiredIsWhole(name: string, portal: Portal, certificate: nat)
    ensures forall f :: IsManaged(f) ==> f in Desired(name, portal, certificate)
  {
  }

  /** Updating a host removes every difference. */
  lemma UpdatedIsSettled(existing: Host, want: Host)
    requires forall f :: IsManaged(f) ==> f in want
    ensures Drifts(existing + Payload(existing, want), want) == []
  {
    PayloadClearsGate(existing, want);
    forall f | IsManaged(f) ensures SameField(existing + Payload(existing, want), want, f) {
      PayloadSets(existing, want, f);
    }
    SettledIff(existing + Payload(existing, want), want);
  }

  /** An update sends only what the proxy accepts. Of what the script does not own it repeats what
      the host has, except a gate, which it clears, and a missing list of locations. */
  lemma UpdateSends(existing: Host, want: Host, f: Field)
    ensures f in Payload(existing, want) ==> !f.ReadOnly?
    ensures !IsManaged(f) && f != AdvancedConfig && f in existing && !f.ReadOnly? ==>
              f in Payload(existing, want) && Payload(existing, want)[f] == existing[f]
    ensures !IsManaged(f) && f != AdvancedConfig && f != Locations && f in Payload(existing, want) ==> f in existing
  {
    hide HasGate, MergedMeta;
  }
}
