/** Host ports that two services of a generated file publish. */
module Ports {
  import opened Basics

  const WILDCARD := "0.0.0.0"

  /** One part of a `ports:` entry: the port it names and the address it names, if it names one. */
  datatype Part = Part(port: Option<string>, address: Option<string>)

  /** An entry cut at its colons, with what follows the slash apart. */
  datatype Entry = Entry(parts: seq<Part>, proto: string)

  datatype Bind = Bind(service: string, address: string, port: string, proto: string)

  /** The host side of an entry. Nothing can be decided of the short form or of a part that is no port. */
  function PublishedOn(entry: Entry, service: string): Option<Bind> {
    var n := |entry.parts|;
    if n < 2 || entry.parts[n - 2].port.None? then None
    else
      var proto := if entry.proto == "" then "tcp" else entry.proto;
      var address := if n >= 3 && entry.parts[0].address.Some? then entry.parts[0].address.value else WILDCARD;
      Some(Bind(service, address, entry.parts[n - 2].port.value, proto))
  }

  // ── reading the generated text ──

  /** A line of the generated file, as far as ports go. `bare` says nothing follows the colon. */
  datatype Row =
    | Child(name: string, bare: bool)  // two spaces, a key
    | Edge                             // two spaces, a letter or digit, no key
    | Own(key: string, bare: bool)     // four spaces, a key
    | DeepPorts                        // `ports:` anywhere further in
    | Item(entry: Entry)               // a list item that reads as a port entry
    | Other

  datatype Scan = Scan(service: string, inPorts: bool, binds: seq<Bind>)

  function BindsOf(entry: Entry, service: string): seq<Bind> {
    match PublishedOn(entry, service)
    case None => []
    case Some(bind) => [bind]
  }

  function ScanRow(s: Scan, row: Row): Scan {
    match row
    case Child(name, bare) => Scan(name, bare && name == "ports", s.binds)
    case Own(key, bare) => s.(inPorts := bare && key == "ports")
    case DeepPorts => s.(inPorts := true)
    case Item(entry) => if s.inPorts then s.(binds := s.binds + BindsOf(entry, s.service)) else s
    case _ => s
  }

  function ScanAll(s: Scan, rows: seq<Row>): Scan
    decreases |rows|
  {
    if rows == [] then s else ScanAll(ScanRow(s, rows[0]), rows[1..])
  }

  function Binds(rows: seq<Row>): seq<Bind> {
    ScanAll(Scan("", false, []), rows).binds
  }

  /** The services with a `profiles:` of their own before the next line two spaces in. */
  function GatedIn(rows: seq<Row>, current: Option<string>): set<string>
    decreases |rows|
  {
    if rows == [] then {}
    else match rows[0]
      case Child(name, _) => GatedIn(rows[1..], Some(name))
      case Edge => GatedIn(rows[1..], None)
      case Own(key, _) =>
        (if key == "profiles" && current.Some? then {current.value} else {}) + GatedIn(rows[1..], current)
      case _ => GatedIn(rows[1..], current)
  }

  method FindBinds(rows: seq<Row>) returns (binds: seq<Bind>)
    ensures binds == Binds(rows)
  {
    binds := [];
    var service, inPorts := "", false;
    for i := 0 to |rows|
      invariant ScanAll(Scan(service, inPorts, binds), rows[i..]).binds == Binds(rows)
    {
      assert rows[i..][0] == rows[i] && rows[i..][1..] == rows[i + 1..];
      var row := rows[i];
      if row.Child? {
        service := row.name;
        inPorts := false;
      }
      var bareKey := (row.Child? || row.Own?) && row.bare && (if row.Child? then row.name else row.key) == "ports";
      if row.DeepPorts? || bareKey {
        inPorts := true;
        continue;
      }
      if inPorts && row.Own? {
        inPorts := false;
      }
      if inPorts && row.Item? {
        var published := PublishedOn(row.entry, service);
        if published.Some? {
          binds := binds + [published.value];
        } else {
          assert binds + [] == binds;
        }
      }
    }
  }

  // ── the index and the clusters ──

  datatype Cluster = Cluster(port: string, proto: string, address: string, services: set<string>)

  type Index = map<(string, string), map<string, set<string>>>

  /** The services bound to one address on one port. */
  function ServicesOn(binds: seq<Bind>, port: string, proto: string, address: string): set<string> {
    set b | b in binds && b.port == port && b.proto == proto && b.address == address :: b.service
  }

  function ClusterAt(binds: seq<Bind>, port: string, proto: string, address: string): Cluster {
    Cluster(port, proto, address,
            ServicesOn(binds, port, proto, WILDCARD) + ServicesOn(binds, port, proto, address))
  }

  /** One cluster per address bound: whoever is bound there and whoever is bound everywhere. */
  function Clusters(binds: seq<Bind>): set<Cluster> {
    set b | b in binds :: ClusterAt(binds, b.port, b.proto, b.address)
  }

  /** Every cluster of at least two services, and whether one of them is gated. */
  function Reported(clusters: set<Cluster>, gated: set<string>, opt: bool): set<Cluster> {
    set c | c in clusters && |c.services| >= 2 && (c.services * gated != {}) == opt
  }

  /** What fails the merge. */
  function Findings(binds: seq<Bind>, gated: set<string>): set<Cluster> {
    Reported(Clusters(binds), gated, false)
  }

  /** What is only noted: some service of the cluster is behind a profile. */
  function Notes(binds: seq<Bind>, gated: set<string>): set<Cluster> {
    Reported(Clusters(binds), gated, true)
  }

  ghost predicate Bound(binds: seq<Bind>, port: string, proto: string, address: string) {
    exists b :: b in binds && b.port == port && b.proto == proto && b.address == address
  }

  ghost predicate IsIndex(index: Index, binds: seq<Bind>) {
    && (forall k, a :: k in index && a in index[k] ==>
          Bound(binds, k.0, k.1, a) && index[k][a] == ServicesOn(binds, k.0, k.1, a))
    && (forall b :: b in binds ==> (b.port, b.proto) in index && b.address in index[(b.port, b.proto)])
  }

  function AddBind(index: Index, b: Bind): Index {
    var key := (b.port, b.proto);
    var byAddress := GetOr(index, key, map[]);
    index[key := byAddress[b.address := GetOr(byAddress, b.address, {}) + {b.service}]]
  }

  lemma ServicesOnSnoc(binds: seq<Bind>, b: Bind, port: string, proto: string, address: string)
    ensures ServicesOn(binds + [b], port, proto, address)
         == ServicesOn(binds, port, proto, address)
            + if b.port == port && b.proto == proto && b.address == address then {b.service} else {}
  {
    assert forall x :: x in binds + [b] <==> x in binds || x == b;
    assert b in binds + [b];
  }

  lemma UnboundIsEmpty(index: Index, binds: seq<Bind>, b: Bind)
    requires IsIndex(index, binds)
    ensures GetOr(GetOr(index, (b.port, b.proto), map[]), b.address, {})
         == ServicesOn(binds, b.port, b.proto, b.address)
  {
    var key := (b.port, b.proto);
    if key !in index || b.address !in index[key] {
      forall x | x in binds ensures !(x.port == b.port && x.proto == b.proto && x.address == b.address) {
      }
      assert ServicesOn(binds, b.port, b.proto, b.address) == {};
    }
  }

  lemma AddBindIndexes(index: Index, binds: seq<Bind>, b: Bind)
    requires IsIndex(index, binds)
    ensures IsIndex(AddBind(index, b), binds + [b])
  {
    var index', binds' := AddBind(index, b), binds + [b];
    UnboundIsEmpty(index, binds, b);
    assert forall x :: x in binds' <==> x in binds || x == b;
    forall k, a | k in index' && a in index'[k]
      ensures Bound(binds', k.0, k.1, a) && index'[k][a] == ServicesOn(binds', k.0, k.1, a)
    {
      ServicesOnSnoc(binds, b, k.0, k.1, a);
      if k == (b.port, b.proto) && a == b.address {
        assert b in binds';
      } else {
        assert k in index && a in index[k];
        var x :| x in binds && x.port == k.0 && x.proto == k.1 && x.address == a;
        assert x in binds';
      }
    }
  }

  method IndexBinds(binds: seq<Bind>) returns (index: Index)
    ensures IsIndex(index, binds)
  {
    index := map[];
    for i := 0 to |binds|
      invariant IsIndex(index, binds[..i])
    {
      TakeSnoc(binds, i);
      AddBindIndexes(index, binds[..i], binds[i]);
      index := AddBind(index, binds[i]);
    }
    TakeAll(binds);
  }

  /** The clusters of one port. */
  function ClustersOn(binds: seq<Bind>, port: string, proto: string): set<Cluster> {
    set b | b in binds && b.port == port && b.proto == proto :: ClusterAt(binds, port, proto, b.address)
  }

  /** The addresses of one port, the wildcard first. */
  method ClusterPort(ghost binds: seq<Bind>, key: (string, string), byAddress: map<string, set<string>>)
    returns (clusters: set<Cluster>)
    requires forall a :: a in byAddress <==> Bound(binds, key.0, key.1, a)
    requires forall a :: a in byAddress ==> byAddress[a] == ServicesOn(binds, key.0, key.1, a)
    ensures clusters == ClustersOn(binds, key.0, key.1)
  {
    var wildcard := GetOr(byAddress, WILDCARD, {});
    assert wildcard == ServicesOn(binds, key.0, key.1, WILDCARD);
    clusters := if WILDCARD in byAddress then {Cluster(key.0, key.1, WILDCARD, wildcard)} else {};
    var addresses := byAddress.Keys - {WILDCARD};
    assert byAddress.Keys - addresses == if WILDCARD in byAddress then {WILDCARD} else {};
    assert Cluster(key.0, key.1, WILDCARD, wildcard) == ClusterAt(binds, key.0, key.1, WILDCARD);
    while addresses != {}
      invariant addresses <= byAddress.Keys - {WILDCARD}
      invariant clusters == set a | a in byAddress.Keys - addresses :: ClusterAt(binds, key.0, key.1, a)
      decreases addresses
    {
      var a :| a in addresses;
      assert byAddress.Keys - (addresses - {a}) == byAddress.Keys - addresses + {a};
      addresses := addresses - {a};
      clusters := clusters + {Cluster(key.0, key.1, a, wildcard + byAddress[a])};
    }
    ClustersByAddress(binds, key.0, key.1, byAddress.Keys);
  }

  lemma ClustersByAddress(binds: seq<Bind>, port: string, proto: string, addresses: set<string>)
    requires forall a :: a in addresses <==> Bound(binds, port, proto, a)
    ensures (set a | a in addresses :: ClusterAt(binds, port, proto, a)) == ClustersOn(binds, port, proto)
  {
    forall c
      ensures (exists a :: a in addresses && c == ClusterAt(binds, port, proto, a)) <==>
                c in ClustersOn(binds, port, proto)
    {
      if a :| a in addresses && c == ClusterAt(binds, port, proto, a) {
        var b :| b in binds && b.port == port && b.proto == proto && b.address == a;
        assert c == ClusterAt(binds, port, proto, b.address);
      }
      if c in ClustersOn(binds, port, proto) {
        var b :| b in binds && b.port == port && b.proto == proto && c == ClusterAt(binds, port, proto, b.address);
        assert Bound(binds, port, proto, b.address);
      }
    }
  }

  function Outside(clusters: set<Cluster>, ports: set<(string, string)>): set<Cluster> {
    set c | c in clusters && (c.port, c.proto) !in ports
  }

  lemma OneMorePort(binds: seq<Bind>, ports: set<(string, string)>, key: (string, string))
    requires key in ports
    ensures Outside(Clusters(binds), ports - {key}) == Outside(Clusters(binds), ports) + ClustersOn(binds, key.0, key.1)
  {
    ClustersOfPort(binds, key.0, key.1);
  }

  lemma ReportedJoin(a: set<Cluster>, b: set<Cluster>, gated: set<string>, opt: bool)
    ensures Reported(a + b, gated, opt) == Reported(a, gated, opt) + Reported(b, gated, opt)
  {
  }

  /** Host ports two services publish: what fails the merge, and what is only noted. */
  method PortCollisions(rows: seq<Row>) returns (findings: set<Cluster>, notes: set<Cluster>)
    ensures findings == Findings(Binds(rows), GatedIn(rows, None))
    ensures notes == Notes(Binds(rows), GatedIn(rows, None))
  {
    var gated := GatedIn(rows, None);
    var binds := FindBinds(rows);
    var index := IndexBinds(binds);
    findings, notes := {}, {};
    var ports := index.Keys;
    assert Outside(Clusters(binds), index.Keys) == {};
    while ports != {}
      invariant ports <= index.Keys
      invariant findings == Reported(Outside(Clusters(binds), ports), gated, false)
      invariant notes == Reported(Outside(Clusters(binds), ports), gated, true)
      decreases ports
    {
      var key :| key in ports;
      IndexedPort(index, binds, key);
      var clusters := ClusterPort(binds, key, index[key]);
      OneMorePort(binds, ports, key);
      ReportedJoin(Outside(Clusters(binds), ports), clusters, gated, false);
      ReportedJoin(Outside(Clusters(binds), ports), clusters, gated, true);
      ports := ports - {key};
      findings := findings + Reported(clusters, gated, false);
      notes := notes + Reported(clusters, gated, true);
    }
    assert Outside(Clusters(binds), {}) == Clusters(binds);
  }

  lemma IndexedPort(index: Index, binds: seq<Bind>, key: (string, string))
    requires IsIndex(index, binds) && key in index
    ensures forall a :: a in index[key] <==> Bound(binds, key.0, key.1, a)
    ensures forall a :: a in index[key] ==> index[key][a] == ServicesOn(binds, key.0, key.1, a)
  {
    forall a | Bound(binds, key.0, key.1, a) ensures a in index[key] {
      var b :| b in binds && b.port == key.0 && b.proto == key.1 && b.address == a;
      assert (b.port, b.proto) == key;
    }
  }

  lemma ClustersOfPort(binds: seq<Bind>, port: string, proto: string)
    ensures ClustersOn(binds, port, proto) == set c | c in Clusters(binds) && c.port == port && c.proto == proto
  {
    forall c
      ensures c in ClustersOn(binds, port, proto) <==> c in Clusters(binds) && c.port == port && c.proto == proto
    {
      if c in ClustersOn(binds, port, proto) {
        var b :| b in binds && b.port == port && b.proto == proto && c == ClusterAt(binds, port, proto, b.address);
        assert c == ClusterAt(binds, b.port, b.proto, b.address);
      }
      if c in Clusters(binds) && c.port == port && c.proto == proto {
        var b :| b in binds && c == ClusterAt(binds, b.port, b.proto, b.address);
        assert b.port == port && b.proto == proto;
      }
    }
  }

  // ── Docker's view ──

  /** Docker cannot give both: one host port, and addresses that overlap. */
  predicate Conflict(a: Bind, b: Bind) {
    && a.port == b.port && a.proto == b.proto
    && (a.address == b.address || a.address == WILDCARD || b.address == WILDCARD)
  }

  /** Where two conflicting binds meet. */
  function Meeting(a: Bind, b: Bind): string {
    if a.address == WILDCARD then b.address else a.address
  }

  lemma InServicesOn(binds: seq<Bind>, port: string, proto: string, address: string, service: string)
    ensures service in ServicesOn(binds, port, proto, address) <==> Bind(service, address, port, proto) in binds
  {
    if service in ServicesOn(binds, port, proto, address) {
      var b :| b in binds && b.port == port && b.proto == proto && b.address == address && b.service == service;
      assert b == Bind(service, address, port, proto);
    }
    if Bind(service, address, port, proto) in binds {
      var b := Bind(service, address, port, proto);
      assert b in binds && b.port == port && b.proto == proto && b.address == address && b.service == service;
    }
  }

  /** How a cluster's service is bound: at the cluster's address or everywhere. */
  ghost predicate BoundIn(binds: seq<Bind>, c: Cluster, b: Bind) {
    b in binds && b.port == c.port && b.proto == c.proto && (b.address == c.address || b.address == WILDCARD)
  }

  lemma ClusterMembers(binds: seq<Bind>, c: Cluster, s: string)
    requires c in Clusters(binds)
    ensures s in c.services <==> exists b :: BoundIn(binds, c, b) && b.service == s
  {
    var at :| at in binds && c == ClusterAt(binds, at.port, at.proto, at.address);
    InServicesOn(binds, c.port, c.proto, c.address, s);
    InServicesOn(binds, c.port, c.proto, WILDCARD, s);
    if s in c.services {
      assert BoundIn(binds, c, Bind(s, c.address, c.port, c.proto))
          || BoundIn(binds, c, Bind(s, WILDCARD, c.port, c.proto));
    }
    if b :| BoundIn(binds, c, b) && b.service == s {
      assert b == Bind(s, b.address, c.port, c.proto);
    }
  }

  /** Every two services of a cluster publish binds Docker cannot both give. */
  lemma ClusterIsClique(binds: seq<Bind>, c: Cluster, s: string, t: string)
    requires c in Clusters(binds) && s in c.services && t in c.services
    ensures exists a, b :: a in binds && b in binds && a.service == s && b.service == t && Conflict(a, b)
              && a.port == c.port && a.proto == c.proto
  {
    ClusterMembers(binds, c, s);
    ClusterMembers(binds, c, t);
    var a :| BoundIn(binds, c, a) && a.service == s;
    var b :| BoundIn(binds, c, b) && b.service == t;
    assert a in binds && b in binds && Conflict(a, b);
  }

  /** Every two services with conflicting binds are in the cluster where they meet. */
  lemma ConflictIsClustered(binds: seq<Bind>, a: Bind, b: Bind)
    requires a in binds && b in binds && Conflict(a, b)
    ensures var c := ClusterAt(binds, a.port, a.proto, Meeting(a, b));
            && c in Clusters(binds) && {a.service, b.service} <= c.services
            && (a.service != b.service ==> |c.services| >= 2)
  {
    var c := ClusterAt(binds, a.port, a.proto, Meeting(a, b));
    var at := if a.address == WILDCARD then b else a;
    assert at in binds && c == ClusterAt(binds, at.port, at.proto, at.address);
    InServicesOn(binds, a.port, a.proto, a.address, a.service);
    InServicesOn(binds, a.port, a.proto, b.address, b.service);
    assert a == Bind(a.service, a.address, a.port, a.proto) && b == Bind(b.service, b.address, a.port, a.proto);
    if a.service != b.service {
      AtLeastTwo(c.services, a.service, b.service);
    }
  }

  lemma AtLeastTwo<T>(s: set<T>, x: T, y: T)
    requires x in s && y in s && x != y
    ensures |s| >= 2
  {
    assert |s - {x}| == |s| - 1 && y in s - {x};
  }

  lemma TwoMembers<T>(s: set<T>) returns (x: T, y: T)
    requires |s| >= 2
    ensures x in s && y in s && x != y
  {
    x :| x in s;
    assert |s - {x}| == |s| - 1;
    y :| y in s - {x};
  }

  /** A gated service bound where two others meet turns their cluster into a note. */
  ghost predicate Masked(binds: seq<Bind>, gated: set<string>, a: Bind, b: Bind) {
    exists g :: g in binds && g.service in gated && g.port == a.port && g.proto == a.proto
      && (g.address == Meeting(a, b) || g.address == WILDCARD)
  }

  /** Two services that are always on and cannot both have their port. */
  ghost predicate Collide(binds: seq<Bind>, gated: set<string>, a: Bind, b: Bind) {
    && a in binds && b in binds && a.service != b.service && Conflict(a, b)
    && a.service !in gated && b.service !in gated
  }

  /** The cluster where two always-on services meet fails the merge unless a gated one is bound
      there too; then it is only noted. */
  lemma CollisionFailsIff(binds: seq<Bind>, gated: set<string>, a: Bind, b: Bind)
    requires Collide(binds, gated, a, b)
    ensures var c := ClusterAt(binds, a.port, a.proto, Meeting(a, b));
            && (c in Findings(binds, gated) <==> !Masked(binds, gated, a, b))
            && (c in Notes(binds, gated) <==> Masked(binds, gated, a, b))
  {
    ConflictIsClustered(binds, a, b);
    var c := ClusterAt(binds, a.port, a.proto, Meeting(a, b));
    forall s | s in gated ensures s in c.services <==> exists g :: BoundIn(binds, c, g) && g.service == s {
      ClusterMembers(binds, c, s);
    }
    if Masked(binds, gated, a, b) {
      var g :| g in binds && g.service in gated && g.port == a.port && g.proto == a.proto
        && (g.address == Meeting(a, b) || g.address == WILDCARD);
      assert BoundIn(binds, c, g);
      assert g.service in c.services * gated;
    }
  }

  /** The merge fails exactly when two always-on services collide where no gated one is bound. */
  lemma FailsIff(binds: seq<Bind>, gated: set<string>)
    ensures Findings(binds, gated) != {} <==>
              exists a, b :: Collide(binds, gated, a, b) && !Masked(binds, gated, a, b)
  {
    if a, b :| Collide(binds, gated, a, b) && !Masked(binds, gated, a, b) {
      CollisionFailsIff(binds, gated, a, b);
    }
    if Findings(binds, gated) != {} {
      var c :| c in Findings(binds, gated);
      var s, t := TwoMembers(c.services);
      ClusterMembers(binds, c, s);
      ClusterMembers(binds, c, t);
      var a :| BoundIn(binds, c, a) && a.service == s;
      var b :| BoundIn(binds, c, b) && b.service == t;
      assert s !in c.services * gated && t !in c.services * gated;
      assert Collide(binds, gated, a, b);
      forall g | g in binds && g.port == a.port && g.proto == a.proto
                 && (g.address == Meeting(a, b) || g.address == WILDCARD)
        ensures g.service !in gated
      {
        ClusterMembers(binds, c, g.service);
        assert BoundIn(binds, c, g) && g.service !in c.services * gated;
      }
    }
  }

  /** Two always-on services and a gated one on one port: a note and no finding, although the first
      two cannot run together. */
  lemma GatedThirdHides()
    ensures exists binds, gated, a, b ::
              Collide(binds, gated, a, b) && Findings(binds, gated) == {} && Notes(binds, gated) != {}
  {
    var a, b := Bind("a", WILDCARD, "53", "udp"), Bind("b", WILDCARD, "53", "udp");
    var g := Bind("g", WILDCARD, "53", "udp");
    var binds, gated := [a, b, g], {"g"};
    assert a in binds && b in binds && g in binds;
    assert Collide(binds, gated, a, b);
    CollisionFailsIff(binds, gated, a, b);
    assert Masked(binds, gated, a, b);
    forall x, y ensures !(Collide(binds, gated, x, y) && !Masked(binds, gated, x, y)) {
      if Collide(binds, gated, x, y) {
        assert x in [a, b, g] && y in [a, b, g];
        assert Masked(binds, gated, x, y);
      }
    }
    FailsIff(binds, gated);
  }

  // ── what the text says ──

  /** One of a service's own keys, and the port entries listed under it. */
  datatype Section = Section(key: string, bare: bool, entries: seq<Entry>)

  datatype Published = Published(name: string, sections: seq<Section>)

  function ItemRows(entries: seq<Entry>): seq<Row> {
    seq(|entries|, i requires 0 <= i < |entries| => Item(entries[i]))
  }

  function SectionRows(sections: seq<Section>): seq<Row> {
    if sections == [] then []
    else [Own(sections[0].key, sections[0].bare)] + ItemRows(sections[0].entries) + SectionRows(sections[1..])
  }

  /** The services section of a generated file. */
  function Rows(services: seq<Published>): seq<Row> {
    if services == [] then []
    else [Child(services[0].name, true)] + SectionRows(services[0].sections) + Rows(services[1..])
  }

  function EntryBinds(entries: seq<Entry>, service: string): seq<Bind> {
    if entries == [] then [] else BindsOf(entries[0], service) + EntryBinds(entries[1..], service)
  }

  function SectionBinds(sections: seq<Section>, service: string): seq<Bind> {
    if sections == [] then []
    else (if sections[0].key == "ports" && sections[0].bare then EntryBinds(sections[0].entries, service) else [])
           + SectionBinds(sections[1..], service)
  }

  /** What each service publishes in the block form of its `ports:` lists. */
  function ServiceBinds(services: seq<Published>): seq<Bind> {
    if services == [] then []
    else SectionBinds(services[0].sections, services[0].name) + ServiceBinds(services[1..])
  }

  ghost predicate HasProfiles(sections: seq<Section>) {
    exists i :: 0 <= i < |sections| && sections[i].key == "profiles"
  }

  lemma {:induction false} ScanConcat(s: Scan, a: seq<Row>, b: seq<Row>)
    ensures ScanAll(s, a + b) == ScanAll(ScanAll(s, a), b)
    decreases |a|
  {
    if a == [] {
      assert a + b == b;
    } else {
      ConcatTail(a, b);
      ScanConcat(ScanRow(s, a[0]), a[1..], b);
    }
  }

  lemma {:induction false} ScanItems(s: Scan, entries: seq<Entry>)
    ensures ScanAll(s, ItemRows(entries))
         == s.(binds := s.binds + if s.inPorts then EntryBinds(entries, s.service) else [])
    decreases |entries|
  {
    if entries == [] {
      assert s.binds + [] == s.binds;
    } else {
      var rows := ItemRows(entries);
      assert rows[0] == Item(entries[0]) && rows[1..] == ItemRows(entries[1..]);
      ScanItems(ScanRow(s, rows[0]), entries[1..]);
      Associate(s.binds, BindsOf(entries[0], s.service), EntryBinds(entries[1..], s.service));
      assert s.binds + [] == s.binds;
    }
  }

  lemma {:induction false} ScanSections(s: Scan, sections: seq<Section>)
    ensures ScanAll(s, SectionRows(sections)).binds == s.binds + SectionBinds(sections, s.service)
    decreases |sections|
  {
    if sections != [] {
      var head := Own(sections[0].key, sections[0].bare);
      var items, rest := ItemRows(sections[0].entries), SectionRows(sections[1..]);
      ScanConcat(s, [head] + items, rest);
      ScanConcat(s, [head], items);
      var entered := ScanRow(s, head);
      assert ScanAll(s, [head]) == entered;
      ScanItems(entered, sections[0].entries);
      ScanSections(ScanAll(entered, items), sections[1..]);
      var own := if entered.inPorts then EntryBinds(sections[0].entries, s.service) else [];
      Associate(s.binds, own, SectionBinds(sections[1..], s.service));
    }
  }

  /** The scan finds what every service's block-form lists publish, and nothing else. */
  lemma {:induction false} ScanFinds(s: Scan, services: seq<Published>)
    ensures ScanAll(s, Rows(services)).binds == s.binds + ServiceBinds(services)
    decreases |services|
  {
    if services != [] {
      var head, body, rest := Child(services[0].name, true), SectionRows(services[0].sections), Rows(services[1..]);
      ScanConcat(s, [head] + body, rest);
      ScanConcat(s, [head], body);
      var entered := ScanRow(s, head);
      assert ScanAll(s, [head]) == entered;
      ScanSections(entered, services[0].sections);
      ScanFinds(ScanAll(entered, body), services[1..]);
      Associate(s.binds, SectionBinds(services[0].sections, services[0].name), ServiceBinds(services[1..]));
    }
  }

  lemma {:induction false} GatedSkips(entries: seq<Entry>, rest: seq<Row>, current: Option<string>)
    ensures GatedIn(ItemRows(entries) + rest, current) == GatedIn(rest, current)
    decreases |entries|
  {
    if entries == [] {
      assert ItemRows(entries) + rest == rest;
    } else {
      var rows := ItemRows(entries) + rest;
      assert rows[0] == Item(entries[0]) && rows[1..] == ItemRows(entries[1..]) + rest;
      GatedSkips(entries[1..], rest, current);
    }
  }

  lemma ProfilesTail(sections: seq<Section>)
    requires sections != []
    ensures HasProfiles(sections) <==> sections[0].key == "profiles" || HasProfiles(sections[1..])
  {
    if i :| 0 <= i < |sections| && sections[i].key == "profiles" {
      assert i > 0 ==> sections[1..][i - 1].key == "profiles";
    }
    if i :| 0 <= i < |sections[1..]| && sections[1..][i].key == "profiles" {
      assert sections[i + 1].key == "profiles";
    }
  }

  lemma GatedSection(section: Section, later: seq<Row>, name: string)
    ensures GatedIn([Own(section.key, section.bare)] + ItemRows(section.entries) + later, Some(name))
         == (if section.key == "profiles" then {name} else {}) + GatedIn(later, Some(name))
  {
    var rows := [Own(section.key, section.bare)] + ItemRows(section.entries) + later;
    assert rows[0] == Own(section.key, section.bare) && rows[1..] == ItemRows(section.entries) + later;
    GatedSkips(section.entries, later, Some(name));
  }

  lemma {:induction false} GatedSections(sections: seq<Section>, rest: seq<Row>, name: string)
    ensures GatedIn(SectionRows(sections) + rest, Some(name))
         == (if HasProfiles(sections) then {name} else {}) + GatedIn(rest, Some(name))
    decreases |sections|
  {
    hide GatedIn, HasProfiles, ItemRows;
    if sections == [] {
      assert SectionRows(sections) + rest == rest;
      NoProfiles();
    } else {
      var later := SectionRows(sections[1..]) + rest;
      var first := [Own(sections[0].key, sections[0].bare)] + ItemRows(sections[0].entries);
      Associate(first, SectionRows(sections[1..]), rest);
      GatedSection(sections[0], later, name);
      GatedSections(sections[1..], rest, name);
      ProfilesTail(sections);
    }
  }

  lemma NoProfiles()
    ensures !HasProfiles([])
  {
  }

  /** A service is taken for gated exactly when it, or one of the same name, has a `profiles:` key. */
  lemma {:induction false} GatedFinds(services: seq<Published>, current: Option<string>, n: string)
    ensures n in GatedIn(Rows(services), current) <==>
              exists i :: 0 <= i < |services| && services[i].name == n && HasProfiles(services[i].sections)
    decreases |services|
  {
    if services != [] {
      var rows, rest := Rows(services), Rows(services[1..]);
      var name := services[0].name;
      assert rows[0] == Child(name, true) && rows[1..] == SectionRows(services[0].sections) + rest;
      GatedSections(services[0].sections, rest, name);
      GatedFinds(services[1..], Some(name), n);
      if i :| 0 <= i < |services| && services[i].name == n && HasProfiles(services[i].sections) {
        assert i > 0 ==> services[1..][i - 1] == services[i];
      }
      if i :| 0 <= i < |services[1..]| && services[1..][i].name == n && HasProfiles(services[1..][i].sections) {
        assert services[i + 1] == services[1..][i];
      }
    }
  }

  lemma {:induction false} ServiceBindsHas(services: seq<Published>, b: Bind)
    ensures b in ServiceBinds(services) <==>
              exists i :: 0 <= i < |services| && b in SectionBinds(services[i].sections, services[i].name)
    decreases |services|
  {
    if services != [] {
      ServiceBindsHas(services[1..], b);
      if i :| 0 <= i < |services| && b in SectionBinds(services[i].sections, services[i].name) {
        assert i > 0 ==> services[1..][i - 1] == services[i];
      }
      if i :| 0 <= i < |services[1..]| && b in SectionBinds(services[1..][i].sections, services[1..][i].name) {
        assert services[i + 1] == services[1..][i];
      }
    }
  }

  /** Writing the same services in another order changes neither what fails nor what is noted. */
  lemma {:induction false} OrderIsIrrelevant(services: seq<Published>, others: seq<Published>)
    requires forall p :: p in services <==> p in others
    ensures Findings(Binds(Rows(services)), GatedIn(Rows(services), None))
         == Findings(Binds(Rows(others)), GatedIn(Rows(others), None))
    ensures Notes(Binds(Rows(services)), GatedIn(Rows(services), None))
         == Notes(Binds(Rows(others)), GatedIn(Rows(others), None))
  {
    SameReading(services, others);
    SameReading(others, services);
    var a, b := Binds(Rows(services)), Binds(Rows(others));
    assert forall x :: x in a <==> x in b;
    assert GatedIn(Rows(services), None) == GatedIn(Rows(others), None);
    SameClusters(a, b);
    SameClusters(b, a);
  }

  lemma SameReading(services: seq<Published>, others: seq<Published>)
    requires forall p :: p in services ==> p in others
    ensures forall b :: b in Binds(Rows(services)) ==> b in Binds(Rows(others))
    ensures GatedIn(Rows(services), None) <= GatedIn(Rows(others), None)
  {
    ScanFinds(Scan("", false, []), services);
    ScanFinds(Scan("", false, []), others);
    forall b | b in ServiceBinds(services) ensures b in ServiceBinds(others) {
      ServiceBindsHas(services, b);
      ServiceBindsHas(others, b);
      var i :| 0 <= i < |services| && b in SectionBinds(services[i].sections, services[i].name);
      assert services[i] in others;
    }
    forall n | n in GatedIn(Rows(services), None) ensures n in GatedIn(Rows(others), None) {
      GatedFinds(services, None, n);
      GatedFinds(others, None, n);
      var i :| 0 <= i < |services| && services[i].name == n && HasProfiles(services[i].sections);
      assert services[i] in others;
    }
  }

  lemma SameClusters(a: seq<Bind>, b: seq<Bind>)
    requires forall x :: x in a <==> x in b
    ensures Clusters(a) <= Clusters(b)
  {
    forall c | c in Clusters(a) ensures c in Clusters(b) {
      var x :| x in a && c == ClusterAt(a, x.port, x.proto, x.address);
      assert c == ClusterAt(b, x.port, x.proto, x.address);
    }
  }

  /** A list written on the key's own line publishes nothing the check can see. */
  lemma InlinePortsAreMissed(name: string, entries: seq<Entry>)
    ensures Binds(Rows([Published(name, [Section("ports", false, entries)])])) == []
  {
    var services := [Published(name, [Section("ports", false, entries)])];
    ScanFinds(Scan("", false, []), services);
    assert services[1..] == [] && services[0].sections[1..] == [];
    assert SectionBinds(services[0].sections, name) == [];
  }

  // ── what one entry publishes ──

  /** A service with a single entry in a block-form `ports:` list, as it is written out. */
  function OnePort(name: string, entry: Entry): seq<Row> {
    [Child(name, true), Own("ports", true), Item(entry)]
  }

  lemma OnePortScans(name: string, entry: Entry)
    ensures Binds(OnePort(name, entry)) == BindsOf(entry, name)
  {
    var rows := OnePort(name, entry);
    var s := Scan("", false, []);
    assert rows[1..] == [Own("ports", true), Item(entry)] && rows[1..][1..] == [Item(entry)];
    assert rows[1..][1..][1..] == [];
    var listed := Scan(name, true, []);
    assert ScanRow(ScanRow(s, rows[0]), rows[1]) == listed;
    assert ScanAll(s, rows) == ScanAll(ScanRow(s, rows[0]), rows[1..]) == ScanAll(listed, [Item(entry)]);
    assert ScanAll(listed, [Item(entry)]) == ScanAll(ScanRow(listed, Item(entry)), []);
    assert [] + BindsOf(entry, name) == BindsOf(entry, name);
  }

  /** The host port is the last part but one. The address is the first part's when there are three parts or more
      and the first names one, and every address otherwise; the protocol is the one written, or TCP. An entry
      of one part, or with no port in that place, publishes nothing. */
  lemma EntryPublishes(name: string, first: Part, middle: seq<Part>, port: string, named: Option<string>,
                       container: Part, proto: string)
    ensures var host, used := Part(Some(port), named), if proto == "" then "tcp" else proto;
            && Binds(OnePort(name, Entry([host, container], proto))) == [Bind(name, "0.0.0.0", port, used)]
            && Binds(OnePort(name, Entry([first] + middle + [host, container], proto)))
                 == [Bind(name, if first.address.Some? then first.address.value else "0.0.0.0", port, used)]
            && Binds(OnePort(name, Entry([first] + middle + [Part(None, named), container], proto))) == []
            && Binds(OnePort(name, Entry([Part(None, named), container], proto))) == []
            && Binds(OnePort(name, Entry([first], proto))) == []
  {
    var host := Part(Some(port), named);
    var long := [first] + middle + [host, container];
    var lost := [first] + middle + [Part(None, named), container];
    OnePortScans(name, Entry([host, container], proto));
    OnePortScans(name, Entry(long, proto));
    OnePortScans(name, Entry(lost, proto));
    OnePortScans(name, Entry([Part(None, named), container], proto));
    OnePortScans(name, Entry([first], proto));
    assert long[0] == first && long[|long| - 2] == host;
    assert lost[|lost| - 2] == Part(None, named);
    hide Binds;
  }

  /** A `ports:` further in than a service's own keys counts for the service too, whatever key it is under. */
  lemma DeepPortsCount(name: string, key: string, bare: bool, port: string, named: Option<string>, container: Part)
    ensures Binds([Child(name, true), Own(key, bare), DeepPorts, Item(Entry([Part(Some(port), named), container], ""))])
         == [Bind(name, "0.0.0.0", port, "tcp")]
  {
    var entry := Entry([Part(Some(port), named), container], "");
    var start, item := Scan("", false, []), [Item(entry)];
    var deep := Scan(name, true, []);
    assert [Child(name, true)] + ([Own(key, bare)] + ([DeepPorts] + item))
        == [Child(name, true), Own(key, bare), DeepPorts, Item(entry)];
    ScanCons(start, Child(name, true), [Own(key, bare)] + ([DeepPorts] + item));
    var entered := ScanRow(start, Child(name, true));
    ScanCons(entered, Own(key, bare), [DeepPorts] + item);
    ScanCons(ScanRow(entered, Own(key, bare)), DeepPorts, item);
    assert ScanRow(ScanRow(entered, Own(key, bare)), DeepPorts) == deep;
    ScanCons(deep, Item(entry), []);
    assert item == [Item(entry)] + [];
    assert [] + [Bind(name, "0.0.0.0", port, "tcp")] == [Bind(name, "0.0.0.0", port, "tcp")];
  }

  lemma ScanCons(s: Scan, row: Row, rest: seq<Row>)
    ensures ScanAll(s, [row] + rest) == ScanAll(ScanRow(s, row), rest)
  {
    assert ([row] + rest)[1..] == rest;
  }

  /** A `profiles:` gates the service above it, unless another line two spaces in comes between. */
  lemma EdgeEnds(name: string, bare: bool)
    ensures GatedIn([Child(name, true), Own("profiles", bare)], None) == {name}
    ensures GatedIn([Child(name, true), Edge, Own("profiles", bare)], None) == {}
  {
    var own := Own("profiles", bare);
    assert [own][1..] == [];
    assert [Child(name, true), own][1..] == [own];
    assert [Child(name, true), Edge, own][1..] == [Edge, own] && [Edge, own][1..] == [own];
    assert GatedIn([own], Some(name)) == {name} && GatedIn([own], None) == {};
  }
}
