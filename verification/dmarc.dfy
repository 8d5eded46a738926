/** Folding DMARC aggregate reports into sending streams, and the verdict drawn from them. */
module Dmarc {
  import opened Basics
  import opened Names

  /** Who reports, on mail claiming to be from where, sent from which address. */
  datatype Key = Key(org: string, headerFrom: string, sourceIp: string)

  /** One record of a report. A count that is no number is nothing. */
  datatype Record = Record(key: Key, count: Option<int>, spf: bool, dkim: bool, disposition: string)

  /** A record the fold takes in. */
  predicate IsCounted(r: Record) {
    r.count.Some? && r.count.value > 0
  }

  function Count(r: Record): nat {
    if IsCounted(r) then r.count.value else 0
  }

  /** What a stream counts. */
  datatype Tally = Tally(messages: nat, spfPass: nat, dkimPass: nat, dispositions: set<string>)

  const NOTHING := Tally(0, 0, 0, {})

  function Added(t: Tally, r: Record): Tally {
    Tally(t.messages + Count(r), t.spfPass + (if r.spf then Count(r) else 0),
          t.dkimPass + (if r.dkim then Count(r) else 0), t.dispositions + {r.disposition})
  }

  /** The running figures of one sender as one reporting organisation saw it. */
  class Stream {
    const key: Key
    var messages: nat
    var spfPass: nat
    var dkimPass: nat
    var dispositions: set<string>

    function Held(): Tally
      reads this
    {
      Tally(messages, spfPass, dkimPass, dispositions)
    }

    constructor (key: Key)
      ensures this.key == key && Held() == NOTHING
    {
      this.key := key;
      messages, spfPass, dkimPass, dispositions := 0, 0, 0, {};
    }

    method Add(r: Record)
      requires IsCounted(r)
      modifies this
      ensures Held() == Added(old(Held()), r)
    {
      messages := messages + r.count.value;
      if r.spf {
        spfPass := spfPass + r.count.value;
      }
      if r.dkim {
        dkimPass := dkimPass + r.count.value;
      }
      dispositions := dispositions + {r.disposition};
    }
  }

  /** The figure graded: all messages less the larger of the two passing groups. */
  function BothFail(t: Tally): int {
    t.messages - if t.spfPass >= t.dkimPass then t.spfPass else t.dkimPass
  }

  // ── what each stream should hold ──

  /** The messages of a stream that passed, or did not pass, each mechanism as given. */
  function Sum(records: seq<Record>, key: Key, spf: bool, dkim: bool): nat
    decreases |records|
  {
    if records == [] then 0
    else
      var last := records[|records| - 1];
      Sum(records[..|records| - 1], key, spf, dkim)
        + if last.key == key && last.spf == spf && last.dkim == dkim then Count(last) else 0
  }

  function Dispositions(records: seq<Record>, key: Key): set<string> {
    set r | r in records && IsCounted(r) && r.key == key :: r.disposition
  }

  /** What the records say of one stream. */
  function TallyOf(records: seq<Record>, key: Key): Tally {
    var both, spfOnly, dkimOnly, neither :=
      Sum(records, key, true, true), Sum(records, key, true, false),
      Sum(records, key, false, true), Sum(records, key, false, false);
    Tally(both + spfOnly + dkimOnly + neither, both + spfOnly, both + dkimOnly, Dispositions(records, key))
  }

  function KeysOf(records: seq<Record>): set<Key> {
    set r | r in records && IsCounted(r) :: r.key
  }

  /** One stream for each key seen, holding what was said of it. */
  ghost predicate IsFolded(streams: map<Key, Stream>, records: seq<Record>)
    reads streams.Values
  {
    && streams.Keys == KeysOf(records)
    && (forall k :: k in streams ==> streams[k].key == k && streams[k].Held() == TallyOf(records, k))
  }

  lemma SumSnoc(records: seq<Record>, r: Record, key: Key, spf: bool, dkim: bool)
    ensures Sum(records + [r], key, spf, dkim)
         == Sum(records, key, spf, dkim) + if r.key == key && r.spf == spf && r.dkim == dkim then Count(r) else 0
  {
    assert (records + [r])[..|records|] == records;
  }

  lemma SeenSnoc(records: seq<Record>, r: Record, key: Key)
    ensures KeysOf(records + [r]) == KeysOf(records) + if IsCounted(r) then {r.key} else {}
    ensures Dispositions(records + [r], key)
         == Dispositions(records, key) + if IsCounted(r) && r.key == key then {r.disposition} else {}
  {
    assert r in records + [r];
    assert forall x :: x in records + [r] <==> x in records || x == r;
  }

  lemma TallySnoc(records: seq<Record>, r: Record, key: Key)
    ensures TallyOf(records + [r], key)
         == if IsCounted(r) && r.key == key then Added(TallyOf(records, key), r) else TallyOf(records, key)
  {
    SumSnoc(records, r, key, true, true);
    SumSnoc(records, r, key, true, false);
    SumSnoc(records, r, key, false, true);
    SumSnoc(records, r, key, false, false);
    SeenSnoc(records, r, key);
  }

  lemma {:induction false} Unseen(records: seq<Record>, key: Key)
    requires key !in KeysOf(records)
    ensures TallyOf(records, key) == NOTHING
    decreases |records|
  {
    if records == [] {
      assert Dispositions([], key) == {};
    } else {
      var init, last := records[..|records| - 1], records[|records| - 1];
      Snoc(records);
      SeenSnoc(init, last, key);
      TallySnoc(init, last, key);
      Unseen(init, key);
    }
  }

  method CollectOne(streams: map<Key, Stream>, r: Record, ghost before: seq<Record>)
    returns (streams': map<Key, Stream>)
    requires IsFolded(streams, before)
    modifies streams.Values
    ensures IsFolded(streams', before + [r])
    ensures forall s :: s in streams'.Values ==> s in streams.Values || fresh(s)
  {
    hide TallyOf, KeysOf, Added;
    streams' := streams;
    SeenSnoc(before, r, r.key);
    forall k ensures TallyOf(before + [r], k)
                  == if IsCounted(r) && r.key == k then Added(TallyOf(before, k), r) else TallyOf(before, k) {
      TallySnoc(before, r, k);
    }
    if !IsCounted(r) {
      return;
    }
    if r.key !in streams {
      Unseen(before, r.key);
      var s := new Stream(r.key);
      streams' := streams'[r.key := s];
    }
    streams'[r.key].Add(r);
  }

  /** Adds each record of a report to the stream of its key, made on first sight. */
  method Collect(streams: map<Key, Stream>, records: seq<Record>, ghost before: seq<Record>)
    returns (streams': map<Key, Stream>)
    requires IsFolded(streams, before)
    modifies streams.Values
    ensures IsFolded(streams', before + records)
    ensures forall s :: s in streams'.Values ==> s in streams.Values || fresh(s)
  {
    streams' := streams;
    assert before + records[..0] == before;
    for i := 0 to |records|
      invariant IsFolded(streams', before + records[..i])
      invariant forall s :: s in streams'.Values ==> s in streams.Values || fresh(s)
    {
      assert before + records[..i] + [records[i]] == before + records[..i + 1];
      streams' := CollectOne(streams', records[i], before + records[..i]);
    }
    TakeAll(records);
  }

  // ── every report ──

  datatype Policy = Policy(org: string, domain: string, published: string)

  /** An attachment: a report, or nothing that can be read as one. */
  datatype Payload = Unusable(name: string) | Report(policy: Policy, records: seq<Record>)

  /** The receiver that reports is the one the report names. */
  function From(org: string, r: Record): Record {
    Record(Key(org, r.key.headerFrom, r.key.sourceIp), r.count, r.spf, r.dkim, r.disposition)
  }

  function AllFrom(org: string, records: seq<Record>): seq<Record> {
    seq(|records|, i requires 0 <= i < |records| => From(org, records[i]))
  }

  predicate IsWanted(p: Payload, domains: set<string>) {
    p.Report? && (domains == {} || p.policy.domain in domains)
  }

  /** The records of every report about the domains asked for. */
  function AllRecords(payloads: seq<Payload>, domains: set<string>): seq<Record>
    decreases |payloads|
  {
    if payloads == [] then []
    else
      var last := payloads[|payloads| - 1];
      AllRecords(payloads[..|payloads| - 1], domains)
        + if IsWanted(last, domains) then AllFrom(last.policy.org, last.records) else []
  }

  /** What each domain last published. */
  function PoliciesOf(payloads: seq<Payload>, domains: set<string>): map<string, Policy>
    decreases |payloads|
  {
    if payloads == [] then map[]
    else
      var last := payloads[|payloads| - 1];
      var before := PoliciesOf(payloads[..|payloads| - 1], domains);
      if IsWanted(last, domains) then before[last.policy.domain := last.policy] else before
  }

  function SkippedOf(payloads: seq<Payload>): seq<string>
    decreases |payloads|
  {
    if payloads == [] then []
    else
      SkippedOf(payloads[..|payloads| - 1])
        + if payloads[|payloads| - 1].Unusable? then [payloads[|payloads| - 1].name] else []
  }

  lemma PayloadSnoc(payloads: seq<Payload>, i: nat, domains: set<string>)
    requires i < |payloads|
    ensures AllRecords(payloads[..i + 1], domains)
         == AllRecords(payloads[..i], domains)
            + if IsWanted(payloads[i], domains) then AllFrom(payloads[i].policy.org, payloads[i].records) else []
    ensures PoliciesOf(payloads[..i + 1], domains)
         == if IsWanted(payloads[i], domains)
            then PoliciesOf(payloads[..i], domains)[payloads[i].policy.domain := payloads[i].policy]
            else PoliciesOf(payloads[..i], domains)
    ensures SkippedOf(payloads[..i + 1])
         == SkippedOf(payloads[..i]) + if payloads[i].Unusable? then [payloads[i].name] else []
  {
    TakeSnoc(payloads, i);
  }

  ghost predicate SomeWanted(payloads: seq<Payload>, domains: set<string>) {
    exists p :: p in payloads && IsWanted(p, domains)
  }

  lemma WantedSnoc(payloads: seq<Payload>, i: nat, domains: set<string>)
    requires i < |payloads|
    ensures SomeWanted(payloads[..i + 1], domains) <==>
              SomeWanted(payloads[..i], domains) || IsWanted(payloads[i], domains)
  {
    TakeSnoc(payloads, i);
    assert forall q :: q in payloads[..i + 1] <==> q in payloads[..i] || q == payloads[i];
  }

  /** Goes through all reports; the result is unreadable when none of them was of use. */
  method Fold(payloads: seq<Payload>, domains: set<string>)
    returns (streams: map<Key, Stream>, policies: map<string, Policy>, skipped: seq<string>, readable: bool)
    ensures IsFolded(streams, AllRecords(payloads, domains)) && fresh(streams.Values)
    ensures policies == PoliciesOf(payloads, domains) && skipped == SkippedOf(payloads)
    ensures readable <==> exists p :: p in payloads && IsWanted(p, domains)
  {
    streams, policies, skipped, readable := map[], map[], [], false;
    for i := 0 to |payloads|
      invariant IsFolded(streams, AllRecords(payloads[..i], domains)) && fresh(streams.Values)
      invariant policies == PoliciesOf(payloads[..i], domains) && skipped == SkippedOf(payloads[..i])
      invariant readable <==> SomeWanted(payloads[..i], domains)
    {
      hide AllRecords, PoliciesOf, SkippedOf, TallyOf, KeysOf, SomeWanted;
      var p := payloads[i];
      PayloadSnoc(payloads, i, domains);
      WantedSnoc(payloads, i, domains);
      ghost var before := AllRecords(payloads[..i], domains);
      assert before + [] == before && skipped + [] == skipped;
      if p.Unusable? {
        skipped := skipped + [p.name];
        continue;
      }
      if domains != {} && p.policy.domain !in domains {
        continue;
      }
      readable := true;
      policies := policies[p.policy.domain := p.policy];
      streams := Collect(streams, AllFrom(p.policy.org, p.records), before);
    }
    TakeAll(payloads);
  }

  // ── the verdict ──

  datatype Finding =
    | PolicyNone(domain: string)
    | PolicyRead(domain: string)
    | NoStreams
    | Misaligned(key: Key)
    | MisalignedSmall(key: Key)
    | HalfAligned(key: Key, spf: bool)
    | Aligned(key: Key)

  predicate Fails(f: Finding) {
    f.NoStreams? || f.Misaligned?
  }

  function Grade(key: Key, t: Tally, threshold: int): Finding {
    if BothFail(t) >= threshold then Misaligned(key)
    else if BothFail(t) != 0 then MisalignedSmall(key)
    else if t.spfPass < t.messages then HalfAligned(key, true)
    else if t.dkimPass < t.messages then HalfAligned(key, false)
    else Aligned(key)
  }

  function OnPolicy(policies: map<string, Policy>, domain: string): Finding
    requires domain in policies
  {
    if policies[domain].published == "none" then PolicyNone(domain) else PolicyRead(domain)
  }

  /** One finding for each policy, in the order of the domains. */
  method EvaluatePolicies(policies: map<string, Policy>) returns (findings: seq<Finding>)
    ensures |findings| == |policies| == |Sorted(policies.Keys)|
    ensures forall i :: 0 <= i < |policies| ==> findings[i] == OnPolicy(policies, Sorted(policies.Keys)[i])
  {
    findings := [];
    var domains := Sorted(policies.Keys);
    DistinctCardinality(domains);
    hide Sorted, Distinct;
    for i := 0 to |domains|
      invariant |findings| == i && forall k :: 0 <= k < i ==> findings[k] == OnPolicy(policies, domains[k])
    {
      var policy := policies[domains[i]];
      findings := findings + [if policy.published == "none" then PolicyNone(domains[i]) else PolicyRead(domains[i])];
    }
  }

  /** One finding for each policy, in the order of the domains, and one for each stream or one for there being
      none. */
  method Evaluate(streams: seq<Stream>, policies: map<string, Policy>, threshold: int) returns (findings: seq<Finding>)
    ensures |findings| == |policies| + (if streams == [] then 1 else |streams|)
    ensures |Sorted(policies.Keys)| == |policies|
    ensures forall i :: 0 <= i < |policies| ==>
              var domain := Sorted(policies.Keys)[i];
              findings[i] == if policies[domain].published == "none" then PolicyNone(domain) else PolicyRead(domain)
    ensures streams == [] ==> findings[|policies|] == NoStreams
    ensures forall i :: 0 <= i < |streams| ==>
              findings[|policies| + i] == Grade(streams[i].key, streams[i].Held(), threshold)
    ensures (forall f :: f in findings ==> !Fails(f)) <==>
              && streams != []
              && forall i :: 0 <= i < |streams| ==> !Fails(Grade(streams[i].key, streams[i].Held(), threshold))
  {
    findings := EvaluatePolicies(policies);
    hide Sorted, BothFail;
    ghost var first := findings;
    if streams == [] {
      findings := findings + [NoStreams];
      assert NoStreams in findings;
      return;
    }
    for i := 0 to |streams|
      invariant |findings| == |policies| + i
      invariant findings[..|policies|] == first
      invariant forall k :: 0 <= k < i ==>
                  findings[|policies| + k] == Grade(streams[k].key, streams[k].Held(), threshold)
    {
      var stream := streams[i];
      var grade := Aligned(stream.key);
      if BothFail(stream.Held()) >= threshold {
        grade := Misaligned(stream.key);
      } else if BothFail(stream.Held()) != 0 {
        grade := MisalignedSmall(stream.key);
      } else if stream.spfPass < stream.messages || stream.dkimPass < stream.messages {
        grade := HalfAligned(stream.key, stream.spfPass < stream.messages);
      }
      findings := findings + [grade];
    }
    forall i | 0 <= i < |streams| ensures Grade(streams[i].key, streams[i].Held(), threshold) in findings {
      assert findings[|policies| + i] in findings;
    }
    forall f | f in findings && Fails(f)
      ensures exists i :: 0 <= i < |streams| && f == Grade(streams[i].key, streams[i].Held(), threshold)
    {
      var k :| 0 <= k < |findings| && findings[k] == f;
      var i := k - |policies|;
      assert 0 <= i < |streams| && f == Grade(streams[i].key, streams[i].Held(), threshold);
    }
  }

  /** The messages of a stream that passed neither mechanism: those `p=reject` drops (section 6.6.2
      of RFC 7489). */
  function Dropped(records: seq<Record>, key: Key): nat {
    Sum(records, key, false, false)
  }

  function Mixed(records: seq<Record>, key: Key): nat {
    var spfOnly, dkimOnly := Sum(records, key, true, false), Sum(records, key, false, true);
    if spfOnly <= dkimOnly then spfOnly else dkimOnly
  }

  /** The script's figure is what is dropped and, on top, the smaller of the two groups that passed
      one mechanism only: never too low, and exact when one of those groups is empty. */
  lemma BothFailIsUpperBound(records: seq<Record>, key: Key)
    ensures BothFail(TallyOf(records, key)) == Dropped(records, key) + Mixed(records, key)
    ensures BothFail(TallyOf(records, key)) == Dropped(records, key) <==>
              Sum(records, key, true, false) == 0 || Sum(records, key, false, true) == 0
  {
  }

  /** Grading a stream: it fails exactly when the figure reaches the threshold, so a stream that does
      not fail loses fewer messages than that; one that loses fewer fails all the same exactly when
      its mixed messages make up the difference. */
  lemma GradeIsSafe(records: seq<Record>, key: Key, threshold: int)
    ensures var grade := Grade(key, TallyOf(records, key), threshold);
            && (!Fails(grade) ==> Dropped(records, key) < threshold)
            && (Dropped(records, key) < threshold ==>
                  (Fails(grade) <==> threshold - Dropped(records, key) <= Mixed(records, key)))
            && (threshold > 0 ==>
                  (grade.Aligned? <==>
                     Dropped(records, key) == Sum(records, key, true, false) == Sum(records, key, false, true) == 0))
  {
    BothFailIsUpperBound(records, key);
  }

  /** A run that reports no failure has seen a stream, and every stream it has seen loses fewer
      messages than the threshold under `p=reject`. */
  lemma NoFailureIsSafe(streams: map<Key, Stream>, order: seq<Stream>, records: seq<Record>, threshold: int)
    requires IsFolded(streams, records) && forall s :: s in order <==> s in streams.Values
    requires order != [] && forall i :: 0 <= i < |order| ==> !Fails(Grade(order[i].key, order[i].Held(), threshold))
    ensures KeysOf(records) != {} && forall k :: k in KeysOf(records) ==> Dropped(records, k) < threshold
  {
    assert order[0] in streams.Values;
    forall k | k in KeysOf(records) ensures Dropped(records, k) < threshold {
      assert streams[k] in streams.Values;
      var i :| 0 <= i < |order| && order[i] == streams[k];
      GradeIsSafe(records, k, threshold);
    }
  }

  // ── the figures, counted straight from the records ──

  /** The messages of the records that are chosen; a count that is no number, or not positive, is nothing. */
  function Mail(records: seq<Record>, chosen: Record -> bool): nat
    decreases |records|
  {
    if records == [] then 0
    else
      var last := records[|records| - 1];
      Mail(records[..|records| - 1], chosen)
        + if chosen(last) && last.count.Some? && last.count.value > 0 then last.count.value else 0
  }

  function AllOf(key: Key): Record -> bool {
    (r: Record) => r.key == key
  }

  function SpfFailed(key: Key): Record -> bool {
    (r: Record) => r.key == key && !r.spf
  }

  function DkimFailed(key: Key): Record -> bool {
    (r: Record) => r.key == key && !r.dkim
  }

  function Unaligned(key: Key): Record -> bool {
    (r: Record) => r.key == key && !r.spf && !r.dkim
  }

  /** What a stream holds: all its messages, and of them those that did not fail each mechanism. */
  lemma {:induction false} TallyIsMail(records: seq<Record>, key: Key)
    ensures var t := TallyOf(records, key);
            && t.messages == Mail(records, AllOf(key))
            && t.messages - t.spfPass == Mail(records, SpfFailed(key))
            && t.messages - t.dkimPass == Mail(records, DkimFailed(key))
    ensures Dropped(records, key) == Mail(records, Unaligned(key))
    ensures key in KeysOf(records) <==> exists r :: r in records && r.key == key && r.count.Some? && r.count.value > 0
    ensures forall d :: d in TallyOf(records, key).dispositions <==>
              exists r :: r in records && r.key == key && r.count.Some? && r.count.value > 0 && r.disposition == d
    decreases |records|
  {
    if records != [] {
      TallyIsMail(records[..|records| - 1], key);
    }
  }

  /** The grade of a stream by how much of its mail failed each mechanism: the smaller of the two figures
      against the threshold, then whichever mechanism some of it failed, SPF first. */
  lemma GradeIs(records: seq<Record>, key: Key, threshold: int)
    ensures var grade := Grade(key, TallyOf(records, key), threshold);
            var spf, dkim := Mail(records, SpfFailed(key)), Mail(records, DkimFailed(key));
            && (grade == Misaligned(key) <==> spf >= threshold && dkim >= threshold)
            && (grade == MisalignedSmall(key) <==> (spf < threshold || dkim < threshold) && spf > 0 && dkim > 0)
            && (grade == HalfAligned(key, true) <==> 0 < threshold && spf > 0 && dkim == 0)
            && (grade == HalfAligned(key, false) <==> 0 < threshold && spf == 0 && dkim > 0)
            && (grade == Aligned(key) <==> 0 < threshold && spf == 0 && dkim == 0)
  {
    TallyIsMail(records, key);
  }

  ghost predicate IsFrom(payloads: seq<Payload>, domains: set<string>, i: nat, domain: string) {
    && i < |payloads| && payloads[i].Report? && payloads[i].policy.domain == domain
    && (domains == {} || domain in domains)
  }

  ghost predicate IsLastFrom(payloads: seq<Payload>, domains: set<string>, i: nat, domain: string) {
    IsFrom(payloads, domains, i, domain) && forall j: nat :: j > i ==> !IsFrom(payloads, domains, j, domain)
  }

  lemma FromSnoc(payloads: seq<Payload>, domains: set<string>, i: nat, domain: string)
    requires payloads != []
    ensures var init, last := payloads[..|payloads| - 1], |payloads| - 1;
            && (i < last ==> (IsFrom(init, domains, i, domain) <==> IsFrom(payloads, domains, i, domain)))
            && (i >= last ==> !IsFrom(init, domains, i, domain))
            && (i > last ==> !IsFrom(payloads, domains, i, domain))
            && (IsFrom(payloads, domains, last, domain) <==>
                  IsWanted(payloads[last], domains) && payloads[last].policy.domain == domain)
  {
  }

  lemma LastFromSnoc(payloads: seq<Payload>, domains: set<string>, i: nat, domain: string)
    requires payloads != [] && IsLastFrom(payloads, domains, i, domain)
    ensures var init, last := payloads[..|payloads| - 1], |payloads| - 1;
            i == last || (i < last && IsLastFrom(init, domains, i, domain) && !IsFrom(payloads, domains, last, domain))
  {
    hide IsFrom;
    var init := payloads[..|payloads| - 1];
    FromSnoc(payloads, domains, i, domain);
    forall j: nat | j > i ensures !IsFrom(init, domains, j, domain) {
      assert !IsFrom(payloads, domains, j, domain);
      FromSnoc(payloads, domains, j, domain);
    }
  }

  /** The policy kept for a domain is the one of the last report on it, of those asked for. */
  lemma {:induction false} PoliciesAre(payloads: seq<Payload>, domains: set<string>, domain: string)
    ensures domain in PoliciesOf(payloads, domains) <==> exists i: nat :: IsFrom(payloads, domains, i, domain)
    ensures forall i: nat :: IsLastFrom(payloads, domains, i, domain) ==>
              domain in PoliciesOf(payloads, domains) && PoliciesOf(payloads, domains)[domain] == payloads[i].policy
    decreases |payloads|
  {
    if payloads != [] {
      hide IsFrom, IsWanted, IsLastFrom;
      var init, last := payloads[..|payloads| - 1], |payloads| - 1;
      PoliciesAre(init, domains, domain);
      forall i: nat {
        FromSnoc(payloads, domains, i, domain);
      }
      forall i: nat | IsLastFrom(payloads, domains, i, domain)
        ensures domain in PoliciesOf(payloads, domains) && PoliciesOf(payloads, domains)[domain] == payloads[i].policy
      {
        LastIsFrom(payloads, domains, i, domain);
        LastFromSnoc(payloads, domains, i, domain);
      }
    } else {
      NoneFrom(domains, domain);
    }
  }

  lemma LastIsFrom(payloads: seq<Payload>, domains: set<string>, i: nat, domain: string)
    requires IsLastFrom(payloads, domains, i, domain)
    ensures IsFrom(payloads, domains, i, domain) && i < |payloads|
  {
  }

  lemma NoneFrom(domains: set<string>, domain: string)
    ensures forall i: nat :: !IsFrom([], domains, i, domain) && !IsLastFrom([], domains, i, domain)
  {
  }

  ghost predicate HasRecord(payloads: seq<Payload>, domains: set<string>, i: nat, domain: string, r: Record) {
    && IsFrom(payloads, domains, i, domain)
    && exists q :: q in payloads[i].records && r == q.(key := q.key.(org := payloads[i].policy.org))
  }

  lemma OwnRecords(payloads: seq<Payload>, domains: set<string>, i: nat, r: Record)
    requires i < |payloads|
    ensures (IsWanted(payloads[i], domains) && r in AllFrom(payloads[i].policy.org, payloads[i].records)) <==>
              exists domain :: HasRecord(payloads, domains, i, domain, r)
  {
    if IsWanted(payloads[i], domains) {
      var p := payloads[i];
      FromAll(p.policy.org, p.records, r);
      assert IsFrom(payloads, domains, i, p.policy.domain);
      assert (exists q :: q in p.records && r == q.(key := q.key.(org := p.policy.org))) <==>
               HasRecord(payloads, domains, i, p.policy.domain, r);
    }
    hide AllFrom, From;
  }

  lemma FromAll(org: string, records: seq<Record>, r: Record)
    ensures r in AllFrom(org, records) <==> exists q :: q in records && r == q.(key := q.key.(org := org))
  {
    var all := AllFrom(org, records);
    if r in all {
      var k :| 0 <= k < |all| && all[k] == r;
      assert records[k] in records;
    }
    if q :| q in records && r == q.(key := q.key.(org := org)) {
      var k :| 0 <= k < |records| && records[k] == q;
      assert all[k] == r;
    }
  }

  /** Every record of a report on a domain asked for is taken in, as seen by the receiver that reports, and no
      other is. */
  lemma {:induction false} RecordsAre(payloads: seq<Payload>, domains: set<string>, r: Record)
    ensures r in AllRecords(payloads, domains) <==> exists i: nat, domain :: HasRecord(payloads, domains, i, domain, r)
    decreases |payloads|
  {
    if payloads != [] {
      var init, last := payloads[..|payloads| - 1], |payloads| - 1;
      RecordsAre(init, domains, r);
      OwnRecords(payloads, domains, last, r);
      forall i: nat, domain
        ensures i < last ==> (HasRecord(init, domains, i, domain, r) <==> HasRecord(payloads, domains, i, domain, r))
        ensures i >= last ==> !HasRecord(init, domains, i, domain, r)
        ensures i > last ==> !HasRecord(payloads, domains, i, domain, r)
      {
      }
      hide HasRecord, AllFrom, IsWanted;
    }
  }

  // ── order and conservation ──

  lemma {:induction false} SumWithout(records: seq<Record>, i: nat, key: Key, spf: bool, dkim: bool)
    requires i < |records|
    ensures Sum(records, key, spf, dkim)
         == Sum(records[..i] + records[i + 1..], key, spf, dkim) + Sum([records[i]], key, spf, dkim)
    decreases |records|
  {
    var init, last := records[..|records| - 1], |records| - 1;
    assert [records[i]][..0] == [];
    if i == last {
      assert records[..i] + records[i + 1..] == init;
    } else {
      SumWithout(init, i, key, spf, dkim);
      assert records[..i] + records[i + 1..] == init[..i] + init[i + 1..] + [records[last]];
      SumSnoc(init[..i] + init[i + 1..], records[last], key, spf, dkim);
    }
  }

  lemma RemoveOne<T>(a: seq<T>, b: seq<T>, i: nat)
    requires multiset(a) == multiset(b) && a != [] && i < |b| && b[i] == a[|a| - 1]
    ensures multiset(a[..|a| - 1]) == multiset(b[..i] + b[i + 1..])
  {
    var init, rest, x := a[..|a| - 1], b[..i] + b[i + 1..], b[i];
    assert a == init + [x];
    assert b == b[..i] + [x] + b[i + 1..];
    assert multiset(a) - multiset{x} == multiset(init);
    assert multiset(b) - multiset{x} == multiset(rest);
  }

  lemma {:induction false} SumPermutes(a: seq<Record>, b: seq<Record>, key: Key, spf: bool, dkim: bool)
    requires multiset(a) == multiset(b)
    ensures Sum(a, key, spf, dkim) == Sum(b, key, spf, dkim)
    decreases |a|
  {
    if a == [] {
      assert |multiset(b)| == 0;
    } else {
      var init, last := a[..|a| - 1], a[|a| - 1];
      Snoc(a);
      assert last in multiset(b);
      var i :| 0 <= i < |b| && b[i] == last;
      var rest := b[..i] + b[i + 1..];
      RemoveOne(a, b, i);
      SumPermutes(init, rest, key, spf, dkim);
      SumWithout(b, i, key, spf, dkim);
      SumSnoc(init, last, key, spf, dkim);
      assert [last][..0] == [];
    }
  }

  /** The order of the records does not matter: the same streams with the same figures come out. */
  lemma OrderIsIrrelevant(a: seq<Record>, b: seq<Record>, key: Key)
    requires multiset(a) == multiset(b)
    ensures TallyOf(a, key) == TallyOf(b, key) && KeysOf(a) == KeysOf(b)
  {
    SumPermutes(a, b, key, true, true);
    SumPermutes(a, b, key, true, false);
    SumPermutes(a, b, key, false, true);
    SumPermutes(a, b, key, false, false);
    assert forall r :: r in a <==> r in multiset(a);
    assert forall r :: r in b <==> r in multiset(b);
  }

  function Total(records: seq<Record>): nat
    decreases |records|
  {
    if records == [] then 0 else Total(records[..|records| - 1]) + Count(records[|records| - 1])
  }

  /** The messages of some streams together. */
  function MessagesOver(keys: seq<Key>, records: seq<Record>): nat {
    if keys == [] then 0 else TallyOf(records, keys[0]).messages + MessagesOver(keys[1..], records)
  }

  lemma {:induction false} OverSnoc(keys: seq<Key>, records: seq<Record>, r: Record)
    requires Distinct(keys)
    ensures MessagesOver(keys, records + [r]) == MessagesOver(keys, records) + if r.key in keys then Count(r) else 0
    decreases |keys|
  {
    if keys != [] {
      TallySnoc(records, r, keys[0]);
      OverSnoc(keys[1..], records, r);
      assert forall i :: 0 <= i < |keys[1..]| ==> keys[1..][i] != keys[0];
      assert keys == [keys[0]] + keys[1..];
    }
  }

  lemma {:induction false} OverNothing(keys: seq<Key>)
    ensures MessagesOver(keys, []) == 0
    decreases |keys|
  {
    if keys != [] {
      OverNothing(keys[1..]);
    }
  }

  /** No message is lost or counted twice: the streams together hold the positive counts of all records. */
  lemma {:induction false} MessagesAreConserved(keys: seq<Key>, records: seq<Record>)
    requires Distinct(keys) && KeysOf(records) <= Elements(keys)
    ensures MessagesOver(keys, records) == Total(records)
    decreases |records|
  {
    if records == [] {
      OverNothing(keys);
    } else {
      var init, last := records[..|records| - 1], records[|records| - 1];
      Snoc(records);
      SeenSnoc(init, last, last.key);
      MessagesAreConserved(keys, init);
      OverSnoc(keys, init, last);
    }
  }
}
