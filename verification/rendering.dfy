/** A services section written out, and what each reader gets back from it. */
module Rendering {
  import opened Basics
  import opened Dicts
  import opened ComposeText

  function Block(name: string, body: Body): seq<Line> {
    [Line.Entry(2, name, Nothing)] + body
  }

  function Blocks(services: Dict<string, Body>): seq<Line>
    decreases |services|
  {
    if services == [] then []
    else Blocks(services[..|services| - 1]) + Block(services[|services| - 1].key, services[|services| - 1].value)
  }

  const SERVICES_KEY := Line.Entry(0, "services", Nothing)

  /** A compose file: anything, then the services, with a gap before the first of them, then anything. */
  function Document(head: seq<Line>, gap: seq<Line>, services: Dict<string, Body>, tail: seq<Line>): seq<Line> {
    head + [SERVICES_KEY] + gap + Blocks(services) + tail
  }

  predicate StaysInBody(line: Line) {
    !IsTopKey(line) && !IsChildKey(line) && !AtMargin(line)
  }

  ghost predicate WellFormed(services: Dict<string, Body>) {
    && UniqueKeys(services)
    && (forall i :: 0 <= i < |services| ==> IsChildKey(Line.Entry(2, services[i].key, Nothing)))
    && (forall i, j :: 0 <= i < |services| && 0 <= j < |services[i].value| ==> StaysInBody(services[i].value[j]))
  }

  ghost predicate HasNoServices(lines: seq<Line>) {
    forall i :: 0 <= i < |lines| ==> !(IsTopKey(lines[i]) && lines[i].key == "services")
  }

  /** No second services section, a gap of comments, blank lines and the like, and nothing between the
      services and the next section. */
  ghost predicate WellFramed(head: seq<Line>, gap: seq<Line>, tail: seq<Line>) {
    && HasNoServices(head) && HasNoServices(tail)
    && (forall i :: 0 <= i < |gap| ==> StaysInBody(gap[i]))
    && (tail != [] ==> IsTopKey(tail[0]))
  }

  /** Is a body behind a profile? Its last `profiles:` decides, an inline one by being nonempty. */
  predicate Gated(body: Body)
    decreases |body|
  {
    if body == [] then false
    else
      var last := body[|body| - 1];
      if IsOwnKey(last) && last.key == "profiles" && last.value.Flow? then last.value.names != []
      else if IsOwnKey(last) && last.key == "profiles" && last.value == Nothing then true
      else Gated(body[..|body| - 1])
  }

  /** What the checker should find: every service that is not an extension, with its gate. */
  function Gates(services: Dict<string, Body>): map<string, bool>
    decreases |services|
  {
    if services == [] then map[]
    else
      var init, last := services[..|services| - 1], services[|services| - 1];
      if IsExtension(last.key) then Gates(init) else Gates(init)[last.key := Gated(last.value)]
  }

  lemma {:induction false} GatesAre(services: Dict<string, Body>)
    requires UniqueKeys(services)
    ensures forall n :: n in Gates(services) <==> Has(services, n) && !("x-" <= n)
    ensures forall n :: n in Gates(services) ==> Gates(services)[n] == Gated(Get(services, n))
    decreases |services|
  {
    if services != [] {
      var init, last := services[..|services| - 1], services[|services| - 1];
      GatesAre(init);
      Snoc(services);
      forall n ensures Has(services, n) <==> Has(init, n) || n == last.key {
        if Has(init, n) {
          assert services[Find(init, n)].key == n;
        }
        if n == last.key {
          assert services[|services| - 1].key == n;
        }
      }
      forall n | Has(init, n) ensures n != last.key && Get(services, n) == Get(init, n) {
        assert services[Find(init, n)].key == n;
        GetAt(services, Find(init, n));
      }
      GetAt(services, |services| - 1);
    }
  }

  // ── the generator's round trip ──

  lemma {:induction false} ReadHead(lines: seq<Line>)
    requires HasNoServices(lines)
    ensures ReadAll(START, lines) == START
    decreases |lines|
  {
    if lines != [] {
      ReadHead(lines[1..]);
    }
  }

  lemma {:induction false} ReadTail(r: Reading, lines: seq<Line>)
    requires !r.inServices
    requires HasNoServices(lines)
    ensures ReadAll(r, lines).services == r.services
    decreases |lines|
  {
    if lines != [] {
      ReadTail(ReadLine(r, lines[0]), lines[1..]);
    }
  }

  lemma {:induction false} ReadGap(gap: seq<Line>)
    requires forall i :: 0 <= i < |gap| ==> StaysInBody(gap[i])
    ensures ReadAll(Reading(true, None, []), gap) == Reading(true, None, [])
    decreases |gap|
  {
    if gap != [] {
      ReadGap(gap[1..]);
    }
  }

  /** Reading a body appends its lines to the service being read, which is the last one. */
  lemma {:induction false} ReadBody(before: Dict<string, Body>, name: string, read: Body, body: Body)
    requires !Has(before, name)
    requires forall j :: 0 <= j < |body| ==> StaysInBody(body[j])
    ensures ReadAll(Reading(true, Some(name), before + [Dicts.Entry(name, read)]), body)
         == Reading(true, Some(name), before + [Dicts.Entry(name, read + body)])
    decreases |body|
  {
    var services := before + [Dicts.Entry(name, read)];
    if body == [] {
      assert read + body == read;
    } else {
      assert services[|before|].key == name;
      assert Find(services, name) == |before|;
      assert services[|before| := Dicts.Entry(name, read + [body[0]])]
          == before + [Dicts.Entry(name, read + [body[0]])];
      ReadBody(before, name, read + [body[0]], body[1..]);
      assert read + [body[0]] + body[1..] == read + body;
    }
  }

  lemma {:induction false} ReadBlocks(services: Dict<string, Body>)
    requires WellFormed(services)
    ensures ReadAll(Reading(true, None, []), Blocks(services)).services == services
    ensures ReadAll(Reading(true, None, []), Blocks(services)).inServices
    decreases |services|
  {
    var atStart := Reading(true, None, []);
    if services != [] {
      var init, last := services[..|services| - 1], services[|services| - 1];
      ReadBlocks(init);
      var r := ReadAll(atStart, Blocks(init));
      ReadAllConcat(atStart, Blocks(init), Block(last.key, last.value));
      Snoc(services);
      forall i | 0 <= i < |init| ensures init[i].key != last.key {
        assert services[i].key != services[|init|].key;
      }
      assert Block(last.key, last.value)[1..] == last.value;
      ReadBody(init, last.key, [], last.value);
      assert [] + last.value == last.value;
    }
  }

  /** What the generator reads from a written-out document is what was written. */
  lemma ReadDocument(head: seq<Line>, gap: seq<Line>, services: Dict<string, Body>, tail: seq<Line>)
    requires WellFormed(services) && WellFramed(head, gap, tail)
    ensures Services(Document(head, gap, services, tail)) == services
  {
    ReadHead(head);
    ReadGap(gap);
    ReadBlocks(services);
    var atStart := Reading(true, None, []);
    assert ReadAll(START, [SERVICES_KEY]) == atStart by {
      assert [SERVICES_KEY][1..] == [];
      assert ReadLine(START, SERVICES_KEY) == atStart;
    }
    ReadAllConcat(START, head + [SERVICES_KEY] + gap + Blocks(services), tail);
    ReadAllConcat(START, head + [SERVICES_KEY] + gap, Blocks(services));
    ReadAllConcat(START, head + [SERVICES_KEY], gap);
    ReadAllConcat(START, head, [SERVICES_KEY]);
    var r := ReadAll(atStart, Blocks(services));
    if tail != [] {
      ReadTail(ReadLine(r, tail[0]), tail[1..]);
    }
  }

  // ── a service declared twice ──

  /** Services that can be written out, a name being allowed to come back. */
  ghost predicate AreBlocks(services: Dict<string, Body>) {
    && (forall i :: 0 <= i < |services| ==> IsChildKey(Line.Entry(2, services[i].key, Nothing)))
    && (forall i, j :: 0 <= i < |services| && 0 <= j < |services[i].value| ==> StaysInBody(services[i].value[j]))
  }

  lemma PutTwice(d: Dict<string, Body>, name: string, a: Body, b: Body)
    ensures Has(Put(d, name, a), name) && Get(Put(d, name, a), name) == a
    ensures Put(Put(d, name, a), name, b) == Put(d, name, b)
  {
    GetPut(d, name, a, name);
    if Has(d, name) {
      var e := Put(d, name, a);
      assert forall i :: 0 <= i < |d| ==> e[i].key == d[i].key;
      assert Find(e, name) == Find(d, name);
    } else {
      assert Find(d + [Dicts.Entry(name, a)], name) == |d|;
    }
  }

  lemma {:induction false} ReadAgain(d: Dict<string, Body>, name: string, read: Body, body: Body)
    requires forall j :: 0 <= j < |body| ==> StaysInBody(body[j])
    ensures ReadAll(Reading(true, Some(name), Put(d, name, read)), body)
         == Reading(true, Some(name), Put(d, name, read + body))
    decreases |body|
  {
    if body == [] {
      assert read + body == read;
    } else {
      PutTwice(d, name, read, read + [body[0]]);
      ReadAgain(d, name, read + [body[0]], body[1..]);
      assert read + [body[0]] + body[1..] == read + body;
      hide Put, Get, Has;
    }
  }

  /** Of a name that comes back, what the generator reads is the last body alone. */
  lemma {:induction false} ReadRepeats(services: Dict<string, Body>, n: string)
    requires AreBlocks(services)
    ensures var read := ReadAll(Reading(true, None, []), Blocks(services));
            && read.inServices && (Has(read.services, n) <==> Has(services, n))
            && (Has(services, n) ==> Has(read.services, n) && Get(read.services, n) == Get(services, n))
    decreases |services|
  {
    if services != [] {
      var atStart := Reading(true, None, []);
      var init, last := services[..|services| - 1], services[|services| - 1];
      ReadRepeats(init, n);
      var r := ReadAll(atStart, Blocks(init));
      ReadAllConcat(atStart, Blocks(init), Block(last.key, last.value));
      assert Block(last.key, last.value)[1..] == last.value;
      ReadAgain(r.services, last.key, [], last.value);
      assert [] + last.value == last.value;
      GetPut(r.services, last.key, last.value, n);
      Snoc(services);
      LastWins(init, last, n);
      hide Put, Get, Has, Block, Blocks;
    }
  }

  lemma LastWins(init: Dict<string, Body>, last: Dicts.Entry<string, Body>, n: string)
    ensures Has(init + [last], n) <==> Has(init, n) || n == last.key
    ensures Has(init + [last], last.key) && Get(init + [last], last.key) == last.value
    ensures Has(init, n) && n != last.key ==> Get(init + [last], n) == Get(init, n)
  {
    var d := init + [last];
    assert d[|init|] == last;
    if Has(init, n) {
      assert d[Find(init, n)].key == n;
    }
    if Has(init, n) && n != last.key {
      assert Find(d, n) == Find(init, n);
    }
  }

  // ── the checker's round trip ──

  lemma {:induction false} ParseHead(lines: seq<Line>)
    requires HasNoServices(lines)
    ensures ParseAll(UNREAD, lines) == UNREAD
    decreases |lines|
  {
    if lines != [] {
      ParseHead(lines[1..]);
    }
  }

  lemma {:induction false} ParseGap(gap: seq<Line>)
    requires forall i :: 0 <= i < |gap| ==> StaysInBody(gap[i])
    ensures ParseAll(Parsing(true, false, None, false, map[]), gap) == Parsing(true, false, None, false, map[])
    decreases |gap|
  {
    if gap != [] {
      ParseGap(gap[1..]);
    }
  }

  /** The state after part of a body: the gate is the one that part has. */
  ghost predicate Reads(p: Parsing, before: map<string, bool>, name: string, gate: bool) {
    && p.inServices && !p.done && p.current == Some(name)
    && (if IsExtension(name) then p.services == before else p.services == before[name := gate])
    && (p.inProfiles && !IsExtension(name) ==> gate)
  }

  lemma ParseBodyLine(p: Parsing, before: map<string, bool>, name: string, body: Body, last: Line)
    requires Reads(p, before, name, Gated(body)) && StaysInBody(last)
    ensures Reads(ParseLine(p, last), before, name, Gated(body + [last]))
  {
    assert (body + [last])[..|body|] == body;
    assert !IsExtension(name) ==> p.services[name := true] == before[name := true];
    assert !IsExtension(name) ==> p.services[name := false] == before[name := false];
  }

  lemma {:induction false} ParseBody(p: Parsing, before: map<string, bool>, name: string, body: Body)
    requires Reads(p, before, name, false) && !p.inProfiles
    requires forall j :: 0 <= j < |body| ==> StaysInBody(body[j])
    ensures Reads(ParseAll(p, body), before, name, Gated(body))
    decreases |body|
  {
    if body != [] {
      var init, last := body[..|body| - 1], body[|body| - 1];
      Snoc(body);
      ParseBody(p, before, name, init);
      ParseAllConcat(p, init, [last]);
      var q := ParseAll(p, init);
      assert ParseAll(q, [last]) == ParseLine(q, last) by {
        assert [last][1..] == [];
      }
      ParseBodyLine(q, before, name, init, last);
    }
  }

  lemma {:induction false} ParseBlocks(services: Dict<string, Body>)
    requires WellFormed(services)
    ensures ParseAll(Parsing(true, false, None, false, map[]), Blocks(services)).services == Gates(services)
    ensures ParseAll(Parsing(true, false, None, false, map[]), Blocks(services)).inServices
    ensures !ParseAll(Parsing(true, false, None, false, map[]), Blocks(services)).done
    decreases |services|
  {
    var atStart := Parsing(true, false, None, false, map[]);
    if services != [] {
      var init, last := services[..|services| - 1], services[|services| - 1];
      ParseBlocks(init);
      GatesAre(init);
      forall i | 0 <= i < |init| ensures init[i].key != last.key {
        assert services[i].key != services[|init|].key;
      }
      assert last.key !in Gates(init);
      var p := ParseAll(atStart, Blocks(init));
      ParseAllConcat(atStart, Blocks(init), Block(last.key, last.value));
      assert Block(last.key, last.value)[1..] == last.value;
      var q := ParseLine(p, Line.Entry(2, last.key, Nothing));
      assert IsChildKey(Line.Entry(2, services[|init|].key, Nothing));
      assert Reads(q, Gates(init), last.key, false);
      ParseBody(q, Gates(init), last.key, last.value);
    }
  }

  /** What the checker declares for a written-out document is each service with its gate. */
  lemma ParseDocument(head: seq<Line>, gap: seq<Line>, services: Dict<string, Body>, tail: seq<Line>)
    requires WellFormed(services) && WellFramed(head, gap, tail)
    ensures Declared(Document(head, gap, services, tail)) == Gates(services)
  {
    ParseHead(head);
    ParseGap(gap);
    ParseBlocks(services);
    var atStart := Parsing(true, false, None, false, map[]);
    assert ParseAll(UNREAD, [SERVICES_KEY]) == atStart by {
      assert [SERVICES_KEY][1..] == [];
      assert ParseLine(UNREAD, SERVICES_KEY) == atStart;
    }
    ParseAllConcat(UNREAD, head + [SERVICES_KEY] + gap + Blocks(services), tail);
    ParseAllConcat(UNREAD, head + [SERVICES_KEY] + gap, Blocks(services));
    ParseAllConcat(UNREAD, head + [SERVICES_KEY], gap);
    ParseAllConcat(UNREAD, head, [SERVICES_KEY]);
    var p := ParseAll(atStart, Blocks(services));
    if tail != [] {
      ParseDone(ParseLine(p, tail[0]), tail[1..]);
    }
  }

  // ── one service, as it is written ──

  /** A line that can stand in a service: blank, or four spaces in or more. */
  predicate IsDeep(line: Line) {
    line.Blank? || line.indent >= 4
  }

  /** Two spaces and a name that starts with a letter or a digit open a service, for both readers; what is
      further in is its body. The checker knows no service whose name starts with `x-`. */
  lemma OneService(name: string, body: Body)
    requires name != "" && ('a' <= name[0] <= 'z' || 'A' <= name[0] <= 'Z' || '0' <= name[0] <= '9')
    requires forall j :: 0 <= j < |body| ==> IsDeep(body[j])
    ensures var file := [Line.Entry(0, "services", Nothing), Line.Entry(2, name, Nothing)] + body;
            && Services(file) == [Dicts.Entry(name, body)]
            && Declared(file) == if "x-" <= name then map[] else map[name := Gated(body)]
  {
    var services := [Dicts.Entry(name, body)];
    OneWritten(name, body);
    assert WellFormed(services) && WellFramed([], [], []);
    hide WellFormed, WellFramed, Document, Services, Declared, Gates, Gated;
    ReadDocument([], [], services, []);
    ParseDocument([], [], services, []);
  }

  lemma OneWritten(name: string, body: Body)
    ensures Document([], [], [Dicts.Entry(name, body)], [])
         == [Line.Entry(0, "services", Nothing), Line.Entry(2, name, Nothing)] + body
    ensures Gates([Dicts.Entry(name, body)]) == if "x-" <= name then map[] else map[name := Gated(body)]
  {
    var services := [Dicts.Entry(name, body)];
    assert services[..0] == [];
    assert Blocks(services) == [Line.Entry(2, name, Nothing)] + body;
    assert Gates([]) == map[];
  }

  // ── what gates a service ──

  /** A `profiles:` of the service itself: an inline list, or a list on the lines below. */
  predicate IsProfiles(line: Line) {
    line.Entry? && line.indent == 4 && line.key == "profiles" && (line.value.Flow? || line.value == Nothing)
  }

  ghost predicate IsLastProfiles(body: Body, k: nat) {
    k < |body| && IsProfiles(body[k]) && forall j :: k < j < |body| ==> !IsProfiles(body[j])
  }

  /** A service is behind a profile exactly when its last `profiles:` is anything but an empty inline list. */
  lemma {:induction false} GatedIff(body: Body)
    ensures Gated(body) <==>
              exists k: nat :: IsLastProfiles(body, k) && !(body[k].value.Flow? && body[k].value.names == [])
    decreases |body|
  {
    if body != [] {
      var init, last := body[..|body| - 1], |body| - 1;
      GatedIff(init);
      assert IsProfiles(body[last]) <==> IsLastProfiles(body, last);
      forall k: nat
        ensures k < last && !IsProfiles(body[last]) ==> (IsLastProfiles(init, k) <==> IsLastProfiles(body, k))
        ensures IsProfiles(body[last]) && IsLastProfiles(body, k) ==> k == last
      {
      }
    }
  }
}
