/**
  Compose files as classified lines, and the two readers of them: the generator's
  and the drift checker's. Both go by indentation, and they do not read the same things.
 */
module ComposeText {
  import opened Basics
  import opened Dicts

  /** A piece of a value that carries a URL: a host name, or the text around one. */
  datatype Part = Host(name: string) | Raw(text: string)

  datatype Value =
    | Nothing                                  // `key:` with nothing after it
    | Flow(names: seq<string>)                 // `[a, b]`
    | Service(name: string)                    // `service:a`
    | Url(parts: seq<Part>)                    // anything holding `//`
    | Token(steps: seq<string>)                // one word, split at `/`
    | Mount(source: seq<string>, rest: string) // `source:rest`, the source split at `/`
    | Scalar(text: string)                     // any other text

  datatype Line =
    | Blank
    | Comment(indent: nat, text: string)
    | Entry(indent: nat, key: string, value: Value)  // `key: value`
    | Item(indent: nat, key: string, value: Value)   // `- value`, `- key: value`
    | Text(indent: nat, text: string)

  type Body = seq<Line>

  predicate IsLetterOrDigit(c: char) {
    'a' <= c <= 'z' || 'A' <= c <= 'Z' || '0' <= c <= '9'
  }

  /** A key at the left margin: it opens a top-level section. */
  predicate IsTopKey(line: Line) {
    line.Entry? && line.indent == 0
  }

  /** A key two spaces in: under `services:` it opens a service. */
  predicate IsChildKey(line: Line) {
    line.Entry? && line.indent == 2 && line.key != "" && IsLetterOrDigit(line.key[0])
  }

  /** A key four spaces in: it opens one of a service's own keys. */
  predicate IsOwnKey(line: Line) {
    line.Entry? && line.indent == 4
  }

  predicate IsExtension(name: string) {
    "x-" <= name
  }

  // ── the generator's reader ──

  datatype Reading = Reading(inServices: bool, service: Option<string>, services: Dict<string, Body>)

  function ReadLine(r: Reading, line: Line): Reading {
    if IsTopKey(line) then Reading(line.key == "services", None, r.services)
    else if r.inServices && IsChildKey(line) then
      Reading(true, Some(line.key), Put(r.services, line.key, []))
    else if r.inServices && r.service.Some? && Has(r.services, r.service.value) then
      r.(services := Put(r.services, r.service.value, Get(r.services, r.service.value) + [line]))
    else r
  }

  function ReadAll(r: Reading, lines: seq<Line>): Reading
    decreases |lines|
  {
    if lines == [] then r else ReadAll(ReadLine(r, lines[0]), lines[1..])
  }

  const START := Reading(false, None, [])

  /** The services the generator finds in a file, in order. */
  function Services(lines: seq<Line>): Dict<string, Body> {
    ReadAll(START, lines).services
  }

  lemma {:induction false} ReadAllConcat(r: Reading, a: seq<Line>, b: seq<Line>)
    ensures ReadAll(r, a + b) == ReadAll(ReadAll(r, a), b)
    decreases |a|
  {
    if a == [] {
      assert a + b == b;
    } else {
      ConcatTail(a, b);
      ReadAllConcat(ReadLine(r, a[0]), a[1..], b);
    }
  }

  lemma ReadOneMore(r: Reading, lines: seq<Line>, i: nat)
    requires i < |lines|
    ensures ReadAll(r, lines[..i + 1]) == ReadLine(ReadAll(r, lines[..i]), lines[i])
  {
    TakeSnoc(lines, i);
    ReadAllConcat(r, lines[..i], [lines[i]]);
    assert ReadAll(ReadAll(r, lines[..i]), [lines[i]]) == ReadLine(ReadAll(r, lines[..i]), lines[i]);
  }

  /** The generator's pass over a file: one service at a time, a duplicate starting over. */
  method Read(lines: seq<Line>) returns (services: Dict<string, Body>)
    ensures services == Services(lines)
  {
    services := [];
    var inServices := false;
    var service: Option<string> := None;
    for i := 0 to |lines|
      invariant Reading(inServices, service, services) == ReadAll(START, lines[..i])
      invariant inServices && service.Some? ==> Has(services, service.value)
    {
      ReadOneMore(START, lines, i);
      var line := lines[i];
      if IsTopKey(line) {
        inServices := line.key == "services";
        service := None;
        continue;
      }
      if inServices {
        if IsChildKey(line) {
          service := Some(line.key);
          GetPut(services, line.key, [], line.key);
          services := Put(services, line.key, []);
          continue;
        }
        if service.Some? {
          var body := Get(services, service.value);
          GetPut(services, service.value, body + [line], service.value);
          services := Put(services, service.value, body + [line]);
        }
        continue;
      }
    }
    TakeAll(lines);
  }

  // ── the checker's reader ──

  datatype Parsing = Parsing(inServices: bool, done: bool, current: Option<string>,
                             inProfiles: bool, services: map<string, bool>)

  /** Text at the left margin that is not a comment: the services are over. */
  predicate AtMargin(line: Line) {
    !line.Blank? && !line.Comment? && line.indent == 0
  }

  predicate IsServicesKey(line: Line) {
    IsTopKey(line) && line.key == "services" && line.value == Nothing
  }

  predicate IsBareChildKey(line: Line) {
    IsChildKey(line) && line.value == Nothing
  }

  function ParseLine(p: Parsing, line: Line): Parsing {
    if p.done then p
    else if IsServicesKey(line) then p.(inServices := true, current := None)
    else if p.inServices && AtMargin(line) then p.(done := true)
    else if !p.inServices then p
    else if IsBareChildKey(line) then
      var declared := if IsExtension(line.key) then p.services
                      else p.services[line.key := GetOr(p.services, line.key, false)];
      p.(current := Some(line.key), inProfiles := false, services := declared)
    else if p.current == None || IsExtension(p.current.value) then p
    else if IsOwnKey(line) && line.key == "profiles" && line.value.Flow? then
      p.(inProfiles := false, services := p.services[p.current.value := line.value.names != []])
    else if IsOwnKey(line) && line.key == "profiles" && line.value == Nothing then
      p.(inProfiles := true, services := p.services[p.current.value := true])
    else if p.inProfiles && line.Item? && line.indent >= 6 then
      p.(services := p.services[p.current.value := true])
    else if p.inProfiles && !line.Blank? && !line.Comment? then p.(inProfiles := false)
    else p
  }

  function ParseAll(p: Parsing, lines: seq<Line>): Parsing
    decreases |lines|
  {
    if lines == [] then p else ParseAll(ParseLine(p, lines[0]), lines[1..])
  }

  const UNREAD := Parsing(false, false, None, false, map[])

  /** The services the checker finds in a file, each with whether a profile gates it. */
  function Declared(lines: seq<Line>): map<string, bool> {
    ParseAll(UNREAD, lines).services
  }

  lemma {:induction false} ParseAllConcat(p: Parsing, a: seq<Line>, b: seq<Line>)
    ensures ParseAll(p, a + b) == ParseAll(ParseAll(p, a), b)
    decreases |a|
  {
    if a == [] {
      assert a + b == b;
    } else {
      ConcatTail(a, b);
      ParseAllConcat(ParseLine(p, a[0]), a[1..], b);
    }
  }

  lemma ParseOneMore(p: Parsing, lines: seq<Line>, i: nat)
    requires i < |lines|
    ensures ParseAll(p, lines[..i + 1]) == ParseLine(ParseAll(p, lines[..i]), lines[i])
  {
    TakeSnoc(lines, i);
    ParseAllConcat(p, lines[..i], [lines[i]]);
    assert ParseAll(ParseAll(p, lines[..i]), [lines[i]]) == ParseLine(ParseAll(p, lines[..i]), lines[i]);
  }

  lemma {:induction false} ParseDone(p: Parsing, lines: seq<Line>)
    requires p.done
    ensures ParseAll(p, lines) == p
    decreases |lines|
  {
    if lines != [] {
      ParseDone(p, lines[1..]);
    }
  }

  /** The checker's pass over a file, leaving at the first thing after the services. */
  method ParseServices(lines: seq<Line>) returns (services: map<string, bool>)
    ensures services == Declared(lines)
  {
    services := map[];
    var inServices, inProfiles := false, false;
    var current: Option<string> := None;
    var i := 0;
    while i < |lines|
      invariant 0 <= i <= |lines|
      invariant Parsing(inServices, false, current, inProfiles, services) == ParseAll(UNREAD, lines[..i])
      invariant current.Some? && !IsExtension(current.value) ==> current.value in services
    {
      ParseOneMore(UNREAD, lines, i);
      var line := lines[i];
      i := i + 1;
      if IsServicesKey(line) {
        inServices := true;
        current := None;
        continue;
      }
      if inServices && AtMargin(line) {
        assert lines == lines[..i] + lines[i..];
        ParseAllConcat(UNREAD, lines[..i], lines[i..]);
        ParseDone(ParseAll(UNREAD, lines[..i]), lines[i..]);
        return;
      }
      if !inServices {
        continue;
      }
      if IsBareChildKey(line) {
        current := Some(line.key);
        inProfiles := false;
        if !IsExtension(line.key) {
          services := services[line.key := if line.key in services then services[line.key] else false];
        }
        continue;
      }
      if current == None || IsExtension(current.value) {
        continue;
      }
      if IsOwnKey(line) && line.key == "profiles" && line.value.Flow? {
        services := services[current.value := line.value.names != []];
        inProfiles := false;
        continue;
      }
      if IsOwnKey(line) && line.key == "profiles" && line.value == Nothing {
        services := services[current.value := true];
        inProfiles := true;
        continue;
      }
      if inProfiles {
        if line.Item? && line.indent >= 6 {
          services := services[current.value := true];
          continue;
        }
        if !line.Blank? && !line.Comment? {
          inProfiles := false;
        }
      }
    }
    TakeAll(lines);
  }
}
