/** Which certificate the edge proxy would serve a name with. */
module Certificates {
  import opened Basics
  import opened Names

  /** A certificate as the proxy lists it. An uploaded wildcard is listed without its `*.`. */
  datatype Certificate = Certificate(id: nat, niceName: string, names: seq<string>)

  function LowerChar(c: char): char {
    if 'A' <= c <= 'Z' then (c as int + 32) as char else c
  }

  function Lower(s: string): string {
    seq(|s|, i requires 0 <= i < |s| => LowerChar(s[i]))
  }

  predicate Contains(text: string, part: string) {
    exists i :: 0 <= i <= |text| - |part| && text[i..][..|part|] == part
  }

  /** The suffix the uploader puts on the display name of a wildcard. */
  predicate IsWildcard(cert: Certificate) {
    Contains(Lower(cert.niceName), "-wildcard")
  }

  predicate IsStarred(name: string) {
    "*." <= name
  }

  function Starred(name: string): string {
    "*." + name
  }

  /** A name as listed, and the wildcard it stands for when the certificate is one. */
  function OwnPatterns(name: string, wildcard: bool): set<string> {
    {Lower(name)} + if wildcard && !IsStarred(Lower(name)) then {Starred(Lower(name))} else {}
  }

  function PatternsOf(names: seq<string>, wildcard: bool): set<string>
    decreases |names|
  {
    if names == [] then {}
    else PatternsOf(names[..|names| - 1], wildcard) + OwnPatterns(names[|names| - 1], wildcard)
  }

  /** The names a certificate is good for, its wildcard put back. */
  function Patterns(cert: Certificate): set<string> {
    PatternsOf(cert.names, IsWildcard(cert))
  }

  /** The first certificate for each pattern. */
  function IndexOf(certs: seq<Certificate>): map<string, nat>
    decreases |certs|
  {
    if certs == [] then map[]
    else
      var last := certs[|certs| - 1];
      AddPatterns(IndexOf(certs[..|certs| - 1]), Patterns(last), last.id)
  }

  function SetDefault(index: map<string, nat>, key: string, id: nat): map<string, nat> {
    if key in index then index else index[key := id]
  }

  function AddPatterns(index: map<string, nat>, patterns: set<string>, id: nat): map<string, nat> {
    (map p | p in patterns :: id) + index
  }

  function SetDefaults(index: map<string, nat>, name: string, wildcard: bool, id: nat): map<string, nat> {
    var index' := SetDefault(index, Lower(name), id);
    if wildcard && !IsStarred(Lower(name)) then SetDefault(index', Starred(Lower(name)), id) else index'
  }

  lemma AddOwn(index: map<string, nat>, patterns: set<string>, name: string, wildcard: bool, id: nat)
    ensures AddPatterns(index, patterns + OwnPatterns(name, wildcard), id)
         == SetDefaults(AddPatterns(index, patterns, id), name, wildcard, id)
  {
    var a := AddPatterns(index, patterns + OwnPatterns(name, wildcard), id);
    var b := SetDefaults(AddPatterns(index, patterns, id), name, wildcard, id);
    assert a.Keys == b.Keys;
  }

  method AddCertificate(index: map<string, nat>, cert: Certificate) returns (index': map<string, nat>)
    ensures index' == AddPatterns(index, Patterns(cert), cert.id)
  {
    index' := index;
    var wildcard := IsWildcard(cert);
    for j := 0 to |cert.names|
      invariant index' == AddPatterns(index, PatternsOf(cert.names[..j], wildcard), cert.id)
    {
      hide AddPatterns, OwnPatterns, Lower, IsStarred, Starred;
      TakeSnoc(cert.names, j);
      AddOwn(index, PatternsOf(cert.names[..j], wildcard), cert.names[j], wildcard, cert.id);
      var name := Lower(cert.names[j]);
      index' := SetDefault(index', name, cert.id);
      if wildcard && !IsStarred(name) {
        index' := SetDefault(index', Starred(name), cert.id);
      }
    }
    TakeAll(cert.names);
  }

  /** The table the run looks certificates up in: each pattern with the first id that has it. */
  method CertIndex(certs: seq<Certificate>) returns (index: map<string, nat>)
    ensures index == IndexOf(certs)
  {
    index := map[];
    for i := 0 to |certs|
      invariant index == IndexOf(certs[..i])
    {
      TakeSnoc(certs, i);
      index := AddCertificate(index, certs[i]);
    }
    TakeAll(certs);
  }

  ghost predicate Provided(certs: seq<Certificate>, pattern: string) {
    exists i :: 0 <= i < |certs| && pattern in Patterns(certs[i])
  }

  /** The first certificate good for a pattern. */
  ghost predicate IsFirst(certs: seq<Certificate>, pattern: string, i: nat) {
    i < |certs| && pattern in Patterns(certs[i]) && forall j :: 0 <= j < i ==> pattern !in Patterns(certs[j])
  }

  lemma {:induction false} IndexIsFirst(certs: seq<Certificate>, pattern: string)
    ensures pattern in IndexOf(certs) <==> Provided(certs, pattern)
    ensures pattern in IndexOf(certs) ==>
              exists i: nat :: IsFirst(certs, pattern, i) && IndexOf(certs)[pattern] == certs[i].id
    decreases |certs|
  {
    if certs != [] {
      var init, last := certs[..|certs| - 1], |certs| - 1;
      IndexIsFirst(init, pattern);
      if pattern in IndexOf(init) {
        var i: nat :| IsFirst(init, pattern, i) && IndexOf(init)[pattern] == init[i].id;
        assert forall j :: 0 <= j < last ==> init[j] == certs[j];
        assert IsFirst(certs, pattern, i);
      } else {
        assert forall j :: 0 <= j < last ==> pattern !in Patterns(init[j]) && init[j] == certs[j];
        if pattern in Patterns(certs[last]) {
          assert IsFirst(certs, pattern, last);
        }
      }
    }
  }

  /** `separator.join(parts)` */
  function Join(parts: seq<string>): string
    requires parts != []
  {
    if |parts| == 1 then parts[0] else parts[0] + "." + Join(parts[1..])
  }

  function Parent(labels: seq<string>): string
    requires |labels| > 1
  {
    Join(labels[1..])
  }

  /** The certificate for a name: one listing it, or one for the wildcard one label up. */
  function Covering(index: map<string, nat>, name: string): Option<nat> {
    var host := Lower(name);
    if host in index then Some(index[host])
    else
      var labels := Split(host, '.');
      if |labels| > 2 && Starred(Parent(labels)) in index then Some(index[Starred(Parent(labels))])
      else None
  }

  // ── what covering means ──

  /** A pattern is good for a host: the same name, or a `*` standing for its first label and for no
      more (section 6.4.3 of RFC 6125), under a domain of at least two labels. */
  ghost predicate Covers(pattern: string, host: string) {
    pattern == host || exists first, parent :: WildcardFits(pattern, host, first, parent)
  }

  ghost predicate WildcardFits(pattern: string, host: string, first: string, parent: string) {
    host == first + "." + parent && '.' !in first && '.' in parent && pattern == Starred(parent)
  }

  lemma {:induction false} SplitAtDots(s: string)
    ensures Join(Split(s, '.')) == s
    ensures |Split(s, '.')| > 1 <==> '.' in s
    decreases |s|
  {
    if s != "" {
      SplitAtDots(s[1..]);
      var rest := Split(s[1..], '.');
      if s[0] == '.' {
        assert Split(s, '.')[1..] == rest;
      } else {
        var parts := Split(s, '.');
        assert parts[1..] == rest[1..];
      }
    }
  }

  lemma {:induction false} SplitFirst(first: string, parent: string)
    requires '.' !in first
    ensures Split(first + "." + parent, '.') == [first] + Split(parent, '.')
    decreases |first|
  {
    var s := first + "." + parent;
    if first == "" {
      assert s[1..] == parent;
    } else {
      assert s[1..] == first[1..] + "." + parent;
      SplitFirst(first[1..], parent);
      assert [first[0]] + first[1..] == first;
    }
  }

  /** The wildcard looked up is the only one that fits. */
  lemma OneWildcardFits(host: string, pattern: string)
    ensures (exists first, parent :: WildcardFits(pattern, host, first, parent))
       <==> |Split(host, '.')| > 2 && pattern == Starred(Parent(Split(host, '.')))
  {
    var labels := Split(host, '.');
    SplitAtDots(host);
    if first, parent :| WildcardFits(pattern, host, first, parent) {
      SplitFirst(first, parent);
      SplitAtDots(parent);
      assert labels[1..] == Split(parent, '.');
    }
    if |labels| > 2 && pattern == Starred(Parent(labels)) {
      var parent := Parent(labels);
      assert host == labels[0] + "." + parent;
      SplitFirst(labels[0], parent);
      assert Split(parent, '.') == labels[1..];
      SplitAtDots(parent);
      assert WildcardFits(pattern, host, labels[0], parent);
    }
  }

  /** Nothing is found exactly when no certificate covers the name. */
  lemma CoveredIff(certs: seq<Certificate>, name: string)
    ensures Covering(IndexOf(certs), name).None? <==>
              forall i, p :: 0 <= i < |certs| && p in Patterns(certs[i]) ==> !Covers(p, Lower(name))
  {
    hide Patterns, Lower;
    var host := Lower(name);
    var labels := Split(host, '.');
    IndexIsFirst(certs, host);
    forall p ensures Covers(p, host) <==> p == host || (|labels| > 2 && p == Starred(Parent(labels))) {
      OneWildcardFits(host, p);
    }
    if |labels| > 2 {
      IndexIsFirst(certs, Starred(Parent(labels)));
    }
    if Covering(IndexOf(certs), name).None? {
      forall i, p | 0 <= i < |certs| && p in Patterns(certs[i]) ensures !Covers(p, host) {
        assert Provided(certs, p);
      }
    } else {
      var key := if host in IndexOf(certs) then host else Starred(Parent(labels));
      assert Provided(certs, key) && Covers(key, host);
    }
  }

  /** A name is served with the first certificate that lists it. */
  lemma ExactComesFirst(certs: seq<Certificate>, name: string, i: nat)
    requires IsFirst(certs, Lower(name), i)
    ensures Covering(IndexOf(certs), name) == Some(certs[i].id)
  {
    hide Patterns, Lower;
    IndexIsFirst(certs, Lower(name));
  }

  /** A name none of them lists is served with the first one whose wildcard fits. */
  lemma WildcardComesFirst(certs: seq<Certificate>, name: string, i: nat, first: string, parent: string)
    requires !Provided(certs, Lower(name))
    requires WildcardFits(Starred(parent), Lower(name), first, parent) && IsFirst(certs, Starred(parent), i)
    ensures Covering(IndexOf(certs), name) == Some(certs[i].id)
  {
    hide Patterns, Lower;
    IndexIsFirst(certs, Lower(name));
    IndexIsFirst(certs, Starred(parent));
    OneWildcardFits(Lower(name), Starred(parent));
  }

  // ── the pieces, spelled out ──

  /** A part spelled out in lower case, found in a text in any mix of cases. */
  ghost predicate Spells(text: string, part: string) {
    exists i :: SpellsAt(text, part, i)
  }

  predicate SpellsAt(text: string, part: string, i: int) {
    0 <= i <= |text| - |part| && forall j :: 0 <= j < |part| ==>
      text[i + j] == part[j] || ('A' <= text[i + j] <= 'Z' && text[i + j] as int + 32 == part[j] as int)
  }

  predicate IsLowerCase(part: string) {
    forall j :: 0 <= j < |part| ==> !('A' <= part[j] <= 'Z')
  }

  lemma SpelledIsContained(text: string, part: string)
    requires IsLowerCase(part)
    ensures Contains(Lower(text), part) <==> Spells(text, part)
  {
    forall i: int ensures SpellsAt(text, part, i)
                     <==> 0 <= i <= |Lower(text)| - |part| && Lower(text)[i..][..|part|] == part
    {
      SpelledHere(text, part, i);
    }
  }

  lemma SpelledHere(text: string, part: string, i: int)
    requires IsLowerCase(part)
    ensures SpellsAt(text, part, i) <==> 0 <= i <= |Lower(text)| - |part| && Lower(text)[i..][..|part|] == part
  {
    if 0 <= i <= |text| - |part| {
      var here := Lower(text)[i..][..|part|];
      forall j | 0 <= j < |part| ensures here[j] == LowerChar(text[i + j]) {
      }
      forall j | 0 <= j < |part|
        ensures LowerChar(text[i + j]) == part[j] <==>
                  (text[i + j] == part[j] || ('A' <= text[i + j] <= 'Z' && text[i + j] as int + 32 == part[j] as int))
      {
      }
    }
  }

  /** A certificate's patterns are the names it lists, in lower case, and where its display name marks it as
      an uploaded wildcard, each with the `*.` back that it was listed without. */
  lemma {:induction false} PatternsAre(cert: Certificate, p: string)
    ensures p in Patterns(cert) <==>
              exists n :: n in cert.names
                && (p == Lower(n)
                    || (Spells(cert.niceName, "-wildcard") && !("*." <= Lower(n)) && p == "*." + Lower(n)))
  {
    SpelledIsContained(cert.niceName, "-wildcard");
    hide Lower, Spells, Contains;
    PatternsOfAre(cert.names, IsWildcard(cert), p);
  }

  lemma {:induction false} PatternsOfAre(names: seq<string>, wildcard: bool, p: string)
    ensures p in PatternsOf(names, wildcard) <==>
              exists n :: n in names && (p == Lower(n) || (wildcard && !("*." <= Lower(n)) && p == "*." + Lower(n)))
    decreases |names|
  {
    hide Lower;
    if names != [] {
      PatternsOfAre(names[..|names| - 1], wildcard, p);
      Snoc(names);
    }
  }

  lemma OnePattern(id: nat, nice: string, domain: string, p: string)
    requires IsLowerCase(domain)
    ensures p in IndexOf([Certificate(id, nice, [domain])]) <==>
              p == domain || (Spells(nice, "-wildcard") && !("*." <= domain) && p == "*." + domain)
    ensures p in IndexOf([Certificate(id, nice, [domain])]) ==> IndexOf([Certificate(id, nice, [domain])])[p] == id
  {
    var certs := [Certificate(id, nice, [domain])];
    assert Lower(domain) == domain;
    IndexIsFirst(certs, p);
    PatternsAre(certs[0], p);
    assert [domain][0] == domain;
    hide Lower, Patterns, Spells;
    if p in Patterns(certs[0]) {
      assert Provided(certs, p);
    }
  }

  /** A wildcard serves the names one label down whichever way it is listed: with its `*.`, or without it under
      a display name that marks it. A certificate for the bare domain serves that domain alone. */
  lemma WildcardPutBack(id: nat, nice: string, first: string, domain: string)
    requires IsLowerCase(first) && IsLowerCase(domain) && '.' !in first && '.' in domain && !("*." <= domain)
    ensures Covering(IndexOf([Certificate(id, nice, ["*." + domain])]), first + "." + domain) == Some(id)
    ensures Covering(IndexOf([Certificate(id, nice, [domain])]), domain) == Some(id)
    ensures Covering(IndexOf([Certificate(id, nice, [domain])]), first + "." + domain)
         == if Spells(nice, "-wildcard") then Some(id) else None
  {
    var host := first + "." + domain;
    assert Lower(host) == host && Lower(domain) == domain;
    var bare, starred := IndexOf([Certificate(id, nice, [domain])]), IndexOf([Certificate(id, nice, ["*." + domain])]);
    OnePattern(id, nice, domain, host);
    OnePattern(id, nice, domain, domain);
    OnePattern(id, nice, domain, "*." + domain);
    OnePattern(id, nice, "*." + domain, host);
    OnePattern(id, nice, "*." + domain, "*." + domain);
    assert WildcardFits("*." + domain, host, first, domain);
    OneWildcardFits(host, "*." + domain);
    assert |host| > |domain| && |"*." + domain| > |domain|;
    hide Lower, Spells, Split, Parent;
  }
}
