/** Emitting a repo's service under its new name, with every reference following. */
module Emission {
  import opened Basics
  import opened Dicts
  import opened ComposeText
  import opened Relocation
  import opened Rendering

  /** A word that can be a service name in a list item. */
  predicate IsNameLike(s: string) {
    s != "" && IsLetterOrDigit(s[0]) && forall i :: 0 <= i < |s| ==> IsNameChar(s[i])
  }

  function Renamed(renamed: map<string, string>, name: string): string {
    GetOr(renamed, name, name)
  }

  function RenamedAll(renamed: map<string, string>, names: seq<string>): (result: seq<string>)
    ensures |result| == |names|
  {
    seq(|names|, i requires 0 <= i < |names| => Renamed(renamed, names[i]))
  }

  function RenamedParts(renamed: map<string, string>, parts: seq<Part>): (result: seq<Part>)
    ensures |result| == |parts|
  {
    seq(|parts|, i requires 0 <= i < |parts| =>
      match parts[i]
      case Host(name) => Host(Renamed(renamed, name))
      case Raw(_) => parts[i])
  }

  predicate IsContainerName(line: Line) {
    line.Entry? && line.key == "container_name" && (line.value.Token? || line.value.Mount? || line.value.Service?)
  }

  predicate IsNetworkMode(line: Line) {
    line.Entry? && line.key == "network_mode" && line.value.Service?
  }

  predicate IsInlineDepends(line: Line) {
    line.Entry? && line.key == "depends_on" && line.value.Flow?
  }

  predicate IsListedDepends(line: Line, section: string) {
    && section == "depends_on" && line.Item? && line.key == "" && line.value.Token?
    && |line.value.steps| == 1 && IsNameLike(line.value.steps[0])
  }

  predicate HasUrl(line: Line) {
    (line.Entry? || line.Item?) && line.value.Url?
  }

  /** `repl`: one line of a service emitted as `newName`, under one of its keys. */
  function EmitLine(line: Line, renamed: map<string, string>, rel: seq<string>, name: string, newName: string,
                    section: string): Line
  {
    if IsContainerName(line) then
      if newName != name then SetValue(line, Token([newName])) else line
    else if IsNetworkMode(line) then SetValue(line, Service(Renamed(renamed, line.value.name)))
    else if IsInlineDepends(line) then SetValue(line, Flow(RenamedAll(renamed, line.value.names)))
    else if IsListedDepends(line, section) then SetValue(line, Token([Renamed(renamed, line.value.steps[0])]))
    else if HasUrl(line) then SetValue(line, Url(RenamedParts(renamed, line.value.parts)))
    else FixPaths(line, rel, section)
  }

  /** The service key a line is under, once the line itself is read. */
  function Under(section: string, line: Line): string {
    if IsOwnKey(line) then line.key else section
  }

  function EmitBody(body: Body, renamed: map<string, string>, rel: seq<string>, name: string, newName: string,
                    section: string): (emitted: Body)
    ensures |emitted| == |body|
    decreases |body|
  {
    if body == [] then []
    else
      var under := Under(section, body[0]);
      [EmitLine(body[0], renamed, rel, name, newName, under)]
        + EmitBody(body[1..], renamed, rel, name, newName, under)
  }

  // ── the references a body makes ──

  function Hosts(parts: seq<Part>): seq<string>
    decreases |parts|
  {
    if parts == [] then []
    else (if parts[0].Host? then [parts[0].name] else []) + Hosts(parts[1..])
  }

  /** The service names a line refers to, in the forms the rewrite supports. */
  function LineRefs(line: Line, section: string): seq<string> {
    if IsContainerName(line) then []
    else if IsNetworkMode(line) then [line.value.name]
    else if IsInlineDepends(line) then line.value.names
    else if IsListedDepends(line, section) then [line.value.steps[0]]
    else if HasUrl(line) then Hosts(line.value.parts)
    else []
  }

  function Refs(body: Body, section: string): seq<string>
    decreases |body|
  {
    if body == [] then []
    else
      var under := Under(section, body[0]);
      LineRefs(body[0], under) + Refs(body[1..], under)
  }

  /** The names a mapping-form `depends_on` lists: keys two deeper than the service's own. */
  function MappingRefs(body: Body, section: string): seq<string>
    decreases |body|
  {
    if body == [] then []
    else
      var under := Under(section, body[0]);
      (if under == "depends_on" && body[0].Entry? && body[0].indent == 6 then [body[0].key] else [])
        + MappingRefs(body[1..], under)
  }

  lemma {:induction false} HostsRenamed(parts: seq<Part>, renamed: map<string, string>)
    ensures Hosts(RenamedParts(renamed, parts)) == RenamedAll(renamed, Hosts(parts))
    decreases |parts|
  {
    if parts != [] {
      assert RenamedParts(renamed, parts)[1..] == RenamedParts(renamed, parts[1..]);
      HostsRenamed(parts[1..], renamed);
    }
  }

  /** A renaming that keeps names usable as names. */
  ghost predicate KeepsNames(renamed: map<string, string>) {
    forall n :: n in renamed && IsNameLike(n) ==> IsNameLike(renamed[n])
  }

  /** A relocated path is never mistaken for a service name. */
  lemma FixPathsIsNoRef(line: Line, rel: seq<string>, section: string)
    requires |rel| > 1
    requires !IsContainerName(line) && !IsNetworkMode(line) && !IsInlineDepends(line)
    requires !IsListedDepends(line, section) && !HasUrl(line)
    ensures LineRefs(FixPaths(line, rel, section), section) == []
  {
  }

  /** Emitting rewrites a line's references and nothing else about them. */
  lemma EmitLineRefs(line: Line, renamed: map<string, string>, rel: seq<string>, name: string, newName: string,
                     section: string)
    requires KeepsNames(renamed) && |rel| > 1
    ensures LineRefs(EmitLine(line, renamed, rel, name, newName, section), section)
         == RenamedAll(renamed, LineRefs(line, section))
    ensures Under(section, EmitLine(line, renamed, rel, name, newName, section)) == Under(section, line)
  {
    if HasUrl(line) && !IsContainerName(line) && !IsNetworkMode(line) && !IsInlineDepends(line)
       && !IsListedDepends(line, section) {
      HostsRenamed(line.value.parts, renamed);
    } else if LineRefs(line, section) == [] && !IsContainerName(line) && !IsInlineDepends(line) {
      FixPathsIsNoRef(line, rel, section);
    }
  }

  lemma RenamedAllConcat(renamed: map<string, string>, a: seq<string>, b: seq<string>)
    ensures RenamedAll(renamed, a + b) == RenamedAll(renamed, a) + RenamedAll(renamed, b)
  {
  }

  /** Rewriting is a homomorphism: the references of the emitted body are the renamed references. */
  lemma {:induction false} EmittedRefs(body: Body, renamed: map<string, string>, rel: seq<string>,
                                       name: string, newName: string, section: string)
    requires KeepsNames(renamed) && |rel| > 1
    ensures Refs(EmitBody(body, renamed, rel, name, newName, section), section)
         == RenamedAll(renamed, Refs(body, section))
    decreases |body|
  {
    if body != [] {
      var under := Under(section, body[0]);
      var emitted := EmitBody(body, renamed, rel, name, newName, section);
      EmitLineRefs(body[0], renamed, rel, name, newName, under);
      EmittedRefs(body[1..], renamed, rel, name, newName, under);
      assert emitted[1..] == EmitBody(body[1..], renamed, rel, name, newName, under);
      assert Under(section, emitted[0]) == under;
      RenamedAllConcat(renamed, LineRefs(body[0], under), Refs(body[1..], under));
    }
  }

  lemma {:induction false} MappingRefsStay(body: Body, renamed: map<string, string>, rel: seq<string>,
                                           name: string, newName: string, section: string)
    ensures MappingRefs(EmitBody(body, renamed, rel, name, newName, section), section) == MappingRefs(body, section)
    decreases |body|
  {
    if body != [] {
      var under := Under(section, body[0]);
      var emitted := EmitBody(body, renamed, rel, name, newName, section);
      MappingRefsStay(body[1..], renamed, rel, name, newName, under);
      assert emitted[1..] == EmitBody(body[1..], renamed, rel, name, newName, under);
      EmitLineForm(body[0], renamed, rel, name, newName, under);
    }
  }

  /** Mapping-form dependencies are carried over as they are written, so they follow their services
      exactly when none of them is renamed. */
  lemma EmittedMappingRefs(body: Body, renamed: map<string, string>, rel: seq<string>,
                           name: string, newName: string)
    ensures MappingRefs(EmitBody(body, renamed, rel, name, newName, ""), "")
              == RenamedAll(renamed, MappingRefs(body, ""))
            <==> forall n :: n in MappingRefs(body, "") ==> Renamed(renamed, n) == n
  {
    MappingRefsStay(body, renamed, rel, name, newName, "");
    var refs := MappingRefs(body, "");
    if refs == RenamedAll(renamed, refs) {
      forall n | n in refs ensures Renamed(renamed, n) == n {
        var i :| 0 <= i < |refs| && refs[i] == n;
        assert RenamedAll(renamed, refs)[i] == Renamed(renamed, refs[i]);
      }
    }
  }

  /** A line that refers to no renamed service, is no container name and carries no recognised
      path comes out as it went in. */
  lemma OtherLinesStay(line: Line, renamed: map<string, string>, rel: seq<string>, name: string, newName: string,
                       section: string)
    requires forall n :: n in LineRefs(line, section) ==> Renamed(renamed, n) == n
    requires !IsContainerName(line) || newName == name
    requires !IsRelocated(line, section) || LineRefs(line, section) != []
    ensures EmitLine(line, renamed, rel, name, newName, section) == line
  {
    if IsInlineDepends(line) {
      assert RenamedAll(renamed, line.value.names) == line.value.names;
    } else if HasUrl(line) && !IsContainerName(line) && !IsNetworkMode(line) && !IsListedDepends(line, section) {
      HostsIn(line.value.parts);
      assert RenamedParts(renamed, line.value.parts) == line.value.parts;
    }
  }

  lemma {:induction false} HostsIn(parts: seq<Part>)
    ensures forall i :: 0 <= i < |parts| && parts[i].Host? ==> parts[i].name in Hosts(parts)
    decreases |parts|
  {
    if parts != [] {
      HostsIn(parts[1..]);
      forall i | 0 <= i < |parts| && parts[i].Host? ensures parts[i].name in Hosts(parts) {
        if i > 0 {
          assert parts[1..][i - 1] == parts[i];
        }
      }
    }
  }

  // ── what emission keeps ──

  /** Two lines of one form: same kind, same place, same key. */
  predicate SameForm(a: Line, b: Line) {
    match a
    case Blank => b.Blank?
    case Comment(_, _) => a == b
    case Text(_, _) => a == b
    case Entry(indent, key, _) => b.Entry? && b.indent == indent && b.key == key
    case Item(indent, key, _) => b.Item? && b.indent == indent && b.key == key
  }

  lemma EmitLineForm(line: Line, renamed: map<string, string>, rel: seq<string>, name: string, newName: string,
                     section: string)
    ensures SameForm(line, EmitLine(line, renamed, rel, name, newName, section))
    ensures IsOwnKey(line) && line.key == "profiles" ==>
              (line.value.Flow? || line.value == Nothing ==>
                 EmitLine(line, renamed, rel, name, newName, section) == line)
              && (!line.value.Flow? && line.value != Nothing ==>
                    var v := EmitLine(line, renamed, rel, name, newName, section).value; !v.Flow? && v != Nothing)
  {
  }

  lemma {:induction false} EmitBodyForm(body: Body, renamed: map<string, string>, rel: seq<string>,
                                        name: string, newName: string, section: string)
    ensures var emitted := EmitBody(body, renamed, rel, name, newName, section);
            forall i :: 0 <= i < |body| ==>
              && SameForm(body[i], emitted[i])
              && (IsOwnKey(body[i]) && body[i].key == "profiles" ==>
                    (body[i].value.Flow? || body[i].value == Nothing ==> emitted[i] == body[i])
                    && (!body[i].value.Flow? && body[i].value != Nothing ==>
                          !emitted[i].value.Flow? && emitted[i].value != Nothing))
    decreases |body|
  {
    if body != [] {
      var under := Under(section, body[0]);
      var emitted := EmitBody(body, renamed, rel, name, newName, section);
      EmitLineForm(body[0], renamed, rel, name, newName, under);
      EmitBodyForm(body[1..], renamed, rel, name, newName, under);
      forall i | 1 <= i < |body|
        ensures SameForm(body[i], emitted[i])
        ensures IsOwnKey(body[i]) && body[i].key == "profiles" ==>
                  (body[i].value.Flow? || body[i].value == Nothing ==> emitted[i] == body[i])
                  && (!body[i].value.Flow? && body[i].value != Nothing ==>
                        !emitted[i].value.Flow? && emitted[i].value != Nothing)
      {
        assert body[1..][i - 1] == body[i];
      }
    }
  }

  lemma {:induction false} SameFormGate(a: Body, b: Body)
    requires |a| == |b|
    requires forall i :: 0 <= i < |a| ==>
               && SameForm(a[i], b[i])
               && (IsOwnKey(a[i]) && a[i].key == "profiles" ==>
                     (a[i].value.Flow? || a[i].value == Nothing ==> b[i] == a[i])
                     && (!a[i].value.Flow? && a[i].value != Nothing ==> !b[i].value.Flow? && b[i].value != Nothing))
    ensures Gated(a) == Gated(b)
    decreases |a|
  {
    if a != [] {
      SameFormGate(a[..|a| - 1], b[..|b| - 1]);
    }
  }

  /** Emission keeps a service's gate, and keeps its body a body. */
  lemma EmissionKeeps(body: Body, renamed: map<string, string>, rel: seq<string>, name: string, newName: string)
    ensures Gated(EmitBody(body, renamed, rel, name, newName, "")) == Gated(body)
    ensures (forall i :: 0 <= i < |body| ==> StaysInBody(body[i])) ==>
              forall i :: 0 <= i < |body| ==> StaysInBody(EmitBody(body, renamed, rel, name, newName, "")[i])
  {
    EmitBodyForm(body, renamed, rel, name, newName, "");
    SameFormGate(body, EmitBody(body, renamed, rel, name, newName, ""));
  }
}
