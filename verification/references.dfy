/** What becomes of a service name in each form a compose file writes one in, line by line. */
module References {
  import opened Basics
  import opened ComposeText
  import opened Relocation
  import opened Emission

  /** Line `k` belongs to the service key `key`: the nearest key four spaces in, at or above it. */
  ghost predicate StandsUnder(body: Body, k: nat, key: string)
    requires k < |body|
  {
    exists j :: 0 <= j <= k && body[j].Entry? && body[j].indent == 4 && body[j].key == key
      && forall m :: j < m <= k ==> !(body[m].Entry? && body[m].indent == 4)
  }

  /** A letter or digit, then letters, digits, underscores, dots and dashes. */
  predicate IsWord(s: string) {
    && s != "" && ('a' <= s[0] <= 'z' || 'A' <= s[0] <= 'Z' || '0' <= s[0] <= '9')
    && forall i :: 0 <= i < |s| ==>
         'a' <= s[i] <= 'z' || 'A' <= s[i] <= 'Z' || '0' <= s[i] <= '9' || s[i] == '_' || s[i] == '.' || s[i] == '-'
  }

  /** Line `k` names the service `n`, in place `i` of the names it writes. */
  ghost predicate IsReference(body: Body, k: nat, i: nat, n: string)
    requires k < |body|
  {
    match body[k]
    case Entry(_, key, Service(name)) => key == "network_mode" && i == 0 && name == n
    case Entry(_, key, Flow(names)) => key == "depends_on" && i < |names| && names[i] == n
    case Entry(_, _, Url(parts)) => i < |parts| && parts[i] == Host(n)
    case Item(_, _, Url(parts)) => i < |parts| && parts[i] == Host(n)
    case Item(_, key, Token(steps)) =>
      key == "" && i == 0 && steps == [n] && IsWord(n) && StandsUnder(body, k, "depends_on")
    case _ => false
  }

  ghost predicate HasReference(body: Body, k: nat)
    requires k < |body|
  {
    exists i: nat, n :: IsReference(body, k, i, n)
  }

  /** The key line `k` is under, where what comes before the body is under `section`. */
  function KeyAt(body: Body, section: string, k: nat): string
    requires k < |body|
  {
    if body[k].Entry? && body[k].indent == 4 then body[k].key
    else if k == 0 then section
    else KeyAt(body, section, k - 1)
  }

  lemma {:induction false} KeyAtIs(body: Body, k: nat, key: string)
    requires k < |body| && key != ""
    ensures KeyAt(body, "", k) == key <==> StandsUnder(body, k, key)
  {
    if k > 0 && !(body[k].Entry? && body[k].indent == 4) {
      KeyAtIs(body, k - 1, key);
      if StandsUnder(body, k - 1, key) {
        var j :| 0 <= j <= k - 1 && body[j].Entry? && body[j].indent == 4 && body[j].key == key
          && forall m :: j < m <= k - 1 ==> !(body[m].Entry? && body[m].indent == 4);
        assert 0 <= j <= k;
      }
    }
  }

  lemma {:induction false} KeyAtTail(body: Body, section: string, k: nat)
    requires 0 < k < |body|
    ensures KeyAt(body, section, k) == KeyAt(body[1..], Under(section, body[0]), k - 1)
  {
    assert body[1..][k - 1] == body[k];
    if k > 1 && !(body[k].Entry? && body[k].indent == 4) {
      KeyAtTail(body, section, k - 1);
    }
  }

  /** Each line is emitted by itself, under its own key. */
  lemma {:induction false} EmittedAt(body: Body, renamed: map<string, string>, rel: seq<string>, name: string,
                                     newName: string, section: string, k: nat)
    requires k < |body|
    ensures EmitBody(body, renamed, rel, name, newName, section)[k]
         == EmitLine(body[k], renamed, rel, name, newName, KeyAt(body, section, k))
    decreases k
  {
    hide EmitLine;
    if k > 0 {
      KeyAtTail(body, section, k);
      EmittedAt(body[1..], renamed, rel, name, newName, Under(section, body[0]), k - 1);
    }
  }

  lemma WordsAreNames(s: string)
    ensures IsWord(s) == IsNameLike(s)
  {
  }

  /** What a name is called once the table of renames is applied. */
  function Called(renamed: map<string, string>, n: string): string {
    if n in renamed then renamed[n] else n
  }

  // ── form by form ──

  /** A list under `depends_on:`, however far down its line is. */
  lemma ListedNamesFollow(before: Body, v: Value, lines: Body, after: Body, j: nat, indent: nat, n: string,
                          renamed: map<string, string>, rel: seq<string>, name: string, newName: string)
    requires forall m :: 0 <= m < |lines| ==> !(lines[m].Entry? && lines[m].indent == 4)
    requires j < |lines| && lines[j] == Item(indent, "", Token([n])) && IsWord(n)
    ensures var body := before + [Line.Entry(4, "depends_on", v)] + lines + after;
            EmitBody(body, renamed, rel, name, newName, "")[|before| + 1 + j]
              == Item(indent, "", Token([if n in renamed then renamed[n] else n]))
  {
    var body := before + [Line.Entry(4, "depends_on", v)] + lines + after;
    var k := |before| + 1 + j;
    UnderDependsOn(before, v, lines, after, j);
    KeyAtIs(body, k, "depends_on");
    WordsAreNames(n);
    hide StandsUnder, KeyAt, EmitBody, IsWord, IsNameLike, FixPaths;
    EmittedAt(body, renamed, rel, name, newName, "", k);
  }

  lemma UnderDependsOn(before: Body, v: Value, lines: Body, after: Body, j: nat)
    requires forall m :: 0 <= m < |lines| ==> !(lines[m].Entry? && lines[m].indent == 4)
    requires j < |lines|
    ensures var body := before + [Line.Entry(4, "depends_on", v)] + lines + after;
            body[|before| + 1 + j] == lines[j] && StandsUnder(body, |before| + 1 + j, "depends_on")
  {
    var body := before + [Line.Entry(4, "depends_on", v)] + lines + after;
    assert forall m :: 0 <= m < |lines| ==> body[|before| + 1 + m] == lines[m];
    assert body[|before|] == Line.Entry(4, "depends_on", v);
    forall m | |before| < m <= |before| + 1 + j ensures !(body[m].Entry? && body[m].indent == 4) {
      assert body[m] == lines[m - |before| - 1];
    }
  }

  /** The same word under any other key, as in a list of links or of volumes, is no reference. */
  lemma OtherListsStay(body: Body, k: nat, indent: nat, n: string, renamed: map<string, string>, rel: seq<string>,
                       name: string, newName: string)
    requires k < |body| && body[k] == Item(indent, "", Token([n])) && IsWord(n) && '.' !in n
    requires !StandsUnder(body, k, "depends_on")
    ensures EmitBody(body, renamed, rel, name, newName, "")[k] == body[k]
  {
    KeyAtIs(body, k, "depends_on");
    EmittedAt(body, renamed, rel, name, newName, "", k);
    assert n[0] != '.';
  }

  /** The forms that say for themselves what they are: an inline list, another service's network, the hosts
      of a URL. */
  lemma InlineNamesFollow(body: Body, k: nat, renamed: map<string, string>, rel: seq<string>, name: string,
                          newName: string)
    requires k < |body|
    ensures var emitted := EmitBody(body, renamed, rel, name, newName, "")[k];
            match body[k]
            case Entry(indent, "depends_on", Flow(names)) =>
              && emitted.Entry? && emitted.indent == indent && emitted.key == "depends_on" && emitted.value.Flow?
              && |emitted.value.names| == |names|
              && (forall i :: 0 <= i < |names| ==>
                    emitted.value.names[i] == if names[i] in renamed then renamed[names[i]] else names[i])
            case Entry(indent, "network_mode", Service(n)) =>
              emitted == Line.Entry(indent, "network_mode", Service(if n in renamed then renamed[n] else n))
            case Entry(indent, key, Url(parts)) =>
              emitted.Entry? && emitted.indent == indent && emitted.key == key && emitted.value.Url?
                && HostsFollow(parts, emitted.value.parts, renamed)
            case Item(indent, key, Url(parts)) =>
              emitted.Item? && emitted.indent == indent && emitted.key == key && emitted.value.Url?
                && HostsFollow(parts, emitted.value.parts, renamed)
            case _ => true
  {
    EmittedAt(body, renamed, rel, name, newName, "", k);
  }

  /** Every host of a URL is called by its new name, and the text around the hosts is as it was. */
  ghost predicate HostsFollow(parts: seq<Part>, emitted: seq<Part>, renamed: map<string, string>) {
    |emitted| == |parts| && forall i :: 0 <= i < |parts| ==>
      emitted[i] == match parts[i]
        case Host(n) => Host(if n in renamed then renamed[n] else n)
        case Raw(text) => Raw(text)
  }

  /** A container name is the service's new one if it got one, whatever it was; otherwise it travels as it is. */
  lemma ContainerNameFollows(body: Body, k: nat, indent: nat, v: Value, renamed: map<string, string>,
                             rel: seq<string>, name: string, newName: string)
    requires k < |body| && body[k] == Line.Entry(indent, "container_name", v)
    requires v.Token? || v.Mount? || v.Service?
    ensures EmitBody(body, renamed, rel, name, newName, "")[k]
         == Line.Entry(indent, "container_name", if newName == name then v else Token([newName]))
  {
    EmittedAt(body, renamed, rel, name, newName, "", k);
  }

  /** A line that is no container name and names no service only has its paths moved, as the key it is
      under says. */
  lemma OthersAreMoved(body: Body, k: nat, renamed: map<string, string>, rel: seq<string>, name: string,
                       newName: string)
    requires k < |body| && !HasReference(body, k)
    requires !(body[k].Entry? && body[k].key == "container_name")
    ensures EmitBody(body, renamed, rel, name, newName, "")[k] == FixPaths(body[k], rel, KeyAt(body, "", k))
  {
    EmittedAt(body, renamed, rel, name, newName, "", k);
    KeyAtIs(body, k, "depends_on");
    var line := body[k];
    match line {
      case Entry(_, _, Service(n)) => assert IsReference(body, k, 0, n) <==> line.key == "network_mode";
      case Entry(_, _, Flow(names)) =>
        if names != [] {
          assert IsReference(body, k, 0, names[0]) <==> line.key == "depends_on";
        }
      case Entry(_, _, Url(parts)) => NoHostsStay(body, k, parts, renamed);
      case Item(_, _, Url(parts)) => NoHostsStay(body, k, parts, renamed);
      case Item(_, _, Token(steps)) =>
        if |steps| == 1 {
          WordsAreNames(steps[0]);
          assert steps == [steps[0]];
          assert !IsReference(body, k, 0, steps[0]);
        }
      case _ =>
    }
  }

  lemma NoHostsStay(body: Body, k: nat, parts: seq<Part>, renamed: map<string, string>)
    requires k < |body| && !HasReference(body, k)
    requires (body[k].Entry? || body[k].Item?) && body[k].value == Url(parts)
    ensures RenamedParts(renamed, parts) == parts
  {
    forall i | 0 <= i < |parts| ensures RenamedParts(renamed, parts)[i] == parts[i] {
      if parts[i].Host? {
        assert IsReference(body, k, i, parts[i].name);
      }
    }
  }

  // ── all forms at once ──

  lemma EmittedKeepsKeys(body: Body, renamed: map<string, string>, rel: seq<string>, name: string, newName: string,
                         k: nat, key: string)
    requires k < |body|
    ensures StandsUnder(EmitBody(body, renamed, rel, name, newName, ""), k, key) <==> StandsUnder(body, k, key)
  {
    hide EmitBody;
    EmitBodyForm(body, renamed, rel, name, newName, "");
    var emitted := EmitBody(body, renamed, rel, name, newName, "");
    forall m | 0 <= m < |body|
      ensures body[m].Entry? == emitted[m].Entry?
      ensures body[m].Entry? ==> emitted[m].indent == body[m].indent && emitted[m].key == body[m].key
    {
      assert SameForm(body[m], emitted[m]);
    }
    if StandsUnder(body, k, key) {
      var j :| 0 <= j <= k && body[j].Entry? && body[j].indent == 4 && body[j].key == key
        && forall m :: j < m <= k ==> !(body[m].Entry? && body[m].indent == 4);
      assert emitted[j].Entry?;
    }
    if StandsUnder(emitted, k, key) {
      var j :| 0 <= j <= k && emitted[j].Entry? && emitted[j].indent == 4 && emitted[j].key == key
        && forall m :: j < m <= k ==> !(emitted[m].Entry? && emitted[m].indent == 4);
      assert body[j].Entry?;
    }
  }

  /** A name written in any of the forms is written in the same place of the emitted body, by its new name. */
  lemma ReferenceFollows(body: Body, renamed: map<string, string>, rel: seq<string>, name: string, newName: string,
                         k: nat, i: nat, n: string)
    requires KeepsNames(renamed)
    requires k < |body| && IsReference(body, k, i, n)
    ensures IsReference(EmitBody(body, renamed, rel, name, newName, ""), k, i, Called(renamed, n))
  {
    EmittedAt(body, renamed, rel, name, newName, "", k);
    EmittedKeepsKeys(body, renamed, rel, name, newName, k, "depends_on");
    KeyAtIs(body, k, "depends_on");
    WordsAreNames(n);
    WordsAreNames(Called(renamed, n));
  }
}
