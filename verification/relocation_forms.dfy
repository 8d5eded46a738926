/** Which written paths of a compose file are moved with it, form by form. */
module RelocationForms {
  import opened Basics
  import opened ComposeText
  import opened Relocation

  /** A section of a service whose values are the host's business. */
  predicate IsHostSection(section: string) {
    section !in ["command", "entrypoint", "healthcheck", "working_dir", "environment", "labels", "user", "hostname",
                 "ulimits"]
  }

  /** A key whose value compose reads as a path from the file it stands in. */
  predicate IsPathKey(key: string) {
    key in ["build", "context", "env_file", "extends", "file", "device"]
  }

  /** The same for the `key:` of a list item; a plain item has none. */
  predicate IsItemKey(key: string) {
    key in ["", "path", "file", "source", "device", "context"]
  }

  predicate IsWord(c: char) {
    'a' <= c <= 'z' || 'A' <= c <= 'Z' || '0' <= c <= '9' || c == '_'
  }

  /** A step of a path: word characters, dots and dashes. */
  predicate IsStep(s: string) {
    s != "" && forall i :: 0 <= i < |s| ==> IsWord(s[i]) || s[i] == '.' || s[i] == '-'
  }

  /** A name without dots. */
  predicate IsBare(s: string) {
    s != "" && IsWord(s[0]) && forall i :: 0 <= i < |s| ==> IsWord(s[i]) || s[i] == '-'
  }

  predicate IsEnding(s: string) {
    s != "" && forall i :: 0 <= i < |s| ==> IsWord(s[i]) && s[i] != '_'
  }

  /** The path a relative one becomes: out of the generated file's directory and down to the repo. */
  function Moved(group: string, repo: string, steps: seq<string>): seq<string> {
    ["..", "..", group, repo] + if steps != [] && steps[0] == "." then steps[1..] else steps
  }

  /** An entry and an item that hold the steps of a path and nothing else. */
  ghost predicate EntryMoves(key: string, steps: seq<string>, group: string, repo: string, section: string) {
    forall indent: nat ::
      FixPaths(Line.Entry(indent, key, Token(steps)), Rel(group, repo), section)
        == Line.Entry(indent, key, Token(Moved(group, repo, steps)))
  }

  ghost predicate EntryStays(key: string, steps: seq<string>, group: string, repo: string, section: string) {
    forall indent: nat ::
      FixPaths(Line.Entry(indent, key, Token(steps)), Rel(group, repo), section)
        == Line.Entry(indent, key, Token(steps))
  }

  ghost predicate ItemMoves(key: string, steps: seq<string>, group: string, repo: string, section: string) {
    forall indent: nat ::
      FixPaths(Line.Item(indent, key, Token(steps)), Rel(group, repo), section)
        == Line.Item(indent, key, Token(Moved(group, repo, steps)))
  }

  ghost predicate ItemStays(key: string, steps: seq<string>, group: string, repo: string, section: string) {
    forall indent: nat ::
      FixPaths(Line.Item(indent, key, Token(steps)), Rel(group, repo), section) == Line.Item(indent, key, Token(steps))
  }

  /** The keys that count decide alike for every path that is read as one by its form alone. */
  ghost predicate MovesByKey(steps: seq<string>, group: string, repo: string, section: string) {
    && (forall key :: IsPathKey(key) ==> EntryMoves(key, steps, group, repo, section))
    && (forall key :: !IsPathKey(key) ==> EntryStays(key, steps, group, repo, section))
    && (forall key :: IsItemKey(key) ==> ItemMoves(key, steps, group, repo, section))
    && (forall key :: !IsItemKey(key) ==> ItemStays(key, steps, group, repo, section))
  }

  lemma ByKey(steps: seq<string>, group: string, repo: string, section: string)
    requires IsHostSection(section) && !IsExplicit(steps)
    requires IsDots(steps) || (!IsAnchored(steps) && IsPathish(steps))
    ensures MovesByKey(steps, group, repo, section)
  {
    hide IsPathish, IsExplicit, IsDots, IsAnchored;
  }

  /** `./x` and `../x` are moved under any key, as are the sources of mounts so written. */
  lemma ExplicitMoves(dots: string, steps: seq<string>, rest: string, key: string, group: string, repo: string,
                      section: string)
    requires IsHostSection(section) && (dots == "." || dots == "..") && steps != [] && steps != [""]
    ensures EntryMoves(key, [dots] + steps, group, repo, section)
    ensures ItemMoves(key, [dots] + steps, group, repo, section)
    ensures forall indent: nat ::
              FixPaths(Line.Item(indent, key, Mount([dots] + steps, rest)), Rel(group, repo), section)
                == Line.Item(indent, key, Mount(Moved(group, repo, [dots] + steps), rest))
    ensures forall indent: nat ::
              FixPaths(Line.Entry(indent, key, Mount([dots] + steps, rest)), Rel(group, repo), section)
                == Line.Entry(indent, key, Mount(Moved(group, repo, [dots] + steps), rest))
  {
    assert ([dots] + steps)[0] == dots && ([dots] + steps)[1..] == steps;
    assert |steps| == 1 ==> steps == [steps[0]];
  }

  /** With nothing after the slash neither is, under any key. */
  lemma BareSlashStays(dots: string, rest: string, key: string, group: string, repo: string, section: string)
    requires dots == "." || dots == ".."
    ensures EntryStays(key, [dots, ""], group, repo, section) && ItemStays(key, [dots, ""], group, repo, section)
    ensures forall indent: nat ::
              FixPaths(Line.Item(indent, key, Mount([dots, ""], rest)), Rel(group, repo), section)
                == Line.Item(indent, key, Mount([dots, ""], rest))
  {
  }

  /** `.` and `..` are moved under the keys that count, and as the source of a plain item's mount. */
  lemma DotsMove(dots: string, rest: string, group: string, repo: string, section: string)
    requires IsHostSection(section) && (dots == "." || dots == "..")
    ensures MovesByKey([dots], group, repo, section)
    ensures forall indent: nat ::
              FixPaths(Line.Item(indent, "", Mount([dots], rest)), Rel(group, repo), section)
                == Line.Item(indent, "", Mount(Moved(group, repo, [dots]), rest))
    ensures forall indent: nat, key :: key != "" ==>
              FixPaths(Line.Item(indent, key, Mount([dots], rest)), Rel(group, repo), section)
                == Line.Item(indent, key, Mount([dots], rest))
  {
    ByKey([dots], group, repo, section);
  }

  lemma BareIsStem(s: string)
    requires IsBare(s)
    ensures s[0] != '.' && IsStem(s)
  {
    assert forall i :: 0 <= i < |s| ==> IsWord(s[i]) == IsWordChar(s[i]);
  }

  lemma Extended(stem: string, ending: string)
    requires IsBare(stem) && IsEnding(ending)
    ensures HasExtension(stem + "." + ending, true)
  {
    var s, p := stem + "." + ending, |stem|;
    assert s[p] == '.' && s[..p] == stem;
    BareIsStem(stem);
    forall i | p < i < |s| ensures IsLetterOrDigit(s[i]) {
      assert s[i] == ending[i - p - 1];
    }
  }

  lemma ExtendedDir(stem: string, ending: string)
    requires IsStep(stem) && IsEnding(ending)
    ensures HasExtension(stem + "." + ending, false)
  {
    var s, p := stem + "." + ending, |stem|;
    assert s[p] == '.' && s[..p] == stem;
    forall i | p < i < |s| ensures IsLetterOrDigit(s[i]) {
      assert s[i] == ending[i - p - 1];
    }
    assert forall i :: 0 <= i < p ==> s[i] == stem[i] && IsNameChar(s[i]);
  }

  /** A file with an extension, by itself or under directories, is moved under the keys that count. */
  lemma FilesMove(dirs: seq<string>, stem: string, ending: string, group: string, repo: string, section: string)
    requires IsHostSection(section) && IsEnding(ending)
    requires if dirs == [] then IsBare(stem) else IsBare(dirs[0]) && IsStep(stem)
    requires forall i :: 0 <= i < |dirs| ==> IsStep(dirs[i])
    ensures MovesByKey(dirs + [stem + "." + ending], group, repo, section)
  {
    var file := stem + "." + ending;
    var steps := dirs + [file];
    if dirs == [] {
      Extended(stem, ending);
      assert file[0] == stem[0];
    } else {
      ExtendedDir(stem, ending);
      BareIsStem(dirs[0]);
      forall i, j | 0 <= i < |steps[1..]| && 0 <= j < |steps[1..][i]| ensures IsNameChar(steps[1..][i][j]) {
        StepChars(stem, ending, j);
        if i + 1 < |dirs| {
          assert steps[1..][i] == dirs[i + 1];
        }
      }
      forall i | 1 <= i < |steps| ensures steps[i] != "" {
        if i < |dirs| {
          assert steps[i] == dirs[i];
        }
      }
      assert steps[|steps| - 1] == file;
    }
    hide HasExtension, IsStem;
    assert !IsExplicit(steps) && !IsAnchored(steps) && IsPathish(steps);
    ByKey(steps, group, repo, section);
  }

  lemma StepChars(stem: string, ending: string, j: nat)
    requires IsStep(stem) && IsEnding(ending)
    ensures var file := stem + "." + ending; j < |file| ==> IsNameChar(file[j])
  {
  }

  /** A dotfile is too. */
  lemma DotfilesMove(name: string, group: string, repo: string, section: string)
    requires IsHostSection(section) && IsStep(name) && IsWord(name[0])
    ensures MovesByKey(["." + name], group, repo, section)
  {
    var steps := ["." + name];
    assert steps[0][0] == '.' && steps[0][1] == name[0];
    forall i, j | 0 <= i < |steps| && 0 <= j < |steps[i]| ensures IsNameChar(steps[i][j]) {
      assert j > 0 ==> steps[i][j] == name[j - 1];
    }
    ByKey(steps, group, repo, section);
  }

  /** Directories named without a dot are left where they are, whatever the key and however deep. */
  lemma BareNamesStay(steps: seq<string>, key: string, group: string, repo: string, section: string)
    requires steps != [] && forall i :: 0 <= i < |steps| ==> IsBare(steps[i])
    ensures EntryStays(key, steps, group, repo, section) && ItemStays(key, steps, group, repo, section)
  {
    forall i | 0 <= i < |steps| ensures !HasExtension(steps[i], true) && !HasExtension(steps[i], false) {
      assert forall p :: 0 <= p < |steps[i]| ==> steps[i][p] != '.';
    }
    assert steps[0][0] != '.';
  }

  /** So is every path from the root, from a variable or from a home directory, */
  lemma AnchoredStay(first: string, rest: seq<string>, key: string, group: string, repo: string, section: string)
    requires (first == "" && rest != []) || (first != "" && first[0] in ['$', '<', '~'])
    ensures EntryStays(key, [first] + rest, group, repo, section)
    ensures ItemStays(key, [first] + rest, group, repo, section)
  {
    var steps := [first] + rest;
    assert steps[0] == first;
    assert IsAnchored(steps);
    assert first != "." && first != "..";
  }

  /** and every mount of something not written from `.` or `..`, */
  lemma OtherMountsStay(line: Line, group: string, repo: string, section: string)
    requires (line.Entry? || line.Item?) && line.value.Mount?
    requires line.value.source == [] || (line.value.source[0] != "." && line.value.source[0] != "..")
    ensures FixPaths(line, Rel(group, repo), section) == line
  {
  }

  /** and every line of a section that is the container's business. */
  lemma ContainerLinesStay(line: Line, group: string, repo: string, section: string)
    requires !IsHostSection(section)
    ensures FixPaths(line, Rel(group, repo), section) == line
  {
  }

  /** Lines that hold no path by themselves are never touched. */
  lemma OtherValuesStay(line: Line, group: string, repo: string, section: string)
    requires (line.Entry? || line.Item?) ==> !line.value.Token? && !line.value.Mount?
    ensures FixPaths(line, Rel(group, repo), section) == line
  {
  }
}
