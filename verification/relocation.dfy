/** Rewriting a repo's relative paths for a file that is read from another directory. */
module Relocation {
  import opened Basics
  import opened ComposeText
  import opened Paths

  // ── what counts as a path ──

  predicate IsWordChar(c: char) {
    IsLetterOrDigit(c) || c == '_'
  }

  predicate IsNameChar(c: char) {
    IsWordChar(c) || c == '.' || c == '-'
  }

  /** `[A-Za-z0-9_][A-Za-z0-9_-]*`, after at most one leading dot. */
  predicate IsStem(s: string) {
    var stem := if s != "" && s[0] == '.' then s[1..] else s;
    stem != "" && IsWordChar(stem[0]) && forall i :: 0 <= i < |stem| ==> IsWordChar(stem[i]) || stem[i] == '-'
  }

  /** A name ending in `.` and letters or digits, given what has to stand before that. */
  predicate HasExtension(s: string, wholeStem: bool) {
    exists p :: 0 < p < |s| - 1 && s[p] == '.'
      && (forall i :: p < i < |s| ==> IsLetterOrDigit(s[i]))
      && (if wholeStem then IsStem(s[..p]) else forall i :: 0 <= i < p ==> IsNameChar(s[i]))
  }

  predicate AllNameChars(steps: seq<string>) {
    forall i, j :: 0 <= i < |steps| && 0 <= j < |steps[i]| ==> IsNameChar(steps[i][j])
  }

  /** Does a word read as a path: dots and a name, steps of name characters with a dotted last one, a dotfile? */
  predicate IsPathish(steps: seq<string>) {
    || (|steps| > 1 && steps[0] in [".", ".."] && steps[1] != "" && IsWordChar(steps[1][0]) && AllNameChars(steps[1..]))
    || (|steps| == 1 && HasExtension(steps[0], true))
    || (|steps| > 1 && IsStem(steps[0]) && AllNameChars(steps[1..]) && (forall i :: 1 <= i < |steps| ==> steps[i] != "")
        && HasExtension(steps[|steps| - 1], false))
    || (|steps| == 1 && |steps[0]| > 1 && steps[0][0] == '.' && IsWordChar(steps[0][1]) && AllNameChars(steps))
  }

  /** A path that starts elsewhere: at the root, in a variable, in a home directory. */
  predicate IsAnchored(steps: seq<string>) {
    steps != [] && (if steps[0] == "" then |steps| > 1 else steps[0][0] in "$<~")
  }

  /** `./x` or `../x`, with something after the slash. */
  predicate IsExplicit(steps: seq<string>) {
    |steps| > 1 && steps[0] in [".", ".."] && (|steps| > 2 || steps[1] != "")
  }

  predicate IsDots(steps: seq<string>) {
    steps == ["."] || steps == [".."]
  }

  /** Keys whose value is resolved against the file that declares it. */
  predicate IsFileRelativeKey(key: string) {
    key in ["build", "context", "env_file", "extends", "file", "device"]
  }

  /** The `key:` of a `- key: value` item whose value may be a host path. */
  predicate IsListedPathKey(key: string) {
    key in ["path", "file", "source", "device", "context"]
  }

  /** Service keys under which every path is one inside the container. */
  predicate IsContainerSection(section: string) {
    section in ["command", "entrypoint", "healthcheck", "working_dir", "environment", "labels", "user", "hostname",
                "ulimits"]
  }

  // ── the rewrite ──

  /** `..` twice out of the generated file's directory, then down to the repo. */
  function Rel(group: string, repo: string): seq<string> {
    ["..", "..", group, repo]
  }

  /** `rel/./x` collapses to `rel/x`. */
  function UnderRepo(rel: seq<string>, steps: seq<string>): seq<string> {
    if steps != [] && steps[0] == "." then rel + steps[1..] else rel + steps
  }

  /** Does the line hold a path the rewrite recognises? */
  predicate IsRelocated(line: Line, section: string) {
    !IsContainerSection(section) &&
    match line
    case Entry(_, key, Token(steps)) =>
      IsExplicit(steps)
      || (IsFileRelativeKey(key) && (IsDots(steps) || (!IsAnchored(steps) && IsPathish(steps))))
    case Item(_, key, Token(steps)) =>
      IsExplicit(steps)
      || ((key == "" || IsListedPathKey(key)) && (IsDots(steps) || (!IsAnchored(steps) && IsPathish(steps))))
    case Item(_, key, Mount(source, _)) => IsExplicit(source) || (key == "" && IsDots(source))
    case Entry(_, _, Mount(source, _)) => IsExplicit(source)
    case _ => false
  }

  function SetValue(line: Line, value: Value): Line
    requires line.Entry? || line.Item?
  {
    match line
    case Entry(indent, key, _) => Line.Entry(indent, key, value)
    case Item(indent, key, _) => Line.Item(indent, key, value)
  }

  function MoveValue(rel: seq<string>, value: Value): Value {
    match value
    case Token(steps) => Token(UnderRepo(rel, steps))
    case Mount(source, rest) => Mount(UnderRepo(rel, source), rest)
    case _ => value
  }

  /** `fix_paths`, for one line under one of its service's keys. */
  function FixPaths(line: Line, rel: seq<string>, section: string): Line {
    if IsRelocated(line, section) then SetValue(line, MoveValue(rel, line.value)) else line
  }

  /** The host path a line carries, if it is in a form that carries one. */
  function HostPath(line: Line): Option<seq<string>> {
    match line
    case Entry(_, _, Token(steps)) => Some(steps)
    case Item(_, _, Token(steps)) => Some(steps)
    case Entry(_, _, Mount(source, _)) => Some(source)
    case Item(_, _, Mount(source, _)) => Some(source)
    case _ => None
  }

  // ── the meaning ──

  /** Where generated files live, and where a repo does, under the estate's root. */
  function GroupsDir(root: Path): Path {
    root + ["ips", "groups"]
  }

  function RepoDir(root: Path, group: string, repo: string): Path {
    root + [group, repo]
  }

  /** Read from the generated file, the prefixed path is the path read from the repo. */
  lemma PrefixMeansRepo(root: Path, group: string, repo: string, steps: seq<string>)
    requires Plain(group) && Plain(repo)
    ensures Resolve(GroupsDir(root), Rel(group, repo) + steps) == Resolve(RepoDir(root, group, repo), steps)
  {
    var at := GroupsDir(root);
    var rel := Rel(group, repo);
    ResolveConcat(at, rel, steps);
    assert rel[1..] == ["..", group, repo] && rel[1..][1..] == [group, repo] && [group, repo][1..] == [repo];
    var up := Step(at, "..");
    assert up == root + ["ips"];
    assert Step(up, "..") == root;
    assert root + [group] + [repo] == root + [group, repo];
    calc {
      Resolve(at, rel);
      Resolve(up, ["..", group, repo]);
      Resolve(root, [group, repo]);
      Resolve(root + [group], [repo]);
      Resolve(root + [group] + [repo], []);
    }
  }

  /** A rewritten path means from the generated file what the original meant from its repo;
      a line with no recognised path is left as it was. */
  lemma FixPathsKeepsMeaning(line: Line, root: Path, group: string, repo: string, section: string)
    requires Plain(group) && Plain(repo)
    ensures var fixed := FixPaths(line, Rel(group, repo), section);
            if IsRelocated(line, section)
            then HostPath(line).Some? && HostPath(fixed).Some?
              && Resolve(GroupsDir(root), HostPath(fixed).value)
                 == Resolve(RepoDir(root, group, repo), HostPath(line).value)
            else fixed == line
  {
    if IsRelocated(line, section) {
      var steps := HostPath(line).value;
      if steps != [] && steps[0] == "." {
        PrefixMeansRepo(root, group, repo, steps[1..]);
        assert Resolve(RepoDir(root, group, repo), steps) == Resolve(RepoDir(root, group, repo), steps[1..]);
      } else {
        PrefixMeansRepo(root, group, repo, steps);
      }
    }
  }

  /** A plain relative path keeps its meaning exactly when the rewrite recognises it. A bare
      directory (`build: app`) and a bare bind source (`- .env:/x`) are the forms it misses. */
  lemma PlainPathsMove(line: Line, root: Path, group: string, repo: string, section: string)
    requires Plain(group) && Plain(repo) && group != "ips"
    requires HostPath(line).Some?
    requires forall i :: 0 <= i < |HostPath(line).value| ==> Plain(HostPath(line).value[i])
    ensures var fixed := FixPaths(line, Rel(group, repo), section);
            IsRelocated(line, section) <==>
              HostPath(fixed).Some?
                && Resolve(GroupsDir(root), HostPath(fixed).value)
                   == Resolve(RepoDir(root, group, repo), HostPath(line).value)
  {
    FixPathsKeepsMeaning(line, root, group, repo, section);
    var steps := HostPath(line).value;
    ResolvePlain(GroupsDir(root), steps);
    ResolvePlain(RepoDir(root, group, repo), steps);
    assert (GroupsDir(root) + steps)[|root|] == "ips";
    assert (RepoDir(root, group, repo) + steps)[|root|] == group;
  }

  /** A value inside the container is never touched. */
  lemma ContainerPathsStay(line: Line, rel: seq<string>, section: string)
    requires IsContainerSection(section)
    ensures FixPaths(line, rel, section) == line
  {
  }

  /** A path anchored at the root, a variable or a home directory is never touched. */
  lemma AnchoredPathsStay(line: Line, rel: seq<string>, section: string)
    requires HostPath(line).Some? && IsAnchored(HostPath(line).value)
    ensures FixPaths(line, rel, section) == line
  {
  }

  /** A `dockerfile:` is relative to its build context, and is left alone exactly when it is not
      spelled `./x` or `../x`: that spelling is moved like any other. */
  lemma DockerfileStays(indent: nat, steps: seq<string>, group: string, repo: string, section: string)
    requires !IsContainerSection(section)
    ensures var line := Line.Entry(indent, "dockerfile", Token(steps));
            FixPaths(line, Rel(group, repo), section) == line <==> !IsExplicit(steps)
  {
    var rel := Rel(group, repo);
    if IsExplicit(steps) {
      assert |UnderRepo(rel, steps)| > |steps|;
    }
  }

  /** The forms the rewrite misses do occur: a context named by its directory alone. */
  lemma BareContextIsMissed(group: string, repo: string)
    ensures !IsRelocated(Line.Entry(4, "build", Token(["app"])), "build")
    ensures !IsRelocated(Line.Item(6, "", Mount([".env"], "/app/.env")), "volumes")
  {
    assert "app"[0] == 'a' && "app"[1] == 'p' && "app"[2] == 'p';
  }
}
