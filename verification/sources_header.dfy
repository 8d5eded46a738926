/** The `# Sources:` header of a generated file: what the generator writes and the checker reads back. */
module SourcesHeader {
  import opened Basics
  import opened Names
  import opened ComposeText
  import opened Relocation

  // ── words ──

  /** White space, to `strip()` and to `\s`. */
  predicate IsSpace(c: char) {
    || '\t' <= c <= '\r' || '\U{1C}' <= c <= ' ' || c == '\U{85}' || c == '\U{A0}' || c == '\U{1680}'
    || '\U{2000}' <= c <= '\U{200A}' || c in ['\U{2028}', '\U{2029}', '\U{202F}', '\U{205F}', '\U{3000}']
  }

  predicate IsDigit(c: char) {
    '0' <= c <= '9'
  }

  function SkipSpace(s: string): (rest: string)
    ensures |rest| <= |s|
  {
    if s != "" && IsSpace(s[0]) then SkipSpace(s[1..]) else s
  }

  function TrimEnd(s: string): string
    decreases |s|
  {
    if s != "" && IsSpace(s[|s| - 1]) then TrimEnd(s[..|s| - 1]) else s
  }

  /** `s.strip()` */
  function Strip(s: string): string {
    TrimEnd(SkipSpace(s))
  }

  /** How many characters of a name a text starts with. */
  function NameEnd(s: string): (n: nat)
    ensures n <= |s|
  {
    if s != "" && IsNameChar(s[0]) then 1 + NameEnd(s[1..]) else 0
  }

  predicate IsName(s: string) {
    s != "" && forall i :: 0 <= i < |s| ==> IsNameChar(s[i])
  }

  /** A number, a dash and more: the name of a group's directory. */
  predicate IsGroupId(s: string) {
    exists k :: 0 < k < |s| - 1 && s[k] == '-' && forall i :: 0 <= i < k ==> IsDigit(s[i])
  }

  // ── reading ──

  /** The words between commas, stripped, the empty ones left out. */
  function Stripped(words: seq<string>): seq<string> {
    if words == [] then []
    else (if Strip(words[0]) == "" then [] else [Strip(words[0])]) + Stripped(words[1..])
  }

  function FileNames(text: string): seq<string> {
    Stripped(Split(text, ','))
  }

  /** One line of the header, after its `#`: spaces, the group's directory, the repo, its files. */
  function ReadEntry(text: string): Option<(string, seq<string>)> {
    var body := SkipSpace(text);
    var n := NameEnd(body);
    if |body| == |text| || !IsGroupId(body[..n]) || n == |body| || body[n] != '/' then None
    else
      var rest := body[n + 1..];
      var m := NameEnd(rest);
      if m == 0 || m == |rest| || rest[m] != '/' || m + 1 == |rest| || IsSpace(rest[m + 1]) then None
      else Some((rest[..m], FileNames(rest[m + 1..])))
  }

  predicate IsTitle(line: Line) {
    line.Comment? && TrimEnd(line.text) == " Sources:"
  }

  function EntryOf(line: Line): Option<(string, seq<string>)> {
    if line.Comment? && line.indent == 0 then ReadEntry(line.text) else None
  }

  /** The entries under the title, up to the first line that is none. */
  function EntriesFrom(lines: seq<Line>, inside: bool): seq<(string, seq<string>)> {
    if lines == [] then []
    else if IsTitle(lines[0]) then EntriesFrom(lines[1..], true)
    else if !inside then EntriesFrom(lines[1..], false)
    else match EntryOf(lines[0])
      case None => []
      case Some(entry) => [entry] + EntriesFrom(lines[1..], true)
  }

  function HeaderEntries(lines: seq<Line>): seq<(string, seq<string>)> {
    EntriesFrom(lines, false)
  }

  // ── writing ──

  /** `", ".join(files)` */
  function JoinFiles(files: seq<string>): string {
    if files == [] then "" else if |files| == 1 then files[0] else files[0] + ", " + JoinFiles(files[1..])
  }

  function EntryText(group: string, entry: (string, seq<string>)): string {
    "   " + group + "/" + entry.0 + "/" + JoinFiles(entry.1)
  }

  function EntryLines(group: string, entries: seq<(string, seq<string>)>): seq<Line> {
    if entries == [] then [] else [Comment(0, EntryText(group, entries[0]))] + EntryLines(group, entries[1..])
  }

  /** The header as the generator writes it, with the empty line after it. */
  function WriteHeader(group: string, entries: seq<(string, seq<string>)>): seq<Line> {
    [Comment(0, " Sources:")] + EntryLines(group, entries) + [Blank]
  }

  // ── the round trip ──

  /** A file name that can stand in a list: no comma, and no space at its ends. */
  predicate IsFileName(s: string) {
    s != "" && ',' !in s && !IsSpace(s[0]) && !IsSpace(s[|s| - 1])
  }

  ghost predicate AreWritable(entries: seq<(string, seq<string>)>) {
    forall k :: 0 <= k < |entries| ==> IsName(entries[k].0) && forall f :: f in entries[k].1 ==> IsFileName(f)
  }

  lemma {:induction false} NameEnds(name: string, rest: string)
    requires (forall i :: 0 <= i < |name| ==> IsNameChar(name[i])) && rest != "" && rest[0] == '/'
    ensures NameEnd(name + rest) == |name|
    decreases |name|
  {
    if name == "" {
      assert name + rest == rest;
    } else {
      ConcatTail(name, rest);
      NameEnds(name[1..], rest);
    }
  }

  lemma {:induction false} SplitFirst(first: string, rest: string)
    requires ',' !in first
    ensures Split(first + "," + rest, ',') == [first] + Split(rest, ',')
    decreases |first|
  {
    var all := first + "," + rest;
    if first == "" {
      assert all == "," + rest;
      assert all[1..] == rest;
    } else {
      Associate(first, ",", rest);
      ConcatTail(first, "," + rest);
      Associate(first[1..], ",", rest);
      assert all[1..] == first[1..] + "," + rest;
      SplitFirst(first[1..], rest);
      assert [first[0]] + first[1..] == first;
    }
  }

  lemma {:induction false} SplitWhole(text: string)
    requires ',' !in text
    ensures Split(text, ',') == [text]
    decreases |text|
  {
    if text != "" {
      assert text == [text[0]] + text[1..];
      SplitWhole(text[1..]);
    }
  }

  lemma StripWord(word: string)
    requires IsFileName(word)
    ensures Strip(word) == word
  {
  }

  lemma SpaceBefore(text: string)
    ensures FileNames(" " + text) == FileNames(text)
  {
    var spaced := " " + text;
    var words := Split(text, ',');
    assert spaced[1..] == text;
    assert Split(spaced, ',') == [[' '] + words[0]] + words[1..];
    var first := [' '] + words[0];
    assert first[1..] == words[0];
    assert SkipSpace(first) == SkipSpace(words[0]);
    assert ([first] + words[1..])[1..] == words[1..];
  }

  lemma StrippedFirst(first: string, words: seq<string>)
    requires IsFileName(first)
    ensures Stripped([first] + words) == [first] + Stripped(words)
  {
    StripWord(first);
    hide Strip;
    assert ([first] + words)[1..] == words;
  }

  /** A nonempty list of files reads back as it was joined. */
  lemma {:induction false} FilesReadBack(files: seq<string>)
    requires files != [] && forall f :: f in files ==> IsFileName(f)
    ensures FileNames(JoinFiles(files)) == files
    decreases |files|
  {
    var first, more := files[0], files[1..];
    assert first in files && forall f :: f in more ==> f in files;
    hide Stripped, Split;
    if |files| == 1 {
      SplitWhole(first);
      StrippedFirst(first, []);
      assert [first] + [] == [first] && files == [first];
      NothingStripped();
    } else {
      FilesReadBack(more);
      hide IsFileName;
      FirstReadsBack(first, JoinFiles(more));
      assert files == [first] + more;
    }
  }

  lemma NothingStripped()
    ensures Stripped([]) == []
  {
  }

  lemma FirstReadsBack(first: string, rest: string)
    requires IsFileName(first)
    ensures FileNames(first + ", " + rest) == [first] + FileNames(rest)
  {
    assert first + ", " + rest == first + "," + (" " + rest);
    SplitFirst(first, " " + rest);
    SpaceBefore(rest);
    StrippedFirst(first, Split(" " + rest, ','));
  }

  lemma JoinStarts(files: seq<string>)
    requires files != [] && IsFileName(files[0])
    ensures JoinFiles(files) != "" && JoinFiles(files)[0] == files[0][0]
  {
  }

  lemma GroupStarts(group: string)
    requires IsGroupId(group)
    ensures group != "" && !IsSpace(group[0])
  {
  }

  lemma SkipThree(body: string)
    requires body != "" && !IsSpace(body[0])
    ensures SkipSpace("   " + body) == body
  {
    SkipOne(body);
    SkipOne(" " + body);
    SkipOne("  " + body);
    assert " " + (" " + body) == "  " + body && " " + ("  " + body) == "   " + body;
    hide SkipSpace;
  }

  lemma SkipOne(rest: string)
    ensures SkipSpace(" " + rest) == SkipSpace(rest)
  {
    assert (" " + rest)[1..] == rest;
  }

  lemma CutAtSlash(name: string, rest: string)
    ensures var all := name + ("/" + rest);
            all[..|name|] == name && all[|name|] == '/' && all[|name| + 1..] == rest
  {
  }

  /** The parts of a line that is put together as an entry is. */
  lemma EntryParts(group: string, repo: string, files: string)
    requires IsName(group) && IsGroupId(group) && IsName(repo)
    ensures ReadEntry("   " + (group + ("/" + (repo + ("/" + files)))))
         == if files == "" || IsSpace(files[0]) then None else Some((repo, FileNames(files)))
  {
    var rest := repo + ("/" + files);
    var body := group + ("/" + rest);
    GroupStarts(group);
    NameIsName(group);
    NameIsName(repo);
    CutAtSlash(group, rest);
    CutAtSlash(repo, files);
    hide IsSpace, FileNames, IsGroupId, NameEnd, SkipSpace, IsName;
    SkipThree(body);
    NameEnds(group, "/" + rest);
    NameEnds(repo, "/" + files);
    assert |"   " + body| == 3 + |body|;
  }

  /** A written entry is read as itself exactly when it lists a file; one without files is no entry. */
  lemma EntryReadsBack(group: string, entry: (string, seq<string>))
    requires IsName(group) && IsGroupId(group) && IsName(entry.0)
    requires forall f :: f in entry.1 ==> IsFileName(f)
    ensures ReadEntry(EntryText(group, entry)) == if entry.1 == [] then None else Some(entry)
  {
    var files := JoinFiles(entry.1);
    assert EntryText(group, entry) == "   " + (group + ("/" + (entry.0 + ("/" + files))));
    hide ReadEntry, FileNames;
    EntryParts(group, entry.0, files);
    if entry.1 == [] {
      NoFiles();
    } else {
      assert entry.1[0] in entry.1;
      JoinStarts(entry.1);
      FilesReadBack(entry.1);
    }
  }

  lemma NameIsName(name: string)
    requires IsName(name)
    ensures name != "" && forall i :: 0 <= i < |name| ==> IsNameChar(name[i])
  {
  }

  lemma NoFiles()
    ensures JoinFiles([]) == ""
  {
  }

  ghost predicate HasNoTitle(lines: seq<Line>) {
    forall i :: 0 <= i < |lines| ==> !IsTitle(lines[i])
  }

  lemma {:induction false} BeforeTitle(before: seq<Line>, lines: seq<Line>)
    requires HasNoTitle(before)
    ensures HeaderEntries(before + lines) == HeaderEntries(lines)
    decreases |before|
  {
    if before == [] {
      assert before + lines == lines;
    } else {
      ConcatTail(before, lines);
      BeforeTitle(before[1..], lines);
    }
  }

  lemma EntryIsNoTitle(group: string, entry: (string, seq<string>))
    requires IsName(group) && IsGroupId(group)
    ensures !IsTitle(Comment(0, EntryText(group, entry)))
  {
    var text := EntryText(group, entry);
    TrimIsPrefix(text);
    assert text[1] == ' ';
    assert " Sources:"[1] == 'S';
  }

  lemma {:induction false} TrimIsPrefix(text: string)
    ensures TrimEnd(text) <= text
    decreases |text|
  {
    if text != "" && IsSpace(text[|text| - 1]) {
      TrimIsPrefix(text[..|text| - 1]);
    }
  }

  lemma {:induction false} EntriesReadBack(group: string, entries: seq<(string, seq<string>)>, after: seq<Line>)
    requires IsName(group) && IsGroupId(group) && AreWritable(entries)
    ensures EntriesFrom(EntryLines(group, entries) + [Blank] + after, true) == entries <==>
              forall k :: 0 <= k < |entries| ==> entries[k].1 != []
    decreases |entries|
  {
    var lines := EntryLines(group, entries) + [Blank] + after;
    if entries == [] {
      assert lines == [Blank] + after;
    } else {
      var first := Comment(0, EntryText(group, entries[0]));
      var rest := EntryLines(group, entries[1..]) + [Blank] + after;
      assert lines == [first] + rest;
      EntryIsNoTitle(group, entries[0]);
      EntryReadsBack(group, entries[0]);
      EntriesReadBack(group, entries[1..], after);
      hide EntryText, ReadEntry, EntryLines, IsTitle;
      EntriesStep(first, rest, entries);
    }
  }

  lemma EntriesStep(first: Line, rest: seq<Line>, entries: seq<(string, seq<string>)>)
    requires entries != [] && !IsTitle(first)
    requires EntryOf(first) == if entries[0].1 == [] then None else Some(entries[0])
    requires var more := entries[1..];
             EntriesFrom(rest, true) == more <==> forall k :: 0 <= k < |more| ==> more[k].1 != []
    ensures EntriesFrom([first] + rest, true) == entries <==> forall k :: 0 <= k < |entries| ==> entries[k].1 != []
  {
    hide IsTitle, EntryOf;
    var more := entries[1..];
    assert ([first] + rest)[1..] == rest;
    assert forall k :: 0 < k < |entries| ==> entries[k] == more[k - 1];
    assert forall k :: 0 <= k < |more| ==> more[k] == entries[k + 1];
    if entries[0].1 != [] {
      assert ([entries[0]] + EntriesFrom(rest, true))[1..] == EntriesFrom(rest, true);
      assert entries == [entries[0]] + more;
    }
  }

  /** What the checker reads of a written header is what was written, exactly when every repo lists a
      file: the first that lists none hides itself and all after it. */
  lemma HeaderReadsBackIff(before: seq<Line>, group: string, entries: seq<(string, seq<string>)>, after: seq<Line>)
    requires HasNoTitle(before) && IsName(group) && IsGroupId(group) && AreWritable(entries)
    ensures HeaderEntries(before + WriteHeader(group, entries) + after) == entries <==>
              forall k :: 0 <= k < |entries| ==> entries[k].1 != []
  {
    var written := WriteHeader(group, entries) + after;
    var under := EntryLines(group, entries) + [Blank] + after;
    Associate(before, WriteHeader(group, entries), after);
    BeforeTitle(before, written);
    assert written == [Comment(0, " Sources:")] + under;
    assert written[1..] == under;
    assert !IsSpace(':');
    assert TrimEnd(" Sources:") == " Sources:";
    EntriesReadBack(group, entries, after);
  }

  /** One line of a header, as it stands in a file: group, repo and the file it is deployed from. */
  lemma OneLineReads(before: seq<Line>, group: string, repo: string, file: string, after: seq<Line>)
    requires HasNoTitle(before) && IsName(group) && IsGroupId(group) && IsName(repo) && IsFileName(file)
    ensures HeaderEntries(before + [Comment(0, " Sources:"), Comment(0, "   " + group + "/" + repo + "/" + file), Blank]
                            + after) == [(repo, [file])]
  {
    var entries := [(repo, [file])];
    assert entries[1..] == [];
    assert EntryLines(group, entries) == [Comment(0, "   " + group + "/" + repo + "/" + file)];
    assert WriteHeader(group, entries)
        == [Comment(0, " Sources:"), Comment(0, "   " + group + "/" + repo + "/" + file), Blank];
    HeaderReadsBackIff(before, group, entries, after);
    hide HeaderEntries, WriteHeader, HasNoTitle, IsName, IsGroupId, IsFileName;
  }
}
