/** The textfile a check writes for the alert rules, and the history it carries from run to run. */
module Textfile {
  import opened Basics
  import opened Labels
  import opened TextLines

  const METRIC := "innotel_estate_check"

  datatype Level = Fail | Warn | Note

  datatype Finding = Finding(code: string, level: Level, message: string)

  /** One run of a check: what it found if it got that far, when, and its own series. */
  datatype Run = Run(audit: Option<seq<Finding>>, ranOk: bool, now: real, extra: string)

  function OfLevel(findings: seq<Finding>, level: Level): seq<Finding> {
    if findings == [] then []
    else (if findings[0].level == level then [findings[0]] else []) + OfLevel(findings[1..], level)
  }

  /** The check ran and found nothing that fails. */
  predicate IsClean(run: Run) {
    run.ranOk && run.audit.Some? && OfLevel(run.audit.value, Fail) == []
  }

  // ── reading the last success back ──

  predicate IsEol(c: char) {
    c == '\n' || c == '\r'
  }

  /** What reading the file line by line gives. A carriage return ends a line, as it does for a file
      opened as text; one before a newline gives an empty line more here, which names no metric. */
  function Pieces(text: string): (pieces: seq<string>)
    ensures pieces != []
  {
    if text == "" then [""]
    else if IsEol(text[0]) then [""] + Pieces(text[1..])
    else
      var rest := Pieces(text[1..]);
      [[text[0]] + rest[0]] + rest[1..]
  }

  function KeyOf(line: string): string {
    if line == "" || line[0] == ' ' then "" else [line[0]] + KeyOf(line[1..])
  }

  function ValueOf(line: string): string {
    if line == "" then "" else if line[0] == ' ' then line[1..] else ValueOf(line[1..])
  }

  /** The value on the first line that carries the key. */
  function PriorIn(lines: seq<string>, key: string): Option<nat> {
    if lines == [] then None
    else if KeyOf(lines[0]) == key then Parse(ValueOf(lines[0]))
    else PriorIn(lines[1..], key)
  }

  function Prior(file: Option<string>, key: string): Option<nat> {
    if file.None? then None else PriorIn(Pieces(file.value), key)
  }

  // ── the body ──

  function Series(suffix: string, check: string): string {
    METRIC + suffix + "{check=\"" + check + "\"}"
  }

  /** What the last success is filed under. */
  function Key(check: string): string {
    Series("_last_success_timestamp", check)
  }

  function Gauge(suffix: string, help: string, check: string, value: nat): seq<string> {
    ["# HELP " + METRIC + suffix + " " + help, "# TYPE " + METRIC + suffix + " gauge",
     Series(suffix, check) + " " + Decimal(value)]
  }

  function NoteLine(check: string, note: Finding): string {
    METRIC + "_note{check=\"" + check + "\",code=\"" + Label(note.code)
      + "\",detail=\"" + Label(note.message) + "\"} 1"
  }

  function NoteLines(check: string, notes: seq<Finding>): seq<string> {
    seq(|notes|, i requires 0 <= i < |notes| => NoteLine(check, notes[i]))
  }

  function NoteComments(): seq<string> {
    ["# HELP " + METRIC + "_note One series per note, " + "with the reason in `detail`",
     "# TYPE " + METRIC + "_note gauge"]
  }

  function NoteSeries(check: string, notes: seq<Finding>): seq<string> {
    if notes == [] then [] else NoteComments() + NoteLines(check, notes)
  }

  function StatusLines(check: string, ok: bool): seq<string> {
    Gauge("_last_status", "1 when the check ran " + "and found nothing", check, if ok then 1 else 0)
  }

  function RunLines(check: string, now: nat): seq<string> {
    Gauge("_last_run_timestamp", "When the check last ran, " + "whatever it found", check, now)
  }

  function FailureLines(check: string, count: nat): seq<string> {
    Gauge("_failures", "Things the check found " + "that do not hold", check, count)
  }

  function WarningLines(check: string, count: nat): seq<string> {
    Gauge("_warnings", "Things the check found " + "worth a look", check, count)
  }

  function NoteCountLines(check: string, count: nat): seq<string> {
    Gauge("_notes", "Things the check stated " + "and did not fail on", check, count)
  }

  function AuditLines(check: string, findings: seq<Finding>): seq<string> {
    FailureLines(check, |OfLevel(findings, Fail)|)
      + WarningLines(check, |OfLevel(findings, Warn)|)
      + NoteCountLines(check, |OfLevel(findings, Note)|)
      + NoteSeries(check, OfLevel(findings, Note))
  }

  /** When the check last succeeded, this run included. */
  function Success(run: Run, prior: Option<nat>): Option<nat>
    requires run.now >= 0.0
  {
    if IsClean(run) then Some(Rounded(run.now)) else prior
  }

  /** What comes before the last success. */
  function HeadLines(check: string, run: Run): seq<string>
    requires run.now >= 0.0
  {
    StatusLines(check, IsClean(run))
      + RunLines(check, Rounded(run.now))
      + if run.audit.Some? then AuditLines(check, run.audit.value) else []
  }

  function SuccessLines(check: string, success: Option<nat>): seq<string> {
    if success.None? then []
    else
      Gauge("_last_success_timestamp", "When the check last ran " + "and found nothing wrong", check, success.value)
  }

  function Body(check: string, run: Run, prior: Option<nat>): string
    requires run.now >= 0.0
  {
    JoinLines(HeadLines(check, run) + SuccessLines(check, Success(run, prior))) + "\n"
      + if run.extra == "" then "" else StripNewlines(run.extra) + "\n"
  }

  /** A textfile on disk. */
  class Textfile {
    var content: Option<string>

    constructor ()
      ensures content == None
    {
      content := None;
    }

    /** Reads a metric back out of the file that is about to be replaced. */
    method PriorMetric(key: string) returns (value: Option<nat>)
      ensures value == Prior(content, key)
    {
      if content.None? {
        return None;
      }
      var lines := Pieces(content.value);
      for i := 0 to |lines|
        invariant PriorIn(lines[i..], key) == Prior(content, key)
      {
        if KeyOf(lines[i]) == key {
          return Parse(ValueOf(lines[i]));
        }
        assert lines[i..][1..] == lines[i + 1..];
      }
      return None;
    }

    method WriteProm(check: string, run: Run)
      requires run.now >= 0.0
      modifies this
      ensures content == Some(Body(check, run, Prior(old(content), Key(check))))
    {
      var prior := PriorMetric(Key(check));
      content := Some(Body(check, run, prior));
    }
  }

  /** The file after a series of runs, from no file. */
  function FileAfter(check: string, runs: seq<Run>): Option<string>
    requires forall i :: 0 <= i < |runs| ==> runs[i].now >= 0.0
  {
    if runs == [] then None
    else Some(Body(check, runs[|runs| - 1], Prior(FileAfter(check, runs[..|runs| - 1]), Key(check))))
  }

  /** The time of the most recent clean run. */
  function LastClean(runs: seq<Run>): Option<nat>
    requires forall i :: 0 <= i < |runs| ==> runs[i].now >= 0.0
  {
    if runs == [] then None
    else
      var last := runs[|runs| - 1];
      if IsClean(last) then Some(Rounded(last.now)) else LastClean(runs[..|runs| - 1])
  }

  // ── which lines carry the key ──

  predicate IsPlain(text: string) {
    '\n' !in text && '\r' !in text
  }

  /** A check's name as the checks have them: one word, with no quote and no leading comma. */
  predicate IsCheckName(check: string) {
    IsPlain(check) && ' ' !in check && '"' !in check && (check == "" || check[0] != ',')
  }

  /** No line of the text carries the key. */
  ghost predicate Misses(text: string, key: string) {
    forall p :: p in Pieces(text) ==> KeyOf(p) != key
  }

  lemma {:induction false} PlainPieces(text: string)
    requires IsPlain(text)
    ensures Pieces(text) == [text]
  {
    if text != "" {
      PlainPieces(text[1..]);
      assert [text[0]] + text[1..] == text;
    }
  }

  lemma {:induction false} PiecesConcat(a: string, b: string)
    ensures Pieces(a + "\n" + b) == Pieces(a) + Pieces(b)
    decreases |a|
  {
    var all := a + "\n" + b;
    if a == "" {
      assert all == "\n" + b && all[1..] == b;
    } else {
      Associate(a, "\n", b);
      ConcatTail(a, "\n" + b);
      Associate(a[1..], "\n", b);
      PiecesConcat(a[1..], b);
      var rest := Pieces(a[1..]);
      assert (rest + Pieces(b))[1..] == rest[1..] + Pieces(b);
      Associate([[a[0]] + rest[0]], rest[1..], Pieces(b));
    }
  }

  lemma {:induction false} PriorConcat(a: seq<string>, b: seq<string>, key: string)
    requires forall p :: p in a ==> KeyOf(p) != key
    ensures PriorIn(a + b, key) == PriorIn(b, key)
    decreases |a|
  {
    if a == [] {
      assert a + b == b;
    } else {
      ConcatTail(a, b);
      assert a[0] in a;
      PriorConcat(a[1..], b, key);
    }
  }

  lemma {:induction false} KeyIsPrefix(line: string)
    ensures KeyOf(line) <= line
  {
    if line != "" && line[0] != ' ' {
      KeyIsPrefix(line[1..]);
    }
  }

  lemma {:induction false} KeyAndValue(key: string, value: string)
    requires ' ' !in key
    ensures KeyOf(key + " " + value) == key && ValueOf(key + " " + value) == value
    decreases |key|
  {
    var line := key + " " + value;
    if key == "" {
      assert line == " " + value && line[1..] == value;
    } else {
      Associate(key, " ", value);
      ConcatTail(key, " " + value);
      Associate(key[1..], " ", value);
      KeyAndValue(key[1..], value);
    }
  }

  /** A line that differs from the key before the key ends does not carry it. */
  lemma DiffersMisses(line: string, key: string, i: nat)
    requires IsPlain(line) && i < |line| && i < |key| && line[i] != key[i]
    ensures Misses(line, key)
  {
    PlainPieces(line);
    KeyIsPrefix(line);
  }
}
