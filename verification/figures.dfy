/** What a reader of the textfile finds under each series: the verdict, the time, and how many findings of each
    level there were. */
module Figures {
  import opened Basics
  import opened Labels
  import opened TextLines
  import opened Textfile
  import opened History

  /** The check ran to the end and nothing it found is a failure. */
  predicate Succeeded(run: Run) {
    run.ranOk && run.audit.Some? && forall f :: f in run.audit.value ==> f.level != Fail
  }

  function LevelsOf(findings: seq<Finding>): seq<Level> {
    seq(|findings|, i requires 0 <= i < |findings| => findings[i].level)
  }

  /** How many findings are of a level. */
  function CountOf(findings: seq<Finding>, level: Level): nat {
    multiset(LevelsOf(findings))[level]
  }

  /** The whole number nearest to a time, the even one of two equally near. */
  predicate IsNearest(x: real, n: int) {
    var off := x - n as real;
    -0.5 < off < 0.5 || ((off == 0.5 || off == -0.5) && n % 2 == 0)
  }

  /** The name of a check's series, as the alert rules have it. */
  function SeriesName(suffix: string, check: string): string {
    "innotel_estate_check" + suffix + "{check=\"" + check + "\"}"
  }

  /** What the file says under a name. */
  function Reading(content: string, suffix: string, check: string): Option<nat> {
    Prior(Some(content), SeriesName(suffix, check))
  }

  // ── the figures themselves ──

  lemma {:induction false} OfLevelCounts(findings: seq<Finding>, level: Level)
    ensures |OfLevel(findings, level)| == CountOf(findings, level)
    decreases |findings|
  {
    if findings == [] {
      assert LevelsOf(findings) == [];
    } else {
      OfLevelCounts(findings[1..], level);
      assert LevelsOf(findings) == [findings[0].level] + LevelsOf(findings[1..]);
    }
  }

  lemma {:induction false} NoneOfLevel(findings: seq<Finding>, level: Level)
    ensures OfLevel(findings, level) == [] <==> forall f :: f in findings ==> f.level != level
    decreases |findings|
  {
    if findings != [] {
      NoneOfLevel(findings[1..], level);
      assert findings == [findings[0]] + findings[1..];
    }
  }

  lemma CleanIs(run: Run)
    ensures IsClean(run) <==> Succeeded(run)
  {
    if run.audit.Some? {
      NoneOfLevel(run.audit.value, Fail);
    }
  }

  lemma RoundedIsNearest(x: real)
    requires x >= 0.0
    ensures IsNearest(x, Rounded(x))
    ensures forall n: int :: IsNearest(x, n) ==> n == Rounded(x)
  {
    forall n: int | IsNearest(x, n) ensures n == Rounded(x) {
      NearestIsOneOfTwo(x, n);
    }
  }

  lemma NearestIsOneOfTwo(x: real, n: int)
    requires IsNearest(x, n)
    ensures n == x.Floor || n == x.Floor + 1
  {
    var low := x.Floor;
    assert low as real <= x < low as real + 1.0;
    assert n as real - 0.5 <= x <= n as real + 0.5;
  }

  // ── reading one series ──

  lemma NameIs(suffix: string, check: string)
    ensures SeriesName(suffix, check) == Series(suffix, check)
  {
  }

  lemma HelpMisses(suffix: string, help: string, check: string, value: nat, key: string)
    requires IsPlain(suffix) && IsPlain(help) && key != "" && key[0] == 'i'
    ensures var g := Gauge(suffix, help, check, value);
            IsPlain(g[0]) && IsPlain(g[1]) && Misses(g[0], key) && Misses(g[1], key)
  {
    MetricIsPlain();
    var a, b := "# HELP " + METRIC + suffix + " " + help, "# TYPE " + METRIC + suffix + " gauge";
    assert IsPlain("# HELP ") && IsPlain("# TYPE ") && IsPlain(" ") && IsPlain(" gauge");
    DiffersMisses(a, key, 0);
    DiffersMisses(b, key, 0);
  }

  /** The lines of one series miss the key of another, when their names differ at some place. */
  lemma OtherMisses(suffix: string, help: string, check: string, value: nat, other: string, i: nat)
    requires IsCheckName(check) && IsPlain(suffix) && IsPlain(help) && IsPlain(other)
    requires i < |suffix| && i < |other| && suffix[i] != other[i]
    ensures AllMiss(Gauge(suffix, help, check, value), Series(other, check))
  {
    SeriesIsPlain(other, check);
    HelpMisses(suffix, help, check, value, Series(other, check));
    SampleDiffers(suffix, check, value, other, i);
    hide Misses, Series, IsPlain, IsCheckName;
  }

  lemma SampleDiffers(suffix: string, check: string, value: nat, other: string, i: nat)
    requires IsCheckName(check) && IsPlain(suffix) && IsPlain(other)
    requires i < |suffix| && i < |other| && suffix[i] != other[i]
    ensures Misses(Series(suffix, check) + " " + Decimal(value), Series(other, check))
  {
    SeriesIsPlain(suffix, check);
    SeriesIsPlain(other, check);
    DecimalIsPlain(value);
    hide Series, Decimal, Misses;
    var series := Series(suffix, check);
    Associate(series, " ", Decimal(value));
    PlainConcat(series, " " + Decimal(value));
    assert (series + (" " + Decimal(value)))[|METRIC| + i] == series[|METRIC| + i];
    DiffersMisses(series + " " + Decimal(value), Series(other, check), |METRIC| + i);
  }

  lemma SampleIsRead(suffix: string, check: string, value: nat, rest: seq<string>)
    requires IsCheckName(check) && IsPlain(suffix) && ' ' !in suffix
    ensures var line := Series(suffix, check) + " " + Decimal(value);
            PriorIn(Pieces(line) + rest, Series(suffix, check)) == Some(value)
  {
    var key := Series(suffix, check);
    SeriesIsPlain(suffix, check);
    DecimalIsPlain(value);
    hide Series, Decimal;
    Associate(key, " ", Decimal(value));
    PlainConcat(key, " " + Decimal(value));
    PlainPieces(key + " " + Decimal(value));
    KeyAndValue(key, Decimal(value));
    ParseDecimal(value);
    ConcatTail([key + " " + Decimal(value)], rest);
  }

  /** The first line of a text that carries a key is read, whatever follows it. */
  lemma SampleAfter(before: seq<string>, suffix: string, check: string, value: nat, after: seq<string>, extra: string)
    requires IsCheckName(check) && IsPlain(suffix) && ' ' !in suffix
    requires AllMiss(before, Series(suffix, check))
    ensures var line := Series(suffix, check) + " " + Decimal(value);
            PriorIn(Pieces(JoinLines(before + [line] + after) + "\n" + extra), Series(suffix, check)) == Some(value)
  {
    var key, line := Series(suffix, check), Series(suffix, check) + " " + Decimal(value);
    SeriesIsPlain(suffix, check);
    assert key != "";
    hide Series, Decimal, Misses, IsPlain, IsCheckName;
    var tail := PiecesAfter(line, after, extra);
    SampleIsRead(suffix, check, value, tail);
    if before == [] {
      assert before + [line] + after == [line] + after;
    } else {
      JoinMisses(before, key);
      MissedFirst(JoinLines(before), key);
      Associate(before, [line], after);
      JoinConcat(before, [line] + after);
      Associate(JoinLines(before), "\n", JoinLines([line] + after));
      Associate(JoinLines(before) + "\n", JoinLines([line] + after), "\n" + extra);
      Associate(JoinLines(before) + "\n" + JoinLines([line] + after), "\n", extra);
      Associate(JoinLines([line] + after), "\n", extra);
      PiecesConcat(JoinLines(before), JoinLines([line] + after) + "\n" + extra);
      PriorConcat(Pieces(JoinLines(before)), Pieces(line) + tail, key);
    }
  }

  lemma PiecesAfter(line: string, after: seq<string>, extra: string) returns (tail: seq<string>)
    ensures Pieces(JoinLines([line] + after) + "\n" + extra) == Pieces(line) + tail
  {
    PiecesConcat(JoinLines([line] + after), extra);
    tail := Pieces(extra);
    if after == [] {
      assert [line] + after == [line];
    } else {
      JoinConcat([line], after);
      PiecesConcat(line, JoinLines(after));
      tail := Pieces(JoinLines(after)) + Pieces(extra);
      Associate(Pieces(line), Pieces(JoinLines(after)), Pieces(extra));
    }
  }

  /** The lines of a series after lines that miss its key are read. */
  lemma GaugeIsRead(before: seq<string>, suffix: string, help: string, check: string, value: nat, after: seq<string>,
                    extra: string)
    requires IsCheckName(check) && IsPlain(suffix) && ' ' !in suffix && IsPlain(help)
    requires AllMiss(before, Series(suffix, check))
    ensures PriorIn(Pieces(JoinLines(before + Gauge(suffix, help, check, value) + after) + "\n" + extra),
                    Series(suffix, check)) == Some(value)
  {
    var key, g := Series(suffix, check), Gauge(suffix, help, check, value);
    SeriesIsPlain(suffix, check);
    HelpMisses(suffix, help, check, value, key);
    hide Series, Decimal, Misses, IsPlain, IsCheckName;
    AllMissConcat(before, [g[0], g[1]], key);
    assert before + g + after == before + [g[0], g[1]] + [g[2]] + after;
    SampleAfter(before + [g[0], g[1]], suffix, check, value, after, extra);
  }

  lemma PiecesCons(c: char, text: string)
    ensures Pieces([c] + text) == if IsEol(c) then [""] + Pieces(text)
                                  else [[c] + Pieces(text)[0]] + Pieces(text)[1..]
  {
    assert ([c] + text)[1..] == text;
  }

  lemma ConsPieces(c: char, rest: seq<string>, more: seq<string>)
    requires rest != []
    ensures [[c] + (rest + more)[0]] + (rest + more)[1..] == [[c] + rest[0]] + rest[1..] + more
    ensures [""] + (rest + more) == [""] + rest + more
  {
  }

  lemma {:induction false} EndsSplit(a: string, c: char, b: string)
    requires c == '\n' || c == '\r'
    ensures Pieces(a + [c] + b) == Pieces(a) + Pieces(b)
    decreases |a|
  {
    PiecesCons(c, b);
    if a == "" {
      assert a + [c] + b == [c] + b;
    } else {
      EndsSplit(a[1..], c, b);
      assert a + [c] + b == [a[0]] + (a[1..] + [c] + b) && a == [a[0]] + a[1..];
      PiecesCons(a[0], a[1..] + [c] + b);
      PiecesCons(a[0], a[1..]);
      ConsPieces(a[0], Pieces(a[1..]), Pieces(b));
      hide Pieces;
    }
  }

  /** What is read under a key is the value on the first line that begins with it and a space, wherever that line
      starts, after a newline or a carriage return, and ends. */
  lemma FirstLineIsRead(before: string, c: char, key: string, value: nat, d: char, after: string)
    requires (c == '\n' || c == '\r') && (d == '\n' || d == '\r')
    requires Misses(before, key) && IsPlain(key) && ' ' !in key
    ensures Prior(Some(before + [c] + (key + " " + Decimal(value) + [d] + after)), key) == Some(value)
    ensures Prior(Some(key + " " + Decimal(value) + [d] + after), key) == Some(value)
  {
    var line := key + " " + Decimal(value);
    EndsSplit(before, c, line + [d] + after);
    EndsSplit(line, d, after);
    DecimalIsPlain(value);
    Associate(key, " ", Decimal(value));
    PlainConcat(key, " " + Decimal(value));
    PlainPieces(line);
    KeyAndValue(key, Decimal(value));
    ParseDecimal(value);
    hide Pieces, KeyOf, ValueOf, Parse, Decimal, IsPlain;
    ConcatTail([line], Pieces(after));
    PriorConcat(Pieces(before), Pieces(line) + Pieces(after), key);
  }

  // ── the five series of a run ──

  lemma TimesArePlain()
    ensures IsPlain("_last_status") && ' ' !in "_last_status"
    ensures IsPlain("_last_run_timestamp") && ' ' !in "_last_run_timestamp"
  {
  }

  lemma CountsArePlain()
    ensures IsPlain("_failures") && ' ' !in "_failures"
    ensures IsPlain("_warnings") && ' ' !in "_warnings"
    ensures IsPlain("_notes") && ' ' !in "_notes"
  {
  }

  lemma SuffixesArePlain()
    ensures IsPlain("_last_status") && ' ' !in "_last_status"
    ensures IsPlain("_last_run_timestamp") && ' ' !in "_last_run_timestamp"
    ensures IsPlain("_failures") && ' ' !in "_failures"
    ensures IsPlain("_warnings") && ' ' !in "_warnings"
    ensures IsPlain("_notes") && ' ' !in "_notes"
  {
    hide IsPlain;
    TimesArePlain();
    CountsArePlain();
  }

  lemma SuffixesDiffer()
    ensures "_last_status"[6] == 's' && "_last_run_timestamp"[6] == 'r'
    ensures "_last_status"[1] == 'l' && "_last_run_timestamp"[1] == 'l'
    ensures "_failures"[1] == 'f' && "_warnings"[1] == 'w' && "_notes"[1] == 'n'
  {
  }

  lemma StatusHelpIsPlain()
    ensures IsPlain("1 when the check ran " + "and found nothing")
  {
    assert IsPlain("1 when the check ran ") && IsPlain("and found nothing");
  }

  lemma RunHelpIsPlain()
    ensures IsPlain("When the check last ran, " + "whatever it found")
  {
    assert IsPlain("When the check last ran, ") && IsPlain("whatever it found");
  }

  lemma FailureHelpIsPlain()
    ensures IsPlain("Things the check found " + "that do not hold")
  {
    assert IsPlain("Things the check found ") && IsPlain("that do not hold");
  }

  lemma WarningHelpIsPlain()
    ensures IsPlain("Things the check found " + "worth a look")
  {
    assert IsPlain("Things the check found ") && IsPlain("worth a look");
  }

  lemma NoteHelpIsPlain()
    ensures IsPlain("Things the check stated " + "and did not fail on")
  {
    assert IsPlain("Things the check stated ") && IsPlain("and did not fail on");
  }

  /** No line of the verdict carries another series' key. */
  lemma StatusIsOther(check: string, ok: bool)
    requires IsCheckName(check)
    ensures AllMiss(StatusLines(check, ok), Series("_last_run_timestamp", check))
    ensures AllMiss(StatusLines(check, ok), Series("_failures", check))
    ensures AllMiss(StatusLines(check, ok), Series("_warnings", check))
    ensures AllMiss(StatusLines(check, ok), Series("_notes", check))
  {
    SuffixesArePlain();
    SuffixesDiffer();
    StatusHelpIsPlain();
    hide IsPlain, IsCheckName, Gauge, Series, AllMiss;
    var help, value := "1 when the check ran " + "and found nothing", if ok then 1 else 0;
    OtherMisses("_last_status", help, check, value, "_last_run_timestamp", 6);
    OtherMisses("_last_status", help, check, value, "_failures", 1);
    OtherMisses("_last_status", help, check, value, "_warnings", 1);
    OtherMisses("_last_status", help, check, value, "_notes", 1);
  }

  lemma RunIsOther(check: string, now: nat)
    requires IsCheckName(check)
    ensures AllMiss(RunLines(check, now), Series("_failures", check))
    ensures AllMiss(RunLines(check, now), Series("_warnings", check))
    ensures AllMiss(RunLines(check, now), Series("_notes", check))
  {
    SuffixesArePlain();
    SuffixesDiffer();
    RunHelpIsPlain();
    hide IsPlain, IsCheckName, Gauge, Series, AllMiss;
    var help := "When the check last ran, " + "whatever it found";
    OtherMisses("_last_run_timestamp", help, check, now, "_failures", 1);
    OtherMisses("_last_run_timestamp", help, check, now, "_warnings", 1);
    OtherMisses("_last_run_timestamp", help, check, now, "_notes", 1);
  }

  lemma CountsAreOther(check: string, failures: nat, warnings: nat)
    requires IsCheckName(check)
    ensures AllMiss(FailureLines(check, failures), Series("_warnings", check))
    ensures AllMiss(FailureLines(check, failures), Series("_notes", check))
    ensures AllMiss(WarningLines(check, warnings), Series("_notes", check))
  {
    SuffixesArePlain();
    SuffixesDiffer();
    FailureHelpIsPlain();
    WarningHelpIsPlain();
    hide IsPlain, IsCheckName, Gauge, Series, AllMiss;
    var found, look := "Things the check found " + "that do not hold", "Things the check found " + "worth a look";
    OtherMisses("_failures", found, check, failures, "_warnings", 1);
    OtherMisses("_failures", found, check, failures, "_notes", 1);
    OtherMisses("_warnings", look, check, warnings, "_notes", 1);
  }

  /** The lines a file opens with, and what is added after them. */
  function AllLines(check: string, run: Run, prior: Option<nat>): seq<string>
    requires run.now >= 0.0
  {
    HeadLines(check, run) + SuccessLines(check, Success(run, prior))
  }

  lemma ReadFrom(check: string, run: Run, prior: Option<nat>, before: seq<string>, suffix: string, help: string,
                 value: nat, after: seq<string>)
    requires IsCheckName(check) && run.now >= 0.0 && IsPlain(suffix) && ' ' !in suffix && IsPlain(help)
    requires AllMiss(before, Series(suffix, check))
    requires AllLines(check, run, prior) == before + Gauge(suffix, help, check, value) + after
    ensures Reading(Body(check, run, prior), suffix, check) == Some(value)
  {
    NameIs(suffix, check);
    var extra := if run.extra == "" then "" else StripNewlines(run.extra) + "\n";
    GaugeIsRead(before, suffix, help, check, value, after, extra);
    hide Gauge, Series, SeriesName, HeadLines, SuccessLines, AllMiss, Pieces, PriorIn, JoinLines, StripNewlines,
         IsPlain;
    assert Body(check, run, prior) == JoinLines(AllLines(check, run, prior)) + "\n" + extra;
  }

  /** What comes after the time of the run. */
  function RestOf(check: string, run: Run, prior: Option<nat>): seq<string>
    requires run.now >= 0.0
  {
    (if run.audit.Some? then AuditLines(check, run.audit.value) else []) + SuccessLines(check, Success(run, prior))
  }

  lemma LinesAre(check: string, run: Run, prior: Option<nat>)
    requires run.now >= 0.0
    ensures var status, ran := StatusLines(check, IsClean(run)), RunLines(check, Rounded(run.now));
            && AllLines(check, run, prior) == [] + status + (ran + RestOf(check, run, prior))
            && AllLines(check, run, prior) == status + ran + RestOf(check, run, prior)
  {
    hide StatusLines, RunLines, AuditLines, SuccessLines, IsClean, Rounded;
  }

  lemma StatusIsRead(check: string, run: Run, prior: Option<nat>)
    requires IsCheckName(check) && run.now >= 0.0
    ensures Reading(Body(check, run, prior), "_last_status", check) == Some(if IsClean(run) then 1 else 0)
  {
    SuffixesArePlain();
    StatusHelpIsPlain();
    LinesAre(check, run, prior);
    hide IsPlain, IsCheckName, Gauge, Series, IsClean, Body, AllLines, RestOf, Rounded, Misses, Reading, RunLines;
    ReadFrom(check, run, prior, [], "_last_status", "1 when the check ran " + "and found nothing",
             if IsClean(run) then 1 else 0, RunLines(check, Rounded(run.now)) + RestOf(check, run, prior));
  }

  lemma TimeIsRead(check: string, run: Run, prior: Option<nat>)
    requires IsCheckName(check) && run.now >= 0.0
    ensures Reading(Body(check, run, prior), "_last_run_timestamp", check) == Some(Rounded(run.now))
  {
    SuffixesArePlain();
    RunHelpIsPlain();
    LinesAre(check, run, prior);
    StatusIsOther(check, IsClean(run));
    hide IsPlain, IsCheckName, Gauge, Series, IsClean, Body, AllLines, RestOf, Rounded, AllMiss, Reading, StatusLines;
    ReadFrom(check, run, prior, StatusLines(check, IsClean(run)), "_last_run_timestamp",
             "When the check last ran, " + "whatever it found", Rounded(run.now), RestOf(check, run, prior));
  }

  /** Whoever reads the file finds the verdict, 1 for a check that ran to the end with no failure and 0
      otherwise, and the time of the run. */
  lemma VerdictIsRead(check: string, run: Run, prior: Option<nat>)
    requires IsCheckName(check) && run.now >= 0.0
    ensures Reading(Body(check, run, prior), "_last_status", check) == Some(if Succeeded(run) then 1 else 0)
    ensures exists n: nat ::
              IsNearest(run.now, n) && Reading(Body(check, run, prior), "_last_run_timestamp", check) == Some(n)
  {
    CleanIs(run);
    RoundedIsNearest(run.now);
    StatusIsRead(check, run, prior);
    TimeIsRead(check, run, prior);
    hide IsClean, Succeeded, Body, Reading, IsNearest, Rounded;
  }

  lemma Regroup<T>(head: seq<T>, f: seq<T>, w: seq<T>, n: seq<T>, notes: seq<T>, last: seq<T>)
    ensures head + (f + w + n + notes) + last == head + f + (w + n + (notes + last))
    ensures head + (f + w + n + notes) + last == head + f + w + (n + (notes + last))
    ensures head + (f + w + n + notes) + last == head + f + w + n + (notes + last)
  {
  }

  /** The lines of a file whose check got as far as having findings, cut at the three counts. */
  lemma CountLinesAre(check: string, run: Run, prior: Option<nat>)
    requires run.now >= 0.0 && run.audit.Some?
    ensures var findings := run.audit.value;
            var head := StatusLines(check, IsClean(run)) + RunLines(check, Rounded(run.now));
            var f, w := FailureLines(check, CountOf(findings, Fail)), WarningLines(check, CountOf(findings, Warn));
            var n := NoteCountLines(check, CountOf(findings, Note));
            var rest := NoteSeries(check, OfLevel(findings, Note)) + SuccessLines(check, Success(run, prior));
            && AllLines(check, run, prior) == head + f + (w + n + rest)
            && AllLines(check, run, prior) == head + f + w + (n + rest)
            && AllLines(check, run, prior) == head + f + w + n + rest
  {
    var findings := run.audit.value;
    OfLevelCounts(findings, Fail);
    OfLevelCounts(findings, Warn);
    OfLevelCounts(findings, Note);
    Regroup(StatusLines(check, IsClean(run)) + RunLines(check, Rounded(run.now)),
            FailureLines(check, CountOf(findings, Fail)), WarningLines(check, CountOf(findings, Warn)),
            NoteCountLines(check, CountOf(findings, Note)), NoteSeries(check, OfLevel(findings, Note)),
            SuccessLines(check, Success(run, prior)));
    hide StatusLines, RunLines, FailureLines, WarningLines, NoteCountLines, NoteSeries, SuccessLines, IsClean, Rounded,
         OfLevel, CountOf, Success;
  }

  lemma FailuresAreRead(check: string, run: Run, prior: Option<nat>)
    requires IsCheckName(check) && run.now >= 0.0 && run.audit.Some?
    ensures Reading(Body(check, run, prior), "_failures", check) == Some(CountOf(run.audit.value, Fail))
  {
    SuffixesArePlain();
    FailureHelpIsPlain();
    CountLinesAre(check, run, prior);
    StatusIsOther(check, IsClean(run));
    RunIsOther(check, Rounded(run.now));
    hide IsPlain, IsCheckName, Gauge, Series, IsClean, Body, AllLines, Rounded, Misses, Reading, StatusLines, RunLines,
         WarningLines, NoteCountLines, NoteSeries, SuccessLines, CountOf, OfLevel;
    var findings := run.audit.value;
    var head := StatusLines(check, IsClean(run)) + RunLines(check, Rounded(run.now));
    var w, n := WarningLines(check, CountOf(findings, Warn)), NoteCountLines(check, CountOf(findings, Note));
    var rest := NoteSeries(check, OfLevel(findings, Note)) + SuccessLines(check, Success(run, prior));
    ReadFrom(check, run, prior, head, "_failures", "Things the check found " + "that do not hold",
             CountOf(findings, Fail), w + n + rest);
  }

  lemma WarningsAreRead(check: string, run: Run, prior: Option<nat>)
    requires IsCheckName(check) && run.now >= 0.0 && run.audit.Some?
    ensures Reading(Body(check, run, prior), "_warnings", check) == Some(CountOf(run.audit.value, Warn))
  {
    SuffixesArePlain();
    WarningHelpIsPlain();
    CountLinesAre(check, run, prior);
    StatusIsOther(check, IsClean(run));
    RunIsOther(check, Rounded(run.now));
    var findings := run.audit.value;
    CountsAreOther(check, CountOf(findings, Fail), 0);
    hide IsPlain, IsCheckName, Gauge, Series, IsClean, Body, AllLines, Rounded, Misses, Reading, StatusLines, RunLines,
         FailureLines, NoteCountLines, NoteSeries, SuccessLines, CountOf, OfLevel;
    var head := StatusLines(check, IsClean(run)) + RunLines(check, Rounded(run.now));
    var f, n := FailureLines(check, CountOf(findings, Fail)), NoteCountLines(check, CountOf(findings, Note));
    var rest := NoteSeries(check, OfLevel(findings, Note)) + SuccessLines(check, Success(run, prior));
    ReadFrom(check, run, prior, head + f, "_warnings", "Things the check found " + "worth a look",
             CountOf(findings, Warn), n + rest);
  }

  lemma NotesAreRead(check: string, run: Run, prior: Option<nat>)
    requires IsCheckName(check) && run.now >= 0.0 && run.audit.Some?
    ensures Reading(Body(check, run, prior), "_notes", check) == Some(CountOf(run.audit.value, Note))
  {
    SuffixesArePlain();
    NoteHelpIsPlain();
    CountLinesAre(check, run, prior);
    StatusIsOther(check, IsClean(run));
    RunIsOther(check, Rounded(run.now));
    var findings := run.audit.value;
    CountsAreOther(check, CountOf(findings, Fail), CountOf(findings, Warn));
    hide IsPlain, IsCheckName, Gauge, Series, IsClean, Body, AllLines, Rounded, Misses, Reading, StatusLines, RunLines,
         FailureLines, WarningLines, NoteSeries, SuccessLines, CountOf, OfLevel;
    var head := StatusLines(check, IsClean(run)) + RunLines(check, Rounded(run.now));
    var f, w := FailureLines(check, CountOf(findings, Fail)), WarningLines(check, CountOf(findings, Warn));
    var rest := NoteSeries(check, OfLevel(findings, Note)) + SuccessLines(check, Success(run, prior));
    ReadFrom(check, run, prior, head + f + w, "_notes", "Things the check stated " + "and did not fail on",
             CountOf(findings, Note), rest);
  }

  /** And the number of findings of each level, of a check that got as far as having any. */
  lemma CountsAreRead(check: string, run: Run, prior: Option<nat>)
    requires IsCheckName(check) && run.now >= 0.0 && run.audit.Some?
    ensures Reading(Body(check, run, prior), "_failures", check) == Some(CountOf(run.audit.value, Fail))
    ensures Reading(Body(check, run, prior), "_warnings", check) == Some(CountOf(run.audit.value, Warn))
    ensures Reading(Body(check, run, prior), "_notes", check) == Some(CountOf(run.audit.value, Note))
  {
    FailuresAreRead(check, run, prior);
    WarningsAreRead(check, run, prior);
    NotesAreRead(check, run, prior);
  }

  lemma SuccessIsOther(check: string, success: Option<nat>, suffix: string)
    requires IsCheckName(check) && IsPlain(suffix) && |suffix| > 1 && suffix[1] != 'l'
    ensures AllMiss(SuccessLines(check, success), Series(suffix, check))
  {
    SuccessIsPlain();
    SuccessHelpIsPlain();
    hide IsPlain, IsCheckName, Gauge, Series, Misses;
    if success.Some? {
      OtherMisses(SUCCESS, "When the check last ran " + "and found nothing wrong", check, success.value, suffix, 1);
    }
  }

  /** A check that got nowhere has no count under any level. */
  lemma CountsAreAbsent(check: string, run: Run, prior: Option<nat>, suffix: string)
    requires IsCheckName(check) && run.now >= 0.0 && run.audit.None?
    requires suffix in ["_failures", "_warnings", "_notes"] && Misses(run.extra, SeriesName(suffix, check))
    ensures Reading(Body(check, run, prior), suffix, check) == None
  {
    SuffixesArePlain();
    SuffixesDiffer();
    NameIs(suffix, check);
    SeriesIsPlain(suffix, check);
    var key, head := Series(suffix, check), StatusLines(check, IsClean(run)) + RunLines(check, Rounded(run.now));
    assert key != "";
    StatusIsOther(check, IsClean(run));
    RunIsOther(check, Rounded(run.now));
    SuccessIsOther(check, Success(run, prior), suffix);
    hide IsPlain, IsCheckName, Gauge, Series, SeriesName, IsClean, Rounded, AllMiss, Misses, StatusLines, RunLines,
         SuccessLines, Success, Pieces, PriorIn, JoinLines, StripNewlines;
    AllMissConcat(StatusLines(check, IsClean(run)), RunLines(check, Rounded(run.now)), key);
    AllMissConcat(head, SuccessLines(check, Success(run, prior)), key);
    ExtraMisses(run.extra, key);
    assert HeadLines(check, run) == head + [] == head;
    NothingRead(head + SuccessLines(check, Success(run, prior)),
                if run.extra == "" then "" else StripNewlines(run.extra) + "\n", key);
  }

  lemma {:induction false} OfLevelHas(findings: seq<Finding>, f: Finding)
    requires f in findings
    ensures f in OfLevel(findings, f.level)
    decreases |findings|
  {
    if findings[0] != f {
      assert findings == [findings[0]] + findings[1..];
      OfLevelHas(findings[1..], f);
    }
  }

  /** Every note of a check is a line of its file, with the code and the message as labels. */
  lemma NotesAreListed(check: string, run: Run, prior: Option<nat>, f: Finding)
    requires run.now >= 0.0 && run.audit.Some? && f in run.audit.value && f.level == Note
    ensures "innotel_estate_check" + "_note{check=\"" + check + "\",code=\"" + Label(f.code)
              + "\",detail=\"" + Label(f.message) + "\"} 1" in AllLines(check, run, prior)
    ensures JoinLines(AllLines(check, run, prior)) <= Body(check, run, prior)
  {
    var notes := OfLevel(run.audit.value, Note);
    OfLevelHas(run.audit.value, f);
    var i :| 0 <= i < |notes| && notes[i] == f;
    hide Label, OfLevel, StatusLines, RunLines, FailureLines, WarningLines, NoteCountLines, SuccessLines, NoteComments,
         JoinLines, IsClean, Rounded, StripNewlines;
    var line := NoteLine(check, f);
    assert NoteLines(check, notes)[i] == line;
    assert line in NoteSeries(check, notes);
    assert line in AuditLines(check, run.audit.value);
    assert line in HeadLines(check, run);
  }

  // ── over a series of runs ──

  /** The last run of all that succeeded. */
  predicate IsLastSuccess(runs: seq<Run>, i: nat) {
    i < |runs| && Succeeded(runs[i]) && forall j :: i < j < |runs| ==> !Succeeded(runs[j])
  }

  lemma {:induction false} LastCleanIs(runs: seq<Run>)
    requires forall i :: 0 <= i < |runs| ==> runs[i].now >= 0.0
    ensures LastClean(runs).None? <==> forall i :: 0 <= i < |runs| ==> !Succeeded(runs[i])
    ensures forall i: nat :: IsLastSuccess(runs, i) ==> LastClean(runs) == Some(Rounded(runs[i].now))
    decreases |runs|
  {
    if runs != [] {
      var init, last := runs[..|runs| - 1], runs[|runs| - 1];
      CleanIs(last);
      LastCleanIs(init);
      hide IsClean, Succeeded, Rounded;
      assert forall i :: 0 <= i < |init| ==> init[i] == runs[i];
      forall i: nat | IsLastSuccess(runs, i) ensures LastClean(runs) == Some(Rounded(runs[i].now)) {
        if i < |init| {
          assert IsLastSuccess(init, i);
        }
      }
    }
  }

  /** After any series of runs from no file, what is read under the last success is the time of the last run
      that got to the end with no failure, or nothing where none did; as long as no run's own series are filed
      under that name. */
  lemma LastSuccessIsRead(check: string, runs: seq<Run>)
    requires IsCheckName(check)
    requires forall i :: 0 <= i < |runs| ==> runs[i].now >= 0.0
    requires forall i :: 0 <= i < |runs| ==> Misses(runs[i].extra, SeriesName("_last_success_timestamp", check))
    ensures var read := Prior(FileAfter(check, runs), SeriesName("_last_success_timestamp", check));
            && (read.None? <==> forall i :: 0 <= i < |runs| ==> !Succeeded(runs[i]))
            && (forall i: nat :: IsLastSuccess(runs, i) ==> read.Some? && IsNearest(runs[i].now, read.value))
  {
    NameIs("_last_success_timestamp", check);
    assert Key(check) == Series("_last_success_timestamp", check);
    HistoryIsKept(check, runs);
    LastCleanIs(runs);
    hide IsCheckName, Key, Series, SeriesName, Misses, IsNearest, Rounded, Succeeded, FileAfter, Prior;
    forall i: nat | IsLastSuccess(runs, i) ensures IsNearest(runs[i].now, Rounded(runs[i].now)) {
      RoundedIsNearest(runs[i].now);
    }
  }
}
