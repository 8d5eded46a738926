/** What the textfile remembers: the time of the last clean run, through any series of runs. */
module History {
  import opened Basics
  import opened Labels
  import opened TextLines
  import opened Textfile

  const SUCCESS := "_last_success_timestamp"

  lemma PlainConcat(a: string, b: string)
    ensures IsPlain(a + b) <==> IsPlain(a) && IsPlain(b)
  {
  }

  lemma MetricIsPlain()
    ensures IsPlain(METRIC) && ' ' !in METRIC && '"' !in METRIC && METRIC[0] == 'i' && |METRIC| > 0
  {
  }

  lemma SuccessSpelled()
    ensures |SUCCESS| == 23 && SUCCESS[1] == 'l' && SUCCESS[6] == 's' && SUCCESS[7] == 'u'
  {
  }

  lemma SuccessIsPlain()
    ensures IsPlain(SUCCESS) && ' ' !in SUCCESS && '"' !in SUCCESS
    ensures |SUCCESS| == 23 && SUCCESS[1] == 'l' && SUCCESS[6] == 's' && SUCCESS[7] == 'u'
  {
    SuccessSpelled();
  }

  lemma OpeningIsPlain()
    ensures IsPlain("{check=\"") && ' ' !in "{check=\""
    ensures IsPlain("\"}") && ' ' !in "\"}"
  {
  }

  lemma SeriesIsPlain(suffix: string, check: string)
    requires IsPlain(suffix) && IsPlain(check)
    ensures IsPlain(Series(suffix, check))
    ensures ' ' !in suffix && ' ' !in check ==> ' ' !in Series(suffix, check)
    ensures |Series(suffix, check)| > |METRIC| + |suffix|
    ensures forall i :: 0 <= i < |suffix| ==> Series(suffix, check)[|METRIC| + i] == suffix[i]
    ensures Series(suffix, check)[0] == 'i'
  {
    MetricIsPlain();
    OpeningIsPlain();
    var opening, closing := "{check=\"", "\"}";
    assert Series(suffix, check) == METRIC + suffix + opening + check + closing;
  }

  lemma KeyIsPlain(check: string)
    requires IsCheckName(check)
    ensures IsPlain(Key(check)) && ' ' !in Key(check) && |Key(check)| > |METRIC| + |SUCCESS| && Key(check)[0] == 'i'
    ensures forall i :: 0 <= i < |SUCCESS| ==> Key(check)[|METRIC| + i] == SUCCESS[i]
  {
    SuccessIsPlain();
    SeriesIsPlain(SUCCESS, check);
  }

  /** A comment carries no metric. */
  lemma CommentMisses(comment: string, check: string)
    requires IsCheckName(check) && IsPlain(comment) && comment != "" && comment[0] == '#'
    ensures Misses(comment, Key(check))
  {
    KeyIsPlain(check);
    DiffersMisses(comment, Key(check), 0);
  }

  lemma DecimalIsPlain(n: nat)
    ensures IsPlain(" " + Decimal(n))
  {
    var text := Decimal(n);
    assert forall i :: 0 <= i < |text| ==> text[i] != '\n' && text[i] != '\r';
    PlainConcat(" ", text);
  }

  lemma SampleMisses(suffix: string, check: string, value: nat, i: nat)
    requires IsCheckName(check) && IsPlain(suffix)
    requires i < |suffix| && i < |SUCCESS| && suffix[i] != SUCCESS[i]
    ensures Misses(Series(suffix, check) + " " + Decimal(value), Key(check))
  {
    KeyIsPlain(check);
    SeriesIsPlain(suffix, check);
    DecimalIsPlain(value);
    hide Series, Key, Decimal, Misses;
    var series := Series(suffix, check);
    Associate(series, " ", Decimal(value));
    PlainConcat(series, " " + Decimal(value));
    assert (series + (" " + Decimal(value)))[|METRIC| + i] == series[|METRIC| + i];
    DiffersMisses(series + " " + Decimal(value), Key(check), |METRIC| + i);
  }

  /** The lines of another series miss the key, when its name differs from it at some place. */
  lemma GaugeMisses(suffix: string, help: string, check: string, value: nat, i: nat)
    requires IsCheckName(check) && IsPlain(suffix) && IsPlain(help)
    requires i < |suffix| && i < |SUCCESS| && suffix[i] != SUCCESS[i]
    ensures forall line :: line in Gauge(suffix, help, check, value) ==> Misses(line, Key(check))
  {
    hide Key, Misses, IsCheckName, Series, IsPlain;
    GaugeComments(suffix, help, check, value);
    SampleMisses(suffix, check, value, i);
  }

  lemma GaugeComments(suffix: string, help: string, check: string, value: nat)
    requires IsCheckName(check) && IsPlain(suffix) && IsPlain(help)
    ensures IsPlain(Gauge(suffix, help, check, value)[0]) && IsPlain(Gauge(suffix, help, check, value)[1])
    ensures Misses(Gauge(suffix, help, check, value)[0], Key(check))
    ensures Misses(Gauge(suffix, help, check, value)[1], Key(check))
  {
    MetricIsPlain();
    var a, b := "# HELP " + METRIC + suffix + " " + help, "# TYPE " + METRIC + suffix + " gauge";
    assert IsPlain("# HELP ") && IsPlain("# TYPE ") && IsPlain(" ") && IsPlain(" gauge");
    CommentMisses(a, check);
    CommentMisses(b, check);
  }

  // ── the lines with notes ──

  /** A piece of a text starts at its start or after a line end. */
  ghost predicate IsPieceAt(text: string, piece: string, i: nat) {
    i + |piece| <= |text| && text[i..i + |piece|] == piece && (i == 0 || IsEol(text[i - 1]))
  }

  lemma PieceFurther(text: string, piece: string, j: nat)
    requires text != "" && IsPieceAt(text[1..], piece, j) && (j > 0 || IsEol(text[0]))
    ensures IsPieceAt(text, piece, j + 1)
  {
    assert text[j + 1..j + 1 + |piece|] == text[1..][j..j + |piece|];
  }

  lemma PieceLonger(text: string, piece: string)
    requires text != "" && IsPieceAt(text[1..], piece, 0)
    ensures IsPieceAt(text, [text[0]] + piece, 0)
  {
    assert text[..1 + |piece|] == [text[0]] + text[1..][..|piece|];
  }

  lemma {:induction false} PieceAt(text: string, k: nat) returns (i: nat)
    requires k < |Pieces(text)|
    ensures IsPieceAt(text, Pieces(text)[k], i) && (k == 0 ==> i == 0) && (k > 0 ==> i > 0)
    decreases |text|
  {
    i := 0;
    if text != "" {
      hide IsPieceAt;
      var rest := Pieces(text[1..]);
      if IsEol(text[0]) {
        if k > 0 {
          var j := PieceAt(text[1..], k - 1);
          PieceFurther(text, rest[k - 1], j);
          i := j + 1;
        } else {
          NoPiece(text);
        }
      } else {
        var j := PieceAt(text[1..], k);
        if k == 0 {
          PieceLonger(text, rest[0]);
        } else {
          PieceFurther(text, rest[k], j);
          i := j + 1;
        }
      }
    }
  }

  lemma NoPiece(text: string)
    ensures IsPieceAt(text, "", 0)
  {
  }

  function Opening(): string {
    METRIC + SUCCESS + "{check="
  }

  lemma OpeningIs(check: string)
    requires IsCheckName(check)
    ensures Key(check) == Opening() + "\"" + check + "\"}"
    ensures '"' !in Opening() && |Opening()| > 1 && Opening()[|Opening()| - 1] == '='
  {
    MetricIsPlain();
    SuccessIsPlain();
    assert "{check=\"" == "{check=" + "\"";
    assert '"' !in "{check=";
  }

  /** The texts around the labels of a note. */
  function NoteHead(check: string): string {
    METRIC + "_note{check=\"" + check + "\",code=\""
  }

  function NoteMiddle(): string {
    "\",detail=\""
  }

  function NoteTail(): string {
    "\"} 1"
  }

  lemma NoteParts(check: string, note: Finding)
    ensures NoteLine(check, note)
         == NoteHead(check) + Label(note.code) + NoteMiddle() + Label(note.message) + NoteTail()
  {
  }

  lemma NoteHeadIs(check: string)
    requires IsCheckName(check)
    ensures IsPlain(NoteHead(check)) && |NoteHead(check)| > |METRIC| + 1 && NoteHead(check)[|METRIC| + 1] == 'n'
    ensures IsPlain(NoteMiddle()) && IsPlain(NoteTail())
  {
    MetricIsPlain();
    assert IsPlain("_note{check=\"") && IsPlain("\",code=\"");
    assert NoteHead(check) == METRIC + "_note{check=\"" + (check + "\",code=\"");
  }

  /** A text that reads on like a key from inside a label would need the key's first quote where the
      label has one, but a label's quotes stand behind backslashes, and the one that closes the label
      is followed by what no check's name begins with. */
  lemma LabelHidesKey(text: string, start: nat, label': string, after: string, check: string, i: nat)
    requires IsCheckName(check) && IsLabel(label')
    requires start + |label'| + |after| <= |text|
    requires text[start..start + |label'|] == label' && text[start + |label'|..][..|after|] == after
    requires after == NoteMiddle() || after == NoteTail()
    requires start < i <= start + |label'|
    ensures !(Key(check) <= text[i..])
  {
    var key, q, close := Key(check), |Opening()|, start + |label'|;
    OpeningIs(check);
    if key <= text[i..] {
      forall j | 0 <= j < |key| ensures text[i + j] == key[j] {
        assert text[i..][j] == key[j];
      }
      forall j | 0 <= j < |label'| ensures text[start + j] == label'[j] {
        assert text[start..close][j] == label'[j];
      }
      forall j | 0 <= j < |after| ensures text[close + j] == after[j] {
        assert text[close..][..|after|][j] == after[j];
      }
      forall j | 0 <= j < q ensures key[j] != '"' {
        assert key[j] == Opening()[j];
      }
      assert key[q] == '"' && key[q - 1] == '=';
      assert text[close] == '"';
      assert i + q >= close;
      assert i + q == close;
      KeyAfterQuote(check);
    }
  }

  lemma KeyAfterQuote(check: string)
    requires IsCheckName(check)
    ensures var key, q := Key(check), |Opening()|;
            && |key| >= q + 3 && key[q + 1] != ',' && !(key[q + 1] == '}' && key[q + 2] == ' ')
  {
    OpeningIs(check);
    var key, q := Key(check), |Opening()|;
    var rest := "\"" + check + "\"}";
    assert key == Opening() + rest;
    assert key[q + 1] == rest[1] && key[q + 2] == rest[2];
    if check == "" {
      assert rest[1] == '"';
    } else {
      assert rest[1] == check[0];
      assert |check| > 1 ==> rest[2] == check[1];
      assert |check| == 1 ==> rest[2] == '"';
    }
  }

  /** No note can pass for the last success, whatever it says and however many line ends it has. */
  lemma NoteMisses(check: string, note: Finding)
    requires IsCheckName(check)
    ensures Misses(NoteLine(check, note), Key(check))
  {
    var text, key := NoteLine(check, note), Key(check);
    forall k | 0 <= k < |Pieces(text)| ensures KeyOf(Pieces(text)[k]) != key {
      var i := PieceAt(text, k);
      KeyIsPrefix(Pieces(text)[k]);
      NoteHidesKey(check, note, i);
      assert text[i..][..|Pieces(text)[k]|] == Pieces(text)[k];
    }
  }

  lemma NoteHidesKey(check: string, note: Finding, i: nat)
    requires IsCheckName(check) && i <= |NoteLine(check, note)|
    requires i == 0 || IsEol(NoteLine(check, note)[i - 1])
    ensures !(Key(check) <= NoteLine(check, note)[i..])
  {
    hide IsCheckName, IsLabel, Label, Key, NoteLine, NoteHead, NoteMiddle, NoteTail;
    NoteParts(check, note);
    NoteHeadIs(check);
    LabelIsLabel(note.code);
    LabelIsLabel(note.message);
    if i == 0 {
      HeadDiffers(check, Label(note.code) + NoteMiddle() + Label(note.message) + NoteTail());
      assert NoteLine(check, note)[0..] == NoteLine(check, note);
      assert NoteLine(check, note)
          == NoteHead(check) + (Label(note.code) + NoteMiddle() + Label(note.message) + NoteTail());
    } else {
      PartsHideKey(NoteHead(check), Label(note.code), Label(note.message), check, i);
    }
  }

  lemma HeadDiffers(check: string, rest: string)
    requires IsCheckName(check)
    ensures !(Key(check) <= NoteHead(check) + rest)
  {
    NoteHeadIs(check);
    KeyIsPlain(check);
    SuccessIsPlain();
    hide Key, NoteHead;
    assert (NoteHead(check) + rest)[|METRIC| + 1] == NoteHead(check)[|METRIC| + 1];
  }

  lemma PartsHideKey(head: string, code: string, message: string, check: string, i: nat)
    requires IsCheckName(check) && IsPlain(head) && IsLabel(code) && IsLabel(message)
    requires IsPlain(NoteMiddle()) && IsPlain(NoteTail())
    requires 0 < i <= |head + code + NoteMiddle() + message + NoteTail()|
    requires IsEol((head + code + NoteMiddle() + message + NoteTail())[i - 1])
    ensures !(Key(check) <= (head + code + NoteMiddle() + message + NoteTail())[i..])
  {
    hide IsCheckName, IsLabel, Key, NoteMiddle, NoteTail;
    var middle, tail := NoteMiddle(), NoteTail();
    var text := head + code + middle + message + tail;
    var a, b := |head|, |head| + |code| + |middle|;
    assert text[a..a + |code|] == code && text[a + |code|..][..|middle|] == middle;
    assert text[b..b + |message|] == message && text[b + |message|..][..|tail|] == tail;
    InsidePlain(text, head, 0, i);
    InsidePlain(text, middle, a + |code|, i);
    InsidePlain(text, tail, b + |message|, i);
    if a < i <= a + |code| {
      LabelHidesKey(text, a, code, middle, check, i);
    } else {
      LabelHidesKey(text, b, message, tail, check, i);
    }
  }

  lemma InsidePlain(text: string, part: string, at: nat, i: nat)
    requires 0 < i <= |text| && at + |part| <= |text| && IsPlain(part)
    requires forall j :: 0 <= j < |part| ==> text[at + j] == part[j]
    ensures at < i <= at + |part| ==> !IsEol(text[i - 1])
  {
    if at < i <= at + |part| {
      var j := i - 1 - at;
      assert text[at + j] == part[j] && part[j] in part;
    }
  }

  // ── the file as a whole ──

  ghost predicate AllMiss(lines: seq<string>, key: string) {
    forall line :: line in lines ==> Misses(line, key)
  }

  lemma AllMissConcat(a: seq<string>, b: seq<string>, key: string)
    requires AllMiss(a, key) && AllMiss(b, key)
    ensures AllMiss(a + b, key)
  {
  }

  lemma {:induction false} JoinMisses(lines: seq<string>, key: string)
    requires AllMiss(lines, key) && key != ""
    ensures Misses(JoinLines(lines), key)
    decreases |lines|
  {
    if lines == [] {
      assert Pieces("") == [""];
    } else {
      assert lines[0] in lines;
      if |lines| > 1 {
        JoinMisses(lines[1..], key);
        PiecesConcat(lines[0], JoinLines(lines[1..]));
      }
    }
  }

  lemma {:induction false} MissesStripped(text: string, key: string)
    requires Misses(text, key)
    ensures Misses(StripNewlines(text), key)
    decreases |text|
  {
    if text != "" && text[|text| - 1] == '\n' {
      var init := text[..|text| - 1];
      assert text == init + "\n" + "";
      PiecesConcat(init, "");
      assert forall p :: p in Pieces(init) ==> p in Pieces(text);
      MissesStripped(init, key);
    }
  }

  lemma PlainNoteHelp()
    ensures IsPlain("_note One series per note, " + "with the reason in `detail`")
  {
    assert IsPlain("_note One series per note, ") && IsPlain("with the reason in `detail`");
  }

  lemma PlainPrefixes()
    ensures IsPlain("# HELP " + METRIC) && IsPlain("# TYPE " + METRIC) && IsPlain("_note gauge")
  {
    MetricIsPlain();
  }

  lemma NoteCommentsMiss(check: string)
    requires IsCheckName(check)
    ensures AllMiss(NoteComments(), Key(check))
  {
    PlainNoteHelp();
    PlainPrefixes();
    var detail, gauge := "_note One series per note, " + "with the reason in `detail`", "_note gauge";
    var help, kind := "# HELP " + METRIC, "# TYPE " + METRIC;
    assert NoteComments() == [help + detail, kind + gauge] by {
      Associate(help, "_note One series per note, ", "with the reason in `detail`");
    }
    CommentMisses(help + detail, check);
    CommentMisses(kind + gauge, check);
  }

  lemma NotesMiss(check: string, notes: seq<Finding>)
    requires IsCheckName(check)
    ensures AllMiss(NoteSeries(check, notes), Key(check))
  {
    hide Key, NoteLine, NoteComments, Misses, IsCheckName;
    if notes != [] {
      NoteCommentsMiss(check);
      forall i | 0 <= i < |notes| ensures Misses(NoteLines(check, notes)[i], Key(check)) {
        NoteMisses(check, notes[i]);
      }
      AllMissConcat(NoteComments(), NoteLines(check, notes), Key(check));
    }
  }

  lemma StatusMisses(check: string, ok: bool)
    requires IsCheckName(check)
    ensures AllMiss(StatusLines(check, ok), Key(check))
  {
    SuccessIsPlain();
    assert IsPlain("1 when the check ran ") && IsPlain("and found nothing");
    GaugeMisses("_last_status", "1 when the check ran " + "and found nothing", check, if ok then 1 else 0, 7);
  }

  lemma RunMisses(check: string, now: nat)
    requires IsCheckName(check)
    ensures AllMiss(RunLines(check, now), Key(check))
  {
    SuccessIsPlain();
    assert IsPlain("When the check last ran, ") && IsPlain("whatever it found");
    GaugeMisses("_last_run_timestamp", "When the check last ran, " + "whatever it found", check, now, 6);
  }

  lemma FailuresMiss(check: string, count: nat)
    requires IsCheckName(check)
    ensures AllMiss(FailureLines(check, count), Key(check))
  {
    SuccessIsPlain();
    assert IsPlain("Things the check found ") && IsPlain("that do not hold");
    GaugeMisses("_failures", "Things the check found " + "that do not hold", check, count, 1);
  }

  lemma WarningsMiss(check: string, count: nat)
    requires IsCheckName(check)
    ensures AllMiss(WarningLines(check, count), Key(check))
  {
    SuccessIsPlain();
    assert IsPlain("Things the check found ") && IsPlain("worth a look");
    GaugeMisses("_warnings", "Things the check found " + "worth a look", check, count, 1);
  }

  lemma NoteCountMisses(check: string, count: nat)
    requires IsCheckName(check)
    ensures AllMiss(NoteCountLines(check, count), Key(check))
  {
    SuccessIsPlain();
    assert IsPlain("Things the check stated ") && IsPlain("and did not fail on");
    GaugeMisses("_notes", "Things the check stated " + "and did not fail on", check, count, 1);
  }

  lemma HeadMisses(check: string, run: Run)
    requires IsCheckName(check) && run.now >= 0.0
    ensures AllMiss(HeadLines(check, run), Key(check))
  {
    hide Key, Misses, AllMiss, IsCheckName, StatusLines, RunLines, FailureLines, WarningLines;
    hide NoteCountLines, NoteSeries;
    var key := Key(check);
    var a, b := StatusLines(check, IsClean(run)), RunLines(check, Rounded(run.now));
    StatusMisses(check, IsClean(run));
    RunMisses(check, Rounded(run.now));
    AllMissConcat(a, b, key);
    if run.audit.Some? {
      var findings := run.audit.value;
      var c, d := FailureLines(check, |OfLevel(findings, Fail)|), WarningLines(check, |OfLevel(findings, Warn)|);
      var e := NoteCountLines(check, |OfLevel(findings, Note)|);
      FailuresMiss(check, |OfLevel(findings, Fail)|);
      WarningsMiss(check, |OfLevel(findings, Warn)|);
      NoteCountMisses(check, |OfLevel(findings, Note)|);
      NotesMiss(check, OfLevel(findings, Note));
      AllMissConcat(c, d, key);
      AllMissConcat(c + d, e, key);
      AllMissConcat(c + d + e, NoteSeries(check, OfLevel(findings, Note)), key);
      AllMissConcat(a + b, AuditLines(check, findings), key);
    } else {
      assert a + b + [] == a + b;
    }
  }

  lemma SuccessHelpIsPlain()
    ensures IsPlain("When the check last ran " + "and found nothing wrong")
  {
    assert IsPlain("When the check last ran ") && IsPlain("and found nothing wrong");
  }

  lemma SampleReads(check: string, value: nat)
    requires IsCheckName(check)
    ensures var line := Key(check) + " " + Decimal(value);
            Pieces(line) == [line] && KeyOf(line) == Key(check) && Parse(ValueOf(line)) == Some(value)
  {
    KeyIsPlain(check);
    DecimalIsPlain(value);
    Associate(Key(check), " ", Decimal(value));
    PlainConcat(Key(check), " " + Decimal(value));
    PlainPieces(Key(check) + " " + Decimal(value));
    KeyAndValue(Key(check), Decimal(value));
    ParseDecimal(value);
  }

  lemma ThreePieces(a: string, b: string, c: string)
    requires IsPlain(a) && IsPlain(b)
    ensures Pieces(JoinLines([a, b, c])) == [a, b] + Pieces(c)
  {
    PlainPieces(a);
    PlainPieces(b);
    PiecesConcat(b, c);
    PiecesConcat(a, b + "\n" + c);
    assert [b, c][1..] == [c] && [a, b, c][1..] == [b, c];
    assert JoinLines([b, c]) == b + "\n" + c;
    assert JoinLines([a, b, c]) == a + "\n" + (b + "\n" + c);
  }

  /** The lines of the last success, read back. */
  lemma SuccessReads(check: string, value: nat, rest: seq<string>)
    requires IsCheckName(check)
    ensures PriorIn(Pieces(JoinLines(SuccessLines(check, Some(value)))) + rest, Key(check)) == Some(value)
  {
    var help := "When the check last ran " + "and found nothing wrong";
    var lines := Gauge(SUCCESS, help, check, value);
    SuccessIsPlain();
    SuccessHelpIsPlain();
    GaugeComments(SUCCESS, help, check, value);
    SampleReads(check, value);
    assert lines[2] == Key(check) + " " + Decimal(value);
    hide Gauge, Key, Decimal, Pieces, KeyOf, ValueOf, Parse, JoinLines, IsPlain, IsCheckName;
    var a, b, c := lines[0], lines[1], lines[2];
    assert lines == [a, b, c] by {
      GaugeLength(SUCCESS, help, check, value);
    }
    ThreePieces(a, b, c);
    assert Pieces(JoinLines(lines)) + rest == [a, b] + ([c] + rest);
    assert a in Pieces(a) && b in Pieces(b) by {
      OwnPiece(a);
      OwnPiece(b);
    }
    PriorConcat([a, b], [c] + rest, Key(check));
  }

  lemma OwnPiece(line: string)
    requires IsPlain(line)
    ensures line in Pieces(line)
  {
    PlainPieces(line);
  }

  lemma GaugeLength(suffix: string, help: string, check: string, value: nat)
    ensures |Gauge(suffix, help, check, value)| == 3
  {
  }

  lemma NothingRead(head: seq<string>, extra: string, key: string)
    requires AllMiss(head, key) && Misses(extra, key) && key != ""
    ensures PriorIn(Pieces(JoinLines(head) + "\n" + extra), key) == None
  {
    JoinMisses(head, key);
    PiecesConcat(JoinLines(head), extra);
    hide Pieces, JoinLines, KeyOf, ValueOf;
    PriorConcat(Pieces(JoinLines(head)), Pieces(extra), key);
    assert Pieces(extra) + [] == Pieces(extra);
    PriorConcat(Pieces(extra), [], key);
  }

  lemma SuccessIsRead(head: seq<string>, check: string, value: nat, extra: string)
    requires IsCheckName(check) && AllMiss(head, Key(check)) && head != []
    ensures PriorIn(Pieces(JoinLines(head + SuccessLines(check, Some(value))) + "\n" + extra), Key(check))
         == Some(value)
  {
    var key, own := Key(check), SuccessLines(check, Some(value));
    KeyIsPlain(check);
    JoinMisses(head, key);
    hide Pieces, JoinLines, KeyOf, ValueOf, Key, Misses, IsCheckName;
    JoinConcat(head, own);
    PiecesConcat(JoinLines(head + own), extra);
    PiecesConcat(JoinLines(head), JoinLines(own));
    Associate(Pieces(JoinLines(head)), Pieces(JoinLines(own)), Pieces(extra));
    MissedFirst(JoinLines(head), key);
    PriorConcat(Pieces(JoinLines(head)), Pieces(JoinLines(own)) + Pieces(extra), key);
    SuccessReads(check, value, Pieces(extra));
  }

  lemma MissedFirst(text: string, key: string)
    requires Misses(text, key)
    ensures forall p :: p in Pieces(text) ==> KeyOf(p) != key
  {
  }

  /** The file a run writes says when the check last succeeded: now, or whenever the file it replaces said. */
  lemma BodyRemembers(check: string, run: Run, prior: Option<nat>)
    requires IsCheckName(check) && run.now >= 0.0 && Misses(run.extra, Key(check))
    ensures Prior(Some(Body(check, run, prior)), Key(check)) == Success(run, prior)
  {
    KeyIsPlain(check);
    HeadMisses(check, run);
    ExtraMisses(run.extra, Key(check));
    hide Key, Misses, IsCheckName, IsClean, AuditLines, StatusLines, RunLines, Rounded;
    hide Pieces, JoinLines, PriorIn, StripNewlines;
    var head, success := HeadLines(check, run), Success(run, prior);
    var extra := if run.extra == "" then "" else StripNewlines(run.extra) + "\n";
    if success.None? {
      assert head + [] == head;
      NothingRead(head, extra, Key(check));
    } else {
      HeadIsSome(check, run);
      SuccessIsRead(head, check, success.value, extra);
    }
  }

  lemma HeadIsSome(check: string, run: Run)
    requires run.now >= 0.0
    ensures HeadLines(check, run) != []
  {
  }

  lemma ExtraMisses(extra: string, key: string)
    requires Misses(extra, key) && key != ""
    ensures Misses(if extra == "" then "" else StripNewlines(extra) + "\n", key)
  {
    MissesStripped(extra, key);
    PiecesConcat(StripNewlines(extra), "");
    assert StripNewlines(extra) + "\n" + "" == StripNewlines(extra) + "\n";
  }

  /** After any series of runs from no file, the time recovered is that of the most recent clean run,
      and there is none exactly when there was no clean run: whatever the notes say, and as long as
      no run's own series are filed under the check's key. */
  lemma {:induction false} HistoryIsKept(check: string, runs: seq<Run>)
    requires IsCheckName(check)
    requires forall i :: 0 <= i < |runs| ==> runs[i].now >= 0.0 && Misses(runs[i].extra, Key(check))
    ensures Prior(FileAfter(check, runs), Key(check)) == LastClean(runs)
    decreases |runs|
  {
    if runs != [] {
      var init := runs[..|runs| - 1];
      HistoryIsKept(check, init);
      BodyRemembers(check, runs[|runs| - 1], Prior(FileAfter(check, init), Key(check)));
    }
  }

  /** A check whose name has a space in it never recovers anything. */
  lemma SpaceLosesHistory(check: string, file: Option<string>)
    requires ' ' in check
    ensures Prior(file, Key(check)) == None
  {
    if file.Some? {
      SpaceMisses(check, Pieces(file.value));
    }
  }

  lemma {:induction false} SpaceMisses(check: string, lines: seq<string>)
    requires ' ' in check
    ensures PriorIn(lines, Key(check)) == None
    decreases |lines|
  {
    if lines != [] {
      KeyHasNoSpace(lines[0]);
      var i :| 0 <= i < |check| && check[i] == ' ';
      var before := METRIC + SUCCESS + "{check=\"";
      assert Key(check) == before + check + "\"}";
      assert Key(check)[|before| + i] == ' ';
      SpaceMisses(check, lines[1..]);
    }
  }

  lemma {:induction false} KeyHasNoSpace(line: string)
    ensures ' ' !in KeyOf(line)
  {
    if line != "" && line[0] != ' ' {
      KeyHasNoSpace(line[1..]);
    }
  }

  /** A series of the check's own that is filed under its key passes for a success that never was. */
  lemma ExtraForges(check: string, value: nat)
    requires IsCheckName(check)
    ensures var run := Run(None, false, 0.0, Key(check) + " " + Decimal(value));
            LastClean([run]) == None && Prior(FileAfter(check, [run]), Key(check)) == Some(value)
  {
    var key, line := Key(check), Key(check) + " " + Decimal(value);
    var run := Run(None, false, 0.0, line);
    assert [run][..0] == [];
    KeyIsPlain(check);
    DecimalIsPlain(value);
    Associate(key, " ", Decimal(value));
    PlainConcat(key, " " + Decimal(value));
    PlainPieces(line);
    assert line[|line| - 1] == Decimal(value)[|Decimal(value)| - 1];
    var head := HeadLines(check, run);
    assert head + [] == head;
    HeadMisses(check, run);
    JoinMisses(head, key);
    PiecesConcat(JoinLines(head), line + "\n");
    PiecesConcat(line, "");
    assert line + "\n" + "" == line + "\n";
    PriorConcat(Pieces(JoinLines(head)), Pieces(line + "\n"), key);
    KeyAndValue(key, Decimal(value));
    ParseDecimal(value);
  }
}
