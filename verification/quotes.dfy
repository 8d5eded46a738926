/** Where the string literals of a line are. */
module Quotes {
  import opened Basics

  datatype Span = Span(start: nat, end: nat)

  predicate IsQuote(c: char) {
    c == '"' || c == '\''
  }

  /** Where a literal opened with `quote` ends, reading on from `index`. A backslash takes the next
      character with it, past the end of the line when it is the last one. */
  function CloseOf(line: string, quote: char, index: nat): (end: nat)
    ensures index <= end
    ensures end <= |line| + 1 || end == index
    decreases |line| + 2 - index
  {
    if index >= |line| then index
    else if line[index] == '\\' then CloseOf(line, quote, index + 2)
    else if line[index] == quote then index + 1
    else CloseOf(line, quote, index + 1)
  }

  function SpansFrom(line: string, index: nat): seq<Span>
    decreases |line| + 1 - index
  {
    if index >= |line| then []
    else if !IsQuote(line[index]) then SpansFrom(line, index + 1)
    else
      var end := CloseOf(line, line[index], index + 1);
      [Span(index, end)] + SpansFrom(line, end)
  }

  /** The literals of a line, in order. */
  method StringSpans(line: string) returns (spans: seq<Span>)
    ensures spans == SpansFrom(line, 0)
  {
    spans := [];
    var index := 0;
    while index < |line|
      invariant index <= |line| + 1
      invariant spans + SpansFrom(line, index) == SpansFrom(line, 0)
      decreases |line| + 1 - index
    {
      if !IsQuote(line[index]) {
        index := index + 1;
        continue;
      }
      var quote, start := line[index], index;
      index := index + 1;
      ghost var end := CloseOf(line, quote, index);
      while index < |line|
        invariant start < index <= |line| + 1
        invariant CloseOf(line, quote, index) == end
        decreases |line| + 1 - index
      {
        if line[index] == '\\' {
          index := index + 2;
          continue;
        }
        if line[index] == quote {
          index := index + 1;
          break;
        }
        index := index + 1;
      }
      Associate(spans, [Span(start, index)], SpansFrom(line, index));
      spans := spans + [Span(start, index)];
    }
    assert spans + [] == spans;
  }

  predicate InsideSpans(position: nat, spans: seq<Span>) {
    exists i :: 0 <= i < |spans| && spans[i].start < position < spans[i].end
  }

  // ── the lexer it stands for ──

  datatype State = Out | In(quote: char) | Escaped(quote: char)

  function Next(state: State, c: char): State {
    match state
    case Out => if c == '"' || c == '\'' then In(c) else Out
    case In(q) => if c == '\\' then Escaped(q) else if c == q then Out else In(q)
    case Escaped(q) => In(q)
  }

  /** The state just before position `p`. */
  function StateAt(line: string, p: nat): State
    requires p <= |line|
  {
    if p == 0 then Out else Next(StateAt(line, p - 1), line[p - 1])
  }

  /** From inside a literal, everything before its end is inside, and the lexer is out at its end
      unless the line ends first. */
  lemma {:induction false} CloseIsOut(line: string, quote: char, index: nat)
    requires IsQuote(quote)
    requires index <= |line| ==> StateAt(line, index) == In(quote)
    requires index == |line| + 1 ==> StateAt(line, |line|) == Escaped(quote)
    requires index <= |line| + 1
    ensures var end := CloseOf(line, quote, index);
            && (forall p :: index <= p < end && p <= |line| ==> StateAt(line, p) != Out)
            && (end < |line| ==> StateAt(line, end) == Out)
            && (end == |line| + 1 ==> StateAt(line, |line|) == Escaped(quote))
    decreases |line| + 2 - index
  {
    if index < |line| {
      if line[index] == '\\' {
        assert StateAt(line, index + 1) == Escaped(quote);
        CloseIsOut(line, quote, index + 2);
      } else if line[index] != quote {
        CloseIsOut(line, quote, index + 1);
      }
    }
  }

  /** Spans come in order from `from` on, do not overlap, and start at a quote outside any literal. */
  ghost predicate WellPlaced(line: string, spans: seq<Span>, from: nat)
    decreases |spans|
  {
    spans == [] ||
    (from <= spans[0].start < spans[0].end <= |line| + 1 && spans[0].start < |line|
     && IsQuote(line[spans[0].start]) && StateAt(line, spans[0].start) == Out
     && WellPlaced(line, spans[1..], spans[0].end))
  }

  lemma {:induction false} SpansPlaced(line: string, from: nat)
    requires from < |line| ==> StateAt(line, from) == Out
    ensures WellPlaced(line, SpansFrom(line, from), from)
    decreases |line| + 1 - from
  {
    if from < |line| {
      if !IsQuote(line[from]) {
        assert StateAt(line, from + 1) == Out;
        SpansPlaced(line, from + 1);
      } else {
        assert StateAt(line, from + 1) == In(line[from]);
        CloseIsOut(line, line[from], from + 1);
        var end := CloseOf(line, line[from], from + 1);
        SpansPlaced(line, end);
        assert ([Span(from, end)] + SpansFrom(line, end))[1..] == SpansFrom(line, end);
      }
    }
  }

  lemma {:induction false} BeforeSpans(line: string, spans: seq<Span>, from: nat, p: nat)
    requires WellPlaced(line, spans, from) && p <= from
    ensures !InsideSpans(p, spans)
    decreases |spans|
  {
    if spans != [] {
      BeforeSpans(line, spans[1..], spans[0].end, p);
      assert forall i :: 0 < i < |spans| ==> spans[i] == spans[1..][i - 1];
    }
  }

  lemma {:induction false} SpansRefine(line: string, from: nat, p: nat)
    requires from < |line| ==> StateAt(line, from) == Out
    requires from <= p < |line|
    ensures InsideSpans(p, SpansFrom(line, from)) <==> StateAt(line, p) != Out
    decreases |line| + 1 - from
  {
    if !IsQuote(line[from]) {
      assert StateAt(line, from + 1) == Out;
      SpansPlaced(line, from + 1);
      BeforeSpans(line, SpansFrom(line, from + 1), from + 1, from);
      if p > from {
        SpansRefine(line, from + 1, p);
      }
    } else {
      assert StateAt(line, from + 1) == In(line[from]);
      CloseIsOut(line, line[from], from + 1);
      var end := CloseOf(line, line[from], from + 1);
      InsideCons(Span(from, end), SpansFrom(line, end));
      SpansPlaced(line, end);
      if p < end {
        BeforeSpans(line, SpansFrom(line, end), end, p);
      } else {
        SpansRefine(line, end, p);
      }
    }
  }

  lemma InsideCons(span: Span, rest: seq<Span>)
    ensures forall p: nat :: InsideSpans(p, [span] + rest) <==> span.start < p < span.end || InsideSpans(p, rest)
  {
    forall p: nat ensures InsideSpans(p, [span] + rest) <==> span.start < p < span.end || InsideSpans(p, rest) {
      if span.start < p < span.end {
        assert ([span] + rest)[0] == span;
      }
      if i :| 0 <= i < |rest| && rest[i].start < p < rest[i].end {
        assert ([span] + rest)[i + 1] == rest[i];
      }
    }
  }

  /** A position of the line is inside a span exactly when a lexer reading character by character is
      inside a literal there: unclosed literals and trailing backslashes included. */
  lemma InsideIffInLiteral(line: string, p: nat)
    requires p < |line|
    ensures InsideSpans(p, SpansFrom(line, 0)) <==> StateAt(line, p) != Out
    ensures WellPlaced(line, SpansFrom(line, 0), 0)
  {
    SpansPlaced(line, 0);
    SpansRefine(line, 0, p);
  }

  /** Every quote outside a literal opens a span. */
  lemma {:induction false} EveryQuoteOpens(line: string, from: nat, p: nat)
    requires from < |line| ==> StateAt(line, from) == Out
    requires from <= p < |line| && (line[p] == '"' || line[p] == '\'') && StateAt(line, p) == Out
    ensures exists i :: 0 <= i < |SpansFrom(line, from)| && SpansFrom(line, from)[i].start == p
    decreases |line| + 1 - from
  {
    if !IsQuote(line[from]) {
      assert SpansFrom(line, from) == SpansFrom(line, from + 1);
      EveryQuoteOpens(line, from + 1, p);
    } else if p == from {
      assert SpansFrom(line, from)[0].start == p;
    } else {
      assert StateAt(line, from + 1) == In(line[from]);
      CloseIsOut(line, line[from], from + 1);
      var end := CloseOf(line, line[from], from + 1);
      EveryQuoteOpens(line, end, p);
      var i :| 0 <= i < |SpansFrom(line, end)| && SpansFrom(line, end)[i].start == p;
      assert SpansFrom(line, from)[i + 1].start == p;
    }
  }
}
