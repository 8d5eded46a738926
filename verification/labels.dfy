/** Label values of the text exposition format, and numbers as they are written there. */
module Labels {
  import opened Basics

  /** `text.replace(c, with)` for one character. */
  function Replace(text: string, c: char, with: string): string {
    if text == "" then "" else (if text[0] == c then with else [text[0]]) + Replace(text[1..], c, with)
  }

  /** A label value, escaped the way the script does it: backslash, quote, newline, one after the other. */
  function Label(value: string): string {
    Replace(Replace(Replace(value, '\\', "\\\\"), '"', "\\\""), '\n', "\\n")
  }

  function EscapeChar(c: char): string {
    if c == '\\' then "\\\\" else if c == '"' then "\\\"" else if c == '\n' then "\\n" else [c]
  }

  /** The same in one pass. */
  function Escape(value: string): string {
    if value == "" then "" else EscapeChar(value[0]) + Escape(value[1..])
  }

  /** What a reader of the format makes of a label value. */
  function Unescape(text: string): string
    decreases |text|
  {
    if text == "" then ""
    else if text[0] == '\\' && |text| > 1 then [if text[1] == 'n' then '\n' else text[1]] + Unescape(text[2..])
    else [text[0]] + Unescape(text[1..])
  }

  lemma {:induction false} ReplaceConcat(a: string, b: string, c: char, with: string)
    ensures Replace(a + b, c, with) == Replace(a, c, with) + Replace(b, c, with)
    decreases |a|
  {
    if a == "" {
      assert a + b == b;
    } else {
      ConcatTail(a, b);
      ReplaceConcat(a[1..], b, c, with);
      Associate(if a[0] == c then with else [a[0]], Replace(a[1..], c, with), Replace(b, c, with));
    }
  }

  lemma ReplaceOne(a: char, c: char, with: string)
    ensures Replace([a], c, with) == if a == c then with else [a]
  {
    assert [a][1..] == "";
  }

  lemma ReplaceTwo(a: char, b: char, c: char, with: string)
    ensures Replace([a, b], c, with) == (if a == c then with else [a]) + (if b == c then with else [b])
  {
    assert [a] + [b] == [a, b];
    ReplaceConcat([a], [b], c, with);
    ReplaceOne(a, c, with);
    ReplaceOne(b, c, with);
  }

  lemma LabelOne(c: char)
    ensures Label([c]) == EscapeChar(c)
  {
    ReplaceOne(c, '\\', "\\\\");
    if c == '\\' {
      ReplaceTwo('\\', '\\', '"', "\\\"");
      ReplaceTwo('\\', '\\', '\n', "\\n");
      assert ['\\'] + ['\\'] == "\\\\";
    } else {
      ReplaceOne(c, '"', "\\\"");
      if c == '"' {
        ReplaceTwo('\\', '"', '\n', "\\n");
        assert ['\\'] + ['"'] == "\\\"";
      } else {
        ReplaceOne(c, '\n', "\\n");
      }
    }
  }

  lemma LabelConcat(a: string, b: string)
    ensures Label(a + b) == Label(a) + Label(b)
  {
    ReplaceConcat(a, b, '\\', "\\\\");
    var x, y := Replace(a, '\\', "\\\\"), Replace(b, '\\', "\\\\");
    ReplaceConcat(x, y, '"', "\\\"");
    ReplaceConcat(Replace(x, '"', "\\\""), Replace(y, '"', "\\\""), '\n', "\\n");
  }

  /** Three replacements in that order are one pass: none of them touches what another wrote. */
  lemma {:induction false} LabelIsOnePass(value: string)
    ensures Label(value) == Escape(value)
    decreases |value|
  {
    if value != "" {
      assert [value[0]] + value[1..] == value;
      LabelConcat([value[0]], value[1..]);
      LabelOne(value[0]);
      LabelIsOnePass(value[1..]);
    }
  }

  lemma {:induction false} UnescapeEscape(value: string)
    ensures Unescape(Escape(value)) == value
    decreases |value|
  {
    if value != "" {
      UnescapeEscape(value[1..]);
      var rest := Escape(value[1..]);
      var e := EscapeChar(value[0]);
      assert (e + rest)[|e|..] == rest;
      assert [value[0]] + value[1..] == value;
    }
  }

  /** Whoever reads a label back gets the value that was written, so different values never share one. */
  lemma LabelRoundTrip(value: string, other: string)
    ensures Unescape(Label(value)) == value
    ensures Label(value) == Label(other) ==> value == other
  {
    LabelIsOnePass(value);
    LabelIsOnePass(other);
    UnescapeEscape(value);
    UnescapeEscape(other);
  }

  /** A label holds no newline, and no quote that is not behind a backslash. */
  ghost predicate IsLabel(text: string) {
    forall i :: 0 <= i < |text| ==> text[i] != '\n' && (text[i] == '"' ==> i > 0 && text[i - 1] == '\\')
  }

  lemma {:induction false} LabelIsLabel(value: string)
    ensures IsLabel(Label(value))
    decreases |value|
  {
    LabelIsOnePass(value);
    if value != "" {
      LabelIsOnePass(value[1..]);
      LabelIsLabel(value[1..]);
      var e, rest := EscapeChar(value[0]), Escape(value[1..]);
      forall i | 0 <= i < |e + rest|
        ensures (e + rest)[i] != '\n' && ((e + rest)[i] == '"' ==> i > 0 && (e + rest)[i - 1] == '\\')
      {
        if i >= |e| {
          assert (e + rest)[i] == rest[i - |e|];
        }
      }
    }
  }

  // ── numbers ──

  function Digit(n: nat): char
    requires n < 10
  {
    (n + '0' as int) as char
  }

  function Decimal(n: nat): (text: string)
    ensures text != "" && forall i :: 0 <= i < |text| ==> '0' <= text[i] <= '9'
  {
    if n < 10 then [Digit(n)] else Decimal(n / 10) + [Digit(n % 10)]
  }

  /** The number a text spells, or nothing. */
  function Parse(text: string): Option<nat>
    decreases |text|
  {
    if text == "" then None
    else
      var last := text[|text| - 1];
      if !('0' <= last <= '9') then None
      else if |text| == 1 then Some(last as int - '0' as int)
      else match Parse(text[..|text| - 1])
        case None => None
        case Some(n) => Some(10 * n + (last as int - '0' as int))
  }

  lemma {:induction false} ParseDecimal(n: nat)
    ensures Parse(Decimal(n)) == Some(n)
  {
    if n >= 10 {
      ParseDecimal(n / 10);
      var text := Decimal(n);
      assert text[..|text| - 1] == Decimal(n / 10);
    }
  }

  /** `f"{x:.0f}"`: the nearest whole number, the even one of two equally near. */
  function Rounded(x: real): nat
    requires x >= 0.0
  {
    var low := x.Floor;
    var rest := x - low as real;
    if rest < 0.5 || (rest == 0.5 && low % 2 == 0) then low else low + 1
  }
}
