/** Rewriting the values of a stylesheet's declarations. */
module Declarations {
  import opened Basics
  import opened Names

  type Rewriter = (string, string) -> string

  predicate IsDelimiter(c: char) {
    c == ';' || c == '{' || c == '}'
  }

  /** The property a segment ends with: what follows its last `{`, then its last `;`. */
  function Property(segment: string): string {
    var afterBrace := Split(segment, '{');
    var afterSemicolon := Split(afterBrace[|afterBrace| - 1], ';');
    afterSemicolon[|afterSemicolon| - 1]
  }

  /** The rest of the text, outside a value. `segment` is what came since the last value. */
  function Outside(text: string, segment: string, f: Rewriter): string
    decreases |text|
  {
    if text == "" then ""
    else if text[0] == ':' then [text[0]] + Inside(text[1..], segment, "", f)
    else [text[0]] + Outside(text[1..], segment + [text[0]], f)
  }

  /** The rest of the text, inside a value of which `value` has been read. */
  function Inside(text: string, segment: string, value: string, f: Rewriter): string
    decreases |text|
  {
    if text == "" then f(Property(segment), value)
    else if IsDelimiter(text[0]) then f(Property(segment), value) + [text[0]] + Outside(text[1..], "", f)
    else Inside(text[1..], segment, value + [text[0]], f)
  }

  function Rewritten(text: string, f: Rewriter): string {
    Outside(text, "", f)
  }

  /** What is still to come at `index`, with the segment and the value read so far. */
  function Rest(text: string, index: nat, inValue: bool, segmentStart: nat, valueStart: nat, f: Rewriter): string
    requires index <= |text|
    requires if inValue then segmentStart < valueStart <= index else segmentStart <= index
  {
    if inValue then Inside(text[index..], text[segmentStart..valueStart - 1], text[valueStart..index], f)
    else Outside(text[index..], text[segmentStart..index], f)
  }

  lemma SliceSnoc(text: string, from: nat, index: nat)
    requires from <= index < |text|
    ensures text[from..index + 1] == text[from..index] + [text[index]]
    ensures text[index..][0] == text[index] && text[index..][1..] == text[index + 1..]
  {
  }

  lemma RestColon(text: string, index: nat, segmentStart: nat, valueStart: nat, f: Rewriter)
    requires segmentStart <= index < |text| && text[index] == ':'
    ensures Rest(text, index, false, segmentStart, valueStart, f)
         == [text[index]] + Rest(text, index + 1, true, segmentStart, index + 1, f)
  {
    SliceSnoc(text, segmentStart, index);
    assert text[index + 1..index + 1] == "";
  }

  lemma RestOther(text: string, index: nat, segmentStart: nat, valueStart: nat, f: Rewriter)
    requires segmentStart <= index < |text| && text[index] != ':'
    ensures Rest(text, index, false, segmentStart, valueStart, f)
         == [text[index]] + Rest(text, index + 1, false, segmentStart, valueStart, f)
  {
    SliceSnoc(text, segmentStart, index);
  }

  lemma RestDelimiter(text: string, index: nat, segmentStart: nat, valueStart: nat, f: Rewriter)
    requires segmentStart < valueStart <= index < |text| && IsDelimiter(text[index])
    ensures Rest(text, index, true, segmentStart, valueStart, f)
         == f(Property(text[segmentStart..valueStart - 1]), text[valueStart..index]) + [text[index]]
            + Rest(text, index + 1, false, index + 1, valueStart, f)
  {
    SliceSnoc(text, valueStart, index);
    assert text[index + 1..index + 1] == "";
  }

  lemma RestValue(text: string, index: nat, segmentStart: nat, valueStart: nat, f: Rewriter)
    requires segmentStart < valueStart <= index < |text| && !IsDelimiter(text[index])
    ensures Rest(text, index, true, segmentStart, valueStart, f)
         == Rest(text, index + 1, true, segmentStart, valueStart, f)
  {
    SliceSnoc(text, valueStart, index);
  }

  lemma RestEnd(text: string, inValue: bool, segmentStart: nat, valueStart: nat, f: Rewriter)
    requires if inValue then segmentStart < valueStart <= |text| else segmentStart <= |text|
    ensures Rest(text, |text|, inValue, segmentStart, valueStart, f)
         == if inValue then f(Property(text[segmentStart..valueStart - 1]), text[valueStart..]) else ""
  {
    assert text[|text|..] == "";
    assert inValue ==> text[valueStart..] == text[valueStart..|text|];
  }

  /** Every declaration's value is rewritten; all the rest is copied. */
  method ScanDeclarations(text: string, f: Rewriter) returns (out: string)
    ensures out == Rewritten(text, f)
  {
    out := "";
    var inValue := false;
    var segmentStart, valueStart, index := 0, 0, 0;
    assert text[0..] == text && text[0..0] == "";
    assert Rest(text, 0, false, 0, 0, f) == Rewritten(text, f);
    hide Rest, Rewritten, Property;
    while index < |text|
      invariant index <= |text|
      invariant if inValue then segmentStart < valueStart <= index else segmentStart <= index
      invariant out + Rest(text, index, inValue, segmentStart, valueStart, f) == Rewritten(text, f)
    {
      var c := text[index];
      if !inValue && c == ':' {
        RestColon(text, index, segmentStart, valueStart, f);
        Associate(out, [c], Rest(text, index + 1, true, segmentStart, index + 1, f));
        inValue := true;
        valueStart := index + 1;
        out := out + [c];
        index := index + 1;
        continue;
      }
      if inValue && IsDelimiter(c) {
        RestDelimiter(text, index, segmentStart, valueStart, f);
        var property := Property(text[segmentStart..valueStart - 1]);
        var value := f(property, text[valueStart..index]);
        Associate(out, value + [c], Rest(text, index + 1, false, index + 1, valueStart, f));
        Associate(out, value, [c]);
        out := out + value + [c];
        inValue := false;
        segmentStart := index + 1;
        index := index + 1;
        continue;
      }
      if !inValue {
        RestOther(text, index, segmentStart, valueStart, f);
        Associate(out, [c], Rest(text, index + 1, false, segmentStart, valueStart, f));
        out := out + [c];
      } else {
        RestValue(text, index, segmentStart, valueStart, f);
      }
      index := index + 1;
    }
    RestEnd(text, inValue, segmentStart, valueStart, f);
    assert out + "" == out;
    if inValue {
      out := out + f(Property(text[segmentStart..valueStart - 1]), text[valueStart..]);
    }
  }

  // ── laws ──

  /** What the scanner can hand a rewriter. */
  predicate IsProperty(p: string) {
    '{' !in p && ';' !in p && ':' !in p
  }

  predicate HasDelimiter(s: string) {
    exists i :: 0 <= i < |s| && IsDelimiter(s[i])
  }

  /** A rewriter that never puts `;`, `{` or `}` into a value. */
  ghost predicate IsClean(f: Rewriter) {
    forall p, v :: IsProperty(p) && !HasDelimiter(v) ==> !HasDelimiter(f(p, v))
  }

  function Identity(): Rewriter {
    (p, v) => v
  }

  function Compose(f: Rewriter, g: Rewriter): Rewriter {
    (p, v) => g(p, f(p, v))
  }

  lemma {:induction false} OutsideIdentity(text: string, segment: string)
    ensures Outside(text, segment, Identity()) == text
    decreases |text|
  {
    if text != "" {
      if text[0] == ':' {
        InsideIdentity(text[1..], segment, "");
      } else {
        OutsideIdentity(text[1..], segment + [text[0]]);
      }
      assert [text[0]] + text[1..] == text;
    }
  }

  lemma {:induction false} InsideIdentity(text: string, segment: string, value: string)
    ensures Inside(text, segment, value, Identity()) == value + text
    decreases |text|
  {
    if text == "" {
      assert value + text == value;
    } else {
      if IsDelimiter(text[0]) {
        OutsideIdentity(text[1..], "");
        Associate(value, [text[0]], text[1..]);
      } else {
        InsideIdentity(text[1..], segment, value + [text[0]]);
        Associate(value, [text[0]], text[1..]);
      }
      assert [text[0]] + text[1..] == text;
    }
  }

  /** Leaving every value alone leaves the text alone. */
  lemma IdentityLaw(text: string)
    ensures Rewritten(text, Identity()) == text
  {
    OutsideIdentity(text, "");
  }

  lemma {:induction false} SplitPlain(text: string, separator: char)
    requires separator !in text
    ensures Split(text, separator) == [text]
    decreases |text|
  {
    if text != "" {
      SplitPlain(text[1..], separator);
      assert [text[0]] + text[1..] == text;
    }
  }

  lemma {:induction false} SplitKeeps(text: string, separator: char, c: char)
    requires c !in text
    ensures forall i :: 0 <= i < |Split(text, separator)| ==> c !in Split(text, separator)[i]
    decreases |text|
  {
    if text != "" {
      SplitKeeps(text[1..], separator, c);
    }
  }

  lemma PropertyIsProperty(segment: string)
    requires ':' !in segment
    ensures IsProperty(Property(segment))
  {
    SplitKeeps(segment, '{', ':');
    var parts := Split(segment, '{');
    var last := parts[|parts| - 1];
    SplitKeeps(last, ';', ':');
    SplitKeeps(last, ';', '{');
  }

  lemma PropertyPlain(p: string)
    requires IsProperty(p)
    ensures Property(p) == p
  {
    SplitPlain(p, '{');
    SplitPlain(p, ';');
  }

  lemma DelimiterTail(value: string)
    requires value != ""
    ensures HasDelimiter(value) <==> IsDelimiter(value[0]) || HasDelimiter(value[1..])
  {
    if i :| 0 <= i < |value| && IsDelimiter(value[i]) {
      assert i > 0 ==> IsDelimiter(value[1..][i - 1]);
    }
    if i :| 0 <= i < |value[1..]| && IsDelimiter(value[1..][i]) {
      assert IsDelimiter(value[i + 1]);
    }
  }

  /** Reading a value that has no delimiter in it. */
  lemma {:induction false} InsideReads(value: string, rest: string, segment: string, before: string, g: Rewriter)
    requires !HasDelimiter(value)
    ensures Inside(value + rest, segment, before, g) == Inside(rest, segment, before + value, g)
    decreases |value|
  {
    if value == "" {
      assert value + rest == rest && before + value == before;
    } else {
      ConcatTail(value, rest);
      DelimiterTail(value);
      InsideReads(value[1..], rest, segment, before + [value[0]], g);
      assert before + [value[0]] + value[1..] == before + value;
    }
  }

  lemma {:induction false} OutsideComposes(text: string, segment: string, f: Rewriter, g: Rewriter)
    requires IsClean(f) && ':' !in segment
    ensures Outside(Outside(text, segment, f), segment, g) == Outside(text, segment, Compose(f, g))
    decreases |text|
  {
    if text != "" {
      if text[0] == ':' {
        InsideComposes(text[1..], segment, "", f, g);
        ConcatTail([text[0]], Inside(text[1..], segment, "", f));
      } else {
        OutsideComposes(text[1..], segment + [text[0]], f, g);
        ConcatTail([text[0]], Outside(text[1..], segment + [text[0]], f));
      }
    }
  }

  lemma {:induction false} InsideComposes(text: string, segment: string, value: string, f: Rewriter, g: Rewriter)
    requires IsClean(f) && ':' !in segment && !HasDelimiter(value)
    ensures Inside(Inside(text, segment, value, f), segment, "", g) == Inside(text, segment, value, Compose(f, g))
    decreases |text|
  {
    PropertyIsProperty(segment);
    var written := f(Property(segment), value);
    if text == "" {
      InsideReads(written, "", segment, "", g);
      assert written + "" == written && "" + written == written;
    } else if IsDelimiter(text[0]) {
      var rest := Outside(text[1..], "", f);
      OutsideComposes(text[1..], "", f, g);
      InsideReads(written, [text[0]] + rest, segment, "", g);
      Associate(written, [text[0]], rest);
      ConcatTail([text[0]], rest);
      assert "" + written == written;
    } else {
      assert !HasDelimiter(value + [text[0]]);
      InsideComposes(text[1..], segment, value + [text[0]], f, g);
    }
  }

  function Marking(): Rewriter {
    (p, v) => v + "!"
  }

  lemma {:induction false} OutsideReads(p: string, rest: string, segment: string, f: Rewriter)
    requires ':' !in p
    ensures Outside(p + rest, segment, f) == p + Outside(rest, segment + p, f)
    decreases |p|
  {
    if p == "" {
      assert p + rest == rest && segment + p == segment;
      assert p + Outside(rest, segment, f) == Outside(rest, segment, f);
    } else {
      ConcatTail(p, rest);
      OutsideReads(p[1..], rest, segment + [p[0]], f);
      assert segment + [p[0]] + p[1..] == segment + p;
      assert p == [p[0]] + p[1..];
      Associate([p[0]], p[1..], Outside(rest, segment + p, f));
    }
  }

  lemma OneDeclaration(p: string, v: string, f: Rewriter)
    requires IsProperty(p)
    ensures Rewritten(p + ":" + v, f) == p + ":" + Inside(v, p, "", f)
  {
    OutsideReads(p, ":" + v, "", f);
    Associate(p, ":", v);
    assert "" + p == p;
    ConcatTail(":", v);
    Associate(p, ":", Inside(v, p, "", f));
  }

  lemma {:induction false} FirstDelimiter(s: string) returns (k: nat)
    requires HasDelimiter(s)
    ensures k < |s| && IsDelimiter(s[k]) && !HasDelimiter(s[..k])
    decreases |s|
  {
    k :| k < |s| && IsDelimiter(s[k]);
    if HasDelimiter(s[..k]) {
      var j := FirstDelimiter(s[..k]);
      assert s[..k][..j] == s[..j];
      k := j;
    }
  }

  /** A delimiter written into a value ends it when the text is scanned again. */
  lemma DelimiterBreaks(p: string, v: string, f: Rewriter)
    requires IsProperty(p) && !HasDelimiter(v) && HasDelimiter(f(p, v))
    ensures Rewritten(Rewritten(p + ":" + v, f), Marking()) != Rewritten(p + ":" + v, Compose(f, Marking()))
  {
    var w := f(p, v);
    OneDeclaration(p, v, f);
    OneDeclaration(p, v, Compose(f, Marking()));
    OneDeclaration(p, w, Marking());
    PropertyPlain(p);
    ReadsAll(v, p, f);
    ReadsAll(v, p, Compose(f, Marking()));
    var k := FirstDelimiter(w);
    assert w == w[..k] + w[k..];
    InsideReads(w[..k], w[k..], p, "", Marking());
    assert "" + w[..k] == w[..k];
    var head := p + ":";
    var twice, once := Inside(w, p, "", Marking()), w + "!";
    assert twice[k] == '!' && once[k] == w[k];
    assert (head + twice)[|head| + k] == '!' && (head + once)[|head| + k] == w[k];
  }

  lemma ReadsAll(v: string, segment: string, f: Rewriter)
    requires !HasDelimiter(v)
    ensures Inside(v, segment, "", f) == f(Property(segment), v)
  {
    InsideReads(v, "", segment, "", f);
    assert v + "" == v && "" + v == v;
  }

  /** Scanning twice is scanning once with both rewrites, on every text and for every second
      rewrite, exactly when the first one puts no delimiter into a value. */
  lemma CompositionLawIff(f: Rewriter)
    ensures IsClean(f) <==>
              forall text: string, g: Rewriter :: Rewritten(Rewritten(text, f), g) == Rewritten(text, Compose(f, g))
  {
    if IsClean(f) {
      forall text: string, g: Rewriter ensures Rewritten(Rewritten(text, f), g) == Rewritten(text, Compose(f, g)) {
        OutsideComposes(text, "", f, g);
      }
    } else {
      var p, v :| IsProperty(p) && !HasDelimiter(v) && HasDelimiter(f(p, v));
      DelimiterBreaks(p, v, f);
    }
  }

  // ── what survives ──

  datatype Declaration = Declaration(property: string, value: string)

  function DeclarationsOutside(text: string, segment: string): seq<Declaration>
    decreases |text|
  {
    if text == "" then []
    else if text[0] == ':' then DeclarationsInside(text[1..], segment, "")
    else DeclarationsOutside(text[1..], segment + [text[0]])
  }

  function DeclarationsInside(text: string, segment: string, value: string): seq<Declaration>
    decreases |text|
  {
    if text == "" then [Declaration(Property(segment), value)]
    else if IsDelimiter(text[0]) then
      [Declaration(Property(segment), value)] + DeclarationsOutside(text[1..], "")
    else DeclarationsInside(text[1..], segment, value + [text[0]])
  }

  /** The declarations of a text, in order. */
  function DeclarationsOf(text: string): seq<Declaration> {
    DeclarationsOutside(text, "")
  }

  function Apply(declarations: seq<Declaration>, f: Rewriter): seq<Declaration> {
    if declarations == [] then []
    else
      [Declaration(declarations[0].property, f(declarations[0].property, declarations[0].value))]
        + Apply(declarations[1..], f)
  }

  lemma {:induction false} DeclarationsRead(value: string, rest: string, segment: string, before: string)
    requires !HasDelimiter(value)
    ensures DeclarationsInside(value + rest, segment, before) == DeclarationsInside(rest, segment, before + value)
    decreases |value|
  {
    if value == "" {
      assert value + rest == rest && before + value == before;
    } else {
      ConcatTail(value, rest);
      DelimiterTail(value);
      DeclarationsRead(value[1..], rest, segment, before + [value[0]]);
      assert before + [value[0]] + value[1..] == before + value;
    }
  }

  lemma {:induction false} OutsideDeclares(text: string, segment: string, f: Rewriter)
    requires IsClean(f) && ':' !in segment
    ensures DeclarationsOutside(Outside(text, segment, f), segment) == Apply(DeclarationsOutside(text, segment), f)
    decreases |text|
  {
    if text != "" {
      if text[0] == ':' {
        InsideDeclares(text[1..], segment, "", f);
        ConcatTail([text[0]], Inside(text[1..], segment, "", f));
      } else {
        OutsideDeclares(text[1..], segment + [text[0]], f);
        ConcatTail([text[0]], Outside(text[1..], segment + [text[0]], f));
      }
    }
  }

  lemma {:induction false} InsideDeclares(text: string, segment: string, value: string, f: Rewriter)
    requires IsClean(f) && ':' !in segment && !HasDelimiter(value)
    ensures DeclarationsInside(Inside(text, segment, value, f), segment, "")
         == Apply(DeclarationsInside(text, segment, value), f)
    decreases |text|
  {
    PropertyIsProperty(segment);
    var own, written := Declaration(Property(segment), value), f(Property(segment), value);
    assert "" + written == written;
    if text == "" {
      DeclarationsRead(written, "", segment, "");
      assert written + "" == written;
      assert Apply([own], f) == [Declaration(Property(segment), written)];
    } else if IsDelimiter(text[0]) {
      var rest := Outside(text[1..], "", f);
      OutsideDeclares(text[1..], "", f);
      DeclarationsRead(written, [text[0]] + rest, segment, "");
      Associate(written, [text[0]], rest);
      ConcatTail([text[0]], rest);
      ConcatTail([own], DeclarationsOutside(text[1..], ""));
    } else {
      assert !HasDelimiter(value + [text[0]]);
      InsideDeclares(text[1..], segment, value + [text[0]], f);
    }
  }

  /** A clean rewrite changes values and nothing else: the same properties are declared in the same
      order, each with its value rewritten, and emptying every value gives the same text as before. */
  lemma OnlyValuesChange(text: string, f: Rewriter)
    requires IsClean(f)
    ensures DeclarationsOf(Rewritten(text, f)) == Apply(DeclarationsOf(text), f)
    ensures Rewritten(Rewritten(text, f), Emptying()) == Rewritten(text, Emptying())
  {
    OutsideDeclares(text, "", f);
    OutsideComposes(text, "", f, Emptying());
    SameRewriter(text, "", Compose(f, Emptying()), Emptying());
  }

  function Emptying(): Rewriter {
    (p, v) => ""
  }

  lemma {:induction false} SameRewriter(text: string, segment: string, f: Rewriter, g: Rewriter)
    requires forall p, v :: f(p, v) == g(p, v)
    ensures Outside(text, segment, f) == Outside(text, segment, g)
    ensures forall value :: Inside(text, segment, value, f) == Inside(text, segment, value, g)
    decreases |text|
  {
    if text != "" {
      SameRewriter(text[1..], segment, f, g);
      SameRewriter(text[1..], segment + [text[0]], f, g);
      SameRewriter(text[1..], "", f, g);
    }
  }

  // ── rules, spelled out ──

  lemma {:induction false} SplitAppends(x: string, y: string, separator: char)
    requires separator !in y
    ensures var a, b := Split(x, separator), Split(x + y, separator); |a| == |b| && b[|b| - 1] == a[|a| - 1] + y
    decreases |x|
  {
    if x == "" {
      assert x + y == y && "" + y == y;
      SplitPlain(y, separator);
    } else {
      ConcatTail(x, y);
      SplitAppends(x[1..], y, separator);
      var rest := Split(x[1..], separator);
      if |rest| == 1 {
        assert [x[0]] + (rest[0] + y) == [x[0]] + rest[0] + y;
      }
    }
  }

  lemma {:induction false} SplitEnds(x: string, separator: char)
    ensures var a := Split(x + [separator], separator); a[|a| - 1] == ""
    decreases |x|
  {
    if x == "" {
      assert x + [separator] == [separator] && [separator][1..] == "";
    } else {
      ConcatTail(x, [separator]);
      SplitEnds(x[1..], separator);
      var rest := Split(x[1..] + [separator], separator);
      assert |rest| > 1 by {
        SplitTwice(x[1..], separator);
      }
    }
  }

  lemma {:induction false} SplitTwice(x: string, separator: char)
    ensures |Split(x + [separator], separator)| > 1
    decreases |x|
  {
    if x == "" {
      assert x + [separator] == [separator] && [separator][1..] == "";
    } else {
      ConcatTail(x, [separator]);
      SplitTwice(x[1..], separator);
    }
  }

  lemma LastPart(before: string, y: string, separator: char)
    requires separator !in y
    ensures var parts := Split(before + [separator] + y, separator); parts[|parts| - 1] == y
  {
    SplitAppends(before + [separator], y, separator);
    SplitEnds(before, separator);
    assert "" + y == y;
  }

  /** What a rewriter is told a value belongs to: what stands after the last `{` or `;`. */
  lemma PropertyAfter(before: string, p: string)
    requires IsProperty(p)
    ensures Property(before + "{" + p) == p && Property(before + ";" + p) == p
  {
    LastPart(before, p, '{');
    SplitPlain(p, ';');
    var head := Split(before, '{');
    var last := head[|head| - 1];
    SplitAppends(before, ";" + p, '{');
    Associate(before, ";", p);
    Associate(last, ";", p);
    LastPart(last, p, ';');
    hide Split;
  }

  lemma DeclarationReads(name: string, p: string, v: string, rest: string, f: Rewriter)
    requires ':' !in name && Property(name) == p && !HasDelimiter(v)
    requires rest != "" ==> IsDelimiter(rest[0])
    ensures Rewritten(name + ":" + v + rest, f)
         == name + ":" + (f(p, v) + if rest == "" then "" else [rest[0]] + Rewritten(rest[1..], f))
  {
    Associate(name + ":", v, rest);
    Associate(name, ":", v + rest);
    OutsideReads(name, ":" + (v + rest), "", f);
    assert "" + name == name;
    ConcatTail(":", v + rest);
    InsideReads(v, rest, name, "", f);
    assert "" + v == v;
    var after := f(p, v) + if rest == "" then "" else [rest[0]] + Rewritten(rest[1..], f);
    ValueReads(name, p, v, rest, f);
    Associate(name, ":", after);
  }

  lemma ValueReads(name: string, p: string, v: string, rest: string, f: Rewriter)
    requires Property(name) == p && (rest != "" ==> IsDelimiter(rest[0]))
    ensures Inside(rest, name, v, f) == f(p, v) + if rest == "" then "" else [rest[0]] + Rewritten(rest[1..], f)
  {
    assert f(p, v) + "" == f(p, v);
    if rest != "" {
      Associate(f(p, v), [rest[0]], Rewritten(rest[1..], f));
    }
  }

  /** A rule's first declaration, after its selector; a later one, after the `;` before it; and one with nothing
      before it: the rewriter is given the property and the value and nothing else, its answer stands in the
      value's place, and whatever follows is rewritten by itself. */
  lemma OneRule(selector: string, p: string, v: string, rest: string, f: Rewriter)
    requires ':' !in selector && !HasDelimiter(v)
    requires '{' !in p && ';' !in p && ':' !in p
    requires rest == "" || rest[0] == ';' || rest[0] == '{' || rest[0] == '}'
    ensures var after := f(p, v) + if rest == "" then "" else [rest[0]] + Rewritten(rest[1..], f);
            && Rewritten(selector + "{" + p + ":" + v + rest, f) == selector + "{" + p + ":" + after
            && Rewritten(selector + ";" + p + ":" + v + rest, f) == selector + ";" + p + ":" + after
            && Rewritten(p + ":" + v + rest, f) == p + ":" + after
  {
    PropertyAfter(selector, p);
    PropertyPlain(p);
    DeclarationReads(selector + "{" + p, p, v, rest, f);
    DeclarationReads(selector + ";" + p, p, v, rest, f);
    DeclarationReads(p, p, v, rest, f);
    hide Property, Rewritten, HasDelimiter;
  }

  /** A text with no colon has no declaration. */
  lemma NoDeclaration(text: string, f: Rewriter)
    requires ':' !in text
    ensures Rewritten(text, f) == text
  {
    OutsideReads(text, "", "", f);
    assert text + "" == text && "" + text == text;
  }
}
