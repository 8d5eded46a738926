/** The order and the tests the scripts apply to names. */
module Names {
  import opened Basics

  /** Python's order on strings: code point by code point. */
  predicate AtMost(a: string, b: string)
    decreases |a|
  {
    a == "" || (b != "" && (a[0] < b[0] || (a[0] == b[0] && AtMost(a[1..], b[1..]))))
  }

  lemma {:induction false} AtMostTotal(a: string, b: string)
    ensures AtMost(a, b) || AtMost(b, a)
    decreases |a|
  {
    if a != "" && b != "" && a[0] == b[0] {
      AtMostTotal(a[1..], b[1..]);
    }
  }

  lemma {:induction false} AtMostAntisymmetric(a: string, b: string)
    requires AtMost(a, b) && AtMost(b, a)
    ensures a == b
    decreases |a|
  {
    if a != "" && b != "" {
      AtMostAntisymmetric(a[1..], b[1..]);
      assert a == [a[0]] + a[1..] && b == [b[0]] + b[1..];
    }
  }

  lemma {:induction false} AtMostTransitive(a: string, b: string, c: string)
    requires AtMost(a, b) && AtMost(b, c)
    ensures AtMost(a, c)
    decreases |a|
  {
    if a != "" && a[0] == b[0] && b[0] == c[0] {
      AtMostTransitive(a[1..], b[1..], c[1..]);
    }
  }

  /** The order is decided by the first character that differs, and by length where none does. */
  lemma {:induction false} OrderIs(same: string, x: char, y: char, a: string, b: string)
    ensures AtMost(same, same + a)
    ensures a != "" ==> !AtMost(same + a, same)
    ensures x < y ==> AtMost(same + ([x] + a), same + ([y] + b)) && !AtMost(same + ([y] + b), same + ([x] + a))
    decreases |same|
  {
    if same == "" {
      assert same + a == a && same + ([x] + a) == [x] + a && same + ([y] + b) == [y] + b;
    } else {
      OrderIs(same[1..], x, y, a, b);
      ConcatTail(same, a);
      ConcatTail(same, [x] + a);
      ConcatTail(same, [y] + b);
    }
  }

  predicate IsLeast(least: string, names: set<string>) {
    least in names && forall n :: n in names ==> AtMost(least, n)
  }

  lemma {:induction false} LeastExists(names: set<string>)
    requires names != {}
    ensures exists least :: IsLeast(least, names)
    decreases names
  {
    var n :| n in names;
    AtMostTotal(n, n);
    if names == {n} {
      assert IsLeast(n, names);
    } else {
      LeastExists(names - {n});
      var m :| IsLeast(m, names - {n});
      AtMostTotal(n, m);
      var least := if AtMost(n, m) then n else m;
      forall k | k in names ensures AtMost(least, k) {
        if k != n && AtMost(n, m) {
          AtMostTransitive(n, m, k);
        }
      }
      assert IsLeast(least, names);
    }
  }

  /** The first name in order. */
  function Least(names: set<string>): (least: string)
    requires names != {}
    ensures IsLeast(least, names)
  {
    LeastExists(names);
    assert forall a, b :: IsLeast(a, names) && IsLeast(b, names) ==> a == b by {
      forall a, b | IsLeast(a, names) && IsLeast(b, names) ensures a == b {
        AtMostAntisymmetric(a, b);
      }
    }
    var least :| IsLeast(least, names);
    least
  }

  /** `sorted(names)`: every name once, in order. */
  function Sorted(names: set<string>): (sorted: seq<string>)
    ensures Elements(sorted) == names
    ensures Distinct(sorted)
    ensures forall i :: 0 <= i < |sorted| ==> sorted[i] in names
    ensures forall n :: n in names ==> n in sorted
    decreases names
  {
    if names == {} then []
    else
      var least := Least(names);
      var rest := Sorted(names - {least});
      assert Elements([least] + rest) == {least} + Elements(rest);
      [least] + rest
  }

  lemma {:induction false} SortedInOrder(names: set<string>, i: nat, j: nat)
    requires i < j < |Sorted(names)|
    ensures AtMost(Sorted(names)[i], Sorted(names)[j])
    decreases names
  {
    var least := Least(names);
    var rest := Sorted(names - {least});
    assert Sorted(names) == [least] + rest;
    hide Sorted, AtMost;
    assert rest[j - 1] in names;
    if i > 0 {
      SortedInOrder(names - {least}, i - 1, j - 1);
    }
  }

  /** `text.startswith(prefix)` */
  predicate StartsWith(text: string, prefix: string) {
    prefix <= text
  }

  /** `text.endswith(suffix)` */
  predicate EndsWith(text: string, suffix: string) {
    |suffix| <= |text| && text[|text| - |suffix|..] == suffix
  }

  /** `text.split(separator)` */
  function Split(text: string, separator: char): (parts: seq<string>)
    ensures |parts| > 0
    ensures forall i :: 0 <= i < |parts| ==> separator !in parts[i]
    decreases |text|
  {
    if text == "" then [""]
    else if text[0] == separator then [""] + Split(text[1..], separator)
    else
      var rest := Split(text[1..], separator);
      [[text[0]] + rest[0]] + rest[1..]
  }
}
