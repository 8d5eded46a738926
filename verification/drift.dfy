/** The names on the two sides of the comparison, and the pairing of those that were renamed. */
module Drift {
  import opened Basics
  import opened Names

  predicate IsGroupOwned(name: string) {
    name in {"watchtower", "oasis-mail", "subscribe-portal"}
    || StartsWith(name, "consul-reg-g") || StartsWith(name, "tutor-")
  }

  /** The second name is the first one with dashed words added or taken away. */
  predicate LooksRenamed(missing: string, extra: string) {
    && missing != "" && missing != extra
    && (|| EndsWith(extra, "-" + missing)
        || StartsWith(extra, missing + "-")
        || missing in Split(extra, '-')
        || extra in Split(missing, '-'))
  }

  function Score(repo: string, extra: string): nat {
    if StartsWith(extra, repo + "-") then 2 else 1
  }

  datatype Finding = Missing(service: string, repo: string) | Extra(service: string) | OwnHost(repo: string)

  predicate IsViolation(f: Finding) {
    !(f.Extra? && IsGroupOwned(f.service))
  }

  /** What a repo or a group declares: each service, and whether a profile gates it. */
  type Gating = map<string, bool>

  function AlwaysOn(services: Gating): set<string> {
    set n | n in services && !services[n]
  }

  function OptIn(services: Gating): set<string> {
    set n | n in services && services[n]
  }

  // ── which repo a service belongs to ──

  function Declarers(members: map<string, Gating>, name: string): set<string> {
    set r | r in members && name in AlwaysOn(members[r])
  }

  function RepoNames(members: map<string, Gating>): set<string> {
    set r, n | r in members && n in AlwaysOn(members[r]) :: n
  }

  /** Every always-on service of a member repo, with the first repo in order to declare it. */
  function RepoServices(members: map<string, Gating>): map<string, string> {
    map n | n in RepoNames(members) && Declarers(members, n) != {} :: Least(Declarers(members, n))
  }

  lemma RepoServicesKeys(members: map<string, Gating>)
    ensures RepoServices(members).Keys == RepoNames(members)
  {
    forall n | n in RepoNames(members) ensures Declarers(members, n) != {} {
      var r :| r in members && n in AlwaysOn(members[r]);
      assert r in Declarers(members, n);
    }
  }

  /** `owned.setdefault(name, repo)` for each name in turn. */
  method Claim(owned: map<string, string>, repo: string, names: seq<string>) returns (owned': map<string, string>)
    ensures owned'.Keys == owned.Keys + Elements(names)
    ensures forall n :: n in owned' ==> owned'[n] == if n in owned then owned[n] else repo
  {
    owned' := owned;
    for j := 0 to |names|
      invariant owned'.Keys == owned.Keys + Elements(names[..j])
      invariant forall n :: n in owned' ==> owned'[n] == if n in owned then owned[n] else repo
    {
      TakeSnoc(names, j);
      ElementsConcat(names[..j], [names[j]]);
      assert Elements([names[j]]) == {names[j]};
      if names[j] !in owned' {
        owned' := owned'[names[j] := repo];
      }
    }
    TakeAll(names);
  }

  ghost predicate DeclaredBefore(members: map<string, Gating>, repos: seq<string>, i: nat, name: string) {
    exists k :: 0 <= k < i <= |repos| && repos[k] in members && name in AlwaysOn(members[repos[k]])
  }

  /** The claims made by the first `i` repos: each by the first repo in order to declare the name. */
  ghost predicate ClaimedSoFar(members: map<string, Gating>, repos: seq<string>, i: nat, owned: map<string, string>) {
    && (forall n :: n in owned <==> DeclaredBefore(members, repos, i, n))
    && (forall n :: n in owned ==> IsLeast(owned[n], Declarers(members, n)))
  }

  lemma DeclaredOneMore(members: map<string, Gating>, repos: seq<string>, i: nat, name: string)
    requires i < |repos| && repos[i] in members
    ensures DeclaredBefore(members, repos, i + 1, name) <==>
              DeclaredBefore(members, repos, i, name) || name in AlwaysOn(members[repos[i]])
  {
    if DeclaredBefore(members, repos, i, name) {
      var k :| 0 <= k < i && repos[k] in members && name in AlwaysOn(members[repos[k]]);
      assert k < i + 1;
    }
  }

  lemma ClaimStep(members: map<string, Gating>, repos: seq<string>, i: nat,
                  owned: map<string, string>, owned': map<string, string>)
    requires repos == Sorted(members.Keys) && i < |repos| && repos[i] in members
    requires ClaimedSoFar(members, repos, i, owned)
    requires owned'.Keys == owned.Keys + AlwaysOn(members[repos[i]])
    requires forall n :: n in owned' ==> owned'[n] == if n in owned then owned[n] else repos[i]
    ensures ClaimedSoFar(members, repos, i + 1, owned')
  {
    forall n ensures n in owned' <==> DeclaredBefore(members, repos, i + 1, n) {
      DeclaredOneMore(members, repos, i, n);
    }
    forall n | n in owned' ensures IsLeast(owned'[n], Declarers(members, n)) {
      if n !in owned {
        FirstDeclarer(members, repos, i, n);
      }
    }
  }

  lemma DeclaredByAll(members: map<string, Gating>, repos: seq<string>, n: string)
    requires Elements(repos) == members.Keys
    ensures DeclaredBefore(members, repos, |repos|, n) <==> n in RepoNames(members)
  {
    if n in RepoNames(members) {
      var r :| r in members && n in AlwaysOn(members[r]);
      assert r in Elements(repos);
      var k :| 0 <= k < |repos| && repos[k] == r;
    }
  }

  lemma ClaimedAll(members: map<string, Gating>, repos: seq<string>, owned: map<string, string>)
    requires Elements(repos) == members.Keys
    requires ClaimedSoFar(members, repos, |repos|, owned)
    ensures owned == RepoServices(members)
  {
    RepoServicesKeys(members);
    forall n ensures n in owned <==> n in RepoServices(members) {
      DeclaredByAll(members, repos, n);
    }
    forall n | n in owned ensures owned[n] == RepoServices(members)[n] {
      AtMostAntisymmetric(owned[n], Least(Declarers(members, n)));
    }
  }

  /** `repo_services()`: the repos in order, the names of each in order, the first claim kept. */
  method CollectRepoServices(members: map<string, Gating>) returns (owned: map<string, string>)
    ensures owned == RepoServices(members)
  {
    owned := map[];
    var repos := Sorted(members.Keys);
    for i := 0 to |repos|
      invariant ClaimedSoFar(members, repos, i, owned)
    {
      assert repos[i] in Elements(repos);
      var owned' := Claim(owned, repos[i], Sorted(AlwaysOn(members[repos[i]])));
      ClaimStep(members, repos, i, owned, owned');
      owned := owned';
    }
    ClaimedAll(members, repos, owned);
  }

  lemma FirstDeclarer(members: map<string, Gating>, repos: seq<string>, i: nat, name: string)
    requires repos == Sorted(members.Keys) && i < |repos| && repos[i] in members
    requires name in AlwaysOn(members[repos[i]]) && !DeclaredBefore(members, repos, i, name)
    ensures IsLeast(repos[i], Declarers(members, name))
  {
    forall r | r in Declarers(members, name) ensures AtMost(repos[i], r) {
      assert r in Elements(repos);
      var k :| 0 <= k < |repos| && repos[k] == r;
      assert !(k < i);
      AtMostTotal(r, r);
      if i < k {
        SortedInOrder(members.Keys, i, k);
      }
    }
  }

  // ── pairing a missing service with the name the group gave it ──

  function Lookalikes(missing: string, extras: set<string>): set<string> {
    set e | e in extras && LooksRenamed(missing, e)
  }

  predicate Precedes(repo: string, a: string, b: string) {
    Score(repo, a) < Score(repo, b) || (Score(repo, a) == Score(repo, b) && AtMost(a, b))
  }

  predicate IsBest(repo: string, best: string, names: set<string>) {
    best in names && forall n :: n in names ==> Precedes(repo, n, best)
  }

  lemma PrecedesTransitive(repo: string, a: string, b: string, c: string)
    ensures Precedes(repo, a, b) && Precedes(repo, b, c) ==> Precedes(repo, a, c)
  {
    if AtMost(a, b) && AtMost(b, c) {
      AtMostTransitive(a, b, c);
    }
  }

  lemma {:induction false} BestExists(repo: string, names: set<string>)
    requires names != {}
    ensures exists best :: IsBest(repo, best, names)
    decreases names
  {
    var n :| n in names;
    AtMostTotal(n, n);
    if names == {n} {
      assert IsBest(repo, n, names);
    } else {
      BestExists(repo, names - {n});
      var m :| IsBest(repo, m, names - {n});
      AtMostTotal(n, m);
      var best := if Precedes(repo, n, m) then m else n;
      forall k | k in names ensures Precedes(repo, k, best) {
        if k != n {
          assert Precedes(repo, k, m);
          PrecedesTransitive(repo, k, m, n);
        }
      }
      assert IsBest(repo, best, names);
    }
  }

  /** The candidate a descending sort on (score, name) puts first. */
  function Best(repo: string, names: set<string>): (best: string)
    requires names != {}
    ensures IsBest(repo, best, names)
  {
    BestExists(repo, names);
    assert forall a, b :: IsBest(repo, a, names) && IsBest(repo, b, names) ==> a == b by {
      forall a, b | IsBest(repo, a, names) && IsBest(repo, b, names) ensures a == b {
        AtMostAntisymmetric(a, b);
      }
    }
    var best :| IsBest(repo, best, names);
    best
  }

  datatype Pair = Pair(missing: Finding, extra: string)

  /** The greedy pairing: each missing service in turn takes its best remaining name. */
  function PairUp(missing: seq<Finding>, extras: set<string>): (pairs: seq<Pair>)
    requires forall i :: 0 <= i < |missing| ==> missing[i].Missing?
    ensures forall i :: 0 <= i < |pairs| ==> pairs[i].missing in missing && pairs[i].missing.Missing?
    decreases |missing|
  {
    if missing == [] then []
    else
      var first := missing[0];
      var candidates := Lookalikes(first.service, extras);
      if candidates == {} then PairUp(missing[1..], extras)
      else
        var best := Best(first.repo, candidates);
        [Pair(first, best)] + PairUp(missing[1..], extras - {best})
  }

  function PairedMissing(pairs: seq<Pair>): set<Finding> {
    set i | 0 <= i < |pairs| :: pairs[i].missing
  }

  function PairedExtras(pairs: seq<Pair>): set<string> {
    set i | 0 <= i < |pairs| :: pairs[i].extra
  }

  ghost predicate IsMatching(pairs: seq<Pair>, missing: seq<Finding>, extras: set<string>) {
    && (forall i :: 0 <= i < |pairs| ==> pairs[i].missing in missing && pairs[i].extra in extras)
    && (forall i, j :: 0 <= i < j < |pairs| ==>
          pairs[i].missing != pairs[j].missing && pairs[i].extra != pairs[j].extra)
    && (forall i :: 0 <= i < |pairs| ==>
          pairs[i].missing.Missing? && LooksRenamed(pairs[i].missing.service, pairs[i].extra))
  }

  /** No missing service and extra name that are both left over look like a rename of each other. */
  ghost predicate IsMaximal(pairs: seq<Pair>, missing: seq<Finding>, extras: set<string>) {
    forall m, e :: m in missing && m.Missing? && m !in PairedMissing(pairs) && e in extras - PairedExtras(pairs)
      ==> !LooksRenamed(m.service, e)
  }

  lemma PairedCons(first: Pair, more: seq<Pair>)
    ensures PairedMissing([first] + more) == {first.missing} + PairedMissing(more)
    ensures PairedExtras([first] + more) == {first.extra} + PairedExtras(more)
  {
    var pairs := [first] + more;
    assert pairs[0] == first;
    forall i | 0 <= i < |more|
      ensures more[i].missing in PairedMissing(pairs) && more[i].extra in PairedExtras(pairs)
    {
      assert pairs[i + 1] == more[i];
    }
  }

  lemma MatchingCons(more: seq<Pair>, first: Finding, rest: seq<Finding>, best: string, extras: set<string>)
    requires IsMatching(more, rest, extras - {best}) && first.Missing? && first !in rest
    requires best in extras && LooksRenamed(first.service, best)
    ensures IsMatching([Pair(first, best)] + more, [first] + rest, extras)
  {
    hide LooksRenamed;
    var all := [Pair(first, best)] + more;
    forall i | 0 <= i < |all|
      ensures all[i].missing in [first] + rest && all[i].extra in extras
      ensures all[i].missing.Missing? && LooksRenamed(all[i].missing.service, all[i].extra)
      ensures i > 0 ==> all[i].missing != first && all[i].extra != best
    {
      if i > 0 {
        assert all[i] == more[i - 1];
      }
    }
    forall i, j | 0 <= i < j < |all| ensures all[i].missing != all[j].missing && all[i].extra != all[j].extra {
      if i > 0 {
        assert all[i] == more[i - 1] && all[j] == more[j - 1];
      }
    }
  }

  /** The greedy pairing is one-to-one, and pairs only what looks renamed. */
  lemma {:induction false} PairingIsMatching(missing: seq<Finding>, extras: set<string>)
    requires forall i :: 0 <= i < |missing| ==> missing[i].Missing?
    requires Distinct(missing)
    ensures IsMatching(PairUp(missing, extras), missing, extras)
    decreases |missing|
  {
    if missing != [] {
      var first, rest := missing[0], missing[1..];
      var candidates := Lookalikes(first.service, extras);
      if candidates == {} {
        PairingIsMatching(rest, extras);
      } else {
        var best := Best(first.repo, candidates);
        PairingIsMatching(rest, extras - {best});
        MatchingCons(PairUp(rest, extras - {best}), first, rest, best, extras);
      }
    }
  }

  /** The greedy pairing leaves no missing service beside a name it could have taken. */
  lemma {:induction false} PairingIsMaximal(missing: seq<Finding>, extras: set<string>)
    requires forall i :: 0 <= i < |missing| ==> missing[i].Missing?
    ensures IsMaximal(PairUp(missing, extras), missing, extras)
    decreases |missing|
  {
    if missing != [] {
      var first, rest := missing[0], missing[1..];
      var pairs := PairUp(missing, extras);
      var candidates := Lookalikes(first.service, extras);
      var left := if candidates == {} then extras else extras - {Best(first.repo, candidates)};
      var more := PairUp(rest, left);
      PairingIsMaximal(rest, left);
      if candidates != {} {
        PairedCons(Pair(first, Best(first.repo, candidates)), more);
      }
      forall m, e | m in missing && m.Missing? && m !in PairedMissing(pairs) && e in extras - PairedExtras(pairs)
        ensures !LooksRenamed(m.service, e)
      {
        assert e in left - PairedExtras(more);
        assert m !in PairedMissing(more);
        if m !in rest {
          assert m == first && e !in candidates;
        }
      }
    }
  }

  /** Each pair took the best-scored name: none left over at the end scores higher for it. */
  lemma {:induction false} PairingPrefersScore(missing: seq<Finding>, extras: set<string>, i: nat, e: string)
    requires forall k :: 0 <= k < |missing| ==> missing[k].Missing?
    requires i < |PairUp(missing, extras)|
    requires e in extras && e !in PairedExtras(PairUp(missing, extras))
    requires LooksRenamed(PairUp(missing, extras)[i].missing.service, e)
    ensures Precedes(PairUp(missing, extras)[i].missing.repo, e, PairUp(missing, extras)[i].extra)
    decreases |missing|
  {
    if missing != [] {
      var first, rest := missing[0], missing[1..];
      var pairs := PairUp(missing, extras);
      var candidates := Lookalikes(first.service, extras);
      if candidates == {} {
        PairingPrefersScore(rest, extras, i, e);
      } else {
        var best := Best(first.repo, candidates);
        var more := PairUp(rest, extras - {best});
        PairedCons(Pair(first, best), more);
        if i > 0 {
          PairingPrefersScore(rest, extras - {best}, i - 1, e);
        }
      }
    }
  }

  /** A maximal matching has at least half the pairs of any matching of the same relation. */
  lemma MaximalIsHalf(pairs: seq<Pair>, other: seq<Pair>, missing: seq<Finding>, extras: set<string>)
    requires IsMatching(pairs, missing, extras) && IsMaximal(pairs, missing, extras)
    requires IsMatching(other, missing, extras)
    ensures |other| <= 2 * |pairs|
  {
    var all := Elements(other);
    var touchesMissing := set p | p in all && p.missing in PairedMissing(pairs);
    var touchesExtra := set p | p in all && p.extra in PairedExtras(pairs);
    forall p | p in all ensures p in touchesMissing + touchesExtra {
      assert LooksRenamed(p.missing.service, p.extra);
      assert p.extra in PairedExtras(pairs) || p.extra in extras - PairedExtras(pairs);
    }
    assert all == touchesMissing + touchesExtra;
    DistinctCardinality(other);
    EndsBound(other, pairs, touchesMissing, touchesExtra);
    assert |touchesMissing + touchesExtra| <= |touchesMissing| + |touchesExtra|;
  }

  lemma EndsBound(other: seq<Pair>, pairs: seq<Pair>, a: set<Pair>, b: set<Pair>)
    requires forall i, j :: 0 <= i < j < |other| ==>
               other[i].missing != other[j].missing && other[i].extra != other[j].extra
    requires a <= Elements(other) && forall p :: p in a ==> p.missing in PairedMissing(pairs)
    requires b <= Elements(other) && forall p :: p in b ==> p.extra in PairedExtras(pairs)
    ensures |a| <= |pairs| && |b| <= |pairs|
  {
    InjectionBound(a, map p | p in a :: p.missing, PairedMissing(pairs));
    InjectionBound(b, map p | p in b :: p.extra, PairedExtras(pairs));
    ImageBound(pairs);
  }

  lemma {:induction false} ImageBound(pairs: seq<Pair>)
    ensures |PairedMissing(pairs)| <= |pairs| && |PairedExtras(pairs)| <= |pairs|
    decreases |pairs|
  {
    if pairs == [] {
      assert PairedMissing(pairs) == {} && PairedExtras(pairs) == {};
    } else {
      var init, last := pairs[..|pairs| - 1], pairs[|pairs| - 1];
      ImageBound(init);
      Snoc(pairs);
      assert PairedMissing(pairs) == PairedMissing(init) + {last.missing};
      assert PairedExtras(pairs) == PairedExtras(init) + {last.extra};
    }
  }

  // ── what looks renamed, letter by letter ──

  /** `w` is written out at place `i` of `s`, between dashes or the ends. */
  ghost predicate IsWordAt(s: string, w: string, i: nat) {
    && i + |w| <= |s| && s[i..i + |w|] == w && '-' !in w
    && (i == 0 || s[i - 1] == '-') && (i + |w| == |s| || s[i + |w|] == '-')
  }

  ghost predicate HasWord(s: string, w: string) {
    exists i: nat :: IsWordAt(s, w, i)
  }

  ghost predicate HasLaterWord(s: string, w: string) {
    exists i: nat :: i > 0 && IsWordAt(s, w, i)
  }

  lemma WordAtTail(s: string, w: string, i: nat)
    requires s != "" && i > 0
    ensures IsWordAt(s[1..], w, i) <==> IsWordAt(s, w, i + 1)
    ensures s[0] == '-' ==> (IsWordAt(s[1..], w, 0) <==> IsWordAt(s, w, 1))
    ensures s[0] != '-' ==> !IsWordAt(s, w, 1)
  {
    if i + |w| < |s| {
      assert s[1..][i..i + |w|] == s[i + 1..i + 1 + |w|];
    }
    if |w| < |s| {
      assert s[1..][..|w|] == s[1..1 + |w|];
    }
  }

  lemma FirstWord(s: string, w: string)
    requires s != ""
    ensures s[0] == '-' ==> (IsWordAt(s, w, 0) <==> w == "")
    ensures s[0] != '-' ==> (IsWordAt(s, w, 0) <==> w != "" && w[0] == s[0] && IsWordAt(s[1..], w[1..], 0))
  {
    if w != "" && |w| <= |s| {
      assert s[..|w|][0] == s[0];
      assert w == [w[0]] + w[1..];
      assert s[..|w|] == [s[0]] + s[1..][..|w| - 1];
    }
  }

  lemma LaterWords(s: string, w: string)
    requires s != ""
    ensures s[0] == '-' ==> (HasLaterWord(s, w) <==> HasWord(s[1..], w))
    ensures s[0] != '-' ==> (HasLaterWord(s, w) <==> HasLaterWord(s[1..], w))
  {
    WordAtTail(s, w, 1);
    if i: nat :| i > 0 && IsWordAt(s, w, i) {
      if i > 1 {
        WordAtTail(s, w, i - 1);
        assert IsWordAt(s[1..], w, i - 1);
      }
    }
    if i: nat :| i > 0 && IsWordAt(s[1..], w, i) {
      WordAtTail(s, w, i);
      assert IsWordAt(s, w, i + 1);
    }
    if s[0] == '-' && IsWordAt(s[1..], w, 0) {
      assert IsWordAt(s, w, 1);
    }
  }

  lemma {:induction false} SplitHasWords(s: string, w: string)
    ensures IsWordAt(s, w, 0) <==> w == Split(s, '-')[0]
    ensures HasLaterWord(s, w) <==> w in Split(s, '-')[1..]
    decreases |s|
  {
    if s != "" {
      FirstWord(s, w);
      LaterWords(s, w);
      SplitHasWords(s[1..], w);
      if s[0] == '-' {
        assert Split(s, '-')[1..] == Split(s[1..], '-');
      } else {
        assert Split(s, '-')[1..] == Split(s[1..], '-')[1..];
        if w != "" {
          SplitHasWords(s[1..], w[1..]);
          assert w == [w[0]] + w[1..];
        }
      }
    }
  }

  /** The parts a name splits into at its dashes are its dashed words. */
  lemma WordsAre(s: string, w: string)
    ensures w in Split(s, '-') <==> HasWord(s, w)
  {
    SplitHasWords(s, w);
    var parts := Split(s, '-');
    assert parts == [parts[0]] + parts[1..];
    if HasWord(s, w) {
      var i: nat :| IsWordAt(s, w, i);
      assert i > 0 ==> HasLaterWord(s, w);
    }
  }

  /** One name put before or after the other with a dash, or one a dashed word of the other. */
  ghost predicate Resembles(missing: string, extra: string) {
    && missing != "" && missing != extra
    && ((exists p :: extra == p + "-" + missing) || (exists p :: extra == missing + "-" + p)
        || HasWord(extra, missing) || HasWord(missing, extra))
  }

  lemma LooksRenamedIff(missing: string, extra: string)
    ensures LooksRenamed(missing, extra) <==> Resembles(missing, extra)
  {
    WordsAre(extra, missing);
    WordsAre(missing, extra);
    if EndsWith(extra, "-" + missing) {
      assert extra == extra[..|extra| - |missing| - 1] + "-" + missing;
    }
    if StartsWith(extra, missing + "-") {
      assert extra == missing + "-" + extra[|missing| + 1..];
    }
    if p :| extra == p + "-" + missing {
      assert extra[|extra| - |missing| - 1..] == "-" + missing;
    }
    hide HasWord;
  }
}
