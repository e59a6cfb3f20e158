/**
 Reading and editing the price condition of an Encar search
 (backend/app/scanner.py: `extract_price_filter`, `apply_price_filter`).
 */
module PriceFilter {
  import opened Characters
  import opened Decimals
  import opened Wrappers

  const UNIT := 10_000
  const MAX_PRICE := 100_000_000

  datatype Bounds = Bounds(minimum: Option<int>, maximum: Option<int>)

  datatype Error = NoFilterState | SeveralPrices | BadPrice | BadRange | UnsupportedCondition | UnsupportedAction

  /** The decoded state of a search address; `rest` is what the edit does not look at. */
  datatype Search = Search(
    action: Option<string>,
    toggles: map<string, int>,
    page: int,
    cursor: Option<string>,
    rest: map<string, string>)

  // --- the price condition in an action -------------------------------------------

  const OPENING := "Price.range("

  /** The characters the pattern accepts in a bound. */
  predicate InBound(c: char) {
    IsDigit(c) || c == ','
  }

  predicate IsBound(s: string) {
    forall c | c in s :: InBound(c)
  }

  /** The price condition with these bounds, as text. */
  function Condition(minimum: string, maximum: string): string {
    OPENING + minimum + ".." + maximum + ")"
  }

  /** How many leading characters of `s` can belong to a bound. */
  function BoundLength(s: string): (n: nat)
    ensures n <= |s| && IsBound(s[..n]) && (n < |s| ==> !InBound(s[n]))
  {
    if s == [] || !InBound(s[0]) then 0
    else
      assert forall c | c in s[..1 + BoundLength(s[1..])] :: c == s[0] || c in s[1..][..BoundLength(s[1..])];
      1 + BoundLength(s[1..])
  }

  datatype Match = Match(minimum: string, maximum: string)

  /** The pattern, matched at the front of `s`. */
  function MatchHere(s: string): Option<Match> {
    if !(OPENING <= s) then None
    else
      var a := s[|OPENING|..];
      var m := BoundLength(a);
      if !(".." <= a[m..]) then None
      else
        var b := a[m + 2..];
        var n := BoundLength(b);
        if !(")" <= b[n..]) then None else Some(Match(a[..m], b[..n]))
  }

  function Width(m: Match): nat {
    |Condition(m.minimum, m.maximum)|
  }

  /** A match and where it starts. */
  datatype Found = Found(start: nat, match_: Match)

  lemma MatchFits(s: string)
    ensures MatchHere(s).Some? ==> Width(MatchHere(s).value) <= |s|
  {
    if MatchHere(s).Some? {
      MatchIsCondition(s, MatchHere(s).value);
    }
  }

  /** All matches from `from` on, left to right and without overlap. */
  function Matches(s: string, from: nat): seq<Found>
    decreases |s| - from
  {
    if from >= |s| then []
    else
      var m := MatchHere(s[from..]);
      if m.None? then Matches(s, from + 1)
      else [Found(from, m.value)] + Matches(s, from + Width(m.value))
  }

  // --- the pattern matches exactly the conditions ---------------------------------

  lemma {:induction false} BoundIsLongest(a: string, rest: string)
    requires IsBound(a) && (rest == [] || !InBound(rest[0]))
    ensures BoundLength(a + rest) == |a|
  {
    if a == [] {
      assert a + rest == rest;
    } else {
      assert (a + rest)[1..] == a[1..] + rest;
      BoundIsLongest(a[1..], rest);
    }
  }

  /** The pattern matches at the front of `s` exactly when `s` starts with that condition. */
  lemma MatchIsCondition(s: string, m: Match)
    ensures MatchHere(s) == Some(m)
      <==> IsBound(m.minimum) && IsBound(m.maximum) && Condition(m.minimum, m.maximum) <= s
  {
    hide MatchHere, Condition, IsBound;
    if MatchHere(s) == Some(m) {
      MatchGivesCondition(s, m);
    }
    if IsBound(m.minimum) && IsBound(m.maximum) && Condition(m.minimum, m.maximum) <= s {
      ConditionMatches(m.minimum, m.maximum, s[Width(m)..]);
      assert s == Condition(m.minimum, m.maximum) + s[Width(m)..];
    }
  }

  lemma Prefixes(a: string, b: string, s: string)
    requires a <= s && b <= s[|a|..]
    ensures a + b <= s
  {
    assert s == a + s[|a|..];
  }

  lemma MatchGivesCondition(s: string, m: Match)
    requires MatchHere(s) == Some(m)
    ensures IsBound(m.minimum) && IsBound(m.maximum) && Condition(m.minimum, m.maximum) <= s
  {
    hide BoundLength;
    var a := s[|OPENING|..];
    var b := a[|m.minimum| + 2..];
    Prefixes(OPENING, m.minimum, s);
    assert s[|OPENING + m.minimum|..] == a[|m.minimum|..];
    Prefixes(OPENING + m.minimum, "..", s);
    assert s[|OPENING + m.minimum + ".."|..] == b;
    Prefixes(OPENING + m.minimum + "..", m.maximum, s);
    assert s[|OPENING + m.minimum + ".." + m.maximum|..] == b[|m.maximum|..];
    Prefixes(OPENING + m.minimum + ".." + m.maximum, ")", s);
  }

  lemma ConditionMatches(minimum: string, maximum: string, rest: string)
    requires IsBound(minimum) && IsBound(maximum)
    ensures MatchHere(Condition(minimum, maximum) + rest) == Some(Match(minimum, maximum))
  {
    hide BoundLength;
    var s := Condition(minimum, maximum) + rest;
    var after := ")" + rest;
    assert s[|OPENING|..] == minimum + (".." + (maximum + after));
    BoundIsLongest(minimum, ".." + (maximum + after));
    assert (minimum + (".." + (maximum + after)))[|minimum| + 2..] == maximum + after;
    BoundIsLongest(maximum, after);
  }

  // --- where conditions stand in an action ----------------------------------------

  /** No price condition anywhere in `s`. */
  ghost predicate Free(s: string) {
    forall j | 0 <= j <= |s| :: MatchHere(s[j..]).None?
  }

  lemma MatchesUnfold(s: string, from: nat)
    requires from <= |s|
    ensures Matches(s, from) == []
      <==> MatchHere(s[from..]).None? && (from < |s| ==> Matches(s, from + 1) == [])
  {
    MatchFits(s[from..]);
    if from == |s| {
      assert s[from..] == [];
    }
  }

  lemma {:induction false} NoMatches(s: string, from: nat)
    requires from <= |s|
    ensures Matches(s, from) == [] <==> forall j | from <= j <= |s| :: MatchHere(s[j..]).None?
    decreases |s| - from
  {
    hide MatchHere, Matches;
    MatchesUnfold(s, from);
    if from < |s| {
      NoMatches(s, from + 1);
    }
  }

  lemma MatchesOfFree(s: string)
    ensures Matches(s, 0) == [] <==> Free(s)
  {
    NoMatches(s, 0);
  }

  /** Nothing matches before position `i`, something does there. */
  lemma {:induction false} FirstMatch(s: string, from: nat, i: nat, m: Match)
    requires from <= i < |s| && MatchHere(s[i..]) == Some(m)
    requires forall j | from <= j < i :: MatchHere(s[j..]).None?
    ensures Matches(s, from) == [Found(i, m)] + Matches(s, i + Width(m))
    decreases i - from
  {
    hide MatchHere;
    if from < i {
      FirstMatch(s, from + 1, i, m);
    }
  }

  lemma WidthIsPositive(m: Match)
    ensures Width(m) > 0
  {
  }

  lemma {:induction false} MatchesStart(s: string, from: nat)
    requires Matches(s, from) != []
    ensures var f := Matches(s, from)[0];
            && from <= f.start < |s| && MatchHere(s[f.start..]) == Some(f.match_)
            && f.start + Width(f.match_) <= |s|
            && (forall j | from <= j < f.start :: MatchHere(s[j..]).None?)
            && Matches(s, from)[1..] == Matches(s, f.start + Width(f.match_))
    decreases |s| - from
  {
    hide MatchHere, Width;
    MatchFits(s[from..]);
    var m := MatchHere(s[from..]);
    if m.None? {
      MatchesStart(s, from + 1);
    } else {
      assert Matches(s, from) == [Found(from, m.value)] + Matches(s, from + Width(m.value));
      WidthIsPositive(m.value);
    }
  }

  lemma MatchExtends(s: string, t: string)
    ensures MatchHere(s).Some? && s <= t ==> MatchHere(t) == MatchHere(s)
  {
    if MatchHere(s).Some? && s <= t {
      MatchIsCondition(s, MatchHere(s).value);
      MatchIsCondition(t, MatchHere(s).value);
    }
  }

  /** A part of a text without conditions has none. */
  lemma FreePart(a: string, b: string)
    requires Free(a + b)
    ensures Free(a) && Free(b)
  {
    forall j | 0 <= j <= |a| ensures MatchHere(a[j..]).None? {
      assert (a + b)[j..] == a[j..] + b;
      MatchExtends(a[j..], (a + b)[j..]);
    }
    forall j | 0 <= j <= |b| ensures MatchHere(b[j..]).None? {
      assert (a + b)[|a| + j..] == b[j..];
    }
  }

  lemma NoPInside(minimum: string, maximum: string)
    requires IsBound(minimum) && IsBound(maximum)
    ensures 'P' !in Condition(minimum, maximum)[1..]
  {
    assert 'P' !in minimum && 'P' !in maximum;
    hide IsBound;
    var inner := "rice.range(";
    assert OPENING[1..] == inner;
    assert 'P' !in inner;
    assert Condition(minimum, maximum)[1..] == OPENING[1..] + minimum + ".." + maximum + ")";
  }

  /** A match starts with a P, ends with a closing bracket, and has no other P. */
  lemma MatchShape(s: string, j: nat, m: Match)
    requires j <= |s| && MatchHere(s[j..]) == Some(m)
    ensures var end := j + Width(m);
            && j + 1 < end <= |s| && s[j] == 'P' && s[end - 1] == ')'
            && forall k | j < k < end :: s[k] != 'P'
  {
    MatchIsCondition(s[j..], m);
    NoPInside(m.minimum, m.maximum);
    hide MatchHere, IsBound;
    var c := Condition(m.minimum, m.maximum);
    assert c[0] == OPENING[0] == 'P' && c[|c| - 1] == ')';
    hide Condition;
    assert forall k | 0 <= k < |c| :: c[k] == s[j..][k] == s[j + k];
    forall k | j < k < j + Width(m) ensures s[k] != 'P' {
      assert s[k] == c[k - j] == c[1..][k - j - 1];
    }
  }

  /** A match that ends inside `a` is a match of `a`. */
  lemma MatchInside(a: string, b: string, j: nat, m: Match)
    requires j <= |a| && MatchHere((a + b)[j..]) == Some(m) && j + Width(m) <= |a|
    ensures MatchHere(a[j..]) == Some(m)
  {
    hide MatchHere, IsBound, Condition;
    MatchIsCondition((a + b)[j..], m);
    MatchIsCondition(a[j..], m);
    assert (a + b)[j..] == a[j..] + b;
    PrefixOfFirst(Condition(m.minimum, m.maximum), a[j..], b);
  }

  lemma PrefixOfFirst(c: string, x: string, y: string)
    requires c <= x + y && |c| <= |x|
    ensures c <= x
  {
    assert forall k | 0 <= k < |c| :: c[k] == (x + y)[k] == x[k];
  }

  /** A text without a P is free. */
  lemma NoPIsFree(s: string)
    requires 'P' !in s
    ensures Free(s)
  {
    hide MatchHere, Width;
    forall j | 0 <= j <= |s| ensures MatchHere(s[j..]).None? {
      if MatchHere(s[j..]).Some? {
        MatchShape(s, j, MatchHere(s[j..]).value);
        assert false;
      }
    }
  }

  lemma FreeWithoutBracket(a: string, b: string)
    requires Free(a) && ')' !in b
    ensures Free(a + b)
  {
    hide MatchHere, Width;
    assert forall k | |a| <= k < |a + b| :: (a + b)[k] == b[k - |a|] != ')';
    forall j | 0 <= j <= |a + b| ensures MatchHere((a + b)[j..]).None? {
      var m := MatchHere((a + b)[j..]);
      if m.Some? {
        MatchShape(a + b, j, m.value);
        MatchInside(a, b, j, m.value);
        assert false;
      }
    }
  }

  /** A match that starts in `a` does not reach over a P behind `a`. */
  lemma NoMatchBefore(a: string, rest: string, j: nat)
    requires j < |a| && rest != [] && rest[0] == 'P'
    ensures MatchHere((a + rest)[j..]).Some? ==> MatchHere(a[j..]).Some?
  {
    hide MatchHere, Width;
    var m := MatchHere((a + rest)[j..]);
    if m.Some? {
      MatchShape(a + rest, j, m.value);
      assert (a + rest)[|a|] == 'P';
      MatchInside(a, rest, j, m.value);
    }
  }

  lemma NoMatchAfter(a: string, b: string)
    requires Free(b)
    ensures Matches(a + b, |a|) == []
  {
    hide MatchHere, Matches;
    forall j | |a| <= j <= |a + b| ensures MatchHere((a + b)[j..]).None? {
      assert (a + b)[j..] == b[j - |a|..];
    }
    NoMatches(a + b, |a|);
  }

  lemma OneMatchAt(a: string, c: string, m: Match, b: string)
    requires Free(a) && Free(b) && c != [] && c[0] == 'P' && MatchHere(c + b) == Some(m) && Width(m) == |c|
    ensures Matches(a + c + b, 0) == [Found(|a|, m)]
  {
    hide MatchHere, Matches, Width;
    var s := a + c + b;
    assert s == a + (c + b);
    assert s[|a|..] == c + b;
    forall j | 0 <= j < |a| ensures MatchHere(s[j..]).None? {
      NoMatchBefore(a, c + b, j);
      assert MatchHere(a[j..]).None?;
    }
    FirstMatch(s, 0, |a|, m);
    NoMatchAfter(a + c, b);
  }

  /** A condition between two texts without conditions is the only match. */
  lemma OneMatch(a: string, m: Match, b: string)
    requires Free(a) && Free(b) && IsBound(m.minimum) && IsBound(m.maximum)
    ensures Matches(a + Condition(m.minimum, m.maximum) + b, 0) == [Found(|a|, m)]
  {
    hide MatchHere, Matches, IsBound;
    ConditionMatches(m.minimum, m.maximum, b);
    OneMatchAt(a, Condition(m.minimum, m.maximum), m, b);
  }

  lemma SplitFree(s: string, i: nat, end: nat)
    requires i <= end <= |s|
    requires forall j | 0 <= j < i :: MatchHere(s[j..]).None?
    requires forall j | end <= j <= |s| :: MatchHere(s[j..]).None?
    ensures Free(s[..i]) && Free(s[end..])
  {
    hide MatchHere;
    forall j | 0 <= j <= i ensures MatchHere(s[..i][j..]).None? {
      if j < i {
        assert s[j..] == s[..i][j..] + s[i..];
        MatchExtends(s[..i][j..], s[j..]);
      } else {
        assert s[..i][j..] == [];
        NoPIsFree([]);
        assert MatchHere([][0..]).None?;
      }
    }
    forall j | 0 <= j <= |s| - end ensures MatchHere(s[end..][j..]).None? {
      assert s[end..][j..] == s[end + j..];
    }
  }

  /** The only match splits the text. */
  lemma SplitAtMatch(s: string)
    requires |Matches(s, 0)| == 1
    ensures var f := Matches(s, 0)[0];
            var end := f.start + Width(f.match_);
            && end <= |s| && IsBound(f.match_.minimum) && IsBound(f.match_.maximum)
            && s == s[..f.start] + Condition(f.match_.minimum, f.match_.maximum) + s[end..]
            && Free(s[..f.start]) && Free(s[end..])
  {
    hide MatchHere, Matches, IsBound, Condition;
    var f := Matches(s, 0)[0];
    var end := f.start + Width(f.match_);
    MatchesStart(s, 0);
    MatchIsCondition(s[f.start..], f.match_);
    assert Matches(s, end) == [];
    NoMatches(s, end);
    SplitFree(s, f.start, end);
    var c := Condition(f.match_.minimum, f.match_.maximum);
    assert s[f.start..] == c + s[f.start..][|c|..];
    assert s[f.start..][|c|..] == s[end..];
    assert s == s[..f.start] + s[f.start..];
  }
}
