/**
 What an edit of the price does to a whole search: to its list of conditions, and to
 everything else in it (backend/app/scanner.py).
 */
module PriceFilterLists {
  import opened Characters
  import opened Decimals
  import opened PriceFilter
  import opened PriceFilterEdit
  import opened Wrappers

  // --- everything but the action --------------------------------------------------

  /** An edit goes back to the first page, says whether a price is set, and leaves the rest of the search alone. */
  lemma EditTouchesOnlyPrice(s: Search, b: Bounds)
    requires Edited(s, b).Ok?
    ensures var e := Edited(s, b).value;
            && e.page == 1 && e.cursor == None && e.rest == s.rest && e.action.Some?
            && e.toggles.Keys == s.toggles.Keys + {"4"}
            && e.toggles["4"] == (if b.minimum.Some? || b.maximum.Some? then 1 else 0)
            && forall k | k in s.toggles && k != "4" :: e.toggles[k] == s.toggles[k]
  {
    hide Checked, EditedAction;
  }

  /** An amount that Encar can be asked for: up to a hundred million, in steps of ten thousand. */
  predicate Askable(amount: Option<int>) {
    amount.Some? ==> 0 <= amount.value <= 100_000_000 && amount.value % 10_000 == 0
  }

  /**
   When an edit is refused, and why: a bound that cannot be asked for, a minimum over the
   maximum, a search without an action, more than one price in it, a price that cannot be
   taken out, or an action that no condition can be added to.
   */
  lemma EditIsRefusedExactly(s: Search, b: Bounds)
    ensures var r := Edited(s, b);
            var askable := Askable(b.minimum) && Askable(b.maximum);
            var ordered := b.minimum.Some? && b.maximum.Some? ==> b.minimum.value <= b.maximum.value;
            && (r == Err(BadPrice) <==> !askable)
            && (r == Err(BadRange) <==> askable && !ordered)
            && (r == Err(NoFilterState) <==> askable && ordered && s.action.None?)
            && (askable && ordered && s.action.Some? ==>
                  var found := |Matches(s.action.value, 0)|;
                  var sets := b.minimum.Some? || b.maximum.Some?;
                  && (r == Err(SeveralPrices) <==> found > 1)
                  && (r == Err(UnsupportedAction) <==>
                        found == 0 && sets && (s.action.value == "" || s.action.value[|s.action.value| - 1] != ')'))
                  && (r == Err(UnsupportedCondition) ==> found == 1 && !sets)
                  && (r.Err? ==> r.error in {SeveralPrices, UnsupportedAction, UnsupportedCondition}))
  {
    hide Matches, Joined, Condition, BoundText, Width, EditedAction;
    if s.action.Some? && Valid(b) {
      ActionIsRefusedExactly(s.action.value, b);
    }
  }

  lemma ActionIsRefusedExactly(action: string, b: Bounds)
    requires Valid(b)
    ensures var r := EditedAction(action, b);
            var found := |Matches(action, 0)|;
            && (r == Err(SeveralPrices) <==> found > 1)
            && (r == Err(UnsupportedAction) <==> found == 0 && !Open(b) && (action == "" || action[|action| - 1] != ')'))
            && (r == Err(UnsupportedCondition) ==> found == 1 && Open(b))
            && (r.Err? ==> r.error in {SeveralPrices, UnsupportedAction, UnsupportedCondition})
  {
    ClosingBracket(action);
    hide Matches, Joined, ConditionFor, Width, EndsWith, Valid;
    if |Matches(action, 0)| == 1 {
      FoundInside(action);
      var f := Matches(action, 0)[0];
      RemovalFailsExactly(action[..f.start], action[f.start + Width(f.match_)..]);
    }
  }

  /** A condition can be taken out unless no separator stands on either side of it and it does not open a group. */
  lemma RemovalFailsExactly(before: string, after: string)
    ensures var r := Joined(before, after);
            && (r.Err? ==> r.error == UnsupportedCondition)
            && (r.Err? <==> !StartsWith(after, "._.") && !StartsWith(after, "_.") && !EndsWith(before, "_.") && !EndsWith(before, "And."))
  {
    hide Tidied;
    if EndsWith(before, "._.") {
      assert before[|before| - 2..] == before[|before| - 3..][1..] == "_.";
    }
  }

  lemma ClosingBracket(action: string)
    ensures EndsWith(action, ")") <==> action != "" && action[|action| - 1] == ')'
  {
  }

  /** A bare "_." behind the condition goes with it, and if none stands behind it a bare one before it; nothing else goes. */
  lemma BareSeparatorGoes(before: string, after: string)
    ensures Joined(before, "_." + after) == Ok(Tidied(before + after))
    ensures !StartsWith(after, "._.") && !StartsWith(after, "_.") && !EndsWith(before, ".") ==>
              Joined(before + "_.", after) == Ok(Tidied(before + after))
  {
    hide Tidied;
    assert ("_." + after)[2..] == after && ("_." + after)[0] == '_';
    var longer := before + "_.";
    assert longer[|longer| - 2..] == "_." && longer[..|longer| - 2] == before;
    if EndsWith(longer, "._.") {
      assert longer[|longer| - 3..][0] == '.' == before[|before| - 1];
      assert before[|before| - 1..] == ".";
    }
  }

  // --- reading --------------------------------------------------------------------

  /** What reading a search says: no bounds without a condition, the amounts of the only one, or why it cannot be read. */
  lemma ReadingIsExact(s: Search)
    ensures var r := ReadBounds(s);
            && (r == Err(NoFilterState) <==> s.action.None?)
            && (s.action.Some? ==>
                  var found := Matches(s.action.value, 0);
                  && (r == Err(SeveralPrices) <==> |found| > 1)
                  && (|found| == 0 ==> r == Ok(Bounds(None, None)))
                  && (|found| == 1 ==>
                        var low, high := Amount(found[0].match_.minimum), Amount(found[0].match_.maximum);
                        && (r == Err(BadPrice) <==> !(Askable(low) && Askable(high)))
                        && (r == Err(BadRange) <==>
                              Askable(low) && Askable(high) && low.Some? && high.Some? && high.value < low.value)
                        && (r.Ok? ==> r.value == Bounds(low, high))
                        && (r.Err? ==> r.error == BadPrice || r.error == BadRange)))
  {
    hide Matches, Amount;
  }

  /** No comma stands at any place but those three, seven, eleven and so on from the end. */
  ghost predicate CommasInPlace(s: string) {
    forall i | 0 <= i < |s| :: s[i] == ',' <==> (|s| - 1 - i) % 4 == 3
  }

  lemma CommasAppended(front: string, last: string)
    requires CommasInPlace(front) && |last| == 3 && forall i | 0 <= i < 3 :: last[i] != ','
    ensures CommasInPlace(front + "," + last)
  {
    var all := front + "," + last;
    forall i | 0 <= i < |all| ensures all[i] == ',' <==> (|all| - 1 - i) % 4 == 3 {
      if i < |front| {
        assert all[i] == front[i] && |all| - 1 - i == |front| - 1 - i + 4;
      } else if i > |front| {
        assert all[i] == last[i - |front| - 1];
      }
    }
  }

  /** A printed amount has a comma before every third digit from the end, and nowhere else. */
  lemma {:induction false} CommasEveryThree(n: nat)
    ensures CommasInPlace(Grouped(n))
  {
    hide CommasInPlace;
    if n < 1000 {
      FewDigits(n);
    } else {
      CommasEveryThree(n / 1000);
      var last := ThreeDigits(n % 1000);
      assert forall i | 0 <= i < 3 :: IsDigit(last[i]) && last[i] != ',';
      hide ThreeDigits;
      CommasAppended(Grouped(n / 1000), last);
    }
  }

  lemma FewDigits(n: nat)
    requires n < 1000
    ensures CommasInPlace(Digits(n))
  {
    DigitsAreDigits(n);
    assert |Digits(n)| <= 3 by {
      assert n >= 10 ==> Digits(n) == Digits(n / 10) + [Digit(n % 10)];
      assert n >= 100 ==> Digits(n / 10) == Digits(n / 100) + [Digit(n / 10 % 10)];
      assert n / 10 / 10 == n / 100;
    }
    hide Digits, Digit;
    assert forall i | 0 <= i < |Digits(n)| :: Digits(n)[i] in Digits(n);
  }

  // --- the list of conditions -----------------------------------------------------

  const FIRST := "(And."
  const BETWEEN := "._."
  const LAST := ".)"

  /** Conditions, each followed by the separator. */
  function Leading(conditions: seq<string>): string {
    if conditions == [] then "" else Leading(conditions[..|conditions| - 1]) + conditions[|conditions| - 1] + BETWEEN
  }

  /** Conditions, each behind a separator. */
  function Trailing(conditions: seq<string>): string {
    if conditions == [] then "" else Trailing(conditions[..|conditions| - 1]) + BETWEEN + conditions[|conditions| - 1]
  }

  /** The action that asks for all of these conditions. */
  function Group(conditions: seq<string>): string {
    if conditions == [] then "(And.)"
    else FIRST + Leading(conditions[..|conditions| - 1]) + conditions[|conditions| - 1] + LAST
  }

  lemma LeadingOf(front: seq<string>, last: string)
    ensures Leading(front + [last]) == Leading(front) + last + BETWEEN
    ensures Trailing(front + [last]) == Trailing(front) + BETWEEN + last
    ensures Group(front + [last]) == FIRST + Leading(front) + last + LAST
  {
    hide FIRST, BETWEEN, LAST;
    assert (front + [last])[..|front|] == front;
  }

  lemma Regrouped(h: string, l: string, p: string, t: string, d: string, x: string, e: string)
    ensures h + (l + p + t + d) + x + e == h + l + p + (t + d + x + e)
    ensures (l + p + t + d) + x + d == l + p + (t + d + x) + d
  {
  }

  lemma NothingTrails()
    ensures Trailing([]) == "" && Leading([]) == ""
  {
  }

  lemma NothingAdded(x: string, y: string)
    ensures x + "" + y == x + y && x + ("" + y) == x + y
  {
  }

  lemma {:induction false} LeadingSplits(a: seq<string>, p: string, c: seq<string>)
    ensures Leading(a + [p] + c) == Leading(a) + p + Trailing(c) + BETWEEN
  {
    hide Leading, Trailing, Group, FIRST, BETWEEN, LAST;
    if c == [] {
      assert a + [p] + c == a + [p];
      LeadingOf(a, p);
      NothingTrails();
      NothingAdded(Leading(a) + p, BETWEEN);
    } else {
      var front, last := c[..|c| - 1], c[|c| - 1];
      LeadingSplits(a, p, front);
      assert c == front + [last] && a + [p] + c == (a + [p] + front) + [last];
      LeadingOf(a + [p] + front, last);
      LeadingOf(front, last);
      Regrouped("", Leading(a), p, Trailing(front), BETWEEN, last, "");
    }
  }

  lemma GroupSplits(a: seq<string>, p: string, c: seq<string>)
    ensures Group(a + [p] + c) == FIRST + Leading(a) + p + (Trailing(c) + LAST)
  {
    hide Leading, Trailing, Group, FIRST, BETWEEN, LAST;
    if c == [] {
      assert a + [p] + c == a + [p];
      LeadingOf(a, p);
      NothingTrails();
      NothingAdded(FIRST + Leading(a) + p, LAST);
    } else {
      var front, last := c[..|c| - 1], c[|c| - 1];
      LeadingSplits(a, p, front);
      assert c == front + [last] && a + [p] + c == (a + [p] + front) + [last];
      LeadingOf(a + [p] + front, last);
      LeadingOf(front, last);
      Regrouped(FIRST, Leading(a), p, Trailing(front), BETWEEN, last, LAST);
    }
  }

  /** The only price condition of a list of conditions. */
  ghost predicate OnlyPrice(a: seq<string>, m: Match, c: seq<string>) {
    Free(FIRST + Leading(a)) && Free(Trailing(c) + LAST) && IsBound(m.minimum) && IsBound(m.maximum)
  }

  lemma OnlyPriceIsFound(a: seq<string>, m: Match, c: seq<string>)
    requires OnlyPrice(a, m, c)
    ensures var action := Group(a + [Condition(m.minimum, m.maximum)] + c);
            && Matches(action, 0) == [Found(|FIRST + Leading(a)|, m)]
            && Writable(action) && Before(action) == FIRST + Leading(a) && After(action) == Trailing(c) + LAST
  {
    var before, after := FIRST + Leading(a), Trailing(c) + LAST;
    hide Matches, Condition, Leading, Trailing, Free, IsBound;
    GroupSplits(a, Condition(m.minimum, m.maximum), c);
    OneMatch(before, m, after);
    var action := before + Condition(m.minimum, m.maximum) + after;
    FoundInside(action);
    assert action[..|before|] == before;
    assert action[|before| + Width(m)..] == after;
  }

  /** Setting a price puts it in the place of the one that is there. */
  lemma PriceIsReplaced(a: seq<string>, m: Match, c: seq<string>, b: Bounds)
    requires OnlyPrice(a, m, c) && Valid(b) && (b.minimum.Some? || b.maximum.Some?)
    ensures EditedAction(Group(a + [Condition(m.minimum, m.maximum)] + c), b) == Ok(Group(a + [ConditionFor(b)] + c))
  {
    hide Matches, Condition, Leading, Trailing, OnlyPrice, EditedAction, Before, After, Writable, BoundText, Group, Checked;
    OnlyPriceIsFound(a, m, c);
    EditIsAround(Group(a + [Condition(m.minimum, m.maximum)] + c), b);
    GroupSplits(a, ConditionFor(b), c);
  }

  /** Setting a price where none is set puts it behind the other conditions. */
  lemma PriceIsAppended(conditions: seq<string>, b: Bounds)
    requires Free(Group(conditions)) && (forall x | x in conditions :: x != "")
    requires Valid(b) && (b.minimum.Some? || b.maximum.Some?)
    ensures EditedAction(Group(conditions), b) == Ok(Group(conditions + [ConditionFor(b)]))
  {
    hide Matches, Condition, BoundText, Group, Leading, Trailing, Free, FIRST, BETWEEN, LAST, Valid, Checked;
    var action := Group(conditions);
    MatchesOfFree(action);
    LeadingOf(conditions, ConditionFor(b));
    GroupEnds(conditions);
    GroupOpened(conditions);
    LastIs();
  }

  lemma LastIs()
    ensures LAST == ".)"
  {
  }

  lemma GroupEnds(conditions: seq<string>)
    ensures EndsWith(Group(conditions), ")")
    ensures conditions == [] ==> Group(conditions) == EMPTY_AND
  {
    hide Leading;
    var action := Group(conditions);
    assert action[|action| - 1..] == ")";
  }

  lemma GroupOpened(conditions: seq<string>)
    requires forall x | x in conditions :: x != ""
    ensures var action := Group(conditions);
            action != "" && action[..|action| - 1] + (if action == EMPTY_AND then "" else "_.") == FIRST + Leading(conditions)
  {
    if conditions == [] {
      assert Group(conditions)[..5] + "" == FIRST + "";
    } else {
      var front, last := conditions[..|conditions| - 1], conditions[|conditions| - 1];
      GroupIsNotEmptyAnd(conditions);
      assert conditions == front + [last];
      LeadingOf(front, last);
      hide Group, Leading;
      Closed(FIRST + Leading(front) + last);
      NothingAdded(FIRST + Leading(front) + last, "");
      Reopened(FIRST, Leading(front), last);
    }
  }

  lemma Closed(x: string)
    ensures (x + LAST)[..|x + LAST| - 1] + "_." == x + BETWEEN
  {
    assert (x + LAST)[..|x + LAST| - 1] == x + ".";
    assert "." + "_." == BETWEEN;
    assert x + "." + "_." == x + ("." + "_.");
  }

  lemma Reopened(h: string, l: string, x: string)
    ensures h + l + x + BETWEEN == h + (l + x + BETWEEN)
  {
    hide BETWEEN;
  }

  lemma GroupIsNotEmptyAnd(conditions: seq<string>)
    requires conditions != [] && forall x | x in conditions :: x != ""
    ensures Group(conditions) != EMPTY_AND && Tidied(Group(conditions)) == Group(conditions)
  {
    hide Leading;
    assert conditions[|conditions| - 1] in conditions;
    assert |Group(conditions)| > 7;
  }

  /** Taking the price away takes it out of the list, wherever it stands, and leaves the others in their order. */
  lemma PriceIsTakenOut(a: seq<string>, m: Match, c: seq<string>)
    requires OnlyPrice(a, m, c) && forall x | x in a || x in c :: x != ""
    ensures EditedAction(Group(a + [Condition(m.minimum, m.maximum)] + c), Bounds(None, None)) == Ok(Group(a + c))
  {
    hide Matches, Condition, Leading, Trailing, OnlyPrice, EditedAction, Before, After, Writable, BoundText, Group, Joined;
    OnlyPriceIsFound(a, m, c);
    EditIsAround(Group(a + [Condition(m.minimum, m.maximum)] + c), Bounds(None, None));
    if c != [] {
      JoinBeforeOthers(a, c);
    } else if a != [] {
      JoinBehindOthers(a);
      assert a + c == a;
    } else {
      JoinAlone();
      assert a + c == [];
    }
  }

  lemma {:induction false} TrailingFromFront(c: seq<string>)
    requires c != []
    ensures Trailing(c) == BETWEEN + c[0] + Trailing(c[1..])
  {
    hide Trailing, BETWEEN, Leading, Group;
    var front, last := c[..|c| - 1], c[|c| - 1];
    assert c == front + [last];
    LeadingOf(front, last);
    NothingTrails();
    if |c| > 1 {
      TrailingFromFront(front);
      LeadingOf(front[1..], last);
      assert c[1..] == front[1..] + [last];
      Grouped4(BETWEEN, c[0], Trailing(front[1..]), last);
    } else {
      assert c[1..] == [] && front == [];
      NothingAdded("", BETWEEN + last);
    }
  }

  lemma Grouped4(d: string, x: string, t: string, l: string)
    ensures (d + x + t) + d + l == d + x + (t + d + l)
  {
  }

  lemma JoinBeforeOthers(a: seq<string>, c: seq<string>)
    requires c != [] && forall x | x in a || x in c :: x != ""
    ensures Joined(FIRST + Leading(a), Trailing(c) + LAST) == Ok(Group(a + c))
  {
    hide Leading, Trailing, Group, Tidied, EndsWith, Joined, FIRST, BETWEEN, LAST;
    TrailingFromFront(c);
    GroupSplits(a, c[0], c[1..]);
    assert a + [c[0]] + c[1..] == a + c;
    GroupIsNotEmptyAnd(a + c);
    var before, rest := FIRST + Leading(a), c[0] + (Trailing(c[1..]) + LAST);
    Reassociated(before, c[0], Trailing(c[1..]));
    JoinSeparator(before, rest);
  }

  lemma Reassociated(before: string, x: string, t: string)
    ensures BETWEEN + x + t + LAST == BETWEEN + (x + (t + LAST))
    ensures before + x + (t + LAST) == before + (x + (t + LAST))
  {
    hide BETWEEN, LAST;
  }

  lemma JoinSeparator(before: string, rest: string)
    ensures Joined(before, BETWEEN + rest) == Ok(Tidied(before + rest))
  {
    assert (BETWEEN + rest)[3..] == rest;
    hide Tidied;
  }

  lemma JoinBehindOthers(a: seq<string>)
    requires a != [] && forall x | x in a :: x != ""
    ensures Joined(FIRST + Leading(a), Trailing([]) + LAST) == Ok(Group(a))
  {
    var front, last := a[..|a| - 1], a[|a| - 1];
    assert a == front + [last];
    LeadingOf(front, last);
    GroupIsNotEmptyAnd(a);
    NothingTrails();
    hide Leading, Trailing, Group, Tidied, Joined;
    assert Trailing([]) + LAST == LAST;
    Reopened(FIRST, Leading(front), last);
    JoinSeparated3(FIRST + Leading(front) + last);
  }

  lemma JoinSeparated3(front: string)
    ensures Joined(front + BETWEEN, LAST) == Ok(Tidied(front + LAST))
  {
    hide Tidied;
    var before := front + BETWEEN;
    assert before[|before| - 3..] == BETWEEN && before[..|before| - 3] == front;
    assert LAST[0] == '.' && LAST[1] == ')';
  }

  lemma JoinAlone()
    ensures Joined(FIRST + Leading([]), Trailing([]) + LAST) == Ok(Group([]))
  {
    assert FIRST + Leading([]) == "(And.";
    assert Trailing([]) + LAST == ".)";
    JoinEmptyAnd();
    hide Joined;
  }
}
