/**
 Reading, writing and removing the price bounds of a search, and the laws that connect
 them: what was written is read back, a later write overwrites an earlier one, and when
 removing a written condition restores the action.
 */
module PriceFilterEdit {
  import opened Characters
  import opened Decimals
  import opened PriceFilter
  import opened Wrappers

  // --- amounts as text ------------------------------------------------------------

  function ThreeDigits(d: nat): string
    requires d < 1000
  {
    [Digit(d / 100), Digit(d / 10 % 10), Digit(d % 10)]
  }

  /** A number with a comma between groups of three digits. */
  function Grouped(n: nat): string {
    if n < 1000 then Digits(n) else Grouped(n / 1000) + "," + ThreeDigits(n % 1000)
  }

  function WithoutCommas(s: string): string {
    if s == [] then [] else (if s[0] == ',' then [] else [s[0]]) + WithoutCommas(s[1..])
  }

  /** The amount a bound stands for; a bound without digits is open. */
  function Amount(bound: string): Option<int> {
    var digits := WithoutCommas(bound);
    if digits == [] then None else Some(ReadDigits(digits, 0).value * UNIT)
  }

  function BoundText(amount: Option<int>): string
    requires amount.Some? ==> amount.value >= 0
  {
    if amount.None? then "" else Grouped(amount.value / UNIT)
  }

  // --- reading --------------------------------------------------------------------

  predicate ValidPrice(amount: Option<int>) {
    amount.None? || (0 <= amount.value <= MAX_PRICE && amount.value % UNIT == 0)
  }

  function Checked(b: Bounds): Result<Bounds, Error> {
    if !ValidPrice(b.minimum) || !ValidPrice(b.maximum) then Err(BadPrice)
    else if b.minimum.Some? && b.maximum.Some? && b.minimum.value > b.maximum.value then Err(BadRange)
    else Ok(b)
  }

  predicate Valid(b: Bounds) {
    Checked(b).Ok?
  }

  /** `extract_price_filter`. */
  function ReadBounds(s: Search): Result<Bounds, Error> {
    if s.action.None? then Err(NoFilterState)
    else
      var found := Matches(s.action.value, 0);
      if found == [] then Ok(Bounds(None, None))
      else if |found| > 1 then Err(SeveralPrices)
      else Checked(Bounds(Amount(found[0].match_.minimum), Amount(found[0].match_.maximum)))
  }

  // --- editing --------------------------------------------------------------------

  predicate StartsWith(s: string, t: string) {
    t <= s
  }

  predicate EndsWith(s: string, t: string) {
    |t| <= |s| && s[|s| - |t|..] == t
  }

  const EMPTY_AND := "(And.)"

  function Tidied(action: string): string {
    if action == "(And..)" then EMPTY_AND else action
  }

  /** The action without the condition between these two texts, and without one separator. */
  function Joined(before: string, after: string): Result<string, Error> {
    if StartsWith(after, "._.") then Ok(Tidied(before + after[3..]))
    else if StartsWith(after, "_.") then Ok(Tidied(before + after[2..]))
    else if EndsWith(before, "._.") then Ok(Tidied(before[..|before| - 3] + after))
    else if EndsWith(before, "_.") then Ok(Tidied(before[..|before| - 2] + after))
    else if !EndsWith(before, "And.") then Err(UnsupportedCondition)
    else Ok(Tidied(before + after))
  }

  /** The action with a condition appended to its outer group. */
  function Appended(action: string, condition: string): Result<string, Error> {
    if !EndsWith(action, ")") then Err(UnsupportedAction)
    else
      Ok(action[..|action| - 1] + (if action == EMPTY_AND then "" else "_.") + condition + ".)")
  }

  predicate Open(b: Bounds) {
    b.minimum.None? && b.maximum.None?
  }

  function ConditionFor(b: Bounds): string
    requires Valid(b)
  {
    Condition(BoundText(b.minimum), BoundText(b.maximum))
  }

  lemma FoundInside(action: string)
    requires |Matches(action, 0)| == 1
    ensures var f := Matches(action, 0)[0]; f.start + Width(f.match_) <= |action|
  {
    SplitAtMatch(action);
  }

  function EditedAction(action: string, b: Bounds): Result<string, Error>
    requires Valid(b)
  {
    var found := Matches(action, 0);
    if |found| > 1 then Err(SeveralPrices)
    else if found == [] then
      if Open(b) then Ok(action) else Appended(action, ConditionFor(b))
    else
      FoundInside(action);
      var before, after := action[..found[0].start], action[found[0].start + Width(found[0].match_)..];
      if Open(b) then Joined(before, after) else Ok(before + ConditionFor(b) + after)
  }

  /** `apply_price_filter`. */
  function Edited(s: Search, b: Bounds): Result<Search, Error> {
    if Checked(b).Err? then Err(Checked(b).error)
    else if s.action.None? then Err(NoFilterState)
    else
      var action := EditedAction(s.action.value, b);
      if action.Err? then Err(action.error)
      else Ok(Search(Some(action.value), s.toggles["4" := if Open(b) then 0 else 1], 1, None, s.rest))
  }

  /** Removing the condition between `from` and `to`, with the ends rebound as the source does. */
  method RemoveCondition(action: string, from: nat, to: nat) returns (r: Result<string, Error>)
    requires from <= to <= |action|
    ensures r == Joined(action[..from], action[to..])
  {
    var start, end := from, to;
    ghost var before, after := action[..from], action[to..];
    if StartsWith(action[end..], "._.") {
      end := end + 3;
      assert action[end..] == after[3..];
    } else if StartsWith(action[end..], "_.") {
      end := end + 2;
      assert action[end..] == after[2..];
    } else if EndsWith(action[..start], "._.") {
      start := start - 3;
      assert action[..start] == before[..|before| - 3];
    } else if EndsWith(action[..start], "_.") {
      start := start - 2;
      assert action[..start] == before[..|before| - 2];
    } else if !EndsWith(action[..start], "And.") {
      return Err(UnsupportedCondition);
    }
    var left := action[..start] + action[end..];
    if left == "(And..)" {
      left := EMPTY_AND;
    }
    r := Ok(left);
  }

  /** `apply_price_filter` with the action and the toggles rebound as the source does. */
  method ApplyPriceFilter(s: Search, b: Bounds) returns (r: Result<Search, Error>)
    ensures r == Edited(s, b)
  {
    hide Matches, Condition, Grouped, Width, Checked, Joined;
    var checked := Checked(b);
    if checked.Err? {
      return Err(checked.error);
    }
    if s.action.None? {
      return Err(NoFilterState);
    }
    var action := s.action.value;
    var found := Matches(action, 0);
    if |found| > 1 {
      return Err(SeveralPrices);
    }
    if found != [] {
      FoundInside(action);
      var start, end := found[0].start, found[0].start + Width(found[0].match_);
      if !Open(b) {
        action := action[..start] + ConditionFor(b) + action[end..];
      } else {
        var left := RemoveCondition(action, start, end);
        if left.Err? {
          return Err(left.error);
        }
        action := left.value;
      }
    }
    var toggles := s.toggles;
    if Open(b) {
      toggles := toggles["4" := 0];
    } else {
      if found == [] {
        if !EndsWith(action, ")") {
          return Err(UnsupportedAction);
        }
        var separator := if action == EMPTY_AND then "" else "_.";
        action := action[..|action| - 1] + separator + ConditionFor(b) + ".)";
      }
      toggles := toggles["4" := 1];
    }
    r := Ok(Search(Some(action), toggles, 1, None, s.rest));
  }

  // --- amounts survive printing ---------------------------------------------------

  lemma {:induction false} StripSum(a: string, b: string)
    ensures WithoutCommas(a + b) == WithoutCommas(a) + WithoutCommas(b)
  {
    if a == [] {
      assert a + b == b;
    } else {
      assert (a + b)[1..] == a[1..] + b;
      StripSum(a[1..], b);
    }
  }

  lemma {:induction false} StripDigits(s: string)
    requires forall c | c in s :: IsDigit(c)
    ensures WithoutCommas(s) == s
  {
    if s != [] {
      assert IsDigit(s[0]);
      StripDigits(s[1..]);
      assert s == [s[0]] + s[1..];
    }
  }

  lemma {:induction false} DigitsAreDigits(n: nat)
    ensures forall c | c in Digits(n) :: IsDigit(c)
  {
    if n >= 10 {
      DigitsAreDigits(n / 10);
    }
  }

  lemma Thousands(n: nat)
    ensures n / 10 / 10 / 10 == n / 1000 && n % 1000 / 100 == n / 10 / 10 % 10
    ensures n % 1000 / 10 % 10 == n / 10 % 10 && n % 1000 % 10 == n % 10
  {
  }

  lemma DigitsByThousands(n: nat)
    requires n >= 1000
    ensures Digits(n) == Digits(n / 1000) + ThreeDigits(n % 1000)
  {
    hide Digit, Digits;
    Thousands(n);
    LastDigit(n);
    LastDigit(n / 10);
    LastDigit(n / 10 / 10);
  }

  lemma LastDigit(n: nat)
    requires n >= 10
    ensures Digits(n) == Digits(n / 10) + [Digit(n % 10)]
  {
  }

  lemma {:induction false} GroupedStrips(n: nat)
    ensures WithoutCommas(Grouped(n)) == Digits(n) && IsBound(Grouped(n))
  {
    DigitsAreDigits(n);
    if n < 1000 {
      StripDigits(Digits(n));
    } else {
      var last := ThreeDigits(n % 1000);
      assert forall c | c in last :: IsDigit(c);
      GroupedStrips(n / 1000);
      DigitsByThousands(n);
      hide Digits, Digit, ThreeDigits;
      StripDigits(last);
      StripSum(Grouped(n / 1000) + ",", last);
      StripSum(Grouped(n / 1000), ",");
      assert WithoutCommas(",") == [];
    }
  }

  /** A printed amount is read back. */
  lemma AmountIsReadBack(amount: Option<int>)
    requires ValidPrice(amount)
    ensures Amount(BoundText(amount)) == amount && IsBound(BoundText(amount))
  {
    hide Grouped;
    if amount.Some? {
      var n := amount.value / UNIT;
      GroupedStrips(n);
      ReadDecimalDigits(n, []);
      assert Digits(n) + [] == Digits(n);
    }
  }

  // --- laws -----------------------------------------------------------------------

  /** Where a successful write of at least one bound leaves the condition. */
  lemma WrittenAction(action: string, b: Bounds)
    requires Valid(b) && !Open(b) && EditedAction(action, b).Ok?
    ensures var written := EditedAction(action, b).value;
            var before, after := Before(action), After(action);
            && written == before + ConditionFor(b) + after
            && Free(before) && Free(after)
            && Matches(written, 0) == [Found(|before|, Match(BoundText(b.minimum), BoundText(b.maximum)))]
  {
    hide Matches, Condition, Grouped;
    AmountIsReadBack(b.minimum);
    AmountIsReadBack(b.maximum);
    SplitAround(action);
    OneMatch(Before(action), Match(BoundText(b.minimum), BoundText(b.maximum)), After(action));
  }

  predicate Writable(action: string) {
    |Matches(action, 0)| == 1 || (Matches(action, 0) == [] && EndsWith(action, ")"))
  }

  /** The text before the condition that a write puts into this action. */
  function Before(action: string): string
    requires Writable(action)
  {
    if Matches(action, 0) == [] then action[..|action| - 1] + if action == EMPTY_AND then "" else "_."
    else
      FoundInside(action);
      action[..Matches(action, 0)[0].start]
  }

  function After(action: string): string
    requires Writable(action)
  {
    if Matches(action, 0) == [] then ".)"
    else
      FoundInside(action);
      action[Matches(action, 0)[0].start + Width(Matches(action, 0)[0].match_)..]
  }

  lemma SplitAround(action: string)
    requires Writable(action)
    ensures Free(Before(action)) && Free(After(action))
  {
    hide Matches, Width;
    if Matches(action, 0) == [] {
      MatchesOfFree(action);
      var front := action[..|action| - 1];
      assert action == front + action[|action| - 1..];
      FreePart(front, action[|action| - 1..]);
      FreeWithoutBracket(front, if action == EMPTY_AND then "" else "_.");
      NoPIsFree(".)");
    } else {
      SplitAtMatch(action);
    }
  }

  /**
   A write of at least one valid bound succeeds exactly on an action with one price
   condition, or with none and a closing bracket at the end.
   */
  lemma WriteSucceeds(s: Search, b: Bounds)
    requires Valid(b) && !Open(b)
    ensures Edited(s, b).Ok? <==> s.action.Some? && Writable(s.action.value)
  {
    hide Matches, Condition, Grouped, Checked;
  }

  /** Reading after writing returns exactly the bounds that were written. */
  lemma ReadAfterWrite(s: Search, b: Bounds)
    requires !Open(b) && Edited(s, b).Ok?
    ensures ReadBounds(Edited(s, b).value) == Ok(b)
  {
    hide Matches, Condition, Grouped, BoundText;
    WrittenAction(s.action.value, b);
    AmountIsReadBack(b.minimum);
    AmountIsReadBack(b.maximum);
  }

  /** An edit, in terms of the text around the condition. */
  lemma EditIsAround(action: string, c: Bounds)
    requires Writable(action) && Valid(c)
    ensures EditedAction(action, c)
            == if !Open(c) then Ok(Before(action) + ConditionFor(c) + After(action))
               else if Matches(action, 0) == [] then Ok(action)
               else Joined(Before(action), After(action))
  {
    hide Matches, Condition, Grouped, Joined, BoundText, Checked;
  }

  /** A text around its only match. */
  lemma AroundMatch(before: string, after: string, b: Bounds, written: string)
    requires Valid(b) && written == before + ConditionFor(b) + after
    requires Matches(written, 0) == [Found(|before|, Match(BoundText(b.minimum), BoundText(b.maximum)))]
    ensures Writable(written) && Before(written) == before && After(written) == after
  {
    hide Matches, Condition, Grouped;
    FoundInside(written);
    assert written[..|before|] == before;
    assert written[|before| + |ConditionFor(b)|..] == after;
  }

  lemma EditOfWritten(action: string, b: Bounds, c: Bounds)
    requires Valid(b) && !Open(b) && Writable(action) && Valid(c)
    ensures var written := EditedAction(action, b);
            && written.Ok?
            && EditedAction(written.value, c)
               == if Open(c) then Joined(Before(action), After(action)) else EditedAction(action, c)
  {
    hide Matches, Condition, Grouped, Joined, BoundText, Checked, ConditionFor, EditedAction, Before, After;
    EditIsAround(action, b);
    EditIsAround(action, c);
    WrittenAction(action, b);
    var written := EditedAction(action, b).value;
    AroundMatch(Before(action), After(action), b, written);
    EditIsAround(written, c);
  }

  lemma Overwritten(m: map<string, int>, k: string, a: int, b: int)
    ensures m[k := a][k := b] == m[k := b]
  {
  }

  /** A later write completely overwrites an earlier one. */
  lemma LastWriteWins(s: Search, b: Bounds, c: Bounds)
    requires !Open(b) && !Open(c) && Edited(s, b).Ok?
    ensures Edited(Edited(s, b).value, c) == Edited(s, c)
  {
    WriteSucceeds(s, b);
    hide Matches, Condition, Grouped, Joined, BoundText, Checked, EditedAction, Writable;
    if Valid(c) {
      EditOfWritten(s.action.value, b, c);
    }
    Overwritten(s.toggles, "4", 1, 1);
  }

  /** Removing a written condition from an action that had one is removing the original one. */
  lemma WriteThenRemove(s: Search, b: Bounds)
    requires !Open(b) && Edited(s, b).Ok? && Matches(s.action.value, 0) != []
    ensures Edited(Edited(s, b).value, Bounds(None, None)) == Edited(s, Bounds(None, None))
  {
    WriteSucceeds(s, b);
    hide Matches, Condition, Grouped, Joined, BoundText, EditedAction, Before, After, Writable, Checked;
    EditOfWritten(s.action.value, b, Bounds(None, None));
    EditIsAround(s.action.value, Bounds(None, None));
    Overwritten(s.toggles, "4", 1, 0);
  }

  lemma JoinedAfterAppend(action: string)
    requires Matches(action, 0) == [] && EndsWith(action, ")")
    ensures Joined(Before(action), After(action))
            == Ok(if action == EMPTY_AND then action
                  else if EndsWith(action, ".)") then Tidied(action)
                  else Tidied(action[..|action| - 1] + ".)"))
  {
    hide Matches, Width, Joined, Tidied, EndsWith;
    LastIsBracket(action);
    if action == EMPTY_AND {
      JoinEmptyAnd();
    } else {
      JoinSeparated(action, action[..|action| - 1]);
    }
  }

  lemma LastIsBracket(action: string)
    requires EndsWith(action, ")")
    ensures action == action[..|action| - 1] + ")"
    ensures action == EMPTY_AND ==> action[..|action| - 1] + "" == "(And."
  {
  }

  lemma JoinEmptyAnd()
    ensures Joined("(And.", ".)") == Ok(EMPTY_AND)
  {
    var before: string := "(And.";
    assert before[|before| - 4..] == "And.";
    assert before[|before| - 2..][0] == 'd' && before[|before| - 3..][0] == 'n';
    assert ".)"[0] == '.';
    assert before + ".)" == "(And..)";
  }

  lemma JoinSeparated(action: string, front: string)
    requires action == front + ")"
    ensures Joined(front + "_.", ".)")
            == Ok(if EndsWith(action, ".)") then Tidied(action) else Tidied(front + ".)"))
  {
    hide Tidied;
    var before, after: string := front + "_.", ".)";
    assert before[|before| - 2..] == "_.";
    assert before[..|before| - 2] == front;
    assert after[0] != '_' && after[1] != '_';
    assert EndsWith(action, ".)") <==> EndsWith(before, "._.") by {
      LastThree(action, front, before);
    }
    if EndsWith(action, ".)") {
      assert action[|action| - 2..][0] == '.';
      assert before[..|before| - 3] + after == action;
    }
  }

  lemma LastThree(action: string, front: string, before: string)
    requires action == front + ")" && before == front + "_."
    ensures EndsWith(action, ".)") <==> EndsWith(before, "._.")
  {
    if front != [] {
      var c := front[|front| - 1];
      assert action[|action| - 2..] == [c, ')'];
      assert before[|before| - 3..] == [c, '_', '.'];
    }
  }

  /**
   Writing bounds into an action without a price and removing them again restores the
   action exactly when it ends in ".)" and is not the malformed "(And..)", which the
   removal turns into "(And.)".
   */
  lemma RemovingRestores(s: Search, b: Bounds)
    requires !Open(b) && Edited(s, b).Ok? && Matches(s.action.value, 0) == []
    ensures var removed := Edited(Edited(s, b).value, Bounds(None, None));
            && removed.Ok?
            && (removed.value.action == s.action
                <==> EndsWith(s.action.value, ".)") && s.action.value != "(And..)")
  {
    hide Matches, Condition, Grouped, BoundText, Joined;
    var action := s.action.value;
    EditOfWritten(action, b, Bounds(None, None));
    JoinedAfterAppend(action);
    if EndsWith(action, ".)") {
    } else {
      var closed := action[..|action| - 1] + ".)";
      assert |closed| == |action| + 1;
      NotEmptyAnd(action);
    }
  }

  lemma NotEmptyAnd(action: string)
    requires EndsWith(action, ")") && !EndsWith(action, ".)")
    ensures action != EMPTY_AND && Tidied(action[..|action| - 1] + ".)") != action
  {
    assert EndsWith(EMPTY_AND, ".)");
    assert |action[..|action| - 1] + ".)"| == |action| + 1;
  }
}
