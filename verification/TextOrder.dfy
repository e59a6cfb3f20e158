/**
 The orders in which strings are sorted: Python compares code points, JavaScript
 compares UTF-16 code units.
 */
module TextOrder {

  datatype Order = CodePoints | Utf16

  /** The numbers by which one character is compared. */
  function Units(o: Order, c: char): seq<int> {
    var n := c as int;
    if o.CodePoints? || n < 0x1_0000 then [n]
    else [0xD800 + (n - 0x1_0000) / 0x400, 0xDC00 + (n - 0x1_0000) % 0x400]
  }

  function AllUnits(o: Order, s: string): seq<int> {
    if s == [] then [] else Units(o, s[0]) + AllUnits(o, s[1..])
  }

  predicate Less(a: seq<int>, b: seq<int>) {
    b != [] && (a == [] || a[0] < b[0] || (a[0] == b[0] && Less(a[1..], b[1..])))
  }

  predicate Before(o: Order, a: string, b: string) {
    Less(AllUnits(o, a), AllUnits(o, b))
  }

  // --- both are total orders ---------------------------------------------------

  lemma {:induction false} LessIsTotal(a: seq<int>, b: seq<int>)
    ensures Less(a, b) || Less(b, a) || a == b
    ensures !(Less(a, b) && Less(b, a))
    ensures a == b ==> !Less(a, b)
  {
    if a != [] && b != [] && a[0] == b[0] {
      LessIsTotal(a[1..], b[1..]);
      assert a == [a[0]] + a[1..] && b == [b[0]] + b[1..];
    }
  }

  lemma {:induction false} LessIsTransitive(a: seq<int>, b: seq<int>, c: seq<int>)
    requires Less(a, b) && Less(b, c)
    ensures Less(a, c)
  {
    if a != [] && a[0] == b[0] && b[0] == c[0] {
      LessIsTransitive(a[1..], b[1..], c[1..]);
    }
  }

  lemma UnitsAreReadable(o: Order, c: char, d: char, s: seq<int>, t: seq<int>)
    requires Units(o, c) + s == Units(o, d) + t
    ensures c == d && s == t
  {
    var u, v := Units(o, c) + s, Units(o, d) + t;
    assert u[0] == v[0];
    assert |Units(o, c)| == |Units(o, d)|;
    assert forall i | 0 <= i < |Units(o, c)| :: u[i] == Units(o, c)[i] && v[i] == Units(o, d)[i];
    if |Units(o, c)| == 2 {
      assert u[1] == Units(o, c)[1] && v[1] == Units(o, d)[1];
      SplitIsInjective(c as int - 0x1_0000, d as int - 0x1_0000);
    }
    assert c as int == d as int;
    assert s == u[|Units(o, c)|..] && t == v[|Units(o, d)|..];
  }

  lemma SplitIsInjective(a: nat, b: nat)
    requires a / 0x400 == b / 0x400 && a % 0x400 == b % 0x400
    ensures a == b
  {
    assert a == 0x400 * (a / 0x400) + a % 0x400 && b == 0x400 * (b / 0x400) + b % 0x400;
  }

  /** Different strings compare differently. */
  lemma {:induction false} UnitsAreInjective(o: Order, a: string, b: string)
    requires AllUnits(o, a) == AllUnits(o, b)
    ensures a == b
  {
    if a != [] && b != [] {
      UnitsAreReadable(o, a[0], b[0], AllUnits(o, a[1..]), AllUnits(o, b[1..]));
      hide Units;
      UnitsAreInjective(o, a[1..], b[1..]);
      assert a == [a[0]] + a[1..] && b == [b[0]] + b[1..];
    } else {
      assert a != [] ==> |AllUnits(o, a)| > 0;
      assert b != [] ==> |AllUnits(o, b)| > 0;
    }
  }

  lemma BeforeIsTotal(o: Order, a: string, b: string)
    ensures a == b || Before(o, a, b) || Before(o, b, a)
    ensures !(Before(o, a, b) && Before(o, b, a)) && !Before(o, a, a)
  {
    hide Less, AllUnits;
    LessIsTotal(AllUnits(o, a), AllUnits(o, b));
    LessIsTotal(AllUnits(o, a), AllUnits(o, a));
    if AllUnits(o, a) == AllUnits(o, b) {
      UnitsAreInjective(o, a, b);
    }
  }

  lemma BeforeIsTransitive(o: Order, a: string, b: string, c: string)
    requires Before(o, a, b) && Before(o, b, c)
    ensures Before(o, a, c)
  {
    LessIsTransitive(AllUnits(o, a), AllUnits(o, b), AllUnits(o, c));
  }
}
