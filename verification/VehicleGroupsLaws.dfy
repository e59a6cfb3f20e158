/** What grouping listings by vehicle promises. */
module VehicleGroupsLaws {
  import opened Characters
  import opened Grouping
  import opened Sorting
  import opened VehicleGroups

  /** Listings are rows of a table: their ids identify them. */
  ghost predicate Identified(listings: seq<Listing>) {
    forall a, b | a in listings && b in listings && a.id == b.id :: a == b
  }

  // --- the groups -----------------------------------------------------------------

  lemma {:induction false} GroupsAre(listings: seq<Listing>, order: seq<Key>)
    requires forall k | k in order :: k in Keys(listings)
    ensures |GroupsFor(listings, order)| == |order|
    ensures forall i | 0 <= i < |order| :: GroupsFor(listings, order)[i] == GroupOf(listings, order[i])
  {
    hide Keys, GroupOf;
    if order != [] {
      var front := order[..|order| - 1];
      GroupsAre(listings, front);
      assert forall i | 0 <= i < |front| :: front[i] == order[i];
    }
  }

  lemma AllMembers(listings: seq<Listing>, k: Key)
    requires k in Keys(listings)
    ensures All(GroupOf(listings, k)) == StableSort(Members(listings, Keys(listings), k), StatusOrder())
  {
    hide Keys, StableSort, Members, StatusOrder;
    NoMembers(listings, Keys(listings), k);
  }

  /** A listing is in the group of its key and in no other. */
  lemma InGroup(listings: seq<Listing>, k: Key, l: Listing)
    requires k in Keys(listings)
    ensures l in All(GroupOf(listings, k)) <==> l in listings && KeyOf(listings, l) == k
  {
    AllMembers(listings, k);
    SameElements(Members(listings, Keys(listings), k), StatusOrder(), l);
    MembersAre(listings, Keys(listings), k, l);
    hide GroupOf, KeyOf, StableSort, Members, StatusOrder;
    if l in listings {
      var i :| 0 <= i < |listings| && listings[i] == l;
      assert Keys(listings)[i] == KeyOf(listings, l);
    }
  }

  /** The two listings are shown together. */
  ghost predicate Together(listings: seq<Listing>, a: Listing, b: Listing) {
    exists g :: g in Groups(listings) && a in All(g) && b in All(g)
  }

  lemma KeyIsUsed(listings: seq<Listing>, l: Listing)
    requires l in listings
    ensures KeyOf(listings, l) in Keys(listings) && KeyOf(listings, l) in FirstKeys(Keys(listings))
  {
    hide KeyOf;
    var i :| 0 <= i < |listings| && listings[i] == l;
    assert Keys(listings)[i] == KeyOf(listings, l);
    KeyOccurs(Keys(listings), KeyOf(listings, l));
  }

  lemma TogetherMeansSameKey(listings: seq<Listing>, a: Listing, b: Listing)
    requires a in listings && b in listings
    ensures Together(listings, a, b) <==> KeyOf(listings, a) == KeyOf(listings, b)
  {
    var order := FirstKeys(Keys(listings));
    forall k | k in order ensures k in Keys(listings) {
      KeyOccurs(Keys(listings), k);
    }
    GroupsAre(listings, order);
    KeyIsUsed(listings, a);
    hide KeyOf, Keys, GroupOf, GroupsFor, FirstKeys, All;
    var groups := Groups(listings);
    forall g | g in groups && a in All(g) && b in All(g)
      ensures KeyOf(listings, a) == KeyOf(listings, b)
    {
      var i :| 0 <= i < |groups| && groups[i] == g;
      assert order[i] in order;
      InGroup(listings, order[i], a);
      InGroup(listings, order[i], b);
    }
    if KeyOf(listings, a) == KeyOf(listings, b) {
      var k := KeyOf(listings, a);
      var i :| 0 <= i < |order| && order[i] == k;
      InGroup(listings, k, a);
      InGroup(listings, k, b);
      assert groups[i] in groups;
    }
  }

  // --- who belongs together -------------------------------------------------------

  /** The VINs that this listing may have: its own, or else those known for its plate. */
  function Candidates(listings: seq<Listing>, l: Listing): set<string> {
    if Vin(l) != "" then {Vin(l)} else KnownVins(listings, Plate(l))
  }

  /** The listings must be one vehicle: the same single VIN, or no VIN at all and the same plate. */
  predicate SameVehicle(listings: seq<Listing>, a: Listing, b: Listing) {
    var c := Candidates(listings, a);
    c == Candidates(listings, b) && (|c| == 1 || (c == {} && Plate(a) != "" && Plate(a) == Plate(b)))
  }

  lemma OnlyCandidate(listings: seq<Listing>, l: Listing)
    requires |Candidates(listings, l)| == 1
    ensures Candidates(listings, l) == {TheOnly(Candidates(listings, l))}
    ensures KeyOf(listings, l) == ByVin(TheOnly(Candidates(listings, l)))
  {
    OneElement(Candidates(listings, l));
    if Vin(l) == "" {
      var v := TheOnly(Candidates(listings, l));
      assert v in KnownVins(listings, Plate(l));
    }
  }

  lemma OtherCandidates(listings: seq<Listing>, l: Listing)
    requires |Candidates(listings, l)| != 1
    ensures Vin(l) == ""
    ensures KeyOf(listings, l)
            == if Candidates(listings, l) == {} && Plate(l) != "" then ByPlate(Plate(l)) else Alone(l.id)
  {
    if Candidates(listings, l) != {} {
      var v :| v in Candidates(listings, l);
      assert |Candidates(listings, l)| > 0;
      assert Plate(l) != "";
    }
  }

  /**
   Two listings are shown together exactly when they must be the same vehicle, or are
   the same listing.
   */
  lemma TogetherExactly(listings: seq<Listing>, a: Listing, b: Listing)
    requires Identified(listings) && a in listings && b in listings
    ensures Together(listings, a, b) <==> a == b || SameVehicle(listings, a, b)
  {
    TogetherMeansSameKey(listings, a, b);
    hide Together, KeyOf, Candidates;
    var c, d := Candidates(listings, a), Candidates(listings, b);
    if |c| == 1 {
      OnlyCandidate(listings, a);
    } else {
      OtherCandidates(listings, a);
    }
    if |d| == 1 {
      OnlyCandidate(listings, b);
    } else {
      OtherCandidates(listings, b);
    }
  }

  /** No group holds two different valid VINs, and listings with the same valid VIN are always together. */
  lemma VinsDecide(listings: seq<Listing>, a: Listing, b: Listing)
    requires Identified(listings) && a in listings && b in listings && Vin(a) != "" && Vin(b) != ""
    ensures Together(listings, a, b) <==> Vin(a) == Vin(b)
  {
    TogetherExactly(listings, a, b);
    hide Together, Plate, Vin, KnownVins;
    assert Vin(a) in Candidates(listings, a);
  }

  /** A listing without a VIN whose plate is known with several VINs stays alone. */
  lemma ConflictingPlateStaysAlone(listings: seq<Listing>, a: Listing, b: Listing)
    requires Identified(listings) && a in listings && b in listings
    requires Vin(a) == "" && |KnownVins(listings, Plate(a))| >= 2
    ensures Together(listings, a, b) <==> a == b
  {
    TogetherExactly(listings, a, b);
    hide Together, Plate, Vin, KnownVins;
  }

  lemma KnownVinsDependOnElements(s: seq<Listing>, t: seq<Listing>, plate: string)
    requires forall l :: l in s <==> l in t
    ensures KnownVins(s, plate) == KnownVins(t, plate)
  {
    hide Plate, Vin;
  }

  /** Which listings are together does not depend on the order of the input. */
  lemma OrderDoesNotMatter(s: seq<Listing>, t: seq<Listing>, a: Listing, b: Listing)
    requires multiset(s) == multiset(t) && a in s && b in s
    ensures Together(s, a, b) <==> Together(t, a, b)
  {
    hide Together, Plate, Vin, KnownVins;
    forall l ensures l in s <==> l in t {
      assert l in s <==> l in multiset(s);
      assert l in t <==> l in multiset(t);
    }
    KnownVinsDependOnElements(s, t, Plate(a));
    KnownVinsDependOnElements(s, t, Plate(b));
    TogetherMeansSameKey(s, a, b);
    TogetherMeansSameKey(t, a, b);
  }

  // --- a partition with the best listing first ------------------------------------

  function Everything(groups: seq<Group>): multiset<Listing> {
    if groups == [] then multiset{}
    else Everything(groups[..|groups| - 1]) + multiset(All(groups[|groups| - 1]))
  }

  lemma {:induction false} EverythingIsGathered(listings: seq<Listing>, order: seq<Key>)
    requires forall k | k in order :: k in Keys(listings)
    ensures Everything(GroupsFor(listings, order)) == Gathered(listings, Keys(listings), order)
  {
    hide Keys, All, GroupOf, StableSort, Members, StatusOrder;
    if order != [] {
      var last := |order| - 1;
      EverythingIsGathered(listings, order[..last]);
      AllMembers(listings, order[last]);
      SortKeepsElements(Members(listings, Keys(listings), order[last]), StatusOrder());
      assert GroupsFor(listings, order)[..last] == GroupsFor(listings, order[..last]) by {
        GroupsAre(listings, order[..last]);
      }
      GroupsAre(listings, order);
    }
  }

  /** Grouping is a partition: every listing is shown exactly as often as it was given. */
  lemma GroupingIsAPartition(listings: seq<Listing>)
    ensures Everything(Groups(listings)) == multiset(listings)
  {
    var keys := Keys(listings);
    var order := FirstKeys(keys);
    FirstKeysAreDistinct(keys);
    forall k ensures k in keys <==> k in order {
      KeyOccurs(keys, k);
    }
    EverythingIsGathered(listings, order);
    hide Keys, FirstKeys, Gathered, GroupsFor, Everything;
    GroupsPartition(listings, keys, order);
  }

  lemma StatusOrderRanks()
    ensures Ranks(StatusOrder())
  {
  }

  predicate IsSold(l: Listing) {
    l.status == SoldOut
  }

  predicate IsUnavailable(l: Listing) {
    l.status == Unavailable || l.status == NotFoundInSearch
  }

  predicate IsActive(l: Listing) {
    !IsSold(l) && !IsUnavailable(l)
  }

  /**
   Every group shows its active listings first, then those that are unavailable or not
   found, and those that are sold last; so the first one is the best the group has.
   */
  lemma BestIsFirst(listings: seq<Listing>, k: Key, i: nat, j: nat)
    requires k in Keys(listings) && i < j < |All(GroupOf(listings, k))|
    ensures var shown := All(GroupOf(listings, k));
            && shown[0] == GroupOf(listings, k).first
            && (IsActive(shown[j]) ==> IsActive(shown[i]))
            && (IsSold(shown[i]) ==> IsSold(shown[j]))
  {
    hide Keys, GroupOf, StableSort, Members, Ranks, StatusOrder, IsActive, IsSold;
    AllMembers(listings, k);
    StatusOrderRanks();
    SortSorts(Members(listings, Keys(listings), k), StatusOrder());
    var shown := All(GroupOf(listings, k));
    assert !StatusOrder()(shown[j], shown[i]);
    NotBehind(shown[i], shown[j]);
  }

  lemma NotBehind(a: Listing, b: Listing)
    requires !StatusOrder()(b, a)
    ensures (IsActive(b) ==> IsActive(a)) && (IsSold(a) ==> IsSold(b))
  {
  }

  /** Among listings of one kind, the newest, which comes first in the input, stays first. */
  lemma NewestFirst(listings: seq<Listing>, k: Key)
    requires k in Keys(listings)
    ensures var shown, given := All(GroupOf(listings, k)), Members(listings, Keys(listings), k);
            && Only(shown, IsActive) == Only(given, IsActive)
            && Only(shown, IsUnavailable) == Only(given, IsUnavailable)
            && Only(shown, IsSold) == Only(given, IsSold)
  {
    AllMembers(listings, k);
    hide Keys, GroupOf, Members, StableSort, Only;
    SortIsStable(Members(listings, Keys(listings), k), StatusOrder(), IsActive);
    SortIsStable(Members(listings, Keys(listings), k), StatusOrder(), IsUnavailable);
    SortIsStable(Members(listings, Keys(listings), k), StatusOrder(), IsSold);
  }

  // --- plates and VINs ------------------------------------------------------------

  /** The text without spaces and hyphens. */
  function Signs(s: string): string {
    Only(s, (c: char) => c != ' ' && !(9 <= c as int <= 13) && c != '-')
  }

  lemma {:induction false} CompactIsSigns(s: string)
    ensures Compact(s) == Signs(s)
  {
    if s != [] {
      CompactIsSigns(s[1..]);
      OnlyFromFront(s, (c: char) => c != ' ' && !(9 <= c as int <= 13) && c != '-');
    }
  }

  /**
   The plate of a listing is its registration number without spaces and hyphens, if that
   reads: up to four Hangul syllables, two or three digits, one syllable, four digits.
   */
  lemma PlateIs(l: Listing)
    ensures Plate(l) == if ReadsAsPlate(Signs(l.registration)) then Signs(l.registration) else ""
  {
    CompactIsSigns(l.registration);
    PlateShapes(Signs(l.registration));
    hide Compact, Signs;
  }

  predicate Syllables(s: string) {
    forall i | 0 <= i < |s| :: 0xAC00 <= s[i] as int <= 0xD7A3
  }

  predicate Numerals(s: string) {
    forall i | 0 <= i < |s| :: '0' <= s[i] <= '9'
  }

  /** The text is region, series, syllable and number, one behind the other. */
  predicate ReadsAsPlate(s: string) {
    exists a: nat, b: nat | a <= 4 && b <= 7 :: ReadsAs(s, a, b)
  }

  predicate ReadsAs(s: string, a: nat, b: nat) {
    && a <= 4 && a + 2 <= b <= a + 3 && |s| == b + 5
    && Syllables(s[..a]) && Numerals(s[a..b]) && Syllables(s[b..b + 1]) && Numerals(s[b + 1..])
  }

  lemma PlateShapes(s: string)
    ensures ValidPlate(s) <==> ReadsAsPlate(s)
  {
    forall a: nat, d: nat | a <= 4 && d <= 3 ensures PlateShape(s, a, d) <==> ReadsAs(s, a, a + d) {
      PlateShapeIs(s, a, d);
    }
    hide PlateShape, ReadsAs;
    if ReadsAsPlate(s) {
      var a: nat, b: nat :| a <= 4 && b <= 7 && ReadsAs(s, a, b);
      ReadsWithin(s, a, b);
      assert ReadsAs(s, a, a + (b - a));
      assert PlateShape(s, a, b - a);
    }
    if ValidPlate(s) {
      var a: nat, d: nat :| a <= 4 && d <= 3 && PlateShape(s, a, d);
      assert ReadsAs(s, a, a + d);
    }
  }

  lemma ReadsWithin(s: string, a: nat, b: nat)
    requires ReadsAs(s, a, b)
    ensures 0 <= b - a <= 3
  {
  }

  lemma PlateShapeIs(s: string, a: nat, d: nat)
    requires a <= 4 && d <= 3
    ensures PlateShape(s, a, d) <==> ReadsAs(s, a, a + d)
  {
    if ReadsAs(s, a, a + d) {
      assert s[a + d..a + d + 1][0] == s[a + d];
      assert forall i | 0 <= i < a :: s[..a][i] == s[i];
      assert forall i | a <= i < a + d :: s[a..a + d][i - a] == s[i];
      assert forall i | a + d < i < |s| :: s[a + d + 1..][i - a - d - 1] == s[i];
    }
  }

  predicate Blank(s: string) {
    forall c | c in s :: c == ' ' || 9 <= c as int <= 13
  }

  predicate Bare(s: string) {
    s == "" || (!Blank(s[..1]) && !Blank(s[|s| - 1..]))
  }

  lemma BlankPart(s: string, m: nat, n: nat)
    requires Blank(s) && m <= n <= |s|
    ensures Blank(s[m..n])
  {
    assert forall c | c in s[m..n] :: c in s;
  }

  lemma StripOne(s: string)
    requires s != []
    ensures Blank(s[..1]) ==> Stripped(s) == Stripped(s[1..])
    ensures !Blank(s[..1]) && Blank(s[|s| - 1..]) ==> Stripped(s) == Stripped(s[..|s| - 1])
    ensures !Blank(s[..1]) && !Blank(s[|s| - 1..]) ==> Stripped(s) == s
  {
    assert s[..1] == [s[0]] && s[|s| - 1..] == [s[|s| - 1]];
    assert s[0] in [s[0]] && s[|s| - 1] in [s[|s| - 1]];
  }

  lemma {:induction false} StrippedIs(a: string, core: string, b: string)
    requires Blank(a) && Blank(b) && Bare(core)
    ensures Stripped(a + core + b) == core
    decreases |a| + |b|, |b|
  {
    hide Stripped, Blank;
    var s := a + core + b;
    if a != [] {
      BlankPart(a, 0, 1);
      BlankPart(a, 1, |a|);
      StripOne(s);
      assert s[..1] == a[0..1] && s[1..] == a[1..|a|] + core + b;
      StrippedIs(a[1..|a|], core, b);
    } else if b == [] {
      assert s == core;
      if core == [] {
        NothingToStrip();
      } else {
        StripOne(s);
      }
    } else if core == [] {
      assert s == b + core + a;
      StrippedIs(b, core, a);
    } else {
      var last := |b| - 1;
      BlankPart(b, last, |b|);
      BlankPart(b, 0, last);
      StripOne(s);
      assert s[..1] == core[..1] && s[|s| - 1..] == b[last..|b|] && s[..|s| - 1] == a + core + b[0..last];
      StrippedIs(a, core, b[0..last]);
    }
  }

  lemma NothingToStrip()
    ensures Stripped("") == ""
  {
  }

  /** A sign of a VIN: a digit, or a letter of either case other than I, O and Q. */
  predicate VinSign(c: char) {
    '0' <= c <= '9' || (('A' <= c <= 'Z' || 'a' <= c <= 'z') && c !in "IOQioq")
  }

  /** `c` in capitals. */
  predicate InCapitals(capital: char, c: char) {
    if 'a' <= c <= 'z' then capital as int == c as int - 32 else capital == c
  }

  lemma VinSigns(c: char)
    ensures InCapitals(Upper(c), c) && (VinChar(Upper(c)) <==> VinSign(c))
  {
    var out := "IOQioq";
    assert out[0] == 'I' && out[1] == 'O' && out[2] == 'Q' && out[3] == 'i' && out[4] == 'o' && out[5] == 'q';
  }

  /**
   The VIN of a listing is what stands between the spaces around it, in capitals, if that
   is 17 digits and letters without I, O and Q; else it has none.
   */
  lemma VinIs(l: Listing, a: string, core: string, b: string)
    requires l.vin == a + core + b && Blank(a) && Blank(b) && Bare(core)
    ensures |core| == 17 && (forall i | 0 <= i < 17 :: VinSign(core[i])) ==>
              |Vin(l)| == 17 && forall i | 0 <= i < 17 :: InCapitals(Vin(l)[i], core[i])
    ensures !(|core| == 17 && forall i | 0 <= i < 17 :: VinSign(core[i])) ==> Vin(l) == ""
  {
    StrippedIs(a, core, b);
    hide Stripped, VinChar, VinSign, InCapitals, Upper;
    forall i | 0 <= i < |core| ensures InCapitals(Upper(core[i]), core[i]) && (VinChar(Upper(core[i])) <==> VinSign(core[i])) {
      VinSigns(core[i]);
    }
    var capitals := Uppercase(core);
    if ValidVin(capitals) {
      forall i | 0 <= i < |core| ensures VinSign(core[i]) {
        assert capitals[i] in capitals && capitals[i] == Upper(core[i]);
      }
    }
  }
}
