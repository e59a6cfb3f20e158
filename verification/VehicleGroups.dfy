/**
 Showing the listings of one vehicle together (backend/app/vehicle_groups.py), and what
 decides whether two listings are shown together.
 */
module VehicleGroups {
  import opened Characters
  import opened Grouping
  import opened Sorting

  datatype Status = Available | SoldOut | Unavailable | NotFoundInSearch | OtherStatus

  /** A listing, with the registration number and VIN that its details give. */
  datatype Listing = Listing(id: int, registration: string, vin: string, status: Status)

  // --- identities -----------------------------------------------------------------

  predicate Hangul(c: char) {
    0xAC00 <= c as int <= 0xD7A3
  }

  /** Without spaces and hyphens. */
  function Compact(s: string): string {
    if s == [] then [] else (if IsSpace(s[0]) || s[0] == '-' then [] else [s[0]]) + Compact(s[1..])
  }

  /** Up to four syllables, two or three digits, a syllable, four digits. */
  predicate PlateShape(s: string, region: nat, digits: nat) {
    && region <= 4 && 2 <= digits <= 3 && |s| == region + digits + 5
    && (forall i | 0 <= i < region :: Hangul(s[i]))
    && (forall i | region <= i < region + digits :: IsDigit(s[i]))
    && Hangul(s[region + digits])
    && (forall i | region + digits < i < |s| :: IsDigit(s[i]))
  }

  predicate ValidPlate(s: string) {
    exists region: nat, digits: nat | region <= 4 && digits <= 3 :: PlateShape(s, region, digits)
  }

  function Plate(l: Listing): string {
    if ValidPlate(Compact(l.registration)) then Compact(l.registration) else ""
  }

  function Stripped(s: string): string {
    if s == [] then []
    else if IsSpace(s[0]) then Stripped(s[1..])
    else if IsSpace(s[|s| - 1]) then Stripped(s[..|s| - 1])
    else s
  }

  function Uppercase(s: string): string {
    seq(|s|, i requires 0 <= i < |s| => Upper(s[i]))
  }

  predicate VinChar(c: char) {
    IsDigit(c) || ('A' <= c <= 'Z' && c != 'I' && c != 'O' && c != 'Q')
  }

  predicate ValidVin(s: string) {
    |s| == 17 && forall c | c in s :: VinChar(c)
  }

  function Vin(l: Listing): string {
    var vin := Uppercase(Stripped(l.vin));
    if ValidVin(vin) then vin else ""
  }

  // --- keys -----------------------------------------------------------------------

  datatype Key = ByVin(vin: string) | ByPlate(plate: string) | Alone(id: int)

  /** The VINs that listings with this plate give. */
  function KnownVins(listings: seq<Listing>, plate: string): set<string> {
    set l | l in listings && plate != "" && Plate(l) == plate && Vin(l) != "" :: Vin(l)
  }

  /** The only element of a set of one. */
  function TheOnly(s: set<string>): string
    requires |s| == 1
  {
    OneElement(s);
    var x :| x in s;
    x
  }

  lemma OneElement(s: set<string>)
    requires |s| == 1
    ensures exists x :: x in s && s == {x}
    ensures forall x, y | x in s && y in s :: x == y
  {
    var x :| x in s;
    assert |s - {x}| == 0;
    assert s == {x};
  }

  function KeyOf(listings: seq<Listing>, l: Listing): Key {
    var plate, known := Plate(l), KnownVins(listings, Plate(l));
    var vin := if Vin(l) == "" && |known| == 1 then TheOnly(known) else Vin(l);
    if vin != "" then ByVin(vin)
    else if plate != "" && |known| < 2 then ByPlate(plate)
    else Alone(l.id)
  }

  function Keys(listings: seq<Listing>): (keys: seq<Key>)
    ensures |keys| == |listings|
  {
    seq(|listings|, i requires 0 <= i < |listings| => KeyOf(listings, listings[i]))
  }

  // --- groups ---------------------------------------------------------------------

  /** Active listings first, then those that are unavailable, then sold ones. */
  function StatusRank(l: Listing): int {
    if l.status == SoldOut then 2 else if l.status == Unavailable || l.status == NotFoundInSearch then 1 else 0
  }

  function StatusOrder(): (Listing, Listing) -> bool {
    (a: Listing, b: Listing) => StatusRank(a) < StatusRank(b)
  }

  datatype Group = Group(first: Listing, others: seq<Listing>)

  function All(g: Group): seq<Listing> {
    [g.first] + g.others
  }

  function GroupOf(listings: seq<Listing>, k: Key): Group
    requires k in Keys(listings)
  {
    NoMembers(listings, Keys(listings), k);
    var members := StableSort(Members(listings, Keys(listings), k), StatusOrder());
    Group(members[0], members[1..])
  }

  function GroupsFor(listings: seq<Listing>, order: seq<Key>): seq<Group>
    requires forall k | k in order :: k in Keys(listings)
  {
    if order == [] then []
    else GroupsFor(listings, order[..|order| - 1]) + [GroupOf(listings, order[|order| - 1])]
  }

  function Groups(listings: seq<Listing>): seq<Group> {
    assert forall k | k in FirstKeys(Keys(listings)) :: k in Keys(listings) by {
      forall k | k in FirstKeys(Keys(listings)) ensures k in Keys(listings) {
        KeyOccurs(Keys(listings), k);
      }
    }
    GroupsFor(listings, FirstKeys(Keys(listings)))
  }

  /** The first loop: the VINs known for each plate. */
  method CollectVins(listings: seq<Listing>) returns (plateVins: map<string, set<string>>)
    ensures forall p :: (if p in plateVins then plateVins[p] else {}) == KnownVins(listings, p)
  {
    hide Plate, Vin;
    plateVins := map[];
    for i := 0 to |listings|
      invariant forall p :: (if p in plateVins then plateVins[p] else {}) == KnownVins(listings[..i], p)
    {
      var plate, vin := Plate(listings[i]), Vin(listings[i]);
      assert listings[..i + 1] == listings[..i] + [listings[i]];
      forall p
        ensures KnownVins(listings[..i + 1], p)
                == KnownVins(listings[..i], p) + if p != "" && plate == p && vin != "" then {vin} else {}
      {
        OneMore(listings[..i], listings[i], p);
      }
      if plate != "" && vin != "" {
        var known := if plate in plateVins then plateVins[plate] else {};
        plateVins := plateVins[plate := known + {vin}];
      }
    }
    assert listings[..|listings|] == listings;
  }

  lemma OneMore(listings: seq<Listing>, l: Listing, p: string)
    ensures KnownVins(listings + [l], p)
            == KnownVins(listings, p) + if p != "" && Plate(l) == p && Vin(l) != "" then {Vin(l)} else {}
  {
    hide Plate, Vin;
    forall x ensures x in KnownVins(listings + [l], p)
      <==> x in KnownVins(listings, p) + if p != "" && Plate(l) == p && Vin(l) != "" then {Vin(l)} else {}
    {
      if x in KnownVins(listings, p) {
        var m :| m in listings && p != "" && Plate(m) == p && Vin(m) != "" && Vin(m) == x;
        assert m in listings + [l];
      }
      assert l in listings + [l];
    }
  }

  /** The keys of the second loop. */
  method ComputeKeys(listings: seq<Listing>, plateVins: map<string, set<string>>) returns (keys: seq<Key>)
    requires forall p :: (if p in plateVins then plateVins[p] else {}) == KnownVins(listings, p)
    ensures keys == Keys(listings)
  {
    hide Plate, Vin, KnownVins;
    keys := [];
    for i := 0 to |listings|
      invariant |keys| == i
      invariant forall j | 0 <= j < i :: keys[j] == KeyOf(listings, listings[j])
    {
      var plate, vin := Plate(listings[i]), Vin(listings[i]);
      var known := if plate in plateVins then plateVins[plate] else {};
      assert known == KnownVins(listings, plate);
      if vin == "" && |known| == 1 {
        vin := TheOnly(known);
      }
      var key;
      if vin != "" {
        key := ByVin(vin);
      } else if plate != "" && |known| < 2 {
        key := ByPlate(plate);
      } else {
        key := Alone(listings[i].id);
      }
      keys := keys + [key];
    }
  }

  /** The last loop: each group in the order of its keys, sorted by status. */
  method Arrange(listings: seq<Listing>, order: seq<Key>, groups: map<Key, seq<Listing>>) returns (result: seq<Group>)
    requires forall k | k in order ::
      k in Keys(listings) && k in groups && groups[k] == Members(listings, Keys(listings), k)
    ensures result == GroupsFor(listings, order)
  {
    hide Keys, StatusOrder, StableSort, Members;
    result := [];
    for i := 0 to |order|
      invariant forall k | k in order[..i] :: k in order
      invariant result == GroupsFor(listings, order[..i])
    {
      assert order[..i + 1][..i] == order[..i];
      NoMembers(listings, Keys(listings), order[i]);
      var members := StableSort(groups[order[i]], StatusOrder());
      result := result + [Group(members[0], members[1..])];
    }
    assert order[..|order|] == order;
  }

  /** `group_vehicle_listings`. */
  method GroupVehicleListings(listings: seq<Listing>) returns (result: seq<Group>)
    ensures result == Groups(listings)
  {
    hide Keys, FirstKeys, Members, GroupsFor, KnownVins;
    var plateVins := CollectVins(listings);
    var keys := ComputeKeys(listings, plateVins);
    var order, groups := GroupBy(listings, keys);
    forall k | k in order ensures k in keys {
      KeyOccurs(keys, k);
    }
    result := Arrange(listings, order, groups);
  }
}
