/**
 One Encar listing as the backend stores it: the `details` document, what counts
 as a material change between two documents, the listing fingerprint, and the
 merge that folds a freshly read page into what was known before
 (backend/app/parser.py and backend/app/services.py).
 */
module Listing {
  import opened Wrappers

  /** The keys that some rule mentions, in a details document or below it; every other key is `Other`. */
  datatype Field =
    | CanonicalCarId | SourceCarId | DisplayedCarId | Source | SourceUrl | Url
    | CheckedAt | ScanRunId | ParseQuality | SoldFlag | Unavailable
    | ScreenshotPath | ScreenshotChecksum
    | Title | Trim | YearMonth | ProductionDate | RegistrationDate | RegistrationNumber | Vin
    | MileageKm | Fuel | FuelNameKo | Drivetrain | Transmission | EngineDisplacementCc
    | SeatCount | BodyType | ExteriorColor | InteriorColor | NewCarPricePercent | OptionCodes
    | Options | Condition | ConditionSummary | FingerprintField | Accident | UnderContract
    | PriceKrw | PriceSource | OfferType
    | RentalMonthlyPaymentKrw | RentalTermMonths | RentalAcquisitionPriceKrw
    | VehiclePriceKrw | LeaseMonthlyPaymentKrw | LeaseTermMonths
    | Status | Value | Summary
    | Other(key: string)

  /** The texts some rule compares with; every other text is `Word`. */
  datatype Text =
    | Empty | UnverifiedText | ConfirmedText | NotFoundText
    | Sale | DetailPrimary | DetailRentalMonthly | DetailLeaseMonthly
    | SoldPage | PriceStatus
    | Word(s: string)

  /**
   A stored value. `Digest` is a SHA-256 value, represented by the document it was
   taken of: two digests are equal exactly when the documents are.
   */
  datatype Json =
    | Null
    | Bool(b: bool)
    | Int(n: int)
    | Str(t: Text)
    | Arr(items: seq<Json>)
    | Obj(fields: Details)
    | Digest(of: Details)

  type Details = map<Field, Json>

  /** `d.get(f)`: an absent key and a stored null read the same. */
  function Get(d: Details, f: Field): Json {
    if f in d then d[f] else Null
  }

  predicate Truthy(v: Json) {
    match v
    case Null => false
    case Bool(b) => b
    case Int(n) => n != 0
    case Str(t) => t != Empty
    case Arr(items) => items != []
    case Obj(fields) => fields != map[]
    case Digest(_) => true
  }

  /** `v or {}` for a field that holds a dictionary. */
  function Entries(v: Json): Details {
    if v.Obj? then v.fields else map[]
  }

  function Offer(d: Details): Json {
    if Truthy(Get(d, OfferType)) then Get(d, OfferType) else Str(Sale)
  }

  // --- material changes -------------------------------------------------------

  const TRACKED: seq<Field> := [
    Title, Trim, YearMonth, MileageKm, Fuel, FuelNameKo, Drivetrain, Transmission,
    EngineDisplacementCc, SeatCount, BodyType, ExteriorColor, InteriorColor, OptionCodes,
    RegistrationNumber, ConditionSummary, NewCarPricePercent, UnderContract, OfferType,
    RentalMonthlyPaymentKrw, RentalTermMonths, RentalAcquisitionPriceKrw,
    VehiclePriceKrw, LeaseMonthlyPaymentKrw, LeaseTermMonths]

  /** Membership in the list above. */
  predicate Tracked(f: Field) {
    f.Title? || f.Trim? || f.YearMonth? || f.MileageKm? || f.Fuel? || f.FuelNameKo?
    || f.Drivetrain? || f.Transmission? || f.EngineDisplacementCc? || f.SeatCount?
    || f.BodyType? || f.ExteriorColor? || f.InteriorColor? || f.OptionCodes?
    || f.RegistrationNumber? || f.ConditionSummary? || f.NewCarPricePercent?
    || f.UnderContract? || f.OfferType? || f.RentalMonthlyPaymentKrw? || f.RentalTermMonths?
    || f.RentalAcquisitionPriceKrw? || f.VehiclePriceKrw? || f.LeaseMonthlyPaymentKrw?
    || f.LeaseTermMonths?
  }

  lemma TrackedMembers()
    ensures forall f :: Tracked(f) <==> f in TRACKED
  {
  }

  predicate NewSpec(f: Field) {
    f.FuelNameKo? || f.SeatCount? || f.OptionCodes? || f.BodyType?
    || f.EngineDisplacementCc? || f.ExteriorColor?
  }

  datatype Change =
    | FieldChange(field: Field, before: Json, after: Json)
    | OptionsChange(names: set<Field>)
    | ConditionChange(names: set<Field>)

  /** The document with its offer type spelled out, as both sides are compared. */
  function Normalized(d: Details): Details {
    d[OfferType := Offer(d)]
  }

  predicate FieldChanged(before: Details, after: Details, f: Field) {
    Get(before, f) != Get(after, f) && !(NewSpec(f) && Get(before, f) == Null)
  }

  function FieldChanges(before: Details, after: Details, fields: seq<Field>): seq<Change> {
    if fields == [] then []
    else
      (if FieldChanged(before, after, fields[0])
       then [FieldChange(fields[0], Get(before, fields[0]), Get(after, fields[0]))] else [])
      + FieldChanges(before, after, fields[1..])
  }

  function ConditionValue(v: Json): Json {
    if v.Obj? then Obj(map k | k in v.fields && (k.Status? || k.Value?) :: v.fields[k])
    else v
  }

  function ChangedOptions(before: Details, after: Details): set<Field> {
    var o, n := Entries(Get(before, Options)), Entries(Get(after, Options));
    set k | k in o.Keys + n.Keys && Get(o, k) != Get(n, k)
  }

  function ChangedCondition(before: Details, after: Details): set<Field> {
    var o, n := Entries(Get(before, Condition)), Entries(Get(after, Condition));
    set k | k in o.Keys + n.Keys && ConditionValue(Get(o, k)) != ConditionValue(Get(n, k))
  }

  function MaterialChanges(before: Details, after: Details): (changes: seq<Change>)
    ensures |changes| <= 12
  {
    var all :=
      FieldChanges(Normalized(before), Normalized(after), TRACKED)
      + (if ChangedOptions(before, after) != {} then [OptionsChange(ChangedOptions(before, after))] else [])
      + (if ChangedCondition(before, after) != {} then [ConditionChange(ChangedCondition(before, after))] else []);
    if |all| <= 12 then all else all[..12]
  }

  /** What an empty list of material changes means, field by field. */
  ghost predicate SameListing(before: Details, after: Details) {
    && Offer(before) == Offer(after)
    && (forall f | Tracked(f) && f != OfferType :: !FieldChanged(before, after, f))
    && (forall k :: Get(Entries(Get(before, Options)), k) == Get(Entries(Get(after, Options)), k))
    && (forall k :: ConditionValue(Get(Entries(Get(before, Condition)), k))
                 == ConditionValue(Get(Entries(Get(after, Condition)), k)))
  }

  lemma {:induction false} FieldChangesEmpty(before: Details, after: Details, fields: seq<Field>)
    ensures FieldChanges(before, after, fields) == [] <==> forall f | f in fields :: !FieldChanged(before, after, f)
  {
    if fields != [] {
      FieldChangesEmpty(before, after, fields[1..]);
      assert forall f :: f in fields <==> f == fields[0] || f in fields[1..];
    }
  }

  lemma NoFieldChange(before: Details, after: Details, fields: seq<Field>)
    requires OfferType in fields
    ensures FieldChanges(Normalized(before), Normalized(after), fields) == []
      <==> (Offer(before) == Offer(after)
            && forall f | f in fields && f != OfferType :: !FieldChanged(before, after, f))
  {
    var o, n := Normalized(before), Normalized(after);
    FieldChangesEmpty(o, n, fields);
    assert FieldChanged(o, n, OfferType) == (Offer(before) != Offer(after));
    assert forall f | f != OfferType :: FieldChanged(o, n, f) == FieldChanged(before, after, f);
  }

  lemma NoTrackedChange(before: Details, after: Details)
    ensures FieldChanges(Normalized(before), Normalized(after), TRACKED) == []
      <==> (Offer(before) == Offer(after)
            && forall f | Tracked(f) && f != OfferType :: !FieldChanged(before, after, f))
  {
    TrackedMembers();
    NoFieldChange(before, after, TRACKED);
    hide Offer, FieldChanged, Tracked;
  }

  lemma NoOptionsChange(before: Details, after: Details)
    ensures ChangedOptions(before, after) == {}
      <==> forall k :: Get(Entries(Get(before, Options)), k) == Get(Entries(Get(after, Options)), k)
  {
    if ChangedOptions(before, after) == {} {
      forall k ensures Get(Entries(Get(before, Options)), k) == Get(Entries(Get(after, Options)), k) {
        assert k !in ChangedOptions(before, after);
      }
    }
  }

  lemma NoConditionChange(before: Details, after: Details)
    ensures ChangedCondition(before, after) == {}
      <==> forall k :: ConditionValue(Get(Entries(Get(before, Condition)), k))
                    == ConditionValue(Get(Entries(Get(after, Condition)), k))
  {
    if ChangedCondition(before, after) == {} {
      forall k
        ensures ConditionValue(Get(Entries(Get(before, Condition)), k))
             == ConditionValue(Get(Entries(Get(after, Condition)), k))
      {
        assert k !in ChangedCondition(before, after);
      }
    }
  }

  /** Two documents have no material change exactly when they describe the same listing. */
  lemma NoMaterialChange(before: Details, after: Details)
    ensures MaterialChanges(before, after) == [] <==> SameListing(before, after)
  {
    NoTrackedChange(before, after);
    NoOptionsChange(before, after);
    NoConditionChange(before, after);
  }

  /**
   "No material change" is transitive, although newly introduced specification
   fields are exempt on one side only.
   */
  lemma SameListingTransitive(a: Details, b: Details, c: Details)
    requires MaterialChanges(a, b) == [] && MaterialChanges(b, c) == []
    ensures MaterialChanges(a, c) == []
  {
    NoMaterialChange(a, b);
    NoMaterialChange(b, c);
    NoMaterialChange(a, c);
    assert forall f | Tracked(f) && f != OfferType ::
      !FieldChanged(a, b, f) && !FieldChanged(b, c, f) && !FieldChanged(a, c, f);
  }

  lemma SameListingReflexive(a: Details)
    ensures MaterialChanges(a, a) == []
  {
    NoMaterialChange(a, a);
  }

  lemma NewSpecIsTracked(f: Field)
    requires NewSpec(f)
    ensures Tracked(f)
  {
  }

  lemma NewSpecFieldChanges(listing: Details, f: Field, v: Json, fields: seq<Field>)
    requires NewSpec(f) && f in fields && Get(listing, f) == Null && v != Null
    ensures FieldChanges(Normalized(listing), Normalized(listing[f := v]), fields) == []
    ensures FieldChanges(Normalized(listing[f := v]), Normalized(listing), fields) != []
  {
    var o, n := Normalized(listing), Normalized(listing[f := v]);
    FieldChangesEmpty(o, n, fields);
    FieldChangesEmpty(n, o, fields);
    assert forall g | g != f :: Get(n, g) == Get(o, g);
    assert FieldChanged(n, o, f);
  }

  /**
   The exemption does make the relation one-sided: a specification field that
   appears for the first time is no change, and its disappearance is one.
   */
  lemma NewSpecIsOneSided(listing: Details, f: Field, v: Json)
    requires NewSpec(f) && Get(listing, f) == Null && v != Null
    ensures MaterialChanges(listing, listing[f := v]) == []
    ensures MaterialChanges(listing[f := v], listing) != []
  {
    hide Tracked, FieldChanges, Normalized, ChangedOptions, ChangedCondition, ConditionValue;
    TrackedMembers();
    assert f in TRACKED by {
      NewSpecIsTracked(f);
    }
    NewSpecFieldChanges(listing, f, v, TRACKED);
    NoOptionsChange(listing, listing[f := v]);
    NoConditionChange(listing, listing[f := v]);
  }

  // --- fingerprints and prices ------------------------------------------------

  predicate Fingerprinted(f: Field) {
    f.CanonicalCarId? || f.Title? || f.YearMonth? || f.MileageKm? || f.PriceKrw? || f.Fuel?
    || f.FuelNameKo? || f.Drivetrain? || f.Transmission? || f.EngineDisplacementCc?
    || f.SeatCount? || f.BodyType? || f.ExteriorColor? || f.Options? || f.OptionCodes?
    || f.Condition? || f.OfferType? || f.RentalMonthlyPaymentKrw? || f.RentalTermMonths?
    || f.RentalAcquisitionPriceKrw? || f.VehiclePriceKrw? || f.LeaseMonthlyPaymentKrw?
    || f.LeaseTermMonths?
  }

  function ConditionSignature(v: Json): Json {
    Obj(map k | k in Entries(v) :: ConditionValue(Entries(v)[k]))
  }

  /** The digest of the compared fields; an absent field and a null one hash alike. */
  function Fingerprint(d: Details): Json {
    var comparable := map f | f in d && Fingerprinted(f) && d[f] != Null :: d[f];
    Digest(comparable[OfferType := Offer(d)][Condition := ConditionSignature(Get(d, Condition))])
  }

  /** Documents that agree on the compared fields have the same fingerprint. */
  lemma SameFingerprint(a: Details, b: Details)
    requires forall f | Fingerprinted(f) :: Get(a, f) == Get(b, f)
    ensures Fingerprint(a) == Fingerprint(b)
  {
    assert forall f | Fingerprinted(f) :: (f in a && a[f] != Null) <==> (f in b && b[f] != Null);
    assert (map f | f in a && Fingerprinted(f) && a[f] != Null :: a[f])
        == (map f | f in b && Fingerprinted(f) && b[f] != Null :: b[f]);
  }

  lemma FingerprintIgnoresItself(d: Details)
    ensures Fingerprint(d[FingerprintField := Fingerprint(d)]) == Fingerprint(d)
  {
    SameFingerprint(d[FingerprintField := Fingerprint(d)], d);
  }

  datatype PriceChange = NoChange | Moved(drop: bool, before: int, after: int, difference: nat)

  /** `price_change`: silent unless both prices are set, non-zero and different. */
  function ComparePrices(before: Option<int>, after: Option<int>): PriceChange {
    if before.None? || after.None? || before.value == 0 || after.value == 0 || before.value == after.value then NoChange
    else Moved(after.value < before.value, before.value, after.value,
               if after.value < before.value then before.value - after.value else after.value - before.value)
  }

  /** The price a page may set: only one read from the listing's own price anchor. */
  function AuthoritativePrice(d: Details): Option<int> {
    var source := Get(d, PriceSource);
    if (source == Str(DetailPrimary) || source == Str(DetailRentalMonthly)
        || source == Str(DetailLeaseMonthly)) && Get(d, PriceKrw).Int?
    then Some(Get(d, PriceKrw).n)
    else None
  }

  function AccidentSignature(v: Json): (Json, Json, Json) {
    var m := Entries(v);
    (Get(m, Status), Get(m, Summary), ConditionSignature(Get(m, Condition)))
  }

  // --- merging a freshly read page --------------------------------------------

  /** What a sold page still says about a listing. */
  predicate SoldPageField(f: Field) {
    f.CanonicalCarId? || f.SourceCarId? || f.DisplayedCarId? || f.Source? || f.SourceUrl? || f.Url?
    || f.CheckedAt? || f.ScanRunId? || f.ParseQuality? || f.SoldFlag? || f.Unavailable?
    || f.ScreenshotPath? || f.ScreenshotChecksum?
  }

  /** Specifications that a listing does not lose between two reads. */
  predicate Stable(f: Field) {
    f.Trim? || f.YearMonth? || f.ProductionDate? || f.RegistrationDate? || f.RegistrationNumber?
    || f.Vin? || f.MileageKm? || f.Fuel? || f.FuelNameKo? || f.Drivetrain? || f.Transmission?
    || f.EngineDisplacementCc? || f.SeatCount? || f.BodyType? || f.ExteriorColor?
    || f.InteriorColor? || f.NewCarPricePercent? || f.OptionCodes?
  }

  predicate Missing(v: Json) {
    v == Null || v == Str(Empty) || v == Str(UnverifiedText)
  }

  function StatusOf(entry: Json): Json {
    if entry.Obj? then Get(entry.fields, Status) else Null
  }

  /** A condition entry that was established one way or the other. */
  predicate Established(entry: Json) {
    entry.Obj? && (StatusOf(entry) == Str(ConfirmedText) || StatusOf(entry) == Str(NotFoundText))
  }

  predicate Unverified(entry: Json) {
    entry.Obj? && StatusOf(entry) == Str(UnverifiedText)
  }

  function MergedCondition(before: Details, after: Details): Details {
    before + map k | k in after && !(Unverified(after[k]) && Established(Get(before, k))) :: after[k]
  }

  predicate KeepsStable(previous: Details, current: Details, f: Field) {
    Stable(f) && Missing(Get(current, f)) && !Missing(Get(previous, f))
  }

  predicate KeepsSummary(previous: Details, current: Details) {
    Get(current, ConditionSummary) == Str(UnverifiedText) && !Missing(Get(previous, ConditionSummary))
  }

  function SoldBody(previous: Details, current: Details): Details {
    var copied := map f | f in current && SoldPageField(f) :: current[f];
    (previous + copied)[SoldFlag := Bool(true)][Unavailable := Bool(false)][ParseQuality := Str(SoldPage)]
  }

  function Kept(previous: Details, current: Details): Details {
    map f | f in previous && KeepsStable(previous, current, f) :: previous[f]
  }

  function LiveBody(previous: Details, current: Details): Details {
    var merged := (previous + current + Kept(previous, current))
      [Options := Obj(Entries(Get(previous, Options)) + Entries(Get(current, Options)))]
      [Condition := Obj(MergedCondition(Entries(Get(previous, Condition)), Entries(Get(current, Condition))))];
    if KeepsSummary(previous, current) then merged[ConditionSummary := Get(previous, ConditionSummary)] else merged
  }

  function MergeSold(previous: Details, current: Details): Details {
    var body := SoldBody(previous, current);
    body[FingerprintField := Fingerprint(body)]
  }

  function MergeLive(previous: Details, current: Details): Details {
    var body := LiveBody(previous, current);
    body[FingerprintField := Fingerprint(body)]
  }

  /** What `merge_reliable_detail` returns. */
  function Merge(previous: Details, current: Details): Details {
    if Truthy(Get(current, SoldFlag)) && previous != map[] then MergeSold(previous, current)
    else MergeLive(previous, current)
  }
}
