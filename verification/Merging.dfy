/**
 `merge_reliable_detail` (backend/app/services.py): the loop that folds a page into
 the stored details, and what no sequence of merges can do to verified data.
 */
module Merging {
  import opened Listing

  // --- the method --------------------------------------------------------------

  method MergeReliableDetail(previous: Details, current: Details) returns (merged: Details)
    ensures merged == Merge(previous, current)
  {
    if Truthy(Get(current, SoldFlag)) && previous != map[] {
      merged := CopySoldPageFields(previous, current);
      merged := merged[SoldFlag := Bool(true)][Unavailable := Bool(false)][ParseQuality := Str(SoldPage)];
      merged := merged[FingerprintField := Fingerprint(merged)];
      return;
    }
    merged := RestoreStableFields(previous, current, previous + current);
    merged := merged[Options := Obj(Entries(Get(previous, Options)) + Entries(Get(current, Options)))];
    var condition := MergeConditionEntries(Entries(Get(previous, Condition)), Entries(Get(current, Condition)));
    merged := merged[Condition := Obj(condition)];
    if Get(current, ConditionSummary) == Str(UnverifiedText) && !Missing(Get(previous, ConditionSummary)) {
      merged := merged[ConditionSummary := Get(previous, ConditionSummary)];
    }
    merged := merged[FingerprintField := Fingerprint(merged)];
  }

  method CopySoldPageFields(previous: Details, current: Details) returns (merged: Details)
    ensures merged == previous + map f | f in current && SoldPageField(f) :: current[f]
  {
    var fields := [
      CanonicalCarId, SourceCarId, DisplayedCarId, Source, SourceUrl, Url, CheckedAt,
      ScanRunId, ParseQuality, SoldFlag, Unavailable, ScreenshotPath, ScreenshotChecksum];
    assert forall f :: SoldPageField(f) <==> f in fields;
    merged := CopyFields(fields, previous, current);
  }

  ghost function Copied(fields: seq<Field>, current: Details): Details {
    map f | f in current && f in fields :: current[f]
  }

  lemma CopiedStep(fields: seq<Field>, current: Details, f: Field)
    ensures Copied(fields + [f], current) == if f in current then Copied(fields, current)[f := current[f]] else Copied(fields, current)
  {
    assert forall g :: g in fields + [f] <==> g in fields || g == f;
  }

  method CopyFields(fields: seq<Field>, previous: Details, current: Details) returns (merged: Details)
    ensures merged == previous + Copied(fields, current)
  {
    merged := previous;
    assert previous + map[] == previous;
    for i := 0 to |fields|
      invariant merged == previous + Copied(fields[..i], current)
    {
      assert fields[..i + 1] == fields[..i] + [fields[i]];
      CopiedStep(fields[..i], current, fields[i]);
      AddThenSet(previous, Copied(fields[..i], current), fields[i], Get(current, fields[i]));
      hide Copied;
      if fields[i] in current {
        merged := merged[fields[i] := current[fields[i]]];
      }
    }
    assert fields[..|fields|] == fields;
  }

  method RestoreStableFields(previous: Details, current: Details, base: Details) returns (merged: Details)
    ensures merged == base + map f | f in previous && KeepsStable(previous, current, f) :: previous[f]
  {
    var fields := [
      Trim, YearMonth, ProductionDate, RegistrationDate, RegistrationNumber, Vin, MileageKm,
      Fuel, FuelNameKo, Drivetrain, Transmission, EngineDisplacementCc, SeatCount, BodyType,
      ExteriorColor, InteriorColor, NewCarPricePercent, OptionCodes];
    assert forall f :: Stable(f) <==> f in fields;
    merged := RestoreFields(fields, previous, current, base);
  }

  ghost function Restored(fields: seq<Field>, previous: Details, current: Details): Details {
    map f | f in previous && f in fields && Missing(Get(current, f)) && !Missing(previous[f]) :: previous[f]
  }

  lemma RestoredStep(fields: seq<Field>, previous: Details, current: Details, f: Field)
    ensures Restored(fields + [f], previous, current)
      == if Missing(Get(current, f)) && !Missing(Get(previous, f))
         then Restored(fields, previous, current)[f := Get(previous, f)]
         else Restored(fields, previous, current)
  {
    assert forall g :: g in fields + [f] <==> g in fields || g == f;
  }

  lemma AddThenSet(base: Details, extra: Details, f: Field, v: Json)
    ensures base + extra[f := v] == (base + extra)[f := v]
  {
  }

  method RestoreFields(fields: seq<Field>, previous: Details, current: Details, base: Details)
    returns (merged: Details)
    ensures merged == base + Restored(fields, previous, current)
  {
    merged := base;
    assert base + map[] == base;
    for i := 0 to |fields|
      invariant merged == base + Restored(fields[..i], previous, current)
    {
      assert fields[..i + 1] == fields[..i] + [fields[i]];
      RestoredStep(fields[..i], previous, current, fields[i]);
      AddThenSet(base, Restored(fields[..i], previous, current), fields[i], Get(previous, fields[i]));
      hide Restored;
      if Missing(Get(current, fields[i])) && !Missing(Get(previous, fields[i])) {
        merged := merged[fields[i] := previous[fields[i]]];
      }
    }
    assert fields[..|fields|] == fields;
  }

  /** The merged condition once the new entries under `keys` have been looked at. */
  ghost function MergedSoFar(keys: set<Field>, before: Details, after: Details): Details {
    before + map k | k in after && k in keys && !(Unverified(after[k]) && Established(Get(before, k))) :: after[k]
  }

  lemma MergedSoFarStep(keys: set<Field>, before: Details, after: Details, key: Field)
    requires key in after
    ensures MergedSoFar(keys + {key}, before, after)
      == if Unverified(after[key]) && Established(Get(before, key)) then MergedSoFar(keys, before, after)
         else MergedSoFar(keys, before, after)[key := after[key]]
  {
  }

  lemma MergedSoFarEnds(before: Details, after: Details)
    ensures MergedSoFar({}, before, after) == before
    ensures MergedSoFar(after.Keys, before, after) == MergedCondition(before, after)
  {
    assert forall k :: k in after && k in after.Keys <==> k in after;
  }

  method MergeConditionEntries(before: Details, after: Details) returns (condition: Details)
    ensures condition == MergedCondition(before, after)
  {
    MergedSoFarEnds(before, after);
    hide MergedSoFar, MergedCondition, Unverified, Established;
    condition := before;
    var todo := after.Keys;
    ghost var done := {};
    while todo != {}
      invariant todo !! done && todo + done == after.Keys
      invariant condition == MergedSoFar(done, before, after)
    {
      var key :| key in todo;
      MergedSoFarStep(done, before, after, key);
      todo := todo - {key};
      done := done + {key};
      if Unverified(after[key]) && Established(Get(before, key)) {
        continue;
      }
      condition := condition[key := after[key]];
    }
    assert done == after.Keys;
  }

  // --- one merge, field by field -------------------------------------------------

  /** Says nothing about a field: null, the empty text, or that it could not be verified. */
  const UNKNOWN: set<Json> := {Null, Str(Empty), Str(UnverifiedText)}

  const STABLE_FIELDS: set<Field> := {
    Trim, YearMonth, ProductionDate, RegistrationDate, RegistrationNumber, Vin, MileageKm, Fuel, FuelNameKo,
    Drivetrain, Transmission, EngineDisplacementCc, SeatCount, BodyType, ExteriorColor, InteriorColor,
    NewCarPricePercent, OptionCodes}

  const SOLD_PAGE_FIELDS: set<Field> := {
    CanonicalCarId, SourceCarId, DisplayedCarId, Source, SourceUrl, Url, CheckedAt, ScanRunId, ParseQuality,
    SoldFlag, Unavailable, ScreenshotPath, ScreenshotChecksum}

  lemma StableIs(f: Field)
    ensures Stable(f) <==> f in STABLE_FIELDS
  {
  }

  lemma SoldPageFieldIs(f: Field)
    ensures SoldPageField(f) <==> f in SOLD_PAGE_FIELDS
  {
  }

  lemma MissingIs(v: Json)
    ensures Missing(v) <==> v in UNKNOWN
  {
  }

  lemma KeptAt(previous: Details, current: Details, f: Field)
    ensures f in Kept(previous, current) <==> KeepsStable(previous, current, f)
    ensures f in Kept(previous, current) ==> Kept(previous, current)[f] == Get(previous, f)
    ensures KeepsStable(previous, current, f) ==> f in previous
  {
  }

  lemma LiveAt(previous: Details, current: Details, f: Field)
    requires f != Options && f != Condition && f != ConditionSummary && f != FingerprintField
    ensures f in MergeLive(previous, current) <==> f in previous || f in current
    ensures Get(MergeLive(previous, current), f)
      == if KeepsStable(previous, current, f) then Get(previous, f)
         else if f in current then current[f] else Get(previous, f)
  {
    hide Kept, Fingerprint, MergedCondition, KeepsStable, KeepsSummary, Entries;
    KeptAt(previous, current, f);
  }

  lemma LiveOptionsAt(previous: Details, current: Details)
    ensures Options in MergeLive(previous, current)
    ensures Get(MergeLive(previous, current), Options)
      == Obj(Entries(Get(previous, Options)) + Entries(Get(current, Options)))
  {
  }

  lemma LiveConditionAt(previous: Details, current: Details)
    ensures Condition in MergeLive(previous, current)
    ensures Get(MergeLive(previous, current), Condition)
      == Obj(MergedCondition(Entries(Get(previous, Condition)), Entries(Get(current, Condition))))
  {
    hide MergedCondition;
  }

  lemma LiveSummaryAt(previous: Details, current: Details)
    ensures ConditionSummary in MergeLive(previous, current)
      <==> ConditionSummary in previous || ConditionSummary in current
    ensures Get(MergeLive(previous, current), ConditionSummary)
      == if KeepsSummary(previous, current) || ConditionSummary !in current then Get(previous, ConditionSummary)
         else current[ConditionSummary]
  {
  }

  lemma SoldAt(previous: Details, current: Details, f: Field)
    requires !SoldPageField(f) && f != FingerprintField
    ensures Get(MergeSold(previous, current), f) == Get(previous, f)
  {
  }

  /**
   What any field but the structured ones holds after a live page was merged. A page that
   says nothing about a stable field leaves it; any other value of the page is taken.
   */
  lemma LivePageAt(previous: Details, page: Details, f: Field)
    requires !Truthy(Get(page, SoldFlag)) || previous == map[]
    requires f !in {Options, Condition, ConditionSummary, FingerprintField}
    ensures Get(Merge(previous, page), f)
            == if f !in page || (f in STABLE_FIELDS && page[f] in UNKNOWN && Get(previous, f) !in UNKNOWN) then Get(previous, f)
               else page[f]
  {
    hide MergeLive, STABLE_FIELDS, UNKNOWN, Stable, Missing, Truthy;
    StableIs(f);
    MissingIs(Get(page, f));
    MissingIs(Get(previous, f));
    LiveAt(previous, page, f);
  }

  /** The summary of the condition is left alone only by a page that could not verify it. */
  lemma LiveSummaryIs(previous: Details, page: Details)
    requires !Truthy(Get(page, SoldFlag)) || previous == map[]
    ensures var known := Get(previous, ConditionSummary);
            Get(Merge(previous, page), ConditionSummary)
            == if ConditionSummary !in page || (page[ConditionSummary] == Str(UnverifiedText) && known !in UNKNOWN) then known
               else page[ConditionSummary]
  {
    hide MergeLive, UNKNOWN, Missing;
    MissingIs(Get(previous, ConditionSummary));
    LiveSummaryAt(previous, page);
  }

  /** Options of a live page are added to the known ones and win over them. */
  lemma LiveOptionIs(previous: Details, page: Details, k: Field)
    requires !Truthy(Get(page, SoldFlag)) || previous == map[]
    ensures var known, read, merged := Entries(Get(previous, Options)), Entries(Get(page, Options)),
                                       Entries(Get(Merge(previous, page), Options));
            && (k in merged <==> k in known || k in read)
            && (k in merged ==> merged[k] == if k in read then read[k] else known[k])
  {
    LiveOptionsAt(previous, page);
    hide MergeLive;
  }

  /**
   A condition entry of a live page is taken, unless it is unverified and the known entry
   is confirmed or known not to be found; entries that the page does not mention stay.
   */
  lemma LiveConditionIs(previous: Details, page: Details, k: Field)
    requires !Truthy(Get(page, SoldFlag)) || previous == map[]
    ensures var known, read, merged := Entries(Get(previous, Condition)), Entries(Get(page, Condition)),
                                       Entries(Get(Merge(previous, page), Condition));
            var keeps := k in known && k in read && known[k].Obj? && read[k].Obj?
                         && Get(read[k].fields, Status) == Str(UnverifiedText)
                         && Get(known[k].fields, Status) in {Str(ConfirmedText), Str(NotFoundText)};
            && (k in merged <==> k in known || k in read)
            && (k in merged ==> merged[k] == if k in read && !keeps then read[k] else known[k])
  {
    LiveConditionAt(previous, page);
    hide MergeLive;
  }

  lemma SoldBodyAt(previous: Details, page: Details, f: Field)
    requires f !in {SoldFlag, Unavailable, ParseQuality, FingerprintField}
    ensures Get(MergeSold(previous, page), f) == if f in page && SoldPageField(f) then Get(page, f) else Get(previous, f)
  {
    hide SoldPageField, Fingerprint;
  }

  lemma SoldMarks(previous: Details, page: Details)
    ensures var merged := MergeSold(previous, page);
            && Get(merged, SoldFlag) == Bool(true) && Get(merged, Unavailable) == Bool(false)
            && Get(merged, ParseQuality) == Str(SoldPage)
  {
    hide SoldPageField, Fingerprint;
  }

  /**
   A sold page of a known listing is taken at its word only about identity, address, times,
   scan and screenshot; it marks the document as that of a sold page.
   */
  lemma SoldPageAt(previous: Details, page: Details, f: Field)
    requires Truthy(Get(page, SoldFlag)) && previous != map[] && f != FingerprintField
    ensures Get(Merge(previous, page), f)
            == match f
               case SoldFlag => Bool(true)
               case Unavailable => Bool(false)
               case ParseQuality => Str(SoldPage)
               case _ => if f in page && f in SOLD_PAGE_FIELDS then Get(page, f) else Get(previous, f)
  {
    hide SOLD_PAGE_FIELDS, SoldPageField, MergeSold, MergeLive, Truthy;
    SoldPageFieldIs(f);
    SoldMarks(previous, page);
    if f !in {SoldFlag, Unavailable, ParseQuality} {
      SoldBodyAt(previous, page, f);
    }
  }

  /** A stable field that is known stays known, whatever page is merged. */
  lemma StableFieldStaysKnown(previous: Details, current: Details, f: Field)
    requires f in STABLE_FIELDS && Get(previous, f) !in UNKNOWN
    ensures Get(Merge(previous, current), f) !in UNKNOWN
  {
    hide MergeLive, MergeSold, STABLE_FIELDS, UNKNOWN, Stable, Missing;
    StableIs(f);
    StableIsNoSoldPageField(f);
    MissingIs(Get(previous, f));
    MissingIs(Get(current, f));
    SoldAt(previous, current, f);
    LiveAt(previous, current, f);
  }

  lemma StableIsNoSoldPageField(f: Field)
    requires Stable(f)
    ensures !SoldPageField(f) && f !in {Options, Condition, ConditionSummary, FingerprintField}
  {
  }

  /**
   An established condition entry is lost exactly when a live page brings an entry
   for it that is neither unverified nor itself established.
   */
  lemma EstablishedConditionLost(previous: Details, current: Details, k: Field)
    requires Established(Get(Entries(Get(previous, Condition)), k))
    ensures !Established(Get(Entries(Get(Merge(previous, current), Condition)), k))
      <==> (!Truthy(Get(current, SoldFlag))
            && k in Entries(Get(current, Condition))
            && !Unverified(Entries(Get(current, Condition))[k])
            && !Established(Entries(Get(current, Condition))[k]))
  {
    SoldAt(previous, current, Condition);
    LiveConditionAt(previous, current);
    hide MergeLive, MergeSold;
  }

  lemma MergedConditionTwice(before: Details, after: Details)
    ensures MergedCondition(MergedCondition(before, after), after) == MergedCondition(before, after)
  {
  }

  lemma LiveTwiceAt(previous: Details, current: Details, f: Field)
    requires f != FingerprintField
    ensures var once := MergeLive(previous, current);
            var twice := MergeLive(once, current);
            (f in once <==> f in twice) && Get(once, f) == Get(twice, f)
  {
    hide MergeLive, MergedCondition, Established, Unverified;
    var once := MergeLive(previous, current);
    if f == Options {
      LiveOptionsAt(previous, current);
      LiveOptionsAt(once, current);
    } else if f == Condition {
      LiveConditionAt(previous, current);
      LiveConditionAt(once, current);
      MergedConditionTwice(Entries(Get(previous, Condition)), Entries(Get(current, Condition)));
    } else if f == ConditionSummary {
      LiveSummaryAt(previous, current);
      LiveSummaryAt(once, current);
    } else {
      LiveAt(previous, current, f);
      LiveAt(once, current, f);
    }
  }

  /** The stored fingerprint is the fingerprint of the document that stores it. */
  lemma MergeFingerprint(previous: Details, current: Details)
    ensures FingerprintField in Merge(previous, current)
    ensures Get(Merge(previous, current), FingerprintField) == Fingerprint(Merge(previous, current))
  {
    LiveFingerprint(previous, current);
    SoldFingerprint(previous, current);
    hide MergeLive, MergeSold, Fingerprint;
  }

  lemma LiveFingerprint(previous: Details, current: Details)
    ensures var merged := MergeLive(previous, current);
            FingerprintField in merged && Get(merged, FingerprintField) == Fingerprint(merged)
  {
    FingerprintIgnoresItself(LiveBody(previous, current));
    hide Fingerprint, LiveBody;
  }

  lemma SoldFingerprint(previous: Details, current: Details)
    ensures var merged := MergeSold(previous, current);
            FingerprintField in merged && Get(merged, FingerprintField) == Fingerprint(merged)
  {
    FingerprintIgnoresItself(SoldBody(previous, current));
    hide Fingerprint, SoldBody;
  }

  /** Merging the same live page twice is merging it once. */
  lemma MergeIdempotent(previous: Details, current: Details)
    requires !Truthy(Get(current, SoldFlag))
    ensures Merge(Merge(previous, current), current) == Merge(previous, current)
  {
    var once := MergeLive(previous, current);
    var twice := MergeLive(once, current);
    LiveFingerprint(previous, current);
    LiveFingerprint(once, current);
    hide MergeLive, Fingerprint;
    forall f | f != FingerprintField
      ensures (f in once <==> f in twice) && Get(once, f) == Get(twice, f)
    {
      LiveTwiceAt(previous, current, f);
    }
    SameDocument(once, twice);
  }

  lemma SameDocument(a: Details, b: Details)
    requires forall f | f != FingerprintField :: (f in a <==> f in b) && Get(a, f) == Get(b, f)
    requires FingerprintField in a && FingerprintField in b
    requires Get(a, FingerprintField) == Fingerprint(a) && Get(b, FingerprintField) == Fingerprint(b)
    ensures a == b
  {
    SameFingerprint(a, b);
    hide Fingerprint;
    forall f ensures (f in a <==> f in b) && Get(a, f) == Get(b, f) {
    }
  }

  // --- any number of merges ------------------------------------------------------

  function MergeAll(stored: Details, pages: seq<Details>): Details
    decreases |pages|
  {
    if |pages| == 0 then stored else MergeAll(Merge(stored, pages[0]), pages[1..])
  }

  /** No sequence of live and sold pages makes the listing forget a stable field. */
  lemma {:induction false} StableFieldNeverLost(stored: Details, pages: seq<Details>, f: Field)
    requires f in STABLE_FIELDS && Get(stored, f) !in UNKNOWN
    ensures Get(MergeAll(stored, pages), f) !in UNKNOWN
    decreases |pages|
  {
    if pages != [] {
      StableFieldStaysKnown(stored, pages[0], f);
      StableFieldNeverLost(Merge(stored, pages[0]), pages[1..], f);
    }
  }

  /** The entries a page reader produces: every one of them says how sure it is. */
  predicate Graded(page: Details) {
    forall k | k in Entries(Get(page, Condition)) ::
      Unverified(Entries(Get(page, Condition))[k]) || Established(Entries(Get(page, Condition))[k])
  }

  /** No sequence of graded pages takes an established condition entry back. */
  lemma {:induction false} EstablishedConditionNeverLost(stored: Details, pages: seq<Details>, k: Field)
    requires Established(Get(Entries(Get(stored, Condition)), k))
    requires forall page | page in pages :: Graded(page)
    ensures Established(Get(Entries(Get(MergeAll(stored, pages), Condition)), k))
    decreases |pages|
  {
    if pages != [] {
      EstablishedConditionLost(stored, pages[0], k);
      assert Graded(pages[0]);
      assert forall page | page in pages[1..] :: page in pages;
      EstablishedConditionNeverLost(Merge(stored, pages[0]), pages[1..], k);
    }
  }

  /** A sold page tells nothing about the vehicle: no material change, same fingerprint. */
  lemma SoldPageKeepsListing(previous: Details, current: Details)
    requires Truthy(Get(current, SoldFlag)) && previous != map[]
    requires Get(current, CanonicalCarId) == Get(previous, CanonicalCarId)
    ensures MaterialChanges(previous, Merge(previous, current)) == []
    ensures Fingerprint(Merge(previous, current)) == Fingerprint(previous)
    ensures AuthoritativePrice(Merge(previous, current)) == AuthoritativePrice(previous)
  {
    SoldSameVehicle(previous, current);
    var merged := Merge(previous, current);
    hide Merge, SameVehicle, MaterialChanges, Fingerprint;
    SameVehicleListing(previous, merged);
    SameVehicleFingerprint(previous, merged);
    SameVehiclePrice(previous, merged);
  }

  lemma SoldSameVehicle(previous: Details, current: Details)
    requires Get(current, CanonicalCarId) == Get(previous, CanonicalCarId)
    ensures SameVehicle(previous, MergeSold(previous, current))
    ensures Get(MergeSold(previous, current), CanonicalCarId) == Get(previous, CanonicalCarId)
  {
    forall f | !SoldPageField(f) && f != FingerprintField
      ensures Get(previous, f) == Get(MergeSold(previous, current), f)
    {
      SoldAt(previous, current, f);
    }
    SoldCanonicalAt(previous, current);
    hide MergeSold;
  }

  lemma SameVehiclePrice(a: Details, b: Details)
    requires SameVehicle(a, b)
    ensures AuthoritativePrice(a) == AuthoritativePrice(b) && Offer(a) == Offer(b)
  {
  }

  ghost predicate SameVehicle(a: Details, b: Details) {
    forall f | !SoldPageField(f) && f != FingerprintField :: Get(a, f) == Get(b, f)
  }

  lemma SameVehicleFields(a: Details, b: Details)
    requires SameVehicle(a, b)
    ensures forall f | Tracked(f) :: !FieldChanged(a, b, f)
  {
  }

  lemma SameVehicleListing(a: Details, b: Details)
    requires SameVehicle(a, b)
    ensures MaterialChanges(a, b) == []
  {
    hide Tracked, FieldChanged, MaterialChanges;
    SameVehicleFields(a, b);
    assert Get(a, Options) == Get(b, Options) && Get(a, Condition) == Get(b, Condition);
    assert Get(a, OfferType) == Get(b, OfferType);
    hide SameVehicle;
    NoMaterialChange(a, b);
  }

  lemma SameVehicleFingerprint(a: Details, b: Details)
    requires SameVehicle(a, b) && Get(a, CanonicalCarId) == Get(b, CanonicalCarId)
    ensures Fingerprint(a) == Fingerprint(b)
  {
    hide Fingerprint;
    SameFingerprint(a, b);
  }

  lemma SoldCanonicalAt(previous: Details, current: Details)
    requires Get(current, CanonicalCarId) == Get(previous, CanonicalCarId)
    ensures Get(MergeSold(previous, current), CanonicalCarId) == Get(previous, CanonicalCarId)
  {
  }
}
