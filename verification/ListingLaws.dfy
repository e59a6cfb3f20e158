/**
 What a list of material changes holds, what a fingerprint covers, and which price a page
 may set, in terms of the two documents (backend/app/parser.py).
 */
module ListingLaws {
  import opened Listing
  import opened Wrappers

  // --- the key lists of the source ------------------------------------------------

  const NEW_SPEC_FIELDS: set<Field> :=
    {FuelNameKo, SeatCount, OptionCodes, BodyType, EngineDisplacementCc, ExteriorColor}

  const FINGERPRINT_KEYS: set<Field> := {
    CanonicalCarId, Title, YearMonth, MileageKm, PriceKrw, Fuel, FuelNameKo, Drivetrain, Transmission,
    EngineDisplacementCc, SeatCount, BodyType, ExteriorColor, Options, OptionCodes, Condition,
    OfferType, RentalMonthlyPaymentKrw, RentalTermMonths, RentalAcquisitionPriceKrw, VehiclePriceKrw,
    LeaseMonthlyPaymentKrw, LeaseTermMonths}

  /** The values that count as nothing said. */
  const NOTHING: set<Json> := {Null, Bool(false), Int(0), Str(Empty), Arr([]), Obj(map[])}

  lemma KeyLists(f: Field)
    ensures NewSpec(f) <==> f in NEW_SPEC_FIELDS
    ensures Fingerprinted(f) <==> f in FINGERPRINT_KEYS
  {
  }

  /** A listing whose offer type says nothing is for sale; any other offer type stands as it is. */
  lemma SayingNothingIsASale(d: Details)
    ensures Offer(d) == if OfferType in d && d[OfferType] !in NOTHING then d[OfferType] else Str(Sale)
  {
  }

  // --- material changes -----------------------------------------------------------

  /** The value of a compared field, the offer type spelled out. */
  function ComparedValue(d: Details, f: Field): Json {
    if f == OfferType then Offer(d) else Get(d, f)
  }

  /** Another value, unless the field is a specification that was not read before. */
  predicate Differs(before: Details, after: Details, f: Field) {
    f in TRACKED && ComparedValue(before, f) != ComparedValue(after, f) && !(f in NEW_SPEC_FIELDS && ComparedValue(before, f) == Null)
  }

  /** Condition entries are compared by status and value; the evidence quoted for them does not count. */
  predicate SameEntry(a: Json, b: Json) {
    if a.Obj? && b.Obj?
    then (forall k | k in {Status, Value} :: (k in a.fields <==> k in b.fields) && Get(a.fields, k) == Get(b.fields, k))
    else a == b
  }

  /** The change says what the two documents say. */
  ghost predicate TrueChange(before: Details, after: Details, c: Change) {
    match c
    case FieldChange(f, was, is_) => Differs(before, after, f) && was == ComparedValue(before, f) && is_ == ComparedValue(after, f)
    case OptionsChange(names) =>
      && names != {}
      && forall k :: k in names <==> Get(Entries(Get(before, Options)), k) != Get(Entries(Get(after, Options)), k)
    case ConditionChange(names) =>
      && names != {}
      && forall k :: k in names <==>
           !SameEntry(Get(Entries(Get(before, Condition)), k), Get(Entries(Get(after, Condition)), k))
  }

  lemma {:induction false} FieldChangesAre(before: Details, after: Details, fields: seq<Field>, c: Change)
    ensures c in FieldChanges(before, after, fields)
      <==> c.FieldChange? && c.field in fields && FieldChanged(before, after, c.field)
           && c.before == Get(before, c.field) && c.after == Get(after, c.field)
  {
    hide FieldChanged, Get;
    if fields != [] {
      FieldChangesAre(before, after, fields[1..], c);
      assert fields == [fields[0]] + fields[1..];
    }
  }

  lemma NormalizedAt(d: Details, f: Field)
    ensures Get(Normalized(d), f) == ComparedValue(d, f)
  {
    hide Offer;
  }

  lemma TrackedChangesAre(before: Details, after: Details, c: Change)
    ensures c in FieldChanges(Normalized(before), Normalized(after), TRACKED)
      <==> c.FieldChange? && TrueChange(before, after, c)
  {
    FieldChangesAre(Normalized(before), Normalized(after), TRACKED, c);
    if c.FieldChange? {
      NormalizedAt(before, c.field);
      NormalizedAt(after, c.field);
      KeyLists(c.field);
    }
    hide FieldChanges, Normalized, ComparedValue, TRACKED, NEW_SPEC_FIELDS, NewSpec;
  }

  lemma EntriesCompare(a: Json, b: Json)
    ensures ConditionValue(a) == ConditionValue(b) <==> SameEntry(a, b)
  {
    if a.Obj? && b.Obj? {
      var x, y := ConditionValue(a).fields, ConditionValue(b).fields;
      forall k | k in {Status, Value}
        ensures (k in x <==> k in a.fields) && Get(x, k) == Get(a.fields, k)
        ensures (k in y <==> k in b.fields) && Get(y, k) == Get(b.fields, k)
      {
      }
      if SameEntry(a, b) {
        assert x == y;
      }
    }
  }

  lemma OptionsChangeIs(before: Details, after: Details, names: set<Field>)
    ensures TrueChange(before, after, OptionsChange(names)) <==> names == ChangedOptions(before, after) && names != {}
  {
    hide Entries;
    forall k
      ensures k in ChangedOptions(before, after)
        <==> Get(Entries(Get(before, Options)), k) != Get(Entries(Get(after, Options)), k)
    {
    }
  }

  lemma ConditionChangeIs(before: Details, after: Details, names: set<Field>)
    ensures TrueChange(before, after, ConditionChange(names)) <==> names == ChangedCondition(before, after) && names != {}
  {
    hide Entries, ConditionValue, SameEntry;
    forall k
      ensures k in ChangedCondition(before, after)
        <==> !SameEntry(Get(Entries(Get(before, Condition)), k), Get(Entries(Get(after, Condition)), k))
    {
      EntriesCompare(Get(Entries(Get(before, Condition)), k), Get(Entries(Get(after, Condition)), k));
    }
  }

  /**
   A list of material changes holds nothing but true changes, each value as the documents
   give it, and unless it is full with twelve it holds all of them.
   */
  lemma ChangesAreTrueAndComplete(before: Details, after: Details, c: Change)
    ensures c in MaterialChanges(before, after) ==> TrueChange(before, after, c)
    ensures TrueChange(before, after, c) ==> c in MaterialChanges(before, after) || |MaterialChanges(before, after)| == 12
  {
    TrackedChangesAre(before, after, c);
    if c.OptionsChange? {
      OptionsChangeIs(before, after, c.names);
    }
    if c.ConditionChange? {
      ConditionChangeIs(before, after, c.names);
    }
    hide TrueChange, FieldChanges, Normalized, ChangedOptions, ChangedCondition;
  }

  // --- fingerprints ---------------------------------------------------------------

  /** The documents agree on everything that is hashed. */
  ghost predicate SamePrint(a: Details, b: Details) {
    && Offer(a) == Offer(b)
    && (forall f | f in FINGERPRINT_KEYS && f != OfferType && f != Condition :: Get(a, f) == Get(b, f))
    && (forall k :: k in Entries(Get(a, Condition)) <==> k in Entries(Get(b, Condition)))
    && (forall k :: SameEntry(Get(Entries(Get(a, Condition)), k), Get(Entries(Get(b, Condition)), k)))
  }

  /** The document that a fingerprint is taken of. */
  lemma PrintAt(d: Details, f: Field)
    requires f != OfferType && f != Condition
    ensures Get(Fingerprint(d).of, f) == if f in FINGERPRINT_KEYS then Get(d, f) else Null
    ensures f in Fingerprint(d).of ==> Get(Fingerprint(d).of, f) != Null
  {
    KeyLists(f);
    hide Offer, ConditionSignature, Fingerprinted, FINGERPRINT_KEYS;
  }

  lemma PrintSpecials(d: Details)
    ensures OfferType in Fingerprint(d).of && Get(Fingerprint(d).of, OfferType) == Offer(d)
    ensures Condition in Fingerprint(d).of && Get(Fingerprint(d).of, Condition) == ConditionSignature(Get(d, Condition))
  {
    hide Offer, ConditionSignature, Fingerprinted;
  }

  lemma SignatureAt(v: Json, k: Field)
    ensures k in ConditionSignature(v).fields <==> k in Entries(v)
    ensures k in Entries(v) ==> ConditionSignature(v).fields[k] == ConditionValue(Get(Entries(v), k))
  {
    hide ConditionValue, Entries;
  }

  lemma SignaturesCompare(v: Json, w: Json)
    ensures ConditionSignature(v) == ConditionSignature(w)
      <==> (forall k :: k in Entries(v) <==> k in Entries(w))
           && forall k :: SameEntry(Get(Entries(v), k), Get(Entries(w), k))
  {
    var x, y := ConditionSignature(v), ConditionSignature(w);
    assert x.Obj? && y.Obj?;
    hide ConditionSignature, ConditionValue, SameEntry, Entries;
    forall k
      ensures (k in x.fields <==> k in Entries(v)) && (k in y.fields <==> k in Entries(w))
      ensures k in Entries(v) && k in Entries(w) ==>
        (x.fields[k] == y.fields[k] <==> SameEntry(Get(Entries(v), k), Get(Entries(w), k)))
      ensures k !in Entries(v) && k !in Entries(w) ==> SameEntry(Get(Entries(v), k), Get(Entries(w), k))
    {
      SignatureAt(v, k);
      SignatureAt(w, k);
      EntriesCompare(Get(Entries(v), k), Get(Entries(w), k));
    }
    if (forall k :: k in Entries(v) <==> k in Entries(w)) && forall k :: SameEntry(Get(Entries(v), k), Get(Entries(w), k)) {
      assert x.fields == y.fields;
    }
  }

  /**
   Two documents have the same fingerprint exactly when they agree on the hashed fields,
   an offer type that is not said being a sale, and on status and value of each condition.
   */
  lemma FingerprintsAgreeExactly(a: Details, b: Details)
    ensures Fingerprint(a) == Fingerprint(b) <==> SamePrint(a, b)
  {
    hide Fingerprint, Offer, ConditionSignature, SameEntry, Entries, Get, FINGERPRINT_KEYS;
    PrintSpecials(a);
    PrintSpecials(b);
    SignaturesCompare(Get(a, Condition), Get(b, Condition));
    DigestsAgree(a, b);
    var x, y := Fingerprint(a).of, Fingerprint(b).of;
    forall f | f != OfferType && f != Condition
      ensures ((f in x <==> f in y) && Get(x, f) == Get(y, f)) <==> (f in FINGERPRINT_KEYS ==> Get(a, f) == Get(b, f))
    {
      FieldsAgree(a, b, f);
    }
    ByField(x, y, a, b);
  }

  lemma FieldsAgree(a: Details, b: Details, f: Field)
    requires f != OfferType && f != Condition
    ensures var x, y := Fingerprint(a).of, Fingerprint(b).of;
            ((f in x <==> f in y) && Get(x, f) == Get(y, f)) <==> (f in FINGERPRINT_KEYS ==> Get(a, f) == Get(b, f))
  {
    PrintAt(a, f);
    PrintAt(b, f);
    hide Fingerprint, FINGERPRINT_KEYS;
  }

  lemma ByField(x: Details, y: Details, a: Details, b: Details)
    requires OfferType in x && OfferType in y && Condition in x && Condition in y
    requires forall f | f != OfferType && f != Condition ::
      ((f in x <==> f in y) && Get(x, f) == Get(y, f)) <==> (f in FINGERPRINT_KEYS ==> Get(a, f) == Get(b, f))
    ensures (forall f :: (f in x <==> f in y) && Get(x, f) == Get(y, f))
      <==> Get(x, OfferType) == Get(y, OfferType) && Get(x, Condition) == Get(y, Condition)
           && forall f | f in FINGERPRINT_KEYS && f != OfferType && f != Condition :: Get(a, f) == Get(b, f)
  {
    hide FINGERPRINT_KEYS, Get;
  }

  lemma DigestsAgree(a: Details, b: Details)
    ensures Fingerprint(a).Digest? && Fingerprint(b).Digest?
    ensures var x, y := Fingerprint(a).of, Fingerprint(b).of;
            Fingerprint(a) == Fingerprint(b) <==> forall f :: (f in x <==> f in y) && Get(x, f) == Get(y, f)
  {
    var x, y := Fingerprint(a), Fingerprint(b);
    assert x.Digest? && y.Digest?;
    hide Fingerprint;
    if forall f :: (f in x.of <==> f in y.of) && Get(x.of, f) == Get(y.of, f) {
      forall f | f in x.of ensures f in y.of && x.of[f] == y.of[f] {
        assert Get(x.of, f) == Get(y.of, f);
      }
      assert x.of == y.of;
    }
  }

  // --- prices ---------------------------------------------------------------------

  /** A document sets a price exactly when it read a number at one of the three price anchors of the listing itself. */
  lemma PriceIsRead(d: Details, price: int)
    ensures AuthoritativePrice(d) == Some(price)
      <==> PriceKrw in d && d[PriceKrw] == Int(price) && PriceSource in d
           && d[PriceSource] in {Str(DetailPrimary), Str(DetailRentalMonthly), Str(DetailLeaseMonthly)}
  {
  }

  /** Accident texts are compared by status, summary and their condition entries. */
  lemma AccidentsCompare(a: Json, b: Json)
    ensures AccidentSignature(a) == AccidentSignature(b)
      <==> && Get(Entries(a), Status) == Get(Entries(b), Status)
           && Get(Entries(a), Summary) == Get(Entries(b), Summary)
           && var x, y := Entries(Get(Entries(a), Condition)), Entries(Get(Entries(b), Condition));
              && (forall k :: k in x <==> k in y) && forall k :: SameEntry(Get(x, k), Get(y, k))
  {
    SignaturesCompare(Get(Entries(a), Condition), Get(Entries(b), Condition));
    hide ConditionSignature, SameEntry;
  }
}
