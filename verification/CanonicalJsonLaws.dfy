/**
 What the canonical text depends on: the dictionaries it was printed from and nothing
 else; and when the two printers of the system agree.
 */
module CanonicalJsonLaws {
  import opened CanonicalJson
  import opened CanonicalJsonReading
  import opened Decimals
  import opened TextOrder
  import opened Wrappers

  // --- sorted fields --------------------------------------------------------------

  /** Every key of `f` comes after `k`. */
  ghost predicate AllAfter(o: Order, k: string, f: Fields) {
    forall l | Has(f, l) :: Before(o, k, l)
  }

  ghost predicate Sorted(o: Order, f: Fields) {
    match f
    case NoFields => true
    case AndField(key, _, rest) => AllAfter(o, key, rest) && Sorted(o, rest)
  }

  lemma {:induction false} InsertFinds(o: Order, key: string, value: Doc, f: Fields, k: string)
    requires !Has(f, key)
    ensures Find(Insert(o, key, value, f), k) == if k == key then Some(value) else Find(f, k)
  {
    hide Before;
    if f.AndField? {
      assert f.key != key;
      InsertFinds(o, key, value, f.rest, k);
    }
  }

  lemma {:induction false} InsertSorts(o: Order, key: string, value: Doc, f: Fields)
    requires !Has(f, key) && Sorted(o, f)
    ensures Sorted(o, Insert(o, key, value, f))
  {
    hide Before;
    match f {
      case NoFields =>
      case AndField(k, v, rest) =>
        BeforeIsTotal(o, k, key);
        assert k != key;
        if Before(o, k, key) {
          InsertSorts(o, key, value, rest);
          forall l | Has(Insert(o, key, value, rest), l) ensures Before(o, k, l) {
            InsertFinds(o, key, value, rest, l);
          }
        } else {
          forall l | Has(f, l) ensures Before(o, key, l) {
            if l != k {
              assert Has(rest, l);
              BeforeIsTransitive(o, key, k, l);
            }
          }
        }
    }
  }

  /** The keys of this object are distinct. */
  predicate Distinct(f: Fields) {
    match f
    case NoFields => true
    case AndField(key, _, rest) => !Has(rest, key) && Distinct(rest)
  }

  lemma {:induction false} SortSorts(o: Order, f: Fields)
    requires Distinct(f)
    ensures Sorted(o, Sort(o, f))
    ensures forall k :: Find(Sort(o, f), k) == Find(f, k)
  {
    hide Insert;
    if f.AndField? {
      SortSorts(o, f.rest);
      assert Find(Sort(o, f.rest), f.key) == Find(f.rest, f.key);
      InsertSorts(o, f.key, f.value, Sort(o, f.rest));
      forall k ensures Find(Sort(o, f), k) == Find(f, k) {
        InsertFinds(o, f.key, f.value, Sort(o, f.rest), k);
      }
    }
  }

  /** Sorted fields are determined by what they map keys to. */
  lemma {:induction false} SortedAreEqual(o: Order, f: Fields, g: Fields)
    requires Sorted(o, f) && Sorted(o, g)
    requires forall k :: Find(f, k) == Find(g, k)
    ensures f == g
  {
    hide Before;
    assert f.AndField? ==> Has(f, f.key) && Has(g, f.key);
    assert g.AndField? ==> Has(g, g.key) && Has(f, g.key);
    if f.AndField? && g.AndField? {
      if f.key != g.key {
        assert Has(g.rest, f.key) && Has(f.rest, g.key);
        BeforeIsTotal(o, f.key, g.key);
        assert false;
      }
      assert Find(f, f.key) == Find(g, f.key);
      forall k ensures Find(f.rest, k) == Find(g.rest, k) {
        if k == f.key {
          BeforeIsTotal(o, k, k);
          assert !Has(f.rest, k) && !Has(g.rest, k);
        } else {
          assert Find(f, k) == Find(g, k);
        }
      }
      SortedAreEqual(o, f.rest, g.rest);
    }
  }

  // --- equal dictionaries ---------------------------------------------------------

  lemma {:induction false} FoundIsSmaller(f: Fields, k: string)
    requires Has(f, k)
    ensures Size(Find(f, k).value) < FieldsSize(f)
    ensures ProperFields(f) ==> Proper(Find(f, k).value)
  {
    if f.key != k {
      FoundIsSmaller(f.rest, k);
    }
  }

  function At(f: Fields, k: string): (v: Doc)
    requires Has(f, k)
    ensures Size(v) < FieldsSize(f)
  {
    FoundIsSmaller(f, k);
    Find(f, k).value
  }

  /** Equality of values, with objects compared as dictionaries at every level. */
  ghost predicate Same(v: Doc, w: Doc)
    decreases Size(v), 0
  {
    match v
    case Arr(items) => w.Arr? && SameDocs(items, w.items)
    case Obj(f) =>
      w.Obj?
      && (forall k :: Has(f, k) <==> Has(w.fields, k))
      && (forall k | Has(f, k) && Has(w.fields, k) :: Same(At(f, k), At(w.fields, k)))
    case _ => v == w
  }

  ghost predicate SameDocs(a: Docs, b: Docs)
    decreases DocsSize(a), 1
  {
    match a
    case NoDocs => b.NoDocs?
    case AndDoc(head, tail) => b.AndDoc? && Same(head, b.head) && SameDocs(tail, b.tail)
  }

  lemma {:induction false} FindNormal(o: Order, f: Fields, k: string)
    ensures Find(NormalFields(o, f), k) == if Has(f, k) then Some(Normal(o, At(f, k))) else None
  {
    hide Normal;
    if f.AndField? {
      FindNormal(o, f.rest, k);
    }
  }

  lemma {:induction false} NormalIsDistinct(o: Order, f: Fields)
    requires ProperFields(f)
    ensures Distinct(NormalFields(o, f))
  {
    hide Normal;
    if f.AndField? {
      NormalIsDistinct(o, f.rest);
      FindNormal(o, f.rest, f.key);
    }
  }

  /** What the sorted, normalised fields of an object map a key to. */
  lemma NormalObject(o: Order, f: Fields, k: string)
    requires ProperFields(f)
    ensures var g := Normal(o, Obj(f)).fields;
            Sorted(o, g) && Find(g, k) == if Has(f, k) then Some(Normal(o, At(f, k))) else None
  {
    NormalIsDistinct(o, f);
    SortSorts(o, NormalFields(o, f));
    FindNormal(o, f, k);
  }

  lemma {:induction false} SameMeansNormal(o: Order, v: Doc, w: Doc)
    requires Proper(v) && Proper(w)
    ensures Same(v, w) <==> Normal(o, v) == Normal(o, w)
    decreases Size(v), 0
  {
    hide Sort, Proper;
    match v {
      case Arr(items) =>
        if w.Arr? {
          assert ProperDocs(items) && ProperDocs(w.items) by {
            ProperMeans(v);
            ProperMeans(w);
          }
          SameDocsMeansNormal(o, items, w.items);
        }
      case Obj(f) =>
        if w.Obj? {
          assert ProperFields(f) && ProperFields(w.fields) by {
            ProperMeans(v);
            ProperMeans(w);
          }
          SameObjects(o, f, w.fields);
        }
      case _ =>
    }
  }

  lemma ProperMeans(v: Doc)
    requires Proper(v)
    ensures v.Arr? ==> ProperDocs(v.items)
    ensures v.Obj? ==> ProperFields(v.fields)
  {
  }

  lemma {:induction false} SameObjects(o: Order, f: Fields, g: Fields)
    requires ProperFields(f) && ProperFields(g)
    ensures Same(Obj(f), Obj(g)) <==> Normal(o, Obj(f)) == Normal(o, Obj(g))
    decreases FieldsSize(f), 1
  {
    hide Normal, Find, Proper, FieldsSize, ProperFields;
    var a, b := Normal(o, Obj(f)), Normal(o, Obj(g));
    assert a.Obj? && b.Obj? by {
      NormalIsObject(o, f);
      NormalIsObject(o, g);
    }
    forall k
      ensures Find(a.fields, k) == Find(b.fields, k)
        <==> ((Has(f, k) <==> Has(g, k)) && (Has(f, k) && Has(g, k) ==> Same(At(f, k), At(g, k))))
    {
      NormalObject(o, f, k);
      NormalObject(o, g, k);
      if Has(f, k) && Has(g, k) {
        FoundIsSmaller(f, k);
        FoundIsSmaller(g, k);
        SameMeansNormal(o, At(f, k), At(g, k));
      }
    }
    NormalObject(o, f, "");
    NormalObject(o, g, "");
    if forall k :: Find(a.fields, k) == Find(b.fields, k) {
      SortedAreEqual(o, a.fields, b.fields);
    }
    SameUnfolds(f, g);
    hide Same;
  }

  lemma NormalIsObject(o: Order, f: Fields)
    ensures Normal(o, Obj(f)).Obj?
  {
  }

  lemma SameUnfolds(f: Fields, g: Fields)
    ensures Same(Obj(f), Obj(g))
      <==> forall k :: (Has(f, k) <==> Has(g, k)) && (Has(f, k) && Has(g, k) ==> Same(At(f, k), At(g, k)))
  {
  }

  lemma {:induction false} SameDocsMeansNormal(o: Order, a: Docs, b: Docs)
    requires ProperDocs(a) && ProperDocs(b)
    ensures SameDocs(a, b) <==> NormalDocs(o, a) == NormalDocs(o, b)
    decreases DocsSize(a), 1
  {
    hide Same, Normal, Proper;
    if a.AndDoc? && b.AndDoc? {
      SameMeansNormal(o, a.head, b.head);
      SameDocsMeansNormal(o, a.tail, b.tail);
    }
  }

  /**
   Two values have the same canonical text exactly when they are equal with objects
   compared as dictionaries. So the text does not depend on insertion order, and a
   signature over it covers every key, item and value.
   */
  lemma TextIdentifiesValue(o: Order, v: Doc, w: Doc)
    requires Proper(v) && Proper(w)
    ensures Canonical(o, v) == Canonical(o, w) <==> Same(v, w)
  {
    hide Canonical, Same, Normal;
    CanonicalIsInjective(o, o, v, w);
    SameMeansNormal(o, v, w);
  }

  // --- when the two printers agree ------------------------------------------------

  /** The two orders rank these keys alike. */
  predicate Alike(a: string, b: string) {
    Before(CodePoints, a, b) <==> Before(Utf16, a, b)
  }

  /** The keys part where one goes on with U+E000 to U+FFFF and the other above U+FFFF. */
  predicate Crosses(a: string, b: string) {
    a != [] && b != [] &&
    if a[0] == b[0] then Crosses(a[1..], b[1..])
    else
      var c, d := a[0] as int, b[0] as int;
      (0xE000 <= c < 0x1_0000 && d >= 0x1_0000) || (0xE000 <= d < 0x1_0000 && c >= 0x1_0000)
  }

  lemma {:induction false} LessAfterPrefix(p: seq<int>, a: seq<int>, b: seq<int>)
    ensures Less(p + a, p + b) <==> Less(a, b)
  {
    if p == [] {
      assert p + a == a && p + b == b;
    } else {
      assert (p + a)[1..] == p[1..] + a && (p + b)[1..] == p[1..] + b;
      LessAfterPrefix(p[1..], a, b);
    }
  }

  /** Where two strings part, their first differing characters decide. */
  lemma LessAtDifference(o: Order, c: char, d: char, s: seq<int>, t: seq<int>)
    requires c != d
    ensures Less(Units(o, c) + s, Units(o, d) + t)
      <==> Units(o, c)[0] < Units(o, d)[0]
           || (Units(o, c)[0] == Units(o, d)[0] && Units(o, c)[1..] != [] && Units(o, d)[1..] != []
               && Units(o, c)[1] < Units(o, d)[1])
  {
    var u, v := Units(o, c) + s, Units(o, d) + t;
    if |Units(o, c)| == 2 && |Units(o, d)| == 2 && u[0] == v[0] {
      assert u[1..][0] == Units(o, c)[1] && v[1..][0] == Units(o, d)[1];
      if u[1] == v[1] {
        SplitIsInjective(c as int - 0x1_0000, d as int - 0x1_0000);
        assert false;
      }
    }
  }

  lemma DifferenceDecides(c: char, d: char, s: seq<int>, t: seq<int>, x: seq<int>, y: seq<int>)
    requires c != d
    ensures (Less(Units(CodePoints, c) + s, Units(CodePoints, d) + t)
             <==> Less(Units(Utf16, c) + x, Units(Utf16, d) + y))
      <==> !Crosses([c], [d])
  {
    LessAtDifference(CodePoints, c, d, s, t);
    LessAtDifference(Utf16, c, d, x, y);
    hide Less;
    var a, b := c as int - 0x1_0000, d as int - 0x1_0000;
    if a >= 0 && b >= 0 {
      assert a == 0x400 * (a / 0x400) + a % 0x400 && b == 0x400 * (b / 0x400) + b % 0x400;
    }
  }

  /** Two keys are ranked alike exactly when they do not part across that border. */
  lemma {:induction false} AlikeUnlessCrossing(a: string, b: string)
    ensures Alike(a, b) <==> !Crosses(a, b)
  {
    if a != [] && b != [] {
      if a[0] == b[0] {
        AlikeUnlessCrossing(a[1..], b[1..]);
        hide Units;
        LessAfterPrefix(Units(CodePoints, a[0]), AllUnits(CodePoints, a[1..]), AllUnits(CodePoints, b[1..]));
        LessAfterPrefix(Units(Utf16, a[0]), AllUnits(Utf16, a[1..]), AllUnits(Utf16, b[1..]));
        hide Less;
      } else {
        DifferenceDecides(a[0], b[0], AllUnits(CodePoints, a[1..]), AllUnits(CodePoints, b[1..]),
                          AllUnits(Utf16, a[1..]), AllUnits(Utf16, b[1..]));
        hide Less, Units;
        assert Crosses(a, b) <==> Crosses([a[0]], [b[0]]);
      }
    } else {
      assert a != [] ==> AllUnits(CodePoints, a) != [] && AllUnits(Utf16, a) != [];
      assert b != [] ==> AllUnits(CodePoints, b) != [] && AllUnits(Utf16, b) != [];
    }
  }

  ghost predicate KeysAlike(f: Fields) {
    forall k, l | Has(f, k) && Has(f, l) :: Alike(k, l)
  }

  /** In every object of the value, any two keys are ranked alike by both orders. */
  ghost predicate Portable(v: Doc) {
    match v
    case Arr(items) => PortableDocs(items)
    case Obj(f) => KeysAlike(f) && PortableFields(f)
    case _ => true
  }

  ghost predicate PortableDocs(items: Docs) {
    match items
    case NoDocs => true
    case AndDoc(head, tail) => Portable(head) && PortableDocs(tail)
  }

  ghost predicate PortableFields(f: Fields) {
    match f
    case NoFields => true
    case AndField(_, value, rest) => Portable(value) && PortableFields(rest)
  }

  lemma {:induction false} SortedAlike(f: Fields)
    requires Sorted(CodePoints, f) && KeysAlike(f)
    ensures Sorted(Utf16, f)
  {
    hide Before;
    if f.AndField? {
      assert forall k | Has(f.rest, k) :: Has(f, k);
      SortedAlike(f.rest);
      assert Has(f, f.key);
      forall l | Has(f.rest, l) ensures Before(Utf16, f.key, l) {
        assert Has(f, l) && Alike(f.key, l);
      }
    }
  }

  lemma {:induction false} BothSorted(f: Fields, k: string, l: string)
    requires Sorted(CodePoints, f) && Sorted(Utf16, f) && Has(f, k) && Has(f, l)
    ensures Alike(k, l)
  {
    hide Before;
    if k == f.key && l == f.key {
      BeforeIsTotal(CodePoints, k, l);
      BeforeIsTotal(Utf16, k, l);
    } else if k == f.key {
      assert Has(f.rest, l);
    } else if l == f.key {
      assert Has(f.rest, k);
      BeforeIsTotal(CodePoints, k, l);
      BeforeIsTotal(Utf16, k, l);
    } else {
      BothSorted(f.rest, k, l);
    }
  }

  lemma {:induction false} NormalAgrees(v: Doc)
    requires Proper(v)
    ensures Normal(CodePoints, v) == Normal(Utf16, v) <==> Portable(v)
    decreases v
  {
    hide Sort, Alike;
    match v {
      case Arr(items) => NormalDocsAgree(items);
      case Obj(f) => NormalObjectAgrees(f);
      case _ =>
    }
  }

  lemma {:induction false} NormalDocsAgree(items: Docs)
    requires ProperDocs(items)
    ensures NormalDocs(CodePoints, items) == NormalDocs(Utf16, items) <==> PortableDocs(items)
    decreases items
  {
    hide Normal, Portable, Proper;
    if items.AndDoc? {
      NormalAgrees(items.head);
      NormalDocsAgree(items.tail);
    }
  }

  lemma {:induction false} NormalFieldsAgree(f: Fields)
    requires ProperFields(f)
    ensures NormalFields(CodePoints, f) == NormalFields(Utf16, f) <==> PortableFields(f)
    decreases f, 0
  {
    hide Normal, Portable, Proper, Find;
    if f.AndField? {
      NormalAgrees(f.value);
      NormalFieldsAgree(f.rest);
    }
  }

  /** Fields with the same keys in the same places. */
  lemma {:induction false} NormalFieldsByKey(f: Fields)
    requires ProperFields(f)
    requires forall k | Has(f, k) :: Normal(CodePoints, At(f, k)) == Normal(Utf16, At(f, k))
    ensures NormalFields(CodePoints, f) == NormalFields(Utf16, f)
  {
    hide Normal, Proper;
    if f.AndField? {
      assert Has(f, f.key) && At(f, f.key) == f.value;
      forall k | Has(f.rest, k) ensures Normal(CodePoints, At(f.rest, k)) == Normal(Utf16, At(f.rest, k)) {
        assert k != f.key;
        assert Has(f, k) && At(f, k) == At(f.rest, k);
      }
      NormalFieldsByKey(f.rest);
    }
  }

  lemma {:induction false} NormalObjectAgrees(f: Fields)
    requires ProperFields(f)
    ensures Normal(CodePoints, Obj(f)) == Normal(Utf16, Obj(f)) <==> KeysAlike(f) && PortableFields(f)
    decreases f, 1
  {
    NormalFieldsAgree(f);
    NormalObject(CodePoints, f, "");
    NormalObject(Utf16, f, "");
    NormalIsObject(CodePoints, f);
    NormalIsObject(Utf16, f);
    hide Normal, Alike, Sort, Find, Portable, ProperFields, PortableFields;
    var a, b := Normal(CodePoints, Obj(f)), Normal(Utf16, Obj(f));
    if a == b {
      forall k, l | Has(f, k) && Has(f, l) ensures Alike(k, l) {
        NormalObject(CodePoints, f, k);
        NormalObject(CodePoints, f, l);
        BothSorted(a.fields, k, l);
      }
      forall k | Has(f, k) ensures Normal(CodePoints, At(f, k)) == Normal(Utf16, At(f, k)) {
        NormalObject(CodePoints, f, k);
        NormalObject(Utf16, f, k);
      }
      NormalFieldsByKey(f);
    }
    if KeysAlike(f) && PortableFields(f) {
      forall k, l | Has(a.fields, k) && Has(a.fields, l) ensures Alike(k, l) {
        NormalObject(CodePoints, f, k);
        NormalObject(CodePoints, f, l);
      }
      SortedAlike(a.fields);
      forall k ensures Find(a.fields, k) == Find(b.fields, k) {
        NormalObject(CodePoints, f, k);
        NormalObject(Utf16, f, k);
        if Has(f, k) {
          SameValueAt(f, k);
        }
      }
      SortedAreEqual(Utf16, a.fields, b.fields);
    }
  }

  lemma SameValueAt(f: Fields, k: string)
    requires Has(f, k) && NormalFields(CodePoints, f) == NormalFields(Utf16, f)
    ensures Normal(CodePoints, At(f, k)) == Normal(Utf16, At(f, k))
  {
    hide Normal;
    FindNormal(CodePoints, f, k);
    FindNormal(Utf16, f, k);
  }

  /**
   The desktop application and the licence service print the same text for a value
   exactly when, in each of its objects, both orders rank any two keys alike.
   */
  lemma PrintersAgreeExactlyWhenPortable(v: Doc)
    requires Proper(v)
    ensures Canonical(CodePoints, v) == Canonical(Utf16, v) <==> Portable(v)
  {
    hide Canonical, Normal, Portable;
    CanonicalIsInjective(CodePoints, Utf16, v, v);
    NormalAgrees(v);
  }

  /** All characters are below the supplementary planes; ASCII text in particular. */
  predicate Basic(s: string) {
    forall i | 0 <= i < |s| :: s[i] as int < 0x1_0000
  }

  lemma {:induction false} BasicUnits(s: string)
    requires Basic(s)
    ensures AllUnits(CodePoints, s) == AllUnits(Utf16, s)
  {
    if s != [] {
      assert forall i | 0 <= i < |s[1..]| :: s[1..][i] == s[i + 1];
      BasicUnits(s[1..]);
    }
  }

  predicate BasicKeys(v: Doc) {
    match v
    case Arr(items) => BasicKeysInDocs(items)
    case Obj(f) => BasicKeysInFields(f)
    case _ => true
  }

  predicate BasicKeysInDocs(items: Docs) {
    match items
    case NoDocs => true
    case AndDoc(head, tail) => BasicKeys(head) && BasicKeysInDocs(tail)
  }

  predicate BasicKeysInFields(f: Fields) {
    match f
    case NoFields => true
    case AndField(key, value, rest) => Basic(key) && BasicKeys(value) && BasicKeysInFields(rest)
  }

  lemma {:induction false} KeyIsBasic(f: Fields, k: string)
    requires BasicKeysInFields(f) && Has(f, k)
    ensures Basic(k)
  {
    hide Basic, BasicKeys;
    if f.key != k {
      KeyIsBasic(f.rest, k);
    }
  }

  lemma {:induction false} BasicIsPortable(v: Doc)
    requires BasicKeys(v)
    ensures Portable(v)
  {
    match v {
      case Arr(items) => BasicDocsArePortable(items);
      case Obj(f) =>
        BasicFieldsArePortable(f);
        forall k, l | Has(f, k) && Has(f, l) ensures Alike(k, l) {
          KeyIsBasic(f, k);
          KeyIsBasic(f, l);
          BasicUnits(k);
          BasicUnits(l);
        }
      case _ =>
    }
  }

  lemma {:induction false} BasicDocsArePortable(items: Docs)
    requires BasicKeysInDocs(items)
    ensures PortableDocs(items)
  {
    if items.AndDoc? {
      BasicIsPortable(items.head);
      BasicDocsArePortable(items.tail);
    }
  }

  lemma {:induction false} BasicFieldsArePortable(f: Fields)
    requires BasicKeysInFields(f)
    ensures PortableFields(f)
  {
    if f.AndField? {
      BasicIsPortable(f.value);
      BasicFieldsArePortable(f.rest);
    }
  }

  /** With keys below the supplementary planes, ASCII keys in particular, both print the same text. */
  lemma PrintersAgreeOnBasicKeys(v: Doc)
    requires Proper(v) && BasicKeys(v)
    ensures Canonical(CodePoints, v) == Canonical(Utf16, v)
  {
    hide Canonical, Portable, BasicKeys;
    BasicIsPortable(v);
    PrintersAgreeExactlyWhenPortable(v);
  }

  /** An object with the keys U+FFFD and U+10000 is printed differently. */
  lemma PrintersCanDiffer(v: Doc, w: Doc)
    requires Proper(v) && Proper(w)
    ensures var f := AndField("\U{FFFD}", v, AndField("\U{10000}", w, NoFields));
            Proper(Obj(f)) && Canonical(CodePoints, Obj(f)) != Canonical(Utf16, Obj(f))
  {
    var k, l := "\U{FFFD}", "\U{10000}";
    assert k[0] != l[0];
    assert k != l;
    var g := AndField(l, w, NoFields);
    var f := AndField(k, v, g);
    assert !Has(NoFields, k);
    assert Has(g, l) && !Has(g, k);
    assert Has(f, k) && Has(f, l);
    assert ProperFields(g) && ProperFields(f);
    NotAlike();
    hide Canonical, Alike;
    PrintersAgreeExactlyWhenPortable(Obj(f));
  }

  lemma NotAlike()
    ensures !Alike("\U{FFFD}", "\U{10000}")
  {
    var k, l := "\U{FFFD}", "\U{10000}";
    assert k[1..] == [] && l[1..] == [];
    assert AllUnits(CodePoints, k) == [0xFFFD] && AllUnits(CodePoints, l) == [0x10000];
    assert AllUnits(Utf16, k) == [0xFFFD] && AllUnits(Utf16, l) == [0xD800, 0xDC00];
  }

  // --- the device proof -----------------------------------------------------------

  lemma {:induction false} WithoutFinds(f: Fields, k: string, l: string)
    ensures Find(Without(f, k), l) == if l == k then None else Find(f, l)
  {
    if f.AndField? {
      WithoutFinds(f.rest, k, l);
    }
  }

  lemma {:induction false} WithoutIsProper(f: Fields, k: string)
    requires ProperFields(f)
    ensures ProperFields(Without(f, k))
  {
    hide Proper;
    if f.AndField? {
      WithoutIsProper(f.rest, k);
      WithoutFinds(f.rest, k, f.key);
    }
  }

  /** The two objects agree on the field `k`. */
  ghost predicate AgreeOn(f: Fields, g: Fields, k: string) {
    (Has(f, k) <==> Has(g, k)) && (Has(f, k) && Has(g, k) ==> Same(At(f, k), At(g, k)))
  }

  lemma WithoutAgree(f: Fields, g: Fields, p: string, k: string)
    ensures AgreeOn(Without(f, p), Without(g, p), k) <==> k == p || AgreeOn(f, g, k)
  {
    WithoutFinds(f, p, k);
    WithoutFinds(g, p, k);
    hide Same, Without, Find;
  }

  /**
   A device signs the same text for two requests exactly when the requests agree, as
   dictionaries, on every field but the proof.
   */
  lemma ProofCoversEverythingElse(o: Order, f: Fields, g: Fields)
    requires ProperFields(f) && ProperFields(g)
    ensures DeviceProofPayload(o, f) == DeviceProofPayload(o, g)
      <==> forall k | k != "proof" :: AgreeOn(f, g, k)
  {
    var proof := "proof";
    var a, b := Without(f, proof), Without(g, proof);
    WithoutIsProper(f, proof);
    WithoutIsProper(g, proof);
    ProperObject(a);
    ProperObject(b);
    hide Canonical, ProperFields, Proper, Without, Find, Has, Same, AgreeOn;
    TextIdentifiesValue(o, Obj(a), Obj(b));
    AfterPrefix(DEVICE_PREFIX, Canonical(o, Obj(a)), Canonical(o, Obj(b)));
    SameMeansAgreeing(a, b);
    forall k ensures AgreeOn(a, b, k) <==> k == proof || AgreeOn(f, g, k) {
      WithoutAgree(f, g, proof, k);
    }
  }

  lemma SameMeansAgreeing(f: Fields, g: Fields)
    ensures Same(Obj(f), Obj(g)) <==> forall k :: AgreeOn(f, g, k)
  {
    SameUnfolds(f, g);
    hide Same, Find;
    if forall k :: AgreeOn(f, g, k) {
      forall k
        ensures (Has(f, k) <==> Has(g, k)) && (Has(f, k) && Has(g, k) ==> Same(At(f, k), At(g, k)))
      {
        assert AgreeOn(f, g, k);
      }
    }
  }

  lemma ProperObject(f: Fields)
    requires ProperFields(f)
    ensures Proper(Obj(f))
  {
  }

  lemma AfterPrefix(prefix: string, a: string, b: string)
    ensures prefix + a == prefix + b <==> a == b
  {
    assert (prefix + a)[|prefix|..] == a && (prefix + b)[|prefix|..] == b;
  }

  /** What the system signs: device requests and leases. */
  datatype Signed = Request(fields: Fields) | Lease(payload: Doc)

  predicate ProperMessage(m: Signed) {
    match m
    case Request(fields) => ProperFields(fields)
    case Lease(payload) => Proper(payload)
  }

  function SignedText(o: Order, m: Signed): string {
    match m
    case Request(fields) => DeviceProofPayload(o, fields)
    case Lease(payload) => LeasePayload(o, payload)
  }

  /** The two messages say the same: the same kind, and equal but for key order and a request's proof. */
  ghost predicate SameMessage(m: Signed, n: Signed) {
    match m
    case Request(fields) => n.Request? && forall k | k != "proof" :: AgreeOn(fields, n.fields, k)
    case Lease(payload) => n.Lease? && Same(payload, n.payload)
  }

  lemma PrefixesDiffer(a: string, b: string)
    ensures DEVICE_PREFIX + a != LEASE_PREFIX + b
  {
    assert (DEVICE_PREFIX + a)[10] == 'D' && (LEASE_PREFIX + b)[10] == 'L';
  }

  /**
   A signed text determines its message: which kind it is, and every key and value it
   carries. So no signature made for one message is one for another.
   */
  lemma SignedTextIdentifiesMessage(o: Order, m: Signed, n: Signed)
    requires ProperMessage(m) && ProperMessage(n)
    ensures SignedText(o, m) == SignedText(o, n) <==> SameMessage(m, n)
  {
    hide Canonical, Same, AgreeOn, ProperFields, Proper;
    match m {
      case Request(f) =>
        if n.Request? {
          ProofCoversEverythingElse(o, f, n.fields);
        } else {
          PrefixesDiffer(Canonical(o, Obj(Without(f, "proof"))), Canonical(o, n.payload));
        }
      case Lease(v) =>
        if n.Lease? {
          TextIdentifiesValue(o, v, n.payload);
          AfterPrefix(LEASE_PREFIX, Canonical(o, v), Canonical(o, n.payload));
        } else {
          PrefixesDiffer(Canonical(o, Obj(Without(n.fields, "proof"))), Canonical(o, v));
        }
    }
  }
}
