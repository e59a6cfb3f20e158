/** What a deduplicated report promises. */
module ReportDedupeLaws {
  import opened Decimals
  import opened Grouping
  import opened ReportDedupe
  import opened Sorting
  import opened TextOrder
  import opened Wrappers

  // --- the representative ---------------------------------------------------------

  predicate AnySold(items: seq<Item>) {
    exists j :: 0 <= j < |items| && items[j].change == SoldCar
  }

  /** The item at `i` is the last sold one, or the first of least priority when none is sold. */
  ghost predicate Represents(items: seq<Item>, i: nat, priority: Priority) {
    && i < |items|
    && if AnySold(items)
       then items[i].change == SoldCar && forall j | i < j < |items| :: items[j].change != SoldCar
       else (forall j | 0 <= j < |items| :: priority(items[i]) <= priority(items[j]))
            && (forall j | 0 <= j < i :: priority(items[i]) < priority(items[j]))
  }

  lemma LastTakesOver(items: seq<Item>, i: nat, priority: Priority)
    requires |items| > 1 && Represents(items[..|items| - 1], i, priority)
    requires Supersedes(items[|items| - 1], items[i], priority)
    ensures Represents(items, |items| - 1, priority)
  {
    var front := items[..|items| - 1];
    assert forall j | 0 <= j < |front| :: front[j] == items[j];
    if items[|items| - 1].change != SoldCar {
      assert !AnySold(front);
      assert !AnySold(items);
    }
  }

  lemma LastIsPassedOver(items: seq<Item>, i: nat, priority: Priority)
    requires |items| > 1 && Represents(items[..|items| - 1], i, priority)
    requires !Supersedes(items[|items| - 1], items[i], priority)
    ensures Represents(items, i, priority)
  {
    var front := items[..|items| - 1];
    assert forall j | 0 <= j < |front| :: front[j] == items[j];
    assert AnySold(items) <==> AnySold(front);
  }

  /** A group is represented by its last sold item, or by the first of least priority when none is sold. */
  lemma {:induction false} PreferredRepresents(items: seq<Item>, priority: Priority)
    requires items != []
    ensures exists i: nat :: Represents(items, i, priority) && items[i] == Preferred(items, priority)
  {
    var last := |items| - 1;
    if last == 0 {
      assert Represents(items, 0, priority);
    } else {
      hide Represents, Supersedes;
      PreferredRepresents(items[..last], priority);
      var i: nat :| Represents(items[..last], i, priority) && items[..last][i] == Preferred(items[..last], priority);
      InRange(items[..last], i, priority);
      if Supersedes(items[last], items[i], priority) {
        LastTakesOver(items, i, priority);
      } else {
        LastIsPassedOver(items, i, priority);
      }
    }
  }

  lemma InRange(items: seq<Item>, i: nat, priority: Priority)
    requires Represents(items, i, priority)
    ensures i < |items|
  {
  }

  lemma {:induction false} PreferredIsMember(items: seq<Item>, priority: Priority)
    requires items != []
    ensures Preferred(items, priority) in items
  {
    PreferredRepresents(items, priority);
  }

  // --- one item for each vehicle --------------------------------------------------

  lemma MergedKeepsKey(items: seq<Item>, priority: Priority)
    requires items != []
    ensures ReportKey(Merged(items, priority)) == ReportKey(Preferred(items, priority))
    ensures Merged(items, priority).change == Preferred(items, priority).change
  {
    hide StableSort, Listings, Preferred, Squeezed;
  }

  lemma GroupHasKey(kept: seq<Item>, k: VehicleKey, x: Item)
    requires x in GroupOf(kept, k)
    ensures ReportKey(x) == k && x in kept
  {
    MembersAre(kept, KeysOf(kept), k, x);
    hide Members;
    var i :| 0 <= i < |kept| && kept[i] == x && KeysOf(kept)[i] == k;
  }

  lemma MergedGroupKey(kept: seq<Item>, k: VehicleKey, priority: Priority)
    requires k in KeysOf(kept)
    ensures GroupOf(kept, k) != []
    ensures ReportKey(Merged(GroupOf(kept, k), priority)) == k
    ensures (forall x | x in kept :: x.change != Relisted) ==> Merged(GroupOf(kept, k), priority).change != Relisted
  {
    NoMembers(kept, KeysOf(kept), k);
    hide KeysOf, Merged, Preferred, ReportKey, Members;
    var items := GroupOf(kept, k);
    PreferredIsMember(items, priority);
    GroupHasKey(kept, k, Preferred(items, priority));
    MergedKeepsKey(items, priority);
  }

  lemma {:induction false} MergedGroupsAre(kept: seq<Item>, order: seq<VehicleKey>, priority: Priority)
    requires forall k | k in order :: k in KeysOf(kept)
    ensures var merged := MergedGroups(kept, order, priority);
            && |merged| == |order|
            && forall i | 0 <= i < |order| ::
                 GroupOf(kept, order[i]) != [] && merged[i] == Merged(GroupOf(kept, order[i]), priority)
  {
    hide KeysOf, Merged, GroupOf;
    if order != [] {
      var last := |order| - 1;
      MergedGroupsAre(kept, order[..last], priority);
      MergedGroupKey(kept, order[last], priority);
      assert forall i | 0 <= i < last :: order[..last][i] == order[i];
    }
  }

  lemma {:induction false} KeptIsChanged(report: seq<Item>)
    ensures forall x :: x in Kept(report) <==> x in report && x.change != Relisted
  {
    if report != [] {
      var last := |report| - 1;
      KeptIsChanged(report[..last]);
      assert report == report[..last] + [report[last]];
    }
  }

  /** The unsorted report: one merged item for each key, in the order in which the keys first occur. */
  lemma UnsortedItems(report: seq<Item>, priority: Priority)
    ensures var kept := Kept(report);
            var order := FirstKeys(KeysOf(kept));
            var items := Unsorted(report, priority);
            && |items| == |order| && KeysOf(items) == order && Distinct(order)
            && (forall i | 0 <= i < |items| :: items[i].change != Relisted)
            && (forall i | 0 <= i < |order| ::
                  GroupOf(kept, order[i]) != [] && items[i] == Merged(GroupOf(kept, order[i]), priority))
  {
    var kept := Kept(report);
    var order := FirstKeys(KeysOf(kept));
    var items := Unsorted(report, priority);
    KeptIsChanged(report);
    FirstKeysAreDistinct(KeysOf(kept));
    forall k | k in order ensures k in KeysOf(kept) {
      KeyOccurs(KeysOf(kept), k);
    }
    MergedGroupsAre(kept, order, priority);
    hide Kept, FirstKeys, Merged, GroupOf, MergedGroups;
    forall i | 0 <= i < |order| ensures ReportKey(items[i]) == order[i] && items[i].change != Relisted {
      assert order[i] in order;
      MergedGroupKey(kept, order[i], priority);
    }
    assert KeysOf(items) == order;
  }

  // --- permutations keep keys distinct --------------------------------------------

  lemma KeysAt(items: seq<Item>, i: nat)
    requires i < |items|
    ensures KeysOf(items)[i] == ReportKey(items[i])
  {
  }

  lemma {:induction false} OnlyOnce<T(!new)>(s: seq<T>, x: T)
    requires Distinct(s)
    ensures multiset(s)[x] <= 1
  {
    if s != [] {
      var front, last := s[..|s| - 1], s[|s| - 1];
      OnlyOnce(front, x);
      assert s == front + [last];
      assert forall i | 0 <= i < |front| :: front[i] != last;
      assert last !in multiset(front);
    }
  }

  lemma Twice<T>(s: seq<T>, i: nat, j: nat)
    requires i < j < |s| && s[i] == s[j]
    ensures multiset(s)[s[i]] >= 2
  {
    assert s == s[..j] + [s[j]] + s[j + 1..];
    assert s[..j][i] == s[i];
    assert s[i] in multiset(s[..j]);
  }

  lemma PermutedKeysAreDistinct(a: seq<Item>, b: seq<Item>)
    requires multiset(a) == multiset(b) && Distinct(KeysOf(a))
    ensures Distinct(KeysOf(b))
  {
    hide ReportKey;
    assert Distinct(a) by {
      forall i, j | 0 <= i < j < |a| ensures a[i] != a[j] {
        assert KeysOf(a)[i] != KeysOf(a)[j];
      }
    }
    forall i, j | 0 <= i < j < |b| ensures KeysOf(b)[i] != KeysOf(b)[j] {
      if b[i] == b[j] {
        OnlyOnce(a, b[i]);
        Twice(b, i, j);
        assert false;
      } else {
        assert b[i] in multiset(a) && b[j] in multiset(a);
        var k :| 0 <= k < |a| && a[k] == b[i];
        var l :| 0 <= l < |a| && a[l] == b[j];
        assert k != l;
        assert if k < l then KeysOf(a)[k] != KeysOf(a)[l] else KeysOf(a)[l] != KeysOf(a)[k];
      }
    }
  }

  /**
   A deduplicated report has exactly one item for every vehicle that changed: it is
   represented and merged from all items of the vehicle, and no other item appears.
   */
  lemma OneItemPerVehicle(report: seq<Item>, priority: Priority)
    ensures var kept := Kept(report);
            var out := Dedupe(report, priority);
            && Distinct(KeysOf(out))
            && (forall k :: k in KeysOf(out) <==> k in KeysOf(kept))
            && (forall x | x in out ::
                  && x.change != Relisted && GroupOf(kept, ReportKey(x)) != []
                  && x == Merged(GroupOf(kept, ReportKey(x)), priority))
  {
    var kept := Kept(report);
    var items := Unsorted(report, priority);
    var out := Dedupe(report, priority);
    UnsortedItems(report, priority);
    DedupeIs(report, priority);
    SortKeepsElements(items, ReportOrder(priority));
    hide Unsorted, Dedupe, StableSort, Merged, GroupOf, ReportOrder, ReportKey;
    PermutedKeysAreDistinct(items, out);
    forall x ensures x in out <==> x in items {
      assert x in out <==> x in multiset(out);
      assert x in items <==> x in multiset(items);
    }
    forall k ensures k in KeysOf(out) <==> k in KeysOf(kept) {
      KeyOccurs(KeysOf(kept), k);
      SameKeys(items, out, k);
    }
    forall x | x in out
      ensures x.change != Relisted && GroupOf(kept, ReportKey(x)) != []
              && x == Merged(GroupOf(kept, ReportKey(x)), priority)
    {
      var i :| 0 <= i < |items| && items[i] == x;
      KeysAt(items, i);
    }
  }

  lemma SameKeys(a: seq<Item>, b: seq<Item>, k: VehicleKey)
    requires forall x :: x in b <==> x in a
    ensures k in KeysOf(b) <==> k in KeysOf(a)
  {
    if k in KeysOf(b) {
      var i :| 0 <= i < |b| && KeysOf(b)[i] == k;
      assert b[i] in a;
      var j :| 0 <= j < |a| && a[j] == b[i];
      assert KeysOf(a)[j] == k;
    }
    if k in KeysOf(a) {
      var i :| 0 <= i < |a| && KeysOf(a)[i] == k;
      assert a[i] in b;
      var j :| 0 <= j < |b| && b[j] == a[i];
      assert KeysOf(b)[j] == k;
    }
  }

  // --- order ----------------------------------------------------------------------

  lemma ReportOrderRanks(priority: Priority)
    ensures Ranks(ReportOrder(priority))
  {
    var less := ReportOrder(priority);
    forall x ensures !less(x, x) {
      BeforeIsTotal(CodePoints, x.updatedAt, x.updatedAt);
    }
    forall x, y, z | less(x, y) && less(y, z) ensures less(x, z) {
      if priority(x) == priority(y) == priority(z) {
        BeforeIsTransitive(CodePoints, x.updatedAt, y.updatedAt, z.updatedAt);
      }
    }
    forall x, y, z | !less(x, y) && !less(y, z) ensures !less(x, z) {
      if priority(x) == priority(y) == priority(z) {
        NotBefore(x.updatedAt, y.updatedAt, z.updatedAt);
      }
    }
  }

  lemma NotBefore(a: string, b: string, c: string)
    requires !Before(CodePoints, a, b) && !Before(CodePoints, b, c)
    ensures !Before(CodePoints, a, c)
  {
    hide Before;
    BeforeIsTotal(CodePoints, a, b);
    BeforeIsTotal(CodePoints, b, c);
    BeforeIsTotal(CodePoints, a, c);
    if Before(CodePoints, b, a) && Before(CodePoints, c, b) {
      BeforeIsTransitive(CodePoints, c, b, a);
    }
  }

  /** The report is sorted by priority, then by the time of the change. */
  lemma ReportIsSorted(report: seq<Item>, priority: Priority)
    ensures Sorted(Dedupe(report, priority), ReportOrder(priority))
  {
    hide Unsorted, StableSort, ReportOrder;
    ReportOrderRanks(priority);
    SortSorts(Unsorted(report, priority), ReportOrder(priority));
  }

  /** With the default priority new cars come first, then price changes, then other updates, then the rest. */
  lemma DefaultOrder(report: seq<Item>, i: nat, j: nat)
    requires i < j < |Dedupe(report, DefaultPriority)|
    ensures var out := Dedupe(report, DefaultPriority);
            && (out[j].change == NewCar ==> out[i].change == NewCar)
            && (out[j].change == PriceDrop || out[j].change == PriceIncrease ==>
                  out[i].change == NewCar || out[i].change == PriceDrop || out[i].change == PriceIncrease)
            && (out[i].change == SoldCar ==>
                  out[j].change == SoldCar || out[j].change == OtherChange)
  {
    hide Dedupe;
    var out := Dedupe(report, DefaultPriority);
    ReportIsSorted(report, DefaultPriority);
    OneItemPerVehicle(report, DefaultPriority);
    assert !ReportOrder(DefaultPriority)(out[j], out[i]);
    assert out[j] in out;
    hide Sorted, Merged, GroupOf, KeysOf, Kept;
  }

  // --- contexts -------------------------------------------------------------------

  /** An item that was not merged before. */
  predicate Raw(item: Item) {
    item.projectIds.None? && item.projectNames.None? && item.encarIds.None?
  }

  /** The item tells that the change concerns this project. */
  predicate Shows(item: Item, c: Context) {
    if item.projectNames.Some?
    then c.name in item.projectNames.value
         && (c.id.Some? ==> item.projectIds.Some? && c.id.value in item.projectIds.value)
    else OwnContext(item) == Some(c)
  }

  lemma {:induction false} OwnContextsAre(items: seq<Item>, c: Context)
    ensures c in OwnContexts(items) <==> exists x :: x in items && OwnContext(x) == Some(c)
  {
    hide OwnContext;
    if items != [] {
      var last := |items| - 1;
      OwnContextsAre(items[..last], c);
      assert items == items[..last] + [items[last]];
      assert items[last] in items;
    }
  }

  /** The contexts of a group are exactly those of its items. */
  lemma ContextsAre(items: seq<Item>, c: Context)
    ensures c in Contexts(items) <==> exists x :: x in items && OwnContext(x) == Some(c)
  {
    hide OwnContext;
    OwnContextsAre(items, c);
    KeyOccurs(OwnContexts(items), c);
  }

  lemma {:induction false} IdsAre(contexts: seq<Context>, c: Context)
    requires c in contexts && c.id.Some?
    ensures c.id.value in Ids(contexts)
  {
    if contexts[0] != c {
      assert c in contexts[1..];
      IdsAre(contexts[1..], c);
    }
  }

  lemma NameIsListed(contexts: seq<Context>, c: Context)
    requires c in contexts
    ensures c.name in NamesOf(contexts)
  {
    var i :| 0 <= i < |contexts| && contexts[i] == c;
    assert NamesOf(contexts)[i] == c.name;
  }

  lemma MergedProjects(items: seq<Item>, priority: Priority)
    requires items != []
    ensures var merged := Merged(items, priority);
            var projects := WithProjects(Preferred(items, priority), items);
            && merged.projectIds == projects.projectIds && merged.projectNames == projects.projectNames
            && OwnContext(merged) == OwnContext(Preferred(items, priority))
  {
    hide StableSort, Contexts, Listings, Preferred, Label;
    OwnContextReads(Merged(items, priority), Preferred(items, priority));
  }

  lemma OwnContextReads(a: Item, b: Item)
    requires a.projectId == b.projectId && a.projectName == b.projectName
    ensures OwnContext(a) == OwnContext(b)
  {
  }

  lemma ManyContextsAreShown(items: seq<Item>, preferred: Item, c: Context)
    requires |Contexts(items)| >= 2 && c in Contexts(items)
    ensures Shows(WithProjects(preferred, items), c)
  {
    hide OwnContext, Contexts, ContextOrder;
    var contexts := StableSort(Contexts(items), ContextOrder(preferred));
    SameElements(Contexts(items), ContextOrder(preferred), c);
    NameIsListed(contexts, c);
    if c.id.Some? {
      IdsAre(contexts, c);
    }
  }

  /**
   Merging raw items loses no project exactly when the group names no or several
   projects, or its representative names the only one. (A group in which only an item
   that is not chosen names a project loses that name.)
   */
  lemma ProjectsAreKeptExactly(items: seq<Item>, priority: Priority)
    requires items != [] && forall x | x in items :: Raw(x)
    ensures (forall c | c in Contexts(items) :: Shows(Merged(items, priority), c))
      <==> |Contexts(items)| != 1 || OwnContext(Preferred(items, priority)).Some?
  {
    var preferred, merged := Preferred(items, priority), Merged(items, priority);
    PreferredIsMember(items, priority);
    MergedProjects(items, priority);
    hide Merged, Preferred, OwnContext, Contexts;
    if |Contexts(items)| >= 2 {
      forall c | c in Contexts(items) ensures Shows(merged, c) {
        ManyContextsAreShown(items, preferred, c);
      }
    } else {
      assert merged.projectNames.None?;
      if OwnContext(preferred).Some? {
        ContextsAre(items, OwnContext(preferred).value);
        assert OwnContext(preferred).value in Contexts(items);
      } else if |Contexts(items)| == 1 {
        assert Contexts(items)[0] in Contexts(items);
      }
    }
  }

  // --- listings -------------------------------------------------------------------

  lemma {:induction false} OwnListingsAre(items: seq<Item>, l: string)
    ensures l in OwnListings(items) <==> l != "" && exists x :: x in items && x.encarId == l
  {
    if items != [] {
      var last := |items| - 1;
      OwnListingsAre(items[..last], l);
      assert items == items[..last] + [items[last]];
      assert items[last] in items;
    }
  }

  predicate ShowsListing(item: Item, l: string) {
    if item.encarIds.Some? then l in item.encarIds.value else item.encarId == l
  }

  lemma ListingsAre(items: seq<Item>, preferred: Item, l: string)
    requires preferred in items
    ensures l in Listings(preferred, items) <==> l != "" && exists x :: x in items && x.encarId == l
  {
    OwnListingsAre([preferred] + items, l);
    KeyOccurs(OwnListings([preferred] + items), l);
    hide OwnListings, FirstKeys;
    assert forall x :: x in [preferred] + items <==> x in items;
  }

  lemma MergedListings(items: seq<Item>, priority: Priority)
    requires items != []
    ensures var preferred := Preferred(items, priority);
            var merged := Merged(items, priority);
            && merged.encarId == preferred.encarId
            && merged.encarIds == if |Listings(preferred, items)| > 1 then Some(Listings(preferred, items)) else preferred.encarIds
  {
    hide StableSort, Contexts, Listings, Preferred;
  }

  /** The same for the listings of a group: they are all kept unless only an item that is not chosen has one. */
  lemma ListingsAreKeptExactly(items: seq<Item>, priority: Priority)
    requires items != [] && forall x | x in items :: Raw(x)
    ensures var preferred := Preferred(items, priority);
            (forall l | l in Listings(preferred, items) :: ShowsListing(Merged(items, priority), l))
            <==> |Listings(preferred, items)| != 1 || preferred.encarId != ""
  {
    var preferred := Preferred(items, priority);
    PreferredIsMember(items, priority);
    MergedListings(items, priority);
    hide Merged, Preferred, Listings;
    if |Listings(preferred, items)| <= 1 {
      if preferred.encarId != "" {
        ListingsAre(items, preferred, preferred.encarId);
        assert preferred.encarId in Listings(preferred, items);
      } else if |Listings(preferred, items)| == 1 {
        var l := Listings(preferred, items)[0];
        assert l in Listings(preferred, items);
        ListingsAre(items, preferred, l);
      }
    }
  }

  // --- running it again -----------------------------------------------------------

  lemma {:induction false} AtMostOneKey<K(!new)>(keys: seq<K>)
    requires forall i, j | 0 <= i < j < |keys| :: keys[i] == keys[j]
    ensures |FirstKeys(keys)| <= 1
  {
    if keys != [] {
      var front := keys[..|keys| - 1];
      AtMostOneKey(front);
      if front != [] {
        assert front[0] == keys[|keys| - 1];
        assert front[0] in front;
        KeyOccurs(front, keys[|keys| - 1]);
      }
    }
  }

  /** A single item is merged into itself. */
  lemma OneIsItself(x: Item, priority: Priority)
    ensures Merged([x], priority) == x
  {
    hide OwnContext;
    assert [x][..0] == [];
    var own := OwnContexts([x]);
    assert OwnContexts([]) == [] && |own| <= 1;
    AtMostOneKey(own);
    var twice := [x] + [x];
    assert twice[..1] == [x];
    assert OwnListings([]) == [];
    var once := if x.encarId != "" then [x.encarId] else [];
    assert OwnListings([x]) == once;
    assert OwnListings(twice) == once + once;
    AtMostOneKey(OwnListings(twice));
    hide StableSort, FirstKeys, OwnContexts, OwnListings;
  }

  lemma {:induction false} KeptStays(report: seq<Item>)
    requires forall i | 0 <= i < |report| :: report[i].change != Relisted
    ensures Kept(report) == report
  {
    if report != [] {
      var front := report[..|report| - 1];
      KeptStays(front);
      assert report == front + [report[|report| - 1]];
    }
  }

  lemma UnsortedStays(report: seq<Item>, priority: Priority)
    requires Distinct(KeysOf(report)) && forall i | 0 <= i < |report| :: report[i].change != Relisted
    ensures Unsorted(report, priority) == report
  {
    UnsortedItems(report, priority);
    hide Unsorted, Merged, Kept, FirstKeys, KeysOf, Distinct;
    KeptStays(report);
    DistinctKeysStay(KeysOf(report));
    var again := Unsorted(report, priority);
    forall i | 0 <= i < |report| ensures again[i] == report[i] {
      OneMember(report, KeysOf(report), i);
      OneIsItself(report[i], priority);
    }
  }

  /** Deduplicating a deduplicated report with the same priority changes nothing. */
  lemma DedupeTwice(report: seq<Item>, priority: Priority)
    ensures Dedupe(Dedupe(report, priority), priority) == Dedupe(report, priority)
  {
    hide Dedupe, Merged, Kept, ReportOrder, StableSort, Unsorted, KeysOf, Distinct, GroupOf, Sorted;
    var out := Dedupe(report, priority);
    OneItemPerVehicle(report, priority);
    assert forall i | 0 <= i < |out| :: out[i] in out;
    UnsortedStays(out, priority);
    ReportIsSorted(report, priority);
    SortedStays(out, ReportOrder(priority));
    DedupeIs(out, priority);
  }

  lemma DedupeIs(report: seq<Item>, priority: Priority)
    ensures Dedupe(report, priority) == StableSort(Unsorted(report, priority), ReportOrder(priority))
  {
  }
}
