/**
 What a deduplicated report holds, in terms of the items it was made from
 (backend/app/reporting.py).
 */
module ReportMerging {
  import opened Characters
  import opened Decimals
  import opened Grouping
  import opened ReportDedupe
  import opened ReportDedupeLaws
  import opened Sorting
  import opened TextOrder
  import opened Wrappers

  // --- one vehicle ----------------------------------------------------------------

  /** The signs of a registration number, without spaces. */
  function Signs(s: string): string {
    Only(s, (c: char) => c != ' ' && !(9 <= c as int <= 13))
  }

  predicate SameSign(a: char, b: char) {
    a == b
    || ('a' <= a <= 'z' && a as int - 32 == b as int)
    || ('a' <= b <= 'z' && b as int - 32 == a as int)
  }

  /** The numbers are equal up to spaces and case. */
  predicate SameNumber(s: string, t: string) {
    && |Signs(s)| == |Signs(t)|
    && forall i | 0 <= i < |Signs(s)| :: SameSign(Signs(s)[i], Signs(t)[i])
  }

  /**
   The items concern one vehicle: their registration numbers are equal up to spaces and
   case; or neither has one, and they name the same car; or the same listing; or nothing.
   */
  predicate SameVehicle(x: Item, y: Item) {
    if Signs(x.registration) != "" || Signs(y.registration) != "" then SameNumber(x.registration, y.registration)
    else if x.carId.Some? || y.carId.Some? then x.carId == y.carId
    else x.encarId == y.encarId
  }

  lemma {:induction false} SqueezedIs(s: string)
    ensures |Squeezed(s)| == |Signs(s)|
    ensures forall i | 0 <= i < |Signs(s)| :: Squeezed(s)[i] == Upper(Signs(s)[i])
  {
    hide Upper;
    if s != [] {
      SqueezedIs(s[1..]);
      OnlyFromFront(s, (c: char) => c != ' ' && !(9 <= c as int <= 13));
    }
  }

  lemma SignsCompare(a: char, b: char)
    ensures SameSign(a, b) <==> Upper(a) == Upper(b)
  {
  }

  lemma NumbersCompare(s: string, t: string)
    ensures SameNumber(s, t) <==> Squeezed(s) == Squeezed(t)
    ensures Squeezed(s) == "" <==> Signs(s) == ""
  {
    SqueezedIs(s);
    SqueezedIs(t);
    hide Signs, Squeezed, Upper, SameSign;
    forall i | 0 <= i < |Signs(s)| && i < |Signs(t)|
      ensures SameSign(Signs(s)[i], Signs(t)[i]) <==> Upper(Signs(s)[i]) == Upper(Signs(t)[i])
    {
      SignsCompare(Signs(s)[i], Signs(t)[i]);
    }
  }

  lemma SameKeyExactly(x: Item, y: Item)
    ensures ReportKey(x) == ReportKey(y) <==> SameVehicle(x, y)
  {
    NumbersCompare(x.registration, y.registration);
    NumbersCompare(y.registration, x.registration);
    hide Signs, Squeezed, SameNumber;
  }

  // --- the items of one vehicle ---------------------------------------------------

  /** The items of the report that concern the vehicle of `x`, relisted cars aside. */
  function ItemsOf(report: seq<Item>, x: Item): seq<Item> {
    Only(report, (y: Item) => y.change != Relisted && SameVehicle(y, x))
  }

  lemma GroupGrows(front: seq<Item>, y: Item, k: VehicleKey)
    ensures GroupOf(front + [y], k) == GroupOf(front, k) + if ReportKey(y) == k then [y] else []
  {
    hide ReportKey;
    var kept := front + [y];
    assert kept[..|kept| - 1] == front;
    assert KeysOf(kept)[..|kept| - 1] == KeysOf(front);
  }

  lemma {:induction false} GroupIsItems(report: seq<Item>, x: Item)
    ensures GroupOf(Kept(report), ReportKey(x)) == ItemsOf(report, x)
  {
    if report != [] {
      var last := |report| - 1;
      GroupIsItems(report[..last], x);
      SameKeyExactly(report[last], x);
      GroupGrows(Kept(report[..last]), report[last], ReportKey(x));
      hide SameVehicle, ReportKey, GroupOf;
      assert Kept(report[..last]) + [] == Kept(report[..last]);
    }
  }

  /** Every vehicle that changed appears exactly once, and nothing else does. */
  lemma VehicleAppearsOnce(report: seq<Item>, priority: Priority)
    ensures var out := Dedupe(report, priority);
            && (forall x | x in report && x.change != Relisted :: exists i :: 0 <= i < |out| && SameVehicle(out[i], x))
            && (forall i, j | 0 <= i < j < |out| :: !SameVehicle(out[i], out[j]))
            && (forall i | 0 <= i < |out| :: out[i].change != Relisted && ItemsOf(report, out[i]) != [])
  {
    hide SameVehicle, ReportKey, Dedupe, Merged, GroupOf, Kept;
    var out := Dedupe(report, priority);
    OneItemPerVehicle(report, priority);
    KeptIsChanged(report);
    forall x | x in report && x.change != Relisted ensures exists i :: 0 <= i < |out| && SameVehicle(out[i], x) {
      var k :| 0 <= k < |Kept(report)| && Kept(report)[k] == x;
      assert KeysOf(Kept(report))[k] == ReportKey(x);
      assert ReportKey(x) in KeysOf(out);
      var i :| 0 <= i < |out| && KeysOf(out)[i] == ReportKey(x);
      SameKeyExactly(out[i], x);
    }
    forall i, j | 0 <= i < j < |out| ensures !SameVehicle(out[i], out[j]) {
      SameKeyExactly(out[i], out[j]);
      assert KeysOf(out)[i] != KeysOf(out)[j];
    }
    forall i | 0 <= i < |out| ensures out[i].change != Relisted && ItemsOf(report, out[i]) != [] {
      assert out[i] in out;
      GroupIsItems(report, out[i]);
    }
  }

  /** Two items of a report are merged into one exactly when they concern the same vehicle. */
  lemma MergedTogetherExactly(report: seq<Item>, priority: Priority, x: Item, y: Item)
    requires x in report && y in report && x.change != Relisted && y.change != Relisted
    ensures var out := Dedupe(report, priority);
            SameVehicle(x, y) <==> exists i :: 0 <= i < |out| && x in ItemsOf(report, out[i]) && y in ItemsOf(report, out[i])
  {
    hide Dedupe, ReportKey, SameVehicle;
    var out := Dedupe(report, priority);
    VehicleAppearsOnce(report, priority);
    forall i | 0 <= i < |out|
      ensures x in ItemsOf(report, out[i]) <==> ReportKey(x) == ReportKey(out[i])
      ensures y in ItemsOf(report, out[i]) <==> ReportKey(y) == ReportKey(out[i])
    {
      InItems(report, x, out[i]);
      InItems(report, y, out[i]);
    }
    SameKeyExactly(x, y);
    if SameVehicle(x, y) {
      var i :| 0 <= i < |out| && SameVehicle(out[i], x);
      SameKeyExactly(out[i], x);
      assert x in ItemsOf(report, out[i]) && y in ItemsOf(report, out[i]);
    }
  }

  lemma InItems(report: seq<Item>, x: Item, o: Item)
    requires x in report && x.change != Relisted
    ensures x in ItemsOf(report, o) <==> ReportKey(x) == ReportKey(o)
  {
    OnlyMembers(report, (y: Item) => y.change != Relisted && SameVehicle(y, o), x);
    SameKeyExactly(x, o);
    hide SameVehicle, ReportKey;
  }

  // --- the projects of a merged item ----------------------------------------------

  /** The item names a project: by its name, or by number if it has none. */
  predicate Names(x: Item, c: Context) {
    && (x.projectId.Some? || x.projectName != "")
    && c.id == x.projectId
    && c.name == if x.projectName != "" then x.projectName else "#" + Decimal(x.projectId.value)
  }

  lemma NamesIs(x: Item, c: Context)
    ensures OwnContext(x) == Some(c) <==> Names(x, c)
  {
    hide Decimal;
  }

  ghost predicate Named(items: seq<Item>, c: Context) {
    exists x :: x in items && Names(x, c)
  }

  /** The project that the representative stands for. */
  function Own(x: Item): Context {
    Context(x.projectId, if x.projectName != "" then x.projectName
                         else if x.projectId.Some? then "#" + Decimal(x.projectId.value) else "#None")
  }

  function Number(c: Context): int {
    if c.id.Some? && c.id.value != 0 then c.id.value else -1
  }

  /** The order of the projects: the own one first, the others by name, then by number. */
  ghost predicate InOrder(order: seq<Context>, own: Context) {
    && (own in order ==> order[0] == own)
    && (forall i, j | 0 <= i < j < |order| && order[i] != own && order[j] != own ::
          order[i].name == order[j].name || Before(CodePoints, order[i].name, order[j].name))
    && (forall i, j | 0 <= i < j < |order| && order[i] != own && order[i].name == order[j].name ::
          Number(order[i]) <= Number(order[j]))
  }

  function NamesIn(order: seq<Context>): seq<string> {
    if order == [] then [] else NamesIn(order[..|order| - 1]) + [order[|order| - 1].name]
  }

  function NumbersIn(order: seq<Context>): seq<int> {
    if order == [] then []
    else
      var last := order[|order| - 1];
      NumbersIn(order[..|order| - 1]) + if last.id.Some? then [last.id.value] else []
  }

  /** All projects of several are listed, each once and in order; a single one is left to the representative. */
  ghost predicate ListsProjects(items: seq<Item>, own: Item, o: Item) {
    if exists c, d :: c != d && Named(items, c) && Named(items, d) then
      exists order ::
        && Distinct(order) && (forall c :: c in order <==> Named(items, c)) && InOrder(order, Own(own))
        && o.projectNames == Some(NamesIn(order)) && o.projectIds == Some(NumbersIn(order))
    else o.projectNames == own.projectNames && o.projectIds == own.projectIds
  }

  lemma OwnIs(x: Item)
    ensures Own(x) == Context(x.projectId, Label(x))
  {
    hide Decimal;
  }

  lemma ContextOrderRanks(x: Item)
    ensures Ranks(ContextOrder(x))
  {
    var less := ContextOrder(x);
    forall a, b, c | less(a, b) && less(b, c) ensures less(a, c) {
      if a.name != b.name || b.name != c.name {
        BeforeIsTotal(CodePoints, a.name, b.name);
        BeforeIsTotal(CodePoints, b.name, c.name);
        BeforeIsTotal(CodePoints, a.name, c.name);
        if Before(CodePoints, a.name, b.name) && Before(CodePoints, b.name, c.name) {
          BeforeIsTransitive(CodePoints, a.name, b.name, c.name);
        }
      }
      hide Before, Label;
    }
    forall a, b, c | !less(a, b) && !less(b, c) ensures !less(a, c) {
      BeforeIsTotal(CodePoints, a.name, b.name);
      BeforeIsTotal(CodePoints, b.name, c.name);
      BeforeIsTotal(CodePoints, a.name, c.name);
      if Before(CodePoints, b.name, a.name) && Before(CodePoints, c.name, b.name) {
        BeforeIsTransitive(CodePoints, c.name, b.name, a.name);
      }
      hide Before, Label;
    }
  }

  lemma NotAfter(x: Item, a: Context, b: Context)
    requires !ContextOrder(x)(b, a)
    ensures b == Own(x) ==> a == Own(x)
    ensures a != Own(x) && b != Own(x) ==> a.name == b.name || Before(CodePoints, a.name, b.name)
    ensures a != Own(x) && a.name == b.name && b != Own(x) ==> Number(a) <= Number(b)
  {
    OwnIs(x);
    BeforeIsTotal(CodePoints, a.name, b.name);
    hide Before, Label, Decimal;
  }

  lemma SortedIsInOrder(x: Item, order: seq<Context>)
    requires Sorted(order, ContextOrder(x)) && Distinct(order)
    ensures InOrder(order, Own(x))
  {
    hide Own, Number, ContextOrder, Before;
    forall i, j | 0 <= i < j < |order|
      ensures order[j] == Own(x) ==> order[i] == Own(x)
      ensures order[i] != Own(x) && order[j] != Own(x) ==>
                order[i].name == order[j].name || Before(CodePoints, order[i].name, order[j].name)
      ensures order[i] != Own(x) && order[i].name == order[j].name && order[j] != Own(x) ==> Number(order[i]) <= Number(order[j])
    {
      NotAfter(x, order[i], order[j]);
    }
    if Own(x) in order {
      var i :| 0 <= i < |order| && order[i] == Own(x);
    }
  }

  lemma {:induction false} NamesInIs(order: seq<Context>)
    ensures NamesIn(order) == NamesOf(order)
  {
    if order != [] {
      NamesInIs(order[..|order| - 1]);
    }
  }

  lemma IdsUnfold(order: seq<Context>)
    ensures order == [] ==> Ids(order) == []
    ensures order != [] ==> Ids(order) == (if order[0].id.Some? then [order[0].id.value] else []) + Ids(order[1..])
  {
  }

  lemma {:induction false} IdsOfSum(a: seq<Context>, c: Context)
    ensures Ids(a + [c]) == Ids(a) + if c.id.Some? then [c.id.value] else []
  {
    hide Ids;
    IdsUnfold(a);
    IdsUnfold(a + [c]);
    if a == [] {
      assert (a + [c])[1..] == [];
      IdsUnfold([]);
    } else {
      assert (a + [c])[1..] == a[1..] + [c];
      IdsOfSum(a[1..], c);
    }
  }

  lemma {:induction false} NumbersInIs(order: seq<Context>)
    ensures NumbersIn(order) == Ids(order)
  {
    if order == [] {
      IdsUnfold(order);
    } else {
      var front, last := order[..|order| - 1], order[|order| - 1];
      NumbersInIs(front);
      IdsOfSum(front, last);
      assert order == front + [last];
    }
    hide Ids;
  }

  lemma ContextsAreNamed(items: seq<Item>)
    ensures Distinct(Contexts(items)) && forall c :: c in Contexts(items) <==> Named(items, c)
    ensures |Contexts(items)| >= 2 <==> exists c, d :: c != d && Named(items, c) && Named(items, d)
  {
    FirstKeysAreDistinct(OwnContexts(items));
    hide Names, OwnContext;
    forall c ensures c in Contexts(items) <==> Named(items, c) {
      ContextsAre(items, c);
      forall x: Item ensures OwnContext(x) == Some(c) <==> Names(x, c) {
        NamesIs(x, c);
      }
    }
    hide Named, Contexts;
    var contexts := Contexts(items);
    if |contexts| >= 2 {
      assert contexts[0] in contexts && contexts[1] in contexts && contexts[0] != contexts[1];
    }
    if exists c, d :: c != d && Named(items, c) && Named(items, d) {
      var c, d :| c != d && Named(items, c) && Named(items, d);
      assert c in contexts && d in contexts;
    }
  }

  lemma SortKeepsDistinct<T(!new)>(s: seq<T>, less: (T, T) -> bool)
    requires Distinct(s)
    ensures Distinct(StableSort(s, less))
  {
    SortKeepsElements(s, less);
    var t := StableSort(s, less);
    forall i, j | 0 <= i < j < |t| ensures t[i] != t[j] {
      if t[i] == t[j] {
        Twice(t, i, j);
        OnlyOnce(s, t[i]);
        assert false;
      }
    }
  }

  lemma ProjectsAreListed(items: seq<Item>, x: Item)
    ensures ListsProjects(items, x, WithProjects(x, items))
  {
    hide Contexts, ContextOrder, Named, Own, StableSort, InOrder;
    ContextsAreNamed(items);
    if |Contexts(items)| >= 2 {
      var order := StableSort(Contexts(items), ContextOrder(x));
      ContextOrderRanks(x);
      SortSorts(Contexts(items), ContextOrder(x));
      SortKeepsDistinct(Contexts(items), ContextOrder(x));
      forall c ensures c in order <==> Named(items, c) {
        SameElements(Contexts(items), ContextOrder(x), c);
      }
      SortedIsInOrder(x, order);
      NamesInIs(order);
      NumbersInIs(order);
    }
  }

  // --- the listings of a merged item ----------------------------------------------

  ghost predicate Lists(items: seq<Item>, l: string) {
    l != "" && exists x :: x in items && x.encarId == l
  }

  /** `a` occurs in the texts, and `b` not before it. */
  predicate OccursFirst(texts: seq<string>, a: string, b: string) {
    exists p :: 0 <= p < |texts| && texts[p] == a && forall q | 0 <= q <= p :: texts[q] != b
  }

  function ListingIds(items: seq<Item>): seq<string> {
    seq(|items|, i requires 0 <= i < |items| => items[i].encarId)
  }

  /**
   All listings of several are listed, each once, the representative's first and the others
   as they first occur; a single one is left to the representative.
   */
  ghost predicate ListsListings(items: seq<Item>, own: Item, o: Item) {
    if exists k, l :: k != l && Lists(items, k) && Lists(items, l) then
      exists ids ::
        && Distinct(ids) && (forall l :: l in ids <==> Lists(items, l))
        && (own.encarId != "" ==> ids != [] && ids[0] == own.encarId)
        && (forall i, j | 0 <= i < j < |ids| && ids[i] != own.encarId :: OccursFirst(ListingIds(items), ids[i], ids[j]))
        && o.encarIds == Some(ids)
    else o.encarIds == own.encarIds
  }

  lemma OccursIn(texts: seq<string>, more: seq<string>, a: string, b: string)
    requires OccursFirst(texts, a, b)
    ensures OccursFirst(texts + more, a, b)
  {
    var p :| 0 <= p < |texts| && texts[p] == a && forall q | 0 <= q <= p :: texts[q] != b;
    assert (texts + more)[p] == a;
  }

  /** The distinct keys come in the order in which they first occur. */
  lemma {:induction false} FirstKeysAreInOrder(keys: seq<string>, i: nat, j: nat)
    requires i < j < |FirstKeys(keys)|
    ensures OccursFirst(keys, FirstKeys(keys)[i], FirstKeys(keys)[j])
  {
    var last := |keys| - 1;
    var earlier := FirstKeys(keys[..last]);
    assert keys == keys[..last] + [keys[last]];
    if j < |earlier| {
      FirstKeysAreInOrder(keys[..last], i, j);
      OccursIn(keys[..last], [keys[last]], earlier[i], earlier[j]);
    } else {
      KeyOccurs(keys[..last], earlier[i]);
      KeyOccurs(keys[..last], keys[last]);
      var p :| 0 <= p < last && keys[..last][p] == earlier[i];
      assert keys[p] == earlier[i];
      assert forall q | 0 <= q <= p :: keys[q] == keys[..last][q];
    }
  }

  lemma {:induction false} OwnListingsInOrder(items: seq<Item>, a: string, b: string)
    requires a != "" && b != "" && OccursFirst(OwnListings(items), a, b)
    ensures OccursFirst(ListingIds(items), a, b)
  {
    var last := |items| - 1;
    var front := items[..last];
    var listed := OwnListings(items);
    var p :| 0 <= p < |listed| && listed[p] == a && forall q | 0 <= q <= p :: listed[q] != b;
    assert ListingIds(items) == ListingIds(front) + [items[last].encarId];
    if p < |OwnListings(front)| {
      assert forall q | 0 <= q <= p :: OwnListings(front)[q] == listed[q];
      OwnListingsInOrder(front, a, b);
      OccursIn(ListingIds(front), [items[last].encarId], a, b);
    } else {
      forall q | 0 <= q <= last ensures ListingIds(items)[q] != b {
        if q < last {
          OwnListingsAre(front, b);
          assert front[q] in front;
          assert forall r | 0 <= r < |OwnListings(front)| :: OwnListings(front)[r] == listed[r];
        }
      }
      assert ListingIds(items)[last] == a;
    }
  }

  lemma SkipFirst(x: Item, items: seq<Item>, a: string, b: string)
    requires OccursFirst(ListingIds([x] + items), a, b) && a != x.encarId
    ensures OccursFirst(ListingIds(items), a, b)
  {
    var all := ListingIds([x] + items);
    var p :| 0 <= p < |all| && all[p] == a && forall q | 0 <= q <= p :: all[q] != b;
    assert forall q | 0 <= q < |items| :: all[q + 1] == ListingIds(items)[q];
    assert ListingIds(items)[p - 1] == a;
  }

  lemma ListingsAreListed(items: seq<Item>, x: Item, item: Item)
    requires x in items && item.encarIds == x.encarIds
    ensures ListsListings(items, x, WithListings(item, x, items))
  {
    var ids := Listings(x, items);
    FirstKeysAreDistinct(OwnListings([x] + items));
    hide ListingIds, OwnListings, FirstKeys;
    forall l ensures l in ids <==> Lists(items, l) {
      ListingsAre(items, x, l);
    }
    OwnComesFirst(items, x);
    forall i, j | 0 <= i < j < |ids| && ids[i] != x.encarId ensures OccursFirst(ListingIds(items), ids[i], ids[j]) {
      FirstKeysAreInOrder(OwnListings([x] + items), i, j);
      assert ids[i] in ids && ids[j] in ids;
      OwnListingsInOrder([x] + items, ids[i], ids[j]);
      SkipFirst(x, items, ids[i], ids[j]);
    }
    hide Lists, OccursFirst, Listings;
    if |ids| > 1 {
      assert ids[0] in ids && ids[1] in ids && ids[0] != ids[1];
    }
    if exists k, l :: k != l && Lists(items, k) && Lists(items, l) {
      var k, l :| k != l && Lists(items, k) && Lists(items, l);
      assert k in ids && l in ids;
    }
  }

  lemma {:induction false} FirstKeyStays(keys: seq<string>, more: seq<string>)
    requires keys != []
    ensures FirstKeys(keys + more) != [] && FirstKeys(keys + more)[0] == keys[0]
  {
    if more != [] {
      assert (keys + more)[..|keys + more| - 1] == keys + more[..|more| - 1];
      FirstKeyStays(keys, more[..|more| - 1]);
    } else if |keys| > 1 {
      assert keys + more == keys;
      assert keys == keys[..|keys| - 1] + [keys[|keys| - 1]];
      FirstKeyStays(keys[..|keys| - 1], [keys[|keys| - 1]]);
    } else {
      assert keys + more == keys && keys[..0] == [];
    }
  }

  lemma {:induction false} OwnListingsOfSum(items: seq<Item>, more: seq<Item>)
    ensures OwnListings(items + more) == OwnListings(items) + OwnListings(more)
  {
    if more == [] {
      assert items + more == items;
    } else {
      assert (items + more)[..|items + more| - 1] == items + more[..|more| - 1];
      OwnListingsOfSum(items, more[..|more| - 1]);
    }
  }

  lemma OwnComesFirst(items: seq<Item>, x: Item)
    ensures x.encarId != "" ==> Listings(x, items) != [] && Listings(x, items)[0] == x.encarId
  {
    if x.encarId != "" {
      OwnListingsOfSum([x], items);
      assert [x][..0] == [];
      assert OwnListings([x]) == [x.encarId];
      FirstKeyStays([x.encarId], OwnListings(items));
    }
  }

  // --- the merged item ------------------------------------------------------------

  /**
   What stands in the report for a vehicle: one of its items, the last that says it was
   sold, or else the first of least priority, with the projects and listings of all.
   */
  lemma ItemIsMerged(report: seq<Item>, priority: Priority, i: nat)
    requires i < |Dedupe(report, priority)|
    ensures var o := Dedupe(report, priority)[i];
            var items := ItemsOf(report, o);
            exists r: nat :: Represents(items, r, priority)
              && o == items[r].(projectIds := o.projectIds, projectNames := o.projectNames, encarIds := o.encarIds)
              && ListsProjects(items, items[r], o) && ListsListings(items, items[r], o)
  {
    hide Dedupe, ItemsOf, ReportKey, Represents, ListsProjects, ListsListings, Kept, GroupOf, Preferred;
    var out := Dedupe(report, priority);
    var o := out[i];
    OneItemPerVehicle(report, priority);
    assert o in out;
    GroupIsItems(report, o);
    var items := ItemsOf(report, o);
    var r := Representative(items, priority);
    var x := items[r];
    assert x in items;
    ProjectsAreListed(items, x);
    var p := WithProjects(x, items);
    WithProjectsKeeps(x, items);
    ListingsAreListed(items, x, p);
    WithListingsKeeps(p, x, items, o);
    hide WithListings, WithProjects;
    SameProjects(items, x, p, o);
  }

  lemma Representative(items: seq<Item>, priority: Priority) returns (r: nat)
    requires items != []
    ensures Represents(items, r, priority) && r < |items| && items[r] == Preferred(items, priority)
  {
    hide Preferred;
    PreferredRepresents(items, priority);
    r :| Represents(items, r, priority) && items[r] == Preferred(items, priority);
  }

  lemma SameProjects(items: seq<Item>, x: Item, p: Item, o: Item)
    requires ListsProjects(items, x, p) && o.projectIds == p.projectIds && o.projectNames == p.projectNames
    ensures ListsProjects(items, x, o)
  {
    hide Named, InOrder, Own;
  }

  lemma WithProjectsKeeps(x: Item, items: seq<Item>)
    ensures var p := WithProjects(x, items); p == x.(projectIds := p.projectIds, projectNames := p.projectNames)
  {
    hide Contexts, ContextOrder, StableSort;
  }

  lemma WithListingsKeeps(p: Item, x: Item, items: seq<Item>, o: Item)
    requires o == WithListings(p, x, items)
    ensures o == p.(encarIds := o.encarIds)
  {
    hide Listings;
  }

  /** The report is sorted by priority, and items of one priority by the time of their change. */
  lemma ReportIsInOrder(report: seq<Item>, priority: Priority, i: nat, j: nat)
    requires i < j < |Dedupe(report, priority)|
    ensures var a, b := Dedupe(report, priority)[i], Dedupe(report, priority)[j];
            && priority(a) <= priority(b)
            && (priority(a) == priority(b) ==> a.updatedAt == b.updatedAt || Before(CodePoints, a.updatedAt, b.updatedAt))
  {
    ReportIsSorted(report, priority);
    hide Dedupe;
    var a, b := Dedupe(report, priority)[i], Dedupe(report, priority)[j];
    assert !ReportOrder(priority)(b, a);
    BeforeIsTotal(CodePoints, a.updatedAt, b.updatedAt);
  }
}
