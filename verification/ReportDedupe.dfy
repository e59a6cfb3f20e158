/**
 Merging the items of a report so that every physical vehicle appears once
 (backend/app/reporting.py).
 */
module ReportDedupe {
  import opened Characters
  import opened Decimals
  import opened Grouping
  import opened Sorting
  import opened TextOrder
  import opened Wrappers

  datatype Change = NewCar | PriceDrop | PriceIncrease | MaterialUpdate | SoldCar | Relisted | OtherChange

  /** A report item. Empty texts stand for missing ones; `rest` is what merging does not look at. */
  datatype Item = Item(
    change: Change,
    registration: string,
    carId: Option<int>,
    encarId: string,
    projectId: Option<int>,
    projectName: string,
    updatedAt: string,
    projectIds: Option<seq<int>>,
    projectNames: Option<seq<string>>,
    encarIds: Option<seq<string>>,
    rest: string)

  datatype VehicleKey = Registration(number: string) | Car(id: int) | Encar(listing: string) | NoIdentity

  type Priority = Item -> int

  function DefaultPriority(item: Item): int {
    match item.change
    case NewCar => 0
    case PriceDrop => 1
    case PriceIncrease => 1
    case MaterialUpdate => 2
    case _ => 9
  }

  // --- keys -----------------------------------------------------------------------

  function Squeezed(s: string): string {
    if s == [] then [] else (if IsSpace(s[0]) then [] else [Upper(s[0])]) + Squeezed(s[1..])
  }

  function ReportKey(item: Item): VehicleKey {
    if Squeezed(item.registration) != "" then Registration(Squeezed(item.registration))
    else if item.carId.Some? then Car(item.carId.value)
    else if item.encarId != "" then Encar(item.encarId)
    else NoIdentity
  }

  // --- contexts -------------------------------------------------------------------

  datatype Context = Context(id: Option<int>, name: string)

  function Label(item: Item): string {
    if item.projectName != "" then item.projectName
    else "#" + if item.projectId.Some? then Decimal(item.projectId.value) else "None"
  }

  /** The project an item comes from, if it names one. */
  function OwnContext(item: Item): Option<Context> {
    if item.projectId.None? && item.projectName == "" then None else Some(Context(item.projectId, Label(item)))
  }

  function OwnContexts(items: seq<Item>): seq<Context> {
    if items == [] then []
    else
      var own := OwnContext(items[|items| - 1]);
      OwnContexts(items[..|items| - 1]) + if own.Some? then [own.value] else []
  }

  /** The distinct contexts of a group. */
  function Contexts(items: seq<Item>): seq<Context> {
    FirstKeys(OwnContexts(items))
  }

  function IdRank(id: Option<int>): int {
    if id.None? || id.value == 0 then -1 else id.value
  }

  /** The preferred item's context first, then by name and id. */
  function ContextOrder(preferred: Item): (Context, Context) -> bool {
    var own := Context(preferred.projectId, Label(preferred));
    (a: Context, b: Context) =>
      if (a == own) != (b == own) then a == own
      else if a.name != b.name then Before(CodePoints, a.name, b.name)
      else IdRank(a.id) < IdRank(b.id)
  }

  function Ids(contexts: seq<Context>): seq<int> {
    if contexts == [] then []
    else (if contexts[0].id.Some? then [contexts[0].id.value] else []) + Ids(contexts[1..])
  }

  function NamesOf(contexts: seq<Context>): seq<string> {
    seq(|contexts|, i requires 0 <= i < |contexts| => contexts[i].name)
  }

  function WithProjects(preferred: Item, items: seq<Item>): Item {
    var contexts := StableSort(Contexts(items), ContextOrder(preferred));
    if |contexts| < 2 then preferred
    else preferred.(projectIds := Some(Ids(contexts)), projectNames := Some(NamesOf(contexts)))
  }

  function OwnListings(items: seq<Item>): seq<string> {
    if items == [] then []
    else
      var last := items[|items| - 1];
      OwnListings(items[..|items| - 1]) + if last.encarId != "" then [last.encarId] else []
  }

  /** The distinct listings of a group, the preferred item's first. */
  function Listings(preferred: Item, items: seq<Item>): seq<string> {
    FirstKeys(OwnListings([preferred] + items))
  }

  function WithListings(item: Item, preferred: Item, items: seq<Item>): Item {
    var listings := Listings(preferred, items);
    if |listings| > 1 then item.(encarIds := Some(listings)) else item
  }

  // --- one item for a group -------------------------------------------------------

  predicate Supersedes(item: Item, preferred: Item, priority: Priority) {
    item.change == SoldCar || (preferred.change != SoldCar && priority(item) < priority(preferred))
  }

  function Preferred(items: seq<Item>, priority: Priority): Item
    requires items != []
  {
    if |items| == 1 then items[0]
    else
      var earlier := Preferred(items[..|items| - 1], priority);
      if Supersedes(items[|items| - 1], earlier, priority) then items[|items| - 1] else earlier
  }

  function Merged(items: seq<Item>, priority: Priority): Item
    requires items != []
  {
    var preferred := Preferred(items, priority);
    WithListings(WithProjects(preferred, items), preferred, items)
  }

  // --- the report -----------------------------------------------------------------

  /** Relisted cars are not reported again. */
  function Kept(report: seq<Item>): seq<Item> {
    if report == [] then []
    else
      var last := report[|report| - 1];
      Kept(report[..|report| - 1]) + if last.change == Relisted then [] else [last]
  }

  function KeysOf(items: seq<Item>): (keys: seq<VehicleKey>)
    ensures |keys| == |items|
  {
    seq(|items|, i requires 0 <= i < |items| => ReportKey(items[i]))
  }

  function GroupOf(kept: seq<Item>, k: VehicleKey): seq<Item> {
    Members(kept, KeysOf(kept), k)
  }

  function ReportOrder(priority: Priority): (Item, Item) -> bool {
    (a: Item, b: Item) =>
      priority(a) < priority(b) || (priority(a) == priority(b) && Before(CodePoints, a.updatedAt, b.updatedAt))
  }

  /** The merged items of these groups. */
  function MergedGroups(kept: seq<Item>, order: seq<VehicleKey>, priority: Priority): seq<Item>
    requires forall k | k in order :: k in KeysOf(kept)
  {
    if order == [] then []
    else
      var k := order[|order| - 1];
      NoMembers(kept, KeysOf(kept), k);
      MergedGroups(kept, order[..|order| - 1], priority) + [Merged(GroupOf(kept, k), priority)]
  }

  function Unsorted(report: seq<Item>, priority: Priority): seq<Item> {
    var kept := Kept(report);
    assert forall k | k in FirstKeys(KeysOf(kept)) :: k in KeysOf(kept) by {
      forall k | k in FirstKeys(KeysOf(kept)) ensures k in KeysOf(kept) {
        KeyOccurs(KeysOf(kept), k);
      }
    }
    MergedGroups(kept, FirstKeys(KeysOf(kept)), priority)
  }

  /** `dedupe_report`. */
  function Dedupe(report: seq<Item>, priority: Priority): seq<Item> {
    StableSort(Unsorted(report, priority), ReportOrder(priority))
  }

  /** The choice among the items of one group, with the loop of the source. */
  method Choose(items: seq<Item>, priority: Priority) returns (preferred: Item)
    requires items != []
    ensures preferred == Preferred(items, priority)
  {
    preferred := items[0];
    for i := 1 to |items|
      invariant preferred == Preferred(items[..i], priority)
    {
      assert items[..i + 1][..i] == items[..i];
      var item := items[i];
      if item.change == SoldCar || (preferred.change != SoldCar && priority(item) < priority(preferred)) {
        preferred := item;
      }
    }
    assert items[..|items|] == items;
  }

  method KeepChanged(report: seq<Item>) returns (kept: seq<Item>)
    ensures kept == Kept(report)
  {
    kept := [];
    for i := 0 to |report|
      invariant kept == Kept(report[..i])
    {
      assert report[..i + 1][..i] == report[..i];
      if report[i].change != Relisted {
        kept := kept + [report[i]];
      }
    }
    assert report[..|report|] == report;
  }

  method MergeGroups(kept: seq<Item>, order: seq<VehicleKey>, groups: map<VehicleKey, seq<Item>>, priority: Priority)
    returns (deduped: seq<Item>)
    requires forall k | k in order :: k in KeysOf(kept) && k in groups && groups[k] == GroupOf(kept, k)
    ensures deduped == MergedGroups(kept, order, priority)
  {
    hide KeysOf, Members, WithListings, WithProjects, Preferred;
    deduped := [];
    for i := 0 to |order|
      invariant forall k | k in order[..i] :: k in order
      invariant deduped == MergedGroups(kept, order[..i], priority)
    {
      assert order[..i + 1][..i] == order[..i];
      NoMembers(kept, KeysOf(kept), order[i]);
      var items := groups[order[i]];
      var preferred := Choose(items, priority);
      deduped := deduped + [WithListings(WithProjects(preferred, items), preferred, items)];
    }
    assert order[..|order|] == order;
  }

  method DedupeReport(report: seq<Item>, priority: Priority) returns (r: seq<Item>)
    ensures r == Dedupe(report, priority)
  {
    hide KeysOf, Members, FirstKeys, MergedGroups, StableSort, ReportOrder, Kept;
    var kept := KeepChanged(report);
    var order, groups := GroupBy(kept, KeysOf(kept));
    forall k | k in order ensures k in KeysOf(kept) {
      KeyOccurs(KeysOf(kept), k);
    }
    var deduped := MergeGroups(kept, order, groups, priority);
    r := StableSort(deduped, ReportOrder(priority));
  }
}
