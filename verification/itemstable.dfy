/**
 The items table of a warehouse: the category tab, the text search, the category
 specific attribute filters, the sort options and the low-stock badge.
 */
module ItemsTable {
  import opened Wrappers
  import opened Store
  import Seqs
  import Text
  import Stock

  datatype SortOption = NameAz | QtyAsc | QtyDesc | PriceAsc | PriceDesc | DateNew | DateOld

  /** The table's view state: tab, search, sort, and the three attribute filters. */
  datatype TableState = TableState(
    activeTab: string,
    searchQuery: string,
    sortOption: SortOption,
    filterWidth: string,
    filterColor: string,
    filterSize: string)

  /** A warehouse with a single category opens on that category's tab, any other on "all". */
  function InitialTab(categories: seq<string>): (tab: string)
    ensures |categories| == 1 ==> tab == categories[0]
    ensures |categories| != 1 ==> tab == "all"
  {
    if |categories| == 1 then categories[0] else "all"
  }

  function InitialState(categories: seq<string>): (s: TableState)
    ensures s.activeTab == InitialTab(categories) && s.searchQuery == "" && s.sortOption == DateNew
    ensures s.filterWidth == "" && s.filterColor == "" && s.filterSize == ""
  {
    TableState(InitialTab(categories), "", DateNew, "", "", "")
  }

  /** `handleTabChange`: the attribute filters are cleared, search and sort are kept. */
  function ChangeTab(s: TableState, tab: string): (r: TableState)
    ensures r.activeTab == tab && r.searchQuery == s.searchQuery && r.sortOption == s.sortOption
    ensures r.filterWidth == "" && r.filterColor == "" && r.filterSize == ""
  {
    s.(activeTab := tab, filterWidth := "", filterColor := "", filterSize := "")
  }

  // ---------------------------------------------------------------- filtering

  predicate TabMatches(item: Item, tab: string)
  {
    tab == "all" || item.category == tab
  }

  /** The lowered query occurs in the lowered name or the lowered SKU; an empty query matches all. */
  predicate SearchMatches(item: Item, query: string)
  {
    var q := Text.Lower(query);
    q == "" || Text.Contains(Text.Lower(item.name), q) || Text.Contains(Text.Lower(item.sku), q)
  }

  /** An optional text attribute contains the filter, ignoring case; a missing one never does. */
  predicate AttributeContains(attr: Option<string>, filter: string)
  {
    attr.Some? && Text.ContainsIgnoreCase(attr.value, filter)
  }

  /**
   The attribute filters apply only on the `fabric` (width, color) and `accessories`
   (size) tabs; the width is compared exactly through its string rendering `render`.
   */
  predicate AttributesMatch(item: Item, s: TableState, render: real -> string)
  {
    && (s.activeTab == "fabric" ==>
          && (s.filterWidth != "" ==> item.width.Some? && render(item.width.value) == s.filterWidth)
          && (s.filterColor != "" ==> AttributeContains(item.color, s.filterColor)))
    && (s.activeTab == "accessories" ==>
          s.filterSize != "" ==> AttributeContains(item.size, s.filterSize))
  }

  /** The predicate the table's `filter` callback computes. */
  predicate Shown(item: Item, s: TableState, render: real -> string)
  {
    TabMatches(item, s.activeTab) && SearchMatches(item, s.searchQuery) && AttributesMatch(item, s, render)
  }

  /** Right after a tab change only the tab and the search decide what is shown. */
  lemma ShownAfterTabChange(item: Item, s: TableState, tab: string, render: real -> string)
    ensures Shown(item, ChangeTab(s, tab), render) <==> TabMatches(item, tab) && SearchMatches(item, s.searchQuery)
  {
  }

  /** On the "all" tab with an empty search every item is shown, whatever stale filters remain. */
  lemma AllTabShowsEverything(item: Item, s: TableState, render: real -> string)
    requires s.activeTab == "all" && s.searchQuery == ""
    ensures Shown(item, s, render)
  {
  }

  /** On the fabric tab a color filter hides every item that has no color. */
  lemma ColorFilterHidesColorless(item: Item, s: TableState, render: real -> string)
    requires s.activeTab == "fabric" && s.filterColor != "" && item.color == None
    ensures !Shown(item, s, render)
  {
  }

  // ---------------------------------------------------------------- sorting

  /**
   "May precede" for each sort option: the comparator returns a non-positive number.
   `nameLe` is `localeCompare(a, b) <= 0`; a missing price counts as 0.
   */
  function ItemLe(option: SortOption, nameLe: (string, string) -> bool): (Row<Item>, Row<Item>) -> bool
  {
    (a: Row<Item>, b: Row<Item>) =>
      match option
      case NameAz => nameLe(a.rec.name, b.rec.name)
      case QtyAsc => a.rec.quantity <= b.rec.quantity
      case QtyDesc => b.rec.quantity <= a.rec.quantity
      case PriceAsc => a.rec.price.GetOr(0.0) <= b.rec.price.GetOr(0.0)
      case PriceDesc => b.rec.price.GetOr(0.0) <= a.rec.price.GetOr(0.0)
      case DateNew => b.rec.updatedAt <= a.rec.updatedAt
      case DateOld => a.rec.updatedAt <= b.rec.updatedAt
  }

  /** Every sort option orders the rows consistently, given a consistent collation. */
  lemma ItemLeTotal(option: SortOption, nameLe: (string, string) -> bool)
    requires Seqs.TotalPreorder(nameLe)
    ensures Seqs.TotalPreorder(ItemLe(option, nameLe))
  {
    var le := ItemLe(option, nameLe);
    forall a: Row<Item>, b: Row<Item>, c: Row<Item> | le(a, b) && le(b, c)
      ensures le(a, c)
    {
      if option == NameAz {
        assert nameLe(a.rec.name, b.rec.name) && nameLe(b.rec.name, c.rec.name);
      }
    }
    forall a: Row<Item>, b: Row<Item>
      ensures le(a, b) || le(b, a)
    {
      if option == NameAz {
        assert nameLe(a.rec.name, b.rec.name) || nameLe(b.rec.name, a.rec.name);
      }
    }
  }

  /**
   The rows the table displays: the warehouse's items that pass the filter, ordered
   by the chosen option.
   */
  function VisibleItems(db: Db, warehouseId: nat, s: TableState, nameLe: (string, string) -> bool, render: real -> string): (r: seq<Row<Item>>)
    requires Valid(db.items)
    requires Seqs.TotalPreorder(nameLe)
    ensures forall row: Row<Item> :: row in r <==>
      && row.id in db.items.rows && db.items.rows[row.id] == row.rec
      && row.rec.warehouseId == warehouseId && Shown(row.rec, s, render)
    ensures Seqs.Sorted(r, ItemLe(s.sortOption, nameLe))
    ensures multiset(r) == multiset(Seqs.Filter(ItemsOfWarehouse(db, warehouseId), (row: Row<Item>) => Shown(row.rec, s, render)))
    ensures Seqs.NoRepeats(r)
  {
    var all := ItemsOfWarehouse(db, warehouseId);
    var shown := Seqs.Filter(all, (row: Row<Item>) => Shown(row.rec, s, render));
    AscendingNoRepeats(all);
    Seqs.SubNoRepeats(shown, all);
    ItemLeTotal(s.sortOption, nameLe);
    Seqs.SortSameElements(shown, ItemLe(s.sortOption, nameLe));
    Seqs.Sort(shown, ItemLe(s.sortOption, nameLe))
  }

  /** The table never lists more rows than the items table holds. */
  lemma VisibleItemsCount(db: Db, warehouseId: nat, s: TableState, nameLe: (string, string) -> bool, render: real -> string)
    requires Valid(db.items)
    requires Seqs.TotalPreorder(nameLe)
    ensures |VisibleItems(db, warehouseId, s, nameLe, render)| <= |db.items.rows|
  {
    var all := ItemsOfWarehouse(db, warehouseId);
    var rows := Rows(db.items);
    RowsCount(db.items);
    assert all == Seqs.Filter(rows, (row: Row<Item>) => row.rec.warehouseId == warehouseId);
  }

  // ---------------------------------------------------------------- the badge

  /** The table's "Low" badge compares the item's own `quantity`, not the cached total. */
  predicate LowBadge(item: Item)
  {
    item.quantity <= item.minQuantity
  }

  /**
   Receiving stock never changes the badge: `quantity` is not touched, only the
   total the card reads.
   */
  lemma AddStockLeavesBadge(db: Db, itemId: nat, prop: Item, v: Stock.StockForm, now: int, fault: Stock.StorageFault, id: nat)
    requires Valid(db.variants)
    requires id in db.items.rows
    ensures var r := Stock.AddStock(db, itemId, prop, v, now, fault);
      && id in r.items.rows
      && r.items.rows[id].quantity == db.items.rows[id].quantity
      && (LowBadge(r.items.rows[id]) <==> LowBadge(db.items.rows[id]))
  {
    var r := Stock.AddStock(db, itemId, prop, v, now, fault);
    if Stock.StockFormValid(v) && fault == Stock.NoFault && itemId in db.items.rows && id == itemId {
      assert r.items.rows[id] == Stock.Restocked(db.items.rows[id], prop, v.quantity, now);
    }
  }
}
