/**
 Receiving stock for an item (the add-stock dialog) and the stock classifiers of the
 item card. Receiving stock inserts a variant and raises the parent item's cached
 `totalQuantity` inside one read-write transaction over variants and items.
 */
module Stock {
  import opened Wrappers
  import opened Store

  // ---------------------------------------------------------------- the form

  /** The add-stock form values after zod's coercion of the inputs. */
  datatype StockForm = StockForm(
    quantity: int,
    price: Option<real>,
    color: Option<string>,
    width: Option<real>,
    weight: Option<real>,
    size: Option<string>,
    material: Option<string>,
    accessoryType: Option<string>)

  /** `baseSchema`: at least one unit, and a non-negative price when one is given. */
  predicate StockFormValid(v: StockForm)
  {
    v.quantity >= 1 && (v.price.Some? ==> v.price.value >= 0.0)
  }

  /** The values the form opens with. */
  function DefaultStockForm(): StockForm
  {
    StockForm(0, Some(0.0), Some(""), Some(0.0), Some(0.0), Some(""), Some(""), Some(""))
  }

  /** An untouched form cannot be submitted: its quantity is 0. */
  lemma DefaultStockFormRejected()
    ensures !StockFormValid(DefaultStockForm())
  {
  }

  // ---------------------------------------------------------------- the variant

  /** Fabric attributes are kept only for the `fabric` category, accessory ones only for `accessories`. */
  function NewVariant(itemId: nat, item: Item, v: StockForm, now: int): (r: Variant)
    ensures r.itemId == itemId && r.warehouseId == item.warehouseId
    ensures r.quantity == v.quantity
    ensures r.price == (if v.price.Some? then v.price.value else 0.0)
    ensures item.category == "fabric" ==> r.color == v.color && r.width == v.width && r.weight == v.weight
    ensures item.category != "fabric" ==> r.color == None && r.width == None && r.weight == None
    ensures item.category == "accessories" ==> r.size == v.size && r.material == v.material && r.accessoryType == v.accessoryType
    ensures item.category != "accessories" ==> r.size == None && r.material == None && r.accessoryType == None
    ensures r.createdAt == now && r.updatedAt == now
  {
    var fabric := item.category == "fabric";
    var accessories := item.category == "accessories";
    Variant(
      itemId, item.warehouseId, v.quantity, v.price.GetOr(0.0),
      if fabric then v.color else None,
      if fabric then v.width else None,
      if fabric then v.weight else None,
      if accessories then v.size else None,
      if accessories then v.material else None,
      if accessories then v.accessoryType else None,
      now, now)
  }

  /** A variant never carries attributes of both families, and any third category carries none. */
  lemma VariantAttributesExclusive(itemId: nat, item: Item, v: StockForm, now: int)
    ensures var r := NewVariant(itemId, item, v, now);
      && !((r.color.Some? || r.width.Some? || r.weight.Some?) && (r.size.Some? || r.material.Some? || r.accessoryType.Some?))
      && (item.category != "fabric" && item.category != "accessories" ==>
            r.color == r.size == r.material == r.accessoryType == None && r.width == r.weight == None)
  {
  }

  // ---------------------------------------------------------------- the transaction

  /** Where, if anywhere, the underlying storage write fails inside the transaction. */
  datatype StorageFault = NoFault | FailOnVariantInsert | FailOnItemUpdate

  /** The parent record after the update: the new total and the timestamp, nothing else. */
  function Restocked(stored: Item, prop: Item, quantity: int, now: int): (r: Item)
    ensures r.totalQuantity == Some(prop.totalQuantity.GetOr(0) + quantity)
    ensures r.updatedAt == now
    ensures r.(totalQuantity := stored.totalQuantity, updatedAt := stored.updatedAt) == stored
  {
    stored.(totalQuantity := Some(prop.totalQuantity.GetOr(0) + quantity), updatedAt := now)
  }

  /**
   `onSubmit` of the add-stock dialog for the item `prop` shown under key `itemId`.
   The running total is read from the dialog's copy of the item and written onto the
   stored record; Dexie's `update` on a key that is gone writes nothing and does not
   fail, so the variant is then still inserted. A storage fault rolls back both writes.
   */
  function AddStock(db: Db, itemId: nat, prop: Item, v: StockForm, now: int, fault: StorageFault): (r: Db)
    requires Valid(db.variants)
    ensures !StockFormValid(v) || fault != NoFault ==> r == db
    ensures StockFormValid(v) && fault == NoFault ==>
      && var newId := db.variants.nextId;
      && newId !in db.variants.rows
      && r.variants.rows == db.variants.rows[newId := NewVariant(itemId, prop, v, now)]
      && Valid(r.variants)
      && (itemId in db.items.rows ==>
            r.items.rows == db.items.rows[itemId := Restocked(db.items.rows[itemId], prop, v.quantity, now)])
      && (itemId !in db.items.rows ==> r.items == db.items)
    ensures r.items.nextId == db.items.nextId && r.items.rows.Keys == db.items.rows.Keys
    ensures r.warehouses == db.warehouses && r.suppliers == db.suppliers
    ensures r.invoices == db.invoices && r.users == db.users
  {
    if !StockFormValid(v) || fault != NoFault then db
    else
      var (variants, _) := Insert(db.variants, NewVariant(itemId, prop, v, now));
      var items := match Get(db.items, itemId)
        case None => db.items
        case Some(stored) => Update(db.items, itemId, Restocked(stored, prop, v.quantity, now));
      db.(variants := variants, items := items)
  }

  /** Either nothing is written, or both the variant and (when the item exists) the parent are. */
  lemma AddStockAllOrNothing(db: Db, itemId: nat, prop: Item, v: StockForm, now: int, fault: StorageFault)
    requires Valid(db.variants) && itemId in db.items.rows
    ensures var r := AddStock(db, itemId, prop, v, now, fault);
      || r == db
      || (|r.variants.rows| == |db.variants.rows| + 1 && r.items.rows[itemId].totalQuantity == Some(prop.totalQuantity.GetOr(0) + v.quantity))
  {
  }

  // ---------------------------------------------------------------- the aggregate

  /** Sum of the quantities of the listed variants that belong to `itemId`. */
  function SumQuantity(vs: seq<Row<Variant>>, itemId: nat): int
  {
    if |vs| == 0 then 0
    else
      var last := vs[|vs| - 1];
      SumQuantity(vs[..|vs| - 1], itemId) + (if last.rec.itemId == itemId then last.rec.quantity else 0)
  }

  lemma SumQuantityAppend(vs: seq<Row<Variant>>, row: Row<Variant>, itemId: nat)
    ensures SumQuantity(vs + [row], itemId) == SumQuantity(vs, itemId) + (if row.rec.itemId == itemId then row.rec.quantity else 0)
  {
    assert (vs + [row])[..|vs|] == vs;
  }

  /** No listed variant belongs to `itemId`, so they contribute nothing to it. */
  lemma {:induction false} SumQuantityUnrelated(vs: seq<Row<Variant>>, itemId: nat)
    requires forall i :: 0 <= i < |vs| ==> vs[i].rec.itemId != itemId
    ensures SumQuantity(vs, itemId) == 0
  {
    if |vs| > 0 {
      SumQuantityUnrelated(vs[..|vs| - 1], itemId);
    }
  }

  /** Every item's cached total (absent meaning 0) equals the sum over its variants. */
  ghost predicate TotalsMatch(db: Db)
    requires Valid(db.variants)
  {
    forall id :: id in db.items.rows ==> db.items.rows[id].totalQuantity.GetOr(0) == SumQuantity(Rows(db.variants), id)
  }

  /** Every variant points at an item key the generator has issued: at least 1 and below `nextId`. */
  ghost predicate VariantsReferenceIssuedItems(db: Db)
  {
    forall k :: k in db.variants.rows ==> 1 <= db.variants.rows[k].itemId < db.items.nextId
  }

  /** One item's total after a receipt recorded from the stored copy of `itemId`. */
  lemma ReceiptKeepsTotal(db: Db, itemId: nat, v: StockForm, now: int, id: nat)
    requires Valid(db.variants)
    requires itemId in db.items.rows && id in db.items.rows
    requires db.items.rows[id].totalQuantity.GetOr(0) == SumQuantity(Rows(db.variants), id)
    requires StockFormValid(v)
    ensures var r := AddStock(db, itemId, db.items.rows[itemId], v, now, NoFault);
      && Valid(r.variants) && id in r.items.rows
      && r.items.rows[id].totalQuantity.GetOr(0) == SumQuantity(Rows(r.variants), id)
  {
    var prop := db.items.rows[itemId];
    var variant := NewVariant(itemId, prop, v, now);
    var r := AddStock(db, itemId, prop, v, now, NoFault);
    var (variants, _) := Insert(db.variants, variant);
    assert r.variants == variants;
    RowsAfterInsert(db.variants, variant);
    SumQuantityAppend(Rows(db.variants), Row(db.variants.nextId, variant), id);
  }

  /**
   When the dialog's copy of the item is the stored one, receiving stock keeps every
   cached total equal to the sum over that item's variants.
   */
  lemma AddStockKeepsTotals(db: Db, itemId: nat, v: StockForm, now: int, fault: StorageFault)
    requires Valid(db.variants) && Valid(db.items)
    requires TotalsMatch(db) && VariantsReferenceIssuedItems(db)
    requires itemId in db.items.rows
    ensures var r := AddStock(db, itemId, db.items.rows[itemId], v, now, fault);
      && Valid(r.variants) && TotalsMatch(r) && VariantsReferenceIssuedItems(r)
  {
    var r := AddStock(db, itemId, db.items.rows[itemId], v, now, fault);
    if StockFormValid(v) && fault == NoFault {
      forall id | id in r.items.rows
        ensures r.items.rows[id].totalQuantity.GetOr(0) == SumQuantity(Rows(r.variants), id)
      {
        ReceiptKeepsTotal(db, itemId, v, now, id);
      }
      assert itemId < db.items.nextId;
    }
  }

  /**
   When the dialog's copy of the item lags behind the stored total (another receipt was
   recorded after it was read), the write overwrites that receipt's contribution and the
   cached total no longer equals the sum over the variants.
   */
  lemma AddStockStaleCopyLosesReceipt(db: Db, itemId: nat, prop: Item, v: StockForm, now: int)
    requires Valid(db.variants) && Valid(db.items)
    requires TotalsMatch(db) && itemId in db.items.rows
    requires prop.totalQuantity.GetOr(0) != db.items.rows[itemId].totalQuantity.GetOr(0)
    requires StockFormValid(v)
    ensures var r := AddStock(db, itemId, prop, v, now, NoFault);
      Valid(r.variants) && !TotalsMatch(r)
  {
    var variant := NewVariant(itemId, prop, v, now);
    var r := AddStock(db, itemId, prop, v, now, NoFault);
    RowsAfterInsert(db.variants, variant);
    SumQuantityAppend(Rows(db.variants), Row(db.variants.nextId, variant), itemId);
    assert r.items.rows[itemId].totalQuantity.GetOr(0) != SumQuantity(Rows(r.variants), itemId);
  }

  // ---------------------------------------------------------------- classifiers

  datatype StockStatus = OutOfStock | LowStock | InStock

  /** `getStockStatus`: zero is out of stock even when the threshold is zero. */
  function StockStatusOf(quantity: int, minQuantity: int): (s: StockStatus)
    ensures s == OutOfStock <==> quantity == 0
    ensures s == LowStock <==> quantity != 0 && quantity <= minQuantity
    ensures s == InStock <==> quantity != 0 && quantity > minQuantity
  {
    if quantity == 0 then OutOfStock
    else if quantity <= minQuantity then LowStock
    else InStock
  }

  /** The item card classifies the cached total, reading a missing total as 0. */
  function CardStatus(item: Item): (s: StockStatus)
    ensures s == OutOfStock <==> item.totalQuantity.None? || item.totalQuantity.value == 0
    ensures s == LowStock <==> item.totalQuantity.Some? && item.totalQuantity.value != 0 && item.totalQuantity.value <= item.minQuantity
    ensures s == InStock <==> item.totalQuantity.Some? && item.totalQuantity.value != 0 && item.totalQuantity.value > item.minQuantity
  {
    StockStatusOf(item.totalQuantity.GetOr(0), item.minQuantity)
  }

  /**
   Receiving 5 and then 8 units for an item whose threshold is 10 and which has no
   total yet: low stock at 5, in stock at 13.
   */
  lemma ReceiveStockScenario(db: Db, itemId: nat, now: int)
    requires Valid(db.variants)
    requires itemId in db.items.rows
    requires db.items.rows[itemId].minQuantity == 10 && db.items.rows[itemId].totalQuantity == None
    ensures var once := AddStock(db, itemId, db.items.rows[itemId], StockForm(5, None, None, None, None, None, None, None), now, NoFault);
      && once.items.rows[itemId].totalQuantity == Some(5)
      && CardStatus(once.items.rows[itemId]) == LowStock
      && var twice := AddStock(once, itemId, once.items.rows[itemId], StockForm(8, None, None, None, None, None, None, None), now, NoFault);
      && twice.items.rows[itemId].totalQuantity == Some(13)
      && CardStatus(twice.items.rows[itemId]) == InStock
  {
  }
}
