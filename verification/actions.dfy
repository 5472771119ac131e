/**
 Every write the application performs, as one step function over the store, and the
 store-wide invariants that every step keeps: each table's keys were issued by its
 generator, every variant names an issued item key, and every cached item total is the
 sum over that item's variants.
 */
module Actions {
  import opened Wrappers
  import opened Store
  import Stock
  import ItemForm
  import Warehouses
  import Invoices
  import Suppliers
  import Users

  datatype Action =
    | ReceiveStock(itemId: nat, prop: Item, stock: Stock.StockForm, now: int, fault: Stock.StorageFault)
    | CreateItem(warehouseId: nat, selected: string, item: ItemForm.ItemFormValues, now: int, fails: bool)
    | SaveWarehouse(warehouseId: nat, settings: Warehouses.SettingsForm, now: int, fails: bool)
    | DeactivateWarehouse(warehouseId: nat, now: int, fails: bool)
    | SubmitWarehouse(form: Warehouses.NewWarehouseForm)
    | CreateInvoice(invoice: Invoices.InvoiceValues, now: int, fails: bool)
    | DeleteInvoice(invoiceId: nat, fails: bool)
    | DeleteSelectedInvoice(deleteId: Option<nat>, fails: bool)
    | CreateSupplier(supplier: Suppliers.SupplierForm, isEmail: string -> bool, now: int, fails: bool)
    | SetSupplierStatus(supplierId: nat, status: SupplierStatus, fails: bool)
    | DeleteSupplier(supplierId: nat, fails: bool)
    | SubmitUser(editing: Option<nat>, user: Users.UserFormValues, now: int, fails: bool)
    | ToggleUserBlock(userId: nat, card: User)
    | DeleteUser(userId: nat, fails: bool)

  /** The handler each action runs. */
  function Step(db: Db, a: Action): (r: Db)
    requires DbValid(db)
    ensures DbValid(r)
  {
    match a
    case ReceiveStock(itemId, prop, stock, now, fault) => Stock.AddStock(db, itemId, prop, stock, now, fault)
    case CreateItem(w, selected, item, now, fails) => ItemForm.AddItem(db, w, selected, item, now, fails)
    case SaveWarehouse(id, settings, now, fails) => Warehouses.SaveSettings(db, id, settings, now, fails)
    case DeactivateWarehouse(id, now, fails) => Warehouses.SoftDelete(db, id, now, fails)
    case SubmitWarehouse(form) => Warehouses.SubmitNewWarehouse(db, form)
    case CreateInvoice(invoice, now, fails) => Invoices.CreateInvoice(db, invoice, now, fails)
    case DeleteInvoice(id, fails) => Invoices.DeleteInvoice(db, id, fails)
    case DeleteSelectedInvoice(deleteId, fails) => Invoices.TableDelete(db, deleteId, fails)
    case CreateSupplier(supplier, isEmail, now, fails) => Suppliers.CreateSupplier(db, supplier, isEmail, now, fails)
    case SetSupplierStatus(id, status, fails) => Suppliers.SetStatus(db, id, status, fails)
    case DeleteSupplier(id, fails) => Suppliers.DeleteSupplier(db, id, fails)
    case SubmitUser(editing, user, now, fails) => Users.Submit(db, editing, user, now, fails).0
    case ToggleUserBlock(id, card) => Users.BlockToggle(db, id, card)
    case DeleteUser(id, fails) => Users.DeleteUser(db, id, fails)
  }

  /** The store-wide invariant. */
  ghost predicate Consistent(db: Db)
  {
    && DbValid(db) && Stock.TotalsMatch(db) && Stock.VariantsReferenceIssuedItems(db)
    && ItemForm.CategoriesSupported(db)
  }

  /**
   The add-stock dialog is opened on an item that was stored, and its copy of the item
   is the stored one while the item still exists; the add-item dialog's category select
   offers only the categories of the stored warehouse the page shows.
   */
  ghost predicate Admissible(db: Db, a: Action)
  {
    && (a.ReceiveStock? ==>
          1 <= a.itemId < db.items.nextId && (a.itemId in db.items.rows ==> a.prop == db.items.rows[a.itemId]))
    && (a.CreateItem? ==>
          a.selected == "" || (a.warehouseId in db.warehouses.rows && a.selected in db.warehouses.rows[a.warehouseId].categories))
  }

  lemma EmptyConsistent()
    ensures Consistent(EmptyDb())
  {
  }

  /** Receiving stock for an item that was deleted in the meantime adds a variant nobody counts. */
  lemma ReceiveForDeletedItem(db: Db, a: Action)
    requires Consistent(db) && Admissible(db, a) && a.ReceiveStock? && a.itemId !in db.items.rows
    ensures Consistent(Step(db, a))
  {
    StepKeepsCategories(db, a);
    var r := Step(db, a);
    if Stock.StockFormValid(a.stock) && a.fault == Stock.NoFault {
      var variant := Stock.NewVariant(a.itemId, a.prop, a.stock, a.now);
      RowsAfterInsert(db.variants, variant);
      forall id | id in r.items.rows
        ensures r.items.rows[id].totalQuantity.GetOr(0) == Stock.SumQuantity(Rows(r.variants), id)
      {
        Stock.SumQuantityAppend(Rows(db.variants), Row(db.variants.nextId, variant), id);
      }
    }
  }

  /** Every admissible step keeps each item in a stored warehouse, under a category it supports. */
  lemma StepKeepsCategories(db: Db, a: Action)
    requires DbValid(db) && ItemForm.CategoriesSupported(db) && Admissible(db, a)
    ensures ItemForm.CategoriesSupported(Step(db, a))
  {
    var r := Step(db, a);
    match a
    case ReceiveStock(itemId, prop, stock, now, fault) =>
      forall id | id in r.items.rows
        ensures r.items.rows[id].warehouseId == db.items.rows[id].warehouseId
        ensures r.items.rows[id].category == db.items.rows[id].category
      {
      }
    case CreateItem(w, selected, item, now, fails) =>
      ItemForm.AddItemKeepsCategories(db, w, selected, item, now, fails);
    case SaveWarehouse(id, settings, now, fails) =>
      assert r.items == db.items;
    case DeactivateWarehouse(id, now, fails) =>
      assert r.items == db.items;
    case _ =>
      assert r.items == db.items && r.warehouses == db.warehouses;
  }

  /** No handler deletes an item: every item key the generator has issued is still stored. */
  ghost predicate IssuedItemsStored(db: Db)
  {
    forall k :: 1 <= k < db.items.nextId ==> k in db.items.rows
  }

  /** Every step keeps every issued item key stored. */
  lemma StepKeepsIssuedItems(db: Db, a: Action)
    requires DbValid(db) && IssuedItemsStored(db)
    ensures IssuedItemsStored(Step(db, a))
  {
    var r := Step(db, a);
    match a
    case ReceiveStock(itemId, prop, stock, now, fault) =>
    case CreateItem(w, selected, item, now, fails) =>
    case _ =>
      assert r.items == db.items;
  }

  /** From the freshly opened store, every history keeps every issued item key stored. */
  lemma {:induction false} RunKeepsIssuedItems(db: Db, actions: seq<Action>)
    requires DbValid(db) && IssuedItemsStored(db)
    ensures IssuedItemsStored(Run(db, actions))
    decreases |actions|
  {
    if |actions| > 0 {
      StepKeepsIssuedItems(db, actions[0]);
      RunKeepsIssuedItems(Step(db, actions[0]), actions[1..]);
    }
  }

  /**
   So an admissible receipt always names a stored item in a store reached from the
   freshly opened one: the case `ReceiveForDeletedItem` covers needs a store that
   starts with an issued key missing.
   */
  lemma ReceiptNamesStoredItem(db: Db, a: Action)
    requires IssuedItemsStored(db) && Admissible(db, a) && a.ReceiveStock?
    ensures a.itemId in db.items.rows
  {
  }

  /** Every admissible step keeps the store consistent. */
  lemma StepKeepsConsistent(db: Db, a: Action)
    requires Consistent(db) && Admissible(db, a)
    ensures Consistent(Step(db, a))
  {
    StepKeepsCategories(db, a);
    match a
    case ReceiveStock(itemId, prop, stock, now, fault) =>
      if itemId in db.items.rows {
        Stock.AddStockKeepsTotals(db, itemId, stock, now, fault);
      } else {
        ReceiveForDeletedItem(db, a);
      }
    case CreateItem(w, selected, item, now, fails) =>
      ItemForm.AddItemKeepsTotals(db, w, selected, item, now, fails);
    case _ =>
      var r := Step(db, a);
      assert r.items == db.items && r.variants == db.variants;
  }

  /** Runs the actions in order. */
  function Run(db: Db, actions: seq<Action>): (r: Db)
    requires DbValid(db)
    ensures DbValid(r)
    decreases |actions|
  {
    if |actions| == 0 then db else Run(Step(db, actions[0]), actions[1..])
  }

  /** Each action is admissible in the store the earlier ones produced. */
  ghost predicate AdmissibleRun(db: Db, actions: seq<Action>)
    requires DbValid(db)
    decreases |actions|
  {
    |actions| == 0 || (Admissible(db, actions[0]) && AdmissibleRun(Step(db, actions[0]), actions[1..]))
  }

  /** From a consistent store, any admissible history leaves it consistent. */
  lemma {:induction false} RunKeepsConsistent(db: Db, actions: seq<Action>)
    requires Consistent(db) && AdmissibleRun(db, actions)
    ensures Consistent(Run(db, actions))
    decreases |actions|
  {
    if |actions| > 0 {
      StepKeepsConsistent(db, actions[0]);
      RunKeepsConsistent(Step(db, actions[0]), actions[1..]);
    }
  }

  /**
   The freshly opened application is consistent after any admissible history, and every
   item key it has issued is still stored, so a later receipt names a stored item.
   */
  lemma HistoryFromEmpty(actions: seq<Action>)
    requires AdmissibleRun(EmptyDb(), actions)
    ensures Consistent(Run(EmptyDb(), actions))
    ensures IssuedItemsStored(Run(EmptyDb(), actions))
  {
    EmptyConsistent();
    RunKeepsConsistent(EmptyDb(), actions);
    RunKeepsIssuedItems(EmptyDb(), actions);
  }
}
