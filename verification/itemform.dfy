/**
 Creating an item (the add-item dialog): a category chosen from the warehouse's
 supported list, the validated form, and the record written with only the attributes
 of that category. The created item has no cached `totalQuantity`.
 */
module ItemForm {
  import opened Wrappers
  import opened Store
  import Stock
  import Text

  /** The add-item form values after zod's coercion of the inputs. */
  datatype ItemFormValues = ItemFormValues(
    name: string,
    sku: string,
    quantity: int,
    minQuantity: int,
    price: Option<real>,
    unit: string,
    fabricType: Option<string>,
    color: Option<string>,
    width: Option<real>,
    weight: Option<real>,
    accessoryType: Option<string>,
    size: Option<string>,
    material: Option<string>)

  /**
   `formSchema` with its `superRefine`: the required texts, non-negative numbers, and a
   non-empty fabric type when the selected category is `fabric`.
   */
  predicate ItemFormValid(v: ItemFormValues, selected: string)
  {
    && Text.Utf16Length(v.name) >= 1 && Text.Utf16Length(v.sku) >= 1 && Text.Utf16Length(v.unit) >= 1
    && v.quantity >= 0 && v.minQuantity >= 0
    && (v.price.Some? ==> v.price.value >= 0.0)
    && (selected == "fabric" ==> Truthy(v.fabricType))
  }

  function DefaultItemForm(): ItemFormValues
  {
    ItemFormValues("", "", 0, 0, Some(0.0), "", None, None, None, None, None, None, None)
  }

  /** The untouched form is refused, and a fabric item needs its fabric type. */
  lemma ItemFormRejections(v: ItemFormValues)
    ensures !ItemFormValid(DefaultItemForm(), "finished")
    ensures v.fabricType.None? || v.fabricType == Some("") ==> !ItemFormValid(v, "fabric")
    ensures ItemFormValid(v, "fabric") ==> ItemFormValid(v, "accessories")
  {
  }

  /** The record `db.items.add` receives. */
  function NewItem(warehouseId: nat, category: string, v: ItemFormValues, now: int): (r: Item)
    ensures r.warehouseId == warehouseId && r.category == category
    ensures r.name == v.name && r.sku == v.sku && r.unit == v.unit
    ensures r.quantity == v.quantity && r.minQuantity == v.minQuantity
    ensures r.price == Some(if v.price.Some? then v.price.value else 0.0)
    ensures category == "fabric" ==> r.fabricType == v.fabricType && r.color == v.color && r.width == v.width && r.weight == v.weight
    ensures category != "fabric" ==> r.fabricType == None && r.color == None && r.width == None && r.weight == None
    ensures category == "accessories" ==> r.accessoryType == v.accessoryType && r.size == v.size && r.material == v.material
    ensures category != "accessories" ==> r.accessoryType == None && r.size == None && r.material == None
    ensures r.totalQuantity == None
    ensures r.createdAt == now && r.updatedAt == now
  {
    var fabric := category == "fabric";
    var accessories := category == "accessories";
    Item(
      warehouseId, v.name, v.sku, category, v.quantity, v.minQuantity, v.unit,
      Some(v.price.GetOr(0.0)),
      if fabric then v.fabricType else None,
      if fabric then v.color else None,
      if fabric then v.width else None,
      if fabric then v.weight else None,
      if accessories then v.accessoryType else None,
      if accessories then v.size else None,
      if accessories then v.material else None,
      None, now, now)
  }

  /**
   `onSubmit`: nothing is written without a selected category or with an invalid form;
   a failed `add` is caught and leaves the store as it was.
   */
  function AddItem(db: Db, warehouseId: nat, selected: string, v: ItemFormValues, now: int, fails: bool): (r: Db)
    requires Valid(db.items)
    ensures selected == "" || !ItemFormValid(v, selected) || fails ==> r == db
    ensures selected != "" && ItemFormValid(v, selected) && !fails ==>
      && db.items.nextId !in db.items.rows
      && r.items.rows == db.items.rows[db.items.nextId := NewItem(warehouseId, selected, v, now)]
      && r.items.nextId == db.items.nextId + 1
    ensures Valid(r.items)
    ensures r.warehouses == db.warehouses && r.variants == db.variants && r.suppliers == db.suppliers
    ensures r.invoices == db.invoices && r.users == db.users
  {
    if selected == "" || !ItemFormValid(v, selected) || fails then db
    else db.(items := Insert(db.items, NewItem(warehouseId, selected, v, now)).0)
  }

  /**
   The category select offers the categories of the warehouse the page shows, so an
   item created from one of them is stored in that warehouse under a category it supports.
   */
  lemma StoredCategorySupported(db: Db, warehouseId: nat, selected: string, v: ItemFormValues, now: int)
    requires Valid(db.items)
    requires warehouseId in db.warehouses.rows && selected in db.warehouses.rows[warehouseId].categories
    requires ItemFormValid(v, selected)
    ensures var r := AddItem(db, warehouseId, selected, v, now, false);
      selected != "" ==>
        && r.items.rows[db.items.nextId].warehouseId == warehouseId
        && r.items.rows[db.items.nextId].category in r.warehouses.rows[warehouseId].categories
  {
  }

  /** Every stored item sits in a stored warehouse, under one of that warehouse's categories. */
  ghost predicate CategoriesSupported(db: Db)
  {
    forall id :: id in db.items.rows ==>
      && db.items.rows[id].warehouseId in db.warehouses.rows
      && db.items.rows[id].category in db.warehouses.rows[db.items.rows[id].warehouseId].categories
  }

  /** Creating an item from the category select keeps every item under a supported category. */
  lemma AddItemKeepsCategories(db: Db, warehouseId: nat, selected: string, v: ItemFormValues, now: int, fails: bool)
    requires Valid(db.items) && CategoriesSupported(db)
    requires selected == "" || (warehouseId in db.warehouses.rows && selected in db.warehouses.rows[warehouseId].categories)
    ensures CategoriesSupported(AddItem(db, warehouseId, selected, v, now, fails))
  {
  }

  /**
   A freshly created item's card reads "out of stock" whatever quantity was entered,
   because the dialog fills `quantity` and the card reads `totalQuantity`.
   */
  lemma CreatedItemShowsOutOfStock(db: Db, warehouseId: nat, selected: string, v: ItemFormValues, now: int)
    requires Valid(db.items)
    requires selected != "" && ItemFormValid(v, selected)
    ensures var r := AddItem(db, warehouseId, selected, v, now, false);
      && r.items.rows[db.items.nextId].quantity == v.quantity
      && Stock.CardStatus(r.items.rows[db.items.nextId]) == Stock.OutOfStock
  {
  }

  /** Creating an item keeps every cached total equal to the sum over its variants. */
  lemma AddItemKeepsTotals(db: Db, warehouseId: nat, selected: string, v: ItemFormValues, now: int, fails: bool)
    requires Valid(db.items) && Valid(db.variants)
    requires Stock.TotalsMatch(db) && Stock.VariantsReferenceIssuedItems(db)
    ensures var r := AddItem(db, warehouseId, selected, v, now, fails);
      Stock.TotalsMatch(r) && Stock.VariantsReferenceIssuedItems(r)
  {
    var r := AddItem(db, warehouseId, selected, v, now, fails);
    if r != db {
      var id := db.items.nextId;
      var vs := Rows(db.variants);
      forall i | 0 <= i < |vs|
        ensures vs[i].rec.itemId != id
      {
        assert vs[i] in vs;
      }
      Stock.SumQuantityUnrelated(vs, id);
    }
  }
}
