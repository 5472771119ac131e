/**
 Warehouse administration: the settings dialog (rename, relocate, deactivate) and the
 add-warehouse dialog, whose submit validates the form but stores nothing.
 */
module Warehouses {
  import opened Wrappers
  import opened Store
  import Seqs
  import Text

  // ---------------------------------------------------------------- settings

  datatype SettingsForm = SettingsForm(name: string, location: string)

  /** Both fields are required. */
  predicate SettingsValid(v: SettingsForm)
  {
    Text.Utf16Length(v.name) >= 1 && Text.Utf16Length(v.location) >= 1
  }

  /** The dialog opens with the warehouse's current name and location. */
  function SettingsDefaults(w: Warehouse): (v: SettingsForm)
    ensures v.name == w.name && v.location == w.location
  {
    SettingsForm(w.name, w.location)
  }

  /**
   `onSubmit`: a partial update of name, location and `updatedAt` on the stored record.
   An invalid form or a failed write leaves the store as it was.
   */
  function SaveSettings(db: Db, id: nat, v: SettingsForm, now: int, fails: bool): (r: Db)
    ensures !SettingsValid(v) || fails || id !in db.warehouses.rows ==> r == db
    ensures SettingsValid(v) && !fails && id in db.warehouses.rows ==>
      && r.warehouses.rows.Keys == db.warehouses.rows.Keys
      && r.warehouses.rows[id].name == v.name
      && r.warehouses.rows[id].location == v.location
      && r.warehouses.rows[id].updatedAt == now
      && r.warehouses.rows[id].code == db.warehouses.rows[id].code
      && r.warehouses.rows[id].categories == db.warehouses.rows[id].categories
      && r.warehouses.rows[id].isActive == db.warehouses.rows[id].isActive
      && r.warehouses.rows[id].createdAt == db.warehouses.rows[id].createdAt
      && forall k :: k in db.warehouses.rows && k != id ==> r.warehouses.rows[k] == db.warehouses.rows[k]
    ensures r.warehouses.nextId == db.warehouses.nextId
    ensures r.(warehouses := db.warehouses) == db
  {
    if !SettingsValid(v) || fails then db
    else
      match Get(db.warehouses, id)
      case None => db
      case Some(w) => db.(warehouses := Update(db.warehouses, id, w.(name := v.name, location := v.location, updatedAt := now)))
  }

  /** Saving the values the dialog opened with changes only the timestamp. */
  lemma SaveUnchangedSettings(db: Db, id: nat, now: int)
    requires id in db.warehouses.rows
    requires SettingsValid(SettingsDefaults(db.warehouses.rows[id]))
    ensures var r := SaveSettings(db, id, SettingsDefaults(db.warehouses.rows[id]), now, false);
      r.warehouses.rows == db.warehouses.rows[id := db.warehouses.rows[id].(updatedAt := now)]
  {
  }

  /**
   `handleSoftDelete`: the record stays, marked inactive and stamped; only the
   warehouses table is written, so the warehouse's items stay where they were.
   */
  function SoftDelete(db: Db, id: nat, now: int, fails: bool): (r: Db)
    ensures fails || id !in db.warehouses.rows ==> r == db
    ensures !fails && id in db.warehouses.rows ==>
      && r.warehouses.rows.Keys == db.warehouses.rows.Keys
      && r.warehouses.rows[id] == db.warehouses.rows[id].(isActive := Some(false), updatedAt := now)
      && forall k :: k in db.warehouses.rows && k != id ==> r.warehouses.rows[k] == db.warehouses.rows[k]
    ensures r.warehouses.nextId == db.warehouses.nextId
    ensures r.(warehouses := db.warehouses) == db
  {
    if fails then db
    else
      match Get(db.warehouses, id)
      case None => db
      case Some(w) => db.(warehouses := Update(db.warehouses, id, w.(isActive := Some(false), updatedAt := now)))
  }

  /** Deactivating twice is deactivating once, stamped with the later time. */
  lemma SoftDeleteIdempotent(db: Db, id: nat, t1: int, t2: int)
    ensures SoftDelete(SoftDelete(db, id, t1, false), id, t2, false) == SoftDelete(db, id, t2, false)
  {
  }

  /** A deactivated warehouse still lists exactly the same items. */
  lemma SoftDeleteKeepsItems(db: Db, id: nat, now: int, fails: bool)
    requires Valid(db.items)
    ensures ItemsOfWarehouse(SoftDelete(db, id, now, fails), id) == ItemsOfWarehouse(db, id)
  {
  }

  // ---------------------------------------------------------------- new warehouse

  /** The categories the add-warehouse dialog offers, in display order. */
  const CategoryIds: seq<string> := ["fabric", "accessories", "finished"]

  datatype NewWarehouseForm = NewWarehouseForm(name: string, code: string, location: string, categories: seq<string>)

  /** A name of two or more characters, a code, a location, and at least one category. */
  predicate NewWarehouseValid(v: NewWarehouseForm)
  {
    && Text.Utf16Length(v.name) >= 2 && Text.Utf16Length(v.code) >= 1 && Text.Utf16Length(v.location) >= 1
    && |v.categories| > 0
  }

  function NewWarehouseDefaults(): NewWarehouseForm
  {
    NewWarehouseForm("", "", "", [])
  }

  /** A category box, checked or unchecked, on the form's list. */
  function ToggleCategory(v: NewWarehouseForm, id: string, checked: bool): (r: NewWarehouseForm)
    ensures r.name == v.name && r.code == v.code && r.location == v.location
    ensures checked ==> r.categories == v.categories + [id]
    ensures !checked ==> id !in r.categories && forall c :: c != id ==> (c in r.categories <==> c in v.categories)
  {
    v.(categories := Seqs.Toggle(v.categories, id, checked))
  }

  /** Checking a box from the defaults makes the category requirement hold. */
  lemma CheckedBoxSatisfiesCategories(v: NewWarehouseForm, i: nat)
    requires i < |CategoryIds|
    ensures |ToggleCategory(v, CategoryIds[i], true).categories| > 0
    ensures !NewWarehouseValid(NewWarehouseDefaults())
  {
  }

  /** Unchecking the only checked box makes the form invalid again. */
  lemma UncheckLastCategory(v: NewWarehouseForm, id: string)
    requires v.categories == [id]
    ensures !NewWarehouseValid(ToggleCategory(v, id, false))
  {
    assert [id][1..] == [];
    assert Seqs.RemoveAll([id], id) == [] + Seqs.RemoveAll([], id);
  }

  /** `onSubmit` of the add-warehouse dialog: the values are logged, and nothing is stored. */
  function SubmitNewWarehouse(db: Db, v: NewWarehouseForm): (r: Db)
    ensures r == db
  {
    db
  }

  /** Even a valid form adds no warehouse to the listing. */
  lemma NewWarehouseNotListed(db: Db, v: NewWarehouseForm)
    requires Valid(db.warehouses) && NewWarehouseValid(v)
    ensures |Rows(SubmitNewWarehouse(db, v).warehouses)| == |db.warehouses.rows|
  {
    RowsCount(db.warehouses);
  }
}
