/**
 The browser-local database: one table per entity, each keyed by an auto-incremented
 primary key (`++id`). Record fields are the ones the handlers read and write; the
 declared `Warehouse` and `Item` shapes of `lib/db.ts` lack `isActive` and
 `totalQuantity`, which the handlers nevertheless use, so both appear here as optional.
 Dates are millisecond timestamps (`Date.getTime()`).
 */
module Store {
  import opened Wrappers
  import Seqs

  // ---------------------------------------------------------------- records

  datatype Warehouse = Warehouse(
    name: string,
    code: string,
    location: string,
    categories: seq<string>,
    isActive: Option<bool>,
    createdAt: int,
    updatedAt: int)

  /** A parent product; category-specific attributes are all optional. */
  datatype Item = Item(
    warehouseId: nat,
    name: string,
    sku: string,
    category: string,
    quantity: int,
    minQuantity: int,
    unit: string,
    price: Option<real>,
    fabricType: Option<string>,
    color: Option<string>,
    width: Option<real>,
    weight: Option<real>,
    accessoryType: Option<string>,
    size: Option<string>,
    material: Option<string>,
    totalQuantity: Option<int>,
    createdAt: int,
    updatedAt: int)

  /** A batch or roll of stock received for an item. */
  datatype Variant = Variant(
    itemId: nat,
    warehouseId: nat,
    quantity: int,
    price: real,
    color: Option<string>,
    width: Option<real>,
    weight: Option<real>,
    size: Option<string>,
    material: Option<string>,
    accessoryType: Option<string>,
    createdAt: int,
    updatedAt: int)

  datatype SupplierStatus = Active | Inactive | Blocked {
    function Name(): string
    {
      match this
      case Active => "active"
      case Inactive => "inactive"
      case Blocked => "blocked"
    }
  }

  datatype Supplier = Supplier(
    name: string,
    contactPerson: Option<string>,
    phone: string,
    email: Option<string>,
    address: Option<string>,
    status: SupplierStatus,
    supplyCategories: seq<string>,
    taxId: Option<string>,
    commercialRecord: Option<string>,
    paymentMethods: Option<seq<string>>,
    createdAt: int,
    updatedAt: int)

  datatype InvoiceStatus = Paid | Credit | Cancelled {
    function Name(): string
    {
      match this
      case Paid => "paid"
      case Credit => "credit"
      case Cancelled => "cancelled"
    }
  }

  datatype Invoice = Invoice(
    invoiceNumber: string,
    supplierId: nat,
    amount: real,
    paidAmount: Option<real>,
    paymentMethod: string,
    status: InvoiceStatus,
    date: int,
    dueDate: Option<int>,
    paidDate: Option<int>,
    notes: Option<string>,
    createdAt: int,
    updatedAt: int)

  datatype Role = Admin | RegularUser {
    function Name(): string
    {
      match this
      case Admin => "admin"
      case RegularUser => "user"
    }
  }

  datatype UserStatus = Active | Blocked {
    function Name(): string
    {
      match this
      case Active => "active"
      case Blocked => "blocked"
    }
  }

  datatype User = User(
    username: string,
    password: string,
    displayName: string,
    role: Role,
    status: UserStatus,
    profileImage: Option<string>,
    createdAt: int,
    updatedAt: int)

  // ---------------------------------------------------------------- tables

  /** A record together with its primary key, as `toArray()` hands it out. */
  datatype Row<T> = Row(id: nat, rec: T)

  /** A table: the stored records and the auto-increment key generator. */
  datatype Table<T> = Table(rows: map<nat, T>, nextId: nat)

  /** Keys start at 1 and every stored key was issued by the generator. */
  predicate Valid<T>(t: Table<T>)
  {
    t.nextId >= 1 && forall k :: k in t.rows ==> 1 <= k < t.nextId
  }

  function EmptyTable<T>(): (t: Table<T>)
    ensures Valid(t) && t.rows == map[]
  {
    Table(map[], 1)
  }

  function Get<T>(t: Table<T>, id: nat): (r: Option<T>)
    ensures r.Some? <==> id in t.rows
    ensures r.Some? ==> r.value == t.rows[id]
  {
    if id in t.rows then Some(t.rows[id]) else None
  }

  /** `table.add(record)`: stores the record under a fresh key and returns the key. */
  function Insert<T>(t: Table<T>, r: T): (res: (Table<T>, nat))
    requires Valid(t)
    ensures Valid(res.0)
    ensures res.1 >= 1 && res.1 !in t.rows
    ensures forall k :: k in t.rows ==> k < res.1
    ensures res.0.rows == t.rows[res.1 := r]
  {
    (Table(t.rows[t.nextId := r], t.nextId + 1), t.nextId)
  }

  /** `table.update(id, changes)` with the changed record: a missing key changes nothing. */
  function Update<T>(t: Table<T>, id: nat, r: T): (res: Table<T>)
    ensures Valid(t) ==> Valid(res)
    ensures id in t.rows ==> res.rows == t.rows[id := r] && res.nextId == t.nextId
    ensures id !in t.rows ==> res == t
  {
    if id in t.rows then t.(rows := t.rows[id := r]) else t
  }

  /** `table.delete(id)`: removes that key if present; the generator is not rewound. */
  function Delete<T>(t: Table<T>, id: nat): (res: Table<T>)
    ensures Valid(t) ==> Valid(res)
    ensures id !in res.rows && res.nextId == t.nextId
    ensures forall k :: k != id ==> (k in res.rows <==> k in t.rows)
    ensures forall k :: k != id && k in res.rows ==> res.rows[k] == t.rows[k]
  {
    t.(rows := t.rows - {id})
  }

  // ---------------------------------------------------------------- ordered reads

  /** The stored records with keys below `n`, in ascending key order. */
  function RowsBelow<T>(rows: map<nat, T>, n: nat): seq<Row<T>>
  {
    if n == 0 then []
    else
      var prefix := RowsBelow(rows, n - 1);
      if n - 1 in rows then prefix + [Row(n - 1, rows[n - 1])] else prefix
  }

  lemma {:induction false} RowsBelowFacts<T>(rows: map<nat, T>, n: nat)
    ensures forall i :: 0 <= i < |RowsBelow(rows, n)| ==> RowsBelow(rows, n)[i].id < n && RowsBelow(rows, n)[i].id in rows && rows[RowsBelow(rows, n)[i].id] == RowsBelow(rows, n)[i].rec
    ensures forall k :: k < n && k in rows ==> Row(k, rows[k]) in RowsBelow(rows, n)
    ensures forall i, j :: 0 <= i < j < |RowsBelow(rows, n)| ==> RowsBelow(rows, n)[i].id < RowsBelow(rows, n)[j].id
  {
    if n > 0 {
      RowsBelowFacts(rows, n - 1);
      var prefix := RowsBelow(rows, n - 1);
      var r := RowsBelow(rows, n);
      assert r[..|prefix|] == prefix;
      forall i | 0 <= i < |r|
        ensures r[i].id < n && r[i].id in rows && rows[r[i].id] == r[i].rec
      {
        if i < |prefix| {
          assert r[i] == prefix[i];
        }
      }
      forall k | k < n && k in rows
        ensures Row(k, rows[k]) in r
      {
        if k < n - 1 {
          assert Row(k, rows[k]) in prefix;
        }
      }
      forall i, j | 0 <= i < j < |r|
        ensures r[i].id < r[j].id
      {
        assert r[i] == prefix[i];
        if j < |prefix| {
          assert r[j] == prefix[j];
        }
      }
    }
  }

  lemma RowsFacts<T>(t: Table<T>)
    requires Valid(t)
    ensures forall k :: k in t.rows ==> Row(k, t.rows[k]) in RowsBelow(t.rows, t.nextId)
  {
    RowsBelowFacts(t.rows, t.nextId);
    forall k | k in t.rows
      ensures Row(k, t.rows[k]) in RowsBelow(t.rows, t.nextId)
    {
      assert k < t.nextId;
    }
  }

  /** `table.toArray()`: every record, in primary-key order. */
  function Rows<T>(t: Table<T>): (r: seq<Row<T>>)
    requires Valid(t)
    ensures forall i :: 0 <= i < |r| ==> r[i].id in t.rows && t.rows[r[i].id] == r[i].rec
    ensures forall k :: k in t.rows ==> Row(k, t.rows[k]) in r
    ensures forall i, j :: 0 <= i < j < |r| ==> r[i].id < r[j].id
  {
    RowsBelowFacts(t.rows, t.nextId);
    RowsFacts(t);
    RowsBelow(t.rows, t.nextId)
  }

  /** Rows listed in strictly ascending key order. */
  ghost predicate Ascending<T>(s: seq<Row<T>>)
  {
    Seqs.Sorted(s, (a: Row<T>, b: Row<T>) => a.id < b.id)
  }

  /** Rows listed in strictly increasing key order are listed once each. */
  lemma AscendingNoRepeats<T(!new)>(s: seq<Row<T>>)
    requires Ascending(s)
    ensures Seqs.NoRepeats(s)
  {
    Seqs.IncreasingKeysNoRepeats(s, (row: Row<T>) => row.id);
  }

  lemma RowsAscending<T>(t: Table<T>)
    requires Valid(t)
    ensures Ascending(Rows(t))
  {
    var r := Rows(t);
    assert forall i, j :: 0 <= i < j < |r| ==> r[i].id < r[j].id;
  }

  /** Two maps that agree below `n` list the same rows below `n`. */
  lemma {:induction false} RowsBelowAgree<T>(a: map<nat, T>, b: map<nat, T>, n: nat)
    requires forall k :: k < n ==> (k in a <==> k in b)
    requires forall k :: k < n && k in a ==> a[k] == b[k]
    ensures RowsBelow(a, n) == RowsBelow(b, n)
  {
    if n > 0 {
      RowsBelowAgree(a, b, n - 1);
    }
  }

  /** A record added with `add` appears at the end of `toArray()`. */
  lemma RowsAfterInsert<T>(t: Table<T>, r: T)
    requires Valid(t)
    ensures Rows(Insert(t, r).0) == Rows(t) + [Row(Insert(t, r).1, r)]
  {
    var (t', id) := Insert(t, r);
    RowsBelowAgree(t'.rows, t.rows, t.nextId);
  }

  /** `count()` equals the number of stored records. */
  lemma RowsCount<T>(t: Table<T>)
    requires Valid(t)
    ensures |Rows(t)| == |t.rows|
  {
    RowsBelowCount(t.rows, t.nextId);
    assert (set k | k in t.rows && k < t.nextId) == t.rows.Keys;
  }

  lemma {:induction false} RowsBelowCount<T>(rows: map<nat, T>, n: nat)
    ensures |RowsBelow(rows, n)| == |set k | k in rows && k < n|
  {
    if n > 0 {
      RowsBelowCount(rows, n - 1);
      var below := set k | k in rows && k < n - 1;
      var upto := set k | k in rows && k < n;
      if n - 1 in rows {
        assert upto == below + {n - 1};
        assert |upto| == |below| + 1;
        assert RowsBelow(rows, n) == RowsBelow(rows, n - 1) + [Row(n - 1, rows[n - 1])];
      } else {
        assert upto == below;
        assert RowsBelow(rows, n) == RowsBelow(rows, n - 1);
      }
    }
  }

  /** After `delete(id)`, `toArray()` is the previous listing without that record. */
  lemma RowsAfterDelete<T(!new)>(t: Table<T>, id: nat)
    requires Valid(t)
    ensures Rows(Delete(t, id)) == Seqs.Filter(Rows(t), (row: Row<T>) => row.id != id)
  {
    var p := (row: Row<T>) => row.id != id;
    var all := Rows(t);
    var after := Rows(Delete(t, id));
    var kept := Seqs.Filter(all, p);
    RowsAscending(t);
    Seqs.FilterKeepsOrder(all, p, (a: Row<T>, b: Row<T>) => a.id < b.id);
    assert forall i, j :: 0 <= i < j < |kept| ==> kept[i].id < kept[j].id;
    forall x: Row<T>
      ensures x in after <==> x in kept
    {
      RowMembership(t, x);
      RowMembership(Delete(t, id), x);
    }
    Seqs.IncreasingKeysUnique(after, kept, (row: Row<T>) => row.id);
  }

  /** A row is listed by `toArray()` exactly when its key is stored with that record. */
  lemma RowMembership<T>(t: Table<T>, x: Row<T>)
    requires Valid(t)
    ensures x in Rows(t) <==> x.id in t.rows && t.rows[x.id] == x.rec
  {
    if x in Rows(t) {
      var i :| 0 <= i < |Rows(t)| && Rows(t)[i] == x;
    }
  }

  // ---------------------------------------------------------------- the database

  datatype Db = Db(
    warehouses: Table<Warehouse>,
    items: Table<Item>,
    variants: Table<Variant>,
    suppliers: Table<Supplier>,
    invoices: Table<Invoice>,
    users: Table<User>)

  predicate DbValid(db: Db)
  {
    && Valid(db.warehouses)
    && Valid(db.items)
    && Valid(db.variants)
    && Valid(db.suppliers)
    && Valid(db.invoices)
    && Valid(db.users)
  }

  function EmptyDb(): (db: Db)
    ensures DbValid(db)
  {
    Db(EmptyTable(), EmptyTable(), EmptyTable(), EmptyTable(), EmptyTable(), EmptyTable())
  }

  /**
   `db.items.where("warehouseId").equals(w).toArray()`: the warehouse index returns
   exactly the items of that warehouse, in primary-key order.
   */
  function ItemsOfWarehouse(db: Db, warehouseId: nat): (r: seq<Row<Item>>)
    requires Valid(db.items)
    ensures forall row: Row<Item> :: row in r <==> row.id in db.items.rows && db.items.rows[row.id] == row.rec && row.rec.warehouseId == warehouseId
    ensures Ascending(r)
  {
    var all := Rows(db.items);
    var r := Seqs.Filter(all, (row: Row<Item>) => row.rec.warehouseId == warehouseId);
    RowsAscending(db.items);
    Seqs.FilterKeepsOrder(all, (row: Row<Item>) => row.rec.warehouseId == warehouseId, (a: Row<Item>, b: Row<Item>) => a.id < b.id);
    assert forall row: Row<Item> :: row in all <==> row.id in db.items.rows && db.items.rows[row.id] == row.rec by {
      forall row: Row<Item> | row.id in db.items.rows && db.items.rows[row.id] == row.rec
        ensures row in all
      {
        assert Row(row.id, db.items.rows[row.id]) in all;
      }
    }
    r
  }
}
