/**
 Suppliers: the add-supplier form with its two checkbox lists, the supplier list
 (key order or its reverse, search, status filter), the status counts, the status
 change, and delete.
 */
module Suppliers {
  import opened Wrappers
  import opened Store
  import Seqs
  import Text
  import Invoices

  /** The checkbox choices the dialog offers. */
  const Categories: seq<string> := ["fabric", "accessories", "machines", "services"]
  const PaymentMethods: seq<string> := ["cash", "credit", "check", "bank_transfer"]

  // ---------------------------------------------------------------- the form

  datatype SupplierForm = SupplierForm(
    name: string,
    contactPerson: Option<string>,
    phone: string,
    email: Option<string>,
    address: Option<string>,
    status: string,
    supplyCategories: seq<string>,
    taxId: Option<string>,
    commercialRecord: Option<string>,
    paymentMethods: Option<seq<string>>)

  /** `z.enum(["active", "inactive", "blocked"])`. */
  function ParseStatus(s: string): (r: Option<SupplierStatus>)
    ensures r.Some? <==> s == "active" || s == "inactive" || s == "blocked"
    ensures r.Some? ==> r.value.Name() == s
  {
    if s == "active" then Some(SupplierStatus.Active)
    else if s == "inactive" then Some(Inactive)
    else if s == "blocked" then Some(SupplierStatus.Blocked)
    else None
  }

  /** `email().optional().or(z.literal(""))`: absent, empty, or well formed. */
  predicate EmailAccepted(email: Option<string>, isEmail: string -> bool)
  {
    email.None? || email.value == "" || isEmail(email.value)
  }

  /** The dialog's schema; the email format check is zod's, passed in as `isEmail`. */
  predicate SupplierValid(v: SupplierForm, isEmail: string -> bool)
  {
    && Text.Utf16Length(v.name) >= 2
    && Text.Utf16Length(v.phone) >= 1
    && EmailAccepted(v.email, isEmail)
    && ParseStatus(v.status).Some?
    && |v.supplyCategories| > 0
  }

  function SupplierDefaults(): (v: SupplierForm)
    ensures v.status == "active" && v.supplyCategories == [] && v.paymentMethods == Some([])
  {
    SupplierForm("", Some(""), "", Some(""), Some(""), "active", [], Some(""), Some(""), Some([]))
  }

  /** The untouched form is refused; the empty email is never the reason. */
  lemma SupplierDefaultsRejected(isEmail: string -> bool)
    ensures !SupplierValid(SupplierDefaults(), isEmail)
    ensures EmailAccepted(SupplierDefaults().email, isEmail)
  {
  }

  /** A supply-category box: checked appends, unchecked removes every occurrence. */
  function ToggleCategory(v: SupplierForm, cat: string, checked: bool): (r: SupplierForm)
    ensures r.(supplyCategories := v.supplyCategories) == v
    ensures checked ==> r.supplyCategories == v.supplyCategories + [cat]
    ensures !checked ==> cat !in r.supplyCategories && forall c :: c != cat ==> (c in r.supplyCategories <==> c in v.supplyCategories)
  {
    v.(supplyCategories := Seqs.Toggle(v.supplyCategories, cat, checked))
  }

  /**
   A payment-method box: an undefined list becomes `[method]` when checked and stays
   undefined when unchecked.
   */
  function TogglePayment(v: SupplierForm, pm: string, checked: bool): (r: SupplierForm)
    ensures r.(paymentMethods := v.paymentMethods) == v
    ensures checked && v.paymentMethods.None? ==> r.paymentMethods == Some([pm])
    ensures checked && v.paymentMethods.Some? ==> r.paymentMethods == Some(v.paymentMethods.value + [pm])
    ensures !checked && v.paymentMethods.None? ==> r.paymentMethods == None
    ensures !checked && v.paymentMethods.Some? ==>
      r.paymentMethods.Some? && pm !in r.paymentMethods.value
      && forall m :: m != pm ==> (m in r.paymentMethods.value <==> m in v.paymentMethods.value)
  {
    match v.paymentMethods
    case None => if checked then v.(paymentMethods := Some([pm])) else v
    case Some(ms) => v.(paymentMethods := Some(Seqs.Toggle(ms, pm, checked)))
  }

  /** Checking a payment method and unchecking it again restores the selection. */
  lemma TogglePaymentOnOff(v: SupplierForm, pm: string)
    requires v.paymentMethods.Some? && pm !in v.paymentMethods.value
    ensures TogglePayment(TogglePayment(v, pm, true), pm, false) == v
  {
    Seqs.ToggleOnOff(v.paymentMethods.value, pm);
  }

  /** Checking a category box satisfies the category requirement, whatever else was checked. */
  lemma CheckedCategorySatisfies(v: SupplierForm, cat: string)
    ensures |ToggleCategory(v, cat, true).supplyCategories| > 0
  {
  }

  /** The record `db.suppliers.add` receives: the form fields, an empty email as absent. */
  function NewSupplier(v: SupplierForm, isEmail: string -> bool, now: int): (r: Supplier)
    requires SupplierValid(v, isEmail)
    ensures r.name == v.name && r.contactPerson == v.contactPerson && r.phone == v.phone
    ensures r.email == NonEmpty(v.email) && (r.email.Some? ==> isEmail(r.email.value))
    ensures r.address == v.address && r.status.Name() == v.status
    ensures r.supplyCategories == v.supplyCategories && |r.supplyCategories| > 0
    ensures r.taxId == v.taxId && r.commercialRecord == v.commercialRecord && r.paymentMethods == v.paymentMethods
    ensures r.createdAt == now && r.updatedAt == now
  {
    Supplier(v.name, v.contactPerson, v.phone, NonEmpty(v.email), v.address, ParseStatus(v.status).value,
             v.supplyCategories, v.taxId, v.commercialRecord, v.paymentMethods, now, now)
  }

  /** `onSubmit` behind the schema gate; a failed `add` is caught and writes nothing. */
  function CreateSupplier(db: Db, v: SupplierForm, isEmail: string -> bool, now: int, fails: bool): (r: Db)
    requires Valid(db.suppliers)
    ensures !SupplierValid(v, isEmail) || fails ==> r == db
    ensures SupplierValid(v, isEmail) && !fails ==>
      && db.suppliers.nextId !in db.suppliers.rows
      && r.suppliers.rows == db.suppliers.rows[db.suppliers.nextId := NewSupplier(v, isEmail, now)]
    ensures Valid(r.suppliers)
    ensures r.(suppliers := db.suppliers) == db
  {
    if !SupplierValid(v, isEmail) || fails then db
    else db.(suppliers := Insert(db.suppliers, NewSupplier(v, isEmail, now)).0)
  }

  // ---------------------------------------------------------------- the list

  datatype ListState = ListState(searchQuery: string, statusFilter: string, sortOrder: string)

  /** The lowered query occurs in the lowered name, the raw phone, or the lowered contact person. */
  predicate SupplierSearchMatches(s: Supplier, query: string)
  {
    var q := Text.Lower(query);
    query == ""
    || Text.Contains(Text.Lower(s.name), q)
    || Text.Contains(s.phone, q)
    || (Truthy(s.contactPerson) && Text.Contains(Text.Lower(s.contactPerson.value), q))
  }

  predicate StatusMatches(s: Supplier, statusFilter: string)
  {
    statusFilter == "all" || s.status.Name() == statusFilter
  }

  /** The order the list comes out in: descending keys for "newest", ascending otherwise. */
  function KeyOrder(sortOrder: string): (Row<Supplier>, Row<Supplier>) -> bool
  {
    if sortOrder == "newest" then (a: Row<Supplier>, b: Row<Supplier>) => a.id > b.id
    else (a: Row<Supplier>, b: Row<Supplier>) => a.id < b.id
  }

  /** `toCollection()`, reversed for "newest". */
  function Collection(db: Db, sortOrder: string): (r: seq<Row<Supplier>>)
    requires Valid(db.suppliers)
    ensures forall row: Row<Supplier> :: row in r <==> row.id in db.suppliers.rows && db.suppliers.rows[row.id] == row.rec
    ensures Seqs.Sorted(r, KeyOrder(sortOrder))
  {
    var rows := Rows(db.suppliers);
    forall row: Row<Supplier>
      ensures row in rows <==> row.id in db.suppliers.rows && db.suppliers.rows[row.id] == row.rec
    {
      RowMembership(db.suppliers, row);
    }
    if sortOrder == "newest" then
      var r := Seqs.Reverse(rows);
      assert forall row :: row in r <==> row in rows by {
        forall row | row in rows
          ensures row in r
        {
          var i :| 0 <= i < |rows| && rows[i] == row;
          assert r[|rows| - 1 - i] == row;
        }
      }
      r
    else rows
  }

  /** The supplier list's live query: collection order, then search, then status filter. */
  function ListSuppliers(db: Db, s: ListState): (r: seq<Row<Supplier>>)
    requires Valid(db.suppliers)
    ensures forall row: Row<Supplier> :: row in r <==>
      && row.id in db.suppliers.rows && db.suppliers.rows[row.id] == row.rec
      && SupplierSearchMatches(row.rec, s.searchQuery) && StatusMatches(row.rec, s.statusFilter)
    ensures Seqs.Sorted(r, KeyOrder(s.sortOrder))
  {
    var all := Collection(db, s.sortOrder);
    var searched := Seqs.Filter(all, (row: Row<Supplier>) => SupplierSearchMatches(row.rec, s.searchQuery));
    Seqs.FilterKeepsOrder(all, (row: Row<Supplier>) => SupplierSearchMatches(row.rec, s.searchQuery), KeyOrder(s.sortOrder));
    Seqs.FilterKeepsOrder(searched, (row: Row<Supplier>) => StatusMatches(row.rec, s.statusFilter), KeyOrder(s.sortOrder));
    Seqs.Filter(searched, (row: Row<Supplier>) => StatusMatches(row.rec, s.statusFilter))
  }

  /**
   The query is lowered but the phone is searched as stored, so wherever a search hits
   the phone, that part of the phone holds no upper-case letter.
   */
  lemma PhoneHitHasNoUpper(s: Supplier, query: string, i: int)
    requires Text.OccursAt(s.phone, Text.Lower(query), i)
    ensures forall k :: i <= k < i + |query| ==> !Text.IsUpper(s.phone[k])
  {
    Text.LowerHasNoUpper(query);
    Text.MatchHasNoUpper(s.phone, Text.Lower(query), i);
  }

  /**
   The query is lowered but the phone is searched as stored: a supplier whose name and
   contact miss the query is never found through a phone of upper-case letters.
   */
  lemma UpperPhoneNeverMatched(s: Supplier, query: string)
    requires query != ""
    requires !Text.Contains(Text.Lower(s.name), Text.Lower(query))
    requires !(Truthy(s.contactPerson) && Text.Contains(Text.Lower(s.contactPerson.value), Text.Lower(query)))
    requires forall k :: 0 <= k < |s.phone| ==> Text.IsUpper(s.phone[k])
    ensures !SupplierSearchMatches(s, query)
  {
    var q := Text.Lower(query);
    forall i | 0 <= i <= |s.phone|
      ensures !Text.OccursAt(s.phone, q, i)
    {
      if i + |q| <= |s.phone| {
        assert s.phone[i..i + |q|][0] == s.phone[i];
      }
    }
  }

  // ---------------------------------------------------------------- counts

  function StatusCount(db: Db, status: SupplierStatus): nat
    requires Valid(db.suppliers)
  {
    Seqs.Count(Rows(db.suppliers), (row: Row<Supplier>) => row.rec.status == status)
  }

  lemma StatusCountsPartition(db: Db)
    requires Valid(db.suppliers)
    ensures StatusCount(db, SupplierStatus.Active) + StatusCount(db, Inactive) + StatusCount(db, SupplierStatus.Blocked) == |db.suppliers.rows|
  {
    RowsCount(db.suppliers);
    Seqs.CountPartition3(Rows(db.suppliers),
      (row: Row<Supplier>) => row.rec.status == SupplierStatus.Active,
      (row: Row<Supplier>) => row.rec.status == Inactive,
      (row: Row<Supplier>) => row.rec.status == SupplierStatus.Blocked);
  }

  /** Creating a supplier raises the count of its own status by one and leaves the other counts alone. */
  lemma CreateSupplierCounts(db: Db, v: SupplierForm, isEmail: string -> bool, now: int, status: SupplierStatus)
    requires Valid(db.suppliers) && SupplierValid(v, isEmail)
    ensures var r := CreateSupplier(db, v, isEmail, now, false);
      StatusCount(r, status) == StatusCount(db, status) + (if status.Name() == v.status then 1 else 0)
  {
    var s := NewSupplier(v, isEmail, now);
    RowsAfterInsert(db.suppliers, s);
    var p := (row: Row<Supplier>) => row.rec.status == status;
    Seqs.CountAppend(Rows(db.suppliers), Row(db.suppliers.nextId, s), p);
    assert s.status == status <==> status.Name() == v.status by {
      assert ParseStatus(v.status).value == s.status;
    }
  }

  // ---------------------------------------------------------------- status and delete

  /** `handleStatusUpdate`: only `status` is written, not even `updatedAt`. */
  function SetStatus(db: Db, id: nat, status: SupplierStatus, fails: bool): (r: Db)
    ensures fails || id !in db.suppliers.rows ==> r == db
    ensures !fails && id in db.suppliers.rows ==>
      r.suppliers.rows == db.suppliers.rows[id := db.suppliers.rows[id].(status := status)]
    ensures r.suppliers.nextId == db.suppliers.nextId && r.suppliers.rows.Keys == db.suppliers.rows.Keys
    ensures r.(suppliers := db.suppliers) == db
  {
    if fails then db
    else
      match Get(db.suppliers, id)
      case None => db
      case Some(s) => db.(suppliers := Update(db.suppliers, id, s.(status := status)))
  }

  /** Setting a status twice is setting it once, and setting it back restores the record. */
  lemma SetStatusRoundTrip(db: Db, id: nat, status: SupplierStatus)
    requires id in db.suppliers.rows
    ensures SetStatus(SetStatus(db, id, status, false), id, status, false) == SetStatus(db, id, status, false)
    ensures SetStatus(SetStatus(db, id, status, false), id, db.suppliers.rows[id].status, false) == db
  {
    var s := db.suppliers.rows[id];
    assert s.(status := status).(status := s.status) == s;
    assert db.suppliers.rows[id := s] == db.suppliers.rows;
  }

  /** A status change moves the supplier from one count to the other and keeps the total. */
  lemma SetStatusCounts(db: Db, id: nat, status: SupplierStatus)
    requires Valid(db.suppliers) && id in db.suppliers.rows
    ensures var r := SetStatus(db, id, status, false);
      && Valid(r.suppliers)
      && StatusCount(r, SupplierStatus.Active) + StatusCount(r, Inactive) + StatusCount(r, SupplierStatus.Blocked) == |db.suppliers.rows|
  {
    var r := SetStatus(db, id, status, false);
    StatusCountsPartition(r);
  }

  /** `handleDelete`: removes that supplier only; invoices naming it are left as they are. */
  function DeleteSupplier(db: Db, id: nat, fails: bool): (r: Db)
    ensures fails ==> r == db
    ensures !fails ==> id !in r.suppliers.rows && r.suppliers.nextId == db.suppliers.nextId
    ensures forall k :: k != id ==> (k in r.suppliers.rows <==> k in db.suppliers.rows)
    ensures forall k :: k != id && k in r.suppliers.rows ==> r.suppliers.rows[k] == db.suppliers.rows[k]
    ensures r.invoices == db.invoices
    ensures r.(suppliers := db.suppliers) == db
  {
    if fails then db else db.(suppliers := Delete(db.suppliers, id))
  }

  /** After a supplier is deleted, the invoice list shows its invoices without a supplier. */
  lemma DeleteSupplierOrphansInvoices(db: Db, id: nat)
    requires Valid(db.invoices) && Valid(db.suppliers)
    ensures var r := DeleteSupplier(db, id, false);
      && Valid(r.suppliers)
      && forall j :: j in Invoices.JoinStore(r) && j.invoice.supplierId == id ==> j.supplier == None
  {
  }
}
