/**
 Supplier invoices: the invoice schema with its two credit refinements, the creation
 form, the invoice list (join with suppliers, date sort, search, status filter), the
 status counts, the remaining balance, and the two delete handlers.
 */
module Invoices {
  import opened Wrappers
  import opened Store
  import Seqs
  import Text

  // ---------------------------------------------------------------- the schema

  /** The values `getInvoiceSchema` is given; `status` is still the raw enum string. */
  datatype InvoiceValues = InvoiceValues(
    invoiceNumber: string,
    supplierId: int,
    amount: real,
    paidAmount: Option<real>,
    paymentMethod: string,
    status: string,
    date: int,
    dueDate: Option<int>,
    notes: Option<string>)

  /** `z.enum(['paid', 'credit', 'cancelled'])`. */
  function ParseStatus(s: string): (r: Option<InvoiceStatus>)
    ensures r.Some? <==> s == "paid" || s == "credit" || s == "cancelled"
    ensures r.Some? ==> r.value.Name() == s
  {
    if s == "paid" then Some(Paid)
    else if s == "credit" then Some(Credit)
    else if s == "cancelled" then Some(Cancelled)
    else None
  }

  /** The per-field rules of the object schema. */
  predicate FieldsValid(v: InvoiceValues)
  {
    && Text.Utf16Length(v.invoiceNumber) >= 1
    && v.supplierId >= 1
    && v.amount >= 0.01
    && (v.paidAmount.Some? ==> v.paidAmount.value >= 0.0)
    && Text.Utf16Length(v.paymentMethod) >= 1
    && ParseStatus(v.status).Some?
  }

  /** First refinement: on credit, the paid part (missing meaning 0) does not exceed the total. */
  predicate CreditPaidWithinAmount(v: InvoiceValues)
  {
    v.status == "credit" ==> v.paidAmount.GetOr(0.0) <= v.amount
  }

  /** Second refinement: a credit invoice has a due date. */
  predicate CreditHasDueDate(v: InvoiceValues)
  {
    !(v.status == "credit" && v.dueDate.None?)
  }

  predicate InvoiceValid(v: InvoiceValues)
  {
    FieldsValid(v) && CreditPaidWithinAmount(v) && CreditHasDueDate(v)
  }

  /**
   For a paid or cancelled invoice the refinements impose nothing: any due date and
   any paid amount the field rule accepts give the same verdict.
   */
  lemma RefinementsOnlyConstrainCredit(v: InvoiceValues, paid: Option<real>, due: Option<int>)
    requires v.status != "credit"
    requires paid.Some? ==> paid.value >= 0.0
    requires v.paidAmount.Some? ==> v.paidAmount.value >= 0.0
    ensures InvoiceValid(v) <==> InvoiceValid(v.(paidAmount := paid, dueDate := due))
  {
  }

  /** On a valid credit invoice the outstanding balance is never negative. */
  lemma ValidCreditBalanceNonNegative(v: InvoiceValues)
    requires InvoiceValid(v) && v.status == "credit"
    ensures v.amount - v.paidAmount.GetOr(0.0) >= 0.0
    ensures v.dueDate.Some?
  {
  }

  // ---------------------------------------------------------------- the form

  /** The fields the invoice form renders: there is no paid-amount and no due-date input. */
  datatype FormInput = FormInput(
    invoiceNumber: string,
    supplierId: int,
    amount: real,
    date: int,
    paymentMethod: string,
    status: string,
    notes: Option<string>)

  function ToValues(f: FormInput): (v: InvoiceValues)
    ensures v.paidAmount == None && v.dueDate == None
    ensures v.invoiceNumber == f.invoiceNumber && v.supplierId == f.supplierId && v.amount == f.amount
    ensures v.date == f.date && v.paymentMethod == f.paymentMethod && v.status == f.status && v.notes == f.notes
  {
    InvoiceValues(f.invoiceNumber, f.supplierId, f.amount, None, f.paymentMethod, f.status, f.date, None, f.notes)
  }

  /** The form opens as a paid cash invoice for supplier 0 with amount 0, dated now. */
  function DefaultInput(now: int): FormInput
  {
    FormInput("", 0, 0.0, now, "cash", "paid", Some(""))
  }

  /** The untouched form fails the schema. */
  lemma DefaultInputRejected(now: int)
    ensures !InvoiceValid(ToValues(DefaultInput(now)))
  {
  }

  /** No entry of the form passes validation as a credit invoice, since no input sets a due date. */
  lemma CreditUnreachable(f: FormInput)
    requires f.status == "credit"
    ensures !InvoiceValid(ToValues(f))
  {
  }

  /** The dropdown's source: suppliers whose status is active, in key order. */
  function ActiveSuppliers(db: Db): (r: seq<Row<Supplier>>)
    requires Valid(db.suppliers)
    ensures forall row: Row<Supplier> :: row in r <==>
      row.id in db.suppliers.rows && db.suppliers.rows[row.id] == row.rec && row.rec.status == SupplierStatus.Active
    ensures Ascending(r)
  {
    var all := Rows(db.suppliers);
    RowsAscending(db.suppliers);
    Seqs.FilterKeepsOrder(all, (row: Row<Supplier>) => row.rec.status == SupplierStatus.Active, (a: Row<Supplier>, b: Row<Supplier>) => a.id < b.id);
    assert forall row: Row<Supplier> :: row in all <==> row.id in db.suppliers.rows && db.suppliers.rows[row.id] == row.rec by {
      forall row: Row<Supplier> | row.id in db.suppliers.rows && db.suppliers.rows[row.id] == row.rec
        ensures row in all
      {
        assert Row(row.id, db.suppliers.rows[row.id]) in all;
      }
    }
    Seqs.Filter(all, (row: Row<Supplier>) => row.rec.status == SupplierStatus.Active)
  }

  /** The dropdown's search box: the name contains the query, ignoring case. */
  function SearchSuppliers(suppliers: seq<Row<Supplier>>, query: string): (r: seq<Row<Supplier>>)
    ensures forall row :: row in r <==> row in suppliers && Text.ContainsIgnoreCase(row.rec.name, query)
    ensures |r| <= |suppliers|
  {
    Seqs.Filter(suppliers, (row: Row<Supplier>) => Text.ContainsIgnoreCase(row.rec.name, query))
  }

  /** An empty search keeps every supplier offered. */
  lemma EmptySupplierSearch(suppliers: seq<Row<Supplier>>)
    ensures forall row :: row in SearchSuppliers(suppliers, "") <==> row in suppliers
  {
    forall row | row in suppliers
      ensures Text.ContainsIgnoreCase(row.rec.name, "")
    {
      Text.ContainsEmpty(Text.Lower(row.rec.name));
    }
  }

  /** The record `db.invoices.add` receives; the payment fields are never written. */
  function NewInvoice(v: InvoiceValues, now: int): (r: Invoice)
    requires InvoiceValid(v)
    ensures r.invoiceNumber == v.invoiceNumber && r.supplierId == v.supplierId && r.amount == v.amount
    ensures r.paymentMethod == v.paymentMethod && r.status.Name() == v.status
    ensures r.date == v.date && r.notes == v.notes
    ensures r.paidAmount == None && r.dueDate == None && r.paidDate == None
    ensures r.createdAt == now && r.updatedAt == now
  {
    Invoice(v.invoiceNumber, v.supplierId, v.amount, None, v.paymentMethod, ParseStatus(v.status).value,
            v.date, None, None, v.notes, now, now)
  }

  /** `onSubmit` behind the schema gate; a failed `add` is caught and writes nothing. */
  function CreateInvoice(db: Db, v: InvoiceValues, now: int, fails: bool): (r: Db)
    requires Valid(db.invoices)
    ensures !InvoiceValid(v) || fails ==> r == db
    ensures InvoiceValid(v) && !fails ==>
      && db.invoices.nextId !in db.invoices.rows
      && r.invoices.rows == db.invoices.rows[db.invoices.nextId := NewInvoice(v, now)]
    ensures Valid(r.invoices)
    ensures r.(invoices := db.invoices) == db
  {
    if !InvoiceValid(v) || fails then db
    else db.(invoices := Insert(db.invoices, NewInvoice(v, now)).0)
  }

  // ---------------------------------------------------------------- balance

  /** `remainingAmount`: the total less what was paid, a missing payment counting as 0. */
  function Remaining(inv: Invoice): (r: real)
    ensures inv.paidAmount.None? ==> r == inv.amount
    ensures r + inv.paidAmount.GetOr(0.0) == inv.amount
  {
    inv.amount - inv.paidAmount.GetOr(0.0)
  }

  /** Every invoice the form creates shows its whole amount as remaining, even when paid. */
  lemma CreatedInvoiceRemaining(db: Db, v: InvoiceValues, now: int)
    requires Valid(db.invoices) && InvoiceValid(v)
    ensures var r := CreateInvoice(db, v, now, false);
      Remaining(r.invoices.rows[db.invoices.nextId]) == v.amount
  {
  }

  // ---------------------------------------------------------------- the join

  /** An invoice row paired with the supplier found for it, if any. */
  datatype Joined = Joined(id: nat, invoice: Invoice, supplier: Option<Row<Supplier>>)

  /** `allSuppliers.find(s => s.id === supplierId)`: the first supplier with that key. */
  function FindSupplier(suppliers: seq<Row<Supplier>>, id: nat): (r: Option<Row<Supplier>>)
    ensures r.Some? ==> r.value in suppliers && r.value.id == id
    ensures r.None? ==> forall k :: 0 <= k < |suppliers| ==> suppliers[k].id != id
  {
    if |suppliers| == 0 then None
    else if suppliers[0].id == id then Some(suppliers[0])
    else FindSupplier(suppliers[1..], id)
  }

  /** Each invoice, in order, with its supplier. */
  function Join(invoices: seq<Row<Invoice>>, suppliers: seq<Row<Supplier>>): (r: seq<Joined>)
    ensures |r| == |invoices|
    ensures forall i :: 0 <= i < |r| ==>
      r[i].id == invoices[i].id && r[i].invoice == invoices[i].rec && r[i].supplier == FindSupplier(suppliers, invoices[i].rec.supplierId)
  {
    if |invoices| == 0 then []
    else [Joined(invoices[0].id, invoices[0].rec, FindSupplier(suppliers, invoices[0].rec.supplierId))] + Join(invoices[1..], suppliers)
  }

  /** Joining invoices listed in key order lists each joined row once. */
  lemma JoinNoRepeats(invoices: seq<Row<Invoice>>, suppliers: seq<Row<Supplier>>)
    requires Ascending(invoices)
    ensures Seqs.NoRepeats(Join(invoices, suppliers))
  {
    var r := Join(invoices, suppliers);
    forall i, j | 0 <= i < j < |r|
      ensures r[i].id < r[j].id
    {
      assert invoices[i].id < invoices[j].id;
    }
    Seqs.IncreasingKeysNoRepeats(r, (x: Joined) => x.id);
  }

  /** One joined row of the store: its invoice is stored, and its supplier is found exactly when stored. */
  lemma JoinedRowFacts(db: Db, j: Joined)
    requires Valid(db.invoices) && Valid(db.suppliers)
    requires j in Join(Rows(db.invoices), Rows(db.suppliers))
    ensures j.id in db.invoices.rows && db.invoices.rows[j.id] == j.invoice
    ensures j.supplier.Some? <==> j.invoice.supplierId in db.suppliers.rows
    ensures j.supplier.Some? ==> j.supplier.value == Row(j.invoice.supplierId, db.suppliers.rows[j.invoice.supplierId])
  {
    var invs := Rows(db.invoices);
    var sups := Rows(db.suppliers);
    var r := Join(invs, sups);
    var i :| 0 <= i < |r| && r[i] == j;
    assert invs[i] in invs;
    var sid := j.invoice.supplierId;
    if sid in db.suppliers.rows {
      var k :| 0 <= k < |sups| && sups[k] == Row(sid, db.suppliers.rows[sid]);
      assert sups[k].id == sid;
    }
  }

  /** Every stored invoice has a joined row. */
  lemma StoredInvoiceJoined(db: Db, id: nat)
    requires Valid(db.invoices) && Valid(db.suppliers)
    requires id in db.invoices.rows
    ensures exists j :: j in Join(Rows(db.invoices), Rows(db.suppliers)) && j.id == id
  {
    var invs := Rows(db.invoices);
    var r := Join(invs, Rows(db.suppliers));
    var i :| 0 <= i < |invs| && invs[i] == Row(id, db.invoices.rows[id]);
    assert r[i] in r;
  }

  /** The joined list of the store: every stored invoice, with its supplier when that key is stored. */
  function JoinStore(db: Db): (r: seq<Joined>)
    requires Valid(db.invoices) && Valid(db.suppliers)
    ensures forall j :: j in r ==> j.id in db.invoices.rows && db.invoices.rows[j.id] == j.invoice
    ensures forall id :: id in db.invoices.rows ==> exists j :: j in r && j.id == id
    ensures forall j :: j in r ==>
      && (j.supplier.Some? <==> j.invoice.supplierId in db.suppliers.rows)
      && (j.supplier.Some? ==> j.supplier.value == Row(j.invoice.supplierId, db.suppliers.rows[j.invoice.supplierId]))
    ensures |r| == |db.invoices.rows|
    ensures Seqs.NoRepeats(r)
  {
    var invs := Rows(db.invoices);
    var sups := Rows(db.suppliers);
    var r := Join(invs, sups);
    RowsCount(db.invoices);
    RowsAscending(db.invoices);
    JoinNoRepeats(invs, sups);
    forall j | j in r
      ensures j.id in db.invoices.rows && db.invoices.rows[j.id] == j.invoice
      ensures j.supplier.Some? <==> j.invoice.supplierId in db.suppliers.rows
      ensures j.supplier.Some? ==> j.supplier.value == Row(j.invoice.supplierId, db.suppliers.rows[j.invoice.supplierId])
    {
      JoinedRowFacts(db, j);
    }
    forall id | id in db.invoices.rows
      ensures exists j :: j in r && j.id == id
    {
      StoredInvoiceJoined(db, id);
    }
    r
  }

  // ---------------------------------------------------------------- the list

  datatype ListState = ListState(searchQuery: string, statusFilter: string, sortOrder: string)

  /** `"newest"` orders by date descending, any other order ascending. */
  function DateLe(sortOrder: string): (Joined, Joined) -> bool
  {
    if sortOrder == "newest" then (a: Joined, b: Joined) => b.invoice.date <= a.invoice.date
    else (a: Joined, b: Joined) => a.invoice.date <= b.invoice.date
  }

  lemma DateLeTotal(sortOrder: string)
    ensures Seqs.TotalPreorder(DateLe(sortOrder))
  {
  }

  /** The lowered query occurs in the lowered number or the lowered supplier name. */
  predicate InvoiceSearchMatches(j: Joined, query: string)
  {
    var q := Text.Lower(query);
    query == ""
    || Text.Contains(Text.Lower(j.invoice.invoiceNumber), q)
    || (j.supplier.Some? && Text.Contains(Text.Lower(j.supplier.value.rec.name), q))
  }

  predicate StatusMatches(j: Joined, statusFilter: string)
  {
    statusFilter == "all" || j.invoice.status.Name() == statusFilter
  }

  /** The invoice list's live query: sort the joined list, then search, then filter by status. */
  function ListInvoices(db: Db, s: ListState): (r: seq<Joined>)
    requires Valid(db.invoices) && Valid(db.suppliers)
    ensures forall j :: j in r <==> j in JoinStore(db) && InvoiceSearchMatches(j, s.searchQuery) && StatusMatches(j, s.statusFilter)
    ensures Seqs.Sorted(r, DateLe(s.sortOrder))
    ensures multiset(r) <= multiset(JoinStore(db))
    ensures Seqs.NoRepeats(r)
  {
    var le := DateLe(s.sortOrder);
    DateLeTotal(s.sortOrder);
    var joined := JoinStore(db);
    var sorted := Seqs.Sort(joined, le);
    Seqs.SortSameElements(joined, le);
    var searched := Seqs.Filter(sorted, (j: Joined) => InvoiceSearchMatches(j, s.searchQuery));
    Seqs.FilterKeepsOrder(sorted, (j: Joined) => InvoiceSearchMatches(j, s.searchQuery), le);
    Seqs.FilterKeepsOrder(searched, (j: Joined) => StatusMatches(j, s.statusFilter), le);
    var r := Seqs.Filter(searched, (j: Joined) => StatusMatches(j, s.statusFilter));
    Seqs.SubNoRepeats(r, joined);
    r
  }

  /** With no search and status "all" the list shows every stored invoice. */
  lemma ListShowsAllByDefault(db: Db, sortOrder: string)
    requires Valid(db.invoices) && Valid(db.suppliers)
    ensures forall id :: id in db.invoices.rows ==>
      exists j :: j in ListInvoices(db, ListState("", "all", sortOrder)) && j.id == id
  {
    var r := ListInvoices(db, ListState("", "all", sortOrder));
    forall id | id in db.invoices.rows
      ensures exists j :: j in r && j.id == id
    {
      var j :| j in JoinStore(db) && j.id == id;
      assert InvoiceSearchMatches(j, "") && StatusMatches(j, "all");
      assert j in r;
    }
  }

  /** The invoices table: every joined row, newest `createdAt` first. */
  function TableInvoices(db: Db): (r: seq<Joined>)
    requires Valid(db.invoices) && Valid(db.suppliers)
    ensures multiset(r) == multiset(JoinStore(db))
    ensures Seqs.Sorted(r, (a: Joined, b: Joined) => b.invoice.createdAt <= a.invoice.createdAt)
    ensures |r| == |db.invoices.rows| && Seqs.NoRepeats(r)
  {
    var r := Seqs.Sort(JoinStore(db), (a: Joined, b: Joined) => b.invoice.createdAt <= a.invoice.createdAt);
    Seqs.SubNoRepeats(r, JoinStore(db));
    r
  }

  // ---------------------------------------------------------------- counts

  /** `where('status').equals(status).count()`. */
  function StatusCount(db: Db, status: InvoiceStatus): nat
    requires Valid(db.invoices)
  {
    Seqs.Count(Rows(db.invoices), (row: Row<Invoice>) => row.rec.status == status)
  }

  /** The three status counts add up to the total count. */
  lemma StatusCountsPartition(db: Db)
    requires Valid(db.invoices)
    ensures StatusCount(db, Paid) + StatusCount(db, Credit) + StatusCount(db, Cancelled) == |db.invoices.rows|
  {
    RowsCount(db.invoices);
    Seqs.CountPartition3(Rows(db.invoices),
      (row: Row<Invoice>) => row.rec.status == Paid,
      (row: Row<Invoice>) => row.rec.status == Credit,
      (row: Row<Invoice>) => row.rec.status == Cancelled);
  }

  /** Creating an invoice raises exactly its own status's count by one. */
  lemma CreateInvoiceCounts(db: Db, v: InvoiceValues, now: int, status: InvoiceStatus)
    requires Valid(db.invoices) && InvoiceValid(v)
    ensures var r := CreateInvoice(db, v, now, false);
      StatusCount(r, status) == StatusCount(db, status) + (if status.Name() == v.status then 1 else 0)
  {
    var inv := NewInvoice(v, now);
    var r := CreateInvoice(db, v, now, false);
    RowsAfterInsert(db.invoices, inv);
    var p := (row: Row<Invoice>) => row.rec.status == status;
    Seqs.CountAppend(Rows(db.invoices), Row(db.invoices.nextId, inv), p);
  }

  // ---------------------------------------------------------------- deletes

  /** The invoice card's delete: removes that key and nothing else; a failure writes nothing. */
  function DeleteInvoice(db: Db, id: nat, fails: bool): (r: Db)
    ensures fails ==> r == db
    ensures !fails ==> id !in r.invoices.rows && r.invoices.nextId == db.invoices.nextId
    ensures forall k :: k != id ==> (k in r.invoices.rows <==> k in db.invoices.rows)
    ensures forall k :: k != id && k in r.invoices.rows ==> r.invoices.rows[k] == db.invoices.rows[k]
    ensures r.(invoices := db.invoices) == db
  {
    if fails then db else db.(invoices := Delete(db.invoices, id))
  }

  /** After a delete the listing is the old listing without that key. */
  lemma DeleteInvoiceRows(db: Db, id: nat)
    requires Valid(db.invoices)
    ensures Valid(DeleteInvoice(db, id, false).invoices)
    ensures Rows(DeleteInvoice(db, id, false).invoices) == Seqs.Filter(Rows(db.invoices), (row: Row<Invoice>) => row.id != id)
  {
    RowsAfterDelete(db.invoices, id);
  }

  /** The table's `handleDelete`: no selection (null or 0) writes nothing. */
  function TableDelete(db: Db, deleteId: Option<nat>, fails: bool): (r: Db)
    ensures deleteId.None? || deleteId == Some(0) || fails ==> r == db
    ensures deleteId.Some? && deleteId.value != 0 && !fails ==> r == DeleteInvoice(db, deleteId.value, false)
  {
    if deleteId.None? || deleteId.value == 0 || fails then db
    else DeleteInvoice(db, deleteId.value, false)
  }
}
