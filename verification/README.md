# FabriSys core, modelled in Dafny

FabriSys is a small inventory and invoicing application. Its state is one browser-side
store with six tables: warehouses, items, variants, suppliers, invoices and users. The
dialogs and pages of the application read and write that store. This project models
the following parts:

- the store itself. Each table is a map from auto-incremented keys to records.
  `add` issues a fresh key, and `update` or `delete` of a missing key does nothing.
- the shared validation schemas and `validateInput`.
- every write handler, as a pure function from a store to a store:
  - receiving stock into an item (a variant insert plus an update of the item's
    cached total, in one transaction);
  - creating an item;
  - saving and soft-deleting a warehouse, and the new-warehouse form (which stores
    nothing);
  - creating and deleting invoices;
  - creating suppliers, setting their status and deleting them;
  - creating and editing users, blocking and unblocking them, and deleting them.
- every list the pages compute from the store, together with its filters, sort orders
  and status counts.
- a store-wide invariant that every handler keeps. Every variant names an issued item
  key, every item's cached `totalQuantity` equals the sum of its variants'
  quantities, and every item sits in a stored warehouse under one of its categories
  (`Actions.RunKeepsConsistent`).

How the model stands in for the source:

- `lib/db.ts` declares only two tables, `warehouses` and `items`, with their `++id`
  keys (lines 40-49), and only the `Warehouse` and `Item` interfaces (lines 3-38).
  The other four tables (`variants`, `suppliers`, `invoices`, `users`), their records
  and their `++id` keys are reconstructed from how the components read and write them.
  So are the fields the components use but the interfaces lack: an item's
  `totalQuantity` and a warehouse's `isActive`.

- A failed database call the handler catches (it only logs or shows a toast) is a
  boolean `fails`, or a `StorageFault` for the two-step stock transaction. In both
  cases nothing is written.
- The current time is a parameter `now`, in milliseconds.
- Quantities are integers and prices are reals.
- Three things the code leaves to the platform are function parameters:
  - `isEmail`: zod's e-mail format check;
  - `nameLe`: `localeCompare(a, b) <= 0`, required to be a total preorder;
  - `render`: JavaScript's number-to-string conversion, used by the width filter.

Where the code and its documentation disagree, the model follows the code:

- The new-warehouse dialog's submit only logs the values. It adds no row.
- The invoice form has no inputs for the due date or the paid amount. So a `credit`
  invoice can never pass the schema's refinements (`Invoices.CreditUnreachable`).
- There is no operation that records a payment on an invoice.
- A created item has no `totalQuantity`, so its card reads "out of stock" until
  stock is received.
- The table's low-stock badge reads `quantity`. The card reads `totalQuantity`.
- The add-stock dialog computes the new total from its own copy of the item.
  `Stock.AddStockStaleCopyLosesReceipt` shows that a stale copy breaks the
  total invariant.

Files: `wrappers.dfy` (Option), `text.dfy` (JavaScript string length in UTF-16 code
units, ASCII lower-casing, substring search),
`seqs.dfy` (filter, count, stable insertion sort, toggle lists), `schemas.dfy`,
`store.dfy`, `stock.dfy`, `itemform.dfy`, `itemstable.dfy`, `warehouses.dfy`,
`invoices.dfy`, `suppliers.dfy`, `users.dfy`, and `actions.dfy` (all handlers as one step
function and the invariant theorem).

## Model

| member | source | states |
|---|---|---|
| Wrappers.NonEmpty | components/suppliers/add-supplier-dialog.tsx:80 | `s \|\| undefined` on an optional string: present exactly when the input is present and non-empty, and then unchanged |
| Text.Lower | components/inventory/items-table.tsx:71-72 | `toLowerCase` keeps the length and lowers every character independently (ASCII letters only) |
| Text.LowerIdempotent | components/inventory/items-table.tsx:71-72 | lowering an already lowered string changes nothing, so lowering both sides of a search is stable |
| Text.Includes | components/inventory/items-table.tsx:72 | `includes` answers true exactly when the query occurs at some position of the string |
| Text.ContainsEmpty | components/inventory/items-table.tsx:72 | every string includes the empty query |
| Text.Utf16Units | lib/schemas.ts:15-18 | a character takes one UTF-16 code unit inside the Basic Multilingual Plane and two outside it |
| Text.Utf16Length | lib/schemas.ts:15-18 | JavaScript's `length` counts code units: at least the number of characters and at most twice it |
| Text.Utf16LengthAppend | lib/schemas.ts:15-18 | the length of a concatenation is the sum of the lengths |
| Text.Utf16LengthBmp | lib/schemas.ts:15-18 | the length equals the number of characters exactly when no character lies outside the Basic Multilingual Plane |
| Text.Utf16LengthAstral | lib/schemas.ts:15-18 | a string of characters outside the Basic Multilingual Plane is twice as long as its number of characters |
| Text.LowerHasNoUpper | components/suppliers/suppliers-content.tsx:46-47 | a lowered query holds no upper-case letter |
| Text.MatchHasNoUpper | components/suppliers/suppliers-content.tsx:49-53 | wherever a query without upper-case letters occurs, that part of the string has none either |
| Seqs.Filter | components/inventory/items-table.tsx:64-89 | `Array.filter` keeps exactly the elements that satisfy the predicate, never grows the list, and takes each element at most as often as the input holds it |
| Seqs.IncreasingKeysNoRepeats | components/inventory/items-table.tsx:58-62 | a list whose keys strictly increase holds each element once |
| Seqs.SubNoRepeats | components/inventory/items-table.tsx:64-89 | a sub-multiset of a list without repeats (what a filter keeps) has no repeats either |
| Seqs.IncreasingKeysUnique | lib/db.ts:46-49 | two lists whose keys strictly increase and that hold the same elements are equal |
| Seqs.FilterAppend | components/inventory/items-table.tsx:64-89 | filtering a concatenation filters each part |
| Seqs.FilterKeepsOrder | components/suppliers/suppliers-content.tsx:46-57 | filtering an ordered collection leaves it ordered |
| Seqs.CountAppend | components/invoices/invoices-content.tsx:72-75 | a counted query gains one exactly when the appended record satisfies it |
| Seqs.CountIsFilterLength | components/invoices/invoices-content.tsx:72-75 | a `where(...).count()` equals the length of the matching rows |
| Seqs.CountPartition3 | components/invoices/invoices-content.tsx:72-75 | three mutually exclusive, exhaustive status counts add up to the total count |
| Seqs.Sort | components/inventory/items-table.tsx:92-103 | `Array.sort` with a consistent comparator returns an ordered permutation of its input |
| Seqs.SortSameElements | components/inventory/items-table.tsx:92-103 | sorting neither adds nor drops any element |
| Seqs.Reverse | components/suppliers/suppliers-content.tsx:39-41 | `collection.reverse()` lists the same rows last to first |
| Seqs.Toggle | components/inventory/add-warehouse-dialog.tsx:166-176 | checking a box appends its value; unchecking removes every copy and keeps all other values |
| Seqs.ToggleOnOff | components/inventory/add-warehouse-dialog.tsx:166-176 | checking an unchecked box and unchecking it again restores the list |
| Schemas.EmailSchema | lib/schemas.ts:9-12 | accepted iff non-empty and e-mail shaped; the empty string reports `email_required` first, a malformed one `invalid_email` |
| Schemas.TextSchema | lib/schemas.ts:15-18 | accepted iff min <= the JavaScript length (UTF-16 code units) <= max; too short reports `min_length` first, too long `max_length` |
| Schemas.TextSchemaDefaults | lib/schemas.ts:15 | with the default bounds, accepted iff the JavaScript length is between 1 and 255 |
| Schemas.TextSchemaAstral | lib/schemas.ts:15-18 | on characters outside the Basic Multilingual Plane the default schema accepts one to 127 of them, since each counts twice |
| Schemas.IntegerSchema | lib/schemas.ts:21-23 | accepted iff the number is integral, otherwise the single issue `integer_only` |
| Schemas.DigitRun | lib/schemas.ts:30 | the scan stops exactly at the first non-digit after the start |
| Schemas.MatchesNumericIff | lib/schemas.ts:30 | the scanner agrees with the pattern "digits, optionally a dot and digits" on every string |
| Schemas.NumericStringSchema | lib/schemas.ts:29-30 | accepted iff the whole string matches that pattern, otherwise the single issue `number_only` |
| Schemas.NumericStringRejections | lib/schemas.ts:30 | "", ".5", "5.", "-1" and "1e3" are rejected; "12" and "3.14" are accepted |
| Schemas.FirstMessage | lib/schemas.ts:43 | the first issue's message, or "Validation error" when there is none or it is empty |
| Schemas.ValidateInput | lib/schemas.ts:38-45 | success iff the schema parses; on success the parsed data and no error, otherwise no data and the first message |
| Schemas.ValidateEmptyText | lib/schemas.ts:38-45 | validating "" with the default text schema fails with `min_length` |
| Store.EmptyTable | lib/db.ts:46-49 | a new table is empty and well formed |
| Store.Get | lib/db.ts:46-49 | a lookup finds a record exactly when the key is stored, and returns that record |
| Store.Insert | lib/db.ts:46-49 | `add` issues a key of at least 1 that is larger than every stored key, and stores the record there without touching other rows |
| Store.Update | lib/db.ts:46-49 | `update` replaces the record of a stored key; on a missing key the table is unchanged |
| Store.Delete | lib/db.ts:46-49 | `delete` removes that key only, keeps every other row, and never reuses keys |
| Store.Rows | lib/db.ts:46-49 | `toArray()` lists each stored row exactly once, in increasing key order |
| Store.RowMembership | lib/db.ts:46-49 | a row is listed exactly when its key is stored with that record |
| Store.RowsAscending | lib/db.ts:46-49 | `toArray()` lists rows in strictly increasing key order |
| Store.AscendingNoRepeats | lib/db.ts:46-49 | a listing in strictly increasing key order holds each row once |
| Store.RowsAfterInsert | lib/db.ts:46-49 | after `add`, the listing is the old listing with the new row appended |
| Store.RowsAfterDelete | lib/db.ts:46-49 | after `delete`, the listing is the old listing without that key |
| Store.RowsCount | lib/db.ts:46-49 | `count()` agrees with the length of `toArray()` |
| Store.EmptyDb | lib/db.ts:46-49 | the freshly opened store is well formed |
| Store.ItemsOfWarehouse | lib/db.ts:48 | the `warehouseId` index returns exactly the items of that warehouse, in key order |
| Stock.DefaultStockFormRejected | components/inventory/add-stock-dialog.tsx:68-77 | the dialog's initial quantity 0 fails the `min(1)` rule |
| Stock.NewVariant | components/inventory/add-stock-dialog.tsx:84-100 | the variant carries the item and warehouse keys and the quantity, a missing price becomes 0, fabric attributes only for fabric items, accessory attributes only for accessories |
| Stock.VariantAttributesExclusive | components/inventory/add-stock-dialog.tsx:89-96 | no variant ever carries both fabric and accessory attributes |
| Stock.Restocked | components/inventory/add-stock-dialog.tsx:103-107 | the new total is the dialog's total (missing as 0) plus the received quantity, stamped `now`, and no other field changes |
| Stock.AddStock | components/inventory/add-stock-dialog.tsx:80-108 | an invalid form or a failure inside the transaction writes nothing; otherwise one variant is added and the item's total is patched; other tables are untouched |
| Stock.AddStockAllOrNothing | components/inventory/add-stock-dialog.tsx:82-108 | either the variant insert and the total update both happen, or neither does |
| Stock.SumQuantityAppend | components/inventory/add-stock-dialog.tsx:84-107 | appending a variant raises its item's sum by its quantity and leaves every other item's sum alone |
| Stock.SumQuantityUnrelated | components/inventory/add-stock-dialog.tsx:84-107 | an item that no variant names has sum 0 |
| Stock.AddStockKeepsTotals | components/inventory/add-stock-dialog.tsx:80-108 | when the dialog's copy is the stored item, every cached total still equals the sum of its variants afterwards |
| Stock.AddStockStaleCopyLosesReceipt | components/inventory/add-stock-dialog.tsx:105 | when the dialog's copy of the total is stale, the stored total no longer equals the sum of the variants |
| Stock.StockStatusOf | components/inventory/item-card.tsx:35-39 | out of stock iff 0; low iff non-zero and at most the minimum; in stock iff above the minimum |
| Stock.CardStatus | components/inventory/item-card.tsx:35-41 | the card is out of stock iff the total is missing or 0, low iff a non-zero total is at most the minimum, in stock iff above it |
| Stock.ReceiveStockScenario | components/inventory/add-stock-dialog.tsx:80-108 | receiving 5 then 8 into a fresh item with minimum 10 shows low stock then in stock, with total 13 |
| ItemForm.ItemFormRejections | components/inventory/add-item-dialog.tsx:52-91 | the default form is rejected; a fabric item without a fabric type is rejected; fabric-valid implies accessory-valid |
| ItemForm.NewItem | components/inventory/add-item-dialog.tsx:96-125 | the record copies the form, a missing price becomes 0, category-specific fields only for their category, no total, stamped `now` |
| ItemForm.AddItem | components/inventory/add-item-dialog.tsx:94-133 | no category selected, an invalid form or a failure writes nothing; otherwise one item is added under a fresh key; other tables are untouched |
| ItemForm.StoredCategorySupported | components/inventory/add-item-dialog.tsx:159-170 | an item created from the select of a stored warehouse is stored in that warehouse under one of its categories |
| ItemForm.AddItemKeepsCategories | components/inventory/add-item-dialog.tsx:94-170 | creating an item from the select keeps every item in a stored warehouse, under one of that warehouse's categories |
| ItemForm.CreatedItemShowsOutOfStock | components/inventory/item-card.tsx:41 | a freshly created item's card shows out of stock |
| ItemForm.AddItemKeepsTotals | components/inventory/add-item-dialog.tsx:94-133 | creating an item keeps every cached total equal to the sum of its variants |
| ItemsTable.InitialTab | components/inventory/items-table.tsx:46-48 | a single-category warehouse opens on that category's tab, any other on "all" |
| ItemsTable.InitialState | components/inventory/items-table.tsx:46-56 | the table opens with an empty search, newest-first sort and no attribute filters |
| ItemsTable.ChangeTab | components/inventory/items-table.tsx:106-111 | switching tabs clears the width, color and size filters and keeps search and sort |
| ItemsTable.ShownAfterTabChange | components/inventory/items-table.tsx:63-111 | right after a tab switch only the tab and the search decide visibility |
| ItemsTable.AllTabShowsEverything | components/inventory/items-table.tsx:68-86 | on "all" with an empty search every item is listed, whatever filters remain |
| ItemsTable.ColorFilterHidesColorless | components/inventory/items-table.tsx:79-83 | on the fabric tab a color filter hides items that have no color |
| ItemsTable.ItemLeTotal | components/inventory/items-table.tsx:92-103 | each of the seven sort options is a consistent ordering |
| ItemsTable.VisibleItems | components/inventory/items-table.tsx:58-103 | exactly the warehouse's stored items that pass the filter, with no row repeated, ordered by the chosen option |
| ItemsTable.VisibleItemsCount | components/inventory/items-table.tsx:58-103 | the table never lists more rows than the store holds |
| ItemsTable.AddStockLeavesBadge | components/inventory/items-table.tsx:295 | receiving stock never changes an item's "Low" badge |
| Warehouses.SettingsDefaults | components/inventory/warehouse-settings-dialog.tsx:61-64 | the settings form opens on the warehouse's own name and location |
| Warehouses.SaveSettings | components/inventory/warehouse-settings-dialog.tsx:74-95 | a valid save on a stored warehouse changes only its name, location and timestamp; otherwise nothing changes |
| Warehouses.SaveUnchangedSettings | components/inventory/warehouse-settings-dialog.tsx:74-95 | saving the opening values changes only the timestamp |
| Warehouses.SoftDelete | components/inventory/warehouse-settings-dialog.tsx:97-103 | deactivation marks the warehouse inactive and stamps it, keeping the row and everything else |
| Warehouses.SoftDeleteIdempotent | components/inventory/warehouse-settings-dialog.tsx:97-103 | deactivating twice is deactivating once, at the later time |
| Warehouses.SoftDeleteKeepsItems | components/inventory/warehouse-settings-dialog.tsx:97-103 | a deactivated warehouse still lists all its items |
| Warehouses.ToggleCategory | components/inventory/add-warehouse-dialog.tsx:166-176 | a category box adds or removes only that category and keeps the other fields |
| Warehouses.CheckedBoxSatisfiesCategories | components/inventory/add-warehouse-dialog.tsx:47-86 | the empty default form is rejected, and checking any offered box meets the "at least one" rule |
| Warehouses.UncheckLastCategory | components/inventory/add-warehouse-dialog.tsx:47-49 | unchecking the only checked category makes the form invalid |
| Warehouses.SubmitNewWarehouse | components/inventory/add-warehouse-dialog.tsx:66-71 | the submit handler leaves the store as it was |
| Warehouses.NewWarehouseNotListed | components/inventory/add-warehouse-dialog.tsx:66-71 | even a valid new warehouse adds no row to the list |
| Invoices.ParseStatus | components/invoices/invoice-schema.ts:9 | exactly "paid", "credit" and "cancelled" are statuses, each naming itself |
| Invoices.RefinementsOnlyConstrainCredit | components/invoices/invoice-schema.ts:13-30 | for a non-credit invoice the paid amount and due date do not affect validity |
| Invoices.ValidCreditBalanceNonNegative | components/invoices/invoice-schema.ts:13-30 | a valid credit invoice has a due date and pays at most its amount |
| Invoices.ToValues | components/invoices/invoice-form.tsx:111-325 | the form submits its fields and never a paid amount or a due date |
| Invoices.DefaultInputRejected | components/invoices/invoice-form.tsx:61-69 | the opening form (empty number, no supplier, amount 0) is rejected |
| Invoices.CreditUnreachable | components/invoices/invoice-schema.ts:13-30 | no input of the form can create a credit invoice |
| Invoices.ActiveSuppliers | components/invoices/invoice-form.tsx:49 | the dropdown offers exactly the stored active suppliers, in key order |
| Invoices.SearchSuppliers | components/invoices/invoice-form.tsx:72-74 | the dropdown keeps exactly the suppliers whose name contains the query ignoring case |
| Invoices.EmptySupplierSearch | components/invoices/invoice-form.tsx:72-74 | an empty supplier search offers every active supplier |
| Invoices.NewInvoice | components/invoices/invoice-form.tsx:79-89 | the record copies the form's fields and has no paid amount, due date or paid date, stamped `now` |
| Invoices.CreateInvoice | components/invoices/invoice-form.tsx:77-106 | an invalid form or a failure writes nothing; otherwise one invoice is added and nothing else changes |
| Invoices.Remaining | components/invoices/invoices-content.tsx:220 | the remaining balance plus the paid amount (missing as 0) is the amount |
| Invoices.CreatedInvoiceRemaining | components/invoices/invoices-content.tsx:220 | a newly created invoice still owes its full amount |
| Invoices.FindSupplier | components/invoices/invoices-content.tsx:45 | `find` returns a listed supplier with that key, or nothing when none has it |
| Invoices.Join | components/invoices/invoices-content.tsx:43-46 | each invoice is paired, in order, with its supplier when one is listed |
| Invoices.JoinNoRepeats | components/invoices/invoices-content.tsx:39-46 | joining invoices listed in key order repeats no row |
| Invoices.JoinedRowFacts | components/invoices/invoices-content.tsx:43-46 | a joined row carries a stored invoice, and a supplier exactly when its key is stored, equal to the stored one |
| Invoices.StoredInvoiceJoined | components/invoices/invoices-content.tsx:39-46 | every stored invoice has a joined row |
| Invoices.JoinStore | components/invoices/invoices-content.tsx:39-46 | every stored invoice appears exactly once, the list is as long as the table, and its supplier is present exactly when the supplier key is still stored |
| Invoices.DateLeTotal | components/invoices/invoices-content.tsx:49-53 | both date orders are consistent orderings |
| Invoices.ListInvoices | components/invoices/invoices-content.tsx:39-69 | exactly the joined invoices passing the search and status filter, a sub-multiset of the joined list with no row repeated, ordered by date in the chosen direction |
| Invoices.ListShowsAllByDefault | components/invoices/invoices-content.tsx:56-66 | with an empty search and status "all" every stored invoice is listed |
| Invoices.TableInvoices | components/invoices/invoices-table.tsx:49-57 | the table lists the joined invoices as a permutation, one row per stored invoice with none repeated, newest created first |
| Invoices.StatusCountsPartition | components/invoices/invoices-content.tsx:72-75 | paid, credit and cancelled counts add up to the total count |
| Invoices.CreateInvoiceCounts | components/invoices/invoices-content.tsx:72-75 | creating an invoice raises the count of its own status by one and leaves the other status counts alone |
| Invoices.DeleteInvoice | components/invoices/invoices-content.tsx:192-194 | deleting removes that invoice only; a failure writes nothing |
| Invoices.DeleteInvoiceRows | components/invoices/invoices-content.tsx:192-194 | after a delete the list is the old list without that key |
| Invoices.TableDelete | components/invoices/invoices-table.tsx:66-69 | with no selected key, or key 0, nothing is deleted; otherwise it deletes as the page does |
| Suppliers.ParseStatus | components/suppliers/add-supplier-dialog.tsx:47 | exactly "active", "inactive" and "blocked" are statuses, each naming itself |
| Suppliers.SupplierDefaults | components/suppliers/add-supplier-dialog.tsx:58-72 | the form opens active, with no categories and an empty payment list |
| Suppliers.SupplierDefaultsRejected | components/suppliers/add-supplier-dialog.tsx:41-72 | the opening form is rejected, though its empty e-mail is accepted |
| Suppliers.ToggleCategory | components/suppliers/add-supplier-dialog.tsx:241-249 | a category box adds or removes only that category and keeps the other fields |
| Suppliers.CheckedCategorySatisfies | components/suppliers/add-supplier-dialog.tsx:48-50 | checking any category meets the "at least one" rule |
| Suppliers.TogglePayment | components/suppliers/add-supplier-dialog.tsx:324-331 | checking a method appends it (starting a list when there is none); unchecking removes it, and leaves a missing list missing |
| Suppliers.TogglePaymentOnOff | components/suppliers/add-supplier-dialog.tsx:324-331 | checking an unchecked method and unchecking it again restores the selection |
| Suppliers.NewSupplier | components/suppliers/add-supplier-dialog.tsx:76-89 | the record copies the form, an empty e-mail is stored as absent, a stored e-mail is well formed, stamped `now` |
| Suppliers.CreateSupplier | components/suppliers/add-supplier-dialog.tsx:74-100 | an invalid form or a failure writes nothing; otherwise one supplier is added and nothing else changes |
| Suppliers.CreateSupplierCounts | components/suppliers/suppliers-content.tsx:63-66 | creating a supplier raises the count of its own status by one and leaves the other status counts alone |
| Suppliers.Collection | components/suppliers/suppliers-content.tsx:37-41 | all stored suppliers, oldest key first, or newest first when the order is "newest" |
| Suppliers.ListSuppliers | components/suppliers/suppliers-content.tsx:36-60 | exactly the stored suppliers passing the search and status filter, in the chosen key order |
| Suppliers.PhoneHitHasNoUpper | components/suppliers/suppliers-content.tsx:46-53 | the query is lowered but the phone is not, so wherever a search hits the phone, that part holds no upper-case letter |
| Suppliers.UpperPhoneNeverMatched | components/suppliers/suppliers-content.tsx:46-53 | a phone made only of upper-case letters is never matched: a supplier whose name and contact miss the query is not found through it |
| Suppliers.StatusCountsPartition | components/suppliers/suppliers-content.tsx:63-66 | active, inactive and blocked counts add up to the total count |
| Suppliers.SetStatus | components/suppliers/suppliers-content.tsx:196-198 | only that supplier's status changes and its `updatedAt` is not stamped; a missing key or a failure writes nothing |
| Suppliers.SetStatusRoundTrip | components/suppliers/suppliers-content.tsx:196-198 | setting a status twice is setting it once, and setting the old status back restores the store |
| Suppliers.SetStatusCounts | components/suppliers/suppliers-content.tsx:63-66 | after a status change the three status counts still add up to the total count |
| Suppliers.DeleteSupplier | components/suppliers/suppliers-content.tsx:214-216 | deleting removes that supplier only and leaves the invoices untouched |
| Suppliers.DeleteSupplierOrphansInvoices | components/suppliers/suppliers-content.tsx:214-216 | after the delete, every invoice that named the supplier is listed with no supplier |
| Users.ParseRole | components/users/user-schema.ts:9 | exactly "admin" and "user" are roles, each naming itself |
| Users.ParseStatus | components/users/user-schema.ts:10 | exactly "active" and "blocked" are statuses, each naming itself |
| Users.Toggled | components/users/users-content.tsx:199 | the toggled status always differs from the card's status |
| Users.Defaults | components/users/user-form.tsx:42-49 | the form opens on the user's own values with an empty password, or on blank values with role "user" and status "active" |
| Users.Edited | components/users/user-form.tsx:75-85 | an edit takes the form's fields and image as given, and keeps the old password unless a new one is typed |
| Users.Created | components/users/user-form.tsx:99-108 | a new user takes the typed password, and an empty image is stored as absent |
| Users.Submit | components/users/user-form.tsx:71-126 | invalid input and a failure write nothing; creating without a password writes nothing; otherwise one edit or one insert, and the form resets only after a create |
| Users.EditKeepsPassword | components/users/user-form.tsx:83-85 | editing with an empty password field keeps the stored password |
| Users.EditWithDefaults | components/users/user-form.tsx:42-87 | saving an edit with the opening values keeps the user, except the timestamp and a missing image that becomes an empty one |
| Users.ResetOnlyAfterCreate | components/users/user-form.tsx:115 | the form is reset only after a successful create |
| Users.ShortPasswordRejected | components/users/user-schema.ts:5 | a password one to five UTF-16 code units long is refused by the schema, and the submit writes nothing |
| Users.LongPasswordStored | components/users/user-schema.ts:5 | with the other fields valid, a create stores a password of six code units or more as typed |
| Users.EmojiPasswordAccepted | components/users/user-schema.ts:5 | three emoji make six code units, so the schema accepts them as a password |
| Users.CreatedLeTotal | components/users/users-content.tsx:56-60 | both creation-date orders are consistent orderings |
| Users.MatchingUsers | components/users/users-content.tsx:43-53 | exactly the stored users passing the search and the role filter |
| Users.ListUsers | components/users/users-content.tsx:38-63 | exactly the matching users as a permutation, with no row repeated, ordered by creation date in the chosen direction |
| Users.CountsPartition | components/users/users-content.tsx:66-69 | active and blocked counts, and admin and user counts, each add up to the total |
| Users.BlockToggle | components/users/users-content.tsx:198-200 | the new status is the opposite of the status on the card's copy of the user, written onto the stored record with no other field changed; a missing key writes nothing |
| Users.BlockToggleTwice | components/users/users-content.tsx:198-200 | when the card shows the stored record each time, toggling twice restores the store |
| Users.BlockToggleStaleCard | components/users/users-content.tsx:198-200 | a card whose status is out of date writes back the stored status, so the toggle changes nothing |
| Users.BlockToggleSameCard | components/users/users-content.tsx:198-200 | toggling again from the same card, before it is refreshed, changes nothing more |
| Users.BlockToggleKeepsTotal | components/users/users-content.tsx:66-69 | after a toggle the active and blocked counts still add up to the total count |
| Users.DeleteUser | components/users/users-content.tsx:180-182 | deleting removes that user only; a failure writes nothing |
| Users.DeletedUserNotListed | components/users/users-content.tsx:180-182 | a deleted user is no longer listed under any search or filter |
| Actions.Step | lib/db.ts:46-49 | every handler keeps every table well formed |
| Actions.EmptyConsistent | lib/db.ts:46-49 | the freshly opened store satisfies the store-wide invariant |
| Actions.StepKeepsCategories | components/inventory/add-item-dialog.tsx:41-170 | every admissible handler keeps each item in a stored warehouse, under one of that warehouse's categories |
| Actions.ReceiveForDeletedItem | components/inventory/add-stock-dialog.tsx:82-107 | receiving stock for an unstored item key that was issued (at least 1, below `nextId`) adds a variant but keeps the invariant; no handler deletes an item, so this needs a store that already lacks an issued item |
| Actions.StepKeepsIssuedItems | components/inventory/add-item-dialog.tsx:94-133 | no handler deletes an item: every issued item key stays stored after any step |
| Actions.RunKeepsIssuedItems | components/inventory/add-item-dialog.tsx:94-133 | the same holds after any history |
| Actions.ReceiptNamesStoredItem | components/inventory/add-stock-dialog.tsx:103-107 | in such a store an admissible receipt always names a stored item |
| Actions.StepKeepsConsistent | components/inventory/add-stock-dialog.tsx:82-108 | every handler, run as the pages run it, keeps the store-wide invariant |
| Actions.Run | lib/db.ts:46-49 | any history of handlers keeps every table well formed |
| Actions.RunKeepsConsistent | components/inventory/add-stock-dialog.tsx:82-108 | any admissible history keeps the store-wide invariant |
| Actions.HistoryFromEmpty | lib/db.ts:46-49 | from the freshly opened store, every admissible history ends consistent, with every issued item key still stored |

## Left out

- Rendering, routing, translations (`t(...)` keys stand in for messages), toasts and dialogs opening or closing: they do not change the store.
- The live-query machinery: each list is modelled as the function of the store that the query computes, not as a subscription.
- Image upload through `FileReader` in the user form: the model takes the resulting data URL as a given string.
- The schema helper `getNumberSchema`: it accepts every number and adds nothing to model.
- Floating-point behaviour: prices are exact reals and quantities are integers, so `valueAsNumber` producing `NaN` is not modelled.
- The order of zod's issues beyond the first one, and zod's e-mail grammar (the `isEmail` parameter).
- Unicode case mapping: `Text.Lower` lowers ASCII letters only. Lengths, by contrast, are counted as JavaScript counts them, in UTF-16 code units (`Text.Utf16Length`).
- `localeCompare` and number-to-string rendering: both are parameters (`nameLe`, `render`).
- Dexie's handling of `undefined` fields in `update`: an optional field is written as given.
- Failures of the block toggle: the handler has no `catch`, so a failed `update` is an unhandled rejection that writes nothing; the model has no failure flag for it.
- The handlers write no warehouse, so from the freshly opened store no item can be created under a category; the category invariant matters for a store that starts with warehouses.
- Cascade deletes: no handler in the code deletes dependent rows, so the model has none either.
- The invoice view dialog and its "Pay" button: no payment-recording operation exists in the code.
- Seqs.Sort: stability of the sort is not stated; only order and permutation are. So ItemsTable.VisibleItems, Invoices.ListInvoices, Invoices.TableInvoices and Users.ListUsers do not promise that rows tied under the chosen order (invoices on the same date, items at the same price or quantity, users created at the same time) keep their key order, as JavaScript's stable sort does.
