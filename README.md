# ParseWise invoice store, list query and form — a Dafny model

ParseWise turns an uploaded PDF invoice into a structured record: an external
language model extracts vendor, invoice number, line items and total, the user
reviews them in a form, and the record is kept in the browser. This project
models the part of the application that has behaviour of its own:

- **The invoice record store** (`store.dfy`, module `InvoiceStore`). Class
  `Store` holds the ordered collection `invoices` (newest first) and the
  `isInitialized` flag; class `LocalStorage` is the browser storage area, whose
  slot `"parsewise-invoices"` holds either a collection that parses back or
  malformed text. `Load` is the load effect, `Persist` the write-through effect,
  and `AddInvoice`, `GetInvoiceById`, `UpdateInvoice`, `DeleteInvoice` are the
  four operations. Each operation is proved against a function on values
  (`Stamp`, `Find`, `Replace`, `Remove`, `Mirrored`), and the lemmas beside
  them state what the store promises: ids stay unique, an update with an
  unknown id and a delete of an absent id change nothing, delete is
  idempotent, surviving records keep their relative order.
- **The saved-invoice query** (`query.dfy`, module `InvoiceQuery`):
  `FilteredInvoices` sorts a copy of the collection newest first (a stable
  sort) and keeps the records whose lower-cased vendor or invoice number
  contains the lower-cased search term. The result is sorted, holds exactly the
  matching records with their multiplicities, and is the whole collection for
  the empty term.
- **The form's acceptance and save rules** (`form.dfy`, module
  `InvoiceForm`): the line-item and form schemas as the list of failed checks
  (`Issues`, empty exactly when `FormValid`), the starting values
  (`DefaultValues`), the row that "Add Item" appends, and `Submit`, which
  rejects invalid values, updates the record being edited through the overlay
  `{...current, ...invoiceData}` (keeping its id and creation time), skips an
  edit whose record is gone, or creates one new record.
- **The record shapes** (`types.dfy`, module `Types`): `LineItem`, `Invoice`
  (with an optional `pdfDataUri`), and `Draft`, an invoice without `id` and
  `createdAt`.

Amounts are `real` (only `>= 0` checks are involved). `createdAt` is an
integer count of milliseconds: the value the list obtains by parsing the
ISO-8601 text the store writes. The generated id, the current time, the
formatted dates and the outcome of each storage write are parameters.

Three behaviours of the code are worth stating:

- A failed write to storage is caught and logged inside the persist effect
  (`src/hooks/use-invoice-store.ts:27-31`); it is not reported to the caller
  of the operation that triggered it. `Persist` therefore returns nothing; the
  in-memory change is kept either way.
- The store's update replaces a record verbatim and does not itself keep the
  old `createdAt` (`UpdateDoesNotGuardCreatedAt`); the creation time survives
  an edit because the form saves `{...current, ...invoiceData}`
  (`EditKeepsIdentities`).
- A malformed slot is not left in storage: the load's state change triggers
  the write-through, which replaces it with the (empty) in-memory collection
  when that write succeeds (`Load`).

## Model

| member | source | states |
|---|---|---|
| `Types.Stamp` | src/hooks/use-invoice-store.ts:36-40 | the new record has the given id and creation time and its draft part equals the draft, every field copied verbatim, line items in order |
| `Types.StampOfDraft` | src/lib/types.ts:9-19 | an invoice is its draft part plus its id and creation time |
| `InvoiceStore.Find` | src/hooks/use-invoice-store.ts:45-47 | None exactly when no record has the id; otherwise the record at the first index holding that id |
| `InvoiceStore.Replace` | src/hooks/use-invoice-store.ts:50-54 | same length; entries with the argument's id become the argument, all others are unchanged |
| `InvoiceStore.Remove` | src/hooks/use-invoice-store.ts:59 | every record whose id differs occurs as often as in the original, records with the id not at all; the result is a subsequence of the original (relative order kept), never longer |
| `InvoiceStore.Loaded` | src/hooks/use-invoice-store.ts:14-21 | the stored collection when the slot holds one that parses; the current collection when the slot is missing or malformed |
| `InvoiceStore.Mirrored` | src/hooks/use-invoice-store.ts:25-33 | the slot holds the whole collection only when initialized and the write succeeds; other slots are never touched; otherwise storage is unchanged |
| `InvoiceStore.PrependKeepsUnique` | src/hooks/use-invoice-store.ts:38-41 | prepending a record with a fresh id keeps ids unique and makes it what a lookup of its id returns |
| `InvoiceStore.ReplaceKeepsIds` | src/hooks/use-invoice-store.ts:50-54 | update keeps every position's id, the id set, and id uniqueness |
| `InvoiceStore.ReplaceUnknownIsIdentity` | src/hooks/use-invoice-store.ts:50-54 | update with an id that matches nothing leaves the collection unchanged (no insertion) |
| `InvoiceStore.UpdateDoesNotGuardCreatedAt` | src/hooks/use-invoice-store.ts:49-55 | the store's update stores a matching record's new `createdAt` verbatim |
| `InvoiceStore.FindAfterReplace` | src/hooks/use-invoice-store.ts:45-54 | after updating a present id, looking it up returns the new record |
| `InvoiceStore.RemoveUnknownIsIdentity` | src/hooks/use-invoice-store.ts:58-60 | deleting an id that matches nothing leaves the collection unchanged |
| `InvoiceStore.RemoveIdempotent` | src/hooks/use-invoice-store.ts:58-60 | deleting twice equals deleting once, and the deleted id is then not found |
| `InvoiceStore.RemoveKeepsUnique` | src/hooks/use-invoice-store.ts:58-60 | delete keeps ids unique |
| `InvoiceStore.RemovePresentShrinksByOne` | src/hooks/use-invoice-store.ts:58-60 | with unique ids, deleting a present id removes exactly one record |
| `InvoiceStore.LocalStorage.constructor` | src/hooks/use-invoice-store.ts:15 | a storage area holding the given slots |
| `InvoiceStore.Store.constructor` | src/hooks/use-invoice-store.ts:10-11 | a new store is empty and not initialized |
| `InvoiceStore.Store.Persist` | src/hooks/use-invoice-store.ts:25-33 | storage becomes `Mirrored` of the current collection; memory is untouched whatever the write's outcome |
| `InvoiceStore.Store.Load` | src/hooks/use-invoice-store.ts:13-23 | the collection becomes `Loaded` from storage, the store is initialized whatever the outcome, and the write-through follows |
| `InvoiceStore.Store.AddInvoice` | src/hooks/use-invoice-store.ts:35-43 | returns the stamped draft; the collection becomes it followed by the old records in order; ids stay unique given a fresh id; storage is mirrored |
| `InvoiceStore.Store.GetInvoiceById` | src/hooks/use-invoice-store.ts:45-47 | returns the first record with the id, or None exactly when the id is absent; changes nothing |
| `InvoiceStore.Store.UpdateInvoice` | src/hooks/use-invoice-store.ts:49-56 | returns its argument; the collection becomes `Replace` of the old one, unchanged for an unknown id, ids stay unique; storage is mirrored |
| `InvoiceStore.Store.DeleteInvoice` | src/hooks/use-invoice-store.ts:58-60 | the collection becomes `Remove` of the old one, the id is gone, an absent id changes nothing, ids stay unique; storage is mirrored |
| `InvoiceStore.CreateTwiceThenReload` | src/hooks/use-invoice-store.ts:13-43 | after two creates the later record comes first, and a second store loading the same storage gets both records back, ids unique |
| `InvoiceQuery.LowerChar` | src/components/invoice-list-client.tsx:49-50 | upper-case ASCII letters become the lower-case letter 32 code points above, every other character is kept, and no upper-case ASCII letter remains |
| `InvoiceQuery.Lower` | src/components/invoice-list-client.tsx:49-50 | same length, each character lower-cased |
| `InvoiceQuery.LowerIdempotent` | src/components/invoice-list-client.tsx:49-50 | lower-casing twice equals lower-casing once |
| `InvoiceQuery.Includes` | src/components/invoice-list-client.tsx:49-50 | true exactly when the needle occurs at some position of the text |
| `InvoiceQuery.EmptyTermMatchesAll` | src/components/invoice-list-client.tsx:46-51 | every record matches the empty term |
| `InvoiceQuery.MatchesIgnoresCase` | src/components/invoice-list-client.tsx:47-51 | matching gives the same answer on lower-cased vendor, number and term |
| `InvoiceQuery.Insert` | src/components/invoice-list-client.tsx:45 | inserting into a newest-first sequence yields a newest-first sequence with one more copy of the record |
| `InvoiceQuery.SortNewestFirst` | src/components/invoice-list-client.tsx:45 | the result is ordered by `createdAt` non-increasing and is a permutation of the input |
| `InvoiceQuery.InsertKeepsTies` | src/components/invoice-list-client.tsx:45 | insertion puts the record ahead of the records created at the same instant |
| `InvoiceQuery.SortKeepsTies` | src/components/invoice-list-client.tsx:45 | the sort is stable: records with equal `createdAt` keep their relative order |
| `InvoiceQuery.Matches` | src/components/invoice-list-client.tsx:48-50 | defines the search test: the lower-cased term occurs in the lower-cased vendor or in the lower-cased invoice number |
| `InvoiceQuery.KeepMatching` | src/components/invoice-list-client.tsx:47-51 | each record occurs as often as in the input if it matches and not at all otherwise; the result is a subsequence of the input (relative order kept) and is newest first when the input is |
| `InvoiceQuery.KeepMatchingCreatedAt` | src/components/invoice-list-client.tsx:47-51 | narrowing by the term and selecting the records of one creation instant give the same sequence in either order |
| `InvoiceQuery.KeepMatchingEmptyTerm` | src/components/invoice-list-client.tsx:46-51 | narrowing by the empty term returns the sequence unchanged |
| `InvoiceQuery.FilteredInvoices` | src/components/invoice-list-client.tsx:43-52 | no collection gives an empty list; the result is newest first, holds exactly the matching records with their multiplicities, and is the whole collection for the empty term |
| `InvoiceQuery.ListedTiesKeepStoredOrder` | src/components/invoice-list-client.tsx:43-52 | among the records created at one instant, the list holds exactly the matching ones in their stored order |
| `InvoiceQuery.ListedExactlyTheMatches` | src/components/invoice-list-client.tsx:47-51 | a record is listed exactly when it is in the collection and matches; the list is no longer than the collection |
| `InvoiceForm.LineItemValid` | src/components/invoice-form.tsx:19-24 | defines the line-item schema: a description of at least one character and non-negative quantity, unit price and amount |
| `InvoiceForm.FormValid` | src/components/invoice-form.tsx:26-32 | defines the form schema: vendor, number and date of at least one character, every line item valid (an empty list is accepted), a non-negative total |
| `InvoiceForm.RowIssues` | src/components/invoice-form.tsx:19-24 | a row's failed checks are all row checks of that row, and there are none exactly when the row passes the line-item schema |
| `InvoiceForm.RowsIssues` | src/components/invoice-form.tsx:19-30 | lists exactly the line-item checks that fail, by row and field |
| `InvoiceForm.Issues` | src/components/invoice-form.tsx:19-32 | lists exactly the failing checks, and is empty exactly when the form is valid |
| `InvoiceForm.ValidIffNothingFails` | src/components/invoice-form.tsx:26-32 | the form is valid exactly when no single check fails |
| `InvoiceForm.DefaultRow` | src/components/invoice-form.tsx:54 | an extracted item becomes a row with the same numbers, which passes the schema exactly when the item has a non-empty description and no negative number |
| `InvoiceForm.DefaultValues` | src/components/invoice-form.tsx:50-56 | vendor, number and total come from the extraction; the date is the formatted saved date or today; line items keep their order and numbers, a missing description becomes empty |
| `InvoiceForm.DefaultsValidIff` | src/components/invoice-form.tsx:50-56 | the starting values pass the schema exactly when the extraction has a vendor, a number, a non-negative total, every line item described and non-negative, and the date is non-empty |
| `InvoiceForm.ExtractionOf` | src/app/page.tsx:45-50 | the edit page's extraction carries the saved vendor, number and total, and its items turn back into exactly the saved line items, in order |
| `InvoiceForm.EditStartsFromSaved` | src/app/page.tsx:45-50 | editing a saved invoice starts from its own vendor, number, total and line items in order |
| `InvoiceForm.AddedRow` | src/components/invoice-form.tsx:156 | the appended row fails only on its empty description; with any non-empty description it passes the schema |
| `InvoiceForm.AddedRowBlocksSave` | src/components/invoice-form.tsx:156 | after "Add Item" the form is rejected on the new row's description, and on nothing the form was not already rejected for |
| `InvoiceForm.FilledRowAccepted` | src/components/invoice-form.tsx:156 | filling in the added row's description makes a valid form valid again |
| `InvoiceForm.AmountIsFree` | src/components/invoice-form.tsx:19-24 | a line item whose amount differs from quantity times unit price is accepted |
| `InvoiceForm.DraftOfForm` | src/components/invoice-form.tsx:70-74 | defines the saved data: the form values with the document's file name and its data URI, which is always present |
| `InvoiceForm.Editing` | src/components/invoice-form.tsx:77 | defines edit mode: an invoice id is given and is not the empty string |
| `InvoiceForm.Overlay` | src/components/invoice-form.tsx:80 | the overlay is the draft stamped with the current record's id and creation time; overlaying a record's own draft part gives the record back |
| `InvoiceForm.EditKeepsIdentities` | src/components/invoice-form.tsx:77-80 | with unique ids, saving an edit keeps every record's id and creation time, gives the edited record the form's fields, and leaves all other records unchanged |
| `InvoiceForm.Submit` | src/components/invoice-form.tsx:69-92 | invalid values change nothing and report the failing checks; an existing edited record is updated with the overlay; a missing one changes nothing; without an id (or with an empty one) exactly one record is prepended |

## Left out

- The AI extraction and suggestion flows (`src/ai/flows/`): prompt templates around an external model call. Their output enters the model only as the `Extraction` value the form starts from.
- Page layout, the PDF viewer placeholder, the upload guard (size and MIME type), toasts and navigation after a save: UI without state the model needs.
- JSON encoding: the storage slot holds either a collection that parses back (`Records`) or text that does not (`Malformed`, which also stands for the empty string and for a read that throws). A slot whose JSON parses to something other than a list of invoices is not modelled.
- `crypto.randomUUID` and the clock: the new id and the timestamp are parameters; freshness of the id is a hypothesis of the uniqueness clauses, not a precondition.
- Date handling: `createdAt` is an integer (milliseconds), so the ISO-8601 text, its parsing and an unparsable date (a NaN comparison inside the sort) are not modelled; the form's date formatting is a parameter; display formatting of dates and amounts is dropped.
- `toLowerCase` is modelled for ASCII letters only.
- Numbers are `real`: JavaScript double arithmetic, `z.coerce.number()`'s string coercion and NaN are not modelled, and validation messages are reduced to the name of the failing check.
- React specifics: each component gets its own store instance, effects run after rendering (the model runs the write-through at the end of each operation, which is when the effect would see the new collection), stale closures, and the react-hook-form field-array machinery.
- InvoiceForm.DefaultValues: the saved record is a parameter. In the application the form's own store instance is still empty at its first render (`src/components/invoice-form.tsx:46,48`, `src/hooks/use-invoice-store.ts:10,13`), so the saved record is not yet known when react-hook-form takes its defaults and an edit starts on today's date; the model leaves that choice to the caller and does not show it.
- Concurrency across browser tabs (last write wins on the shared slot) is outside a single-threaded model.
