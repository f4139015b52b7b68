/** The invoice form: the schema that decides whether the values may be
    saved, the values the form starts from, and the save that either updates
    the record being edited or creates a new one. */
module InvoiceForm {
  import opened Types
  import InvoiceStore

  /** The values the form edits (the schema's shape). */
  datatype FormValues = FormValues(
    vendor: string,
    invoiceNumber: string,
    invoiceDate: string,
    lineItems: seq<LineItem>,
    totalAmount: real)

  /** A check of the schema, named by the field it guards; row fields carry
      the index of their line item. */
  datatype Field =
    | Vendor | InvoiceNumber | InvoiceDate | TotalAmount
    | Description(row: nat) | Quantity(row: nat) | UnitPrice(row: nat) | Amount(row: nat)

  // ---------------------------------------------------------------------
  // The schemas
  // ---------------------------------------------------------------------

  /** `lineItemSchema`: a non-empty description and non-negative numbers. */
  predicate LineItemValid(li: LineItem) {
    |li.description| >= 1 && li.quantity >= 0.0 && li.unitPrice >= 0.0 && li.amount >= 0.0
  }

  /** `formSchema`: non-empty vendor, number and date, every line item valid
      (no line item at all is fine) and a non-negative total. */
  predicate FormValid(v: FormValues) {
    && |v.vendor| >= 1
    && |v.invoiceNumber| >= 1
    && |v.invoiceDate| >= 1
    && (forall k :: 0 <= k < |v.lineItems| ==> LineItemValid(v.lineItems[k]))
    && v.totalAmount >= 0.0
  }

  /** The check named by `f` fails on row `f.row` of `items`, a row at or after `from`. */
  ghost predicate RowFails(items: seq<LineItem>, f: Field, from: nat) {
    match f
    case Description(k) => from <= k < |items| && items[k].description == ""
    case Quantity(k) => from <= k < |items| && items[k].quantity < 0.0
    case UnitPrice(k) => from <= k < |items| && items[k].unitPrice < 0.0
    case Amount(k) => from <= k < |items| && items[k].amount < 0.0
    case _ => false
  }

  /** The check named by `f` fails on `v`. */
  ghost predicate Fails(v: FormValues, f: Field) {
    match f
    case Vendor => v.vendor == ""
    case InvoiceNumber => v.invoiceNumber == ""
    case InvoiceDate => v.invoiceDate == ""
    case TotalAmount => v.totalAmount < 0.0
    case _ => RowFails(v.lineItems, f, 0)
  }

  /** The failed checks of one row, in the schema's field order; none exactly
      when the row passes the line-item schema. */
  function RowIssues(row: nat, li: LineItem): (r: seq<Field>)
    ensures r == [] <==> LineItemValid(li)
    ensures forall f :: f in r ==> !f.Vendor? && !f.InvoiceNumber? && !f.InvoiceDate? && !f.TotalAmount? && f.row == row
  {
    (if li.description == "" then [Description(row)] else [])
    + (if li.quantity < 0.0 then [Quantity(row)] else [])
    + (if li.unitPrice < 0.0 then [UnitPrice(row)] else [])
    + (if li.amount < 0.0 then [Amount(row)] else [])
  }

  /** The failed checks of rows `from` onwards, row by row. */
  function RowsIssues(items: seq<LineItem>, from: nat): (r: seq<Field>)
    requires from <= |items|
    ensures forall f :: f in r <==> RowFails(items, f, from)
    decreases |items| - from
  {
    if from == |items| then []
    else
      var rest := RowsIssues(items, from + 1);
      var here := RowIssues(from, items[from]);
      assert forall f :: f in here <==> RowFails(items, f, from) && f.row == from;
      here + rest
  }

  /** The schema's verdict: the list of failed checks, in schema order. It is
      empty exactly when the form is valid, and it names every failing check
      and no other. */
  function Issues(v: FormValues): (r: seq<Field>)
    ensures forall f :: f in r <==> Fails(v, f)
    ensures r == [] <==> FormValid(v)
  {
    var r := (if v.vendor == "" then [Vendor] else [])
      + (if v.invoiceNumber == "" then [InvoiceNumber] else [])
      + (if v.invoiceDate == "" then [InvoiceDate] else [])
      + RowsIssues(v.lineItems, 0)
      + (if v.totalAmount < 0.0 then [TotalAmount] else []);
    ValidIffNothingFails(v);
    assert r != [] ==> r[0] in r;
    r
  }

  lemma ValidIffNothingFails(v: FormValues)
    ensures FormValid(v) <==> forall f :: !Fails(v, f)
  {
    if FormValid(v) {
      forall f ensures !Fails(v, f) {
        match f
        case Description(k) =>
          if k < |v.lineItems| { assert LineItemValid(v.lineItems[k]); }
        case Quantity(k) =>
          if k < |v.lineItems| { assert LineItemValid(v.lineItems[k]); }
        case UnitPrice(k) =>
          if k < |v.lineItems| { assert LineItemValid(v.lineItems[k]); }
        case Amount(k) =>
          if k < |v.lineItems| { assert LineItemValid(v.lineItems[k]); }
        case _ =>
      }
    }
    if v.vendor == "" {
      assert Fails(v, Vendor);
    } else if v.invoiceNumber == "" {
      assert Fails(v, InvoiceNumber);
    } else if v.invoiceDate == "" {
      assert Fails(v, InvoiceDate);
    } else if v.totalAmount < 0.0 {
      assert Fails(v, TotalAmount);
    } else if !FormValid(v) {
      var k :| 0 <= k < |v.lineItems| && !LineItemValid(v.lineItems[k]);
      var li := v.lineItems[k];
      if li.description == "" {
        assert Fails(v, Description(k));
      } else if li.quantity < 0.0 {
        assert Fails(v, Quantity(k));
      } else if li.unitPrice < 0.0 {
        assert Fails(v, UnitPrice(k));
      } else {
        assert Fails(v, Amount(k));
      }
    }
  }

  // ---------------------------------------------------------------------
  // The starting values
  // ---------------------------------------------------------------------

  /** A line item as the extraction returns it; its description may be missing. */
  datatype ExtractedLineItem = ExtractedLineItem(description: Option<string>, quantity: real, unitPrice: real, amount: real)

  /** The extraction's output (also built from a saved invoice when editing). */
  datatype Extraction = Extraction(vendor: string, invoiceNumber: string, lineItems: seq<ExtractedLineItem>, totals: real)

  /** A form row from an extracted line item: a missing description becomes "".
      The row passes the schema exactly when the item has a non-empty
      description and no negative number. */
  function DefaultRow(e: ExtractedLineItem): (r: LineItem)
    ensures r.quantity == e.quantity && r.unitPrice == e.unitPrice && r.amount == e.amount
    ensures LineItemValid(r) <==>
      e.description.Some? && e.description.value != "" && e.quantity >= 0.0 && e.unitPrice >= 0.0 && e.amount >= 0.0
  {
    LineItem(match e.description case Some(d) => d case None => "", e.quantity, e.unitPrice, e.amount)
  }

  /** The form's starting values. `today` is the current date already
      formatted; `formatDate` formats a stored invoice date. */
  function DefaultValues(initial: Extraction, existing: Option<Invoice>, today: string,
                         formatDate: string -> string): (v: FormValues)
    ensures v.vendor == initial.vendor && v.invoiceNumber == initial.invoiceNumber
    ensures v.totalAmount == initial.totals
    ensures existing.Some? && existing.value.invoiceDate != "" ==> v.invoiceDate == formatDate(existing.value.invoiceDate)
    ensures existing.None? || existing.value.invoiceDate == "" ==> v.invoiceDate == today
    ensures |v.lineItems| == |initial.lineItems|
    ensures forall k :: 0 <= k < |v.lineItems| ==>
      && v.lineItems[k].quantity == initial.lineItems[k].quantity
      && v.lineItems[k].unitPrice == initial.lineItems[k].unitPrice
      && v.lineItems[k].amount == initial.lineItems[k].amount
      && (initial.lineItems[k].description.Some? ==> v.lineItems[k].description == initial.lineItems[k].description.value)
      && (initial.lineItems[k].description.None? ==> v.lineItems[k].description == "")
  {
    FormValues(
      initial.vendor,
      initial.invoiceNumber,
      if existing.Some? && existing.value.invoiceDate != "" then formatDate(existing.value.invoiceDate) else today,
      seq(|initial.lineItems|, k requires 0 <= k < |initial.lineItems| => DefaultRow(initial.lineItems[k])),
      initial.totals)
  }

  /** The starting values pass the schema exactly when the extraction has a
      vendor, a number, a non-negative total, a described and non-negative
      line item everywhere, and a date is available. */
  lemma DefaultsValidIff(initial: Extraction, existing: Option<Invoice>, today: string, formatDate: string -> string)
    ensures var v := DefaultValues(initial, existing, today, formatDate);
      FormValid(v) <==>
        && initial.vendor != "" && initial.invoiceNumber != "" && v.invoiceDate != ""
        && initial.totals >= 0.0
        && (forall k :: 0 <= k < |initial.lineItems| ==>
              var e := initial.lineItems[k];
              e.description.Some? && e.description.value != ""
              && e.quantity >= 0.0 && e.unitPrice >= 0.0 && e.amount >= 0.0)
  {
    var v := DefaultValues(initial, existing, today, formatDate);
    if FormValid(v) {
      forall k | 0 <= k < |initial.lineItems|
        ensures initial.lineItems[k].description.Some? && initial.lineItems[k].description.value != ""
      {
        assert LineItemValid(v.lineItems[k]);
      }
    }
  }

  /** The extraction the edit page builds from a saved invoice: turning it
      back into form rows gives the saved line items. */
  function ExtractionOf(inv: Invoice): (r: Extraction)
    ensures r.vendor == inv.vendor && r.invoiceNumber == inv.invoiceNumber && r.totals == inv.totalAmount
    ensures |r.lineItems| == |inv.lineItems|
    ensures forall k :: 0 <= k < |r.lineItems| ==> DefaultRow(r.lineItems[k]) == inv.lineItems[k]
  {
    Extraction(inv.vendor, inv.invoiceNumber,
               seq(|inv.lineItems|, k requires 0 <= k < |inv.lineItems| =>
                 var li := inv.lineItems[k];
                 ExtractedLineItem(Some(li.description), li.quantity, li.unitPrice, li.amount)),
               inv.totalAmount)
  }

  /** Editing a saved invoice starts from its own vendor, number, total and
      line items, in their order. */
  lemma EditStartsFromSaved(inv: Invoice, today: string, formatDate: string -> string)
    ensures var v := DefaultValues(ExtractionOf(inv), Some(inv), today, formatDate);
      v.vendor == inv.vendor && v.invoiceNumber == inv.invoiceNumber
      && v.totalAmount == inv.totalAmount && v.lineItems == inv.lineItems
  {
    var v := DefaultValues(ExtractionOf(inv), Some(inv), today, formatDate);
    assert |v.lineItems| == |inv.lineItems|;
    forall k | 0 <= k < |inv.lineItems| ensures v.lineItems[k] == inv.lineItems[k] {
      assert ExtractionOf(inv).lineItems[k].description == Some(inv.lineItems[k].description);
    }
  }

  /** The row the "Add Item" button appends: one unit at no cost, failing the
      schema on its empty description and on nothing else. */
  function AddedRow(): (li: LineItem)
    ensures RowIssues(0, li) == [Description(0)]
    ensures forall d: string :: d != "" ==> LineItemValid(li.(description := d))
  {
    LineItem("", 1.0, 0.0, 0.0)
  }

  /** An appended row blocks the save on its description, and only on it,
      until the description is filled in. */
  lemma AddedRowBlocksSave(v: FormValues)
    ensures var w := v.(lineItems := v.lineItems + [AddedRow()]);
      Description(|v.lineItems|) in Issues(w) && !FormValid(w)
      && (forall f :: f in Issues(w) && f != Description(|v.lineItems|) ==> f in Issues(v))
  {
    var w := v.(lineItems := v.lineItems + [AddedRow()]);
    assert Fails(w, Description(|v.lineItems|));
    forall f | f in Issues(w) && f != Description(|v.lineItems|) ensures f in Issues(v) {
      assert Fails(w, f);
      if f.Description? || f.Quantity? || f.UnitPrice? || f.Amount? {
        assert f.row < |v.lineItems|;
        assert w.lineItems[f.row] == v.lineItems[f.row];
      }
    }
  }

  /** Filling in the appended row's description makes a valid form valid again. */
  lemma FilledRowAccepted(v: FormValues, description: string)
    requires FormValid(v) && description != ""
    ensures FormValid(v.(lineItems := v.lineItems + [AddedRow().(description := description)]))
  {
    var w := v.(lineItems := v.lineItems + [AddedRow().(description := description)]);
    forall k | 0 <= k < |w.lineItems| ensures LineItemValid(w.lineItems[k]) {
      if k < |v.lineItems| {
        assert w.lineItems[k] == v.lineItems[k];
      }
    }
  }

  /** Nothing ties a row's amount to quantity times unit price. */
  lemma AmountIsFree()
    ensures LineItemValid(LineItem("Widget", 2.0, 5.0, 7.0))
  {
  }

  // ---------------------------------------------------------------------
  // Saving
  // ---------------------------------------------------------------------

  /** `invoiceData`: the form values with the document's name and payload. */
  function DraftOfForm(v: FormValues, pdfFileName: string, pdfDataUri: string): Draft {
    Draft(pdfFileName, Some(pdfDataUri), v.vendor, v.invoiceNumber, v.invoiceDate, v.lineItems, v.totalAmount)
  }

  /** `{...current, ...invoiceData}`: the draft's fields over the current
      record, which keeps exactly the record's id and creation time. */
  function Overlay(current: Invoice, d: Draft): (r: Invoice)
    ensures r == Stamp(d, current.id, current.createdAt)
    ensures d == DraftOf(current) ==> r == current
  {
    StampOfDraft(current);
    current.(pdfFileName := d.pdfFileName, pdfDataUri := d.pdfDataUri, vendor := d.vendor,
             invoiceNumber := d.invoiceNumber, invoiceDate := d.invoiceDate,
             lineItems := d.lineItems, totalAmount := d.totalAmount)
  }

  /** With unique ids, saving an edit through the store's update keeps every
      record's id and creation time, gives the edited record the draft's
      fields, and leaves every other record as it was. */
  lemma EditKeepsIdentities(s: seq<Invoice>, id: string, d: Draft)
    requires InvoiceStore.UniqueIds(s)
    requires InvoiceStore.Find(s, id).Some?
    ensures var r := InvoiceStore.Replace(s, Overlay(InvoiceStore.Find(s, id).value, d));
      && |r| == |s|
      && (forall k :: 0 <= k < |s| ==> r[k].id == s[k].id && r[k].createdAt == s[k].createdAt)
      && (forall k :: 0 <= k < |s| && s[k].id == id ==> DraftOf(r[k]) == d)
      && (forall k :: 0 <= k < |s| && s[k].id != id ==> r[k] == s[k])
  {
    var cur := InvoiceStore.Find(s, id).value;
    var i :| 0 <= i < |s| && s[i] == cur && InvoiceStore.FirstWithId(s, id, i);
    var r := InvoiceStore.Replace(s, Overlay(cur, d));
    forall k | 0 <= k < |s| && s[k].id == id ensures r[k].createdAt == s[k].createdAt {
      assert k == i;
    }
  }

  /** What a save did. */
  datatype SaveOutcome = Invalid(issues: seq<Field>) | Updated(record: Invoice) | Created(record: Invoice) | NotFound

  /** `if (invoiceId)`: an absent or empty id means a new invoice. */
  predicate Editing(invoiceId: Option<string>) {
    invoiceId.Some? && invoiceId.value != ""
  }

  /** `handleSubmit(onSubmit)`: values the schema rejects change nothing; an
      edit whose record exists updates it with the overlay; an edit whose
      record is gone changes nothing; otherwise exactly one record is created
      in front. */
  method Submit(store: InvoiceStore.Store, values: FormValues, pdfFileName: string, pdfDataUri: string,
                invoiceId: Option<string>, newId: string, now: Timestamp, writeOk: bool)
    returns (outcome: SaveOutcome)
    modifies store, store.storage
    ensures store.isInitialized == old(store.isInitialized)
    ensures !FormValid(values) ==>
      && outcome == Invalid(Issues(values))
      && store.invoices == old(store.invoices) && store.storage.items == old(store.storage.items)
    ensures FormValid(values) && Editing(invoiceId) && old(InvoiceStore.Find(store.invoices, invoiceId.value)).None? ==>
      && outcome == NotFound
      && store.invoices == old(store.invoices) && store.storage.items == old(store.storage.items)
    ensures FormValid(values) && Editing(invoiceId) && old(InvoiceStore.Find(store.invoices, invoiceId.value)).Some? ==>
      var current := old(InvoiceStore.Find(store.invoices, invoiceId.value)).value;
      var saved := Overlay(current, DraftOfForm(values, pdfFileName, pdfDataUri));
      && outcome == Updated(saved)
      && saved.id == current.id && saved.createdAt == current.createdAt
      && store.invoices == InvoiceStore.Replace(old(store.invoices), saved)
      && store.storage.items == InvoiceStore.Mirrored(old(store.storage.items), store.isInitialized, writeOk, store.invoices)
    ensures FormValid(values) && !Editing(invoiceId) ==>
      var created := Stamp(DraftOfForm(values, pdfFileName, pdfDataUri), newId, now);
      && outcome == Created(created)
      && store.invoices == [created] + old(store.invoices)
      && store.storage.items == InvoiceStore.Mirrored(old(store.storage.items), store.isInitialized, writeOk, store.invoices)
  {
    var issues := Issues(values);
    if issues != [] {
      return Invalid(issues);
    }
    var invoiceData := DraftOfForm(values, pdfFileName, pdfDataUri);
    if Editing(invoiceId) {
      var current := store.GetInvoiceById(invoiceId.value);
      if current.Some? {
        var saved := store.UpdateInvoice(Overlay(current.value, invoiceData), writeOk);
        outcome := Updated(saved);
      } else {
        outcome := NotFound;
      }
    } else {
      var created := store.AddInvoice(invoiceData, newId, now, writeOk);
      outcome := Created(created);
    }
  }
}
