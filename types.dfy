/** Record shapes shared by the invoice store, the saved-invoice list and the
    invoice form. */
module Types {

  datatype Option<+T> = None | Some(value: T)

  /** One row of an invoice. Nothing ties `amount` to `quantity * unitPrice`:
      the extraction and manual edits may disagree. */
  datatype LineItem = LineItem(description: string, quantity: real, unitPrice: real, amount: real)

  /** A creation instant in milliseconds since the epoch: the value the list
      view obtains by parsing the ISO-8601 `createdAt` text. */
  type Timestamp = int

  /** A saved invoice; `id` is its identity, `pdfDataUri` may be absent. */
  datatype Invoice = Invoice(
    id: string,
    pdfFileName: string,
    pdfDataUri: Option<string>,
    vendor: string,
    invoiceNumber: string,
    invoiceDate: string,
    lineItems: seq<LineItem>,
    totalAmount: real,
    createdAt: Timestamp)

  /** An invoice without `id` and `createdAt`: what the store's create takes. */
  datatype Draft = Draft(
    pdfFileName: string,
    pdfDataUri: Option<string>,
    vendor: string,
    invoiceNumber: string,
    invoiceDate: string,
    lineItems: seq<LineItem>,
    totalAmount: real)

  /** The draft part of an invoice: every field except `id` and `createdAt`. */
  function DraftOf(inv: Invoice): Draft {
    Draft(inv.pdfFileName, inv.pdfDataUri, inv.vendor, inv.invoiceNumber,
          inv.invoiceDate, inv.lineItems, inv.totalAmount)
  }

  /** Completes a draft with an identity and a creation time. The draft is
      copied verbatim (line items in their order) and only `id` and
      `createdAt` are added. */
  function Stamp(d: Draft, id: string, createdAt: Timestamp): (r: Invoice)
    ensures r.id == id && r.createdAt == createdAt
    ensures DraftOf(r) == d
  {
    Invoice(id, d.pdfFileName, d.pdfDataUri, d.vendor, d.invoiceNumber,
            d.invoiceDate, d.lineItems, d.totalAmount, createdAt)
  }

  /** `a` is `b` with some entries left out, the rest in their order. */
  ghost predicate SubsequenceOf(a: seq<Invoice>, b: seq<Invoice>)
    decreases |b|
  {
    a == [] || (b != [] && ((a[0] == b[0] && SubsequenceOf(a[1..], b[1..])) || SubsequenceOf(a, b[1..])))
  }

  /** An invoice is determined by its draft part, its id and its creation time. */
  lemma StampOfDraft(inv: Invoice)
    ensures Stamp(DraftOf(inv), inv.id, inv.createdAt) == inv
  {
  }
}
