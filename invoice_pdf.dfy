/** The bookkeeping of SushiBE/Services/IInvoicePdfService.cs: the file name
    and URL of an invoice's document, the figures printed on it, and the
    by-id entry point that stores the URL on the invoice. The document
    layout itself and the file written to disk are not part of this model;
    whether rendering succeeds is a parameter. */
module InvoicePdf {
  import opened Common
  import opened Models
  import opened Text
  import opened Seqs
  import opened Data

  /** What the service depends on from outside: the characters the file
      system refuses in a file name (`Path.GetInvalidFileNameChars`), the
      text of an id (`Guid.ToString`), and whether rendering and writing the
      document succeed. */
  datatype Env = Env(invalid: set<char>, idText: Id -> string, renderOk: bool)

  /** `string.Join("_", number.Split(invalid))`: each invalid character
      becomes an underscore and nothing else moves. */
  function SafeNumber(number: string, invalid: set<char>): (s: string)
    ensures s == MapChars(number, invalid, '_')
  {
    JoinSplit(number, invalid, '_');
    Join("_", Split(number, invalid))
  }

  /** The safe number holds no invalid character (the underscore itself is
      a valid file-name character on every platform .NET supports). */
  lemma SafeNumberIsSafe(number: string, invalid: set<char>)
    requires '_' !in invalid
    ensures NoneIn(SafeNumber(number, invalid), invalid)
    ensures |SafeNumber(number, invalid)| == |number|
  {
  }

  /** A number without invalid characters is used as it is. */
  lemma SafeNumberIdentity(number: string, invalid: set<char>)
    requires NoneIn(number, invalid)
    ensures SafeNumber(number, invalid) == number
  {
    assert MapChars(number, invalid, '_') == number;
  }

  /** Cleaning twice is cleaning once. */
  lemma SafeNumberIdempotent(number: string, invalid: set<char>)
    requires '_' !in invalid
    ensures SafeNumber(SafeNumber(number, invalid), invalid) == SafeNumber(number, invalid)
  {
    SafeNumberIsSafe(number, invalid);
    SafeNumberIdentity(SafeNumber(number, invalid), invalid);
  }

  /** `$"{safeNumber}_{invoice.InvoiceId}.pdf"`. */
  function FileName(inv: Invoice, env: Env): string
  {
    SafeNumber(inv.invoiceNumber, env.invalid) + "_" + env.idText(inv.invoiceId) + ".pdf"
  }

  /** `$"/invoices/{fileName}"`, the URL `GeneratePdfAsync` returns. */
  function PdfUrl(inv: Invoice, env: Env): string
  {
    "/invoices/" + FileName(inv, env)
  }

  /** The URL depends on the invoice's number and id only: it lies under
      `/invoices/`, ends in `.pdf`, and holds the cleaned number; storing a
      URL on the invoice does not change the URL computed for it. */
  lemma PdfUrlShape(inv: Invoice, env: Env, pdfUrl: Option<string>)
    requires '_' !in env.invalid
    ensures var url := PdfUrl(inv, env);
      && url[..10] == "/invoices/"
      && url[|url| - 4..] == ".pdf"
      && url[10..10 + |inv.invoiceNumber|] == SafeNumber(inv.invoiceNumber, env.invalid)
      && NoneIn(url[10..10 + |inv.invoiceNumber|], env.invalid)
      && PdfUrl(inv.(pdfUrl := pdfUrl), env) == url
  {
    SafeNumberIsSafe(inv.invoiceNumber, env.invalid);
  }

  // ---------------------------------------------------------------------
  // The printed figures

  function ItemTotal(item: OrderItem): Money { item.price * item.quantity }

  /** The figures of the totals block: the subtotal is the sum of the line
      totals of the order's items (0 without an order), tax is 0, and the
      total printed is the invoice's own amount, not the subtotal. */
  datatype Figures = Figures(subtotal: Money, tax: Money, total: Money)

  function InvoiceFigures(inv: Invoice, orderItems: Option<seq<OrderItem>>): (f: Figures)
    ensures orderItems.None? ==> f.subtotal == 0
    ensures orderItems.Some? ==> f.subtotal == SumOf(orderItems.value, ItemTotal)
    ensures f.tax == 0 && f.total == inv.amount
  {
    Figures(if orderItems.None? then 0 else SumOf(orderItems.value, ItemTotal), 0, inv.amount)
  }

  /** The figures do not depend on the order in which the order's lines are
      loaded, and the printed total is the invoice's amount whatever lines
      are loaded. */
  lemma FiguresOrderFree(inv: Invoice, a: seq<OrderItem>, b: seq<OrderItem>)
    requires multiset(a) == multiset(b)
    ensures InvoiceFigures(inv, Some(a)) == InvoiceFigures(inv, Some(b))
    ensures InvoiceFigures(inv, Some(a)).total == InvoiceFigures(inv, None).total == inv.amount
  {
    SumOfPermutation(a, b, ItemTotal);
  }

  function BelongsTo(orderId: Id): OrderItem -> bool
  {
    (x: OrderItem) => x.orderId == orderId
  }

  /** The items of an order, which `Include(o => o.Items)` loads. The model
      lists them in store order; the database returns them in an order it
      does not fix, so only the membership below is what the query
      promises. */
  function ItemsOf(orderItems: seq<OrderItem>, orderId: Id): (r: seq<OrderItem>)
    ensures forall i :: 0 <= i < |r| ==> r[i].orderId == orderId
    ensures forall x :: x in r <==> x in orderItems && x.orderId == orderId
  {
    Filter(orderItems, BelongsTo(orderId))
  }

  // ---------------------------------------------------------------------
  // GeneratePdfByInvoiceIdAsync

  /** `null` for an unknown invoice, the URL after a successful render, and a
      failure (an exception) when rendering or writing the file fails. */
  datatype PdfResult = Rendered(url: string) | InvoiceMissing | RenderFailed

  /** The invoice list as the by-id entry point leaves it. */
  function AfterPdf(invoices: seq<Invoice>, invoiceId: Id, env: Env): seq<Invoice>
  {
    match FindInvoice(invoices, invoiceId)
    case None => invoices
    case Some(k) =>
      if env.renderOk then invoices[k := invoices[k].(pdfUrl := Some(PdfUrl(invoices[k], env)))]
      else invoices
  }

  /** Only the requested invoice changes, and only in its stored URL, which
      is then the URL of its document. */
  lemma AfterPdfEffect(invoices: seq<Invoice>, invoiceId: Id, env: Env)
    ensures var r := AfterPdf(invoices, invoiceId, env);
      && |r| == |invoices|
      && (forall j :: 0 <= j < |r| && invoices[j].invoiceId != invoiceId ==> r[j] == invoices[j])
      && (FindInvoice(invoices, invoiceId).None? || !env.renderOk ==> r == invoices)
      && (FindInvoice(invoices, invoiceId).Some? && env.renderOk ==>
            var k := FindInvoice(invoices, invoiceId).value;
            r[k] == invoices[k].(pdfUrl := Some(PdfUrl(invoices[k], env))))
  {
  }

  /** Regenerating stores the same URL again: the update is idempotent. */
  lemma {:induction false} AfterPdfIdempotent(invoices: seq<Invoice>, invoiceId: Id, env: Env)
    ensures AfterPdf(AfterPdf(invoices, invoiceId, env), invoiceId, env) == AfterPdf(invoices, invoiceId, env)
  {
    match FindInvoice(invoices, invoiceId)
    case None =>
    case Some(k) =>
      if env.renderOk {
        var r := AfterPdf(invoices, invoiceId, env);
        assert forall j :: 0 <= j < |r| ==> r[j].invoiceId == invoices[j].invoiceId;
        assert FindInvoice(r, invoiceId) == Some(k) by {
          assert r[k].invoiceId == invoiceId;
          assert forall j :: 0 <= j < k ==> r[j].invoiceId != invoiceId;
        }
        assert PdfUrl(r[k], env) == PdfUrl(invoices[k], env);
      }
  }

  /** `GeneratePdfByInvoiceIdAsync(invoiceId)`. An unknown id answers
      `InvoiceMissing` and changes nothing; a failed render changes nothing
      either; otherwise the invoice's URL is (re)stored and returned. */
  method GeneratePdfByInvoiceId(db: Db, invoiceId: Id, env: Env) returns (r: PdfResult)
    modifies db
    ensures db.invoices == AfterPdf(old(db.invoices), invoiceId, env)
    ensures db.orders == old(db.orders) && db.orderItems == old(db.orderItems) && db.users == old(db.users)
    ensures db.carts == old(db.carts) && db.products == old(db.products) && db.canOrders == old(db.canOrders)
    ensures FindInvoice(old(db.invoices), invoiceId).None? <==> r == InvoiceMissing
    ensures r.RenderFailed? <==> FindInvoice(old(db.invoices), invoiceId).Some? && !env.renderOk
    ensures r.Rendered? ==>
      var k := FindInvoice(old(db.invoices), invoiceId).value;
      && r.url == PdfUrl(old(db.invoices)[k], env)
      && db.invoices[k].pdfUrl == Some(r.url)
  {
    var found := FindInvoice(db.invoices, invoiceId);
    if found.None? {
      return InvoiceMissing;
    }
    var k := found.value;
    var invoice := db.invoices[k];
    if !env.renderOk {
      return RenderFailed;
    }
    var url := PdfUrl(invoice, env);
    if invoice.pdfUrl != Some(url) {
      db.invoices := db.invoices[k := invoice.(pdfUrl := Some(url))];
    } else {
      assert db.invoices[k := invoice.(pdfUrl := Some(url))] == db.invoices;
    }
    r := Rendered(url);
  }
}
