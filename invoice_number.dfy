/** Invoice numbering (`GenerateInvoiceNumber` in
    SushiBE/Controllers/OrderController.cs): the number of the latest invoice
    is split at '-', its third part read as an `int` and incremented, and the
    result printed as `INV-<year>-<number, at least six digits>`. */
module InvoiceNumbers {
  import opened Common
  import opened Models
  import opened Text

  // ---------------------------------------------------------------------
  // The latest invoice

  /** Scans from position `i`, keeping the first position of the latest date seen. */
  function LatestFrom(s: seq<Invoice>, i: nat, best: nat): (r: nat)
    requires best < i <= |s|
    requires forall j :: 0 <= j < i ==> s[j].invoiceDate <= s[best].invoiceDate
    requires forall j :: 0 <= j < best ==> s[j].invoiceDate < s[best].invoiceDate
    ensures best <= r < |s|
    ensures forall j :: 0 <= j < |s| ==> s[j].invoiceDate <= s[r].invoiceDate
    ensures forall j :: 0 <= j < r ==> s[j].invoiceDate < s[r].invoiceDate
    decreases |s| - i
  {
    if i == |s| then best
    else if s[i].invoiceDate > s[best].invoiceDate then LatestFrom(s, i + 1, i)
    else LatestFrom(s, i + 1, best)
  }

  /** `Invoices.OrderByDescending(i => i.InvoiceDate).FirstOrDefault()`, as a
      position: an invoice with the latest date, the first such in store
      order when several share it. */
  function LatestInvoice(invoices: seq<Invoice>): (r: Option<nat>)
    ensures r.None? <==> invoices == []
    ensures r.Some? ==> r.value < |invoices|
    ensures r.Some? ==> forall j :: 0 <= j < |invoices| ==> invoices[j].invoiceDate <= invoices[r.value].invoiceDate
    ensures r.Some? ==> forall j :: 0 <= j < r.value ==> invoices[j].invoiceDate < invoices[r.value].invoiceDate
  {
    if invoices == [] then None else Some(LatestFrom(invoices, 1, 0))
  }

  /** There is only one position with those two properties. */
  lemma LatestUnique(invoices: seq<Invoice>, k: nat)
    requires k < |invoices|
    requires forall j :: 0 <= j < |invoices| ==> invoices[j].invoiceDate <= invoices[k].invoiceDate
    requires forall j :: 0 <= j < k ==> invoices[j].invoiceDate < invoices[k].invoiceDate
    ensures LatestInvoice(invoices) == Some(k)
  {
  }

  /** An invoice dated after every stored one becomes the latest. */
  lemma AppendedIsLatest(invoices: seq<Invoice>, inv: Invoice)
    requires forall j :: 0 <= j < |invoices| ==> invoices[j].invoiceDate < inv.invoiceDate
    ensures LatestInvoice(invoices + [inv]) == Some(|invoices|)
  {
    var s := invoices + [inv];
    assert forall j :: 0 <= j < |invoices| ==> s[j] == invoices[j];
    LatestUnique(s, |invoices|);
  }

  // ---------------------------------------------------------------------
  // Numbers

  /** `$"INV-{year}-{n:D6}"`. */
  function NumberText(year: nat, n: int): string
  {
    "INV-" + NatText(year) + "-" + DecimalPadded(n, 6)
  }

  /** The number after the latest invoice's: one more than the third part of
      its number when that number splits at '-' into exactly three parts and
      the third reads as an `int`, and 1 otherwise (no invoice, an empty
      number, a different shape). The increment is unchecked 32-bit. */
  function NextNumber(invoices: seq<Invoice>): (n: int)
    ensures IntMin <= n <= IntMax
  {
    match LatestInvoice(invoices)
    case None => 1
    case Some(k) =>
      var number := invoices[k].invoiceNumber;
      if number == "" then 1
      else
        var parts := Split(number, {'-'});
        if |parts| == 3 && TryParseInt(parts[2]).Some? then Increment32(TryParseInt(parts[2]).value)
        else 1
  }

  function GenerateInvoiceNumber(invoices: seq<Invoice>, year: nat): string
  {
    NumberText(year, NextNumber(invoices))
  }

  /** A number printed for a non-negative value splits back into its three parts. */
  lemma NumberParts(year: nat, n: int)
    requires n >= 0
    ensures Split(NumberText(year, n), {'-'}) == ["INV", NatText(year), DecimalPadded(n, 6)]
    ensures TryParseInt(DecimalPadded(n, 6)) == if n <= IntMax then Some(n) else None
  {
    var a, b, c := "INV", NatText(year), DecimalPadded(n, 6);
    assert NoneIn(a, {'-'});
    assert NoneIn(b, {'-'}) by { assert AllDigits(b); }
    assert NoneIn(c, {'-'}) by { assert AllDigits(c); }
    assert NumberText(year, n) == a + ['-'] + b + ['-'] + c;
    SplitThree(a, b, c, '-');
  }

  /** With no invoice stored, numbering starts at `INV-<year>-000001`. */
  lemma FirstNumber(year: nat)
    ensures GenerateInvoiceNumber([], year) == "INV-" + NatText(year) + "-000001"
  {
    assert NatText(1) == "1";
    assert DecimalPadded(1, 6) == Repeat('0', 5) + "1";
    assert Repeat('0', 5) == "00000";
  }

  /** When the latest invoice carries a number printed for `n` below the
      32-bit maximum, the next number is `n + 1`, whatever year either is for. */
  lemma NextAfter(invoices: seq<Invoice>, y: nat, n: int)
    requires 0 <= n < IntMax
    requires LatestInvoice(invoices).Some?
    requires invoices[LatestInvoice(invoices).value].invoiceNumber == NumberText(y, n)
    ensures NextNumber(invoices) == n + 1
  {
    NumberParts(y, n);
  }

  /** A number printed for a negative value has a fourth '-'-separated part:
      `INV-<year>--<digits>`. */
  lemma NegativeParts(year: nat, n: int)
    requires n < 0
    ensures Split(NumberText(year, n), {'-'}) == ["INV", NatText(year), "", PadLeft(NatText(-n), 6, '0')]
  {
    var b, d := NatText(year), PadLeft(NatText(-n), 6, '0');
    PaddedDigits(NatText(-n));
    DigitsNoDash(d);
    DigitsNoDash(b);
    assert DecimalPadded(n, 6) == "-" + d;
    assert NumberText(year, n) == "INV" + ['-'] + b + ['-'] + ['-'] + d;
    SplitFourEmpty("INV", b, d, '-');
  }

  /** Zero-padding digits to six places leaves only digits. */
  lemma PaddedDigits(s: string)
    requires AllDigits(s)
    ensures AllDigits(PadLeft(s, 6, '0'))
  {
    var k := if |s| < 6 then 6 - |s| else 0;
    LeadingZeros(k, s);
    assert PadLeft(s, 6, '0') == Repeat('0', k) + s;
  }

  /** Digits hold no '-'. */
  lemma DigitsNoDash(s: string)
    requires AllDigits(s)
    ensures NoneIn(s, {'-'})
  {
    forall i | 0 <= i < |s| ensures s[i] !in {'-'} { assert IsDigit(s[i]); }
  }

  /** At the 32-bit maximum the increment wraps to `int.MinValue`, whose
      printed form has a fourth '-'-separated part, so the number after that
      restarts at 1. */
  lemma NumberWraps(invoices: seq<Invoice>, later: seq<Invoice>, y: nat)
    requires LatestInvoice(invoices).Some?
    requires invoices[LatestInvoice(invoices).value].invoiceNumber == NumberText(y, IntMax)
    requires LatestInvoice(later).Some?
    requires later[LatestInvoice(later).value].invoiceNumber == NumberText(y, NextNumber(invoices))
    ensures NextNumber(invoices) == IntMin
    ensures NextNumber(later) == 1
  {
    NumberParts(y, IntMax);
    NegativeParts(y, IntMin);
  }

  /** Issuing invoices in date order numbers them consecutively: once an
      invoice numbered by `GenerateInvoiceNumber` is stored with a later date
      than all others, the number after it is one more. */
  lemma ConsecutiveNumbers(invoices: seq<Invoice>, inv: Invoice, year: nat)
    requires forall j :: 0 <= j < |invoices| ==> invoices[j].invoiceDate < inv.invoiceDate
    requires inv.invoiceNumber == GenerateInvoiceNumber(invoices, year)
    requires 0 <= NextNumber(invoices) < IntMax
    ensures NextNumber(invoices + [inv]) == NextNumber(invoices) + 1
  {
    AppendedIsLatest(invoices, inv);
    NextAfter(invoices + [inv], year, NextNumber(invoices));
  }
}
