/**
 * The pure helpers of the invoice page (components/InvoicePage.tsx): the
 * search over the invoice list and the checks made before an invoice is
 * generated from a target total.
 */
module InvoicePage {
  import opened Wrappers
  import opened JsString
  import opened Types
  import opened Lists

  // ---------------------------------------------------------------------
  // filteredInvoices
  // ---------------------------------------------------------------------

  /** The customer name or the invoice number, lowered, holds the lowered search term. */
  predicate InvoiceMatches(inv: GeneratedInvoice, lowered: string)
  {
    Includes(ToLower(inv.customerName), lowered) || Includes(ToLower(inv.invoiceNumber), lowered)
  }

  /** The invoices shown for a search term: all of them for an empty term, else the matching ones. */
  function FilterInvoices(invoices: seq<GeneratedInvoice>, searchTerm: string): (r: seq<GeneratedInvoice>)
    ensures |r| <= |invoices|
  {
    if searchTerm == [] then invoices
    else
      var lowered := ToLower(searchTerm);
      Filter(invoices, inv => InvoiceMatches(inv, lowered))
  }

  /**
   * An empty term shows the list unchanged; any other term shows exactly
   * the invoices whose customer or number holds it, whatever the case,
   * each as many times as it is listed.
   */
  lemma FilterInvoicesExactly(invoices: seq<GeneratedInvoice>, searchTerm: string)
    ensures searchTerm == [] ==> FilterInvoices(invoices, searchTerm) == invoices
    ensures searchTerm != [] ==> forall inv ::
      inv in FilterInvoices(invoices, searchTerm) <==> inv in invoices && InvoiceMatches(inv, ToLower(searchTerm))
    ensures searchTerm != [] ==> forall inv ::
      multiset(FilterInvoices(invoices, searchTerm))[inv] ==
        if InvoiceMatches(inv, ToLower(searchTerm)) then multiset(invoices)[inv] else 0
  {
    if searchTerm != [] {
      var lowered := ToLower(searchTerm);
      var p := inv => InvoiceMatches(inv, lowered);
      FilterMembers(invoices, p);
      forall inv ensures multiset(Filter(invoices, p))[inv] == if p(inv) then multiset(invoices)[inv] else 0 {
        FilterCounts(invoices, p, inv);
      }
    }
  }

  /** The search keeps the order of the list: searching two parts is searching each in turn. */
  lemma FilterInvoicesKeepsOrder(a: seq<GeneratedInvoice>, b: seq<GeneratedInvoice>, searchTerm: string)
    ensures FilterInvoices(a + b, searchTerm) == FilterInvoices(a, searchTerm) + FilterInvoices(b, searchTerm)
  {
    if searchTerm != [] {
      var lowered := ToLower(searchTerm);
      FilterConcat(a, b, inv => InvoiceMatches(inv, lowered));
    }
  }

  /** The case of the term does not matter: the upper-cased term finds the same invoices. */
  lemma FilterInvoicesIgnoresCase(invoices: seq<GeneratedInvoice>, searchTerm: string)
    ensures FilterInvoices(invoices, ToUpper(searchTerm)) == FilterInvoices(invoices, searchTerm)
  {
    ToLowerIdempotent(searchTerm);
  }

  /** Searching for an invoice's own number always finds it. */
  lemma SearchFindsOwnNumber(invoices: seq<GeneratedInvoice>, inv: GeneratedInvoice)
    requires inv in invoices
    ensures inv in FilterInvoices(invoices, inv.invoiceNumber)
  {
    if inv.invoiceNumber != [] {
      IncludesItself(ToLower(inv.invoiceNumber));
      FilterInvoicesExactly(invoices, inv.invoiceNumber);
    }
  }

  // ---------------------------------------------------------------------
  // The checks of handleGenerateByTotal
  // ---------------------------------------------------------------------

  /** The fields of the creation form, as typed. */
  datatype CreateForm = CreateForm(
    customerName: string,
    invoiceNumber: string,
    totalAmount: string,
    invoiceDate: string)

  /** What the checks decide: generate for the amount, show the creation error, or show the exceeded-value error. */
  datatype CreateCheck =
    | Generate(amount: real)
    | CreationError
    | ValueExceeded(requested: real, available: real)

  /** Every field filled in. */
  predicate FormComplete(form: CreateForm)
  {
    form.customerName != [] && form.invoiceNumber != [] && form.totalAmount != [] && form.invoiceDate != []
  }

  /** The amount as the page reads it: its first comma becomes a point before `parseFloat` (None for NaN). */
  function ParsedAmount(form: CreateForm, parseFloat: string -> Option<real>): Option<real>
  {
    parseFloat(ReplaceFirst(form.totalAmount, ",", "."))
  }

  /**
   * The checks made before generating an invoice from a total;
   * `maxAvailable` is the stock value known for the date, if any.
   * Generation goes ahead exactly when every field is filled in and the
   * amount reads as a positive number no larger than the known available
   * value, and it is then asked for that very amount; an empty field
   * refuses whatever the amount; the exceeded-value error is given exactly
   * for a complete form whose positive amount is above the known available
   * value, and reports the two.
   */
  function CheckCreation(form: CreateForm, parseFloat: string -> Option<real>, maxAvailable: Option<real>): (r: CreateCheck)
    ensures var parsed := ParsedAmount(form, parseFloat);
      r.Generate? <==>
        && FormComplete(form)
        && parsed.Some? && parsed.value > 0.0
        && (maxAvailable.None? || parsed.value <= maxAvailable.value)
    ensures r.Generate? ==>
      && Some(r.amount) == ParsedAmount(form, parseFloat)
      && r.amount > 0.0
      && (maxAvailable.Some? ==> r.amount <= maxAvailable.value)
    ensures !FormComplete(form) ==> r == CreationError
    ensures r.ValueExceeded? ==>
      && FormComplete(form)
      && maxAvailable == Some(r.available)
      && Some(r.requested) == ParsedAmount(form, parseFloat)
      && r.requested > r.available
      && r.requested > 0.0
    ensures var parsed := ParsedAmount(form, parseFloat);
      FormComplete(form) && parsed.Some? && parsed.value > 0.0
        && maxAvailable.Some? && parsed.value > maxAvailable.value ==>
        r == ValueExceeded(parsed.value, maxAvailable.value)
  {
    if form.customerName == [] || form.totalAmount == [] || form.invoiceDate == [] || form.invoiceNumber == [] then
      CreationError
    else
      match parseFloat(ReplaceFirst(form.totalAmount, ",", "."))
      case None => CreationError
      case Some(amount) =>
        if amount <= 0.0 then CreationError
        else if maxAvailable.Some? && amount > maxAvailable.value then ValueExceeded(amount, maxAvailable.value)
        else Generate(amount)
  }

  /**
   * More available stock never turns an accepted request into a refusal,
   * and an unknown available value accepts whatever a known one accepts.
   */
  lemma MoreStockStillGenerates(form: CreateForm, parseFloat: string -> Option<real>, low: real, high: real)
    requires low <= high
    requires CheckCreation(form, parseFloat, Some(low)).Generate?
    ensures CheckCreation(form, parseFloat, Some(high)) == CheckCreation(form, parseFloat, Some(low))
    ensures CheckCreation(form, parseFloat, None) == CheckCreation(form, parseFloat, Some(low))
  {
  }
}
