/**
 * The helpers of the inventory page (components/InventoryPage.tsx): the
 * search over the items, the summary totals, the distinct item names and
 * the name suggestions, the form's field changes with their error
 * clearing, and the checks and record building of the save.
 */
module InventoryPage {
  import opened Wrappers
  import opened JsString
  import opened Types
  import opened Lists

  // ---------------------------------------------------------------------
  // filteredItems
  // ---------------------------------------------------------------------

  /** The name or the reference, lowered, holds the lowered search term. */
  predicate ItemMatches(item: InventoryItem, lowered: string)
  {
    Includes(ToLower(item.name), lowered) || Includes(ToLower(item.reference), lowered)
  }

  /** The items shown for a search term: all of them for an empty term, else the matching ones. */
  function FilterItems(items: seq<InventoryItem>, searchTerm: string): (r: seq<InventoryItem>)
    ensures |r| <= |items|
  {
    if searchTerm == [] then items
    else
      var lowered := ToLower(searchTerm);
      Filter(items, item => ItemMatches(item, lowered))
  }

  /**
   * An empty term shows every item; any other term shows exactly the
   * items whose name or reference holds it, whatever the case, each as
   * many times as it is listed.
   */
  lemma FilterItemsExactly(items: seq<InventoryItem>, searchTerm: string)
    ensures searchTerm == [] ==> FilterItems(items, searchTerm) == items
    ensures searchTerm != [] ==> forall item ::
      item in FilterItems(items, searchTerm) <==> item in items && ItemMatches(item, ToLower(searchTerm))
    ensures searchTerm != [] ==> forall item ::
      multiset(FilterItems(items, searchTerm))[item] ==
        if ItemMatches(item, ToLower(searchTerm)) then multiset(items)[item] else 0
  {
    if searchTerm != [] {
      var lowered := ToLower(searchTerm);
      var p := item => ItemMatches(item, lowered);
      FilterMembers(items, p);
      forall item ensures multiset(Filter(items, p))[item] == if p(item) then multiset(items)[item] else 0 {
        FilterCounts(items, p, item);
      }
    }
  }

  /** The search keeps the order of the list: searching two parts is searching each in turn. */
  lemma FilterItemsKeepsOrder(a: seq<InventoryItem>, b: seq<InventoryItem>, searchTerm: string)
    ensures FilterItems(a + b, searchTerm) == FilterItems(a, searchTerm) + FilterItems(b, searchTerm)
  {
    if searchTerm != [] {
      var lowered := ToLower(searchTerm);
      FilterConcat(a, b, item => ItemMatches(item, lowered));
    }
  }

  /** Searching for an item's own reference always finds it. */
  lemma SearchFindsOwnReference(items: seq<InventoryItem>, item: InventoryItem)
    requires item in items
    ensures item in FilterItems(items, item.reference)
  {
    if item.reference != [] {
      IncludesItself(ToLower(item.reference));
      FilterItemsExactly(items, item.reference);
    }
  }

  // ---------------------------------------------------------------------
  // summaryData
  // ---------------------------------------------------------------------

  /** The sum of the quantities of `items`. */
  function SumQuantities(items: seq<InventoryItem>): int
  {
    if items == [] then 0 else items[0].quantity + SumQuantities(items[1..])
  }

  /** The sum over two parts is the sum of the sums. */
  lemma {:induction false} SumQuantitiesConcat(a: seq<InventoryItem>, b: seq<InventoryItem>)
    ensures SumQuantities(a + b) == SumQuantities(a) + SumQuantities(b)
  {
    if a == [] {
      assert a + b == b;
    } else {
      assert (a + b)[1..] == a[1..] + b;
      SumQuantitiesConcat(a[1..], b);
    }
  }

  /** The order of the items does not matter: any rearrangement has the same total. */
  lemma {:induction false} SumQuantitiesPermutation(a: seq<InventoryItem>, b: seq<InventoryItem>)
    requires multiset(a) == multiset(b)
    decreases |a|
    ensures SumQuantities(a) == SumQuantities(b)
  {
    if a != [] {
      var x := a[0];
      assert x in multiset(b);
      var j :| 0 <= j < |b| && b[j] == x;
      var rest := b[..j] + b[j + 1..];
      assert b == b[..j] + [x] + b[j + 1..];
      assert a == [x] + a[1..];
      assert multiset(b) == multiset(b[..j]) + multiset{x} + multiset(b[j + 1..]);
      assert multiset(a) == multiset{x} + multiset(a[1..]);
      assert multiset(rest) == multiset(b[..j]) + multiset(b[j + 1..]);
      assert multiset(a[1..]) == multiset(a) - multiset{x};
      assert multiset(rest) == multiset(b) - multiset{x};
      SumQuantitiesPermutation(a[1..], rest);
      SumQuantitiesConcat(b[..j] + [x], b[j + 1..]);
      SumQuantitiesConcat(b[..j], [x]);
      SumQuantitiesConcat(b[..j], b[j + 1..]);
    }
  }

  /** With no negative quantity the total is at least each quantity. */
  lemma {:induction false} SumQuantitiesBounds(items: seq<InventoryItem>)
    requires forall k :: 0 <= k < |items| ==> items[k].quantity >= 0
    ensures SumQuantities(items) >= 0
    ensures forall k :: 0 <= k < |items| ==> SumQuantities(items) >= items[k].quantity
  {
    if items != [] {
      SumQuantitiesBounds(items[1..]);
      forall k | 1 <= k < |items| ensures SumQuantities(items) >= items[k].quantity {
        assert items[1..][k - 1] == items[k];
      }
    }
  }

  /** The integer summary of the page: how many items, and how many units in all. */
  datatype Summary = Summary(uniqueCount: int, totalQuantity: int)

  /**
   * summaryData: one pass over the items adding up their quantities.
   * Quantities are integers here, so the source's `|| 0`, which counts a
   * stored NaN quantity as 0, has no case to act on.
   */
  method SummaryData(items: seq<InventoryItem>) returns (summary: Summary)
    ensures summary.uniqueCount == |items|
    ensures summary.totalQuantity == SumQuantities(items)
  {
    var totalQuantity := 0;
    for i := 0 to |items|
      invariant totalQuantity == SumQuantities(items[..i])
    {
      var quantity := items[i].quantity;
      totalQuantity := totalQuantity + quantity;
      assert items[..i + 1] == items[..i] + [items[i]];
      SumQuantitiesConcat(items[..i], [items[i]]);
    }
    assert items[..|items|] == items;
    summary := Summary(|items|, totalQuantity);
  }

  // ---------------------------------------------------------------------
  // uniqueItemNames and the name suggestions
  // ---------------------------------------------------------------------

  /** `items.map(item => item.name)`. */
  function Names(items: seq<InventoryItem>): (r: seq<string>)
    ensures |r| == |items| && forall k :: 0 <= k < |items| ==> r[k] == items[k].name
  {
    seq(|items|, k requires 0 <= k < |items| => items[k].name)
  }

  /** uniqueItemNames: each item name once, in the order the names first appear. */
  function UniqueItemNames(items: seq<InventoryItem>): seq<string>
  {
    Distinct(Names(items))
  }

  /**
   * The distinct names hold no name twice, hold the name of every item
   * and nothing else, and follow the order of first appearance.
   */
  lemma UniqueItemNamesSpec(items: seq<InventoryItem>)
    ensures NoDuplicates(UniqueItemNames(items))
    ensures forall i :: 0 <= i < |UniqueItemNames(items)| ==> UniqueItemNames(items)[i] in Names(items)
    ensures forall k :: 0 <= k < |items| ==> items[k].name in UniqueItemNames(items)
    ensures forall n :: n in UniqueItemNames(items) ==> exists k :: 0 <= k < |items| && items[k].name == n
    ensures forall i, j :: 0 <= i < j < |UniqueItemNames(items)| ==>
      FirstIndex(Names(items), UniqueItemNames(items)[i]) < FirstIndex(Names(items), UniqueItemNames(items)[j])
  {
    var names := Names(items);
    DistinctValues(names);
    DistinctFirstOccurrenceOrder(names);
    forall k | 0 <= k < |items| ensures items[k].name in UniqueItemNames(items) {
      assert names[k] in names;
    }
    forall n | n in UniqueItemNames(items) ensures exists k :: 0 <= k < |items| && items[k].name == n {
      var k :| 0 <= k < |names| && names[k] == n;
      assert items[k].name == n;
    }
  }

  /** The known names that hold the typed value, whatever the case, in their order. */
  function Suggestions(uniqueNames: seq<string>, value: string): (r: seq<string>)
  {
    var lowered := ToLower(value);
    Filter(uniqueNames, name => Includes(ToLower(name), lowered))
  }

  // ---------------------------------------------------------------------
  // handleFormChange
  // ---------------------------------------------------------------------

  /** The keys of the item form. */
  const FormFields: set<string> := {"reference", "name", "price", "quantity", "purchaseDate"}

  /** The state handleFormChange works on: the form, the suggestion list, the field they are for, and the errors. */
  datatype FormState = FormState(
    formData: map<string, string>,
    suggestions: seq<string>,
    activeSuggestionField: Option<string>,
    formErrors: map<string, string>)

  /**
   * The error clearing of handleFormChange: the changed field's error is
   * removed when it is a non-empty message, and every other error stays.
   */
  function ClearFieldError(errors: map<string, string>, field: string): (r: map<string, string>)
    ensures forall k :: k != field ==> (k in r <==> k in errors) && (k in r ==> r[k] == errors[k])
    ensures field in r <==> field in errors && errors[field] == []
    ensures field in r ==> r[field] == []
  {
    if field in errors && errors[field] != [] then errors - {field} else errors
  }

  /** Clearing the errors of two fields does not depend on the order. */
  lemma ClearFieldErrorsCommute(errors: map<string, string>, f: string, g: string)
    ensures ClearFieldError(ClearFieldError(errors, f), g) == ClearFieldError(ClearFieldError(errors, g), f)
  {
    var fg := ClearFieldError(ClearFieldError(errors, f), g);
    var gf := ClearFieldError(ClearFieldError(errors, g), f);
    assert fg.Keys == gf.Keys;
  }

  /** The autocomplete of handleFormChange: the suggestion list, and the field it is for. */
  datatype Autocomplete = Autocomplete(suggestions: seq<string>, activeSuggestionField: Option<string>)

  /**
   * A change of `field` to `value` leaves the autocomplete alone unless the
   * field is the name: a non-empty name opens the known names holding it,
   * whatever the case, and an empty one closes the list.
   */
  function AutocompleteAfter(current: Autocomplete, uniqueNames: seq<string>, field: string, value: string): (r: Autocomplete)
    ensures field != "name" ==> r == current
    ensures field == "name" && value == [] ==> r == Autocomplete([], None)
    ensures field == "name" && value != [] ==>
      r.activeSuggestionField == Some("name") &&
      (forall n :: n in r.suggestions ==> n in uniqueNames && Includes(ToLower(n), ToLower(value))) &&
      (forall n :: n in uniqueNames && Includes(ToLower(n), ToLower(value)) ==> n in r.suggestions)
  {
    if field != "name" then current
    else if value == [] then Autocomplete([], None)
    else
      FilterMembers(uniqueNames, name => Includes(ToLower(name), ToLower(value)));
      Autocomplete(Suggestions(uniqueNames, value), Some(field))
  }

  /**
   * One change of the form input `field` to `value` (handleFormChange):
   * the field is set, the autocomplete follows the name, and the field's
   * error is cleared.
   */
  function HandleFormChange(state: FormState, uniqueNames: seq<string>, field: string, value: string): (r: FormState)
    ensures r.formData.Keys == state.formData.Keys + {field} && r.formData[field] == value
    ensures forall k :: k in state.formData && k != field ==> r.formData[k] == state.formData[k]
    ensures Autocomplete(r.suggestions, r.activeSuggestionField) ==
      AutocompleteAfter(Autocomplete(state.suggestions, state.activeSuggestionField), uniqueNames, field, value)
    ensures r.formErrors == ClearFieldError(state.formErrors, field)
  {
    var auto := AutocompleteAfter(Autocomplete(state.suggestions, state.activeSuggestionField), uniqueNames, field, value);
    FormState(state.formData[field := value], auto.suggestions, auto.activeSuggestionField,
      ClearFieldError(state.formErrors, field))
  }

  /** A change of one of the form's own fields keeps the form to its five fields. */
  lemma FormChangeKeepsFields(state: FormState, uniqueNames: seq<string>, field: string, value: string)
    requires state.formData.Keys == FormFields && field in FormFields
    ensures HandleFormChange(state, uniqueNames, field, value).formData.Keys == FormFields
  {
  }

  /** Changes of two different fields commute on the form and on the errors. */
  lemma FormChangesCommute(state: FormState, uniqueNames: seq<string>, f: string, v: string, g: string, w: string)
    requires f != g
    ensures var fg := HandleFormChange(HandleFormChange(state, uniqueNames, f, v), uniqueNames, g, w);
      var gf := HandleFormChange(HandleFormChange(state, uniqueNames, g, w), uniqueNames, f, v);
      fg.formData == gf.formData && fg.formErrors == gf.formErrors
  {
    var fg := HandleFormChange(HandleFormChange(state, uniqueNames, f, v), uniqueNames, g, w);
    var gf := HandleFormChange(HandleFormChange(state, uniqueNames, g, w), uniqueNames, f, v);
    assert fg.formData == state.formData[f := v][g := w];
    assert gf.formData == state.formData[g := w][f := v];
    assert fg.formData.Keys == gf.formData.Keys;
    ClearFieldErrorsCommute(state.formErrors, f, g);
  }

  /**
   * handleSuggestionClick: the chosen name fills the field the suggestions
   * were for, if any, and the suggestions close.
   */
  function SuggestionClick(state: FormState, suggestion: string): (r: FormState)
    ensures r.suggestions == [] && r.activeSuggestionField == None && r.formErrors == state.formErrors
    ensures state.activeSuggestionField.None? ==> r.formData == state.formData
    ensures state.activeSuggestionField.Some? ==>
      var f := state.activeSuggestionField.value;
      r.formData.Keys == state.formData.Keys + {f} && r.formData[f] == suggestion &&
      forall k :: k in state.formData && k != f ==> r.formData[k] == state.formData[k]
  {
    var formData :=
      match state.activeSuggestionField
      case Some(f) => state.formData[f := suggestion]
      case None => state.formData;
    FormState(formData, [], None, state.formErrors)
  }

  /** Typing a non-empty name and then picking a suggestion leaves the picked name in the form, suggestions closed. */
  lemma TypeThenPick(state: FormState, uniqueNames: seq<string>, value: string, suggestion: string)
    requires value != []
    ensures var r := SuggestionClick(HandleFormChange(state, uniqueNames, "name", value), suggestion);
      r.formData["name"] == suggestion && r.suggestions == [] && r.activeSuggestionField == None
  {
  }

  // ---------------------------------------------------------------------
  // handleSaveFromModal
  // ---------------------------------------------------------------------

  /** A real with no fractional part (Number.isInteger). */
  predicate IsInteger(x: real)
  {
    x == x.Floor as real
  }

  /**
   * The errors of a save: a price that is not a number or is negative,
   * and a quantity that is not a number, not positive or not whole;
   * `t` gives the message of a translation key.
   */
  function SaveErrors(price: Option<real>, quantity: Option<real>, t: string -> string): (errors: map<string, string>)
    ensures errors.Keys <= {"price", "quantity"}
    ensures "price" in errors <==> price.None? || price.value < 0.0
    ensures "quantity" in errors <==> quantity.None? || quantity.value <= 0.0 || !IsInteger(quantity.value)
    ensures "price" in errors ==> errors["price"] == t("pricePositiveError")
    ensures "quantity" in errors ==> errors["quantity"] == t("quantityPositiveIntegerError")
  {
    var priceErrors: map<string, string> :=
      if price.None? || price.value < 0.0 then map["price" := t("pricePositiveError")] else map[];
    var quantityErrors: map<string, string> :=
      if quantity.None? || quantity.value <= 0.0 || !IsInteger(quantity.value)
      then map["quantity" := t("quantityPositiveIntegerError")] else map[];
    priceErrors + quantityErrors
  }

  /** What a save leads to: nothing before the store is open, the errors shown, or the store call made. */
  datatype SaveAction =
    | NotReady
    | Invalid(errors: map<string, string>)
    | Update(item: InventoryItem)
    | Add(data: ItemData)

  /**
   * handleSaveFromModal. The price is read after its first comma becomes a
   * point, the quantity as typed (`parseFloat`, None for NaN), and the
   * stored quantity is `parseInt`'s reading of the quantity field. Editing
   * lays the form's fields over the current item; adding builds a record
   * without an id.
   */
  function SaveFromModal(
    dbInitialized: bool,
    formData: map<string, string>,
    currentItem: Option<InventoryItem>,
    parseFloat: string -> Option<real>,
    parseInt: string -> int,
    t: string -> string): (r: SaveAction)
    requires formData.Keys == FormFields
    ensures !dbInitialized <==> r.NotReady?
    ensures r.Invalid? ==> r.errors != map[] && r.errors.Keys <= {"price", "quantity"}
    ensures r.Invalid? ==>
      r.errors == SaveErrors(parseFloat(ReplaceFirst(formData["price"], ",", ".")), parseFloat(formData["quantity"]), t)
    ensures var price := parseFloat(ReplaceFirst(formData["price"], ",", "."));
      var quantity := parseFloat(formData["quantity"]);
      dbInitialized ==>
        (r.Update? || r.Add? <==>
          price.Some? && price.value >= 0.0 &&
          quantity.Some? && quantity.value > 0.0 && IsInteger(quantity.value))
    ensures r.Update? ==>
      && currentItem.Some? && r.item.id == currentItem.value.id
      && r.item.reference == formData["reference"] && r.item.name == formData["name"]
      && r.item.quantity == parseInt(formData["quantity"])
      && Some(r.item.price) == parseFloat(ReplaceFirst(formData["price"], ",", "."))
      && r.item.purchaseDate == formData["purchaseDate"]
    ensures r.Add? ==>
      && currentItem.None?
      && r.data.reference == formData["reference"] && r.data.name == formData["name"]
      && r.data.quantity == parseInt(formData["quantity"])
      && Some(r.data.price) == parseFloat(ReplaceFirst(formData["price"], ",", "."))
      && r.data.purchaseDate == formData["purchaseDate"]
  {
    if !dbInitialized then NotReady
    else
      var price := parseFloat(ReplaceFirst(formData["price"], ",", "."));
      var quantity := parseFloat(formData["quantity"]);
      var errors := SaveErrors(price, quantity, t);
      if errors != map[] then
        Invalid(errors)
      else
        assert "price" !in errors && "quantity" !in errors;
        var data := ItemData(formData["reference"], formData["name"], parseInt(formData["quantity"]),
          price.value, formData["purchaseDate"]);
        match currentItem
        case Some(item) => Update(WithId(item.id, data))
        case None => Add(data)
  }
}
