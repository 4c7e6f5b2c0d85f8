/**
 * What the multi-record operations of db.ts do to the inventory store,
 * stated as functions on the sequence of inventory records (held in key
 * order), together with the properties the ledger promises about them.
 * The class Db.Database runs these operations step by step and is proved
 * to end in the states these functions describe.
 */
module LedgerSpec {
  import opened Wrappers
  import opened Types
  import opened KeyedStore

  function ItemKey(r: InventoryItem): int { r.id }

  function InvoiceKey(inv: GeneratedInvoice): int { inv.id }

  // ---------------------------------------------------------------------
  // Lookup through the non-unique 'reference' index
  // ---------------------------------------------------------------------

  /**
   * index('reference').get(ref): the position of the first record carrying
   * `ref`. The store holds its records in key order, so this is the record
   * with the smallest id among those sharing the reference.
   */
  function FirstWithReference(s: seq<InventoryItem>, ref: string): (r: Option<nat>)
    ensures r.Some? ==> r.value < |s| && s[r.value].reference == ref
    ensures r.Some? ==> forall j :: 0 <= j < r.value ==> s[j].reference != ref
    ensures r.None? <==> forall j :: 0 <= j < |s| ==> s[j].reference != ref
  {
    FirstIndexOf(Refs(s), ref)
  }

  /** The indexed field of the records, position by position: all the index looks at. */
  function Refs(s: seq<InventoryItem>): (r: seq<string>)
    ensures |r| == |s| && forall k :: 0 <= k < |s| ==> r[k] == s[k].reference
  {
    seq(|s|, k requires 0 <= k < |s| => s[k].reference)
  }

  /** The first position of `ref` in `refs`. */
  function FirstIndexOf(refs: seq<string>, ref: string): (r: Option<nat>)
    ensures r.Some? ==> r.value < |refs| && refs[r.value] == ref
    ensures r.Some? ==> forall j :: 0 <= j < r.value ==> refs[j] != ref
    ensures r.None? <==> forall j :: 0 <= j < |refs| ==> refs[j] != ref
  {
    if refs == [] then None
    else if refs[0] == ref then Some(0)
    else match FirstIndexOf(refs[1..], ref)
      case None => None
      case Some(i) => Some(i + 1)
  }

  /** In a key-ordered store the index returns the smallest id carrying the reference. */
  lemma FirstWithReferenceHasSmallestId(s: seq<InventoryItem>, ref: string, j: nat)
    requires Ordered(s, ItemKey)
    requires j < |s| && s[j].reference == ref
    ensures FirstWithReference(s, ref).Some?
    ensures s[FirstWithReference(s, ref).value].id <= s[j].id
  {
    var k := FirstWithReference(s, ref).value;
    assert k <= j;
    if k < j {
      assert ItemKey(s[k]) < ItemKey(s[j]);
    }
  }

  /** Record `k` is the one the index returns for its own reference. */
  ghost predicate IsFirst(s: seq<InventoryItem>, k: nat)
    requires k < |s|
  {
    FirstWithReference(s, s[k].reference) == Some(k)
  }

  /** The quantity the index sees for `ref`: that of the first record carrying it, or 0. */
  function StockOf(s: seq<InventoryItem>, ref: string): int
  {
    match FirstWithReference(s, ref)
    case None => 0
    case Some(k) => s[k].quantity
  }

  /** The two stores differ at most in the quantities of their records. */
  ghost predicate SameExceptQuantity(s: seq<InventoryItem>, t: seq<InventoryItem>)
  {
    |s| == |t| && forall k :: 0 <= k < |s| ==> t[k] == s[k].(quantity := t[k].quantity)
  }

  /**
   * Records whose references agree position by position look the same to
   * the index, so every reference is found at the same position in both.
   */
  lemma SameReferencesSameLookup(s: seq<InventoryItem>, t: seq<InventoryItem>)
    requires |s| == |t|
    requires forall k :: 0 <= k < |s| ==> s[k].reference == t[k].reference
    ensures Refs(s) == Refs(t)
    ensures forall ref :: FirstWithReference(s, ref) == FirstWithReference(t, ref)
  {
  }

  /** Adds `delta` to the quantity of record `k` (`stockItem.quantity += delta`). */
  function AddStock(s: seq<InventoryItem>, k: nat, delta: int): seq<InventoryItem>
    requires k < |s|
  {
    s[k := s[k].(quantity := s[k].quantity + delta)]
  }

  /** Changing a quantity leaves what the index sees unchanged. */
  lemma AddStockKeepsReferences(s: seq<InventoryItem>, k: nat, delta: int)
    requires k < |s|
    ensures Refs(AddStock(s, k, delta)) == Refs(s)
  {
    SameReferencesSameLookup(s, AddStock(s, k, delta));
  }

  /** The sum of the quantities of the lines carrying `ref`. */
  function LineTotal(lines: seq<InvoiceItem>, ref: string): int
  {
    if lines == [] then 0
    else (if lines[0].reference == ref then lines[0].quantity else 0) + LineTotal(lines[1..], ref)
  }

  lemma {:induction false} LineTotalAppend(a: seq<InvoiceItem>, b: seq<InvoiceItem>, ref: string)
    ensures LineTotal(a + b, ref) == LineTotal(a, ref) + LineTotal(b, ref)
  {
    if a == [] {
      assert a + b == b;
    } else {
      assert (a + b)[0] == a[0];
      assert (a + b)[1..] == a[1..] + b;
      LineTotalAppend(a[1..], b, ref);
    }
  }

  lemma {:induction false} LineTotalOfPositiveLines(lines: seq<InvoiceItem>, ref: string)
    requires forall i :: 0 <= i < |lines| ==> lines[i].quantity > 0
    ensures LineTotal(lines, ref) >= 0
  {
    if lines != [] {
      LineTotalOfPositiveLines(lines[1..], ref);
    }
  }

  // ---------------------------------------------------------------------
  // Restock (deleteInvoiceAndRestock, clearAllInvoicesAndRestock)
  // ---------------------------------------------------------------------

  /**
   * Returns one line to stock: the first record with the line's reference
   * gains the line's quantity; a line whose reference has no record is
   * skipped and no record is created.
   */
  function Restock(s: seq<InventoryItem>, line: InvoiceItem): seq<InventoryItem>
  {
    match FirstWithReference(s, line.reference)
    case None => s
    case Some(k) => AddStock(s, k, line.quantity)
  }

  /** Returns the lines to stock one after the other, in order. */
  function RestockLines(s: seq<InventoryItem>, lines: seq<InvoiceItem>): seq<InventoryItem>
    decreases lines
  {
    if lines == [] then s else RestockLines(Restock(s, lines[0]), lines[1..])
  }

  lemma RestockKeepsReferences(s: seq<InventoryItem>, line: InvoiceItem)
    ensures SameExceptQuantity(s, Restock(s, line))
    ensures Refs(Restock(s, line)) == Refs(s)
  {
    SameReferencesSameLookup(s, Restock(s, line));
  }

  /**
   * The effect of restocking a list of lines: only quantities change, and
   * each record the index returns for its reference gains the total quantity
   * of the lines carrying that reference; every other record (a duplicate
   * reference behind the first one, or a reference no line carries) keeps
   * its quantity. No record is added or removed.
   */
  lemma {:induction false} RestockLinesEffect(s: seq<InventoryItem>, lines: seq<InvoiceItem>)
    decreases lines
    ensures SameExceptQuantity(s, RestockLines(s, lines))
    ensures forall k :: 0 <= k < |s| ==>
      RestockLines(s, lines)[k].quantity
        == s[k].quantity + (if IsFirst(s, k) then LineTotal(lines, s[k].reference) else 0)
  {
    if lines != [] {
      var line := lines[0];
      var s1 := Restock(s, line);
      RestockKeepsReferences(s, line);
      RestockLinesEffect(s1, lines[1..]);
      forall k | 0 <= k < |s|
        ensures RestockLines(s, lines)[k].quantity
          == s[k].quantity + (if IsFirst(s, k) then LineTotal(lines, s[k].reference) else 0)
      {
        assert s1[k].reference == s[k].reference;
        assert IsFirst(s1, k) == IsFirst(s, k);
        var f := FirstWithReference(s, line.reference);
        if f == Some(k) {
          assert s1[k].quantity == s[k].quantity + line.quantity;
          assert line.reference == s[k].reference;
        } else {
          assert s1[k].quantity == s[k].quantity;
          if IsFirst(s, k) {
            assert line.reference != s[k].reference;
          }
        }
      }
    }
  }

  /** Restock results depend on the lines only through their per-reference totals. */
  lemma RestockLinesByTotals(s: seq<InventoryItem>, a: seq<InvoiceItem>, b: seq<InvoiceItem>)
    requires forall ref :: LineTotal(a, ref) == LineTotal(b, ref)
    ensures RestockLines(s, a) == RestockLines(s, b)
  {
    RestockLinesEffect(s, a);
    RestockLinesEffect(s, b);
    var x, y := RestockLines(s, a), RestockLines(s, b);
    assert |x| == |y|;
    forall k | 0 <= k < |x| ensures x[k] == y[k] {
      assert x[k] == s[k].(quantity := x[k].quantity);
      assert y[k] == s[k].(quantity := y[k].quantity);
    }
  }

  lemma {:induction false} RestockLinesAppend(s: seq<InventoryItem>, a: seq<InvoiceItem>, b: seq<InvoiceItem>)
    ensures RestockLines(s, a + b) == RestockLines(RestockLines(s, a), b)
    decreases a
  {
    if a == [] {
      assert a + b == b;
    } else {
      assert (a + b)[0] == a[0];
      assert (a + b)[1..] == a[1..] + b;
      RestockLinesAppend(Restock(s, a[0]), a[1..], b);
    }
  }

  /** items of every invoice, invoice after invoice (allInvoices.flatMap(inv => inv.items)). */
  function Flatten(invoices: seq<GeneratedInvoice>): seq<InvoiceItem>
  {
    if invoices == [] then [] else invoices[0].items + Flatten(invoices[1..])
  }

  lemma {:induction false} FlattenAppend(a: seq<GeneratedInvoice>, b: seq<GeneratedInvoice>)
    ensures Flatten(a + b) == Flatten(a) + Flatten(b)
  {
    if a == [] {
      assert a + b == b;
    } else {
      assert (a + b)[0] == a[0];
      assert (a + b)[1..] == a[1..] + b;
      FlattenAppend(a[1..], b);
    }
  }

  /** The stock after deleting the invoices one at a time, in the order given. */
  function DeleteEach(s: seq<InventoryItem>, invoices: seq<GeneratedInvoice>): seq<InventoryItem>
    decreases invoices
  {
    if invoices == [] then s else DeleteEach(RestockLines(s, invoices[0].items), invoices[1..])
  }

  lemma {:induction false} DeleteEachIsRestockOfFlatten(s: seq<InventoryItem>, invoices: seq<GeneratedInvoice>)
    ensures DeleteEach(s, invoices) == RestockLines(s, Flatten(invoices))
    decreases invoices
  {
    if invoices != [] {
      DeleteEachIsRestockOfFlatten(RestockLines(s, invoices[0].items), invoices[1..]);
      RestockLinesAppend(s, invoices[0].items, Flatten(invoices[1..]));
    }
  }

  /** The per-reference total of the lines of a list of invoices. */
  function FlatTotal(invoices: seq<GeneratedInvoice>, ref: string): int
  {
    LineTotal(Flatten(invoices), ref)
  }

  lemma FlatTotalAppend(a: seq<GeneratedInvoice>, b: seq<GeneratedInvoice>, ref: string)
    ensures FlatTotal(a + b, ref) == FlatTotal(a, ref) + FlatTotal(b, ref)
  {
    FlattenAppend(a, b);
    LineTotalAppend(Flatten(a), Flatten(b), ref);
  }

  /** Taking invoice `j` out of the list takes its lines out of the total. */
  lemma FlatTotalWithout(b: seq<GeneratedInvoice>, j: nat, ref: string)
    requires j < |b|
    ensures FlatTotal(b, ref) == LineTotal(b[j].items, ref) + FlatTotal(b[..j] + b[j + 1..], ref)
  {
    assert b == b[..j] + ([b[j]] + b[j + 1..]);
    FlatTotalAppend(b[..j], [b[j]] + b[j + 1..], ref);
    FlatTotalAppend([b[j]], b[j + 1..], ref);
    FlatTotalAppend(b[..j], b[j + 1..], ref);
    assert Flatten([b[j]]) == b[j].items + Flatten([]) by { assert [b[j]][1..] == []; }
    assert b[j].items + [] == b[j].items;
  }

  /** Taking the same element out of two permutations of each other leaves permutations. */
  lemma MultisetWithout<T>(a: seq<T>, b: seq<T>, j: nat)
    requires multiset(a) == multiset(b)
    requires |a| > 0 && j < |b| && b[j] == a[0]
    ensures multiset(a[1..]) == multiset(b[..j] + b[j + 1..])
  {
    var x := a[0];
    assert a == [x] + a[1..];
    assert b == b[..j] + [x] + b[j + 1..];
    assert multiset(a[1..]) == multiset(a) - multiset{x};
    assert multiset(b[..j] + b[j + 1..]) == multiset(b) - multiset{x};
  }

  /** Reordering the invoices does not change the per-reference totals of their lines. */
  lemma {:induction false} FlattenTotalsUnderPermutation(a: seq<GeneratedInvoice>, b: seq<GeneratedInvoice>, ref: string)
    requires multiset(a) == multiset(b)
    ensures FlatTotal(a, ref) == FlatTotal(b, ref)
    decreases |a|
  {
    if a == [] {
      assert b == [] by { assert |multiset(b)| == 0; }
    } else {
      var x := a[0];
      assert x in multiset(b);
      var j :| 0 <= j < |b| && b[j] == x;
      var rest := b[..j] + b[j + 1..];
      MultisetWithout(a, b, j);
      FlattenTotalsUnderPermutation(a[1..], rest, ref);
      FlatTotalWithout(b, j, ref);
      LineTotalAppend(a[0].items, Flatten(a[1..]), ref);
    }
  }

  /**
   * Clearing all invoices restocks exactly as deleting each invoice on its
   * own would, whatever the order of the deletions.
   */
  lemma ClearMatchesDeletingEach(s: seq<InventoryItem>, invoices: seq<GeneratedInvoice>, order: seq<GeneratedInvoice>)
    requires multiset(order) == multiset(invoices)
    ensures RestockLines(s, Flatten(invoices)) == DeleteEach(s, order)
  {
    DeleteEachIsRestockOfFlatten(s, order);
    forall ref ensures LineTotal(Flatten(invoices), ref) == LineTotal(Flatten(order), ref) {
      FlattenTotalsUnderPermutation(invoices, order, ref);
    }
    RestockLinesByTotals(s, Flatten(invoices), Flatten(order));
  }

  // ---------------------------------------------------------------------
  // Deduction (createInvoiceAndUpdateStock)
  // ---------------------------------------------------------------------

  /** Why the creation transaction aborts. */
  datatype StockError =
    | ReferenceNotFound(reference: string)
    | InsufficientStock(name: string, reference: string, required: int, available: int)

  /**
   * Deducts the lines from stock in order. A line whose reference has no
   * record, or whose first record holds less than the line's quantity,
   * aborts the whole deduction.
   */
  function Deduct(s: seq<InventoryItem>, lines: seq<InvoiceItem>): (r: Result<seq<InventoryItem>, StockError>)
    ensures r.Success? ==> |r.value| == |s|
    decreases lines
  {
    if lines == [] then Success(s)
    else
      var line := lines[0];
      match FirstWithReference(s, line.reference)
      case None => Failure(ReferenceNotFound(line.reference))
      case Some(k) =>
        if s[k].quantity < line.quantity
        then Failure(InsufficientStock(s[k].name, s[k].reference, line.quantity, s[k].quantity))
        else Deduct(AddStock(s, k, -line.quantity), lines[1..])
  }

  /** Deducting a line whose record holds enough leaves the rest of the lines to deduct. */
  lemma DeductFirstLine(s: seq<InventoryItem>, lines: seq<InvoiceItem>, k0: nat)
    requires lines != [] && FirstWithReference(s, lines[0].reference) == Some(k0)
    requires lines[0].quantity <= s[k0].quantity
    ensures Deduct(s, lines) == Deduct(AddStock(s, k0, -lines[0].quantity), lines[1..])
  {
  }

  /** A successful deduction drew its first line from the line's record. */
  lemma DeductSuccessFirstLine(s: seq<InventoryItem>, lines: seq<InvoiceItem>)
    requires lines != [] && Deduct(s, lines).Success?
    ensures FirstWithReference(s, lines[0].reference).Some?
    ensures lines[0].quantity <= s[FirstWithReference(s, lines[0].reference).value].quantity
    ensures Deduct(s, lines) ==
      Deduct(AddStock(s, FirstWithReference(s, lines[0].reference).value, -lines[0].quantity), lines[1..])
  {
  }

  ghost predicate NonNegativeStock(s: seq<InventoryItem>)
  {
    forall k :: 0 <= k < |s| ==> s[k].quantity >= 0
  }

  /**
   * A successful deduction: every line's reference has a record, only
   * quantities change, and each first record loses the total quantity of
   * the lines carrying its reference (repeated references deduct
   * cumulatively); all other records are untouched.
   */
  lemma DeductEffect(s: seq<InventoryItem>, lines: seq<InvoiceItem>)
    requires Deduct(s, lines).Success?
    ensures forall i :: 0 <= i < |lines| ==> FirstWithReference(s, lines[i].reference).Some?
    ensures SameExceptQuantity(s, Deduct(s, lines).value)
    ensures forall k :: 0 <= k < |s| ==>
      Deduct(s, lines).value[k].quantity
        == s[k].quantity - (if IsFirst(s, k) then LineTotal(lines, s[k].reference) else 0)
  {
    DeductFindsEveryReference(s, lines);
    DeductChangesOnlyQuantities(s, lines);
    DeductQuantities(s, lines);
  }

  /** A successful deduction found a record for every line. */
  lemma {:induction false} DeductFindsEveryReference(s: seq<InventoryItem>, lines: seq<InvoiceItem>)
    requires Deduct(s, lines).Success?
    decreases lines
    ensures forall i :: 0 <= i < |lines| ==> FirstWithReference(s, lines[i].reference).Some?
  {
    if lines != [] {
      DeductSuccessFirstLine(s, lines);
      var k0 := FirstWithReference(s, lines[0].reference).value;
      var s1 := AddStock(s, k0, -lines[0].quantity);
      var rest := lines[1..];
      SameReferencesSameLookup(s, s1);
      DeductFindsEveryReference(s1, rest);
      forall i | 0 <= i < |lines| ensures FirstWithReference(s, lines[i].reference).Some? {
        if i > 0 {
          assert lines[i] == rest[i - 1];
        }
      }
    }
  }

  /** A successful deduction changes quantities only. */
  lemma {:induction false} DeductChangesOnlyQuantities(s: seq<InventoryItem>, lines: seq<InvoiceItem>)
    requires Deduct(s, lines).Success?
    decreases lines
    ensures SameExceptQuantity(s, Deduct(s, lines).value)
  {
    if lines != [] {
      DeductSuccessFirstLine(s, lines);
      var k0 := FirstWithReference(s, lines[0].reference).value;
      var s1 := AddStock(s, k0, -lines[0].quantity);
      DeductChangesOnlyQuantities(s1, lines[1..]);
      var t := Deduct(s1, lines[1..]).value;
      forall k | 0 <= k < |s| ensures t[k] == s[k].(quantity := t[k].quantity) {
        assert t[k] == s1[k].(quantity := t[k].quantity);
      }
    }
  }

  /** Each first record loses the total quantity of the lines carrying its reference. */
  lemma {:induction false} DeductQuantities(s: seq<InventoryItem>, lines: seq<InvoiceItem>)
    requires Deduct(s, lines).Success?
    decreases lines
    ensures forall k :: 0 <= k < |s| ==>
      Deduct(s, lines).value[k].quantity
        == s[k].quantity - (if IsFirst(s, k) then LineTotal(lines, s[k].reference) else 0)
  {
    if lines != [] {
      DeductSuccessFirstLine(s, lines);
      var k0 := FirstWithReference(s, lines[0].reference).value;
      var s1 := AddStock(s, k0, -lines[0].quantity);
      DeductQuantities(s1, lines[1..]);
      forall k | 0 <= k < |s|
        ensures Deduct(s, lines).value[k].quantity
          == s[k].quantity - (if IsFirst(s, k) then LineTotal(lines, s[k].reference) else 0)
      {
        DeductStepQuantity(s, lines, k0, s1, k);
      }
    }
  }

  /** Deducting the first line moves what its first record owes from the lines to the store. */
  lemma DeductStepQuantity(s: seq<InventoryItem>, lines: seq<InvoiceItem>, k0: nat, s1: seq<InventoryItem>, k: nat)
    requires lines != [] && FirstWithReference(s, lines[0].reference) == Some(k0)
    requires s1 == AddStock(s, k0, -lines[0].quantity) && k < |s|
    ensures s1[k].quantity - (if IsFirst(s1, k) then LineTotal(lines[1..], s1[k].reference) else 0)
      == s[k].quantity - (if IsFirst(s, k) then LineTotal(lines, s[k].reference) else 0)
  {
    SameReferencesSameLookup(s, s1);
    assert s1[k].reference == s[k].reference;
    assert IsFirst(s1, k) == IsFirst(s, k);
    if k == k0 {
      assert lines[0].reference == s[k].reference;
    } else if IsFirst(s, k) {
      assert lines[0].reference != s[k].reference;
    }
  }

  lemma {:induction false} LineTotalOfAbsentReference(lines: seq<InvoiceItem>, ref: string)
    requires forall i :: 0 <= i < |lines| ==> lines[i].reference != ref
    ensures LineTotal(lines, ref) == 0
  {
    if lines != [] {
      LineTotalOfAbsentReference(lines[1..], ref);
    }
  }

  /**
   * A deduction never drives a quantity negative: each line is checked
   * against the record's current quantity before it is taken off, so a
   * store without negative quantities keeps none.
   */
  lemma {:induction false} DeductKeepsStockNonNegative(s: seq<InventoryItem>, lines: seq<InvoiceItem>)
    requires Deduct(s, lines).Success?
    requires NonNegativeStock(s)
    decreases lines
    ensures NonNegativeStock(Deduct(s, lines).value)
  {
    if lines != [] {
      DeductSuccessFirstLine(s, lines);
      var k0 := FirstWithReference(s, lines[0].reference).value;
      var s1 := AddStock(s, k0, -lines[0].quantity);
      assert NonNegativeStock(s1) by {
        forall k | 0 <= k < |s1| ensures s1[k].quantity >= 0 {
          if k != k0 {
            assert s1[k] == s[k];
          }
        }
      }
      DeductKeepsStockNonNegative(s1, lines[1..]);
    }
  }

  /** Deducting from record `k0` changes what the index sees for its reference only. */
  lemma StockOfAfterAddStock(s: seq<InventoryItem>, k0: nat, delta: int, ref: string)
    requires k0 < |s|
    ensures FirstWithReference(AddStock(s, k0, delta), ref) == FirstWithReference(s, ref)
    ensures StockOf(AddStock(s, k0, delta), ref)
      == StockOf(s, ref) + (if FirstWithReference(s, ref) == Some(k0) then delta else 0)
  {
    SameReferencesSameLookup(s, AddStock(s, k0, delta));
  }

  /** The first record carrying `ref` exists and holds at least what all the lines ask of it. */
  ghost predicate Covered(s: seq<InventoryItem>, lines: seq<InvoiceItem>, ref: string)
  {
    FirstWithReference(s, ref).Some? && LineTotal(lines, ref) <= StockOf(s, ref)
  }

  /** The condition under which creation succeeds: each line finds enough stock in total. */
  ghost predicate EnoughStockFor(s: seq<InventoryItem>, lines: seq<InvoiceItem>)
  {
    forall i :: 0 <= i < |lines| ==> Covered(s, lines, lines[i].reference)
  }

  /** For a reference, the condition before and after deducting the first line coincide. */
  lemma CoveredAfterFirstLine(s: seq<InventoryItem>, lines: seq<InvoiceItem>, k0: nat, ref: string)
    requires lines != [] && FirstWithReference(s, lines[0].reference) == Some(k0)
    ensures Covered(AddStock(s, k0, -lines[0].quantity), lines[1..], ref) <==> Covered(s, lines, ref)
  {
    StockOfAfterAddStock(s, k0, -lines[0].quantity, ref);
  }

  /** A successful creation found enough stock for every line. */
  lemma {:induction false} DeductSuccessHadEnoughStock(s: seq<InventoryItem>, lines: seq<InvoiceItem>)
    requires Deduct(s, lines).Success?
    decreases lines
    ensures EnoughStockFor(s, lines)
  {
    if lines != [] {
      var line, rest := lines[0], lines[1..];
      var k0 := FirstWithReference(s, line.reference).value;
      var s1 := AddStock(s, k0, -line.quantity);
      assert Deduct(s1, rest).Success?;
      DeductSuccessHadEnoughStock(s1, rest);
      forall i | 0 <= i < |lines| ensures Covered(s, lines, lines[i].reference) {
        CoveredAfterFirstLine(s, lines, k0, lines[i].reference);
        if i > 0 {
          assert lines[i] == rest[i - 1];
        } else if i1 :| 0 <= i1 < |rest| && rest[i1].reference == line.reference {
          assert Covered(s1, rest, rest[i1].reference);
        } else {
          LineTotalOfAbsentReference(rest, line.reference);
        }
      }
    }
  }

  /** The condition for the remaining lines holds once the first line is deducted. */
  lemma EnoughStockAfterFirstLine(s: seq<InventoryItem>, lines: seq<InvoiceItem>, k0: nat)
    requires lines != [] && FirstWithReference(s, lines[0].reference) == Some(k0)
    requires EnoughStockFor(s, lines)
    ensures EnoughStockFor(AddStock(s, k0, -lines[0].quantity), lines[1..])
  {
    var rest := lines[1..];
    forall i | 0 <= i < |rest| ensures Covered(AddStock(s, k0, -lines[0].quantity), rest, rest[i].reference) {
      assert rest[i] == lines[i + 1];
      CoveredAfterFirstLine(s, lines, k0, rest[i].reference);
    }
  }

  /** With positive quantities, the first line alone fits in its record. */
  lemma FirstLineFits(s: seq<InventoryItem>, lines: seq<InvoiceItem>)
    requires lines != [] && forall i :: 0 <= i < |lines| ==> lines[i].quantity > 0
    requires Covered(s, lines, lines[0].reference)
    ensures FirstWithReference(s, lines[0].reference).Some?
    ensures lines[0].quantity <= s[FirstWithReference(s, lines[0].reference).value].quantity
  {
    var rest := lines[1..];
    assert forall i :: 0 <= i < |rest| ==> rest[i].quantity > 0 by {
      forall i | 0 <= i < |rest| ensures rest[i].quantity > 0 {
        assert rest[i] == lines[i + 1];
      }
    }
    LineTotalOfPositiveLines(rest, lines[0].reference);
  }

  /** With positive line quantities, enough stock for every line lets creation succeed. */
  lemma {:induction false} EnoughStockLetsDeductSucceed(s: seq<InventoryItem>, lines: seq<InvoiceItem>)
    requires forall i :: 0 <= i < |lines| ==> lines[i].quantity > 0
    requires EnoughStockFor(s, lines)
    decreases lines
    ensures Deduct(s, lines).Success?
  {
    if lines != [] {
      var rest := lines[1..];
      assert Covered(s, lines, lines[0].reference);
      FirstLineFits(s, lines);
      var k0 := FirstWithReference(s, lines[0].reference).value;
      EnoughStockAfterFirstLine(s, lines, k0);
      assert forall i :: 0 <= i < |rest| ==> rest[i].quantity > 0 by {
        forall i | 0 <= i < |rest| ensures rest[i].quantity > 0 {
          assert rest[i] == lines[i + 1];
        }
      }
      EnoughStockLetsDeductSucceed(AddStock(s, k0, -lines[0].quantity), rest);
      DeductFirstLine(s, lines, k0);
    }
  }

  /**
   * With positive line quantities, creation succeeds exactly when every
   * line's reference has a record and the first record of each reference
   * holds at least the total quantity of all the lines carrying it.
   */
  lemma DeductSucceedsIff(s: seq<InventoryItem>, lines: seq<InvoiceItem>)
    requires forall i :: 0 <= i < |lines| ==> lines[i].quantity > 0
    ensures Deduct(s, lines).Success? <==> EnoughStockFor(s, lines)
  {
    if Deduct(s, lines).Success? {
      DeductSuccessHadEnoughStock(s, lines);
    }
    if EnoughStockFor(s, lines) {
      EnoughStockLetsDeductSucceed(s, lines);
    }
  }

  /**
   * Round trip: restocking the lines of a successfully created invoice gives
   * back the stock as it was before the creation.
   */
  lemma DeductThenRestock(s: seq<InventoryItem>, lines: seq<InvoiceItem>)
    requires Deduct(s, lines).Success?
    ensures RestockLines(Deduct(s, lines).value, lines) == s
  {
    var t := Deduct(s, lines).value;
    DeductEffect(s, lines);
    RestockLinesEffect(t, lines);
    var r := RestockLines(t, lines);
    SameReferencesSameLookup(s, t);
    assert |r| == |s|;
    forall k | 0 <= k < |s| ensures r[k] == s[k] {
      assert t[k].reference == s[k].reference;
      assert IsFirst(t, k) == IsFirst(s, k);
    }
  }

  // ---------------------------------------------------------------------
  // Batch merge by reference (addMultipleInventoryItems)
  // ---------------------------------------------------------------------

  /**
   * Merges one incoming item: when the index finds a record with the same
   * reference, that record keeps its id, gains the incoming quantity and
   * takes the incoming name, price and purchase date; otherwise the item is
   * added under the next generated key.
   */
  function MergeItem(s: seq<InventoryItem>, nextId: int, d: ItemData): (seq<InventoryItem>, int)
  {
    match FirstWithReference(s, d.reference)
    case Some(k) =>
      (s[k := s[k].(quantity := s[k].quantity + d.quantity, name := d.name, price := d.price,
                    purchaseDate := d.purchaseDate)], nextId)
    case None => (s + [WithId(nextId, d)], nextId + 1)
  }

  /** Merges the batch item after item, each one seeing the effect of those before it. */
  function MergeBatch(s: seq<InventoryItem>, nextId: int, batch: seq<ItemData>): (seq<InventoryItem>, int)
    decreases batch
  {
    if batch == [] then (s, nextId)
    else
      var (s1, n1) := MergeItem(s, nextId, batch[0]);
      MergeBatch(s1, n1, batch[1..])
  }

  /** The sum of the quantities of the batch items carrying `ref`. */
  function BatchTotal(batch: seq<ItemData>, ref: string): int
  {
    if batch == [] then 0
    else (if batch[0].reference == ref then batch[0].quantity else 0) + BatchTotal(batch[1..], ref)
  }

  lemma {:induction false} BatchTotalOfAbsentReference(batch: seq<ItemData>, ref: string)
    requires forall i :: 0 <= i < |batch| ==> batch[i].reference != ref
    ensures BatchTotal(batch, ref) == 0
  {
    if batch != [] {
      BatchTotalOfAbsentReference(batch[1..], ref);
    }
  }

  /** The position of the last batch item carrying `ref`. */
  function LastWithReference(batch: seq<ItemData>, ref: string): (r: Option<nat>)
    ensures r.Some? ==> r.value < |batch| && batch[r.value].reference == ref
    ensures r.Some? ==> forall j :: r.value < j < |batch| ==> batch[j].reference != ref
    ensures r.None? <==> forall j :: 0 <= j < |batch| ==> batch[j].reference != ref
  {
    if batch == [] then None
    else match LastWithReference(batch[1..], ref)
      case Some(i) => Some(i + 1)
      case None => if batch[0].reference == ref then Some(0) else None
  }

  /** The number of records carrying `ref`. */
  function CountReference(s: seq<InventoryItem>, ref: string): (n: nat)
    ensures n == 0 <==> FirstWithReference(s, ref).None?
  {
    CountOf(Refs(s), ref)
  }

  /** The number of occurrences of `ref` in `refs`, counted from the back. */
  function CountOf(refs: seq<string>, ref: string): (n: nat)
    ensures n == 0 <==> forall j :: 0 <= j < |refs| ==> refs[j] != ref
  {
    if refs == [] then 0
    else CountOf(refs[..|refs| - 1], ref) + (if refs[|refs| - 1] == ref then 1 else 0)
  }

  /** The index sees an appended record after all the others. */
  lemma RefsAfterAppend(s: seq<InventoryItem>, x: InventoryItem)
    ensures Refs(s + [x]) == Refs(s) + [x.reference]
  {
  }

  /** Adding a record after the others leaves every earlier reference found where it was. */
  lemma FirstWithReferenceAfterAppend(s: seq<InventoryItem>, x: InventoryItem, ref: string)
    ensures FirstWithReference(s + [x], ref) ==
      if FirstWithReference(s, ref).None? && x.reference == ref then Some(|s|) else FirstWithReference(s, ref)
  {
    RefsAfterAppend(s, x);
    FirstIndexOfAfterAppend(Refs(s), x.reference, ref);
  }

  lemma {:induction false} FirstIndexOfAfterAppend(refs: seq<string>, a: string, ref: string)
    ensures FirstIndexOf(refs + [a], ref) ==
      if FirstIndexOf(refs, ref).None? && a == ref then Some(|refs|) else FirstIndexOf(refs, ref)
  {
    if refs != [] {
      assert (refs + [a])[1..] == refs[1..] + [a];
      FirstIndexOfAfterAppend(refs[1..], a, ref);
    }
  }

  /** One merge step: what happens to the records by position. */
  lemma MergeItemShape(s: seq<InventoryItem>, nextId: int, d: ItemData)
    ensures var (s1, n1) := MergeItem(s, nextId, d);
      && |s1| == |s| + (n1 - nextId)
      && n1 == nextId + (if FirstWithReference(s, d.reference).None? then 1 else 0)
      && (forall k :: 0 <= k < |s| ==> s1[k].id == s[k].id && s1[k].reference == s[k].reference)
      && (forall k :: |s| <= k < |s1| ==> s1[k] == WithId(nextId, d))
      && (forall k :: 0 <= k < |s| && Some(k) != FirstWithReference(s, d.reference) ==> s1[k] == s[k])
  {
  }

  /** One merge step, as seen through the index for an arbitrary reference. */
  lemma MergeItemEffect(s: seq<InventoryItem>, nextId: int, d: ItemData, ref: string)
    ensures var (s1, n1) := MergeItem(s, nextId, d);
      && FirstWithReference(s1, ref) ==
           (if FirstWithReference(s, ref).None? && d.reference == ref then Some(|s|) else FirstWithReference(s, ref))
      && StockOf(s1, ref) == StockOf(s, ref) + (if d.reference == ref then d.quantity else 0)
      && (d.reference == ref ==>
            var k1 := FirstWithReference(s1, ref).value;
            s1[k1].name == d.name && s1[k1].price == d.price && s1[k1].purchaseDate == d.purchaseDate)
      && CountReference(s1, ref) ==
           CountReference(s, ref) + (if FirstWithReference(s, ref).None? && d.reference == ref then 1 else 0)
  {
    var (s1, n1) := MergeItem(s, nextId, d);
    match FirstWithReference(s, d.reference)
    case Some(k) =>
      SameReferencesSameLookup(s, s1);
    case None =>
      FirstWithReferenceAfterAppend(s, WithId(nextId, d), ref);
      RefsAfterAppend(s, WithId(nextId, d));
      assert (Refs(s) + [d.reference])[..|s|] == Refs(s);
  }

  /**
   * The shape of a merged store: records already there keep their position,
   * id and reference; new records follow them with consecutive fresh ids;
   * and a record is left exactly as it was unless it is the one the index
   * returns for a reference the batch carries.
   */
  lemma {:induction false} MergeBatchShape(s: seq<InventoryItem>, nextId: int, batch: seq<ItemData>)
    decreases batch
    ensures var (r, n) := MergeBatch(s, nextId, batch);
      && nextId <= n && |r| == |s| + (n - nextId)
      && (forall k :: 0 <= k < |s| ==> r[k].id == s[k].id && r[k].reference == s[k].reference)
      && (forall k :: |s| <= k < |r| ==> r[k].id == nextId + (k - |s|))
      && (forall k :: 0 <= k < |s| && (!IsFirst(s, k) || LastWithReference(batch, s[k].reference).None?) ==>
            r[k] == s[k])
  {
    if batch != [] {
      var d := batch[0];
      var (s1, n1) := MergeItem(s, nextId, d);
      MergeItemShape(s, nextId, d);
      MergeBatchShape(s1, n1, batch[1..]);
      var (r, n) := MergeBatch(s, nextId, batch);
      assert (r, n) == MergeBatch(s1, n1, batch[1..]);
      assert LastWithReference(batch, d.reference).Some? by {
        assert batch[0].reference == d.reference;
      }
      forall k | 0 <= k < |s| && (!IsFirst(s, k) || LastWithReference(batch, s[k].reference).None?)
        ensures r[k] == s[k]
      {
        MergeItemEffect(s, nextId, d, s[k].reference);
        assert s1[k] == s[k];
        assert IsFirst(s1, k) == IsFirst(s, k);
        if LastWithReference(batch[1..], s[k].reference).Some? {
          assert batch[1 + LastWithReference(batch[1..], s[k].reference).value].reference == s[k].reference;
        }
      }
    }
  }

  /** A key-ordered store whose keys lie below the generator stays so after a merge. */
  lemma MergeBatchKeepsStoreOrdered(s: seq<InventoryItem>, nextId: int, batch: seq<ItemData>)
    requires Ordered(s, ItemKey) && KeysBelow(s, ItemKey, nextId)
    ensures var (r, n) := MergeBatch(s, nextId, batch);
      Ordered(r, ItemKey) && KeysBelow(r, ItemKey, n)
  {
    MergeBatchShape(s, nextId, batch);
  }

  /** The stock the index sees for a reference grows by the batch total for it. */
  lemma {:induction false} MergeBatchStock(s: seq<InventoryItem>, nextId: int, batch: seq<ItemData>, ref: string)
    decreases batch
    ensures StockOf(MergeBatch(s, nextId, batch).0, ref) == StockOf(s, ref) + BatchTotal(batch, ref)
  {
    if batch != [] {
      var (s1, n1) := MergeItem(s, nextId, batch[0]);
      MergeItemEffect(s, nextId, batch[0], ref);
      MergeBatchStock(s1, n1, batch[1..], ref);
      assert MergeBatch(s, nextId, batch) == MergeBatch(s1, n1, batch[1..]);
    }
  }

  /**
   * Where the index finds a reference after a batch: where it found it
   * before if it did, otherwise after the old records if the batch brings
   * it, otherwise nowhere.
   */
  lemma {:induction false} MergeBatchLookup(s: seq<InventoryItem>, nextId: int, batch: seq<ItemData>, ref: string)
    decreases batch
    ensures var r := MergeBatch(s, nextId, batch).0;
      && (FirstWithReference(s, ref).Some? ==> FirstWithReference(r, ref) == FirstWithReference(s, ref))
      && (FirstWithReference(s, ref).None? && LastWithReference(batch, ref).None? ==> FirstWithReference(r, ref).None?)
      && (FirstWithReference(s, ref).None? && LastWithReference(batch, ref).Some? ==>
            FirstWithReference(r, ref).Some? && |s| <= FirstWithReference(r, ref).value)
  {
    if batch != [] {
      var (s1, n1) := MergeItem(s, nextId, batch[0]);
      MergeItemEffect(s, nextId, batch[0], ref);
      MergeBatchLookup(s1, n1, batch[1..], ref);
      assert MergeBatch(s, nextId, batch) == MergeBatch(s1, n1, batch[1..]);
    }
  }

  /**
   * The record the index returns for a reference the batch carries has the
   * name, price and purchase date of the last batch item carrying it.
   */
  lemma {:induction false} MergeBatchLastWins(s: seq<InventoryItem>, nextId: int, batch: seq<ItemData>, ref: string)
    decreases batch
    ensures var r := MergeBatch(s, nextId, batch).0;
      LastWithReference(batch, ref).Some? ==>
        var i := LastWithReference(batch, ref).value;
        && FirstWithReference(r, ref).Some?
        && r[FirstWithReference(r, ref).value].name == batch[i].name
        && r[FirstWithReference(r, ref).value].price == batch[i].price
        && r[FirstWithReference(r, ref).value].purchaseDate == batch[i].purchaseDate
  {
    if batch != [] {
      var d, rest := batch[0], batch[1..];
      var (s1, n1) := MergeItem(s, nextId, d);
      var r := MergeBatch(s, nextId, batch).0;
      assert r == MergeBatch(s1, n1, rest).0;
      MergeBatchLastWins(s1, n1, rest, ref);
      if LastWithReference(rest, ref).Some? {
        var i := LastWithReference(rest, ref).value;
        assert LastWithReference(batch, ref) == Some(i + 1);
        assert rest[i] == batch[i + 1];
      } else if d.reference == ref {
        MergeItemEffect(s, nextId, d, ref);
        MergeBatchLookup(s1, n1, rest, ref);
        MergeBatchShape(s1, n1, rest);
        var k1 := FirstWithReference(s1, ref).value;
        assert FirstWithReference(r, ref) == Some(k1);
        assert r[k1] == s1[k1];
      }
    }
  }

  /**
   * What a batch does to one reference, put together: the index finds a
   * record for it exactly when it did before or the batch carries it; its
   * stock is the old stock plus the batch total; an old record keeps its id
   * and a new one gets an id from the generator's range.
   */
  lemma MergeBatchByReference(s: seq<InventoryItem>, nextId: int, batch: seq<ItemData>, ref: string)
    ensures var (r, n) := MergeBatch(s, nextId, batch);
      && (FirstWithReference(r, ref).Some? <==>
            FirstWithReference(s, ref).Some? || LastWithReference(batch, ref).Some?)
      && StockOf(r, ref) == StockOf(s, ref) + BatchTotal(batch, ref)
      && (FirstWithReference(s, ref).Some? ==>
            FirstWithReference(r, ref) == FirstWithReference(s, ref) &&
            r[FirstWithReference(r, ref).value].id == s[FirstWithReference(s, ref).value].id)
      && (FirstWithReference(s, ref).None? && FirstWithReference(r, ref).Some? ==>
            nextId <= r[FirstWithReference(r, ref).value].id < n)
  {
    MergeBatchStock(s, nextId, batch, ref);
    MergeBatchLookup(s, nextId, batch, ref);
    MergeBatchShape(s, nextId, batch);
  }

  /** The number of records carrying a reference grows only when the batch brings it new. */
  lemma {:induction false} MergeBatchCount(s: seq<InventoryItem>, nextId: int, batch: seq<ItemData>, ref: string)
    decreases batch
    ensures CountReference(MergeBatch(s, nextId, batch).0, ref) ==
      CountReference(s, ref) + (if CountReference(s, ref) == 0 && LastWithReference(batch, ref).Some? then 1 else 0)
  {
    if batch != [] {
      var d, rest := batch[0], batch[1..];
      var (s1, n1) := MergeItem(s, nextId, d);
      MergeItemEffect(s, nextId, d, ref);
      MergeBatchCount(s1, n1, rest, ref);
      assert MergeBatch(s, nextId, batch) == MergeBatch(s1, n1, rest);
    }
  }

  /**
   * Batch items sharing a reference the store does not hold end as one
   * record, which holds their summed quantity.
   */
  lemma NewReferenceMergedOnce(s: seq<InventoryItem>, nextId: int, batch: seq<ItemData>, ref: string, i: nat)
    requires CountReference(s, ref) == 0
    requires i < |batch| && batch[i].reference == ref
    ensures CountReference(MergeBatch(s, nextId, batch).0, ref) == 1
    ensures StockOf(MergeBatch(s, nextId, batch).0, ref) == BatchTotal(batch, ref)
  {
    MergeBatchCount(s, nextId, batch, ref);
    MergeBatchStock(s, nextId, batch, ref);
  }

  // ---------------------------------------------------------------------
  // The stores together
  // ---------------------------------------------------------------------

  /** Changing only quantities keeps the inventory in key order, below the generator. */
  lemma SameExceptQuantityKeepsKeys(s: seq<InventoryItem>, t: seq<InventoryItem>, bound: int)
    requires SameExceptQuantity(s, t)
    requires Ordered(s, ItemKey) && KeysBelow(s, ItemKey, bound)
    ensures Ordered(t, ItemKey) && KeysBelow(t, ItemKey, bound)
  {
    assert forall k :: 0 <= k < |s| ==> t[k].id == s[k].id;
  }

  /**
   * One pass of the restock loop: writing back the record the index
   * returned, with the line's quantity added, is one Restock step.
   */
  lemma ReplaceRestocked(s: seq<InventoryItem>, line: InvoiceItem, bound: int)
    requires Ordered(s, ItemKey) && KeysBelow(s, ItemKey, bound)
    requires FirstWithReference(s, line.reference).Some?
    ensures var k := FirstWithReference(s, line.reference).value;
      var r := s[k := s[k].(quantity := s[k].quantity + line.quantity)];
      r == Restock(s, line) && Ordered(r, ItemKey) && KeysBelow(r, ItemKey, bound)
  {
    var k := FirstWithReference(s, line.reference).value;
    ReplaceKeepsKeys(s, ItemKey, k, s[k].(quantity := s[k].quantity + line.quantity), bound);
  }

  /** Restocking a list of lines is restocking the first, then the others. */
  lemma RestockLinesStep(s: seq<InventoryItem>, lines: seq<InvoiceItem>)
    requires lines != []
    ensures RestockLines(s, lines) == RestockLines(Restock(s, lines[0]), lines[1..])
  {
  }

  /**
   * One pass of the deduction loop: when the record the index returned
   * holds enough, writing it back with the line's quantity taken off leaves
   * the rest of the deduction to the remaining lines.
   */
  lemma ReplaceDeducted(s: seq<InventoryItem>, lines: seq<InvoiceItem>, bound: int)
    requires Ordered(s, ItemKey) && KeysBelow(s, ItemKey, bound)
    requires lines != [] && FirstWithReference(s, lines[0].reference).Some?
    requires s[FirstWithReference(s, lines[0].reference).value].quantity >= lines[0].quantity
    ensures var k := FirstWithReference(s, lines[0].reference).value;
      var r := s[k := s[k].(quantity := s[k].quantity - lines[0].quantity)];
      Deduct(r, lines[1..]) == Deduct(s, lines) && Ordered(r, ItemKey) && KeysBelow(r, ItemKey, bound)
  {
    var k := FirstWithReference(s, lines[0].reference).value;
    ReplaceKeepsKeys(s, ItemKey, k, s[k].(quantity := s[k].quantity - lines[0].quantity), bound);
    assert s[k := s[k].(quantity := s[k].quantity - lines[0].quantity)] == AddStock(s, k, -lines[0].quantity);
  }

  /** Merging a batch is merging its first item, then the others. */
  lemma MergeBatchStep(s: seq<InventoryItem>, nextId: int, batch: seq<ItemData>)
    requires batch != []
    ensures MergeBatch(s, nextId, batch) ==
      MergeBatch(MergeItem(s, nextId, batch[0]).0, MergeItem(s, nextId, batch[0]).1, batch[1..])
  {
  }

  /**
   * One pass of the merge loop for a reference the store holds: writing
   * back the record the index returned, updated from the incoming item, is
   * one MergeItem step.
   */
  lemma ReplaceMerged(s: seq<InventoryItem>, nextId: int, d: ItemData, bound: int)
    requires Ordered(s, ItemKey) && KeysBelow(s, ItemKey, bound)
    requires FirstWithReference(s, d.reference).Some?
    ensures var k := FirstWithReference(s, d.reference).value;
      var r := s[k := s[k].(quantity := s[k].quantity + d.quantity, name := d.name,
                            price := d.price, purchaseDate := d.purchaseDate)];
      (r, nextId) == MergeItem(s, nextId, d) && Ordered(r, ItemKey) && KeysBelow(r, ItemKey, bound)
  {
    var k := FirstWithReference(s, d.reference).value;
    ReplaceKeepsKeys(s, ItemKey, k, s[k].(quantity := s[k].quantity + d.quantity, name := d.name,
                                          price := d.price, purchaseDate := d.purchaseDate), bound);
  }

  /**
   * Creating an invoice and deleting it again restores both stores,
   * provided nothing else happened in between: the new invoice is the one
   * stored under the generated key, deleting it leaves the other invoices,
   * and restocking its lines gives back the inventory as it was.
   */
  lemma CreateThenDeleteRestores(s: seq<InventoryItem>, invoices: seq<GeneratedInvoice>, nextId: int, draft: InvoiceDraft)
    requires KeysBelow(invoices, InvoiceKey, nextId)
    requires Deduct(s, draft.items).Success?
    ensures var stored := invoices + [InvoiceWithId(nextId, draft)];
      && IndexOfKey(stored, InvoiceKey, nextId) == Some(|invoices|)
      && RemoveKey(stored, InvoiceKey, nextId) == invoices
      && RestockLines(Deduct(s, draft.items).value, stored[|invoices|].items) == s
  {
    LookupAppendedKey(invoices, InvoiceKey, InvoiceWithId(nextId, draft));
    DeductThenRestock(s, draft.items);
  }

  /**
   * Deleting an invoice later still restores what its creation took: for a
   * reference its lines carry, if the stock under that reference is what
   * the creation left, whatever else changed in the store meanwhile, then
   * restocking the invoice's lines gives back the stock from before the
   * creation.
   */
  lemma DeleteLaterRestoresStock(s: seq<InventoryItem>, lines: seq<InvoiceItem>, u: seq<InventoryItem>, ref: string)
    requires Deduct(s, lines).Success?
    requires exists i :: 0 <= i < |lines| && lines[i].reference == ref
    requires FirstWithReference(u, ref).Some?
    requires StockOf(u, ref) == StockOf(Deduct(s, lines).value, ref)
    ensures StockOf(RestockLines(u, lines), ref) == StockOf(s, ref)
  {
    var t := Deduct(s, lines).value;
    var r := RestockLines(u, lines);
    DeductEffect(s, lines);
    SameReferencesSameLookup(s, t);
    RestockLinesEffect(u, lines);
    SameReferencesSameLookup(u, r);
    var k := FirstWithReference(s, ref).value;
    var j := FirstWithReference(u, ref).value;
    assert IsFirst(s, k) && IsFirst(u, j);
    assert StockOf(t, ref) == s[k].quantity - LineTotal(lines, ref);
    assert StockOf(r, ref) == u[j].quantity + LineTotal(lines, ref);
  }
}
