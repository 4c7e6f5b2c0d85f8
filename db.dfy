/**
 * The IndexedDB database of the application (db.ts) as one object holding
 * its three stores. The inventory and invoice stores have generated keys:
 * each keeps its records in ascending key order together with the next key
 * its generator gives out. A read-write transaction is modelled by working
 * on local copies and assigning them to the stores only when it commits;
 * a transaction that aborts leaves every store, and the key generators, as
 * they were.
 */
module Db {
  import opened Wrappers
  import opened Types
  import opened KeyedStore
  import opened LedgerSpec

  class Database {
    /** The inventory store, ascending by id. */
    var inventory: seq<InventoryItem>
    /** The invoice store, ascending by id. */
    var invoices: seq<GeneratedInvoice>
    /** The profile store, which only ever holds the record with key 1. */
    var profile: Option<ProfileData>
    /** The key generator of the inventory store. */
    var nextItemId: int
    /** The key generator of the invoice store. */
    var nextInvoiceId: int

    /** Keys are unique, ascending and below their store's generator; the profile sits under key 1. */
    ghost predicate Valid()
      reads this
    {
      && Ordered(inventory, ItemKey) && KeysBelow(inventory, ItemKey, nextItemId)
      && Ordered(invoices, InvoiceKey) && KeysBelow(invoices, InvoiceKey, nextInvoiceId)
      && 1 <= nextItemId && 1 <= nextInvoiceId
      && (profile.Some? ==> profile.value.id == 1)
    }

    /** A freshly created database: empty stores, generators starting at 1. */
    constructor ()
      ensures Valid()
      ensures inventory == [] && invoices == [] && profile == None
      ensures nextItemId == 1 && nextInvoiceId == 1
    {
      inventory := [];
      invoices := [];
      profile := None;
      nextItemId := 1;
      nextInvoiceId := 1;
    }

    /** addInventoryItem: stores the item under the next generated key and returns that key. */
    method AddInventoryItem(d: ItemData) returns (id: int)
      requires Valid()
      modifies this
      ensures Valid()
      ensures id == old(nextItemId) && nextItemId == id + 1
      ensures inventory == old(inventory) + [WithId(id, d)]
      ensures invoices == old(invoices) && profile == old(profile) && nextInvoiceId == old(nextInvoiceId)
    {
      id := nextItemId;
      AppendFreshKey(inventory, ItemKey, WithId(id, d));
      inventory := inventory + [WithId(id, d)];
      nextItemId := nextItemId + 1;
    }

    /**
     * addMultipleInventoryItems: the batch is merged item after item, each
     * looked up by reference in the store as the previous items left it.
     */
    method AddMultipleInventoryItems(batch: seq<ItemData>)
      requires Valid()
      modifies this
      ensures Valid()
      ensures (inventory, nextItemId) == MergeBatch(old(inventory), old(nextItemId), batch)
      ensures invoices == old(invoices) && profile == old(profile) && nextInvoiceId == old(nextInvoiceId)
    {
      var inv, next := inventory, nextItemId;
      var i := 0;
      while i < |batch|
        invariant 0 <= i <= |batch|
        invariant Ordered(inv, ItemKey) && KeysBelow(inv, ItemKey, next) && 1 <= next
        invariant MergeBatch(inv, next, batch[i..]) == MergeBatch(inventory, nextItemId, batch)
        invariant unchanged(this)
      {
        var item := batch[i];
        assert batch[i..][0] == item && batch[i..][1..] == batch[i + 1..];
        MergeBatchStep(inv, next, batch[i..]);
        inv, next := MergeOne(inv, next, item);
        i := i + 1;
      }
      assert batch[|batch|..] == [];
      inventory, nextItemId := inv, next;
    }

    /**
     * One step of the merge loop (processNext): the record the index
     * returns for the item's reference is updated from it and put back, or
     * the item is added under the next generated key when there is none.
     */
    static method MergeOne(inv: seq<InventoryItem>, next: int, item: ItemData)
      returns (r: seq<InventoryItem>, n: int)
      requires Ordered(inv, ItemKey) && KeysBelow(inv, ItemKey, next) && 1 <= next
      ensures (r, n) == MergeItem(inv, next, item)
      ensures Ordered(r, ItemKey) && KeysBelow(r, ItemKey, n) && 1 <= n
    {
      var found := FirstWithReference(inv, item.reference);
      if found.Some? {
        var k := found.value;
        var existing := inv[k].(quantity := inv[k].quantity + item.quantity, name := item.name,
                                price := item.price, purchaseDate := item.purchaseDate);
        ReplaceMerged(inv, next, item, next);
        r, n := inv[k := existing], next;
      } else {
        AppendFreshKey(inv, ItemKey, WithId(next, item));
        r, n := inv + [WithId(next, item)], next + 1;
      }
    }

    /**
     * updateInventoryItem: put with the item's own key replaces the record
     * under that key or inserts a new one; a key at or above the generator
     * moves the generator past it.
     */
    method UpdateInventoryItem(item: InventoryItem) returns (id: int)
      requires Valid()
      modifies this
      ensures Valid()
      ensures id == item.id
      ensures inventory == Put(old(inventory), ItemKey, item)
      ensures nextItemId == if item.id < old(nextItemId) then old(nextItemId) else item.id + 1
      ensures invoices == old(invoices) && profile == old(profile) && nextInvoiceId == old(nextInvoiceId)
    {
      PutContents(inventory, ItemKey, item);
      inventory := Put(inventory, ItemKey, item);
      if item.id >= nextItemId {
        nextItemId := item.id + 1;
      }
      id := item.id;
      forall j | 0 <= j < |inventory| ensures inventory[j].id < nextItemId {
        assert inventory[j] in inventory;
      }
    }

    /** deleteInventoryItem: removes the record under `id`; deleting a missing key is not an error. */
    method DeleteInventoryItem(id: int)
      requires Valid()
      modifies this
      ensures Valid()
      ensures inventory == RemoveKey(old(inventory), ItemKey, id)
      ensures invoices == old(invoices) && profile == old(profile)
      ensures nextItemId == old(nextItemId) && nextInvoiceId == old(nextInvoiceId)
    {
      inventory := RemoveKey(inventory, ItemKey, id);
      forall j | 0 <= j < |inventory| ensures inventory[j].id < nextItemId {
        assert inventory[j] in inventory;
      }
    }

    /** clearInventory: empties the store; its key generator is not reset. */
    method ClearInventory()
      requires Valid()
      modifies this
      ensures Valid()
      ensures inventory == []
      ensures invoices == old(invoices) && profile == old(profile)
      ensures nextItemId == old(nextItemId) && nextInvoiceId == old(nextInvoiceId)
    {
      inventory := [];
    }

    /** updateProfile: the profile is stored under the fixed key 1, replacing any earlier one. */
    method UpdateProfile(fields: ProfileFields)
      requires Valid()
      modifies this
      ensures Valid()
      ensures profile == Some(ProfileData(1, fields.userName, fields.companyName, fields.companyICE,
                                          fields.companyAddress, fields.companyPhone))
      ensures inventory == old(inventory) && invoices == old(invoices)
      ensures nextItemId == old(nextItemId) && nextInvoiceId == old(nextInvoiceId)
    {
      profile := Some(ProfileData(1, fields.userName, fields.companyName, fields.companyICE,
                                  fields.companyAddress, fields.companyPhone));
    }

    /**
     * Returns `lines` to stock one after the other, each to the first
     * record carrying its reference; lines without a record are skipped.
     * The restock loop shared by the two deleting transactions.
     */
    method RestockInPlace(lines: seq<InvoiceItem>)
      requires Valid()
      modifies this
      ensures Valid()
      ensures inventory == RestockLines(old(inventory), lines)
      ensures invoices == old(invoices) && profile == old(profile)
      ensures nextItemId == old(nextItemId) && nextInvoiceId == old(nextInvoiceId)
    {
      var inv := inventory;
      var i := 0;
      while i < |lines|
        invariant 0 <= i <= |lines|
        invariant Ordered(inv, ItemKey) && KeysBelow(inv, ItemKey, nextItemId)
        invariant RestockLines(inv, lines[i..]) == RestockLines(inventory, lines)
        invariant unchanged(this)
      {
        var line := lines[i];
        assert lines[i..][0] == line && lines[i..][1..] == lines[i + 1..];
        RestockLinesStep(inv, lines[i..]);
        inv := RestockLine(inv, line, nextItemId);
        i := i + 1;
      }
      assert lines[|lines|..] == [];
      inventory := inv;
    }

    /**
     * One step of the restock loop (processNextItem): the line goes to the
     * first record carrying its reference, and is skipped when there is none.
     */
    static method RestockLine(inv: seq<InventoryItem>, line: InvoiceItem, ghost bound: int)
      returns (r: seq<InventoryItem>)
      requires Ordered(inv, ItemKey) && KeysBelow(inv, ItemKey, bound)
      ensures r == Restock(inv, line)
      ensures Ordered(r, ItemKey) && KeysBelow(r, ItemKey, bound)
    {
      var found := FirstWithReference(inv, line.reference);
      if found.Some? {
        var k := found.value;
        var stockItem := inv[k].(quantity := inv[k].quantity + line.quantity);
        ReplaceRestocked(inv, line, bound);
        r := inv[k := stockItem];
      } else {
        r := inv;
      }
    }

    /**
     * deleteInvoiceAndRestock: when no invoice has key `id` nothing changes
     * and the call succeeds; otherwise that invoice is deleted and its lines
     * are returned to stock in order.
     */
    method DeleteInvoiceAndRestock(id: int)
      requires Valid()
      modifies this
      ensures Valid()
      ensures match IndexOfKey(old(invoices), InvoiceKey, id)
        case None => inventory == old(inventory) && invoices == old(invoices)
        case Some(j) =>
          && invoices == RemoveKey(old(invoices), InvoiceKey, id)
          && inventory == RestockLines(old(inventory), old(invoices)[j].items)
      ensures profile == old(profile) && nextItemId == old(nextItemId) && nextInvoiceId == old(nextInvoiceId)
    {
      match IndexOfKey(invoices, InvoiceKey, id)
      case None =>
      case Some(j) =>
        var invoice := invoices[j];
        invoices := RemoveKey(invoices, InvoiceKey, id);
        forall m | 0 <= m < |invoices| ensures invoices[m].id < nextInvoiceId {
          assert invoices[m] in invoices;
        }
        RestockInPlace(invoice.items);
    }

    /**
     * clearAllInvoicesAndRestock: every line of every invoice, invoice after
     * invoice, is returned to stock, and then the invoice store is emptied.
     * With no invoices the transaction does nothing.
     */
    method ClearAllInvoicesAndRestock()
      requires Valid()
      modifies this
      ensures Valid()
      ensures inventory == RestockLines(old(inventory), Flatten(old(invoices)))
      ensures invoices == []
      ensures profile == old(profile) && nextItemId == old(nextItemId) && nextInvoiceId == old(nextInvoiceId)
    {
      if |invoices| == 0 {
        return;
      }
      var itemsToRestock := Flatten(invoices);
      RestockInPlace(itemsToRestock);
      invoices := [];
    }

    /**
     * One step of the deduction loop (processNextItem) for the first of
     * `lines`: a reference without a record, or a record holding less than
     * the line asks for, is an error; otherwise the line's quantity is taken
     * off the record and the record is put back.
     */
    static method DeductLine(staged: seq<InventoryItem>, lines: seq<InvoiceItem>, ghost bound: int)
      returns (r: Result<seq<InventoryItem>, StockError>)
      requires Ordered(staged, ItemKey) && KeysBelow(staged, ItemKey, bound)
      requires lines != []
      ensures r.Failure? ==> Deduct(staged, lines) == Failure(r.error)
      ensures r.Success? ==>
        Deduct(r.value, lines[1..]) == Deduct(staged, lines) &&
        Ordered(r.value, ItemKey) && KeysBelow(r.value, ItemKey, bound)
    {
      var line := lines[0];
      var found := FirstWithReference(staged, line.reference);
      if found.None? {
        return Failure(ReferenceNotFound(line.reference));
      }
      var k := found.value;
      if staged[k].quantity < line.quantity {
        return Failure(InsufficientStock(staged[k].name, staged[k].reference, line.quantity, staged[k].quantity));
      }
      var stockItem := staged[k].(quantity := staged[k].quantity - line.quantity);
      ReplaceDeducted(staged, lines, bound);
      r := Success(staged[k := stockItem]);
    }

    /**
     * createInvoiceAndUpdateStock: the invoice is added under the next
     * generated key and every line is deducted, in order, from the first
     * record carrying its reference. A line whose reference has no record,
     * or whose record holds less than the line asks for, aborts the
     * transaction: the outcome carries the error and nothing is stored.
     */
    method CreateInvoiceAndUpdateStock(draft: InvoiceDraft) returns (outcome: Outcome<StockError>)
      requires Valid()
      modifies this
      ensures Valid()
      ensures match Deduct(old(inventory), draft.items)
        case Failure(e) =>
          && outcome == Fail(e)
          && inventory == old(inventory) && invoices == old(invoices) && nextInvoiceId == old(nextInvoiceId)
        case Success(t) =>
          && outcome == Pass
          && inventory == t
          && invoices == old(invoices) + [InvoiceWithId(old(nextInvoiceId), draft)]
          && nextInvoiceId == old(nextInvoiceId) + 1
      ensures profile == old(profile) && nextItemId == old(nextItemId)
    {
      var invoiceId := nextInvoiceId;
      var stagedInvoices := invoices + [InvoiceWithId(invoiceId, draft)];
      var staged := inventory;
      var lines := draft.items;
      var i := 0;
      while i < |lines|
        invariant 0 <= i <= |lines|
        invariant Ordered(staged, ItemKey) && KeysBelow(staged, ItemKey, nextItemId)
        invariant Deduct(staged, lines[i..]) == Deduct(inventory, lines)
        invariant unchanged(this)
      {
        var step := DeductLine(staged, lines[i..], nextItemId);
        if step.Failure? {
          return Fail(step.error);
        }
        assert lines[i..][1..] == lines[i + 1..];
        staged := step.value;
        i := i + 1;
      }
      assert lines[|lines|..] == [];
      AppendFreshKey(invoices, InvoiceKey, InvoiceWithId(invoiceId, draft));
      inventory := staged;
      invoices := stagedInvoices;
      nextInvoiceId := invoiceId + 1;
      outcome := Pass;
    }
  }
}
