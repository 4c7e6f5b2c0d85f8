/**
 * The records of the application (types.ts). Identifiers, quantities and
 * prices are JavaScript numbers in the source; identifiers and quantities
 * are integers here and prices are reals that the ledger only copies.
 * Dates are the "YYYY-MM-DD" strings of the source.
 */
module Types {

  /** A stock record of the inventory store. */
  datatype InventoryItem = InventoryItem(
    id: int,
    reference: string,
    name: string,
    quantity: int,
    price: real,
    purchaseDate: string)

  /** An inventory record before the store has given it an id (Omit<InventoryItem, 'id'>). */
  datatype ItemData = ItemData(
    reference: string,
    name: string,
    quantity: int,
    price: real,
    purchaseDate: string)

  /** One line of an invoice. */
  datatype InvoiceItem = InvoiceItem(
    reference: string,
    description: string,
    quantity: int,
    unitPrice: real,
    total: real)

  /** An invoice of the invoice store. */
  datatype GeneratedInvoice = GeneratedInvoice(
    id: int,
    invoiceNumber: string,
    customerName: string,
    invoiceDate: string,
    totalAmount: real,
    items: seq<InvoiceItem>)

  /** An invoice before the store has given it an id (Omit<GeneratedInvoice, 'id'>). */
  datatype InvoiceDraft = InvoiceDraft(
    invoiceNumber: string,
    customerName: string,
    invoiceDate: string,
    totalAmount: real,
    items: seq<InvoiceItem>)

  /** The company profile, stored under the fixed key 1. */
  datatype ProfileData = ProfileData(
    id: int,
    userName: string,
    companyName: string,
    companyICE: string,
    companyAddress: string,
    companyPhone: string)

  /** A profile before the fixed key is attached (Omit<ProfileData, 'id'>). */
  datatype ProfileFields = ProfileFields(
    userName: string,
    companyName: string,
    companyICE: string,
    companyAddress: string,
    companyPhone: string)

  /** The record the store keeps when it assigns `id` to `d`. */
  function WithId(id: int, d: ItemData): InventoryItem
  {
    InventoryItem(id, d.reference, d.name, d.quantity, d.price, d.purchaseDate)
  }

  /** The invoice the store keeps when it assigns `id` to `d`. */
  function InvoiceWithId(id: int, d: InvoiceDraft): GeneratedInvoice
  {
    GeneratedInvoice(id, d.invoiceNumber, d.customerName, d.invoiceDate, d.totalAmount, d.items)
  }
}
