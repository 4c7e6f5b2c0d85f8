# FacturePro ledger, amount in words and page helpers, in Dafny

FacturePro is a small invoicing application. Its inventory, invoices and
company profile sit in three IndexedDB object stores. This project models
the logic that decides what those stores hold and what the user sees:

- **The database (`db.ts`)**, as the class `Db.Database`:
  - the inventory and invoice stores are sequences kept in ascending key
    order, each with the next key its generator gives out;
  - the profile store holds at most the record with key 1;
  - the multi-record transactions are loops over the lines:
    - creating an invoice deducts stock, all or nothing;
    - deleting an invoice restocks it;
    - clearing all invoices restocks every line;
    - a batch import merges items by reference;
  - a transaction works on local copies and assigns them to the stores
    only when it commits.

  The reference index is not unique. `index('reference').get(ref)` is
  modelled as the first record with that reference in key order
  (`LedgerSpec.FirstWithReference`). Every method is proved against the
  specification functions of `LedgerSpec` or `KeyedStore`, or has its new
  state stated outright, and the ledger's properties are lemmas about those
  functions.
- **`numberToWordsFr` and its inner `convertChunk`**
  (`components/InvoicePage.tsx`): the amount is written in French words,
  given as whole dirhams and rounded cents.
  - The loops are methods proved equal to the functions `ChunkWords`,
    `IntegerWords` and `AmountWords`.
  - Module `AmountInWordsFacts` proves the tables, the spacing of the
    result and its endings.
  - It also proves the effect of the single `replace('UN MILLE', 'MILLE')`
    (see Findings).
- **The pages' helpers**:
  - the invoice and inventory searches;
  - the inventory summary loop;
  - the distinct item names and the name suggestions;
  - the item form's field changes with their error clearing;
  - the invoice-creation checks and the item save checks.

  `toLowerCase`/`toUpperCase` are modelled on ASCII letters
  (`JsString`), and `Array.prototype.filter` and `[...new Set(xs)]` as
  `Lists.Filter` and `Lists.Distinct`.
- **The language context**: the current language, French at first, and
  the translation `t`, which falls back from the current language to
  French and then to the key.

Other modelling choices:

- `parseFloat` and `parseInt` are parameters of the checks that read user
  input. `parseFloat` returns `None` for NaN.
- The translation function `t` is a parameter where messages are built.
  `LanguageContext.T` is that function.
- Quantities are integers. Prices and amounts are Dafny `real`s, which the
  ledger only copies.

## Model

| member | source | states |
|---|---|---|
| Db.Database.constructor | db.ts:19-33 | A new database has empty inventory and invoice stores whose key generators start at 1, and no profile |
| Db.Database.AddInventoryItem | db.ts:59-67 | The item is appended under the next generated key, which is returned; nothing else changes |
| Db.Database.UpdateInventoryItem | db.ts:103-111 | `put`: the record replaces the one with its id or is inserted in key order; the generator moves past an explicit larger id; the other stores are untouched |
| Db.Database.DeleteInventoryItem | db.ts:113-121 | Exactly the record with that id is removed (none if absent); the other stores are untouched |
| Db.Database.ClearInventory | db.ts:123-131 | The inventory store is emptied; the invoices, the profile and both key generators are kept |
| Db.Database.UpdateProfile | db.ts:145-154 | The profile becomes the given fields under key 1; inventory and invoices are untouched |
| Db.Database.AddMultipleInventoryItems | db.ts:69-100 | The batch is merged item by item, in order, as `MergeBatch` describes; the store stays ordered below its generator; invoices and profile are untouched |
| Db.Database.MergeOne | db.ts:82-95 | One merge step: an existing reference's first record gains the quantity and takes name, price and date; otherwise the item is added under the next key |
| Db.Database.RestockInPlace | db.ts:189-204 | Walking the lines adds each line's quantity to the first record with its reference, skipping missing references, as `RestockLines` describes |
| Db.Database.RestockLine | db.ts:192-201 | One restock step; the store stays ordered below its generator |
| Db.Database.DeleteInvoiceAndRestock | db.ts:168-208 | An id with no invoice changes nothing; otherwise exactly that invoice is removed and its lines are restocked in order; profile and generators unchanged |
| Db.Database.ClearAllInvoicesAndRestock | db.ts:210-247 | Every line of every invoice, in store order, is restocked; then the invoice store is empty |
| Db.Database.DeductLine | db.ts:281-302 | One deduction step: a missing reference or short stock is the failure `Deduct` reports; otherwise the rest of the deduction continues from the updated store |
| Db.Database.CreateInvoiceAndUpdateStock | db.ts:249-313 | All or nothing: if `Deduct` fails, the error is returned and no store or generator changes; otherwise the invoice is stored under the next key and the inventory is the deducted one (with no lines it is unchanged) |
| KeyedStore.IndexOfKey | db.ts:177 | The position of the record with that key, the only one in an ordered store, or none when no record carries it |
| KeyedStore.RemoveKey | db.ts:117 | Exactly the records with other keys remain, in the same order |
| KeyedStore.Put | db.ts:107 | The result stays in key order |
| KeyedStore.PutContents | db.ts:107 | After `put` the store holds the new record and every record with a different key, and nothing else |
| KeyedStore.PutExistingKey | db.ts:107 | `put` of an existing key replaces that record in place |
| KeyedStore.LookupAppendedKey | db.ts:186 | A record added under a fresh key is found at the end, and deleting that key gives back the store as it was |
| LedgerSpec.FirstWithReference | db.ts:23-25 | The index lookup: the first record with the reference, none before it, or none if no record has it |
| LedgerSpec.FirstWithReferenceHasSmallestId | db.ts:23-25 | In a store ordered by id, the record the index returns has the smallest id among those sharing the reference |
| LedgerSpec.RestockLinesEffect | db.ts:189-204 | Restocking changes only quantities: each record that is the first with its reference gains the total quantity of the lines with that reference; every other record is unchanged; no record is added or removed |
| LedgerSpec.RestockLinesAppend | db.ts:225-244 | Restocking two runs of lines is restocking one after the other |
| LedgerSpec.DeleteEachIsRestockOfFlatten | db.ts:225 | Deleting invoices one by one restocks exactly the flattened list of their lines |
| LedgerSpec.ClearMatchesDeletingEach | db.ts:219-240 | Clearing all invoices leaves the inventory that deleting each invoice in turn leaves, in any order of the invoices |
| LedgerSpec.FlattenTotalsUnderPermutation | db.ts:225 | Any rearrangement of the invoices has the same line total for every reference |
| LedgerSpec.Deduct | db.ts:276-306 | A successful deduction keeps the number of records |
| LedgerSpec.DeductEffect | db.ts:281-302 | A success means every line's reference had a record, only quantities changed, and each first record lost exactly the total of its reference's lines, so repeated references deduct cumulatively |
| LedgerSpec.DeductFindsEveryReference | db.ts:281-292 | A successful deduction found a record for every line's reference |
| LedgerSpec.DeductChangesOnlyQuantities | db.ts:301-302 | A successful deduction changes nothing but quantities, record by record |
| LedgerSpec.DeductQuantities | db.ts:281-302 | Each first record ends with its quantity minus the total of the lines carrying its reference; other records keep theirs |
| LedgerSpec.DeductKeepsStockNonNegative | db.ts:294-301 | From a store with no negative quantity, a successful deduction leaves none negative |
| LedgerSpec.DeductSucceedsIff | db.ts:287-299 | With positive line quantities, the deduction succeeds exactly when every reference has a record and its first record covers the total of the reference's lines |
| LedgerSpec.DeductThenRestock | db.ts:197-301 | Restocking the lines of a successful deduction gives back the original store |
| LedgerSpec.CreateThenDeleteRestores | db.ts:266-301 | A created invoice is found under its new key; deleting it gives back the invoices and, when inventory was not otherwise changed, the original inventory |
| LedgerSpec.DeleteLaterRestoresStock | db.ts:197-301 | Deleting an invoice at any later time gives back, for each reference its lines carry, the stock from before its creation, provided the stock under that reference is still what the creation left, whatever else changed in the store |
| LedgerSpec.MergeItemShape | db.ts:82-95 | One merge keeps every id and reference, adds a record under the next key only for a new reference, and changes no record except the matched one |
| LedgerSpec.MergeItemEffect | db.ts:86-93 | The reference's quantity grows by the item's, its record takes the item's name, price and date, and at most one record is added |
| LedgerSpec.MergeBatchStock | db.ts:78-98 | After a batch, the quantity under a reference is the old one plus the total of the batch entries with that reference |
| LedgerSpec.MergeBatchLastWins | db.ts:86-93 | The record of a merged reference carries the name, price and date of the last batch entry with it |
| LedgerSpec.MergeBatchByReference | db.ts:78-98 | A reference has a record afterwards exactly when it had one or the batch has it; an existing record keeps its position and id; a new one gets a fresh key |
| LedgerSpec.MergeBatchCount | db.ts:78-98 | A batch adds at most one record per reference, and only when the store had none |
| LedgerSpec.NewReferenceMergedOnce | db.ts:86-93 | Batch entries sharing a new reference end as one record holding their summed quantity |
| LedgerSpec.MergeBatchKeepsStoreOrdered | db.ts:78-98 | The merged store stays in key order below its generator |
| JsString.TrimStart | components/InvoicePage.tsx:78 | Leading whitespace is removed and only that is removed |
| JsString.TrimEnd | components/InvoicePage.tsx:78 | Trailing whitespace is removed and only that is removed |
| JsString.TrimIsSlice | components/InvoicePage.tsx:91 | `trim` gives a slice with whitespace only outside it and none at its ends |
| JsString.CollapsedHasSingleSpaces | components/InvoicePage.tsx:100 | After `replace(/\s+/g, ' ')` every whitespace is one space and no two are adjacent |
| JsString.CollapseOfSingleSpaced | components/InvoicePage.tsx:100 | Collapsing changes nothing in a string that is already single-spaced |
| JsString.ToLower | components/InvoicePage.tsx:164 | `toLowerCase` maps each character by ASCII lower-casing, keeping the length |
| JsString.ToUpper | components/InvoicePage.tsx:100 | `toUpperCase` maps each character by ASCII upper-casing, keeping the length |
| JsString.ToLowerIdempotent | components/InventoryPage.tsx:116 | Lower-casing is idempotent and erases a prior upper-casing |
| JsString.IndexOf | components/InvoicePage.tsx:91 | The first position where the pattern occurs, or none when it never occurs |
| JsString.IncludesIff | components/InvoicePage.tsx:166 | `includes` holds exactly when the pattern occurs at some position |
| JsString.ReplaceFirstAtIndexOf | components/InvoicePage.tsx:91 | `replace` of a string pattern rewrites only its first occurrence, or nothing when it does not occur |
| JsString.Join | components/InvoicePage.tsx:91 | `join` of no parts is empty and of one part is that part |
| Lists.Filter | components/InvoicePage.tsx:165 | `filter` keeps only elements of the input that satisfy the predicate |
| Lists.FilterMembers | components/InventoryPage.tsx:117 | An element is in the result exactly when it is in the input and satisfies the predicate |
| Lists.FilterCounts | components/InventoryPage.tsx:117 | Each kept element keeps all its occurrences; the others have none |
| Lists.FilterConcat | components/InventoryPage.tsx:117 | Filtering keeps the input's order |
| Lists.DistinctValues | components/InventoryPage.tsx:78 | `[...new Set(xs)]` has no duplicates and holds exactly the values of `xs` |
| Lists.DistinctFirstOccurrenceOrder | components/InventoryPage.tsx:78 | The distinct values follow the order of their first occurrences |
| AmountInWords.ConvertChunk | components/InvoicePage.tsx:28-61 | `convertChunk` builds the words of a chunk 0..999 piece by piece and ends with `ChunkWords(n)` |
| AmountInWords.ConvertBelowHundred | components/InvoicePage.tsx:42-59 | The words convertChunk appends for the last two digits 1..99 are exactly `BelowHundred(m)`: units, teens, the eighties, the seventies and nineties built on the teens, and the other tens |
| AmountInWords.ScaleChunk | components/InvoicePage.tsx:76-85 | One pass of the integer loop gives the trimmed chunk words with their scale word |
| AmountInWords.PeelChunk | components/InvoicePage.tsx:76-88 | One round of the integer loop puts the lowest chunk's words, when the chunk is not 0, in front of the parts, so what is still to peel followed by the parts stays the same |
| AmountInWords.CollectParts | components/InvoicePage.tsx:70-90 | The chunk loop, least significant chunk first with each put in front, collects exactly `Parts(dirhams, 0)`, the non-zero chunks' words from the most significant down |
| AmountInWords.IntegerPart | components/InvoicePage.tsx:70-91 | The collected parts joined by spaces, rewritten once and trimmed give the integer words |
| AmountInWords.NumberToWordsFr | components/InvoicePage.tsx:21-101 | The whole conversion gives `AmountWords(dirhams, cents)` |
| AmountInWordsFacts.ChunkWordsBelowHundred | components/InvoicePage.tsx:29-58 | 0 has no words; 1-9 and 10-19 come from the units and teens tables; 80 is "QUATRE-VINGTS" and 81-89 "QUATRE-VINGT-<unit>"; 70-79 and 90-99 are built on the teens with " ET " only for 71; 21 to 61 end in " ET UN" |
| AmountInWordsFacts.ChunkWordsHundreds | components/InvoicePage.tsx:32-40 | 1xx begins with "CENT" and kxx with "<unit k> CENT"; the "S" comes only for k > 1 with nothing after; otherwise the rest's words follow after one space |
| AmountInWordsFacts.ScaledChunkRules | components/InvoicePage.tsx:79-85 | A lone 1 in the thousands is "MILLE"; other thousands take " MILLE"; millions and milliards take an "S" above 1; the units chunk has no scale word |
| AmountInWordsFacts.PartsSkipZeroChunk | components/InvoicePage.tsx:77 | A zero chunk contributes no part |
| AmountInWordsFacts.PartsCount | components/InvoicePage.tsx:75-90 | There is at most one part per base-1000 digit, and at least one for a non-zero amount |
| AmountInWordsFacts.ChunkWordsWellSpaced | components/InvoicePage.tsx:28-61 | A chunk has words exactly when it is non-zero, and they are single-spaced with no space at either end |
| AmountInWordsFacts.IntegerWordsWellSpaced | components/InvoicePage.tsx:91 | The integer words, after the rewrite and trim, are single-spaced with no space at either end |
| AmountInWordsFacts.ZeroAmount | components/InvoicePage.tsx:22 | Zero reads "ZÉRO DIRHAMS" |
| AmountInWordsFacts.AmountWordsShape | components/InvoicePage.tsx:94-100 | The result is the integer words, " DIRHAMS", then " ET <cents> CENTIMES" only when the cents are non-zero; it is single-spaced with no space at either end |
| AmountInWordsFacts.AmountWordsEndings | components/InvoicePage.tsx:94-98 | Without cents the result ends in " DIRHAMS"; with cents it ends in " CENTIMES" and contains " DIRHAMS ET " |
| AmountInWordsFacts.RewriteChangesExactlyWhen | components/InvoicePage.tsx:91 | The rewrite changes the integer words exactly when the joined parts contain "UN MILLE" |
| AmountInWordsFacts.RewriteOfIntended | components/InvoicePage.tsx:91 | The source's integer words are the intended words with their first "UN MILLE" rewritten |
| AmountInWordsFacts.RewriteWithoutU | components/InvoicePage.tsx:91 | Intended words with no "U" are left as they are |
| AmountInWordsFacts.ThousandsEndingInUn | components/InvoicePage.tsx:81-91 | A round number of thousands whose chunk words end in "UN" loses that "UN" |
| AmountInWordsFacts.IntendedThousands | components/InvoicePage.tsx:75-91 | Corrected reading: 1000..999999 reads "MILLE" for one thousand, otherwise its thousands chunk then "MILLE", then the rest |
| AmountInWordsFacts.HundredOneThousandCut | components/InvoicePage.tsx:91 | 101000 is intended as "CENT UN MILLE" but reads "CENT MILLE" |
| AmountInWordsFacts.HundredThousandKept | components/InvoicePage.tsx:91 | 100000 reads "CENT MILLE", as intended |
| AmountInWordsFacts.TwentyOneThousandCut | components/InvoicePage.tsx:91 | 21000 is intended as "VINGT ET UN MILLE" but reads "VINGT ET MILLE" |
| AmountInWordsFacts.RewriteConfusesAmounts | components/InvoicePage.tsx:91 | 101000 and 100000 dirhams read the same, with any cents, although their intended words differ |
| AmountInWordsFacts.TwentyOneThousandAmount | components/InvoicePage.tsx:91-94 | 21000 dirhams read "VINGT ET MILLE DIRHAMS" |
| InvoicePage.FilterInvoices | components/InvoicePage.tsx:162-169 | The search never adds invoices |
| InvoicePage.FilterInvoicesExactly | components/InvoicePage.tsx:162-169 | An empty search term gives the list unchanged; otherwise exactly the invoices whose customer name or number contains the lowered term, each as often as listed |
| InvoicePage.FilterInvoicesKeepsOrder | components/InvoicePage.tsx:165-168 | The search keeps the list's order |
| InvoicePage.FilterInvoicesIgnoresCase | components/InvoicePage.tsx:164 | Upper-casing the search term does not change the result |
| InvoicePage.SearchFindsOwnNumber | components/InvoicePage.tsx:162-169 | Searching for an invoice's own number finds it |
| InvoicePage.CheckCreation | components/InvoicePage.tsx:180-194 | Generation goes ahead exactly when every field is filled, the amount parses (after its first comma becomes a point) to a positive number, and it does not exceed a known maximum; an empty field is the creation error; a complete form whose positive amount is above a known maximum gets exactly the exceeded error with the amount and the maximum, and the exceeded error arises in no other case |
| InvoicePage.MoreStockStillGenerates | components/InvoicePage.tsx:191 | An amount accepted under one maximum is accepted under any larger one, and with no maximum known |
| InventoryPage.FilterItems | components/InventoryPage.tsx:114-121 | The search never adds items |
| InventoryPage.FilterItemsExactly | components/InventoryPage.tsx:114-121 | An empty search term gives every item; otherwise exactly the items whose name or reference contains the lowered term, each as often as listed |
| InventoryPage.FilterItemsKeepsOrder | components/InventoryPage.tsx:117-120 | The search keeps the list's order |
| InventoryPage.SearchFindsOwnReference | components/InventoryPage.tsx:114-121 | Searching for an item's own reference finds it |
| InventoryPage.SummaryData | components/InventoryPage.tsx:123-139 | The loop counts the items and sums their quantities |
| InventoryPage.SumQuantitiesConcat | components/InventoryPage.tsx:127-131 | The total over two parts is the sum of their totals |
| InventoryPage.SumQuantitiesPermutation | components/InventoryPage.tsx:127-131 | The total does not depend on the order of the items |
| InventoryPage.SumQuantitiesBounds | components/InventoryPage.tsx:127-131 | With no negative quantity, the total is non-negative and at least each quantity |
| InventoryPage.Names | components/InventoryPage.tsx:78 | The list of the items' names, position by position |
| InventoryPage.UniqueItemNamesSpec | components/InventoryPage.tsx:78 | The distinct names have no duplicates, include every item's name and nothing else, and keep first-occurrence order |
| InventoryPage.ClearFieldError | components/InventoryPage.tsx:181-187 | Only the changed field's error is removed, and only when it is a non-empty message; every other error stays as it was |
| InventoryPage.ClearFieldErrorsCommute | components/InventoryPage.tsx:181-187 | Clearing two fields' errors does not depend on the order |
| InventoryPage.AutocompleteAfter | components/InventoryPage.tsx:168-179 | A non-empty name offers exactly the unique names containing it (ignoring case), with 'name' active; an empty name clears both; other fields leave the suggestions alone |
| InventoryPage.HandleFormChange | components/InventoryPage.tsx:163-188 | The field is set and no other; the autocomplete and the errors change as the two functions above state |
| InventoryPage.FormChangeKeepsFields | components/InventoryPage.tsx:165 | A change of one of the form's fields keeps the form to its five fields |
| InventoryPage.FormChangesCommute | components/InventoryPage.tsx:163-188 | Changes of two different fields give the same form and errors in either order |
| InventoryPage.SuggestionClick | components/InventoryPage.tsx:190-196 | The chosen name fills the active field, if any, and the suggestions close |
| InventoryPage.TypeThenPick | components/InventoryPage.tsx:168-196 | After typing a non-empty name and picking a suggestion, the form holds the picked name and the list is closed |
| InventoryPage.SaveErrors | components/InventoryPage.tsx:205-212 | A price error exactly when the price is NaN or negative; a quantity error exactly when it is NaN, not positive or not whole; each with its message |
| InventoryPage.SaveFromModal | components/InventoryPage.tsx:198-232 | Nothing happens before the store is open; a store call is made exactly when there is no error; a refused save shows exactly the validation's errors, `SaveErrors` of the parsed price and quantity; editing overlays the form's fields on the current item and keeps its id; adding builds a record without an id |
| LanguageContext.Entry | context/LanguageContext.tsx:24 | A table's message for the key, or "" when it has none |
| LanguageContext.Initial | context/LanguageContext.tsx:20 | The provider starts in French |
| LanguageContext.SetLanguage | context/LanguageContext.tsx:20 | `setLanguage` changes only the language |
| LanguageContext.T | context/LanguageContext.tsx:22-25 | A non-empty message of the current language wins; otherwise a non-empty French message; otherwise the key |
| LanguageContext.TranslationOrigin | context/LanguageContext.tsx:24 | Every translation is the key or a message of the current or the French table |
| LanguageContext.TranslationNonEmpty | context/LanguageContext.tsx:24 | A non-empty key never translates to "" |
| LanguageContext.FrenchIgnoresArabic | context/LanguageContext.tsx:24 | In French the Arabic table plays no part: the result is the French message if non-empty, else the key |
| LanguageContext.CurrentWins | context/LanguageContext.tsx:24 | A key the current language translates does not depend on the French table |

## Left out

- `initDB`, the schema upgrade and the request, callback and Promise plumbing of `db.ts`. Each operation is one sequential method that commits or aborts, and the stores exist from the start.
- The readers `getAllInventoryItems`, `getProfile` and `getAllInvoices` return a store as it is, so they are the fields of `Db.Database` themselves.
- Db.Database.UpdateProfile: the profile fields are copied as given. Their content is not checked, and the source does not check it either.
- Db.Database.CreateInvoiceAndUpdateStock: the error values carry the data of the source's messages, but not their text.
- `createInvoiceFromTotal` and `getAvailableInventoryValue` are imported by the invoice page, but their files are not part of this model. For this reason the maximum available value is a parameter of `InvoicePage.CheckCreation`, and no allocation is modelled.
- Floating-point money is not modelled, because its rounding is a property of IEEE doubles rather than of this application:
  - the VAT split;
  - the inventory summary's `totalValue`;
  - numberToWordsFr's cents rounding `Math.round((num - integerPart) * 100)`.
- AmountInWords.NumberToWordsFr: takes the whole dirhams and the already rounded cents, from 0 to 100, in place of the floating number. 100 is the value the rounding can give. A negative amount is not modelled.
- AmountInWords.ScaleWord: from 10^12 up the source reads past the end of its scale table. The undefined word it reads is falsy, so no scale word is written, and the model does the same without saying more about such amounts.
- `parseFloat` and `parseInt` are parameters. Which strings they accept is JavaScript number syntax, which is not modelled.
- InventoryPage.SummaryData: quantities are integers, so a NaN quantity is not modelled. The page can store one: a quantity field such as ".5e1" passes the `parseFloat` checks as 5 but is saved as `parseInt`'s NaN (components/InventoryPage.tsx:203-223). The summary's `Number(item.quantity) || 0`, which counts such a quantity as 0 (components/InventoryPage.tsx:128), therefore has no counterpart. The `parseInt` parameter of SaveFromModal returns an `int` for the same reason.
- InventoryPage.SaveFromModal: the stored quantity is whatever the `parseInt` parameter returns for the quantity field. The contract does not state that this equals the validated `parseFloat` reading, because the two parsers are not modelled.
- Error messages: `t(...)` with its `{requested}`/`{available}` placeholders and the `toFixed(2)` formatting are not modelled. The errors carry the numbers instead.
- Locale formatting (`formatCurrencyFr`, `toLocaleString`) is left out.
- The hosted AI calls in `services/geminiService.ts` are network I/O.
- Print, PDF and Word export, and XLSX reading, are browser and library I/O.
- React rendering, modals, effects, the click-outside listener and the other pages (header, login, profile, admin, app routing) are UI without ledger logic.
- The mock login of `context/AuthContext.tsx` is timer-driven UI state.
- `LanguageContext`: the locale files `locales/fr` and `locales/ar` are not part of this model. Their tables are parameters, as maps.
- `LanguageContext`: `useLanguage` throwing outside a provider is React plumbing.
- JsString.ToLower, JsString.ToUpper: only ASCII letters change case. JavaScript's full Unicode case mapping is not modelled.

## Findings

| source | as written | input that shows it | evidently intended | confidence | as-written member | corrected member |
|---|---|---|---|---|---|---|
| components/InvoicePage.tsx:91 | `parts.join(' ').replace('UN MILLE', 'MILLE')` rewrites the first "UN MILLE" anywhere in the words, meant for a lone thousand, but that case is already "MILLE" at line 81 | 101000 dirhams read "CENT MILLE DIRHAMS", the same as 100000; 21000 reads "VINGT ET MILLE DIRHAMS" | thousands read as their chunk words followed by "MILLE" ("CENT UN MILLE", "VINGT ET UN MILLE"), with "MILLE" alone for one thousand | high (proved; not executed) | AmountInWordsFacts.RewriteConfusesAmounts | AmountInWordsFacts.IntendedThousands |
