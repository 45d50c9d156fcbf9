# SushiBE — a Dafny model of the ordering back end

SushiBE is the ASP.NET back end of a sushi shop. Customers register with an
e-mail address, verify it with a six-digit code and log in. Each customer
has one cart. They add and remove products, then confirm the cart into an
order. Confirming also creates an invoice numbered `INV-<year>-<n>` and
renders its PDF. Administrators:

- maintain the products and their images;
- open and close ordering with an on/off switch that has optional dates;
- read a dashboard (summary counters, daily revenue, recent orders, best
  products and customers, low stock);
- export the orders as CSV.

The model keeps the store as one object, `Data.Db`, with one sequence per
table. It keeps the unique keys of the database and the foreign keys from
order lines and invoices to their orders as the invariant `Db.Valid()`. Carts are objects (`Carts.Cart`) whose line list and total
are updated in place, as the controller does. Every endpoint of the core
becomes a method on the store, proved against a function on the old state:

- the cart endpoints (`CartController`);
- confirmation, status changes, deletion and PDF regeneration
  (`OrderController`);
- invoice numbering (`InvoiceNumbers`);
- the PDF service's file names, URLs and totals (`InvoicePdf`);
- the ordering switch (`CanOrderController`);
- the administrator reports (`AdminController`);
- registration, verification, login and profile updates
  (`AuthController`);
- product creation, update and availability (`ProductController`).

The pure LINQ reports are functions, with lemmas stating their meaning.

Money is a whole number of cents. Dates are .NET ticks: 10 000 000 per
second and 864 000 000 000 per day. The model takes outside inputs as
parameters:

- the clock: `now`, `year`, and the instant one month before `now`;
- fresh database ids and file-name GUIDs;
- the random verification code;
- the password hasher and verifier;
- the text of ids and dates in the CSV;
- whether the PDF renderer succeeds.

Modules: `Common` (status codes, options, day arithmetic), `Models`
(entities), `Seqs` (filter, sum, descending sort, take), `Text` (split,
join, number formatting and parsing), `Carts`, `Data`, and one module per
controller or service named above.

## Model

| member | source | states |
|---|---|---|
| Carts.FindLine | SushiBE/Controllers/CartController.cs:82 | the first line of the product, or none exactly when no line holds it |
| Carts.AddExisting | SushiBE/Controllers/CartController.cs:82-90 | adding a product already in the cart raises that line's quantity by exactly 1, sets its price to the current one, keeps the other lines, and the total follows |
| Carts.AddNew | SushiBE/Controllers/CartController.cs:91-104 | adding a product not yet in the cart appends one line with quantity 1 at the product's price, and the total grows by that price |
| Carts.AddKeepsInvariant | SushiBE/Controllers/CartController.cs:82-104 | after an add there is still at most one line per product and every quantity is positive |
| Carts.RemoveOneEffect | SushiBE/Controllers/CartController.cs:151-161 | removing one unit decrements the line by 1, drops the line exactly when its quantity reaches 0, and keeps the other lines |
| Carts.RemoveOneKeepsInvariant | SushiBE/Controllers/CartController.cs:151-161 | removing one unit keeps one line per product with positive quantities |
| Carts.RemoveAtKeepsInvariant | SushiBE/Controllers/CartController.cs:157 | dropping a line keeps one line per product with positive quantities |
| Carts.RemoveLineEffect | SushiBE/Controllers/CartController.cs:206-208 | removing a product drops its whole line whatever the quantity, and keeps the other lines |
| Carts.AddThenRemoveRestores | SushiBE/Controllers/CartController.cs:91-107 | adding a product not in the cart and then removing one unit of it restores the original lines |
| Carts.Cart.constructor | SushiBE/Controllers/CartController.cs:63-74 | a new cart belongs to the customer, has no lines and totals 0 |
| Carts.Cart.AddItem | SushiBE/Controllers/CartController.cs:82-107 | the lines become the added lines and the total is the sum of price×quantity over them |
| Carts.Cart.RemoveItem | SushiBE/Controllers/CartController.cs:151-163 | reports whether the product had a line, the lines become those after removing one unit, and the total is the sum over them |
| Carts.Cart.RemoveProduct | SushiBE/Controllers/CartController.cs:206-211 | reports whether the product had a line, the line is removed, and the total is the sum over the rest |
| Carts.Cart.Clear | SushiBE/Controllers/OrderController.cs:72-74 | the cart has no lines and totals 0 |
| CartController.AddItem | SushiBE/Controllers/CartController.cs:56-107 | an unknown product answers NotFound and stores nothing, not even a new cart; otherwise the customer's cart, created empty if missing, gets the added line; other carts and tables are unchanged |
| CartController.RemoveItem | SushiBE/Controllers/CartController.cs:137-163 | a missing cart or a product without a line answers NotFound with no change; otherwise one unit is removed; other carts are unchanged |
| CartController.RemoveProduct | SushiBE/Controllers/CartController.cs:192-211 | a missing cart or a product without a line answers NotFound with no change; otherwise the whole line is removed |
| Data.FindCart | SushiBE/Controllers/CartController.cs:58-61 | the position of the customer's cart, or none exactly when the customer has none |
| Data.FindProduct | SushiBE/Controllers/CartController.cs:77-79 | the position of the product of that id, or none exactly when there is none |
| Common.StartOfDay | SushiBE/Controllers/AdminController.cs:52-53 | `DateTime.Date`: a multiple of a day, at or before the instant and less than a day before it |
| Common.EndOfDay | SushiBE/Controllers/AdminController.cs:53 | the last tick of the instant's day |
| Common.SameDay | SushiBE/Controllers/AdminController.cs:61-62 | an instant within the day that starts at a day boundary d has d as its day start |
| OrderController.Snapshot | SushiBE/Controllers/OrderController.cs:46-52 | one order line per cart line, all for the new order |
| OrderController.SnapshotCopies | SushiBE/Controllers/OrderController.cs:46-52 | each order line carries its cart line's product, quantity and price, in cart order |
| OrderController.SnapshotTotal | SushiBE/Controllers/OrderController.cs:41-52 | the order lines add up to the cart's total |
| OrderController.ConfirmCart | SushiBE/Controllers/OrderController.cs:28-107 | a missing or empty cart answers BadRequest and creates no order or invoice; otherwise a Pending order carrying the cart's total, its copied lines and an invoice for the same amount, order and customer are stored; the cart is emptied with total 0; a PDF failure leaves the answer and the stored order and invoice as they are |
| OrderController.ConfirmKeepsKeys | SushiBE/Controllers/OrderController.cs:38-69 | storing the new order with its lines and its invoice keeps order and invoice ids unique and every line and invoice tied to a stored order |
| OrderController.AfterPdfKeepsIds | SushiBE/Services/IInvoicePdfService.cs:216-225 | storing a PDF URL changes no invoice id |
| OrderController.ConfirmedInvoiceBalances | SushiBE/Services/IInvoicePdfService.cs:143-145 | the confirmed order's invoice prints a subtotal equal to its total |
| OrderController.UpdateStatus | SushiBE/Controllers/OrderController.cs:145-152 | an unknown id answers NotFound with no change; otherwise only that order's status changes, to the given text |
| OrderController.SameOrderIds | SushiBE/Controllers/OrderController.cs:149-151 | replacing orders in place with the same ids keeps the keys, including those of the order lines and invoices |
| OrderController.DeleteEffect | SushiBE/Controllers/OrderController.cs:268-282 | deleting removes the order, all its lines and all its invoices, and no other order, line or invoice; the remaining lines and invoices still point at stored orders and invoice ids stay unique |
| OrderController.DeleteOrder | SushiBE/Controllers/OrderController.cs:266-288 | an unknown id answers NotFound with no change; otherwise the order and exactly its lines are removed, and the order's invoices go with it, as the database cascades the invoice's required order key |
| OrderController.RegenerateInvoicePdf | SushiBE/Controllers/OrderController.cs:294-308 | NotFound for an unknown invoice, ServerError when rendering fails, otherwise Ok with the stored URL and its absolute form |
| InvoiceNumbers.LatestInvoice | SushiBE/Controllers/OrderController.cs:314-316 | none exactly when there are no invoices; otherwise no invoice is dated later, and the first stored of the latest is chosen |
| InvoiceNumbers.LatestUnique | SushiBE/Controllers/OrderController.cs:314-316 | the latest invoice is the only position with those properties |
| InvoiceNumbers.AppendedIsLatest | SushiBE/Controllers/OrderController.cs:314-316 | an invoice dated after all others becomes the latest |
| InvoiceNumbers.NextNumber | SushiBE/Controllers/OrderController.cs:318-327 | the next number stays within 32-bit range |
| InvoiceNumbers.NumberParts | SushiBE/Controllers/OrderController.cs:320-327 | a number printed for n ≥ 0 splits at '-' into "INV", the year and the padded digits, which read back as n within 32-bit range |
| InvoiceNumbers.FirstNumber | SushiBE/Controllers/OrderController.cs:318-327 | with no invoice the first number is `INV-<year>-000001` |
| InvoiceNumbers.NextAfter | SushiBE/Controllers/OrderController.cs:320-326 | after a number printed for n below the 32-bit maximum comes n+1, whatever the years |
| InvoiceNumbers.NegativeParts | SushiBE/Controllers/OrderController.cs:327 | a number printed for a negative value has four '-'-separated parts |
| InvoiceNumbers.NumberWraps | SushiBE/Controllers/OrderController.cs:324-327 | after `int.MaxValue` the unchecked increment wraps to `int.MinValue`, and the number after that restarts at 1 |
| InvoiceNumbers.ConsecutiveNumbers | SushiBE/Controllers/OrderController.cs:311-328 | an invoice stored with a later date and the generated number is followed by the next consecutive number |
| Text.TryParseIntRoundTrip | SushiBE/Controllers/OrderController.cs:322 | the decimal text of a number, with any leading zeros, parses back to that number when it fits in 32 bits and does not parse when it is larger |
| Text.Increment32 | SushiBE/Controllers/OrderController.cs:324 | unchecked `+ 1` is two's-complement arithmetic: the exact sum reduced modulo 2^32 into the `int` range |
| Text.DecimalPadded | SushiBE/Controllers/OrderController.cs:327 | the `D6` format: for n ≥ 0 at least six digits whose value is n; for a negative value a leading '-' |
| Text.Split | SushiBE/Controllers/OrderController.cs:321 | `string.Split`: at least one part, and no part contains a separator |
| Text.JoinSplitIdentity | SushiBE/Controllers/OrderController.cs:321 | re-joining the parts of a split with the separator gives the text back |
| Text.NatText | SushiBE/Controllers/OrderController.cs:327 | one or more decimal digits |
| Text.NatTextValue | SushiBE/Controllers/OrderController.cs:327 | the digits read back as the number |
| Text.MoneyTextParts | SushiBE/Controllers/AdminController.cs:240 | the `F2` text of a non-negative amount is its whole units in digits, the decimal separator, and two digits holding the cents; a negative amount prints as '-' and the text of its absolute value |
| InvoicePdf.SafeNumber | SushiBE/Services/IInvoicePdfService.cs:41 | each invalid file-name character of the number is replaced by '_' |
| InvoicePdf.SafeNumberIsSafe | SushiBE/Services/IInvoicePdfService.cs:41 | the safe number holds no invalid character and has the number's length |
| InvoicePdf.SafeNumberIdentity | SushiBE/Services/IInvoicePdfService.cs:41 | a number without invalid characters is used unchanged |
| InvoicePdf.SafeNumberIdempotent | SushiBE/Services/IInvoicePdfService.cs:41 | cleaning the safe number again changes nothing |
| InvoicePdf.PdfUrlShape | SushiBE/Services/IInvoicePdfService.cs:196 | the URL is `/invoices/` + the file name of line 42 (safe number + `_` + invoice id + `.pdf`), whatever URL is stored |
| InvoicePdf.FiguresOrderFree | SushiBE/Services/IInvoicePdfService.cs:143-145 | the printed figures do not depend on the order in which the order's lines are loaded, and the printed total is the invoice amount with or without an order |
| InvoicePdf.ItemsOf | SushiBE/Services/IInvoicePdfService.cs:203-209 | exactly the stored lines of that order |
| InvoicePdf.AfterPdfEffect | SushiBE/Services/IInvoicePdfService.cs:216-225 | only the requested invoice changes, and only in its URL, which becomes its PDF URL |
| InvoicePdf.AfterPdfIdempotent | SushiBE/Services/IInvoicePdfService.cs:216-225 | regenerating stores the same URL again |
| InvoicePdf.GeneratePdfByInvoiceId | SushiBE/Services/IInvoicePdfService.cs:201-226 | an unknown id answers null and changes nothing; a render failure changes nothing; a success stores and answers the URL; other tables are untouched |
| CanOrderController.IsActiveIff | SushiBE/Controllers/CanOrderController.cs:42-45 | active exactly when enabled, not before the opening date and not after the closing date |
| CanOrderController.BoundsInclusive | SushiBE/Controllers/CanOrderController.cs:44-45 | an enabled record is active at its opening and closing instants |
| CanOrderController.FlagDominates | SushiBE/Controllers/CanOrderController.cs:43 | a disabled record is never active; an enabled one without dates always is |
| CanOrderController.Get | SushiBE/Controllers/CanOrderController.cs:26-55 | with no record: enabled, no dates, active; otherwise the first record's fields, reported active exactly when it is enabled and `now` lies within its set bounds, both included |
| CanOrderController.UpsertShape | SushiBE/Controllers/CanOrderController.cs:65-78 | one new record under a fresh id when none exists, otherwise the first record overwritten in its three fields under its own id, and no other record added or touched |
| CanOrderController.GetAfterUpdate | SushiBE/Controllers/CanOrderController.cs:73-78 | after an update, `Get` reports the payload's three fields |
| CanOrderController.UpdateIdempotent | SushiBE/Controllers/CanOrderController.cs:65-78 | the same update applied twice leaves the records as applying it once |
| CanOrderController.Update | SushiBE/Controllers/CanOrderController.cs:61-87 | a missing payload answers BadRequest and changes nothing; otherwise the records are upserted and the stored record answered |
| AdminController.EffectiveLimit | SushiBE/Controllers/AdminController.cs:84 | a positive limit is kept, and a limit that is not positive becomes 10 |
| AdminController.FilterComplement | SushiBE/Controllers/AdminController.cs:33 | the unpaid orders and the settled ones make up all orders |
| AdminController.SummaryCounters | SushiBE/Controllers/AdminController.cs:25-45 | unpaid counts exactly the orders neither "Completed" nor "Paid"; the low-stock counter equals the low-stock list at threshold 5; customers, low stock and unpaid are bounded by their tables |
| AdminController.GetLowStock | SushiBE/Controllers/AdminController.cs:152-161 | exactly the products whose stock is at most the threshold |
| AdminController.RevenueInterval | SushiBE/Controllers/AdminController.cs:52-54 | start is the day start of `from` (default 30 days ago); end is the last tick of `to`'s day (default now) |
| AdminController.Filled | SushiBE/Controllers/AdminController.cs:68-75 | n entries, the first on the start day and each one day after the one before, each carrying the revenue and count of the orders of its own date |
| AdminController.FilledAt | SushiBE/Controllers/AdminController.cs:68-75 | the i-th entry is dated i days after the first, with that day's revenue and count, 0 when no order |
| AdminController.FilledTotal | SushiBE/Controllers/AdminController.cs:59-75 | when every order falls on the series' days, the daily revenues add up to their total |
| AdminController.IntervalDays | SushiBE/Controllers/AdminController.cs:55-69 | every order in the interval falls on one of the series' days |
| AdminController.RevenueSpec | SushiBE/Controllers/AdminController.cs:50-78 | included iff start ≤ date ≤ end; total is the sum over them; one entry per day, consecutive from start; each day's sum and count; the daily revenues sum to the total; a negative day count is the error case |
| AdminController.RecentOrdersSpec | SushiBE/Controllers/AdminController.cs:82-91 | min(limit, count) orders, taken from the store, latest first, none left out later than one returned; 10 when the limit is not positive |
| AdminController.ProductName | SushiBE/Controllers/AdminController.cs:133-134 | the name of the product of that id, if it exists |
| AdminController.AllSales | SushiBE/Controllers/AdminController.cs:132-141 | one row per product sold, none twice, each with Σ quantity and Σ price×quantity of its lines |
| AdminController.TopProductsOrder | SushiBE/Controllers/AdminController.cs:128-148 | min(limit, groups) rows, sorted by quantity then revenue descending, and no group left out ranks above one returned |
| AdminController.TopProductsRows | SushiBE/Controllers/AdminController.cs:132-145 | each returned row is a product's group with its sums, and no product appears twice |
| AdminController.CustomerName | SushiBE/Controllers/AdminController.cs:180-190 | the name of the customer of that id; none for an unknown id or an administrator |
| AdminController.AllCustomers | SushiBE/Controllers/AdminController.cs:168-175 | one row per ordering customer, with order count and revenue of their orders |
| AdminController.TopCustomersOrder | SushiBE/Controllers/AdminController.cs:164-195 | min(limit, customers) rows by revenue descending, none left out with more revenue |
| AdminController.TopCustomersRows | SushiBE/Controllers/AdminController.cs:168-190 | each row is a customer's group with its sums, and no customer appears twice |
| AdminController.ExportInterval | SushiBE/Controllers/AdminController.cs:224-225 | start is the day start of `from` (default a month ago); end is the last tick of `to`'s day |
| AdminController.LinesAppend | SushiBE/Controllers/AdminController.cs:236-251 | appending a line adds its text and a newline at the end |
| AdminController.LinesJoin | SushiBE/Controllers/AdminController.cs:236-251 | the file's text is its lines joined by newlines, plus a final newline |
| AdminController.RowsAppend | SushiBE/Controllers/AdminController.cs:238-251 | the lines of one more order are the lines of the shorter list followed by that order's line |
| AdminController.CsvStep | SushiBE/Controllers/AdminController.cs:238-251 | one pass of the loop appends the next order's line and a newline to the text built so far |
| AdminController.WriteLines | SushiBE/Controllers/AdminController.cs:236-251 | the loop's text is the header and then one line per order, in order, each ended by a newline |
| AdminController.ExportOrdersCsv | SushiBE/Controllers/AdminController.cs:222-255 | the loop builds exactly the file text: the header line followed by one row per exported order, each ended by a newline; the file name is `orders_<start>_<end>.csv` |
| AdminController.CsvOrders | SushiBE/Controllers/AdminController.cs:227-233 | the exported orders are a permutation of those dated in the interval, oldest first |
| AdminController.LinesSplit | SushiBE/Controllers/AdminController.cs:236-251 | lines without newlines come back from splitting the text at newlines |
| AdminController.CsvLines | SushiBE/Controllers/AdminController.cs:236-251 | with no newline in any field, the file splits into the header, one row per order and a last empty line |
| AdminController.HeaderFields | SushiBE/Controllers/AdminController.cs:236 | the header splits at commas into its eight column names |
| AdminController.RowSpec | SushiBE/Controllers/AdminController.cs:241-249 | eight fields; the name field is the customer's name with each comma replaced by a space and every other character kept; the total field is the amount printed with a '.'; the item count is the number of the order's lines; the items field is quoted; with no comma in any field the line splits back into its fields |
| AdminController.RowItems | SushiBE/Controllers/AdminController.cs:240 | the items field is `""` for an order without lines; otherwise, when no item text holds '\|', the text between the quotes splits at '\|' into the item texts `name xQ@P`, one per order line, in the order `InvoicePdf.ItemsOf` lists them |
| AuthController.ExtractNameSpec | SushiBE/Controllers/AuthController.cs:218-224 | "" exactly for a blank address; the text before the first '@' when that is at index > 0; the whole address otherwise |
| AuthController.ExtractNameExamples | SushiBE/Controllers/AuthController.cs:218-224 | "ana@sushi.be" gives "ana", "@sushi.be" itself, " " gives "" |
| AuthController.SixDigits | SushiBE/Controllers/AuthController.cs:226-230 | a number in [100000, 999999] prints with six digits |
| AuthController.VerificationCode | SushiBE/Controllers/AuthController.cs:226-230 | six digits whose value is the drawn number |
| AuthController.RegisterCustomer | SushiBE/Controllers/AuthController.cs:38-62 | Conflict exactly when the address is in use, adding no user; otherwise one unverified customer with the code, expiring 10 minutes from now, named from the address |
| AuthController.VerifySpec | SushiBE/Controllers/AuthController.cs:139-160 | verification succeeds exactly when a user with the address is unverified, holds that code and has an expiry not before now |
| AuthController.AfterVerify | SushiBE/Controllers/AuthController.cs:139-160 | each failure leaves the users as they are; success verifies the found user and clears its code and expiry, touches only users with that address, and none of their id, address, name, password hash or kind |
| AuthController.VerifyOnce | SushiBE/Controllers/AuthController.cs:145-156 | after a successful verification, a repeat answers "already verified" |
| AuthController.RegisterThenVerify | SushiBE/Controllers/AuthController.cs:139-160 | a newly registered customer verifies with the code sent up to and including its ten-minute expiry; another code is invalid, and the right one afterwards has expired |
| AuthController.VerifyEmail | SushiBE/Controllers/AuthController.cs:139-160 | the outcome, answer and new users are those of the specification functions |
| AuthController.RoleOf | SushiBE/Controllers/AuthController.cs:176-181 | "Admin" exactly for administrators and "Customer" exactly for customers |
| AuthController.LoginSpec | SushiBE/Controllers/AuthController.cs:163-216 | unknown and unverified users are refused before the password is checked; verified users with the right password are granted with their role |
| AuthController.Login | SushiBE/Controllers/AuthController.cs:163-216 | the answer follows the login outcome; a granted customer without cart gets one new empty cart with total 0; an existing cart is unchanged |
| AuthController.WithProfileSpec | SushiBE/Controllers/AuthController.cs:303-313 | name and e-mail are set; address and phone only for customers; id, verification and password kept |
| AuthController.ProfileKeepsUnique | SushiBE/Controllers/AuthController.cs:303-313 | an address nobody else uses keeps e-mails and ids unique |
| AuthController.UpdateProfile | SushiBE/Controllers/AuthController.cs:295-317 | Unauthorized without an id claim, NotFound for an unknown user, Conflict when another user has the address, each with no change; otherwise the profile is updated |
| ProductController.KeptImagesSpec | SushiBE/Controllers/ProductController.cs:107-125 | one image per non-empty upload, none for an empty one, so never more images than uploads; all under the prefix and for the product |
| ProductController.NoImagesFromEmptyUploads | SushiBE/Controllers/ProductController.cs:109-110 | no image is kept exactly when every upload is empty |
| ProductController.SaveImages | SushiBE/Controllers/ProductController.cs:107-125 | the loop produces exactly the kept images |
| ProductController.FirstImageUrl | SushiBE/Controllers/ProductController.cs:127-130 | the first image's URL, none exactly without an image |
| ProductController.ToAbsoluteUrlSpec | SushiBE/Controllers/ProductController.cs:340-351 | none for a missing or empty URL, the URL itself without a request, otherwise scheme + "://" + host + URL |
| ProductController.AbsoluteUrlsAll | SushiBE/Controllers/ProductController.cs:149 | one absolute URL per image |
| ProductController.Create | SushiBE/Controllers/ProductController.cs:82-152 | BadRequest exactly for no uploads or more than eight, with no product added; otherwise one available product with the form's fields, its kept images and the first image's URL |
| ProductController.CreatedProductSpec | SushiBE/Controllers/ProductController.cs:107-130 | at most as many images as uploads, each for the product, and the product URL is the first one's |
| ProductController.UpdatedSpec | SushiBE/Controllers/ProductController.cs:168-238 | the id and availability are kept; without uploads only the five form fields change and the images stay; with uploads the new images replace the old ones: exactly one per non-empty upload, each under "/images/", and the URL follows the first new image |
| ProductController.UpdateFieldsIdempotent | SushiBE/Controllers/ProductController.cs:168-172 | updating twice with the same form and no uploads is updating once |
| ProductController.ReplaceKeepsIds | SushiBE/Controllers/ProductController.cs:168-238 | replacing a product by one of the same id keeps product ids unique |
| ProductController.Update | SushiBE/Controllers/ProductController.cs:155-264 | NotFound for an unknown id and BadRequest for more than eight uploads, each with nothing saved; otherwise NoContent with the updated product |
| ProductController.ToggleSpec | SushiBE/Controllers/ProductController.cs:272-276 | the one product's availability flips and nothing else changes; toggling twice restores |
| ProductController.ToggleDisponible | SushiBE/Controllers/ProductController.cs:268-303 | NotFound for an unknown id; otherwise the flag is flipped and its new value answered |

## Left out

- File and directory I/O, which is not modelled. This covers image files in ProductController, invoice PDF files, and the static-file wiring in Program.cs. Image and PDF names and URLs are modelled; writing the bytes is not.
- PDF layout and rendering, which happen in QuestPDF. Rendering success is a parameter (`InvoicePdf.Env.renderOk`).
- Sending e-mail after registration and the error it may raise. The user is saved before the sending, so the stored state is as modelled.
- JWT creation, configuration and token expiry. Login results in the claims (id, name, e-mail, role) only.
- Password hashing and verification. These are parameters (`hash`, `verify`).
- The random verification code. It is a parameter in the range of `Random.Next(100000, 999999)`. Fresh ids and the image GUIDs are parameters as well.
- Clock reads. `now`, `year` and the instant one month earlier are parameters, as is the text of ids and dates in the CSV export.
- Text comparison in queries, which is exact in the model. The store is SQL Server, whose default collation compares case-insensitively. This affects the e-mail lookups and the status tests of the dashboard: an order whose status was set to "paid" counts as settled in SushiBE but as unpaid under `AdminController.IsUnpaid` and `AdminController.SummaryCounters`.
- Date range limits. Instants are unbounded integers. In SushiBE, `.Date.AddDays(1)` throws when the end date falls on 31 December 9999, and the request then answers 500. `AdminController.GetRevenue` and `AdminController.ExportOrdersCsv` answer a result instead.
- The CSV line terminator. `AppendLine` writes `Environment.NewLine`, which is "\r\n" on Windows; `AdminController.Lines` assumes "\n".
- Database cascades other than the invoices of a deleted order, transactions, the 500 answers of the `catch` blocks, and failures while saving. Each action is an atomic store update.
- OrderController.DeleteOrder: removes the order's invoices, as the cascade of the invoice's required order key does in the schema EF Core creates. A database created without that cascade would instead refuse the save and answer 500; the model does not cover that variant.
- Concurrency, including two confirmations racing for the same invoice number.
- Decimal(18,2) rounding and the printed scale of money. Prices print with two decimals (`F2`). The CSV total uses the invariant culture's '.'; the item prices use the current culture's decimal separator, a parameter (`AdminController.CsvEnv.decimalSeparator`). Other culture effects on `F2` (digit shapes, a different negative sign) are not modelled.
- Carts.AddExisting: does not model the 32-bit wrap of the quantity. Quantities are unbounded integers. SushiBE's `Quantity += 1` is unchecked 32-bit arithmetic, so at int.MaxValue it wraps to int.MinValue and the line total turns negative. Carts.AddKeepsInvariant and the cart invariant of positive quantities therefore hold in SushiBE only below int.MaxValue units of one product.
- Carts.AddKeepsInvariant: positive quantities hold in SushiBE only while the line stays below int.MaxValue units, for the wrap named on the line above.
- AdminController.RowItems: lists an order's item texts in the order the lines were stored, as `InvoicePdf.ItemsOf` does. The query loads the lines with `Include(o => o.Items)`, which puts no order on them, so in SushiBE the texts inside a CSV row may come in any order. The same holds for the cart lines that `OrderController.ConfirmCart` copies. `InvoicePdf.FiguresOrderFree` shows that the invoice figures do not depend on this order.
- The order of rows that tie in a `OrderBy`/`OrderByDescending`. The database does not fix it. For the reports, the lemmas constrain only the sort keys of tied rows.
- InvoiceNumbers.LatestInvoice: takes the first stored of equally dated latest invoices. The database may return any of them. `InvoiceNumbers.LatestUnique` and `InvoiceNumbers.NextAfter` depend on this choice.
- Text.TryParseInt: reads plain digit strings only. It does not accept the leading sign or surrounding white space that `int.TryParse` allows. Invoice numbers of this system never contain those.
- AdminController.AllSales: groups by the product id of the order lines, and the name is none when the product is gone. The `Include(Product)` join of SushiBE is not modelled further.
- AuthController.RoleOf: never answers "User". The model has only customers and administrators, so SushiBE's fallback role for any other subtype cannot arise.
- ProductController.Create: the stored image URL keeps SushiBE's `SushiBE/wwwroot/Images/` prefix, which has no leading '/'. Its absolute form is therefore the host followed directly by that path, as written.
- Other endpoints of these controllers. The cart, order and product GET endpoints, order status counts, invoice summary, user count, `RegisterAdmin`, `UpdatePassword`, product `Delete` and `GetImages` are not part of this model. Neither are CategoryController and UsersController.
