# Smart canteen backend, modelled in Dafny

A model of the REST backend of a canteen's inventory and sales tool: the
item catalogue (create, list, list low stock, read, update, delete), the
sale flow (check each requested line against stock, snapshot name and
price, deduct the stock, number the invoice, store the sale), listing,
reading, updating and summarising sales, registration and login, the
`protect` and `authorize` middleware, and the two routers that put them
in front of the controllers. Every answer goes through the same envelope
builders (`status`, `status_code`, `message`, `required_field`, `result`),
and every required-field check goes through `validation.isEmpty`.

Layout, one module per source file or concern:

- `wrappers.dfy`, `json.dfy`: `Option`/`Result`, and JSON values (`JsValue`) with JavaScript's property read (`Get`: an absent key is `undefined`) and truthiness.
- `js_string.dfy`: the string built-ins the core relies on (`trim`, `split`, `join`/`toString`, `padStart`, decimal rendering), with their round trips.
- `tables.dfy`: first-match search, filtering and a stable descending sort over collections.
- `validation.dfy`: `validation.isEmpty`, as the loop it is and as the filter it computes.
- `responses.dfy`: the envelope builders and senders, and the envelope contract every controller keeps (`Conforms`).
- `item_model.dfy`, `sale_model.dfy`, `user_model.dfy`: documents, schema validators and defaults, the collection invariants (unique ids, unique item names, invoice sequence), and the JSON a document renders to.
- `store.dfy`: the database as a class whose fields are the collections; controllers that write are methods on it.
- `item_controller.dfy`, `sale_controller.dfy` (createSale), `sale_handlers.dfy` (the other sale endpoints), `auth_controller.dfy`.
- `auth_middleware.dfy`, `router.dfy`, `item_routes.dfy`, `sale_routes.dfy`.

Each controller is a pure function from the collections and the request
to the new collections and the response (`...Spec`), and each one that
writes is also a method on the `Database` that is proved to produce
exactly that outcome (the createSale loop is a `for` loop with its
invariant). The lemmas state what the source promises about those
functions: the collections stay valid, a 201 happens exactly when a
document is stored, a sale is stored exactly as the walk over the request
lines made it, stock drops by exactly the quantities sold, an invoice
number reads back as the count it was made from, registering then logging
in with the same body succeeds, and the routers only let admins write
items.

The clock, fresh ObjectIds, date parsing, JWT signing and verification,
and password hashing and comparison are parameters of the functions that
use them.

Three behaviours of the code that are easy to assume otherwise, kept as
written:

- Sale creation is not all-or-nothing. The code saves each line's stock deduction inside the loop. It validates the sale document (`quantity >= 1`, `totalAmount >= 0`, the `paymentStatus` enum) only afterwards, in `Sale.create`. So a request that fails that validation, or is refused by a unique index, still leaves all its stock deductions in place. `SellRecords` and `CreateSalePreservesTables` state this behaviour.
- A sale line can raise stock. The code compares `item.stock < quantity` only. A line with a negative quantity passes that check and raises the stock, and the stock stays raised after the schema then refuses the sale. The model keeps this: `CheckLine` accepts such a line, and `WalkAccounting` states the exact stock change.
- Stock is not constrained to integers. `Item.js` declares it a `Number` with `min: 0` only. The model uses unbounded integers for all quantities and amounts.

## Model

| member | source | states |
|---|---|---|
| Validation.IsEmpty | backend/utils/validation.js:2-11 | the loop returns exactly the trimmed required names whose value is `''` or `undefined`, in the order given |
| Validation.MissingIsFilter | backend/utils/validation.js:4-9 | the names reported are the trimmed required names filtered by blankness, order kept |
| Validation.MissingExactly | backend/utils/validation.js:5-7 | a name is reported iff it is one of the trimmed required names and its value is `''` or `undefined` |
| Validation.ZeroAndNullArePresent | backend/utils/validation.js:6 | a field holding `0` or `null` is never reported missing |
| Validation.NothingMissingIff | backend/utils/validation.js:2-11 | nothing is reported iff every required field, trimmed, is present and non-blank |
| Responses.SendSuccess | backend/utils/responses.js:17-25 | HTTP 200, status `success`, the message; `result` is set iff the result is truthy, and then holds it |
| Responses.SendCreated | backend/utils/responses.js:26-34 | HTTP 201, status `success`, the message; `result` is set iff the result is truthy |
| Responses.SendError | backend/utils/responses.js:54-56 | HTTP status = the code, status `error`, the message, `status_code` the same code as `String(code)` gives it (the `error` builder, lines 10-16), and no `required_field` or `result` |
| Responses.StatusCodeText | backend/utils/responses.js:55 | the `status_code` string reads back as the number it was rendered from |
| Responses.SendMissingParam | backend/utils/responses.js:2-9 | HTTP 400 with `status_code` 203, message "invalid data", and `required_field` the comma-joined names |
| Responses.RequiredFieldRoundTrip | backend/utils/responses.js:7 | splitting `required_field` on commas gives the names back when none contains a comma |
| Responses.SendNoRecord | backend/utils/responses.js:60-62 | HTTP 404 with `status_code` 204 and the message |
| Responses.SendCaught | backend/controllers/itemController.js:50-52 | a caught exception becomes an error envelope with the chosen status as both HTTP status and `status_code`, and the exception's message |
| JsString.Trim | backend/utils/validation.js:5 | the result is no longer than the input and has no white space at either end; `TrimIsInfix` states that only white space around it is dropped |
| JsString.TrimIsInfix | backend/utils/validation.js:5 | the trimmed string is a contiguous piece of the input, and everything before and after that piece is white space |
| JsString.TrimFixesTrimmed | backend/utils/validation.js:5 | trimming changes nothing exactly when the string has no white space at either end |
| JsString.TrimIdempotent | backend/models/Item.js:8 | trimming twice is trimming once |
| JsString.NumberOf | backend/controllers/saleController.js:87 | `Number` of a string is a number iff, once trimmed, it is blank (0), a run of digits (their value) or a sign and digits (the signed value); anything else is `NaN` |
| JsString.NumberOfIntToString | backend/controllers/saleController.js:87 | the string of an integer reads back as that integer |
| JsString.DecRoundTrip | backend/controllers/saleController.js:12 | `String(n)` parses back to `n` |
| JsString.PadStart | backend/controllers/saleController.js:10 | the result is as long as the width or the input, ends with the input, and is padded only with the pad character |
| JsString.PaddedDecRoundTrip | backend/controllers/saleController.js:12 | zero padding never changes the number read back, whatever the width |
| JsString.SplitJoinRoundTrip | backend/utils/responses.js:7 | splitting a join gives back the parts when no part holds the separator |
| Tables.SortDesc | backend/controllers/itemController.js:7 | the result is a permutation of the input, sorted by the key in descending order |
| Tables.FilterAppend | backend/controllers/saleController.js:28 | filtering distributes over concatenation |
| ItemModel.ParseCategory | backend/models/Item.js:10-14 | a category is accepted iff it is one of `tea`, `coffee`, `snacks`, `other`, and it is read back as that name |
| ItemModel.CastName | backend/models/Item.js:4-9 | accepted iff undefined or a string that is not blank once trimmed; the name stored is that string trimmed, undefined stays absent |
| ItemModel.CastNumber | backend/models/Item.js:15-25 | accepted iff undefined or a number at or above the path's minimum; an accepted number is the one given, an absent path stays absent |
| ItemModel.CastItemFields | backend/models/Item.js:3-38 | a body is accepted iff every schema path it sets is of the path's kind within its bounds; the accepted fields satisfy every validator and hold exactly the body's values, the name trimmed |
| ItemModel.NewItem | backend/models/Item.js:3-38 | a document exists iff name, category and price are given, and holds those values; the other paths are the given ones or the defaults stock 0, threshold 10, unit `piece`, active; it is valid |
| ItemModel.Patched | backend/controllers/itemController.js:57-60 | each of the seven paths takes the body's value when the body sets it and keeps the stored one otherwise; id and creation time are kept, and a valid item stays valid |
| ItemModel.FindItem | backend/controllers/itemController.js:31 | the index of the first item with the id, and none iff no item has it |
| ItemModel.AppendKeepsItemTable | backend/models/Item.js:4-9 | adding a valid item with a fresh id and a fresh name keeps ids and names unique |
| ItemModel.ReplaceKeepsItemTable | backend/controllers/itemController.js:57-60 | replacing an item by a valid one with its id and an unused name keeps the collection valid |
| ItemModel.RemoveKeepsItemTable | backend/controllers/itemController.js:72 | removing an item keeps the collection valid and leaves no item with its id |
| SaleModel.ParseStatus | backend/models/Sale.js:42-46 | a payment status is accepted iff it is `paid`, `pending` or `cancelled` |
| SaleModel.InvoiceSequenceRoundTrip | backend/controllers/saleController.js:7-13 | the sequence part of `INV-{year}{month}-{count}` is the count plus one, zero-padded to four digits, and reads back as that number |
| SaleModel.InvoiceNumberDeterminesCount | backend/controllers/saleController.js:11-12 | two equal invoice numbers were made from the same count |
| SaleModel.AppendKeepsSaleTable | backend/models/Sale.js:25-41 | appending a valid sale numbered after the last one, with a fresh id, keeps the sales valid |
| SaleModel.ReplaceKeepsSaleTable | backend/controllers/saleController.js:132-136 | replacing a sale by a valid one with its id and invoice number keeps the sales valid |
| SaleModel.InvoicesUnique | backend/models/Sale.js:26-30 | in a valid collection no two sales share an invoice number |
| SaleModel.NextInvoiceIsFresh | backend/controllers/saleController.js:106 | the invoice number made from the current count is held by no stored sale |
| UserModel.AppendKeepsUserTable | backend/controllers/authController.js:20-25 | adding a user whose id, email and username are all fresh keeps the users valid |
| UserModel.PublicUserJson | backend/controllers/authController.js:29-37 | the user object returned has exactly the keys id, username, email and role, holding the user's values, and never the password |
| UserModel.SelectedUserJson | backend/middleware/auth.js:18 | the user loaded with `-password` has exactly `_id`, username, email and role, with the user's values, and no password |
| ItemController.NewestFirst | backend/controllers/itemController.js:7 | the items, permuted, newest `createdAt` first |
| ItemController.LowStock | backend/controllers/itemController.js:19 | exactly the items whose stock is at most their threshold |
| ItemController.GetItems | backend/controllers/itemController.js:5-15 | 404 iff there are no items, otherwise 200 with all items newest first and their count |
| ItemController.GetLowStockItems | backend/controllers/itemController.js:17-27 | 404 iff no item is at or below its threshold, otherwise 200 with exactly those items |
| ItemController.GetItem | backend/controllers/itemController.js:29-39 | 404 iff no item has the id, otherwise 200 with that item |
| ItemController.BuildItem | backend/controllers/itemController.js:48 | a document is built iff the body casts and gives name, category and price; it is valid, has the new id, the creation time and the trimmed name |
| ItemController.BuildItemKeepsBody | backend/controllers/itemController.js:48 | the built document holds the body's category and price, and its stock, threshold, unit and active flag or else the schema defaults |
| ItemController.InsertItem | backend/controllers/itemController.js:48 | the item is appended iff its id and name are both fresh, otherwise a 400 duplicate key and no change |
| ItemController.CreateItemSpec | backend/controllers/itemController.js:41-53 | missing name, category or price gives the missing-parameter answer; a refused document gives 400 and no change; otherwise the outcome is the insert of the built document |
| ItemController.CreateItemAccepts | backend/controllers/itemController.js:41-53 | a complete body that casts, with a fresh id and an unused name, gives 201 with the new document appended |
| ItemController.CreateItemPreservesTable | backend/controllers/itemController.js:41-53 | the items stay valid; they change only by one appended valid item with the new id, and exactly on a 201 |
| ItemController.CreateItem | backend/controllers/itemController.js:41-53 | the method leaves exactly the items and response of `CreateItemSpec`, other collections untouched, validity kept |
| ItemController.UpdateItemSpec | backend/controllers/itemController.js:55-68 | other items never change; an unreadable body is 400 with no change; an unknown id is 404 "Item not found"; a found id gives 400 duplicate key and no change when another item has the patched name, and otherwise 200 with the target replaced by its patched version |
| ItemController.UpdateItemPreservesTable | backend/controllers/itemController.js:55-68 | the items stay valid; on 200 exactly the item with the id is replaced by its patched version |
| ItemController.UpdateItem | backend/controllers/itemController.js:55-68 | the method leaves exactly the items and response of `UpdateItemSpec`, validity kept |
| ItemController.DeleteItemSpec | backend/controllers/itemController.js:70-80 | an unknown id is 404 with no change; a known id is 200 without a result and the item removed |
| ItemController.DeleteItemPreservesTable | backend/controllers/itemController.js:70-80 | the items stay valid and none has the deleted id afterwards |
| ItemController.DeleteItem | backend/controllers/itemController.js:70-80 | the method leaves exactly the items and response of `DeleteItemSpec`, validity kept |
| SaleController.Iterated | backend/controllers/saleController.js:81 | `for...of` walks an array's elements or a string's characters, and throws on anything else |
| SaleController.Precheck | backend/controllers/saleController.js:67-78 | no items is 400 "At least one item is required"; then a `null` or unknown customer is 404 "Customer not found" and a customer of another kind 400; then non-iterable items are 400; passing means a known customer and the non-empty list of lines |
| SaleController.QuantityOf | backend/controllers/saleController.js:87-102 | the quantity as the loop's arithmetic reads it: a number as given, `null` and `false` as 0, `true` as 1, a string as the integer it spells; undefined, arrays and objects are refused |
| SaleController.NumeralQuantity | backend/controllers/saleController.js:87-102 | a quantity sent as the string of an integer counts as that integer |
| SaleController.CheckLine | backend/controllers/saleController.js:82-100 | a missing, `null` or unknown string item is 404 "Item … not found"; for a stored item, an unreadable quantity is 400, a quantity above the stock is the short-stock refusal, and otherwise the line is taken from that item; an accepted line snapshots its id, name and price with subtotal price × quantity |
| SaleController.RefusalResponse | backend/controllers/saleController.js:84-88 | an unknown item is 404 "Item … not found"; short stock is 400 "Insufficient stock for … Available: …" |
| SaleController.InsufficientStockRejected | backend/controllers/saleController.js:87-89 | a quantity above the stock is refused with the item's name and its available stock |
| SaleController.WalkAccounting | backend/controllers/saleController.js:102-103 | whether the loop finishes or stops, each item's stock drops by exactly the quantities taken for it and nothing else changes |
| SaleController.WalkPreservesItemTable | backend/controllers/saleController.js:81-104 | the loop keeps the items valid (no negative stock) and keeps every id and name |
| SaleController.TakeStockKeepsTable | backend/controllers/saleController.js:102-103 | deducting no more than the stock keeps the items valid |
| SaleController.WalkFollowsRequests | backend/controllers/saleController.js:91-100 | the n-th line taken answers the n-th request, with the item's name and price as they were before the sale |
| SaleController.WalkCompletes | backend/controllers/saleController.js:81-103 | when every line names a stored item with a quantity of at least 0 and no item is asked for more than its stock in total, the loop takes every line |
| SaleController.SuppliedStatus | backend/controllers/saleController.js:113 | a falsy status becomes `pending`; otherwise it must be one of the enum values |
| SaleController.BuildSale | backend/controllers/saleController.js:108-115 | the document is refused unless every quantity is at least 1, the total is not negative and the status is valid; an accepted one is valid |
| SaleController.InsertSale | backend/controllers/saleController.js:108-115 | the sale is appended iff its id and invoice number are fresh, otherwise a duplicate key |
| SaleController.RecordSale | backend/controllers/saleController.js:106-125 | numbering, validating and inserting never touch the items |
| SaleController.CreateSaleSpec | backend/controllers/saleController.js:60-126 | a missing customer or items gives the missing-parameter answer and no change; a failed check before the loop gives its answer and no change; otherwise the outcome is the loop and the insert |
| SaleController.SellPreservesTables | backend/controllers/saleController.js:78-125 | the loop and the insert keep items and sales valid, and sales grow exactly on a 201 |
| SaleController.SellRecords | backend/controllers/saleController.js:78-125 | 201 iff every line is taken and the document validates; the sale stored is the walked lines, their total, the next invoice number, the status, clock and user; stock deductions stay either way |
| SaleController.CreateSalePreservesTables | backend/controllers/saleController.js:60-126 | both collections stay valid; sales grow exactly on a 201; a request refused before the loop changes nothing |
| SaleController.CreateSaleRecords | backend/controllers/saleController.js:60-126 | a 201 means all fields given, a known customer, every line taken, and exactly the walked sale appended |
| SaleController.TakeThreeOfFive | backend/controllers/saleController.js:81-104 | price 10, stock 5, quantity 3: stock becomes 2 and the total is 30 |
| SaleController.SecondLineShort | backend/controllers/saleController.js:81-104 | a second line of 3 against the remaining 2 stops the loop with the first deduction kept |
| SaleController.TakeLines | backend/controllers/saleController.js:78-104 | the loop ends in the state `WalkLines` describes, and the running total is the sum of the subtotals |
| SaleController.Sell | backend/controllers/saleController.js:78-125 | the method leaves exactly the items, sales and response of the specification, validity kept |
| SaleController.CreateSale | backend/controllers/saleController.js:60-126 | the method leaves exactly the items, sales and response of `CreateSaleSpec`, validity kept |
| SaleHandlers.Param | backend/controllers/saleController.js:17-26 | a query parameter counts only when present and non-empty |
| SaleHandlers.DateBound | backend/controllers/saleController.js:22-23 | an absent bound is no bound; a bound that does not parse as a date is an error |
| SaleHandlers.ReadDates | backend/controllers/saleController.js:20-24 | the date range of `getSales` fails iff a given date does not parse, and bounds only the dates given |
| SaleHandlers.ReadFilter | backend/controllers/saleController.js:17-26 | the list filter is the dates plus the customer and status parameters when given |
| SaleHandlers.Selected | backend/controllers/saleController.js:28-32 | exactly the matching sales, as a permutation of the filtered sales, latest `saleDate` first |
| SaleHandlers.UnfilteredListsAll | backend/controllers/saleController.js:18-32 | an empty query lists every sale |
| SaleHandlers.SelectedEmpty | backend/controllers/saleController.js:34-36 | the selection is empty iff no sale matches |
| SaleHandlers.GetSales | backend/controllers/saleController.js:15-42 | a given date that does not parse is 500; otherwise 404 iff nothing matches, else 200 with the matching sales newest first (a malformed customer id is not a 500 here, see "Left out") |
| SaleHandlers.GetSale | backend/controllers/saleController.js:44-58 | 404 iff no sale has the id, otherwise 200 with that sale |
| SaleHandlers.ReadStatusPatch | backend/controllers/saleController.js:130-135 | an absent status leaves it alone, `null` clears it, an enum value sets it; anything else is refused |
| SaleHandlers.Patch | backend/controllers/saleController.js:132-136 | a set status becomes the stored one, a cleared status is removed, a kept one stays; nothing else changes, and a valid sale stays valid |
| SaleHandlers.PatchIdempotent | backend/controllers/saleController.js:132-136 | applying the same update twice is applying it once |
| SaleHandlers.UpdateSaleSpec | backend/controllers/saleController.js:128-146 | only the status of the sale with the id can change; a bad status is 400 with no change; an unknown id is 404 "Sale not found"; a found id with a readable status is 200 with the sale patched |
| SaleHandlers.UpdateSalePreservesTable | backend/controllers/saleController.js:128-146 | the sales stay valid; on 200 exactly that sale is replaced by its patched version |
| SaleHandlers.UpdateSaleIdempotent | backend/controllers/saleController.js:128-146 | repeating an update leaves the sales as the first one did |
| SaleHandlers.UpdateSale | backend/controllers/saleController.js:128-146 | the method leaves exactly the sales and response of `UpdateSaleSpec`, other collections untouched |
| SaleHandlers.RevenueNonNegative | backend/controllers/saleController.js:165 | the revenue of sales with non-negative totals is not negative |
| SaleHandlers.StatsSummary | backend/controllers/saleController.js:208 | with or without the default, the summary is the count and the sum of totals of the matching sales |
| SaleHandlers.StatsBound | backend/controllers/saleController.js:153-156 | an absent bound is none; an unreadable date bounds at the epoch; a readable date bounds exactly as in `getSales` |
| SaleHandlers.StatsDates | backend/controllers/saleController.js:150-157 | the `$match` reads only the two dates and equals the range of `getSales` whenever both dates read |
| SaleHandlers.GetSalesStats | backend/controllers/saleController.js:148-217 | always 200, with the count and revenue of the sales in the date range of the `$match` |
| SaleHandlers.UnreadableStartSummarisesAll | backend/controllers/saleController.js:153-169 | an unreadable `startDate` without an `endDate` summarises every sale dated from the epoch on |
| SaleHandlers.StatsSummaryBounds | backend/controllers/saleController.js:159-169 | the revenue is not negative and the count equals the number of sales `getSales` would select for the same range |
| AuthController.RoleOf | backend/controllers/authController.js:19-25 | an absent role takes the default; a given role is kept iff the schema allows it |
| AuthController.NewUser | backend/controllers/authController.js:25 | the user created has the new id, the given username and email, the hashed password and the role |
| AuthController.Enroll | backend/controllers/authController.js:19-39 | an existing email or username is 400 "User already exists"; string fields, no clash, a creatable user and a fresh id give 201 with the user appended and its credentials; a 201 happens iff one user is appended |
| AuthController.RegisterSpec | backend/controllers/authController.js:12-43 | a missing field gives the missing-parameter answer; users grow exactly on a 201 |
| AuthController.RegisterPreservesTable | backend/controllers/authController.js:12-43 | registering keeps ids, emails and usernames unique |
| AuthController.Register | backend/controllers/authController.js:12-43 | the method leaves exactly the users and response of `RegisterSpec`, validity kept |
| AuthController.UserByEmail | backend/controllers/authController.js:54 | a user with the email, and none iff no user has it |
| AuthController.LoginSpec | backend/controllers/authController.js:45-80 | an unknown email and a wrong password both give the same 401 "Invalid credentials"; a 200 means the password matches that user's hash, and returns its credentials |
| AuthController.Authenticate | backend/controllers/authController.js:52-76 | once both fields are present: an unknown email or a non-matching password is 401 "Invalid credentials", 401 is only that answer, and 200 only for a matching password |
| AuthController.LoginSucceedsIff | backend/controllers/authController.js:54-62 | with unique emails, login succeeds iff some user has the email and a matching password |
| AuthController.RegisterRequiresLoginFields | backend/controllers/authController.js:47 | a body that registers has every field login requires |
| AuthController.RegisterThenLogin | backend/controllers/authController.js:12-80 | after a 201 register, logging in with the same body succeeds with the same credentials |
| AuthController.GetMe | backend/controllers/authController.js:82-87 | 200 with the request's user: its id, username, email and role, without the password |
| AuthController.TokenHolderSeesSelf | backend/middleware/auth.js:9-23 | a user's own token, sent as `Bearer <token>`, passes `protect` with that user in a valid collection, and `getMe` shows exactly its id, username, email and role |
| AuthMiddleware.BearerToken | backend/middleware/auth.js:8-10 | a token exists iff the header starts with `Bearer` and has a non-empty second space-separated segment, which is the token |
| AuthMiddleware.BearerRoundTrip | backend/middleware/auth.js:8-10 | `Bearer <token>`, with or without more segments, yields the token |
| AuthMiddleware.LowerCaseSchemeRefused | backend/middleware/auth.js:8 | a `bearer` header yields no token |
| AuthMiddleware.UserById | backend/middleware/auth.js:18 | a user with the id, and none iff no user has it |
| AuthMiddleware.ProtectSpec | backend/middleware/auth.js:5-28 | no token or a failed verification is 401 "Not authorized to access this route"; a verified id naming no user is 401 "User not found"; the request passes iff the verified id names a user, and then with that user |
| AuthMiddleware.Protect | backend/middleware/auth.js:5-28 | `req.user` is assigned only after verification, and is the user passed on |
| AuthMiddleware.Authorize | backend/middleware/auth.js:30-37 | passes iff the role is listed; otherwise 403 "User role … is not authorized to access this route" |
| Router.Serve | backend/routes/itemRoutes.js:14-25 | `protect` answers first; the handler is that of the first route taking the verb and path, and a guarded route runs only for listed roles |
| Router.FirstMatchDecides | backend/routes/itemRoutes.js:16-25 | once `protect` passes, the first matching route runs or refuses with 403 |
| Router.GuardedHandlers | backend/routes/itemRoutes.js:20-25 | handlers behind a one-role guard only ever receive users of that role |
| Router.UnguardedRouter | backend/routes/saleRoutes.js:13-23 | a router without guards refuses exactly what `protect` refuses |
| Router.UnregisteredVerb | backend/routes/saleRoutes.js:17-23 | a verb no route registers never reaches a handler |
| ItemRoutes.WritesNeedAdmin | backend/routes/itemRoutes.js:18-25 | create, update and delete reach their handlers only for admins |
| ItemRoutes.ListsNeedAuthenticationOnly | backend/routes/itemRoutes.js:14-19 | any authenticated role lists items and low-stock items |
| ItemRoutes.ItemReadNeedsAuthenticationOnly | backend/routes/itemRoutes.js:22-23 | any authenticated role reads an item by id |
| ItemRoutes.LowStockBeforeId | backend/routes/itemRoutes.js:16-23 | `/low-stock` goes to the low-stock handler although `/:id` would also take it |
| ItemRoutes.NonAdminCreateRefused | backend/routes/itemRoutes.js:20 | a non-admin creating an item gets 403 |
| ItemRoutes.NonAdminUpdateRefused | backend/routes/itemRoutes.js:24 | a non-admin updating an item gets 403 |
| ItemRoutes.NonAdminDeleteRefused | backend/routes/itemRoutes.js:25 | a non-admin deleting an item gets 403 |
| SaleRoutes.AnyRoleMaySell | backend/routes/saleRoutes.js:13-23 | no sale route refuses a role: the only refusal is the 401 of `protect` |
| SaleRoutes.NoDelete | backend/routes/saleRoutes.js:21-23 | no DELETE request reaches a sale handler |
| SaleRoutes.StatsDispatch | backend/routes/saleRoutes.js:15 | `GET /stats/summary` reaches the statistics |
| SaleRoutes.StatsAloneIsAnId | backend/routes/saleRoutes.js:15-23 | `GET /stats` alone is taken by `/:id` as a sale id |

## Left out

- Mongo internals become sequences: a collection is a `seq` in insertion order, a `find` is a filter, `findById` is a first-match search. Aggregation pipelines are modelled only as far as the summary's count and sum go.
- Populating references (`populate`) is left out: sales, items and users are returned with plain ids.
- SaleHandlers.GetSalesStats: the result holds only `summary`. `topItems` and `topCustomers` (group, sort, limit 5, customer lookup) are left out, because they are Mongo aggregation stages.
- SaleHandlers.StatsSummary: `avgSaleAmount` is left out, because it is a floating-point average.
- Prices, totals and quantities are unbounded integers. Floating-point amounts and JavaScript number semantics (NaN, fractions) are not modelled.
- Mongoose casting is simplified: a value of the wrong JSON kind for a schema path is a cast failure. Lenient conversions are not modelled, such as numeric strings to numbers or numbers to strings. `null` for an optional item path is refused here, whereas Mongoose stores `null`.
- SaleController.QuantityOf: follows JavaScript's `ToNumber` for numbers, `null`, booleans and integer numerals only. Decimal fractions, exponents, hexadecimal numerals, `Infinity`, the empty array `[]` (which reads as 0) and one-element arrays are not modelled; such a line is refused here, whereas the code goes on with the later lines and deducts their stock.
- JSON objects in query positions are not modelled: an object sent as `email` (backend/controllers/authController.js:19, :54), `customer` (backend/controllers/saleController.js:73) or a line's `item` (backend/controllers/saleController.js:82) reaches Mongo as a query operator. The model only looks up string values. A value of another kind is answered as follows: a number, boolean, array or object as a line's `item` is a cast failure, 400 (`CheckLine`); such a `customer` is 400 (`Precheck`); such an `email` is 500 in `Enroll` and `Authenticate`.
- Malformed ObjectIds: ids are plain strings, so a lookup with an ill-formed id is a miss, answered 404 here. In the code it throws a CastError, and the controller's `catch` answers it: 400 in `createSale` for the `customer` (backend/controllers/saleController.js:73) or a line's `item` (:82), catch at :123-124; 400 in `updateItem` (backend/controllers/itemController.js:57, catch at :65-66) and `updateSale` (backend/controllers/saleController.js:132, catch at :143-144); 500 in `getItem`, `deleteItem`, `getSale` and `getSales`.
- SaleHandlers.GetSales: a `customer` that is not a well-formed ObjectId makes the `find` throw a CastError, answered 500 (backend/controllers/saleController.js:24, :40). The model answers 500 only for an unparseable date and treats such a customer as matching nothing.
- AuthMiddleware.ProtectSpec: a `findById` that throws (backend/middleware/auth.js:18), for example on a malformed id in a validly signed token, is answered 401 "Not authorized to access this route" by the `catch`. The model has no such failure, so a missing user is always "User not found".
- The query string is a `map<string, string>`. Repeated parameters, arrays and nested objects in the query are not modelled.
- `error.message` text: a caught exception is a `Failure` tag with a fixed stand-in message. The wording Mongoose produces is not modelled.
- The clock (year, month, `Date.now`), new ObjectIds, `new Date(...)` parsing, `jwt.sign`/`jwt.verify` and bcrypt hashing and comparison are parameters.
- backend/models/User.js is not part of this model. The default role, the allowed roles and the hashing hook are parameters of registration.
- UserModel.SelectedUserJson: a document loaded with `-password` also carries Mongoose's `__v`, timestamps and any other path User.js defines; the model knows only the four fields it renders.
- backend/controllers/customerController.js is not part of this model. Customers are the set of existing customer ids that `createSale` checks against.
- Concurrency: each request runs to completion against the collections. Interleaved requests, and so duplicate invoice numbers under races, are not modelled.
- Sorting: `sort('-createdAt')` and `sort('-saleDate')` are stable descending sorts here. Mongo does not fix the order of ties.
- Routing: matching is exact and case-sensitive on whole path segments. Express's case-insensitive matching, trailing slashes, HEAD requests and the application's fallback 404 for unmatched paths are left out.
- AuthMiddleware.Protect: `req.user` holds the stored user, password included. The `-password` projection shows only in what `GetMe` renders (`SelectedUserJson`).
- AuthMiddleware.BearerToken: does not state that a token has no spaces. It is the second space-separated segment, so this follows from `Split`, but it is not stated separately.
- The frontend is not part of this model.
