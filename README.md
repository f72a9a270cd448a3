# pfos-backend order core, modelled in Dafny

This project models the order back end of a small solar-product shop
(davytun/pfos-backend, an Express/Mongoose service).

- **Order placement.** A request is checked field by field and item by item. The total is recomputed and compared exactly. A six-digit order number comes from an atomic counter. The order is stored with status `pending`. The invoice PDF, the mails and the file clean-up are returned as a list of effects.
- **Status updates and listing.** Statuses are checked against a closed enum. Listing is paged, newest first, with a case-insensitive order-number search.
- **Order schema.** Numbers are unique and required, the status enum is closed, and the status defaults to `pending`.
- **Maintenance scripts.** One back-fills numbers for old orders, oldest first. The other re-seeds the counter from the highest stored number.
- **Admin controller.** Login, password and email changes, the reset-token flow, product add/edit/delete with the price bound, and the dashboard statistics.
- **Account controller.** The single bank-account record, created on its first update.
- **Message controller.** Customer messages: creation, paging, read toggling, deletion and replies.
- **Auth guard.** The bearer-token middleware's decision chain.

Stateful parts are classes whose methods state their whole new state with
`old(...)`: `CounterStore`, `OrderStore`, `AdminStore`, `ProductStore`,
`AccountStore` and `MessageStore`. Pure parts are functions with named
results plus lemmas. A handler that can answer with an error returns a
`Reply`: `Success(status, value)` or `Failure(status, error)`.
`AdminController.ProductStore.GetAllProducts` and `AdminController.AdminStats`
have no modelled error path, so they return their value directly.

The following are parameters:
- the clock (`now`);
- the random reset token;
- `parseFloat`'s result, as `Option<real>` where `None` is NaN;
- JWT verification, as a function from token to decoded claims;
- whether an awaited mail send succeeded (`mailSent`).

Mails, the PDF and file removal are returned as data and never performed.

Files:
- `wrappers.dfy`: `Option`, `Reply`, status codes.
- `text.dfy`: decimal strings, `padStart`, `parseInt`, the database's string order, `replace`, case-insensitive search.
- `listing.dfy`: a generic sort by key, newest-first order, paging arithmetic.
- `counter.dfy`: `utils/counter.js`.
- `order_model.dfy`: `models/orderModel.js`.
- `order_controller.dfy`, `migrate_orders.dfy`, `set_counter.dfy`, `admin_controller.dfy`, `account_controller.dfy`, `message_controller.dfy`, `auth_middleware.dfy`: one per source file.

Where the route documentation and the code disagree, the model follows the
code. The order-status documentation in `routes/orderRoutes.js:139` lists a
status `shipping`, but `controllers/orderController.js:315` refuses it. The
model accepts exactly `pending`, `shipped` and `canceled`.

## Model

| member | source | states |
|---|---|---|
| Counter.Initialized | utils/counter.js:3-9 | the counter exists afterwards; an existing counter keeps its value; a missing one starts at 0; every other counter is unchanged |
| Counter.Bumped | utils/counter.js:11-18 | the counter becomes its previous value (0 when absent) plus one; the key set gains only that id; every other counter keeps its value |
| Counter.CounterStore.InitializeCounter | utils/counter.js:3-9 | the store becomes `Initialized` of the old store |
| Counter.CounterStore.GetNextSequence | utils/counter.js:11-18 | returns the previous sequence plus one, and the store becomes `Bumped` of the old store, in one step |
| Counter.CounterStore.Upsert | setCounter.js:13-17 | the counter is set to the value, whether or not it existed; nothing else changes |
| Counter.AllocationsAreConsecutive | utils/counter.js:11-18 | `k` successive calls return current+1, ..., current+k, and leave the counter at current+k |
| Counter.AllocationsIncrease | utils/counter.js:11-18 | successive calls on one id return strictly increasing values, all above the starting value, so they are pairwise distinct |
| Counter.FirstAllocationIsOne | utils/counter.js:12-16 | the first call on an absent counter creates it and returns 1 |
| Counter.OtherSeriesUnchanged | utils/counter.js:12-14 | any number of calls on one id leave every other counter's presence and value unchanged |
| Counter.InitializeIdempotent | utils/counter.js:3-9 | initializing twice equals initializing once, and never changes an existing counter's value |
| OrderModel.ParseStatus | models/orderModel.js:16-20 | a status string is accepted iff it is `pending`, `shipped` or `canceled`, and it maps back to the same name |
| OrderModel.StatusNameRoundTrip | models/orderModel.js:16-20 | every status's name parses back to that status |
| OrderModel.FormatOrderNumberShape | controllers/orderController.js:43-44 | the padded number is all digits, at least 6 long, exactly 6 long iff the sequence is below 10^6, and parses back to the sequence |
| OrderModel.FormatOrderNumberInjective | controllers/orderController.js:43-44 | two sequences format to the same order number iff they are equal |
| OrderModel.FormatOrderNumberOrder | controllers/orderController.js:43-44 | below 10^6, the string order of two order numbers is the numeric order of their sequences |
| OrderModel.SchemaCheck | models/orderModel.js:5-20 | a draft passes iff it has a non-empty number, non-empty name/email/phone/address, a cart, a total, and no status or an enum status; a failure is a validation error |
| OrderModel.Materialize | models/orderModel.js:16-22 | a stored order keeps the draft's number, name, email, phone, address, cart and total; its status is the given enum value or `pending`; both timestamps are the save time |
| OrderModel.DefaultStatusIsPending | models/orderModel.js:20 | an order saved without a status is `pending` |
| OrderModel.AppendKeepsNumbersUnique | models/orderModel.js:5-9 | inserting an order whose number is not yet stored keeps all stored numbers distinct |
| OrderModel.RenumberKeepsNumbersUnique | models/orderModel.js:5-9 | overwriting one order with a number no other order holds keeps all numbers distinct |
| OrderModel.IndexOfId | controllers/orderController.js:297 | finds the position holding the id, or none iff no stored order has it |
| OrderModel.OrderStore.FindById | controllers/orderController.js:297 | finds an order iff one with that id is stored, and that order is stored and has that id |
| OrderModel.OrderStore.Save | models/orderModel.js:5-22 | schema errors reject with nothing stored; a duplicate number rejects with a duplicate-key error and nothing stored; otherwise the materialized order is appended; the unique-number invariant holds throughout |
| OrderModel.OrderStore.UpdateStatus | controllers/orderController.js:319-323 | an unknown id changes nothing; otherwise only that order's status and update time change and the updated order is returned |
| OrderModel.OrderStore.SaveOrderNumber | migrateOrders.js:15-16 | writing a number to one order is rejected for an unknown id, a schema failure, or a number another order holds, changing nothing; otherwise only that order changes |
| Text.PadStart | controllers/orderController.js:44 | the result has the larger of the two lengths, ends with the input, and is filled before it |
| Text.LeadingZeros | controllers/orderController.js:44 | leading zeros do not change a digit string's value |
| Text.DecimalRoundTrip | controllers/orderController.js:44 | the decimal form of a number reads back as that number |
| Text.LeadingDigits | setCounter.js:21 | the longest all-digit prefix, stopping at the first non-digit |
| Text.ParseIntOfDigits | setCounter.js:21 | `parseInt` of a non-empty digit string is its decimal value |
| Text.StrLessTotal | setCounter.js:10 | any two distinct strings are ordered one way or the other |
| Text.StrLessTransitive | setCounter.js:10 | the string order of the descending sort is transitive |
| Text.StrLessAsymmetric | setCounter.js:10 | the string order never holds both ways |
| Text.DigitOrderIsNumeric | setCounter.js:10 | on digit strings of equal length, string order coincides with numeric order |
| Text.IndexOfFrom | middleware/authMiddleware.js:25 | the first occurrence of a pattern at or after a position, or none iff there is none |
| Text.ReplacePrefix | middleware/authMiddleware.js:25 | replacing the first "Bearer " of a header that starts with it removes exactly the prefix |
| Text.ContainsIgnoresCase | controllers/orderController.js:268-271 | the case-insensitive search gives the same answer when either side is lower-cased first |
| Text.ContainsIgnoreCaseLetterwise | controllers/orderController.js:268-271 | the case-insensitive search holds iff at some position every character of the search equals the text's character there, both lower-cased |
| Listing.SortBy | migrateOrders.js:8-10 | the result is a permutation of the input, ascending by key |
| Listing.SortByDistinct | migrateOrders.js:8-10 | sorting keeps a field that was pairwise distinct pairwise distinct |
| Listing.NewestFirst | controllers/orderController.js:276 | a permutation of the input, of the same length, with non-increasing creation times |
| Listing.ParamOr | controllers/orderController.js:261-262 | the `parseInt(x) \|\| default` rule: NaN or 0 gives the default, any other parsed value is kept |
| Listing.CeilDiv | controllers/orderController.js:284 | `Math.ceil(total / limit)`, bracketed by `(r-1)*limit < total <= r*limit` for a positive limit, and the mirrored bounds for a negative one |
| Listing.PageOf | controllers/orderController.js:263-285 | a negative skip is a server error; otherwise the page reports the requested page and `ceil(total/limit)` pages, and holds exactly the items from offset `(page-1)*limit`, at most `\|limit\|` of them |
| Listing.PageKeepsOrder | controllers/orderController.js:275-278 | a page of a newest-first list is itself newest first, has at most `\|limit\|` items, and holds only listed items |
| Listing.ItemOnItsPage | controllers/orderController.js:263-285 | for a positive limit, every listed item appears on page `k/limit + 1`, at offset `k mod limit`, within the page count |
| Listing.ItemAtOffset | controllers/orderController.js:263-285 | the `m`-th item of page `p` is item `(p-1)*limit + m` of the sorted list whenever that exists |
| OrderController.FirstInvalidItem | controllers/orderController.js:29-33 | the first item with no name, a zero price or a quantity of at most 0, or none iff every item is valid |
| OrderController.ReduceIsLineSum | controllers/orderController.js:35-38 | the `reduce` from any start value adds the sum of price times quantity over the cart |
| OrderController.CartTotalIsLineSum | controllers/orderController.js:35-38 | the computed total equals the line-by-line sum and is additive over concatenated carts |
| OrderController.LineSumAppend | controllers/orderController.js:35-38 | the line sum of two carts is the sum of their line sums |
| OrderController.PositivePricesPositiveTotal | controllers/orderController.js:29-38 | a non-empty valid cart with positive prices has a positive total |
| OrderController.CheckOrderRequest | controllers/orderController.js:17-41 | checks fire in source order: missing fields or an empty cart give "All fields are required"; otherwise an invalid item gives "Invalid cart item"; otherwise a total different from the line sum gives "Total price mismatch"; the request passes iff none of these holds |
| OrderController.CheckOrderRequestExamples | controllers/orderController.js:17-41 | an exact total passes, a total off by one is a mismatch, an empty cart is missing fields, a zero price is invalid, and a negative price passes |
| OrderController.PaymentDetailsOf | controllers/orderController.js:66-83 | with no account record every detail is "Not available"; otherwise the details are the record's three fields |
| OrderController.PlacementEffects | controllers/orderController.js:58-249 | in order: the PDF is written to `/tmp/invoice-<n>.pdf`, the invoice is mailed to the customer with that attachment, the file is removed, and the admin is alerted |
| OrderController.PlacementDraftValid | controllers/orderController.js:46-56 | the draft saved for an accepted request passes the schema, and saving it yields an order that is `pending`, holds the request's customer fields and cart, and has the line-by-line sum as total |
| OrderController.PlaceOrder | controllers/orderController.js:11-256 | a rejected request answers 400 with the first failing check and touches neither counter nor store; otherwise the counter is bumped once; a number already stored answers 500 with nothing stored; otherwise the new order is appended and answered 201, and mail or clean-up outcomes cannot change that |
| OrderController.AcceptedTotalIsLineSum | controllers/orderController.js:35-41 | an accepted request's total equals the computed total and every quantity is positive |
| OrderController.GetOrderById | controllers/orderController.js:294-307 | succeeds iff an order with that id is stored, answering it with 200; otherwise 404 "Order not found" |
| OrderController.UpdateOrderStatus | controllers/orderController.js:310-339 | a status outside the enum answers 400 and changes nothing; an unknown id answers 404 and changes nothing; otherwise only that order's status and update time change, the status mail is sent, and a failed mail answers 500 with the change kept |
| OrderController.Matching | controllers/orderController.js:267-271 | an empty search keeps every order; otherwise exactly the orders whose number contains the search, ignoring case, each as often as it was stored |
| OrderController.GetOrders | controllers/orderController.js:259-291 | with the `parseInt \|\| default` rule for page and limit: a negative skip is 500; otherwise the page is the requested one, `totalPages` is `ceil(matching/limit)`, and the items are exactly the newest-first matching orders from offset `(page-1)*limit`, `\|limit\|` of them or all that remain |
| OrderController.EveryMatchListed | controllers/orderController.js:259-291 | with a positive limit, the `k`-th newest matching order is item `k % limit` of page `k / limit + 1`, and that page is within `totalPages` |
| OrderController.DefaultListing | controllers/orderController.js:261-262 | without parameters the listing is page 1 with the first `min(n, 10)` matches, and reports zero pages iff nothing matches |
| AccountController.AccountStore.FindOne | controllers/accountController.js:25 | the first record, or none iff there is no record |
| AccountController.AccountStore.GetAccount | controllers/accountController.js:4-15 | fails iff no record exists, with 404 "Account details not found"; otherwise returns the record |
| AccountController.AccountStore.UpdateAccount | controllers/accountController.js:17-41 | any empty field answers 400 and changes nothing; otherwise the first record is overwritten, or created when there is none, so there is never a second record; afterwards `getAccount` returns exactly the supplied values |
| MigrateOrders.Unnumbered | migrateOrders.js:8 | exactly the stored orders without a number |
| MigrateOrders.UnnumberedIdsUnique | migrateOrders.js:8 | the selected orders have pairwise distinct ids |
| MigrateOrders.Selection | migrateOrders.js:8-10 | exactly the unnumbered orders, in ascending creation time |
| MigrateOrders.SelectionIdsUnique | migrateOrders.js:8-10 | the sorted selection still has pairwise distinct ids |
| MigrateOrders.Assignment | migrateOrders.js:12-15 | covers exactly the ids of the selected orders |
| MigrateOrders.AssignmentAt | migrateOrders.js:14 | the `i`-th selected order (0-based) receives `i+1` padded to six digits |
| MigrateOrders.Renumber | migrateOrders.js:12-16 | assigned orders take their number and the save time; every other order is unchanged |
| MigrateOrders.NumberSelected | migrateOrders.js:13-20 | one loop step numbers the next selected order, or stops with the store unchanged because the store refused it |
| MigrateOrders.MigrateOrders | migrateOrders.js:6-28 | the first `migrated` selected orders are numbered 000001 onwards; the run fails iff it stopped early, and then the store refused the next save |
| MigrateOrders.AssignedNumbers | migrateOrders.js:12-16 | the numbers of one run follow selection order, are pairwise distinct, and are exactly 000001 up to the `m`-th |
| MigrateOrders.NumberedOrdersUntouched | migrateOrders.js:8-16 | orders that already had a number are left exactly as they were |
| MigrateOrders.CompleteRunNumbersAll | migrateOrders.js:8-20 | after a complete run every order has a number |
| SetCounter.TopNumber | setCounter.js:10 | the greatest number in string order, held by some order; none iff no order has a number |
| SetCounter.SetCounter | setCounter.js:7-37 | the counter is upserted to 0 when no order has a number, otherwise to `parseInt` of the string-greatest number; a NaN leaves it unchanged |
| SetCounter.ReseedWithoutNumbers | setCounter.js:11-19 | with no numbered orders the counter is set to 0 |
| SetCounter.SixDigitNotAbove | setCounter.js:10 | on six-digit numbers, not above in string order means not above in value |
| SetCounter.SixDigitReseedIsFresh | setCounter.js:10-29 | while all numbers have six digits, the re-seed is the largest value and the next allocated number collides with no stored one |
| SetCounter.StringOrderCollides | setCounter.js:10-29 | with "999999" and "1000000" stored, the re-seed is 999999 and the next number is the stored "1000000" |
| SetCounter.NumericTop | setCounter.js:10 | is at least the value of every stored number |
| SetCounter.NumericTopIsMax | setCounter.js:10 | the numeric re-seed is exactly the largest stored value |
| SetCounter.SetCounterNumeric | setCounter.js:10-29 | the counter is set to the largest stored value |
| SetCounter.NumericReseedIsFresh | setCounter.js:10-29 | after the numeric re-seed, the next allocated number collides with no stored one, whatever its length |
| SetCounter.NumericAgreesOnSixDigits | setCounter.js:10-29 | while all numbers have six digits, the string and numeric re-seeds agree |
| AdminController.FirstWhere | controllers/adminController.js:44 | `findOne`: the first matching record, or none iff none matches |
| AdminController.AdminStore.Login | controllers/adminController.js:36-68 | a missing email or password answers 400; otherwise login succeeds iff the first admin with that email has that password; an unknown email and a wrong password give the same "Invalid credentials"; success carries that admin's id and the `admin` role |
| AdminController.AdminStore.ChangePassword | controllers/adminController.js:75-111 | checks in order: all fields, an authenticated caller, an existing admin, the current password, then new equal to confirm; only when all pass does that admin's password change |
| AdminController.AdminStore.UpdateEmail | controllers/adminController.js:122-152 | checks in order: email given, caller authenticated, admin exists, and no other admin holds the email (one's own email is allowed); then only that email changes; with unique ids, unique emails stay unique |
| AdminController.AdminStore.GetAdminProfile | controllers/adminController.js:355-368 | 401 for an unauthenticated caller; otherwise success iff an admin with the caller's id exists, carrying the email of the admin `findById` returns, else 404 |
| AdminController.AdminStore.ForgotPassword | controllers/adminController.js:375-407 | a missing email answers 400 and an unknown one 404, both changing nothing; otherwise that admin stores the token expiring at now + 3,600,000 ms, the reset mail is sent, and a failed send answers 500 |
| AdminController.AdminStore.VerifyResetToken | controllers/adminController.js:414-427 | a missing token answers 400; otherwise valid iff some admin holds that token with an expiry after now |
| AdminController.AdminStore.ResetPassword | controllers/adminController.js:430-456 | missing fields, then mismatched passwords, are refused before any lookup; otherwise the first admin with the unexpired token gets the new password and loses the token and expiry; none is "Invalid or expired token" |
| AdminController.EmailChangeKeepsUnique | controllers/adminController.js:144-150 | with unique ids, an email change allowed by the holder check keeps emails unique |
| AdminController.ResetTokenWindow | controllers/adminController.js:389-392 | a freshly stored token is valid at time `t` iff `t` is before now + 3,600,000 ms |
| AdminController.ResetTokenSingleUse | controllers/adminController.js:451-454 | after a reset no token is valid for that admin, the password is the new one, and id and email are kept |
| AdminController.ResetTokenNotReusable | controllers/adminController.js:442-454 | once used, a token held by no other admin finds no admin again |
| AdminController.ProductStore.AddProduct | controllers/adminController.js:163-194 | a missing field or image answers 400; a NaN price or one outside (0, 1,000,000] answers 400; otherwise the product is appended and answered 201; nothing changes on failure |
| AdminController.ProductStore.DeleteProduct | controllers/adminController.js:205-212 | an unknown id answers 404 with no change; otherwise exactly that product is removed |
| AdminController.ProductStore.EditProduct | controllers/adminController.js:219-251 | name, price and description required (the image is optional); the same price range as on add; an unknown id answers 404; otherwise only that product changes, and the image changes only when a new one is supplied |
| AdminController.ProductStore.GetAllProducts | controllers/adminController.js:259-262 | all products, a permutation of the store, newest first |
| AdminController.CountStatus | controllers/adminController.js:276-289 | a per-status count is the number of orders carrying that status (its multiplicity among the orders' statuses), hence at most the number of orders |
| AdminController.StatusCountsCoverAll | controllers/adminController.js:273-289 | the pending, shipped and canceled counts add up to the total |
| AdminController.RevenueSeriesMeaning | controllers/adminController.js:304-320 | for every day at once: listed iff a non-canceled order in the window falls on it, with that day's revenue |
| AdminController.RevenueByDayIsDayRevenue | controllers/adminController.js:304-320 | a day appears in revenue-over-time iff a non-canceled order in the window falls on it, and its total is that day's revenue |
| AdminController.LineNames | controllers/adminController.js:326 | the unwound cart lines' names, one per item |
| AdminController.ProductCountsMeaning | controllers/adminController.js:324-334 | for every name at once: listed iff some line carries it, with the number of such lines |
| AdminController.CountByNameIsOccurrences | controllers/adminController.js:324-334 | a product name appears in orders-per-product iff some line has it, with the number of such lines |
| AdminController.AdminStats | controllers/adminController.js:269-348 | the order and product totals are the collection sizes; each status count is the number of orders with that status, and the three add up to the total; total revenue is the sum of every order's total, canceled ones included; revenue-over-time lists exactly the days of non-canceled orders from the last thirty days, each with that day's revenue; orders-per-product lists exactly the names on non-canceled orders' lines, each with its number of lines; an empty store gives 0 revenue and empty series |
| AdminController.CanceledOrderExcluded | controllers/adminController.js:294-334 | a canceled order leaves revenue-over-time and orders-per-product unchanged but still adds to total revenue |
| MessageController.IndexOfMessage | controllers/messageController.js:85 | the position of the message with the id, or none iff there is none |
| MessageController.Toggled | controllers/messageController.js:90-91 | the read flag is flipped and only the update time otherwise changes |
| MessageController.ToggleTwiceRestores | controllers/messageController.js:90-91 | toggling twice restores the read flag and every field but the update time |
| MessageController.MessageStore.CreateMessage | controllers/messageController.js:17-51 | a missing field answers 400 and stores nothing; otherwise the unread message is stored, the admin is notified, and a failed notification answers 500 with the message kept |
| MessageController.MessageStore.GetMessages | controllers/messageController.js:59-75 | the order listing's paging without a filter: a negative skip is 500; otherwise `ceil(count/limit)` pages, and the items are exactly the newest-first stored messages from offset `(page-1)*limit`, `\|limit\|` of them or all that remain |
| MessageController.EveryMessageListed | controllers/messageController.js:59-75 | with a positive limit, the `k`-th newest message is item `k % limit` of page `k / limit + 1`, and that page is within `totalPages` |
| MessageController.MessageStore.ToggleReadStatus | controllers/messageController.js:83-92 | an unknown id answers 404 with no change; otherwise only that message is toggled |
| MessageController.MessageStore.DeleteMessage | controllers/messageController.js:100-106 | an unknown id answers 404 with no change; otherwise exactly that message is removed |
| MessageController.DeleteRemovesOne | controllers/messageController.js:102 | a deletion leaves one message fewer and every other message in place |
| MessageController.MessageStore.ReplyToMessage | controllers/messageController.js:113-147 | a missing id or reply answers 400, an unknown message 404, and neither sends mail; otherwise the reply is mailed to the customer's address and a failed send answers 500 |
| AuthMiddleware.Authorize | middleware/authMiddleware.js:3-66 | checks in order: no header, not "Bearer ", an empty token, a failed verification, no id, then a role other than `admin`, with 401 except 403 for the role; otherwise the admin's id and role are passed on |
| AuthMiddleware.AllowExactly | middleware/authMiddleware.js:9-60 | a request passes iff the header is "Bearer " and a non-empty token that verifies to an id and the `admin` role; the admin passed on is authenticated |
| AuthMiddleware.LoginTokenPasses | middleware/authMiddleware.js:36-60 | a token carrying the claims a login issues passes, with that admin's id |
| AuthMiddleware.DenialStatus | middleware/authMiddleware.js:10-66 | every denial is 401 or 403, and 403 exactly for the missing admin role |

## Left out

- Mail, PDF and files: the mailer, nodemailer transport, the pdfkit document, `/tmp` handling and the HTML text are I/O. A send, a PDF write and a file removal are effect values; an awaited send's outcome is a `mailSent` parameter.
- Concurrency: each counter call is one indivisible step, which is the database's atomic `$inc` with upsert; interleavings are not modelled.
- Floating point: order prices, quantities and totals are `int` amounts, so comparing totals is exact. Product prices are `real`, and `parseFloat` is a parameter; its parsing rules are not modelled.
- Regular expressions: the order-number search is a case-insensitive substring test. Regular-expression metacharacters in the search are not interpreted.
- `Text.ParseInt`: reads leading digits only; the leading whitespace and sign `parseInt` accepts are not modelled.
- Identifiers: document ids are natural numbers, so the 500 a malformed ObjectId cast causes is not modelled. Admin ids are strings.
- Sort ties: the database leaves the order of equal sort keys open. The model sorts stably by key, so claims about order hold for any tie order, but list contents are fixed by that choice.
- `AdminController.AdminStats`: the revenue-over-time and orders-per-product series are maps, so their output order (by date ascending, by count descending) is not modelled.
- `AdminController.Day`: days are whole multiples of 86,400,000 ms in UTC. The 30-day window is `now` minus 30 such days, and local-time `setDate` across DST changes is not modelled.
- Unseen models: the admin, product, message and counter model files are not part of this model. Only the fields the controllers use are modelled, and their validators, timestamps and the password hashing hook are inferred or left out. A message starts unread.
- `AdminController.AdminStore.Login`: passwords are compared by equality in place of bcrypt, and signing the JWT (secret, 7-day expiry) is left out; the result is the token's claims.
- `AuthMiddleware.Authorize`: verification (signature, expiry, secret) is an abstract function from token to claims. A non-string or falsy non-empty id (such as the number 0) is not distinguished.
- `AdminController.AdminStore.ChangePassword` and `AdminController.AdminStore.UpdateEmail`: a validation error from saving the admin, answered with its joined messages, is not modelled, because the admin model's validators are not part of this model.
- `AdminController.ProductStore.AddProduct`: the upload middleware's "Only images" error is not modelled; the image is an optional path.
- `MessageController.MessageStore.CreateMessage`: the notification's fixed admin address is a parameter, `adminInbox`.
- `OrderController.PlaceOrder`: the mail bodies and the PDF layout are not modelled; the effects carry the order and the payment details they show. Saving fails only on a duplicate number, because an accepted request always passes the schema.
- Database failures: a thrown `find`, `findOne`, `findById`, `save`, `countDocuments`, `aggregate` or `getNextSequence` is answered 500 "Server error" by each handler's catch block. This catch-all 500 is not modelled for `placeOrder`, `getOrders`, `getOrderById`, `updateOrderStatus`, `loginAdmin`, `changePassword`, `updateEmail`, `addProduct`, `editProduct`, `deleteProduct`, `getAllProducts`, `getAdminStats`, `getAdminProfile`, `forgotPassword`, `resetPassword`, `getAccount`, `updateAccount`, `createMessage`, `getMessages`, `toggleReadStatus`, `deleteMessage` or `replyToMessage`, because the database is modelled as never failing. The 500 answers that the model does state come from a failed mail send, a duplicate order number or a negative skip. `verifyResetToken` has no catch block, so a failed lookup there is an unhandled promise rejection that sends no answer; the model does not cover that either.
- MigrateOrders.MigrateOrders: one `now` stamps every save of a run, whereas the script reads the clock afresh for each save, so later saves may carry later `updatedAt` times.
- Configuration and plumbing: the server setup, routes, documentation comments, upload configuration, seeds and the superseded order controller in `i.js` are not part of this model.

## Findings

| source | as written | input that shows it | evidently intended | confidence | as-written member | corrected member |
|---|---|---|---|---|---|---|
| setCounter.js:10-29 | the highest order number is found by a descending sort on the `orderNumber` string, then read with `parseInt` | stored numbers "999999" and "1000000": "999999" sorts highest, so the counter is set to 999999 and the next allocation repeats "1000000" | re-seed the counter from the numerically largest stored number, so the next allocation never collides | medium, not executed (numbers reach seven digits only after the millionth order) | SetCounter.SetCounter | SetCounter.SetCounterNumeric |
