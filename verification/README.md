# Inventa — a Dafny model of the borrowing API and the client's pure helpers

Inventa is a campus equipment-lending system. An Express/Prisma API keeps three tables
that move together. Items have a stock counter, `available`. Users have two borrowing
counters. Borrowings carry a status. The API also lists and pages the catalogue,
validates request bodies, authenticates callers with a bearer token, computes dashboard
figures and maps exceptions to HTTP answers. A React Native client repeats some of this
logic in small helpers: form checks, list filters, label maps, dashboard sums and the
quantity stepper.

The model covers all of that in Dafny. Each part keeps the form it has in the source:

- **The store.** The tables are sequences in creation order inside one class,
  `Schema.Database`. `Valid()` says that primary keys are unique.
- **Handlers that write rows.** These are methods that `modifies db`: create/update a
  borrowing, the overdue sweep, create/update/delete an item, create/delete a category,
  register, update a profile, change a password. Each states its whole new state. A
  handler whose Prisma transaction fails leaves the store unchanged.
- **Queries and decisions.** These are functions with named results: listings,
  pagination, merges, validators, the error handler, statistics and the client helpers.
- **Outcomes.** A handler returns `Outcome<T>`, which is `Ok(value)` or `Thrown(error)`.
  Its HTTP status is then `ErrorMiddleware.StatusCode` of the error, so every "fails
  with 404" below is stated through the error middleware's own mapping.
- **Library calls.** bcrypt, JWT, `isEmail`, the ISO-8601 parse and the clock are
  function-typed or integer parameters.

Other parts of the repository describe a request-and-approve flow: the client announces a
new borrowing "dengan status PENDING" awaiting the admin's approval
(apps/mobile/src/screens/ItemDetailScreen.tsx:67), and item deletion treats `APPROVED`
rows as lent out (apps/api/src/controllers/item.controller.ts:185). The model follows the
API's code, which differs:

- a borrowing is created directly as `ACTIVE`, and stock is taken at creation;
- the overdue sweep turns `ACTIVE` rows, not `APPROVED` rows, into `OVERDUE`;
- a status update has no transition guard.

So `available <= total` is not an invariant of the model. `ReturnTwiceRestoresTwice`
shows a run of `RETURNED`, then `APPROVED`, then `RETURNED` that ends with more units on
the shelf than the item has. `UpdateBorrowingStatusFinal` is the update with `RETURNED`
kept terminal, and `ReturnOnceRestoresOnce` shows the same run ending within the total
(see "## Findings").

The item card, the item detail screen and the two dashboards read `item.available` and
`item.total`, as the API rows have them, although the client's declared TypeScript type
names these fields `availableQuantity` and `quantity`. The model gives these screens the
API's `Schema.Item`. The admin's item-management screen uses the declared names instead:
it reads `item.quantity` to prefill the edit dialog
(apps/mobile/src/screens/ManageItemsScreen.tsx:60), which an API row does not have, and
sends `{ quantity }` (line 79), a field the API's merge does not read.

## Model

| member | source | states |
|---|---|---|
| ErrorMiddleware.NewAppError | apps/api/src/middleware/error.middleware.ts:4-15 | an application error keeps its message and status code, and is marked operational |
| ErrorMiddleware.StatusCode | apps/api/src/middleware/error.middleware.ts:17-57 | P2002 maps to 409, P2025 to 404, an application error to its own code, and every other Prisma code or unexpected error to 500 |
| ErrorMiddleware.ErrorHandler | apps/api/src/middleware/error.middleware.ts:17-57 | the response carries that status and `success: false`; the message is the fixed text of each branch, or the application error's own; raw detail is attached exactly for a non-operational error in development |
| ErrorMiddleware.NotFoundHandler | apps/api/src/middleware/error.middleware.ts:59-68 | answers 404 with the requested URL embedded verbatim in the message |
| BorrowingController.ListBorrowings | apps/api/src/controllers/borrowing.controller.ts:11-42 | with no status or `all`, keeps every row of the owner (of everyone for the admin listing at lines 47-85); otherwise exactly the rows with that status, in newest-first order; an unknown status name fails with 500 |
| BorrowingController.SelectedIffRequested | apps/api/src/controllers/borrowing.controller.ts:13-19 | once the status name is read as an enum value, the `where` object selects a row iff it belongs to the owner (when one is given) and its status is named by the query (when it narrows) |
| BorrowingController.ListedAreSound | apps/api/src/controllers/borrowing.controller.ts:13-36 | every listed row is a row of the table that belongs to the owner and has the requested status |
| BorrowingController.ListedAreComplete | apps/api/src/controllers/borrowing.controller.ts:13-36 | every row of the table that belongs to the owner and has the requested status is listed |
| BorrowingController.ListedInTableOrder | apps/api/src/controllers/borrowing.controller.ts:22-36 | read back to front, the listing keeps the table's own order (newest first) |
| BorrowingController.GetBorrowingStats | apps/api/src/controllers/borrowing.controller.ts:277-294 | total is the row count; active, overdue and returned count their statuses and together stay within the total |
| BorrowingController.CreateBorrowing | apps/api/src/controllers/borrowing.controller.ts:90-161 | a missing item gives 404 and a short stock gives 400, neither changing anything; on success exactly one ACTIVE borrowing is appended, only that item loses `quantity` units (staying at or above 0), and only the borrower's two counters rise by one |
| BorrowingController.UpdateBorrowingStatus | apps/api/src/controllers/borrowing.controller.ts:166-243 | an unknown id gives 404 with nothing changed; the row takes exactly the requested status; only a move onto RETURNED from another status stamps the return time, gives the quantity back and lowers the borrower's active counter |
| BorrowingController.ReturnBorrowing | apps/api/src/controllers/borrowing.controller.ts:189-209 | when the item or the borrower is gone the update fails with 404 `Data tidak ditemukan` and nothing changes; otherwise the row becomes RETURNED with the return time, the item gets the quantity back, the borrower's active counter drops by one, and no other row or table changes |
| BorrowingController.MarkOverdue | apps/api/src/controllers/borrowing.controller.ts:248-272 | exactly the ACTIVE rows due before today's midnight become OVERDUE, the others are unchanged, and none is left overdue-eligible |
| BorrowingController.MarkOverdueIdempotent | apps/api/src/controllers/borrowing.controller.ts:248-272 | a second sweep at the same midnight changes nothing |
| BorrowingController.MarkOverdueKeepsIdentity | apps/api/src/controllers/borrowing.controller.ts:248-272 | the sweep keeps every row's id, borrower, item and quantity |
| BorrowingController.CheckOverdueBorrowings | apps/api/src/controllers/borrowing.controller.ts:248-272 | the new table is the sweep of the old one, the reported count is the number of overdue-eligible rows, and no other table changes |
| BorrowingController.ReturnTwiceRestoresTwice | apps/api/src/controllers/borrowing.controller.ts:189-209 | RETURNED, APPROVED, RETURNED on one borrowing of 3 units leaves an item of 5 units with 8 available |
| BorrowingController.ReapproveThenReturn | apps/api/src/controllers/borrowing.controller.ts:184-209 | re-approving a returned borrowing and returning it again gives its quantity back a second time |
| BorrowingController.UpdateBorrowingStatusFinal | apps/api/src/controllers/borrowing.controller.ts:166-243 | the status update with RETURNED terminal: 404 for an unknown id; a returned borrowing asked for another status gets 400 and nothing changes; a returned borrowing never moves stock or counters again; every other request has the effect of the update as written |
| BorrowingController.ReturnOnceRestoresOnce | apps/api/src/controllers/borrowing.controller.ts:184-209 | under the terminal RETURNED, the run RETURNED, APPROVED, RETURNED leaves the item of 5 units with exactly 5 available |
| ItemController.BuildWhere | apps/api/src/controllers/item.controller.ts:18-33 | an item passes the filter iff the search is absent or occurs case-insensitively in its name or description, the category is absent, `Semua` or equal, and `available=true` implies stock above 0 |
| ItemController.TotalPages | apps/api/src/controllers/item.controller.ts:61 | the page count is the ceiling of total over limit, and absent when the limit is 0 |
| ItemController.Matching | apps/api/src/controllers/item.controller.ts:18-51 | every row listed comes from the table and passes all three filter conditions, every table row that passes them is listed, the listing read back to front keeps the table order (newest first), and its length (the reported total) is the count of passing rows |
| ItemController.Page | apps/api/src/controllers/item.controller.ts:38-40 | a page is the window of at most `limit` rows starting at `skip` |
| ItemController.Paginate | apps/api/src/controllers/item.controller.ts:10-64 | an unparsable page or limit, or a negative skip, fails with 500, and so does a negative limit, which the source reads as paging from the end (see Left out); otherwise the data is the page of the matching rows at `(page-1)*limit` and the pagination echoes page, limit, total and page count |
| ItemController.PageMatches | apps/api/src/controllers/item.controller.ts:42-51 | whatever `skip` and `take`, every row of the page is a table row that passes the filter |
| ItemController.ListItems | apps/api/src/controllers/item.controller.ts:10-16 | `page` and `limit` are parsed with the defaults `1` and `50`; a bad pair fails with 500; otherwise the answer echoes them, reports the size of the whole match, and holds at most `limit` rows, each a table row that passes the filter |
| ItemController.ListItemsDefaults | apps/api/src/controllers/item.controller.ts:11-15 | without page and limit the listing is page 1 of 50, the first 50 matching rows |
| ItemController.GetItemById | apps/api/src/controllers/item.controller.ts:69-92 | returns the item with that id, and fails with 404 exactly when none has it |
| ItemController.ItemFromBody | apps/api/src/controllers/item.controller.ts:100-110 | copies the body's fields; image defaults to 📦 and condition to BAIK when not supplied |
| ItemController.CreateItem | apps/api/src/controllers/item.controller.ts:97-127 | appends exactly that item, touching nothing else; a missing creator fails with 500 and changes nothing |
| ItemController.MergeItem | apps/api/src/controllers/item.controller.ts:146-155 | name, category, condition and location are replaced only by truthy values; description, image, total and available only by defined ones; id and creator are kept |
| ItemController.MergeItemIdempotent | apps/api/src/controllers/item.controller.ts:146-155 | applying the same patch twice equals applying it once |
| ItemController.MergeEmptyPatch | apps/api/src/controllers/item.controller.ts:146-155 | a body with none of the fields leaves the item unchanged |
| ItemController.UpdateItem | apps/api/src/controllers/item.controller.ts:132-171 | an unknown id gives 404 with nothing changed; otherwise only that row becomes the merge |
| ItemController.DeleteItem | apps/api/src/controllers/item.controller.ts:176-210 | 404 for an unknown id; 400 while an APPROVED or OVERDUE borrowing holds the item (ACTIVE ones do not count); a 500 foreign-key failure with nothing changed while any other borrowing refers to it; otherwise exactly that row is removed, and no borrowing refers to the removed id |
| ItemController.GetPopularItems | apps/api/src/controllers/item.controller.ts:215-234 | at most `limit` items (default 4), all with total above 0, in ascending order of stock, and none left out that has less stock than one returned; an unparsable or negative limit fails with 500 (for a negative one the source reads from the end; see Left out) |
| ItemController.TakeOfSorted | apps/api/src/controllers/item.controller.ts:220-225 | a prefix of the stock-ordered list is ordered, a sub-multiset, and beats every item it leaves out |
| CategoryController.GetAllCategories | apps/api/src/controllers/category.controller.ts:10-19 | returns a permutation of the categories in ascending name order |
| CategoryController.CreateCategory | apps/api/src/controllers/category.controller.ts:24-39 | appends exactly one category with the given name and icon, touching no other table; a taken name breaks uniqueness and fails with 409 without change |
| CategoryController.DeleteCategory | apps/api/src/controllers/category.controller.ts:44-67 | as written: 400 without change when some item's category equals the id; otherwise exactly that category is removed, or 404 when absent |
| CategoryController.DeleteCategoryInUseByName | apps/api/src/controllers/category.controller.ts:47-57 | deleting a category by id succeeds while an item still carries its name |
| CategoryController.DeleteCategoryByName | apps/api/src/controllers/category.controller.ts:44-67 | with the guard on the category's name: 404 when absent, 400 while an item is filed under its name, else removal, after which no item is filed under the removed name |
| AuthController.View | apps/api/src/controllers/auth.controller.ts:41-53 | the user as answered: every stored field but the password |
| AuthController.NewUser | apps/api/src/controllers/auth.controller.ts:27-40 | stores the hash of the password, defaults the role to USER, and starts both counters at 0 |
| AuthController.Register | apps/api/src/controllers/auth.controller.ts:12-71 | 409 without change when any user has the same email or NIM; otherwise exactly the new user is appended and answered without its password |
| AuthController.Login | apps/api/src/controllers/auth.controller.ts:76-115 | success exactly when the first user whose email or NIM equals the submitted login verifies the password, and then the session is that user's view and token; a later matching user is never admitted; no match and a wrong password both give the same 401 |
| AuthController.GetMe | apps/api/src/controllers/auth.controller.ts:120-148 | the caller's row without the password, and 404 exactly when the id is unknown |
| AuthController.MergeProfile | apps/api/src/controllers/auth.controller.ts:156-163 | name changes only to a non-empty value, phone, faculty and program only when provided; NIM, email, role, password and counters never change |
| AuthController.UpdateProfile | apps/api/src/controllers/auth.controller.ts:153-184 | 404 without change for an unknown user; otherwise only that row becomes the merge |
| AuthController.ChangePassword | apps/api/src/controllers/auth.controller.ts:189-221 | 404 for a missing user and 401 when the current password does not verify, neither changing anything; otherwise only the password changes, to the hash of the new one |
| AuthMiddleware.ExtractToken | apps/api/src/middleware/auth.middleware.ts:18 | a token exists exactly when the header does |
| AuthMiddleware.ExtractCutsFirst | apps/api/src/middleware/auth.middleware.ts:18 | for every header, the token is the header with its first `Bearer ` removed, wherever that occurrence is, and the rest kept |
| AuthMiddleware.ExtractBearer | apps/api/src/middleware/auth.middleware.ts:18 | removing the scheme from `Bearer <t>` gives `<t>` |
| AuthMiddleware.ExtractWithoutScheme | apps/api/src/middleware/auth.middleware.ts:18 | a header without `Bearer ` is taken whole as the token |
| AuthMiddleware.ExtractFromMiddle | apps/api/src/middleware/auth.middleware.ts:18 | the concrete header `xBearer abc` yields the token `xabc`: the scheme need not lead |
| AuthMiddleware.AuthRequest.Authenticate | apps/api/src/middleware/auth.middleware.ts:12-36 | 401 for a missing or empty token and for one that does not verify, leaving the request's user unset; otherwise stores the decoded payload and passes on |
| AuthMiddleware.RequireAdmin | apps/api/src/middleware/auth.middleware.ts:38-58 | passes exactly an authenticated ADMIN; 401 without a user, 403 for any other role |
| ItemValidator.CreateItemErrors | apps/api/src/validators/item.validator.ts:3-25 | no error iff name, category and location are non-blank, total and available are integers of at least 0, available does not exceed total, and a present condition is BAIK, CUKUP or RUSAK; each failure carries its message |
| ItemValidator.UpdateItemErrors | apps/api/src/validators/item.validator.ts:27-39 | no error iff every present field meets its create rule; available above total is not checked |
| ItemValidator.UpdateAllowsAvailableAboveTotal | apps/api/src/validators/item.validator.ts:32-33 | an update with total 3 and available 5 passes |
| BorrowingValidator.CreateBorrowingErrors | apps/api/src/validators/borrowing.validator.ts:3-23 | no error iff the item id is non-blank, the quantity an integer of at least 1, and the return date present, ISO 8601 and not before today's midnight |
| BorrowingValidator.ReturnTodayAccepted | apps/api/src/validators/borrowing.validator.ts:13-20 | a return date of today's midnight is accepted |
| BorrowingValidator.UpdateStatusErrors | apps/api/src/validators/borrowing.validator.ts:25-29 | no error iff the status is one of the five listed names, so an accepted status is never ACTIVE |
| BorrowingValidator.ActiveRejected | apps/api/src/validators/borrowing.validator.ts:27 | ACTIVE is refused as a new status |
| AuthValidator.RegisterErrors | apps/api/src/validators/auth.validator.ts:3-25 | no error iff name is non-blank, NIM at least 5 characters after trimming, email well-formed and password at least 6 untrimmed characters; phone, faculty and program are never checked |
| AuthValidator.BlankPasswordLongEnough | apps/api/src/validators/auth.validator.ts:17-21 | six spaces pass as a password, since it is not trimmed |
| AuthValidator.LoginErrors | apps/api/src/validators/auth.validator.ts:27-30 | no error iff the email is non-blank and the password non-empty |
| AuthValidator.UpdateProfileErrors | apps/api/src/validators/auth.validator.ts:32-37 | no error iff the name is absent or non-blank |
| AuthValidator.ChangePasswordErrors | apps/api/src/validators/auth.validator.ts:39-46 | no error iff the current password is non-empty and the new one has at least 6 characters |
| StatsController.SumLent | apps/api/src/controllers/stats.controller.ts:21-35 | the sum of `total - available` equals the total sum minus the available sum |
| StatsController.AggregateSum | apps/api/src/controllers/stats.controller.ts:21-26 | an aggregate sum is missing exactly over no rows, and is otherwise the sum |
| StatsController.OrZero | apps/api/src/controllers/stats.controller.ts:35 | a missing sum reads as 0 |
| StatsController.UserDashboardStats | apps/api/src/controllers/stats.controller.ts:11-49 | items, items in stock, borrowed units as Σtotal − Σavailable, and the caller's total, ACTIVE, RETURNED and OVERDUE borrowings |
| StatsController.OwnStatusesWithinOwn | apps/api/src/controllers/stats.controller.ts:28-31 | the caller's three status counts add up to at most the caller's total |
| StatsController.KeepOwnedWith | apps/api/src/controllers/stats.controller.ts:28-31 | filtering by owner and status at once equals filtering by owner, then by status |
| StatsController.AdminDashboardStats | apps/api/src/controllers/stats.controller.ts:54-84 | stock sums, borrowed stock as their difference, and the ACTIVE and OVERDUE counts |
| StatsController.ActionOf | apps/api/src/controllers/stats.controller.ts:117-129 | ACTIVE gives approve/`meminjam`, RETURNED return/`mengembalikan`, OVERDUE borrow/`terlambat mengembalikan`, any other status borrow/`mengajukan peminjaman` |
| StatsController.NoRejectActivity | apps/api/src/controllers/stats.controller.ts:117-129 | no status yields a reject activity |
| StatsController.ActivityOf | apps/api/src/controllers/stats.controller.ts:131-140 | the description is the user name, the action text and the item name, separated by spaces |
| StatsController.JoinOf | apps/api/src/controllers/stats.controller.ts:131-140 | a row yields no activity exactly when its user or item is missing; otherwise the activity built from that user's and that item's names |
| StatsController.Activities | apps/api/src/controllers/stats.controller.ts:116-141 | one activity per row, activity i being the join of row i, and failure exactly when some row lacks its user or item |
| StatsController.RecentActivities | apps/api/src/controllers/stats.controller.ts:90-147 | an unparsable or negative limit fails with 500 (for a negative one the source reads from the end; see Left out); otherwise at most `limit` activities (default 10), activity i being the join of the i-th newest borrowing, and failure with 500 exactly when one of those newest rows lacks its user or item |
| RegisterScreen.With | apps/mobile/src/screens/RegisterScreen.tsx:73 | sets the named field and keeps the others |
| RegisterScreen.EmailShapedMeans | apps/mobile/src/screens/RegisterScreen.tsx:46 | the search accepts iff some `@` is followed later by a `.`, each with a non-space character on both sides |
| RegisterScreen.EmailShapedAccepts | apps/mobile/src/screens/RegisterScreen.tsx:46 | `a@b.c` matches, and so does an address embedded in spaces |
| RegisterScreen.EmailShapedRejects | apps/mobile/src/screens/RegisterScreen.tsx:46 | `a@b` and `a@.c` do not match |
| RegisterScreen.NameError | apps/mobile/src/screens/RegisterScreen.tsx:42 | a message exactly when the trimmed name is empty |
| RegisterScreen.NimError | apps/mobile/src/screens/RegisterScreen.tsx:43-44 | a message exactly when the trimmed NIM is empty or the raw NIM is shorter than 5 UTF-16 code units (`.length`) |
| RegisterScreen.EmailError | apps/mobile/src/screens/RegisterScreen.tsx:45-46 | a message exactly when the trimmed email is empty or no address shape occurs in it |
| RegisterScreen.PasswordError | apps/mobile/src/screens/RegisterScreen.tsx:48-52 | a message exactly when the password is empty, shorter than 6 UTF-16 code units or unconfirmed; a mismatch always ends as `Password tidak cocok` |
| RegisterScreen.NoMessageAcceptable | apps/mobile/src/screens/RegisterScreen.tsx:39-56 | the form is acceptable iff none of the four field checks has a message |
| RegisterScreen.ValidateForm | apps/mobile/src/screens/RegisterScreen.tsx:39-56 | the recorded messages are the four field checks' messages, phone, faculty and program get none, and the form is valid iff nothing is recorded, iff it is acceptable |
| RegisterScreen.NimPaddingCounts | apps/mobile/src/screens/RegisterScreen.tsx:43-44 | `ab` followed by three spaces passes, since the length is taken before trimming |
| Text.JsLength | apps/mobile/src/screens/RegisterScreen.tsx:44 | `.length` counts UTF-16 code units: between the number of characters and twice it, and equal to it exactly when no character lies outside the Basic Multilingual Plane |
| RegisterScreen.NimCountsCodeUnits | apps/mobile/src/screens/RegisterScreen.tsx:43-44 | two emoji and a letter have length 5, so that NIM gets no message |
| RegisterScreen.SpacePasswordAccepted | apps/mobile/src/screens/RegisterScreen.tsx:48-52 | six spaces typed twice pass |
| RegisterScreen.Cleared | apps/mobile/src/screens/RegisterScreen.tsx:76 | the named field's message is removed and the others are kept |
| RegisterScreen.UpdateField | apps/mobile/src/screens/RegisterScreen.tsx:72-78 | only the named field changes; afterwards that field shows no message and every other message is kept |
| RegisterScreen.UpdateFieldIdempotent | apps/mobile/src/screens/RegisterScreen.tsx:72-78 | typing the same value twice gives the same form and messages as once |
| ItemScreens.BorrowRequest | apps/mobile/src/screens/ItemDetailScreen.tsx:26-41 | refused when nothing is available, when the quantity is NaN or below 1, and when it exceeds stock, each with its message; confirmed exactly otherwise |
| ItemScreens.ConfirmedWithinStock | apps/mobile/src/screens/ItemDetailScreen.tsx:26-41 | a confirmed quantity lies between 1 and the item's stock |
| ItemScreens.CalendarDate.AddDays | apps/mobile/src/screens/ItemDetailScreen.tsx:45 | moves the date by that many calendar days and keeps the time of day |
| ItemScreens.DefaultReturnDate | apps/mobile/src/screens/ItemDetailScreen.tsx:43-45 | the default return date is today plus 7 days, at the same time of day |
| ItemScreens.NumberText | apps/mobile/src/screens/ItemDetailScreen.tsx:175 | the text of a number parses back to it, and `NaN` parses to nothing |
| ItemScreens.Decrement | apps/mobile/src/screens/ItemDetailScreen.tsx:175 | max(1, q−1), and NaN stays NaN |
| ItemScreens.Increment | apps/mobile/src/screens/ItemDetailScreen.tsx:189 | min(available, q+1), and NaN stays NaN |
| ItemScreens.StepDown | apps/mobile/src/screens/ItemDetailScreen.tsx:175 | the new field text parses to the decremented quantity |
| ItemScreens.StepUp | apps/mobile/src/screens/ItemDetailScreen.tsx:189 | the new field text parses to the incremented quantity |
| ItemScreens.StepperStaysInRange | apps/mobile/src/screens/ItemDetailScreen.tsx:175-189 | from a quantity within 1 and the stock, both buttons stay within it |
| ItemScreens.StepperKeepsNaN | apps/mobile/src/screens/ItemDetailScreen.tsx:175-189 | from an unparsable quantity both buttons leave it unparsable |
| ItemScreens.SteppedRequestConfirmed | apps/mobile/src/screens/ItemDetailScreen.tsx:175-189 | a quantity that would be confirmed still is after either button |
| ItemScreens.AvailabilityFigures | apps/mobile/src/screens/ItemDetailScreen.tsx:137-148 | available plus borrowed shown equals the total shown |
| ItemScreens.ConditionLabel | apps/mobile/src/screens/ItemDetailScreen.tsx:99-110 | BAIK, CUKUP and RUSAK get their labels, anything else is shown as it is |
| ItemScreens.ConditionShownRaw | apps/mobile/src/screens/ItemDetailScreen.tsx:99-110 | a condition is shown raw exactly when it is not one of the three |
| ItemScreens.FilteredItems | apps/mobile/src/screens/ManageItemsScreen.tsx:51-56 | an order-preserving subsequence holding exactly the items whose lowercased name or category contains the lowercased query and whose category matches the selection; its length is the count shown (line 151) |
| ItemScreens.EmptyFilterListsAll | apps/mobile/src/screens/ManageItemsScreen.tsx:51-56 | an empty query with `Semua` lists every item |
| ItemScreens.ConfirmEdit | apps/mobile/src/screens/ManageItemsScreen.tsx:69-87 | nothing without a selection; a NaN or negative total is refused; otherwise the parsed total is sent for the selected id |
| ItemScreens.ZeroTotalSent | apps/mobile/src/screens/ManageItemsScreen.tsx:72-79 | a total of 0 is accepted and sent |
| ItemScreens.PickerCategories | apps/mobile/src/screens/AddItemScreen.tsx:112 | the picker offers, in order, every category but `Semua`, and never `Semua` |
| ItemScreens.AddItemError | apps/mobile/src/screens/AddItemScreen.tsx:20-38 | checks name, category, location and quantity in that order; the first failure decides the message, and validation passes iff all four pass |
| ItemScreens.TrailingTextQuantity | apps/mobile/src/screens/AddItemScreen.tsx:33 | a quantity of `3 unit` passes, since parsing stops at the first non-digit |
| ItemScreens.CategoryIcon | apps/mobile/src/components/ItemCard.tsx:13-23 | each of the six categories gets its icon; any other name, `Semua` included, gets `cube-outline` |
| ItemScreens.AvailabilityBadge | apps/mobile/src/components/ItemCard.tsx:26-48 | `<n> Tersedia` when stock is above 0, else `Habis` |
| ItemScreens.BadgeSoldOut | apps/mobile/src/components/ItemCard.tsx:26-48 | the badge reads `Habis` exactly when nothing is in stock |
| ItemScreens.TotalLine | apps/mobile/src/components/ItemCard.tsx:69 | the line embeds the item's total, which parses back from it |
| BorrowingScreens.GetStatusInfo | apps/mobile/src/components/BorrowingCard.tsx:11-56 | each of the five status names gets its label, colour, icon and background; any other status is shown as itself in gray |
| BorrowingScreens.ActiveShownRaw | apps/mobile/src/components/BorrowingCard.tsx:48-54 | the API's ACTIVE status falls to the default branch and is shown raw |
| BorrowingScreens.CardItemName | apps/mobile/src/components/BorrowingCard.tsx:60 | the item's name, or `Item` when none is attached or it is empty |
| BorrowingScreens.FilterByTab | apps/mobile/src/screens/ManageBorrowingsScreen.tsx:12-15 | `all` keeps every row; any other tab keeps, in order, exactly the rows with that status |
| BorrowingScreens.FilterByTabIdempotent | apps/mobile/src/screens/ManageBorrowingsScreen.tsx:12-15 | filtering twice by one tab equals filtering once |
| BorrowingScreens.ManageCounts | apps/mobile/src/screens/ManageBorrowingsScreen.tsx:17-22 | all is the list length, and active, overdue and returned are the lengths of those tabs, together at most all |
| BorrowingScreens.ActionFor | apps/mobile/src/screens/ManageBorrowingsScreen.tsx:27-42 | `active` rows get the approve-return action, `overdue` rows the reminder, others none |
| BorrowingScreens.MyCounts | apps/mobile/src/screens/MyBorrowingsScreen.tsx:16-35 | the active count is the `active` tab's length and the total the full list's |
| BorrowingScreens.AdminDashboard | apps/mobile/src/screens/AdminDashboardScreen.tsx:15-22 | item count, Σtotal, Σavailable, borrowed stock as their difference, and the `active` and `overdue` counts |
| BorrowingScreens.AdminDashboardAgreesWithServer | apps/mobile/src/screens/AdminDashboardScreen.tsx:15-22 | the client's stock figures equal the admin statistics the API computes |
| BorrowingScreens.ActivityLabel | apps/mobile/src/screens/AdminDashboardScreen.tsx:168-169 | `active` reads `Sedang dipinjam`, `overdue` `Terlambat`, anything else `Dikembalikan` |
| BorrowingScreens.ActivityDot | apps/mobile/src/screens/AdminDashboardScreen.tsx:162-163 | primary for `active`, error for `overdue`, success otherwise |
| BorrowingScreens.RecentActivity | apps/mobile/src/screens/AdminDashboardScreen.tsx:158-170 | the first three rows at most, each with its item and label |
| BorrowingScreens.HomeStats | apps/mobile/src/screens/HomeScreen.tsx:17-21 | item count, items in stock, and borrowed units as Σtotal − Σavailable |
| BorrowingScreens.HomeAgreesWithServer | apps/mobile/src/screens/HomeScreen.tsx:17-21 | the home figures equal the item part of the user statistics the API computes |
| BorrowingScreens.PopularItems | apps/mobile/src/screens/HomeScreen.tsx:16 | the first four items, or all of them when fewer |

## Left out

- The Prisma schema is not part of this model. Referential actions, column defaults and
  unique constraints come from it, so they are assumed as follows. A borrowing's
  `borrowDate` is the `now` parameter, and new counters are 0. A borrowing for a missing
  user fails as a foreign-key error, which is a 500. Ids are supplied fresh by the caller.
- A table is a sequence in creation order. `orderBy createdAt desc` is its reverse, and
  the order among equal sort keys is unspecified in the source and not modelled. Name
  ordering compares code points, not the database collation.
- Each `$transaction` is one atomic step, and a failed one changes nothing. The stock
  check at borrowing.controller.ts:102 runs before the transaction, so it can race with
  another request. Concurrency is not modelled.
- bcrypt, JWT signing and verification, `isEmail`, the ISO-8601 parse and the clock are
  parameters. Their own behaviour is not modelled.
- `parseInt` is modelled as a decimal parse after leading white space and a sign. A
  `0x` prefix and exponents are not modelled. White space and case folding are ASCII only.
- A negative `skip` (a page below 1 with a positive limit) makes Prisma reject the
  query, which is a 500 as modelled.
- ItemController.Paginate: a negative `limit` becomes a negative `take`, with which Prisma
  returns rows from the end of the ordered list; the model answers 500 instead.
- ItemController.GetPopularItems: a negative `limit` is a negative `take` here too; the
  source returns rows from the end of the list, the model answers 500.
- StatsController.RecentActivities: likewise, a negative `limit` gives the oldest rows in
  the source and a 500 in the model.
- Request bodies reach the controllers already split into fields. express-validator's
  sanitising, and its handling of numbers sent as strings, are not composed with the
  controllers. A JSON `null` is not distinguished from an absent field. Express query
  arrays are not modelled.
- ItemValidator.CreateItemErrors: the `available > total` comparison is made on the
  parsed integers; the source compares the raw body values.
- AuthController.Register: it stores any `role` the body supplies, as the source does.
  Nothing restricts it to USER or ADMIN.
- CategoryController.CreateCategory: the 409 for a taken name assumes a unique `name`
  column, since the schema is not part of this model; the handler itself checks nothing.
- AuthController.Login: `findFirst` without an ordering is taken to return the first row
  in table order.
- StatsController.ActivityOf: the `timestamp` field of an activity is not modelled.
- ItemScreens.CalendarDate.AddDays: dates are calendar days plus the time of day.
  Daylight-saving shifts inside `setDate` and `toLocaleDateString` formatting are not
  modelled.
- ItemController.DeleteItem: the Prisma schema is not part of this model, so the
  referential action on a borrowing's item is taken to be Prisma's default for a required
  relation (restrict): deleting an item that any borrowing still refers to fails with the
  foreign-key error P2003, a 500. A cascading schema would instead delete those borrowings.
- The edit dialog of the item-management screen: the prefill from `item.quantity` and the
  display of `availableQuantity` are not modelled; `ItemScreens.ConfirmEdit` models what
  the dialog sends once a total is typed.
- ItemScreens.CategoryIcon: names such as `constructor` reach the object prototype of
  the icon record in JavaScript. The model maps every name outside the category list to
  `cube-outline`.
- Colours, icons, layout and the JSX around the helpers are not modelled, beyond the
  values the helpers return. Alerts are the values returned by the decisions, not dialogs.
- The client's mock item and borrowing lists are taken as sequence parameters. The
  client's HTTP, storage and navigation layers, route wiring, server start-up and the
  seed script are not modelled.
- The admin listing's search by name or description on the server and the client's
  filter by name or category are different predicates. Each is modelled as written.

## Findings

| source | as written | input that shows it | evidently intended | confidence | as-written member | corrected member |
|---|---|---|---|---|---|---|
| apps/api/src/controllers/category.controller.ts:48-57 | the in-use guard counts items whose `category` equals the category's id, but items store the category's name (seed.ts:111) | category `cat-1` named `Elektronik`, and one item filed under `Elektronik`: deleting `cat-1` succeeds | refuse deletion while any item is filed under the category's name | high (not executed) | CategoryController.DeleteCategoryInUseByName | CategoryController.DeleteCategoryByName |
| apps/api/src/controllers/borrowing.controller.ts:184-209 | a borrowing moved from RETURNED back to APPROVED takes no stock, so returning it again gives its quantity back a second time; only RETURNED to RETURNED is guarded (line 189) | an item of 5 units, 2 on the shelf, with one ACTIVE borrowing of 3: RETURNED, then APPROVED, then RETURNED leaves 8 available | RETURNED is terminal, so the quantity comes back once and `available <= total` holds | medium (not executed) | BorrowingController.ReturnTwiceRestoresTwice | BorrowingController.ReturnOnceRestoresOnce |
