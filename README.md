# ShareIt business rules in Dafny

ShareIt is a service where users share items:
- a user lists an item;
- other users book it for an interval;
- the owner approves or rejects the booking;
- users who have booked can leave comments.

This project models the rules of that service and proves what they guarantee:

- **Booking engine** (module `BookingService`):
  - the checks on a new booking, in their fixed order;
  - the one-step status change WAITING → APPROVED or REJECTED;
  - the rule that only the booker and the item's owner may see a booking;
  - the listings of a booker's or an owner's bookings, filtered by ALL, WAITING, REJECTED, PAST, CURRENT or FUTURE relative to `now`.
- **Page requests** (module `Pagination`):
  - `CustomPageable`, with its null defaults and range check;
  - its `next`/`withPage` arithmetic in Java `int`, wrap-around included.
- **Item and user services of the database-backed server** (modules `ItemService` and `UserService`):
  - patch updates, which only the owner may make;
  - the owner's view of an item, with its last and next bookings;
  - a user's items by ascending id;
  - the keyword search;
  - the comment rule;
  - the email conflict check on user update.
- **In-memory stores of the first version** (modules `ItemStorage` and `UserStorage`). Each is a class holding a map from id to entity and an id counter. Its methods modify that state.

Supporting modules:
- `Common`: option, result and check values. `Error` stands for the exceptions the code throws: NotFound, BadRequest, Conflict, and a null dereference or null unboxing (`NullPointer`).
- `Sequences`: filter, a verified insertion sort standing for ORDER BY, and OFFSET/LIMIT windows.
- `Text`: case mapping and substring search.
- `Entities`: the persistent records.
- `Store`: the database, as one `Repository` object whose tables the state-changing service methods modify.

Time is an integer:
- `isBefore` is `<` and `isAfter` is `>`.
- The clock is read once: `now` is a parameter of each call.
- Read-only service operations are functions or read-only methods over the table values. The operations that save something are methods on the `Repository`.

Where the design and the code differ, the model follows the code:
- **A case-insensitive state check with a case-sensitive switch.**
  - An unknown state is refused by `ObjectUtils.containsConstant`, which ignores case.
  - The following `switch` is case-sensitive.
  - So `past`, or any other state name in lower case, passes the check and then lists nothing (`LowerCaseStateIsKnownButUnparsed`).
  - So does `WAİTING`, spelt with a capital I with dot above, which equalsIgnoreCase matches through its lower case `i` (`DottedCapitalIStateIsKnownButUnparsed`).
- **An owner booking their own item gets NotFound**, not BadRequest.
- **The comment check ignores the item and the status.** The error message refers to "this item", yet the check looks at any ended booking of the user.
- **Paged repository signatures.** `ItemService` calls the paged `findAllByOwner` and `searchItems`. These are declared in server/src/main/java/ru/practicum/shareit/item/storage/ItemRepository.java, and that declaration is the one modelled.

## Model

| member | source | states |
|---|---|---|
| Pagination.CustomPageable.GetPageNumber | server/src/main/java/ru/practicum/shareit/util/CustomPageable.java:32-34 | the page number is always 0 |
| Pagination.CustomPageable.GetPageSize | server/src/main/java/ru/practicum/shareit/util/CustomPageable.java:37-39 | the page size is the limit |
| Pagination.CustomPageable.GetOffset | server/src/main/java/ru/practicum/shareit/util/CustomPageable.java:42-44 | the offset, widened, is the stored offset |
| Pagination.CustomPageable.Next | server/src/main/java/ru/practicum/shareit/util/CustomPageable.java:52-54 | keeps the limit; the offset becomes offset + limit wrapped to 32 bits, which is exactly offset + limit when that fits in an int |
| Pagination.CustomPageable.PreviousOrFirst | server/src/main/java/ru/practicum/shareit/util/CustomPageable.java:57-59 | equal to the receiver |
| Pagination.CustomPageable.First | server/src/main/java/ru/practicum/shareit/util/CustomPageable.java:62-64 | equal to the receiver |
| Pagination.CustomPageable.WithPage | server/src/main/java/ru/practicum/shareit/util/CustomPageable.java:67-69 | keeps the limit; the offset is offset + limit * n wrapped to 32 bits (each Java int operation wraps, and the composite equals a single wrap), exact when it fits |
| Pagination.CustomPageable.HasPrevious | server/src/main/java/ru/practicum/shareit/util/CustomPageable.java:72-74 | always false |
| Pagination.Of | server/src/main/java/ru/practicum/shareit/util/CustomPageable.java:20-29 | two nulls mean (0, 50); with both present it succeeds iff from >= 0 and size > 0, and then offset and page size are from and size; otherwise it fails with BadRequest; a single null unboxed before the range check gives NullPointer, unless `from < 0` short-circuits first; every accepted request has offset >= 0 and limit > 0 |
| Pagination.OfEqualIff | server/src/main/java/ru/practicum/shareit/util/CustomPageable.java:8-18 | two accepted requests are equal exactly when built from equal arguments (structural equality) |
| Pagination.OfDefaults | server/src/main/java/ru/practicum/shareit/util/CustomPageable.java:21-24 | of(null, null) equals of(0, 50) |
| Pagination.NextIsWithPageOne | server/src/main/java/ru/practicum/shareit/util/CustomPageable.java:52-69 | next() equals withPage(1), overflow included |
| BookingService.CheckBookingBeforeSave | src/main/java/ru/practicum/shareit/booking/service/BookingService.java:49-65 | fails with NotFound iff the booker owns the item; passes iff non-owner, item available and now <= start <= end (equal instants accepted); every other failure is BadRequest |
| BookingService.OwnerBookingAlwaysNotFound | src/main/java/ru/practicum/shareit/booking/service/BookingService.java:50-52 | the ownership check wins whatever the availability and interval |
| BookingService.CreateBooking | src/main/java/ru/practicum/shareit/booking/service/BookingService.java:38-47 | missing user, then missing item, give NotFound, then the check's outcome; on success the booking saved is (next id, start, end, WAITING, requested item, caller) appended to the table and the id counter advances; on failure nothing changes; the table invariant is kept |
| BookingService.GetBooking | src/main/java/ru/practicum/shareit/booking/service/BookingService.java:68-80 | Ok iff the booking exists and the caller is its booker or the item's owner; the result is the stored booking with that id; every failure is NotFound |
| BookingService.Decide | src/main/java/ru/practicum/shareit/booking/service/BookingService.java:85-91 | a booking not WAITING gives BadRequest before ownership is looked at; a non-owner gets NotFound; success iff WAITING and owner; the new status is APPROVED iff approve, otherwise REJECTED; no other field changes |
| BookingService.ApproveResult | src/main/java/ru/practicum/shareit/booking/service/BookingService.java:83-91 | a missing booking gives NotFound; otherwise the decision on the stored booking and its item's owner |
| BookingService.ApproveBooking | src/main/java/ru/practicum/shareit/booking/service/BookingService.java:83-93 | returns the decision and, on success, saves the decided booking over the row with its id; on failure the table is unchanged |
| BookingService.ReplacedIsFound | src/main/java/ru/practicum/shareit/booking/service/BookingService.java:92 | after saving a booking over its row, ids stay unique and a lookup by that id finds the saved booking |
| BookingService.SecondDecisionFails | src/main/java/ru/practicum/shareit/booking/service/BookingService.java:85-87 | after a successful approval or rejection, any further decision on the booking, by anyone, fails with BadRequest |
| BookingService.ApproveThenGet | src/main/java/ru/practicum/shareit/booking/service/BookingService.java:83-93 | after the owner approves, the booker reads the booking back with status APPROVED |
| BookingService.ParseState | src/main/java/ru/practicum/shareit/booking/service/BookingService.java:107-149 | the switch takes a branch only on an exact state name, otherwise the default |
| BookingService.ParsedIsKnown | src/main/java/ru/practicum/shareit/booking/service/BookingService.java:95-98 | every name the switch handles passes the state check |
| BookingService.LowerCaseStateIsKnownButUnparsed | src/main/java/ru/practicum/shareit/booking/service/BookingService.java:96-107 | every state name written in lower case passes the case-insensitive check but reaches the default branch |
| BookingService.DottedCapitalIStateIsKnownButUnparsed | src/main/java/ru/practicum/shareit/booking/service/BookingService.java:96-107 | "WAİTING" (capital I with dot above) passes the case-insensitive check but reaches the default branch |
| BookingService.CheckStateAndUser | src/main/java/ru/practicum/shareit/booking/service/BookingService.java:95-101 | an unknown state gives BadRequest before the user lookup; for a known state it passes iff the user exists, otherwise NotFound |
| BookingService.ByEndDesc | src/main/java/ru/practicum/shareit/booking/storage/BookingRepository.java:22 | ORDER BY end DESC: ordered by end descending and a permutation of its input |
| BookingService.BookerBookings | src/main/java/ru/practicum/shareit/booking/storage/BookingRepository.java:22-24 | exactly the booker's bookings, each as often as in the table (a permutation of the filtered table), latest end first |
| BookingService.OwnerBookings | src/main/java/ru/practicum/shareit/booking/storage/BookingRepository.java:26-32 | exactly the bookings whose item the owner owns (join on the item table), each as often as in the table (a permutation of the filtered table), latest end first |
| BookingService.Page | src/main/java/ru/practicum/shareit/booking/storage/BookingRepository.java:22-32 | OFFSET/LIMIT: the rows of the ordered result from `offset` on, `limit` of them or all that remain, none past the end |
| BookingService.CollectMatching | src/main/java/ru/practicum/shareit/booking/service/BookingService.java:119-146 | the loop appending each kept booking of the page returns exactly the page filtered, in page order |
| BookingService.SelectByState | src/main/java/ru/practicum/shareit/booking/service/BookingService.java:107-149 | the switch's result equals the branch selection on the ordered query |
| BookingService.GetAllBookingByUser | src/main/java/ru/practicum/shareit/booking/service/BookingService.java:104-150 | unknown state gives BadRequest, then missing user gives NotFound, then Of's error; otherwise the selection for the parsed state over the booker's bookings |
| BookingService.GetAllBookingByOwner | src/main/java/ru/practicum/shareit/booking/service/BookingService.java:153-194 | the same over the owner's bookings |
| BookingService.TimeFiltersOfPage | src/main/java/ru/practicum/shareit/booking/service/BookingService.java:119-146 | PAST, CURRENT and FUTURE are order-preserving subsequences of the page and keep exactly its bookings with end < now, start < now < end and now < end |
| BookingService.CurrentWithinFuture | src/main/java/ru/practicum/shareit/booking/service/BookingService.java:128-146 | CURRENT is contained in FUTURE; PAST and FUTURE are disjoint |
| BookingService.SelectOrdered | src/main/java/ru/practicum/shareit/booking/service/BookingService.java:107-149 | every state's listing is at most one page and keeps the end-descending order |
| BookingService.BookerListingBelongsToBooker | src/main/java/ru/practicum/shareit/booking/service/BookingService.java:108-118 | every listed booking is a stored booking of the caller; WAITING and REJECTED list only bookings in that status |
| BookingService.OwnerListingBelongsToOwner | src/main/java/ru/practicum/shareit/booking/service/BookingService.java:157-165 | every booking listed for an owner is a stored booking of one of the owner's items; WAITING and REJECTED list only bookings in that status |
| BookingService.EndDescendingIsSorted | src/main/java/ru/practicum/shareit/booking/storage/BookingRepository.java:22 | ordered by end descending is ascending order of the negated end |
| Entities.FindItem | src/main/java/ru/practicum/shareit/item/service/ItemService.java:81-84 | findById: a found item is in the table with that id; none is found iff no row has the id |
| Entities.FindBooking | src/main/java/ru/practicum/shareit/booking/service/BookingService.java:77-80 | the same for bookings |
| Entities.OwnerOf | src/main/java/ru/practicum/shareit/booking/service/BookingService.java:70-71 | the owner of the booked item, present iff the item exists |
| Entities.ApplyPatch | src/main/java/ru/practicum/shareit/item/service/ItemService.java:109-117 | each of name, description and availability is the patch's value when non-null and the old value otherwise; id, owner and request never change |
| Entities.ApplyPatchIdempotent | src/main/java/ru/practicum/shareit/item/service/ItemService.java:109-117 | applying a patch twice is applying it once; an all-null patch changes nothing |
| ItemService.CreateItem | src/main/java/ru/practicum/shareit/item/service/ItemService.java:41-52 | NotFound when the owner is missing or a named request is missing; otherwise the saved item carries the owner, the request and the next id, appended to the table |
| ItemService.UpdateItem | src/main/java/ru/practicum/shareit/item/service/ItemService.java:104-119 | NotFound and no change when the item is missing or the caller is not its owner; otherwise the patched item replaces the stored row |
| ItemService.ItemComments | src/main/java/ru/practicum/shareit/item/service/ItemService.java:65-68 | exactly the comments of the item |
| ItemService.ItemBookings | src/main/java/ru/practicum/shareit/booking/storage/BookingRepository.java:16-18 | exactly the bookings of the item |
| ItemService.LastBooking | src/main/java/ru/practicum/shareit/item/service/ItemService.java:70-74 | absent iff the item has no booking; otherwise one of its bookings, with the earliest start among them |
| ItemService.NextBooking | src/main/java/ru/practicum/shareit/item/service/ItemService.java:75-78 | absent iff the item has no booking; otherwise one of its bookings, with the latest end among them |
| ItemService.View | src/main/java/ru/practicum/shareit/item/service/ItemService.java:57-79 | the item with exactly its comments; last and next bookings only when requested |
| ItemService.GetItemByOwner | src/main/java/ru/practicum/shareit/item/service/ItemService.java:54-63 | NotFound iff the item is missing; comments always attached; last and next bookings attached only for the owner, empty for anyone else |
| ItemService.OwnerSeesBookingBounds | src/main/java/ru/practicum/shareit/item/service/ItemService.java:54-79 | whenever the item has a booking, the owner sees a last booking starting no later and a next booking ending no earlier than it |
| ItemService.UserItems | src/main/java/ru/practicum/shareit/item/service/ItemService.java:94-96 | the rows of the requested page of the user's items (in table order) and exactly those, re-sorted by ascending id; at most `limit` of them |
| ItemService.UserItemsFirstPageComplete | src/main/java/ru/practicum/shareit/item/service/ItemService.java:94-96 | when all of a user's items fit on a first page, every one of them is listed |
| ItemService.AttachAll | src/main/java/ru/practicum/shareit/item/service/ItemService.java:97-100 | the loop gives each listed item, in order, its comments and bookings |
| ItemService.ViewsKeepOrder | src/main/java/ru/practicum/shareit/item/service/ItemService.java:95-100 | views made item by item keep the ascending-id order and show only listed items |
| ItemService.GetUserItems | src/main/java/ru/practicum/shareit/item/service/ItemService.java:91-102 | NotFound for a missing user, then Of's error; otherwise the page's items of the user with comments and bookings, by ascending id, each a stored item of the user |
| ItemService.SearchQuery | server/src/main/java/ru/practicum/shareit/item/storage/ItemRepository.java:15-17 | OFFSET/LIMIT over the matching items in table order: the rows from `offset` on, `limit` of them or all that remain; each a stored item matching the JPQL condition: name match, or description match and available |
| ItemService.SearchItems | src/main/java/ru/practicum/shareit/item/service/ItemService.java:121-127 | an empty keyword gives an empty list before the page arguments are checked; otherwise Of's error or the query's page |
| ItemService.SearchFirstPageComplete | server/src/main/java/ru/practicum/shareit/item/storage/ItemRepository.java:15-17 | when all matches fit on a first page, every matching item is on it, including one whose name matches while it is unavailable |
| ItemService.HasEndedBooking | src/main/java/ru/practicum/shareit/booking/storage/BookingRepository.java:20 | true iff the user has some booking with end < now, of any item and any status |
| ItemService.CreateComment | src/main/java/ru/practicum/shareit/item/service/ItemService.java:129-138 | BadRequest without an ended booking, checked before the author and the item (NotFound); on success the comment has the next id, the author, the item and created == now, appended to the table; on failure nothing changes |
| ItemService.EligibleWithoutBookingTheItem | src/main/java/ru/practicum/shareit/item/service/ItemService.java:130-132 | a user who never booked the item is eligible through an ended rejected booking of another item |
| UserService.GetUser | src/main/java/ru/practicum/shareit/user/service/UserService.java:25-28 | the stored user; NotFound iff absent |
| UserService.ExistsByEmail | src/main/java/ru/practicum/shareit/user/service/UserService.java:44 | true iff some stored user has the email |
| UserService.CreateUser | src/main/java/ru/practicum/shareit/user/service/UserService.java:30-35 | a null email gives BadRequest and saves nothing; otherwise the user is saved under the next, unused id |
| UserService.UpdateUser | src/main/java/ru/practicum/shareit/user/service/UserService.java:37-50 | NotFound when absent; Conflict and nothing saved when the non-null email already exists anywhere, the user's own current email included; otherwise name and email replaced exactly where non-null, id kept; distinct emails stay distinct |
| UserService.DeleteUser | src/main/java/ru/practicum/shareit/user/service/UserService.java:52-56 | returns the user as it was (or NotFound) and removes exactly that key |
| UserStorage.UserStorage.constructor | src/main/java/ru/practicum/shareit/user/storage/InMemoryUserStorage.java:12-13 | an empty map and the counter at 1 |
| UserStorage.UserStorage.CheckEmail | src/main/java/ru/practicum/shareit/user/storage/InMemoryUserStorage.java:15-21 | passes iff no stored email is null and none equals the user's; a stored equal email with no null gives Conflict; NullPointer only when a stored email is null |
| UserStorage.UserStorage.Save | src/main/java/ru/practicum/shareit/user/storage/InMemoryUserStorage.java:23-30 | Conflict when the email is taken; on success id 0 is replaced by the counter (which advances) and other ids are kept; the user is put under its id; failures change nothing; ids match keys and emails stay distinct |
| UserStorage.UserStorage.CheckUser | src/main/java/ru/practicum/shareit/user/storage/InMemoryUserStorage.java:36-40 | passes iff the id is a key, otherwise NotFound |
| UserStorage.UserStorage.GetUser | src/main/java/ru/practicum/shareit/user/storage/InMemoryUserStorage.java:42-45 | the stored user; NotFound iff absent |
| UserStorage.UserStorage.DeleteUser | src/main/java/ru/practicum/shareit/user/storage/InMemoryUserStorage.java:47-50 | returns the removed user (or NotFound) and the key is gone |
| UserStorage.UserStorage.UpdateUser | src/main/java/ru/practicum/shareit/user/storage/InMemoryUserStorage.java:52-63 | the email check first, so Conflict wins over NotFound; a null patch email never conflicts; on success email and name replaced where non-null and the stored user updated in place; emails stay distinct |
| ItemStorage.Patched | src/main/java/ru/practicum/shareit/item/storage/InMemoryItemStorage.java:65-73 | each field is the patch's value when non-null and the old value otherwise; id and owner never change |
| ItemStorage.ItemStorage.constructor | src/main/java/ru/practicum/shareit/item/storage/InMemoryItemStorage.java:16-17 | an empty map and the counter at 1 |
| ItemStorage.ItemStorage.GetItem | src/main/java/ru/practicum/shareit/item/storage/InMemoryItemStorage.java:19-24 | the stored item; NotFound iff absent |
| ItemStorage.ItemStorage.GetUserItems | src/main/java/ru/practicum/shareit/item/storage/InMemoryItemStorage.java:26-29 | exactly the stored items with that owner |
| ItemStorage.ItemStorage.Save | src/main/java/ru/practicum/shareit/item/storage/InMemoryItemStorage.java:31-40 | Conflict and no change when the id is a key; a null id gets the counter, which advances; an explicit new id is kept and the counter untouched; the item is then stored under its id, replacing whatever was under a counter value reused this way |
| ItemStorage.ItemStorage.DeleteItem | src/main/java/ru/practicum/shareit/item/storage/InMemoryItemStorage.java:42-47 | returns the removed item (or NotFound); its key is gone and every other entry is unchanged |
| ItemStorage.ItemStorage.Search | src/main/java/ru/practicum/shareit/item/storage/InMemoryItemStorage.java:49-58 | empty for an empty keyword; otherwise exactly the available stored items whose lower-cased name or description contains the lower-cased keyword |
| ItemStorage.SearchIgnoresCase | src/main/java/ru/practicum/shareit/item/storage/InMemoryItemStorage.java:49-58 | searching for a keyword and for its lower-cased form give the same items |
| ItemStorage.ItemStorage.UpdateItem | src/main/java/ru/practicum/shareit/item/storage/InMemoryItemStorage.java:60-75 | NotFound and no change when absent or owned by someone else; otherwise the patched item replaces the entry and every other entry is unchanged |

## Left out

- Controllers, DTO classes and their validation annotations, mappers, ItemRequestService and ErrorHandler are not part of this model. They route requests, copy fields and translate exceptions to HTTP codes.
- Transactions, concurrency and locking are not modelled. They belong to the database.
- The clock is not modelled: `now` is one integer per call, although the code reads the clock again for each comparison.
- The `Sort` field of `CustomPageable` is always `Sort.unsorted()` and is not modelled.
- SQL tie order: ORDER BY leaves the order of rows with equal keys to the database. The sort here promises only the order of the keys and a permutation of the rows.
- Unordered queries: a query without ORDER BY returns rows in table (insertion) order here.
- Case mapping (`Text.LowerChar`, `Text.UpperChar`) covers ASCII, Latin-1 and the basic Cyrillic letters, plus these mappings into or out of them: capital I with dot above, capital Y with diaeresis, Greek capital mu, capital sharp s, Kelvin sign and Angstrom sign lower-case into them; y with diaeresis, micro sign and Greek small mu upper-case to Y with diaeresis and capital mu; dotless i and long s upper-case to ASCII. Every other character (the rest of Greek, Latin Extended, Armenian, Georgian and so on) is treated as having no case.
- `Text.Upper` maps character by character: the string upper-casing that turns sharp s into `SS` (and other one-to-many upper-case mappings) is not modelled. `Text.Lower` models the one one-to-many lower-case mapping, capital I with dot above to `i` and a combining dot above.
- Locale-dependent case mapping of `String.toLowerCase` is not modelled.
- Search keywords: the `%` and `_` wildcards of SQL LIKE inside a keyword are matched literally.
- Database constraints are not modelled. The schema (unique email, foreign keys, cascades) is not part of this model: a duplicate email at creation or the deletion of a user who still owns items is decided by the database.
- Ids a client puts in a request body are not modelled. New rows get the next id of their table.
- `Long` arithmetic: ids and Java `long` values are unbounded integers, and overflow of `long` ids is not modelled.
- Aliasing in the in-memory stores is not modelled. They hand out the stored objects themselves, so a caller could change a stored item or user behind the store's back. Their entities are values here and only the store's methods change them.
- `getAllUsers` of the user service and the user store is a plain listing and is not modelled.
- The repository: the tables of one `Repository` stand for the JPA repositories. The booking table is a field of it rather than a separate ghost sequence.
