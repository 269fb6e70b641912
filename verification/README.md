# ShareIt items, comments and booking guards in Dafny

ShareIt is a small item-sharing service. Users list items they are willing to lend. Other
users book those items for a time window, and the owner approves or rejects each booking.
After a rental has ended, the borrower may leave a comment on the item.

This project models the item service (`ItemServiceImpl`) and the three validators it relies
on, together with the user mapper:

- **create**: a stored user creates an item and becomes its owner.
- **update**: the owner edits an item by a partial patch. Blank text is ignored, and a null
  availability keeps the current value.
- **getById**: shows an item with its comments in creation order. The owner additionally sees
  the last and the next approved booking.
- **search**: a case-insensitive substring search over the names and descriptions of
  available items.
- **getAllByUser**: a batched listing of the owner's items, with last and next booking and
  comments for each.
- **addComment**: only a user whose rental of the item has ended may comment.
- **BookingValidator**, **ItemValidator** and **UserValidator**: the existence, ownership,
  access, status and e-mail-uniqueness guards.
- **UserMapper**: the copy between a user and its transfer object.

Modelling conventions:

- Each repository is a sequence in store order, and a lookup by id finds the first match.
- Saving an item or comment appends it to its store with an id given as a parameter.
- The clock (`LocalDateTime.now()`) is the parameter `now`. Timestamps are integers.
- Every operation returns a `Result` or an `Outcome`. Each exception class of the code maps to
  one `ErrorKind`:
  - `EntityNotFoundException` → `NotFound`
  - `BookingOwnItemException` → `Forbidden`
  - `ItemNotAvailableException` → `Conflict`
  - `IllegalStateException` → `InvalidState`
- All operations are pure functions. The validators therefore cannot change any store, by
  construction.
- Java's `max`/`min` keep the first of equal elements, and the model breaks ties among equal
  start times the same way. The repository's "first by start" queries are given that store-order
  tie-break too.
- Comments ordered by creation time come from a stable sort.

Some exception classes do not match the error their situation suggests. The model keeps the
class the code throws:

- A duplicate e-mail raises `EntityNotFoundException`, so it is `NotFound` rather than a
  conflict.
- A non-owner editing an item also raises `EntityNotFoundException`, so it is `NotFound` rather
  than a forbidden error.
- An item with no owner, or whose owner has no id, raises `IllegalStateException` in
  `validateOwnership`, so it is `InvalidState`.

## Model

| member | source | states |
|---|---|---|
| UserMapper.ToDto | src/main/java/ru/practicum/shareit/user/mapper/UserMapper.java:8-14 | the transfer object carries the user's id, name and e-mail unchanged |
| UserMapper.ToModel | src/main/java/ru/practicum/shareit/user/mapper/UserMapper.java:17-23 | the user built from a transfer object carries its id, name and e-mail unchanged |
| UserMapper.ModelRoundTrip | src/main/java/ru/practicum/shareit/user/mapper/UserMapper.java:8-23 | mapping a user to a transfer object and back gives the same user |
| UserMapper.DtoRoundTrip | src/main/java/ru/practicum/shareit/user/mapper/UserMapper.java:8-23 | mapping a transfer object to a user and back gives the same transfer object |
| UserMapper.ToDtoInjective | src/main/java/ru/practicum/shareit/user/mapper/UserMapper.java:8-14 | two different users never map to the same transfer object |
| UserValidator.ValidateUserExists | src/main/java/ru/practicum/shareit/user/validation/UserValidator.java:14-17 | fails with NotFound exactly when no stored user has the id; on success the user is stored and has that id |
| UserValidator.AnyClash | src/main/java/ru/practicum/shareit/user/validation/UserValidator.java:20-21 | true exactly when some stored user's e-mail equals the given one ignoring case and that user is not the excluded one |
| UserValidator.ValidateEmailIsUnique | src/main/java/ru/practicum/shareit/user/validation/UserValidator.java:19-25 | fails, with NotFound, exactly when the e-mail is non-null and another stored user already has it ignoring case; a null e-mail always passes |
| UserValidator.CaseVariantIsDuplicate | src/main/java/ru/practicum/shareit/user/validation/UserValidator.java:21-23 | an e-mail that differs from a stored user's only in letter case is rejected for a new user |
| UserValidator.OwnEmailNeverConflicts | src/main/java/ru/practicum/shareit/user/validation/UserValidator.java:21 | with excludeId set to a user's own id, that user's own record never decides the check: the result is the result on the store without it |
| UserValidator.EmptyStoreAccepts | src/main/java/ru/practicum/shareit/user/validation/UserValidator.java:19-25 | on an empty store every e-mail is unique |
| Text.ContainsIsSubstring | src/main/java/ru/practicum/shareit/item/service/ItemServiceImpl.java:111-115 | the prefix scan used for String.contains holds exactly when the needle occurs at some position of the haystack |
| Text.EqualsIgnoreCaseIsLowerEquality | src/main/java/ru/practicum/shareit/user/validation/UserValidator.java:21 | two strings are equal ignoring case exactly when their lower-case forms are equal |
| ItemValidator.IndexOfItem | src/main/java/ru/practicum/shareit/item/validation/ItemValidator.java:14-17 | the lookup position is -1 when no item has the id, and otherwise the first position holding that id |
| ItemValidator.ValidateItemExists | src/main/java/ru/practicum/shareit/item/validation/ItemValidator.java:14-17 | fails with NotFound exactly when no stored item has the id; on success the item is stored and has that id |
| ItemValidator.ValidateOwnership | src/main/java/ru/practicum/shareit/item/validation/ItemValidator.java:19-26 | passes exactly when the item's owner id equals the caller; a missing owner or owner id gives InvalidState; any other caller gets NotFound |
| ItemValidator.MissingOwnerWinsForEveryUser | src/main/java/ru/practicum/shareit/item/validation/ItemValidator.java:20-25 | for an item without a known owner, the missing-owner error is raised for every caller, before the mismatch test |
| ItemValidator.LookupFindsStoredItem | src/main/java/ru/practicum/shareit/item/validation/ItemValidator.java:14-17 | when item ids are unique, looking up a stored item's id returns exactly that item |
| BookingValidator.ValidateBookingExists | src/main/java/ru/practicum/shareit/booking/validation/BookingValidator.java:17-20 | fails with NotFound exactly when no stored booking has the id; on success the booking is stored and has that id |
| BookingValidator.ValidateOwner | src/main/java/ru/practicum/shareit/booking/validation/BookingValidator.java:22-27 | passes exactly when the caller owns the booked item; otherwise Forbidden |
| BookingValidator.ValidateAccess | src/main/java/ru/practicum/shareit/booking/validation/BookingValidator.java:29-35 | passes exactly when the caller is the booker or the item's owner; otherwise Forbidden; the owner's id is needed only when the caller is not the booker |
| BookingValidator.ValidateStatusIsWaiting | src/main/java/ru/practicum/shareit/booking/validation/BookingValidator.java:37-41 | passes exactly when the booking is still waiting; otherwise Conflict |
| BookingValidator.OwnerHasAccess | src/main/java/ru/practicum/shareit/booking/validation/BookingValidator.java:22-35 | whoever passes the owner check also passes the access check |
| BookingValidator.DecidedBookingIsFinal | src/main/java/ru/practicum/shareit/booking/validation/BookingValidator.java:37-41 | a booking once approved or rejected can never be decided again |
| BookingSelection.LatestFrom | src/main/java/ru/practicum/shareit/item/service/ItemServiceImpl.java:158-159 | the reduction keeping the first of equal starts ends at a booking with the greatest start, and every earlier booking starts strictly before it |
| BookingSelection.EarliestFrom | src/main/java/ru/practicum/shareit/item/service/ItemServiceImpl.java:164-165 | the reduction keeping the first of equal starts ends at a booking with the least start, and every earlier booking starts strictly after it |
| BookingSelection.SelectLatest | src/main/java/ru/practicum/shareit/item/service/ItemServiceImpl.java:158-161 | none exactly for no bookings; otherwise a listed booking whose start no other listed booking exceeds |
| BookingSelection.SelectEarliest | src/main/java/ru/practicum/shareit/item/service/ItemServiceImpl.java:164-167 | none exactly for no bookings; otherwise a listed booking whose start no other listed booking undercuts |
| CommentOrder.InsertKeepsSorted | src/main/java/ru/practicum/shareit/item/service/ItemServiceImpl.java:70-71 | inserting a comment into a list sorted by creation time keeps it sorted and adds exactly that comment |
| CommentOrder.SortByCreated | src/main/java/ru/practicum/shareit/item/service/ItemServiceImpl.java:70-71 | the ordered comments are sorted by creation time and are a permutation of the input |
| CommentOrder.FilterSortCommute | src/main/java/ru/practicum/shareit/item/service/ItemServiceImpl.java:139-141 | choosing some comments out of the ordered list gives the same list as ordering only the chosen comments |
| ItemService.Create | src/main/java/ru/practicum/shareit/item/service/ItemServiceImpl.java:39-44 | fails with NotFound exactly when the caller is not a stored user; otherwise the item is appended with the new id and the caller as owner, other fields as given |
| ItemService.Update | src/main/java/ru/practicum/shareit/item/service/ItemServiceImpl.java:47-63 | a missing item gives NotFound; it succeeds exactly when the caller owns the item; non-blank texts and a non-null availability replace the old values, id, owner and request stay; only that item's slot in the store changes |
| ItemService.ItemComments | src/main/java/ru/practicum/shareit/item/service/ItemServiceImpl.java:70-71 | the comments shown are sorted by creation time and are exactly the stored comments on the item, each as often as stored |
| ItemService.LastApproved | src/main/java/ru/practicum/shareit/item/service/ItemServiceImpl.java:85-90 | none exactly when no approved booking of the item starts before now; otherwise such a booking with the latest start |
| ItemService.NextApproved | src/main/java/ru/practicum/shareit/item/service/ItemServiceImpl.java:92-97 | none exactly when no approved booking of the item starts after now; otherwise such a booking with the earliest start |
| ItemService.GetById | src/main/java/ru/practicum/shareit/item/service/ItemServiceImpl.java:66-100 | NotFound exactly when the caller or the item is missing; the view copies the item's fields and lists its comments in creation order; only the owner sees last and next approved bookings, anyone else sees neither |
| ItemService.Search | src/main/java/ru/practicum/shareit/item/service/ItemServiceImpl.java:103-119 | a null or blank query finds nothing; otherwise the results are exactly the available stored items whose name or description contains the query ignoring case |
| ItemService.OwnedItems | src/main/java/ru/practicum/shareit/item/service/ItemServiceImpl.java:127 | exactly the stored items owned by the user |
| ItemService.GetAllByUser | src/main/java/ru/practicum/shareit/item/service/ItemServiceImpl.java:122-191 | NotFound exactly when the caller is missing; otherwise one view per owned item in store order, each copying that item's fields |
| ItemService.GetAllByUserStrict | src/main/java/ru/practicum/shareit/item/service/ItemServiceImpl.java:152-167 | the listing with the future side taken strictly after now: NotFound exactly when the caller is missing; otherwise one view per owned item in store order, each copying that item's fields |
| ItemService.HasCompletedRental | src/main/java/ru/practicum/shareit/item/service/ItemServiceImpl.java:199-201 | true exactly when some booking of the item by the user ended before now, whatever its status |
| ItemService.AddComment | src/main/java/ru/practicum/shareit/item/service/ItemServiceImpl.java:194-219 | NotFound for a missing user or item; otherwise it succeeds exactly when the user has a completed rental of the item, else Conflict; the saved comment has the new id, the text, the item, the user as author and now as creation time |
| ItemServiceProperties.UpdatedItemReadsBack | src/main/java/ru/practicum/shareit/item/service/ItemServiceImpl.java:61-62 | after an update, looking the item up returns the updated item |
| ItemServiceProperties.UpdateIsIdempotent | src/main/java/ru/practicum/shareit/item/service/ItemServiceImpl.java:51-61 | applying the same patch again succeeds and changes nothing |
| ItemServiceProperties.EmptyPatchChangesNothing | src/main/java/ru/practicum/shareit/item/service/ItemServiceImpl.java:51-59 | a patch with every field null leaves the store as it was |
| ItemServiceProperties.CreatorMayUpdate | src/main/java/ru/practicum/shareit/item/service/ItemServiceImpl.java:39-49 | the user who created an item passes both update checks on it |
| ItemServiceProperties.SearchKeepsStoreOrder | src/main/java/ru/practicum/shareit/item/service/ItemServiceImpl.java:108-118 | searching a store made of two parts gives the first part's results followed by the second's |
| ItemServiceProperties.SearchIgnoresQueryCase | src/main/java/ru/practicum/shareit/item/service/ItemServiceImpl.java:104-107 | two queries with the same lower-case form find the same items |
| ItemServiceProperties.OwnerSeesLastAndNext | src/main/java/ru/practicum/shareit/item/service/ItemServiceImpl.java:82-97 | with one approved booking in the past, one approved ahead and one waiting across now, the owner sees the past one as last and the future one as next |
| ItemServiceProperties.OwnedItemsKeepStoreOrder | src/main/java/ru/practicum/shareit/item/service/ItemServiceImpl.java:127 | the owner's items of a store made of two parts are those of the first part followed by those of the second |
| ItemServiceProperties.GroupedBookings | src/main/java/ru/practicum/shareit/item/service/ItemServiceImpl.java:144-149 | grouping the prefetched approved bookings by item gives the item's approved bookings, as a query for that one item would |
| ItemServiceProperties.GroupedComments | src/main/java/ru/practicum/shareit/item/service/ItemServiceImpl.java:139-141 | grouping the prefetched ordered comments by item gives the item's comments in creation order, as a query for that one item would |
| ItemServiceProperties.AnnotateAgainstSingle | src/main/java/ru/practicum/shareit/item/service/ItemServiceImpl.java:148-189 | one batched entry has the latest past approved booking as last, the earliest approved booking on the chosen future side as next, and the item's ordered comments |
| ItemServiceProperties.ListOwnedEntry | src/main/java/ru/practicum/shareit/item/service/ItemServiceImpl.java:148-190 | for a stored caller the listing succeeds, and its entry at each position is the annotated view of the owned item at that position |
| ItemServiceProperties.GetByIdOnOwnedItem | src/main/java/ru/practicum/shareit/item/service/ItemServiceImpl.java:66-100 | for an item the caller owns, getById succeeds with the owner's view |
| ItemServiceProperties.GetAllByUserNext | src/main/java/ru/practicum/shareit/item/service/ItemServiceImpl.java:152-178 | for a stored caller, the entry for each owned item has the latest approved booking before now as last, the earliest approved booking starting at now or later as next, and the item's comments in creation order |
| ItemServiceProperties.GetAllByUserAgreesWithGetById | src/main/java/ru/practicum/shareit/item/service/ItemServiceImpl.java:152-167 | for a stored caller the listing succeeds, and its entry for each owned item, in store order, equals the owner's getById view of that item whenever no approved booking of it starts exactly at now |
| ItemServiceProperties.GetAllByUserStrictAgreesWithGetById | src/main/java/ru/practicum/shareit/item/service/ItemServiceImpl.java:152-167 | with the future side strictly after now, for a stored caller the listing succeeds and its entry for each owned item, in store order, equals the owner's getById view of that item, for all inputs |
| ItemServiceProperties.BatchCountsBookingStartingNow | src/main/java/ru/practicum/shareit/item/service/ItemServiceImpl.java:152-155 | an approved booking starting exactly at now is next in the batched listing, while getById shows no next booking |
| ItemServiceProperties.CommentIgnoresBookingStatus | src/main/java/ru/practicum/shareit/item/service/ItemServiceImpl.java:199-201 | changing only the statuses of bookings never changes whether a comment is accepted or what is saved |
| ItemServiceProperties.AddedCommentIsListed | src/main/java/ru/practicum/shareit/item/service/ItemServiceImpl.java:206-218 | a comment just added is among the comments shown for its item |

## Left out

- The booking service is not part of this model. That covers booking creation, approval, the
  waiting-booking selection, and the booker's and owner's booking lists. Only the guards it calls,
  from `BookingValidator`, are modelled.
- The controllers are not modelled. They only read headers and forward calls, and HTTP status
  codes and exception messages are outside the model.
- `ItemMapper` is not part of this model. Create takes the already mapped item. The item views
  copy the fields exactly as the batched listing's constructor does. Search returns the stored
  items rather than their transfer objects.
- Persistence, transactions, lazy loading and concurrency are left out. A store is a sequence,
  and a save either appends or replaces in place.
- Lookup by id returns the first stored match. Where uniqueness of ids matters, it is a stated
  precondition (`UniqueItemIds`).
- Text.LowerChar: lower-cases ASCII letters only. Java's `toLowerCase` also maps other alphabets;
  the model makes the same choice everywhere, so the properties relating the two forms still
  hold, but `equalsIgnoreCase` and `search` are exact only for ASCII letters.
- The repository's ordering of bookings with equal start times, and of comments with equal
  creation times, is unspecified. The model fixes store order for both.
- ItemService.GetById: requires the found item to have an owner with an id, when both the
  caller and the item exist. The code reads that id only after both lookups succeed, and would
  fail on the missing value there. A missing caller or item still gives NotFound for any store.
- BookingValidator.ValidateOwner: requires the booked item to have an owner with an id, for the
  same reason.
- BookingValidator.ValidateAccess: requires the booker's id and the item's owner to be present,
  because the code always reads both. It requires the owner's id only when the caller is not
  the booker, because `&&` compares the owner's id only in that case.
- UserValidator.ValidateEmailIsUnique: when excludeId and the e-mail are non-null, requires an
  id on every stored user whose e-mail matches, because the code compares exactly those ids.
  Stored users always carry the id the store assigned, so this excludes no stored state. A null
  e-mail argument is modelled, and it passes, since `equalsIgnoreCase(null)` is false.
- Null user names, null stored e-mails, null comment texts and a null `available` flag on a stored
  item are not represented. In the code, names and texts are copied through unchanged. A null
  stored e-mail makes the e-mail check fail on the null value, and a null `available` makes
  search fail the same way.
- Saved ids and the current time are parameters; the generator and the clock are not modelled.

## Findings

| source | as written | input that shows it | evidently intended | confidence | as-written member | corrected member |
|---|---|---|---|---|---|---|
| src/main/java/ru/practicum/shareit/item/service/ItemServiceImpl.java:152-167 | the batched listing splits bookings with `start.isBefore(now)`, so a booking starting exactly at now falls on the future side and becomes "next" | owner 1 with item 10, one approved booking 100 by user 2 with start 5 and end 9, now 5: getAllByUser shows next = booking 100, getById shows no next booking | the batched listing only saves queries over getById's per-item lookups (`StartAfter`), so the future side should be bookings starting strictly after now and both views should agree | medium; not executed | ItemServiceProperties.BatchCountsBookingStartingNow | ItemServiceProperties.GetAllByUserStrictAgreesWithGetById |
