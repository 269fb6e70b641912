/** Properties relating the operations of ItemServiceImpl to each other: what an update leaves
    behind, how search treats its query, how the batched listing compares with the single-item
    view, and what comment eligibility depends on. */
module ItemServiceProperties {
  import opened Results
  import opened Domain
  import opened Seqs
  import opened Text
  import opened BookingSelection
  import opened CommentOrder
  import UserValidator
  import ItemValidator
  import opened ItemService

  // ---------------------------------------------------------------- update

  /** After a successful update, looking the item up again yields the updated item. */
  lemma {:induction false} UpdatedItemReadsBack(items: seq<Item>, itemId: int, patch: ItemPatch, userId: int)
    requires Update(items, itemId, patch, userId).Ok?
    ensures var s := Update(items, itemId, patch, userId).value;
      ItemValidator.ValidateItemExists(s.store, itemId) == Ok(s.item)
  {
    var s := Update(items, itemId, patch, userId).value;
    var k := ItemValidator.IndexOfItem(items, itemId);
    var k' := ItemValidator.IndexOfItem(s.store, itemId);
    assert s.store[k].id == itemId;
    assert forall i :: 0 <= i < k ==> s.store[i] == items[i];
    assert k' == k;
  }

  /** Repeating an update with the same patch changes nothing further. */
  lemma {:induction false} UpdateIsIdempotent(items: seq<Item>, itemId: int, patch: ItemPatch, userId: int)
    requires Update(items, itemId, patch, userId).Ok?
    ensures var s := Update(items, itemId, patch, userId).value;
      Update(s.store, itemId, patch, userId) == Ok(s)
  {
    var s := Update(items, itemId, patch, userId).value;
    var k := ItemValidator.IndexOfItem(items, itemId);
    assert s.store[k].id == itemId;
    assert forall i :: 0 <= i < k ==> s.store[i] == items[i];
    assert ItemValidator.IndexOfItem(s.store, itemId) == k;
    assert s.store[k := s.item] == s.store;
  }

  /** A patch whose fields are all null leaves the store exactly as it was. */
  lemma EmptyPatchChangesNothing(items: seq<Item>, itemId: int, userId: int)
    requires Update(items, itemId, ItemPatch(None, None, None), userId).Ok?
    ensures Update(items, itemId, ItemPatch(None, None, None), userId).value.store == items
  {
    var k := ItemValidator.IndexOfItem(items, itemId);
    assert items[k := items[k]] == items;
  }

  /** The creator of an item may edit it, whatever the patch. */
  lemma CreatorMayUpdate(users: seq<User>, items: seq<Item>, item: Item, userId: int, newId: int, patch: ItemPatch)
    requires forall it :: it in items ==> it.id != newId
    requires Create(users, items, item, userId, newId).Ok?
    ensures var s := Create(users, items, item, userId, newId).value;
      Update(s.store, newId, patch, userId).Ok?
  {
    var s := Create(users, items, item, userId, newId).value;
    var k := ItemValidator.IndexOfItem(s.store, newId);
    assert s.store[|items|].id == newId;
    assert k == |items|;
  }

  // ---------------------------------------------------------------- search

  /** Searching a concatenated store searches each part: results keep store order. */
  lemma SearchKeepsStoreOrder(a: seq<Item>, b: seq<Item>, text: Option<string>)
    ensures Search(a + b, text) == Search(a, text) + Search(b, text)
  {
    if text.Some? && !IsBlank(text.value) {
      FilterAppend(a, b, IsAvailable());
      FilterAppend(Filter(a, IsAvailable()), Filter(b, IsAvailable()), MatchesText(ToLower(text.value)));
    }
  }

  /** Lower-casing neither creates nor removes whitespace. */
  lemma LowerCharKeepsWhitespace(c: char)
    ensures IsWhitespace(LowerChar(c)) <==> IsWhitespace(c)
  {
  }

  /** Queries differing only in letter case find the same items. */
  lemma SearchIgnoresQueryCase(items: seq<Item>, t1: string, t2: string)
    requires ToLower(t1) == ToLower(t2)
    ensures Search(items, Some(t1)) == Search(items, Some(t2))
  {
    assert |t1| == |t2|;
    forall i | 0 <= i < |t1| ensures IsWhitespace(t1[i]) <==> IsWhitespace(t2[i]) {
      LowerCharKeepsWhitespace(t1[i]);
      LowerCharKeepsWhitespace(t2[i]);
      assert ToLower(t1)[i] == ToLower(t2)[i];
    }
  }

  // ---------------------------------------------------------------- getById

  /** No comments on record means none are listed. */
  lemma NoCommentsListed(itemId: int)
    ensures ItemComments([], itemId) == []
  {
    var r := ItemComments([], itemId);
    assert multiset(r) == multiset{};
  }

  /** Owner 1 lends item 10; user 2 books it. */
  const ExampleOwner := User(Some(1), "Owner", "owner@example.com")
  const ExampleBooker := User(Some(2), "Booker", "booker@example.com")
  const ExampleItem := Item(10, Some("Drill"), None, true, Some(ExampleOwner), None)

  /** Booking A ended before now = t, B lies ahead, C straddles now but is still waiting. */
  function BookingsAround(t: int): seq<Booking> {
    [Booking(1, t - 10, t - 5, ExampleItem, ExampleBooker, Approved),
     Booking(2, t + 5, t + 10, ExampleItem, ExampleBooker, Approved),
     Booking(3, t - 2, t + 2, ExampleItem, ExampleBooker, Waiting)]
  }

  /** Of the three bookings only A is approved and started before now. */
  lemma ExampleLast(t: int)
    ensures LastApproved(BookingsAround(t), 10, t) == Some(BookingsAround(t)[0])
  {
    var bs := BookingsAround(t);
    assert IsPastApproved(bs[0], 10, t) && bs[0] in bs;
  }

  /** Of the three bookings only B is approved and starts after now. */
  lemma ExampleNext(t: int)
    ensures NextApproved(BookingsAround(t), 10, t) == Some(BookingsAround(t)[1])
  {
    var bs := BookingsAround(t);
    assert IsNextApproved(bs[1], 10, t) && bs[1] in bs;
  }

  /** With bookings A, B and C around now = t, the owner sees A as last and B as next; the
      waiting C appears nowhere. */
  lemma OwnerSeesLastAndNext(t: int)
    ensures GetById([ExampleOwner, ExampleBooker], [ExampleItem], BookingsAround(t), [], 10, 1, t)
            == Ok(ViewOf(ExampleItem, Some(BookingRef(1, Some(2))), Some(BookingRef(2, Some(2))), []))
  {
    assert UserValidator.ValidateUserExists([ExampleOwner, ExampleBooker], 1) == Ok(ExampleOwner);
    assert ExampleItem in OwnedItems([ExampleItem], 1);
    assert OwnedItems([ExampleItem], 1)[0] == ExampleItem;
    GetByIdOnOwnedItem([ExampleOwner, ExampleBooker], [ExampleItem], BookingsAround(t), [], 1, t, 0);
    ExampleLast(t);
    ExampleNext(t);
    NoCommentsListed(10);
  }

  // ---------------------------------------------------------------- getAllByUser

  /** Approved bookings of the item, on any side of now. */
  function ApprovedOnItem(itemId: int): Booking -> bool {
    (b: Booking) => b.item.id == itemId && b.status == Approved
  }

  /** Approved bookings of the item starting at now or later: the batch's "future" side. */
  predicate IsUpcomingApproved(b: Booking, itemId: int, now: Timestamp) {
    b.item.id == itemId && b.status == Approved && b.start >= now
  }

  function UpcomingApprovedOn(itemId: int, now: Timestamp): Booking -> bool {
    (b: Booking) => IsUpcomingApproved(b, itemId, now)
  }

  /** No approved booking of the item starts exactly at now. */
  predicate NoneStartsAtNow(bookings: seq<Booking>, itemId: int, now: Timestamp) {
    forall b :: b in bookings && b.item.id == itemId && b.status == Approved ==> b.start != now
  }

  /** The owner's items come back in store order. */
  lemma OwnedItemsKeepStoreOrder(a: seq<Item>, b: seq<Item>, userId: int)
    ensures OwnedItems(a + b, userId) == OwnedItems(a, userId) + OwnedItems(b, userId)
  {
    FilterAppend(a, b, OwnedBy(userId));
  }

  /** Grouping the prefetched approved bookings by item gives the item's approved bookings. */
  lemma GroupedBookings(bookings: seq<Booking>, ids: seq<int>, itemId: int)
    requires itemId in ids
    ensures Filter(Filter(bookings, ApprovedOnAny(ids)), BookingOnItem(itemId))
         == Filter(bookings, ApprovedOnItem(itemId))
  {
    FilterFilter(bookings, ApprovedOnAny(ids), BookingOnItem(itemId), ApprovedOnItem(itemId));
  }

  /** Grouping the prefetched ordered comments by item gives the item's ordered comments. */
  lemma GroupedComments(comments: seq<Comment>, ids: seq<int>, itemId: int)
    requires itemId in ids
    ensures Filter(SortByCreated(Filter(comments, CommentOnAny(ids))), CommentOnItem(itemId))
         == ItemComments(comments, itemId)
  {
    FilterSortCommute(Filter(comments, CommentOnAny(ids)), CommentOnItem(itemId));
    FilterFilter(comments, CommentOnAny(ids), CommentOnItem(itemId), CommentOnItem(itemId));
  }

  /** One item of the batch: its last booking and comments are those getById computes, and its
      next booking is the earliest approved one starting at now or later. */
  lemma {:induction false} AnnotateAgainstSingle(item: Item, ids: seq<int>, bookings: seq<Booking>,
                                                 comments: seq<Comment>, now: Timestamp,
                                                 upcoming: Booking -> bool, side: Booking -> bool)
    requires item.id in ids
    requires forall b :: side(b) == (b.item.id == item.id && b.status == Approved && upcoming(b))
    ensures var v := Annotate(item, Filter(bookings, ApprovedOnAny(ids)),
                              SortByCreated(Filter(comments, CommentOnAny(ids))), now, upcoming);
      && v.last == Ref(LastApproved(bookings, item.id, now))
      && v.next == Ref(SelectEarliest(Filter(bookings, side)))
      && v.comments == Views(ItemComments(comments, item.id))
      && v == ViewOf(item, v.last, v.next, v.comments)
  {
    GroupedBookings(bookings, ids, item.id);
    GroupedComments(comments, ids, item.id);
    var mine := Filter(bookings, ApprovedOnItem(item.id));
    FilterFilter(bookings, ApprovedOnItem(item.id), StartsBefore(now), PastApprovedOn(item.id, now));
    FilterFilter(bookings, ApprovedOnItem(item.id), upcoming, side);
  }

  /** The i-th entry of a batched listing is the owner's view of the i-th owned item, with
      `upcoming` deciding the next booking. */
  lemma {:induction false} ListOwnedEntry(users: seq<User>, items: seq<Item>, bookings: seq<Booking>,
                                          comments: seq<Comment>, userId: int, now: Timestamp,
                                          upcoming: Booking -> bool, side: Booking -> bool, i: int)
    requires UserValidator.ValidateUserExists(users, userId).Ok?
    requires 0 <= i < |OwnedItems(items, userId)|
    requires forall b :: side(b) == (b.item.id == OwnedItems(items, userId)[i].id && b.status == Approved && upcoming(b))
    ensures ListOwned(users, items, bookings, comments, userId, now, upcoming).Ok?
    ensures var it := OwnedItems(items, userId)[i];
      ListOwned(users, items, bookings, comments, userId, now, upcoming).value[i]
        == ViewOf(it, Ref(LastApproved(bookings, it.id, now)), Ref(SelectEarliest(Filter(bookings, side))),
                  Views(ItemComments(comments, it.id)))
  {
    var owned := OwnedItems(items, userId);
    var ids := IdsOf(owned);
    assert ids[i] == owned[i].id;
    AnnotateAgainstSingle(owned[i], ids, bookings, comments, now, upcoming, side);
  }

  /** The owned item at position i is what getById finds under its id, and it is shown to
      its owner with last and next booking. */
  lemma {:induction false} GetByIdOnOwnedItem(users: seq<User>, items: seq<Item>, bookings: seq<Booking>,
                                              comments: seq<Comment>, userId: int, now: Timestamp, i: int)
    requires UniqueItemIds(items)
    requires UserValidator.ValidateUserExists(users, userId).Ok?
    requires 0 <= i < |OwnedItems(items, userId)|
    ensures var it := OwnedItems(items, userId)[i];
      && (forall x :: x in items && x.id == it.id ==> OwnerId(x).Some?)
      && GetById(users, items, bookings, comments, it.id, userId, now) == Ok(OwnerView(it, bookings, comments, now))
  {
    var it := OwnedItems(items, userId)[i];
    assert it in OwnedItems(items, userId);
    ItemValidator.LookupFindsStoredItem(items, it);
    forall x | x in items && x.id == it.id ensures OwnerId(x).Some? {
      ItemValidator.LookupFindsStoredItem(items, x);
    }
  }

  /** With the future side as written, the batched listing shows the owner exactly what getById
      shows for every item on which no approved booking starts exactly at now. */
  lemma GetAllByUserAgreesWithGetById(users: seq<User>, items: seq<Item>, bookings: seq<Booking>,
                                      comments: seq<Comment>, userId: int, now: Timestamp, i: int)
    requires UniqueItemIds(items)
    requires UserValidator.ValidateUserExists(users, userId).Ok?
    requires 0 <= i < |OwnedItems(items, userId)|
    requires NoneStartsAtNow(bookings, OwnedItems(items, userId)[i].id, now)
    ensures var r := GetAllByUser(users, items, bookings, comments, userId, now);
      && r.Ok? && i < |r.value|
      && r.value[i].id == OwnedItems(items, userId)[i].id
      && GetById(users, items, bookings, comments, r.value[i].id, userId, now) == Ok(r.value[i])
  {
    var owned := OwnedItems(items, userId);
    var it := owned[i];
    ListOwnedEntry(users, items, bookings, comments, userId, now, StartsAtOrAfter(now), UpcomingApprovedOn(it.id, now), i);
    FilterCongruent(bookings, UpcomingApprovedOn(it.id, now), NextApprovedOn(it.id, now));
    GetByIdOnOwnedItem(users, items, bookings, comments, userId, now, i);
  }

  /** The batch's next booking, for every input: the earliest approved booking of the item that
      starts at now or later. */
  lemma GetAllByUserNext(users: seq<User>, items: seq<Item>, bookings: seq<Booking>,
                         comments: seq<Comment>, userId: int, now: Timestamp, i: int)
    requires UserValidator.ValidateUserExists(users, userId).Ok?
    requires 0 <= i < |OwnedItems(items, userId)|
    ensures var r := GetAllByUser(users, items, bookings, comments, userId, now);
      && r.Ok? && i < |r.value|
      && var v := r.value[i];
      && v.id == OwnedItems(items, userId)[i].id
      && v.last == Ref(LastApproved(bookings, v.id, now))
      && v.next == Ref(SelectEarliest(Filter(bookings, UpcomingApprovedOn(v.id, now))))
      && v.comments == Views(ItemComments(comments, v.id))
  {
    var it := OwnedItems(items, userId)[i];
    ListOwnedEntry(users, items, bookings, comments, userId, now, StartsAtOrAfter(now), UpcomingApprovedOn(it.id, now), i);
  }

  /** With the future side restricted to bookings after now, the batched listing shows the owner
      exactly what getById shows, for every item. */
  lemma GetAllByUserStrictAgreesWithGetById(users: seq<User>, items: seq<Item>, bookings: seq<Booking>,
                                            comments: seq<Comment>, userId: int, now: Timestamp, i: int)
    requires UniqueItemIds(items)
    requires UserValidator.ValidateUserExists(users, userId).Ok?
    requires 0 <= i < |OwnedItems(items, userId)|
    ensures var r := GetAllByUserStrict(users, items, bookings, comments, userId, now);
      && r.Ok? && i < |r.value|
      && r.value[i].id == OwnedItems(items, userId)[i].id
      && GetById(users, items, bookings, comments, r.value[i].id, userId, now) == Ok(r.value[i])
  {
    var it := OwnedItems(items, userId)[i];
    ListOwnedEntry(users, items, bookings, comments, userId, now, StartsAfter(now), NextApprovedOn(it.id, now), i);
    GetByIdOnOwnedItem(users, items, bookings, comments, userId, now, i);
  }

  /** At now = 5, user 2 holds an approved booking of the example item from 5 to 9. */
  const ExampleBooking := Booking(100, 5, 9, ExampleItem, ExampleBooker, Approved)

  /** At now = 5 the batch shows the booking starting at 5 as the item's next booking. */
  lemma ExampleBatchShowsNext()
    ensures GetAllByUser([ExampleOwner, ExampleBooker], [ExampleItem], [ExampleBooking], [], 1, 5).Ok?
    ensures |GetAllByUser([ExampleOwner, ExampleBooker], [ExampleItem], [ExampleBooking], [], 1, 5).value| == 1
    ensures GetAllByUser([ExampleOwner, ExampleBooker], [ExampleItem], [ExampleBooking], [], 1, 5).value[0].next
            == Some(BookingRef(100, Some(2)))
  {
    var b := ExampleBooking;
    assert UserValidator.ValidateUserExists([ExampleOwner, ExampleBooker], 1) == Ok(ExampleOwner);
    assert ExampleItem in OwnedItems([ExampleItem], 1);
    assert |OwnedItems([ExampleItem], 1)| == 1;
    GetAllByUserNext([ExampleOwner, ExampleBooker], [ExampleItem], [b], [], 1, 5, 0);
    assert b in Filter([b], UpcomingApprovedOn(10, 5));
    assert SelectEarliest(Filter([b], UpcomingApprovedOn(10, 5))) == Some(b);
  }

  /** At now = 5 getById shows the owner no last and no next booking for the same item. */
  lemma ExampleSingleShowsNone()
    ensures GetById([ExampleOwner, ExampleBooker], [ExampleItem], [ExampleBooking], [], 10, 1, 5)
            == Ok(ViewOf(ExampleItem, None, None, []))
  {
    assert UserValidator.ValidateUserExists([ExampleOwner, ExampleBooker], 1) == Ok(ExampleOwner);
    assert ExampleItem in OwnedItems([ExampleItem], 1);
    assert OwnedItems([ExampleItem], 1)[0] == ExampleItem;
    GetByIdOnOwnedItem([ExampleOwner, ExampleBooker], [ExampleItem], [ExampleBooking], [], 1, 5, 0);
    assert NextApproved([ExampleBooking], 10, 5).None?;
    assert LastApproved([ExampleBooking], 10, 5).None?;
    NoCommentsListed(10);
  }

  /** The two paths part ways on a booking that starts exactly at now: the batch lists it as
      next, getById shows no next booking at all. */
  lemma BatchCountsBookingStartingNow()
    ensures GetAllByUser([ExampleOwner, ExampleBooker], [ExampleItem], [ExampleBooking], [], 1, 5).Ok?
    ensures |GetAllByUser([ExampleOwner, ExampleBooker], [ExampleItem], [ExampleBooking], [], 1, 5).value| == 1
    ensures GetAllByUser([ExampleOwner, ExampleBooker], [ExampleItem], [ExampleBooking], [], 1, 5).value[0].next.Some?
    ensures GetById([ExampleOwner, ExampleBooker], [ExampleItem], [ExampleBooking], [], 10, 1, 5).Ok?
    ensures GetById([ExampleOwner, ExampleBooker], [ExampleItem], [ExampleBooking], [], 10, 1, 5).value.next.None?
  {
    ExampleBatchShowsNext();
    ExampleSingleShowsNone();
  }

  // ---------------------------------------------------------------- addComment

  /** Comment eligibility does not depend on booking status: re-statusing every booking gives
      the same outcome. */
  lemma CommentIgnoresBookingStatus(users: seq<User>, items: seq<Item>, bookings: seq<Booking>,
                                    restated: seq<Booking>, comments: seq<Comment>,
                                    userId: int, itemId: int, text: string, now: Timestamp, newId: int)
    requires |restated| == |bookings|
    requires forall i :: 0 <= i < |bookings| ==> restated[i] == bookings[i].(status := restated[i].status)
    ensures AddComment(users, items, restated, comments, userId, itemId, text, now, newId)
         == AddComment(users, items, bookings, comments, userId, itemId, text, now, newId)
  {
    if exists b :: b in bookings && IsCompletedRental(b, userId, itemId, now) {
      var b :| b in bookings && IsCompletedRental(b, userId, itemId, now);
      var i :| 0 <= i < |bookings| && bookings[i] == b;
      assert IsCompletedRental(restated[i], userId, itemId, now);
    }
    if exists b :: b in restated && IsCompletedRental(b, userId, itemId, now) {
      var b :| b in restated && IsCompletedRental(b, userId, itemId, now);
      var i :| 0 <= i < |restated| && restated[i] == b;
      assert IsCompletedRental(bookings[i], userId, itemId, now);
    }
  }

  /** A new comment is listed with its item afterwards. */
  lemma AddedCommentIsListed(users: seq<User>, items: seq<Item>, bookings: seq<Booking>, comments: seq<Comment>,
                             userId: int, itemId: int, text: string, now: Timestamp, newId: int)
    requires AddComment(users, items, bookings, comments, userId, itemId, text, now, newId).Ok?
    ensures var r := AddComment(users, items, bookings, comments, userId, itemId, text, now, newId).value;
      r.comment in Views(ItemComments(r.store, itemId))
  {
    var r := AddComment(users, items, bookings, comments, userId, itemId, text, now, newId).value;
    var c := r.store[|comments|];
    assert c.item.id == itemId;
    assert multiset(r.store)[c] > 0;
    var listed := ItemComments(r.store, itemId);
    assert multiset(listed)[c] > 0;
    assert c in listed;
    var j :| 0 <= j < |listed| && listed[j] == c;
    assert Views(listed)[j] == r.comment;
  }
}
