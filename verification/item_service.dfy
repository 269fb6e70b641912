/** ItemServiceImpl: creating, editing, showing, listing and searching items, and commenting
    on them. Stores are sequences in store order, the clock is the parameter `now`, and ids the
    store would generate on save are parameters. */
module ItemService {
  import opened Results
  import opened Domain
  import opened Seqs
  import opened Text
  import opened BookingSelection
  import opened CommentOrder
  import UserValidator
  import ItemValidator

  /** The item store after a save, with the saved item. */
  datatype Saved = Saved(store: seq<Item>, item: Item)

  /** The fields of an ItemDto that an update reads; each may be null. */
  datatype ItemPatch = ItemPatch(name: Option<string>, description: Option<string>, available: Option<bool>)

  /** The comment store after a save, with the saved comment as shown. */
  datatype Commented = Commented(store: seq<Comment>, comment: CommentView)

  // ---------------------------------------------------------------- create

  /** create: the caller must be a stored user, who becomes the owner; the store gives the
      item the fresh id newId and appends it. */
  function Create(users: seq<User>, items: seq<Item>, item: Item, userId: int, newId: int): (r: Result<Saved>)
    ensures r.Err? <==> forall u :: u in users ==> u.id != Some(userId)
    ensures r.Err? ==> r.error == NotFound
    ensures r.Ok? ==> r.value.store == items + [r.value.item]
    ensures r.Ok? ==> r.value.item.id == newId && OwnerId(r.value.item) == Some(userId)
    ensures r.Ok? ==> r.value.item.owner.value in users
    ensures r.Ok? ==> r.value.item == item.(id := newId, owner := r.value.item.owner)
  {
    var owner := UserValidator.ValidateUserExists(users, userId);
    if owner.Err? then Err(owner.error)
    else
      var saved := item.(id := newId, owner := Some(owner.value));
      Ok(Saved(items + [saved], saved))
  }

  // ---------------------------------------------------------------- update

  /** A patch value replaces a text field only when it is non-null and not blank. */
  predicate Replaces(v: Option<string>) {
    v.Some? && !IsBlank(v.value)
  }

  /** The field-by-field merge of update. */
  function Merge(item: Item, patch: ItemPatch): Item {
    item.(
      name := if Replaces(patch.name) then patch.name else item.name,
      description := if Replaces(patch.description) then patch.description else item.description,
      available := if patch.available.Some? then patch.available.value else item.available)
  }

  /** update: the item must exist and belong to the caller, both checked before any field is
      touched; then the patch is merged and the item saved in place. */
  function Update(items: seq<Item>, itemId: int, patch: ItemPatch, userId: int): (r: Result<Saved>)
    ensures ItemValidator.ValidateItemExists(items, itemId).Err? ==> r == Err(NotFound)
    ensures ItemValidator.ValidateItemExists(items, itemId).Ok? ==>
      var existing := ItemValidator.ValidateItemExists(items, itemId).value;
      && (r.Ok? <==> OwnerId(existing) == Some(userId))
      && (OwnerId(existing).None? ==> r == Err(InvalidState))
      && (OwnerId(existing).Some? && OwnerId(existing) != Some(userId) ==> r == Err(NotFound))
      && (r.Ok? ==>
            && r.value.item.id == existing.id
            && r.value.item.owner == existing.owner
            && r.value.item.request == existing.request
            && r.value.item.name == (if Replaces(patch.name) then patch.name else existing.name)
            && r.value.item.description
               == (if Replaces(patch.description) then patch.description else existing.description)
            && r.value.item.available
               == (if patch.available.Some? then patch.available.value else existing.available))
    ensures r.Ok? ==> r.value.store == items[ItemValidator.IndexOfItem(items, itemId) := r.value.item]
  {
    var found := ItemValidator.ValidateItemExists(items, itemId);
    if found.Err? then Err(found.error)
    else
      var gate := ItemValidator.ValidateOwnership(found.value, userId);
      if gate.Fail? then Err(gate.error)
      else
        var updated := Merge(found.value, patch);
        Ok(Saved(items[ItemValidator.IndexOfItem(items, itemId) := updated], updated))
  }

  // ---------------------------------------------------------------- getById

  /** Selects the comments on item itemId. */
  function CommentOnItem(itemId: int): Comment -> bool {
    (c: Comment) => c.item.id == itemId
  }

  /** findByItemIdOrderByCreated: the comments on the item, oldest first. */
  function ItemComments(comments: seq<Comment>, itemId: int): (r: seq<Comment>)
    ensures SortedByCreated(r)
    ensures forall c :: multiset(r)[c] == if c.item.id == itemId then multiset(comments)[c] else 0
  {
    FilterCountAll(comments, CommentOnItem(itemId));
    SortByCreated(Filter(comments, CommentOnItem(itemId)))
  }

  /** An approved booking of the item that started before now. */
  predicate IsPastApproved(b: Booking, itemId: int, now: Timestamp) {
    b.item.id == itemId && b.status == Approved && b.start < now
  }

  /** An approved booking of the item that starts after now. */
  predicate IsNextApproved(b: Booking, itemId: int, now: Timestamp) {
    b.item.id == itemId && b.status == Approved && b.start > now
  }

  function PastApprovedOn(itemId: int, now: Timestamp): Booking -> bool {
    (b: Booking) => IsPastApproved(b, itemId, now)
  }

  function NextApprovedOn(itemId: int, now: Timestamp): Booking -> bool {
    (b: Booking) => IsNextApproved(b, itemId, now)
  }

  /** findFirstByItemIdAndStatusAndStartBeforeOrderByStartDesc: the approved booking of the
      item with the greatest start before now. */
  function LastApproved(bookings: seq<Booking>, itemId: int, now: Timestamp): (r: Option<Booking>)
    ensures r.None? <==> forall b :: b in bookings ==> !IsPastApproved(b, itemId, now)
    ensures r.Some? ==> r.value in bookings && IsPastApproved(r.value, itemId, now)
    ensures r.Some? ==> forall b :: b in bookings && IsPastApproved(b, itemId, now) ==> b.start <= r.value.start
  {
    SelectLatest(Filter(bookings, PastApprovedOn(itemId, now)))
  }

  /** findFirstByItemIdAndStatusAndStartAfterOrderByStartAsc: the approved booking of the
      item with the least start after now. */
  function NextApproved(bookings: seq<Booking>, itemId: int, now: Timestamp): (r: Option<Booking>)
    ensures r.None? <==> forall b :: b in bookings ==> !IsNextApproved(b, itemId, now)
    ensures r.Some? ==> r.value in bookings && IsNextApproved(r.value, itemId, now)
    ensures r.Some? ==> forall b :: b in bookings && IsNextApproved(b, itemId, now) ==> r.value.start <= b.start
  {
    SelectEarliest(Filter(bookings, NextApprovedOn(itemId, now)))
  }

  /** The item as its owner sees it at time now. */
  function OwnerView(item: Item, bookings: seq<Booking>, comments: seq<Comment>, now: Timestamp): ItemView {
    ViewOf(item, Ref(LastApproved(bookings, item.id, now)), Ref(NextApproved(bookings, item.id, now)),
           Views(ItemComments(comments, item.id)))
  }

  /** getById: the viewer and the item must exist; the comments are always shown, the last and
      next booking only to the item's owner. Once both lookups succeed, the owner check
      dereferences the found item's owner id, so that id must be present then. */
  function GetById(users: seq<User>, items: seq<Item>, bookings: seq<Booking>, comments: seq<Comment>,
                   itemId: int, userId: int, now: Timestamp): (r: Result<ItemView>)
    requires UserValidator.ValidateUserExists(users, userId).Ok? && ItemValidator.ValidateItemExists(items, itemId).Ok?
             ==> OwnerId(ItemValidator.ValidateItemExists(items, itemId).value).Some?
    ensures r.Err? <==>
      UserValidator.ValidateUserExists(users, userId).Err? || ItemValidator.ValidateItemExists(items, itemId).Err?
    ensures r.Err? ==> r.error == NotFound
    ensures r.Ok? ==>
      var item := ItemValidator.ValidateItemExists(items, itemId).value;
      && r.value == ViewOf(item, r.value.last, r.value.next, Views(ItemComments(comments, itemId)))
      && (OwnerId(item) == Some(userId) ==>
            r.value.last == Ref(LastApproved(bookings, itemId, now))
            && r.value.next == Ref(NextApproved(bookings, itemId, now)))
      && (OwnerId(item) != Some(userId) ==> r.value.last.None? && r.value.next.None?)
  {
    var viewer := UserValidator.ValidateUserExists(users, userId);
    if viewer.Err? then Err(viewer.error)
    else
      var found := ItemValidator.ValidateItemExists(items, itemId);
      if found.Err? then Err(found.error)
      else
        var item := found.value;
        var shown := Views(ItemComments(comments, itemId));
        assert OwnerId(item).Some?;
        if item.owner.value.id.value == userId then
          Ok(ViewOf(item, Ref(LastApproved(bookings, itemId, now)), Ref(NextApproved(bookings, itemId, now)), shown))
        else
          Ok(ViewOf(item, None, None, shown))
  }

  // ---------------------------------------------------------------- search

  /** The lower-cased name or description of item contains query (itself lower-cased). */
  ghost predicate Mentions(item: Item, query: string) {
    || (item.name.Some? && IsSubstring(query, ToLower(item.name.value)))
    || (item.description.Some? && IsSubstring(query, ToLower(item.description.value)))
  }

  function IsAvailable(): Item -> bool {
    (it: Item) => it.available
  }

  /** The name test, then the description test, of the search filter. */
  function MatchesText(s: string): Item -> bool {
    (it: Item) =>
      (it.name.Some? && Contains(ToLower(it.name.value), s))
      || (it.description.Some? && Contains(ToLower(it.description.value), s))
  }

  /** search: nothing for a null or blank text; otherwise the available items whose name or
      description contains the text, ignoring case, in store order. */
  function Search(items: seq<Item>, text: Option<string>): (r: seq<Item>)
    ensures text.None? || IsBlank(text.value) ==> r == []
    ensures forall it :: it in r ==> it in items && it.available && Mentions(it, ToLower(text.value))
    ensures text.Some? && !IsBlank(text.value) ==>
      forall it :: it in items && it.available && Mentions(it, ToLower(text.value)) ==> it in r
  {
    if text.None? || IsBlank(text.value) then []
    else
      ContainsIsSubstringEverywhere();
      Filter(Filter(items, IsAvailable()), MatchesText(ToLower(text.value)))
  }

  // ---------------------------------------------------------------- getAllByUser

  /** Selects the items owned by userId (findByOwnerId). */
  function OwnedBy(userId: int): Item -> bool {
    (it: Item) => OwnerId(it) == Some(userId)
  }

  /** findByOwnerId: the user's items in store order. */
  function OwnedItems(items: seq<Item>, userId: int): (r: seq<Item>)
    ensures forall it :: it in r ==> it in items && OwnerId(it) == Some(userId)
    ensures forall it :: it in items && OwnerId(it) == Some(userId) ==> it in r
  {
    Filter(items, OwnedBy(userId))
  }

  function IdsOf(items: seq<Item>): (r: seq<int>)
    ensures |r| == |items| && forall i :: 0 <= i < |items| ==> r[i] == items[i].id
  {
    seq(|items|, i requires 0 <= i < |items| => items[i].id)
  }

  /** findByItemIdInAndStatus(ids, APPROVED). */
  function ApprovedOnAny(ids: seq<int>): Booking -> bool {
    (b: Booking) => b.item.id in ids && b.status == Approved
  }

  /** findByItemIdInOrderByCreated(ids), before ordering. */
  function CommentOnAny(ids: seq<int>): Comment -> bool {
    (c: Comment) => c.item.id in ids
  }

  /** groupingBy(booking -> booking.getItem().getId()), one group. */
  function BookingOnItem(itemId: int): Booking -> bool {
    (b: Booking) => b.item.id == itemId
  }

  /** partitioningBy(booking -> booking.getStart().isBefore(now)), the true side. */
  function StartsBefore(now: Timestamp): Booking -> bool {
    (b: Booking) => b.start < now
  }

  /** The false side of that partition: bookings starting at now or later. */
  function StartsAtOrAfter(now: Timestamp): Booking -> bool {
    (b: Booking) => !(b.start < now)
  }

  /** Bookings starting strictly after now. */
  function StartsAfter(now: Timestamp): Booking -> bool {
    (b: Booking) => b.start > now
  }

  /** The per-item assembly of getAllByUser over the prefetched approved bookings and ordered
      comments; `upcoming` is the side of the time partition that supplies the next booking. */
  function Annotate(item: Item, approved: seq<Booking>, ordered: seq<Comment>, now: Timestamp,
                    upcoming: Booking -> bool): ItemView
  {
    var mine := Filter(approved, BookingOnItem(item.id));
    ViewOf(item,
           Ref(SelectLatest(Filter(mine, StartsBefore(now)))),
           Ref(SelectEarliest(Filter(mine, upcoming))),
           Views(Filter(ordered, CommentOnItem(item.id))))
  }

  /** The batched listing: one lookup of the owner's items, one of their approved bookings,
      one of their comments, then grouping per item. */
  function ListOwned(users: seq<User>, items: seq<Item>, bookings: seq<Booking>, comments: seq<Comment>,
                     userId: int, now: Timestamp, upcoming: Booking -> bool): (r: Result<seq<ItemView>>)
    ensures r.Err? <==> forall u :: u in users ==> u.id != Some(userId)
    ensures r.Err? ==> r.error == NotFound
    ensures r.Ok? ==> |r.value| == |OwnedItems(items, userId)|
    ensures r.Ok? ==> forall i :: 0 <= i < |r.value| ==>
      var it := OwnedItems(items, userId)[i];
      r.value[i] == ViewOf(it, r.value[i].last, r.value[i].next, r.value[i].comments)
  {
    var user := UserValidator.ValidateUserExists(users, userId);
    if user.Err? then Err(user.error)
    else
      var owned := OwnedItems(items, userId);
      if |owned| == 0 then Ok([])
      else
        var ids := IdsOf(owned);
        var approved := Filter(bookings, ApprovedOnAny(ids));
        var ordered := SortByCreated(Filter(comments, CommentOnAny(ids)));
        Ok(seq(|owned|, i requires 0 <= i < |owned| => Annotate(owned[i], approved, ordered, now, upcoming)))
  }

  /** getAllByUser: the owner's items in store order, each with its last booking, its next
      booking and its comments. Its "future" side is every approved booking not starting
      before now, so a booking starting exactly at now counts as next. */
  function GetAllByUser(users: seq<User>, items: seq<Item>, bookings: seq<Booking>, comments: seq<Comment>,
                        userId: int, now: Timestamp): (r: Result<seq<ItemView>>)
    ensures r.Err? <==> forall u :: u in users ==> u.id != Some(userId)
    ensures r.Err? ==> r.error == NotFound
    ensures r.Ok? ==> |r.value| == |OwnedItems(items, userId)|
    ensures r.Ok? ==> forall i :: 0 <= i < |r.value| ==>
      var it := OwnedItems(items, userId)[i];
      r.value[i] == ViewOf(it, r.value[i].last, r.value[i].next, r.value[i].comments)
  {
    ListOwned(users, items, bookings, comments, userId, now, StartsAtOrAfter(now))
  }

  /** getAllByUser with the future side restricted to bookings starting after now, the way
      getById reads "next". */
  function GetAllByUserStrict(users: seq<User>, items: seq<Item>, bookings: seq<Booking>, comments: seq<Comment>,
                              userId: int, now: Timestamp): (r: Result<seq<ItemView>>)
    ensures r.Err? <==> forall u :: u in users ==> u.id != Some(userId)
    ensures r.Err? ==> r.error == NotFound
    ensures r.Ok? ==> |r.value| == |OwnedItems(items, userId)|
    ensures r.Ok? ==> forall i :: 0 <= i < |r.value| ==>
      var it := OwnedItems(items, userId)[i];
      r.value[i] == ViewOf(it, r.value[i].last, r.value[i].next, r.value[i].comments)
  {
    ListOwned(users, items, bookings, comments, userId, now, StartsAfter(now))
  }

  // ---------------------------------------------------------------- addComment

  /** A booking of the item by the user that ended before now, whatever its status. */
  predicate IsCompletedRental(b: Booking, userId: int, itemId: int, now: Timestamp) {
    b.booker.id == Some(userId) && b.item.id == itemId && b.end < now
  }

  function CompletedRentalOf(userId: int, itemId: int, now: Timestamp): Booking -> bool {
    (b: Booking) => IsCompletedRental(b, userId, itemId, now)
  }

  /** findByBookerIdAndItemIdAndEndBefore(...).stream().findAny().isPresent(). */
  function HasCompletedRental(bookings: seq<Booking>, userId: int, itemId: int, now: Timestamp): (r: bool)
    ensures r <==> exists b :: b in bookings && IsCompletedRental(b, userId, itemId, now)
  {
    var hits := Filter(bookings, CompletedRentalOf(userId, itemId, now));
    assert |hits| != 0 ==> hits[0] in hits;
    |hits| != 0
  }

  /** addComment: the author and the item must exist and the author must have finished a
      rental of the item; the comment is stamped with now and gets the id newId. */
  function AddComment(users: seq<User>, items: seq<Item>, bookings: seq<Booking>, comments: seq<Comment>,
                      userId: int, itemId: int, text: string, now: Timestamp, newId: int): (r: Result<Commented>)
    ensures UserValidator.ValidateUserExists(users, userId).Err? ==> r == Err(NotFound)
    ensures ItemValidator.ValidateItemExists(items, itemId).Err? ==> r == Err(NotFound)
    ensures UserValidator.ValidateUserExists(users, userId).Ok? && ItemValidator.ValidateItemExists(items, itemId).Ok? ==>
      && (r.Ok? <==> exists b :: b in bookings && IsCompletedRental(b, userId, itemId, now))
      && (r.Err? ==> r.error == Conflict)
    ensures r.Ok? ==>
      var author := UserValidator.ValidateUserExists(users, userId).value;
      var item := ItemValidator.ValidateItemExists(items, itemId).value;
      && r.value.store == comments + [Comment(newId, text, item, author, now)]
      && r.value.comment == CommentView(newId, text, author.name, now)
  {
    var author := UserValidator.ValidateUserExists(users, userId);
    if author.Err? then Err(author.error)
    else
      var found := ItemValidator.ValidateItemExists(items, itemId);
      if found.Err? then Err(found.error)
      else if !HasCompletedRental(bookings, userId, itemId, now) then Err(Conflict)
      else
        var saved := Comment(newId, text, found.value, author.value, now);
        Ok(Commented(comments + [saved], CommentView(saved.id, saved.text, saved.author.name, saved.created)))
  }
}
