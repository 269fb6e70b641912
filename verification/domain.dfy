/** The entities of the item and booking domain, as immutable records.
    Timestamps are integers; `now` is always passed in by the caller. */
module Domain {
  import opened Results

  type Timestamp = int

  /** A registered user; the id is null until the store assigns one. */
  datatype User = User(id: Option<int>, name: string, email: string)

  /** A listed item. The owner is set at creation; name and description may be null. */
  datatype Item = Item(
    id: int,
    name: Option<string>,
    description: Option<string>,
    available: bool,
    owner: Option<User>,
    request: Option<int>)

  /** Booking.Status. */
  datatype Status = Waiting | Approved | Rejected | Canceled

  /** A reservation of item by booker for the window [start, end]. */
  datatype Booking = Booking(
    id: int,
    start: Timestamp,
    end: Timestamp,
    item: Item,
    booker: User,
    status: Status)

  /** A review of item written by author at time created. */
  datatype Comment = Comment(id: int, text: string, item: Item, author: User, created: Timestamp)

  /** BookingForItemDto: the (booking id, booker id) pair shown as last or next booking. */
  datatype BookingRef = BookingRef(id: int, bookerId: Option<int>)

  /** CommentDto: a comment as shown with its item. */
  datatype CommentView = CommentView(id: int, text: string, authorName: string, created: Timestamp)

  /** ItemDto: an item with its last and next booking (owner only) and its comments. */
  datatype ItemView = ItemView(
    id: int,
    name: Option<string>,
    description: Option<string>,
    available: bool,
    request: Option<int>,
    last: Option<BookingRef>,
    next: Option<BookingRef>,
    comments: seq<CommentView>)

  /** item.getOwner().getId(), null when either the owner or its id is null. */
  function OwnerId(item: Item): Option<int> {
    if item.owner.None? then None else item.owner.value.id
  }

  /** Both parties a booking guard dereferences are present. */
  predicate PartiesKnown(b: Booking) {
    b.booker.id.Some? && OwnerId(b.item).Some?
  }

  /** Every stored user has an id, as the store assigns one on save. */
  predicate IdsAssigned(users: seq<User>) {
    forall u :: u in users ==> u.id.Some?
  }

  /** No two stored items share an id, as the store's primary key guarantees. */
  predicate UniqueItemIds(items: seq<Item>) {
    forall i, j :: 0 <= i < j < |items| ==> items[i].id != items[j].id
  }

  /** new BookingForItemDto(b.getId(), b.getBooker().getId()), or null for no booking. */
  function Ref(b: Option<Booking>): (r: Option<BookingRef>)
    ensures r.None? <==> b.None?
    ensures r.Some? ==> r.value.id == b.value.id && r.value.bookerId == b.value.booker.id
  {
    if b.None? then None else Some(BookingRef(b.value.id, b.value.booker.id))
  }

  /** new CommentDto(id, text, author name, created) for each comment, in order. */
  function Views(cs: seq<Comment>): (r: seq<CommentView>)
    ensures |r| == |cs|
    ensures forall i :: 0 <= i < |cs| ==>
      r[i] == CommentView(cs[i].id, cs[i].text, cs[i].author.name, cs[i].created)
  {
    seq(|cs|, i requires 0 <= i < |cs| =>
      CommentView(cs[i].id, cs[i].text, cs[i].author.name, cs[i].created))
  }

  /** The ItemDto carrying item's own fields and the given annotations. */
  function ViewOf(item: Item, last: Option<BookingRef>, next: Option<BookingRef>, comments: seq<CommentView>): ItemView {
    ItemView(item.id, item.name, item.description, item.available, item.request, last, next, comments)
  }
}
