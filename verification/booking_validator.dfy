/** BookingValidator: the guards the booking lifecycle runs before reading or deciding a booking. */
module BookingValidator {
  import opened Results
  import opened Domain
  import opened Seqs

  /** Selects the booking stored under bookingId. */
  function HasId(bookingId: int): Booking -> bool {
    (b: Booking) => b.id == bookingId
  }

  /** validateBookingExists: the stored booking with that id, or NotFound. */
  function ValidateBookingExists(bookings: seq<Booking>, bookingId: int): (r: Result<Booking>)
    ensures r.Err? <==> forall b :: b in bookings ==> b.id != bookingId
    ensures r.Err? ==> r.error == NotFound
    ensures r.Ok? ==> r.value in bookings && r.value.id == bookingId
  {
    var k := FirstIndex(bookings, HasId(bookingId));
    if k < 0 then Err(NotFound) else Ok(bookings[k])
  }

  /** validateOwner: only the owner of the booked item may change the status. */
  function ValidateOwner(b: Booking, ownerId: int): (r: Outcome)
    requires OwnerId(b.item).Some?
    ensures r == Pass <==> OwnerId(b.item) == Some(ownerId)
    ensures r != Pass ==> r == Fail(Forbidden)
  {
    if b.item.owner.value.id.value != ownerId then Fail(Forbidden) else Pass
  }

  /** validateAccess: the booker and the item owner may read the booking, nobody else. The
      booker's id and the owner are always read; the owner's id is compared only when the caller
      is not the booker, so a missing owner id matters only then. */
  function ValidateAccess(b: Booking, userId: int): (r: Outcome)
    requires b.booker.id.Some? && b.item.owner.Some?
    requires b.booker.id != Some(userId) ==> OwnerId(b.item).Some?
    ensures r == Pass <==> b.booker.id == Some(userId) || OwnerId(b.item) == Some(userId)
    ensures r != Pass ==> r == Fail(Forbidden)
  {
    if b.booker.id.value == userId then Pass
    else if b.item.owner.value.id.value != userId then Fail(Forbidden)
    else Pass
  }

  /** validateStatusIsWaiting: a booking is decided at most once. */
  function ValidateStatusIsWaiting(b: Booking): (r: Outcome)
    ensures r == Pass <==> b.status == Waiting
    ensures r != Pass ==> r == Fail(Conflict)
  {
    if b.status != Waiting then Fail(Conflict) else Pass
  }

  /** Whoever may change a booking's status may also read it. */
  lemma OwnerHasAccess(b: Booking, userId: int)
    requires PartiesKnown(b)
    ensures ValidateOwner(b, userId) == Pass ==> ValidateAccess(b, userId) == Pass
  {
  }

  /** Once a booking is approved or rejected, the status guard refuses a second decision. */
  lemma DecidedBookingIsFinal(b: Booking, approved: bool)
    requires b.status == Waiting
    ensures ValidateStatusIsWaiting(b.(status := if approved then Approved else Rejected)) == Fail(Conflict)
  {
  }
}
