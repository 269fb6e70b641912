/** Choosing the latest and the earliest booking of a list by start time, as Stream.max and
    Stream.min with Comparator.comparing(Booking::getStart) do: the first element seeds the
    reduction and, on a tie, the accumulator is kept, so the earliest-listed booking wins.
    The reduction is followed by position, so that the tie-break can be stated. */
module BookingSelection {
  import opened Results
  import opened Domain

  /** No booking of s starts after b. */
  ghost predicate StartsLatest(b: Booking, s: seq<Booking>) {
    forall x :: x in s ==> x.start <= b.start
  }

  /** No booking of s starts before b. */
  ghost predicate StartsEarliest(b: Booking, s: seq<Booking>) {
    forall x :: x in s ==> b.start <= x.start
  }

  /** The maxBy reduction: s[best] is the accumulator after the first k bookings. */
  function LatestFrom(s: seq<Booking>, best: nat, k: nat): (i: nat)
    requires best < k <= |s|
    requires forall j :: 0 <= j < k ==> s[j].start <= s[best].start
    requires forall j :: 0 <= j < best ==> s[j].start < s[best].start
    ensures i < |s|
    ensures forall j :: 0 <= j < |s| ==> s[j].start <= s[i].start
    ensures forall j :: 0 <= j < i ==> s[j].start < s[i].start
    decreases |s| - k
  {
    if k == |s| then best
    else LatestFrom(s, if s[best].start >= s[k].start then best else k, k + 1)
  }

  /** The minBy reduction: s[best] is the accumulator after the first k bookings. */
  function EarliestFrom(s: seq<Booking>, best: nat, k: nat): (i: nat)
    requires best < k <= |s|
    requires forall j :: 0 <= j < k ==> s[best].start <= s[j].start
    requires forall j :: 0 <= j < best ==> s[best].start < s[j].start
    ensures i < |s|
    ensures forall j :: 0 <= j < |s| ==> s[i].start <= s[j].start
    ensures forall j :: 0 <= j < i ==> s[i].start < s[j].start
    decreases |s| - k
  {
    if k == |s| then best
    else EarliestFrom(s, if s[best].start <= s[k].start then best else k, k + 1)
  }

  /** stream().max(comparing(start)): absent for no bookings, else a booking of s that
      starts latest (the first-listed one among equal starts). */
  function SelectLatest(s: seq<Booking>): (r: Option<Booking>)
    ensures r.None? <==> |s| == 0
    ensures r.Some? ==> r.value in s && StartsLatest(r.value, s)
  {
    if |s| == 0 then None else Some(s[LatestFrom(s, 0, 1)])
  }

  /** stream().min(comparing(start)): absent for no bookings, else a booking of s that
      starts earliest (the first-listed one among equal starts). */
  function SelectEarliest(s: seq<Booking>): (r: Option<Booking>)
    ensures r.None? <==> |s| == 0
    ensures r.Some? ==> r.value in s && StartsEarliest(r.value, s)
  {
    if |s| == 0 then None else Some(s[EarliestFrom(s, 0, 1)])
  }
}
