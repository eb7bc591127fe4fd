/**
 * The `Appointment` record of the wellness application and the invariants of the
 * store of all appointments: unique ids, no slot held twice, and a daily cap per
 * professional.
 */
module Bookings {
  import opened Wrappers
  import opened Seqs

  /** `MAX_APPOINTMENTS_PER_DAY`: non-declined bookings a professional may hold on one date. */
  const MaxPerDay: nat := 5

  /** The three status strings the application ever writes. */
  datatype Status = Pending | Accepted | Declined

  /**
   * One appointment row. Dates are day numbers; the time slot is the label the
   * client sent, kept verbatim.
   */
  datatype Booking = Booking(
    id: nat,
    requester: nat,
    professional: nat,
    fullName: string,
    mobile: string,
    date: int,
    slot: string,
    notes: Option<string>,
    status: Status)

  /** All appointment rows, in insertion (row id) order. */
  type Store = seq<Booking>

  /**
   * A booking that still occupies its slot. The slot check asks for status in
   * {pending, accepted} and the daily count for status other than declined;
   * over the three statuses these are the same condition.
   */
  predicate Holds(b: Booking) {
    b.status != Declined
  }

  /** Bookings that occupy slot `slot` of professional `pro` on day `date`. */
  function HoldsSlot(pro: nat, date: int, slot: string): Booking -> bool {
    (b: Booking) => b.professional == pro && b.date == date && b.slot == slot && Holds(b)
  }

  /** Bookings that count against professional `pro`'s cap on day `date`. */
  function HoldsDay(pro: nat, date: int): Booking -> bool {
    (b: Booking) => b.professional == pro && b.date == date && Holds(b)
  }

  /** The `daily_count` query: the number of non-declined bookings of `pro` on `date`. */
  function DailyCount(s: Store, pro: nat, date: int): (n: nat)
    ensures n <= |s|
  {
    Count(s, HoldsDay(pro, date))
  }

  /**
   * The daily count is the number of rows the same filter returns, and each of those
   * rows is a non-declined booking of `pro` on `date` taken from the store.
   */
  lemma DailyCountIsRowCount(s: Store, pro: nat, date: int)
    ensures DailyCount(s, pro, date) == |Filter(s, HoldsDay(pro, date))|
    ensures forall b :: b in Filter(s, HoldsDay(pro, date)) ==>
              b in s && b.professional == pro && b.date == date && b.status != Declined
  {
    CountIsFilterLength(s, HoldsDay(pro, date));
  }

  /**
   * The `is_taken` query: some pending or accepted booking already occupies the slot,
   * equivalently the count of such bookings is positive.
   */
  predicate IsTaken(s: Store, pro: nat, date: int, slot: string)
    ensures IsTaken(s, pro, date, slot) <==> Count(s, HoldsSlot(pro, date, slot)) > 0
  {
    CountPositive(s, HoldsSlot(pro, date, slot));
    exists i :: 0 <= i < |s| && HoldsSlot(pro, date, slot)(s[i])
  }

  /** Two bookings for the same professional, date and slot label. */
  predicate SameSlot(a: Booking, b: Booking) {
    a.professional == b.professional && a.date == b.date && a.slot == b.slot
  }

  ghost predicate UniqueIds(s: Store) {
    forall i, j :: 0 <= i < j < |s| ==> s[i].id != s[j].id
  }

  /** At most one pending or accepted booking per (professional, date, slot). */
  ghost predicate NoDoubleBooking(s: Store) {
    forall i, j :: 0 <= i < j < |s| && Holds(s[i]) && Holds(s[j]) ==> !SameSlot(s[i], s[j])
  }

  /** At most `MaxPerDay` non-declined bookings per (professional, date). */
  ghost predicate WithinCapacity(s: Store) {
    forall pro: nat, date: int :: DailyCount(s, pro, date) <= MaxPerDay
  }

  ghost predicate Valid(s: Store) {
    UniqueIds(s) && NoDoubleBooking(s) && WithinCapacity(s)
  }

  /** The id the database assigns to the next appointment row. */
  function NextId(s: Store): (id: nat)
    ensures id > 0
    ensures forall i :: 0 <= i < |s| ==> s[i].id != id
  {
    NextRowId(s, (b: Booking) => b.id)
  }

  /** `Appointment.query.get(id)`: the row with that primary key, if any. */
  function Find(s: Store, id: nat): (r: Option<Booking>)
    ensures r.Some? ==> r.value in s && r.value.id == id
    ensures r.None? <==> forall i :: 0 <= i < |s| ==> s[i].id != id
  {
    if |s| == 0 then None
    else if s[0].id == id then Some(s[0])
    else Find(s[1..], id)
  }
}
