/** Concrete runs of the booking engine: a full day, a taken slot, a freed place and a past date. */
module Scenarios {
  import opened Wrappers
  import opened Seqs
  import opened Bookings
  import opened Engine
  import Invariants

  const Day: int := 20098

  function Held(id: nat, slot: string): Booking {
    Booking(id, 100 + id, 1, "Client", "5550100", Day, slot, None, Pending)
  }

  function Ask(slot: string): Request {
    Request(200, 1, "Walk-in", "5550199", Day, slot, None)
  }

  /** Five pending bookings for professional 1 on one day. */
  function FullDay(): Store {
    [Held(1, "09:00"), Held(2, "10:00"), Held(3, "11:00"), Held(4, "12:00"), Held(5, "13:00")]
  }

  lemma FullDayCount()
    ensures DailyCount(FullDay(), 1, Day) == 5
  {
    CountAll(FullDay(), HoldsDay(1, Day));
  }

  /** A sixth request on a full day, for a slot nobody holds, is refused as fully booked. */
  lemma SixthRequestIsFullyBooked(today: int)
    requires today <= Day
    ensures RequestBooking(FullDay(), {1}, today, Ask("14:00")) == Step(Err(FullyBooked), FullDay())
  {
    FullDayCount();
    assert !IsTaken(FullDay(), 1, Day, "14:00");
  }

  /** A second request for a held slot is refused, naming the slot and the date. */
  lemma SecondRequestForSlotIsTaken(today: int)
    requires today <= Day
    ensures RequestBooking([Held(1, "10:00")], {1}, today, Ask("10:00"))
            == Step(Err(SlotTaken("10:00", Day)), [Held(1, "10:00")])
  {
  }

  lemma FullDayIds()
    ensures UniqueIds(FullDay())
    ensures !IsTaken(FullDay(), 1, Day, "14:00")
  {
  }

  /** After one of the five is declined, the same new request succeeds. */
  lemma DeclineThenRebook(today: int)
    requires today <= Day
    ensures RequestBooking(Decline(FullDay(), 3).store, {1}, today, Ask("14:00")).result.Ok?
  {
    FullDayCount();
    FullDayIds();
    assert FullDay()[2].id == 3 && Holds(FullDay()[2]);
    Invariants.RebookAfterDecline(FullDay(), 2, {1}, today, Ask("14:00"));
  }

  /** Yesterday is refused whatever the store holds. */
  lemma YesterdayIsRefused(s: Store, today: int)
    ensures RequestBooking(s, {1}, today, Request(200, 1, "Walk-in", "5550199", today - 1, "10:00", None))
            == Step(Err(PastDate), s)
  {
  }
}
