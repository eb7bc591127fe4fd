/**
 * Which engine operations keep the store valid. Requests and declines do. An accept
 * is proved to keep it when the booking still held its slot; accepting a declined
 * booking never rechecks the slot or the daily cap, and can break it.
 */
module Invariants {
  import opened Wrappers
  import opened Seqs
  import opened Bookings
  import opened Engine

  /** A successful request keeps every invariant: the slot was free, the day under its cap and the id fresh. */
  lemma RequestPreservesValid(s: Store, professionals: set<nat>, today: int, req: Request)
    requires Valid(s)
    ensures Valid(RequestBooking(s, professionals, today, req).store)
  {
    var r := RequestBooking(s, professionals, today, req);
    if r.result.Ok? {
      var b := r.result.value;
      var t := r.store;
      assert t == s + [b];
      forall i, j | 0 <= i < j < |t| && Holds(t[i]) && Holds(t[j])
        ensures !SameSlot(t[i], t[j])
      {
        if j == |s| {
          assert t[i] == s[i];
        }
      }
      forall pro: nat, date: int ensures DailyCount(t, pro, date) <= MaxPerDay {
        CountSnoc(s, b, HoldsDay(pro, date));
        assert DailyCount(s, pro, date) <= MaxPerDay;
      }
    }
  }

  /**
   * A status overwrite that never turns a declined booking into a holding one
   * cannot raise any daily count or occupy any slot.
   */
  lemma OverwriteNeverAdds(s: Store, id: nat, st: Status, pro: nat, date: int, slot: string)
    requires st == Declined || forall i :: 0 <= i < |s| && s[i].id == id ==> Holds(s[i])
    ensures DailyCount(SetStatus(s, id, st), pro, date) <= DailyCount(s, pro, date)
    ensures IsTaken(SetStatus(s, id, st), pro, date, slot) ==> IsTaken(s, pro, date, slot)
  {
    var t := SetStatus(s, id, st);
    CountPointwise(s, HoldsDay(pro, date), t, HoldsDay(pro, date));
    if IsTaken(t, pro, date, slot) {
      var i :| 0 <= i < |t| && HoldsSlot(pro, date, slot)(t[i]);
      assert HoldsSlot(pro, date, slot)(s[i]);
    }
  }

  /** Declining never raises a daily count nor takes a slot, whatever the id. */
  lemma DeclineNeverAdds(s: Store, id: nat, pro: nat, date: int, slot: string)
    ensures DailyCount(Decline(s, id).store, pro, date) <= DailyCount(s, pro, date)
    ensures IsTaken(Decline(s, id).store, pro, date, slot) ==> IsTaken(s, pro, date, slot)
  {
    OverwriteNeverAdds(s, id, Declined, pro, date, slot);
  }

  /** The invariants survive any overwrite that adds no holding booking. */
  lemma OverwritePreservesValid(s: Store, id: nat, st: Status)
    requires Valid(s)
    requires st == Declined || forall i :: 0 <= i < |s| && s[i].id == id ==> Holds(s[i])
    ensures Valid(SetStatus(s, id, st))
  {
    var t := SetStatus(s, id, st);
    forall i, j | 0 <= i < j < |t| && Holds(t[i]) && Holds(t[j])
      ensures !SameSlot(t[i], t[j])
    {
      assert Holds(s[i]) && Holds(s[j]);
      assert SameSlot(t[i], t[j]) == SameSlot(s[i], s[j]);
    }
    forall pro: nat, date: int ensures DailyCount(t, pro, date) <= MaxPerDay {
      OverwriteNeverAdds(s, id, st, pro, date, "");
    }
  }

  /** Declining, found or not, keeps every invariant. */
  lemma DeclinePreservesValid(s: Store, id: nat)
    requires Valid(s)
    ensures Valid(Decline(s, id).store)
  {
    OverwritePreservesValid(s, id, Declined);
  }

  /** Accepting keeps every invariant when the booking was still pending or accepted. */
  lemma AcceptHeldPreservesValid(s: Store, id: nat)
    requires Valid(s)
    requires forall i :: 0 <= i < |s| && s[i].id == id ==> Holds(s[i])
    ensures Valid(Accept(s, id).store)
  {
    OverwritePreservesValid(s, id, Accepted);
  }

  /**
   * Declining a holding booking frees exactly one place on its day, so a request for
   * another free slot that day is no longer refused as fully booked.
   */
  lemma DeclineFreesPlace(s: Store, k: nat)
    requires UniqueIds(s)
    requires k < |s| && Holds(s[k])
    ensures DailyCount(Decline(s, s[k].id).store, s[k].professional, s[k].date)
            == DailyCount(s, s[k].professional, s[k].date) - 1
  {
    var t := Decline(s, s[k].id).store;
    var p := HoldsDay(s[k].professional, s[k].date);
    assert forall i :: 0 <= i < |s| && i != k ==> t[i] == s[i];
    var sa, ta := s[..k], t[..k];
    var sc, tc := s[k + 1..], t[k + 1..];
    assert forall i :: 0 <= i < |sa| ==> ta[i] == sa[i];
    assert forall i :: 0 <= i < |sc| ==> tc[i] == sc[i];
    CountPointwiseEq(s[..k], p, t[..k], p);
    CountPointwiseEq(s[k + 1..], p, t[k + 1..], p);
    CountSplit(s, k, p);
    CountSplit(t, k, p);
  }

  /**
   * On a full day, declining one holding booking lets the next request for a free
   * slot that day through.
   */
  lemma RebookAfterDecline(s: Store, k: nat, professionals: set<nat>, today: int, req: Request)
    requires UniqueIds(s) && k < |s| && Holds(s[k])
    requires req.professional == s[k].professional && req.date == s[k].date
    requires req.professional in professionals && req.date >= today
    requires DailyCount(s, req.professional, req.date) == MaxPerDay
    requires !IsTaken(s, req.professional, req.date, req.slot)
    ensures RequestBooking(s, professionals, today, req).result == Err(FullyBooked)
    ensures RequestBooking(Decline(s, s[k].id).store, professionals, today, req).result.Ok?
  {
    DeclineFreesPlace(s, k);
    DeclineNeverAdds(s, s[k].id, req.professional, req.date, req.slot);
  }

  /**
   * Accepting is unguarded: a declined booking whose slot was taken again in the
   * meantime becomes a second holder of that slot.
   */
  lemma AcceptCanDoubleBook()
    ensures exists s: Store, id: nat :: Valid(s) && !NoDoubleBooking(Accept(s, id).store)
  {
    var first := Booking(1, 10, 1, "A", "1", 100, "10:00", None, Declined);
    var second := Booking(2, 11, 1, "B", "2", 100, "10:00", None, Pending);
    var s := [first, second];
    forall pro: nat, date: int ensures DailyCount(s, pro, date) <= MaxPerDay {
    }
    assert Valid(s);
    var t := Accept(s, 1).store;
    assert t[0] == first.(status := Accepted) && t[1] == second;
    assert !NoDoubleBooking(t);
  }

  /** One call the engine can receive. */
  datatype Op =
    | Book(today: int, req: Request)
    | Refuse(id: nat)

  /** The store after applying `ops` in order. */
  function Run(s: Store, professionals: set<nat>, ops: seq<Op>): Store
    decreases |ops|
  {
    if |ops| == 0 then s
    else
      var next := match ops[0]
        case Book(today, req) => RequestBooking(s, professionals, today, req).store
        case Refuse(id) => Decline(s, id).store;
      Run(next, professionals, ops[1..])
  }

  /** Any sequence of requests and declines, on any days, keeps the store valid. */
  lemma {:induction false} RunPreservesValid(s: Store, professionals: set<nat>, ops: seq<Op>)
    requires Valid(s)
    ensures Valid(Run(s, professionals, ops))
    decreases |ops|
  {
    if |ops| > 0 {
      match ops[0]
      case Book(today, req) =>
        RequestPreservesValid(s, professionals, today, req);
        RunPreservesValid(RequestBooking(s, professionals, today, req).store, professionals, ops[1..]);
      case Refuse(id) =>
        DeclinePreservesValid(s, id);
        RunPreservesValid(Decline(s, id).store, professionals, ops[1..]);
    }
  }
}
