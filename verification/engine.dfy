/**
 * The booking engine: a client's appointment request, validated against the store
 * and either rejected or recorded as pending, and the professional's accept/decline
 * response, which overwrites a booking's status.
 */
module Engine {
  import opened Wrappers
  import opened Seqs
  import opened Bookings

  /** The fields of the booking form, with the date already parsed to a day number. */
  datatype Request = Request(
    requester: nat,
    professional: nat,
    fullName: string,
    mobile: string,
    date: int,
    slot: string,
    notes: Option<string>)

  /** Why a request or response is refused; each maps to one message or a 404. */
  datatype Rejection =
    | NotFound
    | PastDate
    | SlotTaken(slot: string, date: int)
    | FullyBooked

  /** The reply to one call, and the store as that call leaves it. */
  datatype Step = Step(result: Result<Booking, Rejection>, store: Store)

  /** The row a successful request inserts. */
  function NewBooking(s: Store, req: Request): (b: Booking)
    ensures b.status == Pending && Holds(b)
    ensures b.requester == req.requester && b.professional == req.professional
    ensures b.fullName == req.fullName && b.mobile == req.mobile && b.notes == req.notes
    ensures b.date == req.date && b.slot == req.slot
    ensures forall i :: 0 <= i < |s| ==> s[i].id != b.id
  {
    Booking(NextId(s), req.requester, req.professional, req.fullName, req.mobile,
            req.date, req.slot, req.notes, Pending)
  }

  /**
   * The POST branch of the appointment page. `professionals` are the ids that exist.
   * The checks run in order and the first failure wins: unknown professional, date
   * before today, slot already held, daily cap reached. Otherwise one pending
   * booking is appended. A rejection leaves the store as it was.
   */
  function RequestBooking(s: Store, professionals: set<nat>, today: int, req: Request): (r: Step)
    ensures r.result.Err? ==> r.store == s
    ensures r.result == Err(NotFound) <==> req.professional !in professionals
    ensures r.result == Err(PastDate) <==> req.professional in professionals && req.date < today
    ensures r.result == Err(SlotTaken(req.slot, req.date)) <==>
              req.professional in professionals && req.date >= today
              && IsTaken(s, req.professional, req.date, req.slot)
    ensures r.result == Err(FullyBooked) <==>
              req.professional in professionals && req.date >= today
              && !IsTaken(s, req.professional, req.date, req.slot)
              && DailyCount(s, req.professional, req.date) >= MaxPerDay
    ensures r.result.Ok? <==>
              req.professional in professionals && req.date >= today
              && !IsTaken(s, req.professional, req.date, req.slot)
              && DailyCount(s, req.professional, req.date) < MaxPerDay
    ensures r.result.Ok? ==> r.store == s + [r.result.value] && r.result.value == NewBooking(s, req)
  {
    if req.professional !in professionals then Step(Err(NotFound), s)
    else if req.date < today then Step(Err(PastDate), s)
    else if IsTaken(s, req.professional, req.date, req.slot) then
      Step(Err(SlotTaken(req.slot, req.date)), s)
    else if DailyCount(s, req.professional, req.date) >= MaxPerDay then Step(Err(FullyBooked), s)
    else
      var b := NewBooking(s, req);
      Step(Ok(b), s + [b])
  }

  /** The status the update route writes: accepted for "accept", declined for anything else. */
  function ActionStatus(action: string): (st: Status)
    ensures st != Pending
    ensures st == Accepted <==> action == "accept"
  {
    if action == "accept" then Accepted else Declined
  }

  /** Every row with primary key `id` gets status `st`; all other rows are kept. */
  function SetStatus(s: Store, id: nat, st: Status): (t: Store)
    ensures |t| == |s|
    ensures forall i :: 0 <= i < |s| && s[i].id == id ==> t[i] == s[i].(status := st)
    ensures forall i :: 0 <= i < |s| && s[i].id != id ==> t[i] == s[i]
  {
    seq(|s|, i requires 0 <= i < |s| => if s[i].id == id then s[i].(status := st) else s[i])
  }

  /**
   * Looks the booking up by id (404 when absent) and overwrites its status,
   * whatever the status was before.
   */
  function Respond(s: Store, id: nat, st: Status): (r: Step)
    ensures r.result.Err? <==> forall i :: 0 <= i < |s| ==> s[i].id != id
    ensures r.result.Err? ==> r.result.error == NotFound && r.store == s
    ensures r.result.Ok? ==> r.result.value.id == id && r.result.value.status == st
                             && r.result.value in r.store
    ensures r.result.Ok? ==> r.store == SetStatus(s, id, st)
  {
    match Find(s, id)
    case None => Step(Err(NotFound), s)
    case Some(b) =>
      var t := SetStatus(s, id, st);
      assert exists i :: 0 <= i < |s| && s[i] == b;
      var i :| 0 <= i < |s| && s[i] == b;
      assert t[i] == b.(status := st);
      Step(Ok(b.(status := st)), t)
  }

  /** The accept route. */
  function Accept(s: Store, id: nat): (r: Step)
    ensures r.result.Err? <==> forall i :: 0 <= i < |s| ==> s[i].id != id
    ensures r.result.Err? ==> r.result.error == NotFound && r.store == s
    ensures r.result.Ok? ==> r.result.value.id == id && r.result.value.status == Accepted
    ensures r.result.Ok? ==> r.store == SetStatus(s, id, Accepted)
  {
    Respond(s, id, Accepted)
  }

  /** The decline route. */
  function Decline(s: Store, id: nat): (r: Step)
    ensures r.result.Err? <==> forall i :: 0 <= i < |s| ==> s[i].id != id
    ensures r.result.Err? ==> r.result.error == NotFound && r.store == s
    ensures r.result.Ok? ==> r.result.value.id == id && r.result.value.status == Declined
    ensures r.result.Ok? ==> r.store == SetStatus(s, id, Declined)
  {
    Respond(s, id, Declined)
  }

  /** The generic update route: `action` "accept" accepts, every other action declines. */
  function UpdateStatus(s: Store, id: nat, action: string): (r: Step)
    ensures r == (if action == "accept" then Accept(s, id) else Decline(s, id))
  {
    Respond(s, id, ActionStatus(action))
  }
}
