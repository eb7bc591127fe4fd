/**
 * The professional's dashboard: the bookings from today on, ordered by date and then
 * slot label, and the counters shown above them.
 */
module Dashboard {
  import opened Seqs
  import opened Text
  import opened Bookings

  /** `ORDER BY date ASC, time_slot ASC`. */
  predicate KeyLe(a: Booking, b: Booking) {
    a.date < b.date || (a.date == b.date && LexLe(a.slot, b.slot))
  }

  predicate SortedByKey(l: seq<Booking>) {
    forall i, j :: 0 <= i < j < |l| ==> KeyLe(l[i], l[j])
  }

  lemma KeyLeTotal(a: Booking, b: Booking)
    ensures KeyLe(a, b) || KeyLe(b, a)
  {
    LexLeTotal(a.slot, b.slot);
  }

  lemma KeyLeTransitive(a: Booking, b: Booking, c: Booking)
    requires KeyLe(a, b) && KeyLe(b, c)
    ensures KeyLe(a, c)
  {
    if a.date == b.date == c.date {
      LexLeTransitive(a.slot, b.slot, c.slot);
    }
  }

  /** Places `b` into the sorted `l`, after every element that is not greater. */
  function Insert(b: Booking, l: seq<Booking>): (r: seq<Booking>)
    requires SortedByKey(l)
    ensures SortedByKey(r)
    ensures multiset(r) == multiset(l) + multiset{b}
  {
    if |l| == 0 then [b]
    else if KeyLe(b, l[0]) && !KeyLe(l[0], b) then
      InsertFront(b, l);
      [b] + l
    else
      var rest := Insert(b, l[1..]);
      assert l == [l[0]] + l[1..];
      InsertBehind(l[0], b, l[1..], rest);
      [l[0]] + rest
  }

  lemma InsertFront(b: Booking, l: seq<Booking>)
    requires SortedByKey(l) && |l| > 0 && KeyLe(b, l[0])
    ensures SortedByKey([b] + l)
  {
    forall j | 1 <= j < |l| + 1 ensures KeyLe(b, ([b] + l)[j]) {
      if j > 1 {
        KeyLeTransitive(b, l[0], l[j - 1]);
      }
    }
  }

  lemma InsertBehind(head: Booking, b: Booking, tail: seq<Booking>, rest: seq<Booking>)
    requires SortedByKey([head] + tail) && !(KeyLe(b, head) && !KeyLe(head, b))
    requires SortedByKey(rest) && multiset(rest) == multiset(tail) + multiset{b}
    ensures SortedByKey([head] + rest)
  {
    KeyLeTotal(b, head);
    var l := [head] + tail;
    forall j | 0 <= j < |rest| ensures KeyLe(head, rest[j]) {
      assert rest[j] in multiset(rest);
      if rest[j] != b {
        assert rest[j] in multiset(tail);
        var k :| 0 <= k < |tail| && tail[k] == rest[j];
        assert l[0] == head && l[k + 1] == tail[k];
        assert KeyLe(l[0], l[k + 1]);
      }
    }
    var r := [head] + rest;
    forall i, j | 0 <= i < j < |r| ensures KeyLe(r[i], r[j]) {
      if i == 0 {
        assert r[j] == rest[j - 1];
      } else {
        assert r[i] == rest[i - 1] && r[j] == rest[j - 1];
      }
    }
  }

  /** Insertion sort by (date, slot); bookings with equal keys keep their store order. */
  function SortByKey(l: seq<Booking>): (r: seq<Booking>)
    ensures SortedByKey(r)
    ensures multiset(r) == multiset(l)
    ensures |r| == |l|
  {
    if |l| == 0 then []
    else
      var init := l[..|l| - 1];
      assert l == init + [l[|l| - 1]];
      assert multiset(l) == multiset(init) + multiset{l[|l| - 1]};
      Insert(l[|l| - 1], SortByKey(init))
  }

  /** The rows the dashboard query selects: professional `pro`, dated today or later. */
  function UpcomingFor(pro: nat, today: int): Booking -> bool {
    (b: Booking) => b.professional == pro && b.date >= today
  }

  /**
   * `upcoming_appointments`: exactly the professional's bookings dated today or later,
   * each as often as in the store, ordered by date and then slot label.
   */
  function Upcoming(s: Store, pro: nat, today: int): (r: seq<Booking>)
    ensures SortedByKey(r)
    ensures multiset(r) == multiset(Filter(s, UpcomingFor(pro, today)))
    ensures forall b :: b in r <==> b in s && b.professional == pro && b.date >= today
  {
    var f := Filter(s, UpcomingFor(pro, today));
    var r := SortByKey(f);
    assert forall b :: b in r <==> b in f by {
      forall b ensures b in r <==> b in f {
        assert b in r <==> b in multiset(r);
        assert b in f <==> b in multiset(f);
      }
    }
    assert forall b :: b in f ==> b in s && UpcomingFor(pro, today)(b);
    assert forall i :: 0 <= i < |s| && UpcomingFor(pro, today)(s[i]) ==> s[i] in f;
    r
  }

  /** The dashboard page's data: the upcoming list and its three counters. */
  datatype View = View(appointments: seq<Booking>, todayCount: nat, pendingCount: nat, total: nat)

  function DatedOn(today: int): Booking -> bool {
    (b: Booking) => b.date == today
  }

  const IsPending: Booking -> bool := (b: Booking) => b.status == Pending

  /** The professional's bookings dated exactly today. */
  function TodayFor(pro: nat, today: int): Booking -> bool {
    (b: Booking) => b.professional == pro && b.date == today
  }

  /** The professional's pending bookings dated today or later. */
  function PendingFrom(pro: nat, today: int): Booking -> bool {
    (b: Booking) => b.professional == pro && b.date >= today && b.status == Pending
  }

  /**
   * The professional's dashboard. The counters agree with a direct count over the
   * store, independent of the sort: `todayCount` is the professional's bookings dated
   * today, `pendingCount` their pending bookings from today on, and `total` all their
   * bookings from today on.
   */
  function ProfessionalDashboard(s: Store, pro: nat, today: int): (v: View)
    ensures v.appointments == Upcoming(s, pro, today)
    ensures v.total == |v.appointments| == Count(s, UpcomingFor(pro, today))
    ensures v.todayCount == Count(s, TodayFor(pro, today))
    ensures v.pendingCount ==
              Count(s, PendingFrom(pro, today))
    ensures v.todayCount <= v.total && v.pendingCount <= v.total
  {
    var up := Upcoming(s, pro, today);
    var v := View(up, Count(up, DatedOn(today)), Count(up, IsPending), |up|);
    CountsFromStore(s, pro, today, up);
    v
  }

  lemma CountsFromStore(s: Store, pro: nat, today: int, up: seq<Booking>)
    requires up == Upcoming(s, pro, today)
    ensures |up| == Count(s, UpcomingFor(pro, today))
    ensures Count(up, DatedOn(today)) == Count(s, TodayFor(pro, today))
    ensures Count(up, IsPending) ==
              Count(s, PendingFrom(pro, today))
  {
    var p := UpcomingFor(pro, today);
    CountOfUpcoming(s, pro, today, up, DatedOn(today), TodayFor(pro, today));
    CountOfUpcoming(s, pro, today, up, IsPending, PendingFrom(pro, today));
    var any := (b: Booking) => true;
    CountOfUpcoming(s, pro, today, up, any, p);
    CountAll(up, any);
  }

  /**
   * Counting `q` over the upcoming list is counting, over the whole store, the
   * bookings `both` selects, when `both` is the query's filter conjoined with `q`.
   */
  lemma CountOfUpcoming(s: Store, pro: nat, today: int, up: seq<Booking>,
                        q: Booking -> bool, both: Booking -> bool)
    requires up == Upcoming(s, pro, today)
    requires forall b :: both(b) == (UpcomingFor(pro, today)(b) && q(b))
    ensures Count(up, q) == Count(s, both)
  {
    CountFilteredPermutation(up, s, UpcomingFor(pro, today), q, both);
  }
}
