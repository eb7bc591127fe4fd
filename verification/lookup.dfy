/**
 * The requester's view on the support page: for each professional, the one booking
 * the page shows. The source builds it with a dict comprehension over the
 * requester's bookings, so a later booking with the same professional overwrites an
 * earlier one.
 */
module Lookup {
  import opened Bookings

  /** `b` is the requester's booking with `pro` at position `i`, and none of theirs with `pro` comes later. */
  ghost predicate LatestAt(s: Store, requester: nat, pro: nat, i: int) {
    && 0 <= i < |s|
    && s[i].requester == requester && s[i].professional == pro
    && forall j :: i < j < |s| ==> !(s[j].requester == requester && s[j].professional == pro)
  }

  /**
   * `appt_map`: keyed by exactly the professionals the requester has booked, each
   * mapped to the last of the requester's bookings with that professional in store order.
   */
  function ApptMap(s: Store, requester: nat): (m: map<nat, Booking>)
    ensures forall pro :: pro in m <==> exists i :: 0 <= i < |s| && s[i].requester == requester && s[i].professional == pro
    ensures forall pro :: pro in m ==> exists i :: LatestAt(s, requester, pro, i) && s[i] == m[pro]
  {
    if |s| == 0 then map[]
    else
      var m := ApptMap(s[..|s| - 1], requester);
      var last := s[|s| - 1];
      var r := if last.requester == requester then m[last.professional := last] else m;
      assert s == s[..|s| - 1] + [last];
      ApptMapStep(s[..|s| - 1], last, requester, m, r);
      r
  }

  /** One step of the fold: the last booking overwrites its professional's entry when it is the requester's. */
  lemma ApptMapStep(init: Store, last: Booking, requester: nat, m: map<nat, Booking>, r: map<nat, Booking>)
    requires forall pro :: pro in m <==> exists i :: 0 <= i < |init| && init[i].requester == requester && init[i].professional == pro
    requires forall pro :: pro in m ==> exists i :: LatestAt(init, requester, pro, i) && init[i] == m[pro]
    requires r == if last.requester == requester then m[last.professional := last] else m
    ensures var s := init + [last];
            forall pro :: pro in r <==> exists i :: 0 <= i < |s| && s[i].requester == requester && s[i].professional == pro
    ensures var s := init + [last];
            forall pro :: pro in r ==> exists i :: LatestAt(s, requester, pro, i) && s[i] == r[pro]
  {
    var s := init + [last];
    assert forall i :: 0 <= i < |init| ==> init[i] == s[i];
    forall pro ensures pro in r <==> exists i :: 0 <= i < |s| && s[i].requester == requester && s[i].professional == pro {
      if exists i :: 0 <= i < |s| && s[i].requester == requester && s[i].professional == pro {
        var i :| 0 <= i < |s| && s[i].requester == requester && s[i].professional == pro;
        if i < |init| {
          assert init[i].requester == requester && init[i].professional == pro;
          assert pro in m.Keys;
        }
      }
      if pro in m.Keys {
        var i :| 0 <= i < |init| && init[i].requester == requester && init[i].professional == pro;
        assert s[i].requester == requester && s[i].professional == pro;
      }
      if last.requester == requester {
        assert s[|s| - 1] == last;
      }
    }
    forall pro | pro in r ensures exists i :: LatestAt(s, requester, pro, i) && s[i] == r[pro] {
      if last.requester == requester && pro == last.professional {
        assert LatestAt(s, requester, pro, |s| - 1);
      } else {
        var i :| LatestAt(init, requester, pro, i) && init[i] == m[pro];
        assert LatestAt(s, requester, pro, i);
      }
    }
  }
}
