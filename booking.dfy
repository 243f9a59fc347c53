/** The artist double-booking check of `create_show_submission`
    (app.py:680-694). Times are whole seconds. */
module Booking {
  import opened Records

  /** `3600 * 3`: the half-width of the window around a booked show. */
  const ThreeHours: int := 3600 * 3

  /** `booked - 3h <= t <= booked + 3h`, both bounds inclusive: the two times
      are at most three hours apart, in either direction. */
  predicate Clashes(booked: int, t: int)
    ensures Clashes(booked, t) <==> (if t >= booked then t - booked else booked - t) <= 10800
  {
    booked - ThreeHours <= t <= booked + ThreeHours
  }

  /** The window is symmetric; exactly three hours apart still clashes, one
      second more does not. */
  lemma ClashWindow(booked: int, t: int)
    ensures Clashes(booked, t) <==> Clashes(t, booked)
    ensures Clashes(booked, booked + 10800) && Clashes(booked, booked - 10800)
    ensures !Clashes(booked, booked + 10801) && !Clashes(booked, booked - 10801)
  {
  }

  /** `artist_booked_time`: start times of the artist's shows after `now`. */
  function BookedTimes(shows: seq<Show>, artistId: int, now: int): (times: seq<int>)
    ensures forall b :: b in times <==>
              exists i :: 0 <= i < |shows| && shows[i].artistId == artistId && shows[i].startTime > now
                          && shows[i].startTime == b
  {
    if shows == [] then []
    else
      var rest := BookedTimes(shows[1..], artistId, now);
      assert forall i :: 1 <= i < |shows| ==> shows[i] == shows[1..][i - 1];
      assert forall i :: 0 <= i < |shows| - 1 ==> shows[1..][i] == shows[i + 1];
      if shows[0].artistId == artistId && shows[0].startTime > now then [shows[0].startTime] + rest
      else rest
  }

  /** The booking is refused: some show of the same artist that starts after
      `now` starts within three hours of `t`. */
  predicate Rejected(shows: seq<Show>, artistId: int, now: int, t: int)
    ensures Rejected(shows, artistId, now, t) ==> t > now - ThreeHours
  {
    exists i :: 0 <= i < |shows| && shows[i].artistId == artistId && shows[i].startTime > now
                && Clashes(shows[i].startTime, t)
  }

  /** The loop over the booked times, returning at the first clash. */
  method FindClash(booked: seq<int>, t: int) returns (clash: bool)
    ensures clash <==> exists i :: 0 <= i < |booked| && Clashes(booked[i], t)
  {
    for i := 0 to |booked|
      invariant forall m :: 0 <= m < i ==> !Clashes(booked[m], t)
    {
      if Clashes(booked[i], t) {
        return true;
      }
    }
    return false;
  }

  /** Scanning the booked times finds a clash exactly when the booking is
      rejected. */
  lemma BookedTimesClashIffRejected(shows: seq<Show>, artistId: int, now: int, t: int)
    ensures (exists i :: 0 <= i < |BookedTimes(shows, artistId, now)| &&
               Clashes(BookedTimes(shows, artistId, now)[i], t))
            <==> Rejected(shows, artistId, now, t)
  {
    var times := BookedTimes(shows, artistId, now);
    if Rejected(shows, artistId, now, t) {
      var i :| 0 <= i < |shows| && shows[i].artistId == artistId && shows[i].startTime > now
               && Clashes(shows[i].startTime, t);
      assert shows[i].startTime in times;
    }
  }

  /** The check as the handler runs it: collect the booked times, then scan
      them. */
  method IsDoubleBooking(shows: seq<Show>, artistId: int, now: int, t: int) returns (clash: bool)
    ensures clash <==> Rejected(shows, artistId, now, t)
  {
    var booked := BookedTimes(shows, artistId, now);
    clash := FindClash(booked, t);
    BookedTimesClashIffRejected(shows, artistId, now, t);
    assert clash <==> exists i :: 0 <= i < |booked| && Clashes(booked[i], t);
  }

  /** An artist with no show after `now` is never refused. */
  lemma NoFutureShowsNoRejection(shows: seq<Show>, artistId: int, now: int, t: int)
    requires forall i :: 0 <= i < |shows| && shows[i].artistId == artistId ==> shows[i].startTime <= now
    ensures !Rejected(shows, artistId, now, t)
  {
  }

  /** Shows of other artists and shows at or before `now` — whatever venue
      they are at — never change the decision. */
  lemma OtherShowsIgnored(shows: seq<Show>, others: seq<Show>, artistId: int, now: int, t: int)
    requires forall k :: 0 <= k < |others| ==> others[k].artistId != artistId || others[k].startTime <= now
    ensures Rejected(shows + others, artistId, now, t) <==> Rejected(shows, artistId, now, t)
  {
    var all := shows + others;
    assert forall k :: |shows| <= k < |all| ==> all[k] == others[k - |shows|];
    if Rejected(all, artistId, now, t) {
      var i :| 0 <= i < |all| && all[i].artistId == artistId && all[i].startTime > now
               && Clashes(all[i].startTime, t);
      assert all[i] == shows[i];
    }
    if Rejected(shows, artistId, now, t) {
      var i :| 0 <= i < |shows| && shows[i].artistId == artistId && shows[i].startTime > now
               && Clashes(shows[i].startTime, t);
      assert all[i] == shows[i];
    }
  }

  /** No two distinct shows of one artist that start after `now` start within
      three hours of each other. */
  ghost predicate WellSpaced(shows: seq<Show>, now: int) {
    forall s1, s2 :: s1 in shows && s2 in shows && s1 != s2 && s1.artistId == s2.artistId
                     && s1.startTime > now && s2.startTime > now
                     ==> !Clashes(s1.startTime, s2.startTime)
  }

  /** Adding a show that the check accepts keeps the artist's future shows
      spaced. */
  lemma AcceptedBookingKeepsSpacing(shows: seq<Show>, s: Show, now: int)
    requires WellSpaced(shows, now)
    requires !Rejected(shows, s.artistId, now, s.startTime)
    ensures WellSpaced(shows + [s], now)
  {
    var all := shows + [s];
    forall s1, s2 | s1 in all && s2 in all && s1 != s2 && s1.artistId == s2.artistId
                    && s1.startTime > now && s2.startTime > now
      ensures !Clashes(s1.startTime, s2.startTime)
    {
      if s1 == s && s2 in shows {
        var i :| 0 <= i < |shows| && shows[i] == s2;
        assert !Clashes(shows[i].startTime, s.startTime);
      } else if s2 == s && s1 in shows {
        var i :| 0 <= i < |shows| && shows[i] == s1;
        assert !Clashes(shows[i].startTime, s.startTime);
      }
    }
  }

  /** Spacing that holds now still holds later: fewer shows are in the future. */
  lemma SpacingPersists(shows: seq<Show>, now: int, later: int)
    requires now <= later
    requires WellSpaced(shows, now)
    ensures WellSpaced(shows, later)
  {
  }
}
