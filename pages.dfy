/** The show lists on a venue page (`show_venue`, app.py:249-280) and an artist
    page (`show_artist`, app.py:457-488): the owner's shows starting at or
    before `now` are past, those starting after `now` upcoming, and each count
    is the length of its list. Shows come in table order. */
module Pages {
  import opened Records

  /** Whose page it is: `Show.venue_id == id` or `Show.artist_id == id`. */
  datatype Owner = OfVenue(venueId: int) | OfArtist(artistId: int)

  datatype ShowLists = ShowLists(
    pastShows: seq<Show>, pastShowsCount: nat,
    upcomingShows: seq<Show>, upcomingShowsCount: nat)

  predicate BelongsTo(s: Show, o: Owner) {
    match o
    case OfVenue(id) => s.venueId == id
    case OfArtist(id) => s.artistId == id
  }

  /** All shows of the owner. */
  function ShowsOf(shows: seq<Show>, o: Owner): (r: seq<Show>)
    ensures forall s :: s in r <==> s in shows && BelongsTo(s, o)
  {
    if shows == [] then []
    else
      assert forall s :: s in shows <==> s == shows[0] || s in shows[1..] by {
        assert shows == [shows[0]] + shows[1..];
      }
      (if BelongsTo(shows[0], o) then [shows[0]] else []) + ShowsOf(shows[1..], o)
  }

  /** `filter(start_time <= now, <owner> == id)`. */
  function PastShows(shows: seq<Show>, o: Owner, now: int): (r: seq<Show>)
    ensures forall s :: s in r <==> s in shows && BelongsTo(s, o) && s.startTime <= now
  {
    if shows == [] then []
    else
      assert forall s :: s in shows <==> s == shows[0] || s in shows[1..] by {
        assert shows == [shows[0]] + shows[1..];
      }
      (if BelongsTo(shows[0], o) && shows[0].startTime <= now then [shows[0]] else [])
        + PastShows(shows[1..], o, now)
  }

  /** `filter(start_time > now, <owner> == id)`. */
  function UpcomingShows(shows: seq<Show>, o: Owner, now: int): (r: seq<Show>)
    ensures forall s :: s in r <==> s in shows && BelongsTo(s, o) && s.startTime > now
  {
    if shows == [] then []
    else
      assert forall s :: s in shows <==> s == shows[0] || s in shows[1..] by {
        assert shows == [shows[0]] + shows[1..];
      }
      (if BelongsTo(shows[0], o) && shows[0].startTime > now then [shows[0]] else [])
        + UpcomingShows(shows[1..], o, now)
  }

  /** Every show of the owner lands in exactly one of the two lists, as often
      as it occurs in the table. */
  lemma {:induction false} PastAndUpcomingPartition(shows: seq<Show>, o: Owner, now: int)
    ensures multiset(PastShows(shows, o, now)) + multiset(UpcomingShows(shows, o, now))
            == multiset(ShowsOf(shows, o))
  {
    if shows != [] {
      PastAndUpcomingPartition(shows[1..], o, now);
    }
  }

  /** The lists and counts the page is rendered from. */
  function PageShows(shows: seq<Show>, o: Owner, now: int): (p: ShowLists)
    ensures p.pastShowsCount == |p.pastShows| && p.upcomingShowsCount == |p.upcomingShows|
    ensures p.pastShowsCount + p.upcomingShowsCount == |ShowsOf(shows, o)|
    ensures forall s :: s in p.pastShows ==> BelongsTo(s, o) && s.startTime <= now
    ensures forall s :: s in p.upcomingShows ==> BelongsTo(s, o) && s.startTime > now
    ensures forall s :: s in shows && BelongsTo(s, o) ==> (s in p.pastShows || s in p.upcomingShows)
  {
    var past := PastShows(shows, o, now);
    var upcoming := UpcomingShows(shows, o, now);
    PastAndUpcomingPartition(shows, o, now);
    assert |multiset(past) + multiset(upcoming)| == |past| + |upcoming|;
    ShowLists(past, |past|, upcoming, |upcoming|)
  }
}
