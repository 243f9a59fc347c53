/** The record store behind the handlers: the venue, artist and show tables,
    each kept in primary-key order, with serial id counters. Every handler
    that writes runs as one transaction: it either commits all of its changes
    or rolls back and leaves the tables as they were. `commitFails` stands for
    a failure the database reports at commit time. */
module Directory {
  import opened Records
  import opened Booking

  datatype CreateOutcome =
    | Created(id: int)
    | CreateFailed   // rolled back; the handler's own error message then raises, so HTTP 500

  datatype BookingOutcome =
    | ArtistNotFound // `artist.parents` on None, outside the try block: HTTP 500
    | TimeConflict   // "This time was booked. Please reselect."
    | ShowListed(id: int)
    | ShowNotListed  // rolled back: unknown venue (NOT NULL venue_id) or a failed commit

  datatype DeleteOutcome =
    | Deleted(name: string)
    | DeleteFailed   // rolled back, then `abort(500)`

  /** The shows left once every show of venue `venueId` is deleted, in order. */
  function ShowsWithoutVenue(shows: seq<Show>, venueId: int): (r: seq<Show>)
    ensures forall s :: s in r <==> s in shows && s.venueId != venueId
    ensures ShowIdsIncreasing(shows) ==> ShowIdsIncreasing(r)
  {
    if shows == [] then []
    else
      var init := shows[..|shows| - 1];
      var last := shows[|shows| - 1];
      assert shows == init + [last];
      var rest := ShowsWithoutVenue(init, venueId);
      rest + (if last.venueId != venueId then [last] else [])
  }

  /** The venue table once venue `venueId` is deleted, in order. */
  function VenuesWithout(venues: seq<Venue>, venueId: int): (r: seq<Venue>)
    ensures forall v :: v in r <==> v in venues && v.id != venueId
    ensures VenueIdsIncreasing(venues) ==> VenueIdsIncreasing(r)
  {
    if venues == [] then []
    else
      var rest := VenuesWithout(venues[1..], venueId);
      assert venues == [venues[0]] + venues[1..];
      if venues[0].id != venueId then [venues[0]] + rest else rest
  }

  /** The loop over `venue.children`, deleting each show of the venue. */
  method DeleteShowsOf(shows: seq<Show>, venueId: int) returns (kept: seq<Show>)
    ensures kept == ShowsWithoutVenue(shows, venueId)
  {
    kept := [];
    for i := 0 to |shows|
      invariant kept == ShowsWithoutVenue(shows[..i], venueId)
    {
      assert shows[..i + 1][..i] == shows[..i];
      if shows[i].venueId != venueId {
        kept := kept + [shows[i]];
      }
    }
    assert shows[..|shows|] == shows;
  }

  /** The store's invariant: keys are unique and increasing, below the next
      serial value, and every show refers to an existing venue and an
      existing artist (the two foreign keys of the show table). */
  ghost predicate Consistent(venues: seq<Venue>, artists: seq<Artist>, shows: seq<Show>,
                             nextVenueId: int, nextArtistId: int, nextShowId: int)
  {
    && VenueIdsIncreasing(venues) && ArtistIdsIncreasing(artists) && ShowIdsIncreasing(shows)
    && (forall v :: v in venues ==> v.id < nextVenueId)
    && (forall a :: a in artists ==> a.id < nextArtistId)
    && (forall s :: s in shows ==> s.id < nextShowId)
    && (forall s :: s in shows ==> HasVenue(venues, s.venueId) && HasArtist(artists, s.artistId))
  }

  /** Storing a venue under the next serial id keeps the store consistent. */
  lemma VenueAddedKeepsConsistent(venues: seq<Venue>, artists: seq<Artist>, shows: seq<Show>,
                                  nv: int, na: int, ns: int, v: Venue)
    requires Consistent(venues, artists, shows, nv, na, ns)
    ensures Consistent(venues + [v.(id := nv)], artists, shows, nv + 1, na, ns)
  {
    var all := venues + [v.(id := nv)];
    forall s | s in shows ensures HasVenue(all, s.venueId) {
      var i :| 0 <= i < |venues| && venues[i].id == s.venueId;
      assert all[i] == venues[i];
    }
  }

  /** Storing an artist under the next serial id keeps the store consistent. */
  lemma ArtistAddedKeepsConsistent(venues: seq<Venue>, artists: seq<Artist>, shows: seq<Show>,
                                   nv: int, na: int, ns: int, a: Artist)
    requires Consistent(venues, artists, shows, nv, na, ns)
    ensures Consistent(venues, artists + [a.(id := na)], shows, nv, na + 1, ns)
  {
    var all := artists + [a.(id := na)];
    forall s | s in shows ensures HasArtist(all, s.artistId) {
      var i :| 0 <= i < |artists| && artists[i].id == s.artistId;
      assert all[i] == artists[i];
    }
  }

  /** Storing a show of an existing artist at an existing venue under the next
      serial id keeps the store consistent. */
  lemma ShowAddedKeepsConsistent(venues: seq<Venue>, artists: seq<Artist>, shows: seq<Show>,
                                 nv: int, na: int, ns: int, venueId: int, artistId: int, t: int)
    requires Consistent(venues, artists, shows, nv, na, ns)
    requires HasVenue(venues, venueId) && HasArtist(artists, artistId)
    ensures Consistent(venues, artists, shows + [Show(ns, venueId, artistId, t)], nv, na, ns + 1)
  {
  }

  /** Deleting a venue together with its shows keeps the store consistent:
      every show left still refers to an existing venue. */
  lemma VenueDeletedKeepsConsistent(venues: seq<Venue>, artists: seq<Artist>, shows: seq<Show>,
                                    nv: int, na: int, ns: int, venueId: int)
    requires Consistent(venues, artists, shows, nv, na, ns)
    ensures Consistent(VenuesWithout(venues, venueId), artists, ShowsWithoutVenue(shows, venueId), nv, na, ns)
  {
    var remaining := VenuesWithout(venues, venueId);
    forall s | s in ShowsWithoutVenue(shows, venueId) ensures HasVenue(remaining, s.venueId) {
      var i :| 0 <= i < |venues| && venues[i].id == s.venueId;
      assert venues[i] in remaining;
      var j :| 0 <= j < |remaining| && remaining[j] == venues[i];
    }
  }

  /** Deleting a venue's shows keeps the remaining shows spaced. */
  lemma DeletionKeepsSpacing(shows: seq<Show>, venueId: int, now: int)
    requires WellSpaced(shows, now)
    ensures WellSpaced(ShowsWithoutVenue(shows, venueId), now)
  {
  }

  /** The rows the searches read from a consistent store are in ascending id
      order, which is what the search lemmas assume of their input. */
  lemma StoreRowsIdOrdered(s: Store)
    requires s.Valid()
    ensures RowIdsIncreasing(VenueRows(s.venues)) && RowIdsIncreasing(ArtistRows(s.artists))
  {
  }

  class Store {
    var venues: seq<Venue>
    var artists: seq<Artist>
    var shows: seq<Show>
    var nextVenueId: int
    var nextArtistId: int
    var nextShowId: int

    ghost predicate Valid()
      reads this
    {
      Consistent(venues, artists, shows, nextVenueId, nextArtistId, nextShowId)
    }

    constructor ()
      ensures Valid()
      ensures venues == [] && artists == [] && shows == []
    {
      venues, artists, shows := [], [], [];
      nextVenueId, nextArtistId, nextShowId := 1, 1, 1;
    }

    /** `create_venue_submission` (app.py:295-334): the venue is stored under
        the next serial id, or nothing changes. */
    method CreateVenue(v: Venue, commitFails: bool) returns (o: CreateOutcome)
      requires Valid()
      modifies this
      ensures Valid()
      ensures commitFails ==> o == CreateFailed && unchanged(this)
      ensures !commitFails ==>
        && o == Created(old(nextVenueId))
        && venues == old(venues) + [v.(id := old(nextVenueId))]
        && nextVenueId == old(nextVenueId) + 1
        && artists == old(artists) && shows == old(shows)
        && nextArtistId == old(nextArtistId) && nextShowId == old(nextShowId)
    {
      if commitFails {
        return CreateFailed;
      }
      var id := nextVenueId;
      VenueAddedKeepsConsistent(venues, artists, shows, nextVenueId, nextArtistId, nextShowId, v);
      venues := venues + [v.(id := id)];
      nextVenueId := id + 1;
      o := Created(id);
    }

    /** `create_artist_submission` (app.py:596-634). */
    method CreateArtist(a: Artist, commitFails: bool) returns (o: CreateOutcome)
      requires Valid()
      modifies this
      ensures Valid()
      ensures commitFails ==> o == CreateFailed && unchanged(this)
      ensures !commitFails ==>
        && o == Created(old(nextArtistId))
        && artists == old(artists) + [a.(id := old(nextArtistId))]
        && nextArtistId == old(nextArtistId) + 1
        && venues == old(venues) && shows == old(shows)
        && nextVenueId == old(nextVenueId) && nextShowId == old(nextShowId)
    {
      if commitFails {
        return CreateFailed;
      }
      var id := nextArtistId;
      ArtistAddedKeepsConsistent(venues, artists, shows, nextVenueId, nextArtistId, nextShowId, a);
      artists := artists + [a.(id := id)];
      nextArtistId := id + 1;
      o := Created(id);
    }

    /** `create_show_submission` (app.py:674-713): refused when the artist has
        a show after `now` within three hours of `startTime`; otherwise exactly
        one show linking the artist and the venue is added, or nothing changes. */
    method CreateShow(artistId: int, venueId: int, startTime: int, now: int, commitFails: bool)
      returns (o: BookingOutcome)
      requires Valid()
      modifies this
      ensures Valid()
      ensures !HasArtist(old(artists), artistId) ==> o == ArtistNotFound && unchanged(this)
      ensures HasArtist(old(artists), artistId) && Rejected(old(shows), artistId, now, startTime) ==>
                o == TimeConflict && unchanged(this)
      ensures HasArtist(old(artists), artistId) && !Rejected(old(shows), artistId, now, startTime)
              && (commitFails || !HasVenue(old(venues), venueId)) ==>
                o == ShowNotListed && unchanged(this)
      ensures HasArtist(old(artists), artistId) && !Rejected(old(shows), artistId, now, startTime)
              && !commitFails && HasVenue(old(venues), venueId) ==>
                && o == ShowListed(old(nextShowId))
                && shows == old(shows) + [Show(old(nextShowId), venueId, artistId, startTime)]
                && nextShowId == old(nextShowId) + 1
                && venues == old(venues) && artists == old(artists)
                && nextVenueId == old(nextVenueId) && nextArtistId == old(nextArtistId)
      ensures WellSpaced(old(shows), now) ==> WellSpaced(shows, now)
    {
      if ArtistById(artists, artistId).None? {
        return ArtistNotFound;
      }
      var clash := IsDoubleBooking(shows, artistId, now, startTime);
      if clash {
        return TimeConflict;
      }
      if commitFails || VenueById(venues, venueId).None? {
        return ShowNotListed;
      }
      var s := Show(nextShowId, venueId, artistId, startTime);
      if WellSpaced(shows, now) {
        AcceptedBookingKeepsSpacing(shows, s, now);
      }
      ShowAddedKeepsConsistent(venues, artists, shows, nextVenueId, nextArtistId, nextShowId,
                               venueId, artistId, startTime);
      shows := shows + [s];
      nextShowId := nextShowId + 1;
      o := ShowListed(s.id);
    }

    /** `delete_venue` (app.py:337-359): every show of the venue is deleted,
        then the venue, in one commit; an unknown venue or a failed commit
        leaves everything as it was. */
    method DeleteVenue(venueId: int, commitFails: bool) returns (o: DeleteOutcome)
      requires Valid()
      modifies this
      ensures Valid()
      ensures (!HasVenue(old(venues), venueId) || commitFails) ==> o == DeleteFailed && unchanged(this)
      ensures HasVenue(old(venues), venueId) && !commitFails ==>
                && o == Deleted(VenueById(old(venues), venueId).value.name)
                && venues == VenuesWithout(old(venues), venueId)
                && shows == ShowsWithoutVenue(old(shows), venueId)
                && artists == old(artists)
                && nextVenueId == old(nextVenueId) && nextArtistId == old(nextArtistId)
                && nextShowId == old(nextShowId)
    {
      var venue := VenueById(venues, venueId);
      if venue.None? {
        return DeleteFailed;
      }
      var kept := DeleteShowsOf(shows, venueId);
      if commitFails {
        return DeleteFailed;
      }
      VenueDeletedKeepsConsistent(venues, artists, shows, nextVenueId, nextArtistId, nextShowId, venueId);
      venues := VenuesWithout(venues, venueId);
      shows := kept;
      o := Deleted(venue.value.name);
    }
  }
}
