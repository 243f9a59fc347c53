/** The three tables of the booking directory (app.py:47-102) as values.
    Times are seconds since an arbitrary epoch; ids are the serial primary keys. */
module Records {

  datatype Option<T> = None | Some(value: T)

  datatype Venue = Venue(
    id: int, name: string, city: string, state: string, address: string,
    phone: string, imageLink: string, facebookLink: string, website: string,
    genres: string, seekingTalent: bool, seekingDescription: string)

  datatype Artist = Artist(
    id: int, name: string, city: string, state: string, phone: string,
    genres: string, imageLink: string, website: string, facebookLink: string,
    seekingVenue: bool, seekingDescription: string)

  /** A show links one artist to one venue at one start time. */
  datatype Show = Show(id: int, venueId: int, artistId: int, startTime: int)

  /** The columns the listing and search pages read from a venue or an artist. */
  datatype Row = Row(id: int, name: string, city: string, state: string)

  function VenueRow(v: Venue): Row { Row(v.id, v.name, v.city, v.state) }
  function ArtistRow(a: Artist): Row { Row(a.id, a.name, a.city, a.state) }

  function VenueRows(vs: seq<Venue>): (rows: seq<Row>)
    ensures |rows| == |vs|
    ensures forall i :: 0 <= i < |vs| ==> rows[i] == VenueRow(vs[i])
    ensures VenueIdsIncreasing(vs) ==> RowIdsIncreasing(rows)
  {
    seq(|vs|, i requires 0 <= i < |vs| => VenueRow(vs[i]))
  }

  function ArtistRows(artists: seq<Artist>): (rows: seq<Row>)
    ensures |rows| == |artists|
    ensures forall i :: 0 <= i < |artists| ==> rows[i] == ArtistRow(artists[i])
    ensures ArtistIdsIncreasing(artists) ==> RowIdsIncreasing(rows)
  {
    seq(|artists|, i requires 0 <= i < |artists| => ArtistRow(artists[i]))
  }

  /** A table scanned in primary-key order: ids strictly increase. */
  predicate VenueIdsIncreasing(vs: seq<Venue>) {
    forall i, j :: 0 <= i < j < |vs| ==> vs[i].id < vs[j].id
  }

  predicate ArtistIdsIncreasing(artists: seq<Artist>) {
    forall i, j :: 0 <= i < j < |artists| ==> artists[i].id < artists[j].id
  }

  predicate ShowIdsIncreasing(ss: seq<Show>) {
    forall i, j :: 0 <= i < j < |ss| ==> ss[i].id < ss[j].id
  }

  predicate RowIdsIncreasing(rows: seq<Row>) {
    forall i, j :: 0 <= i < j < |rows| ==> rows[i].id < rows[j].id
  }

  predicate HasVenue(vs: seq<Venue>, id: int) {
    exists i :: 0 <= i < |vs| && vs[i].id == id
  }

  predicate HasArtist(artists: seq<Artist>, id: int) {
    exists i :: 0 <= i < |artists| && artists[i].id == id
  }

  /** `Venue.query.get(id)`: the venue with that primary key, or None. */
  function VenueById(vs: seq<Venue>, id: int): (r: Option<Venue>)
    ensures r.Some? ==> r.value in vs && r.value.id == id
    ensures r.None? <==> !HasVenue(vs, id)
  {
    if vs == [] then None
    else if vs[0].id == id then Some(vs[0])
    else
      var r := VenueById(vs[1..], id);
      assert HasVenue(vs, id) ==> HasVenue(vs[1..], id) by {
        if HasVenue(vs, id) {
          var i :| 0 <= i < |vs| && vs[i].id == id;
          assert vs[1..][i - 1].id == id;
        }
      }
      r
  }

  /** `Artist.query.get(id)`: the artist with that primary key, or None. */
  function ArtistById(artists: seq<Artist>, id: int): (r: Option<Artist>)
    ensures r.Some? ==> r.value in artists && r.value.id == id
    ensures r.None? <==> !HasArtist(artists, id)
  {
    if artists == [] then None
    else if artists[0].id == id then Some(artists[0])
    else
      var r := ArtistById(artists[1..], id);
      assert HasArtist(artists, id) ==> HasArtist(artists[1..], id) by {
        if HasArtist(artists, id) {
          var i :| 0 <= i < |artists| && artists[i].id == id;
          assert artists[1..][i - 1].id == id;
        }
      }
      r
  }
}
