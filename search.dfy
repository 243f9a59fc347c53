/** `search_venues` (app.py:172-226) and `search_artists` (app.py:379-435):
    the two handlers are the same code over different tables, so one method
    serves both, given `VenueRows(venues)` or `ArtistRows(artists)`. */
module Search {
  import opened Records
  import opened Like

  /** The posted form: each field is present or absent. */
  datatype SearchForm = SearchForm(searchTerm: Option<string>, city: Option<string>, state: Option<string>)

  datatype Hit = Hit(id: int, name: string)

  datatype Results = Results(count: nat, data: seq<Hit>)

  datatype Outcome =
    | ByName(shownTerm: string, results: Results)      // results page for a name search
    | ByLocation(shownTerm: string, results: Results)  // results page for a city/state search
    | BadRequest                                   // `city` posted without `state`: KeyError, HTTP 400
    | BackToList                                   // redirect to the listing page

  /** `filter(name.like("%term%")).order_by(id)` over a table scanned by id. */
  function NameMatches(rows: seq<Row>, term: string): (r: seq<Row>)
    ensures forall x :: x in r <==> x in rows && Matches(Wrap(term), x.name)
    ensures RowIdsIncreasing(rows) ==> RowIdsIncreasing(r)
  {
    if rows == [] then []
    else
      var rest := NameMatches(rows[1..], term);
      assert forall x :: x in rows[1..] ==> x in rows;
      if Matches(Wrap(term), rows[0].name) then [rows[0]] + rest else rest
  }

  /** `filter(city == city, state == state).order_by(id)`. */
  function LocationMatches(rows: seq<Row>, city: string, state: string): (r: seq<Row>)
    ensures forall x :: x in r <==> x in rows && x.city == city && x.state == state
    ensures RowIdsIncreasing(rows) ==> RowIdsIncreasing(r)
  {
    if rows == [] then []
    else
      var rest := LocationMatches(rows[1..], city, state);
      assert forall x :: x in rows[1..] ==> x in rows;
      if rows[0].city == city && rows[0].state == state then [rows[0]] + rest else rest
  }

  /** The `{"id", "name"}` entries a results page lists, one per row, in order. */
  function HitsOf(rows: seq<Row>): (hits: seq<Hit>)
    ensures |hits| == |rows|
  {
    seq(|rows|, k requires 0 <= k < |rows| => Hit(rows[k].id, rows[k].name))
  }

  /** Builds `response` by appending one entry per matching row (app.py:187-195). */
  method Respond(res: seq<Row>) returns (results: Results)
    ensures results.count == |results.data| == |res|
    ensures forall k :: 0 <= k < |res| ==> results.data[k] == Hit(res[k].id, res[k].name)
  {
    var data: seq<Hit> := [];
    for k := 0 to |res|
      invariant |data| == k
      invariant forall m :: 0 <= m < k ==> data[m] == Hit(res[m].id, res[m].name)
    {
      data := data + [Hit(res[k].id, res[k].name)];
    }
    results := Results(|res|, data);
  }

  predicate NameSearch(form: SearchForm) {
    form.searchTerm.Some? && form.searchTerm.value != []
  }

  /** A non-empty search term runs the name search; otherwise a posted city
      runs the location search (and needs a posted state); otherwise the
      handler redirects to the listing. */
  method Search(rows: seq<Row>, form: SearchForm) returns (o: Outcome)
    ensures NameSearch(form) ==>
      o.ByName? && o.shownTerm == form.searchTerm.value &&
      o.results == Results(|NameMatches(rows, o.shownTerm)|, HitsOf(NameMatches(rows, o.shownTerm)))
    ensures !NameSearch(form) && form.city.Some? && form.state.None? ==> o == BadRequest
    ensures !NameSearch(form) && form.city.Some? && form.state.Some? ==>
      o.ByLocation? && o.shownTerm == form.city.value + " " + form.state.value &&
      o.results == Results(|LocationMatches(rows, form.city.value, form.state.value)|,
                           HitsOf(LocationMatches(rows, form.city.value, form.state.value)))
    ensures !NameSearch(form) && form.city.None? ==> o == BackToList
  {
    if NameSearch(form) {
      var term := form.searchTerm.value;
      var results := Respond(NameMatches(rows, term));
      return ByName(term, results);
    }
    if form.city.Some? {
      if form.state.None? {
        return BadRequest;
      }
      var city, state := form.city.value, form.state.value;
      var results := Respond(LocationMatches(rows, city, state));
      return ByLocation(city + " " + state, results);
    }
    return BackToList;
  }

  /** A name search for a term without wildcards lists exactly the records
      whose name contains the term (case-sensitively), each once, in
      ascending id order. */
  lemma NameSearchListsContainingNames(rows: seq<Row>, term: string)
    requires Literal(term)
    requires RowIdsIncreasing(rows)
    ensures forall h :: h in HitsOf(NameMatches(rows, term)) <==>
              exists x :: x in rows && x.id == h.id && x.name == h.name && Contains(x.name, term)
    ensures forall i, j :: 0 <= i < j < |HitsOf(NameMatches(rows, term))| ==>
              HitsOf(NameMatches(rows, term))[i].id < HitsOf(NameMatches(rows, term))[j].id
  {
    var r := NameMatches(rows, term);
    forall x | x in rows ensures Matches(Wrap(term), x.name) <==> Contains(x.name, term) {
      WrapMatchesIffContains(term, x.name);
    }
    forall h | h in HitsOf(r)
      ensures exists x :: x in rows && x.id == h.id && x.name == h.name && Contains(x.name, term)
    {
      var k :| 0 <= k < |r| && HitsOf(r)[k] == h;
      assert r[k] in r;
    }
    forall h: Hit | exists x :: x in rows && x.id == h.id && x.name == h.name && Contains(x.name, term)
      ensures h in HitsOf(r)
    {
      var x :| x in rows && x.id == h.id && x.name == h.name && Contains(x.name, term);
      var k :| 0 <= k < |r| && r[k] == x;
      assert HitsOf(r)[k] == h;
    }
  }

  /** A location search lists exactly the records with that city and state, in
      ascending id order. */
  lemma LocationSearchListsExactMatches(rows: seq<Row>, city: string, state: string)
    requires RowIdsIncreasing(rows)
    ensures forall h :: h in HitsOf(LocationMatches(rows, city, state)) <==>
              exists x :: x in rows && x.id == h.id && x.name == h.name && x.city == city && x.state == state
    ensures forall i, j :: 0 <= i < j < |HitsOf(LocationMatches(rows, city, state))| ==>
              HitsOf(LocationMatches(rows, city, state))[i].id < HitsOf(LocationMatches(rows, city, state))[j].id
  {
    var r := LocationMatches(rows, city, state);
    forall h | h in HitsOf(r)
      ensures exists x :: x in rows && x.id == h.id && x.name == h.name && x.city == city && x.state == state
    {
      var k :| 0 <= k < |r| && HitsOf(r)[k] == h;
      assert r[k] in r;
    }
    forall h: Hit | exists x :: x in rows && x.id == h.id && x.name == h.name && x.city == city && x.state == state
      ensures h in HitsOf(r)
    {
      var x :| x in rows && x.id == h.id && x.name == h.name && x.city == city && x.state == state;
      var k :| 0 <= k < |r| && r[k] == x;
      assert HitsOf(r)[k] == h;
    }
  }
}
