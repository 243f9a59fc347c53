# Fyyur booking directory — a verified Dafny model

Fyyur is a small Flask site that lists venues and artists and books shows, where a show links one artist to one venue at one start time. This project models the logic inside `app.py` and proves properties about it. The web layer, the ORM and the database are not modelled.

- **Records** (`records.dfy`): the `Venue`, `Artist` and `Show` tables as datatypes. `Venue.query.get` / `Artist.query.get` are lookups that return an `Option`.
- **Genres** (`genres.dfy`): decoding of the stored `genres` column. The code drops the first and last character, splits the rest on `,`, and strips `"` from both ends of every piece. `Render` models the database's `{a,"b"}` text form of a genre list, without the backslash escapes. It is used only to state the round trip.
- **Like** (`like.dfy`): SQL `LIKE` with `%` and `_`. A lemma proves that the pattern `%term%` matches exactly the names that contain `term`, for a term without wildcards.
- **Search** (`search.dfy`): `search_venues` and `search_artists`. Both handlers run the same code over different tables, so one `Search` method serves both. It takes the table's `(id, name, city, state)` rows.
- **Areas** (`areas.dfy`): the `venues` listing. It takes the distinct `(city, state)` pairs ordered by state and then city, and builds one group per pair with the nested loops of the handler.
- **Pages** (`pages.dfy`): the past/upcoming split of a venue's or an artist's shows, with the counts.
- **Booking** (`booking.dfy`): the artist double-booking rule of `create_show_submission`. A proposed time `t` is refused when some show of the same artist that starts after `now` starts at a time `b` with `b - 10800 <= t <= b + 10800`.
- **Directory** (`directory.dfy`): the store, a class `Store` whose three tables are `seq` fields kept in primary-key order, with serial id counters. Creating a show and deleting a venue (with its shows) are methods that change the store in place. They are all-or-nothing: a failure leaves every field unchanged.

Times are whole seconds, and the current time `now` is a parameter. A failing database commit is the parameter `commitFails`.

The comments at app.py:174-176 and app.py:381-383 ask for a case-insensitive search, but the code uses `like`, so the model is case-sensitive: `Like.LowerCaseHopMissesMusicalHop` proves that the pattern `%hop%` does not match "The Musical Hop".

## Model

| member | source | states |
|---|---|---|
| Records.VenueById | app.py:233 | returns the venue with the given id when one exists, and None exactly when no venue has that id |
| Records.ArtistById | app.py:681 | returns the artist with the given id when one exists, and None exactly when no artist has that id |
| Records.VenueRows | app.py:183-184 | the venue table as the search queries read it: one `(id, name, city, state)` projection per venue, in table order, so a table kept in ascending id order gives rows in the `order_by(Venue.id)` order (also read at app.py:206-207) |
| Records.ArtistRows | app.py:390-391 | the same projection of the artist table, giving rows in the `order_by(Artist.id)` order (also read at app.py:413-416) |
| Genres.Inner | app.py:234 | `[1:-1]` is the text between the first and last character: putting those two back gives the column; it is empty for a column shorter than two characters |
| Genres.Split | app.py:234 | `split(",")` yields one piece per comma plus one, and no piece contains a comma |
| Genres.StripLeading | app.py:238 | the leading-quote pass keeps a suffix of the piece, removes only quotes, and leaves no quote at the front |
| Genres.StripTrailing | app.py:238 | the trailing-quote pass keeps a prefix of the piece, removes only quotes, and leaves no quote at the end |
| Genres.LeadingQuotesExactly | app.py:238 | when the piece starts with exactly `n` quotes, exactly those `n` are removed from the front |
| Genres.TrailingQuotesExactly | app.py:238 | when everything from position `m` on is a quote and the character before `m` is not, exactly that run is removed from the end |
| Genres.Strip | app.py:238 | `strip('"')` yields a contiguous slice of the piece with only quotes cut from either side, and the result neither begins nor ends with a quote |
| Genres.StripKeepsCommaFree | app.py:238 | stripping a comma-free piece leaves it comma-free |
| Genres.Decode | app.py:234-238 | the decoded list has one entry per comma in the inner text plus one; no entry contains a comma or begins or ends with a quote |
| Genres.EmptyListDecodesToOneEmptyGenre | app.py:234-238 | a column holding `{}` decodes to one empty genre, not to an empty list |
| Genres.SplitJoin | app.py:234 | splitting a comma-joined list of comma-free pieces gives the pieces back |
| Genres.JoinSplit | app.py:234 | joining the pieces of a split with commas gives the original text back |
| Genres.StripUnquoted | app.py:238 | stripping gives back an unquoted genre, whether it was written bare or inside one pair of quotes |
| Genres.DecodeRender | app.py:234-238 | decoding the database's rendering of a non-empty genre list gives the list back, when no genre contains a comma, a quote or a backslash |
| Like.Matches | app.py:183 | `LIKE` with `%` and `_`; a pattern without wildcards matches exactly the string equal to it |
| Like.Wrap | app.py:181 | the search pattern is the term between a leading and a trailing `%` |
| Like.WrapMatchesIffContains | app.py:181-183 | for a term without `%` or `_`, the pattern `%term%` matches a name if and only if the name contains the term |
| Like.PrefixThenAnything | app.py:181 | `term%` matches exactly the strings that begin with the term |
| Like.AnyPrefixThenRest | app.py:181 | `%q` matches exactly the strings that have a suffix matching `q` |
| Like.LowerCaseHopMissesMusicalHop | app.py:174-183 | the search is case-sensitive: the pattern `%hop%` does not match "The Musical Hop" |
| Like.MusicFindsBothExampleVenues | app.py:176 | the pattern `%Music%` matches "The Musical Hop" and "Park Square Live Music & Coffee" |
| Like.FoundAt | app.py:181-183 | a literal term that occurs in a name at some position is found by the `%term%` pattern |
| Search.NameMatches | app.py:182-186 | the name query keeps exactly the rows whose name matches `%term%`, and keeps ascending id order |
| Search.LocationMatches | app.py:205-209 | the location query keeps exactly the rows with equal city and equal state, and keeps ascending id order |
| Search.Respond | app.py:187-195 | the response lists one `(id, name)` entry per result row, in order, and `count` equals the number of entries |
| Search.Search | app.py:177-226 | a non-empty term runs the name search; otherwise a posted city runs the location search (400 when state is missing); otherwise the handler redirects; the same code serves artists at app.py:384-435 |
| Search.NameSearchListsContainingNames | app.py:178-201 | a name search with a literal term lists exactly the records whose name contains the term, in strictly ascending id order |
| Search.LocationSearchListsExactMatches | app.py:202-224 | a location search lists exactly the records with that city and state, in strictly ascending id order |
| Areas.StrLessTransitive | app.py:152 | the string order used for `order_by` is transitive |
| Areas.StrLessTotal | app.py:152 | any two different strings are ordered one way or the other |
| Areas.KeyLessIsStrictTotalOrder | app.py:152 | ordering by state and then city is irreflexive, transitive and total on distinct pairs |
| Areas.Insert | app.py:149-154 | adding a pair to the distinct list adds exactly that pair |
| Areas.InsertKeepsSorted | app.py:149-154 | adding a pair keeps the list strictly ordered by state and then city |
| Areas.AreaKeys | app.py:149-154 | the distinct pairs are exactly the `(city, state)` pairs of the venues |
| Areas.AreaKeysSorted | app.py:149-154 | the distinct pairs come strictly ordered by state and then city |
| Areas.Members | app.py:159-167 | a group lists the `(id, name)` of exactly the venues with that city and state |
| Areas.ListAreas | app.py:155-168 | the nested loops build one group per distinct pair, in order, each holding exactly that pair's venues |
| Areas.AreasOrderedAndDistinct | app.py:149-154 | the groups are in strictly increasing (state, city) order, so no pair is listed twice |
| Areas.EveryVenueInExactlyOneArea | app.py:155-168 | with distinct venue ids, every venue is listed in exactly one group, the one for its own city and state |
| Pages.ShowsOf | app.py:251 | exactly the shows that belong to the venue (or the artist) |
| Pages.PastShows | app.py:250-252 | exactly the owner's shows that start at or before `now` |
| Pages.UpcomingShows | app.py:266-268 | exactly the owner's shows that start after `now` |
| Pages.PastAndUpcomingPartition | app.py:250-280 | the past and upcoming lists together hold every show of the owner exactly as often as the table does |
| Pages.PageShows | app.py:249-280 | each count equals its list's length; the counts add up to the owner's number of shows; every show of the owner is in one of the lists; the artist page at app.py:457-488 is the same with the artist as owner |
| Booking.Clashes | app.py:688-692 | a booked time and a proposed time clash exactly when they are at most 10800 seconds apart, in either direction |
| Booking.ClashWindow | app.py:688-692 | the window is symmetric; exactly three hours apart clashes and one second more does not |
| Booking.BookedTimes | app.py:683-685 | the booked times are exactly the start times of the artist's shows after `now` |
| Booking.Rejected | app.py:683-694 | a refusal needs a future show of the artist, so a proposed time three hours or more before `now` is never refused |
| Booking.FindClash | app.py:687-694 | the loop reports a clash if and only if some booked time lies within the inclusive window |
| Booking.BookedTimesClashIffRejected | app.py:683-694 | scanning the booked times finds a clash exactly when some future show of the same artist clashes |
| Booking.IsDoubleBooking | app.py:683-694 | the check refuses the booking if and only if a future show of the same artist starts within three hours of the proposed time |
| Booking.NoFutureShowsNoRejection | app.py:683-687 | an artist with no show after `now` is never refused |
| Booking.OtherShowsIgnored | app.py:683-685 | adding shows of other artists, or shows at or before `now` at any venue, never changes the decision |
| Booking.AcceptedBookingKeepsSpacing | app.py:687-699 | adding an accepted show keeps every artist's future shows more than three hours apart |
| Booking.SpacingPersists | app.py:683-685 | spacing that holds at one time still holds at any later time |
| Directory.ShowsWithoutVenue | app.py:345-346 | after the cascade, the shows left are exactly the shows whose venue is a different one, in order |
| Directory.VenuesWithout | app.py:347 | the venues left are exactly the other venues, in order |
| Directory.DeleteShowsOf | app.py:345-346 | the loop over the venue's shows leaves exactly the shows of other venues, in table order |
| Directory.VenueAddedKeepsConsistent | app.py:47-65 | storing a venue under the next serial id keeps keys increasing and below the counters, and keeps every show's venue and artist references valid |
| Directory.ArtistAddedKeepsConsistent | app.py:47-88 | storing an artist under the next serial id keeps the store consistent in the same sense |
| Directory.ShowAddedKeepsConsistent | app.py:47-53 | a show stored under the next serial id, for an existing venue and artist, keeps the store consistent |
| Directory.VenueDeletedKeepsConsistent | app.py:342-348 | deleting a venue together with all its shows leaves no show pointing at a missing venue and keeps the store consistent |
| Directory.StoreRowsIdOrdered | app.py:183-184 | the rows the searches read from a consistent store come in ascending id order, as `order_by(Venue.id)` / `order_by(Artist.id)` (app.py:390-391) return them |
| Directory.DeletionKeepsSpacing | app.py:345-348 | deleting a venue's shows keeps the remaining future shows spaced |
| Directory.Store.CreateVenue | app.py:295-334 | the venue is appended under the next serial id, or on failure nothing changes |
| Directory.Store.CreateArtist | app.py:596-634 | the artist is appended under the next serial id, or on failure nothing changes |
| Directory.Store.CreateShow | app.py:674-713 | an unknown artist gives a 500 and no change; a clash gives "time conflict" and no change; an unknown venue or a failed commit gives no change; otherwise exactly one show with the given artist, venue and time is appended and nothing else changes; spacing of future shows is preserved |
| Directory.Store.DeleteVenue | app.py:337-359 | on success the venue and every show with its id are gone and all other venues, artists and shows are unchanged; an unknown venue or a failed commit gives a 500 and no change |

## Left out

- Flask routing, templates, `flash`, `redirect`, `jsonify` and the reading of `request.form`: presentation and I/O. The search form is the value `SearchForm`, and the outcomes of the handlers are datatypes.
- SQLAlchemy sessions, `commit`/`rollback`/`close` and the column declarations: a foreign library. The store applies all of an operation's changes or none. A failure at commit is the parameter `commitFails`. The serial counters `nextVenueId`, `nextArtistId` and `nextShowId` move only on success, whereas a database sequence is used up by a failed INSERT too (for example the show for an unknown venue, whose NULL `venue_id` fails at app.py:698-699); so the model's ids can be smaller than the database's, though they stay unique and increasing.
- Booking.AcceptedBookingKeepsSpacing and Directory.Store.CreateShow: handlers are modelled one at a time. The source reads the artist's future shows (app.py:683-685) and commits the new show (app.py:699) as separate steps with no lock between them, so two concurrent bookings for the same artist can both pass the check and leave two future shows less than three hours apart; the spacing results hold only for bookings that run one after another.
- `format_datetime` (app.py:114-123): babel and dateutil formatting, foreign calls.
- `dateutil.parser.parse` and `time.mktime` (app.py:689-691): times are integer seconds. A start time that does not parse is not modelled.
- The per-show display entries of the venue and artist pages (names, image links, `str(start_time)`) are not modelled: the lists hold the shows themselves. The past-show entries of a venue page use the key `artint_id` (app.py:257) where the upcoming ones use `artist_id` (app.py:273). The pages also do not guard against an unknown venue or artist id (app.py:233, 442); both of these are presentation-level behaviour outside the model.
- The field-by-field create and edit handlers (app.py:295-334, 517-582, 596-634): `CreateVenue` and `CreateArtist` take a finished record. The form-to-record mapping and the edit handlers are not modelled. In them a seeking flag is true exactly when its key is present in the form (app.py:312, 532, 579). On a failed create, the handler's own error message concatenates a string with a list, so the user gets a 500 (`CreateFailed`).
- The home page (app.py:130-136), the artist listing (app.py:366-376) and the show listing (app.py:641-663): plain queries outside the modelled core.
- The "num_shows per venue" aggregation (app.py:146, 645) is only mentioned in comments; it is never computed, so it is not modelled.
- Logging setup and `app.run` (app.py:726-751), and the migration files: no logic to model.
- Like.Matches: the backslash escape of SQL `LIKE` is not modelled; a term containing a backslash is matched as if the backslash were an ordinary character.
- Areas.AreaKeys: strings are ordered by character code; the database's collation is not modelled.
- Areas.Members: venues within a group, and shows within a page list, come in table order; the queries at app.py:159-161, 250-252 and 266-268 have no `ORDER BY`, so the database may return another order.
- Genres.Render: inside a quoted element the database writes `"` and `\` with a backslash in front, and decoding does not undo that (a genre `a"b` comes back as `a\"b`); the rendering models only the quoting, so the round trip is stated for genres without quotes or backslashes.
