# Movie database REST API: model of the data core

This Dafny project models the data core of a Node.js REST API that serves a
movie database (movies, people, genres and user ratings) out of a property
graph store. The graph store is reached only through a shared session handle.

The model covers these parts of the source:

- **Entity projectors** (`models/redis/movie.js`, `models/redis/person.js`). They turn a raw node into the object sent to the client. `Movie` normalises `duration` and attaches `my_rating`. `Person` sets `id` and `poster_image`.
- **Movie queries** (`models/movies.js`):
  - listing, by date range, by actor, director, writer and genre;
  - the detail record of one movie;
  - rating and un-rating;
  - the movies a user rated;
  - the recommendation query.
- **People queries** (`models/people.js`): listing, the detail record of one person, and the "Bacon path" people between two actors.
- **The data controller** (`controllers/data.js`):
  - the 400 parameter checks of the finder handlers;
  - the rating check and the login gate of `rateMovie` and `deleteMovieRating`;
  - the `.low` unwrapping of the movie dataset;
  - the `added N genres/movies` messages of the seeding handlers.
- **The WHERE helpers** (`neo4j/dbUtils.js`): `whereTemplate` and `dbWhere`.

## How the pieces are represented

**Values** (module `JsValues`):
- JavaScript values form one datatype, `Value`: undefined, null, booleans, numbers, NaN, strings, arrays and objects.
- `Truthy`, `Number(...)` (`ToNumber`), `parseInt(..., 10)` (`ParseInt`, truncating toward zero) and `toInteger` are written out over that datatype.
- Thrown objects are the `Thrown` case of a `Result`.

**The graph** (module `GraphModel`):
- Nodes are a sequence; a node's internal id is its position.
- Typed edges (ACTED_IN, DIRECTED, PRODUCED, WRITER_OF, IN_GENRE) are a sequence of `Edge`s.
- RATED edges are a map from (user, movie) to the integer rating, so a pair has at most one RATED edge.
- A query's rows come in ascending internal-id order.
- Property reads follow the query language: a missing property is `null`, and `null` and NaN equal nothing.
- The shared session is the class `GraphSession`, whose `graph` field the write queries update.

**Queries** (modules `Movies` and `People`):
- Each read query is a function from the graph and the parameters to the list of projected objects.
- Each write query is a function from the old graph to the new one (`RateEffect`, `DeleteRatingEffect`), plus a method on the session that applies it.

**The controller** (module `DataController`):
- A request is its path parameters, its body and the logged-in user, if any.
- A handler's answer is `Rejected(error)` (the thrown 400 object), `Unauthorized` (the login gate refused) or `Replied(body, status)`.

## Model

| member | source | states |
|---|---|---|
| Projectors.Movie | models/redis/movie.js:5-21 | every node property is copied. A truthy `duration` becomes `Number(duration)`; otherwise a truthy `runtime` supplies `duration` as `Number(runtime)`; otherwise `duration` is as in the node. `my_rating` is set exactly when the rating is truthy or 0. No other key appears. |
| Projectors.MovieDerivesNoIdOrPoster | models/redis/movie.js:8-10 | with those lines commented out, a movie's `id` and `poster_image` are exactly the node's |
| Projectors.NumericRatingIsAttached | models/redis/movie.js:18-20 | an integer rating from a RATED edge, 0 included, is always attached as `my_rating` |
| Projectors.MovieIdempotent | models/redis/movie.js:12-16 | projecting an already projected movie again changes nothing, unless a truthy `duration` converts to a falsy number while `runtime` is set |
| Projectors.MovieReprojectionFallsBack | models/redis/movie.js:12-16 | that exception is real: a `duration` of "abc" becomes NaN, and a second projection replaces it with the runtime |
| Projectors.ReprojectionTakesRuntime | models/redis/movie.js:12-16 | in general: a truthy `duration` that converts to 0 or NaN makes a second projection take `Number(runtime)` when `runtime` is truthy |
| Projectors.Person | models/redis/person.js:5-9 | every node property is copied, then `id` is the node's `tmdbId` and `poster_image` its `poster` (undefined when missing), overriding any stored `id` or `poster_image` |
| Projectors.PersonIdempotent | models/redis/person.js:5-9 | projecting a projected person again changes nothing |
| JsValues.FalsyValues | controllers/data.js:226 | the falsy values are exactly undefined, null, false, 0, NaN and the empty string |
| JsValues.ToNumber | models/redis/movie.js:13 | `Number(v)` is a number or NaN; a number converts to itself; a one-element array converts as its number or string element, and a longer array is NaN |
| JsValues.ToNumberIdempotent | models/redis/movie.js:13 | converting a converted value again changes nothing |
| JsValues.Trunc | models/movies.js:138 | the integer part toward zero: within 1 of the argument, on the side of 0 |
| JsValues.TruncOfNonNegativeIsFloor | models/movies.js:138 | on a non-negative rating, truncation is the floor |
| JsValues.ParseIntString | models/movies.js:83-84 | `parseInt` of a string fails exactly when no digit follows the leading blanks and sign |
| JsValues.ParseIntOfNatToString | controllers/data.js:47 | a decimal numeral followed by a non-digit parses back to its number |
| JsValues.NatToStringValue | controllers/data.js:47 | the decimal numeral of `n`, read back digit by digit, is `n` |
| JsValues.ToInteger | models/movies.js:102 | `toInteger` of a number is its truncation; a string converts exactly when it is a decimal literal, to that literal truncated, and a string of digits to its value |
| JsValues.ToLowerIgnoresCase | models/movies.js:102 | strings that agree up to the case of ASCII letters have the same `toLower` |
| JsValues.ErrorObject | controllers/data.js:226 | the thrown `{<key>: text, status}` object has exactly those two keys and values |
| GraphModel.NodesAt | models/movies.js:54-59 | a `collect` of a node column is the nodes with those ids, in that order |
| SeqHelpers.TopBy | models/movies.js:169-170 | `ORDER BY key DESC LIMIT k`: at most k candidates, no duplicates, descending keys. A candidate left out means the k kept ones all rank at least as high. |
| Movies.SingleMovieWithDetails | models/movies.js:6-20 | an empty record yields null. Otherwise the result is the projected movie plus exactly the six detail keys. Directors, producers and writers are projected as people, genres by the genre projector, related movies as movies without a rating, and actors are passed through unchanged. |
| Movies.ManyMovies | models/movies.js:26-29 | one projected movie per row, in row order, with no rating attached |
| Movies.ManyMoviesMembers | models/movies.js:26-29 | a projected list holds exactly the projections of the selected movie nodes |
| Movies.AllMovieIds | models/movies.js:33 | exactly the Movie nodes, in ascending id order |
| Movies.GetAll | models/movies.js:32-35 | one entry per Movie node, and exactly the projections of the Movie nodes |
| Movies.DateBound | models/movies.js:83-84 | a falsy bound becomes `parseInt(0)`, which is 0 |
| Movies.DateRangeIds | models/movies.js:77-79 | exactly the movies whose `released` lies strictly between the parsed bounds |
| Movies.GetByDateRange | models/movies.js:75-87 | the projections of exactly those movies, one per movie |
| Movies.DateRangeIsStrict | models/movies.js:78 | a movie released exactly at the start bound is not returned |
| Movies.ReachedIds | models/movies.js:91 | exactly the movies that a person with that `tmdbId` reaches by an edge of the given type, each once |
| Movies.ManyReached | models/movies.js:90-96 | the projections of exactly those movies |
| Movies.GetByActor | models/movies.js:90-96 | exactly the movies the person ACTED_IN, each once |
| Movies.GetByDirector | models/movies.js:112-118 | exactly the movies the person DIRECTED, each once |
| Movies.GetByWriter | models/movies.js:121-127 | exactly the movies the person is WRITER_OF, each once |
| Movies.GenreEdges | models/movies.js:101-102 | exactly the IN_GENRE edges from a Movie to a genre that passes the name-or-id filter |
| Movies.GenreMovieIds | models/movies.js:100-104 | the start movie of each IN_GENRE edge to a genre whose name matches case-insensitively or whose internal id is `toInteger(genreId)`: one entry per such edge, in edge order, and no other movie |
| Movies.GetByGenre | models/movies.js:99-109 | one projected movie per matching IN_GENRE edge, in edge order: the movie at the start of that edge |
| Movies.GenreMatchIgnoresCase | models/movies.js:102 | a genre name equal up to the case of ASCII letters matches |
| Movies.GenreMatchByInternalId | models/movies.js:102 | the decimal internal id of a genre matches it |
| Movies.RatingPairs | models/movies.js:131 | exactly the (User with that `id`, Movie with that `tmdbId`) pairs |
| Movies.RateEffect | models/movies.js:129-141 | every matched pair gets a RATED edge holding `parseInt(rating)`, created or overwritten. No other rating, node or edge changes. |
| Movies.RateKeepsRatingsInRange | models/movies.js:138 | a rating in [0, 6) is stored as `parseInt` of it, so if every stored rating was in 0..5, every one still is |
| Movies.DeleteKeepsRatingsInRange | models/movies.js:143-148 | deleting ratings keeps every remaining rating in 0..5 |
| Movies.DeleteRatingEffect | models/movies.js:143-148 | the ratings of exactly the matched pairs are removed. Every other rating, node and edge is kept unchanged. |
| Movies.UpsertTwice | models/movies.js:132-133 | a second MERGE-and-SET on the same pairs overrides the first |
| Movies.RemoveAfterUpsert | models/movies.js:132-145 | deleting upserted pairs is deleting them from the original ratings |
| Movies.Rate | models/movies.js:129-141 | the session's graph becomes the rating effect of the old graph |
| Movies.DeleteRating | models/movies.js:143-148 | the session's graph becomes the deletion effect of the old graph |
| Movies.RateWithoutMatchIsNoOp | models/movies.js:131 | with no matching user and movie, rating changes nothing |
| Movies.DeleteWithoutRatingIsNoOp | models/movies.js:145 | with no matching RATED edge, deleting changes nothing |
| Movies.SameNodesSamePairs | models/movies.js:131 | which pairs match depends on the nodes only |
| Movies.RateTwiceKeepsLast | models/movies.js:132-133 | rating twice is rating once with the second value (MERGE then SET) |
| Movies.DeleteAfterRate | models/movies.js:143-148 | deleting after rating is the same as deleting |
| Movies.RatedRowsOf | models/movies.js:152-153 | the (movie, rating) rows of one movie from the users with that id |
| Movies.RatedRows | models/movies.js:152-153 | `RETURN DISTINCT movie, rating`: no duplicate rows, and exactly the rows of RATED edges from a User with that id to a Movie |
| Movies.GetRatedByUser | models/movies.js:150-156 | one projected movie per row, carrying that row's rating as `my_rating` |
| Movies.RateThenRatedByUser | models/movies.js:129-156 | after rating, the movie is among the user's rated rows with `parseInt(rating)`, and with no other value |
| Movies.RateThenListedWithRating | models/movies.js:129-156 | after rating, the user's rated list contains the movie projected with `parseInt(rating)` |
| Movies.DeleteThenNotRatedByUser | models/movies.js:143-156 | after deleting, the movie has no row in the user's rated list |
| Movies.RecommendedIds | models/movies.js:158-172 | at most 25 distinct movies, each with at least one row of the query (a co-rated movie within 2, rated by another user, not that co-rated movie). They are ordered by descending average rating. A movie with a row that is left out means 25 were returned, all averaging at least as high. |
| Movies.RecommendableHasRows | models/movies.js:167 | a movie with a row has a positive row count, so its average is defined |
| Movies.AvgRatingInRatingRange | models/movies.js:167 | with every stored rating in 0..5 (the invariant the two lemmas above and `DataController.CheckedRatingKeepsRange` keep), every recommended movie's average is in 0..5 |
| Movies.DivisionBound | models/movies.js:167 | an average of values in 0..hi lies in 0..hi |
| Movies.RecommendationMayIncludeRatedMovie | models/movies.js:165-166 | a movie the user has rated can be recommended: only the co-rated movie of each row is excluded |
| Movies.GetRecommended | models/movies.js:158-172 | the recommended movies, projected without a rating, in rank order |
| Movies.ActorEdges | models/movies.js:42 | exactly the ACTED_IN edges from a Person into the movie |
| Movies.CollectDistinctMaps | models/movies.js:57 | `collect(DISTINCT {...})` holds no duplicates. Over no match it is one map of nulls; otherwise it holds exactly the collected maps. |
| Movies.CrewIds | models/movies.js:45-47 | exactly the People with an edge of the given type into the movie |
| Movies.GenreIds | models/movies.js:44 | exactly the Genres the movie is IN_GENRE |
| Movies.RelatedIds | models/movies.js:43 | exactly the other Movies that an actor of the movie has any edge to |
| Movies.MyRating | models/movies.js:41-53 | null exactly when no User with that id rated the movie; otherwise one such user's rating |
| Movies.ActorSummaries | models/movies.js:57 | one `{name, id, poster_image, role}` map per ACTED_IN edge from a Person, in edge order; a map is in the list exactly when it is some such edge's map |
| Movies.MovieDetailRecord | models/movies.js:39-60 | the record is the movie with its rating, directors, producers, writers, genres and related movies. Its actors hold no duplicate: with no actor edge they are the one all-null map, otherwise exactly the maps of the actor edges. |
| Movies.GetById | models/movies.js:38-72 | the query as evidently meant: throws `{message: 'movie not found', status: 404}` exactly when no Movie has that `tmdbId`; otherwise the detailed record of a matching movie |
| Movies.GetByIdReturnLacksComma | models/movies.js:52-59 | the RETURN clause as written has a line holding one item that does not end with the comma the next item needs; with that comma added, every item is separated |
| Movies.GetByIdAsWritten | models/movies.js:38-72 | the query as written fails on every call, whether the movie exists or not, with the store's error, which is never the 404 object and carries no status |
| Movies.GetByIdAsWrittenNeverAnswers | models/movies.js:38-72 | where the intended query finds the movie, the query as written fails instead |
| People.SinglePersonWithDetails | models/people.js:4-18 | an empty record yields null. Otherwise the result is the projected person plus exactly the five credit lists, passed through unchanged. |
| People.ManyPeople | models/people.js:21-23 | one projected person per row, in row order |
| People.AllPersonIds | models/people.js:52 | exactly the Person nodes, in ascending id order |
| People.GetAll | models/people.js:51-53 | one projected person per Person node, and every Person node appears |
| People.CreditEdges | models/people.js:29-32 | exactly the edges of the given type between the person and a Movie, outgoing only or in either direction |
| People.CreditSummaries | models/people.js:35-38 | one summary per credit edge, and every credit edge's summary is present |
| People.Credits | models/people.js:29-38 | `collect(DISTINCT {...})`: no duplicates. The all-null summary when there is no credit; otherwise exactly the summaries of the credit edges. |
| People.RelatedSummaries | models/people.js:33-39 | one map per related ACTED_IN edge: empty exactly when nothing relates, and a map is present exactly when it is a related edge's summary |
| People.RelatedPeople | models/people.js:33-39 | no duplicates. The all-null map when nothing relates; otherwise exactly the summaries of the actors of the nodes the person has an edge to. |
| People.PersonDetailRecord | models/people.js:27-39 | DIRECTED is followed outgoing only. PRODUCED, WRITER_OF and ACTED_IN are followed in either direction, and ACTED_IN carries the role. |
| People.DirectedIsOutgoingOnly | models/people.js:29-30 | an incoming DIRECTED edge is not a directing credit, while PRODUCED-style matching in either direction would count it |
| People.GetById | models/people.js:26-48 | throws `{message: 'person not found', status: 404}` exactly when no Person has that `tmdbId`; otherwise the detailed record of a matching person |
| People.CutLoop | models/people.js:59 | cutting a repeated node out of an acting path leaves a shorter acting path with the same ends |
| People.ShortestPathIsSimple | models/people.js:59 | a shortest acting path between two different people has no repeated node |
| People.PeopleOn | models/people.js:60 | exactly the people of the path, in path order (the element at each kept position), each once when the path is simple |
| People.BaconIds | models/people.js:60-62 | `UNWIND` then `DISTINCT`: each person on the paths exactly once, and nothing else |
| People.GetBaconPeople | models/people.js:56-69 | the projections of those people; no path gives no people |
| People.BaconOfShortestPath | models/people.js:59-62 | for a shortest path, the people are the people on the path in order, starting with the first actor and ending with the second |
| People.FilterKeepsEnds | models/people.js:60 | keeping the people of a path whose ends are people keeps both ends |
| DataController.ObjectList | controllers/data.js:229 | the response body is the list of objects, in order |
| DataController.CheckParam | controllers/data.js:226 | rejects with the 400 object exactly when the parameter is falsy |
| DataController.FindByGenre | controllers/data.js:224-231 | a falsy `id` is rejected with `Invalid id`; otherwise the answer is `getByGenre` of it |
| DataController.FindMoviesByDateRange | controllers/data.js:264-274 | a falsy `start` is rejected first, then a falsy `end`; otherwise the answer is `getByDateRange` of both |
| DataController.DateRangeBoundsAreParsed | controllers/data.js:268-271 | past the checks, the bounds are `parseInt` of the parameters, never the `|| 0` fallback |
| DataController.FindMoviesByPerson | controllers/data.js:302-379 | the three person finders share the rejection of a falsy `id` and answer the movies reached by their edge type |
| DataController.FindMoviesByDirector | controllers/data.js:302-309 | rejects a falsy `id`; otherwise the answer is the movies the person directed |
| DataController.FindMoviesByActor | controllers/data.js:337-344 | rejects a falsy `id`; otherwise the answer is the movies the person acted in |
| DataController.FindMoviesByWriter | controllers/data.js:372-379 | rejects a falsy `id`; otherwise the answer is the movies the person wrote |
| DataController.CheckRating | controllers/data.js:420-423 | accepts exactly the ratings whose `Number` is in [0, 6), forwarding that number; otherwise throws the `rating` 400 object |
| DataController.RatingInRangeIsForwarded | controllers/data.js:420-423 | a numeric rating in [0, 6) is forwarded unchanged |
| DataController.RatingBoundaries | controllers/data.js:421 | a missing rating, 6 and -1 are rejected; 0 and 5.5 are accepted |
| DataController.CheckedRatingKeepsRange | controllers/data.js:420-425 | a rating that passes the check keeps every stored rating in 0..5, as the endpoint's "0-5 inclusive" promises |
| DataController.RateMovie | controllers/data.js:417-429 | no user: unauthorized, nothing changes. Invalid rating: rejected, nothing changes. Otherwise the graph is rated with the converted rating and the answer is `{}`. |
| DataController.DeleteMovieRating | controllers/data.js:460-469 | a falsy id is rejected before the login gate; no user: unauthorized. Otherwise the rating is deleted and the answer has status 204. Nothing changes unless the delete runs. |
| DataController.UnwrapLow | controllers/data.js:55 | a field becomes its `.low` exactly when that is truthy, and is kept otherwise |
| DataController.UnwrapFields | controllers/data.js:54-56 | the same keys, each field unwrapped |
| DataController.UnwrapFieldsWithoutLow | controllers/data.js:54-56 | a record without truthy `.low` fields is unchanged |
| DataController.UnwrapFieldsOfInteger | controllers/data.js:55 | a driver integer `{low, high}` with a nonzero `low` becomes `low` |
| DataController.UnwrapRecord | controllers/data.js:54-56 | only record `i` changes. It succeeds exactly when no field is nullish, and then it holds the unwrapped fields. |
| DataController.UnwrapDataset | controllers/data.js:53-57 | either every record had no nullish field and all are unwrapped in place, or a TypeError is thrown on the first record with a nullish field. Earlier records are then unwrapped and later ones untouched. |
| DataController.MovieNodeOf | controllers/data.js:59-103 | a Movie node holding exactly the 20 listed parameters that are present and not nullish |
| DataController.GenreNodeOf | controllers/data.js:44 | a Genre node whose `name` is the record's `genre`, unset when that is missing |
| DataController.CreatedNodes | controllers/data.js:43-105 | at most one node per record. When no insert is rejected, exactly one node per record, in order. |
| DataController.InsertAll | controllers/data.js:43-105 | the graph gains exactly the created nodes, appended after the old ones |
| DataController.AddedMessage | controllers/data.js:47 | the message starts with `added ` |
| DataController.AddedMessageCount | controllers/data.js:107 | the number in the message parses back to the count |
| DataController.SetGenres | controllers/data.js:41-48 | the message counts all genres, including rejected inserts, and the graph gains the created Genre nodes |
| DataController.SetMovies | controllers/data.js:50-108 | on success the records are unwrapped, the message counts all movies and the graph gains the Movie nodes. On a nullish field a TypeError is thrown before any insert; the records before it are unwrapped, the ones after it untouched and that one partly unwrapped. |
| DbUtils.ParamName | neo4j/dbUtils.js:22 | `paramKey || key`: an absent or empty parameter name falls back to the key |
| DbUtils.WhereTemplate | neo4j/dbUtils.js:21-23 | the condition's length is the parts' lengths plus the four punctuation characters |
| DbUtils.WhereTemplateFallsBack | neo4j/dbUtils.js:22 | no parameter name, an empty one and the key itself give the same condition |
| DbUtils.ParseWhereTemplate | neo4j/dbUtils.js:21-23 | for a name without '.' and a key without '=', the condition reads back into exactly its name, key and parameter name |
| DbUtils.Conditions | neo4j/dbUtils.js:17 | one condition per key, in key order |
| DbUtils.DbWhere | neo4j/dbUtils.js:13-19 | corrected `dbWhere`: a clause exactly for a single name with non-empty keys, which is `WHERE ` and the conditions joined by ` AND `; undefined otherwise |
| DbUtils.DbWhereOneKey | neo4j/dbUtils.js:16-17 | one key gives `WHERE name.key={key}` |
| DbUtils.DbWhereMoreKeys | neo4j/dbUtils.js:17 | one more key appends ` AND ` and its condition |
| DbUtils.DbWhereAsWritten | neo4j/dbUtils.js:13-19 | `dbWhere` as written always throws a ReferenceError |
| DbUtils.DbWhereAsWrittenNeverAnswers | neo4j/dbUtils.js:13-19 | wherever the corrected function returns a clause, the code as written throws |

## Where the code departs from its own documentation

The model follows the code in each of these cases.

- **Start year.** The endpoint description says `start` is the "Year that the movie was released on or after" (controllers/data.js:245). The query compares with `>` (models/movies.js:78), so a movie released in the start year is left out, as `Movies.DateRangeIsStrict` states.
- **Rating range.** The endpoint description says "Rate a movie from 0-5 inclusive" (controllers/data.js:387). The check accepts every number in [0, 6) (controllers/data.js:421), so 5.5 passes (`DataController.RatingBoundaries`). It is stored as `parseInt`, which is 5, so the stored ratings still stay in 0..5 (`DataController.CheckedRatingKeepsRange`).

## Notes on the queries

- **Recommendations.** The recommendation query excludes only the co-rated movie of each row (models/movies.js:165-166), not every movie the user has rated. `Movies.RecommendationMayIncludeRatedMovie` shows a movie the user rated that is still recommendable.
- **Related movies.** The `ORDER BY countRelated DESC` (models/movies.js:51) sorts rows before the `collect`, and `collect` does not promise to keep that order. The model therefore claims no ranking of `related`.
- **Stored rating.** The code stores `parseInt(r, 10)` (models/movies.js:138), so a fractional rating reads back truncated, as `Movies.RateThenListedWithRating` states.
- **Controller names.** The controller calls `getMoviesbyDirector` and `getMoviesByWriter`. These are the export aliases of `getByDirector` and `getByWriter` (models/movies.js:182-183).
- **Duplicated null maps.** With no actor edge, `actors` is the one all-null map. The converse does not hold: an actor with no `name`, `tmdbId` or `poster` and an edge with no `role` yields that same map. So the contracts state "no edge gives the null map" and "otherwise exactly the edges' maps", not an equivalence. The same holds for `related` and the credit lists of a person.

## Left out

- HTTP routing, `writeResponse` and the error middleware: the reply is the `Reply` value. `loginRequired` is modelled as a gate on whether the request carries a user.
- `setActors` and the other seeding handlers in `controllers/data.js`: they are not part of this model. The bundled datasets are parameters.
- `models/actions/people.js` is not part of this model.
- The genre projector `models/neo4j/genre.js` is not part of this model. `SingleMovieWithDetails` and `GetById` take it as a parameter.
- `JsValues.ToNumber`, `JsValues.ParseInt`: only decimal numerals with an optional sign and fraction are modelled (digits on at least one side of the point). Exponents, hexadecimal, binary and octal literals, `Infinity`, and `parseInt` of a number whose decimal form has an exponent are left out. An object's own `valueOf` or `toString` is not modelled: every object converts to NaN.
- Asynchrony: the seeding inserts are fire-and-forget. The set `failed` stands for the inserts the store rejects. Their order and timing, and the errors passed to `next`, are not modelled.
- Result order: rows come in ascending internal id. The store does not promise any order.
- `DataController.UnwrapRecord`: the fields of a record are visited in no fixed order, so the `for ... in` order is not modelled. When a field is nullish, which of the other fields were unwrapped before the throw is left open (`PartlyUnwrapped`).
- `JsValues.ToLowerIgnoresCase`: only ASCII letters are lower-cased. The store's `toLower` also lower-cases other letters (such as "É"), so names that differ only in the case of non-ASCII letters are not shown to match.
- `Movies.GenreMatchIgnoresCase`: inherits that gap. It states the case-insensitive match for names that differ in the case of ASCII letters only.
- `Movies.GetById`: models the query as evidently meant. The query as written lacks a comma after the `actors` column (models/movies.js:57) and is modelled by `Movies.GetByIdAsWritten` (see Findings). The text of the store's parse error is not modelled.
- `Movies.MovieDetailRecord`: `related` is not ranked (see above).
- `Movies.MyRating`: when several users share an id, the row explosion of the OPTIONAL MATCHes is not modelled. One such user's rating is returned.
- `People.GetBaconPeople`: the `shortestPath` search itself is not modelled. The shortest paths are an input, and `People.BaconOfShortestPath` states what holds for one.
- `Movies.SingleMovieWithDetails`, `People.SinglePersonWithDetails`: a missing first record (the driver's `length` of 0) is the `EmptyMovieRecord` / `EmptyPersonRecord` case.
- `DataController.DeleteMovieRating`: the driver's result object, which is the 204 body, is the opaque `DriverResult`.
- Parameter serialisation: a nullish parameter leaves the property unset, as the store does for null.
- `Projectors.MovieIdempotent`: stated only under the condition that excludes the `duration` that converts to a falsy number. `Projectors.MovieReprojectionFallsBack` shows that the unconditional statement is false.

## Findings

| source | as written | input that shows it | evidently intended | confidence | as-written member | corrected member |
|---|---|---|---|---|---|---|
| neo4j/dbUtils.js:13-19 | `dbWhere` evaluates `_.isArray(name)`, but the module never binds `_` (nor defines `_whereTemplate`), so every call throws a ReferenceError | `dbWhere("m", ["title"])` | `WHERE m.title={title}` | not executed | DbUtils.DbWhereAsWritten (with DbUtils.DbWhereAsWrittenNeverAnswers) | DbUtils.DbWhere (with DbUtils.DbWhereOneKey, DbUtils.DbWhereMoreKeys) |
| models/movies.js:52-59 | the `actors` item of the RETURN clause (line 57) ends without a comma before the `related` item, so the store cannot parse the query and every `getById` call fails | any call, such as one whose `movieId` matches an existing movie | `..., collect(DISTINCT {...}) AS actors, collect(DISTINCT related) AS related, ...`, answering the movie or the 404 | not executed | Movies.GetByIdAsWritten (with Movies.GetByIdReturnLacksComma, Movies.GetByIdAsWrittenNeverAnswers) | Movies.GetById (with Movies.GetByIdReturnLacksComma) |
