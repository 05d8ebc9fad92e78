/**
  The movie queries of models/movies.js over the abstract graph: what each
  parameterised query matches, how its rows are shaped into objects, and the
  rating operations that change the store. Rows come out in ascending
  internal id (of the node, or of the edge for row-per-edge queries); that
  order stands in for the engine's and nothing is claimed about it.
*/
module Movies {
  import opened JsValues
  import opened SeqHelpers
  import opened GraphModel
  import opened Projectors

  // ================================================================ shaping

  /** One row of the `getById` query; a row with no columns is `EmptyMovieRecord`. */
  datatype MovieRecord =
    | EmptyMovieRecord
    | MovieRecord(movie: Node, myRating: Value, directors: seq<Node>, genres: seq<Node>,
                  producers: seq<Node>, writers: seq<Node>, actors: seq<Value>, related: seq<Node>)

  /** The keys `_singleMovieWithDetails` sets after copying the movie. */
  const MovieDetailKeys: set<string> := {"directors", "genres", "producers", "writers", "actors", "related"}

  /** `v` is an array holding `f` of each node, in order. */
  predicate ProjectedList(v: Value, ns: seq<Node>, f: Node -> Props) {
    v.Arr? && |v.elems| == |ns| && forall i :: 0 <= i < |ns| ==> v.elems[i] == Obj(f(ns[i]))
  }

  function ProjectAll(ns: seq<Node>, f: Node -> Props): (v: Value)
    ensures ProjectedList(v, ns, f)
  {
    Arr(seq(|ns|, i requires 0 <= i < |ns| => Obj(f(ns[i]))))
  }

  function RelatedMovie(n: Node): Props {
    Movie(n, Undefined)
  }

  /**
    `_singleMovieWithDetails(record)`: null for a record without columns;
    otherwise the projected movie (with the record's rating) extended by the
    five node lists, each projected element-wise, and the actor maps as they are.
    `genre` is the genre projector, which is not part of this model.
  */
  function SingleMovieWithDetails(rec: MovieRecord, genre: Node -> Props): (r: Option<Props>)
    ensures r.None? <==> rec.EmptyMovieRecord?
    ensures r.Some? ==> r.value.Keys == Movie(rec.movie, rec.myRating).Keys + MovieDetailKeys
    ensures r.Some? ==> forall k :: k in Movie(rec.movie, rec.myRating) && k !in MovieDetailKeys ==>
      r.value[k] == Movie(rec.movie, rec.myRating)[k]
    ensures r.Some? ==> ProjectedList(r.value["directors"], rec.directors, Person)
    ensures r.Some? ==> ProjectedList(r.value["genres"], rec.genres, genre)
    ensures r.Some? ==> ProjectedList(r.value["producers"], rec.producers, Person)
    ensures r.Some? ==> ProjectedList(r.value["writers"], rec.writers, Person)
    ensures r.Some? ==> r.value["actors"] == Arr(rec.actors)
    ensures r.Some? ==> ProjectedList(r.value["related"], rec.related, RelatedMovie)
  {
    match rec
    case EmptyMovieRecord => None
    case MovieRecord(movie, myRating, directors, genres, producers, writers, actors, related) =>
      Some(Movie(movie, myRating)[
        "directors" := ProjectAll(directors, Person)][
        "genres" := ProjectAll(genres, genre)][
        "producers" := ProjectAll(producers, Person)][
        "writers" := ProjectAll(writers, Person)][
        "actors" := Arr(actors)][
        "related" := ProjectAll(related, RelatedMovie)])
  }

  /** `manyMovies(result)`: one movie per row, in row order, with no rating attached. */
  function ManyMovies(rows: seq<Node>): (r: seq<Props>)
    ensures |r| == |rows|
    ensures forall i :: 0 <= i < |r| ==> r[i] == Movie(rows[i], Undefined)
    ensures forall i :: 0 <= i < |r| ==> Get(r[i], "my_rating") == Get(rows[i].properties, "my_rating")
  {
    seq(|rows|, i requires 0 <= i < |rows| => Movie(rows[i], Undefined))
  }

  predicate InRange(g: Graph, ids: seq<nat>) {
    forall k :: 0 <= k < |ids| ==> ids[k] < |g.nodes|
  }

  /** The movies of a list of node ids are the projections of exactly those nodes. */
  lemma ManyMoviesMembers(g: Graph, ids: seq<nat>, p: Props)
    requires InRange(g, ids)
    ensures p in ManyMovies(NodesAt(g, ids)) <==>
      exists i :: 0 <= i < |g.nodes| && i in ids && p == Movie(g.nodes[i], Undefined)
  {
    var r := ManyMovies(NodesAt(g, ids));
    if p in r {
      var k :| 0 <= k < |r| && r[k] == p;
      assert ids[k] in ids;
    }
    if exists i :: 0 <= i < |g.nodes| && i in ids && p == Movie(g.nodes[i], Undefined) {
      var i :| 0 <= i < |g.nodes| && i in ids && p == Movie(g.nodes[i], Undefined);
      var k :| 0 <= k < |ids| && ids[k] == i;
      assert r[k] == p;
    }
  }

  // ================================================================ read queries

  /** `MATCH (movie:Movie) RETURN movie`. */
  function AllMovieIds(g: Graph): (ids: seq<nat>)
    ensures forall i: nat :: i in ids <==> IsMovie(g, i)
    ensures Increasing(ids) && InRange(g, ids)
  {
    Select(|g.nodes|, (i: nat) => IsMovie(g, i))
  }

  /** `getAll`: every movie node, projected. */
  function GetAll(g: Graph): (r: seq<Props>)
    ensures |r| == |AllMovieIds(g)|
    ensures forall p :: p in r <==> exists i :: 0 <= i < |g.nodes| && IsMovie(g, i) && p == Movie(g.nodes[i], Undefined)
  {
    var ids := AllMovieIds(g);
    var r := ManyMovies(NodesAt(g, ids));
    assert forall p :: p in r <==> exists i :: 0 <= i < |g.nodes| && IsMovie(g, i) && p == Movie(g.nodes[i], Undefined) by {
      forall p ensures p in r <==> exists i :: 0 <= i < |g.nodes| && IsMovie(g, i) && p == Movie(g.nodes[i], Undefined) {
        ManyMoviesMembers(g, ids, p);
      }
    }
    r
  }

  /** `parseInt(bound || 0, 10)`: a falsy bound counts as 0, NaN is None. */
  function DateBound(v: Value): (b: Option<int>)
    ensures !Truthy(v) ==> b == Some(0)
  {
    ParseInt(if Truthy(v) then v else Num(0.0))
  }

  /** `movie.released > $start AND movie.released < $end`; a comparison with NaN or a non-number fails. */
  predicate ReleasedBetween(n: Node, start: Option<int>, end: Option<int>) {
    var released := CypherProp(n, "released");
    released.Num? && start.Some? && end.Some? && start.value as real < released.n < end.value as real
  }

  /** `getByDateRange`: the movies released strictly between the two bounds. */
  function DateRangeIds(g: Graph, start: Value, end: Value): (ids: seq<nat>)
    ensures forall i: nat :: i in ids <==>
      IsMovie(g, i) && ReleasedBetween(g.nodes[i], DateBound(start), DateBound(end))
    ensures Increasing(ids) && InRange(g, ids)
  {
    var s, e := DateBound(start), DateBound(end);
    Select(|g.nodes|, (i: nat) => IsMovie(g, i) && ReleasedBetween(g.nodes[i], s, e))
  }

  predicate InDateRange(g: Graph, start: Value, end: Value, i: nat) {
    IsMovie(g, i) && ReleasedBetween(g.nodes[i], DateBound(start), DateBound(end))
  }

  function GetByDateRange(g: Graph, start: Value, end: Value): (r: seq<Props>)
    ensures |r| == |DateRangeIds(g, start, end)|
    ensures forall p :: p in r <==> exists i :: 0 <= i < |g.nodes| && InDateRange(g, start, end, i) && p == Movie(g.nodes[i], Undefined)
  {
    var ids := DateRangeIds(g, start, end);
    var r := ManyMovies(NodesAt(g, ids));
    assert forall p :: p in r <==> exists i :: 0 <= i < |g.nodes| && InDateRange(g, start, end, i) && p == Movie(g.nodes[i], Undefined) by {
      forall p ensures p in r <==> exists i :: 0 <= i < |g.nodes| && InDateRange(g, start, end, i) && p == Movie(g.nodes[i], Undefined) {
        ManyMoviesMembers(g, ids, p);
      }
    }
    r
  }

  /** Both ends of the range are strict: a movie released in the start or the end year is left out. */
  lemma DateRangeIsStrict(g: Graph, start: Value, end: Value, i: nat)
    requires IsMovie(g, i) && CypherProp(g.nodes[i], "released").Num?
    requires DateBound(start).Some? && DateBound(end).Some?
    requires CypherProp(g.nodes[i], "released").n == DateBound(start).value as real
          || CypherProp(g.nodes[i], "released").n == DateBound(end).value as real
    ensures i !in DateRangeIds(g, start, end)
  {
  }

  /** `(:Person {tmdbId: $id})-[:rel]->(movie:Movie)`. */
  predicate ReachedFrom(g: Graph, personId: Value, rel: Rel, m: nat) {
    IsMovie(g, m) && exists p :: 0 <= p < |g.nodes| && Matches(g, p, PersonLabel, "tmdbId", personId) && Linked(g, p, rel, m)
  }

  /** `RETURN DISTINCT movie` over the movies reached by a `rel` edge from the person. */
  function ReachedIds(g: Graph, personId: Value, rel: Rel): (ids: seq<nat>)
    ensures forall m: nat :: m in ids <==> ReachedFrom(g, personId, rel, m)
    ensures Increasing(ids) && InRange(g, ids)
  {
    Select(|g.nodes|, (m: nat) => ReachedFrom(g, personId, rel, m))
  }

  function ManyReached(g: Graph, personId: Value, rel: Rel): (r: seq<Props>)
    ensures |r| == |ReachedIds(g, personId, rel)|
    ensures forall p :: p in r <==> exists m :: 0 <= m < |g.nodes| && ReachedFrom(g, personId, rel, m) && p == Movie(g.nodes[m], Undefined)
  {
    var ids := ReachedIds(g, personId, rel);
    var r := ManyMovies(NodesAt(g, ids));
    assert forall p :: p in r <==> exists m :: 0 <= m < |g.nodes| && ReachedFrom(g, personId, rel, m) && p == Movie(g.nodes[m], Undefined) by {
      forall p ensures p in r <==> exists m :: 0 <= m < |g.nodes| && ReachedFrom(g, personId, rel, m) && p == Movie(g.nodes[m], Undefined) {
        ManyMoviesMembers(g, ids, p);
      }
    }
    r
  }

  /** `getByActor`: distinct movies the person with that `tmdbId` ACTED_IN. */
  function GetByActor(g: Graph, id: Value): (r: seq<Props>)
    ensures r == ManyMovies(NodesAt(g, ReachedIds(g, id, ActedIn)))
    ensures forall p :: p in r <==> exists m :: 0 <= m < |g.nodes| && ReachedFrom(g, id, ActedIn, m) && p == Movie(g.nodes[m], Undefined)
  {
    ManyReached(g, id, ActedIn)
  }

  /** `getByDirector`: distinct movies the person DIRECTED. */
  function GetByDirector(g: Graph, personId: Value): (r: seq<Props>)
    ensures r == ManyMovies(NodesAt(g, ReachedIds(g, personId, Directed)))
    ensures forall p :: p in r <==> exists m :: 0 <= m < |g.nodes| && ReachedFrom(g, personId, Directed, m) && p == Movie(g.nodes[m], Undefined)
  {
    ManyReached(g, personId, Directed)
  }

  /** `getByWriter`: distinct movies the person is WRITER_OF. */
  function GetByWriter(g: Graph, personId: Value): (r: seq<Props>)
    ensures r == ManyMovies(NodesAt(g, ReachedIds(g, personId, WriterOf)))
    ensures forall p :: p in r <==> exists m :: 0 <= m < |g.nodes| && ReachedFrom(g, personId, WriterOf, m) && p == Movie(g.nodes[m], Undefined)
  {
    ManyReached(g, personId, WriterOf)
  }

  /** `toLower(genre.name) = toLower($genreId) OR id(genre) = toInteger($genreId)`. */
  predicate GenreMatches(g: Graph, genre: nat, genreId: Value) {
    genre < |g.nodes| &&
    var name := CypherProp(g.nodes[genre], "name");
    (name.Str? && genreId.Str? && ToLower(name.s) == ToLower(genreId.s))
    || ToInteger(genreId) == Some(genre)
  }

  /** One row of `MATCH (movie:Movie)-[:IN_GENRE]->(genre)` that passes the filter. */
  predicate GenreRow(g: Graph, e: Edge, genreId: Value) {
    e.rel == InGenre && IsMovie(g, e.src) && GenreMatches(g, e.dst, genreId)
  }

  /** The ids of the IN_GENRE edges that pass the filter, in order. */
  function GenreEdges(g: Graph, genreId: Value): (rows: seq<nat>)
    ensures forall j: nat :: j in rows <==> j < |g.edges| && GenreRow(g, g.edges[j], genreId)
    ensures forall k :: 0 <= k < |rows| ==> rows[k] < |g.edges| && GenreRow(g, g.edges[rows[k]], genreId)
  {
    Select(|g.edges|, (j: nat) => j < |g.edges| && GenreRow(g, g.edges[j], genreId))
  }

  /** `getByGenre` has no DISTINCT: one movie per matching IN_GENRE edge. */
  function GenreMovieIds(g: Graph, genreId: Value): (ids: seq<nat>)
    ensures InRange(g, ids)
    ensures |ids| == |GenreEdges(g, genreId)|
    ensures forall k :: 0 <= k < |ids| ==> ids[k] == g.edges[GenreEdges(g, genreId)[k]].src
    ensures forall m: nat :: m in ids <==>
      exists j :: 0 <= j < |g.edges| && g.edges[j].src == m && GenreRow(g, g.edges[j], genreId)
  {
    var rows := GenreEdges(g, genreId);
    var ids := EdgeSources(g, rows);
    assert forall k :: 0 <= k < |ids| ==> ids[k] < |g.nodes| by {
      forall k | 0 <= k < |ids| ensures ids[k] < |g.nodes| {
        assert GenreRow(g, g.edges[rows[k]], genreId);
      }
    }
    ids
  }

  function GetByGenre(g: Graph, genreId: Value): (r: seq<Props>)
    ensures |r| == |GenreEdges(g, genreId)|
    ensures forall k :: 0 <= k < |r| ==> r[k] == Movie(g.nodes[g.edges[GenreEdges(g, genreId)[k]].src], Undefined)
    ensures forall p :: p in r <==> exists m :: 0 <= m < |g.nodes| && m in GenreMovieIds(g, genreId) && p == Movie(g.nodes[m], Undefined)
  {
    var ids := GenreMovieIds(g, genreId);
    var r := ManyMovies(NodesAt(g, ids));
    assert forall p :: p in r <==> exists m :: 0 <= m < |g.nodes| && m in ids && p == Movie(g.nodes[m], Undefined) by {
      forall p ensures p in r <==> exists m :: 0 <= m < |g.nodes| && m in ids && p == Movie(g.nodes[m], Undefined) {
        ManyMoviesMembers(g, ids, p);
      }
    }
    r
  }

  /** A genre named "Action" is found by "action", "ACTION" or any other casing of the name. */
  lemma GenreMatchIgnoresCase(g: Graph, genre: nat, genreId: string)
    requires genre < |g.nodes| && CypherProp(g.nodes[genre], "name").Str?
    requires |CypherProp(g.nodes[genre], "name").s| == |genreId|
    requires forall i :: 0 <= i < |genreId| ==> LowerChar(CypherProp(g.nodes[genre], "name").s[i]) == LowerChar(genreId[i])
    ensures GenreMatches(g, genre, Str(genreId))
  {
    ToLowerIgnoresCase(CypherProp(g.nodes[genre], "name").s, genreId);
  }

  /** The legacy internal id matches too, given as a decimal string. */
  lemma GenreMatchByInternalId(g: Graph, genre: nat)
    requires genre < |g.nodes|
    ensures GenreMatches(g, genre, Str(NatToString(genre)))
  {
    var s := NatToString(genre);
    assert SignStripped(s) == s by {
      assert IsDigit(s[0]);
    }
    LeadingDigitsOfDigits(s, []);
    assert s + [] == s;
    NatToStringValue(genre);
  }

  // ================================================================ ratings

  /** `MATCH (u:User {id: $userId}), (m:Movie {tmdbId: $movieId})`. */
  predicate RatingPair(g: Graph, movieId: Value, userId: Value, u: nat, m: nat) {
    Matches(g, u, UserLabel, "id", userId) && Matches(g, m, MovieLabel, "tmdbId", movieId)
  }

  function RatingPairs(g: Graph, movieId: Value, userId: Value): (s: set<(nat, nat)>)
    ensures forall u: nat, m: nat :: (u, m) in s <==> RatingPair(g, movieId, userId, u, m)
  {
    set u: nat, m: nat | u < |g.nodes| && m < |g.nodes| && RatingPair(g, movieId, userId, u, m) :: (u, m)
  }

  /**
    `rate`: `MERGE (u)-[r:RATED]->(m) SET r.rating = parseInt(rating)` for
    every matched pair; every other rating is left as it was.
  */
  function RateEffect(g: Graph, movieId: Value, userId: Value, rating: real): (g': Graph)
    ensures g'.nodes == g.nodes && g'.edges == g.edges
    ensures forall u: nat, m: nat :: RatingPair(g, movieId, userId, u, m) ==>
      (u, m) in g'.ratings && g'.ratings[(u, m)] == Trunc(rating)
    ensures forall u: nat, m: nat :: !RatingPair(g, movieId, userId, u, m) ==>
      ((u, m) in g'.ratings <==> (u, m) in g.ratings)
      && ((u, m) in g.ratings ==> g'.ratings[(u, m)] == g.ratings[(u, m)])
  {
    g.(ratings := Upsert(g.ratings, RatingPairs(g, movieId, userId), Trunc(rating)))
  }

  /** Every stored rating lies in 0..5, the range the rating endpoint documents. */
  predicate RatingsInRange(g: Graph) {
    forall k :: k in g.ratings ==> 0 <= g.ratings[k] <= 5
  }

  /** A rating the controller lets through (in [0, 6)) is stored truncated, so within 0..5. */
  lemma RateKeepsRatingsInRange(g: Graph, movieId: Value, userId: Value, rating: real)
    requires RatingsInRange(g) && 0.0 <= rating < 6.0
    ensures RatingsInRange(RateEffect(g, movieId, userId, rating))
  {
    var g' := RateEffect(g, movieId, userId, rating);
    forall k | k in g'.ratings ensures 0 <= g'.ratings[k] <= 5 {
      if RatingPair(g, movieId, userId, k.0, k.1) {
        assert g'.ratings[k] == Trunc(rating);
      }
    }
  }

  /** Deleting ratings keeps the others as they were, hence in range. */
  lemma DeleteKeepsRatingsInRange(g: Graph, movieId: Value, userId: Value)
    requires RatingsInRange(g)
    ensures RatingsInRange(DeleteRatingEffect(g, movieId, userId))
  {
  }

  /** `deleteRating`: removes the RATED edge of every matched pair and nothing else. */
  function DeleteRatingEffect(g: Graph, movieId: Value, userId: Value): (g': Graph)
    ensures g'.nodes == g.nodes && g'.edges == g.edges
    ensures forall u: nat, m: nat :: (u, m) in g'.ratings <==>
      (u, m) in g.ratings && !RatingPair(g, movieId, userId, u, m)
    ensures forall k :: k in g'.ratings ==> k in g.ratings && g'.ratings[k] == g.ratings[k]
  {
    g.(ratings := Remove(g.ratings, RatingPairs(g, movieId, userId)))
  }

  /** `MERGE` then `SET`: every pair in `pairs` holds `v`, the other entries are kept. */
  function Upsert(r: map<(nat, nat), int>, pairs: set<(nat, nat)>, v: int): map<(nat, nat), int> {
    map k | k in r.Keys + pairs :: if k in pairs then v else r[k]
  }

  /** `DELETE`: the entries of `pairs` are dropped, the others kept. */
  function Remove(r: map<(nat, nat), int>, pairs: set<(nat, nat)>): map<(nat, nat), int> {
    map k | k in r.Keys - pairs :: r[k]
  }

  /** A second upsert of the same pairs overrides the first. */
  lemma UpsertTwice(r: map<(nat, nat), int>, pairs: set<(nat, nat)>, v: int, w: int)
    ensures Upsert(Upsert(r, pairs, v), pairs, w) == Upsert(r, pairs, w)
  {
    assert Upsert(Upsert(r, pairs, v), pairs, w).Keys == Upsert(r, pairs, w).Keys;
  }

  /** Removing upserted pairs is removing them from the original. */
  lemma RemoveAfterUpsert(r: map<(nat, nat), int>, pairs: set<(nat, nat)>, v: int)
    ensures Remove(Upsert(r, pairs, v), pairs) == Remove(r, pairs)
  {
    assert Remove(Upsert(r, pairs, v), pairs).Keys == Remove(r, pairs).Keys;
  }

  /** `rate(session, movieId, userId, rating)`. */
  method Rate(session: GraphSession, movieId: Value, userId: Value, rating: real)
    modifies session
    ensures session.graph == RateEffect(old(session.graph), movieId, userId, rating)
  {
    session.graph := RateEffect(session.graph, movieId, userId, rating);
  }

  /** `deleteRating(session, movieId, userId)`. */
  method DeleteRating(session: GraphSession, movieId: Value, userId: Value)
    modifies session
    ensures session.graph == DeleteRatingEffect(old(session.graph), movieId, userId)
  {
    session.graph := DeleteRatingEffect(session.graph, movieId, userId);
  }

  /** When no user or no movie matches, rating changes nothing. */
  lemma RateWithoutMatchIsNoOp(g: Graph, movieId: Value, userId: Value, rating: real)
    requires forall u: nat, m: nat :: !RatingPair(g, movieId, userId, u, m)
    ensures RateEffect(g, movieId, userId, rating) == g
  {
    var g' := RateEffect(g, movieId, userId, rating);
    assert g'.ratings.Keys == g.ratings.Keys;
    assert g'.ratings == g.ratings;
  }

  /** When the pair has no rating, deleting changes nothing. */
  lemma DeleteWithoutRatingIsNoOp(g: Graph, movieId: Value, userId: Value)
    requires forall u: nat, m: nat :: RatingPair(g, movieId, userId, u, m) ==> (u, m) !in g.ratings
    ensures DeleteRatingEffect(g, movieId, userId) == g
  {
    var g' := DeleteRatingEffect(g, movieId, userId);
    assert g'.ratings.Keys == g.ratings.Keys;
    assert g'.ratings == g.ratings;
  }

  /** The matched pairs depend on the nodes only, so a rating change does not move them. */
  lemma SameNodesSamePairs(g: Graph, h: Graph, movieId: Value, userId: Value)
    requires g.nodes == h.nodes
    ensures RatingPairs(g, movieId, userId) == RatingPairs(h, movieId, userId)
  {
    assert forall u: nat, m: nat :: RatingPair(g, movieId, userId, u, m) == RatingPair(h, movieId, userId, u, m);
  }

  /** Upsert: rating twice leaves only the second rating (last write wins). */
  lemma RateTwiceKeepsLast(g: Graph, movieId: Value, userId: Value, first: real, second: real)
    ensures RateEffect(RateEffect(g, movieId, userId, first), movieId, userId, second)
         == RateEffect(g, movieId, userId, second)
  {
    var once := RateEffect(g, movieId, userId, first);
    SameNodesSamePairs(g, once, movieId, userId);
    UpsertTwice(g.ratings, RatingPairs(g, movieId, userId), Trunc(first), Trunc(second));
  }

  /** Deleting after rating is the same as deleting: the rating leaves no trace. */
  lemma DeleteAfterRate(g: Graph, movieId: Value, userId: Value, rating: real)
    ensures DeleteRatingEffect(RateEffect(g, movieId, userId, rating), movieId, userId)
         == DeleteRatingEffect(g, movieId, userId)
  {
    var once := RateEffect(g, movieId, userId, rating);
    SameNodesSamePairs(g, once, movieId, userId);
    RemoveAfterUpsert(g.ratings, RatingPairs(g, movieId, userId), Trunc(rating));
  }

  /** `(:User {id: $userId})-[rated:RATED]->(movie:Movie)`. */
  predicate RatedBy(g: Graph, userId: Value, u: nat, m: nat) {
    Matches(g, u, UserLabel, "id", userId) && (u, m) in g.ratings && IsMovie(g, m)
  }

  /** The (movie, rating) rows of one movie, one per rating user. */
  function RatedRowsOf(g: Graph, userId: Value, m: nat): (rows: seq<(nat, int)>)
    ensures forall row :: row in rows <==>
      row.0 == m && exists u :: 0 <= u < |g.nodes| && RatedBy(g, userId, u, m) && g.ratings[(u, m)] == row.1
  {
    var us := Select(|g.nodes|, (u: nat) => RatedBy(g, userId, u, m));
    var rows := RatingRows(g, us, m);
    assert forall row :: row in rows ==>
      exists u :: 0 <= u < |g.nodes| && RatedBy(g, userId, u, m) && g.ratings[(u, m)] == row.1 by {
      forall row | row in rows ensures exists u :: 0 <= u < |g.nodes| && RatedBy(g, userId, u, m) && g.ratings[(u, m)] == row.1 {
        var u :| u in us && (u, m) in g.ratings && g.ratings[(u, m)] == row.1;
      }
    }
    rows
  }

  /** The rows `(m, rating)` of the given users' RATED edges into `m`, in user order. */
  function RatingRows(g: Graph, us: seq<nat>, m: nat): (rows: seq<(nat, int)>)
    requires forall k :: 0 <= k < |us| ==> (us[k], m) in g.ratings
    ensures forall row :: row in rows <==>
      row.0 == m && exists u :: u in us && (u, m) in g.ratings && g.ratings[(u, m)] == row.1
  {
    var rows := seq(|us|, k requires 0 <= k < |us| => (m, g.ratings[(us[k], m)]));
    assert forall row :: row in rows ==>
      row.0 == m && exists u :: u in us && (u, m) in g.ratings && g.ratings[(u, m)] == row.1 by {
      forall row | row in rows ensures row.0 == m && exists u :: u in us && (u, m) in g.ratings && g.ratings[(u, m)] == row.1 {
        var k :| 0 <= k < |rows| && rows[k] == row;
        assert us[k] in us;
      }
    }
    assert forall u :: u in us ==> (m, g.ratings[(u, m)]) in rows by {
      forall u | u in us ensures (m, g.ratings[(u, m)]) in rows {
        var k :| 0 <= k < |us| && us[k] == u;
        assert rows[k] == (m, g.ratings[(u, m)]);
      }
    }
    rows
  }

  /** `RETURN DISTINCT movie, rated.rating AS my_rating`. */
  function RatedRows(g: Graph, userId: Value): (rows: seq<(nat, int)>)
    ensures Distinct(rows)
    ensures forall row :: row in rows <==>
      exists u :: 0 <= u < |g.nodes| && RatedBy(g, userId, u, row.0) && g.ratings[(u, row.0)] == row.1
    ensures forall k :: 0 <= k < |rows| ==> rows[k].0 < |g.nodes|
  {
    var perMovie: seq<seq<(nat, int)>> := seq(|g.nodes|, m requires 0 <= m < |g.nodes| => RatedRowsOf(g, userId, m));
    var rows: seq<(nat, int)> := Dedup(Flatten(perMovie));
    assert forall row :: row in rows <==>
      exists u :: 0 <= u < |g.nodes| && RatedBy(g, userId, u, row.0) && g.ratings[(u, row.0)] == row.1 by {
      forall row ensures row in rows <==>
        exists u :: 0 <= u < |g.nodes| && RatedBy(g, userId, u, row.0) && g.ratings[(u, row.0)] == row.1 {
        if exists u :: 0 <= u < |g.nodes| && RatedBy(g, userId, u, row.0) && g.ratings[(u, row.0)] == row.1 {
          assert row.0 < |g.nodes|;
          assert row in perMovie[row.0];
        }
      }
    }
    rows
  }

  /** `getRatedByUser`: each rated movie, projected with `my_rating` set to the edge's rating. */
  function GetRatedByUser(g: Graph, userId: Value): (r: seq<Props>)
    ensures |r| == |RatedRows(g, userId)|
    ensures forall k :: 0 <= k < |r| ==>
      var row := RatedRows(g, userId)[k];
      r[k] == Movie(g.nodes[row.0], Num(row.1 as real)) && r[k]["my_rating"] == Num(row.1 as real)
  {
    WithRatings(g, RatedRows(g, userId))
  }

  /** Each (movie, rating) row projected with its rating attached. */
  function WithRatings(g: Graph, rows: seq<(nat, int)>): (r: seq<Props>)
    requires forall k :: 0 <= k < |rows| ==> rows[k].0 < |g.nodes|
    ensures |r| == |rows|
    ensures forall k :: 0 <= k < |r| ==>
      r[k] == Movie(g.nodes[rows[k].0], Num(rows[k].1 as real)) && r[k]["my_rating"] == Num(rows[k].1 as real)
  {
    var r := seq(|rows|, k requires 0 <= k < |rows| => Movie(g.nodes[rows[k].0], Num(rows[k].1 as real)));
    assert forall k :: 0 <= k < |r| ==> r[k]["my_rating"] == Num(rows[k].1 as real) by {
      forall k | 0 <= k < |r| ensures r[k]["my_rating"] == Num(rows[k].1 as real) {
        NumericRatingIsAttached(g.nodes[rows[k].0], rows[k].1);
      }
    }
    r
  }

  /** After `rate`, the rated movie is listed for the user with exactly that rating. */
  lemma RateThenRatedByUser(g: Graph, movieId: Value, userId: Value, rating: real, u: nat, m: nat)
    requires RatingPair(g, movieId, userId, u, m)
    ensures (m, Trunc(rating)) in RatedRows(RateEffect(g, movieId, userId, rating), userId)
    ensures forall v :: (m, v) in RatedRows(RateEffect(g, movieId, userId, rating), userId) ==> v == Trunc(rating)
  {
    var g' := RateEffect(g, movieId, userId, rating);
    assert RatedBy(g', userId, u, m);
    forall v | (m, v) in RatedRows(g', userId) ensures v == Trunc(rating) {
      var u' :| 0 <= u' < |g'.nodes| && RatedBy(g', userId, u', m) && g'.ratings[(u', m)] == v;
      assert RatingPair(g, movieId, userId, u', m);
    }
  }

  /** ... and the listed object carries that rating as `my_rating`. */
  lemma RateThenListedWithRating(g: Graph, movieId: Value, userId: Value, rating: real, u: nat, m: nat)
    requires RatingPair(g, movieId, userId, u, m)
    ensures Movie(g.nodes[m], Num(Trunc(rating) as real)) in GetRatedByUser(RateEffect(g, movieId, userId, rating), userId)
  {
    var g' := RateEffect(g, movieId, userId, rating);
    RateThenRatedByUser(g, movieId, userId, rating, u, m);
    var rows := RatedRows(g', userId);
    var k :| 0 <= k < |rows| && rows[k] == (m, Trunc(rating));
    assert GetRatedByUser(g', userId)[k] == Movie(g.nodes[m], Num(Trunc(rating) as real));
  }

  /** After `deleteRating`, the movie is no longer listed for the user. */
  lemma DeleteThenNotRatedByUser(g: Graph, movieId: Value, userId: Value, m: nat)
    requires Matches(g, m, MovieLabel, "tmdbId", movieId)
    ensures forall v :: (m, v) !in RatedRows(DeleteRatingEffect(g, movieId, userId), userId)
  {
  }

  // ================================================================ recommendation

  function Abs(x: int): nat {
    if x < 0 then -x else x
  }

  /**
    One row of the recommendation query: `me` (the user) rated `m`, `other`
    (another user) rated `m` within less than 2 of that, and `other` also
    rated `movie`, which is not `m`.
  */
  predicate SimilarRow(g: Graph, userId: Value, me: nat, m: nat, other: nat, movie: nat) {
    && Matches(g, me, UserLabel, "id", userId) && IsMovie(g, m) && (me, m) in g.ratings
    && HasLabel(g, other, UserLabel) && other != me && (other, m) in g.ratings
    && Abs(g.ratings[(me, m)] - g.ratings[(other, m)]) < 2
    && IsMovie(g, movie) && movie != m && (other, movie) in g.ratings
  }

  /** `movie` has at least one row, so it is grouped and ranked. */
  predicate Recommendable(g: Graph, userId: Value, movie: nat) {
    exists me, m, other :: 0 <= me < |g.nodes| && 0 <= m < |g.nodes| && 0 <= other < |g.nodes|
      && SimilarRow(g, userId, me, m, other, movie)
  }

  /** A row's contribution: `otherRating.rating`, or 1 when counting rows. */
  function RowTerm(g: Graph, userId: Value, me: nat, m: nat, other: nat, movie: nat, counting: bool): real {
    if SimilarRow(g, userId, me, m, other, movie) then
      (if counting then 1.0 else g.ratings[(other, movie)] as real)
    else 0.0
  }

  function OtherTerms(g: Graph, userId: Value, movie: nat, me: nat, m: nat, counting: bool): nat -> real {
    (other: nat) => RowTerm(g, userId, me, m, other, movie, counting)
  }

  function CoRatedTerms(g: Graph, userId: Value, movie: nat, me: nat, counting: bool): nat -> real {
    (m: nat) => SumTo(|g.nodes|, OtherTerms(g, userId, movie, me, m, counting))
  }

  function UserTerms(g: Graph, userId: Value, movie: nat, counting: bool): nat -> real {
    (me: nat) => SumTo(|g.nodes|, CoRatedTerms(g, userId, movie, me, counting))
  }

  /** The sum over all rows of `movie` (of ratings, or of 1 when counting). */
  function RowSum(g: Graph, userId: Value, movie: nat, counting: bool): real {
    SumTo(|g.nodes|, UserTerms(g, userId, movie, counting))
  }

  /** `avg(otherRating.rating)` over the rows of `movie`. */
  function AvgRating(g: Graph, userId: Value, movie: nat): real {
    var count := RowSum(g, userId, movie, true);
    if count > 0.0 then RowSum(g, userId, movie, false) / count else 0.0
  }

  /**
    `getRecommended`: the recommendable movies ranked by descending average,
    then `LIMIT 25`. Ties keep ascending internal id.
  */
  function RecommendedIds(g: Graph, userId: Value): (ids: seq<nat>)
    ensures |ids| <= 25
    ensures Distinct(ids) && InRange(g, ids)
    ensures forall k :: 0 <= k < |ids| ==> Recommendable(g, userId, ids[k])
    ensures forall i, j :: 0 <= i < j < |ids| ==> AvgRating(g, userId, ids[i]) >= AvgRating(g, userId, ids[j])
    ensures forall movie: nat :: Recommendable(g, userId, movie) && movie !in ids ==>
      |ids| == 25 && forall k :: 0 <= k < |ids| ==> AvgRating(g, userId, ids[k]) >= AvgRating(g, userId, movie)
  {
    var candidates := Select(|g.nodes|, (x: nat) => Recommendable(g, userId, x));
    IncreasingIsDistinct(candidates);
    TopBy(candidates, (x: nat) => AvgRating(g, userId, x), 25)
  }

  /** The rows of a recommendable movie are counted at least once, so its average is a true average. */
  lemma {:induction false} RecommendableHasRows(g: Graph, userId: Value, movie: nat)
    requires Recommendable(g, userId, movie)
    ensures RowSum(g, userId, movie, true) > 0.0
  {
    var n := |g.nodes|;
    var me, m, other :| 0 <= me < n && 0 <= m < n && 0 <= other < n && SimilarRow(g, userId, me, m, other, movie);
    forall me', m' | 0 <= me' < n && 0 <= m' < n
      ensures SumTo(n, OtherTerms(g, userId, movie, me', m', true)) >= 0.0 {
      SumToNonNegative(n, OtherTerms(g, userId, movie, me', m', true));
    }
    forall me' | 0 <= me' < n ensures SumTo(n, CoRatedTerms(g, userId, movie, me', true)) >= 0.0 {
      SumToNonNegative(n, CoRatedTerms(g, userId, movie, me', true));
    }
    SumToPositive(n, OtherTerms(g, userId, movie, me, m, true), other);
    SumToPositive(n, CoRatedTerms(g, userId, movie, me, true), m);
    SumToPositive(n, UserTerms(g, userId, movie, true), me);
  }

  /** With every stored rating in 0..5, the ranking key of a recommendable movie lies in 0..5. */
  lemma {:induction false} AvgRatingInRatingRange(g: Graph, userId: Value, movie: nat)
    requires RatingsInRange(g)
    requires Recommendable(g, userId, movie)
    ensures 0.0 <= AvgRating(g, userId, movie) <= 5.0
  {
    var n := |g.nodes|;
    forall me, m | 0 <= me < n && 0 <= m < n
      ensures 0.0 <= SumTo(n, OtherTerms(g, userId, movie, me, m, false))
                 <= 5.0 * SumTo(n, OtherTerms(g, userId, movie, me, m, true)) {
      SumToBounded(n, OtherTerms(g, userId, movie, me, m, false), OtherTerms(g, userId, movie, me, m, true), 5.0);
    }
    forall me | 0 <= me < n
      ensures 0.0 <= SumTo(n, CoRatedTerms(g, userId, movie, me, false))
                 <= 5.0 * SumTo(n, CoRatedTerms(g, userId, movie, me, true)) {
      SumToBounded(n, CoRatedTerms(g, userId, movie, me, false), CoRatedTerms(g, userId, movie, me, true), 5.0);
    }
    SumToBounded(n, UserTerms(g, userId, movie, false), UserTerms(g, userId, movie, true), 5.0);
    RecommendableHasRows(g, userId, movie);
    var total, count := RowSum(g, userId, movie, false), RowSum(g, userId, movie, true);
    DivisionBound(total, count, 5.0);
  }

  lemma DivisionBound(total: real, count: real, hi: real)
    requires count > 0.0 && 0.0 <= total <= hi * count
    ensures 0.0 <= total / count <= hi
  {
    var q := total / count;
    assert q * count == total;
    if q > hi {
      assert (q - hi) * count > 0.0;
    }
  }

  /**
    Only the co-rated movie of each row is excluded: with two users who rated
    movies 2 and 3 alike, movie 3 is recommendable to user "u", who rated it.
  */
  lemma RecommendationMayIncludeRatedMovie()
    ensures var g := Graph(
        [Node({UserLabel}, map["id" := Str("u")]), Node({UserLabel}, map["id" := Str("v")]),
         Node({MovieLabel}, map[]), Node({MovieLabel}, map[])],
        [], map[(0, 2) := 4, (1, 2) := 4, (0, 3) := 5, (1, 3) := 5]);
      Recommendable(g, Str("u"), 3) && (0, 3) in g.ratings
  {
    var g := Graph(
        [Node({UserLabel}, map["id" := Str("u")]), Node({UserLabel}, map["id" := Str("v")]),
         Node({MovieLabel}, map[]), Node({MovieLabel}, map[])],
        [], map[(0, 2) := 4, (1, 2) := 4, (0, 3) := 5, (1, 3) := 5]);
    assert SimilarRow(g, Str("u"), 0, 2, 1, 3);
  }

  /** `getRecommended`: the ranked movies, projected without a rating. */
  function GetRecommended(g: Graph, userId: Value): (r: seq<Props>)
    ensures |r| <= 25
    ensures |r| == |RecommendedIds(g, userId)|
    ensures forall k :: 0 <= k < |r| ==> r[k] == Movie(g.nodes[RecommendedIds(g, userId)[k]], Undefined)
  {
    ManyMovies(NodesAt(g, RecommendedIds(g, userId)))
  }

  // ================================================================ getById

  /** `(movie)<-[r:ACTED_IN]-(a:Person)`: the edge ids, in order. */
  function ActorEdges(g: Graph, m: nat): (es: seq<nat>)
    ensures forall j: nat :: j in es <==> j < |g.edges| && g.edges[j].rel == ActedIn && g.edges[j].dst == m && IsPerson(g, g.edges[j].src)
    ensures forall k :: 0 <= k < |es| ==> es[k] < |g.edges| && IsPerson(g, g.edges[es[k]].src)
  {
    Select(|g.edges|, (j: nat) => j < |g.edges| && g.edges[j].rel == ActedIn && g.edges[j].dst == m && IsPerson(g, g.edges[j].src))
  }

  /** A relationship property read in a query: a missing one is `null`. */
  function EdgeProp(e: Edge, key: string): Value {
    if key in e.properties then e.properties[key] else Null
  }

  /** `{name: a.name, id: a.tmdbId, poster_image: a.poster, role: r.role}`. */
  function ActorSummary(a: Node, e: Edge): Value {
    Obj(map["name" := CypherProp(a, "name"), "id" := CypherProp(a, "tmdbId"),
            "poster_image" := CypherProp(a, "poster"), "role" := EdgeProp(e, "role")])
  }

  /** The map the same expression builds when the optional match found nothing. */
  const NullActorSummary: Value :=
    Obj(map["name" := Null, "id" := Null, "poster_image" := Null, "role" := Null])

  /**
    `collect(DISTINCT {...})` over an OPTIONAL MATCH: the distinct maps, or
    the one all-null map when nothing matched (a map of nulls is not null,
    so `collect` keeps it).
  */
  function CollectDistinctMaps(vs: seq<Value>, nullMap: Value): (r: seq<Value>)
    ensures r != [] && Distinct(r)
    ensures vs == [] ==> r == [nullMap]
    ensures vs != [] ==> forall v :: v in r <==> v in vs
  {
    if vs == [] then [nullMap] else Dedup(vs)
  }

  predicate IsActorOf(g: Graph, a: nat, m: nat) {
    IsPerson(g, a) && Linked(g, a, ActedIn, m)
  }

  /** `(movie)<-[:rel]-(x:Person)`. */
  function CrewIds(g: Graph, rel: Rel, m: nat): (ids: seq<nat>)
    ensures forall d: nat :: d in ids <==> IsPerson(g, d) && Linked(g, d, rel, m)
    ensures InRange(g, ids)
  {
    Select(|g.nodes|, (d: nat) => IsPerson(g, d) && Linked(g, d, rel, m))
  }

  /** `(movie)-[:IN_GENRE]->(genre:Genre)`. */
  function GenreIds(g: Graph, m: nat): (ids: seq<nat>)
    ensures forall x: nat :: x in ids <==> HasLabel(g, x, GenreLabel) && Linked(g, m, InGenre, x)
    ensures InRange(g, ids)
  {
    Select(|g.nodes|, (x: nat) => HasLabel(g, x, GenreLabel) && Linked(g, m, InGenre, x))
  }

  /** `(related:Movie)<--(a:Person) WHERE related <> movie`, `a` an actor of the movie. */
  function RelatedIds(g: Graph, m: nat): (ids: seq<nat>)
    ensures forall x: nat :: x in ids <==>
      IsMovie(g, x) && x != m && exists a :: 0 <= a < |g.nodes| && IsActorOf(g, a, m) && AnyEdge(g, a, x)
    ensures InRange(g, ids)
  {
    Select(|g.nodes|, (x: nat) => IsMovie(g, x) && x != m && exists a :: 0 <= a < |g.nodes| && IsActorOf(g, a, m) && AnyEdge(g, a, x))
  }

  /** `my_rated.rating`: the rating by the first user with that id, or `null`. */
  function MyRating(g: Graph, m: nat, userId: Value): (v: Value)
    ensures v == Null <==> forall u :: 0 <= u < |g.nodes| ==> !(Matches(g, u, UserLabel, "id", userId) && (u, m) in g.ratings)
    ensures v != Null ==> exists u :: 0 <= u < |g.nodes| && Matches(g, u, UserLabel, "id", userId) && (u, m) in g.ratings && v == Num(g.ratings[(u, m)] as real)
  {
    var raters := Select(|g.nodes|, (u: nat) => Matches(g, u, UserLabel, "id", userId) && (u, m) in g.ratings);
    assert forall u: nat :: u < |g.nodes| && Matches(g, u, UserLabel, "id", userId) && (u, m) in g.ratings ==> u in raters;
    if raters == [] then Null
    else
      assert raters[0] in raters;
      Num(g.ratings[(raters[0], m)] as real)
  }

  /** The actor map of an ACTED_IN edge into `m` from a Person. */
  predicate ActorMapOf(g: Graph, m: nat, v: Value) {
    exists j :: 0 <= j < |g.edges| && j in ActorEdges(g, m) && v == ActorSummary(g.nodes[g.edges[j].src], g.edges[j])
  }

  /** One actor map per ACTED_IN edge into `m`, in edge order; every such edge's map is there. */
  function ActorSummaries(g: Graph, m: nat): (vs: seq<Value>)
    ensures |vs| == |ActorEdges(g, m)|
    ensures forall k :: 0 <= k < |vs| ==>
      vs[k] == ActorSummary(g.nodes[g.edges[ActorEdges(g, m)[k]].src], g.edges[ActorEdges(g, m)[k]])
    ensures forall v :: v in vs <==> ActorMapOf(g, m, v)
  {
    var es := ActorEdges(g, m);
    var vs := EdgeSummaries(g, es);
    assert forall v :: ActorMapOf(g, m, v) ==> v in vs by {
      forall v | ActorMapOf(g, m, v) ensures v in vs {
        var j :| 0 <= j < |g.edges| && j in es && v == ActorSummary(g.nodes[g.edges[j].src], g.edges[j]);
        var k :| 0 <= k < |es| && es[k] == j;
        assert vs[k] == v;
      }
    }
    vs
  }

  /** The actor map of each given ACTED_IN edge, in edge order. */
  function EdgeSummaries(g: Graph, es: seq<nat>): (vs: seq<Value>)
    requires forall k :: 0 <= k < |es| ==> es[k] < |g.edges| && g.edges[es[k]].src < |g.nodes|
    ensures |vs| == |es|
    ensures forall k :: 0 <= k < |es| ==> vs[k] == ActorSummary(g.nodes[g.edges[es[k]].src], g.edges[es[k]])
    ensures forall v :: v in vs ==>
      exists j :: 0 <= j < |g.edges| && j in es && g.edges[j].src < |g.nodes| && v == ActorSummary(g.nodes[g.edges[j].src], g.edges[j])
  {
    var vs := seq(|es|, k requires 0 <= k < |es| => ActorSummary(g.nodes[g.edges[es[k]].src], g.edges[es[k]]));
    assert forall v :: v in vs ==>
      exists j :: 0 <= j < |g.edges| && j in es && g.edges[j].src < |g.nodes| && v == ActorSummary(g.nodes[g.edges[j].src], g.edges[j]) by {
      forall v | v in vs
        ensures exists j :: 0 <= j < |g.edges| && j in es && g.edges[j].src < |g.nodes| && v == ActorSummary(g.nodes[g.edges[j].src], g.edges[j]) {
        var k :| 0 <= k < |vs| && vs[k] == v;
        assert es[k] in es;
      }
    }
    vs
  }

  /** The row the `getById` query is evidently meant to return for movie `m`. */
  function MovieDetailRecord(g: Graph, m: nat, userId: Value): (rec: MovieRecord)
    requires m < |g.nodes|
    ensures rec.MovieRecord? && rec.movie == g.nodes[m]
    ensures rec.myRating == MyRating(g, m, userId)
    ensures rec.directors == NodesAt(g, CrewIds(g, Directed, m))
    ensures rec.producers == NodesAt(g, CrewIds(g, Produced, m))
    ensures rec.writers == NodesAt(g, CrewIds(g, WriterOf, m))
    ensures rec.genres == NodesAt(g, GenreIds(g, m))
    ensures rec.related == NodesAt(g, RelatedIds(g, m))
    ensures Distinct(rec.actors)
    ensures ActorEdges(g, m) == [] ==> rec.actors == [NullActorSummary]
    ensures ActorEdges(g, m) != [] ==> forall v :: v in rec.actors <==> ActorMapOf(g, m, v)
  {
    MovieRecord(
      g.nodes[m], MyRating(g, m, userId),
      NodesAt(g, CrewIds(g, Directed, m)), NodesAt(g, GenreIds(g, m)),
      NodesAt(g, CrewIds(g, Produced, m)), NodesAt(g, CrewIds(g, WriterOf, m)),
      CollectDistinctMaps(ActorSummaries(g, m), NullActorSummary), NodesAt(g, RelatedIds(g, m)))
  }

  /** `{message: 'movie not found', status: 404}`. */
  const MovieNotFound: Value := ErrorObject("message", "movie not found", 404)

  /**
    The RETURN clause of the `getById` query as written, one source line per
    entry (models/movies.js:52-59); the lines are joined with spaces.
  */
  const GetByIdReturnLines: seq<string> := [
    "RETURN DISTINCT movie,",
    "my_rated.rating AS my_rating,",
    "collect(DISTINCT d) AS directors,",
    "collect(DISTINCT p) AS producers,",
    "collect(DISTINCT w) AS writers,",
    "collect(DISTINCT{ name:a.name, id:a.tmdbId, poster_image:a.poster, role:r.role}) AS actors",
    "collect(DISTINCT related) AS related,",
    "collect(DISTINCT genre) AS genres"]

  /** The same clause with the comma after `AS actors` that the query evidently means. */
  const IntendedReturnLines: seq<string> := GetByIdReturnLines[5 := GetByIdReturnLines[5] + ","]

  /** Each line holds one projection item, so every line but the last must end with a comma. */
  predicate CommaSeparated(lines: seq<string>) {
    forall k :: 0 <= k < |lines| - 1 ==> lines[k] != [] && lines[k][|lines[k]| - 1] == ','
  }

  /** The clause as written has two items with no comma between them; the intended one does not. */
  lemma GetByIdReturnLacksComma()
    ensures !CommaSeparated(GetByIdReturnLines)
    ensures CommaSeparated(IntendedReturnLines)
  {
    var actors := GetByIdReturnLines[5];
    assert actors[|actors| - 1] == 's';
    var ls := IntendedReturnLines;
    assert ls[0][|ls[0]| - 1] == ',';
    assert ls[1][|ls[1]| - 1] == ',';
    assert ls[2][|ls[2]| - 1] == ',';
    assert ls[3][|ls[3]| - 1] == ',';
    assert ls[4][|ls[4]| - 1] == ',';
    assert ls[5][|ls[5]| - 1] == ',';
    assert ls[6][|ls[6]| - 1] == ',';
  }

  /**
    What the store answers to a query it cannot parse. Its text is the
    store's and is not modelled; it carries no `status`, so the terminal
    error handler passes it on as a 500.
  */
  const StoreSyntaxError: Value := Obj(map["name" := Str("StoreError")])

  /**
    `getById` as written: the store rejects the malformed RETURN clause, so
    every call fails with the store's error, whether the movie exists or not,
    and never with the 404 object.
  */
  function GetByIdAsWritten(g: Graph, movieId: Value, userId: Value, genre: Node -> Props): (r: Result<Option<Props>>)
    ensures r.Thrown? && r.error != MovieNotFound
    ensures r.Thrown? ==> r.error.Obj? && Get(r.error.fields, "status") == Undefined
  {
    GetByIdReturnLacksComma();
    if CommaSeparated(GetByIdReturnLines) then GetById(g, movieId, userId, genre) else Thrown(StoreSyntaxError)
  }

  /** Where the intended query finds the movie, the query as written fails instead. */
  lemma GetByIdAsWrittenNeverAnswers(g: Graph, movieId: Value, userId: Value, genre: Node -> Props, m: nat)
    requires m < |g.nodes| && Matches(g, m, MovieLabel, "tmdbId", movieId)
    ensures GetById(g, movieId, userId, genre).Ok?
    ensures GetByIdAsWritten(g, movieId, userId, genre).Thrown?
  {
  }

  /**
    `getById` as evidently meant (with `IntendedReturnLines`): the first
    movie with that `tmdbId`, with its details, or a thrown not-found object
    with status 404 when there is none.
  */
  function GetById(g: Graph, movieId: Value, userId: Value, genre: Node -> Props): (r: Result<Option<Props>>)
    ensures r.Thrown? <==> forall i :: 0 <= i < |g.nodes| ==> !Matches(g, i, MovieLabel, "tmdbId", movieId)
    ensures r.Thrown? ==> r.error == MovieNotFound
    ensures r.Ok? ==> r.value.Some?
    ensures r.Ok? ==> exists m :: 0 <= m < |g.nodes| && Matches(g, m, MovieLabel, "tmdbId", movieId) &&
                                  r.value == SingleMovieWithDetails(MovieDetailRecord(g, m, userId), genre)
  {
    var found := Select(|g.nodes|, (i: nat) => Matches(g, i, MovieLabel, "tmdbId", movieId));
    assert forall i: nat :: i < |g.nodes| && Matches(g, i, MovieLabel, "tmdbId", movieId) ==> i in found;
    if found == [] then Thrown(MovieNotFound)
    else
      assert found[0] in found;
      Ok(SingleMovieWithDetails(MovieDetailRecord(g, found[0], userId), genre))
  }
}
