/**
  The request handlers of controllers/data.js that hold logic: the parameter
  and rating checks that throw before any query, the rating handlers that
  change the store, and the ingestion handlers with their in-place `.low`
  unwrapping and their count message. `loginRequired` is an opaque gate:
  with no authenticated user it answers 401 itself and the handler body does
  not run; `writeResponse` is reduced to the body and status it is given.
*/
module DataController {
  import opened JsValues
  import opened SeqHelpers
  import opened GraphModel
  import Movies

  /** What a handler sees of the request: path parameters, parsed body, authenticated user. */
  datatype Request = Request(params: Props, body: Props, user: Option<Props>)

  /** A response body: a JSON value, or the driver's raw query result (not modelled). */
  datatype Body = Json(value: Value) | DriverResult

  /**
    How a request ends: a value thrown by the handler (`{..., status: 400}`),
    the 401 answer of `loginRequired`, or `writeResponse(res, body, status)`,
    with `None` for the default status.
  */
  datatype Reply = Rejected(error: Value) | Unauthorized | Replied(body: Body, status: Option<nat>)

  /** The JSON array `writeResponse` sends for a list of objects. */
  function ObjectList(ps: seq<Props>): (v: Value)
    ensures v.Arr? && |v.elems| == |ps|
    ensures forall i :: 0 <= i < |ps| ==> v.elems[i] == Obj(ps[i])
  {
    Arr(seq(|ps|, i requires 0 <= i < |ps| => Obj(ps[i])))
  }

  // ================================================================ parameter checks

  const InvalidId: Value := ErrorObject("message", "Invalid id", 400)
  const InvalidStart: Value := ErrorObject("message", "Invalid start", 400)
  const InvalidEnd: Value := ErrorObject("message", "Invalid end", 400)
  const InvalidMovieId: Value := ErrorObject("message", "Invalid movie id", 400)
  const InvalidRating: Value := ErrorObject("rating", "Rating value is invalid", 400)

  /** `if (!params[key]) throw {message: text, status: 400}`. */
  function CheckParam(params: Props, key: string, text: string): (r: Option<Value>)
    ensures r.None? <==> Truthy(Get(params, key))
    ensures r.Some? ==> r.value == ErrorObject("message", text, 400)
  {
    if Truthy(Get(params, key)) then None else Some(ErrorObject("message", text, 400))
  }

  /** `findByGenre`: a falsy id is rejected before the query runs. */
  function FindByGenre(g: Graph, req: Request): (reply: Reply)
    ensures reply.Rejected? <==> !Truthy(Get(req.params, "id"))
    ensures reply.Rejected? ==> reply.error == InvalidId
    ensures !reply.Rejected? ==> reply == Replied(Json(ObjectList(Movies.GetByGenre(g, req.params["id"]))), None)
  {
    match CheckParam(req.params, "id", "Invalid id")
    case Some(e) => Rejected(e)
    case None => Replied(Json(ObjectList(Movies.GetByGenre(g, req.params["id"]))), None)
  }

  /** `findMoviesByDateRange`: `start` is checked first, then `end`. */
  function FindMoviesByDateRange(g: Graph, req: Request): (reply: Reply)
    ensures !Truthy(Get(req.params, "start")) ==> reply == Rejected(InvalidStart)
    ensures Truthy(Get(req.params, "start")) && !Truthy(Get(req.params, "end")) ==> reply == Rejected(InvalidEnd)
    ensures Truthy(Get(req.params, "start")) && Truthy(Get(req.params, "end")) ==>
      reply == Replied(Json(ObjectList(Movies.GetByDateRange(g, req.params["start"], req.params["end"]))), None)
  {
    match CheckParam(req.params, "start", "Invalid start")
    case Some(e) => Rejected(e)
    case None =>
      match CheckParam(req.params, "end", "Invalid end")
      case Some(e) => Rejected(e)
      case None => Replied(Json(ObjectList(Movies.GetByDateRange(g, req.params["start"], req.params["end"]))), None)
  }

  /** Past the controller's check, `start || 0` never falls back: the bound is `parseInt(start)`. */
  lemma DateRangeBoundsAreParsed(g: Graph, req: Request)
    requires FindMoviesByDateRange(g, req).Replied?
    ensures Movies.DateBound(req.params["start"]) == ParseInt(req.params["start"])
    ensures Movies.DateBound(req.params["end"]) == ParseInt(req.params["end"])
  {
  }

  /** `findMoviesByDirector`, `findMoviesByActor`, `findMoviesByWriter`: the shared check and their query. */
  function FindMoviesByPerson(g: Graph, req: Request, rel: Rel): (reply: Reply)
    ensures reply.Rejected? <==> !Truthy(Get(req.params, "id"))
    ensures reply.Rejected? ==> reply.error == InvalidId
    ensures !reply.Rejected? ==>
      reply == Replied(Json(ObjectList(Movies.ManyReached(g, req.params["id"], rel))), None)
  {
    match CheckParam(req.params, "id", "Invalid id")
    case Some(e) => Rejected(e)
    case None => Replied(Json(ObjectList(Movies.ManyReached(g, req.params["id"], rel))), None)
  }

  function FindMoviesByDirector(g: Graph, req: Request): (reply: Reply)
    ensures reply.Rejected? <==> !Truthy(Get(req.params, "id"))
    ensures !reply.Rejected? ==> reply == Replied(Json(ObjectList(Movies.GetByDirector(g, req.params["id"]))), None)
  {
    FindMoviesByPerson(g, req, Directed)
  }

  function FindMoviesByActor(g: Graph, req: Request): (reply: Reply)
    ensures reply.Rejected? <==> !Truthy(Get(req.params, "id"))
    ensures !reply.Rejected? ==> reply == Replied(Json(ObjectList(Movies.GetByActor(g, req.params["id"]))), None)
  {
    FindMoviesByPerson(g, req, ActedIn)
  }

  function FindMoviesByWriter(g: Graph, req: Request): (reply: Reply)
    ensures reply.Rejected? <==> !Truthy(Get(req.params, "id"))
    ensures !reply.Rejected? ==> reply == Replied(Json(ObjectList(Movies.GetByWriter(g, req.params["id"]))), None)
  {
    FindMoviesByPerson(g, req, WriterOf)
  }

  // ================================================================ ratings

  /**
    `rating = Number(body.rating)`, rejected when NaN, below 0 or at least 6;
    what passes is the converted number.
  */
  function CheckRating(body: Props): (r: Result<real>)
    ensures r.Ok? <==> ToNumber(Get(body, "rating")).Num? && 0.0 <= ToNumber(Get(body, "rating")).n < 6.0
    ensures r.Ok? ==> ToNumber(Get(body, "rating")) == Num(r.value)
    ensures r.Thrown? ==> r.error == InvalidRating
  {
    match ToNumber(Get(body, "rating"))
    case Num(x) => if x < 0.0 || x >= 6.0 then Thrown(InvalidRating) else Ok(x)
    case _ => Thrown(InvalidRating)
  }

  /** Any number in [0, 6) is forwarded unchanged. */
  lemma RatingInRangeIsForwarded(body: Props, x: real)
    requires Get(body, "rating") == Num(x) && 0.0 <= x < 6.0
    ensures CheckRating(body) == Ok(x)
  {
  }

  /**
    A missing rating converts to NaN and is rejected; 6 is outside the range,
    0 inside, and so is 5.5, which the "0-5 inclusive" of the endpoint's
    description does not mention.
  */
  lemma RatingBoundaries()
    ensures CheckRating(map[]) == Thrown(InvalidRating)
    ensures CheckRating(map["rating" := Num(6.0)]) == Thrown(InvalidRating)
    ensures CheckRating(map["rating" := Num(-1.0)]) == Thrown(InvalidRating)
    ensures CheckRating(map["rating" := Num(0.0)]) == Ok(0.0)
    ensures CheckRating(map["rating" := Num(5.5)]) == Ok(5.5)
  {
  }

  /**
    Whatever passes the check is stored as `parseInt` of it, which lies in
    0..5: rating through the handler keeps every stored rating in 0..5.
  */
  lemma CheckedRatingKeepsRange(g: Graph, movieId: Value, userId: Value, body: Props)
    requires Movies.RatingsInRange(g) && CheckRating(body).Ok?
    ensures Movies.RatingsInRange(Movies.RateEffect(g, movieId, userId, CheckRating(body).value))
  {
    Movies.RateKeepsRatingsInRange(g, movieId, userId, CheckRating(body).value);
  }

  /**
    `rateMovie`: login first, then the rating check, then `Movies.rate` with
    the path id, the user's id and the converted rating; answers `{}`.
  */
  method RateMovie(session: GraphSession, req: Request) returns (reply: Reply)
    modifies session
    ensures req.user.None? ==> reply == Unauthorized && session.graph == old(session.graph)
    ensures req.user.Some? && CheckRating(req.body).Thrown? ==>
      reply == Rejected(InvalidRating) && session.graph == old(session.graph)
    ensures req.user.Some? && CheckRating(req.body).Ok? ==>
      reply == Replied(Json(Obj(map[])), None) &&
      session.graph == Movies.RateEffect(old(session.graph), Get(req.params, "id"),
                                         Get(req.user.value, "id"), CheckRating(req.body).value)
  {
    if req.user.None? {
      return Unauthorized;
    }
    match CheckRating(req.body)
    case Thrown(e) =>
      reply := Rejected(e);
    case Ok(rating) =>
      Movies.Rate(session, Get(req.params, "id"), Get(req.user.value, "id"), rating);
      reply := Replied(Json(Obj(map[])), None);
  }

  /**
    `deleteMovieRating`: the movie id is checked before the login gate; on
    success `Movies.deleteRating` runs and the answer has status 204.
  */
  method DeleteMovieRating(session: GraphSession, req: Request) returns (reply: Reply)
    modifies session
    ensures !Truthy(Get(req.params, "id")) ==> reply == Rejected(InvalidMovieId) && session.graph == old(session.graph)
    ensures Truthy(Get(req.params, "id")) && req.user.None? ==> reply == Unauthorized && session.graph == old(session.graph)
    ensures Truthy(Get(req.params, "id")) && req.user.Some? ==>
      reply == Replied(DriverResult, Some(204)) &&
      session.graph == Movies.DeleteRatingEffect(old(session.graph), req.params["id"], Get(req.user.value, "id"))
  {
    match CheckParam(req.params, "id", "Invalid movie id")
    case Some(e) =>
      reply := Rejected(e);
    case None =>
      if req.user.None? {
        reply := Unauthorized;
      } else {
        Movies.DeleteRating(session, req.params["id"], Get(req.user.value, "id"));
        reply := Replied(DriverResult, Some(204));
      }
  }

  // ================================================================ ingestion

  /** Reading `.low` of a non-nullish value: only an object can have that property. */
  function LowOf(v: Value): Value
    requires !Nullish(v)
  {
    if v.Obj? then Get(v.fields, "low") else Undefined
  }

  /** `if (movie[field].low) movie[field] = movie[field].low`. */
  function UnwrapLow(v: Value): (r: Value)
    requires !Nullish(v)
    ensures Truthy(LowOf(v)) ==> r == LowOf(v)
    ensures !Truthy(LowOf(v)) ==> r == v
  {
    if Truthy(LowOf(v)) then LowOf(v) else v
  }

  /** Reading `.low` of `null` or `undefined` throws. */
  predicate NoNullishField(p: Props) {
    forall k :: k in p ==> !Nullish(p[k])
  }

  /** The record after its `for (field in movie)` pass. */
  function UnwrapFields(p: Props): (r: Props)
    requires NoNullishField(p)
    ensures r.Keys == p.Keys
    ensures forall k :: k in p ==> r[k] == UnwrapLow(p[k])
  {
    map k | k in p :: UnwrapLow(p[k])
  }

  /** A record whose fields carry no truthy `.low` is left as it is. */
  lemma UnwrapFieldsWithoutLow(p: Props)
    requires NoNullishField(p)
    requires forall k :: k in p ==> !Truthy(LowOf(p[k]))
    ensures UnwrapFields(p) == p
  {
  }

  /** Integer fields exported as `{low, high}` become their `low` part. */
  lemma UnwrapFieldsOfInteger(p: Props, key: string, low: real, high: real)
    requires NoNullishField(p) && key in p && low != 0.0
    requires p[key] == Obj(map["low" := Num(low), "high" := Num(high)])
    ensures UnwrapFields(p)[key] == Num(low)
  {
  }

  const TypeErrorValue: Value := Obj(map["name" := Str("TypeError")])

  /** Some fields of `before` unwrapped, the others as they were. */
  predicate PartlyUnwrapped(before: Props, after: Props) {
    after.Keys == before.Keys &&
    forall k :: k in after ==>
      (after[k] == before[k] || (!Nullish(before[k]) && after[k] == UnwrapLow(before[k])))
  }

  /** The state a throw at record `i` leaves: the records before it done, the ones after it untouched. */
  predicate FailedAt(before: seq<Props>, after: seq<Props>, i: nat) {
    && |before| == |after| && i < |before|
    && !NoNullishField(before[i])
    && (forall j :: 0 <= j < i ==> NoNullishField(before[j]) && after[j] == UnwrapFields(before[j]))
    && (forall j :: i < j < |before| ==> after[j] == before[j])
    && PartlyUnwrapped(before[i], after[i])
  }

  /**
    The first `movies.forEach` of `setMovies`: every field of every record is
    unwrapped in place, records in order, fields in `for-in` order. A field
    that is `null` or `undefined` throws a TypeError there, leaving the
    earlier records unwrapped, the later ones untouched, and the current one
    partly done.
  */
  method UnwrapDataset(movies: array<Props>) returns (error: Option<Value>)
    modifies movies
    ensures error.None? <==> forall i :: 0 <= i < movies.Length ==> NoNullishField(old(movies[i]))
    ensures error.None? ==> forall i :: 0 <= i < movies.Length ==> movies[i] == UnwrapFields(old(movies[i]))
    ensures error.Some? ==> error.value == TypeErrorValue
    ensures error.Some? ==> exists i :: 0 <= i < movies.Length && FailedAt(old(movies[..]), movies[..], i)
  {
    var i := 0;
    while i < movies.Length
      invariant 0 <= i <= movies.Length
      invariant forall j :: 0 <= j < i ==> NoNullishField(old(movies[j])) && movies[j] == UnwrapFields(old(movies[j]))
      invariant forall j :: i <= j < movies.Length ==> movies[j] == old(movies[j])
    {
      var ok := UnwrapRecord(movies, i);
      if !ok {
        assert FailedAt(old(movies[..]), movies[..], i);
        return Some(TypeErrorValue);
      }
      i := i + 1;
    }
    return None;
  }

  /** The inner `for (field in movie)` loop on record `i`; false when it throws. */
  method UnwrapRecord(movies: array<Props>, i: nat) returns (ok: bool)
    requires i < movies.Length
    modifies movies
    ensures forall j :: 0 <= j < movies.Length && j != i ==> movies[j] == old(movies[j])
    ensures ok <==> NoNullishField(old(movies[i]))
    ensures ok ==> movies[i] == UnwrapFields(old(movies[i]))
    ensures !ok ==> PartlyUnwrapped(old(movies[i]), movies[i])
  {
    var original := movies[i];
    var record := original;
    var pending := original.Keys;
    while pending != {}
      invariant pending <= original.Keys && record.Keys == original.Keys
      invariant forall k :: k in original && k !in pending ==> !Nullish(original[k]) && record[k] == UnwrapLow(original[k])
      invariant forall k :: k in pending ==> record[k] == original[k]
      decreases pending
    {
      var field :| field in pending;
      if Nullish(record[field]) {
        movies[i] := record;
        return false;
      }
      record := record[field := UnwrapLow(record[field])];
      pending := pending - {field};
    }
    movies[i] := record;
    return true;
  }

  /** The parameters `setMovies` passes to `create (m:Movie {...})`. */
  const MovieParamKeys: set<string> := {
    "url", "id", "languages", "title", "countries", "budget", "duration", "imdbId", "imdbRating",
    "imdbVotes", "movieId", "plot", "poster", "poster_image", "released", "revenue", "runtime",
    "tagline", "tmdbId", "year"}

  /** The created node: the listed fields the record has; a null parameter sets no property. */
  function MovieNodeOf(movie: Props): (n: Node)
    ensures n.labels == {MovieLabel}
    ensures forall k :: k in n.properties <==> k in MovieParamKeys && k in movie && !Nullish(movie[k])
    ensures forall k :: k in n.properties ==> n.properties[k] == movie[k]
  {
    Node({MovieLabel}, map k | k in MovieParamKeys && k in movie && !Nullish(movie[k]) :: movie[k])
  }

  /** `create (g:Genre {name: $genre})` with the record itself as the parameters. */
  function GenreNodeOf(genre: Props): (n: Node)
    ensures n.labels == {GenreLabel}
    ensures "genre" in genre && !Nullish(genre["genre"]) ==> n.properties == map["name" := genre["genre"]]
    ensures !("genre" in genre && !Nullish(genre["genre"])) ==> n.properties == map[]
  {
    Node({GenreLabel}, if "genre" in genre && !Nullish(genre["genre"]) then map["name" := genre["genre"]] else map[])
  }

  /**
    The nodes the fire-and-forget inserts add, in order; the inserts in
    `failed` are rejected by the store and add nothing.
  */
  function CreatedNodes(records: seq<Props>, failed: set<nat>, isMovie: bool): (ns: seq<Node>)
    ensures |ns| <= |records|
    ensures failed == {} ==> |ns| == |records|
    ensures failed == {} ==> forall i :: 0 <= i < |records| ==>
      ns[i] == if isMovie then MovieNodeOf(records[i]) else GenreNodeOf(records[i])
  {
    if records == [] then []
    else
      var init := CreatedNodes(records[..|records| - 1], failed, isMovie);
      var last := records[|records| - 1];
      if |records| - 1 in failed then init
      else init + [if isMovie then MovieNodeOf(last) else GenreNodeOf(last)]
  }

  /** `added N <noun>` with N written in decimal. */
  function AddedMessage(n: nat, noun: string): (s: string)
    ensures |s| > 6 && s[..6] == "added "
  {
    "added " + NatToString(n) + " " + noun
  }

  /** The count in the message reads back as the number it was built from. */
  lemma AddedMessageCount(n: nat, noun: string)
    ensures ParseIntString(AddedMessage(n, noun)[6..]) == Some(n)
  {
    assert AddedMessage(n, noun)[6..] == NatToString(n) + (" " + noun);
    ParseIntOfNatToString(n, " " + noun);
  }

  /** One insert per record, in order, each adding its node unless it fails. */
  method InsertAll(session: GraphSession, records: seq<Props>, failed: set<nat>, isMovie: bool)
    modifies session
    ensures session.graph == old(session.graph).(nodes := old(session.graph).nodes + CreatedNodes(records, failed, isMovie))
  {
    var i := 0;
    while i < |records|
      invariant 0 <= i <= |records|
      invariant session.graph == old(session.graph).(nodes := old(session.graph).nodes + CreatedNodes(records[..i], failed, isMovie))
    {
      assert records[..i + 1][..i] == records[..i];
      if i !in failed {
        var n := if isMovie then MovieNodeOf(records[i]) else GenreNodeOf(records[i]);
        session.graph := session.graph.(nodes := session.graph.nodes + [n]);
      }
      i := i + 1;
    }
    assert records[..i] == records;
  }

  /**
    `setGenres`: one insert per genre; the answer counts the dataset,
    whatever the inserts do.
  */
  method SetGenres(session: GraphSession, genres: seq<Props>, failed: set<nat>) returns (message: string)
    modifies session
    ensures message == AddedMessage(|genres|, "genres")
    ensures session.graph == old(session.graph).(nodes := old(session.graph).nodes + CreatedNodes(genres, failed, false))
  {
    InsertAll(session, genres, failed, false);
    message := AddedMessage(|genres|, "genres");
  }

  /**
    `setMovies`: unwraps the dataset in place, then one insert per movie;
    the answer counts the dataset. A throw while unwrapping ends the handler
    before any insert.
  */
  method SetMovies(session: GraphSession, movies: array<Props>, failed: set<nat>) returns (r: Result<string>)
    modifies session, movies
    ensures r.Ok? <==> forall i :: 0 <= i < movies.Length ==> NoNullishField(old(movies[i]))
    ensures r.Ok? ==> r.value == AddedMessage(movies.Length, "movies")
    ensures r.Ok? ==> forall i :: 0 <= i < movies.Length ==> movies[i] == UnwrapFields(old(movies[i]))
    ensures r.Ok? ==> session.graph == old(session.graph).(nodes := old(session.graph).nodes + CreatedNodes(movies[..], failed, true))
    ensures r.Thrown? ==> r.error == TypeErrorValue && session.graph == old(session.graph)
    ensures r.Thrown? ==> exists i :: 0 <= i < movies.Length && FailedAt(old(movies[..]), movies[..], i)
  {
    var error := UnwrapDataset(movies);
    if error.Some? {
      return Thrown(error.value);
    }
    InsertAll(session, movies[..], failed, true);
    return Ok(AddedMessage(movies.Length, "movies"));
  }
}
