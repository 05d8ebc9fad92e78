/**
  The entity projectors: `new Movie(node, myRating)` and `new Person(node)`
  turn a raw node into the plain object that is sent to the client.
*/
module Projectors {
  import opened JsValues
  import opened GraphModel

  /** `myRating || myRating === 0`: every value except the falsy ones other than 0. */
  predicate RatingAttached(myRating: Value) {
    Truthy(myRating) || myRating == Num(0.0)
  }

  /** The value `duration` gets: `duration` if truthy, else `runtime` if truthy. */
  function NormalisedDuration(p: Props): Option<Value> {
    if Truthy(Get(p, "duration")) then Some(ToNumber(p["duration"]))
    else if Truthy(Get(p, "runtime")) then Some(ToNumber(p["runtime"]))
    else None
  }

  /**
    Copies every property of the node; normalises `duration`, preferring a
    truthy `duration` over a truthy `runtime`; attaches `my_rating` when the
    rating is truthy or exactly 0.
  */
  function Movie(node: Node, myRating: Value): (r: Props)
    ensures forall k :: k in r <==>
      k in node.properties
      || (k == "duration" && Truthy(Get(node.properties, "runtime")))
      || (k == "my_rating" && RatingAttached(myRating))
    ensures forall k :: k in node.properties && k != "duration" && k != "my_rating" ==>
      r[k] == node.properties[k]
    ensures Truthy(Get(node.properties, "duration")) ==>
      r["duration"] == ToNumber(node.properties["duration"])
    ensures !Truthy(Get(node.properties, "duration")) && Truthy(Get(node.properties, "runtime")) ==>
      r["duration"] == ToNumber(node.properties["runtime"]) && r["runtime"] == node.properties["runtime"]
    ensures !Truthy(Get(node.properties, "duration")) && !Truthy(Get(node.properties, "runtime")) ==>
      Get(r, "duration") == Get(node.properties, "duration")
    ensures RatingAttached(myRating) ==> r["my_rating"] == myRating
    ensures !RatingAttached(myRating) ==> Get(r, "my_rating") == Get(node.properties, "my_rating")
  {
    var p := node.properties;
    var withDuration :=
      match NormalisedDuration(p)
      case Some(d) => p["duration" := d]
      case None => p;
    if RatingAttached(myRating) then withDuration["my_rating" := myRating] else withDuration
  }

  /** Movies derive neither `id` nor `poster_image`: both read as in the node. */
  lemma MovieDerivesNoIdOrPoster(node: Node, myRating: Value)
    ensures Get(Movie(node, myRating), "id") == Get(node.properties, "id")
    ensures Get(Movie(node, myRating), "poster_image") == Get(node.properties, "poster_image")
  {
  }

  /** A rating read from a RATED edge (an integer, zero included) is always attached. */
  lemma NumericRatingIsAttached(node: Node, rating: int)
    ensures Movie(node, Num(rating as real))["my_rating"] == Num(rating as real)
  {
  }

  /**
    Projecting an already projected movie again changes nothing, unless a
    truthy `duration` converts to a falsy number while `runtime` is set: the
    second pass then falls back to `runtime` (see MovieReprojectionFallsBack).
  */
  lemma MovieIdempotent(node: Node, myRating: Value)
    requires Truthy(Get(node.properties, "duration")) ==>
      Truthy(ToNumber(node.properties["duration"])) || !Truthy(Get(node.properties, "runtime"))
    ensures Movie(Node(node.labels, Movie(node, myRating)), Undefined) == Movie(node, myRating)
  {
    var p := node.properties;
    var once := Movie(node, myRating);
    var q := Node(node.labels, once);
    var twice := Movie(q, Undefined);
    if Truthy(Get(p, "duration")) {
      ToNumberIdempotent(p["duration"]);
      assert NormalisedDuration(once) == Some(once["duration"]) || NormalisedDuration(once) == None;
    } else if Truthy(Get(p, "runtime")) {
      ToNumberIdempotent(p["runtime"]);
      assert once["runtime"] == p["runtime"];
      assert NormalisedDuration(once) == Some(once["duration"]);
    } else {
      assert NormalisedDuration(once) == None;
    }
    assert twice.Keys == once.Keys;
    assert forall k :: k in once ==> twice[k] == once[k];
  }

  /** "abc" is no decimal numeral: `Number("abc")` is NaN. */
  lemma NumberOfWordIsNaN()
    ensures ToNumber(Str("abc")) == NaN
  {
    var abc := "abc";
    TrimStartOfNonSpace(abc);
    assert !IsSpace(abc[2]);
    assert Trim(abc) == abc;
    assert !IsDigit(abc[0]) && !AllDigits(abc);
    assert SignStripped(abc) == abc;
    assert LeadingDigits(abc) == [];
    assert ParseDecimal(abc) == None;
  }

  /**
    A truthy `duration` that converts to a falsy number (0 or NaN) is kept by
    the first projection, but a second projection falls back to `runtime`.
  */
  lemma ReprojectionTakesRuntime(node: Node)
    requires Truthy(Get(node.properties, "duration")) && !Truthy(ToNumber(node.properties["duration"]))
    requires Truthy(Get(node.properties, "runtime"))
    ensures Movie(Node(node.labels, Movie(node, Undefined)), Undefined)["duration"] ==
      ToNumber(node.properties["runtime"])
  {
    var once := Movie(node, Undefined);
    assert Get(once, "duration") == ToNumber(node.properties["duration"]);
    assert Get(once, "runtime") == node.properties["runtime"];
  }

  /** Without that condition the second projection can differ: a duration of "abc" becomes NaN, then the runtime. */
  lemma MovieReprojectionFallsBack()
    ensures var node := Node({MovieLabel}, map["duration" := Str("abc"), "runtime" := Num(90.0)]);
      Movie(node, Undefined)["duration"] == NaN
      && Movie(Node(node.labels, Movie(node, Undefined)), Undefined)["duration"] == Num(90.0)
  {
    var node := Node({MovieLabel}, map["duration" := Str("abc"), "runtime" := Num(90.0)]);
    NumberOfWordIsNaN();
    assert Get(node.properties, "duration") == Str("abc");
    assert Get(node.properties, "runtime") == Num(90.0);
    ReprojectionTakesRuntime(node);
  }

  /**
    Copies every property of the node, then sets `id` to `tmdbId` and
    `poster_image` to `poster` (each `undefined` when the source is missing),
    overwriting whatever was there.
  */
  function Person(node: Node): (r: Props)
    ensures r.Keys == node.properties.Keys + {"id", "poster_image"}
    ensures r["id"] == Get(node.properties, "tmdbId")
    ensures r["poster_image"] == Get(node.properties, "poster")
    ensures forall k :: k in node.properties && k != "id" && k != "poster_image" ==>
      r[k] == node.properties[k]
  {
    var p := node.properties;
    var withId := p["id" := Get(p, "tmdbId")];
    withId["poster_image" := Get(withId, "poster")]
  }

  /** Projecting an already projected person again changes nothing. */
  lemma PersonIdempotent(node: Node)
    ensures Person(Node(node.labels, Person(node))) == Person(node)
  {
    var once := Person(node);
    var twice := Person(Node(node.labels, once));
    assert twice.Keys == once.Keys;
    assert forall k :: k in once ==> twice[k] == once[k];
  }
}
