/**
  The person queries of models/people.js: the detail record of one person,
  the list of all people, and the people on a shortest acting path between
  two named people.
*/
module People {
  import opened JsValues
  import opened SeqHelpers
  import opened GraphModel
  import opened Projectors
  import Movies

  // ================================================================ shaping

  /** One row of the person `getById` query; a row with no columns is `EmptyPersonRecord`. */
  datatype PersonRecord =
    | EmptyPersonRecord
    | PersonRecord(person: Node, directed: seq<Value>, produced: seq<Value>, wrote: seq<Value>,
                   actedIn: seq<Value>, related: seq<Value>)

  /** The keys `_singlePersonWithDetails` sets after copying the person. */
  const PersonDetailKeys: set<string> := {"directed", "produced", "wrote", "actedIn", "related"}

  /**
    `_singlePersonWithDetails(record)`: null for a record without columns;
    otherwise the projected person extended by the five collected lists,
    each copied element by element, so unchanged.
  */
  function SinglePersonWithDetails(rec: PersonRecord): (r: Option<Props>)
    ensures r.None? <==> rec.EmptyPersonRecord?
    ensures r.Some? ==> r.value.Keys == Person(rec.person).Keys + PersonDetailKeys
    ensures r.Some? ==> forall k :: k in Person(rec.person) && k !in PersonDetailKeys ==>
      r.value[k] == Person(rec.person)[k]
    ensures r.Some? ==> r.value["directed"] == Arr(rec.directed) && r.value["produced"] == Arr(rec.produced)
    ensures r.Some? ==> r.value["wrote"] == Arr(rec.wrote) && r.value["actedIn"] == Arr(rec.actedIn)
    ensures r.Some? ==> r.value["related"] == Arr(rec.related)
  {
    match rec
    case EmptyPersonRecord => None
    case PersonRecord(person, directed, produced, wrote, actedIn, related) =>
      Some(Person(person)[
        "directed" := Arr(directed)][
        "produced" := Arr(produced)][
        "wrote" := Arr(wrote)][
        "actedIn" := Arr(actedIn)][
        "related" := Arr(related)])
  }

  /** `_manyPeople(result)`: one person per row, in row order. */
  function ManyPeople(rows: seq<Node>): (r: seq<Props>)
    ensures |r| == |rows|
    ensures forall i :: 0 <= i < |r| ==> r[i] == Person(rows[i])
  {
    seq(|rows|, i requires 0 <= i < |rows| => Person(rows[i]))
  }

  /** `MATCH (person:Person) RETURN person`. */
  function AllPersonIds(g: Graph): (ids: seq<nat>)
    ensures forall i: nat :: i in ids <==> IsPerson(g, i)
    ensures Increasing(ids) && Movies.InRange(g, ids)
  {
    Select(|g.nodes|, (i: nat) => IsPerson(g, i))
  }

  /** `getAll`: every person node, projected, in row order. */
  function GetAll(g: Graph): (r: seq<Props>)
    ensures |r| == |AllPersonIds(g)|
    ensures forall k :: 0 <= k < |r| ==> IsPerson(g, AllPersonIds(g)[k]) && r[k] == Person(g.nodes[AllPersonIds(g)[k]])
    ensures forall i :: 0 <= i < |g.nodes| && IsPerson(g, i) ==> Person(g.nodes[i]) in r
  {
    var ids := AllPersonIds(g);
    var r := ManyPeople(NodesAt(g, ids));
    assert forall i :: 0 <= i < |g.nodes| && IsPerson(g, i) ==> Person(g.nodes[i]) in r by {
      forall i | 0 <= i < |g.nodes| && IsPerson(g, i) ensures Person(g.nodes[i]) in r {
        assert i in ids;
        var k :| 0 <= k < |ids| && ids[k] == i;
        assert r[k] == Person(g.nodes[i]);
      }
    }
    r
  }

  // ================================================================ getById

  /** `{name: x.title, id: x.tmdbId, poster_image: x.poster}`, plus `role: r.role` for acting. */
  function MovieSummary(x: Node, e: Edge, withRole: bool): Value {
    var m := map["name" := CypherProp(x, "title"), "id" := CypherProp(x, "tmdbId"),
                 "poster_image" := CypherProp(x, "poster")];
    Obj(if withRole then m["role" := Movies.EdgeProp(e, "role")] else m)
  }

  /** The same map when the optional match found nothing: every field `null`. */
  function NullMovieSummary(withRole: bool): Value {
    var m := map["name" := Null, "id" := Null, "poster_image" := Null];
    Obj(if withRole then m["role" := Null] else m)
  }

  /**
    Edge `e` matches `(person)-[:rel]->(x:Movie)` when `outgoingOnly`, and
    `(person)<-[:rel]->(x:Movie)` (either direction) otherwise.
  */
  predicate CreditEdge(g: Graph, p: nat, e: Edge, rel: Rel, outgoingOnly: bool) {
    e.rel == rel &&
    ((e.src == p && IsMovie(g, e.dst)) || (!outgoingOnly && e.dst == p && IsMovie(g, e.src)))
  }

  /** The movie at the other end of a credit edge. */
  function OtherEnd(e: Edge, p: nat): nat {
    if e.src == p then e.dst else e.src
  }

  /** The summary a credit edge contributes. */
  function CreditSummary(g: Graph, p: nat, e: Edge, rel: Rel, outgoingOnly: bool, withRole: bool): Value
    requires CreditEdge(g, p, e, rel, outgoingOnly)
  {
    MovieSummary(g.nodes[OtherEnd(e, p)], e, withRole)
  }

  function CreditEdges(g: Graph, p: nat, rel: Rel, outgoingOnly: bool): (es: seq<nat>)
    ensures forall j: nat :: j in es <==> j < |g.edges| && CreditEdge(g, p, g.edges[j], rel, outgoingOnly)
    ensures forall k :: 0 <= k < |es| ==> es[k] < |g.edges| && CreditEdge(g, p, g.edges[es[k]], rel, outgoingOnly)
  {
    Select(|g.edges|, (j: nat) => j < |g.edges| && CreditEdge(g, p, g.edges[j], rel, outgoingOnly))
  }

  /** `collect(DISTINCT {...})` of the movies credited to `p` through `rel`. */
  function Credits(g: Graph, p: nat, rel: Rel, outgoingOnly: bool, withRole: bool): (vs: seq<Value>)
    ensures vs != [] && Distinct(vs)
    ensures CreditEdges(g, p, rel, outgoingOnly) == [] ==> vs == [NullMovieSummary(withRole)]
    ensures forall v :: v in vs && CreditEdges(g, p, rel, outgoingOnly) != [] ==>
      exists j :: 0 <= j < |g.edges| && CreditEdge(g, p, g.edges[j], rel, outgoingOnly) &&
                  v == CreditSummary(g, p, g.edges[j], rel, outgoingOnly, withRole)
    ensures forall j :: 0 <= j < |g.edges| && CreditEdge(g, p, g.edges[j], rel, outgoingOnly) ==>
      CreditSummary(g, p, g.edges[j], rel, outgoingOnly, withRole) in vs
  {
    Movies.CollectDistinctMaps(CreditSummaries(g, p, rel, outgoingOnly, withRole), NullMovieSummary(withRole))
  }

  /** One summary per credit edge, in edge order. */
  function CreditSummaries(g: Graph, p: nat, rel: Rel, outgoingOnly: bool, withRole: bool): (summaries: seq<Value>)
    ensures |summaries| == |CreditEdges(g, p, rel, outgoingOnly)|
    ensures forall v :: v in summaries ==>
      exists j :: 0 <= j < |g.edges| && CreditEdge(g, p, g.edges[j], rel, outgoingOnly) &&
                  v == CreditSummary(g, p, g.edges[j], rel, outgoingOnly, withRole)
    ensures forall j :: 0 <= j < |g.edges| && CreditEdge(g, p, g.edges[j], rel, outgoingOnly) ==>
      CreditSummary(g, p, g.edges[j], rel, outgoingOnly, withRole) in summaries
  {
    var es := CreditEdges(g, p, rel, outgoingOnly);
    var summaries := SummariesOf(g, p, es, rel, outgoingOnly, withRole);
    assert forall j :: 0 <= j < |g.edges| && CreditEdge(g, p, g.edges[j], rel, outgoingOnly) ==>
      CreditSummary(g, p, g.edges[j], rel, outgoingOnly, withRole) in summaries by {
      forall j | 0 <= j < |g.edges| && CreditEdge(g, p, g.edges[j], rel, outgoingOnly)
        ensures CreditSummary(g, p, g.edges[j], rel, outgoingOnly, withRole) in summaries {
        assert j in es;
        var k :| 0 <= k < |es| && es[k] == j;
        assert summaries[k] == CreditSummary(g, p, g.edges[j], rel, outgoingOnly, withRole);
      }
    }
    summaries
  }

  /** The summary of each given credit edge, in edge order. */
  function SummariesOf(g: Graph, p: nat, es: seq<nat>, rel: Rel, outgoingOnly: bool, withRole: bool): (vs: seq<Value>)
    requires forall k :: 0 <= k < |es| ==> es[k] < |g.edges| && CreditEdge(g, p, g.edges[es[k]], rel, outgoingOnly)
    ensures |vs| == |es|
    ensures forall k :: 0 <= k < |es| ==> vs[k] == CreditSummary(g, p, g.edges[es[k]], rel, outgoingOnly, withRole)
    ensures forall v :: v in vs ==>
      exists j :: 0 <= j < |g.edges| && CreditEdge(g, p, g.edges[j], rel, outgoingOnly) &&
                  v == CreditSummary(g, p, g.edges[j], rel, outgoingOnly, withRole)
  {
    var vs := seq(|es|, k requires 0 <= k < |es| => CreditSummary(g, p, g.edges[es[k]], rel, outgoingOnly, withRole));
    assert forall v :: v in vs ==>
      exists j :: 0 <= j < |g.edges| && CreditEdge(g, p, g.edges[j], rel, outgoingOnly) &&
                  v == CreditSummary(g, p, g.edges[j], rel, outgoingOnly, withRole) by {
      forall v | v in vs
        ensures exists j :: 0 <= j < |g.edges| && CreditEdge(g, p, g.edges[j], rel, outgoingOnly) &&
                            v == CreditSummary(g, p, g.edges[j], rel, outgoingOnly, withRole) {
        var k :| 0 <= k < |vs| && vs[k] == v;
        var j := es[k];
        assert CreditEdge(g, p, g.edges[j], rel, outgoingOnly) && v == CreditSummary(g, p, g.edges[j], rel, outgoingOnly, withRole);
      }
    }
    vs
  }

  /**
    `(person)-->(movies)<-[relatedRole:ACTED_IN]-(relatedPerson)`: edge `j2` is
    an ACTED_IN edge into a node that `p` reaches by some other edge (the two
    edges of one pattern are never the same edge).
  */
  predicate RelatedEdge(g: Graph, p: nat, j2: nat) {
    j2 < |g.edges| && g.edges[j2].rel == ActedIn && g.edges[j2].src < |g.nodes| &&
    var target := g.edges[j2].dst;
    (p, target) in g.ratings ||
    exists j1 :: 0 <= j1 < |g.edges| && j1 != j2 && g.edges[j1].src == p && g.edges[j1].dst == target
  }

  /** `{name, id, poster_image}` of the related person and `role` of their ACTED_IN edge. */
  function RelatedSummary(x: Node, e: Edge): Value {
    Obj(map["name" := CypherProp(x, "name"), "id" := CypherProp(x, "tmdbId"),
            "poster_image" := CypherProp(x, "poster"), "role" := Movies.EdgeProp(e, "role")])
  }

  /** The summary of a related ACTED_IN edge. */
  predicate RelatedMapOf(g: Graph, p: nat, v: Value) {
    exists j :: 0 <= j < |g.edges| && RelatedEdge(g, p, j) && v == RelatedSummary(g.nodes[g.edges[j].src], g.edges[j])
  }

  /** The ids of the related ACTED_IN edges, in order. */
  function RelatedEdgeIds(g: Graph, p: nat): (es: seq<nat>)
    ensures forall j: nat :: j in es <==> RelatedEdge(g, p, j)
    ensures forall k :: 0 <= k < |es| ==> RelatedEdge(g, p, es[k])
  {
    Select(|g.edges|, (j: nat) => RelatedEdge(g, p, j))
  }

  /** One summary per related ACTED_IN edge, in edge order. */
  function RelatedSummaries(g: Graph, p: nat): (summaries: seq<Value>)
    ensures summaries == [] <==> forall j :: 0 <= j < |g.edges| ==> !RelatedEdge(g, p, j)
    ensures forall v :: v in summaries <==> RelatedMapOf(g, p, v)
  {
    var es := RelatedEdgeIds(g, p);
    var summaries := seq(|es|, k requires 0 <= k < |es| => RelatedSummary(g.nodes[g.edges[es[k]].src], g.edges[es[k]]));
    assert summaries == [] ==> forall j :: 0 <= j < |g.edges| ==> !RelatedEdge(g, p, j);
    assert summaries != [] ==> RelatedEdge(g, p, es[0]);
    forall v | v in summaries ensures RelatedMapOf(g, p, v) {
      var k :| 0 <= k < |summaries| && summaries[k] == v;
      assert RelatedEdge(g, p, es[k]);
    }
    forall v | RelatedMapOf(g, p, v) ensures v in summaries {
      var j :| 0 <= j < |g.edges| && RelatedEdge(g, p, j) && v == RelatedSummary(g.nodes[g.edges[j].src], g.edges[j]);
      var k :| 0 <= k < |es| && es[k] == j;
      assert summaries[k] == v;
    }
    summaries
  }

  /**
    `collect(DISTINCT {...})` of the related people: the all-null map when
    nothing relates, otherwise exactly the related summaries.
  */
  function RelatedPeople(g: Graph, p: nat): (vs: seq<Value>)
    ensures vs != [] && Distinct(vs)
    ensures (forall j :: 0 <= j < |g.edges| ==> !RelatedEdge(g, p, j)) ==> vs == [Movies.NullActorSummary]
    ensures (exists j :: 0 <= j < |g.edges| && RelatedEdge(g, p, j)) ==> forall v :: v in vs <==> RelatedMapOf(g, p, v)
  {
    Movies.CollectDistinctMaps(RelatedSummaries(g, p), Movies.NullActorSummary)
  }

  /** The row the person `getById` query returns for person `p`. */
  function PersonDetailRecord(g: Graph, p: nat): (rec: PersonRecord)
    requires p < |g.nodes|
    ensures rec.PersonRecord? && rec.person == g.nodes[p]
    ensures rec.directed == Credits(g, p, Directed, true, false)
    ensures rec.produced == Credits(g, p, Produced, false, false)
    ensures rec.wrote == Credits(g, p, WriterOf, false, false)
    ensures rec.actedIn == Credits(g, p, ActedIn, false, true)
    ensures rec.related == RelatedPeople(g, p)
  {
    PersonRecord(g.nodes[p], Credits(g, p, Directed, true, false), Credits(g, p, Produced, false, false),
                 Credits(g, p, WriterOf, false, false), Credits(g, p, ActedIn, false, true), RelatedPeople(g, p))
  }

  /** The DIRECTED pattern is outgoing only: a movie that directs the person is not listed. */
  lemma DirectedIsOutgoingOnly(g: Graph, p: nat, e: Edge)
    requires e.rel == Directed && e.dst == p && e.src != p
    ensures !CreditEdge(g, p, e, Directed, true)
    ensures IsMovie(g, e.src) ==> CreditEdge(g, p, e, Directed, false)
  {
  }

  /** `{message: 'person not found', status: 404}`. */
  const PersonNotFound: Value := ErrorObject("message", "person not found", 404)

  /** `getById`: the first person with that `tmdbId`, with details, or a thrown 404 object. */
  function GetById(g: Graph, id: Value): (r: Result<Option<Props>>)
    ensures r.Thrown? <==> forall i :: 0 <= i < |g.nodes| ==> !Matches(g, i, PersonLabel, "tmdbId", id)
    ensures r.Thrown? ==> r.error == PersonNotFound
    ensures r.Ok? ==> r.value.Some?
    ensures r.Ok? ==> exists p :: 0 <= p < |g.nodes| && Matches(g, p, PersonLabel, "tmdbId", id) &&
                                  r.value == SinglePersonWithDetails(PersonDetailRecord(g, p))
  {
    var found := Select(|g.nodes|, (i: nat) => Matches(g, i, PersonLabel, "tmdbId", id));
    assert forall i: nat :: i < |g.nodes| && Matches(g, i, PersonLabel, "tmdbId", id) ==> i in found;
    if found == [] then Thrown(PersonNotFound)
    else
      assert found[0] in found;
      Ok(SinglePersonWithDetails(PersonDetailRecord(g, found[0])))
  }

  // ================================================================ Bacon path

  /** One `-[:ACTED_IN]-` hop, in either direction. */
  predicate ActingStep(g: Graph, a: nat, b: nat) {
    exists j :: 0 <= j < |g.edges| && g.edges[j].rel == ActedIn &&
      ((g.edges[j].src == a && g.edges[j].dst == b) || (g.edges[j].src == b && g.edges[j].dst == a))
  }

  /** A path of at least one ACTED_IN hop (`[:ACTED_IN*]`), as the list of its nodes. */
  predicate ActingPath(g: Graph, path: seq<nat>) {
    && |path| >= 2
    && (forall k :: 0 <= k < |path| ==> path[k] < |g.nodes|)
    && (forall k :: 0 <= k < |path| - 1 ==> ActingStep(g, path[k], path[k + 1]))
  }

  /** `shortestPath(...)` between its own two ends: no acting path between them is shorter. */
  ghost predicate ShortestActingPath(g: Graph, path: seq<nat>) {
    ActingPath(g, path) &&
    forall q :: ActingPath(g, q) && q[0] == path[0] && q[|q| - 1] == path[|path| - 1] ==> |path| <= |q|
  }

  /** The ends are people named `name1` and `name2`. */
  predicate Connects(g: Graph, path: seq<nat>, name1: Value, name2: Value) {
    |path| >= 1 &&
    Matches(g, path[0], PersonLabel, "name", name1) && Matches(g, path[|path| - 1], PersonLabel, "name", name2)
  }

  /** Cutting out the loop between two visits of one node keeps an acting path with the same ends. */
  lemma CutLoop(g: Graph, path: seq<nat>, i: nat, j: nat)
    requires ActingPath(g, path) && i < j < |path| && path[i] == path[j]
    requires path[0] != path[|path| - 1]
    ensures ActingPath(g, path[..i] + path[j..])
    ensures (path[..i] + path[j..])[0] == path[0]
    ensures (path[..i] + path[j..])[|path[..i] + path[j..]| - 1] == path[|path| - 1]
    ensures |path[..i] + path[j..]| < |path|
  {
    var q := path[..i] + path[j..];
    assert |q| >= 2;
    forall k | 0 <= k < |q| - 1 ensures ActingStep(g, q[k], q[k + 1]) {
      if k + 1 < i {
        assert q[k] == path[k] && q[k + 1] == path[k + 1];
      } else if k + 1 == i {
        assert q[k] == path[k] && q[k + 1] == path[j] == path[k + 1];
      } else {
        assert q[k] == path[k + j - i] && q[k + 1] == path[k + 1 + j - i];
      }
    }
  }

  /** A shortest acting path between two different people visits no node twice. */
  lemma ShortestPathIsSimple(g: Graph, path: seq<nat>)
    requires ShortestActingPath(g, path)
    requires path[0] != path[|path| - 1]
    ensures Distinct(path)
  {
    forall i, j | 0 <= i < j < |path| ensures path[i] != path[j] {
      if path[i] == path[j] {
        CutLoop(g, path, i, j);
      }
    }
  }

  /** `[n IN nodes(p) WHERE n:Person | n]`. */
  function PeopleOn(g: Graph, path: seq<nat>): (r: seq<nat>)
    ensures forall x :: x in r <==> x in path && IsPerson(g, x)
    ensures Distinct(path) ==> Distinct(r)
    ensures |r| == |FilterPositions(path, (x: nat) => IsPerson(g, x))|
    ensures forall k :: 0 <= k < |r| ==> r[k] == path[FilterPositions(path, (x: nat) => IsPerson(g, x))[k]]
  {
    Filter(path, (x: nat) => IsPerson(g, x))
  }

  /**
    The nodes of each path that are people, unwound over every returned path and
    then `RETURN DISTINCT person`. The shortest paths are the engine's answer
    and come in as `paths`, one per pair of people with the two names.
  */
  function BaconIds(g: Graph, paths: seq<seq<nat>>): (ids: seq<nat>)
    ensures Distinct(ids)
    ensures forall x :: x in ids <==> IsPerson(g, x) && exists i :: 0 <= i < |paths| && x in paths[i]
    ensures forall k :: 0 <= k < |ids| ==> IsPerson(g, ids[k])
  {
    var persons := seq(|paths|, i requires 0 <= i < |paths| => PeopleOn(g, paths[i]));
    var ids := Dedup(Flatten(persons));
    assert forall x :: x in ids <==> IsPerson(g, x) && exists i :: 0 <= i < |paths| && x in paths[i] by {
      forall x ensures x in ids <==> IsPerson(g, x) && exists i :: 0 <= i < |paths| && x in paths[i] {
        if IsPerson(g, x) && exists i :: 0 <= i < |paths| && x in paths[i] {
          var i :| 0 <= i < |paths| && x in paths[i];
          assert x in persons[i];
        }
      }
    }
    ids
  }

  /** `getBaconPeople`: the people on the paths, each once, projected. */
  function GetBaconPeople(g: Graph, paths: seq<seq<nat>>): (r: seq<Props>)
    ensures |r| == |BaconIds(g, paths)|
    ensures paths == [] ==> r == []
    ensures forall k :: 0 <= k < |r| ==> r[k] == Person(g.nodes[BaconIds(g, paths)[k]])
  {
    var ids := BaconIds(g, paths);
    ManyPeople(NodesAt(g, ids))
  }

  /**
    On one shortest path between two differently placed people, DISTINCT
    changes nothing: the answer is the path's people in path order, and it
    starts and ends with the two named people.
  */
  lemma BaconOfShortestPath(g: Graph, path: seq<nat>, name1: Value, name2: Value)
    requires ShortestActingPath(g, path) && Connects(g, path, name1, name2)
    requires path[0] != path[|path| - 1]
    ensures BaconIds(g, [path]) == PeopleOn(g, path)
    ensures |BaconIds(g, [path])| >= 2
    ensures BaconIds(g, [path])[0] == path[0]
    ensures BaconIds(g, [path])[|BaconIds(g, [path])| - 1] == path[|path| - 1]
  {
    ShortestPathIsSimple(g, path);
    BaconIdsOfOnePath(g, path);
    DedupOfDistinct(PeopleOn(g, path));
    FilterKeepsEnds(path, (x: nat) => IsPerson(g, x));
    assert PeopleOn(g, path) == Filter(path, (x: nat) => IsPerson(g, x));
  }

  /** With one path, the answer is the path's people with duplicates dropped. */
  lemma BaconIdsOfOnePath(g: Graph, path: seq<nat>)
    ensures BaconIds(g, [path]) == Dedup(PeopleOn(g, path))
  {
    var persons := PeopleOn(g, path);
    var paths := [path];
    var single := seq(|paths|, i requires 0 <= i < |paths| => PeopleOn(g, paths[i]));
    assert single == [persons];
    assert single[..0] == [];
    assert Flatten(single) == persons;
  }

  /** A filter that keeps both ends of a sequence starts and ends with them. */
  lemma {:induction false} FilterKeepsEnds(s: seq<nat>, p: nat -> bool)
    requires |s| >= 2 && p(s[0]) && p(s[|s| - 1])
    ensures |Filter(s, p)| >= 2
    ensures Filter(s, p)[0] == s[0] && Filter(s, p)[|Filter(s, p)| - 1] == s[|s| - 1]
  {
    var init := s[..|s| - 1];
    if |init| >= 2 && p(init[|init| - 1]) {
      FilterKeepsEnds(init, p);
    } else {
      FilterKeepsFirst(init, p);
    }
  }

  lemma {:induction false} FilterKeepsFirst(s: seq<nat>, p: nat -> bool)
    requires |s| >= 1 && p(s[0])
    ensures |Filter(s, p)| >= 1 && Filter(s, p)[0] == s[0]
  {
    if |s| > 1 {
      FilterKeepsFirst(s[..|s| - 1], p);
    }
  }
}
