/**
  The property graph behind the session handle: labelled nodes whose internal
  id is their position, typed edges whose internal id is their position, and
  the RATED edges kept as a map from (user, movie) to the rating, which makes
  a RATED edge unique per pair. The pattern predicates below are the pieces
  the queries are written with.
*/
module GraphModel {
  import opened JsValues
  import opened SeqHelpers

  datatype Label = MovieLabel | PersonLabel | GenreLabel | UserLabel

  /** A raw node as the driver hands it over: labels and `.properties`. */
  datatype Node = Node(labels: set<Label>, properties: Props)

  datatype Rel = ActedIn | Directed | Produced | WriterOf | InGenre

  /** A typed edge `src -[rel]-> dst`; ACTED_IN edges carry `role`. */
  datatype Edge = Edge(src: nat, rel: Rel, dst: nat, properties: Props)

  datatype Graph = Graph(nodes: seq<Node>, edges: seq<Edge>, ratings: map<(nat, nat), int>)

  /** The single graph handle every request shares (`getSession()`). */
  class GraphSession {
    var graph: Graph

    constructor (g: Graph)
      ensures graph == g
    {
      graph := g;
    }
  }

  predicate HasLabel(g: Graph, i: nat, l: Label) {
    i < |g.nodes| && l in g.nodes[i].labels
  }

  /** Reading `n.key` in a query: a missing property is `null`. */
  function CypherProp(n: Node, key: string): Value {
    if key in n.properties then n.properties[key] else Null
  }

  /** Equality in a query: `null` (and NaN) equal nothing, not even themselves. */
  predicate CypherEq(a: Value, b: Value) {
    a == b && !Nullish(a) && a != NaN
  }

  /** `(i:Label {key: $param})`. */
  predicate Matches(g: Graph, i: nat, l: Label, key: string, param: Value) {
    HasLabel(g, i, l) && CypherEq(CypherProp(g.nodes[i], key), param)
  }

  predicate IsMovie(g: Graph, i: nat) {
    HasLabel(g, i, MovieLabel)
  }

  predicate IsPerson(g: Graph, i: nat) {
    HasLabel(g, i, PersonLabel)
  }

  /** `(a)-[:rel]->(b)`. */
  predicate Linked(g: Graph, a: nat, rel: Rel, b: nat) {
    exists j :: 0 <= j < |g.edges| && g.edges[j] == Edge(a, rel, b, g.edges[j].properties)
  }

  /** `(a)<-[:rel]->(b)`: either direction. */
  predicate LinkedEither(g: Graph, a: nat, rel: Rel, b: nat) {
    Linked(g, a, rel, b) || Linked(g, b, rel, a)
  }

  /** `(a)-->(b)`: any typed edge, or a RATED edge. */
  predicate AnyEdge(g: Graph, a: nat, b: nat) {
    (exists j :: 0 <= j < |g.edges| && g.edges[j].src == a && g.edges[j].dst == b) || (a, b) in g.ratings
  }

  /** The start nodes of the given edges, in that order (the node column of an edge match). */
  function EdgeSources(g: Graph, rows: seq<nat>): (ids: seq<nat>)
    requires forall k :: 0 <= k < |rows| ==> rows[k] < |g.edges|
    ensures |ids| == |rows|
    ensures forall k :: 0 <= k < |rows| ==> ids[k] == g.edges[rows[k]].src
    ensures forall x :: x in ids <==> exists j :: j in rows && g.edges[j].src == x
  {
    var ids := seq(|rows|, k requires 0 <= k < |rows| => g.edges[rows[k]].src);
    assert forall x :: x in ids ==> exists j :: j in rows && g.edges[j].src == x by {
      forall x | x in ids ensures exists j :: j in rows && g.edges[j].src == x {
        var k :| 0 <= k < |ids| && ids[k] == x;
        assert rows[k] in rows;
      }
    }
    assert forall j :: j in rows ==> g.edges[j].src in ids by {
      forall j | j in rows ensures g.edges[j].src in ids {
        var k :| 0 <= k < |rows| && rows[k] == j;
        assert ids[k] == g.edges[j].src;
      }
    }
    ids
  }

  /** The nodes with the given ids, in that order (the `collect` of a node column). */
  function NodesAt(g: Graph, ids: seq<nat>): (ns: seq<Node>)
    requires forall k :: 0 <= k < |ids| ==> ids[k] < |g.nodes|
    ensures |ns| == |ids|
    ensures forall k :: 0 <= k < |ids| ==> ns[k] == g.nodes[ids[k]]
  {
    seq(|ids|, k requires 0 <= k < |ids| => g.nodes[ids[k]])
  }
}
