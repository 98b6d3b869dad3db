/**
 * The two input tables, already read from nodes.tsv and edges.tsv, and the
 * whitelist filter applied to the edge table before the graph is built.
 */
module Tables {
  import opened EdgeWhitelist

  type NodeId = string

  /** One row of nodes.tsv (the columns the loader reads). */
  datatype NodeRow = NodeRow(id: NodeId, name: string, kind: string)

  /** One row of edges.tsv (the columns the loader reads). */
  datatype EdgeRow = EdgeRow(source: NodeId, metaedge: string, target: NodeId)

  /**
   * The node table is indexed by id, so ids must be unique: the index it is
   * turned into is refused by the table library otherwise.
   */
  predicate DistinctIds(nodes: seq<NodeRow>) {
    forall i, j :: 0 <= i < j < |nodes| ==> nodes[i].id != nodes[j].id
  }

  /** The node ids in table order. */
  function Ids(nodes: seq<NodeRow>): seq<NodeId> {
    seq(|nodes|, i requires 0 <= i < |nodes| => nodes[i].id)
  }

  /**
   * The edge table restricted to whitelisted metaedge codes. The filter keeps
   * row order and repeated rows; the contract below states only membership
   * and length, and the order is pinned down by the lemma that filtering
   * changes no node's connection list (Adjacency.FilterKeepsOutgoing).
   */
  function KeepWhitelisted(edges: seq<EdgeRow>): (kept: seq<EdgeRow>)
    ensures |kept| <= |edges|
    ensures forall e :: e in kept <==> e in edges && IsWhitelisted(e.metaedge)
    decreases |edges|
  {
    if edges == [] then []
    else
      var last := edges[|edges| - 1];
      var front := KeepWhitelisted(edges[..|edges| - 1]);
      assert edges == edges[..|edges| - 1] + [last];
      if IsWhitelisted(last.metaedge) then front + [last] else front
  }

  /** Filtering twice keeps the same rows as filtering once (an algebraic fact of the filter). */
  lemma {:induction false} KeepWhitelistedIdempotent(edges: seq<EdgeRow>)
    ensures KeepWhitelisted(KeepWhitelisted(edges)) == KeepWhitelisted(edges)
    decreases |edges|
  {
    if edges != [] {
      var front := edges[..|edges| - 1];
      var last := edges[|edges| - 1];
      KeepWhitelistedIdempotent(front);
      var k := KeepWhitelisted(front);
      if IsWhitelisted(last.metaedge) {
        assert (k + [last])[..|k + [last]| - 1] == k;
      }
    }
  }
}
