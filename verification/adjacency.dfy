/**
 * The in-memory graph the loader builds: one entry per node id, in node-table
 * order, each with the list of outgoing whitelisted connections in edge-table
 * order. The graph is a dictionary that keeps insertion order, modelled as a
 * map together with the sequence of its keys.
 */
module Adjacency {
  import opened EdgeWhitelist
  import opened Tables

  /** One recorded outgoing edge: its target and its relation label. */
  datatype Connection = Connection(targetId: NodeId, edgeType: string)

  /** What the graph holds for one node. */
  datatype Entry = Entry(name: string, kind: string, connections: seq<Connection>)

  /** An insertion-ordered dictionary from node id to entry. */
  datatype Graph = Graph(order: seq<NodeId>, entries: map<NodeId, Entry>) {
    /** The key sequence lists every key of the map exactly once. */
    ghost predicate Valid() {
      && (forall i, j :: 0 <= i < j < |order| ==> order[i] != order[j])
      && (forall k :: k in entries <==> k in order)
    }
  }

  /** The connection one edge row adds to the list of node `id`, if any. */
  function Contribution(e: EdgeRow, id: NodeId): seq<Connection> {
    if e.source == id && IsWhitelisted(e.metaedge)
    then [Connection(e.target, EdgeType(e.metaedge))]
    else []
  }

  /**
   * Reference definition of a node's connection list: the whitelisted edges
   * whose source is `id`, in edge-table order, each as target and label.
   */
  function Outgoing(edges: seq<EdgeRow>, id: NodeId): seq<Connection>
    decreases |edges|
  {
    if edges == [] then []
    else Outgoing(edges[..|edges| - 1], id) + Contribution(edges[|edges| - 1], id)
  }

  /**
   * The node pass: every row becomes an entry with the row's name and kind
   * and an empty connection list, inserted in table order.
   */
  method BuildNodeTable(nodes: seq<NodeRow>) returns (g: Graph)
    requires DistinctIds(nodes)
    ensures g.Valid()
    ensures g.order == Ids(nodes)
    ensures g.entries.Keys == set i | 0 <= i < |nodes| :: nodes[i].id
    ensures forall i :: 0 <= i < |nodes| ==>
      g.entries[nodes[i].id] == Entry(nodes[i].name, nodes[i].kind, [])
  {
    g := Graph([], map[]);
    var i := 0;
    while i < |nodes|
      invariant 0 <= i <= |nodes|
      invariant g.order == Ids(nodes)[..i]
      invariant g.entries.Keys == set j | 0 <= j < i :: nodes[j].id
      invariant forall j :: 0 <= j < i ==>
        g.entries[nodes[j].id] == Entry(nodes[j].name, nodes[j].kind, [])
    {
      var row := nodes[i];
      g := Graph(g.order + [row.id], g.entries[row.id := Entry(row.name, row.kind, [])]);
      i := i + 1;
    }
    assert |Ids(nodes)| == |nodes|;
    assert forall j :: 0 <= j < |nodes| ==> Ids(nodes)[j] == nodes[j].id;
    assert Ids(nodes)[..|nodes|] == Ids(nodes);
  }

  /**
   * `g` is `g0` with every node's list extended by its outgoing connections
   * from `edges`, and nothing else changed.
   */
  ghost predicate Extends(g0: Graph, g: Graph, edges: seq<EdgeRow>) {
    && g.order == g0.order
    && g.entries.Keys == g0.entries.Keys
    && forall k :: k in g0.entries ==>
         g.entries[k] == g0.entries[k].(connections := g0.entries[k].connections + Outgoing(edges, k))
  }

  /** The graph after one iteration of the adjacency loop on `row`. */
  function Record(g: Graph, row: EdgeRow): Graph
    requires IsWhitelisted(row.metaedge)
  {
    if row.source in g.entries then
      var entry := g.entries[row.source];
      g.(entries := g.entries[row.source := entry.(connections := entry.connections + [Connection(row.target, EdgeType(row.metaedge))])])
    else g
  }

  /** The graph after the adjacency loop has run over `edges`. */
  function RecordAll(g0: Graph, edges: seq<EdgeRow>): Graph
    requires forall e :: e in edges ==> IsWhitelisted(e.metaedge)
    decreases |edges|
  {
    if edges == [] then g0
    else
      assert edges[|edges| - 1] in edges;
      Record(RecordAll(g0, edges[..|edges| - 1]), edges[|edges| - 1])
  }

  /**
   * The adjacency loop: each edge row appends its target and label to the
   * list of its source node when the source is a key; otherwise it is
   * dropped. The target is never checked. Keys, key order, names and kinds
   * are left as they were.
   */
  method AddConnections(g0: Graph, edges: seq<EdgeRow>) returns (g: Graph)
    requires g0.Valid()
    requires forall e :: e in edges ==> IsWhitelisted(e.metaedge)
    ensures g.Valid()
    ensures Extends(g0, g, edges)
  {
    g := g0;
    var i := 0;
    while i < |edges|
      invariant 0 <= i <= |edges|
      invariant g == RecordAll(g0, edges[..i])
    {
      var row := edges[i];
      var edgeType := EdgeType(row.metaedge);
      if row.source in g.entries {
        var entry := g.entries[row.source];
        g := g.(entries := g.entries[row.source := entry.(connections := entry.connections + [Connection(row.target, edgeType)])]);
      }
      assert edges[..i + 1][..i] == edges[..i];
      i := i + 1;
    }
    assert edges[..|edges|] == edges;
    RecordAllExtends(g0, edges);
    ExtendsKeepsValid(g0, g, edges);
  }

  /** Running the loop over `edges` extends each list by its outgoing connections. */
  lemma {:induction false} RecordAllExtends(g0: Graph, edges: seq<EdgeRow>)
    requires forall e :: e in edges ==> IsWhitelisted(e.metaedge)
    ensures Extends(g0, RecordAll(g0, edges), edges)
    decreases |edges|
  {
    if edges != [] {
      var front := edges[..|edges| - 1];
      var last := edges[|edges| - 1];
      assert last in edges;
      RecordAllExtends(g0, front);
      assert edges == front + [last];
      var g := RecordAll(g0, front);
      if last.source in g.entries {
        ExtendsStep(g0, g, front, last);
      } else {
        ExtendsSkip(g0, g, front, last);
      }
    }
  }

  /** Extending connection lists keeps the key sequence and the map in step. */
  lemma ExtendsKeepsValid(g0: Graph, g: Graph, edges: seq<EdgeRow>)
    requires g0.Valid() && Extends(g0, g, edges)
    ensures g.Valid()
  {
    assert forall k :: k in g.entries <==> k in g0.entries;
  }

  /** Recording one row on its (known) source keeps `Extends` for one more row. */
  lemma ExtendsStep(g0: Graph, g: Graph, edges: seq<EdgeRow>, row: EdgeRow)
    requires IsWhitelisted(row.metaedge)
    requires Extends(g0, g, edges)
    requires row.source in g.entries
    ensures Extends(g0, Record(g, row), edges + [row])
  {
    var g' := Record(g, row);
    forall k | k in g0.entries
      ensures g'.entries[k] == g0.entries[k].(connections := g0.entries[k].connections + Outgoing(edges + [row], k))
    {
      OnlySourceListChanges(edges, row, k);
      if k == row.source {
        calc {
          g'.entries[k].connections;
          g.entries[k].connections + [Connection(row.target, EdgeType(row.metaedge))];
          g0.entries[k].connections + Outgoing(edges, k) + [Connection(row.target, EdgeType(row.metaedge))];
          g0.entries[k].connections + Outgoing(edges + [row], k);
        }
      }
    }
  }

  /** A row whose source is not a key leaves every list as it was. */
  lemma ExtendsSkip(g0: Graph, g: Graph, edges: seq<EdgeRow>, row: EdgeRow)
    requires Extends(g0, g, edges)
    requires row.source !in g.entries
    ensures Extends(g0, g, edges + [row])
  {
    forall k | k in g0.entries
      ensures Outgoing(edges + [row], k) == Outgoing(edges, k)
    {
      OnlySourceListChanges(edges, row, k);
    }
  }

  /**
   * The whole graph build: filter the edge table, enter every node, then
   * record the surviving edges.
   */
  method BuildGraph(nodes: seq<NodeRow>, edges: seq<EdgeRow>) returns (g: Graph)
    requires DistinctIds(nodes)
    ensures g.Valid()
    ensures g.order == Ids(nodes)
    ensures g.entries.Keys == set i | 0 <= i < |nodes| :: nodes[i].id
    ensures forall i :: 0 <= i < |nodes| ==>
      g.entries[nodes[i].id] == Entry(nodes[i].name, nodes[i].kind, Outgoing(edges, nodes[i].id))
  {
    var kept := KeepWhitelisted(edges);
    g := BuildNodeTable(nodes);
    g := AddConnections(g, kept);
    forall k | true ensures Outgoing(kept, k) == Outgoing(edges, k) {
      FilterKeepsOutgoing(edges, k);
    }
  }

  /** Discarding non-whitelisted rows first changes no connection list. */
  lemma {:induction false} FilterKeepsOutgoing(edges: seq<EdgeRow>, id: NodeId)
    ensures Outgoing(KeepWhitelisted(edges), id) == Outgoing(edges, id)
    decreases |edges|
  {
    if edges != [] {
      var front := edges[..|edges| - 1];
      var last := edges[|edges| - 1];
      FilterKeepsOutgoing(front, id);
      var k := KeepWhitelisted(front);
      if IsWhitelisted(last.metaedge) {
        assert (k + [last])[..|k + [last]| - 1] == k;
      }
    }
  }

  /**
   * Every recorded connection comes from a whitelisted edge row with that
   * source, carrying the row's target and the whitelist's label, and every
   * such row is recorded, whatever its target.
   */
  lemma {:induction false} OutgoingProvenance(edges: seq<EdgeRow>, id: NodeId, c: Connection)
    ensures c in Outgoing(edges, id) <==>
      exists e :: e in edges && e.source == id && IsWhitelisted(e.metaedge)
                  && c == Connection(e.target, EdgeType(e.metaedge))
    decreases |edges|
  {
    if edges != [] {
      var front := edges[..|edges| - 1];
      var last := edges[|edges| - 1];
      OutgoingProvenance(front, id, c);
      assert edges == front + [last];
      if c in Outgoing(edges, id) && c !in Outgoing(front, id) {
        assert last in edges;
      }
    }
  }

  /** Every recorded label is one of the six relation labels. */
  lemma LabelsAreRelationLabels(edges: seq<EdgeRow>, id: NodeId, c: Connection)
    requires c in Outgoing(edges, id)
    ensures c.edgeType in RelationLabels
  {
    OutgoingProvenance(edges, id, c);
  }

  /**
   * Appending one edge row changes only its source's list, and extends that
   * list by the row's connection exactly when the code is whitelisted.
   */
  lemma OnlySourceListChanges(edges: seq<EdgeRow>, e: EdgeRow, id: NodeId)
    ensures id != e.source ==> Outgoing(edges + [e], id) == Outgoing(edges, id)
    ensures id == e.source && IsWhitelisted(e.metaedge) ==>
      Outgoing(edges + [e], id) == Outgoing(edges, id) + [Connection(e.target, EdgeType(e.metaedge))]
    ensures !IsWhitelisted(e.metaedge) ==> Outgoing(edges + [e], id) == Outgoing(edges, id)
  {
    assert (edges + [e])[..|edges|] == edges;
  }

  /** Sum of the list lengths of the given ids. */
  function TotalOutgoing(ids: seq<NodeId>, edges: seq<EdgeRow>): nat {
    if ids == [] then 0 else |Outgoing(edges, ids[0])| + TotalOutgoing(ids[1..], edges)
  }

  /** The edge rows that end up recorded: whitelisted, with a source among `ids`. */
  function Recorded(edges: seq<EdgeRow>, ids: set<NodeId>): seq<EdgeRow>
    decreases |edges|
  {
    if edges == [] then []
    else
      var last := edges[|edges| - 1];
      Recorded(edges[..|edges| - 1], ids)
        + (if IsWhitelisted(last.metaedge) && last.source in ids then [last] else [])
  }

  /** With distinct ids, one edge row lands in at most one of their lists. */
  lemma {:induction false} TotalOutgoingSnoc(ids: seq<NodeId>, edges: seq<EdgeRow>, e: EdgeRow)
    requires forall i, j :: 0 <= i < j < |ids| ==> ids[i] != ids[j]
    ensures TotalOutgoing(ids, edges + [e]) ==
      TotalOutgoing(ids, edges) + (if IsWhitelisted(e.metaedge) && e.source in ids then 1 else 0)
    decreases |ids|
  {
    if ids != [] {
      TotalOutgoingSnoc(ids[1..], edges, e);
      OnlySourceListChanges(edges, e, ids[0]);
      assert e.source in ids <==> e.source == ids[0] || e.source in ids[1..];
      if e.source == ids[0] {
        assert e.source !in ids[1..] by {
          forall j | 0 <= j < |ids[1..]| ensures ids[1..][j] != ids[0] {
            assert ids[1..][j] == ids[j + 1];
          }
        }
      }
    }
  }

  /**
   * The total number of connections over all nodes equals the number of
   * whitelisted edge rows whose source is a node.
   */
  lemma {:induction false} ConnectionCount(nodes: seq<NodeRow>, edges: seq<EdgeRow>)
    requires DistinctIds(nodes)
    ensures TotalOutgoing(Ids(nodes), edges) ==
      |Recorded(edges, set i | 0 <= i < |nodes| :: nodes[i].id)|
    decreases |edges|
  {
    var ids := Ids(nodes);
    var idSet := set i | 0 <= i < |nodes| :: nodes[i].id;
    if edges == [] {
      EmptyTotal(ids);
    } else {
      var front := edges[..|edges| - 1];
      var last := edges[|edges| - 1];
      ConnectionCount(nodes, front);
      assert edges == front + [last];
      TotalOutgoingSnoc(ids, front, last);
      assert last.source in ids <==> last.source in idSet by {
        if last.source in ids {
          var i :| 0 <= i < |ids| && ids[i] == last.source;
          assert nodes[i].id == last.source;
        }
        if last.source in idSet {
          var i :| 0 <= i < |nodes| && nodes[i].id == last.source;
          assert ids[i] == last.source;
        }
      }
    }
  }

  /** With no edges every list is empty. */
  lemma {:induction false} EmptyTotal(ids: seq<NodeId>)
    ensures TotalOutgoing(ids, []) == 0
    decreases |ids|
  {
    if ids != [] {
      EmptyTotal(ids[1..]);
    }
  }
}
