/**
 * Batched emission of the graph as documents. Each bulk insert of a batch is
 * modelled as appending that batch to the sequence of batches written.
 */
module Ingest {
  import opened EdgeWhitelist
  import opened Tables
  import opened Adjacency

  /** Number of documents written per bulk insert. */
  const BatchSize: nat := 5000

  /** The stored form of one node, keyed by its id. */
  datatype Document = Document(id: NodeId, name: string, kind: string, connections: seq<Connection>)

  /** The document for one graph entry. */
  function ToDocument(id: NodeId, entry: Entry): Document {
    Document(id, entry.name, entry.kind, entry.connections)
  }

  /** The documents for all graph entries, in key order. */
  function Documents(g: Graph): seq<Document>
    requires g.Valid()
  {
    seq(|g.order|, i requires 0 <= i < |g.order| => ToDocument(g.order[i], g.entries[g.order[i]]))
  }

  /** All batches joined in the order they were written. */
  function Flatten(batches: seq<seq<Document>>): seq<Document>
    decreases |batches|
  {
    if batches == [] then []
    else Flatten(batches[..|batches| - 1]) + batches[|batches| - 1]
  }

  /** Every batch but the last is full, and none is empty or over-full. */
  predicate WellSized(batches: seq<seq<Document>>, size: nat) {
    && (forall i :: 0 <= i < |batches| ==> 0 < |batches[i]| <= size)
    && (forall i :: 0 <= i < |batches| - 1 ==> |batches[i]| == size)
  }

  /**
   * Reference definition of the split: consecutive runs of `size`
   * documents, the last run holding the remainder.
   */
  function Chunks(docs: seq<Document>, size: nat): seq<seq<Document>>
    requires size > 0
    decreases |docs|
  {
    if docs == [] then []
    else if |docs| <= size then [docs]
    else [docs[..size]] + Chunks(docs[size..], size)
  }

  /**
   * The emission loop: walk the graph in key order, add each node's
   * document to the pending batch, write the batch whenever it reaches the
   * batch size, and write a non-empty remainder after the loop.
   */
  method EmitBatches(g: Graph) returns (batches: seq<seq<Document>>)
    requires g.Valid()
    ensures Flatten(batches) == Documents(g)
    ensures WellSized(batches, BatchSize)
    ensures |batches| == (|g.order| + BatchSize - 1) / BatchSize
  {
    batches := [];
    var batch: seq<Document> := [];
    var i := 0;
    while i < |g.order|
      invariant 0 <= i <= |g.order|
      invariant Flatten(batches) + batch == Documents(g)[..i]
      invariant forall j :: 0 <= j < |batches| ==> |batches[j]| == BatchSize
      invariant |batch| < BatchSize
      invariant |batches| * BatchSize + |batch| == i
    {
      var id := g.order[i];
      var doc := ToDocument(id, g.entries[id]);
      batch := batch + [doc];
      assert Documents(g)[..i + 1] == Documents(g)[..i] + [doc];
      if |batch| >= BatchSize {
        batches := batches + [batch];
        batch := [];
      }
      i := i + 1;
    }
    assert Documents(g)[..|g.order|] == Documents(g);
    if batch != [] {
      batches := batches + [batch];
    }
  }

  /**
   * Any sequence of batches that joins up to the documents and is well sized
   * is exactly the reference split: the batching is determined by the
   * documents alone.
   */
  lemma {:induction false} WellSizedIsChunks(batches: seq<seq<Document>>, docs: seq<Document>, size: nat)
    requires size > 0
    requires Flatten(batches) == docs
    requires WellSized(batches, size)
    ensures batches == Chunks(docs, size)
    decreases |batches|
  {
    if batches != [] {
      var rest := batches[1..];
      FlattenCons(batches);
      assert WellSized(rest, size) by {
        forall i | 0 <= i < |rest| ensures 0 < |rest[i]| <= size {
          assert rest[i] == batches[i + 1];
        }
        forall i | 0 <= i < |rest| - 1 ensures |rest[i]| == size {
          assert rest[i] == batches[i + 1];
        }
      }
      WellSizedIsChunks(rest, Flatten(rest), size);
      if |batches| == 1 {
        assert rest == [];
        assert docs == batches[0];
        assert batches == [docs];
      } else {
        assert |batches[0]| == size;
        assert 0 < |batches[1]|;
        FlattenCons(rest);
        assert docs[..size] == batches[0];
        assert docs[size..] == Flatten(rest);
      }
    }
  }

  /** Joining splits off the first batch as well as the last. */
  lemma {:induction false} FlattenCons(batches: seq<seq<Document>>)
    requires batches != []
    ensures Flatten(batches) == batches[0] + Flatten(batches[1..])
    decreases |batches|
  {
    if |batches| > 1 {
      var front := batches[..|batches| - 1];
      FlattenCons(front);
      assert front[1..] == batches[1..][..|batches[1..]| - 1];
    } else {
      assert batches[..0] == [];
    }
  }

  /**
   * Reference definition of the whole load: one document per node row, in
   * table order, holding the row's id, name and kind and its outgoing
   * whitelisted connections.
   */
  function ExpectedDocuments(nodes: seq<NodeRow>, edges: seq<EdgeRow>): seq<Document> {
    seq(|nodes|, i requires 0 <= i < |nodes| =>
      Document(nodes[i].id, nodes[i].name, nodes[i].kind, Outgoing(edges, nodes[i].id)))
  }

  /**
   * The whole loading script: build the graph, then write it in batches.
   * The batches are the reference split of the expected documents; an empty
   * node table writes nothing.
   */
  method Load(nodes: seq<NodeRow>, edges: seq<EdgeRow>) returns (batches: seq<seq<Document>>)
    requires DistinctIds(nodes)
    ensures Flatten(batches) == ExpectedDocuments(nodes, edges)
    ensures WellSized(batches, BatchSize)
    ensures batches == Chunks(ExpectedDocuments(nodes, edges), BatchSize)
    ensures batches == [] <==> nodes == []
  {
    var g := BuildGraph(nodes, edges);
    batches := EmitBatches(g);
    assert Documents(g) == ExpectedDocuments(nodes, edges);
    WellSizedIsChunks(batches, ExpectedDocuments(nodes, edges), BatchSize);
  }

  /** A non-whitelisted edge row leaves every document as it was. */
  lemma IgnoredCodeChangesNothing(nodes: seq<NodeRow>, edges: seq<EdgeRow>, e: EdgeRow)
    requires !IsWhitelisted(e.metaedge)
    ensures ExpectedDocuments(nodes, edges + [e]) == ExpectedDocuments(nodes, edges)
  {
    forall i | 0 <= i < |nodes|
      ensures Outgoing(edges + [e], nodes[i].id) == Outgoing(edges, nodes[i].id)
    {
      OnlySourceListChanges(edges, e, nodes[i].id);
    }
  }

  /** An edge row whose source is not a node is dropped: no document changes. */
  lemma UnknownSourceDropped(nodes: seq<NodeRow>, edges: seq<EdgeRow>, e: EdgeRow)
    requires forall i :: 0 <= i < |nodes| ==> nodes[i].id != e.source
    ensures ExpectedDocuments(nodes, edges + [e]) == ExpectedDocuments(nodes, edges)
  {
    forall i | 0 <= i < |nodes|
      ensures Outgoing(edges + [e], nodes[i].id) == Outgoing(edges, nodes[i].id)
    {
      OnlySourceListChanges(edges, e, nodes[i].id);
    }
  }

  /**
   * A whitelisted edge row from a known node is recorded on that node's
   * document whatever its target, and on no other document.
   */
  lemma TargetNotValidated(nodes: seq<NodeRow>, edges: seq<EdgeRow>, e: EdgeRow, s: nat)
    requires DistinctIds(nodes)
    requires IsWhitelisted(e.metaedge)
    requires s < |nodes| && nodes[s].id == e.source
    ensures ExpectedDocuments(nodes, edges + [e])[s].connections ==
      ExpectedDocuments(nodes, edges)[s].connections + [Connection(e.target, EdgeType(e.metaedge))]
    ensures forall i :: 0 <= i < |nodes| && i != s ==>
      ExpectedDocuments(nodes, edges + [e])[i] == ExpectedDocuments(nodes, edges)[i]
  {
    forall i | 0 <= i < |nodes|
      ensures Outgoing(edges + [e], nodes[i].id) ==
        Outgoing(edges, nodes[i].id) + (if i == s then [Connection(e.target, EdgeType(e.metaedge))] else [])
    {
      OnlySourceListChanges(edges, e, nodes[i].id);
    }
  }
}
