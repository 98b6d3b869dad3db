# Knowledge-graph loader and batcher

This project models the loading half of a small biomedical knowledge-graph
tool. The tool reads a node table (id, name, kind) and an edge table
(source, metaedge, target). It keeps only edges whose metaedge code is on a
fixed whitelist. It builds an in-memory adjacency dictionary: one entry per
node, each with the list of its outgoing whitelisted connections. It then
writes one document per node to a document store, in bulk inserts of 5000.

The model follows the script step by step:

- `EdgeWhitelist` is the fixed map from the eight metaedge codes to the six
  relation labels. CuG and AuG both map to "upregulates". CdG and AdG both
  map to "downregulates".
- `Tables` holds the two input tables as sequences of rows and the
  whitelist filter on the edge table.
- `Adjacency` is the graph: an insertion-ordered dictionary, modelled as a
  map plus the sequence of its keys. `BuildNodeTable` is the node loop.
  `AddConnections` is the edge loop, which appends to the source's list in
  place. `Record` is one iteration of it as a function; the loop is proved
  equal to `RecordAll`, and `RecordAllExtends` ties that to the reference
  definition `Outgoing`. `BuildGraph` runs the filter and both loops. `Outgoing` is the
  reference definition of one node's connection list.
- `Ingest` is the batched write. `EmitBatches` is the flush loop, with a
  pending batch and a trailing flush. Each bulk insert appends the batch to
  the sequence of batches written. `Chunks` is the reference split and
  `ExpectedDocuments` the reference result of the whole load. `Load` is the
  whole script from tables to batches.

The loops are `while` loops over value-typed state, proved against the
reference definitions by their invariants.

Two points on what the loader checks and records:

- The loader checks only an edge's source. An edge to an unknown target is
  still recorded (`TargetNotValidated`).
- The graph-database variant dispatches more relation kinds
  (big_data_project_1_neo4j.py:40-51) and matches both endpoints
  (big_data_project_1_neo4j.py:37-38). It is not part of this model.

## Model

| member | source | states |
|---|---|---|
| `EdgeWhitelist.EdgeType` | big_data-project1.py:7-16 | the label of a whitelisted code is one of the six relation labels; it is "upregulates" exactly for CuG and AuG and "downregulates" exactly for CdG and AdG |
| `EdgeWhitelist.WhitelistShape` | big_data-project1.py:7-16 | exactly the eight codes CtD, CpD, CuG, CdG, DaG, DlA, AuG, AdG are whitelisted, and the labels reached are exactly the six relation labels |
| `EdgeWhitelist.SharedLabels` | big_data-project1.py:7-16 | two distinct whitelisted codes share a label if and only if they are {CuG, AuG} or {CdG, AdG} |
| `Tables.KeepWhitelisted` | big_data-project1.py:26 | a row survives the filter if and only if it is an input row with a whitelisted metaedge; the filter never lengthens the table |
| `Tables.KeepWhitelistedIdempotent` | big_data-project1.py:26 | filtering an already filtered table changes nothing |
| `Adjacency.BuildNodeTable` | big_data-project1.py:29-36 | after the node pass the graph has exactly one key per node id, in table order, and each entry has its row's name and kind and an empty connection list |
| `Adjacency.AddConnections` | big_data-project1.py:40-53 | the edge loop keeps the keys, their order and every name and kind; each node's list is extended by exactly its whitelisted outgoing edges in edge order; edges with an unknown source add nothing |
| `Adjacency.RecordAllExtends` | big_data-project1.py:40-53 | running the loop body over a sequence of whitelisted rows extends each node's list by exactly its outgoing connections from those rows and leaves keys, order, names and kinds unchanged |
| `Adjacency.BuildGraph` | big_data-project1.py:21-53 | the built graph has one entry per node row, in row order, with the row's name and kind and, as connections, the whitelisted edges from that node in edge order, each as target and label |
| `Adjacency.FilterKeepsOutgoing` | big_data-project1.py:26 | filtering the edge table before the loop changes no node's connection list |
| `Adjacency.OutgoingProvenance` | big_data-project1.py:40-53 | a connection is in a node's list if and only if some whitelisted edge row from that node has that target and that code's label; non-whitelisted codes never appear |
| `Adjacency.LabelsAreRelationLabels` | big_data-project1.py:46 | every recorded edge type is one of treats, palliates, upregulates, downregulates, associates, localizes |
| `Adjacency.OnlySourceListChanges` | big_data-project1.py:49-53 | appending one edge row changes only its source's list, by the row's connection when its code is whitelisted, and changes nothing otherwise |
| `Adjacency.ConnectionCount` | big_data-project1.py:40-53 | the total number of connections over all nodes equals the number of whitelisted edge rows whose source is a node id |
| `Ingest.EmitBatches` | big_data-project1.py:64-81 | the batches joined in order are the documents of all graph entries in key order, each copying id, name, kind and connections; every batch but the last holds exactly 5000 documents, none is empty or holds more than 5000, and there are ceil(n/5000) of them, so none for an empty graph |
| `Ingest.WellSizedIsChunks` | big_data-project1.py:64-81 | any batch sequence that joins up to the documents and is well sized is the reference split, so the batching is determined by the documents alone |
| `Ingest.Load` | big_data-project1.py:26-81 | the whole load writes the reference split into 5000-document batches of one document per node row, carrying the row's fields and its whitelisted outgoing connections; nothing is written exactly when the node table is empty |
| `Ingest.IgnoredCodeChangesNothing` | big_data-project1.py:26 | adding an edge row with a non-whitelisted code leaves every document unchanged |
| `Ingest.UnknownSourceDropped` | big_data-project1.py:49-53 | adding an edge row whose source is not a node id leaves every document unchanged |
| `Ingest.TargetNotValidated` | big_data-project1.py:49-53 | adding a whitelisted edge row from a known node appends its target and label to that node's document whatever the target is, and changes no other document |

## Left out

- Reading nodes.tsv and edges.tsv (big_data-project1.py:20, 25) is file I/O; the tables are input sequences of rows.
- Duplicate node ids: indexing the node table by id fails in the table library on a duplicate; the model requires distinct ids instead of modelling that failure.
- Column parsing by the table library (missing values, numeric ids) is not modelled; every field is a string.
- The database client, `drop_database` and the bulk insert (big_data-project1.py:56-61, 76, 81) are network side effects; each bulk insert is modelled as appending the batch to the sequence of batches, and a failing insert is not modelled.
- The two aggregation queries (big_data-project1.py:84-247) are pipelines evaluated by the database engine, whose lookup and unwind semantics are not visible here.
- The desktop form and result formatting (big_data-project1.py:249-300) are user interface.
- big_data_project_1_neo4j.py is not part of this model: its loading and queries are query strings run by the graph database, and the rest is console input, output and driver lifecycle.
- Each document shares its connection list with the graph entry it came from; since nothing changes the graph after emission, the model copies the list as a value.
