# cl-tools fee and graph analytics, modelled in Dafny

This project models the logic at the centre of the cl-tools scripts that a
Core Lightning node operator runs against their node and a BigQuery
warehouse:

- **Betweenness pipeline** (`5satoshi/betweenness_centrality.py`, module
  `BetweennessCentrality`). It builds a graph-tool multigraph of the active
  channels. For each transaction size it weights every edge with the BOLT #7
  fee plus a random offset and hides the edges whose HTLC bounds refuse the
  amount. It then keeps the largest strongly connected component, cuts a
  k-hop BFS neighbourhood in test mode, and ranks node and edge
  betweenness shares with "min" tie ranks.
- **Centrality measures** (`5satoshi/centrality_measures.py`, module
  `CentralityMeasures`). This is the networkx version of the same idea. For
  each size it overwrites every edge's `fee` attribute in place with
  `floor(fee) * 1000 + 1`, drops HTLC-refused channels, takes a
  maximum-size SCC and ranks its nodes.
- **Competitive route finder**, in the three scripts that carry it
  (`fee-updates/compatative_route_finder.py`, `fee-updates/fee-optimizer_bq.py`
  and `fee-updates/fee-optimizer.py`; module `RouteFinder`, one `Variant`
  per script). The home node's fees are zeroed once. Each trial then:
  - draws an origin and an amount, and zeroes the origin's fees;
  - drops channels smaller than 2.5 times the amount, and prices the rest;
  - routes inside the origin's SCC, and records each destination reached
    through the home node;
  - reports how much dearer that destination is once the home node is
    removed.

  The variants differ in three ways:
  - whether the origin zeroing happens on a copy or accumulates on the
    shared graph;
  - whether the ppm is divided by 10^6;
  - whether the comparison runs on the SCC or on the whole trial graph.
- **Channel fee policies.**
  - `5satoshi/fee-updates.py`, module `BalanceFees`: fee rate from the
    local balance, a randomised HTLC maximum and the update trigger.
  - `fee-updates/fee-updates.py`, module `PeerFees`: fee rate of each peer's
    first channel, set when it differs.
- **Forwarding sync.**
  - `5satoshi/store-forwards.py`, module `StoreForwards`.
  - `5satoshi/store-node-data.py`, module `StoreNodeData`.

  Both share the resume-index and delete rule and the warehouse tables
  (module `Checkpoint`). `StoreForwards` adds column normalisation and the
  conversion from nanoseconds to microseconds. `to_datetime` reads the
  float seconds `listforwards` reports as nanoseconds, so the stored count
  is 10^9 times smaller than the instant's microseconds
  (`StoreForwards.SecondsReadAsNanoseconds`). The model keeps the code's
  conversion. `StoreNodeData` adds time
  scaling and the prepend-then-drop of two sample rows.
- **Closure report** (`5satoshi/analyse-closure.py`, module `ClosureReport`).
  It maps channel records to closure records with 'unknown' defaults,
  collects the non-normal channels, sorts them latest first and takes a
  prefix.

Shared modules:

| module | what it models |
|---|---|
| `Snapshot` | The channel row, the BOLT #7 fee (section "The channel_update Message" of BOLT #7), the HTLC bounds test, and Python's `int()` truncation. |
| `Nx` | A networkx `MultiDiGraph` class, induced subgraphs, SCCs, walks, and shortest-path costs given as a specification. |
| `Reach` | Reachability closure, k-step neighbourhoods and SCCs over edge sets. |
| `Frames` | A pandas `DataFrame` class and the record/row conversions of `DataFrame(records)` and `to_dict('records')`. |
| `Ranking` | `rank(method='min', ascending=False)`. |
| `Arith` | Integer division lemmas. |
| `Seqs` | Distinct sequences. |
| `Wrappers` | `Option` and `Result`. |

In all of these:
- Python floats are exact rationals (`real`).
- Exceptions are `Failure` values, or an error string that stops a loop.
- RPC answers, warehouse reads and random draws are parameters.
- Library results that are not re-derived are parameters constrained by a
  specification. These are graph-tool's component labels, the betweenness
  scores and networkx's Dijkstra.

Where the documentation and the code differ, the model follows the code.
The HTLC bounds test is strict at both ends
(`htlc_min < amount_msat < htlc_max`). A description of an inclusive range
would admit an amount exactly at a bound; the code does not
(`Snapshot.HtlcBoundsAreExclusive`).

## Model

| member | source | states |
|---|---|---|
| Snapshot.Bolt7Fee | 5satoshi/betweenness_centrality.py:122 | The fee for an amount is never below the base fee, and is exactly the base fee when the amount or the rate is zero. |
| Snapshot.Bolt7FeeFloor | 5satoshi/centrality_measures.py:24-26 | Rounded down, the fee is `base + amount_sat * ppm / 1000` in integer division. No rational arithmetic is needed to compute the floor the scripts store. |
| Snapshot.HtlcBoundsAreExclusive | 5satoshi/betweenness_centrality.py:124 | An amount exactly at the HTLC minimum or maximum is refused: both comparisons are strict. |
| Snapshot.Trunc | 5satoshi/fee-updates.py:30 | `int()` truncates toward zero for both signs: within one below a non-negative value and within one above a negative one. |
| Snapshot.Active | 5satoshi/betweenness_centrality.py:90 | `channels[channels.active]` keeps exactly the active rows and adds none. |
| Snapshot.ActiveCounts | 5satoshi/betweenness_centrality.py:235 | The mask keeps each active row as often as the table holds it, and no inactive row. |
| Ranking.RankMinDescending | 5satoshi/betweenness_centrality.py:217 | Every row gets rank 1 + the number of strictly larger shares, so equal shares always share a rank. |
| Ranking.RankOrder | 5satoshi/betweenness_centrality.py:236 | One row ranks strictly better than another exactly when its share is strictly larger. |
| Ranking.RankBounds | 5satoshi/centrality_measures.py:47 | Every rank lies between 1 and the number of rows. |
| Ranking.RankOneIsMaximum | 5satoshi/centrality_measures.py:47 | A row has rank 1 exactly when no share exceeds its own. |
| Reach.Closure | 5satoshi/betweenness_centrality.py:167 | The set reached from a start set contains it and is closed under following an edge. |
| Reach.ClosureLeast | 5satoshi/betweenness_centrality.py:167 | It is the least such set: any set containing the start and closed under edges contains it. |
| Reach.WithinClosure | 5satoshi/betweenness_centrality.py:163-165 | Everything within k steps of the start is reachable from it. |
| Reach.SccPartition | 5satoshi/betweenness_centrality.py:68 | Every vertex lies in its own strongly connected component, and any two vertices of one component have the same component. |
| Frames.Lookup | 5satoshi/store-forwards.py:111 | A record lacking a key gives a missing value for that column, and the record's first binding of a key, wherever it stands, is the value read. |
| Frames.ColumnOrder | 5satoshi/store-forwards.py:111 | The columns of `DataFrame(records)` have no duplicate label. |
| Frames.ColumnOrderExact | 5satoshi/store-forwards.py:111 | A label is a column exactly when some record has it as a key. |
| Frames.ColumnOrderCovers | 5satoshi/store-forwards.py:111 | Every key of every record becomes a column. |
| Frames.Frame.constructor | 5satoshi/store-forwards.py:111 | The new frame's columns are the keys in first-appearance order; each row has the record's value per column, or a missing value. |
| Frames.Frame.AddColumn | 5satoshi/store-forwards.py:136-138 | `frame[col] = None` appends the column last and sets it missing in every row, leaving the other cells alone. |
| Frames.Frame.Select | 5satoshi/store-forwards.py:140 | `frame[cols]` leaves exactly those columns, in that order, with every row cut down to them. |
| Frames.Frame.Apply | 5satoshi/store-forwards.py:171 | `apply` on one column replaces each row's cell by its image and changes nothing else. |
| Frames.LookupObjectOf | 5satoshi/store-node-data.py:76 | A row written out by `to_dict('records')` gives back its own cell for each of its columns, and a missing value for any other key. |
| Frames.RowOfObjectOf | 5satoshi/store-node-data.py:78 | A row written out as a record and read back under more columns comes back padded with missing values. |
| Frames.RowsBehind | 5satoshi/store-node-data.py:76-78 | Rows written out behind k other records and read back into one frame come back at positions k + i, padded to the union of columns. |
| Checkpoint.FirstOffered | 5satoshi/store-forwards.py:79-87 | `.iloc[0]` among the 'offered' rows picks the first such row. There is one exactly when some status row is 'offered'. |
| Checkpoint.MaxIndex | 5satoshi/store-forwards.py:84 | `maxindex.max()` is the largest index present, skipping missing ones. It is missing exactly when every row's index is missing. |
| Checkpoint.ResumeIndex | 5satoshi/store-forwards.py:79-88 | With an 'offered' row, the start index is the first such row's smallest index. Otherwise it is one past every stored largest index and just past one of them, and it is missing when none is stored. |
| Checkpoint.ResumeIndexOfEmptyTable | 5satoshi/store-forwards.py:84 | An empty forwardings table leaves the start index undefined (NaN). |
| Checkpoint.Surviving | 5satoshi/store-forwards.py:91-95 | After `DELETE ... WHERE created_index >= start`, a row remains exactly when it was there and does not match; a NULL index never matches. |
| Checkpoint.Warehouse.DeleteFrom | 5satoshi/store-forwards.py:91-95 | The delete leaves the surviving forwardings and leaves the channels and nodes tables unchanged. |
| Checkpoint.Warehouse.AppendForwardings | 5satoshi/store-forwards.py:212-222 | `WRITE_APPEND` puts the new rows after the existing ones and touches no other table. |
| Checkpoint.Warehouse.ReplaceChannels | 5satoshi/store-node-data.py:19 | `if_exists='replace'` makes the channels table exactly the new rows and touches no other table. |
| Checkpoint.Warehouse.ReplaceNodes | 5satoshi/store-node-data.py:28 | `if_exists='replace'` makes the nodes table exactly the new rows and touches no other table. |
| StoreForwards.Micros | 5satoshi/store-forwards.py:167-173 | Nanoseconds become microseconds by floor division: the result times 1000 is within 1000 below the input. A float is read as nanoseconds, its fraction cut toward zero, then floor-divided the same way. A missing value stays NaT. |
| StoreForwards.SecondsReadAsNanoseconds | 5satoshi/store-forwards.py:110-171 | A time of x seconds is stored as floor(x·10^6 / 10^9) microseconds, not x·10^6: the seconds are read as nanoseconds. |
| StoreForwards.Cleaned | 5satoshi/store-forwards.py:128-140 | An uploaded record has exactly the fifteen table columns. |
| StoreForwards.Conform | 5satoshi/store-forwards.py:136-140 | The schema loop leaves the columns exactly `expected_columns`, in order, and each row is the old row padded with missing values and cut to them. |
| StoreForwards.Clean | 5satoshi/store-forwards.py:128-173 | The frame built from the fetched records ends with the table's columns, each record cleaned: its values, missing where absent, times in microseconds. |
| StoreForwards.CleanedFromFrame | 5satoshi/store-forwards.py:136-173 | Padding the frame row and converting both times gives the same row as cleaning the record directly. |
| StoreForwards.SyncForwards | 5satoshi/store-forwards.py:55-227 | One run's outcome and the forwardings table it leaves are those of the specification `Sync`; channels and nodes are untouched. |
| StoreForwards.DryRunChangesNothing | 5satoshi/store-forwards.py:90-98 | With `--test`, the forwardings table is left exactly as it was: no delete and no upload. |
| StoreForwards.OnlyOfferedDeletes | 5satoshi/store-forwards.py:83-85 | Without an 'offered' row nothing is deleted: the old table is a prefix of the new one. |
| StoreForwards.ResyncReplacesTail | 5satoshi/store-forwards.py:86-96 | With an 'offered' row and no dry run, every row below the start index is kept, in order, at the front of the table. Only rows at or past the start index go. |
| StoreForwards.EmptyFetchUploadsNothing | 5satoshi/store-forwards.py:114-116 | An empty fetch ends with "nothing new" and uploads nothing. The table is left as the delete (if any) made it. |
| StoreForwards.EmptyStatusFails | 5satoshi/store-forwards.py:108-120 | With an empty status table the start index is NaN, `int()` fails, and the run exits with status 1 leaving the table as it was. |
| StoreForwards.UploadedRows | 5satoshi/store-forwards.py:128-173 | Every uploaded row has every table column. Non-time columns carry the fetched value or a missing one; time columns carry the fetched value converted by `Micros`. |
| StoreNodeData.Repeat | 5satoshi/store-node-data.py:57 | Python's `s * n` on text has n times the length of s. |
| StoreNodeData.TimesMillionInverts | 5satoshi/store-node-data.py:57-58 | Scaling by 10^6 can be undone on numbers, gives whole multiples of 10^6 on integers, and keeps missing values missing (and only those). |
| StoreNodeData.Scaled | 5satoshi/store-node-data.py:57-58 | Scaling the two time columns adds and removes no column of any row. |
| StoreNodeData.StoreGossip | 5satoshi/store-node-data.py:14-28 | The channels and nodes tables are replaced by the fetched gossip, or the script stops with KeyError on a missing time column. |
| StoreNodeData.StoreForwardings | 5satoshi/store-node-data.py:34-79 | The forwardings table and outcome are those of `Forwards`. The delete happens whenever an 'offered' row exists, with no dry-run guard. |
| StoreNodeData.StoreNodeData | 5satoshi/store-node-data.py:14-79 | The whole script: gossip first, and if it fails nothing further happens; otherwise the forwardings part follows. |
| StoreNodeData.GossipReplaces | 5satoshi/store-node-data.py:19-28 | The channels and nodes tables afterwards do not depend on what they held before, and the forwardings table is untouched. |
| StoreNodeData.ForwardsAppend | 5satoshi/store-node-data.py:43-79 | Without an 'offered' row the forwardings table only grows at its end. |
| StoreNodeData.TwoSamplesUploadFetched | 5satoshi/store-node-data.py:71-79 | When the sample query returns exactly two rows, the upload is the fetched rows, in order, with times scaled, padded to the combined columns. |
| StoreNodeData.UploadCountNeedsTwoSamples | 5satoshi/store-node-data.py:76-79 | The upload has as many rows as were fetched exactly when the sample query returned two rows. |
| ClosureReport.ParseCloseInfo | 5satoshi/analyse-closure.py:8-21 | `None` exactly when `close_info` is missing or empty. The short channel id, closer and reason default to 'unknown'. The time text is 'unknown' exactly when `closed_at` is missing or 0, and is otherwise that instant. |
| ClosureReport.CollectedFromHas | 5satoshi/analyse-closure.py:28-32 | Every channel of a peer whose state is not CHANNELD_NORMAL, a missing state counting as '', contributes its parsed record. |
| ClosureReport.CollectedFromOrigin | 5satoshi/analyse-closure.py:28-32 | Every collected entry comes from a non-normal channel of that peer. |
| ClosureReport.CollectedHas | 5satoshi/analyse-closure.py:27-32 | What one peer contributes is in the list collected over all peers. |
| ClosureReport.CollectedOrigin | 5satoshi/analyse-closure.py:27-32 | Every collected entry comes from some peer's channels. |
| ClosureReport.Insert | 5satoshi/analyse-closure.py:35 | Inserting one record keeps all records and adds exactly that one. |
| ClosureReport.SortDesc | 5satoshi/analyse-closure.py:35 | The sort is a permutation of the closures. |
| ClosureReport.SortDescSorted | 5satoshi/analyse-closure.py:35 | The sort leaves the closures ordered by `closed_at`, latest first. |
| ClosureReport.Prefix | 5satoshi/analyse-closure.py:37 | `closures[:limit]` is a prefix of at most `limit` entries, and drops `-limit` from the end for a negative limit. |
| ClosureReport.CollectChannels | 5satoshi/analyse-closure.py:28-32 | The inner loop appends exactly the parsed records of the peer's non-normal channels. |
| ClosureReport.CollectClosures | 5satoshi/analyse-closure.py:27-32 | The nested loops build exactly the collected list, in peer and channel order. |
| ClosureReport.GetRecentClosures | 5satoshi/analyse-closure.py:23-37 | The method returns the report specified by `RecentClosures`, including its AttributeError and TypeError failures. |
| ClosureReport.ReportIsLatestFirst | 5satoshi/analyse-closure.py:35-37 | A report has at most `limit` entries and is ordered latest first. |
| ClosureReport.ReportKeepsTheLatest | 5satoshi/analyse-closure.py:35-37 | Every reported closure is at least as recent as every collected closure left out. |
| ClosureReport.PrefixIsTop | 5satoshi/analyse-closure.py:37 | A prefix of a latest-first list holds its latest entries. |
| ClosureReport.ReportedChannelsAreNotNormal | 5satoshi/analyse-closure.py:29-32 | Every reported closure is the parse of some peer's non-normal channel. |
| ClosureReport.MissingCloseInfoFails | 5satoshi/analyse-closure.py:31-35 | A non-normal channel without `close_info` makes the report fail with AttributeError: the sort reads a key of `None`. |
| ClosureReport.AttributeErrorNeedsMissingCloseInfo | 5satoshi/analyse-closure.py:31-35 | The report fails with AttributeError only when some non-normal channel lacks `close_info`. |
| BalanceFees.NewPpm | 5satoshi/fee-updates.py:22-25 | The new fee rate never exceeds 10000 ppm. |
| BalanceFees.NewPpmIsQuotientSquared | 5satoshi/fee-updates.py:22-25 | The rate is the square of `total / (to_us + 1)` in integer division, capped at 10000. |
| BalanceFees.NewPpmAntitone | 5satoshi/fee-updates.py:22-25 | More liquidity on our side never gives a higher rate. |
| BalanceFees.NewPpmZeroWhenFull | 5satoshi/fee-updates.py:22-23 | When `to_us + 1 > total` the rate is 0. |
| BalanceFees.NewHtlcMaxBounds | 5satoshi/fee-updates.py:30-32 | The new HTLC maximum lies between 0 and our balance. It is more than `to_us - total/10 - 1`. |
| BalanceFees.LeftAloneExactly | 5satoshi/fee-updates.py:34 | A channel gets no update exactly when none of the four conditions holds: no `update_all`, balance at most 1, `to_us - total/10` not above the old HTLC maximum, and the old maximum not above `to_us`. |
| BalanceFees.UpdateFees | 5satoshi/fee-updates.py:15-45 | The calls made, or in test mode the lines printed instead, are the planned updates in channel order. Test mode makes no call, and a ZeroDivisionError stops the loop. |
| BalanceFees.PlannedSound | 5satoshi/fee-updates.py:15-43 | Every update is for a CHANNELD_NORMAL channel that meets the trigger, with that channel's rate, base fee and HTLC maximum. |
| BalanceFees.PlannedComplete | 5satoshi/fee-updates.py:15-43 | When the loop runs to the end, every normal channel that meets the trigger gets its update. |
| BalanceFees.PlannedFails | 5satoshi/fee-updates.py:22 | The loop stops with ZeroDivisionError exactly when some normal channel has a total of 0. |
| BalanceFees.PlannedBounded | 5satoshi/fee-updates.py:23-32 | Every update sets base fee 0, a rate of at most 10000, and an HTLC maximum between 0 and that channel's balance. |
| PeerFees.NewFeeIsQuotient | fee-updates/fee-updates.py:21-23 | The rate is 256 times the square of `floor(20 (total + 1) / (19 to_us))`, minus 1; no rationals are needed. |
| PeerFees.NewFeeAtLeast255 | fee-updates/fee-updates.py:21-23 | For `0 < to_us <= total` the rate is at least 255 and one less than a multiple of 256. |
| PeerFees.NewFeeAntitone | fee-updates/fee-updates.py:21-23 | More liquidity on our side never gives a higher rate. |
| PeerFees.UpdatePeerFees | fee-updates/fee-updates.py:12-31 | The calls made are the planned ones in peer order; an IndexError or ZeroDivisionError stops the loop. |
| PeerFees.PlannedSound | fee-updates/fee-updates.py:29-30 | Every call sets base fee 0 and the new rate on some peer's first channel whose current rate differs from it. |
| PeerFees.PlannedComplete | fee-updates/fee-updates.py:12-31 | When the loop runs to the end, every peer's first channel whose rate differs gets its call. |
| PeerFees.PlannedFails | fee-updates/fee-updates.py:13-23 | The loop stops early exactly when some peer has no channel, or its first channel has nothing on our side. |
| CentralityMeasures.WeightEncodesFee | 5satoshi/centrality_measures.py:24-26 | Every weight is at least 1 and is 1 modulo 1000. `(weight - 1) / 1000` is the BOLT #7 fee rounded down. |
| CentralityMeasures.WeightMonotone | 5satoshi/centrality_measures.py:24-26 | A larger amount never gets a smaller weight on the same channel. |
| CentralityMeasures.ReweightOverwrites | 5satoshi/centrality_measures.py:19-26 | Rewriting the weights for a second size leaves no trace of the first. |
| CentralityMeasures.SetBucketWeights | 5satoshi/centrality_measures.py:23-26 | The in-place loop leaves the nodes, and every edge's row, as they were. Each `fee` attribute becomes the weight for this size. |
| CentralityMeasures.Sufficient | 5satoshi/centrality_measures.py:28-33 | An edge survives exactly when its HTLC bounds admit the amount. |
| CentralityMeasures.FilteredNodes | 5satoshi/centrality_measures.py:35 | A node is in the filtered graph exactly when some surviving edge touches it. Nodes left without a surviving edge disappear. |
| CentralityMeasures.ScoreRows | 5satoshi/centrality_measures.py:46-52 | The score table has one row per analysed node, in node order. |
| CentralityMeasures.ProcessBucket | 5satoshi/centrality_measures.py:23-47 | It reweights in place. It fails with ValueError exactly when no edge survives. Otherwise the scores are a maximum-size SCC's nodes with their shares and min ranks. |
| CentralityMeasures.BucketResult | 5satoshi/centrality_measures.py:35-47 | Any maximum-size SCC of the filtered graph, scored and min-ranked, is a valid result for the size. |
| CentralityMeasures.BucketResultAfterEarlierSize | 5satoshi/centrality_measures.py:19-26 | A size's result does not depend on weights left over from the previous size. |
| CentralityMeasures.RunCentrality | 5satoshi/centrality_measures.py:15-54 | Sizes are processed in the fixed order common, micro, macro. Each completed size has a valid result, and a ValueError stops the run at the first size with no surviving edge. |
| Nx.ActiveEdgesNodes | 5satoshi/centrality_measures.py:15 | The graph of the active channels has no node exactly when no channel is active. |
| Nx.EndpointOrder | 5satoshi/centrality_measures.py:15 | The graph's nodes are distinct and are exactly the endpoints of its edges. |
| Nx.Induced | 5satoshi/centrality_measures.py:36 | An induced subgraph keeps exactly the edges with both ends in the kept set. |
| Nx.KeepNodes | 5satoshi/centrality_measures.py:36 | An induced subgraph keeps exactly the kept nodes, still distinct. |
| Nx.MultiDiGraph.FromEdges | 5satoshi/centrality_measures.py:35 | A graph built from edges has those edges and their endpoints as nodes. |
| Nx.MultiDiGraph.Copy | fee-updates/compatative_route_finder.py:79 | `nx.MultiDiGraph(DG)` is a fresh graph with the same nodes and edges. |
| Nx.MultiDiGraph.Subgraph | fee-updates/compatative_route_finder.py:108 | `subgraph(nodes)` keeps the listed nodes and the edges between them. |
| Nx.MultiDiGraph.RemoveNode | fee-updates/compatative_route_finder.py:121 | `remove_node` drops the node and every edge touching it. |
| Nx.LargestScc | fee-updates/compatative_route_finder.py:59 | `max(strongly_connected_components, key=len)` is an SCC no other SCC outgrows. It fails exactly on an empty graph. |
| Nx.WalkReaches | fee-updates/compatative_route_finder.py:110 | A walk from s to t shows that t is reachable from s. |
| Nx.WalkStaysInScc | fee-updates/compatative_route_finder.py:104-110 | A walk between two nodes of one SCC never leaves it, so it is also a walk of the SCC's induced subgraph. |
| Nx.ReportedPathIsCheapest | fee-updates/compatative_route_finder.py:110 | Every path Dijkstra reports is followed by a walk that costs no more than any walk between the same two nodes. |
| Nx.ShortestCostMonotone | fee-updates/compatative_route_finder.py:120-128 | No walk in a subgraph costs less than the shortest cost in the whole graph. |
| RouteFinder.ZeroFromEffect | fee-updates/compatative_route_finder.py:64-67 | Zeroing sets base fee and ppm of every out-edge of the node to 0, keeps every other edge, and moves no endpoint. |
| RouteFinder.ZeroOutEdges | fee-updates/compatative_route_finder.py:81-83 | The in-place loop leaves the graph's nodes alone and its edges zeroed at the node. |
| RouteFinder.HomeChannels | fee-updates/compatative_route_finder.py:64-68 | `channels` has a key exactly for each successor of the home node. |
| RouteFinder.HomeChannelsLastWins | fee-updates/compatative_route_finder.py:68 | A successor's channel is the short channel id of the last parallel edge to it. |
| RouteFinder.ZeroHomeEdges | fee-updates/compatative_route_finder.py:64-68 | The loop zeroes the home node's out-edges in place and builds `channels` from them. |
| RouteFinder.TrialFeeIsBolt7 | fee-updates/fee-optimizer.py:113-115 | With ppm divided by 10^6 the fee is the BOLT #7 fee rounded down. In `fee-optimizer.py` the proportional part is 10^6 times too large. |
| RouteFinder.CapacityFilteredFacts | fee-updates/compatative_route_finder.py:88-99 | An edge is kept, priced, exactly when its capacity is at least 2.5 times the amount. No other edge remains. |
| RouteFinder.ApplyCapacityFilter | fee-updates/compatative_route_finder.py:88-99 | The pricing loop and the removal loop together leave exactly the filtered, priced edges. |
| RouteFinder.IndexOf | fee-updates/compatative_route_finder.py:114 | `path.index(x)` is the first position holding x. |
| RouteFinder.Routed | fee-updates/compatative_route_finder.py:111-116 | There are destinations exactly when some path passes through home to a destination other than home. Every recorded destination has such a path. |
| RouteFinder.RoutedExact | fee-updates/compatative_route_finder.py:111-116 | Every path through home to another destination is recorded with the node before home as peer and home's channel to the node after home. |
| RouteFinder.RoutedSound | fee-updates/compatative_route_finder.py:111-116 | Every recorded entry is the destination, peer and channel of some path through home to a destination other than home. |
| RouteFinder.PeerIsDestinationFromHome | fee-updates/compatative_route_finder.py:115 | When the origin is the home node, `path[-1]` makes every recorded peer the destination itself. |
| RouteFinder.CollectHops | fee-updates/compatative_route_finder.py:111-116 | The loop records exactly the routed destinations, in path order. |
| RouteFinder.RoutesAreKnown | fee-updates/compatative_route_finder.py:114 | `channels[path[i+1]]` never raises KeyError: the hop after home is always a successor of home in `DG`. |
| RouteFinder.ComparedRows | fee-updates/compatative_route_finder.py:124-128 | A destination gets a row exactly when its cost without home is truthy. The row's fee is cost without home minus cost with home. |
| RouteFinder.CompareRoutes | fee-updates/compatative_route_finder.py:124-128 | The loop builds exactly the compared rows. |
| RouteFinder.ShortestWithinSccNoDearer | fee-updates/compatative_route_finder.py:104-122 | Routing inside the origin's SCC is never dearer than routing in any subgraph of the trial graph. |
| RouteFinder.ReachedInScc | fee-updates/compatative_route_finder.py:104-110 | Everything Dijkstra reaches from the origin in its SCC belongs to that SCC. |
| RouteFinder.TrialKnowsHops | fee-updates/compatative_route_finder.py:111-116 | Every recorded destination has a known channel and a cost with home. |
| RouteFinder.TrialFacts | fee-updates/compatative_route_finder.py:101-137 | A trial fails exactly when the origin is home and some path goes through home. It records no destination exactly when no path does. Every differential is non-negative. Whether it writes depends on the variant. |
| RouteFinder.TrialRecordsHops | fee-updates/compatative_route_finder.py:110-116 | In a successful trial, each destination whose Dijkstra path in the origin's component runs through home (and is not home) is recorded with its peer and channel, and nothing else is recorded. |
| RouteFinder.DifferentialsNonNegative | fee-updates/compatative_route_finder.py:120-128 | Every reported differential is at least 0, in all three variants. |
| RouteFinder.TrialFeeOfZeroed | fee-updates/compatative_route_finder.py:94-96 | A zeroed channel is priced at 0 for any amount. |
| RouteFinder.OwnHopsAreFree | fee-updates/compatative_route_finder.py:79-96 | In the trial graph, every out-edge of the origin, and of any node already zeroed, costs 0. |
| RouteFinder.RouteNodesInScc | fee-updates/compatative_route_finder.py:104-110 | Every node on a path Dijkstra reports (a cheapest one) lies in the origin's SCC. |
| RouteFinder.TrialGraph | fee-updates/fee-optimizer.py:98-118 | The trial graph is a fresh copy, zeroed at the origin and filtered. The shared graph is unchanged for the two newer scripts, and zeroed at the origin for `fee-optimizer.py`. |
| RouteFinder.ComponentRoutes | fee-updates/compatative_route_finder.py:104-116 | The subgraph is the origin's SCC, Dijkstra runs on it, and the recorded destinations are the routed ones. |
| RouteFinder.HomeFreeGraph | fee-updates/fee-optimizer.py:139-141 | The comparison graph is the SCC minus home, or for `fee-optimizer.py` the whole trial graph minus home. |
| RouteFinder.CompareWithoutHome | fee-updates/compatative_route_finder.py:119-137 | The comparison step yields the trial's specified outcome. |
| RouteFinder.TrialFromHome | fee-updates/compatative_route_finder.py:112-122 | When the origin is home and some path passes through it, the trial fails with NodeNotFound. |
| RouteFinder.TrialCompared | fee-updates/compatative_route_finder.py:119-137 | For an origin other than home, the outcome holds the routed destinations and their compared rows. `compatative_route_finder.py` writes only non-empty results. |
| RouteFinder.RunTrial | fee-updates/compatative_route_finder.py:75-137 | One trial's result is the specified trial. The shared graph is unchanged, or zeroed at the origin for `fee-optimizer.py`. |
| RouteFinder.DgBefore | fee-updates/fee-optimizer.py:98-100 | For the two newer scripts the shared graph is the same before every trial. |
| RouteFinder.ZeroingKept | fee-updates/fee-optimizer.py:98-100 | A node whose out-edges are zero stays zero through any number of trials. |
| RouteFinder.ZeroingAccumulates | fee-updates/fee-optimizer.py:98-100 | In `fee-optimizer.py`, every origin drawn so far has zero fees on the shared graph afterwards. |
| RouteFinder.BuildSharedGraph | fee-updates/compatative_route_finder.py:49-68 | The active-edge graph's largest SCC, with home zeroed, and `channels`. It is built exactly when some channel is active. |
| RouteFinder.Run | fee-updates/compatative_route_finder.py:73 | The run holds at most one outcome per draw, and all of them exactly when no trial failed. |
| RouteFinder.RunOutcomes | fee-updates/compatative_route_finder.py:73-137 | Trial k's outcome, or the run's error, is the specified trial on the shared graph as the earlier trials left it. |
| RouteFinder.RunTrials | fee-updates/compatative_route_finder.py:73-137 | The trial loop produces exactly the run. |
| RouteFinder.RunRouteFinding | fee-updates/compatative_route_finder.py:49-137 | There is a shared graph exactly when some channel is active, else the SCC `max` raises ValueError. The trials are the run over it. |
| BetweennessCentrality.NodeMap | 5satoshi/betweenness_centrality.py:84 | Every node id gets one vertex; a repeated id keeps its last row's vertex. |
| BetweennessCentrality.VertexToId | 5satoshi/betweenness_centrality.py:85 | `vertex_to_id` is exactly the inverse of `node_map`. |
| BetweennessCentrality.LookupCoversRows | 5satoshi/betweenness_centrality.py:90-98 | Every active row's (source, destination) has an `edge_lookup` entry. |
| BetweennessCentrality.LookupLastRowWins | 5satoshi/betweenness_centrality.py:93-98 | Parallel rows share one entry, holding the last such row's terms. |
| BetweennessCentrality.EdgesFor | 5satoshi/betweenness_centrality.py:99 | One edge per row, in row order, between the rows' vertices. |
| BetweennessCentrality.BuildGraph | 5satoshi/betweenness_centrality.py:81-104 | The graph is built exactly when every active row's endpoints are node ids; otherwise the KeyError names an id not in the nodes. |
| BetweennessCentrality.EdgesRecoverActiveRows | 5satoshi/betweenness_centrality.py:90-99 | One vertex per node row and one edge per active row. Edge k's endpoints map back to active row k's source and destination. |
| BetweennessCentrality.BuiltGraphIsConsistent | 5satoshi/betweenness_centrality.py:90-99 | Every edge's endpoint ids have an `edge_lookup` entry, so line 118 never raises. |
| BetweennessCentrality.StoredTermsAgreeWithRow | 5satoshi/betweenness_centrality.py:118-124 | The stored terms give the row's BOLT #7 fee plus the offset, between the fee and the fee + 1. The stored bounds admit an amount exactly when the row's do. |
| BetweennessCentrality.FilteredView | 5satoshi/betweenness_centrality.py:129 | The GraphView keeps the graph and its vertices. |
| BetweennessCentrality.UpdateFeesAndFilter | 5satoshi/betweenness_centrality.py:113-129 | Each edge's `fee` becomes its lookup terms' fee plus its offset, and the view hides exactly the edges the bounds refuse. |
| BetweennessCentrality.ParallelEdgesTakeLastRow | 5satoshi/betweenness_centrality.py:116-118 | Every parallel edge is priced with the last parallel row's terms. |
| BetweennessCentrality.FilterHidesNoVertex | 5satoshi/betweenness_centrality.py:129 | The HTLC filter hides edges but no vertex. |
| BetweennessCentrality.FilterShowsAdmittedEdges | 5satoshi/betweenness_centrality.py:124 | An edge is shown exactly when the last parallel row's bounds admit the amount. |
| BetweennessCentrality.Histogram | 5satoshi/betweenness_centrality.py:68 | The loop computes the label histogram of the visible vertices. |
| BetweennessCentrality.ArgMax | 5satoshi/betweenness_centrality.py:69 | `hist.argmax()` is the first index of a maximal count. |
| BetweennessCentrality.FirstArgMaxUnique | 5satoshi/betweenness_centrality.py:69 | That index is unique. |
| BetweennessCentrality.LargestSccSubgraph | 5satoshi/betweenness_centrality.py:67-75 | It fails exactly on a view with no vertex. Otherwise (`IsLargestSccView`) a vertex is kept exactly when it was visible and has the argmax label, at least one is kept, and edges are untouched. |
| BetweennessCentrality.LargestSccViewIsLargestScc | 5satoshi/betweenness_centrality.py:67-75 | With SCC labels, the returned view shows one SCC of the input view that no other SCC outgrows. |
| BetweennessCentrality.LargestSccIsMaximal | 5satoshi/betweenness_centrality.py:68-70 | With SCC labels, the kept vertices form one non-empty SCC at least as large as every other. |
| BetweennessCentrality.SccClassIsLabelClass | 5satoshi/betweenness_centrality.py:68 | With SCC labels, a vertex's label class is its SCC. |
| BetweennessCentrality.FirstVisible | 5satoshi/betweenness_centrality.py:149-150 | The default start is the lowest visible vertex. |
| BetweennessCentrality.BfsSearch | 5satoshi/betweenness_centrality.py:152-167 | Distances are recorded for exactly the vertices reachable from the start. The start is at distance 0, each distance is the length of a real path, and `visited` holds exactly those within `k_hops`. |
| BetweennessCentrality.BfsFinished | 5satoshi/betweenness_centrality.py:167 | When every discovered vertex has been explored, the discovered set is the reachable set. |
| BetweennessCentrality.TreeEdges | 5satoshi/betweenness_centrality.py:159-165 | Exploring one vertex discovers each undiscovered target at one more hop. It adds it to `visited` within `k_hops` and queues it. |
| BetweennessCentrality.TreeDepth | 5satoshi/betweenness_centrality.py:163 | Every discovered vertex is within its recorded distance of the start. |
| BetweennessCentrality.BfsVisitedWithinHops | 5satoshi/betweenness_centrality.py:163-165 | Every visited vertex is within `k_hops` of the start. |
| BetweennessCentrality.TakeAtMost | 5satoshi/betweenness_centrality.py:169-173 | The selection is a subset of `visited`, of size `min(|visited|, max_vertices)`, or all of it when there is no limit. |
| BetweennessCentrality.TruncationMayDropStart | 5satoshi/betweenness_centrality.py:169-171 | When more vertices are visited than allowed, some allowed selection leaves out the start vertex. |
| BetweennessCentrality.GetNeighborsBfs | 5satoshi/betweenness_centrality.py:135-173 | It fails only when there is no start and no vertex. The result lies within `k_hops` of the start and has at most `max_vertices` elements. It contains the start when there is no limit. |
| BetweennessCentrality.GetTestSubgraph | 5satoshi/betweenness_centrality.py:175-188 | It fails exactly on a view with no vertex. Otherwise (`IsTestCut`) it keeps only vertices within `k_hops` of the first vertex, at most `max_vertices` of them, with edges untouched. |
| BetweennessCentrality.VisibleOrder | 5satoshi/betweenness_centrality.py:214 | `g_sub.vertices()` lists exactly the visible vertices, in increasing order. |
| BetweennessCentrality.ShownOrder | 5satoshi/betweenness_centrality.py:233 | `g_sub.edges()` lists exactly the shown edges, in insertion order. |
| BetweennessCentrality.ProcessNodeBetweenness | 5satoshi/betweenness_centrality.py:210-225 | The frame is `NodeScoresOf`: one row per visible vertex, in vertex order, with its id, share and min rank among the visible shares. An unknown vertex gives the empty frame. |
| BetweennessCentrality.NodeScoresRanked | 5satoshi/betweenness_centrality.py:217 | A node row is ranked ahead of another exactly when its share is larger, and every rank lies between 1 and the number of rows. |
| BetweennessCentrality.LeftMergeRowsMatch | 5satoshi/betweenness_centrality.py:235 | Every merged row is an edge row paired with an active channel row on the same endpoints, or left unpaired exactly because no such row exists. |
| BetweennessCentrality.LeftMergeKeepsRows | 5satoshi/betweenness_centrality.py:235 | Every edge row appears paired with each active channel row on its endpoints, or once unpaired when there is none. |
| BetweennessCentrality.LeftMergeSize | 5satoshi/betweenness_centrality.py:235 | The merge never loses a row. It adds rows exactly when some edge row has two or more channel rows on its endpoints. |
| BetweennessCentrality.MergedRanks | 5satoshi/betweenness_centrality.py:236 | The ranks are taken over the merged rows: a row is ahead of another exactly when its share is larger, and every rank lies between 1 and the number of merged rows. |
| BetweennessCentrality.ParallelChannelsMultiplyRows | 5satoshi/betweenness_centrality.py:233-236 | Two edges over two parallel channels with share 0.5 and one other edge with share 0.3 give five rows, ranked 1, 1, 1, 1 and 5. |
| BetweennessCentrality.BuiltEdgesAlwaysMatch | 5satoshi/betweenness_centrality.py:90-99 | On a built graph every endpoint has an id, and every merged row carries a channel row. |
| BetweennessCentrality.ShownEdgeShares | 5satoshi/betweenness_centrality.py:233 | The list comprehension fails (KeyError) exactly when a shown edge's endpoint has no id. Otherwise it gives the shown edges' id pairs and shares, in edge order. |
| BetweennessCentrality.ProcessEdgeBetweenness | 5satoshi/betweenness_centrality.py:230-243 | The frame is `EdgeScoresOf`: the shown edges' rows, left-merged with the active channel rows, then ranked over the merged rows. An unknown endpoint gives the empty frame. |
| BetweennessCentrality.ProcessBucket | 5satoshi/betweenness_centrality.py:263-295 | The bucket reprices every edge. It is skipped exactly when the graph has no vertex. Otherwise (`IsBucketResult`) both frames score one view: the largest-SCC view of the filtered graph, or in test mode a test cut of it. A table is written exactly when it is non-empty and test mode is off. |
| BetweennessCentrality.BucketResultFacts | 5satoshi/betweenness_centrality.py:263-295 | A bucket result is skipped exactly when the graph has no vertex, and in test mode it writes nothing. |
| BetweennessCentrality.ScoredBucketRanksLargestScc | 5satoshi/betweenness_centrality.py:263-276 | Outside test mode, with SCC labels, a scored bucket's frames score one SCC of the filtered view that no other SCC outgrows. |
| BetweennessCentrality.ProcessBuckets | 5satoshi/betweenness_centrality.py:260-295 | One outcome per transaction size, in order. Each is `IsBucketResult` for that size, all on the same graph. |
| BetweennessCentrality.RunPipeline | 5satoshi/betweenness_centrality.py:248-297 | The run fails exactly when an active row names an unknown node. Otherwise there is one outcome per size, in order, and each is `IsBucketResult` for the built graph and that size. Each is skipped exactly when there are no nodes, and test mode writes nothing. |

## Left out

- Loading and writing data is not modelled: the BigQuery queries, `to_gbq`, `insert_rows_json`, MySQL, `listchannels`/`listforwards`/`listpeers`/`setchannel`, pickles and `read_config`. RPC and warehouse answers are parameters; writes are emitted values or `Warehouse` updates.
- The betweenness computations themselves (`graph_tool.betweenness`, `nx.betweenness_centrality`) are library calls. Their scores are inputs, constrained only in length.
- graph-tool's `label_components` is an input labelling. The maximality lemma assumes the labels are exactly the SCCs (`SccLabelling`).
- networkx's Dijkstra is a function parameter. It is required to return the true shortest cost and a node path for every reachable destination, and that path, taken along suitable parallel edges, costs the shortest cost (`SsspOk`).
- BetweennessCentrality.BfsSearch: distances are proved to be lengths of real paths from the start, not shortest lengths. So `visited` is proved to lie within `k_hops`, but not to hold every vertex within `k_hops`.
- BetweennessCentrality.TakeAtMost: `list(visited)[:max_vertices]` depends on Python's set iteration order. The model picks an arbitrary subset of the right size.
- Iteration order of graph-tool and networkx is not modelled beyond insertion order. Which of several equally large SCCs `max` picks is not modelled: any maximum-size SCC is accepted.
- `random.uniform`, `random.random` and `random.randint` are parameters constrained to their ranges.
- RouteFinder.RunRouteFinding: requires each drawn amount to lie in 1..10^6, the range `randint(1, 1000000)` gives.
- Floating point is exact rational arithmetic. Rounding at floor boundaries (ppm/10^6, 0.95, 0.1, 2.5) is not modelled.
- The `fee` attribute set to 0 at graph build and overwritten before use is not modelled.
- In `fee-updates/compatative_route_finder.py`, `import helper.py`, the undefined `read_config` and the undefined `storage` would stop the script. The model runs the route comparison and leaves out the storage dispatch.
- Logging, `print`, the `log_time` decorator and `time.sleep` are not modelled. The OpenMP thread setting is not modelled either.
- The peers table update of `5satoshi/fee-updates.py` (lines 52-74) and the second node's run are not modelled. They are plumbing around `update_fees`, which is modelled once.
- pandas dtype casts (`astype("Int64")`, `float64`, `string`) in `5satoshi/store-forwards.py` are not modelled. Cell values keep their fetched form.
- `pd.to_datetime(..., errors="coerce")` is not modelled as text parsing. A number is read as nanoseconds; a text value becomes NaT.
- The conversion of `last_update` and `last_timestamp` to datetimes is not modelled beyond the KeyError when the column is missing.
- In `5satoshi/store-node-data.py` the DELETE job is started but not awaited. The model orders it before the append.
- Which exception a NaN start index raises first is not modelled: every such run ends as one failure.
- The alias join and the timestamp and type columns of the score frames are not modelled. The edge frame keeps the merged channel row as one value rather than as its columns.
- The `strftime` text of `closed_at` is modelled by the instant it formats.
- A dict key present with value `None` is treated as absent.
- The closure sort's stability is not proved: equal closing times may appear in any order.
- Main functions that print the report or call the entry points are not modelled.
