# A verified model of the memory-consolidation prototype

The repository is a Streamlit prototype of an assistant with long-term memory. After a chat,
the "Update Assistant's Knowledge" page runs a three-step pipeline:

1. **Generation.** A reasoning model is asked which memories the conversation holds. Instead of
   answering it may call the calendar tool, at most three times (`MaxRecursiveCalls + 1`);
   after the third answered request the loop gives up without memories.
2. **Decision.** For each new memory, similar memories are looked up:
   - its embedding is searched in the vector store (Milvus): hits over a threshold, padded
     from the best ten;
   - their records are read from the record store (Postgres);
   - their ids are renumbered 0..n-1 for the model (`normalize_memories`);
   - the model decides to insert, merge, resolve a temporal conflict, add to existing
     memories or ignore;
   - the ids in that decision are translated back through the renumbering's dictionary.
3. **Execution.** Each decision is carried out on the three stores, in this order:
   - the record table;
   - the vector collection;
   - the adjacency document of the graph store (MongoDB), which holds an undirected graph
     of related memories.

The model covers this pipeline together with the stores' own operations and constraints. It
also covers the helpers the pipeline and the pages rely on:
- the `<think>`/fenced-JSON reply parser;
- prompt post-processing;
- the CSV month calendar the model can call, over a proleptic Gregorian calendar;
- the date-time validator;
- the settings lookups, validators and connection URIs;
- the two provider factories;
- the label wrapping, palette lookup and graph assembly of the memory-graph page.

Layout, one module per file:
- `wrappers.dfy`: `Option`, `Result` and the Python exceptions.
- `text.dfy`: `strip`, `lower`, `find`, `str(n)` and `join`, with Python's meaning.
- `seqs.dfy`: small sequence facts.
- `models.dfy`: ids, `Memory`, and `validate_datetime`/`clean_datetime` over a grammar of
  strptime's pattern.
- `normalize_uuid.dfy`.
- `decisions.dfy`: step 2's filters.
- `vector_store.dfy`, `graph_store.dfy`, `record_store.dfy`: the three stores. Each is a class
  whose methods change its fields as the database calls change the stored data.
- `consolidation.dfy`: steps 2 and 3 as specification functions over the joint store state,
  and the methods that execute them on the three store objects.
- `consolidation_facts.dfy`: what step 3 guarantees.
- `generation.dfy`: step 1's bounded loop.
- `chat_utils.dfy`, `prompt.dfy`, `calendar.dfy` and `gregorian.dfy`, `config.dfy`,
  `llm_factory.dfy`, `embeddings_factory.dfy`, `memory_graph.dfy`: the helpers.

Where the pipeline depends on something outside the program, that input is a parameter:
- the language models' replies and the pydantic validators;
- the embedder and the similarity ranking;
- the uuid generator and the clock.

Where the code has an evident bug, the model reproduces it as written, selected by
`Variant.AsWritten`. It also proves the repair, `Variant.Corrected`. The findings below list
both halves.

## Model

| member | source | states |
|---|---|---|
| NormalizeUuid.NormalizeMemories | utils/normalize_uuid.py:34-40 | afterwards the memory at position i has id `Int(i)` and keeps its content and creation time; the returned dictionary is the one built by entering each original id with its position, later entries overwriting earlier ones |
| NormalizeUuid.Ids | utils/normalize_uuid.py:35-36 | the ids in list order, one per memory |
| NormalizeUuid.MappingKeys | utils/normalize_uuid.py:36-37 | the dictionary's keys are exactly the original ids |
| NormalizeUuid.MappingLastPosition | utils/normalize_uuid.py:37 | an id is sent to the last position where it occurs, so a repeated id keeps its later position |
| NormalizeUuid.MappingValues | utils/normalize_uuid.py:36-37 | every value is an integer position of the list, and the original id at that position is the key |
| NormalizeUuid.DistinctMapping | utils/normalize_uuid.py:34-37 | with distinct original ids the dictionary has n keys, its values are exactly 0..n-1, and no two keys share a value |
| NormalizeUuid.EmptyMapping | utils/normalize_uuid.py:34-40 | an empty list gives an empty dictionary |
| NormalizeUuid.MappingMissesNewIds | utils/normalize_uuid.py:37 | when the original ids are strings, no renumbered integer id is a key of the dictionary |
| NormalizeUuid.IndexToId | utils/normalize_uuid.py:34-37 | the corrected counterpart of the dictionary built there, position to id instead of id to position: its keys are exactly `Int(0)`..`Int(n-1)` and `Int(i)` is sent to the id at position i |
| NormalizeUuid.IndexToIdInverts | utils/normalize_uuid.py:34-38 | the inverse undoes the renumbering: it sends each mapped position back to its id, and with distinct ids the mapping sends each id back to its position |
| Decisions.HandleDecision | chat/memories_extraction.py:173-203 | Insert and Ignore come back unchanged; an unknown tag is the ValueError "Unknown action type: …"; for the three payloads naming existing memories, the surviving ids are exactly the denormalised ids, in order |
| Decisions.Denormalize | chat/memories_extraction.py:189-192 | keeps the known ids, translated, in order, and never grows the list; membership in both directions is proved by `Decisions.DenormalizeMembers`, entry-by-entry translation by `Decisions.DenormalizeAllKnown` |
| Decisions.FilterConflicts | chat/memories_extraction.py:182-187 | keeps the conflicts whose id is known, with translated ids, and never grows the list; `Decisions.ConflictIdsFiltered` proves its ids are exactly the known ids translated, in order |
| Decisions.FilterUpdates | chat/memories_extraction.py:194-199 | keeps the updates whose id is known, with translated id and unchanged content, and never grows the list; `Decisions.FilterUpdatesContent` proves this entry by entry |
| Decisions.Known | chat/memories_extraction.py:194-199 | an update is known exactly when it is one of the updates and the dictionary has its id |
| Decisions.ConflictIds | chat/memories_extraction.py:184 | the ids of the conflicting memories, one per entry, in order |
| Decisions.UpdateIds | chat/memories_extraction.py:196 | the ids of the updated memories, one per entry, in order |
| Decisions.DenormalizeAppend | chat/memories_extraction.py:189-192 | the comprehension works entry by entry: it distributes over concatenation |
| Decisions.DenormalizeMembers | chat/memories_extraction.py:189-192 | an id is in the result exactly when some entry whose id the dictionary knows is translated to it (both directions) |
| Decisions.DenormalizeAllKnown | chat/memories_extraction.py:189-192 | when every id is a key, nothing is dropped and entry i becomes the translation of id i |
| Decisions.DenormalizeNoneKnown | chat/memories_extraction.py:189-192 | when no id is a key, the result is empty |
| Decisions.ConflictIdsFiltered | chat/memories_extraction.py:182-187 | filter-then-rewrite of conflicting memories keeps exactly the known ids, translated, in order |
| Decisions.ConflictIdsAppend | chat/memories_extraction.py:184 | reading the ids distributes over concatenation |
| Decisions.UpdateIdsFiltered | chat/memories_extraction.py:194-199 | filter-then-rewrite of updated memories keeps exactly the known ids, translated, in order |
| Decisions.UpdateIdsAppend | chat/memories_extraction.py:196 | reading the ids distributes over concatenation |
| Decisions.FilterUpdatesContent | chat/memories_extraction.py:194-199 | for every dictionary, the kept updates are the known updates in their order, each with its id translated and its content unchanged |
| Decisions.KnownAll | chat/memories_extraction.py:194-199 | when the dictionary has every id, all updates are known, so nothing is dropped |
| Decisions.AsWrittenDropsEveryId | chat/memories_extraction.py:182-199 | with the dictionary as the normaliser builds it, every integer id the model answers with is dropped |
| Decisions.CorrectedRestoresIds | chat/memories_extraction.py:182-199 | with the inverse dictionary, the positions the model names come back as the ids of the memories at those positions, in the model's order |
| Decisions.AsWrittenUpdatesHaveIntIds | chat/memories_extraction.py:194-199 | with the dictionary as the normaliser builds it, every update that survives the filter carries an integer position as its id |
| Consolidation.SearchHits | utils/milvus/utils.py:45-57 | the search fails with IndexError exactly when the embedding batch is empty, since `results[0]` has no per-query list; otherwise it gives the ranked hits cut to the bound and threshold |
| Consolidation.HitIds | chat/memories_extraction.py:144 | the matched ids, in the order the search entered them |
| Consolidation.Collect | chat/memories_extraction.py:143-146 | a list comprehension that completes yields one result per input |
| Consolidation.CollectMeaning | chat/memories_extraction.py:143-146 | the comprehension completes exactly when no call raises (both directions), yields each call's result in order, and otherwise raises the error of the first call that raises |
| Consolidation.CollectPrefixError | chat/memories_extraction.py:143-146 | once an earlier call raised, the later calls do not change the outcome |
| Consolidation.RunSteps | chat/memories_extraction.py:243-424 | the loop over the decisions handles at most the remaining decisions, and completes exactly when it handled all of them |
| Consolidation.FetchMemories | chat/memories_extraction.py:143-146 | fetching the matched ids one by one gives the comprehension over `get_memory_details`, with its first exception |
| Consolidation.Renumbered | chat/memories_extraction.py:149 | the list the model is shown: the same memories, in order, with ids 0..n-1 |
| Consolidation.ShowMemories | chat/memories_extraction.py:149 | normalising a fresh list gives the renumbered memories and the dictionary built from their original ids |
| Consolidation.RelatedSpec | chat/memories_extraction.py:253-307 | the batch kept for the stores is the embedding of the memory's own text |
| Consolidation.RelatedMemories | chat/memories_extraction.py:253-307 | the search (at least five hits, threshold 0.75), the fetch, the renumbering, the model's reply and the translation back, which happens only when some neighbour was found |
| Consolidation.Decide | chat/memories_extraction.py:121-203 | one `handle_decision`: search with min_top_k 10, fetch, renumber, the decision model's reply, and the step-2 filter through the normaliser's dictionary |
| Consolidation.DecideAll | chat/memories_extraction.py:212-220 | the decisions for all generated memories, in order, or the first exception |
| Consolidation.InsertPairs | chat/memories_extraction.py:318-319 | the edges of an insertion: each related id paired with the new id, in order |
| Consolidation.AdditionPairs | chat/memories_extraction.py:411-412 | the edges of an addition: the updated id paired with each related id, in order |
| Consolidation.LinkAll | chat/memories_extraction.py:318-319 | the `make_edge` loop leaves the documents given by the pairwise edge insertion, which never fails, and keeps the graph invariant |
| Consolidation.GrowsTransitive | chat/memories_extraction.py:318-319 | keeping every edge composes |
| Consolidation.AddEdgeGrows | utils/mongodb/utils.py:29-36 | one edge insertion, a self-loop included, removes no edge |
| Consolidation.LinkPairsEffect | chat/memories_extraction.py:318-319 | the edge loop removes no edge and touches no other document; afterwards each pair's first end is listed under the second's text and, when the texts differ, the second under the first's |
| Consolidation.LinkPairsKeeps | chat/memories_extraction.py:318-319 | the edge loop removes no edge and leaves every other document as it was |
| Consolidation.LinkPairsLinks | chat/memories_extraction.py:318-319 | after the edge loop each pair is listed as `make_edge` lists it: both ways, or as a self-loop of the first end when the texts are equal |
| Consolidation.AdditionPayload | chat/memories_extraction.py:406 | as written, the whole batch is sent and Milvus rejects it; corrected, it is the batch's first vector, and an empty batch raises IndexError as `insert_node` does |
| Consolidation.Step | chat/memories_extraction.py:247-422 | merge conflicts, temporal conflicts, ignored memories and unknown actions leave every store as it was and are only reported; an insertion is one insertion step; an addition is its update steps in order |
| Consolidation.ExecuteInsert | chat/memories_extraction.py:247-322 | the three stores and the outcome afterwards are those of one insertion step on the old stores; tags are untouched and the record table keeps its constraints |
| Consolidation.ApplyInsert | chat/memories_extraction.py:309-319 | insert the record, store its vector under the same id, then add the edges; the stores afterwards are those the stores' part of an insertion gives |
| Consolidation.ExecuteUpdate | chat/memories_extraction.py:342-415 | the stores and outcome afterwards are those of one update step on the old stores |
| Consolidation.ApplyUpdate | chat/memories_extraction.py:401-412 | update the record, upsert its vector, then add the edges, which cannot fail (a self-relation gives a self-loop); the stores afterwards are those the stores' part of an update gives |
| Consolidation.ExecuteAddition | chat/memories_extraction.py:338-415 | each updated memory in order, stopping at the first exception, as the update steps specify |
| Consolidation.ExecuteDecision | chat/memories_extraction.py:247-422 | the stores and note afterwards are those `Step` gives on the old stores |
| Consolidation.ExecuteDecisions | chat/memories_extraction.py:241-424 | step 3 over every decision, numbered from 1: the stores, the notes and the exception are those of the loop specification |
| ConsolidationFacts.FetchedRecords | chat/memories_extraction.py:143-146 | fetching succeeds exactly when every id is a stored string id, and then yields each record with the id it was fetched by and its text, in order |
| ConsolidationFacts.FetchedIdsAreStrings | chat/memories_extraction.py:143-146 | every fetched memory carries a record-store string id |
| ConsolidationFacts.RelatedSpecParts | chat/memories_extraction.py:303-307 | the related ids are obtained exactly when the search and the reply succeed, and are translated back only when some neighbour was found |
| ConsolidationFacts.AsWrittenRelatesNothing | chat/memories_extraction.py:303-307 | as written, with neighbours found and the model answering with integer ids, no related id survives |
| ConsolidationFacts.CorrectedRelatesNeighbours | chat/memories_extraction.py:303-307 | corrected, every related id is the id of a neighbour and names a stored record |
| ConsolidationFacts.TranslatedFrom | chat/memories_extraction.py:305-306 | an id translated back through the inverse dictionary is the id of the memory at some position |
| ConsolidationFacts.KeepsTransitive | chat/memories_extraction.py:241-424 | "removes nothing" composes |
| ConsolidationFacts.LinkKeeps | chat/memories_extraction.py:318-319 | the edge loop removes nothing |
| ConsolidationFacts.AppendKeepsIds | utils/milvus/utils.py:91-96 | appending rows keeps every id that had a vector |
| ConsolidationFacts.InsertStepKeeps | chat/memories_extraction.py:247-322 | an insertion removes no record, vector id or edge, whatever happens |
| ConsolidationFacts.InsertRowKeeps | utils/postgres/utils.py:75-88 | adding the record of a new memory keeps every record there was |
| ConsolidationFacts.InsertStepEffect | chat/memories_extraction.py:309-319 | a completed insertion adds exactly one record under the fresh uuid with the memory's text, appends one vector row holding the first vector of the batch, and links the new id both ways with every related id |
| ConsolidationFacts.EmptyBatchChangesNothing | utils/milvus/utils.py:45-57 | a memory with an empty embedding batch fails with IndexError in the search, so its insertion and any update to it leave every store as it was |
| ConsolidationFacts.InsertStepOutcome | chat/memories_extraction.py:253-319 | an insertion completes exactly when the related memories are found, the record is inserted and the batch is non-empty; the edges never make it fail |
| ConsolidationFacts.UpsertKeepsIds | utils/milvus/utils.py:116-123 | an upsert gives the id a vector and keeps every other id's vector |
| ConsolidationFacts.UpdateStepKeeps | chat/memories_extraction.py:342-415 | one updated memory removes nothing, whatever happens |
| ConsolidationFacts.UpdateStepEffect | chat/memories_extraction.py:401-412 | a completed update rewrites only the record's text, keeps every other record, gives the id the first vector of the new text's batch, keeps every other id's vector and links the id both ways with every related id |
| ConsolidationFacts.UpdateWithEffect | chat/memories_extraction.py:401-412 | the same for the stores' part, in terms of the batch and the related ids |
| ConsolidationFacts.UpdateStepOutcome | chat/memories_extraction.py:401-412 | one update completes exactly when the related memories are found, the record update succeeds and a vector can be upserted; the edges never make it fail |
| ConsolidationFacts.SelfRelatedUpdateLoops | chat/memories_extraction.py:410-412 | an update related to its own id completes under the same conditions as any other and leaves the id in its own list |
| ConsolidationFacts.AsWrittenUpdateFails | chat/memories_extraction.py:401-407 | no update step completes when the whole batch is sent; the clause where the record update succeeds needs a string id, which as written only an inverted dictionary yields, and then the record holds the new text while the vector and the edges stay as they were |
| ConsolidationFacts.AsWrittenAdditionStopsAtRecord | chat/memories_extraction.py:397-402 | as written, an addition whose first update survives the filter changes no store and fails; once the search succeeds, the failure is the ProgrammingError of `update_memory` on an integer id |
| ConsolidationFacts.UpdateStepsKeep | chat/memories_extraction.py:342-415 | an addition removes nothing |
| ConsolidationFacts.KeepsItself | chat/memories_extraction.py:324-336 | a step that writes nothing keeps everything |
| ConsolidationFacts.StepKeeps | chat/memories_extraction.py:247-422 | one decision removes nothing, whatever its action |
| ConsolidationFacts.StepsKeep | chat/memories_extraction.py:241-424 | step 3 removes no record, changes no record's id or creation time, drops no vector id or edge, and keeps the table's constraints |
| ConsolidationFacts.AsWrittenStopsAtAddition | chat/memories_extraction.py:338-407 | as written, the loop ends with an exception at the first addition that names some memory, and later decisions are not carried out |
| ConsolidationFacts.StepsPassOver | chat/memories_extraction.py:324-336 | a merge conflict, temporal conflict, ignored memory or unknown action is only reported and the loop continues on the same stores; an unknown action's note names it |
| Milvus.IndexOf | utils/milvus/utils.py:60 | the position of a key in the ordered dictionary, and none exactly when it is not a key |
| Milvus.DictSet | utils/milvus/utils.py:60 | `matches[id] = score`: the keys gain the id, stay distinct, and the entry is present |
| Milvus.Considered | utils/milvus/utils.py:45-50 | at most 1000 hits are considered: a prefix of the ranked hits, all of them when there are no more than 1000 |
| Milvus.Head | utils/milvus/utils.py:66 | `results[0][:min_top_k]` as Python slices it: a zero bound gives nothing, a bound past the end gives every hit, and a negative bound drops that many hits from the end |
| Milvus.SearchRelevantNodes | utils/milvus/utils.py:56-71 | the two loops compute the threshold pass over the considered hits, then the back-fill from the first min_top_k hits when fewer passed |
| Milvus.PassingShape | utils/milvus/utils.py:57-60 | the threshold pass keys exactly the ids of hits scoring at least the threshold, distinct, each entry a hit that passed |
| Milvus.FillShape | utils/milvus/utils.py:66-69 | back-fill keeps the existing entries as a prefix, adds exactly the missing ids of the back-fill hits, and keeps the keys distinct |
| Milvus.ResultDistinct | utils/milvus/utils.py:56-71 | the result is a dictionary: its ids are distinct |
| Milvus.ResultMembers | utils/milvus/utils.py:50-71 | every considered hit scoring at least the threshold is in the result; every entry comes from a considered hit; no hits give an empty result |
| Milvus.BackfillKeepsMatches | utils/milvus/utils.py:65-69 | when fewer than min_top_k pass, each of the first min_top_k hits is in the result and the passing entries keep their place and score |
| Milvus.EnoughMatches | utils/milvus/utils.py:65 | with at least min_top_k passing, the result's ids are exactly the passing ids |
| Milvus.PassingSortedPrefix | utils/milvus/utils.py:26-60 | on hits sorted by decreasing score with distinct ids, the threshold pass is a prefix and every later hit scores below the threshold |
| Milvus.PrefixStep | utils/milvus/utils.py:57-60 | one more sorted hit keeps the threshold pass a prefix |
| Milvus.NewKeyAppends | utils/milvus/utils.py:60 | setting a key the dictionary does not hold appends the entry |
| Milvus.FillSortedPrefix | utils/milvus/utils.py:66-69 | back-filling a prefix with the whole distinct list gives the list |
| Milvus.FillPresent | utils/milvus/utils.py:68 | back-filling with hits already present changes nothing |
| Milvus.ResultIsPrefix | utils/milvus/utils.py:26-71 | the doc-comment's promise: on sorted, distinct hits the result, in insertion order, is a prefix of the hits |
| Milvus.RowsWith | utils/milvus/utils.py:141 | the rows with the given id: exactly those of the collection |
| Milvus.RowsWithout | utils/milvus/utils.py:116-123 | the rows with any other id: exactly those of the collection |
| Milvus.InsertedRows | utils/milvus/utils.py:91-96 | `insert_node` appends one row holding the batch's first vector; an empty batch raises IndexError |
| Milvus.Upserted | utils/milvus/utils.py:116-123 | after an upsert the id's vector is the new one, and the rows are the other ids' rows plus the new row |
| Milvus.UpsertedFrame | utils/milvus/utils.py:116-123 | an upsert leaves every other id's vector as it was |
| Milvus.VectorStore.Lookup | utils/milvus/utils.py:116-123 | the vector of the last row stored under an id, and none exactly when no row has it |
| Milvus.VectorStore.InsertNode | utils/milvus/utils.py:91-96 | one row `(id, embeddings[0])` is appended; an empty batch raises IndexError and leaves the rows |
| Milvus.VectorStore.UpdateEmbeddings | utils/milvus/utils.py:116-123 | the id now has the new vector and every other id keeps its own |
| Milvus.VectorStore.ClearAllNodes | utils/milvus/utils.py:141 | the delete expression `node_id != ''` keeps only rows whose id is the empty string |
| Milvus.VectorStore.GetNodeCount | utils/milvus/utils.py:148-151 | the count is the number of rows |
| Milvus.LastWith | utils/milvus/utils.py:116-123 | the latest vector stored under an id, none exactly when no row has it |
| Milvus.LastWithSnoc | utils/milvus/utils.py:91-96 | after appending a row, lookup finds that row if it matches, otherwise what it found before |
| Milvus.LastWithout | utils/milvus/utils.py:116-123 | removing an id's rows leaves every other id's lookup unchanged |
| Milvus.ClearCount | utils/milvus/utils.py:141-151 | after clearing, the count is 0 when no row was stored under the empty id |
| MongoGraph.AddToSet | utils/mongodb/utils.py:33-36 | `$addToSet`: the element is in the result, nothing else joins, and an element already present leaves the list as it was |
| MongoGraph.AddEdge | utils/mongodb/utils.py:29-39 | `make_edge` adds a under b's text and, when the texts differ, b under a's text, creating the entries if needed; equal texts keep the later entry of the dict literal, a under that text |
| MongoGraph.AddEdgeLinks | utils/mongodb/utils.py:11-36 | after `make_edge(a, b)`, a is listed under b's text and b's text is among those under a; b itself is listed under a unless a different id has the same text; equal texts add only a |
| MongoGraph.AddEdgeFrame | utils/mongodb/utils.py:33-36 | no other node's list appears, disappears or changes |
| MongoGraph.AddEdgeIdempotent | utils/mongodb/utils.py:33-36 | a second identical `make_edge` leaves the adjacency map unchanged |
| MongoGraph.AddEdgeNoDuplicates | utils/mongodb/utils.py:33-36 | `make_edge` never puts a node into a list twice |
| MongoGraph.AddEdgeSymmetric | utils/mongodb/utils.py:11-39 | the undirected-graph invariant (y under x exactly when x under y) is preserved by every edge insertion, self-loops included |
| MongoGraph.MakeEdgeDocs | utils/mongodb/utils.py:29-39 | the upsert creates `DOC_ID` if missing, changes no other document, and its adjacency becomes the edge-added map |
| MongoGraph.GraphStore.MakeEdge | utils/mongodb/utils.py:6-39 | the new documents are those of `MakeEdgeDocs`, the adjacency is the edge-added map, and the symmetric, duplicate-free invariant is kept |
| MongoGraph.GraphStore.GetNeighbors | utils/mongodb/utils.py:87-88 | a missing document raises TypeError, a document without `adjacency_list` raises KeyError, otherwise the node's list or [] |
| MongoGraph.GraphStore.GetAdjacencyList | utils/mongodb/utils.py:151-154 | {} for a missing document or field, otherwise the stored map |
| MongoGraph.GraphStore.DeleteAdjacencyList | utils/mongodb/utils.py:174-177 | `$unset` removes the field of an existing document and creates none; afterwards the adjacency list reads as {} and the invariant holds |
| MongoGraph.GraphStore.NHopNeighborsAsWritten | utils/mongodb/utils.py:115-126 | with the swapped call at line 121, one hop or more from a start node that is not a document id raises TypeError; n <= 0 gives {} |
| MongoGraph.GraphStore.NHopNeighbors | utils/mongodb/utils.py:95-126 | the loops compute every node within n hops of the start, excluding the start itself; errors as `get_neighbors` raises them; n <= 0 gives {} |
| MongoGraph.NeighboursAdd | utils/mongodb/utils.py:120-122 | the neighbours of one more frontier node add exactly its list |
| MongoGraph.NeighboursSplit | utils/mongodb/utils.py:118-124 | the neighbours of a union are the union of the neighbours |
| MongoGraph.BallMonotone | utils/mongodb/utils.py:123 | the visited set only grows from hop to hop |
| MongoGraph.BallHasWalk | utils/mongodb/utils.py:95-105 | every node returned is the end of a walk of at most n steps from the start |
| MongoGraph.WalkExtend | utils/mongodb/utils.py:120-122 | a walk extended by a neighbour of its last node is a walk |
| MongoGraph.WalkInBall | utils/mongodb/utils.py:95-105 | the end of every walk of at most n steps from the start is found, so the result is exactly the n-hop neighbourhood |
| Postgres.LikeLiteralPrefix | utils/postgres/utils.py:169 | a metacharacter-free pattern followed by `%` matches exactly the texts that start with it |
| Postgres.ILikeContains | utils/postgres/utils.py:169 | `ILIKE '%n%'` for a metacharacter-free n holds exactly when n occurs in the text, ignoring case (both directions) |
| Postgres.InsertRow | utils/postgres/utils.py:75-88 | the insert succeeds exactly when neither the id nor the text is taken; it then adds one row and returns the id; otherwise IntegrityError and the table is rolled back; the key and uniqueness constraints are preserved |
| Postgres.UpdateRow | utils/postgres/utils.py:137-146 | an integer id fails the VARCHAR comparison, an absent id updates nothing, a text held by another row violates UNIQUE; on success only that row's text changes; ids, creation times and constraints are preserved |
| Postgres.MemoryDetails | utils/postgres/utils.py:29-51 | the row as a Memory with content = text; an absent id makes `.first()` None and `node.id` raises AttributeError; a returned memory has the requested string id |
| Postgres.RecordStore.constructor | utils/postgres/schemas.py:12-46 | empty tables satisfy the schema's constraints |
| Postgres.RecordStore.InsertMemory | utils/postgres/utils.py:53-88 | `insert_memory` with the uuid and clock as inputs: a new row under a fresh id, or IntegrityError with nothing changed; the constraints and the other tables are kept |
| Postgres.RecordStore.UpdateMemory | utils/postgres/utils.py:115-146 | `update_memory`: exactly one row's text changes, or nothing does, per the four cases; the constraints are kept |
| Postgres.RecordStore.GetMemoryDetails | utils/postgres/utils.py:9-51 | `get_memory_details` on the current table, with its error cases |
| Postgres.RecordStore.GetNodeCount | utils/postgres/utils.py:110-113 | the number of rows of `nodes` |
| Postgres.RecordStore.ClearAllNodes | utils/postgres/utils.py:90-108 | every node row is deleted, unless a `nodes_tags` row still references one, in which case the foreign key fails the delete and nothing changes |
| Postgres.RecordStore.NGramSearchAsWritten | utils/postgres/utils.py:167-179 | as written: [] when no row matches, and a validation error on `id` and `created_at` as soon as one does |
| Postgres.RecordStore.NGramSearch | utils/postgres/utils.py:148-171 | as intended: a memory is returned exactly when it is a stored row whose text matches `%n_gram%` case-insensitively |
| Postgres.NGramSearchContains | utils/postgres/utils.py:151-169 | a stored memory is in the intended search's result exactly when its text contains the n-gram, ignoring case |
| Postgres.NGramSearchAsWrittenFails | utils/postgres/utils.py:173-179 | one row containing the n-gram is enough for the as-written search to raise |
| ChatUtils.JsonPayloadMeaning | chat/utils.py:18 | the answer block is found exactly when a "```json" is followed by a "```"; it is then the stripped text between the first of the one and the first of the other after it |
| ChatUtils.ThinkingSectionMeaning | chat/utils.py:22 | the thinking block is found exactly when a "<think>" is followed by a "</think>"; it is then the text between the first of each |
| ChatUtils.ProcessThinkingResponseCases | chat/utils.py:18-26 | the four outcomes in the source's order: no answer block, no thinking block, the validator's error, or the stripped thinking with the validated answer |
| ChatUtils.FindBlock | chat/utils.py:18-22 | a block `open body close` after a stretch free of the opening marker's first character is the one the two searches find |
| ChatUtils.JsonBlock | chat/utils.py:18 | a fenced answer after a stretch without a backtick yields its stripped body |
| ChatUtils.ThinkBlock | chat/utils.py:22 | a thinking block after a stretch without '<' yields its body |
| ChatUtils.ThinkingThenJson | chat/utils.py:7-26 | a reply with the thinking block first and the answer after it yields the stripped thinking and the decoded stripped answer |
| ChatUtils.JsonThenThinking | chat/utils.py:7-26 | the same with the answer block first: the order of the two blocks does not matter |
| ChatUtils.MissingJsonFirst | chat/utils.py:18-20 | a reply without "```json" fails with the JSON error whatever else it holds, because that check comes first |
| ChatUtils.MissingThinking | chat/utils.py:22-24 | a reply with an answer but no "<think>" fails with the thinking error |
| Prompt.RemoveComments | utils/prompt.py:18 | deletes, left to right, each span from a "<!--" to the first "-->\n" after it, and never lengthens the text; `Prompt.CommentRemoved` proves a comment and its newline are removed, `Prompt.CommentWithoutNewlineKept` that a comment with no newline after it stays |
| Prompt.CommentSpan | utils/prompt.py:18 | a match starts at the first "<!--" and ends with the first "-->\n" after it, inside the text |
| Prompt.NoCommentUnchanged | utils/prompt.py:18 | a text without "<!--" passes through the substitution unchanged |
| Prompt.CommentRemoved | utils/prompt.py:17-18 | a comment followed by a newline is removed together with that newline, and the text before it is kept |
| Prompt.CommentFound | utils/prompt.py:18 | in such a text the match is exactly the comment and its newline |
| Prompt.CommentWithoutNewlineKept | utils/prompt.py:18 | a comment not followed by a newline is not matched and stays |
| Prompt.ReplaceTriples | utils/prompt.py:22 | one `replace` never lengthens the text and strictly shortens one that holds "\n\n\n", so the loop ends |
| Prompt.CollapseReplace | utils/prompt.py:21-22 | one round of replacement keeps the collapsed form: the loop converges to it |
| Prompt.CollapseFixed | utils/prompt.py:21 | a text without "\n\n\n" is its own collapse, so the loop stops at the right text |
| Prompt.CollapseNewlines | utils/prompt.py:20-22 | the loop's result is the collapse of its input and holds no "\n\n\n" |
| Prompt.CollapseRunBetween | utils/prompt.py:20-22 | every run of m newlines becomes min(m, 2) newlines, the text around it collapsing independently |
| Prompt.CollapseKeepsText | utils/prompt.py:20-22 | the collapse keeps every character other than a newline, in order |
| Prompt.CollapseAppend | utils/prompt.py:20-22 | the collapse of a concatenation is the collapse of the parts, the second resuming the scan's state |
| Prompt.StripNoTriple | utils/prompt.py:24 | stripping keeps a text free of "\n\n\n" |
| Prompt.ProcessPrompt | utils/prompt.py:17-24 | the rendered text with comments removed, newline runs collapsed and stripped: no triple newline and no surrounding whitespace remain |
| Models.DigitRun | utils/models.py:19 | the longest run of digits at the start of the text, as strptime's digit fields read it |
| Models.SpaceRun | utils/models.py:19 | the longest run of whitespace at the start of the text, as the pattern's `\s+` consumes it |
| Models.ValidateDatetime | utils/models.py:14-22 | true exactly when the stripped string matches "%Y/%m/%d %I:%M %p" in full and names a date that exists; false, not an exception, otherwise |
| Models.CleanDatetime | utils/models.py:24-26 | the result has no surrounding whitespace and is the input with leading and trailing whitespace removed |
| Models.CleanDatetimeIdempotent | utils/models.py:24-26 | cleaning twice is cleaning once |
| Models.ValidateAfterClean | utils/models.py:18-26 | cleaning before validating never changes the verdict, since validation strips too |
| Models.Pad2 | utils/models.py:11 | two zero-padded digits denoting the number |
| Models.Pad4 | utils/models.py:11 | four zero-padded digits denoting the number |
| Models.DigitRunPrefix | utils/models.py:19 | a digit string followed by a non-digit is read whole |
| Models.FieldPad2 | utils/models.py:19 | a padded field within its range is read back with its value |
| Models.SpacesOne | utils/models.py:19 | the format's single space is consumed by `\s+` |
| Models.ParseMinuteFormat | utils/models.py:19 | the rendering's `%M %p` tail parses back |
| Models.ParseHourFormat | utils/models.py:19 | the rendering's `%I:%M %p` tail parses back |
| Models.ParseDayFormat | utils/models.py:19 | the rendering from `%d` on parses back |
| Models.ParseMonthFormat | utils/models.py:19 | the rendering from `%m` on parses back |
| Models.ParseFormat | utils/models.py:5-19 | round trip: the canonical "YYYY/MM/DD HH:MM AM/PM" rendering of a date-time parses back to it |
| Models.FormatStripped | utils/models.py:18 | the canonical rendering has no surrounding whitespace, so stripping keeps it |
| Models.ValidateFormat | utils/models.py:14-22 | a canonical rendering is accepted exactly when its date exists in the Gregorian calendar (year at least 1) |
| Models.LeapDayVerdict | utils/models.py:14-22 | the 29th of February is accepted exactly in leap years |
| Text.LStrip | utils/models.py:18 | the result is a suffix of the input with no leading whitespace, and only whitespace was removed |
| Text.RStrip | utils/models.py:18 | the result is a prefix of the input with no trailing whitespace, and only whitespace was removed |
| Text.Strip | utils/models.py:18 | `str.strip()`: an infix of the input with only whitespace around it and none at its ends |
| Text.StripInfix | utils/models.py:18 | the strip sits in the input where the leading whitespace ends |
| Text.LStripNoLeadingSpace | utils/models.py:18 | a text without leading whitespace is its own left strip |
| Text.RStripNoTrailingSpace | utils/models.py:18 | a text without trailing whitespace is its own right strip |
| Text.StripUnchanged | utils/models.py:18 | a text with no whitespace at either end is its own strip |
| Text.StripIdempotent | utils/models.py:25-26 | stripping twice is stripping once |
| Text.StripAllSpace | chat/utils.py:26 | a whitespace-only text strips to "" |
| Text.LowerChar | utils/postgres/utils.py:169 | ASCII capitals are shifted to lower case, every other character is kept |
| Text.Lower | utils/postgres/utils.py:169 | lower-casing works character by character and keeps the length |
| Text.LowerIdempotent | utils/postgres/utils.py:169 | lower-casing twice is lower-casing once |
| Text.Find | chat/utils.py:18-22 | the first occurrence of the pattern at or after the start, and none exactly when there is no later occurrence |
| Text.FindIsInfix | utils/prompt.py:21 | the search from the beginning succeeds exactly when the pattern is `in` the text |
| Text.FindSkip | chat/utils.py:18 | skipping a stretch without the pattern's first character does not change the search |
| Text.FindHere | chat/utils.py:18 | an occurrence at the starting point is what the search returns |
| Text.FindAfter | chat/utils.py:18-22 | a search through a stretch free of the pattern's first character stops right after it |
| Text.DigitChar | tools/calendar/get_cal_for_a_mon.py:44 | the ASCII digit for a value below ten |
| Text.NatToString | tools/calendar/get_cal_for_a_mon.py:44 | `str(n)`: a nonempty run of digits without a leading zero, denoting n |
| Text.IntToString | utils/mongodb/utils.py:34-35 | `str(i)`: the digits of the magnitude, with a minus sign for a negative number |
| Text.NatToStringInjective | utils/mongodb/utils.py:34-35 | distinct numbers render to distinct texts |
| Text.Join | tools/calendar/get_cal_for_a_mon.py:44 | `sep.join(parts)`: "" for no parts, the part itself for one |
| Text.ConcatAppend | tools/calendar/get_cal_for_a_mon.py:41-44 | appending a line to the output appends its text |
| Text.JoinLength | tools/calendar/get_cal_for_a_mon.py:44 | the joined length is the parts' lengths plus one separator between each pair |
| Gregorian.DaysInMonth | tools/calendar/get_cal_for_a_mon.py:16 | a month has 28 to 31 days, and February has 29 exactly in leap years |
| Gregorian.Weekday | tools/calendar/get_cal_for_a_mon.py:16 | a weekday number 0 (Monday) to 6 |
| Gregorian.LeapPeriodic | tools/calendar/get_cal_for_a_mon.py:16 | the leap rule repeats every 400 years |
| Gregorian.DaysBeforeYearPeriodic | tools/calendar/get_cal_for_a_mon.py:16 | 400 years are 146097 days |
| Gregorian.DaysBeforeMonthPeriodic | tools/calendar/get_cal_for_a_mon.py:16 | the days before a month repeat every 400 years |
| Gregorian.WeekdayStep | tools/calendar/get_cal_for_a_mon.py:16 | a date's weekday is the same 400 years later |
| Gregorian.ShiftByCycles | tools/calendar/get_cal_for_a_mon.py:16 | a date's weekday is the same any number of 400-year cycles away |
| Gregorian.WeekdayPeriodic | tools/calendar/get_cal_for_a_mon.py:16 | the weekday of a year agrees with that of `2000 + year % 400`, the year the calendar module substitutes outside 1..9999 |
| MonthCalendar.Leading | tools/calendar/get_cal_for_a_mon.py:16 | the blank days before the first of the month, fewer than seven |
| MonthCalendar.Trailing | tools/calendar/get_cal_for_a_mon.py:16 | the blank days after the last, fewer than seven, filling the last week |
| MonthCalendar.MonthDays | tools/calendar/get_cal_for_a_mon.py:16 | the day list covers whole weeks: blanks, the month's days, blanks |
| MonthCalendar.Weeks | tools/calendar/get_cal_for_a_mon.py:16-41 | the day list cut into weeks of seven, in order |
| MonthCalendar.MonthGrid | tools/calendar/get_cal_for_a_mon.py:16 | a month outside 1..12 raises the "bad month number" ValueError; any other month gives its grid |
| MonthCalendar.Cells | tools/calendar/get_cal_for_a_mon.py:44 | each day as `str(day)`, and 0 as "NA" |
| MonthCalendar.WeekLines | tools/calendar/get_cal_for_a_mon.py:44 | one CSV line per week |
| MonthCalendar.RenderWeeks | tools/calendar/get_cal_for_a_mon.py:40-45 | the loop's output is the weekday header followed by every week's line, in order |
| MonthCalendar.GetCalendarForAnyMonth | tools/calendar/get_cal_for_a_mon.py:5-45 | the tool returns the CSV text of the month, or the ValueError of an invalid month |
| MonthCalendar.WeekCount | tools/calendar/get_cal_for_a_mon.py:41 | a month spans four to six weeks, so the text has five to seven lines |
| MonthCalendar.DaysInOrder | tools/calendar/get_cal_for_a_mon.py:16-44 | read in order, the cells are the first week's blanks, then each day of the month once and ascending, then the last week's blanks |
| MonthCalendar.BlanksAtTheEnds | tools/calendar/get_cal_for_a_mon.py:44 | an "NA" can only sit before day 1 in the first week or after the last day in the last week |
| MonthCalendar.DayInItsColumn | tools/calendar/get_cal_for_a_mon.py:16-40 | every day of the month appears once, in the column of its weekday under the Monday-first header |
| MonthCalendar.CellShape | tools/calendar/get_cal_for_a_mon.py:44 | a cell is "NA" or a decimal number, and holds no comma and no newline |
| MonthCalendar.WeekLineShape | tools/calendar/get_cal_for_a_mon.py:44 | each week's line is seven comma-separated cells and a newline |
| MonthCalendar.CalendarTextShape | tools/calendar/get_cal_for_a_mon.py:5-45 | an invalid month raises; otherwise the text starts with the header, is the header followed by the week lines, and ends with a newline |
| Config.GetLlmConfig | config.py:114-118 | a found configuration is listed and has exactly the requested name; otherwise the "not found in the configuration" ValueError |
| Config.LookupFailsIffAbsent | config.py:114-118 | the lookup fails exactly when no configured model has that name |
| Config.LookupFindsFirst | config.py:115-117 | with several models of that name, the first listed is returned |
| Config.ValidateCredential | config.py:45-55 | either credential is rejected exactly in production with a None or empty value, with a message naming its field; otherwise it is returned unchanged |
| Config.OutsideProductionUnchanged | config.py:47-55 | outside production both credentials pass unchanged, whatever they are |
| Config.SplitAt | config.py:93-100 | the text before and after the first occurrence of a character, or none when it does not occur |
| Config.SplitAtFirst | config.py:93-100 | splitting a text built around a character that its first part lacks gives the parts back |
| Config.MongoUriParts | config.py:96-97 | the Mongo URI is "mongodb://" followed by user, password, host and port, recoverable from it, with no database path |
| Config.PostgresUriParts | config.py:93-94 | the Postgres URI is "postgresql://" followed by user, password, host, port and database, recoverable from it |
| Config.MilvusUriParts | config.py:99-100 | the Milvus URI is "tcp://host:port", host and port recoverable from it |
| LlmFactory.CreateProvider | utils/llm/factory.py:12-23 | a created provider carries the configuration unchanged |
| LlmFactory.CreateProviderDispatch | utils/llm/factory.py:13-25 | exactly the five names are accepted in any casing, each selecting its class; any other name raises the "Unknown LLM provider" error with the lower-cased name |
| LlmFactory.CaseInsensitive | utils/llm/factory.py:13 | the casing of the provider name does not change the class chosen or the error raised |
| LlmFactory.KindsDistinct | utils/llm/factory.py:14-23 | different accepted names select different classes |
| EmbeddingsFactory.CreateProvider | utils/embeddings/factory.py:7-13 | only "openai", in any casing, is accepted, giving the OpenAI embeddings provider with the configuration unchanged; otherwise the "Unknown embeddings provider" error |
| EmbeddingsFactory.CaseInsensitive | utils/embeddings/factory.py:9 | the casing of the provider name does not change the outcome |
| MemoryGraph.TruncDiv | memory_graph.py:37 | `int(a / b)`: the quotient truncated toward zero, for either sign |
| MemoryGraph.CharWidth | memory_graph.py:37 | `max(10, int(node_size / 8))`: at least 10, and at least the truncated eighth |
| MemoryGraph.WordLength | memory_graph.py:38 | the length of the run of non-whitespace characters a text starts with |
| MemoryGraph.Words | memory_graph.py:38 | `text.split()` gives no empty word |
| MemoryGraph.WordsKeepText | memory_graph.py:38 | splitting drops exactly the whitespace: the words spell the non-whitespace characters in order |
| MemoryGraph.WordsOfSpace | memory_graph.py:38 | a whitespace-only text has no words |
| MemoryGraph.ChunksSpellWord | memory_graph.py:43 | the chunks of a long word spell it, and each is 1 to char_width characters long |
| MemoryGraph.PiecesOfShortWord | memory_graph.py:42-46 | a word that fits is kept whole |
| MemoryGraph.ProcessedSpellsWords | memory_graph.py:40-46 | `processed_words` spells the words in order, each piece 1 to char_width characters long |
| MemoryGraph.Render | memory_graph.py:57-62 | each line is its words joined by single spaces |
| MemoryGraph.PlaceKeeps | memory_graph.py:52-59 | one round of the layout loop keeps every piece placed so far and adds the new one after them |
| MemoryGraph.LayoutKeepsPieces | memory_graph.py:48-59 | the flushed lines and the current line together hold every piece, in order |
| MemoryGraph.LineWordsKeepPieces | memory_graph.py:48-62 | after the final flush, the lines hold every piece, in order |
| MemoryGraph.LayoutFits | memory_graph.py:52-59 | the layout loop keeps every flushed line and the current one within char_width |
| MemoryGraph.LinesFit | memory_graph.py:48-62 | no line is wider than char_width when no piece is |
| MemoryGraph.FirstLineEmptyState | memory_graph.py:53-57 | a first piece as wide as the line fails the `+ 1` test and flushes an empty line |
| MemoryGraph.FirstLineEmpty | memory_graph.py:53-64 | such a label therefore starts with an empty line before the first `<br>` |
| MemoryGraph.WrappedKeepsText | memory_graph.py:32-64 | "complete text without truncation": the label's lines hold every non-whitespace character, in order |
| MemoryGraph.WrappedLinesFit | memory_graph.py:37-64 | every line of the label is at most char_width characters wide |
| MemoryGraph.WrappedOfSpace | memory_graph.py:38-64 | an empty or whitespace-only text gives an empty label |
| MemoryGraph.ProcessWords | memory_graph.py:40-46 | the loop builds exactly `processed_words` |
| MemoryGraph.LayLines | memory_graph.py:48-62 | the loop and the final flush build exactly the rendered lines |
| MemoryGraph.WrapText | memory_graph.py:32-64 | `wrap_text` returns the lines joined with `<br>`, so its label has the properties above |
| MemoryGraph.Palette | memory_graph.py:10-19 | a known scheme gives its palette, any other the "Blue to Purple" palette; always one of the five |
| MemoryGraph.PalettesDistinct | memory_graph.py:12-18 | the five schemes have five different palettes |
| MemoryGraph.DefaultPaletteOnlyFallback | memory_graph.py:19 | the default palette comes back exactly for "Blue to Purple" and for unknown schemes |
| MemoryGraph.ConnectionCounts | memory_graph.py:135-139 | one count per adjacency entry, the length of its list |
| MemoryGraph.Edges | memory_graph.py:158-164 | an edge for exactly each listed neighbour whose both ends are graph nodes |
| MemoryGraph.AddNodes | memory_graph.py:141-156 | the nodes are exactly the rows whose details can be read, each with its text and its connection count; the others are skipped |
| MemoryGraph.AssembleGraph | memory_graph.py:128-164 | the nodes are exactly the readable rows, each labelled with its record text and its connection count, and the edges are those of the edge pass over them |
| MemoryGraph.EdgesWithinNodes | memory_graph.py:160-162 | every edge joins two graph nodes |
| MemoryGraph.ConnectionCountIsListLength | memory_graph.py:146 | a node's count is the length of its adjacency list, and 0 when it has none |
| MemoryGraph.StoredRowsBecomeNodes | memory_graph.py:142-153 | every row of a consistent record store becomes a node labelled with its text |
| Generation.CallTool | chat/memories_extraction.py:91-107 | the dispatch computes the tool's answer: the calendar message, KeyError for a missing argument, the calendar's ValueError, or "Unknown function" |
| Generation.GenerateMemories | chat/memories_extraction.py:59-107 | the `while call_count <= max_recursive_calls` loop computes the recursive definition of the exchange |
| Generation.Turn | chat/memories_extraction.py:65-107 | one turn: a reply that does not parse raises; a final result ends with its memories and the reply appended; an answered calendar request appends the reply and the answer and goes on with one more call counted; a failing tool raises |
| Generation.Continue | chat/memories_extraction.py:72-104 | an answered request hands the loop on with the assistant reply and the user answer appended |
| Generation.ConversationExtends | chat/memories_extraction.py:72-102 | an answered request keeps the conversation alternating, user first, each reply answering the history before it |
| Generation.RunShape | chat/memories_extraction.py:59-110 | every successful run from a well-formed conversation makes at most three model calls, at least one more than before, only extends the conversation, and gives up only when the calls have run out |
| Generation.ShapedEarlier | chat/memories_extraction.py:63-104 | the shape reached after one more answered request holds from the turn before it |
| Generation.GenerateCalls | chat/memories_extraction.py:59-110 | generation makes one to three model calls, gives up only after the third, keeps the prompt as the first message, and a run with memories ends on the model's own reply |
| Generation.FinalResultStops | chat/memories_extraction.py:80-85 | the first final result ends the loop with its memories, whatever calls were left |
| Generation.UnknownFunctionRaises | chat/memories_extraction.py:106-107 | a request for any function other than the calendar raises ValueError with its name |
| Generation.CalendarAnswered | chat/memories_extraction.py:91-102 | a calendar request is answered with the month named in words, the year and the CSV calendar; a missing argument raises KeyError; a month outside 1..12 raises the calendar's ValueError before the month name is looked up |

## Left out

- The Streamlit pages and session state: every `st.*` call, the plotly rendering and layouts of the memory graph, and the reset page. They are presentation only.
- The language-model and embedding vendors, and token costs. Their outputs are parameters: completions, embeddings and the ranked hits of the similarity search. How Milvus ranks is not modelled.
- The ranked hits are an input that does not read `VectorStore.rows`. Search results are therefore not drawn from the stored vectors, and no lemma relates a vector written in step 3 to what a later search returns.
- Floating point: `get_color_for_node`, `calculate_node_size`, the edge weights and every cost. Similarity scores are integers, in hundredths, so the threshold 0.75 is 75; they are only compared.
- MemoryGraph.CharWidth: the node size is an integer, so `node_size / 8` is modelled as an integer division truncated toward zero, which is what `int()` of the float quotient gives for the sizes the page uses.
- Database connections, sessions, migrations and collection setup. The stores start from the state a caller gives them.
- Jinja template rendering. The rendered text is the input of `Prompt.ProcessPrompt`, and the prompt builders are not modelled: the model replies are functions of what they are shown.
- pydantic validation (`model_validate_json`, `model_validate`) is a decoding function passed in. The settings' `lru_cache`, `.env` loading and config-file read are left out.
- The concurrent `asyncio.gather` fan-out of step 2 is modelled as sequential. The decisions come back in input order, and the model reports the first error in input order. gather raises the first error in time, and the coroutines interleave at the streamed completion, so when several memories fail the error gather raises can be a later memory's.
- Merge-conflict and temporal-conflict resolution are TODOs in the code. The model only reports those decisions.
- `postgres.get_all_nodes`, called by the memory-graph page, is not defined in utils/postgres/utils.py. `MemoryGraph.AssembleGraph` takes the list of row ids as an input.
- The nodes-tags table has no operation in the code. It is modelled only through its constraints and its effect on `clear_all_nodes`.
- MongoGraph.GraphStore.NHopNeighbors: the result is a set. The order of `list(visited - {node_id})` depends on Python's set iteration and is not modelled.
- Postgres.RecordStore.NGramSearch: the result is a set of memories. The query has no ORDER BY, so its row order is unspecified.
- Postgres.RecordStore.NGramSearch: `created_at` is kept as the stored text. `str(datetime)` rendering is not modelled, and neither are timezones.
- An n-gram holding `%`, `_` or `\` is matched by SQL LIKE's rules (`Postgres.Like`). A pattern ending in a lone `\` is a Postgres error, which is modelled as no match.
- A node id holding `.` or `$` would make MongoDB split or reject the field path `adjacency_list.<id>`. Ids are uuids or small integers, so this is not modelled.
- Milvus: `num_entities` counts rows, including deleted ones until compaction. The model counts live rows, and an upsert replaces the row.
- Milvus.VectorStore.ClearAllNodes: the delete expression `node_id != ''` keeps any row whose id is the empty string. `Milvus.ClearCount` therefore gives 0 only when no such row exists, which is what the code does.
- MemoryGraph.Edges: `nx.Graph` is undirected, so the edge pass gives a set of pairs. An edge listed in both directions counts once in networkx, and it appears as both ordered pairs here.
- Lower-casing covers ASCII letters only, for `str.lower()` and ILIKE. `\d` in strptime's pattern is read as ASCII digits.
- Generation: tool arguments are integers. A model that sends a string month would make `MONTHS[month - 1]` raise TypeError, and that case is not modelled.
- Generation.GenerateMemories: the streamed completion is modelled as the concatenated reply. The assistant message is appended before the reply is parsed, as the code does, but a parse error ends the loop, so that message is not observable.
- Consolidation.Step: for an addition, the contract gives the stores and whether the step completed. It does not give the note `Added(n)` that is reported.
- `Memory.id` is declared `str`, yet `normalize_memories` assigns integers to it; pydantic does not validate attribute assignment unless asked to, so the program carries both kinds of id, and the model's ids are the dynamic `Key` type (`Str` or `Int`).

## Findings

| source | as written | input that shows it | evidently intended | confidence | as-written member | corrected member |
|---|---|---|---|---|---|---|
| utils/normalize_uuid.py:37; chat/memories_extraction.py:187, 190, 305, 397 | the dictionary maps each original uuid to its position, but the callers look it up with the positions the model answers with | neighbours with uuids "a", "b"; the model answers with memory id 0; `0 in {"a": 0, "b": 1}` is false, so the id is dropped | the inverse dictionary, position to uuid, so the model's ids are translated back | high (not executed) | NormalizeUuid.MappingMissesNewIds, Decisions.AsWrittenDropsEveryId, ConsolidationFacts.AsWrittenRelatesNothing | NormalizeUuid.IndexToId, NormalizeUuid.IndexToIdInverts, Decisions.CorrectedRestoresIds, ConsolidationFacts.CorrectedRelatesNeighbours |
| utils/mongodb/utils.py:121 | `get_neighbors(doc_id, node)` passes the document id as the node and the node as the document id | `get_n_hop_neighbors("n1", 1)`: `find_one({"_id": "n1"})` is None, and subscripting it raises TypeError | `get_neighbors(node, doc_id)`: a breadth-first search over the adjacency list | high (not executed) | MongoGraph.GraphStore.NHopNeighborsAsWritten | MongoGraph.GraphStore.NHopNeighbors |
| utils/postgres/utils.py:173-179 | each matching row becomes `Memory(content=..., created_at=...)`, without the required `id` and with a datetime where a string is declared | any table with a row containing the n-gram: pydantic raises a validation error | the memories of the matching rows, with their ids | high (not executed) | Postgres.NGramSearchAsWrittenFails, Postgres.RecordStore.NGramSearchAsWritten | Postgres.NGramSearchContains, Postgres.RecordStore.NGramSearch |
| chat/memories_extraction.py:406 | `update_embeddings(id, embeddings)` gets the whole batch, while its signature (utils/milvus/utils.py:98) and the collection take one vector | as written it cannot be reached: every id that survives the translation is an integer position, so `update_memory` raises ProgrammingError at line 402 first; once the dictionary of the first finding is inverted, any addition whose updated memory survives has its record rewritten and then its upsert rejected | `embeddings[0]`, as `insert_node` stores it (utils/milvus/utils.py:94) | medium (not executed) | ConsolidationFacts.AsWrittenUpdateFails, ConsolidationFacts.AsWrittenAdditionStopsAtRecord, ConsolidationFacts.AsWrittenStopsAtAddition, Consolidation.AdditionPayload | ConsolidationFacts.UpdateStepEffect, ConsolidationFacts.UpdateWithEffect, Consolidation.AdditionPayload |
