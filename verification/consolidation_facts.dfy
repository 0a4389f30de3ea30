/**
 * What the consolidation pipeline does to the stores: the neighbours a search yields, which
 * related ids survive the translation back, what one insertion or one addition writes, what
 * it leaves behind when it fails half-way, and that the whole of step 3 removes no record,
 * no vector id and no edge.
 */
module ConsolidationFacts {
  import opened Wrappers
  import opened Models
  import opened NormalizeUuid
  import opened Decisions
  import opened Consolidation
  import Milvus
  import MongoGraph
  import Postgres
  import ChatUtils

  // ---------------------------------------------------------------------------------------
  // Neighbours and related ids

  /**
   * Fetching succeeds exactly when every id has a record, and then yields those records in
   * order: each memory carries the id it was fetched with and the text of its row.
   */
  lemma FetchedRecords(ids: seq<Key>, nodes: map<Key, Postgres.Row>)
    requires Postgres.NodesValid(nodes)
    ensures Fetched(ids, nodes).Ok? <==> forall i :: 0 <= i < |ids| ==> ids[i].Str? && ids[i] in nodes
    ensures Fetched(ids, nodes).Ok? ==>
              |Fetched(ids, nodes).value| == |ids|
              && forall i :: 0 <= i < |ids| ==>
                   Fetched(ids, nodes).value[i] == Memory(ids[i], nodes[ids[i]].text, nodes[ids[i]].createdAt)
  {
    CollectMeaning(ids, DetailsOf(nodes));
  }

  /** The ids of fetched memories are the record store's string ids. */
  lemma FetchedIdsAreStrings(ids: seq<Key>, nodes: map<Key, Postgres.Row>)
    requires Postgres.NodesValid(nodes) && Fetched(ids, nodes).Ok?
    ensures forall j :: 0 <= j < |Fetched(ids, nodes).value| ==> Fetched(ids, nodes).value[j].id.Str?
  {
    FetchedRecords(ids, nodes);
  }

  /** The ids the insertion model's reply names, before any translation. */
  function ReplyIds(o: Oracles, content: string, ms: seq<Memory>): Result<seq<Key>> {
    match ChatUtils.ProcessThinkingResponse(o.relate(content, Renumbered(ms)), o.decodeRelation)
    case Err(e) => Err(e)
    case Ok(reply) => Ok(reply.1)
  }

  lemma RelatedSpecParts(o: Oracles, v: Variant, content: string, nodes: map<Key, Postgres.Row>)
    ensures RelatedSpec(o, v, content, nodes).Ok? <==>
              Neighbours(o, content, Milvus.DefaultMinTopK, nodes).Ok?
              && ReplyIds(o, content, Neighbours(o, content, Milvus.DefaultMinTopK, nodes).value).Ok?
    ensures RelatedSpec(o, v, content, nodes).Ok? ==>
              var ms := Neighbours(o, content, Milvus.DefaultMinTopK, nodes).value;
              var ids := ReplyIds(o, content, ms).value;
              RelatedSpec(o, v, content, nodes).value.1
              == if |ms| > 0 then Denormalize(ids, BackMapping(v, ms)) else ids
  {
  }

  /**
   * As written, once some neighbour was found, an insertion or an addition relates the memory
   * to nothing at all when the model answers with the renumbered (integer) ids it was shown:
   * the dictionary it is translated through is keyed by the original string ids.
   */
  lemma AsWrittenRelatesNothing(o: Oracles, content: string, nodes: map<Key, Postgres.Row>)
    requires Postgres.NodesValid(nodes)
    requires forall t :: o.decodeRelation(t).Ok? ==>
               forall i :: 0 <= i < |o.decodeRelation(t).value| ==> o.decodeRelation(t).value[i].Int?
    ensures RelatedSpec(o, AsWritten, content, nodes).Ok?
            && |Neighbours(o, content, Milvus.DefaultMinTopK, nodes).value| > 0
            ==> RelatedSpec(o, AsWritten, content, nodes).value.1 == []
  {
    RelatedSpecParts(o, AsWritten, content, nodes);
    if RelatedSpec(o, AsWritten, content, nodes).Ok? {
      var ms := Neighbours(o, content, Milvus.DefaultMinTopK, nodes).value;
      var text := o.relate(content, Renumbered(ms));
      ChatUtils.ProcessThinkingResponseCases(text, o.decodeRelation);
      FetchedIdsAreStrings(HitIds(SearchHits(o, content, Milvus.DefaultMinTopK).value), nodes);
      AsWrittenDropsEveryId(ReplyIds(o, content, ms).value, ms);
    }
  }

  /**
   * Corrected, once some neighbour was found, every related id is the id of one of the
   * neighbours, so it names an existing record.
   */
  lemma CorrectedRelatesNeighbours(o: Oracles, content: string, nodes: map<Key, Postgres.Row>)
    requires Postgres.NodesValid(nodes)
    ensures RelatedSpec(o, Corrected, content, nodes).Ok?
            && |Neighbours(o, content, Milvus.DefaultMinTopK, nodes).value| > 0
            ==> forall x :: x in RelatedSpec(o, Corrected, content, nodes).value.1 ==>
                  x in Ids(Neighbours(o, content, Milvus.DefaultMinTopK, nodes).value) && x in nodes
  {
    RelatedSpecParts(o, Corrected, content, nodes);
    if RelatedSpec(o, Corrected, content, nodes).Ok? && |Neighbours(o, content, Milvus.DefaultMinTopK, nodes).value| > 0 {
      var hitIds := HitIds(SearchHits(o, content, Milvus.DefaultMinTopK).value);
      var ms := Neighbours(o, content, Milvus.DefaultMinTopK, nodes).value;
      var ids := ReplyIds(o, content, ms).value;
      FetchedRecords(hitIds, nodes);
      forall x | x in Denormalize(ids, IndexToId(Ids(ms)))
        ensures x in Ids(ms) && x in nodes
      {
        var j := TranslatedFrom(ids, ms, x);
        assert ms[j].id == hitIds[j];
      }
    }
  }

  /** An id translated back through `IndexToId` is the id of the memory at some position. */
  lemma TranslatedFrom(ids: seq<Key>, ms: seq<Memory>, x: Key) returns (j: nat)
    requires x in Denormalize(ids, IndexToId(Ids(ms)))
    ensures j < |ms| && x == ms[j].id && x in Ids(ms)
  {
    var m := IndexToId(Ids(ms));
    DenormalizeMembers(ids, m, x);
    var i :| 0 <= i < |ids| && ids[i] in m && m[ids[i]] == x;
    j := ids[i].i;
  }

  // ---------------------------------------------------------------------------------------
  // One insertion

  /** The ids that have a vector. */
  function VectorIds(rows: seq<(Key, Milvus.Vector)>): set<Key> {
    set x | x in rows :: x.0
  }

  /**
   * `after` keeps everything `before` held: the table's constraints, every record with its
   * id and creation time, every id with a vector, and every edge.
   */
  predicate Keeps(before: World, after: World) {
    (Postgres.NodesValid(before.nodes) ==> Postgres.NodesValid(after.nodes))
    && (forall k :: k in before.nodes ==>
          k in after.nodes && after.nodes[k].id == before.nodes[k].id
          && after.nodes[k].createdAt == before.nodes[k].createdAt)
    && VectorIds(before.rows) <= VectorIds(after.rows)
    && Grows(MongoGraph.AdjacencyOf(before.docs), MongoGraph.AdjacencyOf(after.docs))
  }

  lemma KeepsTransitive(a: World, b: World, c: World)
    requires Keeps(a, b) && Keeps(b, c)
    ensures Keeps(a, c)
  {
    GrowsTransitive(MongoGraph.AdjacencyOf(a.docs), MongoGraph.AdjacencyOf(b.docs), MongoGraph.AdjacencyOf(c.docs));
  }

  lemma LinkKeeps(w: World, pairs: seq<(Key, Key)>)
    ensures Keeps(w, w.(docs := LinkPairs(w.docs, pairs)))
  {
    LinkPairsEffect(w.docs, pairs);
  }

  /** Appending a row keeps every id with a vector. */
  lemma AppendKeepsIds(rows: seq<(Key, Milvus.Vector)>, after: seq<(Key, Milvus.Vector)>)
    requires |rows| <= |after| && after[..|rows|] == rows
    ensures VectorIds(rows) <= VectorIds(after)
  {
    forall x | x in rows ensures x in after {
      var i :| 0 <= i < |rows| && rows[i] == x;
      assert after[..|rows|][i] == x;
    }
  }

  /** An insertion removes nothing, whatever happens. */
  lemma InsertStepKeeps(o: Oracles, v: Variant, idx: nat, content: string, w: World)
    ensures Keeps(w, InsertStep(o, v, idx, content, w).0)
  {
    var after := InsertStep(o, v, idx, content, w).0;
    var rel := RelatedSpec(o, v, content, w.nodes);
    var ins := Postgres.InsertRow(w.nodes, content, o.uuid(idx), o.now(idx));
    if rel.Err? || ins.1.Err? {
      assert after == w;
    } else {
      var w1 := w.(nodes := ins.0);
      InsertRowKeeps(w, content, o.uuid(idx), o.now(idx));
      var added := Milvus.InsertedRows(w.rows, ins.1.value, rel.value.0);
      assert added.Ok?;
      var w2 := w1.(rows := added.value);
      var pairs := InsertPairs(rel.value.1, ins.1.value);
      assert after == w2.(docs := LinkPairs(w2.docs, pairs));
      AppendKeepsIds(w.rows, added.value);
      assert Keeps(w1, w2);
      LinkKeeps(w2, pairs);
      KeepsTransitive(w, w1, w2);
      KeepsTransitive(w, w2, after);
    }
  }

  /** Adding the record of a new memory keeps every record there was. */
  lemma InsertRowKeeps(w: World, content: string, uuid: string, now: string)
    ensures Keeps(w, w.(nodes := Postgres.InsertRow(w.nodes, content, uuid, now).0))
  {
  }

  /**
   * An insertion that completes adds exactly one record, under the fresh uuid and with the
   * memory's text, appends one vector row for it holding the first vector of the memory's
   * batch, and links it both ways to every related id.
   */
  lemma InsertStepEffect(o: Oracles, v: Variant, idx: nat, content: string, w: World)
    ensures InsertStep(o, v, idx, content, w).1.Ok? ==>
              RelatedSpec(o, v, content, w.nodes).Ok?
              && var related := RelatedSpec(o, v, content, w.nodes).value.1;
                 var id := Str(o.uuid(idx));
                 var after := InsertStep(o, v, idx, content, w).0;
                 InsertStep(o, v, idx, content, w).1 == Ok(Inserted(id, |related|))
                 && id !in w.nodes && after.nodes == w.nodes[id := Postgres.Row(id, content, o.now(idx))]
                 && o.embed(content) != []
                 && |after.rows| == |w.rows| + 1 && after.rows[..|w.rows|] == w.rows
                 && Milvus.LastWith(after.rows, id) == Some(o.embed(content)[0])
                 && Linked(MongoGraph.AdjacencyOf(after.docs), InsertPairs(related, id))
  {
    var rel := RelatedSpec(o, v, content, w.nodes);
    if InsertStep(o, v, idx, content, w).1.Ok? {
      LinkPairsEffect(w.docs, InsertPairs(rel.value.1, Str(o.uuid(idx))));
    }
  }

  /**
   * An insertion completes exactly when the related memories are found, the record is
   * written and the batch has a first vector: the edges it then adds never fail.
   */
  lemma InsertStepOutcome(o: Oracles, v: Variant, idx: nat, content: string, w: World)
    ensures InsertStep(o, v, idx, content, w).1.Ok? <==>
              RelatedSpec(o, v, content, w.nodes).Ok?
              && Postgres.InsertRow(w.nodes, content, o.uuid(idx), o.now(idx)).1.Ok?
              && o.embed(content) != []
  {
  }

  /**
   * A memory with an empty embedding batch fails in the search, before any store is
   * written: an insertion and an update of it both leave the stores as they were.
   */
  lemma EmptyBatchChangesNothing(o: Oracles, v: Variant, idx: nat, content: string, w: World)
    requires o.embed(content) == []
    ensures InsertStep(o, v, idx, content, w) == (w, Err(IndexError))
    ensures forall id :: UpdateStep(o, v, UpdatedMemory(id, content), w) == (w, Err(IndexError))
  {
  }

  // ---------------------------------------------------------------------------------------
  // One addition

  /** An upsert keeps every id with a vector and gives one to the upserted id. */
  lemma UpsertKeepsIds(rows: seq<(Key, Milvus.Vector)>, id: Key, e: Milvus.Vector)
    ensures VectorIds(rows) + {id} == VectorIds(Milvus.Upserted(rows, id, e))
    ensures forall other :: other != id ==>
              Milvus.LastWith(Milvus.Upserted(rows, id, e), other) == Milvus.LastWith(rows, other)
  {
    var after := Milvus.Upserted(rows, id, e);
    assert (id, e) in after;
    forall x | x in rows ensures x.0 in VectorIds(after) {
      if x.0 != id {
        assert x in after;
      }
    }
    forall other | other != id
      ensures Milvus.LastWith(after, other) == Milvus.LastWith(rows, other)
    {
      Milvus.UpsertedFrame(rows, id, e, other);
    }
  }

  /** One updated memory removes nothing, whatever happens. */
  lemma UpdateStepKeeps(o: Oracles, v: Variant, u: UpdatedMemory, w: World)
    ensures Keeps(w, UpdateStep(o, v, u, w).0)
  {
    var rel := RelatedSpec(o, v, u.content, w.nodes);
    if rel.Ok? {
      var up := Postgres.UpdateRow(w.nodes, u.memoryId, u.content);
      if up.1.Ok? {
        var w1 := w.(nodes := up.0);
        assert Keeps(w, w1);
        var payload := AdditionPayload(v, rel.value.0);
        if payload.Ok? {
          var w2 := w1.(rows := Milvus.Upserted(w.rows, u.memoryId, payload.value));
          UpsertKeepsIds(w.rows, u.memoryId, payload.value);
          assert Keeps(w1, w2);
          var pairs := AdditionPairs(u.memoryId, rel.value.1);
          LinkKeeps(w2, pairs);
          KeepsTransitive(w, w1, w2);
          KeepsTransitive(w, w2, w2.(docs := LinkPairs(w2.docs, pairs)));
        }
      }
    }
  }

  /**
   * One updated memory, when its step completes: its record holds the new text when it had
   * a record, its vector is the first vector of the new text's batch, every other id keeps
   * its vector, and it is linked both ways to every related id. An id without a record is
   * left without one, yet gets a vector: `update_memory` updates no row and says nothing.
   */
  lemma UpdateStepEffect(o: Oracles, v: Variant, u: UpdatedMemory, w: World)
    ensures UpdateStep(o, v, u, w).1.Ok? ==>
              RelatedSpec(o, v, u.content, w.nodes).Ok?
              && var related := RelatedSpec(o, v, u.content, w.nodes).value.1;
                 var after := UpdateStep(o, v, u, w).0;
                 var id := u.memoryId;
                 o.embed(u.content) != [] && id.Str?
                 && after.nodes.Keys == w.nodes.Keys
                 && (id in w.nodes ==> after.nodes == w.nodes[id := w.nodes[id].(text := u.content)])
                 && (id !in w.nodes ==> after.nodes == w.nodes && id in VectorIds(after.rows))
                 && Milvus.LastWith(after.rows, id) == Some(o.embed(u.content)[0])
                 && (forall other :: other != id ==> Milvus.LastWith(after.rows, other) == Milvus.LastWith(w.rows, other))
                 && Linked(MongoGraph.AdjacencyOf(after.docs), AdditionPairs(id, related))
  {
    var rel := RelatedSpec(o, v, u.content, w.nodes);
    if UpdateStep(o, v, u, w).1.Ok? {
      UpdateWithEffect(v, u, rel.value, w);
    }
  }

  /** `UpdateStepEffect` for the stores' part, in terms of the batch and the related ids. */
  lemma UpdateWithEffect(v: Variant, u: UpdatedMemory, rel: (seq<Milvus.Vector>, seq<Key>), w: World)
    ensures UpdateWith(v, u, rel, w).1.Ok? ==>
              var after := UpdateWith(v, u, rel, w).0;
              var id := u.memoryId;
              rel.0 != [] && id.Str?
              && after.nodes.Keys == w.nodes.Keys
              && (id in w.nodes ==> after.nodes == w.nodes[id := w.nodes[id].(text := u.content)])
              && (id !in w.nodes ==> after.nodes == w.nodes && id in VectorIds(after.rows))
              && Milvus.LastWith(after.rows, id) == Some(rel.0[0])
              && (forall other :: other != id ==> Milvus.LastWith(after.rows, other) == Milvus.LastWith(w.rows, other))
              && Linked(MongoGraph.AdjacencyOf(after.docs), AdditionPairs(id, rel.1))
  {
    if UpdateWith(v, u, rel, w).1.Ok? {
      var payload := AdditionPayload(v, rel.0);
      UpsertKeepsIds(w.rows, u.memoryId, payload.value);
      LinkPairsEffect(w.docs, AdditionPairs(u.memoryId, rel.1));
    }
  }

  /**
   * One updated memory completes exactly when the related memories are found, the record
   * update succeeds and a vector can be upserted: the edges it then adds never fail.
   */
  lemma UpdateStepOutcome(o: Oracles, v: Variant, u: UpdatedMemory, w: World)
    ensures UpdateStep(o, v, u, w).1.Ok? <==>
              RelatedSpec(o, v, u.content, w.nodes).Ok?
              && Postgres.UpdateRow(w.nodes, u.memoryId, u.content).1.Ok?
              && AdditionPayload(v, o.embed(u.content)).Ok?
  {
  }

  /**
   * An updated memory that the model relates to itself: `make_edge(id, id)` adds the id to
   * its own list, and the update completes as any other.
   */
  lemma SelfRelatedUpdateLoops(v: Variant, u: UpdatedMemory, rel: (seq<Milvus.Vector>, seq<Key>), w: World)
    requires u.memoryId in rel.1
    ensures UpdateWith(v, u, rel, w).1.Ok? <==>
              Postgres.UpdateRow(w.nodes, u.memoryId, u.content).1.Ok? && AdditionPayload(v, rel.0).Ok?
    ensures UpdateWith(v, u, rel, w).1.Ok? ==>
              u.memoryId in MongoGraph.ListOf(MongoGraph.AdjacencyOf(UpdateWith(v, u, rel, w).0.docs),
                                              MongoGraph.KeyText(u.memoryId))
  {
    if UpdateWith(v, u, rel, w).1.Ok? {
      var pairs := AdditionPairs(u.memoryId, rel.1);
      var i :| 0 <= i < |rel.1| && rel.1[i] == u.memoryId;
      LinkPairsEffect(w.docs, pairs);
      assert pairs[i] == (u.memoryId, u.memoryId);
    }
  }

  /**
   * As written, no updated memory gets through its step: the batch sent as a single vector
   * is rejected. When the search and the record update succeeded, which needs a string id
   * and so, in the pipeline, the inverted dictionary, the record already holds the new text
   * while the vector, and the edges, are those of the old text.
   */
  lemma AsWrittenUpdateFails(o: Oracles, u: UpdatedMemory, w: World)
    ensures UpdateStep(o, AsWritten, u, w).1.Err?
    ensures RelatedSpec(o, AsWritten, u.content, w.nodes).Ok?
            && Postgres.UpdateRow(w.nodes, u.memoryId, u.content).1.Ok? ==>
              UpdateStep(o, AsWritten, u, w)
              == (w.(nodes := Postgres.UpdateRow(w.nodes, u.memoryId, u.content).0), Err(MilvusException))
  {
  }

  /**
   * As written, an addition whose first update survives the filter ends before any store is
   * written: its id is a position, and `update_memory` rejects it (or the search before it
   * fails). The rejected batch upsert is reached only once the dictionary is inverted.
   */
  lemma AsWrittenAdditionStopsAtRecord(o: Oracles, idx: nat, us: seq<UpdatedMemory>, ms: seq<Memory>, w: World)
    requires FilterUpdates(us, BackMapping(AsWritten, ms)) != []
    ensures var kept := FilterUpdates(us, BackMapping(AsWritten, ms));
            var r := Step(o, AsWritten, idx, AdditionToExisting(kept), w);
            r.0 == w && r.1.Err?
            && (RelatedSpec(o, AsWritten, kept[0].content, w.nodes).Ok? ==> r.1 == Err(ProgrammingError))
  {
    AsWrittenUpdatesHaveIntIds(us, ms);
  }

  lemma {:induction false} UpdateStepsKeep(o: Oracles, v: Variant, us: seq<UpdatedMemory>, w: World)
    ensures Keeps(w, UpdateSteps(o, v, us, w).0)
    decreases |us|
  {
    if us == [] {
      KeepsItself(w);
    } else {
      var step := UpdateStep(o, v, us[0], w);
      UpdateStepKeeps(o, v, us[0], w);
      if step.1.Ok? {
        UpdateStepsKeep(o, v, us[1..], step.0);
        KeepsTransitive(w, step.0, UpdateSteps(o, v, us[1..], step.0).0);
      }
    }
  }

  lemma KeepsItself(w: World)
    ensures Keeps(w, w)
  {
  }

  // ---------------------------------------------------------------------------------------
  // Step 3 as a whole

  /** One decision removes nothing, whatever its action and whatever happens. */
  lemma StepKeeps(o: Oracles, v: Variant, idx: nat, d: Decision, w: World)
    ensures Keeps(w, Step(o, v, idx, d, w).0)
  {
    match d
    case Insert(content) => InsertStepKeeps(o, v, idx, content, w);
    case AdditionToExisting(us) => UpdateStepsKeep(o, v, us, w);
    case _ => KeepsItself(w);
  }

  /**
   * Step 3 from any decision on removes no record, changes no record's id or creation time,
   * drops no vector id and no edge, and keeps the table's constraints.
   */
  lemma {:induction false} StepsKeep(o: Oracles, v: Variant, ds: seq<Decision>, i: nat, w: World)
    ensures Keeps(w, Steps(o, v, ds, i, w).0)
    decreases |ds| - i
  {
    if i < |ds| {
      var s := Step(o, v, i + 1, ds[i], w);
      StepKeeps(o, v, i + 1, ds[i], w);
      if s.1.Ok? {
        StepsKeep(o, v, ds, i + 1, s.0);
        KeepsTransitive(w, s.0, Steps(o, v, ds, i + 1, s.0).0);
      }
    } else {
      KeepsItself(w);
    }
  }

  /**
   * As written, the loop of step 3 ends at the first addition that names some memory,
   * with an exception, and the decisions after it are not carried out.
   */
  lemma AsWrittenStopsAtAddition(o: Oracles, ds: seq<Decision>, i: nat, w: World)
    requires i < |ds| && ds[i].AdditionToExisting? && ds[i].updatedMemories != []
    ensures Steps(o, AsWritten, ds, i, w).2.Err? && Steps(o, AsWritten, ds, i, w).1 == []
  {
    AsWrittenUpdateFails(o, ds[i].updatedMemories[0], w);
  }

  /**
   * A merge conflict, a temporal conflict, an ignored memory or an unknown action is only
   * reported: the loop goes on with the next decision on the same stores.
   */
  lemma StepsPassOver(o: Oracles, v: Variant, ds: seq<Decision>, i: nat, w: World)
    requires i < |ds| && (ds[i].MergeConflict? || ds[i].ResolveTemporalConflict? || ds[i].Ignore? || ds[i].Unknown?)
    ensures Steps(o, v, ds, i, w).0 == Steps(o, v, ds, i + 1, w).0
    ensures Steps(o, v, ds, i, w).2 == Steps(o, v, ds, i + 1, w).2
    ensures |Steps(o, v, ds, i, w).1| == |Steps(o, v, ds, i + 1, w).1| + 1
    ensures ds[i].Unknown? ==> Steps(o, v, ds, i, w).1[0] == UnknownAction(ds[i].action)
  {
  }
}
