/**
 * The store side of the consolidation pipeline: the searches that find a new memory's
 * neighbours (steps 2 and 3), the decision of step 2 and the execution of the decisions in
 * step 3 on the record store, the vector store and the graph store, in that order.
 *
 * The embedder, the similarity ranking, the language models' replies, the reply decoders,
 * the uuid generator and the clock are inputs (`Oracles`). The three stores are the classes
 * of their modules; `World` is their joint state as a value, which the specification
 * functions below transform.
 */
module Consolidation {
  import opened Wrappers
  import opened Models
  import opened NormalizeUuid
  import opened Decisions
  import Milvus
  import MongoGraph
  import Postgres
  import ChatUtils

  /** What the outside world answers, as functions of what it is asked. */
  datatype Oracles = Oracles(
    // `get_embeddings(text)`: a batch of vectors
    embed: string -> seq<Milvus.Vector>,
    // Milvus's similarity search on a batch: the ranked hits
    rank: seq<Milvus.Vector> -> seq<Milvus.Hit>,
    // the decision model's reply, given the new memory and the renumbered existing ones
    decide: (string, seq<Memory>) -> string,
    // the insertion model's reply, likewise
    relate: (string, seq<Memory>) -> string,
    // pydantic validation of `ModelResponseDecision` and of the related ids of a reply
    decodeDecision: string -> Result<Decision>,
    decodeRelation: string -> Result<seq<Key>>,
    // `uuid4()` and `now()` for the insert of the idx-th decision
    uuid: nat -> string,
    now: nat -> string)

  /** The rows of `nodes`, the rows of the Milvus collection and the Mongo documents. */
  datatype World = World(nodes: map<Key, Postgres.Row>, rows: seq<(Key, Milvus.Vector)>,
                         docs: map<Key, MongoGraph.Doc>)

  /** What step 3 reports for a decision it handled. */
  datatype Note =
    | Inserted(id: Key, edges: nat)
    | Added(updates: nat)
    | MergeDeferred
    | TemporalDeferred
    | Ignored
    | UnknownAction(action: string)

  /** `min_top_k` of the search in step 2. */
  const DecisionMinTopK: int := 10

  // ---------------------------------------------------------------------------------------
  // Finding the related memories

  /** `similar_nodes.keys()`: the matched ids in the order they were entered. */
  function HitIds(hits: seq<Milvus.Hit>): (ids: seq<Key>)
    ensures |ids| == |hits| && forall i :: 0 <= i < |hits| ==> ids[i] == hits[i].id
  {
    seq(|hits|, i requires 0 <= i < |hits| => hits[i].id)
  }

  /**
   * `[f(x) for x in xs]` with its first exception raised: every result when no call raises,
   * else the error of the first call that raises.
   */
  function Collect<T, U>(xs: seq<T>, f: T -> Result<U>): (r: Result<seq<U>>)
    ensures r.Ok? ==> |r.value| == |xs|
  {
    if xs == [] then Ok([])
    else
      match Collect(xs[..|xs| - 1], f)
      case Err(e) => Err(e)
      case Ok(us) =>
        match f(xs[|xs| - 1])
        case Err(e) => Err(e)
        case Ok(u) => Ok(us + [u])
  }

  /**
   * What `Collect` returns: every result, in order, when no call raises; otherwise the
   * error of the first call that raises.
   */
  lemma {:induction false} CollectMeaning<T, U>(xs: seq<T>, f: T -> Result<U>)
    ensures Collect(xs, f).Ok? <==> forall i :: 0 <= i < |xs| ==> f(xs[i]).Ok?
    ensures Collect(xs, f).Ok? ==> forall i :: 0 <= i < |xs| ==> Collect(xs, f).value[i] == f(xs[i]).value
    ensures Collect(xs, f).Err? ==>
              exists i :: 0 <= i < |xs| && f(xs[i]) == Err(Collect(xs, f).error)
                          && forall j :: 0 <= j < i ==> f(xs[j]).Ok?
  {
    if xs != [] {
      var init := xs[..|xs| - 1];
      CollectMeaning(init, f);
      assert forall i :: 0 <= i < |init| ==> init[i] == xs[i];
    }
  }

  /** Once a prefix of the calls has raised, the later calls do not matter. */
  lemma {:induction false} CollectPrefixError<T, U>(xs: seq<T>, n: nat, f: T -> Result<U>)
    requires n <= |xs| && Collect(xs[..n], f).Err?
    ensures Collect(xs, f) == Collect(xs[..n], f)
    decreases |xs| - n
  {
    if n < |xs| {
      assert xs[..n + 1][..n] == xs[..n];
      CollectPrefixError(xs, n + 1, f);
    } else {
      assert xs[..n] == xs;
    }
  }

  /**
   * `for idx, d in enumerate(ds[i:], i + 1)` over a state: each step gives the next state and a
   * note; the first exception ends the loop. The result is the final state, the notes of the
   * steps that completed, and the exception, if any.
   */
  function RunSteps<S, D, N>(step: (nat, D, S) -> (S, Result<N>), ds: seq<D>, i: nat, s: S)
    : (r: (S, seq<N>, Result<()>))
    ensures i <= |ds| ==> |r.1| <= |ds| - i && (r.2.Ok? <==> |r.1| == |ds| - i)
    decreases |ds| - i
  {
    if i >= |ds| then (s, [], Ok(()))
    else
      var t := step(i + 1, ds[i], s);
      if t.1.Err? then (t.0, [], Err(t.1.error))
      else
        var rest := RunSteps(step, ds, i + 1, t.0);
        (rest.0, [t.1.value] + rest.1, rest.2)
  }

  /** The notes already taken, put before the outcome of the rest of the loop. */
  function After<S, N>(notes: seq<N>, rest: (S, seq<N>, Result<()>)): (S, seq<N>, Result<()>) {
    (rest.0, notes + rest.1, rest.2)
  }

  lemma RunStepsStart<S, D, N>(step: (nat, D, S) -> (S, Result<N>), ds: seq<D>, s: S)
    ensures After([], RunSteps(step, ds, 0, s)) == RunSteps(step, ds, 0, s)
  {
    assert [] + RunSteps(step, ds, 0, s).1 == RunSteps(step, ds, 0, s).1;
  }

  lemma RunStepsEnd<S, D, N>(step: (nat, D, S) -> (S, Result<N>), ds: seq<D>, s: S, notes: seq<N>)
    ensures After(notes, RunSteps(step, ds, |ds|, s)) == (s, notes, Ok(()))
  {
    assert notes + [] == notes;
  }

  /** How the loop advances by one step, given the outcome of that step. */
  lemma RunStepsAdvance<S, D, N>(step: (nat, D, S) -> (S, Result<N>), ds: seq<D>, i: nat, s: S,
                                 notes: seq<N>, s1: S, note: Result<N>)
    requires i < |ds| && step(i + 1, ds[i], s) == (s1, note)
    ensures note.Err? ==> After(notes, RunSteps(step, ds, i, s)) == (s1, notes, Err(note.error))
    ensures note.Ok? ==> After(notes, RunSteps(step, ds, i, s))
                         == After(notes + [note.value], RunSteps(step, ds, i + 1, s1))
  {
    if note.Ok? {
      var rest := RunSteps(step, ds, i + 1, s1);
      assert notes + ([note.value] + rest.1) == (notes + [note.value]) + rest.1;
    } else {
      assert notes + [] == notes;
    }
  }

  /** One more call that does not raise extends the results. */
  lemma CollectNext<T, U>(xs: seq<T>, i: nat, f: T -> Result<U>, us: seq<U>)
    requires i < |xs| && Collect(xs[..i], f) == Ok(us) && f(xs[i]).Ok?
    ensures Collect(xs[..i + 1], f) == Ok(us + [f(xs[i]).value])
  {
    assert xs[..i + 1][..i] == xs[..i];
  }

  /** The first call that raises decides the outcome of the whole list. */
  lemma CollectStop<T, U>(xs: seq<T>, i: nat, f: T -> Result<U>)
    requires i < |xs| && Collect(xs[..i], f).Ok? && f(xs[i]).Err?
    ensures Collect(xs, f) == Err(f(xs[i]).error)
  {
    assert xs[..i + 1][..i] == xs[..i];
    CollectPrefixError(xs, i + 1, f);
  }

  /** `get_memory_details` on the rows `nodes`, as a value. */
  function DetailsOf(nodes: map<Key, Postgres.Row>): Key -> Result<Memory> {
    (id: Key) => Postgres.MemoryDetails(nodes, id)
  }

  /** `[get_memory_details(id) for id in ids]` */
  function Fetched(ids: seq<Key>, nodes: map<Key, Postgres.Row>): (r: Result<seq<Memory>>) {
    Collect(ids, DetailsOf(nodes))
  }

  method FetchMemories(ids: seq<Key>, records: Postgres.RecordStore) returns (r: Result<seq<Memory>>)
    ensures r == Fetched(ids, records.nodes)
  {
    var nodes := records.nodes;
    var ms: seq<Memory> := [];
    for i := 0 to |ids|
      invariant Fetched(ids[..i], nodes) == Ok(ms)
    {
      var memory := records.GetMemoryDetails(ids[i]);
      if memory.Err? {
        CollectStop(ids, i, DetailsOf(nodes));
        return Err(memory.error);
      }
      CollectNext(ids, i, DetailsOf(nodes), ms);
      ms := ms + [memory.value];
    }
    assert ids[..|ids|] == ids;
    r := Ok(ms);
  }

  /** The memories as the language model is shown them: renumbered 0..n-1. */
  function Renumbered(ms: seq<Memory>): (shown: seq<Memory>)
    ensures |shown| == |ms|
    ensures forall i :: 0 <= i < |ms| ==> shown[i] == Memory(Int(i), ms[i].content, ms[i].createdAt)
  {
    seq(|ms|, i requires 0 <= i < |ms| => ms[i].(id := Int(i)))
  }

  /** `normalize_memories` on a fresh list holding `ms`. */
  method ShowMemories(ms: seq<Memory>) returns (shown: seq<Memory>, mapping: map<Key, Key>)
    ensures shown == Renumbered(ms) && mapping == MappingOf(Ids(ms))
  {
    var list := new Memory[|ms|](i requires 0 <= i < |ms| => ms[i]);
    assert list[..] == ms;
    mapping := NormalizeMemories(list);
    shown := list[..];
  }

  /**
   * `search_relevent_nodes_by_embeddings(get_embeddings(text), minTopK)`: the search with at
   * least `minTopK` results and the 0.75 threshold. A batch without a query vector has no
   * per-query result list, so `results[0]` raises IndexError.
   */
  function SearchHits(o: Oracles, text: string, minTopK: int): (r: Result<seq<Milvus.Hit>>)
    ensures r.Err? <==> o.embed(text) == []
    ensures r.Err? ==> r.error == IndexError
  {
    if o.embed(text) == [] then Err(IndexError)
    else Ok(Milvus.SearchResult(o.rank(o.embed(text)), minTopK, Milvus.DefaultThreshold))
  }

  /** The existing memories a search for `text` finds: the record of each matched id, in order. */
  function Neighbours(o: Oracles, text: string, minTopK: int, nodes: map<Key, Postgres.Row>)
    : (r: Result<seq<Memory>>)
    ensures o.embed(text) == [] ==> r == Err(IndexError)
  {
    match SearchHits(o, text, minTopK)
    case Err(e) => Err(e)
    case Ok(hits) => Fetched(HitIds(hits), nodes)
  }

  /**
   * The related-memories part of an insertion or an addition: the embedding batch of
   * `content`, and the ids the model relates it to. The ids are translated back only when
   * some neighbour was found; otherwise they are used as the model gave them.
   */
  function RelatedSpec(o: Oracles, v: Variant, content: string, nodes: map<Key, Postgres.Row>)
    : (r: Result<(seq<Milvus.Vector>, seq<Key>)>)
    ensures r.Ok? ==> r.value.0 == o.embed(content)
  {
    match Neighbours(o, content, Milvus.DefaultMinTopK, nodes)
    case Err(e) => Err(e)
    case Ok(ms) =>
      match ChatUtils.ProcessThinkingResponse(o.relate(content, Renumbered(ms)), o.decodeRelation)
      case Err(e) => Err(e)
      case Ok(reply) => Ok((o.embed(content), if |ms| > 0 then Denormalize(reply.1, BackMapping(v, ms)) else reply.1))
  }

  method RelatedMemories(o: Oracles, v: Variant, content: string, records: Postgres.RecordStore)
    returns (r: Result<(seq<Milvus.Vector>, seq<Key>)>)
    ensures r == RelatedSpec(o, v, content, records.nodes)
  {
    var embeddings := o.embed(content);
    if embeddings == [] {
      return Err(IndexError);
    }
    var hits := Milvus.SearchRelevantNodes(o.rank(embeddings), Milvus.DefaultMinTopK, Milvus.DefaultThreshold);
    var fetched := FetchMemories(HitIds(hits), records);
    if fetched.Err? {
      return Err(fetched.error);
    }
    var ms := fetched.value;
    var shown: seq<Memory> := [];
    var mapping: map<Key, Key> := map[];
    if |ms| > 0 {
      shown, mapping := ShowMemories(ms);
    }
    var reply := ChatUtils.ProcessThinkingResponse(o.relate(content, shown), o.decodeRelation);
    if reply.Err? {
      return Err(reply.error);
    }
    var related := reply.value.1;
    if |ms| > 0 {
      var back := if v.AsWritten? then mapping else IndexToId(Ids(ms));
      related := Denormalize(related, back);
    }
    return Ok((embeddings, related));
  }

  // ---------------------------------------------------------------------------------------
  // Step 2: one decision per generated memory

  /**
   * `handle_decision(new_memory_text)`: the neighbours (at least ten), their renumbering,
   * the decision model's reply and the translation of the ids it names.
   */
  function DecisionSpec(o: Oracles, v: Variant, text: string, nodes: map<Key, Postgres.Row>)
    : (r: Result<Decision>)
  {
    match Neighbours(o, text, DecisionMinTopK, nodes)
    case Err(e) => Err(e)
    case Ok(ms) =>
      match ChatUtils.ProcessThinkingResponse(o.decide(text, Renumbered(ms)), o.decodeDecision)
      case Err(e) => Err(e)
      case Ok(reply) => HandleDecision(reply.1, BackMapping(v, ms))
  }

  /** `handle_decision` on the rows `nodes`, as a value. */
  function DecisionOf(o: Oracles, v: Variant, nodes: map<Key, Postgres.Row>): string -> Result<Decision> {
    (t: string) => DecisionSpec(o, v, t, nodes)
  }

  /** The decisions for all generated memories, or the first error raised. */
  function DecisionsSpec(o: Oracles, v: Variant, texts: seq<string>, nodes: map<Key, Postgres.Row>)
    : (r: Result<seq<Decision>>)
  {
    Collect(texts, DecisionOf(o, v, nodes))
  }

  method Decide(o: Oracles, v: Variant, text: string, records: Postgres.RecordStore)
    returns (r: Result<Decision>)
    ensures r == DecisionSpec(o, v, text, records.nodes)
  {
    var embeddings := o.embed(text);
    if embeddings == [] {
      return Err(IndexError);
    }
    var similar := Milvus.SearchRelevantNodes(o.rank(embeddings), DecisionMinTopK, Milvus.DefaultThreshold);
    var fetched := FetchMemories(HitIds(similar), records);
    if fetched.Err? {
      return Err(fetched.error);
    }
    var shown, mapping := ShowMemories(fetched.value);
    var reply := ChatUtils.ProcessThinkingResponse(o.decide(text, shown), o.decodeDecision);
    if reply.Err? {
      return Err(reply.error);
    }
    var back := if v.AsWritten? then mapping else IndexToId(Ids(fetched.value));
    r := HandleDecision(reply.value.1, back);
  }

  /**
   * Step 2 over all generated memories, one after the other, stopping at the first error in
   * input order (the concurrent fan-out may raise a later memory's error first).
   */
  method DecideAll(o: Oracles, v: Variant, texts: seq<string>, records: Postgres.RecordStore)
    returns (r: Result<seq<Decision>>)
    ensures r == DecisionsSpec(o, v, texts, records.nodes)
  {
    var nodes := records.nodes;
    var ds: seq<Decision> := [];
    for i := 0 to |texts|
      invariant DecisionsSpec(o, v, texts[..i], nodes) == Ok(ds)
    {
      var d := Decide(o, v, texts[i], records);
      if d.Err? {
        CollectStop(texts, i, DecisionOf(o, v, nodes));
        return Err(d.error);
      }
      CollectNext(texts, i, DecisionOf(o, v, nodes), ds);
      ds := ds + [d.value];
    }
    assert texts[..|texts|] == texts;
    r := Ok(ds);
  }

  // ---------------------------------------------------------------------------------------
  // Edges

  /** `for a, b in pairs: make_edge(a, b)`: every pair in order, each one an upsert that succeeds. */
  function LinkPairs(docs: map<Key, MongoGraph.Doc>, pairs: seq<(Key, Key)>): (r: map<Key, MongoGraph.Doc>)
    decreases |pairs|
  {
    if pairs == [] then docs
    else LinkPairs(MongoGraph.MakeEdgeDocs(docs, pairs[0].0, pairs[0].1), pairs[1..])
  }

  /** The edges of an insertion: each related id with the new id. */
  function InsertPairs(related: seq<Key>, id: Key): (pairs: seq<(Key, Key)>)
    ensures |pairs| == |related| && forall i :: 0 <= i < |related| ==> pairs[i] == (related[i], id)
  {
    seq(|related|, i requires 0 <= i < |related| => (related[i], id))
  }

  /** The edges of an addition: the updated id with each related id. */
  function AdditionPairs(id: Key, related: seq<Key>): (pairs: seq<(Key, Key)>)
    ensures |pairs| == |related| && forall i :: 0 <= i < |related| ==> pairs[i] == (id, related[i])
  {
    seq(|related|, i requires 0 <= i < |related| => (id, related[i]))
  }

  method LinkAll(pairs: seq<(Key, Key)>, graph: MongoGraph.GraphStore)
    modifies graph
    ensures graph.docs == LinkPairs(old(graph.docs), pairs)
    ensures old(graph.Valid()) ==> graph.Valid()
  {
    for i := 0 to |pairs|
      invariant LinkPairs(old(graph.docs), pairs) == LinkPairs(graph.docs, pairs[i..])
      invariant old(graph.Valid()) ==> graph.Valid()
    {
      assert pairs[i..][1..] == pairs[i + 1..];
      graph.MakeEdge(pairs[i].0, pairs[i].1);
    }
  }

  /** Every neighbour list of `before` is still listed in `after`, with all its entries. */
  predicate Grows(before: MongoGraph.Adjacency, after: MongoGraph.Adjacency) {
    forall name :: name in before ==> name in after && forall x :: x in before[name] ==> x in after[name]
  }

  /**
   * The edges `make_edge` leaves for each pair: the first end listed under the second's text
   * and, when the two texts differ, the second end under the first's. Equal texts give the
   * self-loop of the first end alone.
   */
  predicate Linked(adj: MongoGraph.Adjacency, pairs: seq<(Key, Key)>) {
    forall i :: 0 <= i < |pairs| ==>
      pairs[i].0 in MongoGraph.ListOf(adj, MongoGraph.KeyText(pairs[i].1))
      && (MongoGraph.KeyText(pairs[i].0) != MongoGraph.KeyText(pairs[i].1) ==>
            pairs[i].1 in MongoGraph.ListOf(adj, MongoGraph.KeyText(pairs[i].0)))
  }

  lemma GrowsTransitive(a: MongoGraph.Adjacency, b: MongoGraph.Adjacency, c: MongoGraph.Adjacency)
    requires Grows(a, b) && Grows(b, c)
    ensures Grows(a, c)
  {
  }

  /** One edge insertion removes nothing. */
  lemma AddEdgeGrows(adj: MongoGraph.Adjacency, a: Key, b: Key)
    ensures Grows(adj, MongoGraph.AddEdge(adj, a, b))
  {
  }

  /**
   * The edge loop removes no edge and touches no other document, and afterwards every pair
   * is linked as `make_edge` links it.
   */
  lemma LinkPairsEffect(docs: map<Key, MongoGraph.Doc>, pairs: seq<(Key, Key)>)
    ensures Grows(MongoGraph.AdjacencyOf(docs), MongoGraph.AdjacencyOf(LinkPairs(docs, pairs)))
    ensures forall k :: k in docs && k != MongoGraph.DocId ==>
              k in LinkPairs(docs, pairs) && LinkPairs(docs, pairs)[k] == docs[k]
    ensures Linked(MongoGraph.AdjacencyOf(LinkPairs(docs, pairs)), pairs)
  {
    LinkPairsKeeps(docs, pairs);
    LinkPairsLinks(docs, pairs);
  }

  lemma {:induction false} LinkPairsKeeps(docs: map<Key, MongoGraph.Doc>, pairs: seq<(Key, Key)>)
    ensures Grows(MongoGraph.AdjacencyOf(docs), MongoGraph.AdjacencyOf(LinkPairs(docs, pairs)))
    ensures forall k :: k in docs && k != MongoGraph.DocId ==>
              k in LinkPairs(docs, pairs) && LinkPairs(docs, pairs)[k] == docs[k]
    decreases |pairs|
  {
    if pairs != [] {
      var a, b := pairs[0].0, pairs[0].1;
      var step := MongoGraph.MakeEdgeDocs(docs, a, b);
      LinkPairsKeeps(step, pairs[1..]);
      AddEdgeGrows(MongoGraph.AdjacencyOf(docs), a, b);
      GrowsTransitive(MongoGraph.AdjacencyOf(docs), MongoGraph.AdjacencyOf(step),
                      MongoGraph.AdjacencyOf(LinkPairs(step, pairs[1..])));
    }
  }

  lemma {:induction false} LinkPairsLinks(docs: map<Key, MongoGraph.Doc>, pairs: seq<(Key, Key)>)
    ensures Linked(MongoGraph.AdjacencyOf(LinkPairs(docs, pairs)), pairs)
    decreases |pairs|
  {
    if pairs != [] {
      var a, b := pairs[0].0, pairs[0].1;
      var step := MongoGraph.MakeEdgeDocs(docs, a, b);
      var rest := pairs[1..];
      LinkPairsLinks(step, rest);
      LinkPairsKeeps(step, rest);
      var fin := MongoGraph.AdjacencyOf(LinkPairs(step, rest));
      MongoGraph.AddEdgeLinks(MongoGraph.AdjacencyOf(docs), a, b);
      forall i | 0 <= i < |pairs|
        ensures pairs[i].0 in MongoGraph.ListOf(fin, MongoGraph.KeyText(pairs[i].1))
                && (MongoGraph.KeyText(pairs[i].0) != MongoGraph.KeyText(pairs[i].1) ==>
                      pairs[i].1 in MongoGraph.ListOf(fin, MongoGraph.KeyText(pairs[i].0)))
      {
        if i > 0 {
          assert pairs[i] == rest[i - 1];
        }
      }
    }
  }

  // ---------------------------------------------------------------------------------------
  // Step 3: one decision

  /**
   * The vector an addition upserts. As written the whole embedding batch is sent as the
   * FLOAT_VECTOR field of the row, which Milvus rejects; corrected, it is the first vector of
   * the batch, as `insert_node` stores it.
   */
  function AdditionPayload(v: Variant, batch: seq<Milvus.Vector>): (r: Result<Milvus.Vector>)
    ensures v.AsWritten? ==> r == Err(MilvusException)
    ensures v.Corrected? ==> (r.Err? <==> batch == [])
    ensures v.Corrected? && r.Err? ==> r.error == IndexError
    ensures v.Corrected? && r.Ok? ==> r.value == batch[0]
  {
    if v.AsWritten? then Err(MilvusException)
    else if batch == [] then Err(IndexError)
    else Ok(batch[0])
  }

  /**
   * An insertion: the related ids, then a new record with a fresh uuid, then its vector
   * under the same id, then one edge between each related id and the new id. An exception
   * ends the step and leaves what was already written.
   */
  function InsertStep(o: Oracles, v: Variant, idx: nat, content: string, w: World): (r: (World, Result<Note>))
  {
    match RelatedSpec(o, v, content, w.nodes)
    case Err(e) => (w, Err(e))
    case Ok(rel) => InsertWith(o.uuid(idx), o.now(idx), content, rel, w)
  }

  /** The stores' part of an insertion, once the related memories are known. */
  function InsertWith(uuid: string, now: string, content: string, rel: (seq<Milvus.Vector>, seq<Key>), w: World)
    : (r: (World, Result<Note>))
  {
    var ins := Postgres.InsertRow(w.nodes, content, uuid, now);
    if ins.1.Err? then (w, Err(ins.1.error))
    else
      var id := ins.1.value;
      var w1 := w.(nodes := ins.0);
      match Milvus.InsertedRows(w.rows, id, rel.0)
      case Err(e) => (w1, Err(e))
      case Ok(rows) =>
        (w1.(rows := rows, docs := LinkPairs(w.docs, InsertPairs(rel.1, id))), Ok(Inserted(id, |rel.1|)))
  }

  /**
   * One updated memory of an addition: the related ids of its new content, then the update
   * of its record, then the upsert of its vector, then one edge between it and each related id.
   */
  function UpdateStep(o: Oracles, v: Variant, u: UpdatedMemory, w: World): (r: (World, Result<()>))
  {
    match RelatedSpec(o, v, u.content, w.nodes)
    case Err(e) => (w, Err(e))
    case Ok(rel) => UpdateWith(v, u, rel, w)
  }

  /** The stores' part of an update, once the related memories of its new content are known. */
  function UpdateWith(v: Variant, u: UpdatedMemory, rel: (seq<Milvus.Vector>, seq<Key>), w: World)
    : (r: (World, Result<()>))
  {
    var up := Postgres.UpdateRow(w.nodes, u.memoryId, u.content);
    if up.1.Err? then (w, up.1)
    else
      var w1 := w.(nodes := up.0);
      match AdditionPayload(v, rel.0)
      case Err(e) => (w1, Err(e))
      case Ok(vector) =>
        (w1.(rows := Milvus.Upserted(w.rows, u.memoryId, vector),
             docs := LinkPairs(w.docs, AdditionPairs(u.memoryId, rel.1))), Ok(()))
  }

  /** The updated memories of an addition, in order, stopping at the first exception. */
  function UpdateSteps(o: Oracles, v: Variant, us: seq<UpdatedMemory>, w: World): (r: (World, Result<()>))
    decreases |us|
  {
    if us == [] then (w, Ok(()))
    else
      var step := UpdateStep(o, v, us[0], w);
      if step.1.Err? then step else UpdateSteps(o, v, us[1..], step.0)
  }

  /**
   * One decision of step 3. Merge conflicts, temporal conflicts and ignored memories change
   * no store, and an unknown action is only reported.
   */
  function Step(o: Oracles, v: Variant, idx: nat, d: Decision, w: World): (r: (World, Result<Note>))
    ensures d.MergeConflict? ==> r == (w, Ok(MergeDeferred))
    ensures d.ResolveTemporalConflict? ==> r == (w, Ok(TemporalDeferred))
    ensures d.Ignore? ==> r == (w, Ok(Ignored))
    ensures d.Unknown? ==> r == (w, Ok(UnknownAction(d.action)))
    ensures d.Insert? ==> r == InsertStep(o, v, idx, d.content, w)
    ensures d.AdditionToExisting? ==>
              r.0 == UpdateSteps(o, v, d.updatedMemories, w).0
              && (r.1.Ok? <==> UpdateSteps(o, v, d.updatedMemories, w).1.Ok?)
  {
    match d
    case Insert(content) => InsertStep(o, v, idx, content, w)
    case MergeConflict(_) => (w, Ok(MergeDeferred))
    case ResolveTemporalConflict(_) => (w, Ok(TemporalDeferred))
    case AdditionToExisting(us) =>
      var s := UpdateSteps(o, v, us, w);
      (s.0, if s.1.Ok? then Ok(Added(|us|)) else Err(s.1.error))
    case Ignore => (w, Ok(Ignored))
    case Unknown(action) => (w, Ok(UnknownAction(action)))
  }

  /** `Step` as a value, for the loop over the decisions. */
  function StepOf(o: Oracles, v: Variant): (nat, Decision, World) -> (World, Result<Note>) {
    (idx: nat, d: Decision, w: World) => Step(o, v, idx, d, w)
  }

  /**
   * Step 3 from the i-th decision on (`enumerate(decisions, 1)` numbers it i + 1): the final
   * state, the notes of the decisions handled, and the exception that ended the loop, if any.
   */
  function Steps(o: Oracles, v: Variant, ds: seq<Decision>, i: nat, w: World)
    : (r: (World, seq<Note>, Result<()>))
  {
    RunSteps(StepOf(o, v), ds, i, w)
  }

  // ---------------------------------------------------------------------------------------
  // Step 3 on the stores

  method ExecuteInsert(o: Oracles, v: Variant, idx: nat, content: string, records: Postgres.RecordStore,
                       vectors: Milvus.VectorStore, graph: MongoGraph.GraphStore) returns (r: Result<Note>)
    requires records.Valid()
    modifies records, vectors, graph
    ensures records.Valid() && (old(graph.Valid()) ==> graph.Valid())
    ensures (World(records.nodes, vectors.rows, graph.docs), r)
            == InsertStep(o, v, idx, content, old(World(records.nodes, vectors.rows, graph.docs)))
    ensures records.tags == old(records.tags) && records.nodesTags == old(records.nodesTags)
  {
    var rel := RelatedMemories(o, v, content, records);
    if rel.Err? {
      return Err(rel.error);
    }
    r := ApplyInsert(o.uuid(idx), o.now(idx), content, rel.value, records, vectors, graph);
  }

  /** The stores' part of `ExecuteInsert`, once the related memories are known. */
  method ApplyInsert(uuid: string, now: string, content: string, rel: (seq<Milvus.Vector>, seq<Key>),
                     records: Postgres.RecordStore, vectors: Milvus.VectorStore, graph: MongoGraph.GraphStore)
    returns (r: Result<Note>)
    requires records.Valid()
    modifies records, vectors, graph
    ensures records.Valid() && (old(graph.Valid()) ==> graph.Valid())
    ensures (World(records.nodes, vectors.rows, graph.docs), r)
            == InsertWith(uuid, now, content, rel, old(World(records.nodes, vectors.rows, graph.docs)))
    ensures records.tags == old(records.tags) && records.nodesTags == old(records.nodesTags)
  {
    var newId := records.InsertMemory(content, uuid, now);
    if newId.Err? {
      return Err(newId.error);
    }
    var stored := vectors.InsertNode(newId.value, rel.0);
    if stored.Err? {
      return Err(stored.error);
    }
    LinkAll(InsertPairs(rel.1, newId.value), graph);
    return Ok(Inserted(newId.value, |rel.1|));
  }

  method ExecuteUpdate(o: Oracles, v: Variant, u: UpdatedMemory, records: Postgres.RecordStore,
                       vectors: Milvus.VectorStore, graph: MongoGraph.GraphStore) returns (r: Result<()>)
    requires records.Valid()
    modifies records, vectors, graph
    ensures records.Valid() && (old(graph.Valid()) ==> graph.Valid())
    ensures (World(records.nodes, vectors.rows, graph.docs), r)
            == UpdateStep(o, v, u, old(World(records.nodes, vectors.rows, graph.docs)))
    ensures records.tags == old(records.tags) && records.nodesTags == old(records.nodesTags)
  {
    var rel := RelatedMemories(o, v, u.content, records);
    if rel.Err? {
      return Err(rel.error);
    }
    r := ApplyUpdate(v, u, rel.value, records, vectors, graph);
  }

  /** The stores' part of `ExecuteUpdate`, once the related memories are known. */
  method ApplyUpdate(v: Variant, u: UpdatedMemory, rel: (seq<Milvus.Vector>, seq<Key>),
                     records: Postgres.RecordStore, vectors: Milvus.VectorStore, graph: MongoGraph.GraphStore)
    returns (r: Result<()>)
    requires records.Valid()
    modifies records, vectors, graph
    ensures records.Valid() && (old(graph.Valid()) ==> graph.Valid())
    ensures (World(records.nodes, vectors.rows, graph.docs), r)
            == UpdateWith(v, u, rel, old(World(records.nodes, vectors.rows, graph.docs)))
    ensures records.tags == old(records.tags) && records.nodesTags == old(records.nodesTags)
  {
    var updated := records.UpdateMemory(u.memoryId, u.content);
    if updated.Err? {
      return updated;
    }
    var payload := AdditionPayload(v, rel.0);
    if payload.Err? {
      return Err(payload.error);
    }
    vectors.UpdateEmbeddings(u.memoryId, payload.value);
    LinkAll(AdditionPairs(u.memoryId, rel.1), graph);
    r := Ok(());
  }

  method ExecuteAddition(o: Oracles, v: Variant, us: seq<UpdatedMemory>, records: Postgres.RecordStore,
                         vectors: Milvus.VectorStore, graph: MongoGraph.GraphStore) returns (r: Result<()>)
    requires records.Valid()
    modifies records, vectors, graph
    ensures records.Valid() && (old(graph.Valid()) ==> graph.Valid())
    ensures (World(records.nodes, vectors.rows, graph.docs), r)
            == UpdateSteps(o, v, us, old(World(records.nodes, vectors.rows, graph.docs)))
    ensures records.tags == old(records.tags) && records.nodesTags == old(records.nodesTags)
  {
    for i := 0 to |us|
      invariant records.Valid() && (old(graph.Valid()) ==> graph.Valid())
      invariant UpdateSteps(o, v, us, old(World(records.nodes, vectors.rows, graph.docs)))
                == UpdateSteps(o, v, us[i..], World(records.nodes, vectors.rows, graph.docs))
      invariant records.tags == old(records.tags) && records.nodesTags == old(records.nodesTags)
    {
      assert us[i..][1..] == us[i + 1..];
      var done := ExecuteUpdate(o, v, us[i], records, vectors, graph);
      if done.Err? {
        return done;
      }
    }
    r := Ok(());
  }

  method ExecuteDecision(o: Oracles, v: Variant, idx: nat, d: Decision, records: Postgres.RecordStore,
                         vectors: Milvus.VectorStore, graph: MongoGraph.GraphStore) returns (r: Result<Note>)
    requires records.Valid()
    modifies records, vectors, graph
    ensures records.Valid() && (old(graph.Valid()) ==> graph.Valid())
    ensures (World(records.nodes, vectors.rows, graph.docs), r)
            == Step(o, v, idx, d, old(World(records.nodes, vectors.rows, graph.docs)))
    ensures records.tags == old(records.tags) && records.nodesTags == old(records.nodesTags)
  {
    match d
    case Insert(content) =>
      r := ExecuteInsert(o, v, idx, content, records, vectors, graph);
    case MergeConflict(_) =>
      r := Ok(MergeDeferred);
    case ResolveTemporalConflict(_) =>
      r := Ok(TemporalDeferred);
    case AdditionToExisting(us) =>
      var done := ExecuteAddition(o, v, us, records, vectors, graph);
      r := if done.Ok? then Ok(Added(|us|)) else Err(done.error);
    case Ignore =>
      r := Ok(Ignored);
    case Unknown(action) =>
      r := Ok(UnknownAction(action));
  }

  /** Step 3: every decision in order; an exception ends the loop. */
  method ExecuteDecisions(o: Oracles, v: Variant, ds: seq<Decision>, records: Postgres.RecordStore,
                          vectors: Milvus.VectorStore, graph: MongoGraph.GraphStore)
    returns (notes: seq<Note>, r: Result<()>)
    requires records.Valid()
    modifies records, vectors, graph
    ensures records.Valid() && (old(graph.Valid()) ==> graph.Valid())
    ensures (World(records.nodes, vectors.rows, graph.docs), notes, r)
            == Steps(o, v, ds, 0, old(World(records.nodes, vectors.rows, graph.docs)))
    ensures records.tags == old(records.tags) && records.nodesTags == old(records.nodesTags)
  {
    notes := [];
    RunStepsStart(StepOf(o, v), ds, World(records.nodes, vectors.rows, graph.docs));
    for i := 0 to |ds|
      invariant records.Valid() && (old(graph.Valid()) ==> graph.Valid())
      invariant Steps(o, v, ds, 0, old(World(records.nodes, vectors.rows, graph.docs)))
                == After(notes, RunSteps(StepOf(o, v), ds, i, World(records.nodes, vectors.rows, graph.docs)))
      invariant records.tags == old(records.tags) && records.nodesTags == old(records.nodesTags)
    {
      ghost var w := World(records.nodes, vectors.rows, graph.docs);
      var note := ExecuteDecision(o, v, i + 1, ds[i], records, vectors, graph);
      RunStepsAdvance(StepOf(o, v), ds, i, w, notes, World(records.nodes, vectors.rows, graph.docs), note);
      if note.Err? {
        return notes, Err(note.error);
      }
      notes := notes + [note.value];
    }
    RunStepsEnd(StepOf(o, v), ds, World(records.nodes, vectors.rows, graph.docs), notes);
    r := Ok(());
  }
}
