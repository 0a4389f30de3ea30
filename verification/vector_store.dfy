/**
 * The vector store (a Milvus collection of `node_id` / `embedding` rows) and
 * `search_relevent_nodes_by_embeddings`, which turns the ranked hits of a similarity
 * search into an ordered dictionary from node id to score.
 */
module Milvus {
  import opened Wrappers
  import opened Models
  import Seqs

  type Vector = seq<real>

  /** One search hit, or one entry of the ordered result dictionary: a node id and its score. */
  datatype Hit = Hit(id: Key, score: int)

  /** The search asks Milvus for at most this many hits. */
  const SearchLimit: nat := 1000
  /** Defaults of `search_relevent_nodes_by_embeddings`; scores are in hundredths, so 0.75 is 75. */
  const DefaultMinTopK: int := 5
  const DefaultThreshold: int := 75

  // ---------------------------------------------------------------------------------------
  // Ordered dictionaries as sequences of entries with distinct ids

  function Ids(d: seq<Hit>): set<Key> {
    set h | h in d :: h.id
  }

  predicate DistinctIds(d: seq<Hit>) {
    forall i, j :: 0 <= i < j < |d| ==> d[i].id != d[j].id
  }

  /** The position of `id` in `d`, if it is a key. */
  function IndexOf(d: seq<Hit>, id: Key): (r: Option<nat>)
    ensures r.Some? ==> r.value < |d| && d[r.value].id == id
    ensures r.None? <==> id !in Ids(d)
  {
    if d == [] then None
    else if d[|d| - 1].id == id then Some(|d| - 1)
    else
      var r := IndexOf(d[..|d| - 1], id);
      assert Ids(d) == Ids(d[..|d| - 1]) + {d[|d| - 1].id} by {
        assert d == d[..|d| - 1] + [d[|d| - 1]];
      }
      r
  }

  /** `d[id] = score` on a Python dictionary: an existing key keeps its place, a new one goes last. */
  function DictSet(d: seq<Hit>, h: Hit): (r: seq<Hit>)
    ensures Ids(r) == Ids(d) + {h.id}
    ensures DistinctIds(d) ==> DistinctIds(r)
    ensures h in r
  {
    match IndexOf(d, h.id)
    case Some(i) =>
      var r := d[i := h];
      assert r[i] == h;
      assert Ids(r) == Ids(d) by {
        forall x | x in Ids(d) ensures x in Ids(r) {
          var k :| 0 <= k < |d| && d[k].id == x;
          assert r[k].id == x;
        }
      }
      r
    case None => d + [h]
  }

  /** The score `d` holds for `id`. */
  function Get(d: seq<Hit>, id: Key): int
    requires id in Ids(d)
  {
    d[IndexOf(d, id).value].score
  }

  // ---------------------------------------------------------------------------------------
  // The specification of the search

  /** The hits the search considers: the first `SearchLimit`. */
  function Considered(hits: seq<Hit>): (r: seq<Hit>)
    ensures |r| <= SearchLimit && |r| <= |hits| && r == hits[..|r|]
    ensures |hits| <= SearchLimit ==> r == hits
  {
    if |hits| <= SearchLimit then hits else hits[..SearchLimit]
  }

  /** The first loop: every hit scoring at least `threshold` is entered, in order. */
  function Passing(hits: seq<Hit>, threshold: int): seq<Hit>
  {
    if hits == [] then []
    else
      var d := Passing(hits[..|hits| - 1], threshold);
      var h := hits[|hits| - 1];
      if h.score >= threshold then DictSet(d, h) else d
  }

  /** The second loop: the hits in `hs` whose id is not yet a key are appended, in order. */
  function Fill(d: seq<Hit>, hs: seq<Hit>): seq<Hit>
  {
    if hs == [] then d
    else
      var r := Fill(d, hs[..|hs| - 1]);
      var h := hs[|hs| - 1];
      if h.id in Ids(r) then r else r + [h]
  }

  /** `results[0][:min_top_k]`: a negative bound counts from the end, as Python slices. */
  function Head(hits: seq<Hit>, k: int): (r: seq<Hit>)
    ensures |r| <= |hits| && r == hits[..|r|]
    ensures k >= 0 ==> |r| == (if k < |hits| then k else |hits|)
    ensures k < 0 ==> |r| == (if |hits| + k > 0 then |hits| + k else 0)
  {
    if k >= 0 then (if k < |hits| then hits[..k] else hits)
    else if |hits| + k > 0 then hits[..|hits| + k] else []
  }

  /** What the search returns for the ranked `hits` Milvus produced. */
  function SearchResult(hits: seq<Hit>, minTopK: int, threshold: int): seq<Hit> {
    var c := Considered(hits);
    var d := Passing(c, threshold);
    if |d| < minTopK then Fill(d, Head(c, minTopK)) else d
  }

  /**
   * `search_relevent_nodes_by_embeddings` on the ranked hits of the similarity search (the
   * search itself, an approximate nearest-neighbour query, is an input): a threshold pass
   * over the first 1000 hits, then a back-fill from the first `minTopK` hits when fewer than
   * `minTopK` passed.
   */
  method SearchRelevantNodes(hits: seq<Hit>, minTopK: int, threshold: int) returns (matches: seq<Hit>)
    ensures matches == SearchResult(hits, minTopK, threshold)
  {
    var results := if |hits| <= SearchLimit then hits else hits[..SearchLimit];
    matches := [];
    for i := 0 to |results|
      invariant matches == Passing(results[..i], threshold)
    {
      assert results[..i + 1][..i] == results[..i];
      var hit := results[i];
      if hit.score >= threshold {
        matches := DictSet(matches, hit);
      }
    }
    assert results[..|results|] == results;
    if |matches| < minTopK {
      var passed := matches;
      var head := if minTopK < |results| then results[..minTopK] else results;
      for i := 0 to |head|
        invariant matches == Fill(passed, head[..i])
      {
        assert head[..i + 1][..i] == head[..i];
        var hit := head[i];
        if hit.id !in Ids(matches) {
          matches := matches + [hit];
        }
      }
      assert head[..|head|] == head;
    }
  }

  // ---------------------------------------------------------------------------------------
  // Properties of the search

  lemma {:induction false} PassingShape(hits: seq<Hit>, threshold: int)
    ensures DistinctIds(Passing(hits, threshold))
    ensures Ids(Passing(hits, threshold)) == set h | h in hits && h.score >= threshold :: h.id
    ensures forall e :: e in Passing(hits, threshold) ==> e in hits && e.score >= threshold
  {
    if hits != [] {
      var init := hits[..|hits| - 1];
      PassingShape(init, threshold);
      Seqs.LastSplit(hits);
      var d := Passing(init, threshold);
      var h := hits[|hits| - 1];
      if h.score >= threshold {
        forall e | e in DictSet(d, h) ensures e in hits && e.score >= threshold {
          match IndexOf(d, h.id)
          case Some(i) =>
            var k :| 0 <= k < |DictSet(d, h)| && DictSet(d, h)[k] == e;
          case None =>
        }
      }
    }
  }

  lemma {:induction false} FillShape(d: seq<Hit>, hs: seq<Hit>)
    requires DistinctIds(d)
    ensures DistinctIds(Fill(d, hs))
    ensures Ids(Fill(d, hs)) == Ids(d) + set h | h in hs :: h.id
    ensures |d| <= |Fill(d, hs)| && d == Fill(d, hs)[..|d|]
    ensures forall e :: e in Fill(d, hs) ==> e in d || e in hs
  {
    if hs != [] {
      var init := hs[..|hs| - 1];
      FillShape(d, init);
      Seqs.LastSplit(hs);
      var r := Fill(d, init);
      assert (r + [hs[|hs| - 1]])[..|d|] == r[..|d|];
      assert (set h | h in hs :: h.id) == (set h | h in init :: h.id) + {hs[|hs| - 1].id};
    }
  }

  /** The result's ids are distinct: it is a dictionary. */
  lemma ResultDistinct(hits: seq<Hit>, minTopK: int, threshold: int)
    ensures DistinctIds(SearchResult(hits, minTopK, threshold))
  {
    var c := Considered(hits);
    PassingShape(c, threshold);
    FillShape(Passing(c, threshold), Head(c, minTopK));
  }

  /**
   * Every considered hit that meets the threshold is a key of the result, and every entry
   * of the result comes from a considered hit; empty hits give an empty result.
   */
  lemma ResultMembers(hits: seq<Hit>, minTopK: int, threshold: int)
    ensures forall h :: h in Considered(hits) && h.score >= threshold ==>
              h.id in Ids(SearchResult(hits, minTopK, threshold))
    ensures forall e :: e in SearchResult(hits, minTopK, threshold) ==> e in Considered(hits)
    ensures hits == [] ==> SearchResult(hits, minTopK, threshold) == []
  {
    var c := Considered(hits);
    PassingShape(c, threshold);
    FillShape(Passing(c, threshold), Head(c, minTopK));
    forall e | e in Head(c, minTopK) ensures e in c {
      var k :| 0 <= k < |Head(c, minTopK)| && Head(c, minTopK)[k] == e;
      assert c[k] == e;
    }
  }

  /**
   * Back-fill: when fewer than `minTopK` ids pass, each of the first `minTopK` hits' ids is
   * in the result, and the passing entries keep their place and their score.
   */
  lemma BackfillKeepsMatches(hits: seq<Hit>, minTopK: int, threshold: int)
    requires |Passing(Considered(hits), threshold)| < minTopK
    ensures forall h :: h in Head(Considered(hits), minTopK) ==>
              h.id in Ids(SearchResult(hits, minTopK, threshold))
    ensures Passing(Considered(hits), threshold)
            <= SearchResult(hits, minTopK, threshold)
  {
    var c := Considered(hits);
    PassingShape(c, threshold);
    FillShape(Passing(c, threshold), Head(c, minTopK));
  }

  /** With at least `minTopK` passing ids, the result is exactly the threshold pass. */
  lemma EnoughMatches(hits: seq<Hit>, minTopK: int, threshold: int)
    requires |Passing(Considered(hits), threshold)| >= minTopK
    ensures Ids(SearchResult(hits, minTopK, threshold))
            == set h | h in Considered(hits) && h.score >= threshold :: h.id
  {
    PassingShape(Considered(hits), threshold);
  }

  predicate SortedDescending(hits: seq<Hit>) {
    forall i, j :: 0 <= i < j < |hits| ==> hits[i].score >= hits[j].score
  }

  lemma {:induction false} PassingSortedPrefix(hits: seq<Hit>, threshold: int)
    requires SortedDescending(hits) && DistinctIds(hits)
    ensures Passing(hits, threshold) <= hits
    ensures forall i :: |Passing(hits, threshold)| <= i < |hits| ==> hits[i].score < threshold
  {
    if hits != [] {
      var init := hits[..|hits| - 1];
      assert forall i :: 0 <= i < |init| ==> init[i] == hits[i];
      PassingSortedPrefix(init, threshold);
      Seqs.LastSplit(hits);
      PrefixStep(init, hits[|hits| - 1], Passing(init, threshold), threshold);
    }
  }

  /** One step of the threshold pass over sorted, distinct hits keeps the result a prefix. */
  lemma PrefixStep(init: seq<Hit>, h: Hit, d: seq<Hit>, threshold: int)
    requires SortedDescending(init + [h]) && DistinctIds(init + [h])
    requires d <= init && (|d| == |init| || init[|d|].score < threshold)
    requires forall i :: |d| <= i < |init| ==> init[i].score < threshold
    ensures var r := if h.score >= threshold then DictSet(d, h) else d;
            r <= init + [h] && forall i :: |r| <= i < |init + [h]| ==> (init + [h])[i].score < threshold
  {
    var hits := init + [h];
    if h.score >= threshold {
      assert forall i :: 0 <= i < |init| ==> init[i].score >= threshold by {
        forall i | 0 <= i < |init| ensures init[i].score >= threshold {
          assert hits[i].score >= hits[|init|].score;
        }
      }
      assert d == init;
      forall k | 0 <= k < |init| ensures init[k].id != h.id {
        assert hits[k].id != hits[|init|].id;
      }
      NewKeyAppends(init, h);
    } else {
      forall i | |d| <= i < |hits| ensures hits[i].score < threshold {
        if i < |init| {
          assert init[i] == hits[i];
        }
      }
    }
  }

  /** Setting a key the dictionary does not hold appends the entry. */
  lemma NewKeyAppends(d: seq<Hit>, h: Hit)
    requires forall k :: 0 <= k < |d| ==> d[k].id != h.id
    ensures DictSet(d, h) == d + [h]
  {
    assert h.id !in Ids(d);
  }

  lemma {:induction false} FillSortedPrefix(hs: seq<Hit>, p: nat)
    requires DistinctIds(hs) && p <= |hs|
    ensures Fill(hs[..p], hs) == hs
  {
    if p < |hs| {
      var init := hs[..|hs| - 1];
      FillSortedPrefix(init, p);
      assert init[..p] == hs[..p];
      var h := hs[|hs| - 1];
      forall k | 0 <= k < |init| ensures init[k].id != h.id {
        assert hs[k].id != hs[|hs| - 1].id;
      }
      assert h.id !in Ids(init);
      Seqs.LastSplit(hs);
    } else {
      assert hs[..p] == hs;
      FillPresent(hs, hs);
    }
  }

  /** Filling with hits already present changes nothing. */
  lemma {:induction false} FillPresent(d: seq<Hit>, hs: seq<Hit>)
    requires forall h :: h in hs ==> h.id in Ids(d)
    ensures Fill(d, hs) == d
  {
    if hs != [] {
      FillPresent(d, hs[..|hs| - 1]);
      assert hs[|hs| - 1] in hs;
    }
  }

  /**
   * The doc-comment's promise: when the hits come ordered by decreasing score with distinct
   * ids, the result, in insertion order, is a prefix of the hits.
   */
  lemma ResultIsPrefix(hits: seq<Hit>, minTopK: int, threshold: int)
    requires SortedDescending(hits) && DistinctIds(hits)
    ensures SearchResult(hits, minTopK, threshold) <= hits
  {
    var c := Considered(hits);
    PassingSortedPrefix(c, threshold);
    var d := Passing(c, threshold);
    if |d| < minTopK {
      var head := Head(c, minTopK);
      if |d| <= |head| {
        assert d == head[..|d|];
        FillSortedPrefix(head, |d|);
      } else {
        FillPresent(d, head);
      }
    }
  }

  // ---------------------------------------------------------------------------------------
  // The collection

  /** Rows with the given node id. */
  function RowsWith(rows: seq<(Key, Vector)>, id: Key): (r: seq<(Key, Vector)>)
    ensures |r| <= |rows|
    ensures forall x :: x in r <==> x in rows && x.0 == id
  {
    if rows == [] then []
    else RowsWith(rows[..|rows| - 1], id) + (if rows[|rows| - 1].0 == id then [rows[|rows| - 1]] else [])
  }

  /** Rows with any other node id. */
  function RowsWithout(rows: seq<(Key, Vector)>, id: Key): (r: seq<(Key, Vector)>)
    ensures |r| <= |rows|
    ensures forall x :: x in r <==> x in rows && x.0 != id
  {
    if rows == [] then []
    else RowsWithout(rows[..|rows| - 1], id) + (if rows[|rows| - 1].0 != id then [rows[|rows| - 1]] else [])
  }

  /** The rows after `insert_node(id, embeddings)`, or the IndexError an empty batch raises. */
  function InsertedRows(rows: seq<(Key, Vector)>, id: Key, embeddings: seq<Vector>)
    : (r: Result<seq<(Key, Vector)>>)
    ensures r.Err? <==> embeddings == []
    ensures r.Err? ==> r.error == IndexError
    ensures r.Ok? ==> |r.value| == |rows| + 1 && r.value[..|rows|] == rows
                      && LastWith(r.value, id) == Some(embeddings[0])
  {
    if embeddings == [] then Err(IndexError)
    else
      var r := rows + [(id, embeddings[0])];
      assert r[..|rows|] == rows;
      Ok(r)
  }

  /** The rows after an upsert of `(id, embedding)`: every row with that id is replaced by one. */
  function Upserted(rows: seq<(Key, Vector)>, id: Key, embedding: Vector): (r: seq<(Key, Vector)>)
    ensures LastWith(r, id) == Some(embedding)
    ensures forall x :: x in r <==> (x in rows && x.0 != id) || x == (id, embedding)
  {
    RowsWithout(rows, id) + [(id, embedding)]
  }

  /** An upsert leaves the vector of every other id as it was. */
  lemma UpsertedFrame(rows: seq<(Key, Vector)>, id: Key, embedding: Vector, other: Key)
    requires other != id
    ensures LastWith(Upserted(rows, id, embedding), other) == LastWith(rows, other)
  {
    LastWithout(rows, id, other);
    var r := Upserted(rows, id, embedding);
    assert r[..|r| - 1] == RowsWithout(rows, id);
  }

  /**
   * The collection as rows in insertion order. Milvus does not reject a second row with the
   * same primary key on insert, so this is a list, not a map.
   */
  class VectorStore {
    var rows: seq<(Key, Vector)>

    constructor()
      ensures rows == []
    {
      rows := [];
    }

    /** The vector of the last row stored under `id`. */
    function Lookup(id: Key): (r: Option<Vector>)
      reads this
      ensures r.Some? ==> (id, r.value) in rows
      ensures r.None? <==> forall x :: x in rows ==> x.0 != id
    {
      LastWith(rows, id)
    }

    /** `insert_node`: stores the first vector of the batch; an empty batch raises IndexError. */
    method InsertNode(id: Key, embeddings: seq<Vector>) returns (r: Result<()>)
      modifies this
      ensures embeddings == [] ==> r == Err(IndexError) && rows == old(rows)
      ensures embeddings != [] ==> r == Ok(()) && rows == old(rows) + [(id, embeddings[0])]
      ensures InsertedRows(old(rows), id, embeddings) == if r.Ok? then Ok(rows) else Err(r.error)
    {
      if embeddings == [] {
        return Err(IndexError);
      }
      rows := rows + [(id, embeddings[0])];
      return Ok(());
    }

    /** `update_embeddings`: an upsert, which replaces every row with that id by one new row. */
    method UpdateEmbeddings(id: Key, embedding: Vector)
      modifies this
      ensures rows == Upserted(old(rows), id, embedding)
      ensures Lookup(id) == Some(embedding)
      ensures forall other :: other != id ==> Lookup(other) == old(Lookup(other))
    {
      ghost var before := rows;
      rows := Upserted(rows, id, embedding);
      forall other | other != id
        ensures LastWith(rows, other) == LastWith(before, other)
      {
        UpsertedFrame(before, id, embedding, other);
      }
    }

    /** `clear_all_nodes`: deletes every row matching `node_id != ''`. */
    method ClearAllNodes()
      modifies this
      ensures rows == RowsWith(old(rows), Str(""))
    {
      rows := RowsWith(rows, Str(""));
    }

    /** `get_node_count`: the number of rows. */
    method GetNodeCount() returns (n: nat)
      ensures n == |rows|
    {
      return |rows|;
    }
  }

  function LastWith(rows: seq<(Key, Vector)>, id: Key): (r: Option<Vector>)
    ensures r.Some? ==> (id, r.value) in rows
    ensures r.None? <==> forall x :: x in rows ==> x.0 != id
  {
    if rows == [] then None
    else if rows[|rows| - 1].0 == id then Some(rows[|rows| - 1].1)
    else
      var r := LastWith(rows[..|rows| - 1], id);
      Seqs.LastSplit(rows);
      r
  }

  /** Looking up after appending a row: that row if it matches, otherwise the earlier rows. */
  lemma LastWithSnoc(r: seq<(Key, Vector)>, last: (Key, Vector), id: Key)
    ensures LastWith(r + [last], id) == if last.0 == id then Some(last.1) else LastWith(r, id)
  {
    assert (r + [last])[..|r|] == r;
  }

  lemma {:induction false} LastWithout(rows: seq<(Key, Vector)>, id: Key, other: Key)
    requires other != id
    ensures LastWith(RowsWithout(rows, id), other) == LastWith(rows, other)
  {
    if rows != [] {
      var init := rows[..|rows| - 1];
      var last := rows[|rows| - 1];
      LastWithout(init, id, other);
      var r := RowsWithout(init, id);
      if last.0 != id {
        assert RowsWithout(rows, id) == r + [last];
        LastWithSnoc(r, last, other);
      } else {
        assert RowsWithout(rows, id) == r;
      }
    }
  }

  /**
   * After clearing, the count is the number of rows whose node id is the empty string, so it
   * is 0 whenever no row was stored under "".
   */
  lemma {:induction false} ClearCount(rows: seq<(Key, Vector)>)
    requires forall x :: x in rows ==> x.0 != Str("")
    ensures |RowsWith(rows, Str(""))| == 0
  {
    if rows != [] {
      assert rows[|rows| - 1] in rows;
      ClearCount(rows[..|rows| - 1]);
    }
  }
}
