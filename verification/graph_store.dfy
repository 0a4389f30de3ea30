/**
 * The graph store: one MongoDB document whose `adjacency_list` field maps each node id to
 * the list of its neighbours. MongoDB field names are strings, so a node id is stored as
 * its text (`f"adjacency_list.{node_id}"`), while the neighbours keep their type.
 */
module MongoGraph {
  import opened Wrappers
  import opened Models
  import Text

  type Adjacency = map<string, seq<Key>>

  /** A stored document; `adjacency_list` may be absent (after `$unset`). */
  datatype Doc = Doc(adjacency: Option<Adjacency>)

  /** `DOC_ID`, the one document the program uses. */
  const DocId: Key := Str("32f7543c-cf51-49f1-8163-93652e26a695")

  /** `str(node_id)`, the text an id has in a field path. */
  function KeyText(k: Key): string {
    match k
    case Str(s) => s
    case Int(i) => Text.IntToString(i)
  }

  /** `$addToSet`: append unless already present. */
  function AddToSet(xs: seq<Key>, x: Key): (r: seq<Key>)
    ensures x in r && (forall y :: y in r <==> y in xs || y == x)
    ensures x in xs ==> r == xs
  {
    if x in xs then xs else xs + [x]
  }

  /** The neighbour list `adj` holds for a field name, [] when there is none. */
  function ListOf(adj: Adjacency, name: string): seq<Key> {
    if name in adj then adj[name] else []
  }

  /**
   * The effect of `make_edge(a, b)` on the adjacency map. The two `$addToSet` paths are the
   * keys of one Python dict literal: when both endpoints have the same text the literal keeps
   * only its later entry, so a alone is added under that text (a self-loop when a == b).
   */
  function AddEdge(adj: Adjacency, a: Key, b: Key): (r: Adjacency)
    ensures r.Keys == adj.Keys + {KeyText(a), KeyText(b)}
    ensures r[KeyText(b)] == AddToSet(ListOf(adj, KeyText(b)), a)
    ensures KeyText(a) != KeyText(b) ==> r[KeyText(a)] == AddToSet(ListOf(adj, KeyText(a)), b)
  {
    if KeyText(a) == KeyText(b) then adj[KeyText(a) := AddToSet(ListOf(adj, KeyText(a)), a)]
    else
      adj[KeyText(a) := AddToSet(ListOf(adj, KeyText(a)), b)]
         [KeyText(b) := AddToSet(ListOf(adj, KeyText(b)), a)]
  }

  /** Every stored list is free of duplicates. */
  predicate NoDuplicates(adj: Adjacency) {
    forall name :: name in adj ==> forall i, j :: 0 <= i < j < |adj[name]| ==> adj[name][i] != adj[name][j]
  }

  /** The texts of the neighbours in a list. */
  function Texts(xs: seq<Key>): set<string> {
    set x | x in xs :: KeyText(x)
  }

  /**
   * The undirected-graph invariant the doc-comment of `make_edge` states: whenever y is
   * listed under x, x is listed under y.
   */
  predicate Symmetric(adj: Adjacency) {
    forall x, y :: x in adj && y in Texts(adj[x]) ==> y in adj && x in Texts(adj[y])
  }

  // ---------------------------------------------------------------------------------------
  // Properties of one edge insertion

  /**
   * After `make_edge(a, b)`, a is listed under b's text, and b's text is among the texts
   * listed under a; b itself is listed under a unless a different id with the same text
   * took its entry.
   */
  lemma AddEdgeLinks(adj: Adjacency, a: Key, b: Key)
    ensures a in AddEdge(adj, a, b)[KeyText(b)]
    ensures KeyText(b) in Texts(AddEdge(adj, a, b)[KeyText(a)])
    ensures KeyText(a) != KeyText(b) || a == b ==> b in AddEdge(adj, a, b)[KeyText(a)]
    ensures KeyText(a) == KeyText(b) ==> AddEdge(adj, a, b) == adj[KeyText(a) := AddToSet(ListOf(adj, KeyText(a)), a)]
  {
  }

  /** No other node's list changes. */
  lemma AddEdgeFrame(adj: Adjacency, a: Key, b: Key, name: string)
    requires name != KeyText(a) && name != KeyText(b)
    ensures name in AddEdge(adj, a, b) <==> name in adj
    ensures name in adj ==> AddEdge(adj, a, b)[name] == adj[name]
  {
  }

  /** A second identical call leaves the map unchanged. */
  lemma AddEdgeIdempotent(adj: Adjacency, a: Key, b: Key)
    ensures AddEdge(AddEdge(adj, a, b), a, b) == AddEdge(adj, a, b)
  {
  }

  /** Edge insertion never creates a duplicate entry. */
  lemma AddEdgeNoDuplicates(adj: Adjacency, a: Key, b: Key)
    requires NoDuplicates(adj)
    ensures NoDuplicates(AddEdge(adj, a, b))
  {
  }

  /** Edge insertion preserves the symmetric-adjacency invariant, self-loops included. */
  lemma AddEdgeSymmetric(adj: Adjacency, a: Key, b: Key)
    requires Symmetric(adj)
    ensures Symmetric(AddEdge(adj, a, b))
  {
    var r := AddEdge(adj, a, b);
    var ta, tb := KeyText(a), KeyText(b);
    if ta == tb {
      assert Texts(r[ta]) == Texts(ListOf(adj, ta)) + {ta};
      forall x, y | x in r && y in Texts(r[x])
        ensures y in r && x in Texts(r[y])
      {
        if x != ta {
          assert y in Texts(adj[x]);
        } else if y != ta {
          assert y in Texts(adj[ta]);
        }
      }
    } else {
      assert Texts(r[ta]) == Texts(ListOf(adj, ta)) + {tb};
      assert Texts(r[tb]) == Texts(ListOf(adj, tb)) + {ta};
      forall x, y | x in r && y in Texts(r[x])
        ensures y in r && x in Texts(r[y])
      {
        if x != ta && x != tb {
          assert y in Texts(adj[x]);
        } else if x == ta && y != tb {
          assert y in Texts(adj[ta]);
        } else if x == tb && y != ta {
          assert y in Texts(adj[tb]);
        }
      }
    }
  }

  // ---------------------------------------------------------------------------------------
  // The documents as a value

  /** The adjacency map the documents hold under `DOC_ID`, {} when it or its field is missing. */
  function AdjacencyOf(docs: map<Key, Doc>): Adjacency {
    if DocId in docs && docs[DocId].adjacency.Some? then docs[DocId].adjacency.value else map[]
  }

  /**
   * The update `make_edge(a, b)` sends: an upsert of `DOC_ID` that adds each endpoint to the
   * other's list. It creates the document when it is missing and touches no other document.
   */
  function MakeEdgeDocs(docs: map<Key, Doc>, a: Key, b: Key): (r: map<Key, Doc>)
    ensures r.Keys == docs.Keys + {DocId}
    ensures forall k :: k in docs && k != DocId ==> r[k] == docs[k]
    ensures AdjacencyOf(r) == AddEdge(AdjacencyOf(docs), a, b)
  {
    docs[DocId := Doc(Some(AddEdge(AdjacencyOf(docs), a, b)))]
  }

  // ---------------------------------------------------------------------------------------
  // The store

  class GraphStore {
    var docs: map<Key, Doc>

    constructor()
      ensures docs == map[]
    {
      docs := map[];
    }

    /** The invariant the edge operations keep: an undirected graph without repeated entries. */
    predicate Valid()
      reads this
    {
      Symmetric(Adjacency()) && NoDuplicates(Adjacency())
    }

    /** The adjacency map of `DOC_ID`, {} when the document or its field is missing. */
    function Adjacency(): Adjacency
      reads this
    {
      AdjacencyOf(docs)
    }

    /** `make_edge(a, b)` */
    method MakeEdge(a: Key, b: Key)
      modifies this
      ensures docs == MakeEdgeDocs(old(docs), a, b)
      ensures Adjacency() == AddEdge(old(Adjacency()), a, b)
      ensures old(Valid()) ==> Valid()
    {
      var adj := Adjacency();
      if Valid() {
        AddEdgeSymmetric(adj, a, b);
        AddEdgeNoDuplicates(adj, a, b);
      }
      docs := MakeEdgeDocs(docs, a, b);
    }

    /**
     * `get_neighbors(node_id, doc_id)`: `find_one` gives None for a missing document, which
     * the subscript turns into a TypeError; a document without `adjacency_list` raises
     * KeyError; otherwise the node's list, or [] when it has none.
     */
    function GetNeighbors(node: Key, docId: Key): (r: Result<seq<Key>>)
      reads this
      ensures docId !in docs ==> r == Err(TypeError)
      ensures docId in docs && docs[docId].adjacency.None? ==> r == Err(KeyError)
      ensures docId in docs && docs[docId].adjacency.Some? ==>
                r == Ok(Lookup(docs[docId].adjacency.value, node))
    {
      if docId !in docs then Err(TypeError)
      else match docs[docId].adjacency
        case None => Err(KeyError)
        case Some(adj) => Ok(Lookup(adj, node))
    }

    /** `get_adjacency_list`: {} when the document or its field is missing. */
    function GetAdjacencyList(): (r: Adjacency)
      reads this
      ensures DocId !in docs ==> r == map[]
      ensures DocId in docs && docs[DocId].adjacency.None? ==> r == map[]
      ensures DocId in docs && docs[DocId].adjacency.Some? ==> r == docs[DocId].adjacency.value
    {
      Adjacency()
    }

    /** `delete_adjacency_list`: `$unset` of the field; a missing document stays missing. */
    method DeleteAdjacencyList()
      modifies this
      ensures DocId in old(docs) ==> docs == old(docs)[DocId := Doc(None)]
      ensures DocId !in old(docs) ==> docs == old(docs)
      ensures GetAdjacencyList() == map[]
      ensures Valid()
    {
      if DocId in docs {
        docs := docs[DocId := Doc(None)];
      }
    }

    /**
     * `get_n_hop_neighbors` as written: the inner call is `get_neighbors(doc_id, node)`, with
     * the arguments swapped, so every node of the frontier is looked up as a document id and
     * `DOC_ID` as the node.
     */
    method NHopNeighborsAsWritten(start: Key, n: int) returns (r: Result<set<Key>>)
      ensures n <= 0 ==> r == Ok({})
      ensures n >= 1 && start !in docs ==> r == Err(TypeError)
    {
      var visited := {start};
      var current := {start};
      var hop := 0;
      while hop < n
        invariant 0 <= hop && (hop == 0 || hop <= n)
        invariant hop == 0 ==> visited == {start} && current == {start}
        invariant start !in docs ==> hop == 0
        decreases n - hop
      {
        var next: set<Key> := {};
        var todo := current;
        while todo != {}
          invariant todo <= current
          invariant hop == 0 && start !in docs ==> start in todo
          decreases todo
        {
          var node :| node in todo;
          var neighbors := GetNeighbors(DocId, node);
          if neighbors.Err? {
            return Err(neighbors.error);
          }
          next := next + (set x | x in neighbors.value) - visited;
          todo := todo - {node};
        }
        visited := visited + next;
        current := next;
        hop := hop + 1;
      }
      var found := visited - {start};
      assert n <= 0 ==> found == {};
      r := Ok(found);
    }

    /**
     * `get_n_hop_neighbors` as intended, a breadth-first search from `start` over the
     * adjacency map: every node within `n` hops except `start` itself. A missing document
     * or field raises as `get_neighbors` does, once a lookup is made.
     */
    method NHopNeighbors(start: Key, n: int) returns (r: Result<set<Key>>)
      ensures n <= 0 ==> r == Ok({})
      ensures n >= 1 && DocId !in docs ==> r == Err(TypeError)
      ensures n >= 1 && DocId in docs && docs[DocId].adjacency.None? ==> r == Err(KeyError)
      ensures n >= 1 && DocId in docs && docs[DocId].adjacency.Some? ==>
                r == Ok(Ball(docs[DocId].adjacency.value, start, n) - {start})
    {
      if n <= 0 {
        return Ok({});
      }
      if DocId !in docs {
        return Err(TypeError);
      }
      if docs[DocId].adjacency.None? {
        return Err(KeyError);
      }
      var adj := docs[DocId].adjacency.value;
      var visited := {start};
      var current := {start};
      var hop := 0;
      while hop < n
        invariant 0 <= hop <= n
        invariant visited == Ball(adj, start, hop)
        invariant current <= visited
        invariant Neighbours(adj, visited - current) <= visited
        decreases n - hop
      {
        var next: set<Key> := {};
        var todo := current;
        while todo != {}
          invariant todo <= current
          invariant next == Neighbours(adj, current - todo) - visited
          decreases todo
        {
          var node :| node in todo;
          var neighbors := GetNeighbors(node, DocId);
          assert neighbors == Ok(Lookup(adj, node));
          NeighboursAdd(adj, current - todo, node);
          assert current - (todo - {node}) == (current - todo) + {node};
          next := next + ((set x | x in neighbors.value) - visited);
          todo := todo - {node};
        }
        assert current - {} == current;
        NeighboursSplit(adj, visited - current, current);
        assert (visited - current) + current == visited;
        visited := visited + next;
        current := next;
        hop := hop + 1;
      }
      var found := visited - {start};
      assert n <= 0 ==> found == {};
      r := Ok(found);
    }
  }

  /** A node's neighbours: its list under its text when the id is a string, [] otherwise. */
  function Lookup(adj: Adjacency, node: Key): seq<Key> {
    if node.Str? && node.s in adj then adj[node.s] else []
  }

  /** All neighbours of the nodes in `s`. */
  function Neighbours(adj: Adjacency, s: set<Key>): set<Key> {
    set u, v | u in s && v in Lookup(adj, u) :: v
  }

  /** The nodes within `k` hops of `start`. */
  function Ball(adj: Adjacency, start: Key, k: nat): set<Key> {
    if k == 0 then {start}
    else Ball(adj, start, k - 1) + Neighbours(adj, Ball(adj, start, k - 1))
  }

  lemma NeighboursAdd(adj: Adjacency, s: set<Key>, u: Key)
    ensures Neighbours(adj, s + {u}) == Neighbours(adj, s) + (set v | v in Lookup(adj, u))
  {
  }

  lemma NeighboursSplit(adj: Adjacency, s: set<Key>, t: set<Key>)
    ensures Neighbours(adj, s + t) == Neighbours(adj, s) + Neighbours(adj, t)
  {
  }

  /** `p` is a walk: each node is a neighbour of the one before it. */
  predicate Walk(adj: Adjacency, p: seq<Key>) {
    forall i :: 0 <= i < |p| - 1 ==> p[i + 1] in Lookup(adj, p[i])
  }

  lemma {:induction false} BallMonotone(adj: Adjacency, start: Key, j: nat, k: nat)
    requires j <= k
    ensures Ball(adj, start, j) <= Ball(adj, start, k)
    decreases k
  {
    if j < k {
      BallMonotone(adj, start, j, k - 1);
    }
  }

  /** Every node of the ball is the end of a walk from `start` with at most `k` steps. */
  lemma {:induction false} BallHasWalk(adj: Adjacency, start: Key, k: nat, v: Key)
    requires v in Ball(adj, start, k)
    ensures exists p :: Walk(adj, p) && 1 <= |p| <= k + 1 && p[0] == start && p[|p| - 1] == v
  {
    if k == 0 {
      assert Walk(adj, [start]);
    } else if v in Ball(adj, start, k - 1) {
      BallHasWalk(adj, start, k - 1, v);
    } else {
      var u :| u in Ball(adj, start, k - 1) && v in Lookup(adj, u);
      BallHasWalk(adj, start, k - 1, u);
      var p :| Walk(adj, p) && 1 <= |p| <= k && p[0] == start && p[|p| - 1] == u;
      WalkExtend(adj, p, v);
      var q := p + [v];
      assert q[0] == start && q[|q| - 1] == v;
    }
  }

  /** A walk extended by a neighbour of its last node is a walk. */
  lemma WalkExtend(adj: Adjacency, p: seq<Key>, v: Key)
    requires Walk(adj, p) && |p| >= 1 && v in Lookup(adj, p[|p| - 1])
    ensures Walk(adj, p + [v])
  {
    var q := p + [v];
    forall i | 0 <= i < |q| - 1 ensures q[i + 1] in Lookup(adj, q[i]) {
      if i < |p| - 1 {
        assert q[i] == p[i] && q[i + 1] == p[i + 1];
      }
    }
  }

  /** The end of every walk from `start` with at most `k` steps lies in the ball. */
  lemma {:induction false} WalkInBall(adj: Adjacency, start: Key, k: nat, p: seq<Key>)
    requires Walk(adj, p) && 1 <= |p| <= k + 1 && p[0] == start
    ensures p[|p| - 1] in Ball(adj, start, k)
    decreases |p|
  {
    if |p| == 1 {
      BallMonotone(adj, start, 0, k);
    } else {
      var init := p[..|p| - 1];
      assert Walk(adj, init) by {
        forall i | 0 <= i < |init| - 1 ensures init[i + 1] in Lookup(adj, init[i]) {
          assert init[i] == p[i] && init[i + 1] == p[i + 1];
        }
      }
      WalkInBall(adj, start, |p| - 2, init);
      assert p[|p| - 1] in Lookup(adj, p[|p| - 2]);
      assert p[|p| - 1] in Ball(adj, start, |p| - 1);
      BallMonotone(adj, start, |p| - 1, k);
    }
  }
}
