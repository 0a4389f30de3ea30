/**
 * The record store: the Postgres tables `nodes`, `tags` and `nodes_tags` with the key,
 * uniqueness and foreign-key constraints their schema declares, and the queries the
 * pipeline runs on them. A statement that violates a constraint fails and is rolled back.
 */
module Postgres {
  import opened Wrappers
  import opened Models
  import opened Text

  /** A row of `nodes`; `text` and `created_at` are NOT NULL, which the types already ensure. */
  datatype Row = Row(id: Key, text: string, createdAt: string)

  /** A row of `tags`. */
  datatype Tag = Tag(id: string, name: string)

  // ---------------------------------------------------------------------------------------
  // ILIKE

  /**
   * SQL `LIKE` with the default escape character: `%` matches any run of characters, `_`
   * any one character, `\` makes the next pattern character literal. A pattern ending in a
   * lone `\` is an error in Postgres; the search below never builds one, and it matches
   * nothing here.
   */
  predicate Like(t: string, p: string)
    decreases |p|
  {
    if p == [] then t == []
    else if p[0] == '%' then exists i: nat | i <= |t| :: Like(t[i..], p[1..])
    else if p[0] == '_' then t != [] && Like(t[1..], p[1..])
    else if p[0] == '\\' then |p| >= 2 && t != [] && t[0] == p[1] && Like(t[1..], p[2..])
    else t != [] && t[0] == p[0] && Like(t[1..], p[1..])
  }

  /** `ILIKE`: `LIKE` after lower-casing both sides. */
  predicate ILike(t: string, p: string) {
    Like(Lower(t), Lower(p))
  }

  /** A string with no `LIKE` metacharacter. */
  predicate Literal(s: string) {
    forall i :: 0 <= i < |s| ==> s[i] != '%' && s[i] != '_' && s[i] != '\\'
  }

  lemma {:induction false} LikeLiteralPrefix(t: string, q: string)
    requires Literal(q)
    ensures Like(t, q + "%") <==> |q| <= |t| && t[..|q|] == q
    decreases |q|
  {
    if q == [] {
      assert Like(t[|t|..], []);
      assert [] + "%" == "%";
    } else {
      assert (q + "%")[1..] == q[1..] + "%";
      if t != [] {
        LikeLiteralPrefix(t[1..], q[1..]);
        if |q| <= |t| && t[..|q|] == q {
          assert t[1..][..|q| - 1] == q[1..];
        }
        if |q| - 1 <= |t| - 1 && t[1..][..|q| - 1] == q[1..] && t[0] == q[0] {
          assert t[..|q|] == [t[0]] + t[1..][..|q| - 1];
        }
      }
    }
  }

  /**
   * `ILIKE '%' || n || '%'` for an n-gram free of metacharacters holds exactly when the
   * lower-cased n-gram occurs in the lower-cased text.
   */
  lemma ILikeContains(t: string, n: string)
    requires Literal(n)
    ensures ILike(t, "%" + n + "%") <==> IsInfix(Lower(n), Lower(t))
  {
    var lt, ln := Lower(t), Lower(n);
    assert Lower("%" + n + "%") == "%" + ln + "%";
    assert Literal(ln);
    assert ("%" + ln + "%")[1..] == ln + "%";
    forall i: nat | i <= |lt|
      ensures Like(lt[i..], ln + "%") <==> OccursAt(lt, ln, i)
    {
      LikeLiteralPrefix(lt[i..], ln);
      if i + |ln| <= |lt| {
        assert lt[i..][..|ln|] == lt[i..i + |ln|];
      }
    }
  }

  // ---------------------------------------------------------------------------------------
  // The nodes table as a value

  /** `nodes.id` is the primary key (a VARCHAR, so a string id) and `text` is UNIQUE. */
  predicate NodesValid(nodes: map<Key, Row>) {
    (forall k :: k in nodes ==> k.Str? && nodes[k].id == k)
    && (forall k, k' :: k in nodes && k' in nodes && k != k' ==> nodes[k].text != nodes[k'].text)
  }

  /** Some row other than `except` already holds `text`. */
  predicate Taken(nodes: map<Key, Row>, text: string, except: Key) {
    exists k :: k in nodes && k != except && nodes[k].text == text
  }

  /**
   * The INSERT of `insert_memory` with a fresh uuid and the current time (both inputs): a
   * taken id or a taken text violates a constraint, and the table is rolled back.
   */
  function InsertRow(nodes: map<Key, Row>, text: string, uuid: string, now: string)
    : (r: (map<Key, Row>, Result<Key>))
    ensures r.1.Ok? <==> Str(uuid) !in nodes && !Taken(nodes, text, Str(uuid))
    ensures r.1.Ok? ==> r.1.value == Str(uuid) && r.0 == nodes[Str(uuid) := Row(Str(uuid), text, now)]
                        && |r.0| == |nodes| + 1
    ensures r.1.Err? ==> r == (nodes, Err(IntegrityError))
    ensures NodesValid(nodes) ==> NodesValid(r.0)
  {
    var id := Str(uuid);
    if id in nodes || Taken(nodes, text, id) then (nodes, Err(IntegrityError))
    else (nodes[id := Row(id, text, now)], Ok(id))
  }

  /**
   * The UPDATE of `update_memory`. The column is a VARCHAR, so an integer id makes the
   * comparison itself fail; an absent id updates no row; a text another row holds violates
   * UNIQUE (text). Failures roll back.
   */
  function UpdateRow(nodes: map<Key, Row>, id: Key, text: string): (r: (map<Key, Row>, Result<()>))
    ensures id.Int? ==> r == (nodes, Err(ProgrammingError))
    ensures id.Str? && id !in nodes ==> r == (nodes, Ok(()))
    ensures id.Str? && id in nodes && Taken(nodes, text, id) ==> r == (nodes, Err(IntegrityError))
    ensures id.Str? && id in nodes && !Taken(nodes, text, id) ==>
              r == (nodes[id := nodes[id].(text := text)], Ok(()))
    ensures r.0.Keys == nodes.Keys
    ensures forall k :: k in nodes && k != id ==> r.0[k] == nodes[k]
    ensures forall k :: k in nodes ==> r.0[k].id == nodes[k].id && r.0[k].createdAt == nodes[k].createdAt
    ensures NodesValid(nodes) ==> NodesValid(r.0)
  {
    if id.Int? then (nodes, Err(ProgrammingError))
    else if id !in nodes then (nodes, Ok(()))
    else if Taken(nodes, text, id) then (nodes, Err(IntegrityError))
    else (nodes[id := nodes[id].(text := text)], Ok(()))
  }

  /**
   * The SELECT of `get_memory_details`: the row as a Memory whose content is its text. For an
   * absent id `.first()` gives None and reading `node.id` raises AttributeError.
   */
  function MemoryDetails(nodes: map<Key, Row>, id: Key): (r: Result<Memory>)
    ensures id.Int? ==> r == Err(ProgrammingError)
    ensures id.Str? && id !in nodes ==> r == Err(AttributeError)
    ensures id.Str? && id in nodes ==>
              r == Ok(Memory(nodes[id].id, nodes[id].text, nodes[id].createdAt))
    ensures NodesValid(nodes) && r.Ok? ==> r.value.id == id && r.value.id.Str?
  {
    if id.Int? then Err(ProgrammingError)
    else if id !in nodes then Err(AttributeError)
    else Ok(Memory(nodes[id].id, nodes[id].text, nodes[id].createdAt))
  }

  // ---------------------------------------------------------------------------------------
  // The tables

  class RecordStore {
    var nodes: map<Key, Row>
    var tags: map<string, Tag>
    /** `nodes_tags` rows as (tag_id, node_id); its primary key makes them a set. */
    var nodesTags: set<(string, string)>

    /** The schema's constraints. */
    predicate Valid()
      reads this
    {
      NodesValid(nodes)
      // `tags.id` is the primary key
      && (forall t :: t in tags ==> tags[t].id == t)
      // both foreign keys of `nodes_tags`
      && (forall p :: p in nodesTags ==> p.0 in tags && Str(p.1) in nodes)
    }

    constructor()
      ensures Valid() && nodes == map[] && tags == map[] && nodesTags == {}
    {
      nodes, tags, nodesTags := map[], map[], {};
    }

    /** `insert_memory` */
    method InsertMemory(text: string, uuid: string, now: string) returns (r: Result<Key>)
      requires Valid()
      modifies this
      ensures Valid()
      ensures (nodes, r) == InsertRow(old(nodes), text, uuid, now)
      ensures r.Ok? <==> Str(uuid) !in old(nodes) && !Taken(old(nodes), text, Str(uuid))
      ensures r.Ok? ==> r.value == Str(uuid) && r.value !in old(nodes)
                        && nodes == old(nodes)[r.value := Row(r.value, text, now)]
                        && |nodes| == |old(nodes)| + 1
      ensures r.Err? ==> r.error == IntegrityError && nodes == old(nodes)
      ensures tags == old(tags) && nodesTags == old(nodesTags)
    {
      var (n, res) := InsertRow(nodes, text, uuid, now);
      nodes := n;
      r := res;
    }

    /** `update_memory` */
    method UpdateMemory(id: Key, text: string) returns (r: Result<()>)
      requires Valid()
      modifies this
      ensures Valid()
      ensures (nodes, r) == UpdateRow(old(nodes), id, text)
      ensures id.Int? ==> r == Err(ProgrammingError) && nodes == old(nodes)
      ensures id.Str? && id !in old(nodes) ==> r == Ok(()) && nodes == old(nodes)
      ensures id.Str? && id in old(nodes) && Taken(old(nodes), text, id) ==>
                r == Err(IntegrityError) && nodes == old(nodes)
      ensures id.Str? && id in old(nodes) && !Taken(old(nodes), text, id) ==>
                r == Ok(()) && nodes == old(nodes)[id := old(nodes)[id].(text := text)]
      ensures tags == old(tags) && nodesTags == old(nodesTags)
    {
      var (n, res) := UpdateRow(nodes, id, text);
      nodes := n;
      r := res;
    }

    /** `get_memory_details` */
    function GetMemoryDetails(id: Key): (r: Result<Memory>)
      reads this
      ensures id.Int? ==> r == Err(ProgrammingError)
      ensures id.Str? && id !in nodes ==> r == Err(AttributeError)
      ensures id.Str? && id in nodes ==>
                r == Ok(Memory(nodes[id].id, nodes[id].text, nodes[id].createdAt))
    {
      MemoryDetails(nodes, id)
    }

    /** `get_node_count` */
    method GetNodeCount() returns (n: nat)
      ensures n == |nodes|
    {
      return |nodes|;
    }

    /**
     * `clear_all_nodes`: deletes every row of `nodes`. The foreign key of `nodes_tags` has no
     * ON DELETE action, so while any tag assignment exists the delete fails and is rolled back.
     */
    method ClearAllNodes() returns (r: Result<()>)
      requires Valid()
      modifies this
      ensures Valid()
      ensures old(nodesTags) == {} ==> r == Ok(()) && nodes == map[]
      ensures old(nodesTags) != {} ==> r == Err(IntegrityError) && nodes == old(nodes)
      ensures tags == old(tags) && nodesTags == old(nodesTags)
    {
      if nodesTags != {} {
        return Err(IntegrityError);
      }
      nodes := map[];
      return Ok(());
    }

    /** The rows `n_gram_search` selects: `text ILIKE '%' || n_gram || '%'`. */
    function Selected(nGram: string): set<Key>
      reads this
    {
      set k | k in nodes && ILike(nodes[k].text, "%" + nGram + "%")
    }

    /**
     * `n_gram_search` as written: each selected row becomes `Memory(content=..., created_at=...)`.
     * Memory declares `id` as required and `created_at` as a string, while the row's
     * `created_at` is a datetime, so pydantic rejects the first row; with no row selected
     * the result is [].
     */
    function NGramSearchAsWritten(nGram: string): (r: Result<set<Memory>>)
      reads this
      ensures Selected(nGram) == {} ==> r == Ok({})
      ensures Selected(nGram) != {} ==> r == Err(ValidationError(["id", "created_at"]))
    {
      if Selected(nGram) == {} then Ok({}) else Err(ValidationError(["id", "created_at"]))
    }

    /**
     * `n_gram_search` as intended: the memories of exactly the selected rows (the query has
     * no ORDER BY, so the order of the list is not modelled).
     */
    function NGramSearch(nGram: string): (r: set<Memory>)
      reads this
      ensures forall m :: m in r <==> m.id in nodes && ILike(nodes[m.id].text, "%" + nGram + "%")
                                      && m == Memory(m.id, nodes[m.id].text, nodes[m.id].createdAt)
    {
      set k | k in nodes && ILike(nodes[k].text, "%" + nGram + "%")
        :: Memory(k, nodes[k].text, nodes[k].createdAt)
    }
  }

  /**
   * For an n-gram free of metacharacters, the intended search returns exactly the rows whose
   * text contains the n-gram, ignoring case.
   */
  lemma NGramSearchContains(store: RecordStore, nGram: string, k: Key)
    requires store.Valid() && Literal(nGram) && k in store.nodes
    ensures store.GetMemoryDetails(k).Ok?
    ensures store.GetMemoryDetails(k).value in store.NGramSearch(nGram)
            <==> IsInfix(Lower(nGram), Lower(store.nodes[k].text))
  {
    ILikeContains(store.nodes[k].text, nGram);
  }

  /**
   * The as-written search fails as soon as one row's text contains the n-gram: the memories
   * it builds lack their required id.
   */
  lemma NGramSearchAsWrittenFails(store: RecordStore, nGram: string, k: Key)
    requires Literal(nGram) && k in store.nodes
    requires IsInfix(Lower(nGram), Lower(store.nodes[k].text))
    ensures store.NGramSearchAsWritten(nGram) == Err(ValidationError(["id", "created_at"]))
  {
    ILikeContains(store.nodes[k].text, nGram);
    assert k in store.Selected(nGram);
  }
}
