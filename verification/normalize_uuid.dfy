/**
 * `normalize_memories`: renumbers a list of memories 0..n-1 in place, so that a language
 * model sees short ids, and returns a dictionary from each original id to its position.
 */
module NormalizeUuid {
  import opened Models

  /** The ids of a list of memories, in order. */
  function Ids(ms: seq<Memory>): (ids: seq<Key>)
    ensures |ids| == |ms| && forall i :: 0 <= i < |ms| ==> ids[i] == ms[i].id
  {
    if ms == [] then [] else Ids(ms[..|ms| - 1]) + [ms[|ms| - 1].id]
  }

  /**
   * The dictionary the loop builds from `ids`: every id is entered with its position,
   * and a later occurrence overwrites an earlier one.
   */
  function MappingOf(ids: seq<Key>): map<Key, Key>
  {
    if ids == [] then map[] else MappingOf(ids[..|ids| - 1])[ids[|ids| - 1] := Int(|ids| - 1)]
  }

  /**
   * Renumbers `memories` in place: afterwards the memory at position i has id `Int(i)`,
   * its content and creation time are those it had, and `mapping` sends each original id
   * to the position at which it occurred.
   */
  method NormalizeMemories(memories: array<Memory>) returns (mapping: map<Key, Key>)
    modifies memories
    ensures mapping == MappingOf(Ids(old(memories[..])))
    ensures forall i :: 0 <= i < memories.Length ==>
              memories[i] == old(memories[i]).(id := Int(i))
  {
    ghost var original := memories[..];
    mapping := map[];
    for idx := 0 to memories.Length
      invariant mapping == MappingOf(Ids(original[..idx]))
      invariant forall i :: 0 <= i < memories.Length ==>
                  memories[i] == if i < idx then original[i].(id := Int(i)) else original[i]
    {
      var memory := memories[idx];
      var memoryId := memory.id;
      IdsSnoc(original, idx);
      mapping := mapping[memoryId := Int(idx)];
      memories[idx] := memory.(id := Int(idx));
    }
    assert original[..memories.Length] == original;
  }

  lemma IdsSnoc(ms: seq<Memory>, n: nat)
    requires n < |ms|
    ensures MappingOf(Ids(ms[..n + 1])) == MappingOf(Ids(ms[..n]))[ms[n].id := Int(n)]
  {
    assert ms[..n + 1][..n] == ms[..n];
  }

  /** The keys of the mapping are exactly the original ids. */
  lemma {:induction false} MappingKeys(ids: seq<Key>)
    ensures MappingOf(ids).Keys == set i | 0 <= i < |ids| :: ids[i]
  {
    if ids != [] {
      var init := ids[..|ids| - 1];
      MappingKeys(init);
      assert forall i :: 0 <= i < |init| ==> init[i] == ids[i];
    }
  }

  /** Each original id is sent to the LAST position at which it occurs. */
  lemma {:induction false} MappingLastPosition(ids: seq<Key>, j: nat)
    requires j < |ids|
    requires forall i :: j < i < |ids| ==> ids[i] != ids[j]
    ensures ids[j] in MappingOf(ids) && MappingOf(ids)[ids[j]] == Int(j)
  {
    if j < |ids| - 1 {
      var init := ids[..|ids| - 1];
      MappingLastPosition(init, j);
    }
  }

  /** Every value of the mapping is the position of an occurrence of its key. */
  lemma {:induction false} MappingValues(ids: seq<Key>, k: Key)
    requires k in MappingOf(ids)
    ensures MappingOf(ids)[k].Int? && 0 <= MappingOf(ids)[k].i < |ids|
    ensures ids[MappingOf(ids)[k].i] == k
  {
    var init := ids[..|ids| - 1];
    if k != ids[|ids| - 1] {
      MappingValues(init, k);
    }
  }

  predicate Distinct(ids: seq<Key>) {
    forall i, j :: 0 <= i < j < |ids| ==> ids[i] != ids[j]
  }

  /**
   * With distinct original ids, the mapping has exactly n keys and its values are exactly
   * `Int(0)`..`Int(n-1)`, each once.
   */
  lemma DistinctMapping(ids: seq<Key>)
    requires Distinct(ids)
    ensures |MappingOf(ids).Keys| == |ids|
    ensures MappingOf(ids).Values == set i | 0 <= i < |ids| :: Int(i)
    ensures forall k, k' :: k in MappingOf(ids) && k' in MappingOf(ids) && k != k' ==>
              MappingOf(ids)[k] != MappingOf(ids)[k']
  {
    var m := MappingOf(ids);
    MappingKeys(ids);
    DistinctCard(ids);
    forall i | 0 <= i < |ids|
      ensures Int(i) in m.Values
    {
      MappingLastPosition(ids, i);
    }
    forall v | v in m.Values
      ensures v in set i | 0 <= i < |ids| :: Int(i)
    {
      var k :| k in m && m[k] == v;
      MappingValues(ids, k);
    }
    forall k, k' | k in m && k' in m && k != k'
      ensures m[k] != m[k']
    {
      MappingValues(ids, k);
      MappingValues(ids, k');
    }
  }

  lemma {:induction false} DistinctCard(ids: seq<Key>)
    requires Distinct(ids)
    ensures |set i | 0 <= i < |ids| :: ids[i]| == |ids|
  {
    if ids != [] {
      var init := ids[..|ids| - 1];
      DistinctCard(init);
      var s := set i | 0 <= i < |init| :: init[i];
      assert (set i | 0 <= i < |ids| :: ids[i]) == s + {ids[|ids| - 1]};
    }
  }

  /** Empty input gives an empty mapping (and, by the method's contract, an empty list). */
  lemma EmptyMapping()
    ensures MappingOf(Ids([])) == map[]
  {
  }

  /**
   * Looking the mapping up with a renumbered id finds nothing when the original ids are
   * strings, as the record store's uuids are: its keys are the original ids, never `Int(i)`.
   */
  lemma MappingMissesNewIds(ids: seq<Key>, i: int)
    requires forall j :: 0 <= j < |ids| ==> ids[j].Str?
    ensures Int(i) !in MappingOf(ids)
  {
    MappingKeys(ids);
  }

  /** The dictionary the callers need: from each new id `Int(i)` back to the id at position i. */
  function IndexToId(ids: seq<Key>): (m: map<Key, Key>)
    ensures m.Keys == set i | 0 <= i < |ids| :: Int(i)
    ensures forall i :: 0 <= i < |ids| ==> m[Int(i)] == ids[i]
  {
    map i | 0 <= i < |ids| :: Int(i) := ids[i]
  }

  /**
   * `IndexToId` undoes the renumbering: composed with the mapping in either order it is the
   * identity, the second way round when the original ids are distinct.
   */
  lemma IndexToIdInverts(ids: seq<Key>)
    ensures forall k :: k in MappingOf(ids) ==>
              MappingOf(ids)[k] in IndexToId(ids) && IndexToId(ids)[MappingOf(ids)[k]] == k
    ensures Distinct(ids) ==> forall i :: 0 <= i < |ids| ==>
              IndexToId(ids)[Int(i)] in MappingOf(ids) && MappingOf(ids)[IndexToId(ids)[Int(i)]] == Int(i)
  {
    forall k | k in MappingOf(ids)
      ensures MappingOf(ids)[k] in IndexToId(ids) && IndexToId(ids)[MappingOf(ids)[k]] == k
    {
      MappingValues(ids, k);
    }
    if Distinct(ids) {
      forall i | 0 <= i < |ids|
        ensures IndexToId(ids)[Int(i)] in MappingOf(ids) && MappingOf(ids)[IndexToId(ids)[Int(i)]] == Int(i)
      {
        MappingLastPosition(ids, i);
      }
    }
  }
}
