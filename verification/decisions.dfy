/**
 * Step 2 of the consolidation pipeline after the model has answered: the decision it took
 * for one new memory, and the translation of the renumbered ids in that decision back to
 * record-store ids through the dictionary `normalize_memories` returned.
 */
module Decisions {
  import opened Wrappers
  import opened Models
  import opened NormalizeUuid

  datatype ConflictingMemory = ConflictingMemory(memoryId: Key)

  datatype UpdatedMemory = UpdatedMemory(memoryId: Key, content: string)

  /** `ModelResponseDecision`: the action tag with the payload of that action. */
  datatype Decision =
    | Insert(content: string)
    | MergeConflict(conflictingMemories: seq<ConflictingMemory>)
    | ResolveTemporalConflict(memoryIds: seq<Key>)
    | AdditionToExisting(updatedMemories: seq<UpdatedMemory>)
    | Ignore
    | Unknown(action: string)

  /**
   * Which reading of the pipeline is modelled: the code as it stands, or the code with the
   * repairs it evidently needs. For the ids the difference is the dictionary that turns the
   * model's ids back into record ids: the one the code builds (original id to position) or
   * its inverse, which the callers' lookups with positions require.
   */
  datatype Variant = AsWritten | Corrected

  function BackMapping(t: Variant, ms: seq<Memory>): map<Key, Key> {
    match t
    case AsWritten => MappingOf(Ids(ms))
    case Corrected => IndexToId(Ids(ms))
  }

  // ---------------------------------------------------------------------------------------
  // The filters

  /** `[m[id] for id in ids if id in m]` */
  function Denormalize(ids: seq<Key>, m: map<Key, Key>): (r: seq<Key>)
    ensures |r| <= |ids|
  {
    if ids == [] then []
    else (if ids[0] in m then [m[ids[0]]] else []) + Denormalize(ids[1..], m)
  }

  /** The conflicting memories whose id the dictionary knows, each with its id translated. */
  function FilterConflicts(cs: seq<ConflictingMemory>, m: map<Key, Key>): (r: seq<ConflictingMemory>)
    ensures |r| <= |cs|
  {
    if cs == [] then []
    else (if cs[0].memoryId in m then [ConflictingMemory(m[cs[0].memoryId])] else [])
         + FilterConflicts(cs[1..], m)
  }

  /** The updated memories whose id the dictionary knows, each with its id translated. */
  function FilterUpdates(us: seq<UpdatedMemory>, m: map<Key, Key>): (r: seq<UpdatedMemory>)
    ensures |r| <= |us|
  {
    if us == [] then []
    else (if us[0].memoryId in m then [us[0].(memoryId := m[us[0].memoryId])] else [])
         + FilterUpdates(us[1..], m)
  }

  function ConflictIds(cs: seq<ConflictingMemory>): (ids: seq<Key>)
    ensures |ids| == |cs| && forall i :: 0 <= i < |cs| ==> ids[i] == cs[i].memoryId
  {
    if cs == [] then [] else [cs[0].memoryId] + ConflictIds(cs[1..])
  }

  function UpdateIds(us: seq<UpdatedMemory>): (ids: seq<Key>)
    ensures |ids| == |us| && forall i :: 0 <= i < |us| ==> ids[i] == us[i].memoryId
  {
    if us == [] then [] else [us[0].memoryId] + UpdateIds(us[1..])
  }

  /**
   * The post-processing of `handle_decision`: Insert and Ignore pass through untouched, the
   * three payloads that name existing memories are filtered and translated, and any other
   * tag raises.
   */
  function HandleDecision(d: Decision, m: map<Key, Key>): (r: Result<Decision>)
    ensures d.Insert? || d.Ignore? ==> r == Ok(d)
    ensures d.Unknown? ==> r == Err(ValueError("Unknown action type: " + d.action))
    ensures d.MergeConflict? ==> r.Ok? && r.value.MergeConflict?
                                 && ConflictIds(r.value.conflictingMemories)
                                    == Denormalize(ConflictIds(d.conflictingMemories), m)
    ensures d.ResolveTemporalConflict? ==>
              r == Ok(ResolveTemporalConflict(Denormalize(d.memoryIds, m)))
    ensures d.AdditionToExisting? ==> r.Ok? && r.value.AdditionToExisting?
                                      && UpdateIds(r.value.updatedMemories)
                                         == Denormalize(UpdateIds(d.updatedMemories), m)
  {
    match d
    case Insert(_) => Ok(d)
    case MergeConflict(cs) =>
      ConflictIdsFiltered(cs, m);
      Ok(MergeConflict(FilterConflicts(cs, m)))
    case ResolveTemporalConflict(ids) => Ok(ResolveTemporalConflict(Denormalize(ids, m)))
    case AdditionToExisting(us) =>
      UpdateIdsFiltered(us, m);
      Ok(AdditionToExisting(FilterUpdates(us, m)))
    case Ignore => Ok(d)
    case Unknown(tag) => Err(ValueError("Unknown action type: " + tag))
  }

  // ---------------------------------------------------------------------------------------
  // What the filters keep

  /** The translation works entry by entry: it distributes over concatenation. */
  lemma {:induction false} DenormalizeAppend(a: seq<Key>, b: seq<Key>, m: map<Key, Key>)
    ensures Denormalize(a + b, m) == Denormalize(a, m) + Denormalize(b, m)
  {
    if a == [] {
      assert a + b == b;
    } else {
      assert (a + b)[0] == a[0] && (a + b)[1..] == a[1..] + b;
      DenormalizeAppend(a[1..], b, m);
    }
  }

  /** An id is in the result exactly when some kept entry is translated to it. */
  lemma {:induction false} DenormalizeMembers(ids: seq<Key>, m: map<Key, Key>, x: Key)
    ensures x in Denormalize(ids, m) <==> exists i :: 0 <= i < |ids| && ids[i] in m && m[ids[i]] == x
  {
    if ids != [] {
      DenormalizeMembers(ids[1..], m, x);
      if x in Denormalize(ids[1..], m) {
        var i :| 0 <= i < |ids[1..]| && ids[1..][i] in m && m[ids[1..][i]] == x;
        assert ids[i + 1] == ids[1..][i];
      }
      if exists i :: 0 <= i < |ids| && ids[i] in m && m[ids[i]] == x {
        var i :| 0 <= i < |ids| && ids[i] in m && m[ids[i]] == x;
        if i > 0 {
          assert ids[1..][i - 1] == ids[i];
        }
      }
    }
  }

  /** When the dictionary knows every id, nothing is dropped and the order is kept. */
  lemma {:induction false} DenormalizeAllKnown(ids: seq<Key>, m: map<Key, Key>)
    requires forall i :: 0 <= i < |ids| ==> ids[i] in m
    ensures |Denormalize(ids, m)| == |ids|
    ensures forall i :: 0 <= i < |ids| ==> Denormalize(ids, m)[i] == m[ids[i]]
  {
    if ids != [] {
      DenormalizeAllKnown(ids[1..], m);
    }
  }

  /** When the dictionary knows none of the ids, everything is dropped. */
  lemma {:induction false} DenormalizeNoneKnown(ids: seq<Key>, m: map<Key, Key>)
    requires forall i :: 0 <= i < |ids| ==> ids[i] !in m
    ensures Denormalize(ids, m) == []
  {
    if ids != [] {
      DenormalizeNoneKnown(ids[1..], m);
    }
  }

  lemma {:induction false} ConflictIdsFiltered(cs: seq<ConflictingMemory>, m: map<Key, Key>)
    ensures ConflictIds(FilterConflicts(cs, m)) == Denormalize(ConflictIds(cs), m)
  {
    if cs != [] {
      ConflictIdsFiltered(cs[1..], m);
      var head := if cs[0].memoryId in m then [ConflictingMemory(m[cs[0].memoryId])] else [];
      ConflictIdsAppend(head, FilterConflicts(cs[1..], m));
      assert ConflictIds(cs)[1..] == ConflictIds(cs[1..]);
    }
  }

  lemma {:induction false} ConflictIdsAppend(a: seq<ConflictingMemory>, b: seq<ConflictingMemory>)
    ensures ConflictIds(a + b) == ConflictIds(a) + ConflictIds(b)
  {
    if a != [] {
      assert (a + b)[1..] == a[1..] + b;
      ConflictIdsAppend(a[1..], b);
    }
  }

  lemma {:induction false} UpdateIdsFiltered(us: seq<UpdatedMemory>, m: map<Key, Key>)
    ensures UpdateIds(FilterUpdates(us, m)) == Denormalize(UpdateIds(us), m)
  {
    if us != [] {
      UpdateIdsFiltered(us[1..], m);
      var head := if us[0].memoryId in m then [us[0].(memoryId := m[us[0].memoryId])] else [];
      UpdateIdsAppend(head, FilterUpdates(us[1..], m));
      assert UpdateIds(us)[1..] == UpdateIds(us[1..]);
    }
  }

  lemma {:induction false} UpdateIdsAppend(a: seq<UpdatedMemory>, b: seq<UpdatedMemory>)
    ensures UpdateIds(a + b) == UpdateIds(a) + UpdateIds(b)
  {
    if a != [] {
      assert (a + b)[1..] == a[1..] + b;
      UpdateIdsAppend(a[1..], b);
    }
  }

  /** The updated memories whose id the dictionary knows, in order and untouched. */
  function Known(us: seq<UpdatedMemory>, m: map<Key, Key>): (r: seq<UpdatedMemory>)
    ensures |r| <= |us|
    ensures forall x :: x in r <==> x in us && x.memoryId in m
  {
    if us == [] then []
    else (if us[0].memoryId in m then [us[0]] else []) + Known(us[1..], m)
  }

  /**
   * A kept update keeps its content: the filter drops the updates with an unknown id and
   * rewrites only the id of the others, which are the known updates in their order.
   */
  lemma {:induction false} FilterUpdatesContent(us: seq<UpdatedMemory>, m: map<Key, Key>)
    ensures |FilterUpdates(us, m)| == |Known(us, m)|
    ensures forall i :: 0 <= i < |Known(us, m)| ==>
              FilterUpdates(us, m)[i] == UpdatedMemory(m[Known(us, m)[i].memoryId], Known(us, m)[i].content)
  {
    if us != [] {
      FilterUpdatesContent(us[1..], m);
      if us[0].memoryId in m {
        var k := Known(us, m);
        var f := FilterUpdates(us, m);
        assert k == [us[0]] + Known(us[1..], m);
        assert f == [us[0].(memoryId := m[us[0].memoryId])] + FilterUpdates(us[1..], m);
        forall i | 0 <= i < |k|
          ensures f[i] == UpdatedMemory(m[k[i].memoryId], k[i].content)
        {
          if i > 0 {
            assert k[i] == Known(us[1..], m)[i - 1];
            assert f[i] == FilterUpdates(us[1..], m)[i - 1];
          }
        }
      } else {
        assert Known(us, m) == Known(us[1..], m);
        assert FilterUpdates(us, m) == FilterUpdates(us[1..], m);
      }
    }
  }

  /** When the dictionary knows every id, the known updates are all of them. */
  lemma {:induction false} KnownAll(us: seq<UpdatedMemory>, m: map<Key, Key>)
    requires forall i :: 0 <= i < |us| ==> us[i].memoryId in m
    ensures Known(us, m) == us
  {
    if us != [] {
      KnownAll(us[1..], m);
    }
  }

  // ---------------------------------------------------------------------------------------
  // The two dictionaries

  /**
   * As written: the model answers with the renumbered ids `Int(i)` it was shown, the
   * dictionary is keyed by the record store's string ids, so every id is dropped.
   */
  lemma AsWrittenDropsEveryId(ids: seq<Key>, ms: seq<Memory>)
    requires forall i :: 0 <= i < |ids| ==> ids[i].Int?
    requires forall j :: 0 <= j < |ms| ==> ms[j].id.Str?
    ensures Denormalize(ids, BackMapping(AsWritten, ms)) == []
  {
    forall i | 0 <= i < |ids|
      ensures ids[i] !in BackMapping(AsWritten, ms)
    {
      MappingMissesNewIds(Ids(ms), ids[i].i);
    }
    DenormalizeNoneKnown(ids, BackMapping(AsWritten, ms));
  }

  /**
   * Corrected: a renumbered id the model was shown is translated back to the id of the
   * memory at that position, in the order the model gave.
   */
  lemma CorrectedRestoresIds(positions: seq<nat>, ms: seq<Memory>)
    requires forall i :: 0 <= i < |positions| ==> positions[i] < |ms|
    ensures Denormalize(seq(|positions|, i requires 0 <= i < |positions| => Int(positions[i])),
                        BackMapping(Corrected, ms))
            == seq(|positions|, i requires 0 <= i < |positions| => ms[positions[i]].id)
  {
    var ids := seq(|positions|, i requires 0 <= i < |positions| => Int(positions[i]));
    DenormalizeAllKnown(ids, BackMapping(Corrected, ms));
  }

  /**
   * As written, every update that survives the filter carries an integer id: the values of
   * the dictionary the code builds are positions.
   */
  lemma AsWrittenUpdatesHaveIntIds(us: seq<UpdatedMemory>, ms: seq<Memory>)
    ensures forall j :: 0 <= j < |FilterUpdates(us, BackMapping(AsWritten, ms))| ==>
              FilterUpdates(us, BackMapping(AsWritten, ms))[j].memoryId.Int?
  {
    var m := BackMapping(AsWritten, ms);
    var kept := FilterUpdates(us, m);
    UpdateIdsFiltered(us, m);
    forall j | 0 <= j < |kept|
      ensures kept[j].memoryId.Int?
    {
      var x := UpdateIds(kept)[j];
      DenormalizeMembers(UpdateIds(us), m, x);
      var i :| 0 <= i < |UpdateIds(us)| && UpdateIds(us)[i] in m && m[UpdateIds(us)[i]] == x;
      MappingValues(Ids(ms), UpdateIds(us)[i]);
    }
  }
}
