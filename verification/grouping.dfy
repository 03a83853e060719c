/**
 Stage 2: stage-1 results are grouped by read chunk id into an
 insertion-ordered dictionary from id to the list of map keys, and one
 index-correction work unit is emitted per group.
 */
module Grouping {
  import opened Records

  /** One dictionary entry: a read chunk id and the map keys collected for it. */
  datatype Group<K> = Group(fqId: nat, mapKeys: seq<K>)

  /** The dictionary has an entry for `id`. */
  ghost predicate HasGroup<K>(gs: seq<Group<K>>, id: nat) {
    exists i :: 0 <= i < |gs| && gs[i].fqId == id
  }

  /** Dictionary keys are unique. */
  ghost predicate UniqueKeys<K>(gs: seq<Group<K>>) {
    forall i, j :: 0 <= i < |gs| && 0 <= j < |gs| && i != j ==> gs[i].fqId != gs[j].fqId
  }

  /** Reference definition: the map keys of the results for read chunk `id`, in result order. */
  function MapKeysOf<K, F>(results: seq<MapResult<K, F>>, id: nat): seq<K> {
    if |results| == 0 then []
    else
      var last := results[|results| - 1];
      MapKeysOf(results[..|results| - 1], id) + (if last.fqId == id then [last.mapKey] else [])
  }

  /** Total number of map keys held by the dictionary. */
  function TotalKeys<K>(gs: seq<Group<K>>): nat {
    if |gs| == 0 then 0 else |gs[0].mapKeys| + TotalKeys(gs[1..])
  }

  /**
   `fq_groups[id].append(key)` on a default dictionary: an existing entry gets
   `key` at the end of its list, every other entry is untouched, and a new id
   becomes a fresh entry at the end of the insertion order.
   */
  function Append<K>(gs: seq<Group<K>>, id: nat, key: K): (r: seq<Group<K>>)
    requires UniqueKeys(gs)
    ensures UniqueKeys(r)
    ensures HasGroup(gs, id) ==> |r| == |gs|
    ensures !HasGroup(gs, id) ==> |r| == |gs| + 1 && r[|gs|] == Group(id, [key])
    ensures forall i :: 0 <= i < |gs| ==> r[i].fqId == gs[i].fqId
  {
    if |gs| == 0 then [Group(id, [key])]
    else if gs[0].fqId == id then [Group(id, gs[0].mapKeys + [key])] + gs[1..]
    else
      var rest := Append(gs[1..], id, key);
      assert HasGroup(gs, id) <==> HasGroup(gs[1..], id) by {
        if HasGroup(gs, id) {
          var i :| 0 <= i < |gs| && gs[i].fqId == id;
          assert gs[1..][i - 1].fqId == id;
        }
      }
      [gs[0]] + rest
  }

  /** Appending extends the list of the matching entry by `key` and leaves the other lists alone. */
  lemma {:induction false} AppendContentsAt<K>(gs: seq<Group<K>>, id: nat, key: K, i: nat)
    requires UniqueKeys(gs) && i < |gs|
    ensures Append(gs, id, key)[i].mapKeys == (if gs[i].fqId == id then gs[i].mapKeys + [key] else gs[i].mapKeys)
  {
    if gs[0].fqId != id && i > 0 {
      assert UniqueKeys(gs[1..]);
      AppendContentsAt(gs[1..], id, key, i - 1);
    }
  }

  /** The grouping loop over `gem_mapper_output`. */
  function GroupByFastq<K, F>(results: seq<MapResult<K, F>>): (gs: seq<Group<K>>)
    ensures UniqueKeys(gs)
  {
    if |results| == 0 then []
    else
      var last := results[|results| - 1];
      Append(GroupByFastq(results[..|results| - 1]), last.fqId, last.mapKey)
  }

  lemma {:induction false} MapKeysOfAbsent<K, F>(results: seq<MapResult<K, F>>, id: nat)
    requires !Occurs(results, id)
    ensures MapKeysOf(results, id) == []
  {
    if |results| > 0 {
      var pre := results[..|results| - 1];
      OccursStep(results);
      MapKeysOfAbsent(pre, id);
    }
  }

  /** Occurrence in a non-empty result list splits into the prefix and the last result. */
  lemma OccursStep<K, F>(results: seq<MapResult<K, F>>)
    requires |results| > 0
    ensures forall id :: Occurs(results, id) <==>
      Occurs(results[..|results| - 1], id) || results[|results| - 1].fqId == id
  {
    var pre := results[..|results| - 1];
    forall id
      ensures Occurs(results, id) <==> Occurs(pre, id) || results[|results| - 1].fqId == id
    {
      if Occurs(pre, id) {
        var j :| 0 <= j < |pre| && pre[j].fqId == id;
        assert results[j].fqId == id;
      }
      if Occurs(results, id) && results[|results| - 1].fqId != id {
        var j :| 0 <= j < |results| && results[j].fqId == id;
        assert pre[j].fqId == id;
      }
    }
  }

  /** Appending adds exactly the appended id to the dictionary's keys. */
  lemma AppendKeys<K>(gs: seq<Group<K>>, id: nat, key: K)
    requires UniqueKeys(gs)
    ensures forall x :: HasGroup(Append(gs, id, key), x) <==> HasGroup(gs, x) || x == id
  {
    var r := Append(gs, id, key);
    forall x
      ensures HasGroup(r, x) <==> HasGroup(gs, x) || x == id
    {
      if HasGroup(r, x) {
        var i :| 0 <= i < |r| && r[i].fqId == x;
        if i < |gs| {
          assert gs[i].fqId == x;
        }
      }
      if HasGroup(gs, x) {
        var i :| 0 <= i < |gs| && gs[i].fqId == x;
        assert r[i].fqId == x;
      }
      if x == id {
        if HasGroup(gs, id) {
          var i :| 0 <= i < |gs| && gs[i].fqId == id;
          assert r[i].fqId == x;
        } else {
          assert r[|gs|].fqId == x;
        }
      }
    }
  }

  /** The dictionary has an entry for exactly the read chunk ids that occur in the results. */
  lemma {:induction false} GroupKeysAreResultIds<K, F>(results: seq<MapResult<K, F>>)
    ensures forall id :: HasGroup(GroupByFastq(results), id) <==> Occurs(results, id)
  {
    if |results| > 0 {
      var pre := results[..|results| - 1];
      var last := results[|results| - 1];
      GroupKeysAreResultIds(pre);
      OccursStep(results);
      AppendKeys(GroupByFastq(pre), last.fqId, last.mapKey);
    }
  }

  /** Entry `i`'s list is exactly the map keys of the results for its read chunk, in result order. */
  lemma {:induction false} GroupContentsAt<K, F>(results: seq<MapResult<K, F>>, i: nat)
    requires i < |GroupByFastq(results)|
    ensures GroupByFastq(results)[i].mapKeys == MapKeysOf(results, GroupByFastq(results)[i].fqId)
  {
    var pre := results[..|results| - 1];
    var last := results[|results| - 1];
    var g := GroupByFastq(pre);
    var x := GroupByFastq(results)[i].fqId;
    assert MapKeysOf(results, x) == MapKeysOf(pre, x) + (if last.fqId == x then [last.mapKey] else []);
    if i < |g| {
      GroupContentsAt(pre, i);
      AppendContentsAt(g, last.fqId, last.mapKey, i);
    } else {
      GroupKeysAreResultIds(pre);
      MapKeysOfAbsent(pre, last.fqId);
    }
  }

  /** One instance of `GroupKeysAreResultIds`. */
  lemma GroupKeyIsResultId<K, F>(results: seq<MapResult<K, F>>, id: nat)
    ensures HasGroup(GroupByFastq(results), id) <==> Occurs(results, id)
  {
    GroupKeysAreResultIds(results);
  }

  /**
   Entries appear in first-occurrence order: before any result for entry
   `i'`'s read chunk, some result for an earlier entry `i`'s read chunk has
   already been seen.
   */
  lemma {:induction false} FirstOccurrenceOrderAt<K, F>(results: seq<MapResult<K, F>>, i: nat, i': nat, j': nat)
    requires i < i' < |GroupByFastq(results)| && j' < |results|
    requires results[j'].fqId == GroupByFastq(results)[i'].fqId
    ensures Occurs(results[..j'], GroupByFastq(results)[i].fqId)
  {
    var pre := results[..|results| - 1];
    var last := results[|results| - 1];
    var g := GroupByFastq(pre);
    var gs := GroupByFastq(results);
    assert gs == Append(g, last.fqId, last.mapKey);
    if j' < |pre| {
      // the id of result j' was already grouped, so entry i' is an old entry
      assert pre[j'] == results[j'];
      assert Occurs(pre, results[j'].fqId);
      GroupKeyIsResultId(pre, results[j'].fqId);
      assert i' < |g|;
      FirstOccurrenceOrderAt(pre, i, i', j');
      assert results[..j'] == pre[..j'];
    } else {
      assert results[..j'] == pre;
      assert HasGroup(g, g[i].fqId);
      GroupKeyIsResultId(pre, g[i].fqId);
    }
  }

  lemma {:induction false} AppendAddsOneKey<K>(gs: seq<Group<K>>, id: nat, key: K)
    requires UniqueKeys(gs)
    ensures TotalKeys(Append(gs, id, key)) == TotalKeys(gs) + 1
  {
    if |gs| == 0 {
    } else if gs[0].fqId == id {
      assert ([Group(id, gs[0].mapKeys + [key])] + gs[1..])[1..] == gs[1..];
    } else {
      assert UniqueKeys(gs[1..]);
      AppendAddsOneKey(gs[1..], id, key);
      assert ([gs[0]] + Append(gs[1..], id, key))[1..] == Append(gs[1..], id, key);
    }
  }

  /** Grouping neither loses nor duplicates a map key: the lists hold one key per result. */
  lemma {:induction false} GroupingLosesNothing<K, F>(results: seq<MapResult<K, F>>)
    ensures TotalKeys(GroupByFastq(results)) == |results|
  {
    if |results| > 0 {
      var last := results[|results| - 1];
      GroupingLosesNothing(results[..|results| - 1]);
      AppendAddsOneKey(GroupByFastq(results[..|results| - 1]), last.fqId, last.mapKey);
    }
  }

  /**
   generate_index_correction_iterdata: no units for no results; every unit
   carries the run parameters, and no two units share a read chunk id.
   `IndexCorrectionIterdataSpec` gives the full contract.
   */
  function IndexCorrectionIterdata<P, K, F>(p: P, results: seq<MapResult<K, F>>): (iterdata: seq<CorrectionUnit<P, K>>)
    ensures |results| == 0 ==> iterdata == []
    ensures forall i :: 0 <= i < |iterdata| ==> iterdata[i].pipelineParams == p
    ensures forall i, j :: 0 <= i < |iterdata| && 0 <= j < |iterdata| && i != j ==>
      iterdata[i].fastqChunkId != iterdata[j].fastqChunkId
  {
    var gs := GroupByFastq(results);
    seq(|gs|, i requires 0 <= i < |gs| => CorrectionUnit(p, gs[i].fqId, gs[i].mapKeys))
  }

  /**
   Index-correction generation emits one unit per distinct read chunk id of
   the results (and none for an empty result list), in first-occurrence
   order, each carrying the run parameters and exactly that chunk's map keys
   in result order.
   */
  lemma IndexCorrectionIterdataSpec<P, K, F>(p: P, results: seq<MapResult<K, F>>)
    ensures var iterdata := IndexCorrectionIterdata(p, results);
      && (|results| == 0 ==> iterdata == [])
      && (forall i, j :: 0 <= i < |iterdata| && 0 <= j < |iterdata| && i != j ==>
            iterdata[i].fastqChunkId != iterdata[j].fastqChunkId)
      && (forall i :: 0 <= i < |iterdata| ==>
            && iterdata[i].pipelineParams == p
            && Occurs(results, iterdata[i].fastqChunkId)
            && iterdata[i].mapIndexKeys == MapKeysOf(results, iterdata[i].fastqChunkId))
      && (forall j :: 0 <= j < |results| ==>
            exists i :: 0 <= i < |iterdata| && iterdata[i].fastqChunkId == results[j].fqId)
      && (forall i, i', j' :: 0 <= i < i' < |iterdata| && 0 <= j' < |results| && results[j'].fqId == iterdata[i'].fastqChunkId ==>
            Occurs(results[..j'], iterdata[i].fastqChunkId))
  {
    var gs := GroupByFastq(results);
    var iterdata := IndexCorrectionIterdata(p, results);
    GroupKeysAreResultIds(results);
    forall i | 0 <= i < |iterdata|
      ensures iterdata[i].pipelineParams == p
      ensures Occurs(results, iterdata[i].fastqChunkId)
      ensures iterdata[i].mapIndexKeys == MapKeysOf(results, iterdata[i].fastqChunkId)
    {
      assert HasGroup(gs, gs[i].fqId);
      GroupContentsAt(results, i);
    }
    forall j | 0 <= j < |results|
      ensures exists i :: 0 <= i < |iterdata| && iterdata[i].fastqChunkId == results[j].fqId
    {
      assert Occurs(results, results[j].fqId);
      var i :| 0 <= i < |gs| && gs[i].fqId == results[j].fqId;
      assert iterdata[i].fastqChunkId == results[j].fqId;
    }
    forall i, i', j' | 0 <= i < i' < |iterdata| && 0 <= j' < |results| && results[j'].fqId == iterdata[i'].fastqChunkId
      ensures Occurs(results[..j'], iterdata[i].fastqChunkId)
    {
      FirstOccurrenceOrderAt(results, i, i', j');
    }
  }
}
