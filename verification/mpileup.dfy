/**
 Stage 3: one filter/mpileup work unit per stage-1 result, in result order.
 Chunk handles are looked up by the result's ids, and the corrected index by
 position `fq_i` in the correction results sorted by read chunk id. Any
 subscript past the end of its list raises IndexError, which aborts the
 whole generation.
 */
module Mpileup {
  import opened Wrappers
  import opened Records
  import opened StableSort

  /** Every subscript taken for result `t` is in range. */
  ghost predicate InBounds<K, F>(t: MapResult<K, F>, nFasta: nat, nFastq: nat, nIndexes: nat) {
    t.faId < nFasta && t.fqId < nFastq && t.fqId < nIndexes
  }

  /** Subscript `lookup` is the first one out of range for result `t`. */
  ghost predicate RaisesAt<K, F>(t: MapResult<K, F>, lookup: Lookup, nFasta: nat, nFastq: nat, nIndexes: nat) {
    match lookup
    case FastaChunks => t.faId >= nFasta
    case FastqChunks => t.faId < nFasta && t.fqId >= nFastq
    case CorrectedIndexes => t.faId < nFasta && t.fqId < nFastq && t.fqId >= nIndexes
  }

  /**
   The handles of the correction results, stably sorted by read chunk id:
   one handle per correction result. The handle at position `i` is the one
   the stable sort puts there, so results sharing an id keep their arrival
   order, and the input reports it for the read chunk at sorted position `i`.
   */
  function CorrectedIndexesFq<H>(corrected: seq<CorrectedIndex<H>>): (table: seq<H>)
    ensures |table| == |corrected|
    ensures forall i :: 0 <= i < |table| ==> table[i] == SortById(corrected)[i].handle
    ensures forall i :: 0 <= i < |table| ==> CorrectedIndex(SortById(corrected)[i].fqId, table[i]) in corrected
  {
    var sorted := SortById(corrected);
    seq(|sorted|, i requires 0 <= i < |sorted| => sorted[i].handle)
  }

  /** The generation loop, from result `i` on. */
  function UnitsFrom<P, A, Q, K, F, H>(p: P, fasta: seq<A>, fastq: seq<Q>, results: seq<MapResult<K, F>>, table: seq<H>, i: nat)
    : (r: Result<seq<MpileupUnit<P, A, Q, F, H>>, IndexError>)
    requires i <= |results|
    decreases |results| - i
    ensures r.Success? <==> forall j :: i <= j < |results| ==> InBounds(results[j], |fasta|, |fastq|, |table|)
    ensures r.Success? ==> |r.value| == |results| - i
    ensures r.Success? ==> forall j :: i <= j < |results| ==>
      r.value[j - i] == MpileupUnit(p, results[j].faId, fasta[results[j].faId], results[j].fqId,
                                    fastq[results[j].fqId], results[j].filterKey, table[results[j].fqId])
    ensures r.Failure? ==>
      && i <= r.error.position < |results|
      && RaisesAt(results[r.error.position], r.error.lookup, |fasta|, |fastq|, |table|)
      && forall j :: i <= j < r.error.position ==> InBounds(results[j], |fasta|, |fastq|, |table|)
  {
    if i == |results| then Success([])
    else
      var t := results[i];
      if t.faId >= |fasta| then Failure(IndexError(i, FastaChunks))
      else if t.fqId >= |fastq| then Failure(IndexError(i, FastqChunks))
      else if t.fqId >= |table| then Failure(IndexError(i, CorrectedIndexes))
      else
        match UnitsFrom(p, fasta, fastq, results, table, i + 1)
        case Failure(e) => Failure(e)
        case Success(rest) =>
          Success([MpileupUnit(p, t.faId, fasta[t.faId], t.fqId, fastq[t.fqId], t.filterKey, table[t.fqId])] + rest)
  }

  /**
   generate_index_to_mpileup_iterdata: succeeds exactly when every subscript
   is in range, with one unit per stage-1 result; an IndexError names one of
   the stage-1 results. `IndexToMpileupIterdataSpec` gives the full contract.
   */
  function IndexToMpileupIterdata<P, A, Q, K, F, H>(
    p: P, fasta: seq<A>, fastq: seq<Q>, results: seq<MapResult<K, F>>, corrected: seq<CorrectedIndex<H>>)
    : (r: Result<seq<MpileupUnit<P, A, Q, F, H>>, IndexError>)
    ensures r.Success? <==> forall j :: 0 <= j < |results| ==> InBounds(results[j], |fasta|, |fastq|, |corrected|)
    ensures r.Success? ==> |r.value| == |results|
    ensures r.Failure? ==> r.error.position < |results|
  {
    UnitsFrom(p, fasta, fastq, results, CorrectedIndexesFq(corrected), 0)
  }

  /**
   Stage-3 generation succeeds exactly when every subscript is in range; it
   then yields one unit per stage-1 result, in order, carrying that result's
   ids and filtered map key, the chunks at those ids, and the handle at
   position `fq_i` of the sorted correction results. Otherwise it raises at
   the first result with an out-of-range subscript, naming that subscript.
   */
  lemma IndexToMpileupIterdataSpec<P, A, Q, K, F, H>(
    p: P, fasta: seq<A>, fastq: seq<Q>, results: seq<MapResult<K, F>>, corrected: seq<CorrectedIndex<H>>)
    ensures var r := IndexToMpileupIterdata(p, fasta, fastq, results, corrected);
      && (r.Success? <==> forall j :: 0 <= j < |results| ==> InBounds(results[j], |fasta|, |fastq|, |corrected|))
      && (r.Success? ==> |r.value| == |results|)
      && (r.Success? ==> forall j :: 0 <= j < |results| ==>
            && r.value[j].pipelineParams == p
            && r.value[j].fastaChunkId == results[j].faId
            && r.value[j].fastaChunk == fasta[results[j].faId]
            && r.value[j].fastqChunkId == results[j].fqId
            && r.value[j].fastqChunk == fastq[results[j].fqId]
            && r.value[j].filteredMapKey == results[j].filterKey
            && r.value[j].correctedIndexKey == SortById(corrected)[results[j].fqId].handle)
      && (r.Failure? ==>
            && r.error.position < |results|
            && RaisesAt(results[r.error.position], r.error.lookup, |fasta|, |fastq|, |corrected|)
            && forall j :: 0 <= j < r.error.position ==> InBounds(results[j], |fasta|, |fastq|, |corrected|))
  {
    var r := IndexToMpileupIterdata(p, fasta, fastq, results, corrected);
    var table := CorrectedIndexesFq(corrected);
    assert |table| == |corrected|;
    if r.Success? {
      forall j | 0 <= j < |results|
        ensures r.value[j] == MpileupUnit(p, results[j].faId, fasta[results[j].faId], results[j].fqId,
                                          fastq[results[j].fqId], results[j].filterKey, table[results[j].fqId])
      {
        assert r.value[j - 0] == r.value[j];
      }
    }
  }

  /**
   Correlation by position is correct when the correction results have
   distinct read chunk ids covering `0..|fastq|-1`: generation then succeeds
   for in-range chunk ids, and each unit's corrected index is the one the
   correction stage reported for that unit's own read chunk.
   */
  lemma DenseIdsCorrelate<P, A, Q, K, F, H>(
    p: P, fasta: seq<A>, fastq: seq<Q>, results: seq<MapResult<K, F>>, corrected: seq<CorrectedIndex<H>>)
    requires forall j :: 0 <= j < |results| ==> results[j].faId < |fasta| && results[j].fqId < |fastq|
    requires DistinctIds(corrected) && Covers(corrected, |fastq|)
    ensures var r := IndexToMpileupIterdata(p, fasta, fastq, results, corrected);
      && r.Success?
      && |r.value| == |results|
      && forall j :: 0 <= j < |results| ==>
           && r.value[j] == MpileupUnit(p, results[j].faId, fasta[results[j].faId], results[j].fqId,
                                        fastq[results[j].fqId], results[j].filterKey, r.value[j].correctedIndexKey)
           && CorrectedIndex(results[j].fqId, r.value[j].correctedIndexKey) in corrected
  {
    SortedLookupMatchesId(corrected, |fastq|);
    IndexToMpileupIterdataSpec(p, fasta, fastq, results, corrected);
    var r := IndexToMpileupIterdata(p, fasta, fastq, results, corrected);
    var sorted := SortById(corrected);
    forall j | 0 <= j < |results|
      ensures r.value[j] == MpileupUnit(p, results[j].faId, fasta[results[j].faId], results[j].fqId,
                                        fastq[results[j].fqId], results[j].filterKey, r.value[j].correctedIndexKey)
      ensures CorrectedIndex(results[j].fqId, r.value[j].correctedIndexKey) in corrected
    {
      assert sorted[results[j].fqId] == CorrectedIndex(results[j].fqId, r.value[j].correctedIndexKey);
    }
  }

  /**
   Without that density the positional lookup silently pairs a read chunk
   with another chunk's corrected index: a single correction result reported
   for read chunk 1 is handed to the unit for read chunk 0, and no error is
   raised.
   */
  lemma PositionalLookupCanMismatch<P, A, Q, K, F, H>(p: P, a: A, q0: Q, q1: Q, key: K, filtered: F, h: H)
    ensures var corrected := [CorrectedIndex(1, h)];
      var r := IndexToMpileupIterdata(p, [a], [q0, q1], [MapResult(0, 0, key, filtered)], corrected);
      && r.Success?
      && r.value[0].fastqChunkId == 0
      && r.value[0].correctedIndexKey == h
      && !HasCorrection(corrected, 0)
  {
    var corrected := [CorrectedIndex(1, h)];
    assert SortById(corrected) == corrected by {
      SortByIdIdempotent(corrected);
    }
  }
}
