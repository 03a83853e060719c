/** The result type of operations that can raise. */
module Wrappers {

  /** The outcome of an operation that can raise. */
  datatype Result<+T, +E> = Success(value: T) | Failure(error: E)
}

/**
 The records exchanged between the three fan-out stages of the alignment
 phase. Each work unit mirrors the keys of the parameter dictionary the
 generator builds; each result mirrors the tuple a remote work function
 returns. Pipeline configuration, chunk handles, map keys, filtered map keys
 and corrected-index handles are opaque to the orchestration, so they are
 type parameters:

   P  pipeline parameters        A  reference (fasta) chunk handle
   Q  read (fastq) chunk handle  K  map index key
   F  filtered map key           H  corrected index handle
 */
module Records {

  /** Stage-1 work unit: one (reference chunk, read chunk) pair for the indexer/mapper. */
  datatype MapperUnit<P, A, Q> = MapperUnit(
    pipelineParams: P,
    fastaChunkId: nat,
    fastaChunk: A,
    fastqChunk: Q,
    fastqChunkId: nat)

  /** Stage-1 result tuple `(fq_id, fa_id, map_key, filter_key)`. */
  datatype MapResult<K, F> = MapResult(fqId: nat, faId: nat, mapKey: K, filterKey: F)

  /** Index-correction work unit: every map key produced for one read chunk. */
  datatype CorrectionUnit<P, K> = CorrectionUnit(
    pipelineParams: P,
    fastqChunkId: nat,
    mapIndexKeys: seq<K>)

  /** Index-correction result tuple `(fq_id, corrected_index_handle)`. */
  datatype CorrectedIndex<H> = CorrectedIndex(fqId: nat, handle: H)

  /** Stage-3 work unit for the filter/mpileup function. */
  datatype MpileupUnit<P, A, Q, F, H> = MpileupUnit(
    pipelineParams: P,
    fastaChunkId: nat,
    fastaChunk: A,
    fastqChunkId: nat,
    fastqChunk: Q,
    filteredMapKey: F,
    correctedIndexKey: H)

  /** The three list subscripts of stage-3 generation, in evaluation order. */
  datatype Lookup = FastaChunks | FastqChunks | CorrectedIndexes

  /** An IndexError raised while building the stage-3 unit for the stage-1 result at `position`. */
  datatype IndexError = IndexError(position: nat, lookup: Lookup)

  /** No two correction results report the same read chunk. */
  ghost predicate DistinctIds<H>(c: seq<CorrectedIndex<H>>) {
    forall i, j :: 0 <= i < |c| && 0 <= j < |c| && i != j ==> c[i].fqId != c[j].fqId
  }

  /** Read chunk `id` has a correction result. */
  ghost predicate HasCorrection<H>(c: seq<CorrectedIndex<H>>, id: nat) {
    exists i :: 0 <= i < |c| && c[i].fqId == id
  }

  /** Every read chunk id below `n` has a correction result. */
  ghost predicate Covers<H>(c: seq<CorrectedIndex<H>>, n: nat) {
    forall v: nat :: v < n ==> HasCorrection(c, v)
  }

  /** Read chunk `id` occurs among the stage-1 results. */
  ghost predicate Occurs<K, F>(results: seq<MapResult<K, F>>, id: nat) {
    exists j :: 0 <= j < |results| && results[j].fqId == id
  }
}
