/**
 Stage 1: the work units for the indexer/mapper are the full cross product of
 reference chunks and read chunks, reference chunks in the outer loop.
 */
module CrossProduct {
  import opened Records

  /**
   Where row `rows` of a row-major layout with `width` columns starts, that
   is `rows * width` (`RowStartIsProduct`), spelled out as repeated addition
   to keep positions linear.
   */
  function RowStart(rows: nat, width: nat): nat {
    if rows == 0 then 0 else RowStart(rows - 1, width) + width
  }

  /**
   `u` is the well-formed unit that belongs at position `k`: it carries the
   run's parameters, in-range chunk ids, the chunks at those ids, and sits at
   row-major position `fastaChunkId * |fastq| + fastqChunkId`.
   */
  ghost predicate PlacedAt<P, A, Q>(u: MapperUnit<P, A, Q>, k: int, p: P, fasta: seq<A>, fastq: seq<Q>) {
    && u.pipelineParams == p
    && u.fastaChunkId < |fasta|
    && u.fastqChunkId < |fastq|
    && u.fastaChunk == fasta[u.fastaChunkId]
    && u.fastqChunk == fastq[u.fastqChunkId]
    && RowStart(u.fastaChunkId, |fastq|) + u.fastqChunkId == k
  }

  /** The inner loop over the first `n` read chunks, for reference chunk `faI`. */
  function InnerLoop<P, A, Q>(p: P, faI: nat, faCh: A, fastq: seq<Q>, n: nat): (row: seq<MapperUnit<P, A, Q>>)
    requires n <= |fastq|
    ensures |row| == n
    ensures forall j :: 0 <= j < n ==>
      row[j] == MapperUnit(p, faI, faCh, fastq[j], j)
  {
    if n == 0 then []
    else InnerLoop(p, faI, faCh, fastq, n - 1) + [MapperUnit(p, faI, faCh, fastq[n - 1], n - 1)]
  }

  /** The outer loop over the first `m` reference chunks. */
  function OuterLoop<P, A, Q>(p: P, fasta: seq<A>, fastq: seq<Q>, m: nat): (units: seq<MapperUnit<P, A, Q>>)
    requires m <= |fasta|
    ensures |units| == RowStart(m, |fastq|)
    ensures forall k :: 0 <= k < |units| ==> PlacedAt(units[k], k, p, fasta, fastq)
  {
    if m == 0 then []
    else
      var prev := OuterLoop(p, fasta, fastq, m - 1);
      var row := InnerLoop(p, m - 1, fasta[m - 1], fastq, |fastq|);
      assert forall k :: |prev| <= k < |prev| + |row| ==>
        PlacedAt((prev + row)[k], k, p, fasta, fastq);
      prev + row
  }

  /** generate_gem_indexer_mapper_iterdata */
  function GemIndexerMapperIterdata<P, A, Q>(p: P, fasta: seq<A>, fastq: seq<Q>): (iterdata: seq<MapperUnit<P, A, Q>>)
    ensures |iterdata| == RowStart(|fasta|, |fastq|)
    ensures forall k :: 0 <= k < |iterdata| ==> PlacedAt(iterdata[k], k, p, fasta, fastq)
  {
    OuterLoop(p, fasta, fastq, |fasta|)
  }

  lemma {:induction false} RowStartIsProduct(rows: nat, width: nat)
    ensures RowStart(rows, width) == rows * width
  {
    if rows > 0 {
      RowStartIsProduct(rows - 1, width);
      assert (rows - 1) * width + width == rows * width;
    }
  }

  /** Stage 1 emits `|fasta| * |fastq|` units, so none when either list is empty. */
  lemma GemIndexerMapperCount<P, A, Q>(p: P, fasta: seq<A>, fastq: seq<Q>)
    ensures |GemIndexerMapperIterdata(p, fasta, fastq)| == |fasta| * |fastq|
  {
    RowStartIsProduct(|fasta|, |fastq|);
  }

  /** A later row starts after every position of an earlier one. */
  lemma {:induction false} RowStartMonotone(a: nat, b: nat, width: nat)
    requires a < b
    ensures RowStart(a, width) + width <= RowStart(b, width)
  {
    if a + 1 < b {
      RowStartMonotone(a, b - 1, width);
    }
  }

  /** Row-major positions name each pair of ids exactly once. */
  lemma RowMajorUnique(a1: nat, b1: nat, a2: nat, b2: nat, n: nat)
    requires b1 < n && b2 < n
    requires RowStart(a1, n) + b1 == RowStart(a2, n) + b2
    ensures a1 == a2 && b1 == b2
  {
    if a1 < a2 {
      RowStartMonotone(a1, a2, n);
    } else if a2 < a1 {
      RowStartMonotone(a2, a1, n);
    }
  }

  /**
   Every pair `(faI, fqI)` of in-range ids has exactly one work unit, at
   row-major position `faI * |fastq| + fqI`, carrying both chunks and the run
   parameters.
   */
  lemma {:induction false} EachPairExactlyOnce<P, A, Q>(p: P, fasta: seq<A>, fastq: seq<Q>, faI: nat, fqI: nat)
    requires faI < |fasta| && fqI < |fastq|
    ensures var iterdata := GemIndexerMapperIterdata(p, fasta, fastq);
      && RowStart(faI, |fastq|) + fqI < |iterdata|
      && iterdata[RowStart(faI, |fastq|) + fqI] == MapperUnit(p, faI, fasta[faI], fastq[fqI], fqI)
      && forall k :: 0 <= k < |iterdata| && iterdata[k].fastaChunkId == faI && iterdata[k].fastqChunkId == fqI ==>
           k == RowStart(faI, |fastq|) + fqI
  {
    var iterdata := GemIndexerMapperIterdata(p, fasta, fastq);
    var k := RowStart(faI, |fastq|) + fqI;
    RowStartMonotone(faI, |fasta|, |fastq|);
    var u := iterdata[k];
    assert PlacedAt(u, k, p, fasta, fastq);
    RowMajorUnique(u.fastaChunkId, u.fastqChunkId, faI, fqI, |fastq|);
  }
}
