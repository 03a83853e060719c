/**
 The alignment phase: three fan-out stages run back to back, each a full
 barrier. The remote invoker is modelled as a map that applies the work
 function to every unit and returns the results in an order the substrate
 chooses; the three work functions are uninterpreted.
 */
module Pipeline {
  import opened Wrappers
  import opened Records
  import opened CrossProduct
  import opened Grouping
  import opened Mpileup

  /** Position `k` appears in `order`. */
  ghost predicate Listed(order: seq<nat>, k: nat) {
    exists i :: 0 <= i < |order| && order[i] == k
  }

  /** `order` lists every position below `n` exactly once. */
  ghost predicate IsPermutation(order: seq<nat>, n: nat) {
    && |order| == n
    && (forall i :: 0 <= i < n ==> order[i] < n)
    && (forall i, j :: 0 <= i < n && 0 <= j < n && i != j ==> order[i] != order[j])
    && (forall k: nat :: k < n ==> Listed(order, k))
  }

  /** A completion order the substrate may pick for every batch size. */
  ghost predicate IsSchedule(schedule: nat -> seq<nat>) {
    forall n: nat :: IsPermutation(schedule(n), n)
  }

  /**
   `lithops.invoker.map`: every unit is run once and its result returned,
   in the completion order `schedule` picks for a batch of that size.
   */
  function InvokerMap<X, Y>(work: X -> Y, iterdata: seq<X>, schedule: nat -> seq<nat>): seq<Y>
    requires IsSchedule(schedule)
  {
    var order := schedule(|iterdata|);
    assert IsPermutation(order, |iterdata|);
    seq(|iterdata|, i requires 0 <= i < |iterdata| => work(iterdata[order[i]]))
  }

  /** Stage-1 results: the indexer/mapper run over the full cross product. */
  function MapperResults<P, A, Q, K, F>(
    p: P, fasta: seq<A>, fastq: seq<Q>, mapper: MapperUnit<P, A, Q> -> MapResult<K, F>, schedule: nat -> seq<nat>)
    : seq<MapResult<K, F>>
    requires IsSchedule(schedule)
  {
    InvokerMap(mapper, GemIndexerMapperIterdata(p, fasta, fastq), schedule)
  }

  /** Index-correction results: the correction run over the grouped stage-1 results. */
  function CorrectionResults<P, K, F, H>(
    p: P, results: seq<MapResult<K, F>>, correct: CorrectionUnit<P, K> -> CorrectedIndex<H>, schedule: nat -> seq<nat>)
    : seq<CorrectedIndex<H>>
    requires IsSchedule(schedule)
  {
    InvokerMap(correct, IndexCorrectionIterdata(p, results), schedule)
  }

  /**
   run_full_alignment: the three stages in sequence. An IndexError in stage-3
   generation aborts the run and names one of the stage-1 results; otherwise
   the run yields the filter's outputs, one per chunk pair.
   */
  function RunFullAlignment<P, A, Q, K, F, H, O>(
    p: P, fasta: seq<A>, fastq: seq<Q>,
    mapper: MapperUnit<P, A, Q> -> MapResult<K, F>,
    correct: CorrectionUnit<P, K> -> CorrectedIndex<H>,
    filter: MpileupUnit<P, A, Q, F, H> -> O,
    schedule1: nat -> seq<nat>, schedule2: nat -> seq<nat>, schedule3: nat -> seq<nat>)
    : (run: Result<seq<O>, IndexError>)
    requires IsSchedule(schedule1) && IsSchedule(schedule2) && IsSchedule(schedule3)
    ensures run.Success? ==> |run.value| == RowStart(|fasta|, |fastq|)
    ensures run.Failure? ==> run.error.position < RowStart(|fasta|, |fastq|)
  {
    var mapped := MapperResults(p, fasta, fastq, mapper, schedule1);
    var corrected := CorrectionResults(p, mapped, correct, schedule2);
    match IndexToMpileupIterdata(p, fasta, fastq, mapped, corrected)
    case Failure(e) => Failure(e)
    case Success(iterdata) => Success(InvokerMap(filter, iterdata, schedule3))
  }

  /** The indexer/mapper reports the chunk ids of the unit it ran on. */
  ghost predicate MapperEchoesIds<P(!new), A(!new), Q(!new), K, F>(mapper: MapperUnit<P, A, Q> -> MapResult<K, F>) {
    forall u :: mapper(u).fqId == u.fastqChunkId && mapper(u).faId == u.fastaChunkId
  }

  /** The index correction reports the read chunk id of the unit it ran on. */
  ghost predicate CorrectionEchoesIds<P(!new), K(!new), H>(correct: CorrectionUnit<P, K> -> CorrectedIndex<H>) {
    forall c :: correct(c).fqId == c.fastqChunkId
  }

  /** Both id-reporting work functions report the ids they were given. */
  ghost predicate EchoesIds<P(!new), A(!new), Q(!new), K(!new), F, H>(
    mapper: MapperUnit<P, A, Q> -> MapResult<K, F>, correct: CorrectionUnit<P, K> -> CorrectedIndex<H>)
  {
    MapperEchoesIds(mapper) && CorrectionEchoesIds(correct)
  }

  /** `t` is the indexer/mapper's result for the chunk pair it reports. */
  ghost predicate MappedFrom<P, A, Q, K, F>(
    t: MapResult<K, F>, p: P, fasta: seq<A>, fastq: seq<Q>, mapper: MapperUnit<P, A, Q> -> MapResult<K, F>)
  {
    && t.faId < |fasta|
    && t.fqId < |fastq|
    && t == mapper(MapperUnit(p, t.faId, fasta[t.faId], fastq[t.fqId], t.fqId))
  }

  /** Some stage-1 result reports the chunk pair `(a, b)`. */
  ghost predicate HasPair<K, F>(mapped: seq<MapResult<K, F>>, a: nat, b: nat) {
    exists i :: 0 <= i < |mapped| && mapped[i].faId == a && mapped[i].fqId == b
  }

  /**
   Whatever order the stage-1 results arrive in, there is exactly one per
   chunk pair, and it is the mapper's result for that pair.
   */
  lemma MapperResultsCoverPairs<P(!new), A(!new), Q(!new), K, F>(
    p: P, fasta: seq<A>, fastq: seq<Q>, mapper: MapperUnit<P, A, Q> -> MapResult<K, F>, schedule: nat -> seq<nat>)
    requires MapperEchoesIds(mapper) && IsSchedule(schedule)
    ensures var mapped := MapperResults(p, fasta, fastq, mapper, schedule);
      && |mapped| == RowStart(|fasta|, |fastq|)
      && (forall i :: 0 <= i < |mapped| ==> MappedFrom(mapped[i], p, fasta, fastq, mapper))
      && (forall a: nat, b: nat :: a < |fasta| && b < |fastq| ==> HasPair(mapped, a, b))
      && (forall i, j :: 0 <= i < |mapped| && 0 <= j < |mapped| && i != j ==>
            mapped[i].faId != mapped[j].faId || mapped[i].fqId != mapped[j].fqId)
  {
    var iterdata := GemIndexerMapperIterdata(p, fasta, fastq);
    var mapped := MapperResults(p, fasta, fastq, mapper, schedule);
    var order := schedule(|iterdata|);
    assert IsPermutation(order, |iterdata|);
    forall i | 0 <= i < |mapped|
      ensures MappedFrom(mapped[i], p, fasta, fastq, mapper)
    {
      var u := iterdata[order[i]];
      assert mapped[i] == mapper(u);
      assert PlacedAt(u, order[i], p, fasta, fastq);
      assert u == MapperUnit(p, u.fastaChunkId, fasta[u.fastaChunkId], fastq[u.fastqChunkId], u.fastqChunkId);
    }
    forall a: nat, b: nat | a < |fasta| && b < |fastq|
      ensures HasPair(mapped, a, b)
    {
      EachPairExactlyOnce(p, fasta, fastq, a, b);
      var k := RowStart(a, |fastq|) + b;
      assert Listed(order, k);
      var i :| 0 <= i < |order| && order[i] == k;
      assert mapped[i] == mapper(iterdata[k]);
    }
    forall i, j | 0 <= i < |mapped| && 0 <= j < |mapped| && i != j
      ensures mapped[i].faId != mapped[j].faId || mapped[i].fqId != mapped[j].fqId
    {
      assert mapped[i] == mapper(iterdata[order[i]]);
      assert mapped[j] == mapper(iterdata[order[j]]);
      assert PlacedAt(iterdata[order[i]], order[i], p, fasta, fastq);
      assert PlacedAt(iterdata[order[j]], order[j], p, fasta, fastq);
    }
  }

  /**
   Whatever order the correction results arrive in, they report distinct
   read chunks, each one the correction of exactly that chunk's map keys, and
   every read chunk with a stage-1 result has one.
   */
  lemma CorrectionResultsMatchGroups<P(!new), K(!new), F, H>(
    p: P, mapped: seq<MapResult<K, F>>, correct: CorrectionUnit<P, K> -> CorrectedIndex<H>, schedule: nat -> seq<nat>)
    requires CorrectionEchoesIds(correct) && IsSchedule(schedule)
    ensures var corrected := CorrectionResults(p, mapped, correct, schedule);
      && DistinctIds(corrected)
      && (forall i :: 0 <= i < |corrected| ==>
            && Occurs(mapped, corrected[i].fqId)
            && corrected[i] == correct(CorrectionUnit(p, corrected[i].fqId, MapKeysOf(mapped, corrected[i].fqId))))
      && (forall j :: 0 <= j < |mapped| ==> HasCorrection(corrected, mapped[j].fqId))
  {
    var iterdata := IndexCorrectionIterdata(p, mapped);
    var corrected := CorrectionResults(p, mapped, correct, schedule);
    var order := schedule(|iterdata|);
    assert IsPermutation(order, |iterdata|);
    IndexCorrectionIterdataSpec(p, mapped);
    forall i | 0 <= i < |corrected|
      ensures Occurs(mapped, corrected[i].fqId)
      ensures corrected[i] == correct(CorrectionUnit(p, corrected[i].fqId, MapKeysOf(mapped, corrected[i].fqId)))
    {
      var u := iterdata[order[i]];
      assert corrected[i] == correct(u);
      assert u == CorrectionUnit(p, u.fastqChunkId, MapKeysOf(mapped, u.fastqChunkId));
    }
    forall i, j | 0 <= i < |corrected| && 0 <= j < |corrected| && i != j
      ensures corrected[i].fqId != corrected[j].fqId
    {
      assert corrected[i] == correct(iterdata[order[i]]);
      assert corrected[j] == correct(iterdata[order[j]]);
    }
    forall j | 0 <= j < |mapped|
      ensures HasCorrection(corrected, mapped[j].fqId)
    {
      var g :| 0 <= g < |iterdata| && iterdata[g].fastqChunkId == mapped[j].fqId;
      assert Listed(order, g);
      var i :| 0 <= i < |order| && order[i] == g;
      assert corrected[i] == correct(iterdata[g]);
    }
  }

  /** Stage-3 unit `u` pairs chunk handles, filtered map and corrected index of one chunk pair. */
  ghost predicate Correlated<P, A, Q, K, F, H>(
    u: MpileupUnit<P, A, Q, F, H>, p: P, fasta: seq<A>, fastq: seq<Q>, mapped: seq<MapResult<K, F>>,
    mapper: MapperUnit<P, A, Q> -> MapResult<K, F>, correct: CorrectionUnit<P, K> -> CorrectedIndex<H>)
  {
    && u.pipelineParams == p
    && u.fastaChunkId < |fasta|
    && u.fastqChunkId < |fastq|
    && u.fastaChunk == fasta[u.fastaChunkId]
    && u.fastqChunk == fastq[u.fastqChunkId]
    && u.filteredMapKey == mapper(MapperUnit(p, u.fastaChunkId, u.fastaChunk, u.fastqChunk, u.fastqChunkId)).filterKey
    && u.correctedIndexKey == correct(CorrectionUnit(p, u.fastqChunkId, MapKeysOf(mapped, u.fastqChunkId))).handle
  }

  /** Some stage-3 unit is for the chunk pair `(a, b)`. */
  ghost predicate HasUnitFor<P, A, Q, F, H>(units: seq<MpileupUnit<P, A, Q, F, H>>, a: nat, b: nat) {
    exists j :: 0 <= j < |units| && units[j].fastaChunkId == a && units[j].fastqChunkId == b
  }

  /**
   Units built from mapper results, each paired with the correction result
   reported for its own read chunk, are correlated.
   */
  lemma UnitsCorrelated<P, A, Q, K, F, H>(
    p: P, fasta: seq<A>, fastq: seq<Q>, mapped: seq<MapResult<K, F>>, corrected: seq<CorrectedIndex<H>>,
    units: seq<MpileupUnit<P, A, Q, F, H>>,
    mapper: MapperUnit<P, A, Q> -> MapResult<K, F>, correct: CorrectionUnit<P, K> -> CorrectedIndex<H>)
    requires |units| == |mapped|
    requires forall j :: 0 <= j < |mapped| ==> MappedFrom(mapped[j], p, fasta, fastq, mapper)
    requires forall i :: 0 <= i < |corrected| ==>
      corrected[i] == correct(CorrectionUnit(p, corrected[i].fqId, MapKeysOf(mapped, corrected[i].fqId)))
    requires forall j :: 0 <= j < |units| ==>
      && mapped[j].faId < |fasta| && mapped[j].fqId < |fastq|
      && units[j] == MpileupUnit(p, mapped[j].faId, fasta[mapped[j].faId], mapped[j].fqId, fastq[mapped[j].fqId],
                                 mapped[j].filterKey, units[j].correctedIndexKey)
    requires forall j :: 0 <= j < |units| ==> CorrectedIndex(mapped[j].fqId, units[j].correctedIndexKey) in corrected
    ensures forall j :: 0 <= j < |units| ==> Correlated(units[j], p, fasta, fastq, mapped, mapper, correct)
  {
    forall j | 0 <= j < |units|
      ensures Correlated(units[j], p, fasta, fastq, mapped, mapper, correct)
    {
      var c := CorrectedIndex(mapped[j].fqId, units[j].correctedIndexKey);
      var i :| 0 <= i < |corrected| && corrected[i] == c;
    }
  }

  /**
   Units that carry the chunk ids of stage-1 results matching the chunk pairs
   one to one match the chunk pairs one to one themselves.
   */
  lemma UnitsMatchPairs<K, F, P, A, Q, H>(
    nFasta: nat, nFastq: nat, mapped: seq<MapResult<K, F>>, units: seq<MpileupUnit<P, A, Q, F, H>>)
    requires |units| == |mapped|
    requires forall j :: 0 <= j < |units| ==>
      units[j].fastaChunkId == mapped[j].faId && units[j].fastqChunkId == mapped[j].fqId
    requires forall a: nat, b: nat :: a < nFasta && b < nFastq ==> HasPair(mapped, a, b)
    requires forall i, j :: 0 <= i < |mapped| && 0 <= j < |mapped| && i != j ==>
      mapped[i].faId != mapped[j].faId || mapped[i].fqId != mapped[j].fqId
    ensures forall a: nat, b: nat :: a < nFasta && b < nFastq ==> HasUnitFor(units, a, b)
    ensures forall j, j' :: 0 <= j < |units| && 0 <= j' < |units| && j != j' ==>
      units[j].fastaChunkId != units[j'].fastaChunkId || units[j].fastqChunkId != units[j'].fastqChunkId
  {
    forall a: nat, b: nat | a < nFasta && b < nFastq
      ensures HasUnitFor(units, a, b)
    {
      assert HasPair(mapped, a, b);
      var i :| 0 <= i < |mapped| && mapped[i].faId == a && mapped[i].fqId == b;
      assert units[i].fastaChunkId == a && units[i].fastqChunkId == b;
    }
  }

  /**
   Stage-3 generation over `RowStart(|fasta|, |fastq|)` stage-1 results that
   cover every chunk pair with in-range ids, and correction results with
   distinct ids for every read chunk among them, succeeds: one unit per
   result, carrying its ids, chunks and filtered map, and the corrected index
   reported for its read chunk.
   */
  lemma GenerationSucceeds<P, A, Q, K, F, H>(
    p: P, fasta: seq<A>, fastq: seq<Q>, mapped: seq<MapResult<K, F>>, corrected: seq<CorrectedIndex<H>>)
    requires |mapped| == RowStart(|fasta|, |fastq|)
    requires forall i :: 0 <= i < |mapped| ==> mapped[i].faId < |fasta| && mapped[i].fqId < |fastq|
    requires forall a: nat, b: nat :: a < |fasta| && b < |fastq| ==> HasPair(mapped, a, b)
    requires DistinctIds(corrected)
    requires forall j :: 0 <= j < |mapped| ==> HasCorrection(corrected, mapped[j].fqId)
    ensures var r := IndexToMpileupIterdata(p, fasta, fastq, mapped, corrected);
      && r.Success?
      && |r.value| == |mapped|
      && forall j :: 0 <= j < |mapped| ==>
           && r.value[j] == MpileupUnit(p, mapped[j].faId, fasta[mapped[j].faId], mapped[j].fqId,
                                        fastq[mapped[j].fqId], mapped[j].filterKey, r.value[j].correctedIndexKey)
           && CorrectedIndex(mapped[j].fqId, r.value[j].correctedIndexKey) in corrected
  {
    if |fasta| > 0 {
      forall b: nat | b < |fastq|
        ensures HasCorrection(corrected, b)
      {
        assert HasPair(mapped, 0, b);
      }
      DenseIdsCorrelate(p, fasta, fastq, mapped, corrected);
    } else {
      assert |mapped| == 0;
    }
  }

  /**
   Stage-3 generation over stage-1 results that match the chunk pairs one to
   one and correction results that match the read chunks one to one: it
   never raises, emits exactly one unit per chunk pair, and each unit carries
   that pair's filtered map together with the corrected index computed for
   its own read chunk.
   */
  lemma GenerationCorrelates<P, A, Q, K, F, H>(
    p: P, fasta: seq<A>, fastq: seq<Q>, mapped: seq<MapResult<K, F>>, corrected: seq<CorrectedIndex<H>>,
    mapper: MapperUnit<P, A, Q> -> MapResult<K, F>, correct: CorrectionUnit<P, K> -> CorrectedIndex<H>)
    requires |mapped| == RowStart(|fasta|, |fastq|)
    requires forall i :: 0 <= i < |mapped| ==> MappedFrom(mapped[i], p, fasta, fastq, mapper)
    requires forall a: nat, b: nat :: a < |fasta| && b < |fastq| ==> HasPair(mapped, a, b)
    requires forall i, j :: 0 <= i < |mapped| && 0 <= j < |mapped| && i != j ==>
      mapped[i].faId != mapped[j].faId || mapped[i].fqId != mapped[j].fqId
    requires DistinctIds(corrected)
    requires forall i :: 0 <= i < |corrected| ==>
      corrected[i] == correct(CorrectionUnit(p, corrected[i].fqId, MapKeysOf(mapped, corrected[i].fqId)))
    requires forall j :: 0 <= j < |mapped| ==> HasCorrection(corrected, mapped[j].fqId)
    ensures var r := IndexToMpileupIterdata(p, fasta, fastq, mapped, corrected);
      && r.Success?
      && |r.value| == RowStart(|fasta|, |fastq|)
      && (forall j :: 0 <= j < |r.value| ==> Correlated(r.value[j], p, fasta, fastq, mapped, mapper, correct))
      && (forall a: nat, b: nat :: a < |fasta| && b < |fastq| ==> HasUnitFor(r.value, a, b))
      && (forall j, j' :: 0 <= j < |r.value| && 0 <= j' < |r.value| && j != j' ==>
            r.value[j].fastaChunkId != r.value[j'].fastaChunkId || r.value[j].fastqChunkId != r.value[j'].fastqChunkId)
  {
    GenerationCorrelated(p, fasta, fastq, mapped, corrected, mapper, correct);
    GenerationMatchesPairs(p, fasta, fastq, mapped, corrected);
  }

  /** The correlation half of `GenerationCorrelates`. */
  lemma GenerationCorrelated<P, A, Q, K, F, H>(
    p: P, fasta: seq<A>, fastq: seq<Q>, mapped: seq<MapResult<K, F>>, corrected: seq<CorrectedIndex<H>>,
    mapper: MapperUnit<P, A, Q> -> MapResult<K, F>, correct: CorrectionUnit<P, K> -> CorrectedIndex<H>)
    requires |mapped| == RowStart(|fasta|, |fastq|)
    requires forall i :: 0 <= i < |mapped| ==> MappedFrom(mapped[i], p, fasta, fastq, mapper)
    requires forall a: nat, b: nat :: a < |fasta| && b < |fastq| ==> HasPair(mapped, a, b)
    requires DistinctIds(corrected)
    requires forall i :: 0 <= i < |corrected| ==>
      corrected[i] == correct(CorrectionUnit(p, corrected[i].fqId, MapKeysOf(mapped, corrected[i].fqId)))
    requires forall j :: 0 <= j < |mapped| ==> HasCorrection(corrected, mapped[j].fqId)
    ensures var r := IndexToMpileupIterdata(p, fasta, fastq, mapped, corrected);
      && r.Success?
      && |r.value| == RowStart(|fasta|, |fastq|)
      && forall j :: 0 <= j < |r.value| ==> Correlated(r.value[j], p, fasta, fastq, mapped, mapper, correct)
  {
    var r := IndexToMpileupIterdata(p, fasta, fastq, mapped, corrected);
    GenerationSucceeds(p, fasta, fastq, mapped, corrected);
    UnitsCorrelated(p, fasta, fastq, mapped, corrected, r.value, mapper, correct);
  }

  /** The one-unit-per-pair half of `GenerationCorrelates`. */
  lemma GenerationMatchesPairs<P, A, Q, K, F, H>(
    p: P, fasta: seq<A>, fastq: seq<Q>, mapped: seq<MapResult<K, F>>, corrected: seq<CorrectedIndex<H>>)
    requires |mapped| == RowStart(|fasta|, |fastq|)
    requires forall i :: 0 <= i < |mapped| ==> mapped[i].faId < |fasta| && mapped[i].fqId < |fastq|
    requires forall a: nat, b: nat :: a < |fasta| && b < |fastq| ==> HasPair(mapped, a, b)
    requires forall i, j :: 0 <= i < |mapped| && 0 <= j < |mapped| && i != j ==>
      mapped[i].faId != mapped[j].faId || mapped[i].fqId != mapped[j].fqId
    requires DistinctIds(corrected)
    requires forall j :: 0 <= j < |mapped| ==> HasCorrection(corrected, mapped[j].fqId)
    ensures var r := IndexToMpileupIterdata(p, fasta, fastq, mapped, corrected);
      && r.Success?
      && (forall a: nat, b: nat :: a < |fasta| && b < |fastq| ==> HasUnitFor(r.value, a, b))
      && (forall j, j' :: 0 <= j < |r.value| && 0 <= j' < |r.value| && j != j' ==>
            r.value[j].fastaChunkId != r.value[j'].fastaChunkId || r.value[j].fastqChunkId != r.value[j'].fastqChunkId)
  {
    var r := IndexToMpileupIterdata(p, fasta, fastq, mapped, corrected);
    GenerationSucceeds(p, fasta, fastq, mapped, corrected);
    UnitsMatchPairs(|fasta|, |fastq|, mapped, r.value);
  }

  /**
   End to end, for work functions that report the ids they were given and
   for any completion order of the executor: stage-3 generation never
   raises, emits exactly one unit per (reference chunk, read chunk) pair,
   and each unit carries that pair's filtered map together with the
   corrected index computed for its own read chunk.
   */
  lemma StagesCorrelate<P(!new), A(!new), Q(!new), K(!new), F, H>(
    p: P, fasta: seq<A>, fastq: seq<Q>,
    mapper: MapperUnit<P, A, Q> -> MapResult<K, F>, correct: CorrectionUnit<P, K> -> CorrectedIndex<H>,
    schedule1: nat -> seq<nat>, schedule2: nat -> seq<nat>)
    requires EchoesIds(mapper, correct) && IsSchedule(schedule1) && IsSchedule(schedule2)
    ensures var mapped := MapperResults(p, fasta, fastq, mapper, schedule1);
      var r := IndexToMpileupIterdata(p, fasta, fastq, mapped, CorrectionResults(p, mapped, correct, schedule2));
      && r.Success?
      && |r.value| == RowStart(|fasta|, |fastq|)
      && (forall j :: 0 <= j < |r.value| ==> Correlated(r.value[j], p, fasta, fastq, mapped, mapper, correct))
      && (forall a: nat, b: nat :: a < |fasta| && b < |fastq| ==> HasUnitFor(r.value, a, b))
      && (forall j, j' :: 0 <= j < |r.value| && 0 <= j' < |r.value| && j != j' ==>
            r.value[j].fastaChunkId != r.value[j'].fastaChunkId || r.value[j].fastqChunkId != r.value[j'].fastqChunkId)
  {
    var mapped := MapperResults(p, fasta, fastq, mapper, schedule1);
    var corrected := CorrectionResults(p, mapped, correct, schedule2);
    MapperResultsCoverPairs(p, fasta, fastq, mapper, schedule1);
    CorrectionResultsMatchGroups(p, mapped, correct, schedule2);
    GenerationCorrelates(p, fasta, fastq, mapped, corrected, mapper, correct);
  }

  /**
   The stage-3 unit for chunk pair `(a, b)` when the lookups correlate: both
   chunks, the mapper's filtered map for the pair and the corrected index
   computed for read chunk `b`.
   */
  ghost function ExpectedUnit<P, A, Q, K, F, H>(
    p: P, fasta: seq<A>, fastq: seq<Q>, mapped: seq<MapResult<K, F>>,
    mapper: MapperUnit<P, A, Q> -> MapResult<K, F>, correct: CorrectionUnit<P, K> -> CorrectedIndex<H>,
    a: nat, b: nat): MpileupUnit<P, A, Q, F, H>
    requires a < |fasta| && b < |fastq|
  {
    MpileupUnit(p, a, fasta[a], b, fastq[b],
      mapper(MapperUnit(p, a, fasta[a], fastq[b], b)).filterKey,
      correct(CorrectionUnit(p, b, MapKeysOf(mapped, b))).handle)
  }

  /** A correlated unit is the expected unit of its own chunk pair. */
  lemma CorrelatedIsExpected<P, A, Q, K, F, H>(
    u: MpileupUnit<P, A, Q, F, H>, p: P, fasta: seq<A>, fastq: seq<Q>, mapped: seq<MapResult<K, F>>,
    mapper: MapperUnit<P, A, Q> -> MapResult<K, F>, correct: CorrectionUnit<P, K> -> CorrectedIndex<H>)
    requires Correlated(u, p, fasta, fastq, mapped, mapper, correct)
    ensures u == ExpectedUnit(p, fasta, fastq, mapped, mapper, correct, u.fastaChunkId, u.fastqChunkId)
  {
  }

  /** Output `o` is the filter's result on the expected unit of some chunk pair. */
  ghost predicate IsExpectedOutput<P, A, Q, K, F, H, O>(
    o: O, p: P, fasta: seq<A>, fastq: seq<Q>, mapped: seq<MapResult<K, F>>,
    mapper: MapperUnit<P, A, Q> -> MapResult<K, F>, correct: CorrectionUnit<P, K> -> CorrectedIndex<H>,
    filter: MpileupUnit<P, A, Q, F, H> -> O)
  {
    exists a: nat, b: nat :: a < |fasta| && b < |fastq| &&
      o == filter(ExpectedUnit(p, fasta, fastq, mapped, mapper, correct, a, b))
  }

  /** Some entry of `pairs` is the chunk pair `(a, b)`. */
  ghost predicate HasPairEntry(pairs: seq<(nat, nat)>, a: nat, b: nat) {
    exists i :: 0 <= i < |pairs| && pairs[i] == (a, b)
  }

  /**
   `pairs` matches the chunk pairs one to one (each in range, none twice,
   none missing), and output `i` is the filter's result on the expected unit
   of `pairs[i]`.
   */
  ghost predicate PairsLabelOutputs<P, A, Q, K, F, H, O>(
    pairs: seq<(nat, nat)>, outs: seq<O>, p: P, fasta: seq<A>, fastq: seq<Q>, mapped: seq<MapResult<K, F>>,
    mapper: MapperUnit<P, A, Q> -> MapResult<K, F>, correct: CorrectionUnit<P, K> -> CorrectedIndex<H>,
    filter: MpileupUnit<P, A, Q, F, H> -> O)
  {
    && |pairs| == |outs|
    && (forall i :: 0 <= i < |pairs| ==>
          && pairs[i].0 < |fasta| && pairs[i].1 < |fastq|
          && outs[i] == filter(ExpectedUnit(p, fasta, fastq, mapped, mapper, correct, pairs[i].0, pairs[i].1)))
    && (forall i, j :: 0 <= i < |pairs| && 0 <= j < |pairs| && i != j ==> pairs[i] != pairs[j])
    && (forall a: nat, b: nat :: a < |fasta| && b < |fastq| ==> HasPairEntry(pairs, a, b))
  }

  /** The outputs are one per chunk pair: some labelling by pairs fits them. */
  ghost predicate OnePerPair<P, A, Q, K, F, H, O>(
    outs: seq<O>, p: P, fasta: seq<A>, fastq: seq<Q>, mapped: seq<MapResult<K, F>>,
    mapper: MapperUnit<P, A, Q> -> MapResult<K, F>, correct: CorrectionUnit<P, K> -> CorrectedIndex<H>,
    filter: MpileupUnit<P, A, Q, F, H> -> O)
  {
    exists pairs: seq<(nat, nat)> :: PairsLabelOutputs(pairs, outs, p, fasta, fastq, mapped, mapper, correct, filter)
  }

  /**
   Filtering correlated units that match the chunk pairs one to one, in any
   completion order, yields one output per chunk pair.
   */
  lemma FilteredOnePerPair<P, A, Q, K, F, H, O>(
    p: P, fasta: seq<A>, fastq: seq<Q>, mapped: seq<MapResult<K, F>>,
    mapper: MapperUnit<P, A, Q> -> MapResult<K, F>, correct: CorrectionUnit<P, K> -> CorrectedIndex<H>,
    filter: MpileupUnit<P, A, Q, F, H> -> O, units: seq<MpileupUnit<P, A, Q, F, H>>, schedule: nat -> seq<nat>)
    requires IsSchedule(schedule)
    requires forall j :: 0 <= j < |units| ==> Correlated(units[j], p, fasta, fastq, mapped, mapper, correct)
    requires forall a: nat, b: nat :: a < |fasta| && b < |fastq| ==> HasUnitFor(units, a, b)
    requires forall j, j' :: 0 <= j < |units| && 0 <= j' < |units| && j != j' ==>
      units[j].fastaChunkId != units[j'].fastaChunkId || units[j].fastqChunkId != units[j'].fastqChunkId
    ensures OnePerPair(InvokerMap(filter, units, schedule), p, fasta, fastq, mapped, mapper, correct, filter)
  {
    var out := InvokerMap(filter, units, schedule);
    var order := schedule(|units|);
    assert IsPermutation(order, |units|);
    var pairs := seq(|units|, i requires 0 <= i < |units| =>
      (units[order[i]].fastaChunkId, units[order[i]].fastqChunkId));
    forall i | 0 <= i < |pairs|
      ensures pairs[i].0 < |fasta| && pairs[i].1 < |fastq|
      ensures out[i] == filter(ExpectedUnit(p, fasta, fastq, mapped, mapper, correct, pairs[i].0, pairs[i].1))
    {
      InvokerMapAt(filter, units, schedule, i);
      CorrelatedIsExpected(units[order[i]], p, fasta, fastq, mapped, mapper, correct);
    }
    forall a: nat, b: nat | a < |fasta| && b < |fastq|
      ensures HasPairEntry(pairs, a, b)
    {
      assert HasUnitFor(units, a, b);
      var j :| 0 <= j < |units| && units[j].fastaChunkId == a && units[j].fastqChunkId == b;
      assert Listed(order, j);
      var i :| 0 <= i < |order| && order[i] == j;
      assert pairs[i] == (a, b);
    }
    assert PairsLabelOutputs(pairs, out, p, fasta, fastq, mapped, mapper, correct, filter);
  }

  /** Result `i` of the invoker is the work function applied to the unit the schedule puts at `i`. */
  lemma InvokerMapAt<X, Y>(work: X -> Y, iterdata: seq<X>, schedule: nat -> seq<nat>, i: nat)
    requires IsSchedule(schedule) && i < |iterdata|
    ensures |InvokerMap(work, iterdata, schedule)| == |iterdata|
    ensures schedule(|iterdata|)[i] < |iterdata|
    ensures InvokerMap(work, iterdata, schedule)[i] == work(iterdata[schedule(|iterdata|)[i]])
  {
    assert IsPermutation(schedule(|iterdata|), |iterdata|);
  }

  /** Every unit's result is among the invoker's results. */
  lemma InvokerMapRunsEach<X, Y>(work: X -> Y, iterdata: seq<X>, schedule: nat -> seq<nat>, k: nat)
    requires IsSchedule(schedule) && k < |iterdata|
    ensures work(iterdata[k]) in InvokerMap(work, iterdata, schedule)
  {
    var order := schedule(|iterdata|);
    assert IsPermutation(order, |iterdata|);
    assert Listed(order, k);
    var i :| 0 <= i < |order| && order[i] == k;
    InvokerMapAt(work, iterdata, schedule, i);
  }

  /**
   Filtering correlated units that match the chunk pairs one to one, in any
   completion order, yields exactly the filter's results on the pairs'
   expected units, one per pair.
   */
  lemma FilteredMatchesPairs<P, A, Q, K, F, H, O>(
    p: P, fasta: seq<A>, fastq: seq<Q>, mapped: seq<MapResult<K, F>>,
    mapper: MapperUnit<P, A, Q> -> MapResult<K, F>, correct: CorrectionUnit<P, K> -> CorrectedIndex<H>,
    filter: MpileupUnit<P, A, Q, F, H> -> O, units: seq<MpileupUnit<P, A, Q, F, H>>, schedule: nat -> seq<nat>)
    requires IsSchedule(schedule)
    requires forall j :: 0 <= j < |units| ==> Correlated(units[j], p, fasta, fastq, mapped, mapper, correct)
    requires forall a: nat, b: nat :: a < |fasta| && b < |fastq| ==> HasUnitFor(units, a, b)
    requires forall j, j' :: 0 <= j < |units| && 0 <= j' < |units| && j != j' ==>
      units[j].fastaChunkId != units[j'].fastaChunkId || units[j].fastqChunkId != units[j'].fastqChunkId
    ensures var out := InvokerMap(filter, units, schedule);
      && |out| == |units|
      && (forall a: nat, b: nat :: a < |fasta| && b < |fastq| ==>
            filter(ExpectedUnit(p, fasta, fastq, mapped, mapper, correct, a, b)) in out)
      && (forall i :: 0 <= i < |out| ==> IsExpectedOutput(out[i], p, fasta, fastq, mapped, mapper, correct, filter))
      && OnePerPair(out, p, fasta, fastq, mapped, mapper, correct, filter)
  {
    var out := InvokerMap(filter, units, schedule);
    forall a: nat, b: nat | a < |fasta| && b < |fastq|
      ensures filter(ExpectedUnit(p, fasta, fastq, mapped, mapper, correct, a, b)) in out
    {
      assert HasUnitFor(units, a, b);
      var j :| 0 <= j < |units| && units[j].fastaChunkId == a && units[j].fastqChunkId == b;
      CorrelatedIsExpected(units[j], p, fasta, fastq, mapped, mapper, correct);
      InvokerMapRunsEach(filter, units, schedule, j);
    }
    forall i | 0 <= i < |out|
      ensures IsExpectedOutput(out[i], p, fasta, fastq, mapped, mapper, correct, filter)
    {
      InvokerMapAt(filter, units, schedule, i);
      var u := units[schedule(|units|)[i]];
      assert Correlated(u, p, fasta, fastq, mapped, mapper, correct);
      CorrelatedIsExpected(u, p, fasta, fastq, mapped, mapper, correct);
      assert out[i] == filter(ExpectedUnit(p, fasta, fastq, mapped, mapper, correct, u.fastaChunkId, u.fastqChunkId));
    }
    FilteredOnePerPair(p, fasta, fastq, mapped, mapper, correct, filter, units, schedule);
  }

  /**
   Under the same assumptions the whole run completes without an
   IndexError. It returns one output per (reference chunk, read chunk) pair.
   The outputs are exactly the filter's results on the expected units of the
   pairs: every pair's is present, every output is one of them, and some
   labelling of the outputs by pairs uses each pair exactly once.
   */
  lemma RunCompletes<P(!new), A(!new), Q(!new), K(!new), F, H, O>(
    p: P, fasta: seq<A>, fastq: seq<Q>,
    mapper: MapperUnit<P, A, Q> -> MapResult<K, F>,
    correct: CorrectionUnit<P, K> -> CorrectedIndex<H>,
    filter: MpileupUnit<P, A, Q, F, H> -> O,
    schedule1: nat -> seq<nat>, schedule2: nat -> seq<nat>, schedule3: nat -> seq<nat>)
    requires EchoesIds(mapper, correct)
    requires IsSchedule(schedule1) && IsSchedule(schedule2) && IsSchedule(schedule3)
    ensures var run := RunFullAlignment(p, fasta, fastq, mapper, correct, filter, schedule1, schedule2, schedule3);
      var mapped := MapperResults(p, fasta, fastq, mapper, schedule1);
      && run.Success?
      && |run.value| == RowStart(|fasta|, |fastq|)
      && (forall a: nat, b: nat :: a < |fasta| && b < |fastq| ==>
            filter(ExpectedUnit(p, fasta, fastq, mapped, mapper, correct, a, b)) in run.value)
      && (forall i :: 0 <= i < |run.value| ==>
            IsExpectedOutput(run.value[i], p, fasta, fastq, mapped, mapper, correct, filter))
      && OnePerPair(run.value, p, fasta, fastq, mapped, mapper, correct, filter)
  {
    var mapped := MapperResults(p, fasta, fastq, mapper, schedule1);
    var corrected := CorrectionResults(p, mapped, correct, schedule2);
    StagesCorrelate(p, fasta, fastq, mapper, correct, schedule1, schedule2);
    var units := IndexToMpileupIterdata(p, fasta, fastq, mapped, corrected).value;
    FilteredMatchesPairs(p, fasta, fastq, mapped, mapper, correct, filter, units, schedule3);
  }

  /**
   With no reference chunks every stage is a no-op: the run completes
   without error and without output, whatever the work functions do.
   */
  lemma EmptyReferenceRunsNoOp<P, A, Q, K, F, H, O>(
    p: P, fasta: seq<A>, fastq: seq<Q>,
    mapper: MapperUnit<P, A, Q> -> MapResult<K, F>,
    correct: CorrectionUnit<P, K> -> CorrectedIndex<H>,
    filter: MpileupUnit<P, A, Q, F, H> -> O,
    schedule1: nat -> seq<nat>, schedule2: nat -> seq<nat>, schedule3: nat -> seq<nat>)
    requires IsSchedule(schedule1) && IsSchedule(schedule2) && IsSchedule(schedule3)
    requires |fasta| == 0
    ensures RunFullAlignment(p, fasta, fastq, mapper, correct, filter, schedule1, schedule2, schedule3) == Success([])
  {
    var mapped := MapperResults(p, fasta, fastq, mapper, schedule1);
    assert |mapped| == 0;
    var corrected := CorrectionResults(p, mapped, correct, schedule2);
    IndexToMpileupIterdataSpec(p, fasta, fastq, mapped, corrected);
    var r := IndexToMpileupIterdata(p, fasta, fastq, mapped, corrected);
    assert r == Success([]);
    assert InvokerMap(filter, [], schedule3) == [];
  }
}
