# Alignment-phase work-unit generation, in Dafny

This project models the orchestration core of the serverless variant-calling
pipeline's alignment phase (`serverlessgenomics/mapping/map_caller.py`). The
phase runs three fan-out stages on a remote function executor:

1. **indexer/mapper**: one work unit per (reference chunk, read chunk) pair;
2. **index correction**: the stage-1 results grouped by read chunk id, one
   unit per read chunk holding its map index keys;
3. **filter/mpileup**: one unit per stage-1 result. Each unit pairs that
   result's chunks and filtered map with the corrected index of its read
   chunk. The corrected index is found by sorting the correction results by
   read chunk id and reading position `fq_i` of the sorted list.

Read chunk ids are used both as join keys and as list positions, and results
come back from the executor in any order. The model makes both explicit. It
proves that the correlation is right when the work functions report the ids
they were given (`Pipeline.StagesCorrelate`); otherwise the positional lookup
can pick another chunk's handle (`Mpileup.PositionalLookupCanMismatch`). Pipeline parameters, chunk handles, map
keys, filtered map keys and corrected-index handles are opaque type
parameters.

Files, one module each (plus a small `Wrappers` module in `records.dfy`):

- `records.dfy` (`Records`): the work-unit records, mirroring the parameter
  dictionaries' keys, and the result tuples.
- `cross_product.dfy` (`CrossProduct`): stage-1 generation. Row-major
  positions use `RowStart(rows, width)`, which is `rows * width` written as
  repeated addition (`RowStartIsProduct` proves the two agree), so that the
  contracts stay within linear arithmetic.
- `grouping.dfy` (`Grouping`): the insertion-ordered grouping and stage-2
  generation.
- `stable_sort.dfy` (`StableSort`): the stable sort of correction results by
  read chunk id.
- `mpileup.dfy` (`Mpileup`): stage-3 generation, including the IndexError
  paths.
- `pipeline.dfy` (`Pipeline`): `run_full_alignment`. The executor is a map
  that returns results in an arbitrary completion order, and the three work
  functions are uninterpreted.

Two behaviours of the code that a reader might not expect:

- Stage-3 generation has no dedicated "unresolved correlation" error. The
  positional lookup `corrected_indexes_fq[fq_i]` raises IndexError only when
  `fq_i` is past the end of the sorted correction list. Otherwise it uses
  whatever handle sits at that position, even when it was reported for
  another read chunk. `Mpileup.PositionalLookupCanMismatch` shows such an
  input. `Mpileup.DenseIdsCorrelate` gives the condition under which the
  lookup is right: distinct ids covering `0..|fastq|-1`.
- Every stage-1 unit yields a result, and every read chunk that occurs in
  the stage-1 results gets a correction unit. So when the work functions
  report the ids they were given, every read chunk has a correction result
  whenever there is at least one reference chunk, and the lookup is right
  (`Pipeline.StagesCorrelate`).

## Model

| member | source | states |
|---|---|---|
| `CrossProduct.InnerLoop` | serverlessgenomics/mapping/map_caller.py:18-22 | The inner loop yields one unit per read chunk, in order. Unit `j` carries the run parameters, the given reference chunk and its id, read chunk `fastq[j]` and id `j`. |
| `CrossProduct.OuterLoop` | serverlessgenomics/mapping/map_caller.py:17-22 | After the first `m` reference chunks there are `RowStart(m, \|fastq\|)` units, that is `m * \|fastq\|`. Each unit is well placed: run parameters, in-range ids, the chunks at those ids, at row-major position `fa_i * \|fastq\| + fq_i`. |
| `CrossProduct.GemIndexerMapperIterdata` | serverlessgenomics/mapping/map_caller.py:15-23 | Stage 1 returns `RowStart(\|fasta\|, \|fastq\|)` units. Every unit carries the unchanged run parameters and in-range ids. Its chunks are `fasta[fasta_chunk_id]` and `fastq[fastq_chunk_id]`. It sits at row-major position `fasta_chunk_id * \|fastq\| + fastq_chunk_id`. |
| `CrossProduct.GemIndexerMapperCount` | serverlessgenomics/mapping/map_caller.py:15-23 | Stage 1 returns exactly `\|fasta\| * \|fastq\|` units, so none when either list is empty. |
| `CrossProduct.RowMajorUnique` | serverlessgenomics/mapping/map_caller.py:17-22 | Two in-range id pairs at the same row-major position are the same pair. |
| `CrossProduct.EachPairExactlyOnce` | serverlessgenomics/mapping/map_caller.py:17-22 | Every in-range pair `(fa_i, fq_i)` has a unit at row-major position `fa_i * \|fastq\| + fq_i`, holding both chunks. No other position holds that pair. |
| `Grouping.Append` | serverlessgenomics/mapping/map_caller.py:28-30 | `fq_groups[fq].append(map_key)` keeps the keys unique and keeps every existing entry at its position. A known id adds no entry. A new id becomes a fresh one-key entry at the end of the insertion order. |
| `Grouping.AppendContentsAt` | serverlessgenomics/mapping/map_caller.py:30 | The entry for the appended id gets the key at the end of its list. Every other entry's list is unchanged. |
| `Grouping.GroupByFastq` | serverlessgenomics/mapping/map_caller.py:28-30 | The grouping dictionary never has two entries for the same read chunk id. |
| `Grouping.GroupKeysAreResultIds` | serverlessgenomics/mapping/map_caller.py:28-30 | The dictionary has an entry for an id if and only if some stage-1 result reports that id. |
| `Grouping.GroupContentsAt` | serverlessgenomics/mapping/map_caller.py:29-30 | Each entry's list is exactly the subsequence of map keys from results with that read chunk id, in result order. |
| `Grouping.FirstOccurrenceOrderAt` | serverlessgenomics/mapping/map_caller.py:28-34 | Entries are in first-occurrence order: before any result for a later entry's id, a result for each earlier entry's id has already appeared. |
| `Grouping.AppendAddsOneKey` | serverlessgenomics/mapping/map_caller.py:30 | Each append adds exactly one key to the dictionary's total. |
| `Grouping.GroupingLosesNothing` | serverlessgenomics/mapping/map_caller.py:29-30 | The group lists hold as many keys in total as there are results: nothing is lost or duplicated. |
| `Grouping.IndexCorrectionIterdata` | serverlessgenomics/mapping/map_caller.py:26-36 | No units for an empty result list. Every unit carries the run parameters, and no two units share a read chunk id. |
| `Grouping.IndexCorrectionIterdataSpec` | serverlessgenomics/mapping/map_caller.py:26-36 | Stage 2 emits one unit per distinct read chunk id of the results, and none for an empty list. Ids are in first-occurrence order with no duplicates. Each unit carries the run parameters and exactly that chunk's map keys in result order. |
| `StableSort.Insert` | serverlessgenomics/mapping/map_caller.py:43 | Inserting into a list sorted by id keeps it sorted and one longer. Every element is the inserted one or came from the list. |
| `StableSort.SortById` | serverlessgenomics/mapping/map_caller.py:43 | The sorted list is non-decreasing in read chunk id, as long as the input, and holds only correction results from the input. |
| `StableSort.SortByIdPermutes` | serverlessgenomics/mapping/map_caller.py:43 | The sorted list is a permutation of the correction results: same elements, same multiplicities. |
| `StableSort.InsertIsStable` | serverlessgenomics/mapping/map_caller.py:43 | An insertion puts the new element after every earlier element with the same id. |
| `StableSort.SortByIdIsStable` | serverlessgenomics/mapping/map_caller.py:43 | The sort is stable: for every id, the results reporting it keep their relative order. |
| `StableSort.SortByIdIdempotent` | serverlessgenomics/mapping/map_caller.py:43 | Sorting an already sorted list returns it unchanged. |
| `StableSort.SortKeepsDistinct` | serverlessgenomics/mapping/map_caller.py:43 | If the correction results have distinct ids, so does the sorted list. |
| `StableSort.SortedLookupMatchesId` | serverlessgenomics/mapping/map_caller.py:43-52 | If the ids are distinct and cover `0..n-1`, the sorted list has at least `n` entries. Entry `v < n` is then the correction result that reports read chunk `v`. |
| `Mpileup.CorrectedIndexesFq` | serverlessgenomics/mapping/map_caller.py:43 | The handle list has one entry per correction result. Entry `i` is the handle of the result at position `i` of the stable sort by read chunk id, so results sharing an id keep their arrival order. The input reports that handle for the read chunk at sorted position `i`. |
| `Mpileup.UnitsFrom` | serverlessgenomics/mapping/map_caller.py:45-52 | The loop succeeds if and only if every subscript is in range. On success it yields one unit per remaining result, in order. Otherwise it raises at the first offending result and names the first out-of-range subscript in evaluation order. |
| `Mpileup.IndexToMpileupIterdata` | serverlessgenomics/mapping/map_caller.py:39-54 | Generation succeeds if and only if, for every result, `fa_i < \|fasta\|`, `fq_i < \|fastq\|` and `fq_i < \|corrected\|`. On success there is one unit per stage-1 result. An IndexError names a stage-1 result. |
| `Mpileup.IndexToMpileupIterdataSpec` | serverlessgenomics/mapping/map_caller.py:39-54 | Stage 3 succeeds if and only if, for every result, `fa_i < \|fasta\|`, `fq_i < \|fastq\|` and `fq_i < \|corrected\|`. It then returns one unit per result, in order, with that result's ids, chunks and filtered map key, and the handle at sorted position `fq_i`. Otherwise it reports the first failing result and subscript. |
| `Mpileup.DenseIdsCorrelate` | serverlessgenomics/mapping/map_caller.py:43-52 | Suppose chunk ids are in range and the correction ids are distinct and cover `0..\|fastq\|-1`. Then stage 3 succeeds with one unit per result. Each unit carries that result's ids, chunks and filtered map key, and the corrected index reported for that unit's own read chunk. |
| `Mpileup.PositionalLookupCanMismatch` | serverlessgenomics/mapping/map_caller.py:43-52 | Counterexample: one correction result, reported for read chunk 1. The unit for read chunk 0 silently receives its handle, and no error is raised. |
| `Pipeline.MapperResultsCoverPairs` | serverlessgenomics/mapping/map_caller.py:83-84 | In any completion order, stage 1 returns `RowStart(\|fasta\|, \|fastq\|)` results, that is `\|fasta\| * \|fastq\|`. Each is the mapper's result for the pair it reports. Every pair appears, and no pair appears twice. |
| `Pipeline.CorrectionResultsMatchGroups` | serverlessgenomics/mapping/map_caller.py:107-108 | In any completion order, there is exactly one correction result per distinct read chunk id of the stage-1 results. Ids are distinct, each reported id occurs in the stage-1 results, and every such id has a result. Each result is the correction of exactly that chunk's map keys. |
| `Pipeline.GenerationSucceeds` | serverlessgenomics/mapping/map_caller.py:39-54 | Suppose the `RowStart(\|fasta\|, \|fastq\|)` stage-1 results cover every chunk pair with in-range ids, and every read chunk among them has exactly one correction result. Then stage-3 generation never raises and yields one unit per result. Each unit carries its result's chunks and filtered map, and the corrected index reported for its own read chunk. |
| `Pipeline.GenerationCorrelates` | serverlessgenomics/mapping/map_caller.py:39-54 | Suppose the stage-1 results match the chunk pairs one to one and the correction results match the read chunks one to one. Then stage-3 generation never raises and emits one unit per chunk pair. Each unit carries that pair's chunks and filtered map, plus the corrected index computed for its own read chunk. |
| `Pipeline.StagesCorrelate` | serverlessgenomics/mapping/map_caller.py:83-138 | Assume the work functions report the ids they were given; completion order is arbitrary. Then stage-3 generation never raises and emits exactly one unit per chunk pair, `RowStart(\|fasta\|, \|fastq\|)` in all. Each unit carries that pair's chunks and filtered map, plus the corrected index computed for its own read chunk. |
| `Pipeline.RunFullAlignment` | serverlessgenomics/mapping/map_caller.py:83-142 | The three stages in sequence. A successful run yields `RowStart(\|fasta\|, \|fastq\|)` outputs, that is `\|fasta\| * \|fastq\|`. An IndexError aborts the run and names a stage-1 result. |
| `Pipeline.FilteredMatchesPairs` | serverlessgenomics/mapping/map_caller.py:141 | Filtering units that match the chunk pairs one to one, in any completion order, yields one output per unit. Every pair's result is present, every output is some pair's result, and a labelling by pairs uses each pair exactly once. |
| `Pipeline.FilteredOnePerPair` | serverlessgenomics/mapping/map_caller.py:141 | The completion order only permutes the units, so output `i` is the result of the pair of the unit run in slot `i`, and these pairs are distinct and cover every chunk pair. |
| `Pipeline.RunCompletes` | serverlessgenomics/mapping/map_caller.py:83-142 | Under the same assumptions, the run completes without IndexError and yields `RowStart(\|fasta\|, \|fastq\|)` outputs. The outputs are exactly the filter's results on the pairs' expected units. Every pair's result is present, and every output is the result for some pair. Moreover the outputs can be labelled by chunk pairs so that each pair labels exactly one output, which is that pair's result; no pair is processed twice or skipped, even when the filter gives two pairs the same value. A pair's expected unit holds both chunks, their filtered map and the read chunk's corrected index. |
| `Pipeline.EmptyReferenceRunsNoOp` | serverlessgenomics/mapping/map_caller.py:83-141 | With no reference chunks, every stage is a no-op and the run succeeds with no output, whatever the work functions do. |

## Left out

- Remote execution: `lithops.invoker.map` becomes `Pipeline.InvokerMap`, which applies the work function to every unit and returns the results in a completion order chosen by a schedule parameter. Remote failures, timeouts and retries are not modelled.
- Work functions `gem_indexer_mapper`, `index_correction` and `filter_index_to_mpileup`: their code is not part of this model. They are uninterpreted function parameters. The end-to-end lemmas assume only that the first two report the chunk ids of the unit they ran on.
- `print` and `logger.debug` calls: output only. The stage-3 results printed at line 142 are the one exception; see the next line.
- Return value of `run_full_alignment`: the function returns None, because its `return map_time` is commented out. The stage-3 results exist only as the value printed at serverlessgenomics/mapping/map_caller.py line 142. `Pipeline.RunFullAlignment` returns that stage-3 invoker result (`alignment_output`) so that the run's effect can be stated.
- Commented-out checkpoint, cache and file-deletion code in `run_full_alignment`: it is not live.
- `varcall_lithops_demo_v8.py`: command-line parsing and the call into the pipeline caller, whose code is not part of this model.
- Negative chunk ids: Python would wrap a negative subscript to the end of the list. Ids are `nat`, so this cannot happen in the model.
- IndexError payload: Python's IndexError carries only a message. The model also records the offending result's position and which subscript failed, so that the error path can be stated.
