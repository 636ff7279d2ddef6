# Field-layout inference of URH's format finder, in Dafny

URH's automatic reverse engineering (`src/urh/awre/FormatFinder.py`) infers
the layout of the fields in a set of captured messages. It runs in these steps:

- **Construction.** The preprocessor gives each message a preamble end and
  a shared sync length. The format finder quantises every sync end to a
  positive multiple of the shortest field length and pulls each preamble
  end back so it never passes its sync end. It trims every message to the
  bits after its sync end; these trimmed bits are what the engines see.
  It ranks each message's participant among the distinct participants.
- **Each iteration.** Every engine's candidate fields ("common ranges") are
  merged by `(start, length)` and added to the label set. The messages are
  then clustered into message types: messages with the same sorted list of
  applicable labels share a type. Overlapping ranges inside a type are
  resolved: the ranges are cut greedily into runs of overlapping ranges,
  each range of a run anchors one candidate solution, and the candidate
  with the highest total score wins. Finally the types are mapped back onto
  the untrimmed messages. Each message's ranges are shifted by its sync
  end, Preamble and Sync ranges are added, and messages with equal range
  lists are grouped again.

The model has one module per step:

- `Normalise`: quantisation, bit vectors, participant ranks.
- `Merge`: `merge_common_ranges`.
- `Cluster`: `create_message_types`.
- `Overlap`: `handle_overlapping_conflict` and `__handle_container_overlapping_conflict`.
- `Retransform`: `retransform_message_types`.
- `FormatFinder`: the class, with its constructor and `PerformIteration`.

These rest on some shared helpers:

- `CommonRange`: ranges, containers, overlap, sort by start, `add_ranges`.
- `Grouping`: the grouping by equal range lists that two of the loops share.
- `SortedSets`: `sorted(set(...))` and `list.index`.
- `Wrappers`: `Option` and the "first match" search.

Each loop of the source is a method. Its `ensures` ties the result to a
specification function, and the properties the source promises are proved
as lemmas about those functions. The quantisation loop works in place on two
arrays, as the source does on its numpy arrays. The format finder is a class
whose `PerformIteration` replaces its label set and its message types.

Two behaviours of the resolution step are worth knowing:

- The runs compare each range only with the last range of the current run.
  A long range can therefore overlap a range of the next run, and both are
  kept (`Overlap.OverlapAcrossRuns`). The model keeps this as the source
  has it.
- A candidate solution built as line 214 writes it keeps every later range
  that does not overlap its anchor, so it can hold two ranges that overlap
  each other. The model follows the code here, and its lemmas state what
  the code does guarantee: the winning anchor overlaps none of the other
  kept ranges. The corrected candidate, which holds no overlap, is defined
  beside it and is listed under Findings.

Two consequences of the code are easy to misread:

- A sync end below the shortest field length `n` is raised to `n`, not
  rounded down to 0, because of the `max(..., 1)` at line 33.
- A message with preamble end 4, sync end 12 and one field at 0 gets that
  field at 12 (`Retransform.RetransformExample`).

## Model

| member | source | states |
|---|---|---|
| `Normalise.QuantiseSyncEnd` | src/urh/awre/FormatFinder.py:30-33 | the quantised sync end is a multiple of `n` and at least `n`; when the value is at least `n` it is the largest multiple of `n` not above the value; below `n` it is `n` |
| `Normalise.QuantiseBoundaries` | src/urh/awre/FormatFinder.py:30-36 | in place, every sync end becomes its quantised value; a preamble end beyond its new sync end is set to it, any other stays; afterwards every preamble end is at most its sync end |
| `Normalise.SliceFrom` | src/urh/awre/FormatFinder.py:118 | Python's `bits[k:]` is a suffix of the bits; its length is the clamped length for a non-negative `k` and `-k` clamped for a negative one |
| `Normalise.BitVectors` | src/urh/awre/FormatFinder.py:114-118 | one bit vector per message |
| `Normalise.BitVectorIsTrimmedMessage` | src/urh/awre/FormatFinder.py:114-118 | bit vector `i` is the message's decoded bits from its sync end on; it is empty when the sync end lies past the message; without sync ends it is the whole message |
| `Normalise.ParticipantIndices` | src/urh/awre/FormatFinder.py:41-42 | one participant index per message |
| `Normalise.ParticipantIndexIsRank` | src/urh/awre/FormatFinder.py:41-42 | each participant index is the number of distinct participants below the message's participant; it lies in `[0, #participants)`; the index order is exactly the participant order |
| `SortedSets.SortedSeq` | src/urh/awre/FormatFinder.py:41 | `sorted(set)` lists exactly the set's elements, each once, in strictly increasing order |
| `SortedSets.Min` | src/urh/awre/FormatFinder.py:41 | the least element of a non-empty set is in it and below every other element |
| `SortedSets.IndexOf` | src/urh/awre/FormatFinder.py:42 | `list.index` returns the first position holding the element |
| `SortedSets.IndexIsRank` | src/urh/awre/FormatFinder.py:41-42 | the position of an element in `sorted(s)` is the number of elements of `s` below it, and lies below the size of `s` |
| `SortedSets.DistinctCardinality` | src/urh/awre/FormatFinder.py:41 | a strictly increasing list has as many distinct elements as entries |
| `SortedSets.PrefixIsBelow` | src/urh/awre/FormatFinder.py:41-42 | in a sorted listing of a set, the entries before position `k` are exactly the elements below the `k`-th |
| `Wrappers.FirstIndex` | src/urh/awre/FormatFinder.py:103-105 | the `next(...)` search returns the first index whose element satisfies the test, or none when no element does |
| `Merge.MergeCommonRanges` | src/urh/awre/FormatFinder.py:99-111 | the merge loop returns `Merged` of its input |
| `Merge.MergedKeysAreFirstOccurrences` | src/urh/awre/FormatFinder.py:99-111 | the merged list's `(start, length)` pairs are the input's, each once, in order of first occurrence |
| `Merge.MergedIsDeduplicated` | src/urh/awre/FormatFinder.py:99-111 | no two merged ranges share `(start, length)`; the output is never longer than the input; every input range has a merged range with its `(start, length)` |
| `Merge.MergedGathersEvidence` | src/urh/awre/FormatFinder.py:102-109 | every merged range is the first-seen input range for its `(start, length)`, carrying the values of all inputs with that key concatenated in input order and the union of their message indices |
| `Merge.MergedCoversEvidence` | src/urh/awre/FormatFinder.py:103-107 | each input range's message indices are contained in those of the merged range with the same `(start, length)`, whose values are the concatenation of all its duplicates' values |
| `Merge.MergeOfDistinctIsIdentity` | src/urh/awre/FormatFinder.py:99-111 | an input without two ranges of the same `(start, length)` comes back unchanged |
| `Merge.DedupDistinct` | src/urh/awre/FormatFinder.py:99-111 | the first-occurrence list of keys has no repeats, is no longer than the input, and holds exactly its keys |
| `Merge.Keys` | src/urh/awre/FormatFinder.py:104-105 | the key list has one `(start, length)` per range, position by position |
| `Merge.GatheredSame` | src/urh/awre/FormatFinder.py:106-107 | reading a duplicate adds its values and indices to the range already kept for its key |
| `Merge.GatheredNew` | src/urh/awre/FormatFinder.py:108-109 | a range with a new key is kept as it is |
| `Merge.GatheredOther` | src/urh/awre/FormatFinder.py:102-109 | reading a range leaves what is kept for other keys unchanged |
| `CommonRange.OverlapsIsIntersection` | src/urh/awre/FormatFinder.py:201 | two ranges overlap exactly when some bit lies in both, so overlap is symmetric |
| `CommonRange.InsertByStart` | src/urh/awre/FormatFinder.py:253 | inserting a range adds exactly that range to the list |
| `CommonRange.InsertKeepsSorted` | src/urh/awre/FormatFinder.py:253 | inserting by start keeps a start-sorted list sorted |
| `CommonRange.SortByStart` | src/urh/awre/FormatFinder.py:143 | `sorted` by start returns a start-sorted permutation of its input |
| `CommonRange.AddRanges` | src/urh/awre/FormatFinder.py:253 | `add_ranges` returns the old ranges together with the added ones, nothing lost or added |
| `CommonRange.AddRangesKeepsSorted` | src/urh/awre/FormatFinder.py:253 | `add_ranges` keeps a start-sorted list sorted |
| `Cluster.MessageIndices` | src/urh/awre/FormatFinder.py:136-139 | with a count `n` the indices are `0 .. n-1`; without one they are the indices some label names, strictly increasing |
| `Cluster.Applicable` | src/urh/awre/FormatFinder.py:143-144 | the applicable ranges are exactly the label-set ranges that are not empty ranges and name the message, each once |
| `Cluster.LabelsAreApplicableRanges` | src/urh/awre/FormatFinder.py:143-144 | a message's labels are exactly its applicable ranges, each once, sorted by start, and none is an empty range |
| `Cluster.SameLabelsIffSameApplicable` | src/urh/awre/FormatFinder.py:143-150 | two messages get equal labels exactly when the same label-set ranges apply to both |
| `Cluster.ApplicableDeterminedByMembers` | src/urh/awre/FormatFinder.py:143-144 | the applicable list depends only on which ranges apply |
| `Cluster.GroupMessages` | src/urh/awre/FormatFinder.py:141-150 | the clustering loop returns the messages grouped by their labels |
| `Cluster.CreateMessageTypes` | src/urh/awre/FormatFinder.py:128-155 | the method returns `MessageTypes` of its label set |
| `Cluster.MessageTypesProperties` | src/urh/awre/FormatFinder.py:136-155 | every clustered message lies in exactly one type and no other index appears; two messages share a type exactly when their labels are equal; each type keeps only ranges that label all its members, sorted by start, and all of them when they do not overlap |
| `Cluster.ResolvedClustersProperties` | src/urh/awre/FormatFinder.py:146-155 | resolving a sound clustering keeps each type and its members, and every resolved type is sound |
| `Cluster.ResolvedTypeSound` | src/urh/awre/FormatFinder.py:153 | a type whose members all have its ranges as labels keeps, after resolution, only labels of each member, sorted, and all of them when they do not overlap |
| `Grouping.PlaceMessage` | src/urh/awre/FormatFinder.py:146-150 | one message joins the first container with its ranges, or opens a new one |
| `Grouping.AddMemberKeepsGrouped` | src/urh/awre/FormatFinder.py:146-150 | placing a message keeps the grouping sound: containers are inhabited, members keyed, range lists distinct, every placed message placed |
| `Grouping.GroupAllIsGrouped` | src/urh/awre/FormatFinder.py:141-150 | placing messages one by one gives a sound grouping |
| `Grouping.GroupedIsPartition` | src/urh/awre/FormatFinder.py:146-150 | a sound grouping puts each message in exactly one container and two messages together exactly when their keys are equal |
| `Grouping.GroupAllPartitions` | src/urh/awre/FormatFinder.py:255-259 | the grouping splits the messages by key; each container has the key of all its members; no two containers have equal ranges |
| `Grouping.PartitionKeptByIndices` | src/urh/awre/FormatFinder.py:165-173 | containers with the same message indices split the messages the same way |
| `Grouping.GroupAllStep` | src/urh/awre/FormatFinder.py:142-150 | grouping one more message is one placement step |
| `Overlap.Partitions` | src/urh/awre/FormatFinder.py:192-204 | runs are never empty |
| `Overlap.JoinOrOpen` | src/urh/awre/FormatFinder.py:196-204 | one partition step keeps the runs non-empty |
| `Overlap.JoinOrOpenAppends` | src/urh/awre/FormatFinder.py:196-204 | one partition step appends the range to the runs laid end to end |
| `Overlap.PartitionsAreGreedyRuns` | src/urh/awre/FormatFinder.py:192-204 | the runs laid end to end give back the ranges; inside a run each range overlaps the one before; each new run starts with a range not overlapping the last range of the previous run |
| `Overlap.PartitionRanges` | src/urh/awre/FormatFinder.py:192-204 | the partition loop returns `Partitions` of the ranges |
| `Overlap.NotOverlapping` | src/urh/awre/FormatFinder.py:214 | the filter keeps exactly the ranges that do not overlap the anchor |
| `Overlap.NotOverlappingSorted` | src/urh/awre/FormatFinder.py:214 | the filter keeps a start-sorted list sorted |
| `Overlap.Candidate` | src/urh/awre/FormatFinder.py:214 | a candidate starts with its anchor, and its other members are later ranges of the run that do not overlap the anchor |
| `Overlap.CandidateProperties` | src/urh/awre/FormatFinder.py:212-215 | a candidate is its anchor followed by exactly the later ranges of the run that do not overlap the anchor; the anchor overlaps none of them; it is drawn from the anchor and the later ranges, and start-sorted when the run is |
| `Overlap.ExtendProperties` | src/urh/awre/FormatFinder.py:214 | the corrected scan keeps what was chosen as a prefix, never introduces an overlap, draws only from its inputs, and every skipped range overlaps a kept one |
| `Overlap.CorrectedCandidateProperties` | src/urh/awre/FormatFinder.py:212-215 | a corrected candidate starts with its anchor, holds no two overlapping ranges, is drawn from the anchor and later ranges, and every later range left out overlaps one of its members |
| `Overlap.CorrectedResolutionProperties` | src/urh/awre/FormatFinder.py:210-218 | with the corrected candidates the kept subset of a run is its first highest-scoring corrected candidate, is drawn from the run and holds no two overlapping ranges |
| `Overlap.Best` | src/urh/awre/FormatFinder.py:217 | `max` by score returns a candidate scoring at least as high as every candidate and higher than every earlier one |
| `Overlap.Candidates` | src/urh/awre/FormatFinder.py:211-215 | one candidate per range of the run |
| `Overlap.PossibleSolutions` | src/urh/awre/FormatFinder.py:211-215 | the candidate loop returns the candidates of the run, one per range in run order, each built as line 214 builds it |
| `Overlap.ResolvePartitionProperties` | src/urh/awre/FormatFinder.py:210-218 | the kept subset of a run is one of its candidates, scores at least as high as every candidate and higher than every earlier one, is drawn from the run, and its anchor overlaps none of its other ranges |
| `Overlap.ResolveEach` | src/urh/awre/FormatFinder.py:210-218 | one resolved subset per run |
| `Overlap.HandleContainerOverlappingConflict` | src/urh/awre/FormatFinder.py:176-220 | the method returns the resolved ranges of the container with its message indices |
| `Overlap.HandleOverlappingConflict` | src/urh/awre/FormatFinder.py:158-173 | the loop returns every container resolved in turn, an overlap-free one unchanged |
| `Overlap.ResolveAll` | src/urh/awre/FormatFinder.py:165-173 | one result per container |
| `Overlap.ResolveAllProperties` | src/urh/awre/FormatFinder.py:165-173 | the containers keep their order and message indices; each keeps only ranges it had, sorted by start when they were; an overlap-free container passes unchanged |
| `Overlap.ResolvedRangesProperties` | src/urh/awre/FormatFinder.py:192-220 | resolved ranges are drawn from the container and keep the order by start; in each run the winning anchor overlaps none of the other kept ranges; a non-empty container stays non-empty |
| `Overlap.ResolveEachDrawn` | src/urh/awre/FormatFinder.py:208-218 | every resolved range comes from the runs |
| `Overlap.ResolveEachSorted` | src/urh/awre/FormatFinder.py:208-218 | start-sorted runs resolve to a start-sorted list |
| `Overlap.ResolveEachAnchored` | src/urh/awre/FormatFinder.py:208-218 | in each resolved run the winning anchor overlaps none of the other kept ranges |
| `Overlap.ResolveEachNonEmpty` | src/urh/awre/FormatFinder.py:208-218 | a non-empty list of runs never resolves to nothing |
| `Overlap.ResolvePartitionKeepsOrder` | src/urh/awre/FormatFinder.py:214-217 | a start-sorted run resolves to a start-sorted list |
| `Overlap.Singletons` | src/urh/awre/FormatFinder.py:196-204 | one run per range, holding that range |
| `Overlap.NoOverlapSingletons` | src/urh/awre/FormatFinder.py:196-204 | without overlaps every range forms a run of its own |
| `Overlap.SingletonsAreKept` | src/urh/awre/FormatFinder.py:210-218 | runs of one range each resolve to the ranges themselves |
| `Overlap.NoOverlapPassThrough` | src/urh/awre/FormatFinder.py:167-169 | an overlap-free container would also come through full resolution unchanged |
| `Overlap.ResolveIsResolveContainer` | src/urh/awre/FormatFinder.py:165-173 | the `ranges_overlap` shortcut and the full resolution agree on every container |
| `Overlap.ResolvedOneRun` | src/urh/awre/FormatFinder.py:208-218 | a container that forms one run resolves to that run's choice |
| `Overlap.ThreeFieldExample` | src/urh/awre/FormatFinder.py:192-218 | `[0,8)` scoring 5, `[4,12)` scoring 3 and `[8,12)` scoring 4 form one run, and `[0,8)` with `[8,12)` wins |
| `Overlap.AsWrittenKeepsOverlap` | src/urh/awre/FormatFinder.py:214 | the run `[0,10) [5,15) [12,16) [13,17)`, all scoring 1, resolves to `[0,10) [12,16) [13,17)`, and the last two overlap |
| `Overlap.CorrectedDropsOverlap` | src/urh/awre/FormatFinder.py:214 | with the corrected candidate the same run resolves to `[0,10) [12,16)`, which do not overlap |
| `Overlap.OverlapAcrossRuns` | src/urh/awre/FormatFinder.py:196-204 | `[0,100)`, `[50,60)`, `[70,75)` form two runs, and the resolution keeps `[0,100)` and `[70,75)`, which overlap |
| `Retransform.Shift` | src/urh/awre/FormatFinder.py:250-251 | shifting keeps the number of ranges |
| `Retransform.ShiftProperties` | src/urh/awre/FormatFinder.py:250-251 | each range's start moves by the sync end and nothing else of it changes; order by start is kept both ways; shifting back undoes it |
| `Retransform.ShiftRanges` | src/urh/awre/FormatFinder.py:250-251 | the loop returns the shifted ranges |
| `Retransform.MessageTypeOf` | src/urh/awre/FormatFinder.py:246-247 | the result is the first type that has the message among its members, or the empty container with no ranges and no members when no type has it |
| `Retransform.NarrowedRangesProperties` | src/urh/awre/FormatFinder.py:243-253 | a message's new ranges are its type's ranges shifted by its sync end, plus Preamble `(0, pe)` and Sync `(pe, se - pe)`; there are two more of them, and they stay sorted by start when the type's were |
| `Retransform.NarrowMessage` | src/urh/awre/FormatFinder.py:243-253 | the loop body computes the message's new ranges |
| `Retransform.Upto` | src/urh/awre/FormatFinder.py:242 | the indices `0 .. n-1` in order |
| `Retransform.RetransformMessageTypes` | src/urh/awre/FormatFinder.py:224-261 | the loop returns the messages grouped by their new ranges |
| `Retransform.RetransformPartitions` | src/urh/awre/FormatFinder.py:242-259 | every index below the number of sync ends lies in exactly one output type, no other index appears, and two messages share a type exactly when their new ranges agree |
| `Retransform.RetransformedTypesMatchMessages` | src/urh/awre/FormatFinder.py:249-259 | each output type's ranges are the new ranges of each of its messages, and no two types have equal ranges |
| `Retransform.NarrowSingleField` | src/urh/awre/FormatFinder.py:243-253 | a type with a single field placed after the preamble once shifted gives Preamble, Sync and the shifted field, in that order |
| `Retransform.RetransformExample` | src/urh/awre/FormatFinder.py:243-253 | preamble end 4, sync end 12 and a field at `[0,8)` give Preamble `[0,4)`, Sync `[4,12)` and the field at `[12,20)` |
| `FormatFinder.AddToSet` | src/urh/awre/FormatFinder.py:83 | `label_set.update` holds exactly the old labels and the new ranges, keeps the old labels in place, and never lists a range twice |
| `FormatFinder.LabelSetAfterProperties` | src/urh/awre/FormatFinder.py:80-83 | after all engines, the label set holds exactly the old labels and every merged candidate of every engine, keeps the old labels in place, and lists no range twice |
| `FormatFinder.GatherLabels` | src/urh/awre/FormatFinder.py:80-84 | the engine loop merges each engine's candidates and adds them to the label set |
| `FormatFinder.RebuildMessageTypes` | src/urh/awre/FormatFinder.py:85-86 | the message types are created from the label set and retransformed |
| `FormatFinder.FormatFinder.constructor` | src/urh/awre/FormatFinder.py:26-50 | the boundaries are quantised, every preamble end is at most its sync end, the bit vectors and participant indices are derived from them, the label set is empty and there is one empty message type |
| `FormatFinder.FormatFinder.PerformIteration` | src/urh/awre/FormatFinder.py:79-86 | the label set grows by the merged candidates of every engine; the message types are the retransformed types created from the new label set; the quantised boundaries and derived data stay valid |

## Left out

- The preprocessor (`Preprocessor.preprocess`) and the engines (`LengthEngine`, `AddressEngine`) are outside the core. Their results are parameters: the constructor takes the preamble ends and the sync length, and `PerformIteration` takes each engine's candidate list.
- `build_xor_matrix` is a call into a compiled extension, so it is not modelled, nor is the `xor_matrix` field.
- `auto_assign_participants` (the `participants` argument of `__init__`) and `get_bitvectors_by_participant` are protocol plumbing that the core does not use.
- `update_message_types` is dead code, because its only call is commented out in `perform_iteration`.
- `init_bitvectors` only repeats the bit-vector computation of the constructor.
- `MIN_MESSAGES_PER_CLUSTER` is not read in FormatFinder.py.
- urh/awre/CommonRange.py is not part of this model. Range equality is structural equality of all attributes. `overlaps_with` is intersection of the half-open intervals `[start, start + length)`. `has_same_ranges` is equality of the range lists. `add_ranges` inserts each range by start, stably. Sorting ranges is a stable sort by start.
- A message's participant is an integer. A message without a participant (`None`) is not modelled.
- Scores are reals. Floating-point rounding of the score sums is not modelled.
- The label set, a Python `set`, is a duplicate-free list in insertion order. Where iteration order matters in the source (the order of applicable labels before sorting), the model fixes that order.
- Merging rebuilds ranges as values. The source extends the first-seen input range object in place, so the caller's input objects change as well. That aliasing is not modelled; neither is the deep copy in `retransform_message_types`, which values make unnecessary.
- Numpy arrays are sequences. After the in-place quantisation the format finder keeps the final boundaries as sequences, since nothing changes them afterwards.
- The initial `message_types = [[]]` is one container with no ranges and no messages.
- `FormatFinder.FormatFinder.constructor`: a shortest field length n ≤ 0 is excluded: 0 raises ZeroDivisionError, and a negative length is meaningless.
- `Normalise.QuantiseSyncEnd`: n ≤ 0 is excluded: 0 raises ZeroDivisionError, and a negative length is meaningless.
- `Normalise.QuantiseBoundaries`: n ≤ 0 is excluded: 0 raises ZeroDivisionError, and a negative length is meaningless.
- `Retransform.RetransformMessageTypes`: the source asserts that there are as many preamble ends as sync ends. The model makes that a precondition rather than modelling the failed assertion.

## Findings

| source | as written | input that shows it | evidently intended | confidence | as-written member | corrected member |
|---|---|---|---|---|---|---|
| src/urh/awre/FormatFinder.py:214 | a candidate keeps every later range of the run that does not overlap its anchor, even when two of those overlap each other | one run of `[0,10)`, `[5,15)`, `[12,16)`, `[13,17)`, all scoring 1: the winning candidate is `[0,10)`, `[12,16)`, `[13,17)`, and the last two overlap | a candidate holds no two overlapping ranges: a later range joins only when it overlaps none of the ranges already chosen | not executed | `Overlap.AsWrittenKeepsOverlap` | `Overlap.CorrectedResolutionProperties` |
