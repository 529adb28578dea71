# Verified models of the trainer's bookkeeping

This project models the parts of torchtitan whose difficulty is state, concurrency and
arithmetic rather than tensor kernels, and proves what they promise. All of it is checked with

    dafny verify dfyconfig.toml

Objects whose methods change their fields are classes here, and each method is proved against a
function or a step relation; what the source promises is then proved about that function for
every input, or about that relation for every run.

## What is modelled

**Checkpoint protocol.** `CheckpointProtocol` is a step relation over one folder shared by the
trainer, the background stager and uploader, and the purge thread. Every interleaving, half-done
deletions, failed deletions and a crash between any two steps are steps of it. `CheckpointSafety`
proves an invariant of all steps and reads the promises off it; `CheckpointRoom` gives the exact
condition on leftover directories under which the purge spares the newest complete checkpoint;
`CheckpointSchedule` says at which steps the train loop saves and what a crash can cost;
`CheckpointManager` is the object itself, each method a stretch of a run of the protocol;
`CheckpointNames` and `PurgeNames` tie the numbers to directory names. A complete step is
one whose directory holds the metadata file; it is intact when every shard that its save writes is
there and is the parameters of that step.

**Datasets.** `TokenStreams` describes a map-style dataset as a stream of tokens over epochs, with
a fixed permutation per epoch. `TextDataset` and `ChatDataset` are the two generators as functions
from one suspended state to the next, with the theorems about all their rows and about resuming;
`TextDatasetObject` and `ChatDatasetObject` are the objects, buffers updated in place and each
generator holding an iterator of its own besides the position that is saved, proved equal to those
functions. `GreedyPacking` is the packing of documents into rows by itself,
`ChatSamples` the masking of one conversation. `Interleaved` and `InterleavedObject` mix several
sources of any kind.

**SPMD layouts.** `ShardViews` says what repeated even slicing leaves on each device; `SpmdLayouts`
is the layout type with its validator, `SpmdMoves` which moves the validator accepts in terms of
the layouts, `SpmdRedistribute` the collectives and the commuting diagram.

**Vocab-parallel cross entropy.** `VocabShards`, `VocabLoss` and `VocabParallel` prove the
distributed forward and backward passes equal to the serial ones over the reals, for arbitrary
functions in the place of `exp` and `log`; `GradAccumulator` is the chunk buffer.

**Optimizer state.** `ParamGroups` assigns parameters to optimizers; `DottedNames`, `StateTrees`,
`FlatSections`, `FlatOptimizers`, `FlatOptimizerDicts`, `FlatOptimizerLoad` and
`OptimizersContainer` flatten optimizer state to dotted keys and rebuild it under another grouping;
`SharedKeys` says when two parameters claim one key.

**Config overrides.** `ConfigTrees`, `ConfigTraversal` and `Overrides`: claims, conflicts,
replacement in any order.

**Partition arithmetic.** `MeshDims` (device meshes of one world), `PipelineSplit` (stages and
ranks) and `ExpertShards` (expert ranges and collection).

**Numerics tools.** `GradFnWalk` (the walk that attributes autograd nodes to modules) and
`MatchEntries` (pairing two logs in four passes).

## Where the code does less than it says

Each of these is stated with the input that shows it and with the exact condition.

- The purge counts directories without looking for metadata, so leftovers numbered above the
  loaded step can push the only complete checkpoint out: `CheckpointRoom.SparedIffRoom`,
  `CheckpointRoom.NoRoomLoses`, `CheckpointRoom.LeftoverExample`.
- The default last save writes the model only, so the finished run's newest checkpoint cannot be
  loaded again by the same configuration: `CheckpointSafety.LoadableIff`,
  `CheckpointRoom.FinalSaveExample`.
- The search for the step to load takes any name that contains `step-<n>`, the lookup only
  `step-<n>` itself, so a copy like `backup-step-100` can make the load fail:
  `CheckpointNames.Lookup`, `CheckpointNames.StrayExample`.
- A finite text dataset that has read its last sample loses the full rows it still buffers when it
  is resumed: `TextDatasets.ResumeExactFiniteIff`, `TextDatasets.FiniteLossExample`.
- `load_state_dict` of a snapshot of epoch 0 keeps whatever order the object holds, so an object
  that holds a shuffled one repeats samples and misses others: `TextDatasets.LoadRestoresOrder`,
  `TextDatasets.OrderLostExample`.
- A label outside the vocabulary that is not `IGNORE_INDEX` silently costs nothing:
  `VocabLosses.ForeignLabelCostsNothing`.
- `_validate_params` compares sets, so a tensor held twice passes a check whose docstring says
  "exactly one": `ParamGroups.CheckedIsOnce`, `ParamGroups.SharedTensorPasses`.
- Two parameters can claim one dotted key: when one name is the other followed by a path on which
  the other's state is nested down to the same leaf. The flat dict then holds both only if they
  agree there. One module cannot own two such names, so it takes an optimizer whose names were
  given by hand: `SharedKeys.SharedKeyIff`, `SharedKeys.HeldIff`, `SharedKeys.DottedPrefixLoses`.
- The conflict check does not see that a claimed root contains every other claim; the loop then
  stops at it with earlier claims already applied: `Overrides.AcceptedAreApart`,
  `Overrides.StoppedUnchangedIff`, `Overrides.RootClaimedExample`.
- The purge takes every name that contains `step-<n>` for a checkpoint, so copies with larger
  numbers push the run's own directories out: `PurgeNames.PurgeList`, `PurgeNames.StraysPushOut`.
- When the expert degree does not divide dp_shard * cp * tp the sparse mesh does not fill the
  world, which `ParallelDims` itself does not check: `MeshDims.SparseNeedsDivisor`,
  `MeshDims.SparseExample`.

## Model

| member | source | states |
|---|---|---|
| CheckpointSafety.NextKeeps | torchtitan/components/checkpoint.py:706-797 | every step of trainer, uploader, purge thread or crash keeps the invariant, and the newest complete step never goes back |
| CheckpointSafety.CrashSafe | torchtitan/components/checkpoint.py:966-1010 | over every run, crashes and restarts included, what `_find_load_step` returns never decreases and is intact: metadata and every shard that its save writes, equal to the parameters of that step |
| CheckpointSafety.LoadRestores | torchtitan/components/checkpoint.py:799-912 | every load restores the newest complete step: from step 1 on its step counter and all parameters, from a seed checkpoint the model |
| CheckpointSafety.LoadableIff | torchtitan/components/checkpoint.py:1071-1112 | the newest complete step can be loaded if and only if it is the seed checkpoint, or not the last step, or the last step was not saved model-only |
| CheckpointSafety.NewestNeverDoomed | torchtitan/components/checkpoint.py:1145-1161 | in no reachable state is the newest complete checkpoint queued, pending or being deleted |
| CheckpointSafety.OneUploadInFlight | torchtitan/components/checkpoint.py:943-964 | two unfinished saves are the same save |
| CheckpointSafety.SnapshotIsolation | torchtitan/components/checkpoint.py:748-769 | however staging interleaves with later computation, what a completed upload seals is the parameters of its own step, and it becomes the newest |
| CheckpointSafety.StagingClearAtSave | torchtitan/trainer.py:806-816 | on entry to every save the staging future is clear and every earlier save is fully staged |
| CheckpointSafety.DrainedCount | torchtitan/components/checkpoint.py:140-173 | once a listed purge has drained without a failure at most k + 1 step directories are left until the next save begins, and at most k + 2 from then on |
| CheckpointSafety.SweptLasts | torchtitan/components/checkpoint.py:140-173 | a listed purge stays in force, and with it those bounds, until a deletion fails or the process crashes |
| CheckpointSafety.ListingSparesLatest | torchtitan/components/checkpoint.py:389-395 | with k >= 2 a purge listing made at the end of a save names only steps below the newest complete one |
| CheckpointSafety.CompleteNext | torchtitan/components/checkpoint.py:706-797 | completing the save under way makes it the newest and leaves it room among the k kept |
| CheckpointRoom.SparedIffRoom | torchtitan/components/checkpoint.py:1145-1161 | restarting from an intact checkpoint, the purge spares the newest complete one in every run, and no run ever falls back behind it, each if and only if the leftovers above it leave room |
| CheckpointRoom.NoRoomDooms | torchtitan/components/checkpoint.py:1145-1161 | without room there is a run whose first purge lists the newest complete checkpoint |
| CheckpointRoom.NoRoomLoses | torchtitan/components/checkpoint.py:140-173 | without room there is also a run that deletes every complete checkpoint and leaves nothing to load |
| CheckpointRoom.CrashKeepsRoom | torchtitan/components/checkpoint.py:140-173 | a crash of a run of this configuration always leaves room, so its restarts spare the newest checkpoint for ever |
| CheckpointRoom.LeftoverExample | torchtitan/components/checkpoint.py:1145-1161 | a run of 15 steps crashes in its last save and leaves steps 10 and 15; a run of 100 steps started on that folder with k = 2 can lose step 10 and everything |
| CheckpointRoom.FinalSaveExample | torchtitan/components/checkpoint.py:1071-1112 | with the default model-only last save a finished run can leave a newest checkpoint that the same configuration cannot load |
| CheckpointManagers.CheckpointManager.constructor | torchtitan/components/checkpoint.py:799-912 | a process starts on any folder earlier runs left, with nothing in memory |
| CheckpointManagers.CheckpointManager.Load | torchtitan/components/checkpoint.py:883-912 | reads the newest complete step's shards from the folder: fails exactly when that step is a model-only last save; otherwise the step counter and the parameters are that step's, the rest as initialised |
| CheckpointManagers.SeedCheckpoint | torchtitan/train.py:53-63 | the seed run leaves a complete step 0 with what `_save_last_step` writes, a start for any later run |
| CheckpointManagers.CheckpointManager.MaybeWaitForStaging | torchtitan/components/checkpoint.py:914-941 | never raises; returns with every dispatched save staged and the future cleared |
| CheckpointManagers.CheckpointManager.MaybeWaitForSaving | torchtitan/components/checkpoint.py:943-964 | never raises; returns with every dispatched save completely uploaded and the future cleared |
| CheckpointManagers.CheckpointManager.AwaitUpload | torchtitan/components/checkpoint.py:943-964 | the wait ends with the awaited step newest and intact, holding that step's parameters, no other directory added |
| CheckpointManagers.CheckpointManager.PurgeStaleCheckpoints | torchtitan/components/checkpoint.py:1145-1161 | queues exactly all but the k largest step directories, in ascending order |
| CheckpointSchedule.ScheduleIs | torchtitan/components/checkpoint.py:1114-1130 | the loop saves exactly at the multiples of the interval and at the last step, and with the first-step checkpoint at step 1 besides |
| CheckpointSchedule.SaveInWindow | torchtitan/components/checkpoint.py:1114-1130 | any `interval` consecutive steps of the run hold a save |
| CheckpointSchedule.CrashCosts | torchtitan/trainer.py:900-914 | in every state of a run by that schedule a crash costs at most `interval` completed steps once the last upload is done, and at most twice that while one is under way |
| CheckpointManagers.CheckpointManager.Save | torchtitan/components/checkpoint.py:706-797 | saves exactly at the multiples of the interval, at the last step and, if asked, at step 1, unless saving is off, by a run of the protocol; after a last-step or synchronous save that step is the newest, with all that the save writes: the model only at the last step by default |
| CheckpointManagers.CheckpointManager.TrainStep | torchtitan/trainer.py:759-816 | a train step is a run of the protocol: wait for staging, update every shard, record the step's parameters |
| CheckpointManagers.CheckpointManager.Train | torchtitan/trainer.py:880-914 | load and loop are a run of the protocol; it fails exactly as the load does, ends at the last step or in the step its data ran out, and the last step is saved when saving is on |
| CheckpointManagers.CheckpointManager.DrainPurgeQueue | torchtitan/components/checkpoint.py:140-173 | draining the queue touches only the queued directories, never the newest complete step; failed deletions leave a part and are skipped, without one the queued directories are gone and few are left |
| StepSets.DropLargestIsSlice | torchtitan/components/checkpoint.py:1157 | dropping the k largest is the slice `[: -1 * k]` of the sorted listing if and only if k is not 0 or nothing is listed |
| StepSets.DroppedIff | torchtitan/components/checkpoint.py:1145-1161 | a step is dropped if and only if at least k steps are larger |
| CheckpointNames.NameRoundTrip | torchtitan/components/checkpoint.py:1012-1016 | the number found in a generated directory name is the step it was generated for |
| CheckpointNames.FoundIsLeftmost | torchtitan/components/checkpoint.py:992-1008 | the search finds the whole number behind the leftmost `step-` that has one, and nothing exactly when there is none |
| CheckpointNames.PrefixedName | torchtitan/components/checkpoint.py:992-998 | the search is not anchored: a copy of the directory under a prefixed name carries the same number |
| CheckpointNames.FindLoadStep | torchtitan/components/checkpoint.py:966-1010 | over any listing, the largest number found in a name with either kind of metadata, or -1 |
| CheckpointNames.FindLoadStepOf | torchtitan/components/checkpoint.py:966-1010 | on any listing of the folder the name search never falls short of the protocol's newest complete step, and equals it if and only if no valid entry under another name carries a larger number |
| CheckpointNames.Lookup | torchtitan/components/checkpoint.py:883-893 | the newest complete step is opened if and only if no valid entry under another name carries a larger number; otherwise the lookup raises or opens a directory without metadata |
| CheckpointNames.StrayExample | torchtitan/components/checkpoint.py:883-893 | a folder with complete `step-90` and a copy `backup-step-100` is such a case |
| PurgeNames.PurgeList | torchtitan/components/checkpoint.py:1145-1161 | over the folder's entries: queued exactly those whose name carries a number and that have at least k larger (number, name) pairs above them, in ascending order |
| PurgeNames.PurgesNumbers | torchtitan/components/checkpoint.py:1145-1161 | when only generated names carry a number this is the purge of the k smaller numbers, step by step |
| PurgeNames.StraysPushOut | torchtitan/components/checkpoint.py:1145-1161 | with k = 2 and two copies under other names the purge takes the only directory of the run |
| TextDatasets.RowsAreBlocks | torchtitan/hf_datasets/text_datasets.py:128-170 | from any suspension the re-looping generator's rows are the consecutive (1 + seq_len)-token blocks of buffer plus remaining epochs |
| TextDatasets.RowOfBlock | torchtitan/hf_datasets/text_datasets.py:149-165 | inputs and labels are the block without its last and first token; each position is the distance to the start of its document's part in the row, hence below seq_len |
| TextDatasets.NormalizeIsOffset | torchtitan/hf_datasets/text_datasets.py:119-126 | normalised positions are distances to the start of the document's part, for every chained position list |
| TextDatasets.NextKeeps | torchtitan/hf_datasets/text_datasets.py:128-170 | every yield keeps the object well formed and gives a full block whose positions count on or restart |
| TextDatasets.NextReads | torchtitan/hf_datasets/text_datasets.py:128-170 | one `next()` takes some samples and cuts one block off the stream, or ends with everything read |
| TextDatasets.ResumeExactInfinite | torchtitan/hf_datasets/text_datasets.py:188-232 | re-looping over non-empty data, a fresh object loaded with a snapshot taken at any yield emits exactly the remaining rows |
| TextDatasets.FiniteRows | torchtitan/hf_datasets/text_datasets.py:128-170 | a finite run's rows are the full blocks of what remains, none if it restarts with no sample left |
| TextDatasets.ResumeFinite | torchtitan/hf_datasets/text_datasets.py:188-232 | a finite resume emits all remaining rows when a sample is unread and none otherwise |
| TextDatasets.ResumeExactFiniteIff | torchtitan/hf_datasets/text_datasets.py:188-232 | a finite resume is exact if and only if a sample is unread, no full row is buffered, or the generator was not advanced since a load |
| TextDatasets.FiniteLossExample | torchtitan/hf_datasets/text_datasets.py:108-117 | one sample of four tokens, rows of one token: the second row is lost by resuming after the first |
| TextDatasets.LoadRestoresOrder | torchtitan/hf_datasets/text_datasets.py:188-209 | into any object, a load gives on every dataset the rows a fresh object would give, if and only if the saved epoch is positive or the object is unshuffled |
| TextDatasets.LoadContinues | torchtitan/hf_datasets/text_datasets.py:188-209 | then a re-looping run goes on exactly where it was saved |
| TextDatasets.OrderLostExample | torchtitan/hf_datasets/text_datasets.py:188-209 | an object shuffled for epoch 1 loads a snapshot of epoch 0 and gives the first sample again instead of the second |
| TextDatasetObjects.HuggingFaceTextDataset.NormalizePositions | torchtitan/hf_datasets/text_datasets.py:119-126 | the in-place loop with its early exit computes the normalisation |
| TextDatasetObjects.HuggingFaceTextDataset.FillBlock | torchtitan/hf_datasets/text_datasets.py:128-170 | the nested loops end and reach the same state as the generator's step function |
| TextDatasetObjects.HuggingFaceTextDataset.Next | torchtitan/hf_datasets/text_datasets.py:128-170 | one `next()` on the object makes the generator's step and yields the row of its block, its live iterator never parting from the position that is saved |
| TextDatasetObjects.HuggingFaceTextDataset.StateDict | torchtitan/hf_datasets/text_datasets.py:218-232 | the snapshot is the read position, epoch and both buffers |
| TextDatasetObjects.HuggingFaceTextDataset.LoadStateDict | torchtitan/hf_datasets/text_datasets.py:188-216 | the whole new state after loading, ready for a new generator whenever the order was restored |
| TokenStreams.FeedChained | torchtitan/hf_datasets/text_datasets.py:139-147 | along the whole stream positions either count on or restart at 0 |
| TokenStreams.EpochFeed | torchtitan/hf_datasets/text_datasets.py:128-147 | an epoch gives the samples its order names, in that order and each in full, and a re-looping dataset goes on with the next epoch's |
| TokenStreams.EnoughTokens | torchtitan/hf_datasets/text_datasets.py:128-170 | re-looping over data with a non-empty sample, any number of tokens is reached |
| GreedyPacking.PackingConserves | torchtitan/hf_datasets/text_datasets.py:521-564 | every document ends up whole in exactly one row, in order; only documents without tokens are left over |
| GreedyPacking.PackingFits | torchtitan/hf_datasets/text_datasets.py:529-554 | no row overflows or is empty, and two consecutive rows together exceed seq_len |
| GreedyPacking.PackingCloses | torchtitan/hf_datasets/text_datasets.py:528-560 | a row is closed only when it is full or the document that opens the next one does not fit |
| GreedyPacking.PackingBound | torchtitan/hf_datasets/text_datasets.py:521-564 | at most 2 * total / seq_len + 1 rows |
| GreedyPacking.PackingEmits | torchtitan/hf_datasets/text_datasets.py:521-564 | something is emitted whenever there is a token to pack |
| ChatSamples.MaskedPrompt | torchtitan/hf_datasets/text_datasets.py:482-498 | labels are the next tokens, masked exactly while the next token lies inside the prompt |
| ChatSamples.Tokenize | torchtitan/hf_datasets/text_datasets.py:463-480 | a sample is kept exactly when it gives at most seq_len inputs |
| ChatDatasets.RowHoldsDocuments | torchtitan/hf_datasets/text_datasets.py:547-554 | a row shows its documents whole, one behind the other, positions restarting at 0 |
| ChatDatasets.RowPadding | torchtitan/hf_datasets/text_datasets.py:556-562 | the rest of a row is end-of-sequence tokens with ignored labels and positions from 0 |
| ChatDatasets.NextPlan | torchtitan/hf_datasets/text_datasets.py:503-569 | from any of its yield points one `next()` yields the next row of the next-fit packing of what is left of the epoch, or goes on to the next epoch, or stops |
| ChatDatasets.RowsArePacked | torchtitan/hf_datasets/text_datasets.py:503-569 | over whole runs the rows are the packing of the rest of this epoch followed by those of later epochs |
| ChatDatasets.EpochPacked | torchtitan/hf_datasets/text_datasets.py:503-569 | over an epoch: conservation, no overflow, neighbours overflow together, few rows |
| ChatDatasets.ResumeStep | torchtitan/hf_datasets/text_datasets.py:597-635 | a fresh object loaded with a snapshot makes the very step the original would make |
| ChatDatasets.ResumeExact | torchtitan/hf_datasets/text_datasets.py:597-635 | resume is exact, finite or re-looping, across epochs and from every yield |
| ChatDatasetObjects.ChatDataset.TokenizeSample | torchtitan/hf_datasets/text_datasets.py:447-498 | the in-place masking loop computes the inputs and masked labels, or drops the sample |
| ChatDatasetObjects.ChatDataset.LoopNext | torchtitan/hf_datasets/text_datasets.py:521-569 | the sample loop ends and reaches the state and row of the generator's loop function |
| ChatDatasetObjects.ChatDataset.Next | torchtitan/hf_datasets/text_datasets.py:503-569 | one `next()` on the object, pending sample and buffers updated in place, is the generator's step; its live iterator stands at the saved position, one further exactly while a sample is pending |
| ChatDatasetObjects.ChatDataset.StateDict | torchtitan/hf_datasets/text_datasets.py:597-612 | the snapshot holds position, epoch, buffers and pending sample |
| ChatDatasetObjects.ChatDataset.LoadStateDict | torchtitan/hf_datasets/text_datasets.py:614-635 | the whole new state after loading, ready for a new generator whenever the order was restored |
| Interleaving.PassesFollowDraws | torchtitan/hf_datasets/interleaved.py:115-122 | as long as the mix goes on, each pass turns to the source of the next draw, one draw a pass |
| Interleaving.SourceStream | torchtitan/hf_datasets/interleaved.py:109-134 | for every sequence of draws, the rows of one source are exactly its own re-looped stream, as far as it was drawn |
| Interleaving.StreamPrefix | torchtitan/hf_datasets/interleaved.py:109-134 | those rows are a prefix of the source's stream asked any larger number of times |
| Interleaving.AllExhaustedStops | torchtitan/hf_datasets/interleaved.py:124-134 | `all_exhausted` has stopped if and only if every source has run out |
| Interleaving.FirstExhaustedStops | torchtitan/hf_datasets/interleaved.py:124-126 | `on_first_exhausted` has stopped if and only if some source has run out |
| Interleaving.ResumeExact | torchtitan/hf_datasets/interleaved.py:136-147 | a snapshot of a running `on_first_exhausted` mix resumes to the same events whenever each source's own resume is exact |
| InterleavedObjects.InterleavedDataset.OnePass | torchtitan/hf_datasets/interleaved.py:115-134 | one pass of the object's loop is one round of the model |
| InterleavedObjects.TextResumesExactly | torchtitan/hf_datasets/interleaved.py:143-147 | a text dataset used as a source resumes exactly under the text dataset's own condition |
| InterleavedObjects.TextMixResumes | torchtitan/hf_datasets/interleaved.py:136-147 | a mix of text datasets resumes to the same events if none of them is past its last sample with full rows buffered |
| ShardViews.DistributeShows | torchtitan/distributed/spmd_types.py:367-415 | after all slicing steps, in whatever order over dimensions, each device shows the box computed dimension by dimension |
| ShardViews.NarrowShows | torchtitan/distributed/spmd_types.py:400-414 | slicing what a box shows gives what the narrowed box shows |
| SpmdLayouts.PostInit | torchtitan/distributed/parallel_dims.py:66-86 | accepts exactly the layouts with shards in one place only and one axis per dimension, with the matching error otherwise |
| SpmdLayouts.ShardTypeIsEntry | torchtitan/distributed/parallel_dims.py:91-115 | an axis has per-axis type S(d) if and only if it is among the axes slicing dimension d |
| SpmdMoves.AcceptsOneAxisMoves | torchtitan/distributed/spmd_types.py:240-310 | accepted if and only if at most one axis changes its type, every dimension is sliced by the same other axes in the same order, and that axis slices innermost wherever it slices; ranks permitting |
| SpmdMoves.InnermostMoves | torchtitan/distributed/spmd_types.py:284-304 | taking the innermost axis off any entry, or putting one on, is accepted as long as no other axis changes its type |
| SpmdMoves.NormGathers | torchtitan/models/common/decoder_sharding.py:111-134 | the norm before the head may gather its sequence shards, and scatter them back |
| SpmdRedistribution.GatherShows | torchtitan/distributed/spmd_types.py:328-364 | concatenating the narrowed boxes of a group in rank order shows the box again |
| SpmdRedistribution.ReduceShows | torchtitan/distributed/spmd_types.py:328-364 | adding up a group's boxes shows the box of the sum |
| SpmdRedistribution.SumsAdd | torchtitan/distributed/spmd_types.py:328-364 | the reduction is additive over the group's parts |
| SpmdRedistribution.OneAddend | torchtitan/distributed/spmd_types.py:328-364 | and is the one part that is not zero, if there is only one |
| SpmdRedistribution.MoveSlices | torchtitan/distributed/spmd_types.py:278-314 | in an accepted move the axis slices as its type says in both layouts, and all other axes keep their order |
| SpmdRedistribution.MoveIsSound | torchtitan/distributed/spmd_types.py:328-364 | one collective takes the source distribution to the destination distribution, partial sums added up |
| SpmdRedistribution.NoMoveIsSound | torchtitan/distributed/spmd_types.py:345-364 | when no collective is issued the source distribution already is the destination's |
| SpmdRedistribution.AcceptedIsSound | torchtitan/distributed/spmd_types.py:198-415 | for every accepted pair with even splits, the loop leaves every device with exactly what distributing by the destination gives it |
| SpmdRedistribution.SwappedOrder | torchtitan/distributed/spmd_types.py:198-208 | swapping the order of two axes changes no type yet needs other elements, and is rejected |
| SpmdRedistribution.SpmdDistributeTensor | torchtitan/distributed/spmd_types.py:367-415 | the loop computes the repeated slicing |
| SpmdRedistribution.SpmdRedistributePerAxis | torchtitan/distributed/spmd_types.py:328-364 | the loop issues exactly one collective per changed axis of more than one device |
| VocabShards.ChunkIsLeast | torchtitan/components/loss.py:131-135 | the chunk is the least that lets the ranks cover the vocabulary |
| VocabShards.EvenShards | torchtitan/components/loss.py:131-135 | a vocabulary that divides evenly is cut into equal shards |
| VocabShards.CheckedIff | torchtitan/components/loss.py:135-147 | a rank goes ahead if and only if its logits are as wide as its range of tokens and the range is not empty |
| VocabShards.ShardsAdjoin | torchtitan/components/loss.py:131-137 | shards are adjacent and cover the vocabulary from 0 to its end |
| VocabShards.OneOwner | torchtitan/components/loss.py:131-137 | every token of the vocabulary has exactly one owner |
| VocabShards.EmptyShards | torchtitan/components/loss.py:144-147 | a shard is empty if and only if the ranks before it cover the vocabulary |
| VocabShards.ShardsRestore | torchtitan/components/loss.py:131-137 | the shards in rank order are the whole row |
| VocabLosses.MaxRestored | torchtitan/components/loss.py:149-153 | the all-reduced maximum is the serial one |
| VocabLosses.LogProbsRestored | torchtitan/components/loss.py:155-160 | each rank's log-probabilities are its slice of the serial ones |
| VocabLosses.PickedOnce | torchtitan/components/loss.py:162-175 | only the holder of the label contributes to the masked gather |
| VocabLosses.ForwardIsSerial | torchtitan/components/loss.py:113-191 | every rank's per-token loss is the serial one, ignored labels included |
| VocabLosses.ForeignLabelCostsNothing | torchtitan/components/loss.py:162-179 | a label nobody holds costs nothing |
| VocabLosses.GradientSlices | torchtitan/components/loss.py:203-219 | zero rows with one masked write, plus softmax, times the masked upstream gradient, are a slice of the serial gradient |
| VocabLosses.BackwardIsSerial | torchtitan/components/loss.py:193-221 | what a rank computes from the log-probabilities it saved is its slice of (softmax - one-hot) * upstream |
| VocabParallelLoss.AcceptedIff | torchtitan/components/loss.py:131-147 | no rank raises if and only if the vocabulary divides evenly or its quotient and remainder together reach the number of ranks |
| VocabParallelLoss.LargeAccepted | torchtitan/components/loss.py:131-147 | so a vocabulary of at least ranks * (ranks - 1) tokens always goes through |
| VocabParallelLoss.ForwardExact | torchtitan/components/loss.py:113-191 | for every vocabulary size, degree without an empty shard and label vector, both reductions equal the serial ones |
| VocabParallelLoss.BackwardExact | torchtitan/components/loss.py:193-221 | a token's local gradients in rank order are the serial gradient, zero for an ignored label |
| VocabParallelLoss.MaskLabels | torchtitan/components/loss.py:164-169 | the masked in-place write gives every row its local label and mask |
| VocabParallelLoss.WriteUpdates | torchtitan/components/loss.py:203-206 | the indexed write gives every row its one update |
| GradAccumulators.GradAccumulator.Add | torchtitan/components/loss.py:498-539 | when a chunk is refused, when accepted, and that equal chunks accepted so far fill the buffer from the left in order |
| GradAccumulators.GradAccumulator.Result | torchtitan/components/loss.py:541-562 | refused exactly when a mesh was given and nothing placed was added; otherwise the concatenation of the chunks |
| GradAccumulators.Appends | torchtitan/components/loss.py:530-539 | writing the next equal chunk at its own offset extends the concatenation |
| ParamGroups.BuildParamGroups | torchtitan/components/optimizer.py:157-206 | the first matching pattern takes a parameter; fails exactly when some pattern is left with none |
| ParamGroups.TablePartitions | torchtitan/components/optimizer.py:176-206 | every trainable parameter with a match is in exactly one group, once |
| ParamGroups.GroupsGoHome | torchtitan/components/optimizer.py:173-217 | each optimizer gets the groups of just the patterns that name it, in their order, every group with its parameters and their canonical names |
| ParamGroups.CoveredIff | torchtitan/components/optimizer.py:252-263 | every trained tensor is covered if and only if some pattern matches it under one of its names; frozen parameters do not matter |
| ParamGroups.Init | torchtitan/components/optimizer.py:208-235 | construction succeeds if and only if every pattern finds a parameter in every part and every trained tensor is covered |
| ParamGroups.CheckedIsOnce | torchtitan/components/optimizer.py:252-263 | of a configuration that passes the check, every trained tensor is in exactly one optimizer, once, if and only if no two parameters picked by patterns are one tensor |
| ParamGroups.UntiedIsOnce | torchtitan/components/optimizer.py:252-263 | which holds whatever the patterns when no tensor trains in two places |
| ParamGroups.SharedTensorPasses | torchtitan/components/optimizer.py:252-263 | a tensor shared by two parts passes the check while two optimizers hold it |
| DottedNames.SplitJoin | torchtitan/components/checkpoint_utils.py:215-239 | splitting a joined path of dot-free parts gives the parts |
| DottedNames.StartsWithIsPrefix | torchtitan/components/checkpoint_utils.py:230-233 | starting with a prefix and a dot is having its parts as a proper initial segment |
| DottedNames.KeyInjective | torchtitan/components/checkpoint_utils.py:215-224 | under names that are not dotted prefixes of each other, a key determines name and path |
| DottedNames.CanonicalIsClean | torchtitan/components/checkpoint_utils.py:43-50 | no wrapper segment is left at any level and stripping again changes nothing |
| DottedNames.WrapperVanishes | torchtitan/components/checkpoint_utils.py:43-50 | a wrapper segment at any level leaves the name of what it wraps |
| DottedNames.CleanStays | torchtitan/components/checkpoint_utils.py:43-50 | a name without wrapper segments is its own canonical name |
| DottedNames.CleanDiffer | torchtitan/components/checkpoint_utils.py:43-50 | names that differ besides their wrappers stay different |
| DottedNames.CheckpointedLayer | torchtitan/components/checkpoint_utils.py:36-50 | a parameter of a checkpointed layer has the name it has without the wrapper |
| StateTrees.FlattenStateNested | torchtitan/components/checkpoint_utils.py:215-224 | the flat dict gains exactly the leaves of the nested dict at their dotted keys and keeps everything else |
| StateTrees.ReconstructNested | torchtitan/components/checkpoint_utils.py:227-239 | walking the flat dict in any order rebuilds exactly the leaves stored below the prefix |
| StateTrees.SameLeaves | torchtitan/components/checkpoint_utils.py:227-239 | trees with dot-free keys and no empty dicts are determined by their leaves |
| FlatSections.RebuiltEntry | torchtitan/components/checkpoint_utils.py:184-191 | rebuilding below a nested entry's key gives that entry back, and nothing where there is none |
| FlatSections.MergeSections | torchtitan/components/optimizer.py:290-302 | merging the flat dicts of two optimizers over different parameters keeps, key by key, what both store wherever they agree |
| FlatOptimizers.SectionsApart | torchtitan/components/checkpoint_utils.py:106-114 | state and group sections of all parameters never share a key |
| FlatOptimizerDicts.CollectNames | torchtitan/components/checkpoint_utils.py:137-150 | names by parameter number over all groups; fails exactly when a group has no names |
| FlatOptimizerDicts.RekeyState | torchtitan/components/checkpoint_utils.py:152-159 | every parameter's state under its name; fails exactly on an unknown number |
| FlatOptimizerDicts.WorldOfIs | torchtitan/components/checkpoint_utils.py:130-161 | with distinct names a native state dict gives every name the state of its own number and its own group's keys |
| FlatOptimizerDicts.GetFlat | torchtitan/components/checkpoint_utils.py:95-114 | the flat dict holds exactly every parameter's state and group keys if and only if no two store different values at one key; fails exactly when the state dict cannot be converted |
| FlatOptimizerLoading.LoadParamState | torchtitan/components/checkpoint_utils.py:181-193 | a parameter gets back, for each state name it expects, what was saved under its own name |
| FlatOptimizerLoading.LoadGroup | torchtitan/components/checkpoint_utils.py:196-210 | a group gets the keys of its first parameter; fails exactly when one was not saved |
| FlatOptimizerLoading.LoadFlat | torchtitan/components/checkpoint_utils.py:164-212 | all groups and states of the live optimizer are loaded; fails exactly when a non-empty group misses a key |
| FlatOptimizerLoading.AbsentAreEmpty | torchtitan/components/checkpoint_utils.py:177-191 | parameters of which nothing was saved load as parameters saved with nothing |
| FlatOptimizerLoading.RoundTrip | torchtitan/components/checkpoint_utils.py:117-127 | loaded into any regrouping, every parameter has its own saved state, nested state included, and its own hyperparameters |
| OptimizersContainers.StateDict | torchtitan/components/optimizer.py:290-302 | the union over all optimizers holds every parameter's sections if and only if no two store different values at one key; fails exactly when some optimizer cannot be converted |
| OptimizersContainers.LoadStateDict | torchtitan/components/optimizer.py:304-309 | the same flat dict loads every optimizer, each ignoring what it does not own |
| OptimizersContainers.ContainerRoundTrip | torchtitan/components/optimizer.py:290-309 | saved from one set of optimizers and loaded into another, every parameter is restored |
| SharedKeys.SharedKeyIff | torchtitan/components/checkpoint_utils.py:106-108 | two parameters share a key if and only if one name is the other followed by a path on which the other's state is nested down to the same leaf |
| SharedKeys.HeldIff | torchtitan/components/checkpoint_utils.py:95-114 | the flat dict, or any dict, holds all parameters if and only if wherever a name leads into another's state the two store one value |
| SharedKeys.DottedPrefixLoses | torchtitan/components/checkpoint_utils.py:95-114 | an optimizer over `a` and `a.b` is converted without an error into a dict that cannot hold both |
| ConfigTrees.GetBeside | torchtitan/config/override.py:336-346 | replacing a node changes nothing beside it |
| ConfigTrees.PutsCommute | torchtitan/config/override.py:336-346 | replacements side by side commute |
| ConfigTrees.NameIsAncestry | torchtitan/config/override.py:296-306 | the name test "starts with the other name and a dot" is ancestry in the tree, except at the root |
| ConfigTraversal.TraverseIsTop | torchtitan/config/configurable.py:75-132 | the traversal yields a path if and only if it leads to a topmost config of the class |
| ConfigTraversal.TopsApart | torchtitan/config/configurable.py:99-102 | no yielded node lies inside another |
| ConfigTraversal.TraverseDistinct | torchtitan/config/configurable.py:113-132 | no node is yielded twice |
| Overrides.CollectClaims | torchtitan/config/override.py:257-272 | for every override exactly the nodes it wants are claimed, each once: topmost configs of its class, of just that class if asked, whose name it selects |
| Overrides.CollectedValid | torchtitan/config/override.py:257-272 | collected claims are nodes of the tree, and one override's own claims never nest |
| Overrides.CheckNodeConflicts | torchtitan/config/override.py:275-306 | passes if and only if no two different overrides claim one node or nested named nodes |
| Overrides.AcceptedAreApart | torchtitan/config/override.py:275-306 | accepted claims lie side by side in the tree if and only if no claimed root stands beside another claim |
| Overrides.ApplyClaims | torchtitan/config/override.py:335-346 | replaces claim by claim; fails exactly at the first claimed root, with exactly the claims before it applied |
| Overrides.StoppedUnchangedIff | torchtitan/config/override.py:335-346 | a stopped loop leaves the tree as it was if and only if no factory before the claimed root makes anything new |
| Overrides.RootClaimedExample | torchtitan/config/override.py:335-346 | a field and then the root are claimed: the error comes with the field already replaced |
| Overrides.ApplyOverrides | torchtitan/config/override.py:309-350 | succeeds if and only if there is no conflict and no claimed root; a conflict leaves the tree untouched, a claimed root stops with the claims before it applied |
| Overrides.AnyOrder | torchtitan/config/override.py:260-264 | replacements that lie side by side give one tree in any order |
| Overrides.AppliedResult | torchtitan/config/override.py:309-350 | in any order every claimed node is its factory's product from the original node, and every node beside all that any override wants is unchanged |
| MeshDims.ValidateIff | torchtitan/distributed/parallel_dims.py:165-184 | a missing dp_shard is accepted if and only if the other degrees divide the world; a given one if and only if the product is the world |
| MeshDims.ValidatedIsValid | torchtitan/distributed/parallel_dims.py:165-184 | accepted degrees are positive and factor the world, which is what the mesh theorems ask |
| MeshDims.ParallelDims.Validate | torchtitan/distributed/parallel_dims.py:165-184 | which assertion fails, and that success leaves degrees whose product is the world |
| MeshDims.CoordsRank | torchtitan/distributed/parallel_dims.py:243-266 | every rank has coordinates in a factorisation, which lead back to it |
| MeshDims.RankCoords | torchtitan/distributed/parallel_dims.py:243-266 | every coordinate tuple has a rank, whose coordinates it is |
| MeshDims.FoldedAxis | torchtitan/distributed/parallel_dims.py:274-276 | folding two neighbouring axes gives a * size + b there and leaves all other coordinates |
| MeshDims.MeshesAgree | torchtitan/distributed/parallel_dims.py:274-328 | batch, fsdp and loss coordinates in terms of the full dense mesh |
| MeshDims.SparseBlocks | torchtitan/distributed/parallel_dims.py:330-334 | for fixed pp and dp_replicate the (efsdp, ep) block holds exactly the ranks of the (dp_shard, cp, tp) block whenever ep divides it |
| MeshDims.SparseNeedsDivisor | torchtitan/distributed/parallel_dims.py:276 | otherwise the sparse mesh does not have the world's size |
| MeshDims.SparseExample | torchtitan/distributed/parallel_dims.py:276 | two devices with an expert degree of 4 are accepted and give an empty sparse mesh |
| PipelineSplit.Generate | torchtitan/distributed/pipeline_parallel.py:315-425 | which inputs are refused, and that accepted ones give the specified stages |
| PipelineSplit.AllLayersPlaced | torchtitan/distributed/pipeline_parallel.py:380-423 | no stage has a negative layer count and together they are all layers, so the guards never cut a stage short |
| PipelineSplit.StagesPartition | torchtitan/distributed/pipeline_parallel.py:377-425 | the stages one after the other are the whole model, every module once and in order |
| PipelineSplit.StagesBalanced | torchtitan/distributed/pipeline_parallel.py:353-387 | weighted stage sizes differ by at most one |
| PipelineSplit.WholeDistinct | torchtitan/distributed/pipeline_parallel.py:342-345 | no module name occurs twice |
| PipelineSplit.TakeLayers | torchtitan/distributed/pipeline_parallel.py:395-398 | the guarded inner loop appends the next layers up to the last one |
| PipelineSplit.MappedIff | torchtitan/distributed/pipeline_parallel.py:510-522 | a rank has stages if and only if they divide over the ranks, in a V into two each |
| PipelineSplit.StageHasOneRank | torchtitan/distributed/pipeline_parallel.py:490-527 | every stage lives on exactly one rank: round robin in a loop, there and back in a V, the first and the last stage on rank 0 |
| PipelineSplit.PlanIsLeast | torchtitan/distributed/pipeline_parallel.py:165-207 | planned from a limit on layers: the least number of stages that keeps it, accepted if and only if it divides over the ranks into one each or at least two each as the schedule asks |
| PipelineSplit.StagesPerRank | torchtitan/distributed/pipeline_parallel.py:143-213 | the planned stage count divides over the ranks: one stage each for single-stage schedules, two each by default otherwise |
| PipelineSplit.PlanFits | torchtitan/distributed/pipeline_parallel.py:168-174 | planned for at most n layers a stage, every stage of the split holds at most n, weights included |
| ExpertShards.StridedAcceptedIff | torchtitan/models/utils.py:92-106 | accepted if and only if the degrees divide the dimension |
| ExpertShards.StridedTiles | torchtitan/models/utils.py:64-113 | each expert is in the range of exactly one (strided, shard) rank pair, blocks going to the strided ranks first |
| ExpertShards.ShardAcceptedIff | torchtitan/models/utils.py:151-172 | accepted if and only if the degree divides the dimension |
| ExpertShards.ShardTiles | torchtitan/models/utils.py:151-172 | each expert is in the range of exactly one shard rank, the one its block is numbered by |
| ExpertShards.ExpertCollector.Feed | torchtitan/models/utils.py:292-349 | returns nothing until enough experts are there, then stacks them by id and forgets them |
| ExpertShards.StackOfBlock | torchtitan/models/utils.py:322-327 | stacking all experts of a local block gives the block |
| ExpertShards.FeedAll | torchtitan/models/utils.py:184-349 | splitting a block and feeding the experts back in any order returns nothing until the last one and then the original block |
| GradFnWalk.WalkDone | agent_tooling/numerics_debugging/activation_tracer.py:438-452 | with an empty stack the visited nodes are exactly those reachable off the boundary |
| GradFnWalk.WalkOutput | agent_tooling/numerics_debugging/activation_tracer.py:435-452 | the walk from one output ends and claims exactly the unclaimed reachable nodes, every earlier owner kept |
| GradFnWalk.RecordGradFn | agent_tooling/numerics_debugging/activation_tracer.py:424-452 | over all outputs, the map gains exactly the nodes reachable off the input grad_fns |
| GradFnWalk.FirstFinisherOwns | agent_tooling/numerics_debugging/activation_tracer.py:583-595 | a node is owned by the first module to finish that reaches it, and owned at all if and only if one does |
| GradFnWalk.GradFnTracer.PostForward | agent_tooling/numerics_debugging/activation_tracer.py:589-595 | the hook claims with the inputs its own pre-hook recorded, and forgets them |
| GradFnWalk.GradFnTracer.Forward | agent_tooling/numerics_debugging/activation_tracer.py:583-595 | over a tree of nested calls the owners are the claims in finish order |
| MatchEntries.RootGoes | agent_tooling/numerics_debugging/compare_numerics.py:153-165 | a leading class name goes from a key with its dot, any other first word stays |
| MatchEntries.CounterGoes | agent_tooling/numerics_debugging/compare_numerics.py:167-180 | an op counter of any digits goes from a key, its slash stays |
| MatchEntries.KeysMeet | agent_tooling/numerics_debugging/compare_numerics.py:452-466 | the exact, loose and stats keys of a logged op in terms of its class name, path, counter and op |
| MatchEntries.TryPass | agent_tooling/numerics_debugging/compare_numerics.py:409-426 | a pass keeps earlier pairs, pairs by equal key in log order, and leaves no pair it could make |
| MatchEntries.PairUp | agent_tooling/numerics_debugging/compare_numerics.py:428-470 | after all passes the pairs are one to one, each made by the key of its pass, and no pass left a pair it could have made to a later one |
| MatchEntries.Match | agent_tooling/numerics_debugging/compare_numerics.py:341-486 | every eager entry on one line in order, every traced entry on exactly one line, pairs by key, none blocked, earlier entries first |
| MatchEntries.NothingLeftToPair | agent_tooling/numerics_debugging/compare_numerics.py:472-486 | no eager-only and traced-only lines share an exact, fuzzy or stats key or an override |

## Left out

Where a contract is narrower than the code:

- CheckpointSafety.CrashSafe: the save schedule, the number of shards and `keep_latest_k` are the same after every restart; a folder left by another configuration is covered by the exact condition of `CheckpointRoom.SparedIffRoom`.
- CheckpointManagers.CheckpointManager.Save: steps from 1 on, as the train loop calls it; the seed save of step 0 is `CheckpointManagers.SeedCheckpoint`, taken to complete.
- CheckpointManagers.CheckpointManager.Load: loads the newest step; an explicit `load_step`, initial loads from another path and `exclude_from_loading` are not modelled.
- CheckpointManagers.CheckpointManager.PurgeStaleCheckpoints: directories are a map from numbers; what other names that carry a number do to the purge is `PurgeNames`, and they take no part in the protocol.
- CheckpointNames.FindLoadStep: `\d` stands for the ASCII digits, and both probes of a directory are taken at one moment.
- CheckpointNames.Lookup: an entry named `step-<n>` is a directory.
- TextDatasets.RowsAreBlocks: a re-looping dataset with no token at all spins for ever in the code; re-looping here asks for at least one non-empty sample.
- ChatDatasets.RowsArePacked: likewise a re-looping dataset needs one sample that puts a token into a row.
- ChatDatasetObjects.ChatDataset.LoadStateDict: keeps the order of an object that is not fresh as the text dataset does; the condition on rows is stated for the text dataset only.
- ChatSamples.Tokenize: the tokeniser returns at least one token (the code indexes the last one), and message validation has happened.
- Interleaving.ResumeExact: `on_first_exhausted` only; with `all_exhausted` the flags are local to the generator and not in the snapshot, so no exact resume holds.
- Interleaving.AllExhaustedStops: says when the mix has stopped, not that it ever does, which depends on the draws.
- SpmdRedistribution.AcceptedIsSound: even splits and non-negative dimensions; moves into a partial sum, and from or to a varying axis that no spec entry names, are left to the library; a spec names an axis at most once.
- SpmdRedistribution.SpmdRedistributePerAxis: all devices move in lockstep, and the collectives are functions of the group's tensors; an axis of more than one device without a source type, which the library would be given as none, is excluded; gradients, `backward_options` and the mesh stack are left out.
- VocabParallelLoss.ForwardExact: exact reals in the place of floats, one token's row at a time; softmax is the exponential of log-softmax, as in the code's own backward pass.
- GradAccumulators.GradAccumulator.Add: a chunk that does not fit the buffer, where the code's slice assignment raises, is excluded.
- FlatOptimizerLoading.RoundTrip: dot-free state and group keys, no empty nested dicts, names that are not dotted prefixes of each other, equal hyperparameters within each new group, and a live optimizer whose own state names and group keys are those that were saved.
- ParamGroups.BuildParamGroups: patterns are predicates on names, and optimizer keyword arguments are not carried.
- Overrides.ApplyOverrides: config trees are values, so two fields never share one node; importing modules, the registry, `derive` and glob syntax are left out.
- ConfigTraversal.TraverseIsTop: without `recurse`, and a list directly inside a list is not entered, as in the code.
- MeshDims.MeshesAgree: degrees and coordinates; mesh caches, backends and process groups are left out.
- PipelineSplit.Generate: weights are non-negative.
- PipelineSplit.StagesPerRank: the code's ceiling of a floating-point quotient is taken as the integer ceiling.
- ExpertShards.StridedTiles: replicated placements are left out; the code reads a dimension on every placement.
- GradFnWalk.GradFnTracer.Forward: no module is called again inside its own call; the hooks keep one entry per module.
- MatchEntries.Match: which entries are paired and by which pass; the match or diff status and the stat differences of a pair are left out, and `\d` stands for the ASCII digits.

Not modelled at all:

- Hugging Face export: safetensors saves and loads, consolidation and the dtype conversion of a model-only last save; "metadata" is whichever file makes a directory valid.
- Remote storage: a listing is taken at one moment, and an upload that fails is a crash.
- Streaming datasets and snapshots written before positions were saved: their state lives in the dataset library.
- The interleaver's constructor checks and its random generator, which is a function from generator states to draws.
- `init_optim_state`, learning-rate schedules, and PyTorch's own optimizer `load_state_dict`.
- `_split_module`, the pipeline schedules themselves and model construction from stage names.
- `ChunkedLossWrapper`, the other losses, DTensor wrappers and SPMD type assertions.
- Log parsing, HTML output and the numeric comparison of stats.
- Kernels, compilation, FSDP wrapping, activation checkpointing, metrics, tokenisers, command lines and download scripts.
