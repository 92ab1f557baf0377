# Read planning and streaming of `BinaryIgnoreNoneTypeDatasource`

A Dafny model of Ludwig's Ray datasource for binary files that may contain
`None` and HTTP entries (`ludwig/backend/datasource.py`). It covers:

- `prepare_read`: it clamps the requested parallelism to the number of paths
  and cuts the path list into contiguous groups the way `np.array_split`
  does. It resolves every entry of a group: a `None` or HTTP entry passes
  through with an unknown size, and a local entry is expanded (and
  optionally partition-filtered) to a path and a size. It keeps one read
  task per group that resolved to at least one path.
- The nested `read_files` generator, which is the body of a read task. For
  each entry in order it decides the entry's compression codec against the
  two option dicts the task shares (`open_stream_args`, `reader_args`). It
  then opens the entry's source, pushes every chunk the reader yields into
  an output buffer, and hands back each block the buffer has ready. At the
  end it finalizes the buffer and hands back what is left.
- `_open_input_source`: `None` and HTTP entries get an empty context; a
  file on a filesystem gets an input stream opened with the current
  `open_stream_args`.
- `_read_file`: a `None` entry yields one record without data. An HTTP entry
  yields one record holding the fetched bytes, or no data when the fetch
  raises an HTTP error. With `include_paths` each record is paired with
  its path. Files on a filesystem go to the parent class's reader.

Modules:

- `Wrappers`: `Option` and `Result`.
- `Seqs`: joining, mapping and bounding sequences of sequences.
- `Paths`: entries tagged `Missing` (`None`), `Http` or `Local`, and the
  `PurePosixPath.name` and `.suffix` rules the snappy fallback uses.
- `Planning`: `np.array_split`, entry resolution and `prepare_read`. The
  specification functions are `ArraySplit`, `ResolveGroup`, `PlanGroups`
  and `Plan`. The loops `ResolveRawPaths` and `PrepareRead` are proved
  equal to them.
- `Compression`: the codec decision as the function `DecideCompression`.
  The two shared dicts are the class `ReaderOptions`, whose
  `ApplyCompression` updates them in place.
- `Records`: `_open_input_source` and `_read_file`.
- `OutputBuffer`: the output buffer of a read task, as a class with ghost
  histories of what was added and what was handed back.
- `Reading`: `read_files` as the method `ReadFiles`. `OptionsAfter`,
  `CodecAt` and `AllChunks` say which dicts, which codec and which chunks
  each entry gets.

The compression decision of one entry changes the dicts every later entry
of the same task sees:

- `compression` is popped from `open_stream_args`, and only a codec other
  than snappy is written back.
- A codec such as gzip, explicit or detected, is therefore the decision for
  every later entry of the task that is not `None`, whatever that entry's
  name says. `None` entries skip the decision.
- An explicit snappy option is decided only once, for the first file. But a
  snappy decision writes `compression` into `reader_args`, and nothing ever
  removes it. So the reader of that entry and of every later entry of the
  task is handed snappy.

The model keeps this behaviour as the code has it.
`Reading.CodecCarriesOver` and `Reading.GzipCarriesIntoPlainFile` state the
carry-over of decisions. `Reading.SnappyStaysInReaderArgs` states the
carry-over of snappy through `reader_args`.
`Reading.PerFileWhenNothingCarried` gives the condition under which every
entry is decided as it would be on its own, and says which readers are
still handed snappy.

## Model

| member | source | states |
|---|---|---|
| Planning.ArraySplitSizes | ludwig/backend/datasource.py:131 | group `i` of `p` has `n / p` entries, plus one for the first `n % p` groups; any two sizes differ by at most one; no group is empty when `p <= n` |
| Planning.ArraySplitConcat | ludwig/backend/datasource.py:131 | joining the groups in order gives back the input list exactly (contiguous, order-preserving, nothing lost) |
| Planning.ResolveLocalAsWritten | ludwig/backend/datasource.py:140-145 | as written: an entry whose expansion raises fails; it succeeds whenever expansion gives a non-empty list that the filter leaves non-empty; a success takes its path from the first entry of the filtered list and its size from the first entry of the unfiltered size list |
| Planning.ResolveLocalAgreesWithoutFilter | ludwig/backend/datasource.py:140-145 | without a `partition_filter`, the corrected resolution equals the code as written, error for error |
| Planning.ResolveLocalPairsSize | ludwig/backend/datasource.py:140-145 | a local entry resolves exactly when the filter keeps one of its expanded paths; it resolves to the first kept path with that path's own size; without a filter this is the first expanded pair, as in the code as written |
| Planning.ResolveLocalFails | ludwig/backend/datasource.py:140-141 | an entry whose resolution or expansion raises fails with that entry named |
| Planning.AsWrittenMisattributesSize | ludwig/backend/datasource.py:141-145 | as written, a filtered expansion is paired with the size of a path the filter dropped |
| Planning.ResolveGroupShape | ludwig/backend/datasource.py:133-145 | a resolved group has `read_paths` and `file_sizes` of the group's length; each entry is replaced by its resolution in order; `None` and HTTP entries stay unchanged with size `None`; local entries stay local paths |
| Planning.ResolveGroupMaps | ludwig/backend/datasource.py:133-145 | `read_paths` and `file_sizes` are the group mapped entry by entry through resolution |
| Planning.ResolveGroupOk | ludwig/backend/datasource.py:135-145 | a group resolves exactly when each of its entries resolves |
| Planning.Plan | ludwig/backend/datasource.py:128-157 | the plan fails for lack of sections when the clamped parallelism is below one, and otherwise has at most that many tasks |
| Planning.PlanGroupsAtMost | ludwig/backend/datasource.py:131-157 | the group loop keeps at most one task per group |
| Planning.PlanGroupsOk | ludwig/backend/datasource.py:131-157 | the task list is built exactly when every group resolves |
| Planning.PlanGroupsKeepsAll | ludwig/backend/datasource.py:147-157 | with no empty group, there is one task per group, in group order, each that group's resolution |
| Planning.PlanOk | ludwig/backend/datasource.py:128-145 | planning fails for lack of sections exactly when `min(parallelism, len(paths)) <= 0`, and succeeds exactly when that is positive and every entry resolves |
| Planning.PlanTaskCount | ludwig/backend/datasource.py:128-157 | a successful plan has exactly `min(parallelism, len(paths))` tasks, none empty, each of `n / p` or `n / p + 1` entries with lists of equal length |
| Planning.PlanKeepsOrder | ludwig/backend/datasource.py:131-157 | reading all tasks' lists in task order gives each input entry's resolution in input order; `None` and HTTP entries appear unchanged with size `None` |
| Planning.PlanFlattens | ludwig/backend/datasource.py:131-157 | the joined `read_paths` and `file_sizes` of all tasks are the input list mapped through resolution |
| Planning.ResolveRawPaths | ludwig/backend/datasource.py:133-145 | the appending loop over one group's entries returns the group's resolution, or the first error raised |
| Planning.PrepareRead | ludwig/backend/datasource.py:128-159 | the loop over the split groups returns the plan: no sections when the clamped parallelism is below one, else the tasks of the non-empty groups in order, or the first error |
| Paths.Name | ludwig/backend/datasource.py:102 | the final path component holds no `/` and is never `.` |
| Paths.SuffixShape | ludwig/backend/datasource.py:102 | a non-empty suffix is a dot and at least one other character, with no further dot, ending the name and leaving something before it |
| Paths.NoDotNoSuffix | ludwig/backend/datasource.py:102 | a name with no dot past its first character has no suffix |
| Compression.SuffixFallback | ludwig/backend/datasource.py:100-106 | the fallback gives either snappy or no codec |
| Compression.SuffixFallbackSnappy | ludwig/backend/datasource.py:100-106 | after detection raised, the codec is snappy exactly when the file name ends in `.snappy` with something before the dot, and none for a name without an extension |
| Compression.DecideCompression | ludwig/backend/datasource.py:89-116 | the codec is the popped explicit option, else the detected one; `open_stream_args` keeps `compression` exactly for a codec other than snappy and `None`; no other open argument changes; `reader_args` changes only for snappy |
| Compression.ExplicitCodecWins | ludwig/backend/datasource.py:89-90 | an explicit `compression` option is the codec, and the detector is not consulted |
| Compression.DetectedCodec | ludwig/backend/datasource.py:90-106 | without an explicit option, a successful detection gives its codec; a failed one gives snappy exactly for a `.snappy` name and nothing otherwise |
| Compression.CompressionRouting | ludwig/backend/datasource.py:107-116 | snappy sets `reader_args` compression and filesystem and leaves no `compression` in `open_stream_args`; another codec sets only `open_stream_args`; no codec leaves `compression` popped; no other key changes |
| Compression.NextFileSeesCodec | ludwig/backend/datasource.py:89-116 | a non-snappy codec becomes the next file's explicit codec; after snappy or no codec the next file is detected afresh |
| Compression.ExplicitSnappyPoppedOnce | ludwig/backend/datasource.py:89-116 | an explicit snappy option is popped and decided for the first file only: deciding the same plain file again gives no codec, while `reader_args` still holds snappy after both decisions |
| Compression.ReaderArgsOnlyGrow | ludwig/backend/datasource.py:111-112 | `reader_args` only gains keys, keeps every key other than compression and filesystem, and keeps snappy once set |
| Compression.ReaderOptions.ApplyCompression | ludwig/backend/datasource.py:89-116 | the in-place pop, detection and routing return the decided codec and leave the dicts as the decision says |
| Records.OpenInputSource | ludwig/backend/datasource.py:174-176 | `None` and HTTP entries open nothing; a local entry opens a stream on its own path with the current open arguments |
| Records.ReadFile | ludwig/backend/datasource.py:178-194 | a local entry goes to the parent reader with its path; any other entry yields exactly one placeholder record, paired with its path exactly when `include_paths` is set |
| Records.PlaceholderDegradesGracefully | ludwig/backend/datasource.py:180-193 | a `None` entry or a failed fetch yields a record without data instead of an error; a successful fetch keeps the body whole |
| OutputBuffer.BlockOutputBuffer.constructor | ludwig/backend/datasource.py:85 | a new buffer holds nothing and has handed back nothing |
| OutputBuffer.BlockOutputBuffer.HasNext | ludwig/backend/datasource.py:121-124 | before the end of input a block is ready exactly when more than the target is pending; after it, exactly when any record is pending |
| OutputBuffer.BlockOutputBuffer.AddBlock | ludwig/backend/datasource.py:120 | the block's records are appended to the pending records; nothing is handed back |
| OutputBuffer.BlockOutputBuffer.Next | ludwig/backend/datasource.py:121-125 | hands back every pending record as one non-empty block, in order, keeping the buffer's no-loss invariant |
| OutputBuffer.BlockOutputBuffer.Finalize | ludwig/backend/datasource.py:123 | marks the end of input and changes nothing else |
| Reading.StreamChunks | ludwig/backend/datasource.py:118-119 | a `None` or HTTP entry yields one chunk holding its one placeholder record; a local entry yields what its reader decodes from the stream opened on its path with the current open arguments, under the current `reader_args` |
| Reading.ReadEntry | ludwig/backend/datasource.py:88-119 | one entry: the dicts change as its compression decision says, and the chunks are those its reader yields under the new dicts |
| Reading.PushChunk | ludwig/backend/datasource.py:120-122 | after one chunk at most one block is handed back, over the target size and exceeding it by at most that chunk; what stays pending is within the target |
| Reading.PushChunks | ludwig/backend/datasource.py:119-122 | every record of the reader's chunks is added in order; at most one block per chunk is handed back, each within the bounds |
| Reading.PushEntries | ludwig/backend/datasource.py:86-122 | over all entries, the buffer receives every chunk of every entry in order, and the dicts end as the decisions leave them |
| Reading.ReadFiles | ludwig/backend/datasource.py:77-125 | the blocks handed back join to exactly the records all readers yielded, in order; at most one block more than there are chunks; no block empty; all but the last over the target; none over target plus the longest chunk; the dicts end as the decisions leave them |
| Reading.AllChunksPrefix | ludwig/backend/datasource.py:86-119 | the chunks of the first `k` entries come first among the chunks of all entries |
| Reading.EntryChunksBounded | ludwig/backend/datasource.py:86-119 | no chunk of entry `k` is longer than the longest chunk of the task |
| Reading.IncludePathsStable | ludwig/backend/datasource.py:111-112 | the compression decisions never change whether `include_paths` is set |
| Reading.PlaceholderRecords | ludwig/backend/datasource.py:178-193 | a task of `None` and HTTP entries only yields exactly one record per entry, in entry order, each that entry's placeholder |
| Reading.CodecCarriesOver | ludwig/backend/datasource.py:89-116 | once an entry gets a codec other than snappy, every later non-`None` entry of the task is decided with it |
| Reading.SnappyStaysInReaderArgs | ludwig/backend/datasource.py:107-119 | once an entry is decided snappy, the reader of that entry and of every later entry is handed `reader_args` with snappy compression |
| Reading.PerFileWhenNothingCarried | ludwig/backend/datasource.py:89-119 | without an explicit option, and with every entry detected as snappy or nothing: each entry gets the codec it would get on its own; its stream is opened without `compression`; its reader is handed snappy exactly when the caller's `reader_args` had it or some entry up to and including it was snappy |
| Reading.ReaderArgsWhenNothingCarried | ludwig/backend/datasource.py:107-116 | in that case `reader_args` is the caller's while no entry was snappy, and holds snappy from the first snappy entry on |
| Reading.NoCarryStep | ludwig/backend/datasource.py:107-116 | one entry decided without a carried codec changes `reader_args` only when it is snappy, and keeps snappy once set |
| Reading.GzipCarriesIntoPlainFile | ludwig/backend/datasource.py:89-116 | a plain text file after a gzip file is read with gzip although on its own it gets no codec |

## Left out

- I/O is left out. The generator's laziness becomes a method that returns
  every block it would yield, in order. Opening streams, decoding files
  (the parent class's `_read_stream`/`_read_file`), `pa.Codec.detect` and the
  HTTP fetch are parameters of the model (`Env`).
- `read_stream` on a `None` or HTTP entry is taken to yield `_read_file`'s
  result as a single chunk. That is the parent class's default, which is not
  part of this model.
- Only these failures are modelled:
  - planning with fewer than one section, where `np.array_split` raises
    (`NoSections`);
  - `_resolve_paths_and_filesystem` or `expand_paths` raising
    (`Unresolvable`);
  - the `IndexError` of `read_path[0]` or `file_size[0]` on an empty list
    (`NothingLeft`);
  - a detection failure, `ValueError` or `TypeError`, shown as an absent
    result;
  - an HTTP fetch failure, `HTTPError`, shown as absent data.

  Any other exception is not modelled.
- `is_http` is not modelled: an entry arrives tagged `Missing`, `Http` or
  `Local`.
- `paths` given as a single string is not modelled; the model takes a list.
- `_resolve_paths_and_filesystem` and `meta_provider.expand_paths` are one
  resolver parameter that returns the expanded pairs or fails. The
  reassignment of `filesystem` from one entry to the next is not modelled.
- These parts of `prepare_read` are left out:
  - the `meta_provider` metadata (row estimates, schema, `rows_per_file`);
  - `_check_pyarrow_version`;
  - the S3 serialization wrapper and its unwrap;
  - `_block_udf`;
  - logging;
  - `DatasetContext`;
  - the Ray version switch.
- A `ReadTask` is its entry and size lists only. The closure and the
  parallel dispatch of tasks to workers are not modelled.
- OutputBuffer.BlockOutputBuffer.HasNext: sizes are counted in records,
  not in Ray's estimated bytes. Ray's buffer is not part of this model. Its
  readiness test is taken as Ray 1.x writes it: pending size strictly over
  the target. A test of reaching the target (`>=`) would also be
  reasonable; the model does not cover it.
- Reading.ReadFiles: a block is bounded by the target plus one chunk, in
  records, not plus one record. Line 120 adds a reader's whole chunk
  before line 121 asks whether a block is ready.
- Planning.PrepareRead: the plan resolves local entries with the corrected
  pairing (`ResolveLocal`, see Findings), not with lines 143-145 as
  written. With a `partition_filter`, a task's size for a filtered
  directory can differ from what the code computes. Without a filter the
  two agree (`Planning.ResolveLocalAgreesWithoutFilter`).
- Planning.ResolveRawPaths: the same corrected pairing, for one group.

## Findings

| source | as written | input that shows it | evidently intended | confidence | as-written member | corrected member |
|---|---|---|---|---|---|---|
| ludwig/backend/datasource.py:141-145 | the partition filter is applied to the expanded paths only, and the size is taken from the unfiltered size list, so the kept path gets the size of the first expanded path | a directory `d` expands to `d/a` (1 byte) and `d/b` (2 bytes), and the filter drops `d/a`: the task lists `d/b` with size 1 | the first path the filter keeps, with that path's own size | not executed | Planning.ResolveLocalAsWritten, Planning.AsWrittenMisattributesSize | Planning.ResolveLocal, Planning.ResolveLocalPairsSize |
