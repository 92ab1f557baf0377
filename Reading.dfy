/**
 * The body of a read task (`read_files`): for each entry in order, decide
 * its compression against the shared option dicts, open its source, push
 * the chunks its reader yields into the output buffer and hand back every
 * block the buffer has ready; at the end, finalize the buffer and hand
 * back what is left.
 */
module Reading {
  import opened Wrappers
  import opened Seqs
  import opened Paths
  import opened Compression
  import opened Records
  import opened OutputBuffer

  /** The collaborators a read task calls and this model does not see. */
  datatype Env = Env(
    fs: Value,                                   // the task's filesystem
    detect: Detector,                            // pyarrow's codec detection
    fetch: Fetcher,                              // the HTTP fetch of remote entries
    decode: (Source, string, Args) -> seq<Chunk>) // the base class's reader for an opened file

  /** The text of an entry that is not `None`. */
  function Text(path: RawPath): string
    requires !path.Missing?
  {
    match path
    case Http(url) => url
    case Local(p) => p
  }

  /** Lines 88-116 for one entry: a `None` entry decides nothing and changes nothing. */
  function Step(options: Options, path: RawPath, env: Env): Decision
  {
    if path.Missing? then Decision(Null, options)
    else DecideCompression(options, Text(path), env.fs, env.detect)
  }

  /** The shared dicts after the entries `paths` have been decided in order. */
  function OptionsAfter(paths: seq<RawPath>, options: Options, env: Env): Options
  {
    if paths == [] then options
    else Step(OptionsAfter(paths[..|paths| - 1], options, env), paths[|paths| - 1], env).options
  }

  /** The codec `read_files` uses for entry `k`. */
  function CodecAt(paths: seq<RawPath>, k: nat, options: Options, env: Env): Value
    requires k < |paths|
  {
    Step(OptionsAfter(paths[..k], options, env), paths[k], env).codec
  }

  /** The dicts entry `k` is opened and read with (lines 118-119), once its own decision is made. */
  function OptionsFor(paths: seq<RawPath>, k: nat, options: Options, env: Env): Options
    requires k < |paths|
  {
    OptionsAfter(paths[..k + 1], options, env)
  }

  /**
   * Lines 118-119 for one entry under the dicts in force for it: a `None`
   * or remote entry yields `_read_file`'s records as one chunk, a file on a
   * filesystem yields whatever its reader decodes from the opened stream.
   */
  function StreamChunks(path: RawPath, options: Options, env: Env): (chunks: seq<Chunk>)
    ensures !path.Local? ==>
      |chunks| == 1 && |chunks[0]| == 1 &&
      IsPlaceholder(chunks[0][0], path, IncludePaths(options.readerArgs), env.fetch)
    ensures path.Local? ==>
      chunks == env.decode(InputStream(path.path, options.openStreamArgs), path.path, options.readerArgs)
  {
    match ReadFile(path, IncludePaths(options.readerArgs), env.fetch)
    case Produced(records) => [records]
    case Delegated(p) => env.decode(OpenInputSource(path, options.openStreamArgs), p, options.readerArgs)
  }

  /** Every chunk the entries `paths` yield, in order. */
  function AllChunks(paths: seq<RawPath>, options: Options, env: Env): seq<Chunk>
  {
    if paths == [] then []
    else
      AllChunks(paths[..|paths| - 1], options, env)
        + StreamChunks(paths[|paths| - 1], OptionsAfter(paths, options, env), env)
  }

  /** The chunks of a prefix of the entries come first among the chunks of all of them. */
  lemma {:induction false} AllChunksPrefix(paths: seq<RawPath>, k: nat, options: Options, env: Env)
    requires k <= |paths|
    ensures AllChunks(paths[..k], options, env) <= AllChunks(paths, options, env)
    decreases |paths| - k
  {
    if k < |paths| {
      var front := paths[..|paths| - 1];
      assert paths[..k] == front[..k];
      AllChunksPrefix(front, k, options, env);
    } else {
      assert paths[..k] == paths;
    }
  }

  /** Lines 88-119 for one entry: decide its compression, open its source and read it. */
  method ReadEntry(path: RawPath, options: ReaderOptions, env: Env) returns (chunks: seq<Chunk>)
    modifies options
    ensures options.State() == Step(old(options.State()), path, env).options
    ensures chunks == StreamChunks(path, options.State(), env)
  {
    if !path.Missing? {
      var _ := options.ApplyCompression(Text(path), env.fs, env.detect);
    }
    var source := OpenInputSource(path, options.openStreamArgs);
    match ReadFile(path, IncludePaths(options.readerArgs), env.fetch)
    case Produced(records) =>
      chunks := [records];
    case Delegated(p) =>
      chunks := env.decode(source, p, options.readerArgs);
  }

  /** Lines 120-122: push one chunk, and hand back the buffer's block if one is now ready. */
  method PushChunk(buffer: BlockOutputBuffer, chunk: Chunk, ghost maxChunk: nat) returns (ready: seq<Chunk>)
    requires buffer.Valid() && !buffer.finalized && |buffer.pending| <= buffer.targetMaxBlockSize
    requires |chunk| <= maxChunk
    modifies buffer
    ensures buffer.Valid() && !buffer.finalized && |buffer.pending| <= buffer.targetMaxBlockSize
    ensures buffer.added == old(buffer.added) + chunk
    ensures buffer.emitted == old(buffer.emitted) + ready
    ensures |ready| <= 1
    ensures LengthsWithin(ready, buffer.targetMaxBlockSize, buffer.targetMaxBlockSize + maxChunk)
  {
    buffer.AddBlock(chunk);
    ready := [];
    if buffer.HasNext() {
      var block := buffer.Next();
      ready := [block];
    }
  }

  /** The bookkeeping of one step of `PushChunks`. */
  lemma PushStep(chunks: seq<Chunk>, c: nat, added0: seq<Record>, emitted0: seq<Chunk>,
                 ready: seq<Chunk>, got: seq<Chunk>, lo: nat, hi: nat)
    requires c < |chunks| && LengthsWithin(ready, lo, hi) && LengthsWithin(got, lo, hi)
    ensures (added0 + Flatten(chunks[..c])) + chunks[c] == added0 + Flatten(chunks[..c + 1])
    ensures (emitted0 + ready) + got == emitted0 + (ready + got)
    ensures LengthsWithin(ready + got, lo, hi)
  {
    assert chunks[..c + 1] == chunks[..c] + [chunks[c]];
    FlattenSnoc(chunks[..c], chunks[c]);
    LengthsWithinAppend(ready, got, lo, hi);
  }

  /**
   * Lines 119-122: push each chunk into the buffer and hand back a block
   * whenever one is ready. Every block handed back is over the target size
   * and exceeds it by at most one chunk.
   */
  method PushChunks(buffer: BlockOutputBuffer, chunks: seq<Chunk>, ghost maxChunk: nat) returns (ready: seq<Chunk>)
    requires buffer.Valid() && !buffer.finalized && |buffer.pending| <= buffer.targetMaxBlockSize
    requires forall i :: 0 <= i < |chunks| ==> |chunks[i]| <= maxChunk
    modifies buffer
    ensures buffer.Valid() && !buffer.finalized && |buffer.pending| <= buffer.targetMaxBlockSize
    ensures buffer.added == old(buffer.added) + Flatten(chunks)
    ensures buffer.emitted == old(buffer.emitted) + ready
    ensures |ready| <= |chunks|
    ensures LengthsWithin(ready, buffer.targetMaxBlockSize, buffer.targetMaxBlockSize + maxChunk)
  {
    ghost var added0 := buffer.added;
    ghost var emitted0 := buffer.emitted;
    ready := [];
    var c := 0;
    assert chunks[..0] == [];
    while c < |chunks|
      invariant c <= |chunks|
      invariant buffer.Valid() && !buffer.finalized && |buffer.pending| <= buffer.targetMaxBlockSize
      invariant buffer.added == added0 + Flatten(chunks[..c])
      invariant buffer.emitted == emitted0 + ready
      invariant |ready| <= c
      invariant LengthsWithin(ready, buffer.targetMaxBlockSize, buffer.targetMaxBlockSize + maxChunk)
    {
      var chunk := chunks[c];
      var got := PushChunk(buffer, chunk, maxChunk);
      PushStep(chunks, c, added0, emitted0, ready, got, buffer.targetMaxBlockSize, buffer.targetMaxBlockSize + maxChunk);
      ready := ready + got;
      c := c + 1;
    }
    assert chunks[..c] == chunks;
  }

  /** Deciding and reading one more entry extends the dicts' history and the chunk stream by that entry. */
  lemma PrefixStep(paths: seq<RawPath>, k: nat, options: Options, env: Env)
    requires k < |paths|
    ensures OptionsAfter(paths[..k + 1], options, env) == Step(OptionsAfter(paths[..k], options, env), paths[k], env).options
    ensures AllChunks(paths[..k + 1], options, env)
      == AllChunks(paths[..k], options, env) + StreamChunks(paths[k], OptionsAfter(paths[..k + 1], options, env), env)
  {
    assert paths[..k + 1][..k] == paths[..k];
  }

  /** No chunk of entry `k` is longer than the longest chunk of all the entries. */
  lemma EntryChunksBounded(paths: seq<RawPath>, k: nat, options: Options, env: Env)
    requires k < |paths|
    ensures var chunks := StreamChunks(paths[k], OptionsAfter(paths[..k + 1], options, env), env);
      forall i :: 0 <= i < |chunks| ==> |chunks[i]| <= MaxLength(AllChunks(paths, options, env))
  {
    var done := AllChunks(paths[..k], options, env);
    var chunks := StreamChunks(paths[k], OptionsAfter(paths[..k + 1], options, env), env);
    PrefixStep(paths, k, options, env);
    AllChunksPrefix(paths, k + 1, options, env);
    PrefixWithinMaxLength(done, chunks, AllChunks(paths, options, env));
  }

  /**
   * Lines 86-122: every entry in order, with every block that becomes ready
   * on the way. The buffer holds every chunk not yet handed back.
   */
  method PushEntries(readPaths: seq<RawPath>, options: ReaderOptions, env: Env, buffer: BlockOutputBuffer)
    returns (blocks: seq<Chunk>)
    requires buffer.Valid() && !buffer.finalized && buffer.pending == [] && buffer.added == [] && buffer.emitted == []
    modifies options, buffer
    ensures options.State() == OptionsAfter(readPaths, old(options.State()), env)
    ensures buffer.Valid() && !buffer.finalized && |buffer.pending| <= buffer.targetMaxBlockSize
    ensures buffer.emitted == blocks
    ensures buffer.added == Flatten(AllChunks(readPaths, old(options.State()), env))
    ensures |blocks| <= |AllChunks(readPaths, old(options.State()), env)|
    ensures LengthsWithin(blocks, buffer.targetMaxBlockSize,
      buffer.targetMaxBlockSize + MaxLength(AllChunks(readPaths, old(options.State()), env)))
  {
    ghost var start := options.State();
    ghost var maxChunk := MaxLength(AllChunks(readPaths, start, env));
    ghost var done: seq<Chunk> := [];
    blocks := [];
    var k := 0;
    assert readPaths[..0] == [];
    while k < |readPaths|
      invariant k <= |readPaths|
      invariant options.State() == OptionsAfter(readPaths[..k], start, env)
      invariant done == AllChunks(readPaths[..k], start, env)
      invariant buffer.Valid() && !buffer.finalized && |buffer.pending| <= buffer.targetMaxBlockSize
      invariant buffer.emitted == blocks && buffer.added == Flatten(done) && |blocks| <= |done|
      invariant LengthsWithin(blocks, buffer.targetMaxBlockSize, buffer.targetMaxBlockSize + maxChunk)
    {
      var chunks := ReadEntry(readPaths[k], options, env);
      PrefixStep(readPaths, k, start, env);
      EntryChunksBounded(readPaths, k, start, env);
      FlattenAppend(done, chunks);
      var ready := PushChunks(buffer, chunks, maxChunk);
      LengthsWithinAppend(blocks, ready, buffer.targetMaxBlockSize, buffer.targetMaxBlockSize + maxChunk);
      blocks := blocks + ready;
      done := done + chunks;
      k := k + 1;
    }
    assert readPaths[..k] == readPaths;
  }

  /**
   * Lines 77-125. Every record every reader yields is handed back, in
   * order, in non-empty blocks; each block but the last is over the target
   * size, and none exceeds it by more than one chunk. The shared dicts are
   * left as the decisions for all entries leave them.
   */
  method ReadFiles(readPaths: seq<RawPath>, options: ReaderOptions, env: Env, targetMaxBlockSize: nat)
    returns (blocks: seq<Chunk>)
    modifies options
    ensures options.State() == OptionsAfter(readPaths, old(options.State()), env)
    ensures Flatten(blocks) == Flatten(AllChunks(readPaths, old(options.State()), env))
    ensures |blocks| <= |AllChunks(readPaths, old(options.State()), env)| + 1
    ensures forall i :: 0 <= i < |blocks| ==> blocks[i] != []
    ensures forall i :: 0 <= i < |blocks| - 1 ==> |blocks[i]| > targetMaxBlockSize
    ensures forall i :: 0 <= i < |blocks| ==>
      |blocks[i]| <= targetMaxBlockSize + MaxLength(AllChunks(readPaths, old(options.State()), env))
  {
    var buffer := new BlockOutputBuffer(targetMaxBlockSize);
    blocks := PushEntries(readPaths, options, env, buffer);
    buffer.Finalize();
    ghost var inLoop := blocks;
    if buffer.HasNext() {
      var block := buffer.Next();
      blocks := blocks + [block];
    }
    assert forall i :: 0 <= i < |inLoop| ==> |inLoop[i]| > targetMaxBlockSize;
    assert Flatten(blocks) + [] == Flatten(blocks);
  }

  /** `include_paths` is never written by the compression decisions, so every entry sees the caller's value. */
  lemma {:induction false} IncludePathsStable(paths: seq<RawPath>, options: Options, env: Env)
    ensures IncludePaths(OptionsAfter(paths, options, env).readerArgs) == IncludePaths(options.readerArgs)
  {
    if paths != [] {
      IncludePathsStable(paths[..|paths| - 1], options, env);
    }
  }

  /**
   * A task of missing and remote entries only yields exactly one record per
   * entry, in the entries' order, each the placeholder for its entry.
   */
  lemma {:induction false} PlaceholderRecords(paths: seq<RawPath>, options: Options, env: Env)
    requires forall k :: 0 <= k < |paths| ==> !paths[k].Local?
    ensures |Flatten(AllChunks(paths, options, env))| == |paths|
    ensures forall k :: 0 <= k < |paths| ==>
      IsPlaceholder(Flatten(AllChunks(paths, options, env))[k], paths[k], IncludePaths(options.readerArgs), env.fetch)
  {
    if paths != [] {
      var front := paths[..|paths| - 1];
      var last := paths[|paths| - 1];
      var withPaths := IncludePaths(options.readerArgs);
      PlaceholderRecords(front, options, env);
      IncludePathsStable(paths, options, env);
      var chunks := StreamChunks(last, OptionsAfter(paths, options, env), env);
      var records := chunks[0];
      var prev := AllChunks(front, options, env);
      assert chunks == [records];
      assert AllChunks(paths, options, env) == prev + [records];
      FlattenSnoc(prev, records);
      var flatPrev := Flatten(prev);
      var all := flatPrev + records;
      forall k | 0 <= k < |paths|
        ensures IsPlaceholder(all[k], paths[k], withPaths, env.fetch)
      {
        if k < |front| {
          assert all[k] == flatPrev[k] && paths[k] == front[k];
        } else {
          assert k == |front| == |flatPrev|;
          assert all[k] == records[0] && paths[k] == last;
        }
      }
    }
  }

  /** The codec an entry would get if it were decided on its own: none for `None`, else the detected one. */
  function PerFileCodec(path: RawPath, env: Env): Value
  {
    if path.Missing? then Null else DetectCodec(Text(path), env.detect)
  }

  /** A non-snappy codec chosen for entry `k` is still the explicit option for every later entry. */
  lemma {:induction false} CarriedCodec(paths: seq<RawPath>, k: nat, j: nat, options: Options, env: Env)
    requires k < j <= |paths|
    requires CodecAt(paths, k, options, env) != Null && CodecAt(paths, k, options, env) != Str(SNAPPY)
    ensures Popped(OptionsAfter(paths[..j], options, env).openStreamArgs) == CodecAt(paths, k, options, env)
    decreases j
  {
    assert paths[..j][..j - 1] == paths[..j - 1];
    if j > k + 1 {
      CarriedCodec(paths, k, j - 1, options, env);
    }
  }

  /**
   * Lines 89 and 116: once a codec other than snappy has been chosen for an
   * entry, every later entry that is not `None` is decided with it, whatever
   * its own name says.
   */
  lemma CodecCarriesOver(paths: seq<RawPath>, k: nat, options: Options, env: Env)
    requires k < |paths|
    requires CodecAt(paths, k, options, env) != Null && CodecAt(paths, k, options, env) != Str(SNAPPY)
    ensures forall j :: k < j < |paths| && !paths[j].Missing? ==>
      CodecAt(paths, j, options, env) == CodecAt(paths, k, options, env)
  {
    forall j | k < j < |paths| && !paths[j].Missing?
      ensures CodecAt(paths, j, options, env) == CodecAt(paths, k, options, env)
    {
      CarriedCodec(paths, k, j, options, env);
    }
  }

  /** Without an explicit codec, and with no entry detected as anything but snappy or nothing, nothing is carried. */
  lemma {:induction false} NothingCarried(paths: seq<RawPath>, j: nat, options: Options, env: Env)
    requires j <= |paths|
    requires Popped(options.openStreamArgs) == Null
    requires forall k :: 0 <= k < |paths| ==> PerFileCodec(paths[k], env) in {Null, Str(SNAPPY)}
    ensures Popped(OptionsAfter(paths[..j], options, env).openStreamArgs) == Null
  {
    if j > 0 {
      assert paths[..j][..j - 1] == paths[..j - 1];
      NothingCarried(paths, j - 1, options, env);
    } else {
      assert paths[..j] == [];
    }
  }

  /**
   * Lines 89-116 in that case: every entry is decided as it would be on its
   * own, its stream is opened without a `compression` option, and its reader
   * is handed snappy exactly when the caller's `reader_args` asked for it or
   * some entry up to and including it was decided snappy (line 111 is never
   * undone).
   */
  lemma PerFileWhenNothingCarried(paths: seq<RawPath>, options: Options, env: Env)
    requires Popped(options.openStreamArgs) == Null
    requires forall k :: 0 <= k < |paths| ==> PerFileCodec(paths[k], env) in {Null, Str(SNAPPY)}
    ensures forall k :: 0 <= k < |paths| ==> CodecAt(paths, k, options, env) == PerFileCodec(paths[k], env)
    ensures forall k :: 0 <= k < |paths| ==> Popped(OptionsFor(paths, k, options, env).openStreamArgs) == Null
    ensures forall k :: 0 <= k < |paths| ==>
      (SnappySet(OptionsFor(paths, k, options, env).readerArgs) <==>
        SnappySet(options.readerArgs) || exists i :: 0 <= i <= k && PerFileCodec(paths[i], env) == Str(SNAPPY))
  {
    forall k | 0 <= k < |paths|
      ensures CodecAt(paths, k, options, env) == PerFileCodec(paths[k], env)
      ensures Popped(OptionsFor(paths, k, options, env).openStreamArgs) == Null
      ensures SnappySet(OptionsFor(paths, k, options, env).readerArgs) <==>
        SnappySet(options.readerArgs) || exists i :: 0 <= i <= k && PerFileCodec(paths[i], env) == Str(SNAPPY)
    {
      NothingCarried(paths, k, options, env);
      NothingCarried(paths, k + 1, options, env);
      ReaderArgsWhenNothingCarried(paths, k + 1, options, env);
    }
  }

  /**
   * Without a carried codec, `reader_args` after the first `j` entries is
   * the caller's while no entry was snappy, and holds snappy from the first
   * snappy entry on.
   */
  lemma {:induction false} ReaderArgsWhenNothingCarried(paths: seq<RawPath>, j: nat, options: Options, env: Env)
    requires j <= |paths|
    requires Popped(options.openStreamArgs) == Null
    requires forall k :: 0 <= k < |paths| ==> PerFileCodec(paths[k], env) in {Null, Str(SNAPPY)}
    ensures (forall i :: 0 <= i < j ==> PerFileCodec(paths[i], env) == Null) ==>
      OptionsAfter(paths[..j], options, env).readerArgs == options.readerArgs
    ensures (exists i :: 0 <= i < j && PerFileCodec(paths[i], env) == Str(SNAPPY)) ==>
      SnappySet(OptionsAfter(paths[..j], options, env).readerArgs)
    decreases j
  {
    if j > 0 {
      assert paths[..j][..j - 1] == paths[..j - 1];
      ReaderArgsWhenNothingCarried(paths, j - 1, options, env);
      NothingCarried(paths, j - 1, options, env);
      var prev := OptionsAfter(paths[..j - 1], options, env);
      assert OptionsAfter(paths[..j], options, env) == Step(prev, paths[j - 1], env).options;
      NoCarryStep(prev, paths[j - 1], env);
    } else {
      assert paths[..j] == [];
    }
  }

  /** One entry decided without a carried codec changes `reader_args` only by a snappy decision, which it keeps. */
  lemma NoCarryStep(prev: Options, path: RawPath, env: Env)
    requires Popped(prev.openStreamArgs) == Null
    requires PerFileCodec(path, env) in {Null, Str(SNAPPY)}
    ensures var next := Step(prev, path, env).options;
      && (PerFileCodec(path, env) == Null ==> next.readerArgs == prev.readerArgs)
      && (PerFileCodec(path, env) == Str(SNAPPY) ==> SnappySet(next.readerArgs))
      && (SnappySet(prev.readerArgs) ==> SnappySet(next.readerArgs))
  {
    if !path.Missing? {
      CompressionRouting(prev, Text(path), env.fs, env.detect);
      ReaderArgsOnlyGrow(prev, Text(path), env.fs, env.detect);
    }
  }

  /**
   * Line 111 is never undone: once an entry is decided snappy, the reader of
   * that entry and of every later entry of the task is handed snappy, even
   * when its own decision gives no codec.
   */
  lemma SnappyStaysInReaderArgs(paths: seq<RawPath>, k: nat, options: Options, env: Env)
    requires k < |paths| && CodecAt(paths, k, options, env) == Str(SNAPPY)
    ensures forall j :: k <= j < |paths| ==> SnappySet(OptionsFor(paths, j, options, env).readerArgs)
  {
    forall j | k <= j < |paths|
      ensures SnappySet(OptionsFor(paths, j, options, env).readerArgs)
    {
      SnappyKept(paths, k, j + 1, options, env);
    }
  }

  lemma {:induction false} SnappyKept(paths: seq<RawPath>, k: nat, j: nat, options: Options, env: Env)
    requires k < j <= |paths| && CodecAt(paths, k, options, env) == Str(SNAPPY)
    ensures SnappySet(OptionsAfter(paths[..j], options, env).readerArgs)
    decreases j
  {
    assert paths[..j][..j - 1] == paths[..j - 1];
    var prev := OptionsAfter(paths[..j - 1], options, env);
    var last := paths[j - 1];
    if j > k + 1 {
      SnappyKept(paths, k, j - 1, options, env);
      if !last.Missing? {
        ReaderArgsOnlyGrow(prev, Text(last), env.fs, env.detect);
      }
    } else {
      CompressionRouting(prev, Text(last), env.fs, env.detect);
    }
  }

  /** "b.txt" has no extension that names snappy. */
  lemma PlainTextNoFallback()
    ensures SuffixFallback("b.txt") == Null
  {
    var n: string := "b.txt";
    assert n[0] == 'b' && n[1] == '.' && n[2] == 't' && n[3] == 'x' && n[4] == 't';
    assert LastIndexOf(n, '/') == -1;
    assert Name(n) == n;
    assert LastIndexOf(n, '.') == 1;
    assert Suffix(n)[1..] == "txt" != SNAPPY;
  }

  /**
   * A gzip file followed by a plain text file: the text file, which on its
   * own gets no codec, is opened with gzip.
   */
  lemma GzipCarriesIntoPlainFile(env: Env)
    requires env.detect("a.gz") == Some("gzip") && env.detect("b.txt") == None
    ensures var paths := [Local("a.gz"), Local("b.txt")];
      var options := Options(map[], map[]);
      && PerFileCodec(paths[1], env) == Null
      && CodecAt(paths, 0, options, env) == Str("gzip")
      && CodecAt(paths, 1, options, env) == Str("gzip")
  {
    var paths := [Local("a.gz"), Local("b.txt")];
    var options := Options(map[], map[]);
    PlainTextNoFallback();
    assert "gzip"[0] != SNAPPY[0];
    assert paths[..0] == [];
    assert CodecAt(paths, 0, options, env) == Str("gzip");
    CarriedCodec(paths, 0, 1, options, env);
  }
}
