/**
 * What the datasource reads for one entry of a task: the source it opens
 * (`_open_input_source`) and the records it produces for a missing or a
 * remote entry (`_read_file`). Entries on a filesystem are handed on to
 * the binary reader of the base class, which the model takes as a
 * parameter.
 */
module Records {
  import opened Wrappers
  import opened Paths
  import opened Compression

  newtype byte = x: int | 0 <= x < 256

  type Bytes = seq<byte>

  /**
   * One output record: the file's bytes, `None` when there are none, paired
   * with the entry's path when `include_paths` is set.
   */
  datatype Record =
    | Data(data: Option<Bytes>)
    | PathAndData(path: Option<string>, data: Option<Bytes>)

  /** A block of records, as a decoder or the buffer hands it on. */
  type Chunk = seq<Record>

  /**
   * `get_bytes_obj_from_http_path`: the body fetched from a URL, or `None`
   * when the fetch raises an HTTP error.
   */
  type Fetcher = string -> Option<Bytes>

  /** What `_open_input_source` returns: an empty context, or an open stream. */
  datatype Source =
    | NullContext
    | InputStream(path: string, openArgs: Args)

  /** Lines 174-176: only a filesystem entry opens a stream, with the current open arguments. */
  function OpenInputSource(path: RawPath, openArgs: Args): (src: Source)
    ensures src.NullContext? <==> !path.Local?
    ensures path.Local? ==> src.path == path.path && src.openArgs == openArgs
  {
    match path
    case Local(p) => InputStream(p, openArgs)
    case _ => NullContext
  }

  /** Line 179: `reader_args.get("include_paths", False)`, read for its truth value. */
  predicate IncludePaths(readerArgs: Args)
  {
    "include_paths" in readerArgs && Truthy(readerArgs["include_paths"])
  }

  /** The result of `_read_file`: the records it produces, or a hand-off to the base class's reader. */
  datatype FileRead =
    | Produced(records: seq<Record>)
    | Delegated(path: string)

  /** The path an entry names in a record: `None` for a missing entry. */
  function RecordPath(path: RawPath): Option<string>
  {
    match path
    case Missing => None
    case Http(url) => Some(url)
    case Local(p) => Some(p)
  }

  /** The bytes the placeholder rules give a missing or remote entry. */
  function PlaceholderData(path: RawPath, fetch: Fetcher): Option<Bytes>
    requires !path.Local?
  {
    match path
    case Missing => None
    case Http(url) => fetch(url)
  }

  /**
   * The record standing in for a missing or remote entry: its placeholder
   * data, paired with the entry's path exactly when paths are included.
   */
  predicate IsPlaceholder(r: Record, path: RawPath, includePaths: bool, fetch: Fetcher)
    requires !path.Local?
  {
    && r.data == PlaceholderData(path, fetch)
    && (r.PathAndData? <==> includePaths)
    && (r.PathAndData? ==> r.path == RecordPath(path))
  }

  /** Lines 178-194. */
  function ReadFile(path: RawPath, includePaths: bool, fetch: Fetcher): (r: FileRead)
    ensures r.Delegated? <==> path.Local?
    ensures r.Delegated? ==> r.path == path.path
    ensures r.Produced? ==> |r.records| == 1 && IsPlaceholder(r.records[0], path, includePaths, fetch)
  {
    match path
    case Missing =>
      if includePaths then Produced([PathAndData(None, None)]) else Produced([Data(None)])
    case Http(url) =>
      var data := fetch(url);
      if includePaths then Produced([PathAndData(Some(url), data)]) else Produced([Data(data)])
    case Local(p) =>
      Delegated(p)
  }

  /**
   * A missing entry and a failed fetch both degrade to a record without
   * data instead of an error, and a successful fetch keeps the body whole.
   */
  lemma PlaceholderDegradesGracefully(path: RawPath, includePaths: bool, fetch: Fetcher)
    requires !path.Local?
    ensures ReadFile(path, includePaths, fetch).Produced?
    ensures path.Missing? || fetch(path.url).None? ==>
      ReadFile(path, includePaths, fetch).records[0].data.None?
    ensures path.Http? && fetch(path.url).Some? ==>
      ReadFile(path, includePaths, fetch).records[0].data == Some(fetch(path.url).value)
  {
  }
}
