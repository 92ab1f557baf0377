/**
 * The per-file compression decision of `read_files`: an explicit
 * `compression` option, else pyarrow's detector, else the ".snappy" suffix.
 * A snappy codec is handed to the record reader, any other codec to the
 * stream opener. The two option dicts the decision reads and writes are
 * shared by every file a task reads, so they are state here.
 */
module Compression {
  import opened Wrappers
  import opened Paths

  /** A value stored in one of the option dicts. */
  datatype Value =
    | Str(s: string)
    | Null
    | Bool(b: bool)
    | FileSystem           // the task's filesystem handle
    | Other(truthy: bool)  // any other caller-supplied value, with its Python truth value

  type Args = map<string, Value>

  /** `pa.Codec.detect(path).name`, or `None` when detection raises. */
  type Detector = string -> Option<string>

  const SNAPPY := "snappy"

  /** Python's truth value of an option value. */
  predicate Truthy(v: Value)
  {
    match v
    case Str(s) => s != ""
    case Null => false
    case Bool(b) => b
    case FileSystem => true
    case Other(t) => t
  }

  /** Lines 100-106: after detection raised, only a ".snappy" suffix names a codec. */
  function SuffixFallback(path: string): (codec: Value)
    ensures codec == Null || codec == Str(SNAPPY)
  {
    var suffix := Suffix(Name(path));
    if suffix != "" && suffix[1..] == SNAPPY then Str(SNAPPY) else Null
  }

  /**
   * The fallback gives snappy exactly when the file name ends in ".snappy"
   * with something before the dot; a name with no dot past its first
   * character (no extension) gives no codec.
   */
  lemma SuffixFallbackSnappy(path: string)
    ensures SuffixFallback(path) == Str(SNAPPY) <==> |Name(path)| > 7 && EndsWith(Name(path), ".snappy")
    ensures (forall i :: 0 < i < |Name(path)| ==> Name(path)[i] != '.') ==> SuffixFallback(path) == Null
  {
    var n := Name(path);
    var i := LastIndexOf(n, '.');
    if |n| > 7 && EndsWith(n, ".snappy") {
      var m := |n| - 7;
      assert n[m..] == ".snappy";
      assert n[m] == '.';
      forall j | m < j < |n| ensures n[j] != '.' {
        assert n[j] == ".snappy"[j - m];
      }
      assert i == m;
      assert Suffix(n) == ".snappy";
      assert Suffix(n)[1..] == SNAPPY;
    }
    if SuffixFallback(path) == Str(SNAPPY) {
      var s := Suffix(n);
      assert 0 < i < |n| - 1 && s == n[i..];
      assert |s| == 7;
      assert n[|n| - 7..] == s == ".snappy";
    }
  }

  /** `reader_args` asks the reader for snappy decompression (line 111). */
  predicate SnappySet(readerArgs: Args)
  {
    "compression" in readerArgs && readerArgs["compression"] == Str(SNAPPY)
  }

  /** Lines 90-106: the codec when no explicit one was given. */
  function DetectCodec(path: string, detect: Detector): Value
  {
    match detect(path)
    case Some(name) => Str(name)
    case None => SuffixFallback(path)
  }

  /** The two shared dicts: `open_stream_args` and `reader_args`. */
  datatype Options = Options(openStreamArgs: Args, readerArgs: Args)

  /** The codec chosen for one file and the dicts as that choice leaves them. */
  datatype Decision = Decision(codec: Value, options: Options)

  /** `open_stream_args.pop("compression", None)` */
  function Popped(openStreamArgs: Args): Value
  {
    if "compression" in openStreamArgs then openStreamArgs["compression"] else Null
  }

  /** Lines 89-116, for one path that is not `None`. */
  function DecideCompression(options: Options, path: string, fs: Value, detect: Detector): (d: Decision)
    ensures d.codec == (if Popped(options.openStreamArgs) != Null then Popped(options.openStreamArgs)
                        else DetectCodec(path, detect))
    ensures "compression" in d.options.openStreamArgs <==> d.codec != Null && d.codec != Str(SNAPPY)
    ensures d.options.openStreamArgs - {"compression"} == options.openStreamArgs - {"compression"}
    ensures d.options.readerArgs == options.readerArgs || d.codec == Str(SNAPPY)
  {
    var explicit := Popped(options.openStreamArgs);
    var openArgs := options.openStreamArgs - {"compression"};
    var codec := if explicit == Null then DetectCodec(path, detect) else explicit;
    if codec == Str(SNAPPY) then
      Decision(codec, Options(openArgs, options.readerArgs["compression" := codec]["filesystem" := fs]))
    else if codec != Null then
      Decision(codec, Options(openArgs["compression" := codec], options.readerArgs))
    else
      Decision(codec, Options(openArgs, options.readerArgs))
  }

  /** An explicit `compression` option wins, and the detector is not consulted. */
  lemma ExplicitCodecWins(options: Options, path: string, fs: Value, detect: Detector, other: Detector)
    requires Popped(options.openStreamArgs) != Null
    ensures DecideCompression(options, path, fs, detect).codec == Popped(options.openStreamArgs)
    ensures DecideCompression(options, path, fs, detect) == DecideCompression(options, path, fs, other)
  {
  }

  /**
   * Without an explicit option the codec is the detected one; when
   * detection raises it is snappy exactly for a ".snappy" file name and
   * nothing otherwise.
   */
  lemma DetectedCodec(options: Options, path: string, fs: Value, detect: Detector)
    requires Popped(options.openStreamArgs) == Null
    ensures detect(path).Some? ==> DecideCompression(options, path, fs, detect).codec == Str(detect(path).value)
    ensures detect(path).None? ==>
      (DecideCompression(options, path, fs, detect).codec == Str(SNAPPY) <==>
        |Name(path)| > 7 && EndsWith(Name(path), ".snappy"))
    ensures detect(path).None? ==>
      (DecideCompression(options, path, fs, detect).codec == Null <==>
        !(|Name(path)| > 7 && EndsWith(Name(path), ".snappy")))
  {
    SuffixFallbackSnappy(path);
  }

  /**
   * Lines 107-116: snappy goes to `reader_args` with the filesystem and
   * leaves no `compression` in `open_stream_args`; any other codec goes to
   * `open_stream_args` only; no codec leaves neither. No other key changes.
   */
  lemma CompressionRouting(options: Options, path: string, fs: Value, detect: Detector)
    ensures var d := DecideCompression(options, path, fs, detect);
      d.codec == Str(SNAPPY) ==>
        && "compression" !in d.options.openStreamArgs
        && d.options.readerArgs == options.readerArgs["compression" := Str(SNAPPY)]["filesystem" := fs]
    ensures var d := DecideCompression(options, path, fs, detect);
      d.codec != Str(SNAPPY) && d.codec != Null ==>
        && d.options.openStreamArgs == (options.openStreamArgs - {"compression"})["compression" := d.codec]
        && d.options.readerArgs == options.readerArgs
    ensures var d := DecideCompression(options, path, fs, detect);
      d.codec == Null ==>
        && d.options.openStreamArgs == options.openStreamArgs - {"compression"}
        && d.options.readerArgs == options.readerArgs
  {
  }

  /**
   * The state carried to the next file: a non-snappy codec is written back
   * as if it had been given explicitly, so every later file uses it; after
   * snappy or no codec the next file is detected afresh.
   */
  lemma NextFileSeesCodec(options: Options, path: string, next: string, fs: Value, detect: Detector)
    ensures var d := DecideCompression(options, path, fs, detect);
      d.codec != Str(SNAPPY) && d.codec != Null ==>
        DecideCompression(d.options, next, fs, detect).codec == d.codec
    ensures var d := DecideCompression(options, path, fs, detect);
      d.codec == Str(SNAPPY) || d.codec == Null ==>
        DecideCompression(d.options, next, fs, detect).codec == DetectCodec(next, detect)
  {
  }

  /**
   * An explicit snappy option is popped by the first file and decided only
   * once: deciding the very same file again gives no codec. Yet the snappy
   * entry it left in `reader_args` stays, so the reader of the second file
   * is still handed snappy.
   */
  lemma ExplicitSnappyPoppedOnce()
    ensures var options := Options(map["compression" := Str(SNAPPY)], map[]);
      var noCodec: Detector := _ => None;
      var first := DecideCompression(options, "a.txt", FileSystem, noCodec);
      var second := DecideCompression(first.options, "a.txt", FileSystem, noCodec);
      && first.codec == Str(SNAPPY)
      && SnappySet(first.options.readerArgs)
      && "compression" !in first.options.openStreamArgs
      && second.codec == Null
      && SnappySet(second.options.readerArgs)
  {
    assert LastIndexOf("a.txt", '/') == -1;
    assert Name("a.txt") == "a.txt";
    var n: string := "a.txt";
    assert n[0] == 'a' && n[1] == '.' && n[2] == 't' && n[3] == 'x' && n[4] == 't';
    assert LastIndexOf(n, '.') == 1;
    assert Suffix("a.txt") == ".txt";
    assert ".txt"[1..] == "txt";
  }

  /** The `reader_args` keys only accumulate, and a snappy entry, once set, stays. */
  lemma ReaderArgsOnlyGrow(options: Options, path: string, fs: Value, detect: Detector)
    ensures var ra := DecideCompression(options, path, fs, detect).options.readerArgs;
      && options.readerArgs.Keys <= ra.Keys
      && (forall k :: k in options.readerArgs && k != "compression" && k != "filesystem" ==>
            ra[k] == options.readerArgs[k])
      && (SnappySet(options.readerArgs) ==> SnappySet(ra))
  {
  }

  /** The shared dicts of lines 59-64 and 89-116, updated in place. */
  class ReaderOptions {
    var openStreamArgs: Args
    var readerArgs: Args

    constructor (openStreamArgs: Args, readerArgs: Args)
      ensures this.openStreamArgs == openStreamArgs && this.readerArgs == readerArgs
    {
      this.openStreamArgs := openStreamArgs;
      this.readerArgs := readerArgs;
    }

    function State(): Options
      reads this
    {
      Options(openStreamArgs, readerArgs)
    }

    /** Lines 89-116: pop, detect, and route the codec into one of the dicts. */
    method ApplyCompression(path: string, fs: Value, detect: Detector) returns (codec: Value)
      modifies this
      ensures Decision(codec, State()) == DecideCompression(old(State()), path, fs, detect)
    {
      codec := Null;
      if "compression" in openStreamArgs {
        codec := openStreamArgs["compression"];
      }
      openStreamArgs := openStreamArgs - {"compression"};
      if codec == Null {
        match detect(path)
        case Some(name) =>
          codec := Str(name);
        case None =>
          var suffix := Suffix(Name(path));
          if suffix != "" && suffix[1..] == SNAPPY {
            codec := Str(SNAPPY);
          } else {
            codec := Null;
          }
      }
      if codec == Str(SNAPPY) {
        readerArgs := readerArgs["compression" := codec];
        readerArgs := readerArgs["filesystem" := fs];
      } else if codec != Null {
        openStreamArgs := openStreamArgs["compression" := codec];
      }
    }
  }
}
