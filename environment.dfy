/** What the generator obtains from libraries and the host, as values and
    functions: image codecs, file information, digests, fonts, number
    formatting, string comparison and the path conventions. */
module Environment {
  import opened Wrappers
  import opened Paths
  import opened HashHelper

  /** An image after `GetPageImage` and `XImage.FromStream`: the re-encoded
      bytes and the size in points they are drawn at. */
  datatype LoadedImage = LoadedImage(bytes: seq<byte>, pointWidth: real, pointHeight: real)

  /** The exceptions that end a run. */
  datatype Error =
    | ArgumentError(paramName: string)       // null or empty directory argument
    | ArgumentNullError(paramName: string)   // null metadata
    | DirectoryNotFound(path: string)
    | NoImageFiles                           // FileNotFoundException: nothing to convert
    | CodecError(path: string)               // an image could not be loaded
    | DotLeaderOutOfRange                    // a contents line left no room for its dots
    | SaveError                              // writing the document failed

  datatype Env = Env(
    seps: Separators,
    /** Decoding, re-encoding and placing one file; `None` when it throws. */
    load: string -> Option<LoadedImage>,
    /** `new FileInfo(path).Length`. */
    fileSize: string -> int,
    /** `GetImageDateTaken(path)`, already rendered as text. */
    dateTaken: string -> Option<string>,
    /** The digest bytes of each algorithm. */
    digest: (HashAlgorithm, seq<byte>) -> seq<byte>,
    /** `{bytes / (double)unit:0.##}`. */
    figure: (int, int) -> string,
    /** Widths measured in Arial 12 (captions) and Arial 8 (contents entries). */
    measureCaption: string -> real,
    measureEntry: string -> real,
    /** The default string comparer: `stemOrder(a, b)` when `a` sorts no later than `b`. */
    stemOrder: (string, string) -> bool)
  {
    /** Arial 8 gives the '.' of the dot leaders a width. */
    predicate Valid()
    {
      measureEntry(".") > 0.0
    }
  }
}
