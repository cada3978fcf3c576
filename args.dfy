/** The options the listing reads (src/args.rs) and the ignore rule they select
    (src/filesystem/ignore_mode.rs). */
module Arguments {

  /** The parsed command line: the operands and the five flags the engine reads. */
  datatype Args = Args(
    paths: seq<string>,
    all: bool,
    long: bool,
    almostAll: bool,
    dereference: bool,
    recursive: bool)

  /** Which names starting with '.' are skipped. */
  datatype IgnoreMode =
    | IgnoreDefault        // every name starting with '.'
    | IgnoreDotAndDotDot   // only "." and ".."
    | IgnoreMinimal        // nothing
}
