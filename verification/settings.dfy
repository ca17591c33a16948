/** The converter's command-line options as one explicit configuration record. */
module Settings {

  /** The `--format` choices. */
  datatype Format = Mat | Csv | Npy

  /** The file extension (and option spelling) of a format. */
  function Extension(f: Format): string
  {
    match f
    case Mat => "mat"
    case Csv => "csv"
    case Npy => "npy"
  }

  /**
   * The options that steer the conversion. `searchDepth` is an int because
   * the option accepts any integer; a negative bound visits nothing.
   */
  datatype Config = Config(
    directory: string,
    format: Format,
    onefile: bool,
    split: bool,
    fixTable: bool,
    dropLastColumn: bool,
    separator: string,
    searchDepth: int,
    outputDirectory: string,
    saveInplace: bool,
    update: bool)

  /** The start-up check: packing into one file is only allowed for csv. */
  predicate ValidConfig(cfg: Config)
  {
    !(cfg.onefile && cfg.format != Csv)
  }
}
