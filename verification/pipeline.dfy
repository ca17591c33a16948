/** One folder's conversion: `loadAndProcessData` and `processOpusFiles`. */
module Pipeline {
  import opened Errors
  import opened Settings
  import Spectra
  import Markup
  import Artifacts

  /** What `loadAndProcessData` hands to `save`. */
  datatype Loaded<V> = Loaded(spectra: seq<seq<V>>, markup: seq<seq<string>>, wavenumbers: seq<V>)

  /** Read the spectra, then build the markup; the first failure wins. */
  function LoadAndProcess<V(==)>(cfg: Config, decode: Spectra.Decoder<V>, files: seq<string>)
    : (r: Result<Loaded<V>, Failure>)
    // the spectra are read first: their failure wins
    ensures Spectra.ReadOpusFiles(files, decode).Err? ==> r == Err(Spectra.ReadOpusFiles(files, decode).error)
    // then the markup: its failure is passed on, and loading succeeds exactly when both steps do
    ensures Spectra.ReadOpusFiles(files, decode).Ok? ==>
      var m := Markup.ParseFileNames(files, cfg.split, cfg.separator, cfg.dropLastColumn, cfg.fixTable);
      && (m.Err? ==> r == Err(m.error))
      && (m.Ok? ==> r.Ok? && r.value.markup == m.value.rows)
    ensures r.Ok? ==>
      var ab := Spectra.BatchBlocks(files, decode);
      && |ab| > 0
      && r.value.wavenumbers == ab[0].x
      && (forall k :: 0 <= k < |ab| ==> ab[k].x == r.value.wavenumbers)
      && r.value.spectra == Spectra.YAxes(ab)
      && |r.value.markup| == |files|
      && Markup.Rectangular(r.value.markup)
      && forall i :: 0 <= i < |files| ==> |r.value.markup[i]| >= 1 && r.value.markup[i][0] == Markup.Label(files[i])
  {
    match Spectra.ReadOpusFiles(files, decode)
    case Err(e) => Err(e)
    case Ok(batch) =>
      match Markup.ParseFileNames(files, cfg.split, cfg.separator, cfg.dropLastColumn, cfg.fixTable)
      case Err(e) => Err(e)
      case Ok(table) => Ok(Loaded(batch.values, table.rows, batch.wavenumbers))
  }

  /**
   * With one absorbance block per file, a loaded folder has exactly one
   * spectrum per markup row and row i of both comes from file i.
   */
  lemma LoadedRowsAlign<V>(cfg: Config, decode: Spectra.Decoder<V>, files: seq<string>)
    requires Spectra.OneAbsorbanceEach(files, decode)
    requires LoadAndProcess(cfg, decode, files).Ok?
    ensures var d := LoadAndProcess(cfg, decode, files).value;
      && |d.spectra| == |d.markup| == |files|
      && forall i :: 0 <= i < |files| ==>
           d.spectra[i] == Spectra.AbsorbanceOf(decode(files[i]))[0].y &&
           |d.markup[i]| >= 1 && d.markup[i][0] == Markup.Label(files[i])
  {
    Spectra.OneBlockPerFileAligns(files, decode);
  }

  /**
   * The one-file csv's header (`sample_name`, `column0`, ...) sized by the
   * first markup row names every column of every row of an accepted table.
   */
  lemma HeaderFitsMarkup(files: seq<string>, split: bool, sep: string, dropLast: bool, fixTable: bool)
    requires |files| > 0 && Markup.ParseFileNames(files, split, sep, dropLast, fixTable).Ok?
    ensures var m := Markup.ParseFileNames(files, split, sep, dropLast, fixTable).value.rows;
      |m| > 0 && forall i :: 0 <= i < |m| ==> |Artifacts.Header(|m[0]|)| == |m[i]|
  {
  }

  /** How processing one folder ended. */
  datatype Outcome =
    | AlreadyExists              // result present and no update: nothing read, nothing written
    | Rejected(failure: Failure)  // an assertion failed: logged, nothing written
    | Saved(written: set<string>) // the files `save` wrote
    | Crashed(failure: Failure)   // an uncaught error: the whole run stops

  /** The files an outcome adds to the output location. */
  function Writes(o: Outcome): set<string>
  {
    if o.Saved? then o.written else {}
  }

  /**
   * `processOpusFiles`: skip when the checked file exists and update is off;
   * otherwise load, and save unless an assertion failed.
   */
  function ProcessFolder<V(==)>(cfg: Config, decode: Spectra.Decoder<V>, files: seq<string>,
                                base: string, existing: set<string>): (o: Outcome)
    ensures o == AlreadyExists <==> Artifacts.CheckedName(cfg, base) in existing && !cfg.update
    ensures o.Saved? <==> o != AlreadyExists && LoadAndProcess(cfg, decode, files).Ok?
    ensures o.Saved? ==> o.written == Artifacts.WrittenNames(cfg, base)
    ensures o.Rejected? <==> (o != AlreadyExists && LoadAndProcess(cfg, decode, files).Err? &&
      Recoverable(LoadAndProcess(cfg, decode, files).error))
    ensures (o.Rejected? || o.Crashed?) ==> o.failure == LoadAndProcess(cfg, decode, files).error
  {
    if Artifacts.CheckedName(cfg, base) in existing && !cfg.update then AlreadyExists
    else
      match LoadAndProcess(cfg, decode, files)
      case Ok(_) => Saved(Artifacts.WrittenNames(cfg, base))
      case Err(e) => if Recoverable(e) then Rejected(e) else Crashed(e)
  }

  /** A skipped folder's outcome does not depend on the decoder: nothing is read. */
  lemma SkipReadsNothing<V>(cfg: Config, d1: Spectra.Decoder<V>, d2: Spectra.Decoder<V>,
                                files: seq<string>, base: string, existing: set<string>)
    requires Artifacts.CheckedName(cfg, base) in existing && !cfg.update
    ensures ProcessFolder(cfg, d1, files, base, existing) == ProcessFolder(cfg, d2, files, base, existing)
    ensures Writes(ProcessFolder(cfg, d1, files, base, existing)) == {}
  {
  }

  /**
   * Once a folder is saved, processing it again without update finds the
   * result and skips it.
   */
  lemma SavedThenSkipped<V>(cfg: Config, decode: Spectra.Decoder<V>, files: seq<string>,
                                base: string, existing: set<string>)
    requires ValidConfig(cfg) && !cfg.update
    requires ProcessFolder(cfg, decode, files, base, existing).Saved?
    ensures ProcessFolder(cfg, decode, files, base,
                          existing + Writes(ProcessFolder(cfg, decode, files, base, existing))) == AlreadyExists
  {
    Artifacts.CheckedNameIsWritten(cfg, base);
  }

  /**
   * Processing a folder again without update, once the first outcome's files
   * are present, finds the result or rejects the folder again: it never
   * saves and never crashes, provided the first time did not crash.
   */
  lemma ReprocessSavesNothing<V>(cfg: Config, decode: Spectra.Decoder<V>, files: seq<string>,
                                 base: string, e1: set<string>, e2: set<string>)
    requires ValidConfig(cfg) && !cfg.update
    requires !ProcessFolder(cfg, decode, files, base, e1).Crashed?
    requires e1 + Writes(ProcessFolder(cfg, decode, files, base, e1)) <= e2
    ensures var o := ProcessFolder(cfg, decode, files, base, e2);
      o == AlreadyExists || o.Rejected?
  {
    var o1 := ProcessFolder(cfg, decode, files, base, e1);
    if o1.Saved? {
      Artifacts.CheckedNameIsWritten(cfg, base);
      assert Artifacts.CheckedName(cfg, base) in e2;
    }
  }
}
