/** Output file names (`save`, `isResultExists`) and the joined-table header (`saveInOneFile`). */
module Artifacts {
  import opened Settings
  import Strings

  /** The file `isResultExists` looks for, given the output base name. */
  function CheckedName(cfg: Config, base: string): (name: string)
    ensures |base| < |name| && name[..|base|] == base
  {
    if cfg.onefile || cfg.format == Mat then base + "." + Extension(cfg.format)
    else base + "_spectra." + Extension(cfg.format)
  }

  /** The files `save` writes for the output base name. */
  function WrittenNames(cfg: Config, base: string): (names: set<string>)
    ensures |names| >= 1
  {
    match cfg.format
    case Csv =>
      if cfg.onefile then {base + ".csv"}
      else {base + "_wavenumbers.csv", base + "_markup.csv", base + "_spectra.csv"}
    case Npy => {base + "_wavenumbers.npy", base + "_markup.npy", base + "_spectra.npy"}
    case Mat => {base + ".mat"}
  }

  /**
   * The existence check looks at a file `save` writes exactly when the
   * options are not the one-file/npy pair (one-file/mat happens to agree).
   */
  lemma CheckedNameWrittenUnlessOnefileNpy(cfg: Config, base: string)
    ensures CheckedName(cfg, base) in WrittenNames(cfg, base) <==> !(cfg.onefile && cfg.format == Npy)
  {
    var c := CheckedName(cfg, base);
    if cfg.onefile && cfg.format == Npy {
      assert c[|base|] == '.';
      assert (base + "_wavenumbers.npy")[|base|] == '_';
      assert (base + "_markup.npy")[|base|] == '_';
      assert (base + "_spectra.npy")[|base|] == '_';
    } else {
      match cfg.format
      case Mat =>
        assert c == base + ".mat";
      case Csv =>
        if cfg.onefile {
          assert c == base + ".csv";
        } else {
          assert c == base + "_spectra.csv";
        }
      case Npy =>
        assert c == base + "_spectra.npy";
    }
  }

  /** Under an accepted configuration the checked file is always one `save` writes. */
  lemma CheckedNameIsWritten(cfg: Config, base: string)
    requires ValidConfig(cfg)
    ensures CheckedName(cfg, base) in WrittenNames(cfg, base)
  {
    CheckedNameWrittenUnlessOnefileNpy(cfg, base);
  }

  /** `column{i}`, the header of markup column i + 1 (column 0 is the sample name). */
  function ColumnName(i: nat): string
  {
    "column" + Strings.NatToString(i)
  }

  /**
   * The markup columns of the joined table: `sample_name`, then
   * `column0 .. column{width-2}`; a width below one still names the sample column.
   */
  function Header(width: nat): (h: seq<string>)
    ensures |h| == if width == 0 then 1 else width
    ensures h[0] == "sample_name"
    ensures forall i :: 1 <= i < |h| ==> h[i] == ColumnName(i - 1)
  {
    ["sample_name"] + seq(if width == 0 then 0 else width - 1, (i: nat) => ColumnName(i))
  }

  /** No two markup columns of the joined table share a name. */
  lemma HeaderDistinct(width: nat)
    ensures forall i, j :: 0 <= i < j < |Header(width)| ==> Header(width)[i] != Header(width)[j]
  {
    var h := Header(width);
    forall i, j | 0 <= i < j < |h|
      ensures h[i] != h[j]
    {
      if i == 0 {
        assert h[j][0] == 'c';
      } else {
        Strings.NatToStringInjective(i - 1, j - 1);
        var a := Strings.NatToString(i - 1);
        var b := Strings.NatToString(j - 1);
        assert ("column" + a)[6..] == a && ("column" + b)[6..] == b;
      }
    }
  }
}
