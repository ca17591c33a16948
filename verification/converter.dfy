/**
 * The program entry: the start-up option check, the start folder name and
 * the stack-based recursive walk that converts every folder holding OPUS files.
 */
module Converter {
  import opened Errors
  import opened Settings
  import Strings
  import Paths
  import opened Traversal
  import opened Run

  /** The type of a per-folder step: how one visited folder changes the run. */
  type Stepper = (RunState, Visit) -> RunState

  /** Walking one more entry of a folder folds that entry's visits after the earlier ones. */
  lemma WalkEntryStep(step: Stepper, st: RunState, entries: seq<Node>, i: nat, path: string,
                      folders: seq<string>, depth: nat, maxDepth: int, isOpus: string -> bool)
    requires i < |entries|
    ensures Fold(step, st, SubVisits(entries, i + 1, path, folders, depth, maxDepth, isOpus))
      == Fold(step, Fold(step, st, SubVisits(entries, i, path, folders, depth, maxDepth, isOpus)),
              ChildVisits(entries[i], path, folders, depth, maxDepth, isOpus))
  {
    FoldConcat(step, st, SubVisits(entries, i, path, folders, depth, maxDepth, isOpus),
               ChildVisits(entries[i], path, folders, depth, maxDepth, isOpus));
  }

  /** The walk of a folder within the bound steps through the folder itself, then its listing. */
  lemma WalkOwnVisit(step: Stepper, st: RunState, entries: seq<Node>, path: string,
                     folders: seq<string>, depth: nat, maxDepth: int, isOpus: string -> bool)
    requires depth <= maxDepth
    ensures var files := OpusFiles(entries, path, isOpus);
      Fold(step, st, Visits(entries, path, folders, depth, maxDepth, isOpus))
        == Fold(step, if |files| > 0 then step(st, Visit(path, folders, depth, files)) else st,
                SubVisits(entries, |entries|, path, folders, depth, maxDepth, isOpus))
  {
    var own := Own(entries, path, folders, depth, isOpus);
    FoldConcat(step, st, own, SubVisits(entries, |entries|, path, folders, depth, maxDepth, isOpus));
    if |own| > 0 {
      assert own[1..] == [];
    }
  }

  /**
   * The converter's recursive walk with its shared folder-name stack: check
   * the depth, process this folder if it holds OPUS files, then walk its
   * listing. For any per-folder step that leaves a stopped run alone, the
   * result is that of folding the step over `Visits` in order, and the stack
   * is restored unless an uncaught failure unwinds the walk.
   */
  method RecursiveWalk(step: Stepper, maxDepth: int, isOpus: string -> bool, entries: seq<Node>,
                       curPath: string, folders: seq<string>, curDepth: nat, st: RunState)
    returns (stack: seq<string>, state: RunState)
    requires KeepsStopped(step)
    ensures state == Fold(step, st, Visits(entries, curPath, folders, curDepth, maxDepth, isOpus))
    ensures state.status.Running? ==> stack == folders
    ensures |folders| <= |stack| && stack[..|folders|] == folders
    decreases entries, 2
  {
    if curDepth > maxDepth {
      return folders, st;
    }
    var files := OpusFiles(entries, curPath, isOpus);
    WalkOwnVisit(step, st, entries, curPath, folders, curDepth, maxDepth, isOpus);
    state := st;
    if |files| > 0 {
      state := step(state, Visit(curPath, folders, curDepth, files));
    }
    stack, state := WalkListing(step, maxDepth, isOpus, entries, |entries|, curPath, folders, curDepth, state);
  }

  /**
   * The loop over the first `n` entries of a folder's listing: walk them in
   * order, passing over the rest once an uncaught failure has ended the run.
   */
  method WalkListing(step: Stepper, maxDepth: int, isOpus: string -> bool, entries: seq<Node>, n: nat,
                     curPath: string, folders: seq<string>, curDepth: nat, st: RunState)
    returns (stack: seq<string>, state: RunState)
    requires KeepsStopped(step)
    requires n <= |entries|
    ensures state == Fold(step, st, SubVisits(entries, n, curPath, folders, curDepth, maxDepth, isOpus))
    ensures state.status.Running? ==> stack == folders
    ensures |folders| <= |stack| && stack[..|folders|] == folders
    decreases entries, 1, n
  {
    if n == 0 {
      return folders, st;
    }
    stack, state := WalkListing(step, maxDepth, isOpus, entries, n - 1, curPath, folders, curDepth, st);
    WalkEntryStep(step, st, entries, n - 1, curPath, folders, curDepth, maxDepth, isOpus);
    if state.status.Running? {
      stack, state := WalkEntry(step, maxDepth, isOpus, entries[n - 1], curPath, folders, curDepth, state);
    } else {
      FoldStopped(step, state, ChildVisits(entries[n - 1], curPath, folders, curDepth, maxDepth, isOpus));
    }
  }

  /**
   * One entry of a folder's listing: a file is passed over; a subfolder's
   * name is pushed, the subfolder is walked one level down, and the name is
   * popped again unless an uncaught failure unwinds the walk.
   */
  method WalkEntry(step: Stepper, maxDepth: int, isOpus: string -> bool, e: Node,
                   curPath: string, folders: seq<string>, curDepth: nat, st: RunState)
    returns (stack: seq<string>, state: RunState)
    requires KeepsStopped(step)
    ensures state == Fold(step, st, ChildVisits(e, curPath, folders, curDepth, maxDepth, isOpus))
    ensures state.status.Running? ==> stack == folders
    ensures |folders| <= |stack| && stack[..|folders|] == folders
    decreases e, 0
  {
    if e.File? {
      return folders, st;
    }
    stack := folders + [e.name];
    stack, state := RecursiveWalk(step, maxDepth, isOpus, e.entries, Paths.Join(curPath, e.name), stack, curDepth + 1, st);
    assert stack[..|folders|] == stack[..|folders| + 1][..|folders|];
    if state.status.Running? {
      stack := stack[..|stack| - 1];
    }
  }

  /** The start-up rejection of a one-file request for a format other than csv. */
  datatype ConfigError = OnefileNeedsCsv

  /** The start folder name as the converter computes it: `os.path.split(...)[1]` of the directory or the working folder. */
  function StartName(directory: string, cwd: string): (name: string)
    ensures '/' !in name
    ensures directory != "." ==> |name| <= |directory| && name == directory[|directory| - |name|..]
  {
    if directory == "." then Paths.Basename(cwd) else Paths.Basename(directory)
  }

  /** A directory argument ending in '/' (as shell completion writes it) gets an empty start name. */
  lemma StartNameEmptyForTrailingSlash(directory: string, cwd: string)
    requires |directory| > 0 && directory[|directory| - 1] == '/'
    ensures StartName(directory, cwd) == ""
  {
    assert directory != ".";
    Paths.BasenameOfTrailingSlash(directory);
  }

  /** The start folder name with trailing slashes removed first, so `data/` is named `data`. */
  function StartNameFixed(directory: string, cwd: string): string
  {
    var d := Paths.RStrip(directory, '/');
    if d == "." then Paths.Basename(cwd) else Paths.Basename(d)
  }

  /**
   * The corrected start name is non-empty for an argument with some character
   * other than '/' that is not `.` once its trailing slashes are removed; it has
   * no '/', and agrees with the converter's name when the argument has no
   * trailing slash.
   */
  lemma StartNameFixedNamesFolder(directory: string, cwd: string)
    requires exists j :: 0 <= j < |directory| && directory[j] != '/'
    requires Paths.RStrip(directory, '/') != "."
    ensures StartNameFixed(directory, cwd) != ""
    ensures '/' !in StartNameFixed(directory, cwd)
    ensures directory[|directory| - 1] != '/' ==> StartNameFixed(directory, cwd) == StartName(directory, cwd)
  {
    var d := Paths.RStrip(directory, '/');
    var j :| 0 <= j < |directory| && directory[j] != '/';
    assert |d| > j;
    assert d[|d| - 1] != '/';
    assert Paths.RFind(d, '/') < |d| - 1;
  }

  /** The run's starting state: the files already present, an empty log, running. */
  function Start(existing: set<string>): RunState
  {
    RunState(existing, [], Running)
  }

  /** Every folder the run converts, starting from the directory argument at depth 0 with stack `[start]`. */
  function RootVisits(cfg: Config, start: string, root: seq<Node>, isOpus: string -> bool): seq<Visit>
  {
    Visits(root, cfg.directory, [start], 0, cfg.searchDepth, isOpus)
  }

  /**
   * The program for a given start folder name: reject a one-file request
   * for a non-csv format before touching anything, otherwise walk from the
   * directory argument.
   */
  function ConvertFrom<V(==)>(cfg: Config, start: string, root: seq<Node>, env: Env<V>, existing: set<string>)
    : (r: Result<RunState, ConfigError>)
    ensures r.Err? <==> cfg.onefile && cfg.format != Csv
    ensures r.Ok? ==> existing <= r.value.existing
  {
    if cfg.onefile && cfg.format != Csv then Err(OnefileNeedsCsv)
    else
      RunFromGrows(cfg, env, Start(existing), RootVisits(cfg, start, root, env.isOpus));
      Ok(RunFrom(cfg, env, Start(existing), RootVisits(cfg, start, root, env.isOpus)))
  }

  /** The program as written: the start name is `os.path.split(directory)[1]`. */
  function Convert<V(==)>(cfg: Config, cwd: string, root: seq<Node>, env: Env<V>, existing: set<string>)
    : (r: Result<RunState, ConfigError>)
    ensures r.Err? <==> cfg.onefile && cfg.format != Csv
    ensures r.Ok? ==> existing <= r.value.existing
  {
    ConvertFrom(cfg, StartName(cfg.directory, cwd), root, env, existing)
  }

  /** The entry point as the converter runs it: option check, then the stack-based walk from `[start name]`. */
  method RunConverter<V(==)>(cfg: Config, cwd: string, root: seq<Node>, env: Env<V>, existing: set<string>)
    returns (r: Result<RunState, ConfigError>)
    ensures r == Convert(cfg, cwd, root, env, existing)
  {
    if cfg.onefile && cfg.format != Csv {
      return Err(OnefileNeedsCsv);
    }
    var startDir := StartName(cfg.directory, cwd);
    var stack, state := RecursiveWalk(Processing(cfg, env), cfg.searchDepth, env.isOpus, root, cfg.directory,
                                      [startDir], 0, Start(existing));
    r := Ok(state);
  }

  /** A directory argument within the bound and holding OPUS files is the first folder converted. */
  lemma RootVisitFirst(cfg: Config, start: string, root: seq<Node>, isOpus: string -> bool)
    requires cfg.searchDepth >= 0 && |OpusFiles(root, cfg.directory, isOpus)| > 0
    ensures var vs := RootVisits(cfg, start, root, isOpus);
      |vs| > 0 && vs[0] == Visit(cfg.directory, [start], 0, OpusFiles(root, cfg.directory, isOpus))
  {
    var own := Own(root, cfg.directory, [start], 0, isOpus);
    assert RootVisits(cfg, start, root, isOpus)
      == own + SubVisits(root, |root|, cfg.directory, [start], 0, cfg.searchDepth, isOpus);
  }

  /** True for the default options with the directory argument `data/`. */
  predicate DataSlashDefaults(cfg: Config)
  {
    cfg.directory == "data/" && cfg.format == Mat && !cfg.onefile && !cfg.saveInplace &&
    cfg.outputDirectory == "." && cfg.searchDepth >= 0
  }

  /**
   * With `data/` and default options, the first folder the run converts is
   * `data/` itself, with the stack `[""]`, so its result is written to and
   * looked for as `./.mat`, a hidden file without the folder's name.
   */
  lemma TrailingSlashRootOutput(cfg: Config, cwd: string, root: seq<Node>, isOpus: string -> bool)
    requires DataSlashDefaults(cfg)
    requires |OpusFiles(root, cfg.directory, isOpus)| > 0
    ensures var vs := RootVisits(cfg, StartName(cfg.directory, cwd), root, isOpus);
      && |vs| > 0 && vs[0].path == "data/" && vs[0].folders == [""]
      && Artifacts.CheckedName(cfg, OutputBase(cfg, vs[0])) == "./.mat"
      && Artifacts.WrittenNames(cfg, OutputBase(cfg, vs[0])) == {"./.mat"}
  {
    StartNameEmptyForTrailingSlash(cfg.directory, cwd);
    RootVisitFirst(cfg, "", root, isOpus);
    var v := RootVisits(cfg, "", root, isOpus)[0];
    assert Strings.JoinWith("_", [""]) == "";
    assert OutputBase(cfg, v) == "./";
    assert Artifacts.CheckedName(cfg, "./") == "./" + ".mat" == "./.mat";
  }

  /** With the corrected start name the same folder's result is `./data.mat`. */
  lemma TrailingSlashRootOutputFixed(cfg: Config, cwd: string, root: seq<Node>, isOpus: string -> bool)
    requires DataSlashDefaults(cfg)
    requires |OpusFiles(root, cfg.directory, isOpus)| > 0
    ensures var vs := RootVisits(cfg, StartNameFixed(cfg.directory, cwd), root, isOpus);
      && |vs| > 0 && vs[0].path == "data/" && vs[0].folders == ["data"]
      && Artifacts.CheckedName(cfg, OutputBase(cfg, vs[0])) == "./data.mat"
      && Artifacts.WrittenNames(cfg, OutputBase(cfg, vs[0])) == {"./data.mat"}
  {
    DataSlashNamedData(cwd);
    RootVisitFirst(cfg, "data", root, isOpus);
    var v := RootVisits(cfg, "data", root, isOpus)[0];
    assert v.folders == ["data"];
    assert Strings.JoinWith("_", ["data"]) == "data";
    assert OutputBase(cfg, v) == Paths.Join(".", "data");
    DataMatNames(cfg);
  }

  /** Under the default options, the output base `./data` is looked for and written as `./data.mat`. */
  lemma DataMatNames(cfg: Config)
    requires DataSlashDefaults(cfg)
    ensures Artifacts.CheckedName(cfg, Paths.Join(".", "data")) == "./data.mat"
    ensures Artifacts.WrittenNames(cfg, Paths.Join(".", "data")) == {"./data.mat"}
  {
    var base := Paths.Join(".", "data");
    DataOutputName();
    assert Artifacts.CheckedName(cfg, base) == base + "." + Extension(Mat);
    assert Artifacts.WrittenNames(cfg, base) == {base + ".mat"};
  }

  /** `os.path.join(".", "data")` followed by the mat extension spells `./data.mat`. */
  lemma DataOutputName()
    ensures Paths.Join(".", "data") + "." + Extension(Mat) == "./data.mat"
    ensures Paths.Join(".", "data") + ".mat" == "./data.mat"
  {
    assert Paths.Join(".", "data") == "./data";
  }

  /** The corrected start name of `data/` is `data`. */
  lemma DataSlashNamedData(cwd: string)
    ensures StartNameFixed("data/", cwd) == "data"
  {
    var d: string := "data/";
    assert d[..|d| - 1] == "data";
    assert Paths.RStrip(d, '/') == Paths.RStrip("data", '/');
    assert '/' !in "data";
  }

  /** One converted folder reached from the start stack: its stack and output file part. */
  lemma OutputNameOfVisit(cfg: Config, start: string, v: Visit)
    requires '/' !in start
    requires Reached(v, [start], 0, cfg.searchDepth) && CleanFrom(v, 1)
    ensures |v.folders| == v.depth + 1 && v.folders[0] == start
    ensures cfg.saveInplace ==> Paths.Basename(OutputBase(cfg, v)) == "__" + Strings.JoinWith("_", v.folders)
    ensures !cfg.saveInplace ==> Paths.Basename(OutputBase(cfg, v)) == Strings.JoinWith("_", v.folders)
  {
    assert v.folders[0] == v.folders[..1][0];
    assert CleanFrom(v, 0);
    OutputPlacement(cfg, v);
  }

  /**
   * Every converted folder's output name starts with the start folder's
   * name, one folder name per level, and lies inside the folder (in place)
   * or the output folder.
   */
  lemma OutputNamesRootedAtStart(cfg: Config, cwd: string, root: seq<Node>, isOpus: string -> bool)
    requires WellNamed(root)
    ensures forall v :: v in RootVisits(cfg, StartName(cfg.directory, cwd), root, isOpus) ==>
      && |v.folders| == v.depth + 1
      && v.folders[0] == StartName(cfg.directory, cwd)
      && v.depth <= cfg.searchDepth
      && (cfg.saveInplace ==>
            Paths.Basename(OutputBase(cfg, v)) == "__" + Strings.JoinWith("_", v.folders))
      && (!cfg.saveInplace ==>
            Paths.Basename(OutputBase(cfg, v)) == Strings.JoinWith("_", v.folders))
  {
    var start := StartName(cfg.directory, cwd);
    VisitsShape(root, cfg.directory, [start], 0, cfg.searchDepth, isOpus);
    forall v | v in RootVisits(cfg, start, root, isOpus)
      ensures Reached(v, [start], 0, cfg.searchDepth) && CleanFrom(v, 1)
    {
    }
    forall v | v in RootVisits(cfg, start, root, isOpus)
      ensures |v.folders| == v.depth + 1 && v.folders[0] == start
      ensures cfg.saveInplace ==> Paths.Basename(OutputBase(cfg, v)) == "__" + Strings.JoinWith("_", v.folders)
      ensures !cfg.saveInplace ==> Paths.Basename(OutputBase(cfg, v)) == Strings.JoinWith("_", v.folders)
    {
      OutputNameOfVisit(cfg, start, v);
    }
  }

  /**
   * Running the converter twice without update: the second run ends
   * normally, writes no file and saves no folder.
   */
  lemma ConvertTwiceWritesNothing<V>(cfg: Config, cwd: string, root: seq<Node>, env: Env<V>, existing: set<string>)
    requires !cfg.update
    requires Convert(cfg, cwd, root, env, existing).Ok?
    requires Convert(cfg, cwd, root, env, existing).value.status.Running?
    ensures var first := Convert(cfg, cwd, root, env, existing).value;
      var second := Convert(cfg, cwd, root, env, first.existing);
      && second.Ok?
      && second.value.status.Running?
      && second.value.existing == first.existing
      && forall k :: 0 <= k < |second.value.log| ==> !second.value.log[k].outcome.Saved?
  {
    var first := Convert(cfg, cwd, root, env, existing).value;
    var vs := RootVisits(cfg, StartName(cfg.directory, cwd), root, env.isOpus);
    SecondPassWritesNothing(cfg, env, vs, Start(existing), Start(first.existing));
  }
}
