/**
 * The folder traversal of `recursiveWalk`: which folders it converts, in
 * which order, with which folder-name stack, and where their output goes.
 */
module Traversal {
  import opened Settings
  import Strings
  import Paths

  /** A directory entry: a regular file, or a folder with its listing in `os.listdir` order. */
  datatype Node = File(name: string) | Folder(name: string, entries: seq<Node>)

  /** A folder the walk converts: its path, the folder-name stack, its depth and its OPUS files. */
  datatype Visit = Visit(path: string, folders: seq<string>, depth: nat, files: seq<string>)

  /** True when no entry name in the tree contains '/', as `os.listdir` guarantees. */
  predicate WellNamed(entries: seq<Node>)
    decreases entries
  {
    forall k :: 0 <= k < |entries| ==>
      '/' !in entries[k].name && (entries[k].Folder? ==> WellNamed(entries[k].entries))
  }

  /** The paths of the OPUS files directly inside a folder, in listing order. */
  function OpusFiles(entries: seq<Node>, path: string, isOpus: string -> bool): (files: seq<string>)
    ensures |files| <= |entries|
  {
    if |entries| == 0 then []
    else
      var last := entries[|entries| - 1];
      var p := Paths.Join(path, last.name);
      OpusFiles(entries[..|entries| - 1], path, isOpus) + (if last.File? && isOpus(p) then [p] else [])
  }

  /**
   * Every OPUS file of a folder lies directly in it: `os.path.split` of the
   * file's path gives back the folder's path, without trailing slashes.
   */
  lemma {:induction false} OpusFilesInFolder(entries: seq<Node>, path: string, isOpus: string -> bool, j: nat)
    requires WellNamed(entries)
    requires j < |path| && path[j] != '/'
    ensures forall k :: 0 <= k < |OpusFiles(entries, path, isOpus)| ==>
      Paths.Head(OpusFiles(entries, path, isOpus)[k]) == Paths.RStrip(path, '/')
  {
    if |entries| > 0 {
      var init := entries[..|entries| - 1];
      var last := entries[|entries| - 1];
      assert WellNamed(init);
      OpusFilesInFolder(init, path, isOpus, j);
      Paths.HeadOfJoin(path, last.name, j);
    }
  }

  /** The folder's own visit, when it holds OPUS files. */
  function Own(entries: seq<Node>, path: string, folders: seq<string>, depth: nat, isOpus: string -> bool): seq<Visit>
  {
    var files := OpusFiles(entries, path, isOpus);
    if |files| > 0 then [Visit(path, folders, depth, files)] else []
  }

  /**
   * The folders the walk converts, in the order it converts them: nothing
   * beyond the depth bound; the folder itself, then the walks of its
   * subfolders in listing order, each with its name pushed on the stack.
   */
  function Visits(entries: seq<Node>, path: string, folders: seq<string>, depth: nat,
                  maxDepth: int, isOpus: string -> bool): seq<Visit>
    decreases entries, 1
  {
    if depth > maxDepth then []
    else Own(entries, path, folders, depth, isOpus) + SubVisits(entries, |entries|, path, folders, depth, maxDepth, isOpus)
  }

  /** The visits below the first `n` entries of a folder, in listing order. */
  function SubVisits(entries: seq<Node>, n: nat, path: string, folders: seq<string>, depth: nat,
                     maxDepth: int, isOpus: string -> bool): seq<Visit>
    requires n <= |entries|
    decreases entries, 0, n
  {
    if n == 0 then []
    else SubVisits(entries, n - 1, path, folders, depth, maxDepth, isOpus)
         + ChildVisits(entries[n - 1], path, folders, depth, maxDepth, isOpus)
  }

  /** The visits of one entry: none for a file, the folder's walk one level down. */
  function ChildVisits(e: Node, path: string, folders: seq<string>, depth: nat,
                       maxDepth: int, isOpus: string -> bool): seq<Visit>
    decreases e, 2
  {
    if e.File? then []
    else Visits(e.entries, Paths.Join(path, e.name), folders + [e.name], depth + 1, maxDepth, isOpus)
  }

  /**
   * A visit reached from a folder at `depth` with stack `folders`: within the
   * bound, holding OPUS files, one name pushed per level below.
   */
  predicate Reached(v: Visit, folders: seq<string>, depth: nat, maxDepth: int)
  {
    && depth <= v.depth && v.depth <= maxDepth && |v.files| > 0
    && |v.folders| == |folders| + (v.depth - depth) && v.folders[..|folders|] == folders
  }

  /** True when the names pushed after the first `from` contain no '/'. */
  predicate CleanFrom(v: Visit, from: nat)
  {
    forall k :: from <= k < |v.folders| ==> '/' !in v.folders[k]
  }

  /**
   * Every visit of a walk lies within the depth bound, holds OPUS files and
   * extends the stack by one name per level; from a well-named tree the
   * pushed names contain no '/'.
   */
  lemma {:induction false} VisitsShape(entries: seq<Node>, path: string, folders: seq<string>, depth: nat,
                                       maxDepth: int, isOpus: string -> bool)
    ensures forall v :: v in Visits(entries, path, folders, depth, maxDepth, isOpus) ==>
      Reached(v, folders, depth, maxDepth)
    ensures WellNamed(entries) ==>
      forall v :: v in Visits(entries, path, folders, depth, maxDepth, isOpus) ==> CleanFrom(v, |folders|)
    decreases entries, 1
  {
    if depth <= maxDepth {
      SubVisitsShape(entries, |entries|, path, folders, depth, maxDepth, isOpus);
    }
  }

  /** The visits below a folder's entries lie strictly deeper than the folder. */
  lemma {:induction false} SubVisitsShape(entries: seq<Node>, n: nat, path: string, folders: seq<string>, depth: nat,
                                          maxDepth: int, isOpus: string -> bool)
    requires n <= |entries|
    ensures forall v :: v in SubVisits(entries, n, path, folders, depth, maxDepth, isOpus) ==>
      Reached(v, folders, depth, maxDepth) && v.depth > depth
    ensures WellNamed(entries) ==>
      forall v :: v in SubVisits(entries, n, path, folders, depth, maxDepth, isOpus) ==> CleanFrom(v, |folders|)
    decreases entries, 0, n
  {
    if n > 0 {
      SubVisitsShape(entries, n - 1, path, folders, depth, maxDepth, isOpus);
      ChildVisitsShape(entries[n - 1], path, folders, depth, maxDepth, isOpus);
    }
  }

  /** The visits of one subfolder lie strictly deeper and push its name first. */
  lemma {:induction false} ChildVisitsShape(e: Node, path: string, folders: seq<string>, depth: nat,
                                            maxDepth: int, isOpus: string -> bool)
    ensures forall v :: v in ChildVisits(e, path, folders, depth, maxDepth, isOpus) ==>
      Reached(v, folders, depth, maxDepth) && v.depth > depth
    ensures e.Folder? && '/' !in e.name && WellNamed(e.entries) ==>
      forall v :: v in ChildVisits(e, path, folders, depth, maxDepth, isOpus) ==> CleanFrom(v, |folders|)
    decreases e, 2
  {
    if e.Folder? {
      var pushed := folders + [e.name];
      VisitsShape(e.entries, Paths.Join(path, e.name), pushed, depth + 1, maxDepth, isOpus);
      forall v | v in ChildVisits(e, path, folders, depth, maxDepth, isOpus)
        ensures |v.folders| > |folders| && v.folders[..|folders|] == folders
        ensures '/' !in e.name && WellNamed(e.entries) ==> CleanFrom(v, |folders|)
      {
        assert v in Visits(e.entries, Paths.Join(path, e.name), pushed, depth + 1, maxDepth, isOpus);
        assert Reached(v, pushed, depth + 1, maxDepth);
        assert v.folders[..|folders|] == v.folders[..|pushed|][..|folders|];
        assert v.folders[|folders|] == v.folders[..|pushed|][|folders|];
      }
    }
  }

  /**
   * A folder is converted before anything below it: the walk starts with the
   * folder's own visit exactly when it is within the bound and holds OPUS
   * files, and every later visit lies deeper.
   */
  lemma FolderBeforeSubfolders(entries: seq<Node>, path: string, folders: seq<string>, depth: nat,
                               maxDepth: int, isOpus: string -> bool)
    ensures var r := Visits(entries, path, folders, depth, maxDepth, isOpus);
      && (forall i :: 0 < i < |r| ==> r[i].depth > depth)
      && ((|r| > 0 && r[0].depth == depth) <==> (depth <= maxDepth && |OpusFiles(entries, path, isOpus)| > 0))
      && (|r| > 0 && r[0].depth == depth ==> r[0] == Visit(path, folders, depth, OpusFiles(entries, path, isOpus)))
  {
    var r := Visits(entries, path, folders, depth, maxDepth, isOpus);
    if depth <= maxDepth {
      var own := Own(entries, path, folders, depth, isOpus);
      var below := SubVisits(entries, |entries|, path, folders, depth, maxDepth, isOpus);
      SubVisitsShape(entries, |entries|, path, folders, depth, maxDepth, isOpus);
      assert forall i :: |own| <= i < |r| ==> r[i] == below[i - |own|] && below[i - |own|] in below;
    }
  }

  /** A folder at or beyond the bound has no visits below it. */
  lemma {:induction false} NothingBelowBound(entries: seq<Node>, n: nat, path: string, folders: seq<string>,
                                             depth: nat, maxDepth: int, isOpus: string -> bool)
    requires n <= |entries| && depth >= maxDepth
    ensures SubVisits(entries, n, path, folders, depth, maxDepth, isOpus) == []
    decreases n
  {
    if n > 0 {
      NothingBelowBound(entries, n - 1, path, folders, depth, maxDepth, isOpus);
      var e := entries[n - 1];
      if e.Folder? {
        assert Visits(e.entries, Paths.Join(path, e.name), folders + [e.name], depth + 1, maxDepth, isOpus) == [];
      }
    }
  }

  /** With depth bound 0 only the start folder itself can be converted. */
  lemma DepthZeroOnlyRoot(entries: seq<Node>, path: string, folders: seq<string>, isOpus: string -> bool)
    ensures |Visits(entries, path, folders, 0, 0, isOpus)| <= 1
    ensures forall v :: v in Visits(entries, path, folders, 0, 0, isOpus) ==> v.path == path && v.folders == folders
  {
    NothingBelowBound(entries, |entries|, path, folders, 0, 0, isOpus);
    assert Visits(entries, path, folders, 0, 0, isOpus) == Own(entries, path, folders, 0, isOpus) + [];
  }

  /** A negative depth bound converts nothing. */
  lemma NegativeDepthVisitsNothing(entries: seq<Node>, path: string, folders: seq<string>,
                                   maxDepth: int, isOpus: string -> bool)
    requires maxDepth < 0
    ensures Visits(entries, path, folders, 0, maxDepth, isOpus) == []
  {
  }

  /** The output base name of a visit: `'_'.join(folders)`, under the output folder or `__`-prefixed in place. */
  function OutputBase(cfg: Config, v: Visit): string
  {
    if cfg.saveInplace then Paths.Join(v.path, "__" + Strings.JoinWith("_", v.folders))
    else Paths.Join(cfg.outputDirectory, Strings.JoinWith("_", v.folders))
  }

  /**
   * The output lands inside its folder (in place) or the output folder, and
   * its file name is the underscore-joined stack, `__`-prefixed in place.
   */
  lemma OutputPlacement(cfg: Config, v: Visit)
    requires CleanFrom(v, 0)
    ensures var out := OutputBase(cfg, v);
      && (cfg.saveInplace ==>
            Paths.Basename(out) == "__" + Strings.JoinWith("_", v.folders) && out[..|v.path|] == v.path)
      && (!cfg.saveInplace ==>
            Paths.Basename(out) == Strings.JoinWith("_", v.folders) &&
            out[..|cfg.outputDirectory|] == cfg.outputDirectory)
  {
    var name := Strings.JoinWith("_", v.folders);
    Strings.JoinWithAvoids("_", v.folders, '/');
    if cfg.saveInplace {
      assert '/' !in "__" + name;
      Paths.BasenameOfJoin(v.path, "__" + name);
    } else {
      Paths.BasenameOfJoin(cfg.outputDirectory, name);
    }
  }
}
