/** The per-sample metadata table derived from file names (`parseFileNames`). */
module Markup {
  import opened Errors
  import Strings
  import Paths

  /** The placeholder that pads short rows when the table is fixed. */
  const Sentinel: string := "Empty"

  /** A file's sample label: its base name with the extension stripped. */
  function Label(path: string): (stem: string)
    ensures '/' !in stem
    ensures |stem| <= |Paths.Basename(path)| && stem == Paths.Basename(path)[..|stem|]
  {
    Paths.StripExtension(Paths.Basename(path))
  }

  /** A file `stem.ext` in any folder is labelled `stem`, for a stem that does not start with a dot. */
  lemma LabelOfFile(dir: string, stem: string, ext: string)
    requires '/' !in stem && '/' !in ext && '.' !in ext
    requires |stem| > 0 && stem[0] != '.'
    ensures Label(Paths.Join(dir, stem + "." + ext)) == stem
  {
    Paths.BasenameOfJoin(dir, stem + "." + ext);
    Paths.StripExtensionOf(stem, ext);
  }

  /** `A_1.0` under any folder is labelled `A_1`. */
  lemma LabelExample(dir: string)
    ensures Label(Paths.Join(dir, "A_1.0")) == "A_1"
  {
    assert "A_1" + "." + "0" == "A_1.0";
    LabelOfFile(dir, "A_1", "0");
  }

  /**
   * One split-mode row: the full label, then its parts on `sep`, without the
   * last part when `dropLast` is set.
   */
  function SplitRow(name: string, sep: string, dropLast: bool): (row: seq<string>)
    requires |sep| > 0
    ensures |row| >= 1 && row[0] == name
    ensures !dropLast ==> Strings.JoinWith(sep, row[1..]) == name
    // without dropLast, the columns after the label are exactly its split
    ensures !dropLast ==> row[1..] == Strings.Split(name, sep)
    ensures |row| == |Strings.Split(name, sep)| + (if dropLast then 0 else 1)
    // with dropLast, the kept parts followed by the dropped one are the whole split
    ensures dropLast ==> row[1..] + [Strings.Split(name, sep)[|Strings.Split(name, sep)| - 1]] == Strings.Split(name, sep)
  {
    var parts := Strings.Split(name, sep);
    var kept := if dropLast then parts[..|parts| - 1] else parts;
    assert ([name] + kept)[1..] == kept;
    assert dropLast ==> kept + [parts[|parts| - 1]] == parts;
    [name] + kept
  }

  /** `A_1` gives `[A_1, A, 1]`, or `[A_1, A]` when the last part is dropped. */
  lemma SplitRowExample()
    ensures SplitRow("A_1", "_", false) == ["A_1", "A", "1"]
    ensures SplitRow("A_1", "_", true) == ["A_1", "A"]
  {
    Strings.SplitExample();
  }

  /** True when every row has the length of the first. */
  predicate Rectangular(rows: seq<seq<string>>)
  {
    forall i :: 0 <= i < |rows| ==> |rows[i]| == |rows[0]|
  }

  /** The length of the longest row (0 for no rows). */
  function MaxWidth(rows: seq<seq<string>>): (w: nat)
    ensures forall i :: 0 <= i < |rows| ==> |rows[i]| <= w
    ensures |rows| > 0 ==> exists i :: 0 <= i < |rows| && |rows[i]| == w
  {
    if |rows| == 0 then 0
    else
      var w := MaxWidth(rows[..|rows| - 1]);
      var last := |rows[|rows| - 1]|;
      assert forall i :: 0 <= i < |rows| - 1 ==> rows[..|rows| - 1][i] == rows[i];
      if last > w then last else w
  }

  /** `n` copies of the sentinel. */
  function Fill(n: nat): (cells: seq<string>)
    ensures |cells| == n && forall k :: 0 <= k < n ==> cells[k] == Sentinel
  {
    seq(n, _ => Sentinel)
  }

  /** Indices of the rows strictly shorter than `w`. */
  function ShortRows(rows: seq<seq<string>>, w: nat): set<nat>
  {
    set i: nat | i < |rows| && |rows[i]| < w
  }

  /** Every row padded on the right with the sentinel up to width `w`. */
  function Padded(rows: seq<seq<string>>, w: nat): (fixed: seq<seq<string>>)
    requires forall i :: 0 <= i < |rows| ==> |rows[i]| <= w
    ensures |fixed| == |rows|
    ensures forall i :: 0 <= i < |rows| ==> |fixed[i]| == w && fixed[i][..|rows[i]|] == rows[i]
    ensures forall i, k :: 0 <= i < |rows| && |rows[i]| <= k < w ==> fixed[i][k] == Sentinel
  {
    seq(|rows|, i requires 0 <= i < |rows| => rows[i] + Fill(w - |rows[i]|))
  }

  /** Indices below `n` of the rows strictly shorter than `w`. */
  function ShortBelow(rows: seq<seq<string>>, w: nat, n: nat): set<nat>
    requires n <= |rows|
  {
    set i: nat | i < n && |rows[i]| < w
  }

  /**
   * The converter's padding loop: extend each row to `w` and count the rows
   * that needed it.
   */
  method PadRows(rows: seq<seq<string>>, w: nat) returns (fixed: seq<seq<string>>, count: nat)
    requires forall i :: 0 <= i < |rows| ==> |rows[i]| <= w
    ensures fixed == Padded(rows, w)
    ensures count == |ShortRows(rows, w)|
  {
    fixed := [];
    count := 0;
    for i := 0 to |rows|
      invariant |fixed| == i
      invariant forall j :: 0 <= j < i ==> fixed[j] == rows[j] + Fill(w - |rows[j]|)
      invariant count == |ShortBelow(rows, w, i)|
    {
      ShortBelowStep(rows, w, i);
      if w - |rows[i]| > 0 {
        count := count + 1;
      }
      fixed := fixed + [rows[i] + Fill(w - |rows[i]|)];
    }
    assert ShortBelow(rows, w, |rows|) == ShortRows(rows, w);
  }

  /** Extending the range by one index adds that index exactly when its row is short. */
  lemma ShortBelowStep(rows: seq<seq<string>>, w: nat, n: nat)
    requires n < |rows|
    ensures |rows[n]| < w ==> |ShortBelow(rows, w, n + 1)| == |ShortBelow(rows, w, n)| + 1
    ensures |rows[n]| >= w ==> ShortBelow(rows, w, n + 1) == ShortBelow(rows, w, n)
  {
    if |rows[n]| < w {
      assert ShortBelow(rows, w, n + 1) == ShortBelow(rows, w, n) + {n};
    }
  }

  /** The index set `0..n-1`, which has `n` elements. */
  function Indices(n: nat): (ix: set<nat>)
    ensures |ix| == n && forall i: nat :: i in ix <==> i < n
  {
    if n == 0 then {} else Indices(n - 1) + {n - 1}
  }

  /** A subset is no larger than its superset. */
  lemma SubsetSize(a: set<nat>, b: set<nat>)
    requires a <= b
    ensures |a| <= |b|
  {
    assert b == a + (b - a);
  }

  /** The metadata table and the number of rows padded to make it rectangular. */
  datatype Table = Table(rows: seq<seq<string>>, padded: nat)

  /** The split-mode rows of `files`, in order. */
  function SplitRows(files: seq<string>, sep: string, dropLast: bool): (rows: seq<seq<string>>)
    requires |sep| > 0
    ensures |rows| == |files|
    ensures forall i :: 0 <= i < |files| ==> rows[i] == SplitRow(Label(files[i]), sep, dropLast)
  {
    seq(|files|, i requires 0 <= i < |files| => SplitRow(Label(files[i]), sep, dropLast))
  }

  /**
   * The metadata table of one folder's files. Without splitting each row is
   * the single label; with splitting rows that disagree in length are padded
   * (fix mode) or rejected with an assertion naming the first file's folder.
   */
  function ParseFileNames(files: seq<string>, split: bool, sep: string, dropLast: bool, fixTable: bool)
    : (r: Result<Table, Failure>)
    // without splitting: one single-column row per file, holding its label
    ensures !split ==> (r.Ok? && r.value.padded == 0 && |r.value.rows| == |files| &&
      forall i :: 0 <= i < |files| ==> r.value.rows[i] == [Label(files[i])])
    // an empty separator cannot split
    ensures split && |sep| == 0 ==> r == Err(EmptySeparator)
    // rows of equal length pass through unchanged
    ensures split && |sep| > 0 && Rectangular(SplitRows(files, sep, dropLast)) ==>
      r == Ok(Table(SplitRows(files, sep, dropLast), 0))
    // unequal rows without fixing: the folder's names cannot be split
    ensures split && |sep| > 0 && !Rectangular(SplitRows(files, sep, dropLast)) && !fixTable ==>
      |files| > 0 && r == Err(UnsplittableNames(Paths.Head(files[0])))
    // unequal rows with fixing: padded to the longest row, short rows counted
    ensures split && |sep| > 0 && !Rectangular(SplitRows(files, sep, dropLast)) && fixTable ==>
      var rows := SplitRows(files, sep, dropLast);
      var w := MaxWidth(rows);
      r.Ok? && r.value.rows == Padded(rows, w) && r.value.padded == |ShortRows(rows, w)| &&
      0 < r.value.padded < |files|
    // every table is rectangular and starts each row with the file's label
    ensures r.Ok? ==> (|r.value.rows| == |files| && Rectangular(r.value.rows) &&
      forall i :: 0 <= i < |files| ==> |r.value.rows[i]| >= 1 && r.value.rows[i][0] == Label(files[i]))
  {
    if !split then
      Ok(Table(seq(|files|, i requires 0 <= i < |files| => [Label(files[i])]), 0))
    else if |sep| == 0 then
      Err(EmptySeparator)
    else
      var rows := SplitRows(files, sep, dropLast);
      if Rectangular(rows) then
        Ok(Table(rows, 0))
      else if fixTable then
        var w := MaxWidth(rows);
        FixedCountBounds(rows, w);
        Ok(Table(Padded(rows, w), |ShortRows(rows, w)|))
      else
        Err(UnsplittableNames(Paths.Head(files[0])))
  }

  /**
   * For a non-rectangular table and its longest width, at least one row is
   * padded and at least one (a longest) is not.
   */
  lemma FixedCountBounds(rows: seq<seq<string>>, w: nat)
    requires !Rectangular(rows) && w == MaxWidth(rows)
    ensures 0 < |ShortRows(rows, w)| < |rows|
  {
    var i :| 0 <= i < |rows| && |rows[i]| != |rows[0]|;
    var m :| 0 <= m < |rows| && |rows[m]| == w;
    var short := if |rows[i]| < w then i else 0;
    assert short in ShortRows(rows, w);
    assert m !in ShortRows(rows, w);
    assert ShortRows(rows, w) <= Indices(|rows|) - {m};
    SubsetSize(ShortRows(rows, w), Indices(|rows|) - {m});
  }

  /** The first '_' in `a_b` is the one after `a`, when `a` has none. */
  lemma FindSeparator(a: string, b: string)
    requires '_' !in a
    ensures Strings.FindFrom(a + "_" + b, "_", 0) == |a|
  {
    var s := a + "_" + b;
    assert s[|a|..|a| + 1] == "_";
    assert Strings.OccursAt(s, "_", |a|);
    forall j: nat | j < |a|
      ensures !Strings.OccursAt(s, "_", j)
    {
      assert s[j..j + 1] == [a[j]];
    }
  }

  /** A name without '_' has no separator to find. */
  lemma FindNoSeparator(a: string)
    requires '_' !in a
    ensures Strings.FindFrom(a, "_", 0) == -1
  {
    var r := Strings.FindFrom(a, "_", 0);
    if r >= 0 {
      assert a[r..r + 1] == [a[r]];
    }
  }

  /** Splitting a name with exactly one separator gives the two sides. */
  lemma SplitOnce(a: string, b: string)
    requires '_' !in a && '_' !in b
    ensures Strings.Split(a + "_" + b, "_") == [a, b]
  {
    var s := a + "_" + b;
    FindSeparator(a, b);
    assert s[..|a|] == a && s[|a| + 1..] == b;
    FindNoSeparator(b);
  }

  /** A name without the separator is its own only part. */
  lemma SplitNone(a: string)
    requires '_' !in a
    ensures Strings.Split(a, "_") == [a]
  {
    FindNoSeparator(a);
  }

  /** The split row of a label with one '_' is the label and its two sides. */
  lemma SplitRowOnce(name: string, left: string, right: string)
    requires '_' !in left && '_' !in right && name == left + "_" + right
    ensures SplitRow(name, "_", false) == [name, left, right]
  {
    SplitOnce(left, right);
  }

  /** The split row of a label without '_' is the label twice. */
  lemma SplitRowNone(name: string)
    requires '_' !in name
    ensures SplitRow(name, "_", false) == [name, name]
  {
    SplitNone(name);
  }

  /** The split rows of three files, row by row. */
  lemma ThreeRows(a: string, b: string, c: string, ra: seq<string>, rb: seq<string>, rc: seq<string>)
    requires SplitRow(Label(a), "_", false) == ra
    requires SplitRow(Label(b), "_", false) == rb
    requires SplitRow(Label(c), "_", false) == rc
    ensures SplitRows([a, b, c], "_", false) == [ra, rb, rc]
  {
    var files := [a, b, c];
    var rows := SplitRows(files, "_", false);
    assert files[0] == a && files[1] == b && files[2] == c;
    ThreeItems(rows, ra, rb, rc);
  }

  /** A sequence of three items is the display of its items. */
  lemma ThreeItems<T>(s: seq<T>, x: T, y: T, z: T)
    requires |s| == 3 && s[0] == x && s[1] == y && s[2] == z
    ensures s == [x, y, z]
  {
  }

  /** The split rows of files labelled `A_1`, `A_2` and `B`: lengths 3, 3 and 2. */
  lemma ExampleRows(a: string, b: string, c: string)
    requires Label(a) == "A_1" && Label(b) == "A_2" && Label(c) == "B"
    ensures SplitRows([a, b, c], "_", false) == [["A_1", "A", "1"], ["A_2", "A", "2"], ["B", "B"]]
  {
    SplitRowOnce("A_1", "A", "1");
    SplitRowOnce("A_2", "A", "2");
    SplitRowNone("B");
    ThreeRows(a, b, c, ["A_1", "A", "1"], ["A_2", "A", "2"], ["B", "B"]);
  }

  /**
   * Files labelled `A_1`, `A_2` and `B` (for instance `A_1.0`, `A_2.0`, `B.0`)
   * split into rows of lengths 3, 3 and 2: fixing pads the short row with one
   * sentinel and reports one padded row; without fixing the names are rejected.
   */
  lemma ReconcileExample(a: string, b: string, c: string)
    requires Label(a) == "A_1" && Label(b) == "A_2" && Label(c) == "B"
    ensures ParseFileNames([a, b, c], true, "_", false, true) ==
      Ok(Table([["A_1", "A", "1"], ["A_2", "A", "2"], ["B", "B", Sentinel]], 1))
    ensures ParseFileNames([a, b, c], true, "_", false, false) == Err(UnsplittableNames(Paths.Head(a)))
  {
    ExampleRows(a, b, c);
    PadExample();
  }

  /** Padding rows of lengths 3, 3 and 2 fills the last with one sentinel and counts one row. */
  lemma PadExample()
    ensures var rows := [["A_1", "A", "1"], ["A_2", "A", "2"], ["B", "B"]];
      && !Rectangular(rows)
      && MaxWidth(rows) == 3
      && Padded(rows, 3) == [["A_1", "A", "1"], ["A_2", "A", "2"], ["B", "B", Sentinel]]
      && |ShortRows(rows, 3)| == 1
  {
    var rows := [["A_1", "A", "1"], ["A_2", "A", "2"], ["B", "B"]];
    assert |rows[2]| != |rows[0]|;
    assert rows[..2][..1] == rows[..1];
    assert rows[..2] == rows[..3][..2];
    assert ShortRows(rows, 3) == {2};
    assert Fill(0) == [] && Fill(1) == [Sentinel];
    assert Padded(rows, 3)[0] == rows[0] + [];
    assert Padded(rows, 3)[1] == rows[1] + [];
    assert Padded(rows, 3)[2] == ["B", "B"] + [Sentinel];
    var expected := [["A_1", "A", "1"], ["A_2", "A", "2"], ["B", "B", Sentinel]];
    assert expected[2] == ["B", "B"] + [Sentinel];
    assert forall i :: 0 <= i < 3 ==> Padded(rows, 3)[i] == expected[i];
  }
}
