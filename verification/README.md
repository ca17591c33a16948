# OPUS folder converter: a verified model

`opus_converter.py` walks a directory tree. Each folder that holds OPUS
spectrometer files becomes one output dataset: a spectra matrix, a
wavenumber axis, and a markup table derived from the sample file names. The
dataset is written as `.mat`, `.csv` or `.npy`. This project models the
converter's decision logic in Dafny and proves what it promises. That logic
covers:

- the markup builder (`parseFileNames`);
- the absorbance aggregator (`readOpusFiles`);
- the names of the files a save writes, and the existence gate that skips
  folders already converted (`save`, `isResultExists`, `processOpusFiles`);
- the bounded pre-order walk with its shared folder-name stack
  (`recursiveWalk`);
- the start-up option check.

Modules, one per file:

| module | file | contents |
|---|---|---|
| `Errors` | errors.dfy | `Result`, and the failures: two caught assertions (inconsistent wavenumbers, unsplittable names) and two uncaught errors (no absorbance block, empty separator) |
| `Strings` | strings.dfy | `str.split` with a non-empty separator, `'sep'.join`, decimal rendering of a count |
| `Paths` | paths.dfy | the POSIX `os.path` pieces used: `basename`, `split()[0]`, `join`, and the root of `splitext` |
| `Settings` | settings.dfy | the command-line options as a record, and the one-file/csv rule |
| `Spectra` | spectra.dfy | decoded blocks, the absorbance filter, the wavenumber consistency check |
| `Markup` | markup.dfy | labels, split rows, padding with `Empty`, the rejection of ragged tables |
| `Artifacts` | artifacts.dfy | the file names a save writes, the name the existence check looks at, the one-file csv header |
| `Pipeline` | pipeline.dfy | loading one folder, and one folder's outcome: already exists, rejected, saved or crashed |
| `Traversal` | traversal.dfy | the directory tree, the folders the walk converts in pre-order, and output placement |
| `Run` | run.dfy | a run as a fold of the per-folder step over the visited folders: the set of existing files, a log, and a stop on an uncaught error |
| `Converter` | converter.dfy | the stack-based walk (stated for any per-folder step), the start folder name, and the program entry |

Things outside the model become parameters:

- The OPUS decoder (`opusFC.listContents` with `getOpusData`) is a function
  from a file path to its list of `(kind, x, y)` blocks.
- The OPUS file test (`isOpusFile`) is a predicate on paths.
- The file system is a finite tree of `File` and `Folder` entries, in
  listing order, plus the set of file names already present.
- The current working folder is a string.
- Spectral values have an opaque element type `V`, which is compared only
  for equality.

## Model

| member | source | states |
|---|---|---|
| Strings.Split | opus_converter.py:40 | splitting on a non-empty separator gives at least one part, no part contains the separator, and joining the parts with it gives back the label. When there are several parts, the first ends at the leftmost occurrence of the separator |
| Strings.SplitRest | opus_converter.py:40 | after the first part and its separator, the remaining parts are the split of the rest of the label, so each later part also ends at the next leftmost occurrence |
| Strings.NatToString | opus_converter.py:76 | the rendering of a column number is a non-empty digit string that parses back to the same number and has no leading zero |
| Paths.Basename | opus_converter.py:36 | a base name contains no '/', is a suffix of the path, and is the whole path when there is no '/' |
| Paths.BasenameAfterSeparator | opus_converter.py:36 | the base name is the longest suffix without '/': when it is not the whole path, a '/' comes right before it |
| Paths.BasenameOfJoin | opus_converter.py:140-141 | the base name of `join(dir, name)` is `name` for any entry name without '/', so the name pushed at line 156 is the listed entry's name |
| Paths.StripExtensionOf | opus_converter.py:36 | stripping the extension of `stem.ext` gives `stem` when the stem has a character other than '.' and the extension has no dot |
| Paths.BasenameOfTrailingSlash | opus_converter.py:204 | the tail of a path that ends in '/' is empty |
| Paths.Join | opus_converter.py:140 | the definition of `os.path.join` for two components: an absolute second part replaces the first, and otherwise the result starts with the first part. BasenameOfJoin and HeadOfJoin state what the walk relies on |
| Paths.HeadOfJoin | opus_converter.py:30 | the head `os.path.split` gives for `join(dir, name)` is `dir` without trailing slashes, for a '/'-free name and a `dir` with some character other than '/' |
| Traversal.OpusFilesInFolder | opus_converter.py:140-142 | for a folder path with a character other than '/', each OPUS file's head is that folder path without trailing slashes. So the folder named by the assertions at lines 30 and 56 is the folder being converted |
| Markup.Label | opus_converter.py:36 | the definition of a file's label as `splitext(basename(f))[0]`: it has no '/' and is a prefix of the base name. LabelOfFile characterises it |
| Markup.LabelOfFile | opus_converter.py:36 | a file `stem.ext` in any folder is labelled `stem`, when the stem is non-empty, has no '/' and does not start with '.', and the extension has neither '.' nor '/'. For example `a.b.c` is labelled `a.b` |
| Markup.LabelExample | opus_converter.py:36 | `A_1.0` is labelled `A_1` |
| Markup.SplitRow | opus_converter.py:40-44 | a split row starts with the full label. Without drop-last, the other columns are exactly the label's parts on the separator, and joining them with it gives back the label. With drop-last, the other columns followed by the last part are exactly the parts, so only the last part is dropped. Its length is the part count plus one, or the part count with drop-last |
| Markup.SplitRowExample | opus_converter.py:40-44 | `A_1` on `_` gives `[A_1, A, 1]`, and `[A_1, A]` with drop-last |
| Markup.MaxWidth | opus_converter.py:48 | no row is longer than the result, and some row reaches it when there is a row |
| Markup.Padded | opus_converter.py:50-52 | every padded row has the target width, keeps its original cells as a prefix, and holds `Empty` in every added cell |
| Markup.PadRows | opus_converter.py:47-53 | the padding loop produces the padded table, and its counter equals the number of rows strictly shorter than the width |
| Markup.ParseFileNames | opus_converter.py:35-62 | without split: one single-column row per file holding its label. With split: an empty separator fails; equal-length rows pass through unchanged; ragged rows without fix-table fail naming the first file's folder; ragged rows with fix-table are padded to the longest row, and the count is the number of short rows, between 1 and one less than the row count. Every accepted table is rectangular and row i starts with file i's label |
| Markup.FixedCountBounds | opus_converter.py:46-53 | when the rows are ragged, at least one row is padded and at least one (a longest) is not |
| Markup.ReconcileExample | opus_converter.py:46-56 | files labelled `A_1`, `A_2`, `B`: with fix-table the third row becomes `[B, B, Empty]` and one fix is reported; without fix-table the names are rejected for the first file's folder |
| Markup.PadExample | opus_converter.py:47-52 | rows of lengths 3, 3, 2 are ragged, have width 3, pad to `[B, B, Empty]`, and count one short row |
| Spectra.AbsorbanceOf | opus_converter.py:22-23 | exactly the `AB` blocks are kept: every kept block is an `AB` block of the list, and every `AB` block of the list is kept. A single block is kept exactly when it is an `AB` block |
| Spectra.AbsorbanceOfConcat | opus_converter.py:21-25 | the filter keeps the order: the kept blocks of `a + b` are those of `a` followed by those of `b` |
| Spectra.ReadOpusFiles | opus_converter.py:15-32 | the definition of the aggregator's result: the uncaught failure with no absorbance block, the assertion when the x-axes differ, and otherwise the y rows with the first x-axis. ReadOpusFilesLoop proves that the converter's loop computes it |
| Spectra.ReadOpusFilesLoop | opus_converter.py:15-32 | no absorbance block at all gives the uncaught failure. The result is Ok exactly when every kept x-axis equals the first; it then holds the first x-axis and the y rows in file-then-block order. Otherwise the failure is the inconsistent-wavenumber assertion naming the first file's folder |
| Spectra.OneBlockPerFileAligns | opus_converter.py:19-26 | when every file holds exactly one `AB` block, the batch has one block per file and block i comes from file i |
| Artifacts.CheckedName | opus_converter.py:109-117 | the name `isResultExists` looks for extends the output base name. CheckedNameWrittenUnlessOnefileNpy relates it to the files a save writes |
| Artifacts.WrittenNames | opus_converter.py:83-102 | a save writes at least one file. The definition lists the names for each format and the one-file case; CheckedNameWrittenUnlessOnefileNpy relates them to the checked name |
| Artifacts.CheckedNameWrittenUnlessOnefileNpy | opus_converter.py:83-117 | the name the existence check looks at is among the files the save writes, if and only if the options are not one-file with npy |
| Artifacts.CheckedNameIsWritten | opus_converter.py:109-117 | under options the start-up check accepts, the checked name is always one of the written files |
| Artifacts.HeaderDistinct | opus_converter.py:75-77 | no two header columns share a name |
| Pipeline.LoadAndProcess | opus_converter.py:65-69 | an aggregator failure is passed on unchanged. After the aggregator succeeds, a markup failure is passed on unchanged, and otherwise loading succeeds with the markup builder's rows. So loading succeeds exactly when both steps do. On success the wavenumbers are the first x-axis, shared by every kept block; the spectra are the y rows; and the markup has one row per file, is rectangular, and starts each row with that file's label |
| Pipeline.HeaderFitsMarkup | opus_converter.py:75-77 | for any accepted markup table of a folder with files, the one-file csv header sized from the first row has exactly as many names as every row has cells |
| Pipeline.LoadedRowsAlign | opus_converter.py:65-69 | with one `AB` block per file, spectra row i and markup row i both come from file i |
| Pipeline.ProcessFolder | opus_converter.py:120-133 | the folder is skipped exactly when the checked name exists and update is off. It is saved, writing exactly the save's file names, exactly when loading succeeds. It is rejected exactly when loading fails with a caught assertion. A failure outcome carries the loading failure |
| Pipeline.SkipReadsNothing | opus_converter.py:121-123 | a skipped folder's outcome does not depend on the decoder, and it writes nothing |
| Pipeline.SavedThenSkipped | opus_converter.py:109-133 | after a folder is saved, processing it again without update finds the result and skips it |
| Pipeline.ReprocessSavesNothing | opus_converter.py:109-133 | processing a folder again without update, once its first outcome's files are present, finds the result or rejects the folder again; it never saves or crashes if the first time did not crash |
| Traversal.Visits | opus_converter.py:136-158 | the definition of the folders the walk converts, in pre-order: none beyond the depth bound, then the folder itself when it holds OPUS files, then each subfolder's walk in listing order with its name pushed. VisitsShape, FolderBeforeSubfolders, NothingBelowBound and Converter.RecursiveWalk characterise it |
| Traversal.VisitsShape | opus_converter.py:136-158 | every converted folder lies within the inclusive depth bound and holds OPUS files; its stack extends the caller's by one name per level; from a tree whose entry names have no '/', the pushed names have none |
| Traversal.FolderBeforeSubfolders | opus_converter.py:144-158 | the walk begins with the folder's own conversion exactly when it is within the bound and holds OPUS files, and every later conversion is of a deeper folder |
| Traversal.NothingBelowBound | opus_converter.py:137-138 | at the depth bound, no subfolder is converted |
| Traversal.DepthZeroOnlyRoot | opus_converter.py:136-158 | with search depth 0 at most one folder is converted: the start folder, with the start stack |
| Traversal.NegativeDepthVisitsNothing | opus_converter.py:137-138 | a negative search depth converts nothing |
| Traversal.OutputBase | opus_converter.py:145-148 | the definition of a converted folder's output base: the `_`-joined stack, `__`-prefixed inside the folder in place, or under the output directory. OutputPlacement characterises it |
| Traversal.OutputPlacement | opus_converter.py:145-148 | the output base lies inside the folder (in place) or the output directory, and its file part is the `_`-joined stack, prefixed with `__` in place |
| Run.Step | opus_converter.py:144-152 | a stopped run is left untouched; otherwise one folder only adds files and appends to the log |
| Run.FoldStopped | opus_converter.py:125-133 | once a step that leaves stopped runs alone has stopped the run, no later folder changes anything |
| Run.Processing | opus_converter.py:120-133 | the converter's per-folder processing, as a walk step, leaves a stopped run alone |
| Run.RunFromAborted | opus_converter.py:125-133 | once an uncaught error is raised, no further folder is processed |
| Run.FoldLogsEach | opus_converter.py:144-158 | for any step that keeps a run going and logs the folder it is given, folding it over the folders keeps the run going, keeps the earlier log, and appends entry k for folder k, with its path and output base |
| Run.NoCrashLogsEveryFolder | opus_converter.py:125-158 | if no folder hits an uncaught error, the run reaches the end and logs one outcome per converted folder, in walk order: entry k names folder k's path and output base. So a rejected folder does not stop the walk |
| Run.AbortOnlyOnUncaught | opus_converter.py:132-133 | a run can only be stopped by a failure other than the caught assertions |
| Run.EmptyBatchAbortsRun | opus_converter.py:28-32 | a folder whose files hold no `AB` block stops the whole run when it is not skipped, and writes nothing |
| Run.SecondPassStep | opus_converter.py:109-133 | a folder converted in the first pass is skipped or rejected again in a second pass without update, and writes nothing |
| Run.SecondPassWritesNothing | opus_converter.py:109-133 | converting the same folders again without update adds no file and saves no folder |
| Converter.RecursiveWalk | opus_converter.py:136-158 | for any per-folder step that leaves a stopped run alone, the push/pop walk gives the same state as folding that step over the pre-order folder list. The stack is restored when the walk finishes, and keeps the caller's stack as a prefix when an uncaught error unwinds it |
| Converter.WalkListing | opus_converter.py:155-158 | walking the first n entries of a listing in order gives the fold over their visits, stopping once the run has stopped; the stack is restored unless the walk was unwound |
| Converter.WalkEntry | opus_converter.py:155-158 | a file entry changes nothing. A folder entry's name is pushed, the folder is walked one level down, and the name is popped unless an uncaught error unwound the walk |
| Converter.StartName | opus_converter.py:204 | the start name is the tail of `os.path.split` of the working folder for `.`, and of the directory argument otherwise: it has no '/' and, when the argument is not `.`, it is a suffix of the argument |
| Converter.StartNameEmptyForTrailingSlash | opus_converter.py:204 | a directory argument ending in '/' gets an empty start name |
| Converter.RootVisitFirst | opus_converter.py:144-152 | a directory argument within the bound that holds OPUS files is the first folder converted, with the start stack |
| Converter.TrailingSlashRootOutput | opus_converter.py:204-205 | with `data/` and default options, the run's first converted folder is `data/` with stack `[""]`, and its result is looked for and written as `./.mat` |
| Converter.TrailingSlashRootOutputFixed | opus_converter.py:204-205 | with the corrected start name, the same folder's result is looked for and written as `./data.mat` |
| Converter.StartNameFixedNamesFolder | opus_converter.py:204 | with trailing slashes removed first, the start name has no '/'. It is non-empty for an argument with some character other than '/' that is not `.` once its trailing slashes are removed. It agrees with the original when there is no trailing slash |
| Converter.Convert | opus_converter.py:199-205 | the program as written, started from line 204's start name: one-file output with a format other than csv is rejected, and otherwise the run only adds files |
| Converter.ConvertFrom | opus_converter.py:199-205 | one-file output with a format other than csv is rejected before anything is written; otherwise the run from the given start name only adds files |
| Converter.RunConverter | opus_converter.py:199-205 | the entry point, walking with the converter's own processing from the stack `[os.path.split(directory)[1]]`, computes the same result as the pre-order run from that start name |
| Converter.OutputNamesRootedAtStart | opus_converter.py:145-148 | every converted folder's stack has depth plus one names and starts with the start name the program computes at line 204. The folder lies within the bound, and its output file part is that stack joined by `_`, with `__` in front in place |
| Converter.ConvertTwiceWritesNothing | opus_converter.py:109-123 | running the converter a second time without update over an unchanged tree ends normally, adds no file and saves no folder |

## Left out

- Decoding OPUS files (`opusFC`) and the OPUS file test `isOpusFile` are foreign code. They are the parameters `decode` and `isOpus`.
- The serialisation bodies (`np.savetxt`, `np.save`, `scipy.io.savemat`, pandas `to_csv`/`join`) are left out. A save is modelled as the set of file names it produces.
- File system access (`os.listdir`, `isdir`, `isfile`, `getcwd`) becomes a static tree in a given listing order, plus a set of existing names. Symbolic links, permissions and I/O errors are not modelled.
- The tree is assumed unchanged while the walk runs. Output files are assumed never to pass the OPUS test.
- `os.makedirs` for the output directory is left out: it only creates a folder.
- `argparse` parsing, `setupLogging`, `alignMessage` and every log message are left out, including the fix count's warning text. The count itself is modelled.
- Floating-point values are an opaque type compared only for equality, which is the only use the converter makes of them.
- Spectra.ReadOpusFilesLoop: x-axes of different lengths are treated as inconsistent. Recent numpy versions instead raise ValueError at `np.array(wavenumbers)` (line 28), and that error is not caught. y rows of different lengths are accepted. Recent numpy instead raises an uncaught ValueError at `np.array(values)` (line 32).
- Pipeline.LoadAndProcess: y rows of unequal length load successfully. Recent numpy fails earlier, at `np.array(values)` (line 32). Older numpy builds an object array, and then `spectra.shape[1]` in the log line (line 128) raises IndexError. Both errors are uncaught and would stop the run.
- Markup.ParseFileNames: split mode over an empty file list gives an empty table. numpy would raise TypeError there, but the walk never calls it with no files, and loading fails first.
- Spectra.ReadOpusFiles: the decoder is total. An exception from `opusFC.listContents` or `getOpusData` (lines 20 and 24), for example on a damaged file, is not an AssertionError and would stop the run; the model does not represent it.
- Converter.ConvertFrom: saves that overwrite each other's files are not modelled as such. Two folders can produce the same output base, for example stacks `[a_b]` and `[a, b]`. The model keeps a set of names, so such a save is recorded once.
- `argparse` requires the `directory` argument, so its `'.'` default is never used. The model takes the directory as given.

## Findings

| source | as written | input that shows it | evidently intended | confidence | as-written member | corrected member |
|---|---|---|---|---|---|---|
| opus_converter.py:204 | the start name is `os.path.split(directory)[1]`, which is empty when the argument ends in '/'. `Convert` and `RunConverter` model this | `python opus_converter.py data/` names the start folder's own output `.mat` (a hidden file), and names every other output with a leading `_` | the name of the folder the argument names, here `data`. This is `StartNameFixed`: TrailingSlashRootOutputFixed shows that the run from it looks for and writes the first folder's result as `./data.mat` | not executed | Converter.TrailingSlashRootOutput | Converter.StartNameFixedNamesFolder |
