# MatchingBED-FA chromosome renaming, modelled in Dafny

MatchingBED-FA rewrites the first column of BED interval files so that their
chromosome names match the record identifiers of a reference FASTA file. This
project models the part of `Sources/MachingBED_FA.py` that makes decisions:

- `modify(chrom)`, the inner function of `BEDChromosomeModifier.modify_chromosomes`.
  It is a priority cascade:
  - an all-digit token gets a `chr` prefix;
  - `MT` becomes `chrM`;
  - `X` and `Y` get a `chr` prefix;
  - any other token is turned into a probe (`"_"` + the token with every `.`
    replaced by `v`), and the FASTA names are scanned for entries containing
    the probe.
- the rewrite of the `chromosome` column of a loaded BED frame, after the
  columns have been named;
- the output path of `process_file`: the input's basename without its
  extension, plus `.modified.bed`, joined onto the output folder;
- the list of input paths `main` builds from the directory walk, skipping
  `.gitkeep` placeholders.

The FASTA names are a Python set. The model lists them as a sequence in the
set's iteration order. Because the scan loop has no `break`, the **last**
matching entry in that order wins. A token that matches no entry leaves the
local `modified` unbound, so `return modified` raises. The model calls that
outcome `Unassigned`. It then makes the whole column rewrite fail, and nothing
is saved for that file.

Modules, one per file:

- `Strings` (`strings.dfy`): Python's substring test and single-character `str.replace`.
- `ChromosomeRename` (`chromosome_rename.dfy`): the cascade as a function
  (`Normalize`) and as the source's loop (`Modify`), with lemmas about both.
- `BedTable` (`bed_table.dfy`): the column labels, the column rewrite as a
  value (`RenameRows`), and a `Table` class whose array of rows is rewritten in place.
- `PosixPath` (`posix_path.dfy`): `rfind`, `basename`, `splitext` and `join`,
  with CPython's POSIX behaviour.
- `Batch` (`batch.dfy`): the output name and path, `process_file`, and the
  `.gitkeep` filter.

## Model

| member | source | states |
|---|---|---|
| `Strings.ContainsBasics` | Sources/MachingBED_FA.py:83 | The substring test `p in s` (`Strings.Contains`) needs `p` to fit in `s`, and holds for the empty string and for `s` itself. |
| `Strings.ReplaceChar` | Sources/MachingBED_FA.py:76 | `replace` changes every occurrence of the character and nothing else, and keeps the length. |
| `ChromosomeRename.IsDigitToken` | Sources/MachingBED_FA.py:69 | An `isdigit` token is non-empty, has no `.` or `_`, and is never `MT`, `X` or `Y`, so the cascade's first rule cannot shadow the later ones. |
| `ChromosomeRename.Probe` | Sources/MachingBED_FA.py:76 | The probe is `_` followed by the token with dots turned into `v`. It is one character longer than the token and contains no `.`. |
| `ChromosomeRename.LiteralGroupMatch` | Sources/MachingBED_FA.py:77-79 | For a literal probe, a successful match of `.*(probe).*` captures the probe itself, and the probe occurs in the subject. |
| `ChromosomeRename.SelfMatch` | Sources/MachingBED_FA.py:77-80 | A literal probe matched against itself always succeeds, and `group(1)` is the probe, so this step is the identity. |
| `ChromosomeRename.LastMatchIndex` | Sources/MachingBED_FA.py:82-84 | The scan finds the index of the last entry containing the probe, with no later entry containing it. It finds -1 exactly when no entry contains the probe. |
| `ChromosomeRename.LastContaining` | Sources/MachingBED_FA.py:82-85 | What the scan leaves in `modified`: unassigned exactly when no entry contains the probe; otherwise a catalog entry containing the probe with no later entry containing it. |
| `ChromosomeRename.Normalize` | Sources/MachingBED_FA.py:67-85 | The cascade as a value. Digit tokens, `MT`, `X` and `Y` always get a longer `chr`-prefixed name. Any other token, when renamed, becomes a catalog entry containing its probe. |
| `ChromosomeRename.Modify` | Sources/MachingBED_FA.py:67-85 | The cascade with its last-write-wins loop computes exactly `Normalize`. |
| `ChromosomeRename.FixedRules` | Sources/MachingBED_FA.py:69-74 | Digit tokens give `"chr"+t`, `MT` gives `chrM`, and `X`/`Y` give `chrX`/`chrY`. The result is the same for every catalog, including the empty one. |
| `ChromosomeRename.IrregularRule` | Sources/MachingBED_FA.py:75-85 | Any other token is renamed to the last catalog entry containing its probe. It is unassigned exactly when no entry contains the probe. |
| `ChromosomeRename.UniqueMatch` | Sources/MachingBED_FA.py:82-84 | If exactly one entry contains the probe, the result is that entry, whatever the iteration order of the catalog. |
| `ChromosomeRename.LastMatchWins` | Sources/MachingBED_FA.py:82-84 | If the last two entries both contain the probe, the later one wins, so swapping two distinct such entries changes the result. |
| `ChromosomeRename.VersionedContigExample` | Sources/MachingBED_FA.py:75-84 | `GL000219.1` against `chr1, chrM, chrX, chrUn_GL000219v1` becomes `chrUn_GL000219v1`. |
| `ChromosomeRename.CanonicalTokenUnassigned` | Sources/MachingBED_FA.py:75-85 | The already-canonical `chr7` is unassigned even when the catalog lists `chr7`, because no entry contains `_chr7`. |
| `BedTable.ColumnLabels` | Sources/MachingBED_FA.py:60 | Columns are labelled `chromosome`, `start`, `end`, then their positions. `chromosome` labels column 0 only. Fewer than three columns raise. |
| `BedTable.RenameRows` | Sources/MachingBED_FA.py:87 | Success happens exactly when every token is assigned. It keeps the row count, the row order and every non-chromosome cell, and sets each new chromosome to `modify` of the old one. Otherwise it reports the first row that raises. |
| `BedTable.RenamedRow` | Sources/MachingBED_FA.py:87 | Each rewritten row is the renamed token followed by the old row's other cells. |
| `BedTable.UnmatchedRowFailsFrame` | Sources/MachingBED_FA.py:87 | One unassigned token anywhere makes the whole column rewrite raise, at that row or earlier. |
| `BedTable.Table.constructor` | Sources/MachingBED_FA.py:57-60 | The frame holds the rows as read, and its width admits the column labels. |
| `BedTable.Table.ApplyModify` | Sources/MachingBED_FA.py:87 | The apply over the chromosome column succeeds exactly when `RenameRows` does. On success it yields one new token per row, each `Normalize` of that row's old token; otherwise it reports the row where `RenameRows` raises. |
| `BedTable.Table.AssignChromosomes` | Sources/MachingBED_FA.py:87 | Assigning the new column replaces only cell 0 of each row, in place, and keeps every other cell and the row order. |
| `BedTable.Table.ModifyChromosomes` | Sources/MachingBED_FA.py:62-87 | On success, the rows in place become `RenameRows` of the old rows. On failure, the rows are unchanged and the raising row is reported. |
| `PosixPath.RFind` | Sources/MachingBED_FA.py:108 | `rfind` returns the last index of the character, or -1 exactly when the character is absent. |
| `PosixPath.Basename` | Sources/MachingBED_FA.py:108 | `basename` is the suffix of the path after its last `/` (the whole path when there is none), so it contains no `/`. |
| `PosixPath.SplitExt` | Sources/MachingBED_FA.py:108 | `splitext`'s two parts concatenate back to the path. A non-empty extension starts with its only `.` and has no `/`. |
| `PosixPath.SplitExtRule` | Sources/MachingBED_FA.py:108 | The extension is non-empty exactly when some non-dot character precedes some dot in the last path component. |
| `PosixPath.Join` | Sources/MachingBED_FA.py:108 | `join` returns an absolute second part as is, appends directly to an empty folder or one ending in `/`, and inserts a `/` otherwise. The result always ends with the second part. |
| `PosixPath.JoinBasename` | Sources/MachingBED_FA.py:108 | Joining a bare name onto a folder keeps the folder as prefix, and the basename of the result is the name. |
| `PosixPath.SplitAtLastDot` | Sources/MachingBED_FA.py:108 | `stem.ext` with a non-dot character in `stem` splits into `stem` and `.ext`. |
| `PosixPath.NoDotNoExt` | Sources/MachingBED_FA.py:108 | A name without a dot has no extension. |
| `PosixPath.LeadingDotsNoExt` | Sources/MachingBED_FA.py:108 | A name whose only dots lead it has no extension. |
| `Batch.OutputName` | Sources/MachingBED_FA.py:108 | The output name contains no `/` and ends in `.modified.bed`. Before that suffix comes the input's basename minus its extension. |
| `Batch.OutputPath` | Sources/MachingBED_FA.py:108 | The output path is the output folder joined with the output name: the folder followed by the name, either directly or with one `/` between them (`PosixPath.Join` fixes which). Its basename is the output name, whatever the input's folder. |
| `Batch.SharedStemCollides` | Sources/MachingBED_FA.py:108 | Two inputs with the same basename stem, in any folders and with any last extensions, get the same output path, so `a/x.bed` and `b/x.txt` both go to `out/x.modified.bed`. |
| `Batch.OutputExtensionIsBed` | Sources/MachingBED_FA.py:108 | Whatever the input's extension, the output's extension is `.bed` and its stem is the input's stem plus `.modified`. |
| `Batch.OutputNameDropsLastExtension` | Sources/MachingBED_FA.py:108 | `dir/stem.ext` gives `stem.modified.bed`, so `dir/a.b.txt` gives `a.b.modified.bed`. |
| `Batch.OutputNameWithoutExtension` | Sources/MachingBED_FA.py:108 | A dot-free name such as `x` gives `x.modified.bed`. |
| `Batch.OutputNameHiddenFile` | Sources/MachingBED_FA.py:108 | A hidden file `dir/.name` whose `name` has no dot gives `.name.modified.bed`. |
| `Batch.ProcessFile` | Sources/MachingBED_FA.py:97-109 | Fewer than three columns fail the naming. An unassigned token fails the file at its first raising row. Otherwise the rewritten rows are saved at `OutputPath(folder, bedPath)`. |
| `Batch.KeptFiles` | Sources/MachingBED_FA.py:121 | The paths kept for one directory are exactly its non-`.gitkeep` files joined onto its root. |
| `Batch.BedPaths` | Sources/MachingBED_FA.py:121 | The path list holds exactly the joined non-`.gitkeep` files of every walked directory. |
| `Batch.NoPlaceholderListed` | Sources/MachingBED_FA.py:121 | No listed path has `.gitkeep` as its basename. |

## Left out

- Reading the FASTA file (`ChromosomeNameExtractor.list_chromosome_names`, lines 22-35) is left out. It wraps Biopython's parser, which is not part of this model. The catalog is a given sequence of names, and the empty-path `ValueError` guard is not modelled.
- pandas `read_csv` and `to_csv` (lines 59 and 95) are foreign I/O. A frame is given as rows of cell texts, and "saving" is returning the rows with the output path.
- pandas type inference is left out. An all-numeric first column is read as integers, so `isdigit` raises; an empty cell becomes NaN; an empty file raises. Cells are modelled as strings.
- `ChromosomeRename.Modify`, `ChromosomeRename.Normalize`, `BedTable.RenameRows`, `BedTable.Table.ModifyChromosomes` and `Batch.ProcessFile` require that a probe reaching the regular-expression step contains no regex special character. The `re` engine is not modelled. Such probes could behave differently or fail to compile.
- `ChromosomeRename.Modify`: `str.isdigit` is restricted to ASCII `0`-`9`. Python also accepts other Unicode digits.
- `BedTable.Table.ModifyChromosomes`: the source raises `UnboundLocalError` without saying which row raised. The model reports the row index where `apply` stops.
- The directory walk (`os.walk`) is a parameter: a sequence of (root, dirs, files) steps.
- The process pool (`Pool`, `starmap`, `cpu_count`, lines 122-124) is left out. Each file is processed on its own, but inputs that share a basename stem are written to the same output path (`Batch.SharedStemCollides`), and the pool's scheduling decides which write survives. An exception in any file propagates out of `starmap` unhandled.
- Command-line handling (`argparse` and `sys.exit`, lines 140-155) is left out.
