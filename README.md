# Timezone data update script: the setup manifest, the version string and the zic command

`update-tzdata.py` regenerates Android's timezone data from an IANA tzdata
tarball. Most of it runs external tools. This project models the part that
computes something:

- **`WriteSetupFile`** builds the setup manifest, the work list that the zone
  compactor is given. It reads the ten region files (`africa` … `backzone`)
  in a fixed order and splits every line into fields the way Python's
  `str.split()` does. A line whose first field is `Link` contributes the
  entry `Link <target> <alias>` and adds its alias to the zone names. A line
  whose first field is `Zone` contributes its name. Every other line is
  skipped. The manifest is the sorted, duplicate-free link entries, then the
  sorted, duplicate-free zone names, one per line.
- **The version string**: group 1 of `re.search('(tzdata.+)\.tar\.gz', …)`
  applied to the tarball's base name.
- **The zic command line**: `zic -d <outdir>`, followed by the path of every
  region file in the extracted tarball.

Modules:

- `Tzdata` (tzdata.dfy): the region list and the outcome type. Python's
  `IndexError` and the failed `.group` call are the two errors.
- `Tokens` (tokens.dfy): `str.split()` with no arguments, and its inverse on
  words (`Join`).
- `Lexicographic` (lexicographic.dfy): Python 2 string order, `list.sort()`
  and `sorted(set(…))`.
- `Setup` (setup.dfy): line classification, the collected lists and the
  manifest as functions, and the properties of the manifest. The imperative
  `WriteSetupFile` method is proved to return what the function `SetupText`
  defines.
  Its nested reading loops are the method `CollectRegions`, and its two write
  loops are calls to the method `WriteEntries`.
- `Version` (version.dfy): `os.path.basename` and the regular-expression
  search, with the leftmost start and the greedy, backtracking `.+` of
  Python's `re`.
- `Zic` (zic.dfy): the zone compiler's argument list.

Characters stand for the bytes of Python 2 `str`. Whitespace is what
Python 2 splits byte strings on: space, and the characters 9 to 13.

A `Link` line with fewer than three fields, or a `Zone` line with fewer than
two, is not skipped. Indexing `fields` past its end raises `IndexError` and
aborts the run. The model follows the code here.

## Model

| member | source | states |
|---|---|---|
| `Tokens.Split` | update-tzdata.py:64 | every field of `line.split()` is non-empty and free of whitespace |
| `Tokens.SplitSkipsBlank` | update-tzdata.py:64 | leading whitespace (indentation, a blank line) yields no field |
| `Tokens.SplitJoin` | update-tzdata.py:64 | `split()` returns exactly the words of a line, whatever non-empty whitespace stands in each gap (every gap may differ, e.g. `\t` then `\t\t`) and whatever whitespace surrounds them |
| `Lexicographic.Less` | update-tzdata.py:71-78 | Python 2 string `<`, the order `sort` and `sorted` use: it never holds between equal strings, and a proper prefix comes first |
| `Lexicographic.LessTransitive` | update-tzdata.py:71-78 | the string order used by `sort` and `sorted` is transitive |
| `Lexicographic.LessTotal` | update-tzdata.py:71-78 | any two distinct strings are ordered one way or the other |
| `Lexicographic.SortedSet` | update-tzdata.py:75-78 | `sorted(set(xs))` is strictly increasing and holds exactly the elements of `xs` |
| `Lexicographic.StrictlySortedUnique` | update-tzdata.py:75-78 | two strictly increasing sequences with the same elements are equal, so the output of `sorted(set(…))` is determined |
| `Lexicographic.SortedSetOfSameElements` | update-tzdata.py:75-78 | `sorted(set(xs))` depends only on which strings occur in `xs`, not on their order or repetition |
| `Lexicographic.Sort` | update-tzdata.py:71 | `zones.sort()` yields a non-decreasing permutation of `zones` |
| `Lexicographic.SortedSetAfterSort` | update-tzdata.py:71-77 | sorting `zones` in place before `sorted(set(zones))` does not change the zone section |
| `Setup.ParseLine` | update-tzdata.py:64-70 | a line's only possible error is `IndexError`; the target, alias and zone name it yields are whitespace-free fields |
| `Setup.ParseLinkLine` | update-tzdata.py:64-68 | a `Link` line, with any whitespace in each gap, yields its second and third fields as target and alias, and later fields are dropped |
| `Setup.ParseZoneLine` | update-tzdata.py:64-70 | a `Zone` line, with any whitespace in each gap, yields its second field as the zone name |
| `Setup.ParseShortLine` | update-tzdata.py:66-70 | a `Link` line with fewer than three fields, or a `Zone` line with fewer than two, is an `IndexError` |
| `Setup.ParseIgnoredLine` | update-tzdata.py:64-70 | blank lines and lines whose first field is not `Link` or `Zone` (comments, `Rule` lines, continuation lines), with any whitespace in each gap, contribute nothing |
| `Setup.ParseLineAgrees` | update-tzdata.py:64-70 | for every line: it is an `IndexError` exactly when it is a short `Link` or `Zone` record, and otherwise it adds exactly its `Link <f1> <f2>` entry to `links` and exactly its alias or zone name to `zones` |
| `Setup.Collect` | update-tzdata.py:60-70 | reading the lines in order can only fail with `IndexError`; otherwise every collected zone name is a single whitespace-free field, and there are at least as many zone names as link entries, since each link also contributes its alias |
| `Setup.BuildManifest` | update-tzdata.py:71-78 | the manifest fails exactly when collecting fails, and otherwise both sections are strictly increasing |
| `Setup.Render` | update-tzdata.py:75-78 | writing `'%s\n'` per entry gives empty text exactly for no entries, and otherwise text ending in a line feed |
| `Setup.SetupText` | update-tzdata.py:58-80 | the setup file's text can only fail with `IndexError`, and a non-empty text ends in a line feed |
| `Setup.WriteSetupFile` | update-tzdata.py:58-80 | reading the regions, the in-place sort and the two write loops produce exactly the text `SetupText` defines, or `IndexError` |
| `Setup.CollectRegions` | update-tzdata.py:60-70 | the nested loops over the region files and their lines leave `links` and `zones` exactly as `Collect` defines them, or stop with `IndexError` at the first short record |
| `Setup.WriteEntries` | update-tzdata.py:75-78 | a write loop appends each entry followed by a line feed, in order |
| `Setup.FailureIsFinal` | update-tzdata.py:62-70 | a short record anywhere in any region file makes the whole setup fail with `IndexError` |
| `Setup.CollectFailsIffShortRecord` | update-tzdata.py:62-70 | collecting fails exactly when some line read is a short `Link` or `Zone` record |
| `Setup.CollectedLinks` | update-tzdata.py:62-68 | the `links` list holds exactly the entries `Link <f1> <f2>` of the `Link` lines read |
| `Setup.CollectedZones` | update-tzdata.py:62-70 | the `zones` list holds exactly the `Zone` names and the `Link` aliases of the lines read |
| `Setup.ManifestSortedAndExact` | update-tzdata.py:62-78 | both sections are strictly increasing and duplicate-free; the link section is exactly the collected link entries, the zone section exactly the collected names and aliases |
| `Setup.ManifestFailsOnShortRecord` | update-tzdata.py:64-70 | building the manifest fails, with `IndexError`, exactly when some line is a short record |
| `Setup.ManifestIgnoresLineOrder` | update-tzdata.py:62-78 | reordering or repeating lines leaves the manifest unchanged, the error case included |
| `Setup.SetupIgnoresRegionOrder` | update-tzdata.py:35-39 | reordering or repeating region files leaves the setup text unchanged, so the `backward`/`backzone` override order does not matter to it |
| `Setup.ManifestEntryFields` | update-tzdata.py:67-78 | every link entry splits into `Link`, a target and an alias, and every zone entry is a single field |
| `Setup.ManifestEntriesAreSingleLines` | update-tzdata.py:67-78 | no manifest entry contains a line feed |
| `Setup.LinesOfRender` | update-tzdata.py:75-78 | entries written as `'%s\n'` come back one per line when they hold no line feed |
| `Setup.SetupFileReadsBack` | update-tzdata.py:74-79 | the setup file's lines are the link section followed by the zone section |
| `Version.Basename` | update-tzdata.py:92 | `os.path.basename` is the longest suffix of the path without `/`, and a `/` precedes it unless it is the whole path |
| `Version.BasenameAfterSlash` | update-tzdata.py:92 | the base name of `<dir>/<name>` is `name` when `name` has no `/` |
| `Version.LastSuffix` | update-tzdata.py:93 | the greedy `.+` backtracks to the last `.tar.gz` it can reach |
| `Version.Search` | update-tzdata.py:93 | `re.search` returns a match of `(tzdata.+)\.tar\.gz` at the leftmost possible start with the longest group there, or nothing exactly when no match exists |
| `Version.ExtractVersion` | update-tzdata.py:92-93 | fails exactly when the base name holds no match; otherwise the version starts with `tzdata` and holds no `/` and no line feed |
| `Version.ConventionalVersion` | update-tzdata.py:92-93 | for `tzdata<v>.tar.gz`, alone or after a directory, with `v` non-empty and free of `/` and line feeds, the version is `tzdata<v>` |
| `Zic.ZicCommand` | update-tzdata.py:104-107 | the command is 13 arguments: `zic`, `-d`, the output directory, then `<extracted_dir>/<region>` for each region in order |
| `Zic.RegionsDistinct` | update-tzdata.py:35-39 | no region file is listed twice |
| `Zic.ZicInputsNameRegions` | update-tzdata.py:104-105 | each input argument is a path inside the extracted directory from which its region name can be read back |
| `Zic.ZicInputsOnceEachOverridesLast` | update-tzdata.py:35-39 | every region file is passed to zic exactly once, with `backward` and `backzone` last |

## Left out

- Running `zic`, `javac` and `java` (`subprocess.check_call`): these are external tools. Only the zic argument list is modelled.
- `BuildIcuData`, `BuildTzlookup` and `main`. `main` calls `tzdatautil` and `updateicudata`, `BuildIcuData` calls `updateicudata`, and `BuildTzlookup` calls `shutil.copyfile`. `updateicudata` and `tzdatautil` are not part of this model, so tarball selection (`GetIanaTarFile`) and the ICU build are not modelled. `i18nutil` is called only by the module-level path computation, left out on the next line.
- The module-level path computation and directory checks, `tempfile.mkdtemp`, `os.mkdir` and tar extraction: these depend on the environment and the filesystem.
- File I/O. Each region file's lines are an input, and the setup file's text is the result. A missing or unreadable region file, and the path of the written setup file, are not modelled.
- The `print` output and the unused `ftplib`, `httplib` and `glob` imports.
- `Version.Search` models only the pattern `(tzdata.+)\.tar\.gz`, not regular expressions in general.
- `Zic.RegionPath` joins the directory and the region name directly. The script first builds the template `<dir>/%s` with `%` and then formats it with each region, so a `%` inside the temporary directory's path would be read as a conversion. That case is not modelled.
- Characters stand for bytes. No encoding or locale-dependent whitespace is modelled.
