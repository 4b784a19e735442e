# rcopy — a verified model of the collector

`rcopy` walks a source tree bottom-up. It keeps the file names that match a
shell pattern and copies or moves each file into one destination folder. It
never overwrites: when `name.ext` is taken, the file goes under the first free
candidate among `name(1).ext`, `name(2).ext`, and so on. It returns the number
of files it placed. It also has two modes: quiet (print nothing) and dry-run
(print, but change nothing).

The model has four modules:

- `PathNames` (`pathnames.dfy`): the two pieces of library behaviour the
  sequencer relies on.
  - pathlib's split of a bare file name into `stem` and `suffix`. The split
    uses the last dot, but only when it is neither the first nor the last
    character.
  - The decimal text `f"{k}"` of an index.
- `Sequencer` (`sequencer.dfy`): the names `filenames_with_index` generates.
  - `Candidate(stem, suffix, k)` is the expression the generator yields.
  - `NameAt(name, k)` applies it to a bare name.
  - `Generated(name, bound, n)` is the first `n` values the generator yields,
    given `max_index` (`Bound`).
- `Collector` (`collector.dfy`): `copyfile` and `rcopy`.
  - State is an abstract file system (`FsState`) with three parts: the
    destination directory as a map from names to contents, the source tree as
    a map from (directory, name) to contents, and the printed lines.
  - Functions state what each operation does: `Transfer` for `copyfile`,
    `Place` / `RunAll` / `Rcopy` for the loops.
  - A `FileSystem` class carries the same state as mutable fields. Its one
    method, `CopyFile`, is `copyfile`. The three nested loops of `rcopy` are
    module-level methods that take a `FileSystem` and change it: `CollectAll`,
    `CollectDir` and `PlaceFile`, reached through `RunRcopy`. Each method is
    proved equal to its specification function.
  - `Targets` works out, on names alone, where a real run puts each file.
    Lemmas about it state the first fit at each step, that the targets are new
    and pairwise different, the final destination and the printed lines.
- `RcopyExample` (`example.dfy`): the module documentation's example, checked
  against the model.

## Model

| member | source | states |
|---|---|---|
| PathNames.LastIndexOfIsLast | rcopy.py:76 | the position pathlib's split uses holds the character, no later position does, and -1 means the character does not occur |
| PathNames.StemSuffixSplit | rcopy.py:76 | `stem + suffix` gives the name back |
| PathNames.SuffixShape | rcopy.py:76 | a non-empty suffix is a dot, at least one more character and no further dot, and its stem is not empty; an empty suffix leaves the whole name as stem |
| PathNames.SplitExamples | rcopy.py:76 | `a.tar.gz` splits as `a.tar` + `.gz`; `.bashrc`, `abc` and `abc.` have no suffix |
| PathNames.DecimalDigits | rcopy.py:76 | `f"{k}"` consists of decimal digits only |
| PathNames.DecimalRoundTrip | rcopy.py:76 | reading the digits of `f"{k}"` back gives `k` |
| PathNames.DecimalInjective | rcopy.py:76 | different indices have different decimal texts |
| Sequencer.NameAtZero | rcopy.py:74-76 | the candidate at index 0 is the name itself |
| Sequencer.NameAtIndexed | rcopy.py:76 | the candidate at index k ≥ 1 is `stem + "(" + k + ")" + suffix`, and a name with no suffix just gets `(k)` appended |
| Sequencer.TagChars | rcopy.py:76 | the inserted text holds only parentheses and digits |
| Sequencer.TagInjective | rcopy.py:76 | different indices insert different texts |
| Sequencer.CandidateInjective | rcopy.py:76 | for a fixed stem and suffix, different indices give different candidates |
| Sequencer.NameAtInjective | rcopy.py:74-79 | different indices give different candidates of one name |
| Sequencer.CandidateKeepsSuffix | rcopy.py:76 | the index goes before the extension: every candidate of a name with a suffix has that suffix again, and its stem is the old stem followed by the tag |
| Sequencer.CandidateIsBare | rcopy.py:76 | a candidate of a name without `/` has no `/`, so it stays a bare name inside the destination folder |
| Sequencer.PullAt | rcopy.py:74-79 | the counter yielded at pull i is the start index plus i |
| Sequencer.PullLength | rcopy.py:77-79 | the generator yields all requested values until the counter reaches `max_index`, and stops right after that |
| Sequencer.GeneratedSpec | rcopy.py:74-79 | the i-th value is the candidate for index i; with `max_index = m ≥ 0` there are exactly m + 1 values, the last for index m; with no bound (or a negative one) every requested value comes; the first value is the name |
| Sequencer.GeneratedDistinct | rcopy.py:74-79 | no name is yielded twice |
| Sequencer.DoctestUnbounded | rcopy.py:60-66 | the first three values for `abc.txt` are `abc.txt`, `abc(1).txt`, `abc(2).txt` |
| Sequencer.DoctestBounded | rcopy.py:67-70 | with `max_index=2`, the values for `abc` are exactly `abc`, `abc(1)`, `abc(2)`, however many are requested |
| Collector.Transfer | rcopy.py:34-46 | `copyfile` refuses (returns False) exactly when the destination exists, and then changes nothing; otherwise it prints the line (unless quiet), keeps both trees in a dry run, raises when the source is missing, and otherwise writes the source's contents under the new name and removes the source when moving; no existing file is ever altered |
| Collector.FileSystem.CopyFile | rcopy.py:26-46 | the method's new state and return value are those `Transfer` gives |
| Collector.TakenBound | rcopy.py:110-119 | pigeonhole: if the first k candidates of a name are all taken, at least k names are taken |
| Collector.FirstFree | rcopy.py:110-119 | the index found is free, and every smaller index is taken, which makes it the first fit |
| Collector.FirstFreeBound | rcopy.py:110-119 | that index is at most the number of names in the destination, so the infinite candidate loop always ends |
| Collector.FirstFreeUnique | rcopy.py:110-119 | any index that is free while all smaller ones are taken is the one the search finds |
| Collector.PlaceAt | rcopy.py:110-119 | placing a file amounts to one `copyfile` to its first free candidate |
| Collector.Place | rcopy.py:110-119 | placing a file is never refused: the candidate loop ends in a transfer or an error |
| Collector.PlaceFile | rcopy.py:110-119 | the candidate loop calls `copyfile` on candidates 0, 1, … and stops at the first one not taken; its result is that `copyfile`'s |
| Collector.Filter | rcopy.py:109 | a name is kept exactly when it is listed and the pattern accepts it |
| Collector.InDir | rcopy.py:108-112 | the source paths of one directory's accepted names, in listing order |
| Collector.MatchedCount | rcopy.py:108-109 | the loop meets exactly as many files as the pattern accepts over all listed directories |
| Collector.RunCount | rcopy.py:107-120 | a completed run counts each matched file once |
| Collector.RunKeepsDest | rcopy.py:34-35 | nothing the destination held is removed or overwritten, even by a run an error ended |
| Collector.RunGrowsDest | rcopy.py:39-45 | each file of a completed real run adds one new name to the destination |
| Collector.RunDryCompletes | rcopy.py:39-45 | a dry run never raises and counts every matched file |
| Collector.RunDryKeepsFiles | rcopy.py:39-45 | a dry run leaves the destination and the source tree as they were |
| Collector.RunDryOutput | rcopy.py:37-44 | a dry run prints the lines `DryRunLines` gives, each target chosen against the destination as it was before the run |
| Collector.DryRunLinesAt | rcopy.py:37-44 | in a printing dry run, line i reports file i against the first candidate of its name that is free before the run, so files with the same name are reported under the same name |
| Collector.DryRunEmptyDest | rcopy.py:37-44 | against an empty destination, a printing dry run reports every file under its own name, duplicates included |
| Collector.RunQuiet | rcopy.py:37-43 | a quiet run prints nothing |
| Collector.RunLines | rcopy.py:37-43 | a printing run that completes prints one line per file |
| Collector.Targets | rcopy.py:110-119 | one target name per file |
| Collector.TargetsFirstFit | rcopy.py:110-119 | file i goes under the first candidate of its name that is neither in the destination before the run nor the target of an earlier file |
| Collector.TargetsFresh | rcopy.py:34-35 | a target was not in the destination before the run and differs from every earlier target |
| Collector.RunPlacedFiles | rcopy.py:39-45 | after a completed real run, file i was in the source tree, and its target holds that file's contents |
| Collector.RunPlacedNames | rcopy.py:107-120 | after a completed real run, the destination's names are exactly its old names and the targets |
| Collector.Report | rcopy.py:37-43 | line i of the report has the run's verb, file i and its target |
| Collector.RunReport | rcopy.py:37-43 | a completed, printing real run appends exactly the report of the files and their targets, in order |
| Collector.RunCopyKeepsSources | rcopy.py:45 | copying never changes the source tree |
| Collector.RunCompletes | rcopy.py:40-45 | a real run completes when every matched file exists and, when moving, none is met twice |
| Collector.RunMoveFound | rcopy.py:40 | a move that completed found every matched file in the source tree |
| Collector.RunMoveSources | rcopy.py:40 | a completed move removes exactly the matched files from the source tree |
| Collector.RcopyCounts | rcopy.py:107-120 | `rcopy` returns the number of accepted names, and no file of the destination is overwritten |
| Collector.RcopyDryRun | rcopy.py:107-120 | a dry `rcopy` returns that number and leaves both trees unchanged |
| Collector.RcopyNoMatch | rcopy.py:107-120 | when no name matches, `rcopy` returns 0 and changes nothing |
| Collector.RcopyFacts | rcopy.py:107-120 | count, no overwrite, dry run and quiet together, for a whole call |
| Collector.RcopyPlaced | rcopy.py:107-120 | a completed real `rcopy` finds every matched file, stores its contents under a target that was free and that no other file takes, adds no other name, and, unless quiet, prints one line per file with its target |
| Collector.RunRcopy | rcopy.py:103-120 | the method's new state and result are those `Rcopy` gives; the count, no-overwrite, dry-run and quiet properties hold of it |
| Collector.CollectAll | rcopy.py:107-120 | the outer loop over the listed directories ends in the state and result `Rcopy` gives |
| Collector.CollectDir | rcopy.py:109-119 | the loop over one directory's accepted names advances the run by exactly those files, or ends it at the one that raised |
| RcopyExample.ExampleMatched | rcopy.py:6-11 | `*.txt` over the example tree meets `/src/1/a.txt`, `/src/2/b.txt`, `/src/3/a.txt`, `/src/4/1/c.txt` in this order |
| RcopyExample.ExampleRun | rcopy.py:6-16 | moving four distinct files named `a`, `b`, `a`, `c` into an empty folder puts them under `a`, `b`, the index-1 candidate of `a`, and `c`, and empties the source tree; with or without `--quiet`, it prints nothing or exactly the four `Move` lines |
| RcopyExample.ModuleExample | rcopy.py:6-16 | `rcopy *.txt /src /dest --move` on the example tree, with or without `--quiet`, returns 4, fills `/dest` with `a.txt`, `b.txt`, `a(1).txt`, `c.txt` holding the right contents, empties the source tree, and prints nothing when quiet and otherwise exactly four `Move` lines, in this order: `/src/1/a.txt` to `a.txt`, `/src/2/b.txt` to `b.txt`, `/src/3/a.txt` to `a(1).txt`, `/src/4/1/c.txt` to `c.txt` |

## Left out

- `main` and its argument parsing are command-line glue and are not modelled.
- `shutil.move` and `shutil.copyfile` are a write of the source's contents under the new name, plus the removal of the source when moving. Cross-device moves, permissions, metadata and every error other than a missing source are not modelled. A missing source ends the run (`Raised`, then `Aborted`), as the propagated exception would.
- `Path.walk(top_down=False)` is not modelled. Its listings are an input sequence, already in bottom-up order. Which order the operating system lists names in is not modelled.
- `fnmatch.filter` is not modelled either. The pattern is an arbitrary predicate on names, so the glob syntax and its platform-dependent case folding are left out.
- The gap between `dst.exists()` and the transfer that follows is a race with other processes. The model is sequential.
- The destination is a map from bare names to contents, on a case-sensitive file system whose entries all resolve. A directory with a candidate's name is an entry and blocks that candidate, as in the source. Not modelled: case-insensitive file systems, where `A.txt` blocks `a.txt`, and dangling symbolic links, which `Path.exists()` follows and so treats as absent. Also not modelled: paths with directory parts, the destination lying inside the source tree, and the version-dependent treatment of trailing dots in pathlib are not modelled.
- Converting `str` arguments to `Path` (rcopy.py:72-73, rcopy.py:103-106) changes nothing in the model, which takes names and listings directly.
- A printed progress line `Move src -> dst` (or `Copy …`) is a `Line` record holding the verb, the source path and the destination name, not formatted text, so pathlib's rendering of paths is not modelled.
- Sequencer.Generated models the generator by the values it yields to a consumer that asks for `n` of them. A suspended generator is not modelled. `max_index` is an unbounded integer. A negative one is never met by the `==` test, so the generator does not stop, which GeneratedSpec states.
- The doctest at rcopy.py:67-70 shows the printed names in quotes. `print` of a `Path` shows them without quotes, so DoctestBounded states the names themselves.
