# File-tree utilities: a Dafny model

This project models four small Python utilities.

- **mergetree** merges an upper directory tree into a lower one.
  - It snapshots both trees as name-sorted, nested lists of entries (`Tree`, `FileItem`).
  - It merge-joins sibling lists with two cursors (`compare_tree`).
  - It resolves each pair of equal names with a fixed decision table (`compare`).
  - Every move or removal goes through one dry-run-aware boundary (`shellcommand`, `move`, `remove`, `removedir`).
  - A `Summary` object counts decisions and operations.
  - A `ProgressReporter` backs off its progress output by doubling a bit mask.
- **chkfdupes** reads the output of fdupes.
  - The input is groups of file names, each followed by a blank line (`NslvReader`).
  - In each group it keeps the newest file, preferring fewer blocks on a tie.
  - It removes, or hard-links, the other same-size copies that live on a different inode (`process_record`, `alter_duplicate`, `shell_command`).
  - It keeps statistics as it goes (`Stats`).
- **hdupes** provides three pieces:
  - an inode-keyed file store (`FileNode`, `FileStore`);
  - a digest table whose buckets hold a bare value or a list (`HashTable`);
  - two chunked read loops (`FileDigest.calc`, `compare_file_content`).
- **flatten** moves the files of shallow directories up one level. The moved file is named `path + separator + file`, and white space can optionally be deleted from that name.

The file system is a value everywhere in the model:
- a directory is the listing `os.listdir` would return;
- an `lstat` result is a record, and a missing name or a set of failing commands stands for OSError;
- what a program prints or asks of the OS is an ordered trace.

The stateful parts of the source are classes with `modifies` clauses: `Summary`, `ProgressReporter`, `Stats`, `NslvReader`, `FileNode`, `FileStore`, `HashTable` and the merge driver.

Each method is proved to produce the state that a specification function gives. The properties are then proved about those functions.

Files:
- `common.dfy` holds the Python built-ins: the string order `<`, `rstrip()` and `1 << k`.
- `mergetree_*.dfy` model mergetree. `mergetree_plan.dfy` is the decision table as events, `mergetree_engine.dfy` the imperative driver, and `mergetree_props.dfy` the merge-join properties.
- `chkfdupes_*.dfy` model chkfdupes.
- `hdupes_*.dfy` model hdupes.
- `flatten.dfy` models flatten.

The model keeps these behaviours of the code:
- `move`, `remove` and `removedir` raise their counter even when the OS call fails, not only on success.
- With `--strict`, equal mtime and size leads to no action at all. No byte comparison is made and nothing is removed.
- Names are sorted by Python's `str` order, which compares code points, not bytes.

One behaviour of the code is corrected rather than kept: the `ProgressReporter` class grows its mask on `count > mask`. The code as written grows it on `count >= mask`; that version is `MergeProgress.TicksAsWritten` (see ## Findings).

## Model

| member | source | states |
|---|---|---|
| Common.RStrip | chkfdupes/chkfdupes.py:26 | the result is the longest prefix of the line that does not end in white space |
| Common.RStripIdempotent | chkfdupes/chkfdupes.py:26 | stripping an already-stripped line changes nothing |
| Common.LessTotal | mergetree/mergetree.py:335-341 | of two distinct names, one is `<` the other, so the final `else` of the cascade means equal names |
| Common.LessTransitive | mergetree/mergetree.py:335-341 | Python's `str <` is transitive |
| Common.LessAsymmetric | mergetree/mergetree.py:335-341 | `a < b` excludes `b < a` |
| Common.LessIrreflexive | mergetree/mergetree.py:335-341 | no name is `<` itself |
| MergeEntry.PathRebase | mergetree/mergetree.py:162-167 | an empty base falls back to the entry's own root; moving an entry to another root keeps its subpath |
| MergeEntry.ValidShaped | mergetree/mergetree.py:210-211 | in a snapshot, every directory entry carries its subtree, recursively |
| MergeProgress.BitAndLowBits | mergetree/mergetree.py:64 | `count & (2**k - 1)` is `count % 2**k` |
| MergeProgress.MaskWidth | mergetree/mergetree.py:66-67 | every mask value is a run of at most 11 one-bits, never above 2047 |
| MergeProgress.TickDecision | mergetree/mergetree.py:64 | with the corrected growth `count > mask` (see ## Findings), `count & mask == 0` holds exactly at powers of two up to 1024 and at multiples of 2048 |
| MergeProgress.TickDue | mergetree/mergetree.py:64 | with the corrected growth `count > mask` (see ## Findings), the tick test answers exactly the counts the doubling schedule shows |
| MergeProgress.MaskStep | mergetree/mergetree.py:66-67 | with the corrected growth `count > mask` (see ## Findings), growing the mask keeps it a run of one-bits between the count and twice the count, until it saturates at 2047 |
| MergeProgress.IncrementKeeps | mergetree/mergetree.py:61-67 | with the corrected growth `count > mask` (see ## Findings), one increment keeps the reporter's invariant: the lines written since `start` are exactly the ticks of the schedule |
| MergeProgress.ProgressReporter.constructor | mergetree/mergetree.py:48-52 | count and mask start at 0, with no heading and nothing written |
| MergeProgress.ProgressReporter.Start | mergetree/mergetree.py:54-59 | when active it resets count and mask and writes the heading; when inactive nothing changes |
| MergeProgress.ProgressReporter.Increment | mergetree/mergetree.py:61-67 | with the corrected growth `count > mask` (see ## Findings), when active the count rises by exactly 1, and a tick is written exactly when the schedule shows the new count; when inactive nothing changes |
| MergeProgress.ProgressReporter.Fin | mergetree/mergetree.py:69-71 | when active it writes the heading with the final count; count and mask are unchanged |
| MergeProgress.FourthTickMissing | mergetree/mergetree.py:66-67 | as written (mask grows on `count >= mask`), four increments after `start` write ticks only at 1 and 2 |
| MergeProgress.TicksAsWrittenSchedule | mergetree/mergetree.py:61-67 | as written (mask grows on `count >= mask`), for any number of increments after `start`, lines are written exactly at counts 1 and 2 and at the multiples of 2048 |
| MergeSummary.TagTextDistinct | mergetree/mergetree.py:91-129 | every category has its own three-character trace marker |
| MergeSummary.NotedOneCategory | mergetree/mergetree.py:91-129 | each category method raises exactly one category counter, never `overrided` or an operation counter; lower_is_dir, upper_is_dir and mismatch all raise `backupd` |
| MergeSummary.Summary.constructor | mergetree/mergetree.py:76-89 | all twelve counters start at 0 |
| MergeSummary.Summary.Note | mergetree/mergetree.py:91-129 | the counters become those of the category's update |
| MergeSummary.Summary.Move | mergetree/mergetree.py:131 | only `moved` rises, by 1 |
| MergeSummary.Summary.Remove | mergetree/mergetree.py:132 | only `removed` rises, by 1 |
| MergeSummary.Summary.RemoveDir | mergetree/mergetree.py:133 | only `dirremoved` rises, by 1 |
| MergeSnapshot.SortNames | mergetree/mergetree.py:205 | `l.sort()` returns an ascending permutation of the listing |
| MergeSnapshot.SortDistinct | mergetree/mergetree.py:205 | sorting a listing without repeats gives a list without repeats |
| MergeSnapshot.SortedDistinctAscending | mergetree/mergetree.py:205 | a sorted list without repeats is strictly ascending |
| MergeSnapshot.ItemShape | mergetree/mergetree.py:208-211 | an entry has the listed object's `lstat` and is rooted at `base` in `d`; it has a subtree exactly when it is a directory, and that subtree is the snapshot of `d + sep + name` |
| MergeSnapshot.ItemsNames | mergetree/mergetree.py:206-209 | the loop appends one entry per visited name, in visiting order |
| MergeSnapshot.SnapshotValid | mergetree/mergetree.py:203-216 | a snapshot lists each name of the directory exactly once, in strictly ascending order, with every subtree built the same way |
| MergeSnapshot.BuildTree | mergetree/mergetree.py:203-216 | the traversal returns the snapshot, and the progress count rises by the number of entries in the whole subtree |
| MergeSnapshot.VisitEntry | mergetree/mergetree.py:207-211 | one loop turn counts the entry once and returns its snapshot entry |
| MergePlan.RunEffects | mergetree/mergetree.py:237-273 | counters do not depend on the mode; a dry run prints every command and gives none to the OS; a real run gives all of them, in order, and exactly the failing ones leave an error line |
| MergePlan.DryRunInvariant | mergetree/mergetree.py:237-254 | a dry run and a real run end with the same counters; the dry run leaves the OS untouched |
| MergePlan.TalliedCounts | mergetree/mergetree.py:259-273 | one category increment per decision, never `overrided`; `moved`, `removed` and `dirremoved` count the commands of each kind, failed or not |
| MergePlan.CountedOne | mergetree/mergetree.py:259-273 | each file operator raises exactly its own counter |
| MergePlan.RunConcat | mergetree/mergetree.py:329-348 | effects apply in sequence: running two event lists one after the other equals running their concatenation |
| MergeEngine.Merger.constructor | mergetree/mergetree.py:152 | a fresh summary, with all counters and outputs empty |
| MergeEngine.Merger.ShellCommand | mergetree/mergetree.py:237-254 | a dry run prints the command; otherwise the OS gets it and a failure adds an error line without stopping |
| MergeEngine.Merger.Operate | mergetree/mergetree.py:259-273 | the command, then its counter |
| MergeEngine.Merger.Note | mergetree/mergetree.py:91-129 | the verbose trace line (only with `--verbose`), then the category counter |
| MergeEngine.Merger.OnlyInLower | mergetree/mergetree.py:320-322 | reports the entry and issues no command |
| MergeEngine.Merger.OnlyInUpper | mergetree/mergetree.py:324-327 | reports the entry and moves it to the same subpath under the lower root |
| MergeEngine.Merger.Compare | mergetree/mergetree.py:278-318 | the state afterwards is that of the decision table's events for the pair |
| MergeEngine.Merger.CompareTree | mergetree/mergetree.py:329-348 | the loops leave the state of the merge-join's events, in order |
| MergeEngine.Merger.MergeHead | mergetree/mergetree.py:332-344 | one turn advances `ia + ib` by at least one and keeps the outcome of the rest of the merge |
| MergeEngine.Merger.OnlyInLowerRest | mergetree/mergetree.py:345-346 | the remaining lower entries are each reported as only in lower |
| MergeEngine.Merger.OnlyInUpperRest | mergetree/mergetree.py:347-348 | the remaining upper entries are each reported and moved under the lower root |
| MergeEngine.MergeStep | mergetree/mergetree.py:332-344 | each of the three branches takes one entry off the lower list, the upper list, or both |
| MergeEngine.MergeRest | mergetree/mergetree.py:345-348 | once one list is used up, the other's entries are all unmatched |
| MergeProps.JoinCovers | mergetree/mergetree.py:329-348 | the merge-join visits each lower entry exactly once in order, and each upper entry exactly once in order |
| MergeProps.JoinPairsNamed | mergetree/mergetree.py:332-344 | `compare` is only called on two entries of the same name |
| MergeProps.JoinUnmatched | mergetree/mergetree.py:332-348 | on sorted lists, an entry reported only in lower (or upper) has no entry of its name in the other list |
| MergeProps.MergeIsJoin | mergetree/mergetree.py:329-348 | the events are the join with each step handled by only_in_lower, only_in_upper or compare |
| MergeProps.MergeEmptyUpper | mergetree/mergetree.py:329-348 | against an empty upper tree, every lower entry is reported only in lower and no command is issued; only `onlylower` changes |
| MergeProps.OnlyLowerTally | mergetree/mergetree.py:345-346 | n lower-only entries raise `onlylower` by n and nothing else |
| MergeProps.LowerOnlysReportOnly | mergetree/mergetree.py:320-322 | lower-only entries produce one report each and no command |
| MergeProps.UpperOnlysRebased | mergetree/mergetree.py:324-327 | each upper-only entry moves from `upper_base + subpath` to `lower_base + subpath` |
| MergeProps.MergeRebased | mergetree/mergetree.py:278-348 | every `mv` maps an upper path to the same subpath under the lower root, possibly with the backup suffix; every `rmdir` is of an upper directory; a lower file is removed only just before the upper file of its subpath is moved onto it |
| MergeProps.CompareRebased | mergetree/mergetree.py:278-318 | the same for one matched pair |
| MergeProps.CompareResolvesPair | mergetree/mergetree.py:289-318 | a non-directory pair gets exactly one decision; the upper entry is moved or removed exactly once unless `--strict` keeps it; the lower file is removed iff the upper regular file is strictly newer; a directory clash moves the upper entry to the lower path plus the backup suffix |
| MergeProps.DirPairDefers | mergetree/mergetree.py:280-284 | two directories make no decision of their own; their commands are the subtree merge's, then `rmdir` of the upper directory iff `--remove` |
| ChkReader.NextRecord | chkfdupes/chkfdupes.py:22-30 | `None` exactly at end of input; otherwise at least one line is consumed |
| ChkReader.NextRecordNotBlank | chkfdupes/chkfdupes.py:22-30 | a record never holds a blank line |
| ChkReader.Records | chkfdupes/chkfdupes.py:177-186 | `parse` never hands on an empty record |
| ChkReader.RecordsOfEncode | chkfdupes/chkfdupes.py:22-30 | reading fdupes output back gives exactly the groups it was written from |
| ChkReader.NslvReader.constructor | chkfdupes/chkfdupes.py:18-20 | nothing read yet, and `lineno` is 1 |
| ChkReader.NslvReader.Next | chkfdupes/chkfdupes.py:22-30 | returns the stripped lines up to the next blank line and consumes that line too; at the end, the pending lines or `None`; `lineno` stays one more than the lines consumed |
| ChkStats.WithDuplicates | chkfdupes/chkfdupes.py:57-60 | `num_duplicates` rises by n and `max_duplicates` becomes the larger of the old value and n; nothing else changes |
| ChkStats.AddedAllSumLargest | chkfdupes/chkfdupes.py:57-60 | from zero, `num_duplicates` is the sum of the group counts and `max_duplicates` the largest of them |
| ChkStats.WithDuplicatesConsistent | chkfdupes/chkfdupes.py:57-60 | `max_duplicates <= num_duplicates` is preserved |
| ChkStats.Stats.constructor | chkfdupes/chkfdupes.py:44-49 | all counters start at 0 |
| ChkStats.Stats.AddEntry | chkfdupes/chkfdupes.py:52-54 | only `num_entries` rises, by n |
| ChkStats.Stats.AddEmpty | chkfdupes/chkfdupes.py:55-56 | only `num_empty` rises, by n |
| ChkStats.Stats.AddDuplicates | chkfdupes/chkfdupes.py:57-60 | the counters become `WithDuplicates` of the old ones |
| ChkStats.Stats.AddSavingBlocks | chkfdupes/chkfdupes.py:61-62 | only `saving_blocks` rises, by n |
| ChkRecord.AlterCmds | chkfdupes/chkfdupes.py:129-135 | `rm dup` is issued iff `--hardlink` or `--delete`; `ln orig dup` iff `--hardlink`, and then after the `rm` |
| ChkRecord.Statted | chkfdupes/chkfdupes.py:147-152 | a name of the record is kept iff `lstat` succeeds on it, each with its own `lstat` result |
| ChkRecord.StattedAppend | chkfdupes/chkfdupes.py:147-152 | the kept entries follow record order: those of a concatenation are those of its first part, then those of its second |
| ChkRecord.StattedCount | chkfdupes/chkfdupes.py:147-154 | the number of kept entries is the number of positions of the record whose name `lstat` succeeds on |
| ChkRecord.SortByKey | chkfdupes/chkfdupes.py:157 | the result is ordered newest first, then fewest blocks |
| ChkRecord.SortByKeyPermutes | chkfdupes/chkfdupes.py:157 | the sort only reorders |
| ChkRecord.SortByKeyStable | chkfdupes/chkfdupes.py:157 | the sort is stable: for every key, the entries with that key keep their record order |
| ChkRecord.SortHead | chkfdupes/chkfdupes.py:157-160 | the kept original has the greatest mtime and, among those, the fewest blocks; on a full tie it is the earliest in the record |
| ChkRecord.Duplicates | chkfdupes/chkfdupes.py:162-173 | an entry counts iff its inode differs from the original's and its size is the same |
| ChkRecord.EmptyRecord | chkfdupes/chkfdupes.py:138-141 | an empty record only raises the entry and empty counters |
| ChkRecord.ScanOnly | chkfdupes/chkfdupes.py:143-145 | in scan-only mode `len(r) - 1` duplicates are added, with no `lstat` and no output |
| ChkRecord.FewerThanTwo | chkfdupes/chkfdupes.py:147-154 | with fewer than two stat-able names, no duplicates or blocks are recorded and only the `lstat` errors are printed |
| ChkRecord.ShellCalls | chkfdupes/chkfdupes.py:115-126 | a command goes to the OS, or in a dry run is only printed |
| ChkRecord.ShellsCalls | chkfdupes/chkfdupes.py:115-126 | a list of commands reaches the OS in order, or in a dry run is printed in order |
| ChkRecord.ChecksCommands | chkfdupes/chkfdupes.py:162-173 | the loop gives the OS exactly the `alter_duplicate` commands of each duplicate in turn, or prints them in a dry run |
| ChkRecord.CheckCommands | chkfdupes/chkfdupes.py:163-173 | one turn gives commands only for a duplicate |
| ChkRecord.DuplicatesCount | chkfdupes/chkfdupes.py:162-174 | when every other entry is a copy on its own inode, all of them are counted |
| ChkRecord.ParseNeverEmpty | chkfdupes/chkfdupes.py:177-186 | through `parse` the empty counter never moves, and the entry counter rises once per record |
| ChkRecord.ProcessedAllCounts | chkfdupes/chkfdupes.py:177-186 | processing nonempty records raises the entry counter by their number and leaves the empty counter alone |
| ChkRecord.RecordsStep | chkfdupes/chkfdupes.py:179-186 | the records `parse` processes are the one `next()` reads, then those after it |
| ChkRecord.Checker.constructor | chkfdupes/chkfdupes.py:77 | zero counters and an empty trace |
| ChkRecord.Checker.ShellCommand | chkfdupes/chkfdupes.py:115-126 | appends the dry-run line, or the OS call plus an error line when it fails |
| ChkRecord.Checker.AlterDuplicate | chkfdupes/chkfdupes.py:129-135 | appends the effects of `rm` then `ln`, as the options say |
| ChkRecord.Checker.ProcessRecord | chkfdupes/chkfdupes.py:137-174 | the counters and trace become those of `process_record`'s specification |
| ChkRecord.Checker.StatAll | chkfdupes/chkfdupes.py:147-152 | returns the stat-able entries in record order and prints one error per failing name |
| ChkRecord.Checker.CheckAll | chkfdupes/chkfdupes.py:159-174 | `ndups` is the number of duplicates, and `saving_blocks` rises by their blocks |
| ChkRecord.Checker.CheckOne | chkfdupes/chkfdupes.py:163-173 | one turn reports a duplicate iff the inode differs and the size matches; a duplicate adds its blocks |
| ChkRecord.Checker.Parse | chkfdupes/chkfdupes.py:177-186 | processes the reader's records in order, until end of input or the first empty record |
| HdupesStore.FileNode.constructor | hdupes/hdupes.py:27-30 | the node keeps its path and `lstat`, with no links |
| HdupesStore.FileNode.Link | hdupes/hdupes.py:35-36 | the path is appended to the links |
| HdupesStore.StoreOrdered | hdupes/hdupes.py:48-58 | after any adds, the dict's key order lists each stored inode exactly once |
| HdupesStore.StoreNodes | hdupes/hdupes.py:48-58 | an inode has a node iff some path to it was added; the node's path is the first such path and its links are the later ones, in order |
| HdupesStore.AddedKnown | hdupes/hdupes.py:52-54 | adding a known inode changes only that node's links |
| HdupesStore.FileStore.constructor | hdupes/hdupes.py:45-46 | the store starts empty |
| HdupesStore.FileStore.Add | hdupes/hdupes.py:48-58 | returns a fresh node iff the inode is new; otherwise `None`, and the path becomes a link |
| HdupesStore.FileStore.Insert | hdupes/hdupes.py:55-58 | a new inode gets a fresh node of its own, added last in key order |
| HdupesStore.FileStore.AddFile | hdupes/hdupes.py:63-71 | non-regular entries leave the store unchanged; regular ones are added |
| HdupesStore.FileStore.Nodes | hdupes/hdupes.py:60-61 | yields every stored node exactly once, in key order |
| HdupesTable.Appended | hdupes/hdupes.py:132-140 | the key's values gain the new value at the end; the bucket is bare iff the key was new; other keys are unchanged |
| HdupesTable.TableBuckets | hdupes/hdupes.py:132-140 | after any appends, a key is absent, holds its one value bare, or holds the list of all its k >= 2 values in order |
| HdupesTable.HashTable.constructor | hdupes/hdupes.py:127-130 | the table starts empty |
| HdupesTable.HashTable.Append | hdupes/hdupes.py:132-140 | the table becomes `Appended` of the old one, and list buckets keep at least two values |
| HdupesRead.Read | hdupes/hdupes.py:117 | `read(BUFSIZE)` returns the next at most `BUFSIZE` bytes; it is empty only at end of file, and short only at the end |
| HdupesRead.ChunksUnique | hdupes/hdupes.py:116-119 | there is only one way to cut a file into the chunks `read` returns |
| HdupesRead.ChunksChunked | hdupes/hdupes.py:116-119 | the chunking concatenates back to the content |
| HdupesRead.Calc | hdupes/hdupes.py:113-120 | at most `1 << level` chunks are fed; they are the first `(1 << level) * BUFSIZE` bytes, cut into `BUFSIZE` chunks |
| HdupesRead.CompareContent | hdupes/hdupes.py:153-166 | with offset 0 the answer is True iff the two contents are equal |
| Flatten.SplitJoin | flatten/flatten.py:52 | joining the pieces of `split` gives the path back |
| Flatten.SplitPieces | flatten/flatten.py:52 | no piece holds the separator |
| Flatten.SplitCount | flatten/flatten.py:52 | there is one more piece than there are separators |
| Flatten.KeptDepth | flatten/flatten.py:52-53 | a directory is kept iff its path holds fewer than `level` separators |
| Flatten.FlattenedDepth | flatten/flatten.py:55-56 | the source is one level below the directory; the destination is at the directory's own depth |
| Flatten.DeleteWhite | flatten/flatten.py:40-41 | the result is no longer than the input and holds no space, tab, newline or carriage return |
| Flatten.DeleteWhiteIdempotent | flatten/flatten.py:41 | deleting twice deletes nothing more |
| Flatten.DeleteWhiteAppend | flatten/flatten.py:41 | deletion works piece by piece |
| Flatten.DeleteWhiteCounts | flatten/flatten.py:32-41 | every other character keeps its number of occurrences |
| Flatten.ProcessSpec | flatten/flatten.py:39-45 | the destination is path, separator and name, with white space deleted under `-w`; the source is never altered; a dry run only prints |
| Flatten.ProcessDir | flatten/flatten.py:52-57 | a kept directory processes each of its files once; a too-deep one processes none |
| Flatten.ProcessDirFiles | flatten/flatten.py:54-57 | the i-th effect is that of the i-th file |
| Flatten.WalkDryRun | flatten/flatten.py:50-57 | a dry run renames nothing |

## Left out

- Printed text. The layouts of `Summary.report`, `Stats.report`, the verbose trace and the error messages are not modelled. Lines are kept as datatypes: the tag and subpath, the command, and the failing command.
- Real file-system calls (`os.listdir`, `os.lstat`, `os.rename`, `os.remove`, `os.rmdir`, `os.link`, `open`/`read`, `os.walk`). They become values: a listing tree, an `lstat` map, a set of failing commands and file contents as byte sequences.
- `lstat` and `listdir` failures while mergetree builds a snapshot. They are fatal in the source, so the model assumes every listed object has a status.
- Argument parsing. The options are records passed in.
- `st_mtime` is a float in the source; here it is an integer. Only its order is used.
- mergetree's strict byte comparison. The source leaves it unimplemented (`pass`), and so does the model.
- `FileItem.__str__` and `posixpath.join`. They are modelled as `Path` and `JoinPath`.
- `MergeSnapshot.SortNames` is an insertion sort. It is specified only by its result, as Python's sort is.
- The exception branch of `parse`. `next()` on a list of lines cannot raise, so the stale `r` after an exception cannot arise.
- `NslvReader.__iter__` and `__next__`. They are unused by `parse`.
- `HdupesRead.Calc` returns the chunks fed to the hasher, not a digest. SHA-1 is a foreign library.
- `compare_file_content` with an offset above 0. As written, that branch uses `d1`/`d2` before they are assigned.
- `FileStore.scan_directory` (an `os.walk` loop), the hdupes experimental main, `process_file` and `FileDigest.xxdbg`. They are script plumbing.
- `HashTable.dump` and `Tree._dump`. They are debug printing.
- The FileNode accessors `path()`, `size()` and `fileno()`. They are fields of the model.
- `HdupesTable.Appended` keeps a bare value and a list bucket apart. The source tells them apart with `isinstance(e, list)`, which would confuse a value that is itself a list. The values it stores are `FileNode`s.
- The `stats.trace()` progress output of `add_entry`.
- The saved-bytes figure of `Stats.report` (`saving_blocks * 512`). It is printing, like the rest of the report; the model keeps `saving_blocks`.
- `MergeSnapshot.BuildTree` drives the corrected `ProgressReporter`, so the tick lines it writes are those of the `count > mask` growth, not the ones the program as written prints (see ## Findings).
- chkfdupes's `lstat` results are one map for the whole of `parse`. An `rm` or `ln` issued for one record does not change what `lstat` reports for a later record. fdupes groups are disjoint, so a later record never names a file an earlier one changed.
- A failing `os.rename` in flatten. It is not inside a `try`, so in the source one failure aborts the whole walk. `Flatten.Walk` lists every rename and models no failure.
- rerename and pc. They are a wrapper over `re.sub` and a floating-point REPL.

## Findings

| source | as written | input that shows it | evidently intended | confidence | as-written member | corrected member |
|---|---|---|---|---|---|---|
| mergetree/mergetree.py:66-67 | the mask grows when `count >= mask`, so after count 1 it always stays ahead of the count; progress lines appear at counts 1 and 2, then only at multiples of 2048 | `start()` followed by four `increment()` calls: no line at count 4, though 4 is a power of two | grow when `count > mask`, so that lines appear at every power of two up to 1024 and then at every multiple of 2048 | not executed; medium | MergeProgress.FourthTickMissing | MergeProgress.ProgressReporter.Increment |
