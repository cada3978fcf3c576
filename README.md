# lrs listing engine in Dafny

A model of the deterministic core of `lrs`, a re-implementation of `ls` in Rust. It covers the steps of one listing run:

- Every command-line path (or `.` when there is none) is resolved into an entry through a metadata oracle.
- Each entry is classified by kind and given a quoted display name and width.
- Long-format field widths are folded into a running maximum.
- The entries are sorted stably by their lower-cased name.
- Directories are scheduled on a LIFO pending stack. In recursive mode a "leave" marker comes first, and a device/inode cycle guard watches the descent.
- A column count is picked for the short format, and the entries are walked row by row as `print_many_per_line` does.
- A three-level exit status is raised monotonically along the way.

The modules follow the source files:

| module | file | source |
|---|---|---|
| `Base` | `base.dfy` | shared `Option`, machine-word ranges, decimal digits |
| `Exit` | `exit.dfy` | `src/exit_status.rs`, with the errors of `src/error.rs` as opaque tags |
| `Arguments` | `args.dfy` | `src/args.rs`, `src/filesystem/ignore_mode.rs` |
| `Identity` | `identity.dfy` | `src/filesystem/dev_ino.rs` |
| `Loops` | `loops.dfy` | `src/filesystem/loop_manager.rs` |
| `PendingDirs` | `pending.dfy` | `src/filesystem/pending.rs` |
| `Entries` | `entries.dfy` | `src/filesystem/fileinfo.rs` |
| `Format` | `format.dfy` | `src/print/format_info.rs` |
| `Columns` | `columns.dfy` | `src/print/print_info.rs` |
| `Layout` | `layout.dfy` | the column search of `calculate_columns` in `src/working_set.rs` |
| `FileSystem` | `filesystem.dfy` | the path helpers, device numbers and the resolution logic of `gobble_file` in `src/filesystem/mod.rs` |
| `Listing` | `listing.dfy` | `src/working_set.rs` and the state changes of `gobble_file` |
| `Render` | `render.dfy` | the pure formatters and the row walk of `src/print/mod.rs` |

## Modelling choices

**Classes where the source mutates in place.**
- `PendingList`, `LoopManager`, `FormatInfo` and `WorkingSet` are classes whose methods change their fields, as the Rust `&mut self` methods do.
- The linked list of `PendingList` is a `seq<Pending>` with the head first.
- The `HashSet`/`Vec` pair of `LoopManager` is a `set` and a `seq`.
- `ExitStatus` is a `Copy` enum: `Update` returns the new value, and `WorkingSet` reassigns its field to it.

**Indices instead of references.** `sorted_files` holds weak references into `cwd_files`. Here it is a sequence of indices into `cwd_files`. The sort is insertion sort on an `array<nat>` of those indices. "Stable" means the sequence is strictly increasing in the pair (lower-cased name, original index).

**Metadata oracle.** The file system is a parameter `Oracle` with four total functions of the path:
- a Unicode check;
- `stat`;
- `lstat`;
- `read_link`.

`Resolve` is the functional specification of one `gobble_file` call. `WorkingSet.GobbleFile` is the imperative method proved against it.

**Foreign calls are replaced by simple stand-ins.**
- `UnicodeWidthStr::width` is one column per character.
- `to_lowercase` folds ASCII letters only.
- `digit_width`, whose module is not part of this model, is the number of decimal digits.
- `PathBuf::join` is `Join`: an absolute argument replaces the base, and otherwise a `/` is inserted unless the base is empty or already ends with one.

**Terminal width is a parameter.** It is passed as `Option<nat>` to the `WorkingSet` constructor, where `None` falls back to 80.

**Printing is an output sequence.** `print_many_per_line` appends `Emit` items to a sequence: an entry index, a run of padding spaces, or a newline.

**Where the specification and the code disagree, the model follows the code.**
- The exit status is `LrsMinorProblem` (1) for a failure on a command-line argument and `LrsFailure` (2) for a failure on a discovered entry. That is the reverse of "a caller argument entirely unresolvable" being the top level.
- The column search returns the largest fitting candidate *index*, not the largest fitting count. See Findings.
- The 2-character gap is skipped for the candidate's last column index (`idx == col`), not for the last occupied column of a row.
- A path that fails the Unicode check drops the entry even when it was discovered in a directory. Only a failed `stat` keeps a discovered entry without metadata.

## Model

| member | source | states |
|---|---|---|
| Exit.ExitStatus.Code | src/exit_status.rs:5-11 | the numeric value is at most 2 and is 0 exactly for `ExitSuccess` |
| Exit.ExitStatus.Update | src/exit_status.rs:14-21 | the new status is the old one or the error's status, whichever is numerically higher: it never lowers the status |
| Exit.DefaultStatus | src/exit_status.rs:5-8 | the default status has code 0 |
| Exit.FromBool | src/exit_status.rs:36-41 | `true` maps to code 1 (minor problem) and `false` to code 2 (failure) |
| Exit.IntoExitStatus | src/exit_status.rs:47-51 | an error never maps to success; its code is 1 for a command-line argument and 2 otherwise |
| Exit.StatusIgnoresErrorKind | src/exit_status.rs:47-51 | two different errors give the same status for the same `cli_arg` |
| Exit.CodeInjective | src/exit_status.rs:24-28 | different statuses have different numeric values |
| Exit.UpdateIdempotent | src/exit_status.rs:14-21 | repeating an update changes nothing |
| Exit.UpdateCommutes | src/exit_status.rs:14-21 | the order of two updates does not matter, and the result's code is the maximum of the three codes |
| Exit.UpdateAll | src/exit_status.rs:14-21 | folding a list of errors leaves the status alone when there are none; otherwise the code is the maximum of the old code and the error level |
| Base.DecimalRoundTrip | src/print/mod.rs:179-190 | reading back the decimal text of a number gives the number |
| Identity.NewDevIno | src/filesystem/dev_ino.rs:10-15 | the device and inode are stored unchanged |
| Identity.EqIsValueEquality | src/filesystem/dev_ino.rs:20-24 | two identities are equal exactly when both fields are equal |
| Identity.EqIsEquivalence | src/filesystem/dev_ino.rs:18-24 | equality is reflexive, symmetric and transitive |
| Identity.HashWords | src/filesystem/dev_ino.rs:26-31 | the hash consumes exactly two words |
| Identity.HashAgreesWithEq | src/filesystem/dev_ino.rs:26-31 | identities hash equally exactly when they are equal |
| Loops.Elems | src/filesystem/loop_manager.rs:10-16 | the set of a stack holds exactly its elements |
| Loops.LoopManager.constructor | src/filesystem/loop_manager.rs:19-24 | a new manager has an empty set and an empty stack |
| Loops.LoopManager.VisitDir | src/filesystem/loop_manager.rs:31-36 | returns true exactly when the identity was not active; afterwards it is active and the stack is unchanged |
| Loops.LoopManager.DevInoPush | src/filesystem/loop_manager.rs:38-42 | the identity is appended to the stack and the set is unchanged |
| Loops.LoopManager.DevInoPop | src/filesystem/loop_manager.rs:44-49 | needs a non-empty stack; removes the top and deletes it from the set |
| Loops.EnterKeepsConsistent | src/filesystem/loop_manager.rs:31-42 | pushing an identity the visit reported as new keeps the set equal to the stack's elements and the stack free of duplicates |
| Loops.LeaveKeepsConsistent | src/filesystem/loop_manager.rs:44-49 | popping keeps the set equal to the stack's elements, and the popped identity is no longer active |
| Loops.EnterDirectory | src/filesystem/mod.rs:277-289 | visit-then-push: an identity is entered exactly when it was not active, the manager stays consistent, and a repeated identity changes nothing |
| Loops.LeaveThenReenter | src/filesystem/loop_manager.rs:31-49 | after popping the top, visiting it again succeeds and restores the previous state |
| Loops.VisitTwice | src/filesystem/loop_manager.rs:31-36 | a second visit of the same identity returns false and leaves the state as the first visit left it |
| PendingDirs.Pending.GetName | src/filesystem/pending.rs:19-22 | defined only for a node with a name, and returns that name |
| PendingDirs.PendingList.constructor | src/filesystem/pending.rs:31-35 | a new list is empty and has no next node |
| PendingDirs.PendingList.HasNext | src/filesystem/pending.rs:37-39 | true exactly when the list is non-empty |
| PendingDirs.PendingList.Peek | src/filesystem/pending.rs:41-46 | true exactly when the list holds at least two nodes |
| PendingDirs.PendingList.QueueDirectory | src/filesystem/pending.rs:48-59 | the new node becomes the head, with the old list as its tail |
| PendingDirs.PendingList.DequeueDirectory | src/filesystem/pending.rs:61-67 | returns the head and leaves the tail; on an empty list it returns None and changes nothing |
| PendingDirs.QueueThenDequeue | src/filesystem/pending.rs:48-67 | dequeuing right after queuing returns the queued node and restores the list |
| PendingDirs.LifoOrder | src/filesystem/pending.rs:48-67 | queuing a, b, c then dequeuing three times yields c, b, a and empties the list |
| Entries.NewFileType | src/filesystem/fileinfo.rs:25-37 | file beats directory beats the other kinds; a directory is `ArgDirectory` exactly for a command-line argument; `Unknown` exactly when no kind flag is set |
| Entries.ClassificationRecoversKind | src/filesystem/fileinfo.rs:25-37 | each kind is recovered from its own file-type flags, so no two kinds collapse |
| Entries.Determine | src/filesystem/fileinfo.rs:39-43 | classifies the metadata's file type; `ArgDirectory` only for a command-line argument |
| Entries.AnyWhitespace | src/filesystem/fileinfo.rs:71-73 | true exactly when some character of the name is whitespace |
| Entries.FileInfo.IsDirectory | src/filesystem/fileinfo.rs:87-92 | true exactly for `Directory` and `ArgDirectory` |
| Entries.FileInfo.QuotedName | src/filesystem/fileinfo.rs:94-100 | the name in single quotes when quoting, else the name unchanged |
| Entries.NewFileInfo | src/filesystem/fileinfo.rs:69-85 | keeps every given field; quotes exactly the names with whitespace; the width is the display width of the quoted name |
| Entries.LexLessIrreflexive | src/filesystem/fileinfo.rs:114-123 | no name sorts before itself |
| Entries.LexLessTransitive | src/filesystem/fileinfo.rs:114-123 | the name order is transitive |
| Entries.LexLessTotal | src/filesystem/fileinfo.rs:114-123 | any two different names are ordered one way or the other |
| Entries.BeforeTransitive | src/filesystem/fileinfo.rs:114-123 | the stable order (lower-cased key, then position) is transitive |
| Entries.BeforeTotal | src/filesystem/fileinfo.rs:114-123 | the stable order ranks any two different positions |
| Entries.InsertAt | src/filesystem/fileinfo.rs:114-123 | one insertion step extends the sorted prefix by one and permutes the array |
| Entries.SortByKey | src/filesystem/fileinfo.rs:114-123 | the whole index array ends sorted by the stable order and is a permutation of its start |
| Entries.SortedFiles | src/filesystem/fileinfo.rs:129-138 | returns a permutation of all entry indices, stably sorted by lower-cased name |
| Entries.StablySortedMeansOrdered | src/filesystem/fileinfo.rs:114-138 | in the result, earlier entries have a smaller or equal key, and entries with equal keys keep their original order |
| Format.FormatInfo.constructor | src/print/format_info.rs:13-23 | all six widths start at 0 |
| Format.FormatInfo.UpdateHardLinkLength | src/print/format_info.rs:25-29 | the link-count width becomes the maximum of old and new; nothing else changes |
| Format.FormatInfo.UpdateUserLength | src/print/format_info.rs:31-35 | the owner width becomes the maximum of old and new; nothing else changes |
| Format.FormatInfo.UpdateGroupLength | src/print/format_info.rs:37-41 | the group width becomes the maximum of old and new; nothing else changes |
| Format.FormatInfo.UpdateMajorLength | src/print/format_info.rs:49-53 | the major width becomes the maximum of old and new; nothing else changes |
| Format.FormatInfo.UpdateMinorLength | src/print/format_info.rs:55-59 | the minor width becomes the maximum of old and new; nothing else changes |
| Format.FormatInfo.UpdateFileSizeLength | src/print/format_info.rs:61-65 | the size width becomes the maximum of old and new; nothing else changes |
| Format.FormatInfo.UpdateFileSizeLengths | src/print/format_info.rs:67-71 | maxes the major width with a, the minor width with b and the size width with a+b+2; no width decreases |
| Format.AccumulateIsMax | src/print/format_info.rs:25-71 | a run of updates ends at the maximum of the start and every argument |
| Format.OrderIrrelevant | src/print/format_info.rs:25-71 | the final width depends only on which values were folded, not on their order or repetition |
| Format.UpdateIdempotent | src/print/format_info.rs:25-71 | applying the same update twice equals applying it once |
| Columns.NewPrintInfo | src/print/print_info.rs:12-24 | the line length is the terminal width or 80, and `max_idx` is the line length divided by 3, rounded down |
| Columns.MinWidths | src/print/print_info.rs:52-55 | a fresh column array holds the minimum width 3 in every column |
| Columns.SumMinWidths | src/print/print_info.rs:52-56 | the starting line length 3·(i+1) is the sum of the starting column array |
| Columns.InitColumnInfo | src/print/print_info.rs:49-66 | exactly m candidates; candidate i has i+1 columns of width 3, line length equal to their sum, and is valid |
| Layout.RowsCover | src/working_set.rs:149 | every candidate has at least one row, and its rows hold all entries |
| Layout.ColumnOfBound | src/working_set.rs:149-154 | every column index is at most the candidate's last index |
| Layout.ColWidthIsMax | src/working_set.rs:156-160 | a column's width is the largest padded entry width put in it, and at least 3 |
| Layout.ColWidthGrows | src/working_set.rs:158-160 | column widths never decrease as entries are scanned |
| Layout.LineLenAtLeastMinimum | src/print/print_info.rs:56 | a candidate's line length is never below 3 per column |
| Layout.FitsStaysFalse | src/working_set.rs:148-162 | once a candidate is invalid it stays invalid |
| Layout.ScanEntry | src/working_set.rs:147-163 | one scan step keeps the line length equal to the column sum and the validity equal to "fits"; an invalid candidate is left untouched |
| Layout.ScanAll | src/working_set.rs:140-165 | after all entries, every candidate describes the widths of all entries and whether they fit |
| Layout.PickColumns | src/working_set.rs:167-173 | returns the count itself when it is at most 1; otherwise the largest valid index in 1..count-1, or 1 |
| Layout.CalculateColumns | src/working_set.rs:132-177 | the column state is fully scanned and the result is the as-written pick |
| Layout.FitsAntitone | src/working_set.rs:143-165 | if wider names fit in a layout, narrower names fit in it too |
| Layout.FittingColumnCount | src/working_set.rs:167-176 | intended pick: a column count (not an index) whose layout fits, with no larger candidate fitting, and at least 1 for a non-empty listing |
| Layout.WiderNamesFewerColumns | src/working_set.rs:143-176 | widening names never increases the fitting column count |
| Layout.AsWrittenPickMonotone | src/working_set.rs:143-176 | the as-written pick also never grows when names widen |
| Layout.UnevenTwoColumns | src/working_set.rs:143-165 | for widths 1, 1, 70, 70, 1 the two-column candidate has columns 72 and 70, a 142-character line |
| Layout.UnevenThreeColumns | src/working_set.rs:143-165 | for the same widths the three-column candidate has columns 3, 72 and 3, a 78-character line |
| Layout.UnevenFourColumns | src/working_set.rs:143-165 | for the same widths the four-column candidate needs at least 81 characters |
| Layout.UnevenFiveColumns | src/working_set.rs:143-165 | for the same widths the five-column candidate needs at least 153 characters |
| Layout.UnevenPick | src/working_set.rs:132-176 | on an 80-column line the as-written pick for those widths is 2 |
| Layout.OverflowAsWritten | src/print/mod.rs:51-56 | for those widths `calculate_columns` returns 2 although three columns fit in 78 characters, so the printer lays out `columns[1]`, whose two columns need 142 characters on an 80-column line |
| Layout.TwoShortNamesAsWritten | src/working_set.rs:167-176 | two one-character names on an 80-column line fit in two columns, yet the as-written pick is 1 |
| Layout.NarrowTerminalAsWritten | src/working_set.rs:138 | on a 2-column terminal the as-written pick is 0, which `print_many_per_line` then divides by |
| FileSystem.Join | src/filesystem/mod.rs:62-68 | an absolute path replaces the base; otherwise the result starts with the base and ends with the path |
| FileSystem.ResolvePath | src/filesystem/mod.rs:62-68 | without a directory, or for an absolute path, the path is unchanged; otherwise it is joined to the directory |
| FileSystem.LastComponentShape | src/filesystem/mod.rs:70-75 | the component has no '/', is a suffix of the path, and is the whole path or follows a '/' |
| FileSystem.BasenameOfTail | src/filesystem/mod.rs:70-75 | any '/'-free suffix that is the whole path or follows a '/' is the last component, so the component is unique |
| FileSystem.DotTail | src/filesystem/mod.rs:77-83 | a "." or ".." component is the whole path or follows a '/' |
| FileSystem.BasenameCharacterisation | src/filesystem/mod.rs:77-83 | the basename is "." or ".." exactly when the path is ".", ".." or ends in "/." or "/.." |
| FileSystem.FileNameConcat | src/filesystem/mod.rs:85-91 | no separator is added after a trailing '/', one is added otherwise; the result starts with the directory and ends with the file name |
| FileSystem.LastComponentAfterSlash | src/filesystem/mod.rs:70-75 | the last component of `prefix/name` is that of `name` |
| FileSystem.ConcatBasename | src/filesystem/mod.rs:70-91 | joining a name to a directory keeps the name's last component |
| FileSystem.ConcatAgreesWithJoin | src/filesystem/mod.rs:62-91 | for a relative name and a non-empty directory, `file_name_concat` and path joining agree |
| FileSystem.Major | src/filesystem/mod.rs:239-241 | the major number is below 4096 and is bits 8..19 of the device |
| FileSystem.Minor | src/filesystem/mod.rs:243-245 | the minor number's low 8 bits are the device's low 8 bits, and the rest are bits 20..43 |
| FileSystem.DeviceRoundTrip | src/filesystem/mod.rs:247-249 | a device number built from a major below 4096 and a 32-bit minor decodes to the same pair |
| FileSystem.NeedsStat | src/filesystem/mod.rs:106-109 | metadata is needed exactly for an argument, in long mode, for kinds `Unknown`, `Directory` or `Normal`, or for a link when dereferencing |
| FileSystem.ReadLinkInfo | src/filesystem/mod.rs:161-196 | at most one link error; an error exactly when the target's metadata is missing; the target name is recorded exactly when the link can be read |
| FileSystem.Resolve | src/filesystem/mod.rs:93-237 | a dropped entry always comes with an error and counts no blocks |
| FileSystem.ResolveEntry | src/filesystem/mod.rs:111-157 | an entry appears exactly when the path is usable and it has metadata or was found in a directory; an entry without metadata keeps the directory's kind |
| FileSystem.ResolveMetadata | src/filesystem/mod.rs:124-199 | with metadata the kind is classified from it and the blocks returned are its block count; otherwise 0 |
| FileSystem.ResolveErrors | src/filesystem/mod.rs:111-196 | at most one error per name; none exactly when metadata was found and, for a link in long mode, its target was reached |
| FileSystem.LinkOnlyInLongMode | src/filesystem/mod.rs:161-196 | a link target is recorded only for a symbolic link in long mode |
| FileSystem.FoldDevice | src/filesystem/mod.rs:211-219 | the major and minor widths become the maximum of the old width and the digit widths of the device numbers; the size width becomes the maximum of the old width and both plus 2 for ", "; nothing else changes |
| FileSystem.FoldWidths | src/filesystem/mod.rs:201-223 | link count, owner and group widths always fold; for a device the major and minor widths become the maximum with the digit widths of the `st_rdev` numbers and the size width the maximum with their sum plus 2; other kinds fold the size; no width decreases |
| Listing.Appended | src/filesystem/mod.rs:226-234 | a resolution appends one entry exactly when it produced one |
| Listing.ArgStep | src/working_set.rs:78-80 | processing the next argument extends the entries, status and widths by that argument's resolution |
| Listing.ArgInvariant | src/working_set.rs:78-80 | the argument loop's invariant survives one `gobble_file` call |
| Listing.ArgEntriesFacts | src/working_set.rs:71-81 | every argument yields at most one entry, which has metadata, inode 0 and one of the given names; a dropped argument raises the status |
| Listing.DirNodesStep | src/working_set.rs:108-121 | walking the sorted entries backwards puts each directory's node in front of those of the later entries |
| Listing.DirNodesFacts | src/working_set.rs:108-121 | every queued node has a name and the caller's `cli_arg`; with a directory name, no node is for "." or ".." |
| Listing.WithoutArgDirs | src/working_set.rs:123 | keeps exactly the indices whose entry is not an `ArgDirectory` |
| Listing.RetainKeepsOrder | src/working_set.rs:123 | removing `ArgDirectory` entries keeps the rest stably sorted |
| Listing.SortedWidths | src/working_set.rs:143-145 | the widths, in sorted order, that the column search reads |
| Listing.WorkingSet.constructor | src/working_set.rs:41-69 | the ignore mode is minimal for `all`, else dot-and-dot-dot for `almost_all`, else default; format info exists exactly in long mode and is all zero; everything else starts empty |
| Listing.WorkingSet.FileIgnored | src/working_set.rs:126-130 | never under minimal; under default exactly for names starting with '.'; under dot-and-dot-dot exactly for "." and ".." |
| Listing.WorkingSet.GobbleFile | src/filesystem/mod.rs:93-237 | appends the resolution's entry, returns its blocks, raises the status by its errors and folds its widths |
| Listing.WorkingSet.LookUpPath | src/filesystem/mod.rs:104-157 | reports whether the path checks pass and, if so, the full name and the oracle's metadata for it |
| Listing.WorkingSet.AppendWithMetadata | src/filesystem/mod.rs:159-234 | appends an entry classified from the metadata, reads a link only in long mode, returns the block count and folds the widths |
| Listing.WorkingSet.ReadSymbolicLink | src/filesystem/mod.rs:161-196 | returns the link's target name and metadata and raises the status by the link's error, changing nothing else |
| Listing.WorkingSet.FoldIntoFormatInfo | src/filesystem/mod.rs:201-223 | the format info becomes the old widths folded with this entry's |
| Listing.WorkingSet.ProcessArgumentPaths | src/working_set.rs:71-81 | with no paths it queues "." as an argument; otherwise every path is resolved as an argument of unknown kind, inode 0 and no parent, in order |
| Listing.WorkingSet.ClearFiles | src/working_set.rs:83-93 | empties the entries and resets the format info to zero in long mode, leaving the sorted list and the rest unchanged |
| Listing.WorkingSet.SortFiles | src/working_set.rs:95-98 | the sorted list becomes a stable, case-insensitive sorted permutation of all entries |
| Listing.WorkingSet.ExtractDirsFromFiles | src/working_set.rs:100-124 | pushes the marker first (with a directory, in recursive mode), then the directories in reverse sorted order, and drops the `ArgDirectory` entries from the sorted list |
| Listing.WorkingSet.QueueDirectories | src/working_set.rs:108-121 | the pending stack gains exactly the directory nodes, so dequeuing yields them in sorted order |
| Listing.WorkingSet.QueueIfDirectory | src/working_set.rs:111-120 | queues a directory, skips "."/".." under a parent, and uses the name itself when there is no parent or it is absolute, else the joined name |
| Listing.WorkingSet.CalculateColumns | src/working_set.rs:132-177 | stores the scanned column state and returns the as-written pick over the sorted widths |
| Render.FileTypeChar | src/print/mod.rs:141-153 | 'd' exactly for both directory kinds and '?' exactly for `Unknown` |
| Render.FileTypeCharDistinguishes | src/print/mod.rs:141-153 | only the two directory kinds share a character |
| Render.MasksAreShifts | src/print/mod.rs:159-171 | the nine permission masks are 0o400 shifted right by 0..8 |
| Render.PermissionBits | src/print/mod.rs:159-171 | nine permission characters |
| Render.ShiftingReadsEveryMask | src/print/mod.rs:159-171 | reading the owner bits and shifting the mode left by 3 twice reads every class's bits |
| Render.PermissionsToString | src/print/mod.rs:156-177 | always 10 characters: the type character, then "?????????" without metadata or the permission characters of the mode |
| Render.ExecutableIffSomeX | src/print/mod.rs:265-271 | executable exactly when there is metadata and some execute bit is set |
| Render.ExecuteBits | src/print/mod.rs:30 | `S_IXUGO` holds exactly the three execute bits |
| Render.Spaces | src/print/mod.rs:32-37 | n spaces |
| Render.Indent | src/print/mod.rs:32-37 | emits max(0, to − from) spaces |
| Render.RightAlign | src/print/mod.rs:179-216 | pads on the left to the width and never truncates |
| Render.UnpadSpaces | src/print/mod.rs:179-216 | removing the left padding gives back the text |
| Render.NumberField | src/print/mod.rs:179-216 | the field is as wide as the number or the width; stripped of padding it reads back the number, or "?" without metadata |
| Render.AlignedReadsBack | src/print/mod.rs:179-216 | the shown digits strip back out of the aligned field and parse to the value |
| Render.NLinkField | src/print/mod.rs:179-190 | right-aligned link count, or "?" without metadata |
| Render.OwnerField | src/print/mod.rs:192-203 | right-aligned owner id, or "?" without metadata |
| Render.GroupField | src/print/mod.rs:205-216 | right-aligned group id, or "?" without metadata |
| Render.DeviceField | src/print/mod.rs:219-235 | the major and minor, each aligned to its width, joined by ", " |
| Render.DeviceFieldDecodes | src/print/mod.rs:219-235 | splitting the device field at ", " reads back both numbers |
| Render.FileSizeField | src/print/mod.rs:219-235 | as written: a device shows the major/minor of `st_dev`, anything else its size, "?" without metadata |
| Render.DeviceSizeField | src/print/mod.rs:219-235 | intended: a device shows the major/minor of `st_rdev` |
| Render.LongFieldsAligned | src/filesystem/mod.rs:201-223 | with widths folded from an entry, its link, owner, group and size fields are exactly as wide as their columns |
| Render.DeviceFieldAligned | src/print/mod.rs:219-235 | with widths folded from a device, its intended field is exactly major width + 2 + minor width |
| Render.DeviceFieldFromStDev | src/print/mod.rs:225 | for `/dev/null` (`st_rdev` 1:3) stored on a file system with `st_dev` 10:0, the as-written field shows "10, 0" and is one character wider than the widths folded from `st_rdev`, while the intended one shows "1, 3" at exactly that width |
| Render.SymlinkPathToString | src/print/mod.rs:274-279 | "-> " followed by the target when there is one, else "" |
| Render.RowCountBounds | src/print/mod.rs:52 | a non-empty listing has between 1 and n rows, and they hold all entries |
| Render.StrideIsProduct | src/print/mod.rs:58-82 | the stride walk's offset is the column count times the rows |
| Render.RowOutputLists | src/print/mod.rs:63-80 | row r lists exactly r, r+rows, … below n, ascending |
| Render.RowOutputHasNoNewline | src/print/mod.rs:63-80 | a row's inner loop emits no newline |
| Render.RowsUpToNewlines | src/print/mod.rs:58-82 | the first k rows emit exactly k newlines |
| Render.EveryEntryOnce | src/print/mod.rs:52-82 | every index below n is emitted exactly once, and each row ends with one newline |
| Render.PrintRow | src/print/mod.rs:63-81 | the row loop emits the row's specification output |
| Render.PrintManyPerLine | src/print/mod.rs:49-83 | stores the column state, picks the columns as written, and emits all rows of ceil(n/cols) rows each |

## Left out

- Output is a sequence of `Emit` items rather than `print!`. The error messages on standard error, their texts (`src/error.rs`, `src/filesystem/error.rs`) and the `ExitCode` conversion are not modelled; errors are opaque tags.
- `print_dir` and `open_dir` (directory enumeration and headers) are I/O. Only their visit-then-push protocol appears, as `Loops.EnterDirectory`.
- `src/main.rs` is not part of this model: argument parsing, the Ctrl-C handler with its shared abort flag, and the drain loop that sequences `print_dir` calls.
- The terminal-size query is replaced by a width parameter.
- `print_long_format` is left out as a whole: its line assembly, the timestamp of `time_stamp` and the colour codes of `quoted_name_to_string`. Its fields are modelled one by one.
- `init_loop_detection` only reserves capacity, which has no observable effect.
- `Rc`/`Weak` ownership and the `unwrap` panics on dropped references are left out. Indices into `cwd_files` cannot dangle.
- `usize` overflow is not modelled. Widths, counts and line lengths are unbounded naturals, so no addition wraps.
- Display width is one column per character, and lower-casing folds ASCII letters only.
- `FormatInfo` is exposed through its `View()` as a `Widths` value. The six fields are its state.
- Render.PrintManyPerLine: requires `max_idx > 0`. The source divides by zero when the terminal is narrower than 3 columns; see Findings.
- Entries.SortedFiles: the sort is insertion sort on an index array. Rust's `sort_by_key` merge sort is not reproduced, only its result: a stable sorted permutation.

## Findings

| source | as written | input that shows it | evidently intended | confidence | as-written member | corrected member |
|---|---|---|---|---|---|---|
| src/working_set.rs:167-176 | the loop decrements `cols` before testing `columns[cols].valid_len`, so it returns the largest fitting candidate index (count − 1), and `print_many_per_line` uses it as a count and prints with `columns[cols - 1]`, a candidate that need not fit, so a line can be wider than the terminal | two names of width 1 on an 80-column terminal: two columns fit, yet the result is 1; widths 1, 1, 70, 70, 1 on an 80-column terminal: three columns fit in 78 characters, yet the result is 2 and the two printed columns need 142 characters | return the largest column count whose layout fits | not executed | Layout.TwoShortNamesAsWritten, Layout.OverflowAsWritten | Layout.FittingColumnCount |
| src/working_set.rs:138 | with a terminal narrower than 3 columns, `max_idx` is 0, so `calculate_columns` returns 0, and `src/print/mod.rs:52` divides by it | terminal width 2 with one entry: the result is 0 | at least one column for a non-empty listing | not executed | Layout.NarrowTerminalAsWritten | Layout.FittingColumnCount |
| src/print/mod.rs:225 | the size column of a device decodes `st_dev` (the device holding the node), while the widths were folded from `st_rdev` (`src/filesystem/mod.rs:213`) | `/dev/null` (`st_rdev` 1:3) on a disk with `st_dev` 10:0 shows "10, 0", wider than the 4-column field folded from 1:3 | decode `st_rdev`, the device the node stands for | not executed | Render.DeviceFieldFromStDev | Render.DeviceSizeField |
