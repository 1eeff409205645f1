# Radmind, verified

Radmind keeps machines identical. `fsdiff` compares a sorted walk of the filesystem with a
stack of sorted transcripts and prints edits; `lapply` applies edits; `lmerge` flattens a
stack of transcripts into one; `lcreate` sends files to a server, and the server decides
which names a client may ask for. This project models that machinery in Dafny and proves
what it is for:

* a diff followed by an apply converges: exactly when no step fails, and exactly when a
  second diff is silent, both told from the inputs alone;
* the diff is the exact merge of the walk with what the stack of transcripts says, negative
  directories and exclude patterns included;
* the transcript that `fsdiff -C` prints, put on top of the stack, describes the filesystem;
* `lapply`'s list of directories to remove works in the right order for every input;
* `lmerge` keeps the meaning of the stack, and exactly which "-" lines it loses;
* the server's access list is the closure of its command files, and the pipelined upload is
  right in every interleaving.

Below these lie the path order, the line format with its escapes and its tokeniser, the
exclude patterns, the hard-link index, the linked list and base64.

## Layout

| files | contents |
|---|---|
| `paths`, `pathcmp` | paths, their order, subtrees; the comparison as the C code computes it |
| `entries`, `trees`, `views` | objects, lines, `t_compare` and `t_print`; tree-shaped filesystems; what a stack of transcripts says and what `transcript_select` does to it |
| `transcript`, `setup` | the stack as a class with cursors; how it is built |
| `fslist`, `journal`, `walkrules`, `fsdiff` | sorted directory reading; what a run has met; facts about the walk; the walk itself as a class |
| `update`, `lapply`, `removelist` | one applied line; the applier as functions and as a class; the discipline of its remove list |
| `landing`, `buffers`, `converge`, `cycle`, `limits` | what one line brings about; what the applier's stat buffer and last header hold when a removed directory's turn comes; convergence; the programs put together; inputs on which the conditions matter |
| `overload`, `lmerge`, `mergeminus` | the closure of `fsdiff -C`; the merger; which lines come out of it |
| `kfile`, `stor`, `pipeline` | the access list; one upload; all runs of the upload protocol |
| `code`, `argcargv`, `tline`, `lineformat` | escapes, tokeniser, fields, the transcript line of each type |
| `hardlink`, `dlist`, `wildcard`, `base64` | supporting structures |

Programs that change state are classes and loops; each is tied to a function of its inputs,
and the results are lemmas about that function. A filesystem is a map from paths to objects;
a system call is a partial function on such maps, None being an error return. Program exits
are None or a false `ok`. A path is a string of bytes other than NUL.

## Where the code differs from what one would expect

Each of these is the code's behaviour; the lemma named shows it.

* Comparing without regard to case is an order exactly on ASCII paths: a byte above 127 reads
  as negative, so with such a byte `c` the paths "/c", "/c/c" and "/cc" sort in a circle
  (`PathCmp.HighByteCycle`; `PathCmp.CaseInsensitiveOrderIffAscii`).
* `update` re-creates a symbolic link but calls `lchown` only if the stat buffer has another
  owner than the line, and the buffer is not that of the new link. It is that of the object
  that was there before (`Limits.StaleOwner`), or, where a directory made way for the link,
  that of the object of the next line (`Limits.BorrowedOwner`). The link then becomes the
  property of whoever runs `lapply`, and the next diff reports it. `Buffers.BufferFor` tells
  the buffer from the inputs, and the second diff is silent exactly if with it all links are
  kept (`Convergence.SecondDiffIsSilentIff`).
* A directory that makes way for a file is replaced when the list is cut back, and the file
  is then requested as the last header read says. If that header is the special transcript's
  and the file's is not, the wrong file is asked for (`Limits.WrongRequest`). The apply
  succeeds exactly if no such request goes wrong (`Convergence.ApplySucceedsIff`).
* With -C a transcript-only name printed just before a directory sets `fs_minus`, and the
  exclude patterns then do not count for the entries of that directory; for those of any
  other they do (`WalkRules.ExcludedWithC`).
* A name listed below a negative directory is looked up there, unless it lies below an
  excluded directory whose parent has a later entry: then the call for that entry takes it for
  one that only the transcripts have, although it exists (`Limits.MissedBelowExcluded`;
  exactly when: `WalkRules.WholeRunExact`).
* `lmerge` does not take back a match when another candidate takes over, so with three inputs
  an unmatched "-" line can be lost and a matched one kept (`MergeMinus.StaleMatch`; exactly
  which lines come out of any number of inputs: `MergeMinus.MergedExactly`).
* A name listed as a transcript before it is listed as a command file is never read as one
  (`Kfiles.ClashLosesNames`; what that costs: `Kfiles.AccessListIsClosure`).
* A '*' that is not the last character of a pattern leaves at least one character to the
  rest, so "/a**" does not match "/a" (`Wildcards.TwoStars`; exactly when a pattern is
  decided rightly on all paths: `Wildcards.ExactIff`).

## Model

| member | source | states |
|---|---|---|
| Paths.LtIrreflexive | pathcmp.c:20-46 | no path is before itself |
| Paths.LtTransitive | pathcmp.c:20-46 | the path order is transitive |
| Paths.LtTotal | pathcmp.c:20-46 | of two different paths one is before the other |
| Paths.UnderAfter | pathcmp.c:55-86 | a directory comes before everything in its tree |
| Paths.UnderTransitive | pathcmp.c:55-86 | a child of a child is a child |
| Paths.UnderAntisymmetric | pathcmp.c:55-86 | two paths that hold each other are equal |
| Paths.SubtreeContiguous | pathcmp.c:55-86 | a subtree, the root's included, is an interval of the path order |
| Paths.AfterSubtree | pathcmp.c:55-86 | a later path outside a subtree comes after all of it |
| Paths.SiblingSubtrees | fsdiff.c:224-241 | the whole tree of the earlier of two siblings comes before the tree of the later one |
| PathCmp.PathCaseCmp | pathcmp.c:20-46 | the loop returns the sign of the comparison, and with case its sign decides the order |
| PathCmp.PathCmp | pathcmp.c:48-53 | negative, zero and positive exactly for before, equal and after |
| PathCmp.CmpDecidesLt | pathcmp.c:20-46 | the comparison with case decides the lexicographic order in which '/' is least |
| PathCmp.PathCmpIsStrictTotalOrder | pathcmp.c:20-46 | with case: antisymmetric, zero only for equal paths, transitive |
| PathCmp.IsChildIsUnder | pathcmp.c:55-86 | ischildcase decides being the path or lying in the tree below it |
| PathCmp.FoldedCmp | pathcmp.c:26-45 | on ASCII, ignoring case is comparing the lower-case forms |
| PathCmp.CaseInsensitiveIsTotalPreorder | pathcmp.c:20-46 | on ASCII, without case: a total preorder whose ties are equality up to case |
| PathCmp.CaseInsensitiveSubtreeContiguous | pathcmp.c:55-86 | subtrees are intervals without regard to case too |
| PathCmp.CaseInsensitiveOrderIffAscii | pathcmp.c:30-40 | without case it is an order on the full paths over an alphabet if and only if the alphabet is ASCII |
| PathCmp.HighByteCycle | pathcmp.c:30-40 | with a byte c above 127, "/c", "/c/c" and "/cc" sort in a circle |
| Entries.SilentIffAllAlike | transcript.c:480-671 | nothing is printed if and only if every name was found on both sides and type, size, checksum, time, owner, mode, link target and device numbers agree, each as far as it counts for that type and transcript |
| Entries.SameIffAlike | transcript.c:521-665 | t_compare finds no difference exactly if the attributes that count agree: for files of positive transcripts size, checksum with -c, time without -t; owner and mode but for hard links, and for links and negative character devices only where they count; targets and device numbers |
| Entries.DownloadIff | transcript.c:527-564 | a new object is asked for exactly if the type differs, or, but for negative transcripts, the size or checksum of a file does, or without -c and -t its time |
| Entries.StatusNegIff | transcript.c:575-583 | the time of the filesystem is kept exactly for files of a negative transcript whose owner or mode changes with -A |
| Entries.EventPrints | transcript.c:304-478 | one name that differs: one line, with the sign, the attributes, the 12 mode bits, the time and the checksum that -A or -C asks for, after a header where the transcript must be named and was not the last one named |
| Entries.AlikePrintsNothing | transcript.c:480-671 | a name found on both sides prints nothing exactly if it is alike |
| Views.ViewMap | transcript.c:695-758 | a finite map that is what the stack says: leftmost line per path, without "-", excluded and outside lines |
| Views.FirstLineDecides | transcript.c:725-754 | the first transcript that lists a path decides: a "-" or a path outside the prefix says nothing, an excluded path only if the line is of the special transcript, and any other line is what the stack says |
| Views.UnlistedIsNone | transcript.c:695-758 | of a path no transcript lists the stack says nothing |
| Views.SelectSelects | transcript.c:695-758 | on sorted transcripts the search ends at one that is alone at the least visible path, or at the last one with all read |
| Views.SelectKeepsView | transcript.c:695-758 | selecting changes nothing of what the stack says about any path |
| Views.SelectIsIdempotent | transcript.c:695-758 | a second call without consuming moves nothing and returns the same entry |
| Views.SelectedIsFirst | transcript.c:695-758 | the entry returned is the first of those left; at the end none is left |
| Views.SelectThenConsume | transcript.c:695-758 | consuming the entry removes exactly its path from what the stack says |
| Views.EnumerateIsView | transcript.c:695-758 | selecting and consuming to the end lists exactly the view, once each, in strictly rising order |
| Transcripts.Parse | transcript.c:111-182 | the cursor moves one line, or the end is noted; failure exactly on a line not after the one before |
| Transcripts.TNew | transcript.c:850-881 | a transcript is opened at its first line; a null one is at its end |
| Transcripts.Stack.ParseAt | transcript.c:111-182 | only that transcript's cursor moves, and only if it is not at its end |
| Transcripts.Stack.FindBegin | transcript.c:702-714 | the first pass finds the leftmost transcript at the least path |
| Transcripts.Stack.SkipMatches | transcript.c:716-723 | the second pass moves every later transcript at that path |
| Transcripts.Stack.ToActOn | transcript.c:726-754 | for a line alone at the least path: acted on exactly if the stack says anything of that path, and then it says this line |
| Transcripts.Stack.Round | transcript.c:701-757 | one turn of the search on the cursors is one turn on their abstraction |
| Transcripts.Stack.SelectNext | transcript.c:695-758 | transcript_select on the cursors is Select on what they stand for; failure only on unsorted input |
| Setups.StackSetup.TNew | transcript.c:850-895 | the new transcript is the head and its number is above all others |
| Setups.StackSetup.TRemove | transcript.c:897-919 | every transcript of that kind and name goes, the rest stays in order |
| Setups.RemainingOk | transcript.c:897-919 | removal keeps the falling numbers and the null transcript at the end |
| Setups.RemainingAre | transcript.c:897-919 | exactly the other transcripts remain |
| Setups.NumbersTellApart | transcript.c:887-892 | the numbers of a stack are all different |
| Setups.TExclude | transcript.c:673-687 | a path is excluded if and only if some pattern takes it, and then it is in that pattern's language |
| FsLists.StrLtIsLt | fsdiff.c:162-166 | on names, which hold no '/', strcmp order is path order |
| FsLists.HintIsSound | fsdiff.c:57-68 | starting behind the last insertion finds the same place as starting at the head |
| FsLists.InsertKeepsOrdered | fsdiff.c:51-81 | the list stays sorted |
| FsLists.FsInsert | fsdiff.c:51-81 | with the hint the list is that of an insertion from the head |
| WalkRules.ReadDir | fsdiff.c:179-208 | whatever the order of readdir, the names come out strictly sorted, each once |
| WalkRules.NextEntryComes | fsdiff.c:224-248 | after the walk of an entry's whole tree the next entry is still to come in path order |
| WalkRules.CallNotFound | transcript.c:823-847 | the listed names passed in the call for an object are just names the walk does not find, whether they exist or not |
| WalkRules.ListedLookedUp | fsdiff.c:106-136 | the first name left below a negative directory is looked up, for no directory between goes on after it |
| WalkRules.MinusAfterMet | transcript.c:339-356 | with -C fs_minus is set for an object exactly if a transcript-only name just before it lies in no negative directory that does not hold both |
| WalkRules.NegTurnNext | fsdiff.c:106-136 | after the walk of a listed name nothing at or below the negative directory is awaited, and less is left |
| WalkRules.DirTurnNext | fsdiff.c:224-248 | after the walk of an entry nothing before the next is awaited, and what is left to negative directories is left above both |
| Journal.KeptInPathOrder | fsdiff.c:83-251 | the names met by a run are strictly increasing |
| Journal.SelectGivesNext | transcript.c:695-758 | during the merge the entry selected is the next one the transcripts have left |
| WalkRules.RemovedAllMet | fsdiff.c:150-160 | nothing in a directory that -A removes, and that no transcript reaches into, is passed over |
| WalkRules.RemovedTreePrinted | fsdiff.c:150-160 | everything in such a directory gets a "-" line, excluded names included, at any depth |
| WalkRules.WholeRunExact | fsdiff.c:83-251 | a run meets each name once and in order, as filesystem only, transcript only or both; every entry of the view; and of the objects exactly those MayVisit names: the root or an entry of an ordinary directory met, unless excluded with the patterns on, or a listed name below a negative directory met, unless a directory met between them goes on after it |
| WalkRules.MetIffReached | fsdiff.c:106-248 | only what is the root, is listed, or lies in a directory met that is not negative is met; without excludes all of that |
| WalkRules.MetIffFound | fsdiff.c:83-251 | with -A the objects met are told from the inputs alone, by a rule that goes down the paths |
| WalkRules.EntryMetIff | fsdiff.c:150-160 | with -A or -C an entry of an ordinary directory met is met exactly if it is not excluded or the patterns are off in that directory |
| WalkRules.OrdinaryEntry | fsdiff.c:138-248 | of the entries of a directory met whose line is not for a negative directory all are met but excluded ones that are not special, and with -A those too if no transcript has the directory |
| WalkRules.NegativeEntry | fsdiff.c:106-136 | of the entries of a negative directory met exactly the listed ones are met |
| WalkRules.SpecialCompared | transcript.c:778-795 | an object that special.T lists first, in an ordinary directory met, is compared with its line, whatever the exclude patterns, and never taken for one to be removed |
| WalkRules.MetIffClear | fsdiff.c:150-160 | with -A an object in no negative directory is met exactly if neither it nor a directory above it is excluded in a directory the transcripts have |
| WalkRules.ExcludedWithC | transcript.c:339-356 | with -C an excluded entry of a directory that was met is met exactly if that directory is not negative and a transcript-only name was printed just before it, in the call for it |
| WalkRules.PlainRunIsMerge | fsdiff.c:83-251 | without excludes and negative directories that is the full merge |
| WalkRules.MergeUnique | fsdiff.c:83-251 | whatever the excludes and the negative directories, the inputs determine what a run meets |
| Fsdiffs.Fsdiff.constructor | transcript.c:953-1021 | a fresh run is tied to the view of its stack |
| Fsdiffs.Fsdiff.Peek | transcript.c:824 | selecting keeps the invariant and finds the next entry left |
| Fsdiffs.Fsdiff.Print | transcript.c:304-478 | the output stays that of the names met |
| Fsdiffs.Fsdiff.MeetTran | transcript.c:836 | printing and consuming one entry keeps the transcripts tied to what is left |
| Fsdiffs.Fsdiff.MoveTranOnce | transcript.c:839-841 | one transcript-only name, one that the walk does not find, is met; fs_minus is set by it with -C only |
| Fsdiffs.Fsdiff.MoveTran | transcript.c:823-847 | exactly the transcript-only names before the object are met |
| Fsdiffs.Fsdiff.CompareBoth | transcript.c:829-836 | an object, or none, under the name of a line is met with that line; fs_minus is set with -C where there is no object |
| Fsdiffs.Fsdiff.Compare | transcript.c:480-671 | the object is met as what it is; whether to enter it, and fs_minus, follow |
| Fsdiffs.Fsdiff.MeetObject | transcript.c:823-847 | what comes before the object and then the object are met; fs_minus is then as that order leaves it |
| Fsdiffs.Fsdiff.Transcript | transcript.c:760-848 | passed over exactly when excluded, not special and not in a removed directory; else met with what comes before it |
| Fsdiffs.Fsdiff.TranscriptEnd | transcript.c:1223-1232 | after the walk every entry left is met |
| Fsdiffs.Fsdiff.FsWalk | fsdiff.c:83-251 | nothing in the tree of the object is awaited any more or left to a negative directory in it, and all objects met lie in it; the walk terminates |
| Fsdiffs.Fsdiff.EnterDir | fsdiff.c:138-248 | the whole tree of the directory just met is walked; fs_minus for its entries is whether the patterns are off in it |
| Fsdiffs.Fsdiff.EnterNegative | fsdiff.c:106-136 | of the tree of the negative directory just met nothing is left: each listed name is looked up or has been passed in a call for an entry |
| Fsdiffs.Fsdiff.WalkEntries | fsdiff.c:160-248 | the entries of a directory are walked in order, and nothing in it is awaited any more |
| Fsdiffs.Fsdiff.WalkListed | fsdiff.c:106-136 | below a negative directory each listed name still left is looked up, until none is left |
| Fsdiffs.Fsdiff.Run | fsdiff.c:83-251 | a whole run is exact, and its output is that of the names met |
| Updates.CheckOwnerAndMode | update.c:394-422 | chown and chmod as called leave the object SetAttributes describes |
| Updates.MakeLink | update.c:181-265 | unlink, symlink, lchown and lchmod as called, with the caller's stat buffer |
| Updates.UpdateAt | update.c:54-435 | the calls for each type leave the filesystem and stat buffer Update describes, or fail where it does |
| Updates.AttributesSettle | update.c:394-422 | with a fresh stat buffer owner and mode come out as the line's, set-id bits included |
| Landings.DownloadLands | lapply.c:163-229 | a download line leaves a file alike its line in all that counts, of a negative transcript too |
| Landings.MakeLands | lapply.c:231-246 | a line for something absent creates an object alike its line, or the link LinkMade describes |
| Landings.StatusLands | lapply.c:231-246 | a line for an object that differs in attributes leaves one alike its line, of any type but a hard link, or that link |
| Landings.NegativeKeepsTime | transcript.c:439-457 | applying what -A prints for a file of a negative transcript sets owner and mode, leaves time, size and content, and the file is then alike |
| Landings.HardLinkLine | update.c:150-179 | a hard link line succeeds exactly if the target is there and no directory, nothing is at its own path and its directory is there; the path is then the target's object and nothing else changes |
| Landings.HardLinkReplaces | lapply.c:653-710 | in the place of something else that is no directory too |
| Landings.NeverMade | update.c:363-377 | a line for a socket or door that is not there changes nothing and is no error |
| Landings.SafeLinkIsSame | update.c:226-264 | the link made, whatever the stat buffer holds, is called the same if new links have the owner and mode the line asks for |
| Landings.LinkMadeIs | update.c:181-265 | the owner of a new link is the line's exactly if lchown is there and the buffer's owner is another one, and so its mode with lchmod; otherwise what a new link has |
| Landings.MadeLinkIsSameIff | update.c:226-264 | the link made is called the same if and only if its owner and mode were set or came out right by themselves |
| Lapplies.Lapplier.Retr | retr.c:66-231 | SPECIAL or FILE is asked for as the last header says; a file is returned exactly if the answer agrees with the line in size and, with -c, in checksum, and then with that content and mode 0600 |
| Lapplies.Lapplier.DoIt | lapply.c:133-249 | do_line leaves the state DoLine describes |
| Lapplies.Lapplier.Remove | lapply.c:721-740 | the first directory of the list is removed and its line done next |
| Lapplies.Lapplier.CutBack | lapply.c:718-741 | the list is cut back to the directories that hold the path |
| Lapplies.Lapplier.Apply | lapply.c:602-746 | push, unlink, replace or update, as the line and what was found demand |
| Lapplies.Lapplier.Edits | lapply.c:532-746 | one line is one StepEdit, errors included |
| Lapplies.RefusesLine | lapply.c:533-590 | the program stops at a download before any header, at a path not after the last, and below something that is no directory |
| Lapplies.Lapplier.Run | lapply.c:492-769 | the program computes Lapply: the fold of its lines and then the rest of the list |
| RemoveLists.AlwaysDisciplined | lapply.c:602-746 | at every step of every run the list is nested around the last path, and every line read is reported or on the list |
| RemoveLists.LateAreDeferred | lapply.c:602-649 | what is done late is exactly the directories found in the place of a removal or of another type |
| RemoveLists.RemovalsInOrder | lapply.c:492-769 | for every input: each path is reported once; a listed directory after everything in its subtree and before everything later outside it |
| RemoveLists.ChangeIffUpdated | lapply.c:602-769 | at every step the flag for a changed system is set exactly if some line was applied; removals alone do not set it |
| RemoveLists.DirectoryWaits | lapply.c:602-649 | a directory in the way of a line, or under a "-", goes to the head of the list, with the line if the types differ, whatever its sign, and nothing else changes |
| RemoveLists.ReportedAs | lapply.c:649-746 | what is reported at once: deleted if something was in the way or the line has a "-", updated if it has none |
| Buffers.NothingBelow | lapply.c:602-649 | the view has nothing below what is no directory in it, so one directory of the list at most carries a line |
| Buffers.BufferAtRemade | lapply.c:718-741 | at the line before which a directory made way for something else than a link, the buffer is that of the new object |
| Buffers.BufferForNext | lapply.c:718-741 | a link made in the place of a directory is made with the stat data of the object of the next line outside it |
| Buffers.BufferForLast | lapply.c:748-769 | or, without such a line, with the buffer of the last line |
| Buffers.OneSortIsMet | lapply.c:171-183 | with special transcripts only, or none, every request is met |
| Convergence.RemoveHeadCore | lapply.c:718-741 | when a directory's turn comes it is empty, its parent is in place, and if its request is met the path ends up as the view has it, links with what the buffer holds |
| Convergence.EventRuns | lapply.c:492-747 | the lines printed for one more name keep the state right, if the requests that fall due with them are met, and otherwise end the run: done paths as the view has them, later ones untouched, directories to go on the list, the buffer as told from the inputs |
| Convergence.AlwaysAgrees | lapply.c:492-747 | so it is after all lines of a diff, up to the first request not met, at which the run has ended |
| Convergence.ApplySucceedsIff | lapply.c:171-183 | the apply takes no error step if and only if every directory that makes way for a file gets that file under the header then in force |
| Convergence.ApplyConverges | lapply.c:492-769 | applying a diff whose requests are met leaves exactly the view's names, each alike its line but for links, which are as they were or made with the buffer Buffers.BufferFor tells |
| Convergence.AppliedIsTree | lapply.c:492-769 | what is left is a tree again |
| Convergence.SilentIffSame | transcript.c:480-671 | a full merge prints nothing if and only if the names are the view's and every object is alike its line |
| Convergence.OutcomeIsSameIff | update.c:181-265 | the result is as the view has it if and only if every link is the same already or gets its owner and mode from calls made with the buffer Buffers.BufferFor tells |
| Convergence.SecondDiffIsSilentIff | update.c:181-265 | and if and only if that the second diff is silent; and if and only if every name is the view's and every object alike its line |
| Convergence.SafeLinksAreKept | update.c:226-264 | links are kept if those not yet the same come out right by themselves |
| Cycles.Fsdiff | fsdiff.c:83-251 | a run from a stack and a filesystem prints the full merge |
| Cycles.AppliedConverged | lapply.c:258-793 | for any merge: the apply succeeds exactly if the requests are met, and leaves a tree whose diffs are silent exactly if the links are kept |
| Cycles.DiffApply | lapply.c:258-793 | lapply succeeds on the output of fsdiff -A exactly if the requests are met, and any later merge of the result prints nothing exactly if the links are kept |
| Cycles.DiffApplyDiff | lapply.c:258-793 | fsdiff -A, lapply, fsdiff -A: the last prints nothing exactly if the links are kept |
| Limits.StaleOwner | update.c:230-236 | an input whose requests are met and on which a link with the right owner and the wrong target loses its owner |
| Limits.BorrowedOwner | update.c:230-236 | an input whose requests are met and on which the link in the place of a directory loses its owner to the object of the next line |
| Limits.WrongRequest | lapply.c:171-183 | an input whose requests are not met: the wrong file is asked for and the run fails |
| Limits.MissedBelowExcluded | transcript.c:823-847 | an existing listed object below an excluded directory: compared, or reported as transcript only if its nearest directory met has a later entry |
| Overloads.PrintsOverload | transcript.c:339-356 | -C prints no headers; its lines are a line per object that is not the same and a "-" line per missing one |
| Overloads.OverloadIsSorted | transcript.c:322-356 | that output is a strictly sorted transcript |
| Overloads.OverloadedView | transcript.c:725-734 | with it on top the stack says exactly the objects of the filesystem, each alike its line |
| Overloads.OverloadCloses | transcript.c:480-671 | sorted, and a further fsdiff -C prints nothing |
| Overloads.OverloadThenDiff | transcript.c:760-848 | fsdiff -C, its output put on top, fsdiff -C: the last prints nothing |
| Lmerges.Tran.GetNextLine | lmerge.c:84-168 | the next line is in place, even one of bad order, which the return value tells |
| Lmerges.CompareOthers | lmerge.c:487-545 | the loop over the other transcripts leaves cursors, candidate and match as Scan says |
| Lmerges.MergeOne | lmerge.c:477-700 | one turn writes what comes first of the merge of what is left |
| Lmerges.Merge | lmerge.c:475-701 | the program writes Merged of its inputs; it exits early only on unsorted ones |
| Lmerges.MergedKeeps | lmerge.c:475-701 | a plain line is the leftmost transcript's; a path whose leftmost line is "-" has no plain line |
| Lmerges.MergeIsSorted | lmerge.c:475-701 | the output is strictly sorted |
| Lmerges.MergedAloneSaysTheSame | lmerge.c:475-701 | standing alone the output resolves to the view of the whole stack |
| MergeMinus.ScanMatches | lmerge.c:488-545 | in the round of a path a match is counted exactly if then some transcript is moved past a line that one before it has too |
| MergeMinus.MergedExactly | lmerge.c:475-701 | exactly which lines come out of any number of inputs: the leftmost, unless it is a "-" line and in its round some line is passed over |
| MergeMinus.NoneListedTwice | lmerge.c:475-701 | where no path is listed twice no line is lost |
| MergeMinus.TwoKeepMinusIffUnmatched | lmerge.c:682-696 | of two inputs a "-" line survives if and only if the other one does not list its path |
| MergeMinus.StaleMatch | lmerge.c:488-545 | three inputs that lose an unmatched "-" line and keep a matched one |
| Kfiles.Access.ReadKfile | command.c:1363-1495 | the recursion over the included files computes Read; it ends although files include each other |
| Kfiles.MeantIs | command.c:1399-1463 | the switch on the tokens: k lines include, p and n lines name transcripts, s and x lines, comments and "-" lines name nothing, anything else is an error |
| Kfiles.AccessListIsClosure | command.c:1363-1495 | in terms of the tokens of the lines: the list holds only names of files reachable through k lines; all of them if and only if it holds what the shadowed files, those first listed as transcripts, would have added; failure means a missing or wrong reachable file, and where no file is shadowed any of them means failure |
| Kfiles.NoClashNoShadow | command.c:1424-1449 | no file is shadowed where to the files read no name is both a command file and a transcript |
| Kfiles.ClashLosesNames | command.c:1424-1449 | a name of both sorts whose file is not read |
| Stores.StorFile | stor.c:129-255 | what goes out is the command, the length, the content and the final dot |
| Stores.EncodeIs | stor.c:129-255 | the octets of it: CR LF after the command and the length, and a dot with CR LF after the content |
| Stores.NStorFile | stor.c:104-127 | a file of a negative transcript goes out empty |
| Stores.FStor | command.c:876-936 | the server's loop takes the length, that many octets and the dot, or fails |
| Stores.FirstLine | command.c:880-885 | a line is read back from whatever follows it |
| Stores.LineIs | command.c:880-885 | a line ends at the first LF, and a CR before it is not part of it |
| Stores.ValueOfDigits | command.c:885 | the length is read back as it was written |
| Stores.DigitsAreDecimal | stor.c:186 | the length is decimal |
| Stores.BodyReceived | command.c:876-936 | whatever the bytes of the content are, they arrive as they were and what follows is left |
| Stores.ReceivedMeans | command.c:876-936 | nothing else is received: a length, that many octets, and a line with one dot |
| Pipelines.StepKeeps | stor.c:57-102 | every step of client, network and server keeps the invariant |
| Pipelines.AlwaysInv | lcreate.c:390-397 | in every run: the files stored are a prefix of those sent, byte for byte; replies taken plus respcount is twice the stores issued |
| Pipelines.ParityIsRight | stor.c:87-99 | a server that has not failed never sends a reply the parity test rejects |
| Pipelines.ZeroMeansStored | lcreate.c:513-519 | with the count back at zero everything is stored as sent |
| Pipelines.StopsOnlyOnFailure | stor.c:87-99 | the client gives up only on a server that has failed |
| Pipelines.NeverStuck | stor.c:57-102 | while replies are awaited and the server works, some step is possible |
| Pipelines.StepLowers | stor.c:57-102 | every step of client, network or server but sending a file lowers the number of things to come |
| Pipelines.DrainIsBounded | lcreate.c:507-512 | so once no more files are sent a run ends, within that number of steps |
| Pipelines.QuietMeansDone | lcreate.c:507-519 | where it ends the count is at zero or the client has stopped; with a server that works, everything is stored as sent |
| Pipelines.StorResponse | stor.c:57-102 | the loop takes the replies that are there, and fails on the first wrong one |
| Pipelines.DrainedIsARun | stor.c:57-102 | that loop is a run of single replies, so all results hold of it |
| Pipelines.Lcreate | lcreate.c:390-511 | the sending loop issues every file in order unless the server fails |
| Codes.DecodeInverts | code.c:81-132 | decode undoes both encoders on every path |
| Codes.EncodedInjective | code.c:20-67 | different paths are written differently |
| Codes.WrittenAs | code.c:20-67 | what each character is written as, under both encoders |
| Codes.EncodeInternal | code.c:20-67 | the loop writes the encoding and a NUL into twice the length and one more |
| Codes.Decode | code.c:81-132 | the loop writes the decoding and a NUL into the length of its argument and one more |
| Argcargvs.Acav.Push | argcargv.c:88-99 | argv grows in time: the word and the closing NULL always fit |
| Argcargvs.Acav.CountSlashes | argcargv.c:74-79 | the count in the line as cut so far is that in the line as it was |
| Argcargvs.Acav.Parse | argcargv.c:43-107 | argv points at exactly the words of the line, each ended by a NUL |
| Tlines.EncodedIsClean | code.c:16-67 | either encoder makes one word of a path, which padding after it does not join |
| Tlines.FieldsAreWords | argcargv.c:65-102 | a line laid out in padded fields is cut into exactly those fields |
| Tlines.DecimalRead | transcript.c:193-194 | a number written in decimal is read back |
| Tlines.OctalRead | transcript.c:192 | a mode written in octal, zeros in front, is read back |
| Tlines.DecimalIs | transcript.c:450-457 | owners, times and sizes are written in decimal |
| Tlines.OctalIs | transcript.c:369-371 | modes are written in octal with four digits or more |
| LineFormats.FieldsRead | transcript.c:183-299 | the fields of each type are read back |
| LineFormats.LineRoundTrip | transcript.c:304-478 | a line of any type, under either encoder, is read back: sign, path, type and the attributes on it |
| LineFormats.LineHasColumns | transcript.c:372-467 | the words of the line written: the sign, the letter of the type, the path, mode, owner and group, and then what the type calls for, in this order |
| LineFormats.Padded | transcript.c:372-467 | the path and the numbers are padded to the widths of the format |
| LineFormats.ReadIffReadable | transcript.c:183-299 | exactly lines with a known letter, the right number of words, a readable target and, if needed, a checksum are read; a link without owner and mode gets root's and 0777 |
| LineFormats.LineNeeds | transcript.c:134-159 | a line read has three words or more and one character for the first, and is a removal exactly if that is "-" |
| LineFormats.ReadLine | transcript.c:111-302 | tokenising in the buffer and parsing the words there is ParseLine of the line |
| Hardlinks.HardlinkIndex.DInsert | hardlink.c:49-76 | the device is in its sorted place, and what the index holds is unchanged |
| Hardlinks.HardlinkIndex.Hardlink | hardlink.c:39-114 | nothing at first sight, later the first name; the lists refine the map |
| Hardlinks.HardlinkIndex.HardlinkChanged | hardlink.c:136-171 | the flag is set or read; failure exactly on an inode not seen |
| Hardlinks.IndexHoldsSeen | hardlink.c:39-114 | after any calls exactly the inodes seen are held |
| Hardlinks.IndexIsFirstSight | hardlink.c:39-171 | each under its first name, flagged if and only if a later call flagged it |
| Hardlinks.LinksPointBack | transcript.c:801-805 | where the names rise the target of a link is strictly before the link |
| Hardlinks.RunLinksPointBack | fsdiff.c:83-251 | in a run of fsdiff the target of a link is strictly before the link |
| Lists.InsertKeepsAscending | list.c:82-114 | insertion keeps the list sorted, and after what compares equal |
| Lists.List.constructor | list.c:38-49 | a new list is empty |
| Lists.List.InsertHead | list.c:122-141 | the node is first; all pointers, head, tail and count agree |
| Lists.List.InsertTail | list.c:143-162 | the node is last; all pointers, head, tail and count agree |
| Lists.List.InsertBefore | list.c:103-113 | the node is in the middle where it should be; all pointers agree |
| Lists.List.InsertSorted | list.c:82-120 | the path is inserted before the first one that sorts after it |
| Lists.List.PopTail | list.c:205-223 | the last node comes out and the rest stays linked |
| Lists.List.PopHead | list.c:235-254 | the first node comes out and the rest stays linked |
| Lists.List.Unlink | list.c:182-187 | a middle node comes out and the rest stays linked |
| Lists.List.Remove | list.c:164-193 | all equal paths go, the rest keeps its order, and the number is returned |
| Lists.WithoutCounts | list.c:164-193 | of every other path as many remain as there were |
| Lists.List.Check | list.c:256-268 | true exactly for a path in the list |
| Lists.List.Clear | list.c:51-58 | an empty list remains |
| Wildcards.DecidesIsSound | wildcard.c:13-141 | only subjects in the pattern's language are accepted |
| Wildcards.SameCharIff | wildcard.c:127-134 | without regard to case exactly the 26 letters are the same in both cases |
| Wildcards.StartsIff | wildcard.c:114-120 | an alternative is taken exactly if it is a prefix, or its lower-case form one of the lower-case form |
| Wildcards.RangeHoldsItsEnds | wildcard.c:35-67 | a range holds both its ends and no number outside them; numbers are decimal |
| Wildcards.DecidesIsComplete | wildcard.c:13-141 | all of them, if no '*' is followed by a non-empty rest that can match nothing |
| Wildcards.AcceptedCanBeCut | wildcard.c:22-33 | otherwise every accepted subject has a proper prefix in the language |
| Wildcards.ExactIff | wildcard.c:22-33 | a pattern is decided rightly on all paths if and only if no '*' is followed by a non-empty rest that can match nothing, or the pattern can match nothing and takes every single character, or it matches no path |
| Wildcards.TwoStars | wildcard.c:22-33 | "/a**" rejects "/a" |
| Wildcards.TakeNumber | wildcard.c:38-42 | the digits at the front and their value |
| Wildcards.TakeRange | wildcard.c:35-67 | past the number and the range if the number is there and in it |
| Wildcards.Compare | wildcard.c:114-120 | whether the alternative is a prefix of the subject |
| Wildcards.TryAlts | wildcard.c:109-125 | some alternative and then the rest of the pattern match |
| Wildcards.TryStar | wildcard.c:28-33 | the rest matches some non-empty end of the subject |
| Wildcards.Wildcard | wildcard.c:13-141 | the program decides Decides of the pattern as it is written; it terminates |
| Base64s.SplitKeepsTheNumber | base64.c:371-380 | the four letters' values are the base-64 digits of the 24 bits (RFC 4648, section 4) |
| Base64s.LettersAreStandard | base64.c:10-148 | the alphabet is that of RFC 4648, section 4 |
| Base64s.DecodeOfEncode | base64.c:408-425 | decoding the encoding gives the octets back and up to two zero octets |
| Base64s.Base64E | base64.c:364-403 | the loop writes the encoding and a NUL within SZ_BASE64_E octets |
| Base64s.Base64D | base64.c:408-425 | the loop writes the decoding within SZ_BASE64_D octets |

## Left out

- Convergence.ApplyConverges: one view without doors, sockets, hard links, excludes and negative transcripts, whose files the server has.
- Wildcards.Wildcard: patterns of characters, escapes, '*', ranges and alternatives; '[' and '?' do something other than documented, and malformed patterns are not modelled.
- Codes.Decode: on encoded text only; on other escapes the C code leaves a byte of its static buffer as it was.
- FsLists.FsInsert: the list of names is a sequence and a pointer an index; the pointers themselves are not modelled there.
- Hardlinks.HardlinkIndex.Hardlink: the two levels of linked lists are sequences; splicing in place is modelled for list.c only.
- Lists.List.Remove: list_remove reads a node's next pointer after freeing the node; here nodes persist.
- The walk does not see hard links: every object has one name, so hardlink and the type 'h' occur only in their own modules and in the line format.
- The pipeline from walk to applier compares paths with case; the order without case is studied in pathcmp only.
- Sockets, TLS, PAM, zlib, syslog, forking, signals and timeouts; the network is two channels that keep order.
- Real system calls: permissions, umask, quotas, immutable flags and errno values other than those the code tells apart.
- Apple forks, finder information, progress output, -n, -F, -C of lapply and the -% options.
- convert_path_type, the skip options of command files, the reading of command files by the client (read_kfile in transcript.c), and ktcheck.
- lmerge with -f and -n, the linking and copying of files into the merged loadset.
- Lengths of fixed buffers except where a row names one; paths are taken to be shorter than MAXPATHLEN.
- Overflow of C integers in atoi, strtol and counters.
- A negative line whose checksum is "-" is recomputed by t_print with -c; here it is printed as it is.
- The temporary name of a download is taken not to collide with anything.
