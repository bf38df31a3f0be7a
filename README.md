# Gitlet repository engine in Dafny

Gitlet is a small Git-like version-control tool. This project models its
repository engine: the index object `Gitlet` (head, current branch, branch
table, staging area, removal marks), the blob and commit records and how
their ids are derived, the commands `init`, `add`, `commit` and `rm`, the
history walks `log` and `global-log`, and the classification `status`
prints.

The files on disk become maps in a `Disk` object: the commit store
`.gitlet/commit`, the blob store `.gitlet/blob` and the working directory.
`utils::sha1` becomes a parameter `hash` of type `Hash`. This is any function
from strings to 40-character digests, applied to the concatenation of the
parts. Clock readings are parameters. So is the iteration order of each hash
map whose order affects a result: the order of a snapshot's entries in the
commit id, and the order of the branches in `global-log`.

Modules, following the source:

- `Utils`: `Hash`, `Concat`, `Sha1`.
- `Objects`: `Blob` and `Commit` records, their constructors' id formulas,
  the constructor loop `NewCommit` and `Commit::blobExists`.
- `GitletIndex`: class `Gitlet`, with its fields and its
  insert/erase/clear/set methods, each proved against the value `Index`.
- `Repository`: class `Disk`, the value `Repo` of the whole state, and the
  invariant `Valid`.
- `Transitions`: the commands as functions `Repo -> Result`, with the
  lemmas about them.
- `Commands`: the `exec` bodies as module-level methods that take the
  `Gitlet` index and the `Disk` as parameters and change them. Each is
  proved to perform exactly its transition, so every lemma in `Transitions`
  also describes these methods.
- `History`: `Log::exec` and class `GlobalLog`. A ghost rank, strictly
  decreasing along first parents, proves that the walks end.
- `Lexicographic`: string order and the sort `std::sort` performs.
- `Status`: `Status::exec` and the sets it reports.

Where the written code and its comments or the usual Git behaviour disagree,
the model follows the code:

- `add` and `rm` ask whether the content's id is a blob anywhere in the head
  commit, not whether it is the blob under that path.
- `commit` never clears the removal marks.
- `add` deletes the previously staged blob even when another staged path
  still names it, or an earlier commit's snapshot does.
- `status` lists a path twice as deleted when it is both staged and tracked
  and its file is gone.
- The `Add` and `Rm` argument checks (`isLegal`) already refuse a missing file
  ("command is illegal"). The model follows `exec` alone, where a missing file
  is the exception `utils::readFile` throws ("cannot open the file").
- The dispatcher `CommandExecutor` registers only `init`, `add`, `commit` and
  `rm`. `log`, `global-log` and `status` are modelled from their `exec`
  bodies all the same.

## Model

| member | source | states |
|---|---|---|
| Utils.Sha1 | utils.cpp:20-33 | the id of a list of parts is the digest of their concatenation and is 40 characters long, so never empty |
| Utils.Sha1ErasesBoundaries | utils.cpp:23-25 | moving a boundary between parts leaves the id unchanged: `sha1({a+b, c}) == sha1({a, b+c})` |
| Utils.ConcatFive | utils.cpp:23-25 | five parts are digested as their plain concatenation |
| Objects.NewBlob | gitletobj.cpp:373 | a blob holds its content, and its id is the digest of the content alone |
| Objects.BlobIdentity | gitletobj.cpp:373 | equal contents give equal blob ids; with a collision-free digest, equal ids mean equal contents |
| Objects.RootCommit | gitletobj.cpp:343-346 | the root commit has the given log and epoch timestamp, an empty snapshot and two empty parents, and its id digests log followed by timestamp |
| Objects.CommitIdFormula | gitletobj.cpp:348-359 | a commit's id digests log, timestamp, the blob ids in iteration order, parent1 and parent2, one after the other |
| Objects.RootIdIsGeneralFormula | gitletobj.cpp:343-359 | the root id is the general id formula applied to an empty snapshot and empty parents |
| Objects.NewCommit | gitletobj.cpp:348-359 | the constructor's loop collects the blob ids in the snapshot's iteration order; the commit has the given fields and the id formula |
| Objects.BlobExists | gitletobj.h:186-193 | true exactly when some path of the snapshot maps to the id: it searches values, not keys |
| GitletIndex.Index.StagedBlobID | gitletobj.h:48-54 | the staged id of a path, or the empty string when the path is not staged |
| GitletIndex.Gitlet.IsRemoved | gitletobj.h:71-73 | whether the path is marked removed; a marked path means the removal set is not empty |
| GitletIndex.Gitlet.IsRemovedEmpty | gitletobj.h:89 | whether no path is marked removed; when true, no path is in the removal set |
| GitletIndex.Gitlet.IsStageEmpty | gitletobj.h:90 | whether nothing is staged; when true, every path's staged id reads as empty |
| GitletIndex.Gitlet.constructor | gitletobj.h:94-101 | a new index has every field empty |
| GitletIndex.Gitlet.SetID | gitletobj.h:19 | changes the id and nothing else |
| GitletIndex.Gitlet.SetHead | gitletobj.h:91 | changes the head and nothing else |
| GitletIndex.Gitlet.SetCurBranch | gitletobj.h:92 | changes the current branch and nothing else |
| GitletIndex.Gitlet.InsertBranchCommit | gitletobj.h:55-57 | inserts or overwrites one branch entry; every other branch keeps its entry; nothing else changes |
| GitletIndex.Gitlet.EraseBranchCommit | gitletobj.h:58-63 | removes only that branch; does nothing when the branch is absent |
| GitletIndex.Gitlet.InsertRemovedBlob | gitletobj.h:64 | afterwards the path is marked removed; nothing else changes |
| GitletIndex.Gitlet.EraseRemovedBlob | gitletobj.h:65-73 | afterwards the path is not marked removed; every other path keeps its mark; repeating it changes nothing |
| GitletIndex.Gitlet.InsertStagedBlob | gitletobj.h:75-77 | afterwards the path's staged id is the given id, overwriting any earlier one; other paths keep theirs |
| GitletIndex.Gitlet.EraseStagedBlob | gitletobj.h:78-83 | afterwards the path is unstaged and its staged id is empty; other paths keep theirs; does nothing when the path is absent |
| GitletIndex.Gitlet.ClearStagedBlob | gitletobj.h:85-90 | the stage becomes empty; removal marks, branches, head and current branch are unchanged |
| Repository.Disk.constructor | gitletobj.cpp:52-55 | a directory before `init` has empty stores and the given working files |
| Repository.StageChangeKeepsValid | gitletobj.cpp:71-96 | changing only the stage and the removal marks keeps the state valid, provided staged ids stay non-empty and no path is both staged and removed |
| Transitions.HeadCommit | gitletobj.cpp:80-82 | the commit the head names, loaded from the store; in a store where each commit sits under its own id, its id is the head |
| Transitions.InitStep | gitletobj.cpp:42-57 | the state after `init`: the root commit stored, `master` naming it, master the current branch and the root the head; the root has no parent and an empty snapshot; stage, removal marks, blobs and working files as before |
| Transitions.InitFromFresh | gitletobj.cpp:42-57 | after `init` the branch table is exactly {master -> root id}; the current branch is master and the head is the root; the root has an empty snapshot, empty parents and log "initial commit"; the state is valid |
| Transitions.InitLog | gitletobj.cpp:42-57 | right after `init`, `log` lists the root commit alone |
| Transitions.AddStep | gitletobj.cpp:71-96 | the result of `add`: failure exactly when the file is missing; on success the removal mark is cleared, the path is staged exactly when its content's id is no blob of the head, and head, commits and working files are unchanged (the lemmas below give the full new state) |
| Transitions.AddFailure | gitletobj.cpp:71-73 | `add` fails exactly when the file cannot be read, with "cannot open the file" |
| Transitions.AddFrame | gitletobj.cpp:76-77 | `add` always clears the path's removal mark and leaves head, branches, commits and working files unchanged |
| Transitions.AddCommittedContent | gitletobj.cpp:79-87 | when the content's id is a blob of the head commit, `add` unstages the path and stores nothing |
| Transitions.AddNewContent | gitletobj.cpp:88-95 | otherwise `add` stages the content's id (overwriting), stores the blob, deletes the previously staged blob, and leaves every other staged entry and stored blob unchanged |
| Transitions.AddUnchangedContent | gitletobj.cpp:76-95 | re-adding unchanged content (already staged, or matching the head for an unstaged path) leaves the index unchanged |
| Transitions.AddTwice | gitletobj.cpp:71-96 | a second `add` of the same file right after the first changes nothing |
| Transitions.AddDropsSharedBlob | gitletobj.cpp:88-92 | two paths staged with the same blob: re-adding one with new content deletes the blob the other still names |
| Transitions.AddDropsCommittedBlob | gitletobj.cpp:88-92 | re-adding a path whose staged blob is also named by an earlier commit deletes that blob from the store while the commit still names it |
| Transitions.AddPreservesValid | gitletobj.cpp:71-96 | `add` keeps the repository invariant |
| Transitions.NextSnapshot | gitletobj.cpp:120-130 | the new snapshot holds a path exactly when it is staged, or tracked by the head and not marked removed; a staged path gets its staged id, any other path its head id |
| Transitions.NewHead | gitletobj.cpp:131-132 | the new commit has the next snapshot, the message, the clock reading, the old head as parent1 and an empty parent2, and the general id formula |
| Transitions.CommitStep | gitletobj.cpp:102-138 | the result of `commit`: failure exactly when the message is empty or nothing is staged or removed; on success the head is a stored commit whose first parent is the old head and whose snapshot is the next snapshot, and the stage is empty |
| Transitions.CommitFailure | gitletobj.cpp:99-116 | `commit` fails exactly when the message is empty ("Please enter a commit message") or nothing is staged or removed ("No changes added to the commit") |
| Transitions.CommitEffect | gitletobj.cpp:113-138 | after a successful `commit` the head and the current branch both name the new stored commit; the stage is empty; removal marks, other branches, earlier commits, blobs and working files are unchanged |
| Transitions.CommitKeepsRemovals | gitletobj.cpp:114-116 | after a commit that had removals, a second commit with nothing new staged is still accepted, because the removal marks stay |
| Transitions.CommitPreservesValid | gitletobj.cpp:113-138 | `commit` keeps the repository invariant when the new id names no commit already stored |
| Transitions.Advance | gitletobj.cpp:133-137 | after the new commit is made: the head and the current branch's entry name it, it is stored under its id beside the earlier commits, the stage is empty, and removal marks, other branches, blobs and working files are unchanged |
| Transitions.AdvanceKeepsValid | gitletobj.cpp:131-137 | storing a fresh child of the head, then moving head and current branch onto it and emptying the stage, keeps the state valid |
| Transitions.RankExtends | gitletobj.cpp:131-137 | adding a fresh commit one rank above its stored first parent keeps every first-parent chain finite |
| Transitions.RmStep | gitletobj.cpp:152-170 | the result of `rm`: failure only when the file is missing or its content's id is no blob of the head; on success the path reads as unstaged, it is marked removed exactly when it was already or the head holds its content's id, and head and commits are unchanged |
| Transitions.RmFailure | gitletobj.cpp:152-160 | `rm` fails with "No reason to remove the file" exactly when the path is not staged and its content's id is no blob of the head commit |
| Transitions.RmEffect | gitletobj.cpp:161-169 | after a successful `rm` the path is unstaged and other staged paths stay. If the head holds the content's id, the path is also marked removed and its file deleted; otherwise marks and files are untouched. Head, branches and stores never change |
| Transitions.RmUntrackedTwin | gitletobj.cpp:159-167 | an untracked file whose content equals a tracked file's is marked removed and deleted |
| Transitions.RmPreservesValid | gitletobj.cpp:152-170 | `rm` keeps the repository invariant |
| Commands.InitCmd | gitletobj.cpp:42-57 | the method makes exactly the `init` transition on the index and the disk |
| Commands.AddCmd | gitletobj.cpp:71-96 | the method makes exactly the `add` transition, or throws its error and changes nothing |
| Commands.BuildSnapshot | gitletobj.cpp:120-130 | the two loops build exactly the next snapshot |
| Commands.RecordCommit | gitletobj.cpp:117-132 | the commit built from the head and the index is the new commit of the transition |
| Commands.CommitCmd | gitletobj.cpp:113-138 | the method makes exactly the `commit` transition, or throws its error and changes nothing |
| Commands.RmCmd | gitletobj.cpp:152-170 | the method makes exactly the `rm` transition, or throws its error and changes nothing |
| History.ChainShape | gitletobj.cpp:195-203 | the first-parent chain starts at the given commit; each element is the first parent of the one before; all are stored; it ends at a root |
| History.ChainDistinct | gitletobj.cpp:195-203 | no commit appears twice on a chain |
| History.ChainBelow | gitletobj.cpp:195-203 | every commit on a chain ranks no higher than its start |
| History.AncestorsClosed | gitletobj.cpp:216-233 | the commits on a chain include the first parent of each of their members |
| History.AncestorsInClosed | gitletobj.cpp:216-233 | a set that holds a commit and the first parent of each member holds the whole chain |
| History.Log | gitletobj.cpp:195-203 | `log` emits exactly the first-parent chain from the head down to the root, in order |
| History.GlobalWalk | gitletobj.cpp:216-233 | the output and final member set of `global-log` over the branches in iteration order; the member set only grows and holds every printed commit |
| History.WalkIsCutChain | gitletobj.cpp:222-231 | one branch's walk is the longest prefix of its chain with no visited commit; where it stops short, the next commit was visited |
| History.WalkCompletes | gitletobj.cpp:222-231 | over a visited set that holds the first parents of its members, a walk adds exactly the chain's commits |
| History.WalkIgnores | gitletobj.cpp:222-231 | marking a commit that is not on the chain does not change the walk |
| History.WalkFresh | gitletobj.cpp:222-231 | a walk has no repeats and no visited commit |
| History.GlobalWalkOnce | gitletobj.cpp:216-233 | `global-log` emits each commit at most once and none visited before; the visited set grows by exactly the emitted commits |
| History.GlobalWalkReaches | gitletobj.cpp:216-233 | starting from an empty visited set, the final visited set is the union of all branches' first-parent chains |
| History.GlobalWalkAdvance | gitletobj.cpp:220-232 | one branch of the outer loop: its walk followed by the walks of the later branches gives the rest of the output |
| History.GlobalLog.constructor | gitletobj.cpp:216-233 | a new walker has visited nothing |
| History.GlobalLog.IsVisited | gitletobj.cpp:207 | whether the commit was already printed; a visited commit means the member set is not empty |
| History.GlobalLog.AddCommits | gitletobj.cpp:205 | marks one commit visited |
| History.GlobalLog.WalkBranch | gitletobj.cpp:222-231 | the inner loop emits one branch's walk and marks exactly its commits visited |
| History.GlobalLog.Exec | gitletobj.cpp:216-233 | the nested loops emit the branches' walks in iteration order, and the member set ends as the walks' visited set |
| Lexicographic.LessEq | gitletobj.cpp:255-330 | the `std::string` order the five sorts use: character by character, a proper prefix before any extension of it, and a string is never above one whose first character is smaller |
| Lexicographic.LessEqTotal | gitletobj.cpp:255-330 | any two strings are ordered one way or the other |
| Lexicographic.LessEqAntisymmetric | gitletobj.cpp:255-330 | strings ordered both ways are equal |
| Lexicographic.LessEqTransitive | gitletobj.cpp:255-330 | the string order is transitive |
| Lexicographic.Insert | gitletobj.cpp:255-330 | inserting into a sorted list keeps it sorted and adds exactly that element |
| Lexicographic.Sort | gitletobj.cpp:255-330 | the sorted list is ordered and holds the same elements, counted with multiplicity |
| Lexicographic.SortedUnique | gitletobj.cpp:255-330 | two sorted lists with the same elements are equal, so a sorted listing does not depend on the hash map's order |
| Status.NoteInjective | gitletobj.cpp:283-309 | distinct paths give distinct modification lines |
| Status.LinesDiffer | gitletobj.cpp:283-309 | a "(modified)" line is never a "(deleted)" line |
| Status.NoteIn | gitletobj.cpp:283-309 | a path's line is among the lines of a set of paths exactly when the path is in it |
| Status.NotesGrow | gitletobj.cpp:287-312 | visiting one more entry adds its line once, if it has one |
| Status.KeysOf | gitletobj.cpp:235-241 | the vector holds each key of the map once |
| Status.ElementsOf | gitletobj.cpp:243-249 | the vector holds each element of the set once |
| Status.StagedNotes | gitletobj.cpp:287-296 | the staged loop emits one line for each staged path whose file is gone or whose content's id differs from the staged id |
| Status.TrackedNotes | gitletobj.cpp:298-312 | the tracked loop emits one line for each tracked path whose file is gone, or unstaged with a changed id |
| Status.UntrackedFiles | gitletobj.cpp:318-329 | the directory loop emits each working file that is neither staged nor tracked, once |
| Status.Status | gitletobj.cpp:251-330 | every list is sorted and holds exactly its entries: branches, staged paths, removed paths, modifications (staged and tracked lines together), untracked files |
| Status.StagedLine | gitletobj.cpp:287-296 | a staged path is listed exactly when its file is gone (deleted) or its content's id differs from the staged id (modified) |
| Status.TrackedLine | gitletobj.cpp:298-312 | a tracked path is listed exactly when its file is gone (deleted), or its id changed and it is not staged (modified) |
| Status.UnknownPathHasNoLine | gitletobj.cpp:283-312 | a path neither staged nor tracked never gets a modifications line |
| Status.CleanTreeHasNoModifications | gitletobj.cpp:283-312 | with an empty stage and every tracked file present and unchanged, the modifications list is empty |
| Status.DeletedListedTwice | gitletobj.cpp:287-312 | a staged and tracked path whose file is gone is listed twice as deleted |

## Left out

- The digest itself: CryptoPP SHA-1 and hex encoding (utils.cpp:20-33) are an uninterpreted `Hash`. Collision-freedom is a hypothesis wherever a lemma needs it. `Sha1ErasesBoundaries` shows that concatenation forgets where the parts met.
- Boost serialisation (`utils::save`/`utils::load`, the `serialize` members) and `readFile`/`writeFile`: the stores and the working directory are maps, and loading a stored object is a map lookup.
- The `.gitlet` directory creation in `init` and the `fs::exists` probes in every `isLegal`: they only inspect the environment.
- The clock (`getCurrentTime`, `getEpochTime`): timestamps are parameters.
- The commit id's dependence on `unordered_map` iteration order: the caller supplies the order as `order`, and nothing here claims the id is independent of it. The same holds for the branch order in `global-log`.
- `Gitlet::getBranchCommitID` (gitletobj.h:40-46) compares with the wrong map's end and reads the other map. No command uses it. It is not part of this model.
- `CommandExecutor`, main.cpp and the argument-count checks in `isLegal`: command-line plumbing.
- The printed text of `log`, `global-log` and `status`: headers, the `*` before the current branch, the "=== Staged Files" header without its closing "===", the missing header of the removed-files section, and the `printLog` lines. `Log` and `GlobalLog.Exec` return the commit ids in the order they are printed. `Status` returns the lists it prints.
- `Log`, `GlobalLog.Exec`: they require a store whose first-parent links are stored and finite (`Ranked`), which every `Valid` state has. On a store with a first-parent cycle Gitlet's `Log::exec` loops forever, and on a dangling parent both walks fail to load. `GlobalLog::exec` does end on a cycle of stored commits, because its visited check breaks out of it; the rank requirement leaves those stores out of this model although Gitlet's code ends on them.
- `Status.Status`: requires the head commit to be stored, as Gitlet's code loads it.
- `Commands.AddCmd`, `Commands.CommitCmd`, `Commands.RmCmd`, `Transitions.AddStep`, `Transitions.CommitStep`, `Transitions.RmStep`: they require the head commit to be stored, which `init` establishes and every command keeps (`Valid`).
- `Transitions.CommitPreservesValid`: assumes the new commit's id is fresh. A new id that repeats a stored one would overwrite that commit, whether the digest collides or two commits' parts concatenate to the same string (`Sha1ErasesBoundaries`).
- `Lexicographic.Sort`: compares characters by code point, as `std::string`'s `<` does for unsigned characters.
- `Transitions.AddStep`, `Transitions.RmStep`, `Status.UntrackedFiles`: the working directory is a map of top-level regular files. Directories and nested paths are not modelled. Gitlet's `add dir/f` reads a nested file and succeeds, but the model's `add` and `rm` fail on such a path with `CannotOpenFile`.
- unittest.cpp calls a method the header does not declare and is not part of this model.
