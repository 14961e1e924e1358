# GitHub repository mirror: a verified model of the sync

`python_utilities.github_repos` keeps a local copy of every repository a
GitHub account owns. The storage root has two partition folders, `public` and
`private`, and each repository is a directory `<partition>/<name>`. One run of
`GitHubRepoManager.sync_all_repos` does the following:

1. It fetches the account's repositories page by page from `GET /user/repos`
   (`get_repos`). The fetch stops at the first empty page. A failing request
   raises an error, and a 401 gets its own message.
2. **Pass 1.** It calls `clone_or_update_repo` on every listed repository, in
   listing order. A repository whose `<visibility>/<name>` does not exist is
   cloned; one that exists is pulled. A failed git step counts as an error,
   and the loop goes on to the next repository.
3. **Pass 2.** It scans `public` and then `private`. A directory whose name is
   no longer listed is removed. A directory in the wrong partition is moved to
   the partition its visibility names. A failure counts as an error, and the
   scan goes on.

The `Logger` keeps a dictionary of five counters: `cloned`, `updated`,
`moved`, `deleted` and `errors`.

The model has six modules:

- `Stats`: the dictionary, `increment_stat`, and the `Logger` class. The
  class holds the dictionary as a field plus a ghost record view of it.
- `Layout`: the storage root as a `Disk`. It records the partition folders,
  the directories and the plain files.
- `Remote`: repository descriptors, the visibility rule, and the paged
  listing. The listing is a pure function of the page-by-page responses.
- `Reconcile`: specification functions for the state after
  `clone_or_update_repo`, after pass 1, after the scan of one partition and
  after a whole run.
- `Manager`: the class `GitHubRepoManager`. Its methods update its storage
  root and its logger in place. Each method is proved equal to the matching
  specification function.
- `Properties`: what a run achieves, as lemmas over the specification
  functions. This covers the counters, placement after pass 1, what pass 2
  leaves in each partition, convergence, idempotence, and two concrete
  scenarios.

The outside world enters as parameters:

- The HTTP responses are a sequence. `responses[i]` is what the request for
  page `i + 1` produces.
- The outcome of each git subprocess is a set of the pass-1 indices whose
  git step fails.
- The outcome of each `rmtree`/`move` is a set of the paths whose operation
  fails.

Some behaviour of the code is easy to mistake for a plan-then-execute
reconciler. The model follows the code:

- There is no precomputed list of actions. The code works in place in two
  passes: pass 1 clones and updates, and only afterwards does pass 2 delete
  and move.
- A visibility change is not a single move. Pass 1 looks only at the new
  partition, finds nothing there, and clones a fresh copy. Pass 2 then moves
  the old copy to that same destination. The lemma
  `Properties.VisibilityChangeClonesThenMoves` shows this on a concrete
  storage root: one run counts one clone and one move.
- A fetch error is re-raised before `log_summary`, so no summary is written
  for that run.
- A name present in both partitions raises no inconsistency error. When the
  name is not listed, the scan deletes both copies. Otherwise the copy in the
  wrong partition is moved onto (in the code: into) the other.

## Model

| member | source | states |
|---|---|---|
| Stats.InitialStats | src/python_utilities/github_repos.py:47-53 | a fresh logger's dictionary has exactly the five counters, each zero |
| Stats.InitialIsZero | src/python_utilities/github_repos.py:47-53 | the initial dictionary is the record with every counter zero |
| Stats.Logger.constructor | src/python_utilities/github_repos.py:47-53 | a new logger holds the initial dictionary, and its counts are all zero |
| Stats.Bumped | src/python_utilities/github_repos.py:73-76 | a known counter goes up by one; every other counter and the key set stay as they are; an unknown name changes nothing |
| Stats.Logger.IncrementStat | src/python_utilities/github_repos.py:73-76 | the dictionary becomes `Bumped` of the old one, and the record view gains one on exactly the named counter (none for an unknown name) |
| Stats.IncrementMatches | src/python_utilities/github_repos.py:73-76 | incrementing a counter's key in the dictionary is incrementing that counter in the record |
| Stats.BumpedKeepsInvariant | src/python_utilities/github_repos.py:73-76 | an increment keeps the dictionary well formed (same five keys, none negative) and lowers no counter |
| Stats.IncrementsNeverDecrease | src/python_utilities/github_repos.py:73-76 | along any sequence of increments, no key is lost and no counter goes down |
| Stats.BumpAllCounts | src/python_utilities/github_repos.py:73-76 | after any sequence of increments, each counter equals its start value plus the number of times its own name occurs |
| Stats.KeyInjective | src/python_utilities/github_repos.py:47-53 | the five counters have five different names |
| Layout.AddDir | src/python_utilities/github_repos.py:212 | a new repository directory exists afterwards; the folders gain exactly its partition; no other directory and no plain file changes |
| Layout.RemoveDir | src/python_utilities/github_repos.py:312 | the directory is gone; every other entry and every folder stay |
| Remote.VisibilityFolder | src/python_utilities/github_repos.py:199 | the folder is `private` exactly when the repository is private, `public` otherwise |
| Remote.Target | src/python_utilities/github_repos.py:199-200 | the repository's path is its name inside its visibility's folder |
| Remote.RemoteNames | src/python_utilities/github_repos.py:273 | every listed repository's name is in the set |
| Remote.RemoteNameSource | src/python_utilities/github_repos.py:273 | every name in the set belongs to some listed repository |
| Remote.VisibilityMap | src/python_utilities/github_repos.py:274-277 | its keys are exactly the remote names |
| Remote.VisibilityMapLast | src/python_utilities/github_repos.py:274-277 | for a repeated name, the map keeps the partition of the last repository carrying it |
| Remote.VisibilityMapOfDistinct | src/python_utilities/github_repos.py:274-277 | with unique names, every repository is mapped to its own partition |
| Remote.ErrorKind | src/python_utilities/github_repos.py:177-184 | a failed page is reported as an authentication failure exactly when its status is 401 |
| Remote.ErrorKindAsWritten | src/python_utilities/github_repos.py:166-184 | the handler as written has no response to read exactly when the request raised before any response was bound |
| Remote.FirstPageConnectionFailureAsWritten | src/python_utilities/github_repos.py:166-178 | a connection failure on page 1 escapes as an unbound-variable error, where the intended result is a fetch failure |
| Remote.AsWrittenAgreesWhenBound | src/python_utilities/github_repos.py:166-184 | once an earlier page's response is bound, the handler as written and the corrected one report the same error |
| Remote.FirstEnd | src/python_utilities/github_repos.py:165-176 | the first page that is empty or fails; every earlier page is non-empty and succeeds |
| Remote.FirstEndIsFirst | src/python_utilities/github_repos.py:165-176 | any page that ends the loop with no earlier ending page is the first end |
| Remote.ConcatMembers | src/python_utilities/github_repos.py:175 | a repository is in the accumulated list exactly when it is on one of the pages |
| Remote.ConcatAppend | src/python_utilities/github_repos.py:175 | extending the list page by page concatenates the pages' contents in order |
| Remote.ListingIgnoresLaterPages | src/python_utilities/github_repos.py:173-174 | pages after the first empty or failing one affect neither where the loop stops nor its result |
| Remote.ListingMeaning | src/python_utilities/github_repos.py:163-185 | success exactly when the ending page did not fail, and then the result is the pages before it, in order, each successful and non-empty; a failure carries no partial list; the error is an authentication failure exactly on a 401 |
| Remote.RaisesForStatus | src/python_utilities/github_repos.py:171 | a predicate with no ensures of its own: statuses 400 to 599 raise; `Remote.ListingMeaning` states what a raising page does to the listing |
| Remote.Concat | src/python_utilities/github_repos.py:175 | no ensures of its own: the list `extend` accumulates; `Remote.ConcatMembers` and `Remote.ConcatAppend` state its contents and order |
| Remote.Listing | src/python_utilities/github_repos.py:163-185 | no ensures of its own: the result of the page loop; `Remote.ListingMeaning` and `Remote.ListingIgnoresLaterPages` state what it is, and `Manager.GitHubRepoManager.GetRepos` is proved equal to it |
| Reconcile.AttemptOf | src/python_utilities/github_repos.py:203-204 | a clone exactly when `<visibility>/<name>` does not exist (file or directory), otherwise an update |
| Reconcile.CloneOrUpdate | src/python_utilities/github_repos.py:197-241 | a successful clone creates the target directory; an update or a failed step leaves the disk as it is; exactly one counter goes up (`cloned`, `updated`, or `errors` on failure); plain files stay |
| Reconcile.Pass1Advance | src/python_utilities/github_repos.py:280-289 | handling one more repository continues the pass-1 fold over the listing |
| Reconcile.Pass1 | src/python_utilities/github_repos.py:280-289 | no ensures of its own: `clone_or_update_repo` on each repository in listing order, a failure going on to the next; `Properties.Pass1Tally`, `Properties.Pass1Dirs`, `Properties.Pass1AllUpdates` and `Properties.Pass1NeverDecreases` state its effect |
| Reconcile.TreatmentOf | src/python_utilities/github_repos.py:302-321 | delete exactly when the name is not listed; move exactly when it is listed for the other partition, and to that partition; keep otherwise |
| Reconcile.ScanEntry | src/python_utilities/github_repos.py:297-341 | skips an entry that is not a directory or is in place; on failure changes only `errors`; otherwise deletes and counts `deleted`, or moves to the other partition and counts `moved` |
| Reconcile.ScanStep | src/python_utilities/github_repos.py:297 | visiting one more entry turns the closed form for the visited set into the closed form for that set plus the entry, so the order `iterdir` yields entries in does not matter |
| Reconcile.ScanAdvance | src/python_utilities/github_repos.py:297-341 | one iteration of the scan loop keeps the closed-form invariant on the visited entries |
| Reconcile.ScanNothing | src/python_utilities/github_repos.py:297 | a scan that has visited nothing changed nothing |
| Reconcile.ScanSet | src/python_utilities/github_repos.py:297-341 | no ensures of its own: the closed form of a scan that has visited a set of entries; `Reconcile.ScanStep` makes it the result of any visiting order, and `Reconcile.ScanDiskDirs` and `Properties.ActedOn` state what it does to the directories |
| Reconcile.ScanPartition | src/python_utilities/github_repos.py:292-341 | no ensures of its own: nothing when the folder is missing, else the scan of all its entries; `Properties.ScanPartitionDirs`, `Properties.ScanPartitionIdle` and `Properties.ScanPartitionNeverDecreases` state its effect |
| Reconcile.ScanDiskDirs | src/python_utilities/github_repos.py:312-333 | after a scan's deletions and moves, what remains in the scanned partition, what the other partition gains, plain files untouched |
| Reconcile.ScanPartitionsAdvance | src/python_utilities/github_repos.py:292 | scanning one more partition continues the fold over `public`, `private` |
| Reconcile.Pass2Unfold | src/python_utilities/github_repos.py:292-295 | pass 2 is the scan of `public` followed by the scan of `private` |
| Reconcile.Pass2 | src/python_utilities/github_repos.py:292-341 | no ensures of its own: the partition scans in the order `public`, `private`; `Properties.Pass2Dirs` and `Properties.Pass2Idle` state its effect |
| Reconcile.Sync | src/python_utilities/github_repos.py:272-341 | no ensures of its own: pass 1, then pass 2 with the visibility map of the listing; `Properties.SyncConverges`, `Properties.SyncIdempotent`, `Properties.SyncTwice` and `Properties.SyncCountsNeverDecrease` state what a run achieves |
| Manager.GitHubRepoManager.constructor | src/python_utilities/github_repos.py:130-133 | a manager over the given storage root with a fresh logger, all counters zero |
| Manager.GitHubRepoManager.Bump | src/python_utilities/github_repos.py:73-76 | `increment_stat` on the manager's logger: the disk stays, exactly the named counter goes up by one, and the dictionary still holds the counts |
| Manager.GitHubRepoManager.GetRepos | src/python_utilities/github_repos.py:163-185 | the page loop returns exactly `Listing` of the responses |
| Manager.GitHubRepoManager.CloneOrUpdateRepo | src/python_utilities/github_repos.py:197-241 | the attempt made is clone or update by existence, with the git outcome, and the new state is `CloneOrUpdate` of the old one |
| Manager.GitHubRepoManager.ProcessRepos | src/python_utilities/github_repos.py:280-289 | the loop's state is `Pass1` of the old state: every repository handled once, in order, whatever each outcome |
| Manager.GitHubRepoManager.ScanEntryAt | src/python_utilities/github_repos.py:298-341 | the new state is `ScanEntry` of the old one for that entry |
| Manager.GitHubRepoManager.ScanEntries | src/python_utilities/github_repos.py:297-341 | visiting every entry of the snapshot, in any order, gives the closed form `ScanSet` |
| Manager.GitHubRepoManager.ScanFolder | src/python_utilities/github_repos.py:292-297 | the new state is `ScanPartition`: no change when the folder is missing, else the scan of its entries |
| Manager.GitHubRepoManager.MoveOrDelete | src/python_utilities/github_repos.py:292-341 | the new state is `Pass2` of the old one |
| Manager.GitHubRepoManager.SyncAllRepos | src/python_utilities/github_repos.py:254-341 | an error is returned exactly when the listing fails, and then it is that error and neither disk nor counters changed; otherwise the new state is `Sync` of the old one |
| Properties.Pass1Tally | src/python_utilities/github_repos.py:280-289 | pass 1 counts every repository exactly once as cloned, updated or error; the errors are exactly the failed git steps; moved and deleted stay |
| Properties.Pass1Dirs | src/python_utilities/github_repos.py:204-213 | after pass 1 the directories are the old ones plus the target of every repository whose git step succeeded and whose target is no plain file |
| Properties.Pass1AllUpdates | src/python_utilities/github_repos.py:214-228 | when every target is a directory and every git step succeeds, pass 1 leaves the disk and counts each repository as updated |
| Properties.Pass1NeverDecreases | src/python_utilities/github_repos.py:280-289 | pass 1 lowers no counter |
| Properties.ActedOn | src/python_utilities/github_repos.py:298-333 | an entry is deleted (moved) exactly when it is a directory to delete (move) whose operation succeeds |
| Properties.ScanPartitionDirs | src/python_utilities/github_repos.py:292-341 | the scan of a partition keeps exactly its in-place directories and those whose operation failed; the other partition gains exactly the moved ones; plain files stay |
| Properties.ScanPartitionIdle | src/python_utilities/github_repos.py:297-321 | a partition with nothing to delete or move is left unchanged, counters included |
| Properties.ScanPartitionNeverDecreases | src/python_utilities/github_repos.py:297-341 | the scan of a partition lowers no counter |
| Properties.TallyNeverDecreases | src/python_utilities/github_repos.py:313-341 | adding deletions, moves and errors lowers no counter |
| Properties.Pass2Dirs | src/python_utilities/github_repos.py:292-341 | after pass 2 a directory is only where the remote puts it or where its operation failed; without failures the directories are exactly the listed names, each in its own partition, that had a directory before |
| Properties.Pass2Idle | src/python_utilities/github_repos.py:292-341 | pass 2 over a storage root with nothing out of place changes nothing |
| Properties.SyncConverges | src/python_utilities/github_repos.py:243-341 | when nothing fails and no plain file blocks a target, each partition ends up holding exactly the repositories the remote assigns to it |
| Properties.SyncIdempotent | src/python_utilities/github_repos.py:243-341 | on a converged storage root with unique names and successful git steps, a run changes no directory, whatever the filesystem does, and counts every repository as updated |
| Properties.SyncTwice | src/python_utilities/github_repos.py:243-341 | a second failure-free run after a first one changes no directory |
| Properties.SyncCountsNeverDecrease | src/python_utilities/github_repos.py:280-341 | a whole run lowers no counter |
| Properties.VisibilityChangeClonesThenMoves | src/python_utilities/github_repos.py:199-213 | a repository that turned private, found in `public`, is cloned into `private` and then its old copy is moved there: one clone, one move |
| Properties.FailureDoesNotStopTheRun | src/python_utilities/github_repos.py:281-289 | with three new repositories and the second git step failing, the first and third are cloned and one error is counted |

## Left out

- HTTP, JSON decoding and the `requests.Session` with its credentials: the responses of the page requests are a parameter. Each response is a status with a list of descriptors, or a connection failure.
- Manager.GitHubRepoManager.GetRepos, Manager.GitHubRepoManager.SyncAllRepos: require some page to end the listing; a server that returns non-empty pages forever would make the loop run forever, and this is not modelled.
- The git subprocesses (`git clone`, `git pull --rebase`): their success or failure is a parameter, the set of pass-1 indices whose git step fails. The content of a working copy is not modelled.
- `shutil.rmtree` and `shutil.move`: their success or failure is a parameter, the set of paths whose operation fails. A failing `rmtree` is taken to remove nothing, although the real one may remove part of the tree.
- Reconcile.ScanEntry: a move onto an existing destination is modelled as "destination is a directory". The real `shutil.move` then nests the old copy inside the fresh clone, which this abstraction does not show.
- Reconcile.CloneOrUpdate: a failed clone is taken to leave nothing at the target, although git may leave a partial directory behind.
- Modelled exceptions: `CalledProcessError` in pass 1, `OSError` from `rmtree`/`move` in pass 2, and `RequestException` in the fetch. Any other exception aborts the run in the code and is not modelled. That includes any `OSError` in pass 1, such as git missing from `PATH` (`FileNotFoundError` from `subprocess.run`) or a failed write to the log file.
- Reconcile.CloneOrUpdate, Reconcile.ScanEntry: the failure parameters can let an operation on a plain file succeed, although the real one always fails. Two cases arise:
  - a `git pull` in a target that is a plain file is counted as `updated`;
  - a move onto a plain file in the other partition is counted as `moved`, and the path is then both a directory and a file.
  The real `git -C` and `shutil.move` always fail there. The whole-run lemmas exclude plain files at targets (`Properties.Unobstructed`).
- The storage root is taken to be case-sensitive: a path matches a repository name only when the strings are equal. On a case-insensitive volume, say a share under `/Volumes` (the default base path), a case-only rename behaves differently. Suppose `public/foo` exists and the remote now lists `Foo`. In the code, `exists()` finds `foo`, so pass 1 pulls and counts `updated`. Pass 2 then finds `foo` among the entries, sees the name is not listed, and deletes it, so the run ends with no copy. In the model, `Foo` is cloned and `foo` is deleted.
- A partition path that exists but is a plain file (`iterdir` would raise) is not modelled: partition folders are always folders.
- The order `iterdir` yields entries in is a nondeterministic choice; the scan is proved to give the same result in every order.
- `Logger.log`, the log file, its messages, timestamps and `log_summary` with its duration: output only, no effect on the state.
- The `tqdm` progress bar, `keyring`, argument parsing and the `main` entry point: plumbing with no effect on the sync.
- The creation of the base path and its `errno` handling in `GitHubRepoManager.__init__`: the storage root is given as the constructor's argument.
- `scripts/github_sync.py` is not part of this model.
- Properties.SyncIdempotent, Properties.SyncTwice: need unique remote names; with a repeated name the code may clone one copy and later move another onto it, which is modelled (the last visibility wins) but not proved idempotent.

## Findings

| source | as written | input that shows it | evidently intended | confidence | as-written member | corrected member |
|---|---|---|---|---|---|---|
| src/python_utilities/github_repos.py:166-178 | the `except` handler reads `response.status_code`, but `response` is bound only after `session.get` returns | the request for page 1 raises a connection error: `response` was never assigned, so `UnboundLocalError` escapes instead of the `RuntimeError` "Failed to fetch repositories" (on a later page the status of the previous, successful page is read instead) | a request that never produced a response is reported as a fetch failure, and a 401 only when a response with status 401 came back | not executed | Remote.ErrorKindAsWritten, Remote.FirstPageConnectionFailureAsWritten | Remote.ErrorKind |
