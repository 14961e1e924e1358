/**
 * `GitHubRepoManager`: the storage root it manages and its logger's counters,
 * updated in place by the paged fetch, `clone_or_update_repo` and `sync_all_repos`.
 */
module Manager {
  import opened Stats
  import opened Layout
  import opened Remote
  import opened Reconcile

  class GitHubRepoManager {
    /** The contents of the storage root below `base_path`. */
    var disk: Disk
    const logger: Logger

    /** The logger's dictionary holds exactly the five counters. */
    ghost predicate Valid()
      reads this, logger
    {
      logger.Valid()
    }

    /** The manager's state as the specification functions see it. */
    ghost function CurrentState(): (s: State)
      reads this, logger
      ensures s.disk == disk && (Valid() ==> AsMap(s.counts) == logger.stats)
    {
      State(disk, logger.counts)
    }

    /** A manager over the storage root `disk0`, with a fresh logger. */
    constructor (disk0: Disk)
      ensures Valid() && fresh(logger)
      ensures disk == disk0 && logger.stats == InitialStats()
      ensures CurrentState() == State(disk0, Zero)
    {
      disk := disk0;
      logger := new Logger();
      new;
    }

    /** `increment_stat(Key(k))` on the logger, seen as the counts. */
    method Bump(k: Counter)
      requires Valid()
      modifies logger
      ensures Valid() && CurrentState() == State(disk, Incr(old(CurrentState()).counts, k))
    {
      logger.IncrementStat(Key(k));
    }

    /**
     * `get_repos`: request page 1, 2, ... until a page is empty, where
     * `responses[i]` is what the request for page `i + 1` produces; a page
     * that fails ends the fetch with an error.
     */
    method GetRepos(responses: seq<Response>) returns (r: Result<seq<Repo>, FetchError>)
      requires HasEnd(responses)
      ensures r == Listing(responses)
    {
      var repos: seq<Repo> := [];
      var page := 1;
      while true
        invariant 1 <= page <= FirstEnd(responses) + 1
        invariant repos == Concat(responses[..page - 1])
        decreases FirstEnd(responses) + 1 - page
      {
        var response := responses[page - 1];
        if Failed(response) {
          return Err(ErrorKind(response));
        }
        var pageRepos := Body(response);
        if pageRepos == [] {
          break;
        }
        assert responses[..page][..page - 1] == responses[..page - 1];
        repos := repos + pageRepos;
        page := page + 1;
      }
      return Ok(repos);
    }

    /**
     * `clone_or_update_repo`: clone `repo` into its partition when its path does
     * not exist, pull it otherwise; `gitOk` says whether the git subprocess
     * succeeded. The returned attempt has `succeeded == false` exactly when the
     * source raises `RuntimeError`, after counting the error.
     */
    method CloneOrUpdateRepo(repo: Repo, gitOk: bool) returns (attempt: Attempt)
      requires Valid()
      modifies this, logger
      ensures Valid()
      ensures attempt == AttemptOf(old(disk), repo, gitOk)
      ensures CurrentState() == CloneOrUpdate(old(CurrentState()), repo, gitOk)
    {
      var visibilityFolder := VisibilityFolder(repo);
      if !Exists(disk, visibilityFolder, repo.name) {
        if gitOk {
          disk := AddDir(disk, visibilityFolder, repo.name);
          Bump(ClonedCounter);
        } else {
          Bump(ErrorsCounter);
        }
        attempt := Clone(gitOk);
      } else {
        if gitOk {
          Bump(UpdatedCounter);
        } else {
          Bump(ErrorsCounter);
        }
        attempt := Update(gitOk);
      }
    }

    /**
     * The pass-2 scan of partition `p`: every directory in it that is not on
     * the remote is deleted, every one whose remote visibility is the other
     * partition is moved there; `fsFailures` holds the paths whose `rmtree` or
     * `move` raises `OSError`. `iterdir` may list the entries in any order.
     */
    method ScanFolder(p: Partition, remoteNames: set<string>, visibility: map<string, Partition>, fsFailures: set<Path>)
      requires Valid() && remoteNames == visibility.Keys
      modifies this, logger
      ensures Valid()
      ensures CurrentState() == ScanPartition(old(CurrentState()), p, visibility, fsFailures)
    {
      if p !in disk.folders {
        return;
      }
      var entries := EntriesOf(disk, p);
      ScanEntries(p, entries, remoteNames, visibility, fsFailures);
    }

    /** The `iterdir` loop over the snapshot `entries` of partition `p`, in any order. */
    method ScanEntries(p: Partition, entries: set<string>, remoteNames: set<string>, visibility: map<string, Partition>,
                       fsFailures: set<Path>)
      requires Valid() && remoteNames == visibility.Keys
      modifies this, logger
      ensures Valid()
      ensures CurrentState() == ScanSet(old(CurrentState()), p, visibility, fsFailures, entries)
    {
      ghost var s0 := CurrentState();
      var todo := entries;
      ScanNothing(s0, p, visibility, fsFailures);
      while todo != {}
        invariant todo <= entries
        invariant Valid()
        invariant CurrentState() == ScanSet(s0, p, visibility, fsFailures, entries - todo)
        decreases |todo|
      {
        var name :| name in todo;
        ghost var before := CurrentState();
        ScanEntryAt(p, name, remoteNames, visibility, Path(p, name) !in fsFailures);
        ScanAdvance(s0, p, visibility, fsFailures, entries, todo, name, before, CurrentState());
        todo := todo - {name};
      }
      assert entries - todo == entries;
    }

    /**
     * The loop body of the scan for the entry `name` of partition `p`: skip it
     * unless it is a directory; delete it when it is not on the remote, move it
     * when the remote puts it in the other partition; `ok` says whether the
     * `rmtree` or `move` succeeds, and a failure is counted as an error.
     */
    method ScanEntryAt(p: Partition, name: string, remoteNames: set<string>, visibility: map<string, Partition>, ok: bool)
      requires Valid() && remoteNames == visibility.Keys
      modifies this, logger
      ensures Valid()
      ensures CurrentState() == ScanEntry(old(CurrentState()), p, name, visibility, ok)
    {
      if !IsDir(disk, p, name) {
        return;
      }
      if name !in remoteNames {
        if ok {
          disk := RemoveDir(disk, p, name);
          Bump(DeletedCounter);
        } else {
          Bump(ErrorsCounter);
        }
      } else if visibility[name] != p {
        if ok {
          disk := AddDir(RemoveDir(disk, p, name), visibility[name], name);
          Bump(MovedCounter);
        } else {
          Bump(ErrorsCounter);
        }
      }
    }

    /** Pass 1 of `sync_all_repos`: `clone_or_update_repo` for each repository, in order, whatever each outcome. */
    method ProcessRepos(remoteRepos: seq<Repo>, gitFailures: set<nat>)
      requires Valid()
      modifies this, logger
      ensures Valid()
      ensures CurrentState() == Pass1(old(CurrentState()), remoteRepos, gitFailures)
    {
      ghost var s0 := CurrentState();
      var i := 0;
      while i < |remoteRepos|
        invariant 0 <= i <= |remoteRepos|
        invariant Valid()
        invariant CurrentState() == Pass1(s0, remoteRepos[..i], gitFailures)
      {
        ghost var before := CurrentState();
        var attempt := CloneOrUpdateRepo(remoteRepos[i], i !in gitFailures);
        Pass1Advance(s0, remoteRepos, gitFailures, i, before, CurrentState());
        i := i + 1;
      }
      assert remoteRepos[..i] == remoteRepos;
    }

    /** Pass 2 of `sync_all_repos`: the scan of `public`, then of `private`. */
    method MoveOrDelete(remoteNames: set<string>, visibility: map<string, Partition>, fsFailures: set<Path>)
      requires Valid() && remoteNames == visibility.Keys
      modifies this, logger
      ensures Valid()
      ensures CurrentState() == Pass2(old(CurrentState()), visibility, fsFailures)
    {
      ghost var s1 := CurrentState();
      var k := 0;
      while k < |PartitionOrder|
        invariant 0 <= k <= |PartitionOrder|
        invariant Valid()
        invariant CurrentState() == ScanPartitions(s1, PartitionOrder[..k], visibility, fsFailures)
      {
        ghost var before := CurrentState();
        ScanFolder(PartitionOrder[k], remoteNames, visibility, fsFailures);
        ScanPartitionsAdvance(s1, PartitionOrder, visibility, fsFailures, k, before, CurrentState());
        k := k + 1;
      }
      assert PartitionOrder[..k] == PartitionOrder;
    }

    /**
     * `sync_all_repos`: fetch the listing; on a fetch error return it with
     * nothing changed; otherwise pass 1 (clone or update each repository in
     * listing order, the `i`-th git step failing exactly when `i` is in
     * `gitFailures`, a failure moving on to the next) and pass 2 (scan
     * `public`, then `private`).
     */
    method SyncAllRepos(responses: seq<Response>, gitFailures: set<nat>, fsFailures: set<Path>)
      returns (error: Option<FetchError>)
      requires Valid() && HasEnd(responses)
      modifies this, logger
      ensures Valid()
      ensures error.Some? <==> Listing(responses).Err?
      ensures error.Some? ==> error.value == Listing(responses).error && disk == old(disk) && logger.stats == old(logger.stats)
      ensures error.None? ==>
                CurrentState() == Sync(old(CurrentState()), Listing(responses).value, gitFailures, fsFailures)
    {
      var fetched := GetRepos(responses);
      if fetched.Err? {
        return Some(fetched.error);
      }
      var remoteRepos := fetched.value;
      var remoteNames := RemoteNames(remoteRepos);
      var visibility := VisibilityMap(remoteRepos);
      ProcessRepos(remoteRepos, gitFailures);
      MoveOrDelete(remoteNames, visibility, fsFailures);
      return None;
    }
  }
}
