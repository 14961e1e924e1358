/**
 * The effect of one synchronisation run on disk and statistics, step by step:
 * pass 1 (`clone_or_update_repo` for every remote repository, in order) and
 * pass 2 (the scan of `public` then `private` that deletes and moves).
 */
module Reconcile {
  import opened Stats
  import opened Layout
  import opened Remote

  /** What the run can change: the storage root and the logger's counters. */
  datatype State = State(disk: Disk, counts: Counts)

  // ---------------------------------------------------------------------------
  // Pass 1

  /** One `clone_or_update_repo` call: a clone or an update, which succeeded or raised. */
  datatype Attempt = Clone(succeeded: bool) | Update(succeeded: bool)

  /** The counter an attempt bumps: `errors` when it raised. */
  function CounterOf(a: Attempt): Counter
  {
    if !a.succeeded then ErrorsCounter else if a.Clone? then ClonedCounter else UpdatedCounter
  }

  /**
   * The attempt made for `repo`: a clone exactly when `<partition>/<name>` does
   * not exist, with `gitOk` saying whether the git subprocess succeeded.
   */
  function AttemptOf(d: Disk, repo: Repo, gitOk: bool): (a: Attempt)
    ensures a.Clone? <==> !Exists(d, VisibilityFolder(repo), repo.name)
    ensures a.succeeded == gitOk
  {
    if !Exists(d, VisibilityFolder(repo), repo.name) then Clone(gitOk) else Update(gitOk)
  }

  /** The state after `clone_or_update_repo(repo)` when the git step's success is `gitOk`. */
  function CloneOrUpdate(s: State, repo: Repo, gitOk: bool): (r: State)
    ensures var a := AttemptOf(s.disk, repo, gitOk);
            && (a == Clone(true) ==> r.disk == AddDir(s.disk, VisibilityFolder(repo), repo.name))
            && (a != Clone(true) ==> r.disk == s.disk)
            && r.counts == Incr(s.counts, CounterOf(a))
    ensures r.disk.files == s.disk.files
    ensures Valid(s.disk) ==> Valid(r.disk)
  {
    var p := VisibilityFolder(repo);
    if !Exists(s.disk, p, repo.name) then
      if gitOk then State(AddDir(s.disk, p, repo.name), Incr(s.counts, ClonedCounter))
      else State(s.disk, Incr(s.counts, ErrorsCounter))
    else
      if gitOk then State(s.disk, Incr(s.counts, UpdatedCounter))
      else State(s.disk, Incr(s.counts, ErrorsCounter))
  }

  /**
   * The state after the driver loop has handled `remote` in order; the `i`-th
   * git step fails exactly when `i` is in `gitFailures`, and a raised error
   * moves the loop on to the next repository.
   */
  function Pass1(s: State, remote: seq<Repo>, gitFailures: set<nat>): State
  {
    if remote == [] then s
    else
      var n := |remote| - 1;
      CloneOrUpdate(Pass1(s, remote[..n], gitFailures), remote[n], n !in gitFailures)
  }

  /** One more repository handled by the driver loop of pass 1. */
  lemma Pass1Advance(s0: State, remote: seq<Repo>, gitFailures: set<nat>, i: nat, before: State, after: State)
    requires i < |remote|
    requires before == Pass1(s0, remote[..i], gitFailures)
    requires after == CloneOrUpdate(before, remote[i], i !in gitFailures)
    ensures after == Pass1(s0, remote[..i + 1], gitFailures)
  {
    assert remote[..i + 1][..i] == remote[..i];
  }

  // ---------------------------------------------------------------------------
  // Pass 2

  /** What the scan does with a repository directory found in some partition. */
  datatype Treatment = Delete | Move(to: Partition) | Keep

  /** The treatment of directory `name` found in partition `p`. */
  function TreatmentOf(p: Partition, name: string, vis: map<string, Partition>): (t: Treatment)
    ensures t == Delete <==> name !in vis
    ensures t.Move? <==> name in vis && vis[name] != p
    ensures t.Move? ==> t.to == vis[name] && t.to == Other(p)
    ensures t == Keep <==> name in vis && vis[name] == p
  {
    if name !in vis then Delete
    else if vis[name] != p then Move(vis[name])
    else Keep
  }

  /**
   * The state after the scan of partition `p` reached entry `name`; `ok` says
   * whether the `rmtree` or `move` it may call succeeds.
   */
  function ScanEntry(s: State, p: Partition, name: string, vis: map<string, Partition>, ok: bool): (r: State)
    ensures !IsDir(s.disk, p, name) || TreatmentOf(p, name, vis) == Keep ==> r == s
    ensures IsDir(s.disk, p, name) && TreatmentOf(p, name, vis) != Keep && !ok ==>
              r.disk == s.disk && r.counts == Incr(s.counts, ErrorsCounter)
    ensures IsDir(s.disk, p, name) && TreatmentOf(p, name, vis) == Delete && ok ==>
              r.disk == RemoveDir(s.disk, p, name) && r.counts == Incr(s.counts, DeletedCounter)
    ensures IsDir(s.disk, p, name) && TreatmentOf(p, name, vis).Move? && ok ==>
              && r.disk == AddDir(RemoveDir(s.disk, p, name), Other(p), name)
              && r.counts == Incr(s.counts, MovedCounter)
    ensures r.disk.files == s.disk.files
    ensures Valid(s.disk) ==> Valid(r.disk)
  {
    if !IsDir(s.disk, p, name) then s
    else
      match TreatmentOf(p, name, vis)
      case Delete =>
        if ok then State(RemoveDir(s.disk, p, name), Incr(s.counts, DeletedCounter))
        else State(s.disk, Incr(s.counts, ErrorsCounter))
      case Move(q) =>
        if ok then State(AddDir(RemoveDir(s.disk, p, name), q, name), Incr(s.counts, MovedCounter))
        else State(s.disk, Incr(s.counts, ErrorsCounter))
      case Keep => s
  }

  /** Directory `n` of partition `p` in `s0` gets deleted successfully. */
  predicate IsDeletion(s0: State, p: Partition, vis: map<string, Partition>, fsFailures: set<Path>, n: string)
  {
    IsDir(s0.disk, p, n) && TreatmentOf(p, n, vis) == Delete && Path(p, n) !in fsFailures
  }

  /** Directory `n` of partition `p` in `s0` gets moved successfully. */
  predicate IsMove(s0: State, p: Partition, vis: map<string, Partition>, fsFailures: set<Path>, n: string)
  {
    IsDir(s0.disk, p, n) && TreatmentOf(p, n, vis).Move? && Path(p, n) !in fsFailures
  }

  /** Directory `n` of partition `p` in `s0` is to be deleted or moved, and that fails. */
  predicate IsFailure(s0: State, p: Partition, vis: map<string, Partition>, fsFailures: set<Path>, n: string)
  {
    IsDir(s0.disk, p, n) && TreatmentOf(p, n, vis) != Keep && Path(p, n) in fsFailures
  }

  function Deletions(s0: State, p: Partition, vis: map<string, Partition>, fsFailures: set<Path>, names: set<string>): set<string>
  {
    set n | n in names && IsDeletion(s0, p, vis, fsFailures, n)
  }

  function Moves(s0: State, p: Partition, vis: map<string, Partition>, fsFailures: set<Path>, names: set<string>): set<string>
  {
    set n | n in names && IsMove(s0, p, vis, fsFailures, n)
  }

  function Failures(s0: State, p: Partition, vis: map<string, Partition>, fsFailures: set<Path>, names: set<string>): set<string>
  {
    set n | n in names && IsFailure(s0, p, vis, fsFailures, n)
  }

  /** The paths of the entries `names` of partition `p`. */
  function PathsIn(p: Partition, names: set<string>): set<Path>
  {
    set n | n in names :: Path(p, n)
  }

  lemma PathsInAdd(p: Partition, names: set<string>, name: string)
    ensures PathsIn(p, names + {name}) == PathsIn(p, names) + {Path(p, name)}
  {
  }

  /**
   * The disk after the directories `del` of partition `p` were removed and the
   * directories `mov` were moved to the other partition.
   */
  function ScanDisk(d: Disk, p: Partition, del: set<string>, mov: set<string>): Disk
  {
    Disk(d.folders + (if mov == {} then {} else {Other(p)}),
         d.dirs - PathsIn(p, del + mov) + PathsIn(Other(p), mov),
         d.files)
  }

  /** The counters after `d` more deletions, `mv` more moves and `e` more errors. */
  function Tally(c: Counts, d: nat, mv: nat, e: nat): Counts
  {
    c.(deleted := c.deleted + d, moved := c.moved + mv, errors := c.errors + e)
  }

  /**
   * The state once the scan of partition `p`, started in `s0`, has visited the
   * entries `names`, in whatever order: the outcome does not depend on it.
   */
  function ScanSet(s0: State, p: Partition, vis: map<string, Partition>, fsFailures: set<Path>, names: set<string>): State
  {
    ScanResult(s0, p, Deletions(s0, p, vis, fsFailures, names), Moves(s0, p, vis, fsFailures, names),
               Failures(s0, p, vis, fsFailures, names))
  }

  /** The state after the deletions `del`, the moves `mov` and the failures `err` of partition `p`. */
  function ScanResult(s0: State, p: Partition, del: set<string>, mov: set<string>, err: set<string>): State
  {
    State(ScanDisk(s0.disk, p, del, mov), Tally(s0.counts, |del|, |mov|, |err|))
  }

  lemma ResultDelete(s0: State, p: Partition, del: set<string>, mov: set<string>, err: set<string>, name: string)
    requires name !in del + mov
    ensures ScanResult(s0, p, del + {name}, mov, err)
         == State(RemoveDir(ScanResult(s0, p, del, mov, err).disk, p, name), Incr(ScanResult(s0, p, del, mov, err).counts, DeletedCounter))
  {
    ScanDiskDelete(s0.disk, p, del, mov, name);
    assert |del + {name}| == |del| + 1;
  }

  lemma ResultMove(s0: State, p: Partition, del: set<string>, mov: set<string>, err: set<string>, name: string)
    requires name !in del + mov
    ensures ScanResult(s0, p, del, mov + {name}, err)
         == State(AddDir(RemoveDir(ScanResult(s0, p, del, mov, err).disk, p, name), Other(p), name),
                  Incr(ScanResult(s0, p, del, mov, err).counts, MovedCounter))
  {
    ScanDiskMove(s0.disk, p, del, mov, name);
    assert |mov + {name}| == |mov| + 1;
  }

  lemma ResultFail(s0: State, p: Partition, del: set<string>, mov: set<string>, err: set<string>, name: string)
    requires name !in err
    ensures ScanResult(s0, p, del, mov, err + {name})
         == State(ScanResult(s0, p, del, mov, err).disk, Incr(ScanResult(s0, p, del, mov, err).counts, ErrorsCounter))
  {
    assert |err + {name}| == |err| + 1;
  }

  /** The scan's entries of `p` other than `del` and `mov` are untouched. */
  lemma ScanDiskUntouched(d: Disk, p: Partition, del: set<string>, mov: set<string>, name: string)
    requires name !in del + mov
    ensures IsDir(ScanDisk(d, p, del, mov), p, name) == IsDir(d, p, name)
  {
  }

  /** One more successful delete. */
  lemma ScanDiskDelete(d: Disk, p: Partition, del: set<string>, mov: set<string>, name: string)
    requires name !in del + mov
    ensures ScanDisk(d, p, del + {name}, mov) == RemoveDir(ScanDisk(d, p, del, mov), p, name)
  {
    assert del + {name} + mov == del + mov + {name};
    PathsInAdd(p, del + mov, name);
  }

  /** One more successful move. */
  lemma ScanDiskMove(d: Disk, p: Partition, del: set<string>, mov: set<string>, name: string)
    requires name !in del + mov
    ensures ScanDisk(d, p, del, mov + {name}) == AddDir(RemoveDir(ScanDisk(d, p, del, mov), p, name), Other(p), name)
  {
    assert del + (mov + {name}) == del + mov + {name};
    PathsInAdd(p, del + mov, name);
    PathsInAdd(Other(p), mov, name);
  }

  /**
   * Visiting one more entry of the snapshot continues the tally: the scan of a
   * partition is the same whichever order `iterdir` yields the entries in.
   */
  lemma ScanStep(s0: State, p: Partition, vis: map<string, Partition>, fsFailures: set<Path>, names: set<string>, name: string)
    requires name !in names
    ensures ScanEntry(ScanSet(s0, p, vis, fsFailures, names), p, name, vis, Path(p, name) !in fsFailures)
         == ScanSet(s0, p, vis, fsFailures, names + {name})
  {
    var del, mov := Deletions(s0, p, vis, fsFailures, names), Moves(s0, p, vis, fsFailures, names);
    assert name !in del + mov;
    ScanDiskUntouched(s0.disk, p, del, mov, name);
    if !IsDir(s0.disk, p, name) || TreatmentOf(p, name, vis) == Keep {
      ScanStepSkip(s0, p, vis, fsFailures, names, name);
    } else if Path(p, name) in fsFailures {
      ScanStepFail(s0, p, vis, fsFailures, names, name);
    } else if TreatmentOf(p, name, vis) == Delete {
      ScanStepDelete(s0, p, vis, fsFailures, names, name);
    } else {
      ScanStepMove(s0, p, vis, fsFailures, names, name);
    }
  }

  lemma DeletionsStep(s0: State, p: Partition, vis: map<string, Partition>, fsFailures: set<Path>, names: set<string>, name: string)
    requires name !in names
    ensures Deletions(s0, p, vis, fsFailures, names + {name})
         == Deletions(s0, p, vis, fsFailures, names) + (if IsDeletion(s0, p, vis, fsFailures, name) then {name} else {})
    ensures name !in Deletions(s0, p, vis, fsFailures, names)
  {
  }

  lemma MovesStep(s0: State, p: Partition, vis: map<string, Partition>, fsFailures: set<Path>, names: set<string>, name: string)
    requires name !in names
    ensures Moves(s0, p, vis, fsFailures, names + {name})
         == Moves(s0, p, vis, fsFailures, names) + (if IsMove(s0, p, vis, fsFailures, name) then {name} else {})
    ensures name !in Moves(s0, p, vis, fsFailures, names)
  {
  }

  lemma FailuresStep(s0: State, p: Partition, vis: map<string, Partition>, fsFailures: set<Path>, names: set<string>, name: string)
    requires name !in names
    ensures Failures(s0, p, vis, fsFailures, names + {name})
         == Failures(s0, p, vis, fsFailures, names) + (if IsFailure(s0, p, vis, fsFailures, name) then {name} else {})
    ensures name !in Failures(s0, p, vis, fsFailures, names)
  {
  }

  lemma ScanStepSkip(s0: State, p: Partition, vis: map<string, Partition>, fsFailures: set<Path>, names: set<string>, name: string)
    requires name !in names
    requires !IsDir(s0.disk, p, name) || TreatmentOf(p, name, vis) == Keep
    ensures ScanSet(s0, p, vis, fsFailures, names + {name}) == ScanSet(s0, p, vis, fsFailures, names)
  {
    var names' := names + {name};
    var del, mov, err := Deletions(s0, p, vis, fsFailures, names), Moves(s0, p, vis, fsFailures, names), Failures(s0, p, vis, fsFailures, names);
    DeletionsStep(s0, p, vis, fsFailures, names, name);
    MovesStep(s0, p, vis, fsFailures, names, name);
    FailuresStep(s0, p, vis, fsFailures, names, name);
    assert Deletions(s0, p, vis, fsFailures, names') == del;
    assert Moves(s0, p, vis, fsFailures, names') == mov;
    assert Failures(s0, p, vis, fsFailures, names') == err;
  }

  lemma ScanStepFail(s0: State, p: Partition, vis: map<string, Partition>, fsFailures: set<Path>, names: set<string>, name: string)
    requires name !in names && IsDir(s0.disk, p, name) && TreatmentOf(p, name, vis) != Keep
    requires Path(p, name) in fsFailures
    ensures ScanSet(s0, p, vis, fsFailures, names + {name})
         == State(ScanSet(s0, p, vis, fsFailures, names).disk, Incr(ScanSet(s0, p, vis, fsFailures, names).counts, ErrorsCounter))
  {
    var names' := names + {name};
    var del, mov, err := Deletions(s0, p, vis, fsFailures, names), Moves(s0, p, vis, fsFailures, names), Failures(s0, p, vis, fsFailures, names);
    DeletionsStep(s0, p, vis, fsFailures, names, name);
    MovesStep(s0, p, vis, fsFailures, names, name);
    FailuresStep(s0, p, vis, fsFailures, names, name);
    assert Deletions(s0, p, vis, fsFailures, names') == del;
    assert Moves(s0, p, vis, fsFailures, names') == mov;
    assert Failures(s0, p, vis, fsFailures, names') == err + {name};
    ResultFail(s0, p, del, mov, err, name);
  }

  lemma ScanStepDelete(s0: State, p: Partition, vis: map<string, Partition>, fsFailures: set<Path>, names: set<string>, name: string)
    requires name !in names && IsDir(s0.disk, p, name) && TreatmentOf(p, name, vis) == Delete
    requires Path(p, name) !in fsFailures
    ensures ScanSet(s0, p, vis, fsFailures, names + {name})
         == State(RemoveDir(ScanSet(s0, p, vis, fsFailures, names).disk, p, name), Incr(ScanSet(s0, p, vis, fsFailures, names).counts, DeletedCounter))
  {
    var names' := names + {name};
    var del, mov, err := Deletions(s0, p, vis, fsFailures, names), Moves(s0, p, vis, fsFailures, names), Failures(s0, p, vis, fsFailures, names);
    DeletionsStep(s0, p, vis, fsFailures, names, name);
    MovesStep(s0, p, vis, fsFailures, names, name);
    FailuresStep(s0, p, vis, fsFailures, names, name);
    assert Deletions(s0, p, vis, fsFailures, names') == del + {name};
    assert Moves(s0, p, vis, fsFailures, names') == mov;
    assert Failures(s0, p, vis, fsFailures, names') == err;
    ResultDelete(s0, p, del, mov, err, name);
  }

  lemma ScanStepMove(s0: State, p: Partition, vis: map<string, Partition>, fsFailures: set<Path>, names: set<string>, name: string)
    requires name !in names && IsDir(s0.disk, p, name) && TreatmentOf(p, name, vis).Move?
    requires Path(p, name) !in fsFailures
    ensures ScanSet(s0, p, vis, fsFailures, names + {name})
         == State(AddDir(RemoveDir(ScanSet(s0, p, vis, fsFailures, names).disk, p, name), Other(p), name),
                  Incr(ScanSet(s0, p, vis, fsFailures, names).counts, MovedCounter))
  {
    var names' := names + {name};
    var del, mov, err := Deletions(s0, p, vis, fsFailures, names), Moves(s0, p, vis, fsFailures, names), Failures(s0, p, vis, fsFailures, names);
    DeletionsStep(s0, p, vis, fsFailures, names, name);
    MovesStep(s0, p, vis, fsFailures, names, name);
    FailuresStep(s0, p, vis, fsFailures, names, name);
    assert Deletions(s0, p, vis, fsFailures, names') == del;
    assert Moves(s0, p, vis, fsFailures, names') == mov + {name};
    assert Failures(s0, p, vis, fsFailures, names') == err;
    ResultMove(s0, p, del, mov, err, name);
  }

  /** Which directories the scan leaves in `p` and in the other partition. */
  lemma ScanDiskDirs(d: Disk, p: Partition, del: set<string>, mov: set<string>)
    ensures forall n :: IsDir(ScanDisk(d, p, del, mov), p, n) <==> IsDir(d, p, n) && n !in del + mov
    ensures forall n :: IsDir(ScanDisk(d, p, del, mov), Other(p), n) <==> IsDir(d, Other(p), n) || n in mov
    ensures ScanDisk(d, p, del, mov).files == d.files
    ensures Valid(d) ==> Valid(ScanDisk(d, p, del, mov))
  {
    forall n ensures Path(p, n) in PathsIn(p, del + mov) <==> n in del + mov {
      PathsInMember(p, del + mov, n);
    }
    forall n ensures Path(Other(p), n) in PathsIn(Other(p), mov) <==> n in mov {
      PathsInMember(Other(p), mov, n);
    }
  }

  lemma PathsInMember(p: Partition, names: set<string>, n: string)
    ensures Path(p, n) in PathsIn(p, names) <==> n in names
    ensures forall x :: x in PathsIn(p, names) ==> x.partition == p
  {
  }

  /** No deletion, no move, no failure: the state is unchanged. */
  lemma ScanResultEmpty(s0: State, p: Partition)
    ensures ScanResult(s0, p, {}, {}, {}) == s0
  {
    var none: set<string> := {};
    assert PathsIn(p, none + none) == {};
    assert PathsIn(Other(p), none) == {};
  }

  /** One more entry of the snapshot `entries` visited, `todo` being those not yet visited. */
  lemma ScanAdvance(s0: State, p: Partition, vis: map<string, Partition>, fsFailures: set<Path>,
                    entries: set<string>, todo: set<string>, name: string, before: State, after: State)
    requires name in todo && todo <= entries
    requires before == ScanSet(s0, p, vis, fsFailures, entries - todo)
    requires after == ScanEntry(before, p, name, vis, Path(p, name) !in fsFailures)
    ensures after == ScanSet(s0, p, vis, fsFailures, entries - (todo - {name}))
  {
    ScanStep(s0, p, vis, fsFailures, entries - todo, name);
    assert entries - (todo - {name}) == (entries - todo) + {name};
  }

  /** Nothing visited, nothing changed. */
  lemma ScanNothing(s0: State, p: Partition, vis: map<string, Partition>, fsFailures: set<Path>)
    ensures ScanSet(s0, p, vis, fsFailures, {}) == s0
  {
    var none: set<string> := {};
    assert Deletions(s0, p, vis, fsFailures, none) == {};
    assert Moves(s0, p, vis, fsFailures, none) == {};
    assert Failures(s0, p, vis, fsFailures, none) == {};
    ScanResultEmpty(s0, p);
  }

  /** The scan of partition `p`: skipped when its folder is missing, else every entry in it. */
  function ScanPartition(s: State, p: Partition, vis: map<string, Partition>, fsFailures: set<Path>): State
  {
    if p !in s.disk.folders then s else ScanSet(s, p, vis, fsFailures, EntriesOf(s.disk, p))
  }

  /** The fixed order of the pass-2 scan. */
  const PartitionOrder: seq<Partition> := [Public, Private]

  /** The state after the partitions `ps` have been scanned in order. */
  function ScanPartitions(s: State, ps: seq<Partition>, vis: map<string, Partition>, fsFailures: set<Path>): State
  {
    if ps == [] then s
    else ScanPartition(ScanPartitions(s, ps[..|ps| - 1], vis, fsFailures), ps[|ps| - 1], vis, fsFailures)
  }

  /** One more partition scanned. */
  lemma ScanPartitionsAdvance(s1: State, ps: seq<Partition>, vis: map<string, Partition>, fsFailures: set<Path>,
                              k: nat, before: State, after: State)
    requires k < |ps|
    requires before == ScanPartitions(s1, ps[..k], vis, fsFailures)
    requires after == ScanPartition(before, ps[k], vis, fsFailures)
    ensures after == ScanPartitions(s1, ps[..k + 1], vis, fsFailures)
  {
    assert ps[..k + 1][..k] == ps[..k];
  }

  /** Pass 2: `public`, then `private`. */
  function Pass2(s: State, vis: map<string, Partition>, fsFailures: set<Path>): State
  {
    ScanPartitions(s, PartitionOrder, vis, fsFailures)
  }

  /** Pass 2 is the scan of `public` followed by the scan of `private`. */
  lemma Pass2Unfold(s: State, vis: map<string, Partition>, fsFailures: set<Path>)
    ensures Pass2(s, vis, fsFailures) == ScanPartition(ScanPartition(s, Public, vis, fsFailures), Private, vis, fsFailures)
  {
    var one := ScanPartitions(s, [Public], vis, fsFailures);
    var none: seq<Partition> := [];
    assert [Public][..0] == none;
    assert ScanPartitions(s, none, vis, fsFailures) == s;
    assert one == ScanPartition(s, Public, vis, fsFailures);
    assert PartitionOrder[..1] == [Public];
    assert Pass2(s, vis, fsFailures) == ScanPartition(one, Private, vis, fsFailures);
  }

  /** A whole run once the listing `remote` has been fetched. */
  function Sync(s: State, remote: seq<Repo>, gitFailures: set<nat>, fsFailures: set<Path>): State
  {
    Pass2(Pass1(s, remote, gitFailures), VisibilityMap(remote), fsFailures)
  }
}
