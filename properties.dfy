/**
 * What one synchronisation run achieves: the counters it keeps, where pass 1
 * puts the repositories, what pass 2 leaves in each partition, and that a
 * converged storage root is a fixed point.
 */
module Properties {
  import opened Stats
  import opened Layout
  import opened Remote
  import opened Reconcile

  // ---------------------------------------------------------------------------
  // Pass 1

  /** How many of the indices `0 .. n-1` are in `gitFailures`. */
  function CountBelow(gitFailures: set<nat>, n: nat): nat
  {
    if n == 0 then 0 else CountBelow(gitFailures, n - 1) + (if n - 1 in gitFailures then 1 else 0)
  }

  /**
   * Every repository of the listing is counted exactly once, as cloned,
   * updated or an error; the errors are exactly the failed git steps; pass 1
   * neither moves nor deletes.
   */
  lemma {:induction false} Pass1Tally(s: State, remote: seq<Repo>, gitFailures: set<nat>)
    ensures var c := Pass1(s, remote, gitFailures).counts;
            && c.cloned + c.updated + c.errors == s.counts.cloned + s.counts.updated + s.counts.errors + |remote|
            && c.errors == s.counts.errors + CountBelow(gitFailures, |remote|)
            && c.moved == s.counts.moved && c.deleted == s.counts.deleted
  {
    if remote != [] {
      var n := |remote| - 1;
      Pass1Tally(s, remote[..n], gitFailures);
    }
  }

  /** The targets pass 1 creates: those of the repositories whose git step succeeds and whose path is no plain file. */
  function Placed(d: Disk, remote: seq<Repo>, gitFailures: set<nat>): set<Path>
  {
    set i | 0 <= i < |remote| && i !in gitFailures && Target(remote[i]) !in d.files :: Target(remote[i])
  }

  /**
   * After pass 1 the repository directories are the old ones plus the target
   * of every repository whose git step succeeded (a failure does not stop
   * the others), except where a plain file occupies the target; plain files
   * are untouched.
   */
  lemma {:induction false} Pass1Dirs(s: State, remote: seq<Repo>, gitFailures: set<nat>)
    ensures Pass1(s, remote, gitFailures).disk.dirs == s.disk.dirs + Placed(s.disk, remote, gitFailures)
    ensures Pass1(s, remote, gitFailures).disk.files == s.disk.files
    ensures Valid(s.disk) ==> Valid(Pass1(s, remote, gitFailures).disk)
  {
    if remote != [] {
      var n := |remote| - 1;
      Pass1Dirs(s, remote[..n], gitFailures);
      var prev := Pass1(s, remote[..n], gitFailures);
      var t := Target(remote[n]);
      assert Placed(s.disk, remote, gitFailures)
          == Placed(s.disk, remote[..n], gitFailures)
           + (if n !in gitFailures && t !in s.disk.files then {t} else {}) by {
        forall i | 0 <= i < n ensures remote[..n][i] == remote[i] {
        }
      }
      if n !in gitFailures && t !in s.disk.files && t in prev.disk.dirs {
        assert prev.disk.dirs + {t} == prev.disk.dirs;
      }
    }
  }

  // ---------------------------------------------------------------------------
  // Pass 2

  /**
   * The scan of partition `p` keeps exactly the directories the remote puts in
   * `p` and those whose delete or move failed; it adds to the other partition
   * exactly the directories it moved there; plain files are untouched.
   */
  lemma ScanPartitionDirs(s: State, p: Partition, vis: map<string, Partition>, fsFailures: set<Path>)
    requires Valid(s.disk)
    ensures var r := ScanPartition(s, p, vis, fsFailures).disk;
            && (forall n :: IsDir(r, p, n) <==>
                  IsDir(s.disk, p, n) && (TreatmentOf(p, n, vis) == Keep || Path(p, n) in fsFailures))
            && (forall n :: IsDir(r, Other(p), n) <==>
                  IsDir(s.disk, Other(p), n)
                  || (IsDir(s.disk, p, n) && TreatmentOf(p, n, vis).Move? && Path(p, n) !in fsFailures))
            && r.files == s.disk.files && Valid(r)
  {
    if p in s.disk.folders {
      var names := EntriesOf(s.disk, p);
      var del, mov := Deletions(s, p, vis, fsFailures, names), Moves(s, p, vis, fsFailures, names);
      assert ScanPartition(s, p, vis, fsFailures).disk == ScanDisk(s.disk, p, del, mov);
      ScanDiskDirs(s.disk, p, del, mov);
      forall n
        ensures n in del + mov <==> IsDir(s.disk, p, n) && TreatmentOf(p, n, vis) != Keep && Path(p, n) !in fsFailures
        ensures n in mov <==> IsDir(s.disk, p, n) && TreatmentOf(p, n, vis).Move? && Path(p, n) !in fsFailures
      {
        ActedOn(s, p, vis, fsFailures, n);
      }
    }
  }

  /** An entry of the scanned partition is deleted or moved exactly when it is a directory to act on and the action succeeds. */
  lemma ActedOn(s: State, p: Partition, vis: map<string, Partition>, fsFailures: set<Path>, n: string)
    ensures var names := EntriesOf(s.disk, p);
            && (n in Deletions(s, p, vis, fsFailures, names) <==>
                  IsDir(s.disk, p, n) && TreatmentOf(p, n, vis) == Delete && Path(p, n) !in fsFailures)
            && (n in Moves(s, p, vis, fsFailures, names) <==>
                  IsDir(s.disk, p, n) && TreatmentOf(p, n, vis).Move? && Path(p, n) !in fsFailures)
  {
  }

  /**
   * After pass 2 a directory sits in a partition only where the remote puts it,
   * or where its delete or move failed; when no filesystem operation fails, the
   * directories in each partition are exactly the remote names assigned to it
   * that had a directory somewhere before the pass.
   */
  lemma Pass2Dirs(s: State, vis: map<string, Partition>, fsFailures: set<Path>)
    requires Valid(s.disk)
    ensures forall p, n :: IsDir(Pass2(s, vis, fsFailures).disk, p, n) ==>
              (n in vis && vis[n] == p) || Path(p, n) in fsFailures
    ensures fsFailures == {} ==>
              forall p, n :: IsDir(Pass2(s, vis, fsFailures).disk, p, n) <==>
                n in vis && vis[n] == p && (IsDir(s.disk, Public, n) || IsDir(s.disk, Private, n))
    ensures Pass2(s, vis, fsFailures).disk.files == s.disk.files
    ensures Valid(Pass2(s, vis, fsFailures).disk)
  {
    Pass2Unfold(s, vis, fsFailures);
    var s1 := ScanPartition(s, Public, vis, fsFailures);
    ScanPartitionDirs(s, Public, vis, fsFailures);
    ScanPartitionDirs(s1, Private, vis, fsFailures);
    var d2 := Pass2(s, vis, fsFailures).disk;
    forall p, n | IsDir(d2, p, n) ensures (n in vis && vis[n] == p) || Path(p, n) in fsFailures {
      if p == Public && !IsDir(s1.disk, Public, n) {
        assert IsDir(s1.disk, Private, n) && TreatmentOf(Private, n, vis).Move?;
      }
    }
  }

  // ---------------------------------------------------------------------------
  // A whole run

  /** Every git step succeeds and no plain file occupies a repository's target. */
  predicate Unobstructed(s: State, remote: seq<Repo>, gitFailures: set<nat>)
  {
    forall i :: 0 <= i < |remote| ==> i !in gitFailures && Target(remote[i]) !in s.disk.files
  }

  /**
   * The purpose of `sync_all_repos`: when nothing fails, afterwards each
   * partition holds exactly the repositories the remote assigns to it, and
   * plain files are untouched.
   */
  lemma SyncConverges(s: State, remote: seq<Repo>, gitFailures: set<nat>)
    requires Valid(s.disk) && Unobstructed(s, remote, gitFailures)
    ensures forall p, n :: IsDir(Sync(s, remote, gitFailures, {}).disk, p, n) <==>
              n in VisibilityMap(remote) && VisibilityMap(remote)[n] == p
    ensures Sync(s, remote, gitFailures, {}).disk.files == s.disk.files
    ensures Valid(Sync(s, remote, gitFailures, {}).disk)
  {
    var vis := VisibilityMap(remote);
    var s1 := Pass1(s, remote, gitFailures);
    Pass1Dirs(s, remote, gitFailures);
    Pass2Dirs(s1, vis, {});
    forall n | n in vis ensures IsDir(s1.disk, Public, n) || IsDir(s1.disk, Private, n) {
      RemoteNameSource(remote, n);
      var i :| 0 <= i < |remote| && remote[i].name == n;
      assert Target(remote[i]) in Placed(s.disk, remote, gitFailures);
    }
  }

  /** Each partition holds exactly the repositories the remote assigns to it. */
  ghost predicate Converged(d: Disk, remote: seq<Repo>)
  {
    forall p, n :: IsDir(d, p, n) <==> n in VisibilityMap(remote) && VisibilityMap(remote)[n] == p
  }

  /** When every target is already a directory and every git step succeeds, pass 1 only updates. */
  lemma {:induction false} Pass1AllUpdates(s: State, remote: seq<Repo>, gitFailures: set<nat>)
    requires forall i :: 0 <= i < |remote| ==> i !in gitFailures && Target(remote[i]) in s.disk.dirs
    ensures Pass1(s, remote, gitFailures) == State(s.disk, s.counts.(updated := s.counts.updated + |remote|))
  {
    if remote != [] {
      var n := |remote| - 1;
      assert forall i :: 0 <= i < n ==> remote[..n][i] == remote[i];
      Pass1AllUpdates(s, remote[..n], gitFailures);
    }
  }

  /** A partition with no directory to delete or move is left as it is. */
  lemma ScanPartitionIdle(s: State, p: Partition, vis: map<string, Partition>, fsFailures: set<Path>)
    requires forall n :: IsDir(s.disk, p, n) ==> TreatmentOf(p, n, vis) == Keep
    ensures ScanPartition(s, p, vis, fsFailures) == s
  {
    if p in s.disk.folders {
      var names := EntriesOf(s.disk, p);
      assert Deletions(s, p, vis, fsFailures, names) == {};
      assert Moves(s, p, vis, fsFailures, names) == {};
      assert Failures(s, p, vis, fsFailures, names) == {};
      ScanResultEmpty(s, p);
    }
  }

  /**
   * On a converged storage root with unique remote names, a run in which
   * every git step succeeds changes no directory, whatever the filesystem
   * does, and counts every repository as updated.
   */
  lemma SyncIdempotent(s: State, remote: seq<Repo>, gitFailures: set<nat>, fsFailures: set<Path>)
    requires DistinctNames(remote) && Converged(s.disk, remote)
    requires forall i :: 0 <= i < |remote| ==> i !in gitFailures
    ensures Sync(s, remote, gitFailures, fsFailures) == State(s.disk, s.counts.(updated := s.counts.updated + |remote|))
  {
    var vis := VisibilityMap(remote);
    forall i | 0 <= i < |remote| ensures Target(remote[i]) in s.disk.dirs {
      VisibilityMapOfDistinct(remote, i);
      assert IsDir(s.disk, VisibilityFolder(remote[i]), remote[i].name);
    }
    Pass1AllUpdates(s, remote, gitFailures);
    Pass2Idle(Pass1(s, remote, gitFailures), vis, fsFailures);
  }

  /** Pass 2 over a storage root where every directory is where the remote puts it changes nothing. */
  lemma Pass2Idle(s: State, vis: map<string, Partition>, fsFailures: set<Path>)
    requires forall p, n :: IsDir(s.disk, p, n) ==> TreatmentOf(p, n, vis) == Keep
    ensures Pass2(s, vis, fsFailures) == s
  {
    Pass2Unfold(s, vis, fsFailures);
    ScanPartitionIdle(s, Public, vis, fsFailures);
    ScanPartitionIdle(s, Private, vis, fsFailures);
  }

  /** Running the sync twice without failures: the second run changes no directory. */
  lemma SyncTwice(s: State, remote: seq<Repo>, gitFailures: set<nat>)
    requires Valid(s.disk) && DistinctNames(remote) && Unobstructed(s, remote, gitFailures)
    ensures var s' := Sync(s, remote, gitFailures, {});
            Sync(s', remote, gitFailures, {}) == State(s'.disk, s'.counts.(updated := s'.counts.updated + |remote|))
  {
    SyncConverges(s, remote, gitFailures);
    SyncIdempotent(Sync(s, remote, gitFailures, {}), remote, gitFailures, {});
  }

  // ---------------------------------------------------------------------------
  // Counters

  /** Pass 1 never lowers a counter. */
  lemma {:induction false} Pass1NeverDecreases(s: State, remote: seq<Repo>, gitFailures: set<nat>)
    ensures AtLeast(Pass1(s, remote, gitFailures).counts, s.counts)
  {
    if remote != [] {
      Pass1NeverDecreases(s, remote[..|remote| - 1], gitFailures);
    }
  }

  lemma TallyNeverDecreases(c: Counts, d: nat, mv: nat, e: nat)
    ensures AtLeast(Tally(c, d, mv, e), c)
  {
    forall k ensures Get(c, k) <= Get(Tally(c, d, mv, e), k) {
    }
  }

  /** The scan of a partition never lowers a counter. */
  lemma ScanPartitionNeverDecreases(s: State, p: Partition, vis: map<string, Partition>, fsFailures: set<Path>)
    ensures AtLeast(ScanPartition(s, p, vis, fsFailures).counts, s.counts)
  {
    if p in s.disk.folders {
      var names := EntriesOf(s.disk, p);
      var del, mov, err := Deletions(s, p, vis, fsFailures, names), Moves(s, p, vis, fsFailures, names), Failures(s, p, vis, fsFailures, names);
      assert ScanPartition(s, p, vis, fsFailures).counts == Tally(s.counts, |del|, |mov|, |err|);
      TallyNeverDecreases(s.counts, |del|, |mov|, |err|);
    }
  }

  /** The counters of a whole run never go down. */
  lemma SyncCountsNeverDecrease(s: State, remote: seq<Repo>, gitFailures: set<nat>, fsFailures: set<Path>)
    ensures AtLeast(Sync(s, remote, gitFailures, fsFailures).counts, s.counts)
  {
    var vis := VisibilityMap(remote);
    var s1 := Pass1(s, remote, gitFailures);
    Pass1NeverDecreases(s, remote, gitFailures);
    Pass2Unfold(s1, vis, fsFailures);
    var s2 := ScanPartition(s1, Public, vis, fsFailures);
    ScanPartitionNeverDecreases(s1, Public, vis, fsFailures);
    ScanPartitionNeverDecreases(s2, Private, vis, fsFailures);
  }

  // ---------------------------------------------------------------------------
  // Scenarios

  /**
   * A repository turned private while its copy sits in `public`: pass 1 finds
   * no `private/tool` and clones it there, then pass 2 moves the old copy to
   * `private`, so one run counts both a clone and a move.
   */
  lemma VisibilityChangeClonesThenMoves()
    ensures var s := State(Disk({Public}, {Path(Public, "tool")}, {}), Zero);
            var remote := [Repo("tool", "https://github.com/octocat/tool.git", true)];
            Sync(s, remote, {}, {}) == State(Disk({Public, Private}, {Path(Private, "tool")}, {}), Counts(1, 0, 1, 0, 0))
  {
    var remote := [Repo("tool", "https://github.com/octocat/tool.git", true)];
    var noFs: set<Path> := {};
    var vis := VisibilityMap(remote);
    var s1 := ScenarioAfterPass1();
    assert vis == map["tool" := Private] by {
      assert remote[..0] == [];
    }
    Pass2Unfold(s1, vis, noFs);
    ScenarioPublicScan(s1, vis);
    var s2 := ScanPartition(s1, Public, vis, noFs);
    ScanPartitionIdle(s2, Private, vis, noFs);
  }

  /** Pass 1 of the scenario: the clone into `private`. */
  lemma ScenarioAfterPass1() returns (s1: State)
    ensures s1 == Pass1(State(Disk({Public}, {Path(Public, "tool")}, {}), Zero),
                        [Repo("tool", "https://github.com/octocat/tool.git", true)], {})
    ensures s1 == State(Disk({Public, Private}, {Path(Public, "tool"), Path(Private, "tool")}, {}), Counts(1, 0, 0, 0, 0))
  {
    var remote := [Repo("tool", "https://github.com/octocat/tool.git", true)];
    var s := State(Disk({Public}, {Path(Public, "tool")}, {}), Zero);
    var none: set<nat> := {};
    assert remote[..0] == [];
    s1 := Pass1(s, remote, none);
    assert s1 == CloneOrUpdate(s, remote[0], true);
  }

  /** The scan of `public` in the scenario: the old copy moves to `private`. */
  lemma ScenarioPublicScan(s1: State, vis: map<string, Partition>)
    requires s1 == State(Disk({Public, Private}, {Path(Public, "tool"), Path(Private, "tool")}, {}), Counts(1, 0, 0, 0, 0))
    requires vis == map["tool" := Private]
    ensures ScanPartition(s1, Public, vis, {}) == State(Disk({Public, Private}, {Path(Private, "tool")}, {}), Counts(1, 0, 1, 0, 0))
  {
    ScenarioSingleEntry(s1, vis);
    ScenarioMoveDisk();
  }

  /**
   * Moving `public/tool` onto the fresh clone `private/tool`: at partition
   * depth, `private/tool` is the only directory left.
   */
  lemma ScenarioMoveDisk()
    ensures AddDir(RemoveDir(Disk({Public, Private}, {Path(Public, "tool"), Path(Private, "tool")}, {}), Public, "tool"), Private, "tool")
         == Disk({Public, Private}, {Path(Private, "tool")}, {})
  {
    var d := RemoveDir(Disk({Public, Private}, {Path(Public, "tool"), Path(Private, "tool")}, {}), Public, "tool");
    assert d.dirs == {Path(Private, "tool")};
    assert AddDir(d, Private, "tool").dirs == d.dirs;
  }

  /** The scan of `public` in the scenario visits its single entry. */
  lemma ScenarioSingleEntry(s1: State, vis: map<string, Partition>)
    requires s1.disk == Disk({Public, Private}, {Path(Public, "tool"), Path(Private, "tool")}, {})
    ensures ScanPartition(s1, Public, vis, {}) == ScanEntry(s1, Public, "tool", vis, true)
  {
    var noFs: set<Path> := {};
    var none: set<string> := {};
    assert EntriesOf(s1.disk, Public) == none + {"tool"};
    ScanNothing(s1, Public, vis, noFs);
    ScanStep(s1, Public, vis, noFs, none, "tool");
  }

  /** Three new public repositories. */
  function ThreeNew(): seq<Repo>
  {
    [Repo("a", "https://github.com/octocat/a.git", false),
     Repo("b", "https://github.com/octocat/b.git", false),
     Repo("c", "https://github.com/octocat/c.git", false)]
  }

  /**
   * The second of three new public repositories fails to clone: the error is
   * counted and the driver loop goes on, so the other two are cloned.
   */
  lemma FailureDoesNotStopTheRun()
    ensures Sync(State(Disk({}, {}, {}), Zero), ThreeNew(), {1}, {})
         == State(Disk({Public}, {Path(Public, "a"), Path(Public, "c")}, {}), Counts(2, 0, 0, 0, 1))
  {
    var remote := ThreeNew();
    var noFs: set<Path> := {};
    var s3 := ThreeNewPass1();
    var vis := VisibilityMap(remote);
    ThreeNewVisibility();
    assert forall p, n :: IsDir(s3.disk, p, n) ==> TreatmentOf(p, n, vis) == Keep;
    Pass2Idle(s3, vis, noFs);
  }

  lemma ThreeNewVisibility()
    ensures "a" in VisibilityMap(ThreeNew()) && VisibilityMap(ThreeNew())["a"] == Public
    ensures "c" in VisibilityMap(ThreeNew()) && VisibilityMap(ThreeNew())["c"] == Public
  {
    var remote := ThreeNew();
    assert DistinctNames(remote);
    VisibilityMapOfDistinct(remote, 0);
    VisibilityMapOfDistinct(remote, 2);
  }

  /** Pass 1 of the scenario: clone, fail, clone. */
  lemma ThreeNewPass1() returns (s3: State)
    ensures s3 == Pass1(State(Disk({}, {}, {}), Zero), ThreeNew(), {1})
    ensures s3 == State(Disk({Public}, {Path(Public, "a"), Path(Public, "c")}, {}), Counts(2, 0, 0, 0, 1))
  {
    var remote := ThreeNew();
    var s := State(Disk({}, {}, {}), Zero);
    var gitFailures: set<nat> := {1};
    var empty: seq<Repo> := [];
    assert remote[..1][..0] == empty;
    assert remote[..2][..1] == remote[..1];
    assert remote[..3] == remote;
    var s1 := Pass1(s, remote[..1], gitFailures);
    assert s1 == CloneOrUpdate(Pass1(s, empty, gitFailures), remote[0], true);
    assert s1 == State(Disk({Public}, {Path(Public, "a")}, {}), Counts(1, 0, 0, 0, 0));
    var s2 := Pass1(s, remote[..2], gitFailures);
    assert s2 == CloneOrUpdate(s1, remote[1], false);
    assert s2 == State(s1.disk, Counts(1, 0, 0, 0, 1));
    s3 := Pass1(s, remote, gitFailures);
    assert s3 == CloneOrUpdate(s2, remote[2], true);
  }
}
