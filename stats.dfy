/** The run statistics kept by `Logger`: a dictionary from counter name to count. */
module Stats {

  const Cloned := "cloned"
  const Updated := "updated"
  const Moved := "moved"
  const Deleted := "deleted"
  const Errors := "errors"

  /** The five counters the logger starts with. */
  const StatKeys: set<string> := {Cloned, Updated, Moved, Deleted, Errors}

  type StatsMap = map<string, int>

  /** The dictionary is well formed: exactly the five known counters, none negative. */
  predicate WellFormed(m: StatsMap)
  {
    m.Keys == StatKeys && forall k :: k in m ==> m[k] >= 0
  }

  /** The statistics of a fresh logger. */
  function InitialStats(): (m: StatsMap)
    ensures WellFormed(m)
    ensures forall k :: k in m ==> m[k] == 0
  {
    map[Cloned := 0, Updated := 0, Moved := 0, Deleted := 0, Errors := 0]
  }

  /** The dictionary after one `increment_stat(stat)`. */
  function Bumped(m: StatsMap, stat: string): (r: StatsMap)
    ensures r.Keys == m.Keys
    ensures stat in m ==> r[stat] == m[stat] + 1
    ensures forall k :: k in m && k != stat ==> r[k] == m[k]
    ensures stat !in m ==> r == m
  {
    if stat in m then m[stat := m[stat] + 1] else m
  }

  /** The five counters as a record, the view the rest of the model reasons with. */
  datatype Counts = Counts(cloned: nat, updated: nat, moved: nat, deleted: nat, errors: nat)

  datatype Counter = ClonedCounter | UpdatedCounter | MovedCounter | DeletedCounter | ErrorsCounter

  /** The dictionary key of each counter. */
  function Key(k: Counter): (s: string)
    ensures s in StatKeys
  {
    match k
    case ClonedCounter => Cloned
    case UpdatedCounter => Updated
    case MovedCounter => Moved
    case DeletedCounter => Deleted
    case ErrorsCounter => Errors
  }

  function Get(c: Counts, k: Counter): nat
  {
    match k
    case ClonedCounter => c.cloned
    case UpdatedCounter => c.updated
    case MovedCounter => c.moved
    case DeletedCounter => c.deleted
    case ErrorsCounter => c.errors
  }

  /** One more on counter `k`. */
  function Incr(c: Counts, k: Counter): (r: Counts)
    ensures Get(r, k) == Get(c, k) + 1
    ensures forall j :: j != k ==> Get(r, j) == Get(c, j)
  {
    match k
    case ClonedCounter => c.(cloned := c.cloned + 1)
    case UpdatedCounter => c.(updated := c.updated + 1)
    case MovedCounter => c.(moved := c.moved + 1)
    case DeletedCounter => c.(deleted := c.deleted + 1)
    case ErrorsCounter => c.(errors := c.errors + 1)
  }

  const Zero := Counts(0, 0, 0, 0, 0)

  /** No counter of `after` is below that of `before`. */
  predicate AtLeast(after: Counts, before: Counts)
  {
    forall k :: Get(before, k) <= Get(after, k)
  }

  /** The dictionary holding counts `c`. */
  function AsMap(c: Counts): (m: StatsMap)
    ensures WellFormed(m)
    ensures forall k :: m[Key(k)] == Get(c, k)
  {
    map[Cloned := c.cloned, Updated := c.updated, Moved := c.moved, Deleted := c.deleted, Errors := c.errors]
  }

  /** A fresh logger holds zero on every counter. */
  lemma InitialIsZero()
    ensures InitialStats() == AsMap(Zero)
  {
  }

  /** `increment_stat(Key(k))` on the dictionary is `Incr(_, k)` on the counts. */
  lemma IncrementMatches(c: Counts, k: Counter)
    ensures Bumped(AsMap(c), Key(k)) == AsMap(Incr(c, k))
  {
  }

  /** No counter is lost and none went down from `before` to `after`. */
  predicate NoneDecreased(before: StatsMap, after: StatsMap)
  {
    after.Keys == before.Keys && forall k :: k in before ==> before[k] <= after[k]
  }

  /** An increment keeps the dictionary well formed and never lowers a counter. */
  lemma BumpedKeepsInvariant(m: StatsMap, stat: string)
    requires WellFormed(m)
    ensures WellFormed(Bumped(m, stat)) && NoneDecreased(m, Bumped(m, stat))
  {
  }

  /** Counters never decrease along any sequence of increments. */
  lemma {:induction false} IncrementsNeverDecrease(m: StatsMap, stats: seq<string>)
    ensures NoneDecreased(m, BumpAll(m, stats))
  {
    if stats != [] {
      IncrementsNeverDecrease(m, stats[..|stats| - 1]);
    }
  }

  /** The dictionary after `increment_stat` was called with each of `stats` in turn. */
  function BumpAll(m: StatsMap, stats: seq<string>): StatsMap
  {
    if stats == [] then m else Bumped(BumpAll(m, stats[..|stats| - 1]), stats[|stats| - 1])
  }

  /** Each counter counts exactly its own increments; unknown names change nothing. */
  lemma {:induction false} BumpAllCounts(m: StatsMap, stats: seq<string>, k: string)
    requires k in m
    ensures k in BumpAll(m, stats)
    ensures BumpAll(m, stats)[k] == m[k] + Occurrences(stats, k)
  {
    if stats != [] {
      BumpAllCounts(m, stats[..|stats| - 1], k);
    }
  }

  function Occurrences(s: seq<string>, k: string): nat
  {
    if s == [] then 0 else Occurrences(s[..|s| - 1], k) + (if s[|s| - 1] == k then 1 else 0)
  }

  /** The counter a dictionary key names. */
  lemma KeyNames(stat: string) returns (k: Counter)
    requires stat in StatKeys
    ensures Key(k) == stat
  {
    if stat == Cloned { k := ClonedCounter; }
    else if stat == Updated { k := UpdatedCounter; }
    else if stat == Moved { k := MovedCounter; }
    else if stat == Deleted { k := DeletedCounter; }
    else { k := ErrorsCounter; }
  }

  /** Different counters have different keys. */
  lemma KeyInjective(j: Counter, k: Counter)
    requires Key(j) == Key(k)
    ensures j == k
  {
  }

  /**
   * `Logger`, reduced to its statistics dictionary; `counts` is the same five
   * numbers as a record, kept alongside for the proofs.
   */
  class Logger {
    var stats: StatsMap
    ghost var counts: Counts

    /** The dictionary holds exactly the record's numbers. */
    ghost predicate Valid()
      reads this
    {
      stats == AsMap(counts)
    }

    constructor ()
      ensures Valid() && stats == InitialStats() && counts == Zero
    {
      stats := InitialStats();
      counts := Zero;
      InitialIsZero();
    }

    /** `increment_stat`: bump a known counter by one; ignore an unknown name. */
    method IncrementStat(stat: string)
      requires Valid()
      modifies this
      ensures stats == Bumped(old(stats), stat)
      ensures Valid()
      ensures forall k :: Key(k) == stat ==> counts == Incr(old(counts), k)
      ensures stat !in StatKeys ==> counts == old(counts)
    {
      if stat in stats {
        stats := stats[stat := stats[stat] + 1];
        ghost var k := KeyNames(stat);
        IncrementMatches(counts, k);
        counts := Incr(counts, k);
        forall j | Key(j) == stat ensures j == k {
          KeyInjective(j, k);
        }
      }
    }
  }
}
