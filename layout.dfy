/**
 * The local storage root: two partition folders, `public` and `private`, each
 * holding one directory per repository, plus whatever plain files happen to lie there.
 */
module Layout {

  datatype Partition = Public | Private

  function Other(p: Partition): (q: Partition)
    ensures q != p
  {
    if p == Public then Private else Public
  }

  /** `<base>/<partition>/<name>`. */
  datatype Path = Path(partition: Partition, name: string)

  /**
   * The storage root as the sync sees it: which partition folders exist, which
   * paths are directories and which are other (non-directory) entries.
   */
  datatype Disk = Disk(folders: set<Partition>, dirs: set<Path>, files: set<Path>)

  /** Every entry lies inside an existing partition folder. */
  predicate Valid(d: Disk)
  {
    forall x :: x in d.dirs + d.files ==> x.partition in d.folders
  }

  /** `(<base>/<p>/<name>).exists()`. */
  predicate Exists(d: Disk, p: Partition, name: string)
  {
    Path(p, name) in d.dirs || Path(p, name) in d.files
  }

  /** `(<base>/<p>/<name>).is_dir()`. */
  predicate IsDir(d: Disk, p: Partition, name: string)
  {
    Path(p, name) in d.dirs
  }

  /** The names `iterdir()` lists in partition `p`: directories and other entries. */
  function EntriesOf(d: Disk, p: Partition): (names: set<string>)
    ensures forall n :: n in names <==> Exists(d, p, n)
  {
    set x | x in d.dirs + d.files && x.partition == p :: x.name
  }

  /** The disk after a directory `<p>/<name>` came into being (a clone, or the target of a move). */
  function AddDir(d: Disk, p: Partition, name: string): (r: Disk)
    ensures IsDir(r, p, name) && p in r.folders
    ensures forall q, n :: Path(q, n) != Path(p, name) ==> (IsDir(r, q, n) <==> IsDir(d, q, n))
    ensures r.files == d.files && r.folders == d.folders + {p}
    ensures Valid(d) ==> Valid(r)
  {
    Disk(d.folders + {p}, d.dirs + {Path(p, name)}, d.files)
  }

  /** The disk after the directory `<p>/<name>` went away (a delete, or the source of a move). */
  function RemoveDir(d: Disk, p: Partition, name: string): (r: Disk)
    ensures !IsDir(r, p, name)
    ensures forall q, n :: Path(q, n) != Path(p, name) ==> (IsDir(r, q, n) <==> IsDir(d, q, n))
    ensures r.files == d.files && r.folders == d.folders
    ensures Valid(d) ==> Valid(r)
  {
    Disk(d.folders, d.dirs - {Path(p, name)}, d.files)
  }
}
