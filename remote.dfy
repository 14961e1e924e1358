/**
 * The remote side: repository descriptors, the visibility rule, and the paged
 * listing of `GET /user/repos`.
 */
module Remote {
  import opened Layout

  datatype Option<T> = None | Some(value: T)

  datatype Result<T, E> = Ok(value: T) | Err(error: E)

  /** The fields of a repository descriptor the sync reads: `name`, `clone_url`, `private`. */
  datatype Repo = Repo(name: string, cloneUrl: string, isPrivate: bool)

  /** The partition a repository belongs in. */
  function VisibilityFolder(repo: Repo): (p: Partition)
    ensures p == Private <==> repo.isPrivate
    ensures p == Public <==> !repo.isPrivate
  {
    if repo.isPrivate then Private else Public
  }

  /** The path `<partition>/<name>` where the repository is kept. */
  function Target(repo: Repo): (t: Path)
    ensures t.partition == VisibilityFolder(repo) && t.name == repo.name
  {
    Path(VisibilityFolder(repo), repo.name)
  }

  /** `remote_repo_names`: the set of remote names. */
  function RemoteNames(remote: seq<Repo>): (names: set<string>)
    ensures forall i :: 0 <= i < |remote| ==> remote[i].name in names
  {
    set r | r in remote :: r.name
  }

  /** Every name in the set comes from some repository of the listing. */
  lemma RemoteNameSource(remote: seq<Repo>, n: string)
    requires n in RemoteNames(remote)
    ensures exists i :: 0 <= i < |remote| && remote[i].name == n
  {
    var r :| r in remote && r.name == n;
    var i :| 0 <= i < |remote| && remote[i] == r;
  }

  /** No later repository in `remote` carries the name of `remote[i]`. */
  predicate IsLastWithName(remote: seq<Repo>, i: int)
    requires 0 <= i < |remote|
  {
    forall j :: i < j < |remote| ==> remote[j].name != remote[i].name
  }

  /**
   * `remote_repo_visibility`: name to partition; when a name repeats, the
   * dictionary comprehension keeps the last repository's visibility.
   */
  function VisibilityMap(remote: seq<Repo>): (vis: map<string, Partition>)
    ensures vis.Keys == RemoteNames(remote)
  {
    if remote == [] then map[]
    else
      var n := |remote| - 1;
      assert RemoteNames(remote) == RemoteNames(remote[..n]) + {remote[n].name} by {
        assert remote == remote[..n] + [remote[n]];
      }
      VisibilityMap(remote[..n])[remote[n].name := VisibilityFolder(remote[n])]
  }

  /** The visibility recorded for a name is that of the last repository carrying it. */
  lemma {:induction false} VisibilityMapLast(remote: seq<Repo>, i: int)
    requires 0 <= i < |remote| && IsLastWithName(remote, i)
    ensures VisibilityMap(remote)[remote[i].name] == VisibilityFolder(remote[i])
  {
    var n := |remote| - 1;
    var prefix := remote[..n];
    var vis := VisibilityMap(prefix);
    assert VisibilityMap(remote) == vis[remote[n].name := VisibilityFolder(remote[n])];
    if i < n {
      assert prefix[i] == remote[i] && remote[n].name != remote[i].name;
      assert IsLastWithName(prefix, i) by {
        forall j | i < j < n ensures prefix[j].name != prefix[i].name {
          assert prefix[j] == remote[j];
        }
      }
      VisibilityMapLast(prefix, i);
    }
  }

  /** Names are unique across the listing. */
  predicate DistinctNames(remote: seq<Repo>)
  {
    forall i, j :: 0 <= i < j < |remote| ==> remote[i].name != remote[j].name
  }

  /** With unique names the visibility map gives every repository its own partition. */
  lemma VisibilityMapOfDistinct(remote: seq<Repo>, i: int)
    requires DistinctNames(remote) && 0 <= i < |remote|
    ensures VisibilityMap(remote)[remote[i].name] == VisibilityFolder(remote[i])
  {
    VisibilityMapLast(remote, i);
  }

  // ---------------------------------------------------------------------------
  // Paged listing

  /**
   * What one page request produced: an HTTP response (its status and, when it
   * decodes, the array of descriptors), or an exception from the request itself.
   */
  datatype Response = Http(status: int, body: seq<Repo>) | ConnectionFailure

  /** `raise_for_status()` raises for client and server errors. */
  predicate RaisesForStatus(status: int)
  {
    400 <= status < 600
  }

  /** The request for this page raised a `RequestException`. */
  predicate Failed(r: Response)
  {
    r.ConnectionFailure? || RaisesForStatus(r.status)
  }

  /** The descriptors on a page that did not fail. */
  function Body(r: Response): seq<Repo>
  {
    if r.Http? then r.body else []
  }

  /** The page ends the `while True` loop: it failed or it was empty. */
  predicate EndsListing(r: Response)
  {
    Failed(r) || Body(r) == []
  }

  /** The two `RuntimeError`s `get_repos` raises. */
  datatype FetchError = AuthenticationFailed | FetchFailed

  /** The error reported for a failed page: an authentication failure exactly on status 401. */
  function ErrorKind(r: Response): (e: FetchError)
    requires Failed(r)
    ensures e == AuthenticationFailed <==> r.Http? && r.status == 401
  {
    if r.Http? && r.status == 401 then AuthenticationFailed else FetchFailed
  }

  /**
   * The handler as written reads `response.status_code`, i.e. the status of the
   * last response that was assigned, which for a request that raised before any
   * assignment does not exist.
   */
  datatype AsWrittenError = Raised(kind: FetchError) | UnboundResponse

  /**
   * The error `get_repos` raises as written; `lastStatus` is the status of the
   * most recent response bound to `response`, if any.
   */
  function ErrorKindAsWritten(r: Response, lastStatus: Option<int>): (e: AsWrittenError)
    requires Failed(r)
    ensures e == UnboundResponse <==> r.ConnectionFailure? && lastStatus.None?
  {
    match r
    case Http(status, _) => Raised(if status == 401 then AuthenticationFailed else FetchFailed)
    case ConnectionFailure =>
      match lastStatus
      case None => UnboundResponse
      case Some(status) => Raised(if status == 401 then AuthenticationFailed else FetchFailed)
  }

  /** A connection failure on the first page escapes as an unbound-variable error. */
  lemma FirstPageConnectionFailureAsWritten()
    ensures ErrorKindAsWritten(ConnectionFailure, None) == UnboundResponse
    ensures ErrorKind(ConnectionFailure) == FetchFailed
  {
  }

  /**
   * Whenever a response from an earlier page is bound (it passed
   * `raise_for_status`), the handler as written and the corrected one agree.
   */
  lemma AsWrittenAgreesWhenBound(r: Response, lastStatus: int)
    requires Failed(r) && !RaisesForStatus(lastStatus)
    ensures ErrorKindAsWritten(r, Some(lastStatus)) == Raised(ErrorKind(r))
  {
  }

  /** Some page ends the listing (the server eventually returns an empty page or fails). */
  predicate HasEnd(rs: seq<Response>)
  {
    exists k :: 0 <= k < |rs| && EndsListing(rs[k])
  }

  /** The index of the first page that ends the listing. */
  function FirstEnd(rs: seq<Response>): (k: nat)
    requires HasEnd(rs)
    ensures k < |rs| && EndsListing(rs[k])
    ensures forall j :: 0 <= j < k ==> !EndsListing(rs[j])
  {
    if EndsListing(rs[0]) then 0
    else
      var k :| 0 <= k < |rs| && EndsListing(rs[k]);
      assert EndsListing(rs[1..][k - 1]);
      1 + FirstEnd(rs[1..])
  }

  /** The descriptors of `pages`, concatenated in page order. */
  function Concat(pages: seq<Response>): seq<Repo>
  {
    if pages == [] then [] else Concat(pages[..|pages| - 1]) + Body(pages[|pages| - 1])
  }

  /**
   * What `get_repos` returns when `rs[i]` is the outcome of requesting page
   * `i + 1`: every page before the first empty one, concatenated, or the error
   * of the first failing page.
   */
  function Listing(rs: seq<Response>): Result<seq<Repo>, FetchError>
    requires HasEnd(rs)
  {
    var k := FirstEnd(rs);
    if Failed(rs[k]) then Err(ErrorKind(rs[k])) else Ok(Concat(rs[..k]))
  }

  /** A repository is listed exactly when it lies on some page; the order is page order. */
  lemma {:induction false} ConcatMembers(pages: seq<Response>, r: Repo)
    ensures r in Concat(pages) <==> exists i :: 0 <= i < |pages| && r in Body(pages[i])
  {
    if pages != [] {
      var n := |pages| - 1;
      ConcatMembers(pages[..n], r);
      if r in Body(pages[n]) {
        assert r in Concat(pages);
      }
      if r in Concat(pages[..n]) {
        var i :| 0 <= i < n && r in Body(pages[..n][i]);
        assert r in Body(pages[i]);
      }
      if exists i :: 0 <= i < |pages| && r in Body(pages[i]) {
        var i :| 0 <= i < |pages| && r in Body(pages[i]);
        if i < n {
          assert r in Body(pages[..n][i]);
        }
      }
    }
  }

  /** Concatenating two runs of pages concatenates their descriptors. */
  lemma {:induction false} ConcatAppend(a: seq<Response>, b: seq<Response>)
    ensures Concat(a + b) == Concat(a) + Concat(b)
  {
    if b != [] {
      var n := |b| - 1;
      assert (a + b)[..|a + b| - 1] == a + b[..n];
      assert (a + b)[|a + b| - 1] == b[n];
      ConcatAppend(a, b[..n]);
    } else {
      assert a + b == a;
    }
  }

  /** Pages after the first empty or failing one are never requested, so they change nothing. */
  lemma ListingIgnoresLaterPages(rs: seq<Response>, later: seq<Response>)
    requires HasEnd(rs)
    ensures HasEnd(rs[..FirstEnd(rs) + 1] + later)
    ensures FirstEnd(rs[..FirstEnd(rs) + 1] + later) == FirstEnd(rs)
    ensures Listing(rs[..FirstEnd(rs) + 1] + later) == Listing(rs)
  {
    var k := FirstEnd(rs);
    var rs' := rs[..k + 1] + later;
    assert rs'[k] == rs[k];
    assert forall j :: 0 <= j < k ==> rs'[j] == rs[j];
    FirstEndIsFirst(rs', k);
    assert rs'[..k] == rs[..k];
  }

  /** Any index ending the listing with no ending index before it is `FirstEnd`. */
  lemma {:induction false} FirstEndIsFirst(rs: seq<Response>, k: nat)
    requires k < |rs| && EndsListing(rs[k])
    requires forall j :: 0 <= j < k ==> !EndsListing(rs[j])
    ensures HasEnd(rs) && FirstEnd(rs) == k
  {
    if k > 0 {
      assert EndsListing(rs[1..][k - 1]);
      FirstEndIsFirst(rs[1..], k - 1);
    }
  }

  /**
   * A listing that succeeds holds exactly the descriptors of pages 1..k in
   * order, every one of those pages succeeded and was non-empty, and page k+1
   * was empty; a listing that fails carries no partial result.
   */
  lemma ListingMeaning(rs: seq<Response>)
    requires HasEnd(rs)
    ensures Listing(rs).Ok? <==> !Failed(rs[FirstEnd(rs)])
    ensures Listing(rs).Ok? ==>
              && Listing(rs).value == Concat(rs[..FirstEnd(rs)])
              && Body(rs[FirstEnd(rs)]) == []
              && forall j :: 0 <= j < FirstEnd(rs) ==> !Failed(rs[j]) && Body(rs[j]) != []
    ensures Listing(rs) == Err(AuthenticationFailed) <==>
              rs[FirstEnd(rs)].Http? && rs[FirstEnd(rs)].status == 401 && Failed(rs[FirstEnd(rs)])
  {
  }
}
