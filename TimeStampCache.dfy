/** The per-thread cache of last-write times for local font files, and its deferred cleanup. */
module TimeStampCache {
  import opened Values

  /** The thread-static state: the dictionary `_timeStampCache` (`None` until its first use)
      and whether a cleanup operation `_timeStampCacheCleanupOp` is posted. */
  datatype CacheState = CacheState(table: Option<map<Uri, FileTime>>, cleanupPending: bool)

  /** The cached entries; a dictionary not yet made holds none. */
  function Entries(s: CacheState): map<Uri, FileTime> {
    if s.table.Some? then s.table.value else map[]
  }

  /** The staleness bound: the cache holds an entry exactly when a cleanup is posted that
      will clear it at the thread's next idle point. */
  ghost predicate Bounded(s: CacheState) {
    Entries(s) != map[] <==> s.cleanupPending
  }

  /** What one lookup does: the cache afterwards, the timestamp handed to the engine
      (`None` is NULL), whether the file was opened to read its time, and
      whether a cleanup was posted. */
  datatype LookupResult = LookupResult(after: CacheState, timeStamp: Option<FileTime>, fileOpened: bool, scheduled: bool)

  /** The timestamp step of file-reference creation for `uri`. The cache is used only for a
      local file on a thread that has a dispatcher; `fileInfo` is what opening the file and
      reading its information by handle yields (`None` when either fails). */
  function Lookup(s: CacheState, uri: Uri, hasDispatcher: bool, fileInfo: Option<FileTime>): (r: LookupResult)
    // No dispatcher, or not a local file: the cache is neither read nor written.
    ensures !(uri.isLocal && hasDispatcher) ==> r == LookupResult(s, None, false, false)
    ensures uri.isLocal && hasDispatcher ==> r.after.table.Some?
    // A hit reuses the cached time and touches neither the file nor the dispatcher.
    ensures uri.isLocal && hasDispatcher && uri in Entries(s) ==>
      && r.timeStamp == Some(Entries(s)[uri]) && !r.fileOpened && !r.scheduled
      && Entries(r.after) == Entries(s) && r.after.cleanupPending == s.cleanupPending
    // A miss opens the file and passes on whatever time it read.
    ensures uri.isLocal && hasDispatcher && uri !in Entries(s) ==> r.fileOpened && r.timeStamp == fileInfo
    // A miss that read a time adds exactly that entry and posts a cleanup unless one is pending.
    ensures uri.isLocal && hasDispatcher && uri !in Entries(s) && fileInfo.Some? ==>
      && Entries(r.after) == Entries(s)[uri := fileInfo.value]
      && r.after.cleanupPending && r.scheduled == !s.cleanupPending
    // A miss that could not read a time leaves the entries and the cleanup marker alone.
    ensures fileInfo.None? ==>
      Entries(r.after) == Entries(s) && r.after.cleanupPending == s.cleanupPending && !r.scheduled
    // At most one cleanup is ever pending: one is posted only when none is, and the marker,
    // once set, stays set until the cleanup runs.
    ensures r.scheduled ==> !s.cleanupPending && r.after.cleanupPending
    ensures r.after.cleanupPending <==> s.cleanupPending || r.scheduled
    ensures Bounded(s) ==> Bounded(r.after)
  {
    if !(uri.isLocal && hasDispatcher) then LookupResult(s, None, false, false)
    else
      var entries := Entries(s);
      if uri in entries then
        LookupResult(CacheState(Some(entries), s.cleanupPending), Some(entries[uri]), false, false)
      else if fileInfo.None? then
        LookupResult(CacheState(Some(entries), s.cleanupPending), None, true, false)
      else
        LookupResult(CacheState(Some(entries[uri := fileInfo.value]), true), fileInfo, true, !s.cleanupPending)
  }

  /** Within one turn of the dispatcher, a second lookup of a file whose time was just
      cached is a hit: the file is not opened again and the same time is passed on. */
  lemma SecondLookupHits(s: CacheState, uri: Uri, t: FileTime, laterInfo: Option<FileTime>)
    requires uri.isLocal
    ensures var first := Lookup(s, uri, true, Some(t));
      var second := Lookup(first.after, uri, true, laterInfo);
      && uri in Entries(first.after)
      && second.timeStamp == Some(Entries(first.after)[uri])
      && !second.fileOpened && !second.scheduled
      && (uri !in Entries(s) ==> second.timeStamp == Some(t))
  {
  }

  /** One file-reference request on a thread that has a dispatcher: the file, and what
      opening it and reading its time would yield. */
  datatype Request = Request(uri: Uri, fileInfo: Option<FileTime>)

  /** The cache after serving `requests` in order within one turn of the dispatcher, before
      any posted cleanup has run, and how many cleanups were posted on the way. */
  function Turn(s: CacheState, requests: seq<Request>): (CacheState, nat)
    decreases |requests|
  {
    if requests == [] then (s, 0)
    else
      var (mid, posted) := Turn(s, requests[..|requests| - 1]);
      var last := requests[|requests| - 1];
      var step := Lookup(mid, last.uri, true, last.fileInfo);
      (step.after, posted + if step.scheduled then 1 else 0)
  }

  /** However many files a turn references, it posts at most one cleanup: none when one was
      already pending, and exactly one when the turn left a cleanup pending that was not
      pending before. The staleness bound holds throughout. */
  lemma {:induction false} AtMostOneCleanupPerTurn(s: CacheState, requests: seq<Request>)
    ensures var (after, posted) := Turn(s, requests);
      && (s.cleanupPending ==> after.cleanupPending && posted == 0)
      && posted == (if after.cleanupPending && !s.cleanupPending then 1 else 0)
      && (Bounded(s) ==> Bounded(after))
    decreases |requests|
  {
    if requests != [] {
      AtMostOneCleanupPerTurn(s, requests[..|requests| - 1]);
    }
  }

  /** The thread-static storage that `Factory` keeps per thread. `postedCleanups` counts
      the cleanup operations posted to the dispatcher and not yet run. */
  class ThreadCache {
    var table: Option<map<Uri, FileTime>>
    var cleanupPending: bool
    ghost var postedCleanups: nat

    function State(): CacheState
      reads this
    {
      CacheState(table, cleanupPending)
    }

    ghost predicate Valid()
      reads this
    {
      Bounded(State()) && postedCleanups == (if cleanupPending then 1 else 0)
    }

    /** The timestamp step of the static `CreateFontFile` overload for a local file: create
        the dictionary on first use, reuse a cached time, or read the file's time, cache it
        and post a cleanup unless one is pending. */
    method TimeStampFor(uri: Uri, hasDispatcher: bool, fileInfo: Option<FileTime>)
      returns (timeStamp: Option<FileTime>, fileOpened: bool, scheduled: bool)
      requires Valid()
      modifies this
      ensures Valid()
      ensures LookupResult(State(), timeStamp, fileOpened, scheduled) == Lookup(old(State()), uri, hasDispatcher, fileInfo)
      ensures postedCleanups == old(postedCleanups) + (if scheduled then 1 else 0)
    {
      timeStamp, fileOpened, scheduled := None, false, false;
      if uri.isLocal && hasDispatcher {
        if table.None? {
          table := Some(map[]);
        }
        var entries := table.value;
        if uri in entries {
          timeStamp := Some(entries[uri]);
        } else {
          fileOpened := true;
          if fileInfo.Some? {
            table := Some(entries[uri := fileInfo.value]);
            if !cleanupPending {
              cleanupPending := true;
              postedCleanups := postedCleanups + 1;
              scheduled := true;
            }
            timeStamp := fileInfo;
          }
        }
      }
    }

    /** A thread that has not created its dictionary yet. */
    constructor ()
      ensures Valid() && State() == CacheState(None, false) && postedCleanups == 0
    {
      table := None;
      cleanupPending := false;
      postedCleanups := 0;
    }
  }
}
