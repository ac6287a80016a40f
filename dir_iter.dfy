/** `iterDir`: list a directory, run a callback on each child in listing
    order, and stop at the first callback error, wrapped with that child's
    path.  The Go callbacks are closures over mutable state (the torrent
    map, the client); here that state is an explicit value threaded from
    one call to the next. */
module DirIter {
  import opened Base

  /** A per-entry callback: given the state so far, the entry and its path,
      the new state and, if the entry failed, the error. */
  type Callback<!S> = (S, Entry, Path) -> (S, Option<Error>)

  /** One call of the callback, with the path wrapped around its error. */
  function Visit<S>(cb: Callback<S>, dir: string, entry: Entry, s: S): (S, Option<Error>)
  {
    var path := Join(dir, entry.name);
    var (s', err) := cb(s, entry, path);
    (s', if err.Some? then Some(AtPath(path, err.value)) else None)
  }

  /** The outcome of running the callback over `entries` in order, stopping
      at the first failure.  Defined on prefixes: the last entry is visited
      only when all before it succeeded. */
  function IterateEntries<S>(cb: Callback<S>, dir: string, entries: seq<Entry>, s0: S): (S, Option<Error>)
    decreases |entries|
  {
    if |entries| == 0 then (s0, None)
    else
      var (s, err) := IterateEntries(cb, dir, entries[..|entries| - 1], s0);
      if err.Some? then (s, err)
      else Visit(cb, dir, entries[|entries| - 1], s)
  }

  /** The outcome of `iterDir(dir, cb)` from state `s0`: an unreadable
      directory is reported as is and runs no callback. */
  function Iterated<S>(cb: Callback<S>, dir: string, listing: Listing, s0: S): (S, Option<Error>)
  {
    match listing
    case Unreadable(cause) => (s0, Some(ReadDir(cause)))
    case Listed(entries) => IterateEntries(cb, dir, entries, s0)
  }

  /** Once a prefix has failed, the entries after it change nothing. */
  lemma {:induction false} FailureSticks<S>(cb: Callback<S>, dir: string, entries: seq<Entry>, s0: S, k: nat)
    requires k <= |entries|
    requires IterateEntries(cb, dir, entries[..k], s0).1.Some?
    ensures IterateEntries(cb, dir, entries, s0) == IterateEntries(cb, dir, entries[..k], s0)
    decreases |entries| - k
  {
    if k < |entries| {
      var front := entries[..|entries| - 1];
      assert front[..k] == entries[..k];
      FailureSticks(cb, dir, front, s0, k);
    } else {
      assert entries[..k] == entries;
    }
  }

  /** Fail-fast: a failed iteration failed at one entry `k`; every entry
      before it succeeded, the outcome is exactly that of the callback on
      entry `k` (so nothing after `k` ran), and the error names `k`'s path. */
  lemma {:induction false} FailFast<S>(cb: Callback<S>, dir: string, entries: seq<Entry>, s0: S)
    requires IterateEntries(cb, dir, entries, s0).1.Some?
    ensures exists k :: 0 <= k < |entries| && FailsAt(cb, dir, entries, s0, k)
    decreases |entries|
  {
    var front := entries[..|entries| - 1];
    var (s, err) := IterateEntries(cb, dir, front, s0);
    if err.Some? {
      FailFast(cb, dir, front, s0);
      var k :| 0 <= k < |front| && FailsAt(cb, dir, front, s0, k);
      assert front[..k] == entries[..k];
      assert FailsAt(cb, dir, entries, s0, k);
    } else {
      assert front == entries[..|entries| - 1];
      assert FailsAt(cb, dir, entries, s0, |entries| - 1);
    }
  }

  /** Entry `k` is where the iteration over `entries` stopped. */
  ghost predicate FailsAt<S>(cb: Callback<S>, dir: string, entries: seq<Entry>, s0: S, k: nat)
    requires k < |entries|
  {
    var (sk, before) := IterateEntries(cb, dir, entries[..k], s0);
    var (s, err) := cb(sk, entries[k], Join(dir, entries[k].name));
    && before.None?
    && err.Some?
    && IterateEntries(cb, dir, entries, s0) == (s, Some(AtPath(Join(dir, entries[k].name), err.value)))
  }

  /** `iterDir`: the `for` loop over the listing with its early return. */
  method IterDir<S>(dir: string, listing: Listing, cb: Callback<S>, s0: S) returns (s: S, err: Option<Error>)
    ensures (s, err) == Iterated(cb, dir, listing, s0)
  {
    if listing.Unreadable? {
      return s0, Some(ReadDir(listing.cause));
    }
    var entries := listing.entries;
    s := s0;
    var i := 0;
    while i < |entries|
      invariant 0 <= i <= |entries|
      invariant IterateEntries(cb, dir, entries[..i], s0) == (s, None)
    {
      var entry := entries[i];
      var path := Join(dir, entry.name);
      var (s', cbErr) := cb(s, entry, path);
      assert entries[..i + 1][..i] == entries[..i];
      if cbErr.Some? {
        FailureSticks(cb, dir, entries, s0, i + 1);
        return s', Some(AtPath(path, cbErr.value));
      }
      s := s';
      i := i + 1;
    }
    assert entries[..i] == entries;
    err := None;
  }
}
