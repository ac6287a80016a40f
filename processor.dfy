/** `processMapping`: for every child of a local directory whose name is a
    key of the torrent index, log it and (unless dry-running) submit the
    torrent's bytes to the download client with the mapping's remote
    directory, then wait. */
module Processor {
  import opened Base
  import opened DirIter
  import opened TorrentIndex

  /** The configuration `processMapping` reads: `-dry-run` and `-wait-secs`. */
  datatype Config = Config(dryRun: bool, waitSecs: int)

  /** The fixed inputs of one `processMapping` call. */
  datatype Job = Job(torrents: Index, dirLocal: string, dirRemote: string, conf: Config)

  /** A `TorrentAddPayload`: the torrent file (sent base64-encoded), the
      download directory and the start-paused flag. */
  datatype Request = Request(metaInfo: seq<byte>, downloadDir: string, paused: bool)

  /** What the tool does to the outside world, in the order it does it. */
  datatype Event =
    | Added(name: string, dirLocal: string, dirRemote: string, size: nat) // the "adding torrent" log record
    | Submitted(request: Request)                                       // one `TorrentAdd` call
    | Waited(secs: int)                                                 // `time.Sleep` of `-wait-secs` seconds

  /** The download client: its reply to the `TorrentAdd` call that ends the
      given trace, `None` meaning success. */
  type Backend = seq<Event> -> Option<RpcError>

  /** The callback of `processMapping` on one local entry (a file or a
      directory alike). */
  function OnLocalEntry(job: Job, backend: Backend, trace: seq<Event>, entry: Entry): (seq<Event>, Option<Error>)
  {
    if entry.name !in job.torrents then (trace, None)
    else
      var data := job.torrents[entry.name];
      var logged := trace + [Added(entry.name, job.dirLocal, job.dirRemote, |data|)];
      if job.conf.dryRun then (logged, None)
      else
        var called := logged + [Submitted(Request(data, job.dirRemote, true))];
        match backend(called)
        case Some(cause) => (called, Some(Rpc(cause)))
        case None => (called + [Waited(job.conf.waitSecs)], None)
  }

  function MappingCallback(job: Job, backend: Backend): Callback<seq<Event>>
  {
    (trace, entry, path) => OnLocalEntry(job, backend, trace, entry)
  }

  /** What `processMapping` does, starting from the trace so far, given the
      listing of `job.dirLocal`. */
  function Mapped(job: Job, listing: Listing, backend: Backend, trace0: seq<Event>): (seq<Event>, Option<Error>)
  {
    Iterated(MappingCallback(job, backend), job.dirLocal, listing, trace0)
  }

  /** The names of the entries found in the index, in listing order. */
  function Hits(torrents: Index, entries: seq<Entry>): (r: seq<string>)
    ensures |r| <= |entries|
    ensures forall k :: 0 <= k < |r| ==> r[k] in torrents
    ensures forall i :: 0 <= i < |entries| && entries[i].name in torrents ==> entries[i].name in r
    ensures forall k :: 0 <= k < |r| ==> exists i :: 0 <= i < |entries| && entries[i].name == r[k]
    decreases |entries|
  {
    if |entries| == 0 then []
    else
      var front, last := entries[..|entries| - 1], entries[|entries| - 1];
      assert forall i :: 0 <= i < |front| ==> front[i] == entries[i];
      Hits(torrents, front) + if last.name in torrents then [last.name] else []
  }

  /** The events one matched name produces. */
  function Block(job: Job, name: string): seq<Event>
    requires name in job.torrents
  {
    var data := job.torrents[name];
    [Added(name, job.dirLocal, job.dirRemote, |data|)]
      + if job.conf.dryRun then [] else [Submitted(Request(data, job.dirRemote, true)), Waited(job.conf.waitSecs)]
  }

  /** The events a run over the matched names produces when nothing fails. */
  function Blocks(job: Job, names: seq<string>): seq<Event>
    requires forall k :: 0 <= k < |names| ==> names[k] in job.torrents
    decreases |names|
  {
    if |names| == 0 then []
    else Blocks(job, names[..|names| - 1]) + Block(job, names[|names| - 1])
  }

  /** The names of the logged torrents in a trace, in order. */
  function Logged(trace: seq<Event>): seq<string>
    decreases |trace|
  {
    if |trace| == 0 then []
    else
      var last := trace[|trace| - 1];
      Logged(trace[..|trace| - 1]) + if last.Added? then [last.name] else []
  }

  /** The `TorrentAdd` payloads in a trace, in order. */
  function Requests(trace: seq<Event>): seq<Request>
    decreases |trace|
  {
    if |trace| == 0 then []
    else
      var last := trace[|trace| - 1];
      Requests(trace[..|trace| - 1]) + if last.Submitted? then [last.request] else []
  }

  /** Every submission is followed by exactly one wait, and every wait
      follows a submission. */
  ghost predicate Paced(events: seq<Event>, secs: int)
  {
    && (forall i :: 0 <= i < |events| && events[i].Submitted? ==> i + 1 < |events| && events[i + 1] == Waited(secs))
    && (forall i :: 0 <= i < |events| && events[i].Waited? ==> 0 < i && events[i - 1].Submitted?)
  }

  /** Every submission follows the log record of a name in the index and
      carries that name's stored bytes, the remote directory and
      `paused = true`. */
  ghost predicate Announced(events: seq<Event>, torrents: Index, dirRemote: string)
  {
    forall i :: 0 <= i < |events| && events[i].Submitted? ==>
      && 0 < i && events[i - 1].Added? && events[i - 1].name in torrents
      && events[i].request == Request(torrents[events[i - 1].name], dirRemote, true)
  }

  lemma {:induction false} LoggedConcat(a: seq<Event>, b: seq<Event>)
    ensures Logged(a + b) == Logged(a) + Logged(b)
    decreases |b|
  {
    if |b| > 0 {
      var b' := b[..|b| - 1];
      assert (a + b)[..|a + b| - 1] == a + b';
      LoggedConcat(a, b');
    } else {
      assert a + b == a;
    }
  }

  lemma {:induction false} RequestsConcat(a: seq<Event>, b: seq<Event>)
    ensures Requests(a + b) == Requests(a) + Requests(b)
    decreases |b|
  {
    if |b| > 0 {
      var b' := b[..|b| - 1];
      assert (a + b)[..|a + b| - 1] == a + b';
      RequestsConcat(a, b');
    } else {
      assert a + b == a;
    }
  }

  /** The matched names are exactly the logged ones, in order. */
  lemma {:induction false} BlocksLogged(job: Job, names: seq<string>)
    requires forall k :: 0 <= k < |names| ==> names[k] in job.torrents
    ensures Logged(Blocks(job, names)) == names
    decreases |names|
  {
    if |names| > 0 {
      var front, last := names[..|names| - 1], names[|names| - 1];
      BlocksLogged(job, front);
      LoggedConcat(Blocks(job, front), Block(job, last));
      var tail := if job.conf.dryRun then [] else [Submitted(Request(job.torrents[last], job.dirRemote, true)), Waited(job.conf.waitSecs)];
      LoggedConcat([Added(last, job.dirLocal, job.dirRemote, |job.torrents[last]|)], tail);
      assert Logged([Added(last, job.dirLocal, job.dirRemote, |job.torrents[last]|)]) == [last];
      if !job.conf.dryRun {
        assert tail[..1] == [tail[0]];
        assert Logged(tail) == [];
      }
      assert names == front + [last];
    }
  }

  /** One submission per matched name with that name's stored bytes, or none
      at all in a dry run. */
  lemma {:induction false} BlocksRequests(job: Job, names: seq<string>)
    requires forall k :: 0 <= k < |names| ==> names[k] in job.torrents
    ensures job.conf.dryRun ==> Requests(Blocks(job, names)) == [] && |Blocks(job, names)| == |names|
    ensures !job.conf.dryRun ==>
              && |Requests(Blocks(job, names))| == |names|
              && forall k :: 0 <= k < |names| ==>
                   Requests(Blocks(job, names))[k] == Request(job.torrents[names[k]], job.dirRemote, true)
    decreases |names|
  {
    if |names| > 0 {
      var front, last := names[..|names| - 1], names[|names| - 1];
      BlocksRequests(job, front);
      RequestsConcat(Blocks(job, front), Block(job, last));
      var added := Added(last, job.dirLocal, job.dirRemote, |job.torrents[last]|);
      var request := Request(job.torrents[last], job.dirRemote, true);
      if job.conf.dryRun {
        assert Block(job, last) == [added];
        assert Requests([added]) == [];
      } else {
        var b := [added, Submitted(request), Waited(job.conf.waitSecs)];
        assert Block(job, last) == b;
        assert b[..2][..1] == [added];
        assert Requests([added]) == [];
        assert b[..2] == [added, Submitted(request)];
        assert Requests(b[..2]) == [request];
        assert Requests(b) == [request];
      }
    }
  }

  /** Pacing survives appending a part that does not start with a wait. */
  lemma PacedConcat(a: seq<Event>, b: seq<Event>, secs: int)
    requires Paced(a, secs) && Paced(b, secs)
    requires |b| > 0 ==> !b[0].Waited?
    ensures Paced(a + b, secs)
  {
  }

  /** So does announcing, for a part that does not start with a submission. */
  lemma AnnouncedConcat(a: seq<Event>, b: seq<Event>, torrents: Index, dirRemote: string)
    requires Announced(a, torrents, dirRemote) && Announced(b, torrents, dirRemote)
    requires |b| > 0 ==> !b[0].Submitted?
    ensures Announced(a + b, torrents, dirRemote)
  {
  }

  /** The events of matched names are paced and announced. */
  lemma {:induction false} BlocksPacedAndAnnounced(job: Job, names: seq<string>)
    requires forall k :: 0 <= k < |names| ==> names[k] in job.torrents
    ensures Paced(Blocks(job, names), job.conf.waitSecs)
    ensures Announced(Blocks(job, names), job.torrents, job.dirRemote)
    decreases |names|
  {
    if |names| > 0 {
      var front, last := names[..|names| - 1], names[|names| - 1];
      BlocksPacedAndAnnounced(job, front);
      var b := Block(job, last);
      assert b[0].Added?;
      assert Paced(b, job.conf.waitSecs);
      assert Announced(b, job.torrents, job.dirRemote);
      PacedConcat(Blocks(job, front), b, job.conf.waitSecs);
      AnnouncedConcat(Blocks(job, front), b, job.torrents, job.dirRemote);
    }
  }

  /** The run stopped at entry `k`: a matched entry whose `TorrentAdd` the
      client refused.  Everything before it ran to completion, its log
      record and the refused call are the last events, no wait follows, and
      the client's error is returned wrapped with the entry's path. */
  ghost predicate AbortedAt(job: Job, backend: Backend, trace0: seq<Event>, entries: seq<Entry>, k: nat,
                            trace: seq<Event>, err: Option<Error>)
    requires k < |entries|
  {
    var name := entries[k].name;
    && !job.conf.dryRun
    && name in job.torrents
    && var data := job.torrents[name];
       && trace == trace0 + Blocks(job, Hits(job.torrents, entries[..k]))
                  + [Added(name, job.dirLocal, job.dirRemote, |data|), Submitted(Request(data, job.dirRemote, true))]
       && backend(trace).Some?
       && err == Some(AtPath(Join(job.dirLocal, name), Rpc(backend(trace).value)))
  }

  /** One callback call extends a completed run by the events of the
      entry's name if it is a match, and by nothing otherwise. */
  lemma OnLocalEntryExtends(job: Job, backend: Backend, trace0: seq<Event>, hits: seq<string>, entry: Entry)
    requires forall k :: 0 <= k < |hits| ==> hits[k] in job.torrents
    ensures var hits' := hits + if entry.name in job.torrents then [entry.name] else [];
            var (trace, err) := OnLocalEntry(job, backend, trace0 + Blocks(job, hits), entry);
            && (job.conf.dryRun ==> err.None?)
            && (err.None? ==> trace == trace0 + Blocks(job, hits'))
  {
    if entry.name in job.torrents {
      var hits' := hits + [entry.name];
      assert hits'[..|hits|] == hits;
      assert Blocks(job, hits') == Blocks(job, hits) + Block(job, entry.name);
    } else {
      assert hits + [] == hits;
    }
  }

  /** A run that does not fail produces exactly the events of its matched
      names, in listing order; a dry run never fails. */
  lemma {:induction false} MappingRun(job: Job, backend: Backend, trace0: seq<Event>, entries: seq<Entry>)
    ensures var (trace, err) := IterateEntries(MappingCallback(job, backend), job.dirLocal, entries, trace0);
            && (job.conf.dryRun ==> err.None?)
            && (err.None? ==> trace == trace0 + Blocks(job, Hits(job.torrents, entries)))
    decreases |entries|
  {
    if |entries| > 0 {
      var cb := MappingCallback(job, backend);
      var front, last := entries[..|entries| - 1], entries[|entries| - 1];
      MappingRun(job, backend, trace0, front);
      var (t, e) := IterateEntries(cb, job.dirLocal, front, trace0);
      if e.None? {
        assert IterateEntries(cb, job.dirLocal, entries, trace0) == Visit(cb, job.dirLocal, last, t);
        OnLocalEntryExtends(job, backend, trace0, Hits(job.torrents, front), last);
      }
    }
  }

  /** Fail-fast processing: a run over a listing fails only by a refused
      submission, which ends it. */
  lemma MappingFailFast(job: Job, backend: Backend, trace0: seq<Event>, entries: seq<Entry>)
    requires IterateEntries(MappingCallback(job, backend), job.dirLocal, entries, trace0).1.Some?
    ensures var (trace, err) := IterateEntries(MappingCallback(job, backend), job.dirLocal, entries, trace0);
            exists k :: 0 <= k < |entries| && AbortedAt(job, backend, trace0, entries, k, trace, err)
  {
    var cb := MappingCallback(job, backend);
    var (trace, err) := IterateEntries(cb, job.dirLocal, entries, trace0);
    FailFast(cb, job.dirLocal, entries, trace0);
    var k :| 0 <= k < |entries| && FailsAt(cb, job.dirLocal, entries, trace0, k);
    MappingRun(job, backend, trace0, entries[..k]);
    assert AbortedAt(job, backend, trace0, entries, k, trace, err);
  }

  /** A log record is emitted for an entry exactly when its name is a key of
      the index, in listing order; misses emit nothing and are no error. */
  lemma MatchSelectivity(job: Job, backend: Backend, trace0: seq<Event>, entries: seq<Entry>)
    ensures var (trace, err) := Mapped(job, Listed(entries), backend, trace0);
            err.None? ==> |trace0| <= |trace| && trace[..|trace0|] == trace0
                          && Logged(trace[|trace0|..]) == Hits(job.torrents, entries)
  {
    var (trace, err) := Mapped(job, Listed(entries), backend, trace0);
    MappingRun(job, backend, trace0, entries);
    if err.None? {
      var hits := Hits(job.torrents, entries);
      assert trace[|trace0|..] == Blocks(job, hits);
      BlocksLogged(job, hits);
    }
  }

  /** Every submission carries the index's bytes for the logged name, the
      remote directory and `paused = true`, and is followed by exactly one
      wait; there is one per matched entry, in listing order. */
  lemma SubmissionsFollowMatches(job: Job, backend: Backend, trace0: seq<Event>, entries: seq<Entry>)
    requires !job.conf.dryRun
    ensures var (trace, err) := Mapped(job, Listed(entries), backend, trace0);
            var hits := Hits(job.torrents, entries);
            err.None? ==>
              && |trace0| <= |trace| && trace[..|trace0|] == trace0
              && Announced(trace[|trace0|..], job.torrents, job.dirRemote)
              && Paced(trace[|trace0|..], job.conf.waitSecs)
              && |Requests(trace[|trace0|..])| == |hits|
              && forall k :: 0 <= k < |hits| ==>
                   Requests(trace[|trace0|..])[k] == Request(job.torrents[hits[k]], job.dirRemote, true)
  {
    var (trace, err) := Mapped(job, Listed(entries), backend, trace0);
    MappingRun(job, backend, trace0, entries);
    if err.None? {
      var hits := Hits(job.torrents, entries);
      assert trace[|trace0|..] == Blocks(job, hits);
      BlocksPacedAndAnnounced(job, hits);
      BlocksRequests(job, hits);
    }
  }

  /** Dry run: it never fails on a readable directory, logs one record per
      match and makes no submission and no wait. */
  lemma DryRunSubmitsNothing(job: Job, backend: Backend, trace0: seq<Event>, entries: seq<Entry>)
    requires job.conf.dryRun
    ensures var (trace, err) := Mapped(job, Listed(entries), backend, trace0);
            && err.None?
            && |trace| == |trace0| + |Hits(job.torrents, entries)|
            && trace[..|trace0|] == trace0
            && Logged(trace[|trace0|..]) == Hits(job.torrents, entries)
            && Requests(trace[|trace0|..]) == []
  {
    var (trace, err) := Mapped(job, Listed(entries), backend, trace0);
    MappingRun(job, backend, trace0, entries);
    var hits := Hits(job.torrents, entries);
    assert trace[|trace0|..] == Blocks(job, hits);
    BlocksLogged(job, hits);
    BlocksRequests(job, hits);
  }

  /** `processMapping`, continuing the trace `trace0`. */
  method ProcessMapping(torrents: Index, dirLocal: string, dirRemote: string, listing: Listing,
                        conf: Config, backend: Backend, trace0: seq<Event>)
    returns (trace: seq<Event>, err: Option<Error>)
    ensures (trace, err) == Mapped(Job(torrents, dirLocal, dirRemote, conf), listing, backend, trace0)
    ensures listing.Unreadable? ==> trace == trace0 && err == Some(ReadDir(listing.cause))
    ensures listing.Listed? && err.None? ==>
              trace == trace0 + Blocks(Job(torrents, dirLocal, dirRemote, conf), Hits(torrents, listing.entries))
    ensures listing.Listed? && err.Some? ==>
              exists k :: 0 <= k < |listing.entries|
                && AbortedAt(Job(torrents, dirLocal, dirRemote, conf), backend, trace0, listing.entries, k, trace, err)
  {
    var job := Job(torrents, dirLocal, dirRemote, conf);
    trace, err := IterDir(dirLocal, listing, MappingCallback(job, backend), trace0);
    if listing.Listed? {
      MappingRun(job, backend, trace0, listing.entries);
      if err.Some? {
        MappingFailFast(job, backend, trace0, listing.entries);
      }
    }
  }
}
