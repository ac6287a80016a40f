/** `main` once the client exists: index the torrents directory, then
    process every configured mapping in declaration order, stopping the run
    at the first error. */
module Restore {
  import opened Base
  import opened Mappings
  import opened TorrentIndex
  import opened Processor

  /** The mapping loop of `main` from trace `trace0`: each mapping's local
      directory is processed in turn; the first error ends the run, wrapped
      with the mapping's two sides. */
  function RunMappings(torrents: Index, mappings: seq<Mapping>, fs: FileSystem, conf: Config,
                       backend: Backend, trace0: seq<Event>): (seq<Event>, Option<Error>)
    decreases |mappings|
  {
    if |mappings| == 0 then (trace0, None)
    else
      var (trace, err) := RunMappings(torrents, mappings[..|mappings| - 1], fs, conf, backend, trace0);
      if err.Some? then (trace, err)
      else
        var m := mappings[|mappings| - 1];
        var (trace', err') := Mapped(Job(torrents, m.local, m.remote, conf), fs(m.local), backend, trace);
        (trace', if err'.Some? then Some(MappingFailed(m.local, m.remote, err'.value)) else None)
  }

  /** The whole run: what reaches the outside world and the fatal error, if any. */
  function Restored(torrentsPath: string, mappings: seq<Mapping>, fs: FileSystem, decode: Decoder,
                    conf: Config, backend: Backend): (seq<Event>, Option<Error>)
  {
    var (torrents, err) := Indexed(torrentsPath, fs(torrentsPath), decode);
    if err.Some? then ([], Some(ReadTorrents(torrentsPath, err.value)))
    else RunMappings(torrents, mappings, fs, conf, backend, [])
  }

  /** The matches of one listing; an unreadable directory has none. */
  function ListingHits(torrents: Index, listing: Listing): (r: seq<string>)
    ensures forall k :: 0 <= k < |r| ==> r[k] in torrents
  {
    match listing
    case Listed(entries) => Hits(torrents, entries)
    case Unreadable(_) => []
  }

  /** The matches of every mapping, in declaration order. */
  function AllHits(torrents: Index, mappings: seq<Mapping>, fs: FileSystem): (r: seq<string>)
    ensures forall k :: 0 <= k < |r| ==> r[k] in torrents
    decreases |mappings|
  {
    if |mappings| == 0 then []
    else
      AllHits(torrents, mappings[..|mappings| - 1], fs)
        + ListingHits(torrents, fs(mappings[|mappings| - 1].local))
  }

  /** The events of a mapping loop in which nothing fails: each mapping's
      matched entries, mapping by mapping in declaration order. */
  function AllBlocks(torrents: Index, mappings: seq<Mapping>, fs: FileSystem, conf: Config): seq<Event>
    decreases |mappings|
  {
    if |mappings| == 0 then []
    else
      var m := mappings[|mappings| - 1];
      AllBlocks(torrents, mappings[..|mappings| - 1], fs, conf)
        + Blocks(Job(torrents, m.local, m.remote, conf), ListingHits(torrents, fs(m.local)))
  }

  lemma {:induction false} MappingsFailureSticks(torrents: Index, mappings: seq<Mapping>, fs: FileSystem, conf: Config,
                                                 backend: Backend, trace0: seq<Event>, k: nat)
    requires k <= |mappings|
    requires RunMappings(torrents, mappings[..k], fs, conf, backend, trace0).1.Some?
    ensures RunMappings(torrents, mappings, fs, conf, backend, trace0)
            == RunMappings(torrents, mappings[..k], fs, conf, backend, trace0)
    decreases |mappings| - k
  {
    if k < |mappings| {
      var front := mappings[..|mappings| - 1];
      assert front[..k] == mappings[..k];
      MappingsFailureSticks(torrents, front, fs, conf, backend, trace0, k);
    } else {
      assert mappings[..k] == mappings;
    }
  }

  /** Mapping `k` is where the run stopped: the mappings before it all
      completed, mapping `k` failed, its events are the last ones and the
      error is its failure wrapped with its two sides. */
  ghost predicate MappingStoppedAt(torrents: Index, mappings: seq<Mapping>, fs: FileSystem, conf: Config,
                                   backend: Backend, trace0: seq<Event>, k: nat)
    requires k < |mappings|
  {
    var m := mappings[k];
    var (before, err) := RunMappings(torrents, mappings[..k], fs, conf, backend, trace0);
    var (trace, cause) := Mapped(Job(torrents, m.local, m.remote, conf), fs(m.local), backend, before);
    && err.None?
    && cause.Some?
    && RunMappings(torrents, mappings, fs, conf, backend, trace0)
       == (trace, Some(MappingFailed(m.local, m.remote, cause.value)))
  }

  /** Fail-fast over mappings: a failed run failed at one mapping, and no
      mapping after it was processed. */
  lemma {:induction false} MappingsFailFast(torrents: Index, mappings: seq<Mapping>, fs: FileSystem, conf: Config,
                                            backend: Backend, trace0: seq<Event>)
    requires RunMappings(torrents, mappings, fs, conf, backend, trace0).1.Some?
    ensures exists k :: 0 <= k < |mappings| && MappingStoppedAt(torrents, mappings, fs, conf, backend, trace0, k)
    decreases |mappings|
  {
    var front := mappings[..|mappings| - 1];
    var (trace, err) := RunMappings(torrents, front, fs, conf, backend, trace0);
    if err.Some? {
      MappingsFailFast(torrents, front, fs, conf, backend, trace0);
      var k :| 0 <= k < |front| && MappingStoppedAt(torrents, front, fs, conf, backend, trace0, k);
      assert front[..k] == mappings[..k];
      assert MappingStoppedAt(torrents, mappings, fs, conf, backend, trace0, k);
    } else {
      assert MappingStoppedAt(torrents, mappings, fs, conf, backend, trace0, |mappings| - 1);
    }
  }

  /** A mapping loop that does not fail read every local directory and
      appended exactly the events of every mapping's matches, mapping by
      mapping in declaration order. */
  lemma {:induction false} MappingsRun(torrents: Index, mappings: seq<Mapping>, fs: FileSystem, conf: Config,
                                       backend: Backend, trace0: seq<Event>)
    ensures var (trace, err) := RunMappings(torrents, mappings, fs, conf, backend, trace0);
            err.None? ==>
              && (forall i :: 0 <= i < |mappings| ==> fs(mappings[i].local).Listed?)
              && trace == trace0 + AllBlocks(torrents, mappings, fs, conf)
    decreases |mappings|
  {
    if |mappings| > 0 {
      var front, m := mappings[..|mappings| - 1], mappings[|mappings| - 1];
      MappingsRun(torrents, front, fs, conf, backend, trace0);
      var (t, e) := RunMappings(torrents, front, fs, conf, backend, trace0);
      if e.None? {
        var job := Job(torrents, m.local, m.remote, conf);
        var (t', e') := Mapped(job, fs(m.local), backend, t);
        if e'.None? {
          assert fs(m.local).Listed?;
          MappingRun(job, backend, t, fs(m.local).entries);
          assert forall i :: 0 <= i < |front| ==> front[i] == mappings[i];
        }
      }
    }
  }

  /** A non-empty run over matched names starts with a log record. */
  lemma {:induction false} BlocksStart(job: Job, names: seq<string>)
    requires forall k :: 0 <= k < |names| ==> names[k] in job.torrents
    ensures |names| > 0 ==> |Blocks(job, names)| > 0 && Blocks(job, names)[0].Added?
    decreases |names|
  {
    if |names| > 0 {
      BlocksStart(job, names[..|names| - 1]);
    }
  }

  /** In the events of a whole mapping loop every submission is followed by
      exactly one wait, and every wait follows a submission. */
  lemma {:induction false} AllBlocksPaced(torrents: Index, mappings: seq<Mapping>, fs: FileSystem, conf: Config)
    ensures Paced(AllBlocks(torrents, mappings, fs, conf), conf.waitSecs)
    decreases |mappings|
  {
    if |mappings| > 0 {
      var front, m := mappings[..|mappings| - 1], mappings[|mappings| - 1];
      AllBlocksPaced(torrents, front, fs, conf);
      var job := Job(torrents, m.local, m.remote, conf);
      var names := ListingHits(torrents, fs(m.local));
      BlocksPacedAndAnnounced(job, names);
      BlocksStart(job, names);
      PacedConcat(AllBlocks(torrents, front, fs, conf), Blocks(job, names), conf.waitSecs);
    }
  }

  /** The log records of a whole mapping loop are every mapping's matches,
      in declaration order. */
  lemma {:induction false} AllBlocksLogged(torrents: Index, mappings: seq<Mapping>, fs: FileSystem, conf: Config)
    ensures Logged(AllBlocks(torrents, mappings, fs, conf)) == AllHits(torrents, mappings, fs)
    decreases |mappings|
  {
    if |mappings| > 0 {
      var front, m := mappings[..|mappings| - 1], mappings[|mappings| - 1];
      AllBlocksLogged(torrents, front, fs, conf);
      var job := Job(torrents, m.local, m.remote, conf);
      var names := ListingHits(torrents, fs(m.local));
      BlocksLogged(job, names);
      LoggedConcat(AllBlocks(torrents, front, fs, conf), Blocks(job, names));
    }
  }

  /** A whole mapping loop makes no submission in a dry run; otherwise it
      makes one paused submission per match, carrying that name's stored
      bytes. */
  lemma {:induction false} AllBlocksRequests(torrents: Index, mappings: seq<Mapping>, fs: FileSystem, conf: Config)
    ensures conf.dryRun ==> Requests(AllBlocks(torrents, mappings, fs, conf)) == []
    ensures !conf.dryRun ==>
              var rs, hits := Requests(AllBlocks(torrents, mappings, fs, conf)), AllHits(torrents, mappings, fs);
              && |rs| == |hits|
              && forall k :: 0 <= k < |hits| ==> rs[k].metaInfo == torrents[hits[k]] && rs[k].paused
    decreases |mappings|
  {
    if |mappings| > 0 {
      var front, m := mappings[..|mappings| - 1], mappings[|mappings| - 1];
      AllBlocksRequests(torrents, front, fs, conf);
      var job := Job(torrents, m.local, m.remote, conf);
      var names := ListingHits(torrents, fs(m.local));
      BlocksRequests(job, names);
      RequestsConcat(AllBlocks(torrents, front, fs, conf), Blocks(job, names));
      if !conf.dryRun {
        var ha := AllHits(torrents, front, fs);
        var ra, rb := Requests(AllBlocks(torrents, front, fs, conf)), Requests(Blocks(job, names));
        RequestsSplice(torrents, ra, rb, ha, names);
      }
    }
  }

  /** Request lists that each match their names concatenate to one that
      matches the concatenated names. */
  lemma RequestsSplice(torrents: Index, ra: seq<Request>, rb: seq<Request>, ha: seq<string>, hb: seq<string>)
    requires forall k :: 0 <= k < |ha| ==> ha[k] in torrents
    requires forall k :: 0 <= k < |hb| ==> hb[k] in torrents
    requires |ra| == |ha| && forall k :: 0 <= k < |ha| ==> ra[k].metaInfo == torrents[ha[k]] && ra[k].paused
    requires |rb| == |hb| && forall k :: 0 <= k < |hb| ==> rb[k].metaInfo == torrents[hb[k]] && rb[k].paused
    ensures forall k :: 0 <= k < |ha + hb| ==> (ra + rb)[k].metaInfo == torrents[(ha + hb)[k]] && (ra + rb)[k].paused
  {
  }

  /** A dry-run mapping appends its log records and nothing else. */
  lemma DryRunExtends(job: Job, backend: Backend, trace0: seq<Event>, t: seq<Event>, entries: seq<Entry>)
    requires job.conf.dryRun
    requires |trace0| <= |t| && t[..|trace0|] == trace0 && Requests(t[|trace0|..]) == []
    ensures var (t', e') := Mapped(job, Listed(entries), backend, t);
            && e'.None?
            && |trace0| <= |t'| && t'[..|trace0|] == trace0
            && Requests(t'[|trace0|..]) == []
            && Logged(t'[|trace0|..]) == Logged(t[|trace0|..]) + Hits(job.torrents, entries)
  {
    DryRunSubmitsNothing(job, backend, t, entries);
    var (t', e') := Mapped(job, Listed(entries), backend, t);
    assert t' == t + t'[|t|..];
    assert t'[|trace0|..] == t[|trace0|..] + t'[|t|..];
    LoggedConcat(t[|trace0|..], t'[|t|..]);
    RequestsConcat(t[|trace0|..], t'[|t|..]);
  }

  /** A dry run over readable directories never fails, submits nothing and
      logs every match of every mapping, mapping by mapping. */
  lemma {:induction false} DryRunMappings(torrents: Index, mappings: seq<Mapping>, fs: FileSystem, conf: Config,
                                          backend: Backend, trace0: seq<Event>)
    requires conf.dryRun
    requires forall i :: 0 <= i < |mappings| ==> fs(mappings[i].local).Listed?
    ensures var (trace, err) := RunMappings(torrents, mappings, fs, conf, backend, trace0);
            && err.None?
            && |trace0| <= |trace| && trace[..|trace0|] == trace0
            && Requests(trace[|trace0|..]) == []
            && Logged(trace[|trace0|..]) == AllHits(torrents, mappings, fs)
    decreases |mappings|
  {
    if |mappings| == 0 {
      assert trace0[|trace0|..] == [];
      return;
    }
    var front, m := mappings[..|mappings| - 1], mappings[|mappings| - 1];
    assert forall i :: 0 <= i < |front| ==> front[i] == mappings[i];
    DryRunMappings(torrents, front, fs, conf, backend, trace0);
    var (t, e) := RunMappings(torrents, front, fs, conf, backend, trace0);
    var job := Job(torrents, m.local, m.remote, conf);
    var entries := fs(m.local).entries;
    DryRunExtends(job, backend, trace0, t, entries);
    var (t', e') := Mapped(job, Listed(entries), backend, t);
    assert RunMappings(torrents, mappings, fs, conf, backend, trace0) == (t', None);
    assert AllHits(torrents, mappings, fs) == AllHits(torrents, front, fs) + Hits(torrents, entries);
  }

  /** A single unreadable or malformed torrent file aborts the run before
      any mapping is processed, wherever it sits in the listing. */
  lemma MalformedFileAbortsRun(torrentsPath: string, mappings: seq<Mapping>, fs: FileSystem, decode: Decoder,
                               conf: Config, backend: Backend, i: nat)
    requires fs(torrentsPath).Listed?
    requires i < |fs(torrentsPath).entries|
    requires !fs(torrentsPath).entries[i].isDir && Load(decode, fs(torrentsPath).entries[i]).Failure?
    ensures var (trace, err) := Restored(torrentsPath, mappings, fs, decode, conf, backend);
            var entries := fs(torrentsPath).entries;
            && trace == []
            && exists k :: 0 <= k <= i
                 && AllLoad(decode, entries[..k])
                 && !entries[k].isDir && Load(decode, entries[k]).Failure?
                 && err == Some(ReadTorrents(torrentsPath, AtPath(Join(torrentsPath, entries[k].name), Load(decode, entries[k]).error)))
  {
    var entries := fs(torrentsPath).entries;
    IndexBuilt(decode, torrentsPath, entries);
    IndexFailFast(decode, torrentsPath, entries);
    var (torrents, err) := Indexed(torrentsPath, fs(torrentsPath), decode);
    var k :| 0 <= k < |entries| && StoppedAt(decode, torrentsPath, entries, k, torrents, err);
  }

  /** `main` after `transmissionrpc.New`: `log.Fatalf` ends the run with
      the error returned. */
  method Restore(torrentsPath: string, mappings: seq<Mapping>, fs: FileSystem, decode: Decoder,
                 conf: Config, backend: Backend)
    returns (trace: seq<Event>, err: Option<Error>)
    ensures (trace, err) == Restored(torrentsPath, mappings, fs, decode, conf, backend)
    ensures Indexed(torrentsPath, fs(torrentsPath), decode).1.Some? ==>
              trace == [] && err == Some(ReadTorrents(torrentsPath, Indexed(torrentsPath, fs(torrentsPath), decode).1.value))
  {
    var torrents, indexErr := ReadTorrentFiles(torrentsPath, fs(torrentsPath), decode);
    if indexErr.Some? {
      return [], Some(ReadTorrents(torrentsPath, indexErr.value));
    }
    trace := [];
    var i := 0;
    while i < |mappings|
      invariant 0 <= i <= |mappings|
      invariant RunMappings(torrents, mappings[..i], fs, conf, backend, []) == (trace, None)
    {
      var m := mappings[i];
      var trace', mappingErr := ProcessMapping(torrents, m.local, m.remote, fs(m.local), conf, backend, trace);
      assert mappings[..i + 1][..i] == mappings[..i];
      if mappingErr.Some? {
        MappingsFailureSticks(torrents, mappings, fs, conf, backend, [], i + 1);
        return trace', Some(MappingFailed(m.local, m.remote, mappingErr.value));
      }
      trace := trace';
      i := i + 1;
    }
    assert mappings[..i] == mappings;
    err := None;
  }
}
