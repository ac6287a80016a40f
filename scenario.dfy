/** A worked example: two torrent files declaring
    "Movie1" and "Movie2", a local directory holding "Movie1" and "Movie3",
    and one mapping from it to "/data/new". */
module Scenario {
  import opened Base
  import opened Mappings
  import opened TorrentIndex
  import opened Processor
  import opened Restore
  import DirIter

  /** A stand-in decoder: file [1] declares "Movie1", file [2] "Movie2". */
  function Decode(file: seq<byte>): Result<string, DecodeError>
  {
    if file == [1] then Success("Movie1")
    else if file == [2] then Success("Movie2")
    else Failure("invalid bencode")
  }

  function Disk(dir: string): Listing
  {
    if dir == "/torrents" then
      Listed([Entry("A.torrent", false, Success([1])), Entry("B.torrent", false, Success([2]))])
    else if dir == "/data/old" then
      Listed([Entry("Movie1", true, Failure("is a directory")), Entry("Movie3", true, Failure("is a directory"))])
    else Unreadable("no such file or directory")
  }

  function AcceptAll(trace: seq<Event>): Option<RpcError>
  {
    None
  }

  /** Exactly one submission, for "Movie1", into "/data/new"; "Movie3"
      matches nothing and "Movie2" is indexed but never used. */
  lemma OneMatchOneSubmission()
    ensures Restored("/torrents", [Mapping("/data/old", "/data/new")], Disk, Decode, Config(false, 5), AcceptAll)
            == ([Added("Movie1", "/data/old", "/data/new", 1), Submitted(Request([1], "/data/new", true)), Waited(5)], None)
  {
    var icb := IndexCallback(Decode);
    var a, b := Entry("A.torrent", false, Success([1])), Entry("B.torrent", false, Success([2]));
    var torrentFiles := [a, b];
    assert Decode(a.content.value) == Success("Movie1");
    assert Decode(b.content.value) == Success("Movie2");
    assert AddTorrent(Decode, map[], a) == (map["Movie1" := [1]], None);
    assert AddTorrent(Decode, map["Movie1" := [1]], b) == (map["Movie1" := [1], "Movie2" := [2]], None);
    assert torrentFiles[..1] == [a];
    assert [a][..0] == [];
    assert DirIter.IterateEntries(icb, "/torrents", [a], map[]) == (map["Movie1" := [1]], None);
    assert DirIter.IterateEntries(icb, "/torrents", torrentFiles, map[]) == (map["Movie1" := [1], "Movie2" := [2]], None);
    var torrents: Index := map["Movie1" := [1], "Movie2" := [2]];
    assert Indexed("/torrents", Disk("/torrents"), Decode) == (torrents, None);

    var job := Job(torrents, "/data/old", "/data/new", Config(false, 5));
    var mcb := MappingCallback(job, AcceptAll);
    var m1, m3 := Entry("Movie1", true, Failure("is a directory")), Entry("Movie3", true, Failure("is a directory"));
    var local := [m1, m3];
    var events := [Added("Movie1", "/data/old", "/data/new", 1), Submitted(Request([1], "/data/new", true)), Waited(5)];
    assert "Movie1" in torrents && torrents["Movie1"] == [1] && "Movie3" !in torrents;
    var called := [Added("Movie1", "/data/old", "/data/new", 1), Submitted(Request([1], "/data/new", true))];
    assert AcceptAll(called) == None;
    assert called + [Waited(5)] == events;
    var empty: seq<Event> := [];
    assert empty + [Added("Movie1", "/data/old", "/data/new", 1)] + [Submitted(Request([1], "/data/new", true))] == called;
    assert AcceptAll(empty + [Added("Movie1", "/data/old", "/data/new", 1)] + [Submitted(Request([1], "/data/new", true))]) == None;
    assert OnLocalEntry(job, AcceptAll, [], m1) == (events, None);
    assert OnLocalEntry(job, AcceptAll, events, m3) == (events, None);
    assert local[..1] == [m1];
    assert [m1][..0] == [];
    assert DirIter.IterateEntries(mcb, "/data/old", [m1], []) == (events, None);
    assert DirIter.IterateEntries(mcb, "/data/old", local, []) == (events, None);
    assert Mapped(job, Disk("/data/old"), AcceptAll, []) == (events, None);
    var mappings := [Mapping("/data/old", "/data/new")];
    assert mappings[..0] == [];
    assert RunMappings(torrents, mappings, Disk, Config(false, 5), AcceptAll, []) == (events, None);
  }
}
