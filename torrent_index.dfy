/** `readTorrentFiles`: index the torrent files of one directory by the
    name their `info` dictionary declares, keeping each file's raw bytes. */
module TorrentIndex {
  import opened Base
  import opened DirIter

  /** `bencode.Unmarshal` into the `info` struct, reduced to the one field
      with behaviour: the declared `info.name`, or the decoder's error. */
  type Decoder = seq<byte> -> Result<string, DecodeError>

  /** The `torrents` map: declared name to raw file bytes. */
  type Index = map<string, seq<byte>>

  /** Reading and decoding one file entry: its declared name, or the error
      (already given the source's "read file" / "unmarshal torrent" prefix). */
  function Load(decode: Decoder, entry: Entry): Result<string, Error>
  {
    match entry.content
    case Failure(cause) => Failure(ReadFile(cause))
    case Success(file) =>
      match decode(file)
      case Failure(cause) => Failure(Unmarshal(cause))
      case Success(name) => Success(name)
  }

  /** The callback of `readTorrentFiles` on one entry: directories are
      skipped, a file is stored under its declared name (replacing what was
      there), and a read or decode error leaves the index untouched. */
  function AddTorrent(decode: Decoder, torrents: Index, entry: Entry): (Index, Option<Error>)
  {
    if entry.isDir then (torrents, None)
    else
      match Load(decode, entry)
      case Failure(err) => (torrents, Some(err))
      case Success(name) => (torrents[name := entry.content.value], None)
  }

  function IndexCallback(decode: Decoder): Callback<Index>
  {
    (torrents, entry, path) => AddTorrent(decode, torrents, entry)
  }

  /** What `readTorrentFiles(dir)` returns, map and error alike. */
  function Indexed(dir: string, listing: Listing, decode: Decoder): (Index, Option<Error>)
  {
    Iterated(IndexCallback(decode), dir, listing, map[])
  }

  /** `entry` is a file whose contents decode to a torrent named `name`. */
  ghost predicate Declares(decode: Decoder, entry: Entry, name: string)
  {
    !entry.isDir && Load(decode, entry) == Success(name)
  }

  /** No entry after position `i` declares `name`. */
  ghost predicate NoLaterDeclaration(decode: Decoder, entries: seq<Entry>, i: nat, name: string)
  {
    forall j :: i < j < |entries| ==> !Declares(decode, entries[j], name)
  }

  /** Every file entry can be read and decoded. */
  ghost predicate AllLoad(decode: Decoder, entries: seq<Entry>)
  {
    forall i :: 0 <= i < |entries| && !entries[i].isDir ==> Load(decode, entries[i]).Success?
  }

  /** `torrents` indexes `entries`: its keys are exactly the names the file
      entries declare, and each name holds the unmodified bytes of the last
      entry, in listing order, that declares it. */
  ghost predicate IndexOf(decode: Decoder, entries: seq<Entry>, torrents: Index)
  {
    && (forall name :: name in torrents <==> exists i :: 0 <= i < |entries| && Declares(decode, entries[i], name))
    && (forall i, name ::
          0 <= i < |entries| && Declares(decode, entries[i], name) && NoLaterDeclaration(decode, entries, i, name)
          ==> name in torrents && torrents[name] == entries[i].content.value)
  }

  /** Indexing stopped at entry `k`: the entries before it all loaded and
      are indexed in `torrents`, entry `k` is a file that failed to load, and
      the error is that failure wrapped with `k`'s path. */
  ghost predicate StoppedAt(decode: Decoder, dir: string, entries: seq<Entry>, k: nat, torrents: Index, err: Option<Error>)
    requires k < |entries|
  {
    && AllLoad(decode, entries[..k])
    && IndexOf(decode, entries[..k], torrents)
    && !entries[k].isDir
    && Load(decode, entries[k]).Failure?
    && err == Some(AtPath(Join(dir, entries[k].name), Load(decode, entries[k]).error))
  }

  /** Indexing a listing succeeds exactly when every file entry loads, and
      then yields the last-write-wins index of the listing. */
  lemma {:induction false} IndexBuilt(decode: Decoder, dir: string, entries: seq<Entry>)
    ensures var (torrents, err) := IterateEntries(IndexCallback(decode), dir, entries, map[]);
            && (err.None? <==> AllLoad(decode, entries))
            && (err.None? ==> IndexOf(decode, entries, torrents))
    decreases |entries|
  {
    if |entries| == 0 {
      return;
    }
    var n := |entries| - 1;
    var front, last := entries[..n], entries[n];
    assert forall i :: 0 <= i < n ==> entries[i] == front[i];
    IndexBuilt(decode, dir, front);
    var (t, e) := IterateEntries(IndexCallback(decode), dir, front, map[]);
    if e.Some? {
      assert !AllLoad(decode, front);
      return;
    }
    var (t', e') := AddTorrent(decode, t, last);
    assert IterateEntries(IndexCallback(decode), dir, entries, map[]) == (t', if e'.Some? then Some(AtPath(Join(dir, last.name), e'.value)) else None);
    if e'.Some? {
      assert !AllLoad(decode, entries);
      return;
    }
    if !last.isDir {
      var name := Load(decode, last).value;
      assert t' == t[name := last.content.value];
      forall i, m | 0 <= i < |entries| && Declares(decode, entries[i], m) && NoLaterDeclaration(decode, entries, i, m)
        ensures m in t' && t'[m] == entries[i].content.value
      {
        if i < n {
          assert m != name by { assert !Declares(decode, entries[n], m); }
          assert NoLaterDeclaration(decode, front, i, m);
        }
      }
    } else {
      forall i, m | 0 <= i < |entries| && Declares(decode, entries[i], m) && NoLaterDeclaration(decode, entries, i, m)
        ensures m in t' && t'[m] == entries[i].content.value
      {
        assert NoLaterDeclaration(decode, front, i, m);
      }
    }
  }

  /** Fail-fast indexing: a failed run stopped at one file entry and holds
      exactly the insertions of the entries before it. */
  lemma IndexFailFast(decode: Decoder, dir: string, entries: seq<Entry>)
    requires IterateEntries(IndexCallback(decode), dir, entries, map[]).1.Some?
    ensures var (torrents, err) := IterateEntries(IndexCallback(decode), dir, entries, map[]);
            exists k :: 0 <= k < |entries| && StoppedAt(decode, dir, entries, k, torrents, err)
  {
    var cb := IndexCallback(decode);
    var (torrents, err) := IterateEntries(cb, dir, entries, map[]);
    FailFast(cb, dir, entries, map[]);
    var k :| 0 <= k < |entries| && FailsAt(cb, dir, entries, map[], k);
    IndexBuilt(decode, dir, entries[..k]);
    assert StoppedAt(decode, dir, entries, k, torrents, err);
  }

  /** `readTorrentFiles`: the index is returned even on error, holding what
      was inserted before the failing entry. */
  method ReadTorrentFiles(dir: string, listing: Listing, decode: Decoder) returns (torrents: Index, err: Option<Error>)
    ensures (torrents, err) == Indexed(dir, listing, decode)
    ensures listing.Unreadable? ==> torrents == map[] && err == Some(ReadDir(listing.cause))
    ensures listing.Listed? ==> (err.None? <==> AllLoad(decode, listing.entries))
    ensures listing.Listed? && err.None? ==> IndexOf(decode, listing.entries, torrents)
    ensures listing.Listed? && err.Some? ==>
              exists k :: 0 <= k < |listing.entries| && StoppedAt(decode, dir, listing.entries, k, torrents, err)
  {
    torrents, err := IterDir(dir, listing, IndexCallback(decode), map[]);
    if listing.Listed? {
      IndexBuilt(decode, dir, listing.entries);
      if err.Some? {
        IndexFailFast(decode, dir, listing.entries);
      }
    }
  }
}
