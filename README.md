# transmission-restore, modelled in Dafny

transmission-restore re-registers torrents with a Transmission daemon after
the data has moved. The tool runs in three steps:

1. It indexes a directory of `.torrent` files by the name each file declares
   in its `info` dictionary. The index keeps each file's raw bytes.
2. For every `-mapping local;remote` pair, in the order given, it lists the
   local directory. Each child whose name is a key of the index is logged.
   Unless `-dry-run` is set, that torrent is then submitted to the daemon,
   paused, with `remote` as its download directory, and the tool waits
   `-wait-secs` seconds.
3. The first error ends the run.

The model follows the source's structure:

- `Base` holds the shared types. `Entry` is a directory child with its
  file contents or read error. `Listing` is an `os.ReadDir` result. `Path`
  is a symbolic `filepath.Join`. `Error` is the source's errors with the
  wrapping it applies to them.
- `Mappings` covers the `mapping` type, the split on the first `;`, and the
  flag's list as a class whose `Set` appends in place.
- `DirIter` covers `iterDir`. It is a generic method with a `while` loop
  over the listing and an early return on the first callback error. The Go
  callbacks are closures that mutate captured state: the `torrents` map,
  and the client's side effects. Here that state is passed explicitly from
  one callback to the next. `IterateEntries` is the specification of the
  loop.
- `TorrentIndex` covers `readTorrentFiles`: its callback `AddTorrent`, and
  `IndexOf`, the last-write-wins meaning of the index.
- `Processor` covers `processMapping`. Its callback `OnLocalEntry` appends
  to an event trace: the log record (`Added`), the `TorrentAdd` call
  (`Submitted`) and the sleep (`Waited`).
- `Restore` covers the part of `main` after the client is created: indexing
  followed by the mapping loop.
- `Scenario` is a worked example: two torrent files, one mapping, one
  submission.

Environment effects are inputs:
- The file system is a function from a directory path to its listing.
- The bencode decoder is a function from file bytes to the declared name
  or an error.
- The download client is a function from the trace so far, ending in a
  `TorrentAdd` call, to the daemon's reply (`None` for success).

Facts of the code the model follows:
- `os.ReadDir` returns entries sorted by file name. The model allows any
  listing order, so every property holds for sorted order too, and "last
  write wins" means last in listing order.
- An empty `info.name` is indexed like any other name.
- `readTorrentFiles` returns the partial map together with the error.
  `ReadTorrentFiles` states what that map holds, and `main` exits without
  using it.
- The sleep follows every successful submission, the last one included.

## Model

| member | source | states |
|---|---|---|
| `Mappings.FirstSeparator` | transmission-restore.go:38 | There is no separator position exactly when the value has no ';'. Otherwise the position holds a ';' and no ';' comes before it. |
| `Mappings.SplitMapping` | transmission-restore.go:38-45 | There is no mapping exactly when the value has no ';'. Otherwise `value == local + ";" + remote` and `local` has no ';', so `remote` keeps every later ';'. |
| `Mappings.SplitMappingUnique` | transmission-restore.go:38-45 | For any `local` without ';' and any `remote`, splitting `local;remote` gives back exactly that pair: the split is determined by the first ';'. |
| `Mappings.MappingList.constructor` | transmission-restore.go:25 | The flag's list starts empty. |
| `Mappings.MappingList.Set` | transmission-restore.go:37-47 | Fails exactly when the value has no ';'. On failure the error is `InvalidMapping(value)` and the list is unchanged. On success the earlier mappings are kept in order and the new mapping is last, split at the first ';'. |
| `DirIter.IterDir` | transmission-restore.go:158-170 | The loop's outcome equals `Iterated`: an unreadable directory gives its `ReadDir` error and runs no callback; otherwise the callbacks run in listing order up to the first failure. |
| `DirIter.FailureSticks` | transmission-restore.go:165-167 | Once a prefix of the listing has failed, the later entries change neither the state nor the error. |
| `DirIter.FailFast` | transmission-restore.go:163-168 | A failed iteration stopped at one entry `k`. Every entry before `k` succeeded. The final state is the callback's state on entry `k`, so nothing after `k` ran. The error is the callback's error wrapped with `k`'s path. |
| `DirIter.Visit` | transmission-restore.go:164-167 | One callback call, with its error wrapped in the entry's path. Its meaning is stated by `DirIter.FailFast`. |
| `DirIter.IterateEntries` | transmission-restore.go:163-169 | The callbacks over the listing in order, up to the first failure. Its meaning is stated by `DirIter.FailureSticks` and `DirIter.FailFast`. |
| `TorrentIndex.Load` | transmission-restore.go:115-123 | Reading one file and decoding its `info.name`, with the "read file" or "unmarshal torrent" error. Its meaning is stated by `TorrentIndex.IndexBuilt` and `TorrentIndex.IndexFailFast`. |
| `TorrentIndex.AddTorrent` | transmission-restore.go:111-127 | The indexing callback: directories are skipped and a file is stored under its declared name. Its meaning is stated by `TorrentIndex.IndexBuilt`. |
| `TorrentIndex.IndexBuilt` | transmission-restore.go:111-127 | Indexing succeeds exactly when every non-directory entry can be read and decoded. Then the keys are exactly the declared names of non-directory entries, and each key holds the unmodified bytes of the last entry in listing order that declares it. Directories contribute nothing. |
| `TorrentIndex.IndexFailFast` | transmission-restore.go:115-123 | A failed indexing stopped at one file entry `k` that could not be read or decoded. All earlier entries loaded. The map holds exactly the last-write-wins index of the entries before `k`. The error is `k`'s read or unmarshal error wrapped with `k`'s path. |
| `TorrentIndex.ReadTorrentFiles` | transmission-restore.go:109-128 | Returns the map together with the error. An unreadable directory gives an empty map and its `ReadDir` error. Otherwise it states the success condition, the index content on success, and on failure the entry it stopped at with what the map then holds. |
| `Processor.OnLocalEntry` | transmission-restore.go:132-154 | The callback on one local entry: misses do nothing; a match is logged, then submitted and followed by a wait unless dry-running. Its meaning is stated by `Processor.MappingRun` and `Processor.MappingFailFast`. |
| `Processor.Hits` | transmission-restore.go:132-135 | The matched names are keys of the index. Every entry whose name is a key is among them. Each matched name is the name of some entry. |
| `Processor.BlocksLogged` | transmission-restore.go:136-137 | The events of the matched names log exactly those names, in order. |
| `Processor.BlocksRequests` | transmission-restore.go:138-148 | With dry run, the events of the matched names contain no `TorrentAdd` call and one event per name. Without it, there is one call per name, and call `k` carries name `k`'s stored bytes, the remote directory and `paused = true`. |
| `Processor.BlocksPacedAndAnnounced` | transmission-restore.go:142-153 | In the events of the matched names, every submission is followed by exactly one wait and every wait follows a submission. Every submission follows the log record of an index key and carries that key's bytes. |
| `Processor.MappingRun` | transmission-restore.go:131-155 | A run that does not fail appends exactly the events of the matched entries, in listing order. Misses add nothing. A dry run never fails. |
| `Processor.MappingFailFast` | transmission-restore.go:144-151 | A failed run over a listing failed at one matched entry `k`, and only without dry run. The trace is the complete events of the matches before `k`, then `k`'s log record and its refused `TorrentAdd`, with no wait after it. The error is the client's error wrapped with `k`'s path. |
| `Processor.MatchSelectivity` | transmission-restore.go:132-137 | On success, the run only appends to the trace. Its log records name exactly the entries whose names are keys of the index, in listing order. |
| `Processor.SubmissionsFollowMatches` | transmission-restore.go:142-153 | Without dry run, on success: one submission per match, in listing order. Each carries the index's bytes for that name, the mapping's remote directory and `paused = true`. Each follows its log record and is followed by exactly one wait. |
| `Processor.DryRunSubmitsNothing` | transmission-restore.go:136-140 | With dry run, a readable directory never fails. The run appends one log record per match and makes no `TorrentAdd` call. |
| `Processor.ProcessMapping` | transmission-restore.go:130-156 | The outcome equals `Mapped`. An unreadable directory leaves the trace unchanged and returns its error. Success appends the matched entries' events. Failure is a refused submission at one matched entry, as in `MappingFailFast`. |
| `Restore.RunMappings` | transmission-restore.go:82-86 | The mapping loop of `main`, up to the first error. Its meaning is stated by `Restore.MappingsRun` and `Restore.MappingsFailFast`. |
| `Restore.Restored` | transmission-restore.go:74-86 | Indexing, then the mapping loop. Its meaning is stated by `Restore.MalformedFileAbortsRun` and `Restore.Restore`. |
| `Restore.MappingsRun` | transmission-restore.go:82-86 | A mapping loop that does not fail read every local directory and appended exactly the events of each mapping's matches, mapping by mapping in declaration order. |
| `Restore.AllBlocksPaced` | transmission-restore.go:142-153 | In the events of the whole loop, every submission is followed by exactly one wait and every wait follows a submission. |
| `Restore.AllBlocksLogged` | transmission-restore.go:82-86 | The log records of the whole loop are every mapping's matches, in declaration order. |
| `Restore.AllBlocksRequests` | transmission-restore.go:138-148 | Over the whole loop: no `TorrentAdd` call in a dry run. Otherwise there is one paused call per match, and it carries that name's stored bytes. |
| `Restore.MappingsFailFast` | transmission-restore.go:82-86 | A failed mapping loop stopped at one mapping `k`. All mappings before it completed. The trace ends with mapping `k`'s events, so later mappings ran nothing. The error is `k`'s error wrapped with `k`'s two sides. |
| `Restore.DryRunMappings` | transmission-restore.go:82-86 | With dry run and readable directories, the mapping loop never fails and makes no `TorrentAdd` call. Its log records are every mapping's matches, mapping by mapping in declaration order. |
| `Restore.MalformedFileAbortsRun` | transmission-restore.go:74-77 | One unreadable or undecodable torrent file, anywhere in the listing, makes the run fail before any event. The failure is at the first file that does not load, at or before that one. The error is that file's read or unmarshal error, wrapped with its path and then with the torrents directory. |
| `Restore.Restore` | transmission-restore.go:74-86 | The outcome equals `Restored`: index first, then the mappings in order, stopping at the first error. An indexing error gives an empty trace and the wrapped error. |
| `Scenario.OneMatchOneSubmission` | transmission-restore.go:74-86 | Files declaring "Movie1" and "Movie2", and a local directory holding "Movie1" and "Movie3", give exactly one log record, one submission of "Movie1"'s bytes to "/data/new" (paused) and one wait. |

## Left out

- Connecting to Transmission (`transmissionrpc.New` and its fatal error, transmission-restore.go:64-72). The model starts after the client exists.
- Flag registration and `flag.Parse` (transmission-restore.go:49-60). Only `Set`, the mapping flag's hook, is modelled. The flag package's reaction to a rejected value (exit) is not.
- `mappings.String` (transmission-restore.go:36). It returns the empty string and plays no part in the logic.
- Log text. The two summary lines of `main` (transmission-restore.go:79-80) are not modelled. The per-match record (transmission-restore.go:136-137) is the `Added` event with its four values, not its formatting. Errors are structured values, not message strings.
- Base64 encoding of the payload (transmission-restore.go:142). A `Request` carries the raw bytes that get encoded. Only the fact that the stored bytes are what is sent matters here.
- `time.Sleep` (transmission-restore.go:153). It is the `Waited` event carrying `-wait-secs`. Real time and the `Duration` multiplication (and its overflow) are not modelled.
- File-system access. `os.ReadDir` results are input listings. `os.ReadFile` of the joined path is the content stored in the entry. `filepath.Join` is a symbolic `Path` without cleaning. The file-name sorting `os.ReadDir` applies is not assumed: any order is allowed.
- Bencode decoding (transmission-restore.go:91-107, 121) is the `Decoder` parameter. Fields of `info` other than `Info.Name` carry no behaviour.
- The Transmission RPC call (transmission-restore.go:144-148) is the `Backend` parameter, which decides each call's reply. Its success result value is ignored, as in the source.
- Byte strings. Go strings are bytes, while entry names, paths and the `-mapping` value are Dafny `string`s here. Nothing is lost: the code only compares names for equality and looks for `;`, and `;` (byte 0x3B) never occurs inside a multi-byte UTF-8 sequence.
