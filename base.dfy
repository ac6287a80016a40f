/** Shared vocabulary of the restore tool: results, bytes, directory
    listings, the paths built from them and the errors the tool reports. */
module Base {

  datatype Option<+T> = None | Some(value: T)

  datatype Result<+T, +E> = Success(value: T) | Failure(error: E)

  newtype byte = b: int | 0 <= b < 256

  /** Error texts produced by collaborators the model does not look into:
      the operating system, the bencode library and the RPC client. */
  type IoError = string
  type DecodeError = string
  type RpcError = string

  /** One child of a directory as `os.ReadDir` reports it, together with
      what `os.ReadFile` returns for it. */
  datatype Entry = Entry(name: string, isDir: bool, content: Result<seq<byte>, IoError>)

  /** What `os.ReadDir` returns for a directory. */
  datatype Listing = Listed(entries: seq<Entry>) | Unreadable(cause: IoError)

  /** The file system seen by the tool: the listing of every directory path. */
  type FileSystem = string -> Listing

  /** `filepath.Join(dir, name)`, kept symbolic: the model never inspects a path,
      it only reports it. */
  datatype Path = Join(dir: string, name: string)

  /** Every error the tool can surface, with the wrapping the source applies. */
  datatype Error =
    | InvalidMapping(value: string)                             // a `-mapping` value without ';'
    | ReadDir(reason: IoError)                                  // `os.ReadDir` failed (returned unwrapped)
    | AtPath(path: Path, cause: Error)                          // a callback failed on the entry at `path`
    | ReadFile(reason: IoError)                                 // "read file: ..."
    | Unmarshal(reason: DecodeError)                            // "unmarshal torrent: ..."
    | Rpc(reason: RpcError)                                     // `TorrentAdd` failed (returned unwrapped)
    | ReadTorrents(dir: string, cause: Error)                   // fatal: indexing the torrents directory
    | MappingFailed(local: string, remote: string, cause: Error) // fatal: processing one mapping
}
