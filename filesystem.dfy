/**
 * The file system as the plugins see it: directory listings, file contents
 * and modification times, each lookup either succeeding or failing the way
 * `fs.readdir`, `fs.stat`, `fs.readFile` and `Bun.file` fail (a missing path
 * or some other error).
 */
module FileSystem {
  import opened Wrappers

  /** The outcome of reading a file: ENOENT, another error, or its text. */
  datatype ReadResult = NotFound | ReadFailed | Contents(text: string)

  /** A directory entry as `readdir(..., { withFileTypes: true })` reports it. */
  datatype Entry = Entry(name: string, isFile: bool)

  /** The outcome of listing a directory: ENOENT, another error, or its entries. */
  datatype Listing = NoDir | ListFailed | Entries(entries: seq<Entry>)

  datatype Fs = Fs(dirs: map<string, Listing>, files: map<string, ReadResult>, mtimes: map<string, nat>)

  function ReadDir(fs: Fs, dir: string): Listing {
    if dir in fs.dirs then fs.dirs[dir] else NoDir
  }

  function ReadFile(fs: Fs, path: string): ReadResult {
    if path in fs.files then fs.files[path] else NotFound
  }

  /** `fs.stat(path).mtimeMs`, or None when stat fails */
  function Stat(fs: Fs, path: string): Option<nat> {
    if path in fs.mtimes then Some(fs.mtimes[path]) else None
  }

  /** `path.join(dir, name)` for a directory and a plain file name */
  function PathJoin(dir: string, name: string): string {
    dir + "/" + name
  }
}
