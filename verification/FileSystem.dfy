/** What the path cache can ask the operating system about: a finite table from
    normalised paths to what `lstat`, `stat` and `readlink` answer there. */
module FileSystems {
  import opened Options
  import opened PosixPath

  datatype Kind = Regular | Directory | Special | Symlink

  /** A stat record: the file type out of `st_mode`, and the other fields as one number. */
  datatype Stat = Stat(kind: Kind, fields: int)

  type PlainStat = s: Stat | s.kind != Symlink witness Stat(Regular, 0)

  /** A link carries its text and what `stat` finds by following it. */
  datatype Node =
    | Object(stat: PlainStat)
    | Link(fields: int, target: string, referent: Option<PlainStat>)

  datatype FileSystem = FileSystem(nodes: map<string, Node>)

  datatype OsError =
    | LoopedAt(file: string)         // ELOOP
    | NoSuchDirectory(start: string) // ENOENT
    | NotALink(file: string)         // EINVAL out of readlink

  datatype Result<+T, +E> = Ok(value: T) | Err(error: E)

  /** os.lstat; None is the error every caller here turns into False. */
  function Lstat(fs: FileSystem, p: string): Option<Stat> {
    if p !in fs.nodes then None
    else match fs.nodes[p]
      case Object(st) => Some(st)
      case Link(fields, _, _) => Some(Stat(Symlink, fields))
  }

  /** os.stat. */
  function StatAt(fs: FileSystem, p: string): Option<Stat> {
    if p !in fs.nodes then None
    else match fs.nodes[p]
      case Object(st) => Some(st)
      case Link(_, _, Some(st)) => Some(st)
      case Link(_, _, None) => None
  }

  predicate IsLink(fs: FileSystem, p: string) {
    Lstat(fs, NormPath(p)).Some? && Lstat(fs, NormPath(p)).value.kind == Symlink
  }

  predicate IsDir(fs: FileSystem, p: string) {
    StatAt(fs, NormPath(p)).Some? && StatAt(fs, NormPath(p)).value.kind == Directory
  }

  predicate IsFile(fs: FileSystem, p: string) {
    StatAt(fs, NormPath(p)).Some? && StatAt(fs, NormPath(p)).value.kind == Regular
  }

  /** os.readlink. A path that ends in a slash, `.` or `..` names what the link
      leads to, which is never a link. */
  function ReadLink(fs: FileSystem, p: string): Result<string, OsError> {
    var n := NormPath(p);
    if BaseName(p) in {"", ".", ".."} || n !in fs.nodes || !fs.nodes[n].Link? then Err(NotALink(p))
    else Ok(fs.nodes[n].target)
  }
}
