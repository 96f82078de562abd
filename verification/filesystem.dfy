/** The filesystem as the explorer sees it: an oracle that says, for each
    path, whether it is a regular file, a directory, or something that is
    neither (a FIFO, a socket, a device). A path absent from the map does
    not exist.

    The OS resolves the interior spellings `a//b`, `a/./b` and `a/b` alike,
    so the oracle is keyed by the parsed path. The spelling still matters at
    the end: a path written with a trailing `/` or `/.` must name a
    directory, so looking up such a spelling of a file fails (ENOTDIR), and
    the empty string names nothing (ENOENT). `Metadata` takes the raw string
    and applies both rules.
 */
module FileSystem {
  import opened Paths

  datatype Kind = File | Dir | Other

  type Fs = map<Path, Kind>

  /** The spelling ends in a separator or in `/.`, so the OS resolves it
      only as a directory. */
  predicate EndsAsDirectory(raw: string) {
    |raw| > 0 && (raw[|raw| - 1] == '/' || (|raw| >= 2 && raw[|raw| - 2..] == "/."))
  }

  /** `fs::metadata(raw)`: the kind of the entry, or `None` when the lookup
      fails. */
  function Metadata(fs: Fs, raw: string): Option<Kind> {
    var p := Parse(raw);
    if raw == "" || p !in fs then None
    else if EndsAsDirectory(raw) && fs[p] != Dir then None
    else Some(fs[p])
  }

  /** `App::is_file`: metadata succeeds and reports a regular file. A file
      spelled with a trailing `/` or `/.` is not one. */
  function IsFile(fs: Fs, raw: string): (b: bool)
    ensures b <==> raw != "" && Parse(raw) in fs && fs[Parse(raw)] == File && !EndsAsDirectory(raw)
  {
    Metadata(fs, raw) == Some(File)
  }

  /** `App::is_dir`: metadata succeeds and reports a directory, however the
      directory is spelled. */
  function IsDir(fs: Fs, raw: string): (b: bool)
    ensures b <==> raw != "" && Parse(raw) in fs && fs[Parse(raw)] == Dir
  {
    Metadata(fs, raw) == Some(Dir)
  }

  /** Whether a string names a directory depends only on the path it
      parses to (and on its not being empty): a trailing separator changes
      nothing for a directory. */
  lemma IsDirIgnoresSpelling(fs: Fs, a: string, b: string)
    requires a != "" && b != "" && Parse(a) == Parse(b)
    ensures IsDir(fs, a) <==> IsDir(fs, b)
  {
  }

  /** A file spelled with a trailing `/` or `/.` is neither a file nor a
      directory to the OS. */
  lemma FileSpelledAsDirectory(fs: Fs, raw: string)
    requires EndsAsDirectory(raw) && Parse(raw) in fs && fs[Parse(raw)] == File
    ensures !IsFile(fs, raw) && !IsDir(fs, raw)
  {
  }

  /** The state a successful `fs::remove_file(p)` leaves behind: `p` is
      gone and every other entry is as it was. */
  function RemoveFile(fs: Fs, p: Path): (fs': Fs)
    ensures p !in fs'
    ensures forall q :: q in fs' <==> q in fs && q != p
    ensures forall q :: q in fs' ==> fs'[q] == fs[q]
  {
    fs - {p}
  }

  /** The state a successful `fs::remove_dir_all(p)` leaves behind: `p` and
      everything beneath it are gone, everything else is as it was. */
  function RemoveDirAll(fs: Fs, p: Path): (fs': Fs)
    ensures forall q :: q in fs' <==> q in fs && !Under(q, p)
    ensures forall q :: q in fs' ==> fs'[q] == fs[q]
  {
    map q | q in fs && !Under(q, p) :: fs[q]
  }

  /** The foreign call an operation hands to the operating system. */
  datatype FsCall =
    | RemoveFileCall(target: Path)
    | RemoveDirAllCall(target: Path)
    | RenameCall(from: Path, to: Path)

  /** The state a removal call leaves behind when the OS reports success. */
  function AfterRemoval(fs: Fs, call: FsCall): Fs
    requires call.RemoveFileCall? || call.RemoveDirAllCall?
  {
    if call.RemoveFileCall? then RemoveFile(fs, call.target) else RemoveDirAll(fs, call.target)
  }

}
