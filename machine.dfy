/**
 * The host machine as seen by the discovery code. Every filesystem and process
 * call the Go code makes is an oracle here: a total function the model consults
 * but never defines.
 */
module Machine {
  import opened Wrappers

  /** One entry of a directory listing, as `filepath.Walk` reports it. */
  datatype Entry = Entry(name: string, isDir: bool)

  datatype Host = Host(
    /** runtime.GOOS == "windows" */
    isWindows: bool,
    /** os.Stat(path) succeeds */
    stat: string -> bool,
    /** filepath.EvalSymlinks(path): the resolved path, or None on error */
    resolve: string -> Option<string>,
    /** os.Lstat(path): Some(whether it is a symbolic link), or None on error */
    lstat: string -> Option<bool>,
    /** os.Readlink(path) */
    readlink: string -> Option<string>,
    /** os.Open/os.ReadFile(path): the whole contents, or None on error */
    readFile: string -> Option<string>,
    /** the entries of a directory, in the lexical order filepath.Walk visits them */
    entries: string -> seq<Entry>,
    /** the combined output of `<binary> --version` when it exits successfully */
    versionOutput: string -> Option<string>)
}
