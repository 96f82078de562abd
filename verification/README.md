# rs-file-explorer navigation core, in Dafny

A model of `App`, the navigation and file-operation engine of a small desktop
directory browser. `App` holds the current directory and a stack of directory
names that backward navigation has stripped off it (the redo stack). The
operations are `navigate_back`, `navigate_forward`, `open_dir`, `set_path`,
`get_current_path`, `delete_file_or_dir` and `rename_file_or_dir`.

Files:

- `paths.dfy` (module `Paths`): Rust's `PathBuf` seen through its components.
  It covers parsing a string into components (`Parse`) and rendering the
  normalised text back (`Render`). It also covers `push`, `pop` and
  `file_name`, with the round trip between parsing and rendering proved.
- `filesystem.dfy` (module `FileSystem`): the filesystem as an oracle, a map
  from path to `File | Dir | Other`; a path missing from the map does not
  exist. `Metadata` looks a raw string up the way the OS does. A trailing
  `/` or `/.` only resolves to a directory, and the empty string resolves to
  nothing. The module also has the foreign calls the engine issues and the
  state a successful removal leaves behind.
- `io.dfy` (module `Io`): `io::ErrorKind` and `io::Result`.
- `app.dfy` (module `App`): the state, the operations as pure transition
  functions, and the navigation properties. These are the back/forward round
  trips, conservation of depth and of the reachable "horizon", redo
  invalidation, and multi-step back/forward replay.

Behaviour of the code worth noting:

- At a root, or on a path ending in `..`, `navigate_back` panics on an
  `unwrap`. The model makes this a precondition (`CanNavigateBack`).
- `set_path` checks `is_dir` and then stores the path. It does not
  canonicalise the path, and it keeps the redo stack, so the old redo stack
  stays active.
- `delete_file_or_dir` reports `InvalidInput` for a missing path. It also
  reports `InvalidInput` for a path that exists but is neither a regular file
  nor a directory (a FIFO, a socket, a device). It does the same for a regular
  file written with a trailing separator, such as `/a.txt/`.
- `rename_file_or_dir` makes no decision of its own. Every error, and the
  behaviour when the destination already exists, comes from `fs::rename`.
- The GUI adds one icon per directory entry, and its navigation buttons only
  print.

## Model

| member | source | states |
|---|---|---|
| `App.Init` | src/app.rs:12-20 | Start-up begins in the canonical working directory, an absolute path whose path-bar text parses back to it, with an empty redo stack. Going forward does nothing there. Going back is possible exactly when the directory is not the root. |
| `App.CurrentPath` | src/app.rs:28-30 | The path-bar text parses back to exactly the current path. It starts with `/` exactly when the path is absolute. |
| `App.NavigateBack` | src/app.rs:32-47 | Defined only when the path has a final name; otherwise the source panics. The final component goes onto the top of the redo stack. The new path plus that component is the old path. Total depth is kept. |
| `App.NavigateForward` | src/app.rs:49-55 | With an empty redo stack nothing changes. Otherwise the top name is popped and appended as one component, and total depth is kept. |
| `App.OpenDir` | src/app.rs:57-63 | Always empties the redo stack. A plain name appends exactly one component. Any relative argument keeps the old path as a prefix. An absolute argument replaces the path. |
| `App.SetPath` | src/app.rs:65-69 | If the oracle says the typed path is a directory, the current path becomes that path, and the path bar then shows a spelling of it; otherwise the state is unchanged. The redo stack is kept in both cases. |
| `App.DeleteFileOrDir` | src/app.rs:71-82 | Navigation state is unchanged. The result is `InvalidInput` exactly when the metadata lookup of the string as written reports neither a file nor a directory. A file gets `remove_file` and a directory gets `remove_dir_all`, each on that path. |
| `App.RenameFileOrDir` | src/app.rs:84-90 | Navigation state is unchanged. With a plain new name, the destination has the same parent as the source and final name `new_name`. An absolute new name is the destination itself. |
| `App.BackThenForward` | src/app.rs:32-55 | Going back and then forward restores the exact prior path and redo stack. |
| `App.ForwardThenBack` | src/app.rs:32-55 | With a non-empty redo stack, going forward and then back cannot panic and restores the exact prior state. |
| `App.BackKeepsHorizon` | src/app.rs:44-46 | Going back leaves the path plus the reversed redo stack unchanged: one component moves between the two. |
| `App.ForwardKeepsHorizon` | src/app.rs:50-54 | Going forward leaves the path plus the reversed redo stack unchanged. |
| `App.OpenDirKillsRedo` | src/app.rs:58-63 | After opening a directory nothing lies beyond the current path, and a following forward navigation is a no-op. |
| `App.NavigateBackTimes` | src/app.rs:32-47 | k backward steps strip the last k components and stack them in reverse order on top of the old redo stack. |
| `App.NavigateForwardTimes` | src/app.rs:49-55 | k forward steps keep the root and the horizon and consume k redo entries. Going beyond the stack ends at the full horizon with an empty stack. |
| `App.BackForwardTimes` | src/app.rs:32-55 | Any run of k backward steps is undone exactly by k forward steps. |
| `App.CanonicalBackAnyDepth` | src/app.rs:14-47 | From a canonical directory, any number of backward steps up to its depth is possible, and the same number of forward steps replays it. |
| `App.OpenBackForwardScenario` | src/app.rs:32-63 | From `/home/user`: opening `docs`, going back and going forward passes through `/home/user/docs` (stack empty), then `/home/user` (stack `["docs"]`), then `/home/user/docs` again. |
| `App.DeleteRemovesTarget` | src/app.rs:71-82 | Once the requested removal succeeds, looking the same string up again fails, and every key of the oracle outside the removed subtree keeps its entry. |
| `App.DeleteTrailingSeparatorOnFile` | src/app.rs:71-98 | For a regular file `/c`, deleting `/c/` yields `InvalidInput` and deletes nothing, even though both spellings parse to the same path. Deleting `/c` asks for `remove_file`. |
| `App.RenameBack` | src/app.rs:84-90 | Renaming to a new name and then renaming the result back to the old name targets the original path. |
| `FileSystem.IsFile` | src/app.rs:92-94 | True exactly when the string is non-empty, its parsed path exists and is a regular file, and it does not end in `/` or `/.`. |
| `FileSystem.IsDir` | src/app.rs:96-98 | True exactly when the string is non-empty and its parsed path exists and is a directory, whatever the trailing spelling. |
| `FileSystem.FileSpelledAsDirectory` | src/app.rs:92-98 | A regular file looked up with a trailing `/` or `/.` is neither a file nor a directory for `is_file` and `is_dir`. |
| `FileSystem.IsDirIgnoresSpelling` | src/app.rs:96-98 | Two non-empty spellings of the same parsed path agree on `is_dir`. |
| `Paths.FileName` | src/app.rs:34-40 | `file_name` yields a name exactly when the path has a final component other than `..`. In that case the path has a parent, and pushing the name onto that parent gives back the path. |
| `Paths.Pop` | src/app.rs:46 | The path lies under the result of `pop`. `pop` changes the path exactly when it has a component, and then it removes exactly one. |
| `Paths.PopPushName` | src/app.rs:86-87 | Pushing a name and then popping it is the identity, and the pushed name becomes the file name. |
| `Paths.ParseRender` | src/app.rs:28-30 | Parsing the rendered text of any path gives back that path. |
| `Paths.ParseNormalises` | src/app.rs:67 | Every spelling of a path parses to the same path as its normalised rendering. |

## Left out

- `get_current_dir_contents` (`read_dir`) is foreign I/O and is not modelled. So are the listing built on it and the GUI.
- `src/gui.rs` (egui panels, image loading, pixel scaling, the lazy initialisation flag) and `src/main.rs` (`eframe::run_native`) are UI plumbing over a library outside this model.
- `fs::canonicalize` at start-up is I/O. `App.Init` takes its result as a parameter that must be canonical. The `expect` on failure is not modelled.
- `App.DeleteFileOrDir`: the OS calls `remove_file` and `remove_dir_all` are returned as `FsCall` values, not performed. Their own failures (permissions, a race with another process) are the OS's business. Only the state after a successful call is stated.
- `App.RenameFileOrDir`: only the destination is computed. What `fs::rename` does to the filesystem, including overwriting an existing file, is not modelled.
- `App.CurrentPath` shows the normalised spelling of the path. Rust's `to_str` shows the string as `set_path` stored it, including doubled separators and `.` components. The `None` that `to_str` returns for non-UTF-8 names is not modelled, because names here are Unicode strings.
- `Paths.Parse` drops a leading `.` component of a relative path, which Rust keeps as `CurDir`. Windows drive prefixes are not modelled either.
- `FileSystem.Fs`: the oracle is keyed by parsed paths. `Metadata` adds the two spelling rules the OS applies at the end of a string: a trailing `/` or `/.` requires a directory, and the empty string fails. Symlink resolution and `..` handling are left to the oracle, so two spellings that the OS resolves to the same entry may be two keys.
- `App.DeleteRemovesTarget`: the frame holds key by key. A second key for the removed entry, through a symlink or a `..` component (for example `/l` linking to `/d/f`, or `/c/../d/f`), keeps its entry in the model, although the OS no longer resolves it after the removal. The oracle has no notion of aliasing, so the model cannot say which keys go stale.
- `FileSystem.RemoveFile` and `FileSystem.RemoveDirAll` are definitions of what a successful OS call leaves behind, not properties proved of the source.
- The `dbg!` print in `navigate_forward` is a debugging side effect with no effect on state.
