/** The explorer's navigation state machine (`App` in `src/app.rs`).

    The state is the current directory and a stack of the names that
    backward navigation has stripped off it, most recent last. Forward
    navigation pops that stack and re-appends the name; opening a child
    directory discards it. The file operations consult the filesystem
    oracle and hand one foreign call to the operating system; they never
    touch the navigation state.
 */
module App {
  import opened Paths
  import opened FileSystem
  import opened Io

  datatype State = State(currentPath: Path, pathHistory: seq<Name>)

  /** The path as `fs::canonicalize` returns it: absolute, no `..`. */
  predicate Canonical(p: Path) {
    p.root && forall i :: 0 <= i < |p.segs| ==> p.segs[i] != ".."
  }

  /** The reversal of a sequence. */
  function Reverse<T>(xs: seq<T>): (r: seq<T>)
    ensures |r| == |xs|
    ensures forall i :: 0 <= i < |xs| ==> r[i] == xs[|xs| - 1 - i]
  {
    if |xs| == 0 then [] else [xs[|xs| - 1]] + Reverse(xs[..|xs| - 1])
  }

  /** How many components the path and the redo stack hold between them. */
  function Depth(s: State): nat {
    |s.currentPath.segs| + |s.pathHistory|
  }

  /** The deepest path reachable by navigating forward as far as possible:
      the current components followed by the redo stack read top first. */
  function Horizon(s: State): seq<string> {
    s.currentPath.segs + Reverse(s.pathHistory)
  }

  // ---------------------------------------------------------------------
  // Operations

  /** `App::default`, given the canonicalised start-up directory (the
      canonicalisation itself is I/O and happens outside the model). */
  function Init(cwd: Path): (s: State)
    requires Canonical(cwd)
    ensures s.currentPath.root && Parse(CurrentPath(s)) == cwd
    ensures Horizon(s) == cwd.segs
    ensures NavigateForward(s) == s
    ensures CanNavigateBack(s) <==> |cwd.segs| > 0
  {
    State(cwd, [])
  }

  /** `App::get_current_path`: the text shown in the path bar. */
  function CurrentPath(s: State): (t: string)
    ensures Parse(t) == s.currentPath
    ensures s.currentPath.root <==> |t| > 0 && t[0] == '/'
  {
    ParseRender(s.currentPath);
    Render(s.currentPath)
  }

  /** `navigate_back` only returns normally when the path has a final name;
      at a root, on an empty path or after `..` the `unwrap` panics. */
  predicate CanNavigateBack(s: State) {
    FileName(s.currentPath).Some?
  }

  /** `App::navigate_back`: move the final component onto the redo stack. */
  function NavigateBack(s: State): (r: State)
    requires CanNavigateBack(s)
    ensures |s.currentPath.segs| > 0
    ensures r.pathHistory == s.pathHistory + [s.currentPath.segs[|s.currentPath.segs| - 1]]
    ensures s.currentPath == Path(r.currentPath.root, r.currentPath.segs + [r.pathHistory[|r.pathHistory| - 1]])
    ensures Depth(r) == Depth(s)
  {
    State(Pop(s.currentPath), s.pathHistory + [FileName(s.currentPath).value])
  }

  /** `App::navigate_forward`: pop the redo stack and re-enter that name;
      with an empty stack nothing happens. */
  function NavigateForward(s: State): (r: State)
    ensures |s.pathHistory| == 0 ==> r == s
    ensures |s.pathHistory| > 0 ==>
      && s.pathHistory == r.pathHistory + [s.pathHistory[|s.pathHistory| - 1]]
      && r.currentPath == Path(s.currentPath.root, s.currentPath.segs + [s.pathHistory[|s.pathHistory| - 1]])
      && Depth(r) == Depth(s)
  {
    if |s.pathHistory| == 0 then s
    else
      var n := s.pathHistory[|s.pathHistory| - 1];
      PushName(s.currentPath, n);
      State(Push(s.currentPath, n), s.pathHistory[..|s.pathHistory| - 1])
  }

  /** `App::open_dir`: enter a child and discard the redo stack. The name is
      not validated: an absolute name replaces the path, a relative one
      appends all of its components. */
  function OpenDir(s: State, name: string): (r: State)
    ensures r.pathHistory == []
    ensures IsName(name) ==> r.currentPath == Path(s.currentPath.root, s.currentPath.segs + [name])
    ensures !(|name| > 0 && name[0] == '/') ==> Under(r.currentPath, s.currentPath)
    ensures |name| > 0 && name[0] == '/' ==> r.currentPath == Parse(name)
  {
    var p := Push(s.currentPath, name);
    if IsName(name) then PushName(s.currentPath, name); State(p, [])
    else
      assert (s.currentPath.segs + Components(name))[..|s.currentPath.segs|] == s.currentPath.segs;
      State(p, [])
  }

  /** `App::set_path`: jump to the typed path when it names a directory,
      otherwise ignore it. The redo stack survives either way. */
  function SetPath(s: State, fs: Fs, raw: string): (r: State)
    ensures r.pathHistory == s.pathHistory
    ensures IsDir(fs, raw) ==> r.currentPath == Parse(raw) && Parse(CurrentPath(r)) == Parse(raw)
    ensures !IsDir(fs, raw) ==> r == s
  {
    if IsDir(fs, raw) then State(Parse(raw), s.pathHistory) else s
  }

  /** `App::delete_file_or_dir`: a file gets `remove_file`, a directory
      `remove_dir_all`, anything else an `InvalidInput` error without any
      call to the OS. The navigation state is not touched. */
  function DeleteFileOrDir(s: State, fs: Fs, raw: string): (r: (State, Result<FsCall>))
    ensures r.0 == s
    ensures r.1 == Err(InvalidInput) <==> !IsFile(fs, raw) && !IsDir(fs, raw)
    ensures r.1.Ok? ==> !r.1.value.RenameCall? && r.1.value.target == Parse(raw)
    ensures r.1.Ok? ==> (r.1.value.RemoveFileCall? <==> IsFile(fs, raw))
    ensures r.1.Ok? ==> (r.1.value.RemoveDirAllCall? <==> IsDir(fs, raw))
  {
    var p := Parse(raw);
    if IsFile(fs, raw) then (s, Ok(RemoveFileCall(p)))
    else if IsDir(fs, raw) then (s, Ok(RemoveDirAllCall(p)))
    else (s, Err(InvalidInput))
  }

  /** `App::rename_file_or_dir`: the destination is the source's parent with
      `new_name` pushed onto it; the move itself is the OS's business. */
  function RenameFileOrDir(s: State, raw: string, newName: string): (r: (State, FsCall))
    ensures r.0 == s
    ensures r.1.RenameCall? && r.1.from == Parse(raw)
    ensures IsName(newName) ==> r.1.to == Path(r.1.from.root, Pop(r.1.from).segs + [newName])
    ensures IsName(newName) ==> Pop(r.1.to) == Pop(r.1.from) && FileName(r.1.to) == Some(newName)
    ensures |newName| > 0 && newName[0] == '/' ==> r.1.to == Parse(newName)
  {
    var from := Parse(raw);
    var to := Push(Pop(from), newName);
    assert IsName(newName) ==>
      && to == Path(from.root, Pop(from).segs + [newName])
      && Pop(to) == Pop(from)
      && FileName(to) == Some(newName)
    by {
      if IsName(newName) { PopPushName(Pop(from), newName); }
    }
    (s, RenameCall(from, to))
  }

  // ---------------------------------------------------------------------
  // Properties of navigation

  /** Going back and then forward returns to exactly the prior state. */
  lemma BackThenForward(s: State)
    requires CanNavigateBack(s)
    ensures NavigateForward(NavigateBack(s)) == s
  {
  }

  /** Going forward and then back returns to exactly the prior state: the
      re-entered component is always a name, so going back cannot panic. */
  lemma ForwardThenBack(s: State)
    requires |s.pathHistory| > 0
    ensures CanNavigateBack(NavigateForward(s))
    ensures NavigateBack(NavigateForward(s)) == s
  {
  }

  /** Backward navigation never changes how far forward one can go. */
  lemma BackKeepsHorizon(s: State)
    requires CanNavigateBack(s)
    ensures Horizon(NavigateBack(s)) == Horizon(s)
  {
  }

  /** Forward navigation never changes how far forward one can go. */
  lemma ForwardKeepsHorizon(s: State)
    ensures Horizon(NavigateForward(s)) == Horizon(s)
  {
    if |s.pathHistory| > 0 {
      ForwardThenBack(s);
      BackKeepsHorizon(NavigateForward(s));
    }
  }

  /** Opening a directory kills the redo branch: nothing lies beyond the
      new path, and a following forward navigation does nothing. */
  lemma OpenDirKillsRedo(s: State, name: string)
    ensures Horizon(OpenDir(s, name)) == OpenDir(s, name).currentPath.segs
    ensures NavigateForward(OpenDir(s, name)) == OpenDir(s, name)
  {
  }

  /** The last `k` components can be stepped back over when none is `..`. */
  predicate CanNavigateBackTimes(s: State, k: nat) {
    && k <= |s.currentPath.segs|
    && forall i :: |s.currentPath.segs| - k <= i < |s.currentPath.segs| ==> s.currentPath.segs[i] != ".."
  }

  /** `k` successive backward navigations. */
  function NavigateBackTimes(s: State, k: nat): (r: State)
    requires CanNavigateBackTimes(s, k)
    ensures r.currentPath == Path(s.currentPath.root, s.currentPath.segs[..|s.currentPath.segs| - k])
    ensures r.pathHistory == s.pathHistory + Reverse(s.currentPath.segs[|s.currentPath.segs| - k..])
  {
    if k == 0 then
      assert s.currentPath.segs[..|s.currentPath.segs|] == s.currentPath.segs;
      s
    else
      var u := NavigateBackTimes(s, k - 1);
      BackTimesStep(s, k, u);
      NavigateBack(u)
  }

  /** One more backward step strips the next component and stacks it. */
  lemma BackTimesStep(s: State, k: nat, u: State)
    requires 0 < k && CanNavigateBackTimes(s, k)
    requires u.currentPath == Path(s.currentPath.root, s.currentPath.segs[..|s.currentPath.segs| - (k - 1)])
    requires u.pathHistory == s.pathHistory + Reverse(s.currentPath.segs[|s.currentPath.segs| - (k - 1)..])
    ensures CanNavigateBack(u)
    ensures NavigateBack(u).currentPath == Path(s.currentPath.root, s.currentPath.segs[..|s.currentPath.segs| - k])
    ensures NavigateBack(u).pathHistory == s.pathHistory + Reverse(s.currentPath.segs[|s.currentPath.segs| - k..])
  {
  }

  /** `k` successive forward navigations (extra ones do nothing). */
  function NavigateForwardTimes(s: State, k: nat): (r: State)
    decreases k
    ensures r.currentPath.root == s.currentPath.root
    ensures Horizon(r) == Horizon(s)
    ensures k >= |s.pathHistory| ==> r.pathHistory == [] && r.currentPath.segs == Horizon(s)
    ensures k <= |s.pathHistory| ==> r.pathHistory == s.pathHistory[..|s.pathHistory| - k]
  {
    ForwardKeepsHorizon(s);
    if k == 0 then
      assert s.pathHistory[..|s.pathHistory|] == s.pathHistory;
      s
    else
      NavigateForwardTimes(NavigateForward(s), k - 1)
  }

  /** Any run of backward navigations is undone by as many forward ones:
      the redo stack is only ever consumed in matching pairs. */
  lemma {:induction false} BackForwardTimes(s: State, k: nat)
    requires CanNavigateBackTimes(s, k)
    ensures NavigateForwardTimes(NavigateBackTimes(s, k), k) == s
  {
    if k > 0 {
      var u := NavigateBackTimes(s, k - 1);
      BackThenForward(u);
      BackForwardTimes(s, k - 1);
    }
  }

  /** From a canonical directory every ancestor can be reached by going
      back, and any such run of backward steps can be replayed forward. */
  lemma {:induction false} CanonicalBackAnyDepth(s: State, k: nat)
    requires Canonical(s.currentPath) && k <= |s.currentPath.segs|
    ensures CanNavigateBackTimes(s, k)
    ensures NavigateBackTimes(s, k).currentPath.root
    ensures NavigateForwardTimes(NavigateBackTimes(s, k), k) == s
  {
    BackForwardTimes(s, k);
  }

  /** A worked example: from `/home/user`, open `docs`, go back, go
      forward. */
  lemma OpenBackForwardScenario()
    ensures var s0 := State(Parse("/home/user"), []);
            var s1 := OpenDir(s0, "docs");
            var s2 := NavigateBack(s1);
            var s3 := NavigateForward(s2);
            && CurrentPath(s1) == "/home/user/docs" && s1.pathHistory == []
            && CurrentPath(s2) == "/home/user" && s2.pathHistory == ["docs"]
            && s3 == s1
  {
    var home := Path(true, ["home", "user"]);
    assert Render(home) == "/home/user";
    ParseRender(home);
    var s1 := OpenDir(State(home, []), "docs");
    assert s1.currentPath == Path(true, ["home", "user", "docs"]);
    assert Render(s1.currentPath) == "/home/user/docs";
    var s2 := NavigateBack(s1);
    assert s2.currentPath == home;
    assert s2.pathHistory == ["docs"];
    BackThenForward(s1);
  }

  // ---------------------------------------------------------------------
  // Properties of the file operations

  /** When the OS carries out the removal `delete_file_or_dir` asks for,
      the target is afterwards neither a file nor a directory, and every key
      of the oracle outside its subtree keeps its entry. The frame is about
      keys: a second key that reaches the removed entry through a symlink or
      a `..` component is left standing, although the OS no longer resolves
      it. */
  lemma DeleteRemovesTarget(s: State, fs: Fs, raw: string)
    requires DeleteFileOrDir(s, fs, raw).1.Ok?
    ensures var fs' := AfterRemoval(fs, DeleteFileOrDir(s, fs, raw).1.value);
            && Metadata(fs', raw) == None
            && forall q :: q in fs && !Under(q, Parse(raw)) ==> q in fs' && fs'[q] == fs[q]
  {
  }

  /** A regular file addressed with a trailing separator is not deleted:
      the lookup fails, so the result is `InvalidInput`, while the plain
      spelling of the same path removes the file. */
  lemma DeleteTrailingSeparatorOnFile(s: State, fs: Fs, c: Name)
    requires Parse("/" + c) in fs && fs[Parse("/" + c)] == File
    ensures Parse("/" + c + "/") == Parse("/" + c)
    ensures DeleteFileOrDir(s, fs, "/" + c + "/").1 == Err(InvalidInput)
    ensures DeleteFileOrDir(s, fs, "/" + c).1 == Ok(RemoveFileCall(Parse("/" + c)))
  {
    TrailingSeparatorParse(c);
    var raw := "/" + c + "/";
    assert raw[|raw| - 1] == '/';
    FileSpelledAsDirectory(fs, raw);
    var plain := "/" + c;
    assert !EndsAsDirectory(plain) by {
      assert plain[|plain| - 1] == c[|c| - 1];
      assert c[|c| - 1] in c;
      if |c| > 1 {
        assert c[|c| - 2] in c;
      }
    }
  }

  /** Renaming within a directory and renaming back again names the
      original path. */
  lemma RenameBack(s: State, raw: string, newName: Name)
    requires FileName(Parse(raw)).Some?
    ensures var to := RenameFileOrDir(s, raw, newName).1.to;
            RenameFileOrDir(s, Render(to), FileName(Parse(raw)).value).1.to == Parse(raw)
  {
    var from := Parse(raw);
    var to := RenameFileOrDir(s, raw, newName).1.to;
    ParseRender(to);
    var back := RenameFileOrDir(s, Render(to), FileName(from).value).1.to;
    assert from.segs == Pop(from).segs + [from.segs[|from.segs| - 1]];
  }
}
