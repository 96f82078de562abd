/** A component-level model of Rust's `PathBuf` as the explorer uses it.

    A path is an optional root followed by a sequence of components. Parsing
    a string splits it at `/` and drops empty and `.` components (so `a//b/`
    and `a/./b` denote `a/b`), while `..` is kept as an ordinary component,
    as `Path::components` does on Unix (which, unlike this model, also keeps
    a leading `.` of a relative path). `push`, `pop` and
    `file_name` are defined on components, which is how the standard
    library defines them too.
 */
module Paths {

  datatype Option<+T> = None | Some(value: T)

  /** What `Path::components` can yield as a normal or parent component:
      never empty, never containing the separator, never `.`. */
  predicate IsComponent(s: string) {
    s != "" && '/' !in s && s != "."
  }

  type Component = s: string | IsComponent(s) witness "a"

  /** A component that `file_name` can return: anything but `..`. */
  predicate IsName(s: string) {
    IsComponent(s) && s != ".."
  }

  type Name = s: string | IsName(s) witness "a"

  /** `root` is true for an absolute path (one starting with `/`). */
  datatype Path = Path(root: bool, segs: seq<Component>)

  /** The index of the first separator in `s`, or `|s|` if there is none. */
  function SlashIndex(s: string): (i: nat)
    ensures i <= |s|
    ensures i < |s| ==> s[i] == '/'
    ensures forall k :: 0 <= k < i ==> s[k] != '/'
  {
    if |s| == 0 || s[0] == '/' then 0 else 1 + SlashIndex(s[1..])
  }

  /** The components of a path string, left to right. */
  function Components(s: string): seq<Component>
    decreases |s|
  {
    if |s| == 0 then []
    else
      var i := SlashIndex(s);
      var head := s[..i];
      var tail := if i < |s| then s[i + 1..] else "";
      assert '/' !in head by {
        forall k | 0 <= k < |head| ensures head[k] != '/' { assert head[k] == s[k]; }
      }
      (if head == "" || head == "." then [] else [head]) + Components(tail)
  }

  /** `PathBuf::from(s)` viewed through its components. */
  function Parse(s: string): Path {
    Path(|s| > 0 && s[0] == '/', Components(s))
  }

  /** Components separated by single slashes. */
  function Join(cs: seq<Component>): string {
    if |cs| == 0 then ""
    else if |cs| == 1 then cs[0]
    else cs[0] + "/" + Join(cs[1..])
  }

  /** The normalised text of a path, as `to_str` shows it. */
  function Render(p: Path): string {
    (if p.root then "/" else "") + Join(p.segs)
  }

  /** `PathBuf::push`: an absolute argument replaces the whole path, a
      relative one appends its components. */
  function Push(p: Path, s: string): Path {
    if |s| > 0 && s[0] == '/' then Parse(s) else Path(p.root, p.segs + Components(s))
  }

  /** `PathBuf::pop`: truncate to the parent, or do nothing when there is
      no parent (a bare root or an empty path). */
  function Pop(p: Path): (q: Path)
    ensures Under(p, q)
    ensures q == p <==> |p.segs| == 0
    ensures q != p ==> |q.segs| + 1 == |p.segs|
  {
    if |p.segs| == 0 then p else Path(p.root, p.segs[..|p.segs| - 1])
  }

  /** `Path::file_name`: the final component unless the path is a root,
      is empty, or ends in `..`. */
  function FileName(p: Path): (r: Option<Name>)
    ensures r.Some? <==> |p.segs| > 0 && p.segs[|p.segs| - 1] != ".."
    ensures r.Some? ==> Pop(p) != p && Push(Pop(p), r.value) == p
  {
    if |p.segs| > 0 && p.segs[|p.segs| - 1] != ".." then
      var n: Name := p.segs[|p.segs| - 1];
      PushName(Pop(p), n);
      assert Pop(p).segs + [n] == p.segs;
      Some(n)
    else None
  }

  /** `q` is `p` itself or lies somewhere beneath it. */
  predicate Under(q: Path, p: Path) {
    q.root == p.root && |p.segs| <= |q.segs| && q.segs[..|p.segs|] == p.segs
  }

  // ---------------------------------------------------------------------
  // Lemmas about parsing and rendering

  lemma {:induction false} SlashIndexAppend(a: string, b: string)
    requires '/' !in a
    ensures SlashIndex(a + b) == |a| + SlashIndex(b)
  {
    if |a| > 0 {
      assert (a + b)[0] == a[0];
      assert (a + b)[1..] == a[1..] + b;
      assert a[0] in a;
      assert forall c :: c in a[1..] ==> c in a;
      SlashIndexAppend(a[1..], b);
    } else {
      assert a + b == b;
    }
  }

  /** A single component parses to itself. */
  lemma ComponentsOfComponent(c: Component)
    ensures Components(c) == [c]
  {
    SlashIndexAppend(c, "");
    assert c + "" == c;
    assert c[..|c|] == c;
  }

  /** A leading separator contributes nothing but the root. */
  lemma ComponentsAfterRoot(s: string)
    ensures Components("/" + s) == Components(s)
  {
  }

  /** A component followed by a separator is split off whole. */
  lemma ComponentsStep(c: Component, rest: string)
    ensures Components(c + "/" + rest) == [c] + Components(rest)
  {
    var s := c + ("/" + rest);
    assert c + "/" + rest == s;
    SlashIndexAppend(c, "/" + rest);
    assert SlashIndex(s) == |c|;
    assert s[..|c|] == c;
    assert s[|c| + 1..] == rest;
  }

  lemma {:induction false} ComponentsOfJoin(cs: seq<Component>)
    ensures Components(Join(cs)) == cs
    decreases |cs|
  {
    if |cs| == 1 {
      ComponentsOfComponent(cs[0]);
    } else if |cs| > 1 {
      ComponentsStep(cs[0], Join(cs[1..]));
      ComponentsOfJoin(cs[1..]);
      assert cs == [cs[0]] + cs[1..];
    }
  }

  lemma JoinStartsWithFirst(cs: seq<Component>)
    requires |cs| > 0
    ensures |Join(cs)| > 0 && Join(cs)[0] == cs[0][0]
  {
  }

  /** Rendering a path and parsing the text back yields the same path: the
      string shown in the path bar denotes the current directory exactly. */
  lemma ParseRender(p: Path)
    ensures Parse(Render(p)) == p
  {
    var t := Render(p);
    if p.root {
      assert t == "/" + Join(p.segs);
      ComponentsAfterRoot(Join(p.segs));
    } else {
      assert t == Join(p.segs);
      if |p.segs| > 0 {
        JoinStartsWithFirst(p.segs);
        assert p.segs[0][0] != '/' by { assert p.segs[0][0] in p.segs[0]; }
      }
    }
    ComponentsOfJoin(p.segs);
  }

  /** Parsing normalises: re-rendering a parsed string and parsing it again
      changes nothing, so every spelling of a path has one canonical text. */
  lemma ParseNormalises(s: string)
    ensures Parse(Render(Parse(s))) == Parse(s)
  {
    ParseRender(Parse(s));
  }

  /** A trailing separator does not change the parsed path. */
  lemma TrailingSeparatorParse(c: Component)
    ensures Parse("/" + c + "/") == Parse("/" + c) == Path(true, [c])
  {
    assert "/" + c + "/" == "/" + (c + "/" + "");
    ComponentsAfterRoot(c + "/" + "");
    ComponentsStep(c, "");
    ComponentsAfterRoot(c);
    ComponentsOfComponent(c);
  }

  /** Pushing a single file name appends exactly that component. */
  lemma PushName(p: Path, n: Name)
    ensures Push(p, n) == Path(p.root, p.segs + [n])
  {
    ComponentsOfComponent(n);
    assert n[0] in n;
  }

  /** Pushing a name and popping it again is the identity. */
  lemma PopPushName(p: Path, n: Name)
    ensures Push(p, n) == Path(p.root, p.segs + [n])
    ensures Pop(Push(p, n)) == p
    ensures FileName(Push(p, n)) == Some(n)
  {
    PushName(p, n);
    assert (p.segs + [n])[..|p.segs|] == p.segs;
  }
}
