/** Pure POSIX paths as pathlib reads them: a path is split on '/', and
    empty and "." components are dropped (pathlib collapses "a//b" and
    "a/./b"). The leading root, if any, is not a component. */
module Paths {
  import opened Strings

  /** The '/'-separated fields that pathlib keeps as components. */
  function KeepComponents(parts: seq<string>): (r: seq<string>)
    ensures forall k :: 0 <= k < |r| ==> r[k] != "" && r[k] != "." && r[k] in parts
  {
    if parts == [] then []
    else if parts[0] == "" || parts[0] == "." then KeepComponents(parts[1..])
    else [parts[0]] + KeepComponents(parts[1..])
  }

  lemma {:induction false} KeepComponentsAppend(a: seq<string>, b: seq<string>)
    ensures KeepComponents(a + b) == KeepComponents(a) + KeepComponents(b)
  {
    if a == [] {
      assert a + b == b;
    } else {
      assert (a + b)[1..] == a[1..] + b;
      KeepComponentsAppend(a[1..], b);
    }
  }

  /** The path's components, without the root. */
  function Components(p: string): (cs: seq<string>)
    ensures forall k :: 0 <= k < |cs| ==> cs[k] != "" && cs[k] != "." && '/' !in cs[k]
  {
    KeepComponents(Split(p, '/'))
  }

  /** Path(p).name: the final component, "" when there is none. */
  function Name(p: string): (n: string)
    ensures '/' !in n
  {
    var cs := Components(p);
    if cs == [] then "" else cs[|cs| - 1]
  }

  /** Path(p).parent.name: the component before the final one, "" when there is none. */
  function ParentName(p: string): (n: string)
    ensures '/' !in n && n != "."
  {
    var cs := Components(p);
    if |cs| < 2 then "" else cs[|cs| - 2]
  }

  /** Path(p).stem for a file name: the name without its final suffix. A
      suffix starts at the last '.', which must be neither the first nor the
      last character of the name. */
  function Stem(name: string): (stem: string)
    ensures stem <= name
    ensures stem != name ==>
      0 < |stem| && |stem| + 1 < |name| && name[|stem|] == '.' && '.' !in name[|stem| + 1..]
    ensures forall i :: 0 < i < |name| - 1 && name[i] == '.' && '.' !in name[i + 1..] ==> stem == name[..i]
  {
    var i := LastIndexOf(name, '.');
    if 0 < i < |name| - 1 then name[..i] else name
  }

  /** The components of a '/'-join of separator-free fields are its kept fields. */
  lemma ComponentsOfJoin(parts: seq<string>)
    requires |parts| >= 1
    requires forall k :: 0 <= k < |parts| ==> '/' !in parts[k]
    ensures Components(JoinWith(parts, '/')) == KeepComponents(parts)
  {
    SplitJoin(parts, '/');
  }

  /** The path starts at the root. */
  predicate IsAbsolute(p: string) {
    p != [] && p[0] == '/'
  }

  /** The components joined by single '/'s. */
  function JoinComponents(cs: seq<string>): string {
    if cs == [] then "" else JoinWith(cs, '/')
  }

  /** str(PurePosixPath(p)): the root, if any, then the components joined by
      '/'; "." for an empty relative path. */
  function Render(p: string): (s: string)
    ensures IsAbsolute(s) <==> IsAbsolute(p)
    ensures s != ""
  {
    var cs := Components(p);
    if IsAbsolute(p) then "/" + JoinComponents(cs)
    else if cs == [] then "."
    else
      assert cs[0] != "" && cs[0] != ".";
      assert '/' !in cs[0];
      JoinComponents(cs)
  }

  /** PurePosixPath(root) / p before rendering: an absolute p replaces the
      root, and an empty root (which reads as ".") adds nothing. */
  function JoinPath(root: string, p: string): (j: string)
    ensures IsAbsolute(p) || root == "" ==> j == p
  {
    if IsAbsolute(p) || root == "" then p else root + "/" + p
  }

  /** str(PurePosixPath(root) / p): absolute exactly when the root or p is;
      for a relative p the root's components followed by p's, and for an
      absolute p, which replaces the root, p's components. */
  function JoinUnder(root: string, p: string): (j: string)
    ensures IsAbsolute(j) <==> IsAbsolute(root) || IsAbsolute(p)
    ensures !IsAbsolute(p) ==> Components(j) == Components(root) + Components(p)
    ensures IsAbsolute(p) ==> Components(j) == Components(p)
  {
    ComponentsOfRender(JoinPath(root, p));
    ComponentsOfConcat(root, p);
    assert Split("", '/') == [""];
    Render(JoinPath(root, p))
  }

  /** Components that are already clean are all kept. */
  lemma {:induction false} KeepCleanComponents(cs: seq<string>)
    requires forall k :: 0 <= k < |cs| ==> cs[k] != "" && cs[k] != "."
    ensures KeepComponents(cs) == cs
  {
    if cs != [] {
      KeepCleanComponents(cs[1..]);
    }
  }

  /** The components of a joined component list are that list. */
  lemma ComponentsOfJoinComponents(cs: seq<string>)
    requires forall k :: 0 <= k < |cs| ==> cs[k] != "" && cs[k] != "." && '/' !in cs[k]
    ensures Components(JoinComponents(cs)) == cs
  {
    if cs != [] {
      ComponentsOfJoin(cs);
      KeepCleanComponents(cs);
    }
  }

  /** A '/' between two paths separates their components. */
  lemma ComponentsOfConcat(a: string, b: string)
    ensures Components(a + "/" + b) == Components(a) + Components(b)
  {
    SplitConcat(a, b, '/');
    KeepComponentsAppend(Split(a, '/'), Split(b, '/'));
  }

  /** Rendering keeps the components of a path. */
  lemma ComponentsOfRender(p: string)
    ensures Components(Render(p)) == Components(p)
  {
    var cs := Components(p);
    ComponentsOfJoinComponents(cs);
    if IsAbsolute(p) {
      ComponentsOfConcat("", JoinComponents(cs));
      assert "" + "/" + JoinComponents(cs) == "/" + JoinComponents(cs);
    } else if cs == [] {
      assert "."[1..] == "" && "."[0] == '.';
      assert Split("", '/') == [""];
      assert Split(".", '/') == [['.'] + ""];
      assert ['.'] + "" == ".";
    }
  }

  /** Rendering a rendered path changes nothing. */
  lemma RenderIdempotent(p: string)
    ensures Render(Render(p)) == Render(p)
  {
    ComponentsOfRender(p);
  }

  /** Under an absolute root, joining a second time changes nothing. */
  lemma JoinUnderIdempotent(root: string, p: string)
    requires IsAbsolute(root)
    ensures JoinUnder(root, JoinUnder(root, p)) == JoinUnder(root, p)
  {
    RenderIdempotent(JoinPath(root, p));
  }
}

