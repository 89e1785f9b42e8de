/** Slash-separated paths: filepath.Split, Clean, Join and Rel. */
module Paths {
  import opened Text

  // ----- Split at the last slash -----

  function LastSlash(p: string): (k: nat)
    ensures k <= |p|
  {
    if p == "" then 0
    else if p[|p| - 1] == '/' then |p|
    else LastSlash(p[..|p| - 1])
  }

  /** A relative path as filepath.Split returns it; Join puts the two parts back together. */
  datatype FilePath = FilePath(dir: string, name: string)

  function Dir(p: string): string { p[..LastSlash(p)] }

  function Base(p: string): string { p[LastSlash(p)..] }

  predicate IsDir(dir: string) {
    dir == "" || dir[|dir| - 1] == '/'
  }

  lemma {:induction false} LastSlashIsLast(p: string)
    ensures var k := LastSlash(p); '/' !in p[k..] && (k > 0 ==> p[k - 1] == '/')
  {
    if p != "" && p[|p| - 1] != '/' {
      var init := p[..|p| - 1];
      var k := LastSlash(init);
      LastSlashIsLast(init);
      assert p[k..] == init[k..] + [p[|p| - 1]];
    }
  }

  function SplitPath(p: string): FilePath { FilePath(Dir(p), Base(p)) }

  /** Directory and name make up the path; the name has no slash, the directory is empty or ends in one. */
  lemma SplitPathParts(p: string)
    ensures Dir(p) + Base(p) == p && IsDir(Dir(p)) && '/' !in Base(p)
  {
    LastSlashIsLast(p);
  }

  /** filepath.Split cuts where it should: it inverts concatenation of a directory and a name. */
  lemma {:induction false} SplitPathUnique(dir: string, name: string)
    requires IsDir(dir) && '/' !in name
    ensures SplitPath(dir + name) == FilePath(dir, name)
  {
    var p := dir + name;
    if name == "" {
      assert p == dir;
    } else {
      var n := |name| - 1;
      assert p[|p| - 1] == name[n];
      assert p[..|p| - 1] == dir + name[..n];
      SplitPathUnique(dir, name[..n]);
      assert LastSlash(dir + name[..n]) == |dir|;
    }
  }

  // ----- Clean -----

  predicate IsAbs(p: string) {
    p != "" && p[0] == '/'
  }

  /** The components left of `todo`, after those in `done`: empty ones and dots go, and a double dot takes the
      component before it, is dropped at the root, and stays at the front of a relative path. */
  function Resolve(rooted: bool, done: seq<string>, todo: seq<string>): seq<string>
    decreases |todo|
  {
    if todo == [] then done
    else
      var c, n := todo[0], |done|;
      if c == "" || c == "." then Resolve(rooted, done, todo[1..])
      else if c == ".." && n > 0 && done[n - 1] != ".." then Resolve(rooted, done[..n - 1], todo[1..])
      else if c == ".." && rooted then Resolve(rooted, done, todo[1..])
      else Resolve(rooted, done + [c], todo[1..])
  }

  /** The components of the cleaned path. */
  function Components(p: string): seq<string> {
    Resolve(IsAbs(p), [], Split(p, '/'))
  }

  function Show(rooted: bool, components: seq<string>): string {
    if rooted then "/" + Join(components, '/')
    else if components == [] then "."
    else Join(components, '/')
  }

  /** filepath.Clean. */
  function Clean(p: string): string {
    Show(IsAbs(p), Components(p))
  }

  /** filepath.Join, on elements that are not empty. */
  function JoinPath(base: string, rest: seq<string>): string {
    Clean(base + "/" + Join(rest, '/'))
  }

  /** filepath.Rel, for a target below the base. */
  function Rel(base: string, target: string): string
    requires Components(base) <= Components(target)
  {
    Join(Components(target)[|Components(base)|..], '/')
  }

  /** A path component that Clean keeps wherever it stands. */
  predicate Plain(c: string) {
    c != "" && '/' !in c && c != "." && c != ".."
  }

  /** What Clean leaves: plain components, and double dots only at the front of a relative path. */
  predicate Normal(rooted: bool, components: seq<string>) {
    forall i :: 0 <= i < |components| ==>
      Plain(components[i]) || (components[i] == ".." && !rooted && forall j :: 0 <= j < i ==> components[j] == "..")
  }

  lemma {:induction false} ResolveIsNormal(rooted: bool, done: seq<string>, todo: seq<string>)
    requires Normal(rooted, done) && forall c :: c in todo ==> '/' !in c
    ensures Normal(rooted, Resolve(rooted, done, todo))
    decreases |todo|
  {
    if todo == [] {
    } else {
      var c, n := todo[0], |done|;
      assert c in todo;
      if c == "" || c == "." {
        ResolveIsNormal(rooted, done, todo[1..]);
      } else if c == ".." && n > 0 && done[n - 1] != ".." {
        ResolveIsNormal(rooted, done[..n - 1], todo[1..]);
      } else if c == ".." && rooted {
        ResolveIsNormal(rooted, done, todo[1..]);
      } else {
        ResolveIsNormal(rooted, done + [c], todo[1..]);
      }
    }
  }

  lemma {:induction false} ResolveAppend(rooted: bool, done: seq<string>, a: seq<string>, b: seq<string>)
    ensures Resolve(rooted, done, a + b) == Resolve(rooted, Resolve(rooted, done, a), b)
    decreases |a|
  {
    if a == [] {
      assert a + b == b;
    } else {
      var c, n := a[0], |done|;
      assert (a + b)[1..] == a[1..] + b;
      if c == "" || c == "." {
        ResolveAppend(rooted, done, a[1..], b);
      } else if c == ".." && n > 0 && done[n - 1] != ".." {
        ResolveAppend(rooted, done[..n - 1], a[1..], b);
      } else if c == ".." && rooted {
        ResolveAppend(rooted, done, a[1..], b);
      } else {
        ResolveAppend(rooted, done + [c], a[1..], b);
      }
    }
  }

  /** Components in normal form are all kept. */
  lemma {:induction false} ResolveNormal(rooted: bool, done: seq<string>, todo: seq<string>)
    requires Normal(rooted, done + todo)
    ensures Resolve(rooted, done, todo) == done + todo
    decreases |todo|
  {
    if todo == [] {
      assert done + todo == done;
    } else {
      var n := |done|;
      assert (done + todo)[n] == todo[0];
      assert n > 0 ==> (done + todo)[n - 1] == done[n - 1];
      assert (done + [todo[0]]) + todo[1..] == done + todo;
      ResolveNormal(rooted, done + [todo[0]], todo[1..]);
    }
  }

  lemma NormalPlus(rooted: bool, root: seq<string>, plain: seq<string>)
    requires Normal(rooted, root) && forall c :: c in plain ==> Plain(c)
    ensures Normal(rooted, root + plain)
  {
    forall i | 0 <= i < |root + plain|
      ensures Plain((root + plain)[i])
              || ((root + plain)[i] == ".." && !rooted && forall j :: 0 <= j < i ==> (root + plain)[j] == "..")
    {
      if i < |root| {
        assert (root + plain)[i] == root[i];
        assert forall j :: 0 <= j < i ==> (root + plain)[j] == root[j];
      } else {
        assert (root + plain)[i] in plain;
      }
    }
  }

  lemma ComponentsAreNormal(p: string)
    ensures Normal(IsAbs(p), Components(p))
  {
    JoinSplit(p, '/');
    ResolveIsNormal(IsAbs(p), [], Split(p, '/'));
  }

  lemma SplitShown(rooted: bool, components: seq<string>)
    requires Normal(rooted, components) && components != []
    ensures IsAbs(Show(rooted, components)) == rooted
    ensures Split(Show(rooted, components), '/') == if rooted then [""] + components else components
  {
    var p := Show(rooted, components);
    forall c | c in components
      ensures '/' !in c && c != ""
    {
    }
    SplitJoin(components, '/');
    if rooted {
      assert p == "" + ['/'] + Join(components, '/');
      SplitHead("", '/', Join(components, '/'));
    } else {
      assert p[0] == components[0][0];
      assert components[0][0] in components[0];
    }
  }

  lemma ShownRoot()
    ensures Components("/") == [] && Components(".") == []
  {
    SplitHead("", '/', "");
    assert "" + ['/'] + "" == "/";
    assert [""] + [""] == ["", ""] && ["", ""][1..] == [""];
    SplitWhole(".", '/');
  }

  /** Showing components in normal form and reading them again gives them back, so Clean is idempotent. */
  lemma ComponentsOfShow(rooted: bool, components: seq<string>)
    requires Normal(rooted, components)
    ensures IsAbs(Show(rooted, components)) == rooted && Components(Show(rooted, components)) == components
  {
    if components == [] {
      ShownRoot();
    } else {
      SplitShown(rooted, components);
      ResolveNormal(rooted, [], components);
      assert [] + components == components;
      assert ([""] + components)[1..] == components;
    }
  }

  lemma {:induction false} SplitAppend(a: string, b: string, sep: char)
    ensures Split(a + [sep] + b, sep) == Split(a, sep) + Split(b, sep)
  {
    if a == "" {
      assert a + [sep] + b == [sep] + b;
      assert ([sep] + b)[1..] == b;
    } else {
      assert (a + [sep] + b)[1..] == a[1..] + [sep] + b;
      SplitAppend(a[1..], b, sep);
    }
  }

  /** Joining plain components to any path, absolute or not and cleaned or not, puts them below it: nothing in them
      can climb out. */
  lemma JoinPlain(base: string, rest: seq<string>)
    requires base != "" && rest != [] && forall c :: c in rest ==> Plain(c)
    ensures Components(JoinPath(base, rest)) == Components(base) + rest
    ensures IsAbs(JoinPath(base, rest)) == IsAbs(base) && JoinPath(base, rest) != ""
    ensures Clean(JoinPath(base, rest)) == JoinPath(base, rest)
  {
    var rooted, root, p := IsAbs(base), Components(base), base + "/" + Join(rest, '/');
    assert p == base + ['/'] + Join(rest, '/') && p[0] == base[0];
    SplitAppend(base, Join(rest, '/'), '/');
    SplitJoin(rest, '/');
    ResolveAppend(rooted, [], Split(base, '/'), rest);
    ComponentsAreNormal(base);
    NormalPlus(rooted, root, rest);
    ResolveNormal(rooted, root, rest);
    ComponentsOfShow(rooted, root + rest);
  }
}
