/** The parent directories of a path, and the paths for which listing them ends. */
module ParentPaths {
  import opened Results

  /** The length of the part up to and including the last slash. */
  function HeadLength(p: string): (r: nat)
    ensures r <= |p| && (r > 0 ==> p[r - 1] == '/') && forall i :: r <= i < |p| ==> p[i] != '/'
  {
    if p == [] then 0 else if p[|p| - 1] == '/' then |p| else HeadLength(p[..|p| - 1])
  }

  predicate AllSlashes(p: string) {
    forall i :: 0 <= i < |p| ==> p[i] == '/'
  }

  /** Without the slashes at the end. */
  function Strip(p: string): (r: string)
    ensures r <= p && (r == [] || r[|r| - 1] != '/') && forall i :: |r| <= i < |p| ==> p[i] == '/'
  {
    if p == [] || p[|p| - 1] != '/' then p else Strip(p[..|p| - 1])
  }

  /** POSIX `dirname` */
  function Dirname(p: string): string {
    var head := p[..HeadLength(p)];
    if AllSlashes(head) then head else Strip(head)
  }

  function Iterate(p: string, n: nat): string {
    if n == 0 then p else Dirname(Iterate(p, n - 1))
  }

  /** The path starts with a slash, and with only one. */
  predicate SingleRooted(p: string) {
    |p| >= 1 && p[0] == '/' && (|p| >= 2 ==> p[1] != '/')
  }

  /** The parent ends before the last run of slashes, unless that is the first slash. */
  lemma DirnameForm(p: string) returns (n: nat)
    requires SingleRooted(p) && p != "/"
    ensures 1 <= n <= |p| && forall i :: n <= i < |p| ==> p[i] != '/'
    ensures n == 1 ==> Dirname(p) == "/"
    ensures n > 1 ==> var d := |Dirname(p)|;
              && 2 <= d < n && Dirname(p) == p[..d] && p[d - 1] != '/' && forall i :: d <= i < n ==> p[i] == '/'
  {
    n := HeadLength(p);
    var head := p[..n];
    if n > 1 {
      assert head[1] == p[1];
      assert head[n - 1] == p[n - 1];
    }
  }

  lemma DirnameShorter(p: string)
    requires SingleRooted(p) && p != "/"
    ensures SingleRooted(Dirname(p)) && Dirname(p) < p
  {
    var n := DirnameForm(p);
  }

  lemma DirnameUnrooted(p: string)
    requires !SingleRooted(p)
    ensures !SingleRooted(Dirname(p))
  {
    var n := HeadLength(p);
    var head := p[..n];
    if n > 0 {
      assert head[0] == p[0];
      if p[0] == '/' {
        assert p[1] == '/';
        assert n > 1 && head[1] == '/';
      }
    }
  }

  lemma {:induction false} UnrootedForever(p: string, n: nat)
    requires !SingleRooted(p)
    ensures !SingleRooted(Iterate(p, n))
  {
    if n != 0 {
      UnrootedForever(p, n - 1);
      DirnameUnrooted(Iterate(p, n - 1));
    }
  }

  lemma {:induction false} IterateInside(p: string, n: nat)
    ensures Iterate(p, n + 1) == Iterate(Dirname(p), n)
  {
    if n != 0 {
      IterateInside(p, n - 1);
    }
  }

  lemma {:induction false} RootReached(p: string) returns (n: nat)
    requires SingleRooted(p)
    ensures Iterate(p, n) == "/"
    decreases |p|
  {
    if p == "/" {
      n := 0;
    } else {
      DirnameShorter(p);
      n := RootReached(Dirname(p));
      IterateInside(p, n);
      n := n + 1;
    }
  }

  /** The loop ends exactly on the paths that start with one slash: taking parents of others never reaches the root. */
  lemma EndsExactly(p: string)
    ensures (exists n: nat :: Iterate(p, n) == "/") <==> SingleRooted(p)
  {
    if SingleRooted(p) {
      var n := RootReached(p);
    } else {
      forall n: nat ensures Iterate(p, n) != "/" {
        UnrootedForever(p, n);
      }
    }
  }

  /** All parents, bottom-up. */
  function Parents(p: string): seq<string>
    requires SingleRooted(p)
    decreases |p|
  {
    if p == "/" then []
    else
      DirnameShorter(p);
      [Dirname(p)] + Parents(Dirname(p))
  }

  /** A proper ancestor: the root, or a prefix that ends before a run of slashes. */
  predicate IsAncestor(a: string, p: string) {
    && p != "/"
    && (a == "/" || exists i :: 0 < i < |p| && p[i] == '/' && p[i - 1] != '/' && a == p[..i])
  }

  /** The parent is an ancestor, and the other ancestors are ancestors of the parent. */
  lemma AncestorStep(a: string, p: string)
    requires SingleRooted(p) && p != "/"
    ensures IsAncestor(a, p) <==> a == Dirname(p) || IsAncestor(a, Dirname(p))
  {
    hide Dirname;
    var n := DirnameForm(p);
    var d := Dirname(p);
    if n > 1 {
      assert forall i :: 0 <= i < |d| ==> d[i] == p[i] && d[..i] == p[..i];
      assert IsAncestor(d, p);
      if IsAncestor(a, p) && a != "/" {
        var i :| 0 < i < |p| && p[i] == '/' && p[i - 1] != '/' && a == p[..i];
        assert i <= |d|;
      }
    }
  }

  /** The parents are precisely the proper ancestors. */
  lemma {:induction false} ParentsAreAncestors(p: string, a: string)
    requires SingleRooted(p)
    ensures a in Parents(p) <==> IsAncestor(a, p)
    decreases |p|
  {
    if p != "/" {
      DirnameShorter(p);
      AncestorStep(a, p);
      ParentsAreAncestors(Dirname(p), a);
    }
  }

  /** Each parent is a strict prefix of the one before it, the first of the path itself. */
  lemma {:induction false} ParentsShrink(p: string)
    requires SingleRooted(p)
    ensures Parents(p) != [] ==> Parents(p)[0] < p
    ensures forall i :: 0 <= i < |Parents(p)| - 1 ==> Parents(p)[i + 1] < Parents(p)[i]
    decreases |p|
  {
    if p != "/" {
      DirnameShorter(p);
      ParentsShrink(Dirname(p));
    }
  }

  function Without(paths: seq<string>, excluded: seq<string>): seq<string> {
    if paths == [] then []
    else (if paths[0] in excluded then [] else [paths[0]]) + Without(paths[1..], excluded)
  }

  /** What is excluded: the root unless the caller names something. */
  function Excluded(exclude: Option<seq<string>>): seq<string> {
    match exclude
    case Some(e) => if e == [] then ["/"] else e
    case None => ["/"]
  }

  method GetParentPaths(path: string, exclude: Option<seq<string>>) returns (paths: seq<string>)
    requires SingleRooted(path)
    ensures paths == Without(Parents(path), Excluded(exclude))
  {
    hide Dirname, SingleRooted, Parents, Without;
    var excluded := Excluded(exclude);
    paths := [];
    var p := path;
    while p != "/"
      invariant SingleRooted(p)
      invariant paths + Without(Parents(p), excluded) == Without(Parents(path), excluded)
      decreases |p|
    {
      DirnameShorter(p);
      ParentsStep(p, excluded);
      p := Dirname(p);
      if p !in excluded {
        paths := paths + [p];
      }
    }
    NoParents(excluded);
  }

  lemma ParentsStep(p: string, excluded: seq<string>)
    requires SingleRooted(p) && p != "/" && SingleRooted(Dirname(p))
    ensures Without(Parents(p), excluded)
         == if Dirname(p) in excluded then Without(Parents(Dirname(p)), excluded)
             else [Dirname(p)] + Without(Parents(Dirname(p)), excluded)
  {
    hide Dirname;
  }

  lemma NoParents(excluded: seq<string>)
    ensures SingleRooted("/") && Without(Parents("/"), excluded) == []
  {
  }

  lemma {:induction false} WithoutMembers(paths: seq<string>, excluded: seq<string>, a: string)
    ensures a in Without(paths, excluded) <==> a in paths && a !in excluded
  {
    if paths != [] {
      WithoutMembers(paths[1..], excluded, a);
      assert paths == [paths[0]] + paths[1..];
    }
  }

  /** Shortening stays strict when some are left out. */
  ghost predicate Shrinking(paths: seq<string>) {
    forall i, j :: 0 <= i < j < |paths| ==> paths[j] < paths[i]
  }

  lemma {:induction false} ChainShrinks(paths: seq<string>)
    requires forall i :: 0 <= i < |paths| - 1 ==> paths[i + 1] < paths[i]
    ensures Shrinking(paths)
  {
    if |paths| >= 2 {
      ChainShrinks(paths[1..]);
      forall i, j | 0 <= i < j < |paths| ensures paths[j] < paths[i] {
        assert i > 0 ==> paths[1..][j - 1] < paths[1..][i - 1];
        assert i == 0 && j > 1 ==> paths[1..][j - 1] < paths[1..][0];
      }
    }
  }

  lemma {:induction false} WithoutShrinks(paths: seq<string>, excluded: seq<string>)
    requires Shrinking(paths)
    ensures Shrinking(Without(paths, excluded))
  {
    if paths != [] {
      assert forall i, j :: 0 <= i < j < |paths| - 1 ==> paths[1..][j] < paths[1..][i];
      WithoutShrinks(paths[1..], excluded);
      forall a | a in Without(paths[1..], excluded) ensures a < paths[0] {
        WithoutMembers(paths[1..], excluded, a);
      }
      assert forall j :: 0 <= j < |Without(paths[1..], excluded)| ==>
          Without(paths[1..], excluded)[j] in Without(paths[1..], excluded);
    }
  }

  /** The result: precisely the proper ancestors that are not excluded, each a strict prefix of the one before. */
  lemma ParentPathsExactly(path: string, exclude: Option<seq<string>>, a: string)
    requires SingleRooted(path)
    ensures var r := Without(Parents(path), Excluded(exclude));
            && (a in r <==> IsAncestor(a, path) && a !in Excluded(exclude))
            && Shrinking(r)
  {
    ParentsAreAncestors(path, a);
    WithoutMembers(Parents(path), Excluded(exclude), a);
    ParentsShrink(path);
    ChainShrinks(Parents(path));
    WithoutShrinks(Parents(path), Excluded(exclude));
  }
}
