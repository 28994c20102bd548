/** Which host directory a container path lies in: the nearest mounted ancestor. */
module MountLookup {

  /** A component of a clean absolute path. */
  predicate IsComponent(c: string) { c != "" && c != "." && c != ".." && '/' !in c }

  predicate IsClean(cs: seq<string>) { forall c :: c in cs ==> IsComponent(c) }

  /** "/a/b" for ["a", "b"], and the empty string for the root. */
  function PathOf(cs: seq<string>): string {
    if cs == [] then "" else PathOf(cs[..|cs| - 1]) + "/" + cs[|cs| - 1]
  }

  function AbsPath(cs: seq<string>): string { if cs == [] then "/" else PathOf(cs) }

  /** "b/c" for ["b", "c"]. */
  function RelPath(cs: seq<string>): string { if cs == [] then "." else PathOf(cs)[1..] }

  /** The last slash, as `strings.LastIndexByte` finds it. */
  function LastSlash(s: string): (i: int)
    ensures -1 <= i < |s|
  {
    if s == "" then -1 else if s[|s| - 1] == '/' then |s| - 1 else LastSlash(s[..|s| - 1])
  }

  /** `filepath.Dir` on clean paths. */
  function Dir(path: string): string {
    var i := LastSlash(path);
    if i < 0 then "." else if i == 0 then "/" else path[..i]
  }

  /** `filepath.Rel` when `base` is a proper ancestor of `path`. */
  function Rel(base: string, path: string): string
    requires |base| < |path|
  {
    path[|base| + 1..]
  }

  lemma {:induction false} LastSlashOf(front: string, c: string)
    requires '/' !in c
    ensures LastSlash(front + "/" + c) == |front|
    decreases |c|
  {
    var s := front + "/" + c;
    if c != "" {
      assert s[|s| - 1] == c[|c| - 1] && c[|c| - 1] in c;
      assert s[..|s| - 1] == front + "/" + c[..|c| - 1];
      LastSlashOf(front, c[..|c| - 1]);
    }
  }

  lemma DirOfJoined(front: string, c: string)
    requires '/' !in c
    ensures Dir(front + "/" + c) == if front == "" then "/" else front
  {
    LastSlashOf(front, c);
    assert (front + "/" + c)[..|front|] == front;
  }

  lemma {:induction false} StartsWithSlash(cs: seq<string>)
    requires cs != []
    ensures PathOf(cs) != "" && PathOf(cs)[0] == '/'
    decreases |cs|
  {
    if |cs| > 1 { StartsWithSlash(cs[..|cs| - 1]); }
  }

  /** One step up drops one component. */
  lemma DirOfPath(cs: seq<string>)
    requires cs != [] && IsClean(cs)
    ensures Dir(PathOf(cs)) == AbsPath(cs[..|cs| - 1])
  {
    var front, c := cs[..|cs| - 1], cs[|cs| - 1];
    assert c in cs && IsComponent(c);
    DirOfJoined(PathOf(front), c);
    if front != [] { StartsWithSlash(front); }
  }

  lemma {:induction false} PathOfAppend(a: seq<string>, b: seq<string>)
    ensures PathOf(a + b) == PathOf(a) + PathOf(b)
    decreases |b|
  {
    if b == [] {
      assert a + b == a;
    } else {
      PathOfAppend(a, b[..|b| - 1]);
      assert (a + b)[..|a + b| - 1] == a + b[..|b| - 1];
      Regroup(PathOf(a), PathOf(b[..|b| - 1]), b[|b| - 1]);
    }
  }

  lemma Regroup(a: string, b: string, c: string)
    ensures (a + b) + "/" + c == a + (b + "/" + c)
  {
  }

  lemma RelOfAncestor(cs: seq<string>, k: nat)
    requires 0 < k < |cs|
    ensures |PathOf(cs[..k])| < |PathOf(cs)|
    ensures Rel(PathOf(cs[..k]), PathOf(cs)) == RelPath(cs[k..])
  {
    assert cs == cs[..k] + cs[k..];
    PathOfAppend(cs[..k], cs[k..]);
    assert PathOf(cs[k..]) != "";
  }

  /** The relative path is what has to follow the ancestor and a slash. */
  lemma PathThroughAncestor(cs: seq<string>, k: nat)
    requires 0 < k < |cs|
    ensures PathOf(cs) == PathOf(cs[..k]) + "/" + RelPath(cs[k..])
  {
    assert cs == cs[..k] + cs[k..];
    PathOfAppend(cs[..k], cs[k..]);
    StartsWithSlash(cs[k..]);
    SlashThenRest(PathOf(cs[..k]), PathOf(cs[k..]));
  }

  lemma SlashThenRest(a: string, b: string)
    requires b != "" && b[0] == '/'
    ensures a + b == a + "/" + b[1..]
  {
  }

  lemma AncestorDiffers(cs: seq<string>, k: nat)
    requires k <= |cs|
    ensures k < |cs| ==> PathOf(cs[..k]) != PathOf(cs)
  {
    assert cs == cs[..k] + cs[k..];
    PathOfAppend(cs[..k], cs[k..]);
  }

  /** The depth of the nearest mount at or above component `n`, not counting the root; 0 if there is none. */
  function Deepest(cs: seq<string>, mounts: map<string, string>, n: nat): (k: nat)
    requires n <= |cs|
    ensures k <= n
    ensures k > 0 ==> PathOf(cs[..k]) in mounts
    ensures forall j :: k < j <= n ==> PathOf(cs[..j]) !in mounts
  {
    if n == 0 then 0 else if PathOf(cs[..n]) in mounts then n else Deepest(cs, mounts, n - 1)
  }

  /** The host directory of a clean absolute path, in terms of its components. */
  function HostDir(cs: seq<string>, mounts: map<string, string>): string {
    var k := Deepest(cs, mounts, |cs|);
    if cs == [] then (if "/" in mounts then mounts["/"] else "")
    else if k == 0 then ""
    else if k == |cs| then mounts[PathOf(cs[..k])]
    else mounts[PathOf(cs[..k])] + "/" + RelPath(cs[k..])
  }

  /** What the loop returns when it finds a mount at depth `n`. */
  lemma FoundAt(cs: seq<string>, mounts: map<string, string>, n: nat)
    requires n <= |cs| && (n == 0 ==> cs == []) && AbsPath(cs[..n]) in mounts
    requires Deepest(cs, mounts, |cs|) == Deepest(cs, mounts, n)
    ensures AbsPath(cs[..n]) == AbsPath(cs) <==> n == |cs|
    ensures n == |cs| ==> HostDir(cs, mounts) == mounts[AbsPath(cs[..n])]
    ensures n < |cs| ==>
      && |AbsPath(cs[..n])| < |AbsPath(cs)|
      && HostDir(cs, mounts) == mounts[AbsPath(cs[..n])] + "/" + Rel(AbsPath(cs[..n]), AbsPath(cs))
  {
    AncestorDiffers(cs, n);
    if n == |cs| {
      assert cs[..n] == cs;
    } else {
      RelOfAncestor(cs, n);
    }
  }

  /** One step up from depth `n`: the loop stops exactly at the top. */
  lemma OneUp(cs: seq<string>, n: nat)
    requires IsClean(cs) && n <= |cs| && (n == 0 ==> cs == [])
    ensures var up := Dir(AbsPath(cs[..n]));
      && (up == "/" || up == "." <==> n <= 1)
      && (n > 1 ==> up == AbsPath(cs[..n - 1]))
  {
    if n == 0 {
      assert Dir("/") == "/";
    } else {
      assert forall c :: c in cs[..n] ==> c in cs;
      DirOfPath(cs[..n]);
      assert cs[..n][..n - 1] == cs[..n - 1];
      if n > 1 { NotTop(cs[..n - 1]); }
    }
  }

  lemma NotTop(cs: seq<string>)
    requires cs != [] && IsClean(cs)
    ensures PathOf(cs) != "/" && PathOf(cs) != "."
  {
    var c := cs[|cs| - 1];
    assert c in cs && IsComponent(c);
    assert |PathOf(cs)| > 1 && '/' in PathOf(cs);
  }

  /** `hostDirOf`: walks up until a mount is found; the root is never consulted for a path below it. */
  method HostDirOf(path0: string, mounts: map<string, string>, ghost cs: seq<string>) returns (r: string)
    requires IsClean(cs) && path0 == AbsPath(cs)
    ensures r == HostDir(cs, mounts)
    ensures cs == [] ==> r == if "/" in mounts then mounts["/"] else ""
  {
    var path := path0;
    ghost var n: nat := |cs|;
    assert cs[..n] == cs;
    while true
      invariant n <= |cs| && (n == 0 ==> cs == []) && path == AbsPath(cs[..n])
      invariant Deepest(cs, mounts, |cs|) == Deepest(cs, mounts, n)
      decreases n
    {
      if path in mounts {
        FoundAt(cs, mounts, n);
        if path0 == path { return mounts[path]; }
        return mounts[path] + "/" + Rel(path, path0);
      }
      OneUp(cs, n);
      path := Dir(path);
      if path == "/" || path == "." { return ""; }
      n := n - 1;
    }
  }

  /** The mount found is the deepest non-root one at or above the path, and its place in the path is taken by its
      source; what follows it in the path stays. */
  lemma HostDirIsDeepest(cs: seq<string>, mounts: map<string, string>, k: nat)
    requires cs != [] && 0 < k <= |cs| && PathOf(cs[..k]) in mounts
    requires forall j :: k < j <= |cs| ==> PathOf(cs[..j]) !in mounts
    ensures PathOf(cs[..k]) <= PathOf(cs)
    ensures HostDir(cs, mounts) == mounts[PathOf(cs[..k])] + PathOf(cs)[|PathOf(cs[..k])|..]
  {
    var d, source := Deepest(cs, mounts, |cs|), mounts[PathOf(cs[..k])];
    assert d == k;
    if k == |cs| {
      assert cs[..k] == cs && source + "" == source;
    } else {
      PathThroughAncestor(cs, k);
      Rebased(PathOf(cs[..k]), source, RelPath(cs[k..]), PathOf(cs));
    }
  }

  lemma Rebased(p: string, source: string, rest: string, path: string)
    requires path == p + "/" + rest
    ensures p <= path && source + "/" + rest == source + path[|p|..]
  {
    assert path[|p|..] == "/" + rest;
  }

  /** The answer is empty exactly when nothing is mounted, or the path itself is mounted from an empty source. */
  lemma HostDirEmptyIff(cs: seq<string>, mounts: map<string, string>)
    requires cs != []
    ensures HostDir(cs, mounts) == "" <==>
      || (forall j :: 0 < j <= |cs| ==> PathOf(cs[..j]) !in mounts)
      || (PathOf(cs) in mounts && mounts[PathOf(cs)] == "")
  {
    assert cs[..|cs|] == cs;
  }
}
