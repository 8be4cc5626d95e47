/** `Storage.resolve` on a file system with symbolic links: the component walk and the containment check. */
module Links {
  import opened Common
  import Paths
  import SiteStore

  type Tree = SiteStore.Tree

  type Location = seq<string>

  /** A link holds its text split at slashes; dots and empty parts are resolved when it is followed. */
  datatype Inode = Dir | Regular | SymLink(absolute: bool, parts: seq<string>)

  type FileSystem = map<Location, Inode>

  /** Whatever exists is inside a directory. */
  ghost predicate Rooted(fs: FileSystem) {
    forall p :: p in fs && p != [] ==> p[..|p| - 1] in fs && fs[p[..|p| - 1]].Dir?
  }

  datatype Reached = Reached(at: Location, links: nat)

  /** `Path.resolve(strict=False)`: follow `rest` from `at`, following at most `links` links; what does not
      exist is taken literally. */
  function Follow(fs: FileSystem, at: Location, rest: seq<string>, links: nat): Option<Reached>
    decreases links, |rest|
  {
    if rest == [] then Some(Reached(at, links))
    else if rest[0] == "" || rest[0] == "." then Follow(fs, at, rest[1..], links)
    else if rest[0] == ".." then Follow(fs, if at == [] then [] else at[..|at| - 1], rest[1..], links)
    else
      var next := at + [rest[0]];
      if next in fs && fs[next].SymLink? then
        if links == 0 then None
        else Follow(fs, if fs[next].absolute then [] else at, fs[next].parts + rest[1..], links - 1)
      else Follow(fs, next, rest[1..], links)
  }

  /** `lstat`: every component but the last is followed. */
  function Lstat(fs: FileSystem, path: Location, links: nat): Option<Inode>
    requires path != []
  {
    match Follow(fs, [], path[..|path| - 1], links)
    case None => None
    case Some(dir) =>
      var p := dir.at + [path[|path| - 1]];
      if p in fs then Some(fs[p]) else None
  }

  predicate Plain(segment: string) {
    segment != "" && segment != "." && segment != ".."
  }

  predicate AllPlain(segments: seq<string>) {
    forall i :: 0 <= i < |segments| ==> Plain(segments[i])
  }

  lemma Regroup(a: seq<string>, b: seq<string>, c: seq<string>)
    ensures a + (b + c) == (a + b) + c
  {
  }

  lemma FirstOfConcat(a: seq<string>, b: seq<string>)
    requires a != []
    ensures a + b != [] && (a + b)[0] == a[0] && (a + b)[1..] == a[1..] + b
  {
  }

  /** Following a path is following its front, then the rest from there. */
  lemma {:induction false} FollowConcat(fs: FileSystem, at: Location, a: seq<string>, b: seq<string>, links: nat)
    ensures Follow(fs, at, a + b, links)
            == match Follow(fs, at, a, links)
               case None => None
               case Some(r) => Follow(fs, r.at, b, r.links)
    decreases links, |a|
  {
    if a == [] {
      assert a + b == b;
    } else {
      FirstOfConcat(a, b);
      if a[0] == "" || a[0] == "." {
        FollowConcat(fs, at, a[1..], b, links);
      } else if a[0] == ".." {
        FollowConcat(fs, if at == [] then [] else at[..|at| - 1], a[1..], b, links);
      } else {
        var next := at + [a[0]];
        if next in fs && fs[next].SymLink? {
          if links > 0 {
            Regroup(fs[next].parts, a[1..], b);
            FollowConcat(fs, if fs[next].absolute then [] else at, fs[next].parts + a[1..], b, links - 1);
          }
        } else {
          FollowConcat(fs, next, a[1..], b, links);
        }
      }
    }
  }

  predicate LinkAt(fs: FileSystem, p: Location) {
    p in fs && fs[p].SymLink?
  }

  /** No part of the way from `at` along the segments is a link. */
  ghost predicate NoLinkAlong(fs: FileSystem, at: Location, segments: seq<string>) {
    forall k :: 0 < k <= |segments| ==> !LinkAt(fs, at + segments[..k])
  }

  lemma {:induction false} FollowPlain(fs: FileSystem, at: Location, segments: seq<string>, links: nat)
    requires AllPlain(segments) && NoLinkAlong(fs, at, segments)
    ensures Follow(fs, at, segments, links) == Some(Reached(at + segments, links))
    decreases |segments|
  {
    if segments == [] {
      assert at + segments == at;
    } else {
      var next, rest := at + [segments[0]], segments[1..];
      assert segments[..1] == [segments[0]];
      assert !LinkAt(fs, at + segments[..1]);
      forall k | 0 < k <= |rest| ensures !LinkAt(fs, next + rest[..k]) {
        assert next + rest[..k] == at + segments[..k + 1];
      }
      FollowPlain(fs, next, rest, links);
      assert next + rest == at + segments;
    }
  }

  /** Below something that does not exist nothing exists. */
  lemma {:induction false} NothingBelowMissing(fs: FileSystem, p: Location, more: seq<string>)
    requires Rooted(fs) && p !in fs
    ensures p + more !in fs
    decreases |more|
  {
    if more == [] {
      assert p + more == p;
    } else {
      var shorter := more[..|more| - 1];
      NothingBelowMissing(fs, p, shorter);
      assert (p + more)[..|p + more| - 1] == p + shorter;
    }
  }

  /** The segments of a validated path are plain. */
  lemma CanonicalIsPlain(path: Paths.Path)
    requires Paths.Canonical(path)
    ensures AllPlain(Paths.Split(path)) && Paths.Join(Paths.Split(path)) == path
  {
    Paths.JoinSplit(path);
    forall i | 0 <= i < |Paths.Split(path)| ensures Plain(Paths.Split(path)[i]) {
      assert Paths.GoodSegment(Paths.Split(path)[i]);
    }
  }

  datatype Refusal = RootIsLink | PassesLink | Escapes

  /** The walk of `resolve`, component by component to the first that is missing, then the containment check. */
  method Resolve(fs: FileSystem, root: Location, segments: seq<string>, links: nat)
    returns (r: Result<Location, Refusal>)
    requires Rooted(fs) && root != [] && AllPlain(segments)
    requires Follow(fs, [], root, links).Some?
    ensures r == if Lstat(fs, root, links).Some? && Lstat(fs, root, links).value.SymLink? then Err(RootIsLink)
                 else if NoLinkAlong(fs, Follow(fs, [], root, links).value.at, segments)
                 then Ok(Follow(fs, [], root, links).value.at + segments)
                 else Err(PassesLink)
    ensures r.Ok? ==> Follow(fs, [], root + segments, links).Some?
                      && r.value == Follow(fs, [], root + segments, links).value.at
  {
    var top := Lstat(fs, root, links);
    if top.Some? && top.value.SymLink? { return Err(RootIsLink); }
    ghost var reached := Follow(fs, [], root, links).value;
    var i := 0;
    while i < |segments|
      invariant i <= |segments| && NoLinkAlong(fs, reached.at, segments[..i])
    {
      var current := root + segments[..i + 1];
      LstatAlong(fs, root, segments, i, links);
      var found := Lstat(fs, current, links);
      if found.None? {
        MissingEndsWalk(fs, reached.at, segments, i);
        break;
      }
      if found.value.SymLink? {
        assert LinkAt(fs, reached.at + segments[..i + 1]);
        return Err(PassesLink);
      }
      AlongNext(fs, reached.at, segments, i);
      i := i + 1;
    }
    assert i == |segments| ==> segments[..i] == segments;
    FollowConcat(fs, [], root, segments, links);
    FollowPlain(fs, reached.at, segments, reached.links);
    var target, base := Follow(fs, [], root + segments, links), Follow(fs, [], root, links);
    if !(base.value.at <= target.value.at) { return Err(Escapes); }
    r := Ok(target.value.at);
  }

  // ---- the walk and the tree of a site ----

  /** The links below the resolved site folder are those of the site's tree. */
  ghost predicate LinksOf(fs: FileSystem, base: Location, tree: Tree) {
    forall p: Paths.Path :: Paths.Canonical(p) ==>
      (LinkAt(fs, base + Paths.Split(p)) <==> p in tree && tree[p].Link?)
  }

  lemma SplitParent(path: Paths.Path)
    requires Paths.Canonical(path)
    ensures var parent := Paths.Parent(path);
            if parent == "" then Paths.Split(path) == [path]
            else Paths.Canonical(parent) && Paths.Split(path) == Paths.Split(parent) + [Paths.Name(path)]
  {
    Paths.CanonicalParent(path);
    Paths.CanonicalEnds(path);
    Paths.ChildOfParent(path);
    Paths.SplitWithoutSlash(Paths.Name(path));
    if Paths.Parent(path) != "" { Paths.SplitConcat(Paths.Parent(path), Paths.Name(path)); }
  }

  lemma AlongLast(fs: FileSystem, at: Location, front: seq<string>, last: string)
    ensures NoLinkAlong(fs, at, front + [last]) <==> NoLinkAlong(fs, at, front) && !LinkAt(fs, at + (front + [last]))
  {
    var all := front + [last];
    assert all[..|all|] == all;
    assert forall k :: 0 <= k <= |front| ==> all[..k] == front[..k];
    if NoLinkAlong(fs, at, all) {
      assert !LinkAt(fs, at + all[..|all|]);
      forall k | 0 < k <= |front| ensures !LinkAt(fs, at + front[..k]) {
        assert !LinkAt(fs, at + all[..k]);
      }
    }
    if NoLinkAlong(fs, at, front) && !LinkAt(fs, at + all) {
      forall k | 0 < k <= |all| ensures !LinkAt(fs, at + all[..k]) {
        if k <= |front| { assert !LinkAt(fs, at + front[..k]); }
      }
    }
  }

  /** The walk finds a link exactly where the site's tree has one on the way to the path. */
  lemma {:induction false} WalkSeesTree(fs: FileSystem, base: Location, tree: Tree, path: Paths.Path)
    requires LinksOf(fs, base, tree) && Paths.Canonical(path) && ("" in tree ==> !tree[""].Link?)
    ensures NoLinkAlong(fs, base, Paths.Split(path)) <==> !SiteStore.PassesLink(tree, path)
    decreases |path|
  {
    var parent := Paths.Parent(path);
    SplitParent(path);
    if parent == "" {
      AlongLast(fs, base, [], path);
      assert [] + [path] == [path];
    } else {
      WalkSeesTree(fs, base, tree, parent);
      AlongLast(fs, base, Paths.Split(parent), Paths.Name(path));
      assert Paths.Ancestors(path) == {parent} + Paths.Ancestors(parent);
    }
  }

  lemma NextComponent(root: Location, segments: seq<string>, i: nat)
    requires i < |segments|
    ensures var path := root + segments[..i + 1];
            |path| > 0 && path[..|path| - 1] == root + segments[..i] && path[|path| - 1] == segments[i]
            && path == root + segments[..i] + [segments[i]]
  {
  }

  lemma LstatAlong(fs: FileSystem, root: Location, segments: seq<string>, i: nat, links: nat)
    requires AllPlain(segments) && i < |segments| && Follow(fs, [], root, links).Some?
    requires NoLinkAlong(fs, Follow(fs, [], root, links).value.at, segments[..i])
    ensures var p := Follow(fs, [], root, links).value.at + segments[..i + 1];
            Lstat(fs, root + segments[..i + 1], links) == if p in fs then Some(fs[p]) else None
  {
    var reached := Follow(fs, [], root, links).value;
    NextComponent(root, segments, i);
    NextComponent(reached.at, segments, i);
    FollowConcat(fs, [], root, segments[..i], links);
    FollowPlain(fs, reached.at, segments[..i], reached.links);
  }

  lemma AlongNext(fs: FileSystem, at: Location, segments: seq<string>, i: nat)
    requires i < |segments| && NoLinkAlong(fs, at, segments[..i]) && !LinkAt(fs, at + segments[..i + 1])
    ensures NoLinkAlong(fs, at, segments[..i + 1])
  {
    var front, longer := segments[..i], segments[..i + 1];
    forall k | 0 < k <= |longer| ensures !LinkAt(fs, at + longer[..k]) {
      assert longer[..k] == segments[..k];
      if k <= i { assert front[..k] == segments[..k]; }
    }
  }

  lemma MissingAlong(fs: FileSystem, at: Location, segments: seq<string>, i: nat, k: nat)
    requires Rooted(fs) && i < k <= |segments| && at + segments[..i + 1] !in fs
    ensures at + segments[..k] !in fs
  {
    NothingBelowMissing(fs, at + segments[..i + 1], segments[i + 1..k]);
    assert at + segments[..i + 1] + segments[i + 1..k] == at + segments[..k];
  }

  lemma MissingEndsWalk(fs: FileSystem, at: Location, segments: seq<string>, i: nat)
    requires Rooted(fs) && i < |segments| && NoLinkAlong(fs, at, segments[..i])
    requires at + segments[..i + 1] !in fs
    ensures NoLinkAlong(fs, at, segments)
  {
    forall k | 0 < k <= |segments| ensures !LinkAt(fs, at + segments[..k]) {
      if k <= i { assert segments[..i][..k] == segments[..k]; } else { MissingAlong(fs, at, segments, i, k); }
    }
  }

  /** A site with a file and a link to it. */
  const ALIASED: FileSystem :=
    map[[] := Dir, ["s"] := Dir, ["s", "a"] := Regular, ["s", "b"] := SymLink(false, ["a"])]

  /** The containment check alone would not do: through a link inside the site a path can stay inside the site
      and still be another file of it. */
  lemma ContainmentAloneAliases()
    ensures var fs := ALIASED;
            Follow(fs, [], ["s", "b"], 1) == Some(Reached(["s", "a"], 0)) && ["s"] <= ["s", "a"]
            && ["s", "a"] in fs && fs[["s", "a"]].Regular?
  {
    var fs := ALIASED;
    assert [] + ["s"] == ["s"] && ["s", "b"][1..] == ["b"] && ["b"][1..] == [];
    assert ["s"] + ["b"] == ["s", "b"] && ["a"] + [] == ["a"] && ["s"] + ["a"] == ["s", "a"];
    assert Follow(fs, ["s", "a"], [], 0) == Some(Reached(["s", "a"], 0));
    assert ["a"][1..] == [];
    assert Follow(fs, ["s"], ["a"], 0) == Follow(fs, ["s", "a"], [], 0);
    assert Follow(fs, ["s"], ["b"], 1) == Follow(fs, ["s"], ["a"] + ["b"][1..], 0);
    assert Follow(fs, [], ["s", "b"], 1) == Follow(fs, ["s"], ["b"], 1);
  }
}
