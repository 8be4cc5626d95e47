/** Links and devices that somebody put on the volume by hand: no request follows, reads, replaces or removes them. */
module HandMade {
  import opened Common
  import opened Paths
  import opened Model
  import opened SiteStore
  import opened RealBackend
  import opened FileIndex

  /** The five things that can be done with a path of a site are refused as invalid and change nothing. */
  predicate AllRefuse(site: Site, p: Path, body: Bytes, overwrite: bool, recursive: bool, mtime: int) {
    Read(site, p) == Fail(400, InvalidPath)
    && CommitUpload(site, p, body, overwrite, mtime) == (site, Fail(400, InvalidPath))
    && RemoveFile(site, p) == (site, Fail(400, InvalidPath))
    && RemoveFolder(site, p, recursive) == (site, Fail(400, InvalidPath))
    && RefuseList(site, p) == Some(Fail(400, InvalidPath))
  }

  /** A link at the path, above it, or in place of the site's folder. */
  predicate LinkOnTheWay(tree: Tree, p: Path) {
    exists q :: q in tree && tree[q].Link? && (q == "" || q == p || q + "/" <= p)
  }

  lemma LinksAreRefused(site: Site, p: Path, body: Bytes, overwrite: bool, recursive: bool, declared: bool,
                        cap: nat, mtime: int)
    requires site.row.Some? && LinkOnTheWay(site.tree, p)
    ensures AllRefuse(site, p, body, overwrite, recursive, mtime)
    ensures WriteFile(site, p, body, overwrite, declared, cap, mtime) == (site, Fail(400, InvalidPath))
  {
    var q :| q in site.tree && site.tree[q].Link? && (q == "" || q == p || q + "/" <= p);
    AncestorsAreAbove(p, q);
    assert q in Ancestors(p) + {p, ""};
  }

  lemma {:induction false} DeviceAbove(tree: Tree, p: Path, d: Path)
    requires DiskTree(tree) && d in tree && tree[d].Device? && d != "" && d + "/" <= p
    ensures p !in tree && CheckParents(tree, p) == Some(Fail(400, InvalidPath))
    decreases |p|
  {
    BelowStep(d, p);
    if Parent(p) != d { DeviceAbove(tree, Parent(p), d); }
  }

  /** A device at the path is refused in every way; below one nothing can be written. */
  lemma DevicesAreRefused(site: Site, p: Path, body: Bytes, overwrite: bool, recursive: bool, mtime: int,
                          d: Path)
    requires site.row.Some? && DiskTree(site.tree) && p != "" && !LinkOnTheWay(site.tree, p)
    requires d in site.tree && site.tree[d].Device? && d != ""
    ensures p == d ==> AllRefuse(site, p, body, overwrite, recursive, mtime)
    ensures d + "/" <= p ==> CommitUpload(site, p, body, overwrite, mtime) == (site, Fail(400, InvalidPath))
                             && Read(site, p) == Fail(404, NotFound)
  {
    NoLinkOnTheWay(site.tree, p);
    if p == d {
      ParentsAreFolders(site.tree, p);
    } else if d + "/" <= p {
      DeviceAbove(site.tree, p, d);
    }
  }

  lemma NoLinkOnTheWay(tree: Tree, p: Path)
    ensures PassesLink(tree, p) <==> LinkOnTheWay(tree, p)
  {
    if PassesLink(tree, p) {
      var q :| q in Ancestors(p) + {p, ""} && q in tree && tree[q].Link?;
      AncestorsAreAbove(p, q);
    }
    if LinkOnTheWay(tree, p) {
      var q :| q in tree && tree[q].Link? && (q == "" || q == p || q + "/" <= p);
      AncestorsAreAbove(p, q);
    }
  }

  lemma {:induction false} ParentsAreFolders(tree: Tree, p: Path)
    requires DiskTree(tree) && p in tree
    ensures CheckParents(tree, p).None?
    decreases |p|
  {
    if Parent(p) != "" { ParentsAreFolders(tree, Parent(p)); }
  }

  // ---- a site folder that is gone ----

  /** Whatever the disk, an upload that is accepted leaves the file and makes every folder above it that is missing, the
      site's own included; all else stays. */
  lemma UploadMakesFolders(site: Site, p: Path, body: Bytes, overwrite: bool, mtime: int)
    requires p != "" && CommitUpload(site, p, body, overwrite, mtime).1.Uploaded?
    ensures var (tree, site') := (site.tree, CommitUpload(site, p, body, overwrite, mtime).0);
            site'.row == site.row && site'.index == site.index[p := FileRow(|body|, mtime, Sha256(body))]
            && p in site'.tree && site'.tree[p] == File(body, mtime)
            && forall q :: q != p ==>
                 if q == "" || q + "/" <= p then q in site'.tree && site'.tree[q].Folder?
                 else (q in site'.tree <==> q in tree) && (q in tree ==> site'.tree[q] == tree[q])
  {
    ParentsRefuse(site.tree, p);
    forall q ensures q in Ancestors(p) + {""} <==> q == "" || q + "/" <= p { AncestorsAreAbove(p, q); }
  }

  /** A site without its folder lists as empty; any other folder that is missing is 404. Neither repairs anything. */
  lemma MissingFoldersList(site: Site, slug: Slug, p: Path)
    requires p !in site.tree && !LinkOnTheWay(site.tree, p)
    ensures ListFolder(site, slug, p) == (site, if p == "" then Listing(slug, "", []) else Fail(404, NotFound))
  {
    NoLinkOnTheWay(site.tree, p);
  }
}
