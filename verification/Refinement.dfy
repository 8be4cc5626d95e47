/** The real site, tree and index, refines the fake one, two dictionaries. */
module Refinement {
  import opened Common
  import opened Paths
  import opened Sorting
  import opened Model
  import opened SiteStore
  import Fake = FakeBackend

  /** A tree no hand has touched: files and folders only, every entry inside a folder, relative names. */
  ghost predicate TreeOk(tree: Tree) {
    "" in tree && tree[""].Folder?
    && (forall p :: p in tree ==> tree[p].File? || tree[p].Folder?)
    && (forall p :: p in tree && p != "" ==> p[0] != '/' && Parent(p) in tree && tree[Parent(p)].Folder?)
  }

  ghost function FilesOf(tree: Tree): map<Path, Bytes> {
    map p | p in tree && tree[p].File? :: tree[p].content
  }

  ghost function FoldersOf(tree: Tree): set<Path> {
    set p | p in tree && p != "" && tree[p].Folder?
  }

  ghost function ViewOf(tree: Tree): Fake.View {
    Fake.View(FilesOf(tree), FoldersOf(tree))
  }

  ghost function ExactIndex(tree: Tree): Index {
    map p | p in tree && tree[p].File? :: RowOf(tree[p])
  }

  /** The real site and the fake one hold the same, and the index is exact. */
  ghost predicate Matches(site: Site, fake: Fake.FakeSite) {
    site.row == Some(fake.name)
    && TreeOk(site.tree)
    && fake.view == ViewOf(site.tree)
    && site.index == ExactIndex(site.tree)
  }

  ghost predicate Relative(path: Path) {
    path != "" && path[0] != '/'
  }

  // ---- trees ----

  lemma {:induction false} AncestorsInTree(tree: Tree, path: Path)
    requires TreeOk(tree) && path in tree
    ensures forall a :: a in Ancestors(path) ==> a in tree && tree[a].Folder?
    decreases |path|
  {
    if Parent(path) != "" {
      assert path != "";
      AncestorsInTree(tree, Parent(path));
    }
  }

  lemma NoLinks(tree: Tree, path: Path)
    requires TreeOk(tree)
    ensures !PassesLink(tree, path)
  {
  }

  lemma {:induction false} CheckParentsMeaning(tree: Tree, path: Path)
    requires TreeOk(tree)
    ensures CheckParents(tree, path)
            == if Ancestors(path) !! FilesOf(tree).Keys then None else Some(NOT_A_FOLDER)
    decreases |path|
  {
    var parent := Parent(path);
    if parent != "" {
      CheckParentsMeaning(tree, parent);
      assert Ancestors(path) == {parent} + Ancestors(parent);
      assert parent in FilesOf(tree) <==> KindOf(tree, parent) == IsFile;
    }
  }

  /** The two backends test a write target in different orders and agree. */
  lemma WriteTargetsAgree(tree: Tree, path: Path, overwrite: bool)
    requires TreeOk(tree) && path != ""
    ensures CheckWriteTarget(tree, path, overwrite) == Fake.CheckWriteTarget(ViewOf(tree), path, overwrite)
  {
    CheckParentsMeaning(tree, path);
    if path in tree {
      AncestorsInTree(tree, path);
    }
  }

  lemma {:induction false} AncestorsAreRelative(path: Path)
    requires Relative(path)
    ensures forall a :: a in Ancestors(path) ==> Relative(a) && a != path
                                                 && (Parent(a) == "" || Parent(a) in Ancestors(path))
    decreases |path|
  {
    var parent := Parent(path);
    if parent != "" {
      AncestorsAreRelative(parent);
      AncestorsAreShorter(parent);
    }
  }

  lemma {:induction false} AncestorsAreShorter(path: Path)
    ensures forall a :: a in Ancestors(path) ==> |a| < |path|
    decreases |path|
  {
    if Parent(path) != "" { AncestorsAreShorter(Parent(path)); }
  }

  ghost predicate Placeable(tree: Tree, path: Path) {
    TreeOk(tree) && Relative(path)
    && Ancestors(path) !! FilesOf(tree).Keys && path !in FoldersOf(tree)
  }

  lemma PlaceKeepsOk(tree: Tree, path: Path, body: Bytes, mtime: int)
    requires Placeable(tree, path)
    ensures TreeOk(Place(tree, path, body, mtime))
  {
    var tree' := Place(tree, path, body, mtime);
    AncestorsAreRelative(path);
    forall p | p in tree' && p != "" ensures p[0] != '/' && Parent(p) in tree' && tree'[Parent(p)].Folder? {
      if p != path && p !in Ancestors(path) {
        assert Parent(p) != path;
      }
    }
  }

  lemma PlaceFiles(tree: Tree, path: Path, body: Bytes, mtime: int)
    requires Placeable(tree, path)
    ensures var tree' := Place(tree, path, body, mtime);
            FilesOf(tree') == FilesOf(tree)[path := body]
            && ExactIndex(tree') == ExactIndex(tree)[path := FileRow(|body|, mtime, Sha256(body))]
  {
    PlaceElsewhere(tree, path, body, mtime);
    OneFileMore(tree, Place(tree, path, body, mtime), path, body, mtime);
  }

  lemma OneFileMore(tree: Tree, tree': Tree, path: Path, body: Bytes, mtime: int)
    requires path in tree' && tree'[path] == File(body, mtime)
    requires forall p :: p != path ==>
               (FileAt(tree', p) <==> FileAt(tree, p)) && (FileAt(tree, p) ==> tree'[p] == tree[p])
    ensures FilesOf(tree') == FilesOf(tree)[path := body]
    ensures ExactIndex(tree') == ExactIndex(tree)[path := FileRow(|body|, mtime, Sha256(body))]
  {
  }

  lemma PlaceElsewhere(tree: Tree, path: Path, body: Bytes, mtime: int)
    requires Placeable(tree, path)
    ensures var tree' := Place(tree, path, body, mtime);
            forall p :: p != path ==>
              (FileAt(tree', p) <==> FileAt(tree, p)) && (FileAt(tree, p) ==> tree'[p] == tree[p])
  {
    AncestorsAreRelative(path);
    forall a | a in Ancestors(path) ensures !FileAt(tree, a) {
      assert a !in FilesOf(tree);
    }
  }

  lemma PlaceFolders(tree: Tree, path: Path, body: Bytes, mtime: int)
    requires Placeable(tree, path)
    ensures FoldersOf(Place(tree, path, body, mtime)) == FoldersOf(tree) + Ancestors(path)
  {
    AncestorsAreRelative(path);
  }

  lemma UploadsAgree(site: Site, fake: Fake.FakeSite, path: Path, body: Bytes, overwrite: bool, mtime: int)
    requires Matches(site, fake) && Relative(path)
    ensures var (site', answer) := CommitUpload(site, path, body, overwrite, mtime);
            var (view', answer') := Fake.UploadTo(fake.view, path, body, overwrite);
            answer == answer' && Matches(site', fake.(view := view'))
  {
    NoLinks(site.tree, path);
    WriteTargetsAgree(site.tree, path, overwrite);
    if Fake.CheckWriteTarget(fake.view, path, overwrite).Ok? {
      PlaceKeepsOk(site.tree, path, body, mtime);
      PlaceFiles(site.tree, path, body, mtime);
      PlaceFolders(site.tree, path, body, mtime);
      ViewWellFormed(site.tree);
      Fake.AddFoldersForAddsAncestors(fake.view, path);
    }
  }

  /** The tree makes the dictionaries well formed. */
  lemma ViewWellFormed(tree: Tree)
    requires TreeOk(tree)
    ensures Fake.WellFormed(ViewOf(tree))
  {
  }

  lemma FileDeletionsAgree(site: Site, fake: Fake.FakeSite, path: Path)
    requires Matches(site, fake) && Relative(path)
    ensures var (site', answer) := RemoveFile(site, path);
            var (view', answer') := Fake.DeleteFileFrom(fake.view, path);
            answer == answer' && Matches(site', fake.(view := view'))
  {
    NoLinks(site.tree, path);
    if KindOf(site.tree, path) == IsFile {
      var site' := RemoveFile(site, path).0;
      assert FilesOf(site'.tree) == FilesOf(site.tree) - {path};
      assert ExactIndex(site'.tree) == ExactIndex(site.tree) - {path};
      assert FoldersOf(site'.tree) == FoldersOf(site.tree);
      assert TreeOk(site'.tree);
    }
  }

  /** "No first child" and "no descendant" are the same emptiness. */
  lemma EmptinessAgrees(tree: Tree, folder: Path)
    requires TreeOk(tree) && folder != ""
    ensures EmptyFolder(tree, folder)
            <==> Fake.FoldersBelow(ViewOf(tree), folder) == {} && Fake.FilesBelow(ViewOf(tree), folder) == {}
  {
    var v := ViewOf(tree);
    if EmptyFolder(tree, folder) {
      forall p | p in tree && p != "" ensures !Below(folder, p) {
        EmptyHasNothingBelow(tree, folder, p);
      }
    } else {
      var p :| p in tree && p != "" && Parent(p) == folder;
      BelowStep(folder, p);
      assert p in Fake.FoldersBelow(v, folder) || p in Fake.FilesBelow(v, folder);
    }
  }

  lemma {:induction false} EmptyHasNothingBelow(tree: Tree, folder: Path, p: Path)
    requires TreeOk(tree) && EmptyFolder(tree, folder) && folder != "" && p in tree
    ensures !Below(folder, p)
    decreases |p|
  {
    if p != "" {
      BelowStep(folder, p);
      EmptyHasNothingBelow(tree, folder, Parent(p));
    }
  }

  lemma RemoveTreeKeepsOk(tree: Tree, path: Path)
    requires TreeOk(tree) && path != ""
    ensures TreeOk(RemoveTree(tree, path))
  {
    forall p | p in RemoveTree(tree, path) && p != "" ensures Parent(p) in RemoveTree(tree, path) {
      BelowStep(path, p);
    }
  }

  lemma FolderDeletionsAgree(site: Site, fake: Fake.FakeSite, path: Path, recursive: bool)
    requires Matches(site, fake) && Relative(path)
    ensures var (site', answer) := RemoveFolder(site, path, recursive);
            var (view', answer') := Fake.DeleteFolderFrom(fake.view, path, recursive);
            answer == answer' && Matches(site', fake.(view := view'))
  {
    NoLinks(site.tree, path);
    EmptinessAgrees(site.tree, path);
    if RefuseRemoveFolder(site, path, recursive).None? {
      var tree, tree' := site.tree, RemoveTree(site.tree, path);
      RemoveTreeKeepsOk(tree, path);
      RemoveTreeViews(tree, path);
    }
  }

  lemma RemoveTreeViews(tree: Tree, path: Path)
    requires TreeOk(tree) && path in FoldersOf(tree)
    ensures var (tree', v) := (RemoveTree(tree, path), ViewOf(tree));
            FilesOf(tree') == v.files - Fake.FilesBelow(v, path)
            && FoldersOf(tree') == v.folders - Fake.FoldersBelow(v, path) - {path}
            && ExactIndex(tree') == RemoveRows(ExactIndex(tree), path)
  {
    RemoveTreeFiles(tree, path);
    RemoveTreeFolders(tree, path);
  }

  lemma RemoveTreeFiles(tree: Tree, path: Path)
    requires TreeOk(tree) && path in FoldersOf(tree)
    ensures FilesOf(RemoveTree(tree, path)) == FilesOf(tree) - Fake.FilesBelow(ViewOf(tree), path)
    ensures ExactIndex(RemoveTree(tree, path)) == RemoveRows(ExactIndex(tree), path)
  {
  }

  lemma RemoveTreeFolders(tree: Tree, path: Path)
    requires TreeOk(tree) && path in FoldersOf(tree)
    ensures FoldersOf(RemoveTree(tree, path)) == FoldersOf(tree) - Fake.FoldersBelow(ViewOf(tree), path) - {path}
  {
  }

  lemma ReadsAgree(site: Site, fake: Fake.FakeSite, path: Path)
    requires Matches(site, fake) && Relative(path)
    ensures Read(site, path) == Fake.Read(fake.view, path)
  {
  }

  // ---- listings and totals ----

  lemma SizesAgree(tree: Tree)
    ensures RowSizes(ExactIndex(tree)) == Fake.Sizes(ViewOf(tree))
  {
  }

  lemma ReconcileExact(tree: Tree, folder: Path)
    ensures Reconcile(tree, ExactIndex(tree), folder) == ExactIndex(tree)
  {
  }

  /** The names one backend sorts and the paths the other sorts are the same entries. */
  lemma EntriesAgree(tree: Tree, folder: Path)
    requires TreeOk(tree)
    ensures Fake.Subfolders(ViewOf(tree), folder) == set n | n in FolderNames(tree, folder) :: Child(folder, n)
    ensures Fake.DirectFiles(ViewOf(tree), folder) == set n | n in FileNames(tree, folder) :: Child(folder, n)
    ensures forall n :: n in NamesIn(tree, folder)
              ==> Name(Child(folder, n)) == n && Child(folder, n) in tree && Child(folder, n) != ""
                  && Parent(Child(folder, n)) == folder
  {
    forall n | n in NamesIn(tree, folder)
      ensures Name(Child(folder, n)) == n && Child(folder, n) in tree && Parent(Child(folder, n)) == folder
      ensures Below(folder, Child(folder, n)) && Child(folder, n) != ""
    {
      var p :| p in tree && p != "" && Parent(p) == folder && Name(p) == n;
      ChildOfParent(p);
    }
    forall p | p in tree && p != "" && Parent(p) == folder
      ensures Name(p) in NamesIn(tree, folder) && Child(folder, Name(p)) == p
    {
      ChildOfParent(p);
    }
  }

  lemma {:induction false} FolderEntriesAgree(tree: Tree, folder: Path, names: seq<string>)
    requires forall n :: n in names ==> Name(Child(folder, n)) == n
    ensures Fake.FolderEntries(ViewOf(tree), Children(folder, names))
            == FolderEntries(ExactIndex(tree), folder, names)
  {
    SizesAgree(tree);
    if names != [] { FolderEntriesAgree(tree, folder, names[1..]); }
  }

  lemma {:induction false} FileEntriesAgree(tree: Tree, folder: Path, names: seq<string>)
    requires forall n :: n in names ==> Name(Child(folder, n)) == n && FileAt(tree, Child(folder, n))
    requires forall p :: p in Children(folder, names) ==> p in FilesOf(tree)
    ensures Fake.FileEntries(ViewOf(tree), Children(folder, names))
            == FileEntries(tree, ExactIndex(tree), folder, names)
  {
    if names != [] {
      assert Children(folder, names)[1..] == Children(folder, names[1..]);
      FileEntriesAgree(tree, folder, names[1..]);
    }
  }

  lemma ListingsAgree(site: Site, fake: Fake.FakeSite, slug: Slug, folder: Path)
    requires Matches(site, fake)
    ensures ListFolder(site, slug, folder) == (site, Fake.List(fake.view, slug, folder))
  {
    var tree := site.tree;
    NoLinks(tree, folder);
    if KindOf(tree, folder) == IsFolder {
      ReconcileExact(tree, folder);
      EntriesAgree(tree, folder);
      var folders, files := FolderNames(tree, folder), FileNames(tree, folder);
      SortedChildren(folder, folders, Fake.Subfolders(fake.view, folder));
      SortedChildren(folder, files, Fake.DirectFiles(fake.view, folder));
      FolderEntriesAgree(tree, folder, Sorted(folders));
      FileEntriesAgree(tree, folder, Sorted(files));
    }
  }
}
