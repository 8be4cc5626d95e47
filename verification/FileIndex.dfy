/** The index as a cache of the tree: listings repair it, and its sums are those of a walk. */
module FileIndex {
  import opened Paths
  import opened Sums
  import opened Sorting
  import opened Model
  import opened SiteStore
  import opened Refinement
  import Fake = FakeBackend

  // ---- repair ----

  predicate FolderAt(tree: Tree, path: Path) {
    path in tree && tree[path].Folder?
  }

  /** Any tree a file system can hold, hand-made links and devices included. */
  ghost predicate DiskTree(tree: Tree) {
    forall p :: p in tree && p != "" ==> p[0] != '/' && FolderAt(tree, Parent(p))
  }

  /** The row of a file has its size and mtime, but another file's digest. */
  predicate Mistaken(index: Index, path: Path, body: Bytes, mtime: int) {
    path in index && index[path].bytes == |body| && index[path].mtime == mtime && index[path].digest != Sha256(body)
  }

  /** What listing the given folders must leave: one row in them for each file, every other row as it was. */
  ghost function Repaired(tree: Tree, index: Index, folders: set<Path>): Index {
    map p | p in index.Keys + tree.Keys && (if Parent(p) in folders then FileAt(tree, p) else p in index)
          :: if Parent(p) in folders then ReportedRow(tree, index, p) else index[p]
  }

  function ListAll(tree: Tree, index: Index, folders: seq<Path>): Index {
    if folders == [] then index
    else Reconcile(tree, ListAll(tree, index, folders[..|folders| - 1]), folders[|folders| - 1])
  }

  lemma ReconcileRepairs(tree: Tree, index: Index, folders: set<Path>, folder: Path)
    ensures Reconcile(tree, Repaired(tree, index, folders), folder) == Repaired(tree, index, folders + {folder})
  {
    var once, twice := Repaired(tree, index, folders), Repaired(tree, index, folders + {folder});
    forall p ensures p in Reconcile(tree, once, folder) <==> p in twice {
    }
    forall p | p in twice ensures Reconcile(tree, once, folder)[p] == twice[p] {
      if Parent(p) == folder { ReportedTwice(tree, index, folders, p); }
    }
  }

  /** The same row is reported from the repaired index as from the old one. */
  lemma ReportedTwice(tree: Tree, index: Index, folders: set<Path>, p: Path)
    requires FileAt(tree, p)
    ensures ReportedRow(tree, Repaired(tree, index, folders), p) == ReportedRow(tree, index, p)
  {
  }

  /** The reported row is right exactly when the old one was not mistaken for the file's. */
  lemma ReportedRightly(tree: Tree, index: Index, p: Path)
    requires FileAt(tree, p)
    ensures ReportedRow(tree, index, p) == RowOf(tree[p])
            <==> !Mistaken(index, p, tree[p].content, tree[p].mtime)
  {
  }

  lemma {:induction false} ListAllRepairs(tree: Tree, index: Index, folders: seq<Path>)
    ensures ListAll(tree, index, folders) == Repaired(tree, index, (set f | f in folders))
  {
    if folders == [] {
      assert (set f | f in folders) == {};
    } else {
      var front, last := folders[..|folders| - 1], folders[|folders| - 1];
      ListAllRepairs(tree, index, front);
      ReconcileRepairs(tree, index, (set f | f in front), last);
      assert (set f | f in folders) == (set f | f in front) + {last} by {
        assert folders == front + [last];
      }
    }
  }

  /** From any index and any disk, listing every existing folder in any order leaves a row for every file in a folder
      on disk, and of the old rows only those whose parent folder is not on disk. A file's row is then right if and only
      if the old row did not have the file's size and mtime and another digest. */
  lemma {:induction false} ListingsRepairIndex(tree: Tree, index: Index, folders: seq<Path>)
    requires forall f :: f in folders <==> FolderAt(tree, f)
    ensures var after := ListAll(tree, index, folders);
            (forall p :: p in after <==> if FolderAt(tree, Parent(p)) then FileAt(tree, p) else p in index)
            && forall p :: p in after ==>
                 if FolderAt(tree, Parent(p)) then
                   after[p] == RowOf(tree[p]) <==> !Mistaken(index, p, tree[p].content, tree[p].mtime)
                 else after[p] == index[p]
  {
    ListAllRepairs(tree, index, folders);
    assert Parent("") == "";
    forall p | FileAt(tree, p) { ReportedRightly(tree, index, p); }
  }

  /** Every existing folder can be listed, unless the site folder itself is a link. */
  lemma {:induction false} FoldersCanBeListed(site: Site, folder: Path)
    requires DiskTree(site.tree) && FolderAt(site.tree, folder)
    ensures RefuseList(site, folder).None?
  {
    AncestorsAreFolders(site.tree, folder);
  }

  lemma {:induction false} AncestorsAreFolders(tree: Tree, path: Path)
    requires DiskTree(tree) && path in tree
    ensures forall a :: a in Ancestors(path) ==> FolderAt(tree, a)
    ensures path != "" ==> FolderAt(tree, "")
    decreases |path|
  {
    if path != "" && Parent(path) != "" { AncestorsAreFolders(tree, Parent(path)); }
  }

  /** The files a listing reads, and the rows it drops. */
  ghost function Hashed(tree: Tree, index: Index, folder: Path): set<Path> {
    set p | p in tree && Parent(p) == folder && FileAt(tree, p) && !(p in index && Fresh(index[p], tree[p]))
  }

  ghost function Dropped(tree: Tree, index: Index, folder: Path): set<Path> {
    set p | p in index && Parent(p) == folder && !FileAt(tree, p)
  }

  /** A listing touches only rows of the listed folder; a second one hashes, writes and drops nothing. */
  lemma ListingIsLocalAndSettles(tree: Tree, index: Index, folder: Path)
    ensures var after := Reconcile(tree, index, folder);
            (forall p :: Parent(p) != folder ==> (p in after <==> p in index) && (p in after ==> after[p] == index[p]))
            && Hashed(tree, after, folder) == {} && Dropped(tree, after, folder) == {}
            && Reconcile(tree, after, folder) == after
  {
  }

  /** A listing changes the index exactly when it found something to hash or to drop. */
  lemma ListingWritesOnlyRepairs(tree: Tree, index: Index, folder: Path)
    ensures Reconcile(tree, index, folder) == index
            <==> Hashed(tree, index, folder) == {} && Dropped(tree, index, folder) == {}
  {
    var after := Reconcile(tree, index, folder);
    if after == index {
      forall p | p in tree && Parent(p) == folder && FileAt(tree, p)
        ensures p in index && Fresh(index[p], tree[p])
      {
        assert p in after && Fresh(after[p], tree[p]);
      }
      assert forall p :: p in index ==> p in after;
    }
    if Hashed(tree, index, folder) == {} && Dropped(tree, index, folder) == {} {
      forall p | p in tree && Parent(p) == folder && FileAt(tree, p)
        ensures p in index && Fresh(index[p], tree[p])
      {
        assert p !in Hashed(tree, index, folder);
      }
      forall p | p in index && Parent(p) == folder ensures FileAt(tree, p) {
        assert p !in Dropped(tree, index, folder);
      }
    }
  }

  // ---- a row that was not written ----

  lemma ListedIn(site: Site, slug: Slug, folder: Path)
    requires TreeOk(site.tree) && FolderAt(site.tree, folder)
    ensures var (listed, answer) := ListFolder(site, slug, folder);
            answer.Listing? && listed == site.(index := Reconcile(site.tree, site.index, folder))
  {
    NoLinks(site.tree, folder);
  }

  /** Listing a folder whose rows are exact, one file aside, changes at most that file's row. */
  lemma OneRowReconciled(tree: Tree, index: Index, path: Path)
    requires FileAt(tree, path)
    requires forall p :: p != path ==> (p in index <==> FileAt(tree, p)) && (p in index ==> index[p] == RowOf(tree[p]))
    ensures Reconcile(tree, index, Parent(path)) == index[path := ReportedRow(tree, index, path)]
  {
  }

  /** An upload whose row failed to be written: listing the file's folder writes it, and leaves the site exactly
      as the whole upload would have, unless the old row passes for one of the new file. */
  lemma ListingCompletesUpload(site: Site, fake: Fake.FakeSite, slug: Slug, path: Path, body: Bytes, mtime: int)
    requires Matches(site, fake) && Placeable(site.tree, path)
    ensures var placed := site.(tree := Place(site.tree, path, body, mtime));
            var (listed, answer) := ListFolder(placed, slug, Parent(path));
            answer.Listing?
            && (listed == placed.(index := site.index[path := FileRow(|body|, mtime, Sha256(body))])
                <==> !Mistaken(site.index, path, body, mtime))
  {
    var tree', row := Place(site.tree, path, body, mtime), FileRow(|body|, mtime, Sha256(body));
    PlaceKeepsOk(site.tree, path, body, mtime);
    PlaceFiles(site.tree, path, body, mtime);
    ListedIn(site.(tree := tree'), slug, Parent(path));
    forall p | p != path
      ensures (p in site.index <==> FileAt(tree', p)) && (p in site.index ==> site.index[p] == RowOf(tree'[p]))
    {
      assert p in ExactIndex(tree') <==> p in ExactIndex(site.tree);
      if p in ExactIndex(tree') { assert ExactIndex(tree')[p] == ExactIndex(site.tree)[p]; }
    }
    OneRowReconciled(tree', site.index, path);
    var reported := ReportedRow(tree', site.index, path);
    assert site.index[path := reported][path] == reported && site.index[path := row][path] == row;
  }

  /** A deletion whose row failed to go: listing the file's folder drops it. */
  lemma ListingCompletesDeletion(site: Site, fake: Fake.FakeSite, slug: Slug, path: Path)
    requires Matches(site, fake) && FileAt(site.tree, path) && path != ""
    ensures var (listed, answer) := ListFolder(site.(tree := site.tree - {path}), slug, Parent(path));
            answer.Listing? && listed == Site(site.row, site.tree - {path}, site.index - {path})
  {
    var tree' := site.tree - {path};
    FileRemovalKeepsOk(site.tree, path);
    ListedIn(site.(tree := tree'), slug, Parent(path));
    OneRowDropped(tree', site.index, path);
  }

  lemma FileRemovalKeepsOk(tree: Tree, path: Path)
    requires TreeOk(tree) && FileAt(tree, path)
    ensures TreeOk(tree - {path}) && (path != "" ==> FolderAt(tree - {path}, Parent(path)))
    ensures forall p :: p != path ==> (FileAt(tree - {path}, p) <==> FileAt(tree, p))
  {
  }

  lemma OneRowDropped(tree: Tree, index: Index, path: Path)
    requires path !in tree
    requires forall p :: p != path ==> (p in index <==> FileAt(tree, p)) && (p in index ==> index[p] == RowOf(tree[p]))
    ensures Reconcile(tree, index, Parent(path)) == index - {path}
  {
  }

  // ---- totals ----

  ghost function ChildrenOf(tree: Tree, folder: Path): set<Path> {
    set p | p in tree && p != "" && Parent(p) == folder
  }

  ghost function WithinAny(sizes: Sizes, cs: set<Path>): set<Path> {
    set p | p in sizes && exists c :: c in cs && Within(c, p)
  }

  lemma {:induction false} SiblingsApart(c: Path, d: Path, p: Path)
    requires c != d && c != "" && d != "" && Parent(c) == Parent(d)
    ensures !(Within(c, p) && Within(d, p))
    decreases |p|
  {
    BelowStep(c, p);
    BelowStep(d, p);
    if p != "" { SiblingsApart(c, d, Parent(p)); }
  }

  lemma {:induction false} SomeChildAbove(tree: Tree, folder: Path, p: Path)
    requires DiskTree(tree) && p in tree && p != "" && Below(folder, p)
    ensures exists c :: c in ChildrenOf(tree, folder) && Within(c, p)
    decreases |p|
  {
    if Parent(p) == folder {
      assert Within(p, p);
    } else {
      if folder != "" { BelowStep(folder, p); }
      assert Parent(p) != "";
      SomeChildAbove(tree, folder, Parent(p));
      var c :| c in ChildrenOf(tree, folder) && Within(c, Parent(p));
      BelowStep(c, p);
    }
  }

  lemma WithinChildren(tree: Tree, sizes: Sizes, folder: Path)
    requires DiskTree(tree) && sizes.Keys <= tree.Keys - {""}
    ensures WithinAny(sizes, ChildrenOf(tree, folder)) == BelowIn(sizes, folder)
  {
    forall p | p in sizes && Below(folder, p) ensures p in WithinAny(sizes, ChildrenOf(tree, folder)) {
      SomeChildAbove(tree, folder, p);
    }
    forall p, c | p in sizes && c in ChildrenOf(tree, folder) && Within(c, p) ensures Below(folder, p) {
      if folder != "" { BelowStep(folder, c); }
    }
  }

  lemma WithinSplit(sizes: Sizes, cs: set<Path>, c: Path, folder: Path)
    requires c in cs && forall d :: d in cs ==> d != "" && Parent(d) == folder
    ensures Sum(sizes, WithinAny(sizes, cs))
            == Sum(sizes, WithinAny(sizes, {c})) + Sum(sizes, WithinAny(sizes, cs - {c}))
  {
    var mine, others := WithinAny(sizes, {c}), WithinAny(sizes, cs - {c});
    assert mine !! others by {
      forall p, d | p in mine && d in cs - {c} ensures !Within(d, p) {
        SiblingsApart(c, d, p);
      }
    }
    assert WithinAny(sizes, cs) == mine + others by {
      forall p, d | p in sizes && d in cs && Within(d, p) ensures p in mine + others {
        assert d == c || d in cs - {c};
      }
    }
    SumUnion(sizes, mine, others);
  }

  ghost function Inside(tree: Tree, folder: Path): set<Path> {
    set p | p in tree && Below(folder, p)
  }

  /** The bytes of a node: a file's size, or a recursive walk of a folder. */
  ghost function Walk(tree: Tree, node: Path): nat
    requires DiskTree(tree)
    decreases Inside(tree, node), 1
  {
    if FileAt(tree, node) then |tree[node].content|
    else if FolderAt(tree, node) then WalkAll(tree, node, ChildrenOf(tree, node)) else 0
  }

  ghost function WalkAll(tree: Tree, folder: Path, cs: set<Path>): nat
    requires DiskTree(tree) && cs <= ChildrenOf(tree, folder)
    decreases Inside(tree, folder), 0, cs
  {
    if cs == {} then 0
    else
      var c :| c in cs;
      assert Inside(tree, c) < Inside(tree, folder) by {
        DeeperIsSmaller(tree, folder, c);
      }
      Walk(tree, c) + WalkAll(tree, folder, cs - {c})
  }

  lemma DeeperIsSmaller(tree: Tree, folder: Path, c: Path)
    requires c in ChildrenOf(tree, folder)
    ensures Inside(tree, c) < Inside(tree, folder)
  {
    if folder != "" { BelowStep(folder, c); }
    assert !Below(c, c);
    assert c in Inside(tree, folder) && c !in Inside(tree, c);
  }

  ghost function FileSizes(tree: Tree): Sizes {
    map p | p in tree && p != "" && tree[p].File? :: |tree[p].content|
  }

  lemma {:induction false} WalkIsSum(tree: Tree, node: Path)
    requires DiskTree(tree) && node in tree && (node == "" ==> !FileAt(tree, node))
    ensures Walk(tree, node)
            == if FileAt(tree, node) then |tree[node].content| else SumBelow(FileSizes(tree), node)
    decreases Inside(tree, node), 1
  {
    if FolderAt(tree, node) {
      WalkAllIsSum(tree, node, ChildrenOf(tree, node));
      WithinChildren(tree, FileSizes(tree), node);
    } else if !FileAt(tree, node) {
      NothingBelowLeaf(tree, node);
    }
  }

  lemma NothingBelowLeaf(tree: Tree, node: Path)
    requires DiskTree(tree) && node in tree && !FolderAt(tree, node)
    ensures BelowIn(FileSizes(tree), node) == {}
  {
    forall p | p in tree && p != "" ensures !Below(node, p) {
      AncestorsAreFolders(tree, p);
      AncestorsAreAbove(p, node);
    }
  }

  lemma {:induction false} WalkAllIsSum(tree: Tree, folder: Path, cs: set<Path>)
    requires DiskTree(tree) && cs <= ChildrenOf(tree, folder)
    ensures WalkAll(tree, folder, cs) == Sum(FileSizes(tree), WithinAny(FileSizes(tree), cs))
    decreases Inside(tree, folder), 0, cs
  {
    var sizes := FileSizes(tree);
    if cs == {} {
      assert WithinAny(sizes, cs) == {};
    } else {
      var c :| c in cs && WalkAll(tree, folder, cs) == Walk(tree, c) + WalkAll(tree, folder, cs - {c});
      DeeperIsSmaller(tree, folder, c);
      WalkIsSum(tree, c);
      WalkAllIsSum(tree, folder, cs - {c});
      WithinSplit(sizes, cs, c, folder);
      WithinOne(tree, c);
    }
  }

  lemma WithinLeaf(sizes: Sizes, c: Path)
    requires c in sizes && BelowIn(sizes, c) == {}
    ensures WithinAny(sizes, {c}) == {c}
  {
  }

  /** What one entry of a folder holds, file or folder. */
  lemma WithinOne(tree: Tree, c: Path)
    requires DiskTree(tree) && c in tree && c != ""
    ensures Sum(FileSizes(tree), WithinAny(FileSizes(tree), {c}))
            == if FileAt(tree, c) then |tree[c].content| else SumBelow(FileSizes(tree), c)
  {
    var sizes := FileSizes(tree);
    if FileAt(tree, c) {
      NothingBelowLeaf(tree, c);
      WithinLeaf(sizes, c);
      SumRemove(sizes, {c}, c);
    } else {
      assert WithinAny(sizes, {c}) == BelowIn(sizes, c);
    }
  }

  /** With an exact index, the SQL total of any node on disk is that of a recursive walk. */
  lemma TotalsAreWalks(tree: Tree, folder: Path)
    requires TreeOk(tree) && FolderAt(tree, folder)
    ensures SumBelow(RowSizes(ExactIndex(tree)), folder) == Walk(tree, folder)
  {
    assert RowSizes(ExactIndex(tree)) == FileSizes(tree);
    WalkIsSum(tree, folder);
  }

  // ---- conservation, level by level ----

  ghost function EntriesBytes(entries: seq<Entry>): nat {
    if entries == [] then 0 else entries[0].bytes + EntriesBytes(entries[1..])
  }

  lemma {:induction false} EntriesBytesConcat(a: seq<Entry>, b: seq<Entry>)
    ensures EntriesBytes(a + b) == EntriesBytes(a) + EntriesBytes(b)
  {
    if a == [] {
      assert a + b == b;
    } else {
      assert (a + b)[1..] == a[1..] + b;
      EntriesBytesConcat(a[1..], b);
    }
  }

  ghost function ChildPaths(folder: Path, names: set<string>): set<Path> {
    set n | n in names :: Child(folder, n)
  }

  /** What one entry of a folder weighs: a file's size or a folder's total. */
  ghost function NodeBytes(tree: Tree, c: Path): nat {
    if FileAt(tree, c) then |tree[c].content| else SumBelow(FileSizes(tree), c)
  }

  ghost function NamesBytes(tree: Tree, folder: Path, names: seq<string>): nat {
    if names == [] then 0 else NodeBytes(tree, Child(folder, names[0])) + NamesBytes(tree, folder, names[1..])
  }

  lemma {:induction false} FolderEntriesBytes(tree: Tree, folder: Path, names: seq<string>)
    requires forall n :: n in names ==> !FileAt(tree, Child(folder, n))
    requires RowSizes(ExactIndex(tree)) == FileSizes(tree)
    ensures EntriesBytes(FolderEntries(ExactIndex(tree), folder, names)) == NamesBytes(tree, folder, names)
  {
    if names != [] { FolderEntriesBytes(tree, folder, names[1..]); }
  }

  lemma {:induction false} FileEntriesBytes(tree: Tree, folder: Path, names: seq<string>)
    requires forall n :: n in names ==> FileAt(tree, Child(folder, n))
    ensures EntriesBytes(FileEntries(tree, ExactIndex(tree), folder, names)) == NamesBytes(tree, folder, names)
  {
    if names != [] { FileEntriesBytes(tree, folder, names[1..]); }
  }

  /** The bytes in a set of nodes and below them. */
  ghost function WithinBytes(tree: Tree, cs: set<Path>): nat {
    Sum(FileSizes(tree), WithinAny(FileSizes(tree), cs))
  }

  lemma ChildPathsAreChildren(tree: Tree, folder: Path, names: set<string>)
    requires TreeOk(tree) && names <= NamesIn(tree, folder)
    ensures forall c :: c in ChildPaths(folder, names) ==> c in tree && c != "" && Parent(c) == folder
  {
    EntriesAgree(tree, folder);
  }

  lemma ChildPathsWithout(folder: Path, names: set<string>, n: string)
    requires n in names
    ensures Child(folder, n) in ChildPaths(folder, names)
    ensures ChildPaths(folder, names) - {Child(folder, n)} == ChildPaths(folder, names - {n})
  {
    forall m | m in names && m != n ensures Child(folder, m) != Child(folder, n) { ChildOrder(folder, m, n); }
  }

  lemma PeelChild(tree: Tree, folder: Path, names: set<string>, n: string)
    requires TreeOk(tree) && n in names && names <= NamesIn(tree, folder)
    ensures WithinBytes(tree, ChildPaths(folder, names))
            == NodeBytes(tree, Child(folder, n)) + WithinBytes(tree, ChildPaths(folder, names - {n}))
  {
    ChildPathsAreChildren(tree, folder, names);
    ChildPathsWithout(folder, names, n);
    WithinSplit(FileSizes(tree), ChildPaths(folder, names), Child(folder, n), folder);
    WithinOne(tree, Child(folder, n));
  }

  ghost function NodesOf(folder: Path, names: seq<string>): set<Path> {
    ChildPaths(folder, set n | n in names)
  }

  lemma PeelFirst(tree: Tree, folder: Path, names: seq<string>)
    requires TreeOk(tree) && names != [] && forall n :: n in names ==> n in NamesIn(tree, folder)
    requires names[0] !in names[1..]
    ensures WithinBytes(tree, NodesOf(folder, names))
            == NodeBytes(tree, Child(folder, names[0])) + WithinBytes(tree, NodesOf(folder, names[1..]))
  {
    var all := set n | n in names;
    assert names == [names[0]] + names[1..];
    assert all - {names[0]} == set m | m in names[1..];
    PeelChild(tree, folder, all, names[0]);
  }

  lemma {:induction false} NamesBytesIsSum(tree: Tree, folder: Path, names: seq<string>)
    requires TreeOk(tree) && forall n :: n in names ==> n in NamesIn(tree, folder)
    requires forall i, j :: 0 <= i < j < |names| ==> names[i] != names[j]
    ensures NamesBytes(tree, folder, names) == WithinBytes(tree, NodesOf(folder, names))
  {
    if names == [] {
      assert WithinAny(FileSizes(tree), NodesOf(folder, names)) == {};
    } else {
      PeelFirst(tree, folder, names);
      NamesBytesIsSum(tree, folder, names[1..]);
    }
  }

  lemma ChildrenAreFilesAndFolders(tree: Tree, folder: Path)
    requires TreeOk(tree)
    ensures WithinBytes(tree, ChildPaths(folder, FolderNames(tree, folder)))
            + WithinBytes(tree, ChildPaths(folder, FileNames(tree, folder))) == SumBelow(FileSizes(tree), folder)
  {
    var sizes := FileSizes(tree);
    var folders, files := ChildPaths(folder, FolderNames(tree, folder)), ChildPaths(folder, FileNames(tree, folder));
    EntriesAgree(tree, folder);
    assert ChildrenOf(tree, folder) == folders + files by {
      forall p | p in ChildrenOf(tree, folder) ensures p in folders + files {
        ChildOfParent(p);
        assert Name(p) in NamesIn(tree, folder);
      }
    }
    var a, b := WithinAny(sizes, folders), WithinAny(sizes, files);
    forall p, c, d | c in folders && d in files ensures !(Within(c, p) && Within(d, p)) {
      SiblingsApart(c, d, p);
    }
    assert a + b == WithinAny(sizes, folders + files) by {
      WithinUnion(sizes, folders, files);
    }
    SumUnion(sizes, a, b);
    WithinChildren(tree, sizes, folder);
  }

  lemma WithinUnion(sizes: Sizes, cs: set<Path>, ds: set<Path>)
    ensures WithinAny(sizes, cs + ds) == WithinAny(sizes, cs) + WithinAny(sizes, ds)
  {
  }

  /** The sorted names of a folder's subfolders and files. */
  ghost predicate NamesOfFolder(tree: Tree, folder: Path, folders: seq<string>, files: seq<string>) {
    (forall n :: n in folders <==> n in FolderNames(tree, folder))
    && (forall n :: n in files <==> n in FileNames(tree, folder))
    && (forall i, j :: 0 <= i < j < |folders| ==> folders[i] != folders[j])
    && (forall i, j :: 0 <= i < j < |files| ==> files[i] != files[j])
  }

  lemma NamesConserveBytes(tree: Tree, folder: Path, folders: seq<string>, files: seq<string>)
    requires TreeOk(tree) && NamesOfFolder(tree, folder, folders, files)
    ensures NamesBytes(tree, folder, folders) + NamesBytes(tree, folder, files) == SumBelow(FileSizes(tree), folder)
  {
    NamesBytesIsSum(tree, folder, folders);
    NamesBytesIsSum(tree, folder, files);
    assert (set n | n in folders) == FolderNames(tree, folder);
    assert (set n | n in files) == FileNames(tree, folder);
    ChildrenAreFilesAndFolders(tree, folder);
  }

  lemma EntriesConserveBytes(tree: Tree, folder: Path, folders: seq<string>, files: seq<string>)
    requires TreeOk(tree) && NamesOfFolder(tree, folder, folders, files)
    ensures EntriesBytes(FolderEntries(ExactIndex(tree), folder, folders)
                         + FileEntries(tree, ExactIndex(tree), folder, files))
            == SumBelow(FileSizes(tree), folder)
  {
    assert RowSizes(ExactIndex(tree)) == FileSizes(tree);
    FolderEntriesBytes(tree, folder, folders);
    FileEntriesBytes(tree, folder, files);
    EntriesBytesConcat(FolderEntries(ExactIndex(tree), folder, folders),
                       FileEntries(tree, ExactIndex(tree), folder, files));
    NamesConserveBytes(tree, folder, folders, files);
  }

  lemma ListedEntries(site: Site, slug: Slug, folder: Path)
    requires RefuseList(site, folder).None? && folder in site.tree
    ensures ListFolder(site, slug, folder).1
            == Listing(slug, folder,
                       FolderEntries(site.index, folder, Sorted(FolderNames(site.tree, folder)))
                       + FileEntries(site.tree, site.index, folder, Sorted(FileNames(site.tree, folder))))
  {
  }

  lemma SortedEntriesConserveBytes(tree: Tree, folder: Path)
    requires TreeOk(tree)
    ensures EntriesBytes(FolderEntries(ExactIndex(tree), folder, Sorted(FolderNames(tree, folder)))
                         + FileEntries(tree, ExactIndex(tree), folder, Sorted(FileNames(tree, folder))))
            == SumBelow(FileSizes(tree), folder)
  {
    var folders, files := Sorted(FolderNames(tree, folder)), Sorted(FileNames(tree, folder));
    EntriesConserveBytes(tree, folder, folders, files);
  }

  lemma CanList(site: Site, fake: Fake.FakeSite, folder: Path)
    requires Matches(site, fake) && FolderAt(site.tree, folder)
    ensures RefuseList(site, folder).None? && site.index == ExactIndex(site.tree)
  {
  }

  lemma ExactSizes(tree: Tree)
    requires TreeOk(tree)
    ensures RowSizes(ExactIndex(tree)) == FileSizes(tree)
  {
  }

  /** The bytes of a listing's entries, direct files and direct subfolders' totals, sum to the folder's own
      total; for the root, to the site's. */
  lemma ListingConservesBytes(site: Site, fake: Fake.FakeSite, slug: Slug, folder: Path)
    requires Matches(site, fake) && FolderAt(site.tree, folder)
    ensures var answer := ListFolder(site, slug, folder).1;
            answer.Listing? && EntriesBytes(answer.entries) == SumBelow(RowSizes(site.index), folder)
  {
    CanList(site, fake, folder);
    ListedEntries(site, slug, folder);
    ExactSizes(site.tree);
    SortedEntriesConserveBytes(site.tree, folder);
  }
}
