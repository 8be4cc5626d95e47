/** What a listing answers, told by what is on the disk and in the index, whatever state they are in. */
module Listings {
  import opened Paths
  import opened Sums
  import opened Ordering
  import opened Sorting
  import opened Model
  import opened SiteStore
  import opened Refinement
  import opened FileIndex

  /** Strictly increasing names: each comes once, in order. */
  ghost predicate InNameOrder(entries: seq<Entry>) {
    forall i, j :: 0 <= i < j < |entries| ==> Less(entries[i].name, entries[j].name)
  }

  predicate NameInFolder(tree: Tree, folder: Path, name: string) {
    '/' !in name && Child(folder, name) != "" && Child(folder, name) in tree
  }

  /** A file's size is the one on disk; its digest is right exactly when no stored row passes for the file. */
  ghost predicate ShowsFile(tree: Tree, index: Index, folder: Path, e: Entry) {
    var p := Child(folder, e.name);
    e.FileEntry? && NameInFolder(tree, folder, e.name)
    && match tree[p]
       case File(content, mtime) =>
         e.bytes == |content|
         && (e.digest == Sha256(content)
             <==> !(p in index && index[p].bytes == |content| && index[p].mtime == mtime
                    && index[p].digest != Sha256(content)))
       case _ => false
  }

  ghost predicate ShowsFolder(tree: Tree, index: Index, folder: Path, e: Entry) {
    var p := Child(folder, e.name);
    e.FolderEntry? && NameInFolder(tree, folder, e.name) && tree[p].Folder?
    && e.bytes == SumBelow(RowSizes(index), p)
  }

  ghost predicate HasEntry(folder: Path, entries: seq<Entry>, p: Path) {
    exists i :: 0 <= i < |entries| && Child(folder, entries[i].name) == p
  }

  ghost predicate ShowsFiles(tree: Tree, index: Index, folder: Path, files: seq<Entry>) {
    InNameOrder(files)
    && (forall i :: 0 <= i < |files| ==> ShowsFile(tree, index, folder, files[i]))
    && forall p :: p in tree && p != "" && Parent(p) == folder && tree[p].File? ==> HasEntry(folder, files, p)
  }

  ghost predicate ShowsFolders(tree: Tree, index: Index, folder: Path, folders: seq<Entry>) {
    InNameOrder(folders)
    && (forall i :: 0 <= i < |folders| ==> ShowsFolder(tree, index, folder, folders[i]))
    && forall p :: p in tree && p != "" && Parent(p) == folder && tree[p].Folder? ==> HasEntry(folder, folders, p)
  }

  lemma {:induction false} FileEntriesAre(tree: Tree, index: Index, folder: Path, names: seq<string>)
    requires forall n :: n in names ==> FileAt(tree, Child(folder, n))
    ensures var entries := FileEntries(tree, index, folder, names);
            |entries| == |names|
            && forall i :: 0 <= i < |names| ==>
                 var row := ReportedRow(tree, index, Child(folder, names[i]));
                 entries[i] == FileEntry(names[i], row.bytes, row.digest)
  {
    if names != [] {
      var tail := FileEntries(tree, index, folder, names[1..]);
      FileEntriesAre(tree, index, folder, names[1..]);
      assert FileEntries(tree, index, folder, names)[1..] == tail;
    }
  }

  lemma {:induction false} FolderEntriesAre(index: Index, folder: Path, names: seq<string>)
    ensures var entries := FolderEntries(index, folder, names);
            |entries| == |names|
            && forall i :: 0 <= i < |names| ==>
                 entries[i] == FolderEntry(names[i], SumBelow(RowSizes(index), Child(folder, names[i])))
  {
    if names != [] {
      var tail := FolderEntries(index, folder, names[1..]);
      FolderEntriesAre(index, folder, names[1..]);
      assert FolderEntries(index, folder, names)[1..] == tail;
    }
  }

  lemma FileIsShown(tree: Tree, index: Index, folder: Path, name: string)
    requires NameInFolder(tree, folder, name) && FileAt(tree, Child(folder, name))
    ensures var row := ReportedRow(tree, index, Child(folder, name));
            ShowsFile(tree, index, folder, FileEntry(name, row.bytes, row.digest))
  {
    ReportedRightly(tree, index, Child(folder, name));
  }

  lemma FolderIsShown(tree: Tree, index: Index, folder: Path, name: string)
    requires NameInFolder(tree, folder, name) && tree[Child(folder, name)].Folder?
    ensures ShowsFolder(tree, index, folder, FolderEntry(name, SumBelow(RowSizes(index), Child(folder, name))))
  {
  }

  lemma NamesAreInFolder(tree: Tree, folder: Path)
    requires DiskTree(tree)
    ensures forall n :: n in NamesIn(tree, folder) ==> NameInFolder(tree, folder, n)
    ensures forall p :: p in tree && p != "" && Parent(p) == folder ==>
              Name(p) in NamesIn(tree, folder) && Child(folder, Name(p)) == p
  {
    forall p | p in tree && p != "" && Parent(p) == folder
      ensures Name(p) in NamesIn(tree, folder) && Child(folder, Name(p)) == p && NameInFolder(tree, folder, Name(p))
    {
      ChildOfParent(p);
    }
  }

  /** Entries in the order of a set of names, one for each. */
  ghost predicate ByName(entries: seq<Entry>, names: set<string>) {
    InNameOrder(entries) && (forall i :: 0 <= i < |entries| ==> entries[i].name in names)
    && forall n :: n in names ==> exists i :: 0 <= i < |entries| && entries[i].name == n
  }

  lemma NamedByName(entries: seq<Entry>, names: set<string>)
    requires |entries| == |Sorted(names)|
    requires forall i :: 0 <= i < |entries| ==> entries[i].name == Sorted(names)[i]
    ensures ByName(entries, names)
  {
    SortedSorts(names);
    var sorted := Sorted(names);
    forall n | n in names ensures exists i :: 0 <= i < |entries| && entries[i].name == n {
      var i :| 0 <= i < |sorted| && sorted[i] == n;
      assert entries[i].name == n;
    }
  }

  lemma FilesShown(tree: Tree, index: Index, folder: Path)
    requires DiskTree(tree)
    ensures ShowsFiles(tree, index, folder, FileEntries(tree, index, folder, Sorted(FileNames(tree, folder))))
  {
    var names := Sorted(FileNames(tree, folder));
    var files := FileEntries(tree, index, folder, names);
    FileEntriesAre(tree, index, folder, names);
    NamedByName(files, FileNames(tree, folder));
    NamesAreInFolder(tree, folder);
    forall i | 0 <= i < |files| ensures ShowsFile(tree, index, folder, files[i]) {
      FileIsShown(tree, index, folder, names[i]);
    }
    forall p | p in tree && p != "" && Parent(p) == folder && tree[p].File? ensures HasEntry(folder, files, p) {
      assert Name(p) in FileNames(tree, folder);
    }
  }

  lemma FolderNamed(tree: Tree, folder: Path, name: string)
    requires DiskTree(tree) && name in FolderNames(tree, folder)
    ensures NameInFolder(tree, folder, name) && tree[Child(folder, name)].Folder?
  {
    NamesAreInFolder(tree, folder);
  }

  lemma FolderHasName(tree: Tree, folder: Path, p: Path)
    requires DiskTree(tree) && p in tree && p != "" && Parent(p) == folder && tree[p].Folder?
    ensures Name(p) in FolderNames(tree, folder) && Child(folder, Name(p)) == p
  {
    NamesAreInFolder(tree, folder);
  }

  lemma FoldersShown(tree: Tree, index: Index, folder: Path)
    requires DiskTree(tree)
    ensures ShowsFolders(tree, index, folder, FolderEntries(index, folder, Sorted(FolderNames(tree, folder))))
  {
    var all := FolderNames(tree, folder);
    var names := Sorted(all);
    var folders := FolderEntries(index, folder, names);
    FolderEntriesAre(index, folder, names);
    NamedByName(folders, all);
    forall i | 0 <= i < |folders| ensures ShowsFolder(tree, index, folder, folders[i]) {
      FolderNamed(tree, folder, folders[i].name);
      FolderIsShown(tree, index, folder, folders[i].name);
    }
    forall p | p in tree && p != "" && Parent(p) == folder && tree[p].Folder? ensures HasEntry(folder, folders, p) {
      FolderHasName(tree, folder, p);
    }
  }

  /** Any index, any disk: a listing answers with the subfolders and then the regular files of the folder, each once
      and by name. A file has the size it has on disk, and the right digest unless a stored row with its size and mtime
      and another digest passes for it. Links and devices are left out. */
  lemma ListingShows(site: Site, slug: Slug, folder: Path) returns (folders: seq<Entry>, files: seq<Entry>)
    requires DiskTree(site.tree) && folder in site.tree && site.tree[folder].Folder?
    ensures ListFolder(site, slug, folder).1 == Listing(slug, folder, folders + files)
    ensures ShowsFolders(site.tree, site.index, folder, folders) && ShowsFiles(site.tree, site.index, folder, files)
  {
    FoldersCanBeListed(site, folder);
    folders, files := ListedParts(site, slug, folder);
  }

  lemma ListedParts(site: Site, slug: Slug, folder: Path) returns (folders: seq<Entry>, files: seq<Entry>)
    requires RefuseList(site, folder).None? && DiskTree(site.tree) && folder in site.tree
    ensures ListFolder(site, slug, folder).1 == Listing(slug, folder, folders + files)
    ensures ShowsFolders(site.tree, site.index, folder, folders) && ShowsFiles(site.tree, site.index, folder, files)
  {
    folders := FolderEntries(site.index, folder, Sorted(FolderNames(site.tree, folder)));
    files := FileEntries(site.tree, site.index, folder, Sorted(FileNames(site.tree, folder)));
    ListedEntries(site, slug, folder);
    FoldersShown(site.tree, site.index, folder);
    FilesShown(site.tree, site.index, folder);
  }
}
