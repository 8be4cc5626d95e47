/** One site as the real backend keeps it: its row, the folder tree on disk and the index of that tree.
    Each function is one critical section, run whole under the site's lock. */
module SiteStore {
  import opened Common
  import opened Paths
  import opened Sums
  import opened Sorting
  import opened Model

  /** What `lstat` finds. A link or a device is on the volume only when it was changed by hand. */
  datatype Node = File(content: Bytes, mtime: int) | Folder | Link | Device

  /** The tree below `sites/<slug>`, "" being that folder itself; empty when the folder is absent. */
  type Tree = map<Path, Node>

  datatype FileRow = FileRow(bytes: nat, mtime: int, digest: Digest)

  type Index = map<Path, FileRow>

  datatype Site = Site(row: Option<string>, tree: Tree, index: Index)

  const ABSENT := Site(None, map[], map[])

  datatype Kind = Missing | IsFile | IsFolder | IsSpecial

  function KindOf(tree: Tree, path: Path): Kind {
    if path !in tree then Missing
    else match tree[path] case File(_, _) => IsFile case Folder => IsFolder case _ => IsSpecial
  }

  /** `resolve` refuses a path that meets a symbolic link, the site folder and the target included. */
  predicate PassesLink(tree: Tree, path: Path) {
    exists q :: q in Ancestors(path) + {path, ""} && q in tree && tree[q].Link?
  }

  // ---- uploads ----

  /** The climb of `_check_write_target`, nearest parent first. */
  function CheckParents(tree: Tree, path: Path): Option<Answer>
    decreases |path|
  {
    var parent := Parent(path);
    if parent == "" then None
    else
      match KindOf(tree, parent)
      case IsFile => Some(NOT_A_FOLDER)
      case IsSpecial => Some(INVALID_PATH)
      case _ => CheckParents(tree, parent)
  }

  lemma {:induction false} ParentsRefuse(tree: Tree, path: Path)
    ensures CheckParents(tree, path) in {None, Some(NOT_A_FOLDER), Some(INVALID_PATH)}
    decreases |path|
  {
    if Parent(path) != "" { ParentsRefuse(tree, Parent(path)); }
  }

  function CheckWriteTarget(tree: Tree, path: Path, overwrite: bool): Result<bool, Answer> {
    match CheckParents(tree, path)
    case Some(e) => Err(e)
    case None =>
      match KindOf(tree, path)
      case IsFolder => Err(NOT_A_FILE)
      case IsSpecial => Err(INVALID_PATH)
      case IsFile => if overwrite then Ok(true) else Err(FILE_EXISTS)
      case Missing => Ok(false)
  }

  /** `mkdir(parents=True, exist_ok=True)` of the parent; the site's own folder is made as well. */
  function MakeParents(tree: Tree, path: Path): Tree {
    tree + map a | a in Ancestors(path) + {""} :: Folder
  }

  function Place(tree: Tree, path: Path, body: Bytes, mtime: int): Tree {
    MakeParents(tree, path)[path := File(body, mtime)]
  }

  function CommitUpload(site: Site, path: Path, body: Bytes, overwrite: bool, mtime: int): (Site, Answer) {
    if site.row.None? then (site, NOT_FOUND)
    else if PassesLink(site.tree, path) then (site, INVALID_PATH)
    else
      match CheckWriteTarget(site.tree, path, overwrite)
      case Err(e) => (site, e)
      case Ok(replaced) =>
        (site.(tree := Place(site.tree, path, body, mtime),
               index := site.index[path := FileRow(|body|, mtime, Sha256(body))]),
         UploadedAnswer(path, body, replaced))
  }

  // ---- deletions ----

  function RemoveFile(site: Site, path: Path): (Site, Answer) {
    if PassesLink(site.tree, path) then (site, INVALID_PATH)
    else
      match KindOf(site.tree, path)
      case IsFolder => (site, NOT_A_FILE)
      case IsSpecial => (site, INVALID_PATH)
      case Missing => (site, NOT_FOUND)
      case IsFile => (site.(tree := site.tree - {path}, index := site.index - {path}), NoContent)
  }

  /** No entry directly inside. */
  predicate EmptyFolder(tree: Tree, folder: Path) {
    forall p :: p in tree && p != "" ==> Parent(p) != folder
  }

  /** Why a folder may not be removed, if so; checked before `rmtree` starts. */
  function RefuseRemoveFolder(site: Site, path: Path, recursive: bool): Option<Answer> {
    if PassesLink(site.tree, path) then Some(INVALID_PATH)
    else
      match KindOf(site.tree, path)
      case IsFile => Some(NOT_A_FOLDER)
      case IsSpecial => Some(INVALID_PATH)
      case Missing => Some(NOT_FOUND)
      case IsFolder => if !EmptyFolder(site.tree, path) && !recursive then Some(FOLDER_NOT_EMPTY) else None
  }

  /** `rmtree`. */
  function RemoveTree(tree: Tree, path: Path): Tree {
    map p | p in tree && p != path && !Below(path, p) :: tree[p]
  }

  /** `delete_files_under`. */
  function RemoveRows(index: Index, folder: Path): Index {
    map p | p in index && !Below(folder, p) :: index[p]
  }

  function RemoveFolder(site: Site, path: Path, recursive: bool): (Site, Answer) {
    match RefuseRemoveFolder(site, path, recursive)
    case Some(e) => (site, e)
    case None => (site.(tree := RemoveTree(site.tree, path), index := RemoveRows(site.index, path)), NoContent)
  }

  // ---- the site itself ----

  /** `create_site` under the lock; None when the site was made. */
  function MakeSite(site: Site, name: string): (Site, Option<Answer>) {
    if site.row.Some? || "" in site.tree then (site, Some(SITE_EXISTS))
    else (site.(row := Some(name), tree := map["" := Folder]), None)
  }

  /** `delete_site` under the lock. */
  function DropSite(site: Site): Site {
    Site(None, if "" in site.tree then map[] else site.tree, map[])
  }

  // ---- reading ----

  function Read(site: Site, path: Path): Answer {
    if PassesLink(site.tree, path) then INVALID_PATH
    else
      match KindOf(site.tree, path)
      case IsFolder => NOT_A_FILE
      case IsSpecial => INVALID_PATH
      case Missing => NOT_FOUND
      case IsFile => Content(site.tree[path].content)
  }

  function RowSizes(index: Index): Sizes {
    map p | p in index :: index[p].bytes
  }

  // ---- listing ----

  function RowOf(file: Node): FileRow
    requires file.File?
  {
    FileRow(|file.content|, file.mtime, Sha256(file.content))
  }

  /** The row still describes the file by size and mtime, so its digest is reported without reading. */
  predicate Fresh(row: FileRow, file: Node)
    requires file.File?
  {
    row.bytes == |file.content| && row.mtime == file.mtime
  }

  predicate FileAt(tree: Tree, path: Path) {
    path in tree && tree[path].File?
  }

  /** The row a listing reports for a file: the stored one while it is fresh, otherwise a new one. */
  function ReportedRow(tree: Tree, index: Index, path: Path): FileRow
    requires FileAt(tree, path)
  {
    if path in index && Fresh(index[path], tree[path]) then index[path] else RowOf(tree[path])
  }

  /** The index after one existing folder has been listed. */
  function Reconcile(tree: Tree, index: Index, folder: Path): Index {
    map p | p in index.Keys + tree.Keys && (if Parent(p) == folder then FileAt(tree, p) else p in index)
          :: if Parent(p) == folder then ReportedRow(tree, index, p) else index[p]
  }

  /** The names `scandir` yields. */
  function NamesIn(tree: Tree, folder: Path): set<string> {
    set p | p in tree && p != "" && Parent(p) == folder :: Name(p)
  }

  function FolderNames(tree: Tree, folder: Path): set<string> {
    set n | n in NamesIn(tree, folder) && KindOf(tree, Child(folder, n)) == IsFolder
  }

  function FileNames(tree: Tree, folder: Path): set<string> {
    set n | n in NamesIn(tree, folder) && KindOf(tree, Child(folder, n)) == IsFile
  }

  ghost function FolderEntries(index: Index, folder: Path, names: seq<string>): seq<Entry> {
    if names == [] then []
    else
      [FolderEntry(names[0], SumBelow(RowSizes(index), Child(folder, names[0])))]
      + FolderEntries(index, folder, names[1..])
  }

  function FileEntries(tree: Tree, index: Index, folder: Path, names: seq<string>): seq<Entry>
    requires forall n :: n in names ==> FileAt(tree, Child(folder, n))
  {
    if names == [] then []
    else
      var row := ReportedRow(tree, index, Child(folder, names[0]));
      [FileEntry(names[0], row.bytes, row.digest)] + FileEntries(tree, index, folder, names[1..])
  }

  /** Why a folder cannot be listed, if so. */
  function RefuseList(site: Site, folder: Path): Option<Answer> {
    if PassesLink(site.tree, folder) then Some(INVALID_PATH)
    else
      match KindOf(site.tree, folder)
      case IsFile => Some(NOT_A_FOLDER)
      case IsSpecial => Some(INVALID_PATH)
      case Missing => if folder == "" then None else Some(NOT_FOUND)
      case IsFolder => None
  }

  ghost function ListFolder(site: Site, slug: Slug, folder: Path): (Site, Answer) {
    match RefuseList(site, folder)
    case Some(e) => (site, e)
    case None =>
      if folder !in site.tree then (site, Listing(slug, folder, []))
      else
        (site.(index := Reconcile(site.tree, site.index, folder)),
         Listing(slug, folder,
                 FolderEntries(site.index, folder, Sorted(FolderNames(site.tree, folder)))
                 + FileEntries(site.tree, site.index, folder, Sorted(FileNames(site.tree, folder)))))
  }
}
