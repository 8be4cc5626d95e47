/** The in-memory backend: per site one dictionary of files and one of folders. This is the specification
    of the real one. */
module FakeBackend {
  import opened Common
  import opened Naming
  import opened Paths
  import opened Sums
  import opened Sorting
  import opened Model

  datatype View = View(files: map<Path, Bytes>, folders: set<Path>)

  const EMPTY := View(map[], {})

  /** Files and folders are disjoint, and the parent of every stored path is a folder. */
  ghost predicate WellFormed(v: View) {
    v.files.Keys !! v.folders && "" !in v.files && "" !in v.folders
    && forall p :: p in v.files || p in v.folders ==> Parent(p) == "" || Parent(p) in v.folders
  }

  // ---- the operations on one site ----

  /** `add_folders_for`: climb until the root or a folder that is already there. */
  function AddFoldersFor(folders: set<Path>, path: Path): set<Path>
    decreases |path|
  {
    var parent := Parent(path);
    if parent == "" || parent in folders then folders else AddFoldersFor(folders + {parent}, parent)
  }

  function Sizes(v: View): Sums.Sizes {
    map p | p in v.files :: |v.files[p]|
  }

  /** `_check_write_target`: whether the write replaces a file, or why it is refused. */
  function CheckWriteTarget(v: View, path: Path, overwrite: bool): Result<bool, Answer> {
    if path in v.folders then Err(NOT_A_FILE)
    else if Ancestors(path) !! v.files.Keys then
      if path !in v.files then Ok(false)
      else if overwrite then Ok(true) else Err(FILE_EXISTS)
    else Err(NOT_A_FOLDER)
  }

  function Write(v: View, path: Path, body: Bytes): View {
    View(v.files[path := body], AddFoldersFor(v.folders, path))
  }

  function UploadTo(v: View, path: Path, body: Bytes, overwrite: bool): (View, Answer) {
    match CheckWriteTarget(v, path, overwrite)
    case Err(e) => (v, e)
    case Ok(replaced) => (Write(v, path, body), UploadedAnswer(path, body, replaced))
  }

  function DeleteFileFrom(v: View, path: Path): (View, Answer) {
    if path in v.folders then (v, NOT_A_FILE)
    else if path !in v.files then (v, NOT_FOUND)
    else (v.(files := v.files - {path}), NoContent)
  }

  function FoldersBelow(v: View, folder: Path): set<Path> {
    set p | p in v.folders && Below(folder, p)
  }

  function FilesBelow(v: View, folder: Path): set<Path> {
    set p | p in v.files && Below(folder, p)
  }

  function DeleteFolderFrom(v: View, path: Path, recursive: bool): (View, Answer) {
    if path in v.files then (v, NOT_A_FOLDER)
    else if path !in v.folders then (v, NOT_FOUND)
    else if (FoldersBelow(v, path) != {} || FilesBelow(v, path) != {}) && !recursive then (v, FOLDER_NOT_EMPTY)
    else (View(v.files - FilesBelow(v, path), v.folders - FoldersBelow(v, path) - {path}), NoContent)
  }

  function Read(v: View, path: Path): Answer {
    if path in v.folders then NOT_A_FILE
    else if path !in v.files then NOT_FOUND
    else Content(v.files[path])
  }

  ghost function FolderEntries(v: View, folders: seq<Path>): seq<Entry>
  {
    if folders == [] then []
    else [FolderEntry(Name(folders[0]), SumBelow(Sizes(v), folders[0]))] + FolderEntries(v, folders[1..])
  }

  function FileEntries(v: View, files: seq<Path>): seq<Entry>
    requires forall p :: p in files ==> p in v.files
  {
    if files == [] then []
    else [FileEntry(Name(files[0]), |v.files[files[0]]|, Sha256(v.files[files[0]]))] + FileEntries(v, files[1..])
  }

  /** `children`, subfolders and files. */
  function Subfolders(v: View, folder: Path): set<Path> {
    set p | p in v.folders && Parent(p) == folder && Below(folder, p)
  }

  function DirectFiles(v: View, folder: Path): set<Path> {
    set p | p in v.files && Parent(p) == folder && Below(folder, p)
  }

  ghost function List(v: View, slug: Slug, folder: Path): Answer {
    if folder in v.files then NOT_A_FOLDER
    else if folder != "" && folder !in v.folders then NOT_FOUND
    else
      Listing(slug, folder,
              FolderEntries(v, Sorted(Subfolders(v, folder))) + FileEntries(v, Sorted(DirectFiles(v, folder))))
  }

  // ---- the routes ----

  datatype FakeSite = FakeSite(name: string, view: View)

  type Sites = map<Slug, FakeSite>

  ghost function PublicSite(sites: Sites, slug: Slug): SiteInfo
    requires slug in sites
  {
    var v := sites[slug].view;
    SiteInfo(slug, sites[slug].name, |v.files|, Sum(Sizes(v), v.files.Keys))
  }

  ghost function PublicSites(sites: Sites, slugs: seq<Slug>): seq<SiteInfo>
    requires forall s :: s in slugs ==> s in sites
  {
    if slugs == [] then [] else [PublicSite(sites, slugs[0])] + PublicSites(sites, slugs[1..])
  }

  /** Run an operation on one site and store its new view. */
  function Store(sites: Sites, slug: Slug, result: (View, Answer)): (Sites, Answer)
    requires slug in sites
  {
    (sites[slug := sites[slug].(view := result.0)], result.1)
  }

  /** `_site`, then `_valid_path`. */
  function Target(sites: Sites, slug: Slug, path: string, allowRoot: bool): (r: Result<Path, Answer>)
    ensures r.Ok? ==> slug in sites && (r.value != "" || allowRoot)
  {
    if slug !in sites then Err(NOT_FOUND)
    else
      match ValidateSitePath(path, allowRoot)
      case Err(_) => Err(INVALID_PATH)
      case Ok(target) =>
        assert target != "" || allowRoot by { ValidateSitePathExact(path, allowRoot, target); }
        Ok(target)
  }

  ghost function Create(sites: Sites, name: string, folded: string): (Sites, Answer) {
    match SlugFromName(folded)
    case Err(_) => (sites, INVALID_NAME)
    case Ok(slug) =>
      if slug in sites then (sites, SITE_EXISTS)
      else
        var sites' := sites[slug := FakeSite(name, EMPTY)];
        (sites', Created(PublicSite(sites', slug)))
  }

  ghost function Handle(sites: Sites, request: Request, cap: nat): (Sites, Answer) {
    match request
    case ListSites => (sites, SiteList(PublicSites(sites, Sorted(sites.Keys))))
    case CreateSite(name, folded) => Create(sites, name, folded)
    case GetSite(slug) => (sites, if slug !in sites then NOT_FOUND else Info(PublicSite(sites, slug)))
    case DeleteSite(slug, confirm) =>
      if slug !in sites then (sites, NOT_FOUND)
      else if confirm != Some(slug) then (sites, CONFIRM_MISMATCH)
      else (sites - {slug}, NoContent)
    case ListFiles(slug, path) =>
      (match Target(sites, slug, path, true)
       case Err(e) => (sites, e)
       case Ok(folder) => (sites, List(sites[slug].view, slug, folder)))
    case Upload(slug, path, body, overwrite, declared) =>
      (match Target(sites, slug, path, false)
       case Err(e) => (sites, e)
       case Ok(target) =>
         if |body| > cap then (sites, TOO_LARGE)
         else Store(sites, slug, UploadTo(sites[slug].view, target, body, overwrite)))
    case Download(slug, path) =>
      (match Target(sites, slug, path, false)
       case Err(e) => (sites, e)
       case Ok(target) => (sites, Read(sites[slug].view, target)))
    case DeleteFile(slug, path) =>
      (match Target(sites, slug, path, false)
       case Err(e) => (sites, e)
       case Ok(target) => Store(sites, slug, DeleteFileFrom(sites[slug].view, target)))
    case DeleteFolder(slug, path, recursive) =>
      (match Target(sites, slug, path, false)
       case Err(e) => (sites, e)
       case Ok(target) => Store(sites, slug, DeleteFolderFrom(sites[slug].view, target, recursive)))
  }

  // ---- well-formedness is kept ----

  lemma {:induction false} AncestorsOfStored(v: View, p: Path)
    requires WellFormed(v) && (p in v.files || p in v.folders || p == "")
    ensures Ancestors(p) <= v.folders
    decreases |p|
  {
    if Parent(p) != "" { AncestorsOfStored(v, Parent(p)); }
  }

  /** The early stop loses nothing: afterwards exactly the missing ancestors have been added. */
  lemma {:induction false} AddFoldersForAddsAncestors(v: View, path: Path)
    requires WellFormed(v)
    ensures AddFoldersFor(v.folders, path) == v.folders + Ancestors(path)
    decreases |path|
  {
    var parent := Parent(path);
    if parent != "" {
      if parent in v.folders {
        AncestorsOfStored(v, parent);
      } else {
        AddFoldersForFrom(v, v.folders + {parent}, parent);
      }
    }
  }

  lemma {:induction false} AddFoldersForFrom(v: View, folders: set<Path>, path: Path)
    requires WellFormed(v) && v.folders <= folders
    requires forall p :: p in folders && p !in v.folders ==> |p| >= |path|
    ensures AddFoldersFor(folders, path) == folders + Ancestors(path)
    decreases |path|
  {
    var parent := Parent(path);
    if parent != "" {
      if parent in folders {
        AncestorsOfStored(v, parent);
      } else {
        AddFoldersForFrom(v, folders + {parent}, parent);
      }
    }
  }

  lemma UploadKeepsWellFormed(v: View, path: Path, body: Bytes, overwrite: bool)
    requires WellFormed(v) && path != ""
    ensures WellFormed(UploadTo(v, path, body, overwrite).0)
  {
    if CheckWriteTarget(v, path, overwrite).Ok? {
      AddFoldersForAddsAncestors(v, path);
      var v' := Write(v, path, body);
      assert path !in Ancestors(path) && "" !in Ancestors(path) by {
        AncestorsAreAbove(path, path);
        AncestorsAreAbove(path, "");
      }
      forall p | p in v'.files || p in v'.folders ensures Parent(p) == "" || Parent(p) in v'.folders {
        if p in Ancestors(path) {
          AncestorsChain(path, p);
        }
      }
    }
  }

  lemma {:induction false} AncestorsChain(path: Path, a: Path)
    requires a in Ancestors(path)
    ensures Ancestors(a) <= Ancestors(path) && (Parent(a) == "" || Parent(a) in Ancestors(path))
    decreases |path|
  {
    if a != Parent(path) { AncestorsChain(Parent(path), a); }
  }

  lemma DeletesKeepWellFormed(v: View, path: Path, recursive: bool)
    requires WellFormed(v)
    ensures WellFormed(DeleteFileFrom(v, path).0) && WellFormed(DeleteFolderFrom(v, path, recursive).0)
  {
  }

  ghost predicate AllWellFormed(sites: Sites) {
    forall s :: s in sites ==> IsSlug(s) && WellFormed(sites[s].view)
  }

  lemma StoreKeepsWellFormed(sites: Sites, slug: Slug, result: (View, Answer))
    requires AllWellFormed(sites) && slug in sites && WellFormed(result.0)
    ensures AllWellFormed(Store(sites, slug, result).0)
  {
  }

  lemma CreateKeepsWellFormed(sites: Sites, name: string, folded: string)
    requires AllWellFormed(sites)
    ensures AllWellFormed(Create(sites, name, folded).0)
  {
    SlugFromNameMeaning(folded);
  }

  /** Every request keeps every site well formed. */
  lemma HandleKeepsWellFormed(sites: Sites, request: Request, cap: nat)
    requires AllWellFormed(sites)
    ensures AllWellFormed(Handle(sites, request, cap).0)
  {
    match request
    case CreateSite(name, folded) => CreateKeepsWellFormed(sites, name, folded);
    case Upload(slug, path, body, overwrite, declared) =>
      var target := Target(sites, slug, path, false);
      if target.Ok? && |body| <= cap {
        UploadKeepsWellFormed(sites[slug].view, target.value, body, overwrite);
        StoreKeepsWellFormed(sites, slug, UploadTo(sites[slug].view, target.value, body, overwrite));
      }
    case DeleteFile(slug, path) =>
      var target := Target(sites, slug, path, false);
      if target.Ok? {
        DeletesKeepWellFormed(sites[slug].view, target.value, false);
        StoreKeepsWellFormed(sites, slug, DeleteFileFrom(sites[slug].view, target.value));
      }
    case DeleteFolder(slug, path, recursive) =>
      var target := Target(sites, slug, path, false);
      if target.Ok? {
        DeletesKeepWellFormed(sites[slug].view, target.value, recursive);
        StoreKeepsWellFormed(sites, slug, DeleteFolderFrom(sites[slug].view, target.value, recursive));
      }
    case _ =>
  }
}
