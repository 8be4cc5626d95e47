/** The database tables and the storage object over them, as classes that change in place. Each method is one
    call with nobody else in between; its state afterwards is that of the functions in `SiteStore`. */
module Volume {
  import opened Common
  import opened Paths
  import opened Sums
  import opened Model
  import opened SiteStore
  import opened Protocol
  import RealBackend

  /** The `sites` and `files` tables; a file row belongs to a site row. */
  class Database {
    var sites: map<Slug, string>
    var files: map<Slug, Index>

    ghost predicate Valid()
      reads this
    {
      forall s :: s in files ==> s in sites && forall p :: p in files[s] ==> p != "" && p[0] != '/'
    }

    function Rows(slug: Slug): Index
      reads this
    {
      if slug in files then files[slug] else map[]
    }

    constructor ()
      ensures Valid() && sites == map[] && files == map[]
    {
      sites, files := map[], map[];
    }

    method InsertSite(slug: Slug, name: string) returns (conflict: bool)
      requires Valid()
      modifies this`sites
      ensures Valid() && (conflict <==> slug in old(sites))
      ensures sites == if conflict then old(sites) else old(sites)[slug := name]
    {
      conflict := slug in sites;
      if !conflict { sites := sites[slug := name]; }
    }

    /** The row goes, and through the foreign key its file rows. */
    method DeleteSite(slug: Slug) returns (found: bool)
      requires Valid()
      modifies this
      ensures Valid() && (found <==> slug in old(sites)) && sites == old(sites) - {slug}
      ensures Rows(slug) == map[] && forall s :: s != slug ==> Rows(s) == old(Rows(s))
    {
      found := slug in sites;
      sites := sites - {slug};
      files := files - {slug};
    }

    method UpsertFile(slug: Slug, path: Path, row: FileRow)
      requires Valid() && slug in sites && path != "" && path[0] != '/'
      modifies this`files
      ensures Valid() && Rows(slug) == old(Rows(slug))[path := row]
      ensures forall s :: s != slug ==> Rows(s) == old(Rows(s))
    {
      files := files[slug := Rows(slug)[path := row]];
    }

    method DeleteFileRow(slug: Slug, path: Path)
      requires Valid()
      modifies this`files
      ensures Valid() && Rows(slug) == old(Rows(slug)) - {path}
      ensures forall s :: s != slug ==> Rows(s) == old(Rows(s))
    {
      if slug in files { files := files[slug := files[slug] - {path}]; }
    }

    method DeleteFilesUnder(slug: Slug, folder: Path) returns (count: nat)
      requires Valid()
      modifies this`files
      ensures Valid() && Rows(slug) == RemoveRows(old(Rows(slug)), folder)
      ensures count == |set p | p in old(Rows(slug)) && Below(folder, p)|
      ensures forall s :: s != slug ==> Rows(s) == old(Rows(s))
    {
      var rows := Rows(slug);
      var below := set p | p in rows && SqlBelow(folder, p);
      assert below == set p | p in rows && Below(folder, p);
      count := |below|;
      if slug in files {
        files := files[slug := map p | p in rows && !SqlBelow(folder, p) :: rows[p]];
      }
    }

    /** The SQL prefix and substring filters select the rows whose parent is the folder. */
    method FilesInFolder(slug: Slug, folder: Path) returns (rows: Index)
      requires Valid()
      ensures rows == map p | p in Rows(slug) && Parent(p) == folder :: Rows(slug)[p]
    {
      rows := map p | p in Rows(slug) && SqlDirect(folder, p) :: Rows(slug)[p];
      forall p | p in Rows(slug) ensures SqlDirect(folder, p) <==> Parent(p) == folder {
        SqlDirectExact(folder, p);
      }
    }

    method FolderTotals(slug: Slug, folder: Path) returns (count: nat, bytes: nat)
      ensures count == |BelowIn(RowSizes(Rows(slug)), folder)|
      ensures bytes == SumBelow(RowSizes(Rows(slug)), folder)
    {
      var rows := Rows(slug);
      var left := set p | p in rows && SqlBelow(folder, p);
      ghost var all := BelowIn(RowSizes(rows), folder);
      assert left == all;
      count, bytes := 0, 0;
      while left != {}
        invariant left <= all && count + |left| == |all|
        invariant bytes + Sum(RowSizes(rows), left) == SumBelow(RowSizes(rows), folder)
      {
        var p :| p in left;
        SumRemove(RowSizes(rows), left, p);
        count, bytes, left := count + 1, bytes + rows[p].bytes, left - {p};
      }
    }
  }

  /** A body received whole, its digest taken as it streamed. */
  datatype Staged = Staged(part: StagingName, digest: Digest, bytes: nat)

  class Storage {
    var disk: map<Slug, Tree>
    var staging: map<StagingName, Parcel>
    const cap: nat
    const db: Database

    ghost predicate Valid()
      reads this, db
    {
      db.Valid()
    }

    function TreeOf(slug: Slug): Tree
      reads this
    {
      if slug in disk then disk[slug] else map[]
    }

    function SiteOf(slug: Slug): Site
      reads this, db
    {
      Site(if slug in db.sites then Some(db.sites[slug]) else None, TreeOf(slug), db.Rows(slug))
    }

    constructor (cap: nat, db: Database)
      requires db.Valid()
      ensures Valid() && this.cap == cap && this.db == db && disk == map[] && staging == map[]
    {
      this.cap, this.db, disk, staging := cap, db, map[], map[];
    }

    // ---- uploads ----

    /** Receive a body chunk by chunk into a fresh part file, hashing it and counting it against the cap. */
    method Stage(chunks: seq<Bytes>, part: StagingName) returns (r: Result<Staged, Answer>)
      requires part !in staging
      modifies this`staging
      ensures r == if |Flatten(chunks)| <= cap then Ok(Staged(part, Sha256(Flatten(chunks)), |Flatten(chunks)|))
                   else Err(TOO_LARGE)
      ensures staging == if r.Ok? then old(staging)[part := Part(Flatten(chunks))] else old(staging)
    {
      staging := staging[part := Part([])];
      var digest: Bytes := [];
      var size := 0;
      for i := 0 to |chunks|
        invariant digest == Flatten(chunks[..i]) && size == |digest| <= cap
        invariant staging == old(staging)[part := Part(digest)]
      {
        var chunk := chunks[i];
        assert chunks[..i + 1][..i] == chunks[..i];
        if chunk != [] {
          size := size + |chunk|;
          if size > cap {
            FlattenGrows(chunks, i + 1);
            staging := staging - {part};
            return Err(TOO_LARGE);
          }
          digest := digest + chunk;
          staging := staging[part := Part(digest)];
        }
      }
      assert chunks[..|chunks|] == chunks;
      r := Ok(Staged(part, Sha256(digest), size));
    }

    /** The climb to the site's root, nearest parent first, then the target. */
    method CheckWriteTarget(slug: Slug, path: Path, overwrite: bool) returns (r: Result<bool, Answer>)
      ensures r == SiteStore.CheckWriteTarget(TreeOf(slug), path, overwrite)
    {
      var tree := TreeOf(slug);
      var parent := Parent(path);
      ghost var child := path;
      while parent != ""
        invariant parent == Parent(child)
        invariant CheckParents(tree, path) == CheckParents(tree, child)
        decreases |parent|
      {
        match KindOf(tree, parent) {
          case IsFile => return Err(NOT_A_FOLDER);
          case IsSpecial => return Err(INVALID_PATH);
          case _ =>
        }
        child := parent;
        parent := Parent(parent);
      }
      match KindOf(tree, path) {
        case IsFolder => r := Err(NOT_A_FILE);
        case IsSpecial => r := Err(INVALID_PATH);
        case IsFile => r := if overwrite then Ok(true) else Err(FILE_EXISTS);
        case Missing => r := Ok(false);
      }
    }

    /** The part of `write_file` under the lock: the part file becomes the target, or goes. */
    method Land(slug: Slug, path: Path, staged: Staged, overwrite: bool, mtime: int) returns (answer: Answer)
      requires Valid() && path != "" && path[0] != '/'
      requires staged.part in staging && staging[staged.part].Part?
      requires var body := staging[staged.part].content; staged.bytes == |body| && staged.digest == Sha256(body)
      modifies this`disk, this`staging, db`files
      ensures Valid() && staging == old(staging) - {staged.part}
      ensures (SiteOf(slug), answer)
              == CommitUpload(old(SiteOf(slug)), path, old(staging)[staged.part].content, overwrite, mtime)
      ensures forall s :: s != slug ==> SiteOf(s) == old(SiteOf(s))
    {
      var body := staging[staged.part].content;
      staging := staging - {staged.part};
      if slug !in db.sites { return NOT_FOUND; }
      if PassesLink(TreeOf(slug), path) { return INVALID_PATH; }
      var checked := CheckWriteTarget(slug, path, overwrite);
      match checked
      case Err(e) => answer := e;
      case Ok(replaced) =>
        disk := disk[slug := Place(TreeOf(slug), path, body, mtime)];
        db.UpsertFile(slug, path, FileRow(staged.bytes, mtime, staged.digest));
        answer := Uploaded(if replaced then 200 else 201, path, staged.bytes, staged.digest, replaced);
    }

    /** `write_file` with nobody else in between. */
    method WriteFile(slug: Slug, path: Path, chunks: seq<Bytes>, overwrite: bool, declared: Option<nat>,
                     mtime: int, part: StagingName)
      returns (answer: Answer)
      requires Valid() && path != "" && path[0] != '/' && part !in staging
      requires declared.Some? ==> declared.value == |Flatten(chunks)|
      modifies this`disk, this`staging, db`files
      ensures Valid() && staging == old(staging)
      ensures (SiteOf(slug), answer)
              == RealBackend.WriteFile(old(SiteOf(slug)), path, Flatten(chunks), overwrite, declared.Some?, cap, mtime)
      ensures forall s :: s != slug ==> SiteOf(s) == old(SiteOf(s))
    {
      if PassesLink(TreeOf(slug), path) { return INVALID_PATH; }
      if declared.Some? && declared.value > cap { return TOO_LARGE; }
      var staged := Stage(chunks, part);
      match staged
      case Err(e) => answer := e;
      case Ok(s) => answer := Land(slug, path, s, overwrite, mtime);
    }

    // ---- deletions ----

    method DeleteFile(slug: Slug, path: Path) returns (answer: Answer)
      requires Valid()
      modifies this`disk, db`files
      ensures Valid() && (SiteOf(slug), answer) == RemoveFile(old(SiteOf(slug)), path)
      ensures forall s :: s != slug ==> SiteOf(s) == old(SiteOf(s))
    {
      var tree := TreeOf(slug);
      if PassesLink(tree, path) { return INVALID_PATH; }
      match KindOf(tree, path) {
        case IsFolder => answer := NOT_A_FILE;
        case IsSpecial => answer := INVALID_PATH;
        case Missing => answer := NOT_FOUND;
        case IsFile =>
          disk := disk[slug := tree - {path}];
          db.DeleteFileRow(slug, path);
          answer := NoContent;
      }
    }

    method DeleteFolder(slug: Slug, path: Path, recursive: bool) returns (answer: Answer)
      requires Valid()
      modifies this`disk, db`files
      ensures Valid() && (SiteOf(slug), answer) == RemoveFolder(old(SiteOf(slug)), path, recursive)
      ensures forall s :: s != slug ==> SiteOf(s) == old(SiteOf(s))
    {
      var tree := TreeOf(slug);
      if PassesLink(tree, path) { return INVALID_PATH; }
      match KindOf(tree, path) {
        case IsFile => answer := NOT_A_FOLDER;
        case IsSpecial => answer := INVALID_PATH;
        case Missing => answer := NOT_FOUND;
        case IsFolder =>
          if !EmptyFolder(tree, path) && !recursive {
            answer := FOLDER_NOT_EMPTY;
          } else {
            disk := disk[slug := RemoveTree(tree, path)];
            var _ := db.DeleteFilesUnder(slug, path);
            answer := NoContent;
          }
      }
    }

    // ---- sites ----

    /** The folder first, then the row; a folder already on the volume is never adopted, and an insert that fails
        takes the new folder away again. */
    method CreateSite(slug: Slug, name: string, insertFails: bool) returns (refusal: Option<Answer>)
      requires Valid()
      modifies this`disk, db`sites
      ensures Valid()
      ensures if MakeSite(old(SiteOf(slug)), name).1.None? && insertFails
              then (SiteOf(slug), refusal) == (old(SiteOf(slug)), Some(INTERNAL_ERROR))
              else (SiteOf(slug), refusal) == MakeSite(old(SiteOf(slug)), name)
      ensures forall s :: s != slug ==> SiteOf(s) == old(SiteOf(s))
    {
      if slug in db.sites || "" in TreeOf(slug) { return Some(SITE_EXISTS); }
      var before := disk;
      disk := disk[slug := map["" := Folder]];
      if insertFails {
        disk := before;
        return Some(INTERNAL_ERROR);
      }
      var conflict := db.InsertSite(slug, name);
      refusal := None;
    }

    /** The folder is parked in staging in one rename and its rows go; the parked folder is then removed. */
    method DeleteSite(slug: Slug, parked: StagingName)
      requires Valid() && parked !in staging
      modifies this`disk, this`staging, db
      ensures Valid() && SiteOf(slug) == DropSite(old(SiteOf(slug))) && staging == old(staging)
      ensures forall s :: s != slug ==> SiteOf(s) == old(SiteOf(s))
    {
      var found := "" in TreeOf(slug);
      if found {
        staging := staging[parked := Parked(TreeOf(slug))];
        disk := disk - {slug};
      }
      var _ := db.DeleteSite(slug);
      if found { staging := staging - {parked}; }
    }

    // ---- listing ----

    /** The row reported for one file: the stored one while it is fresh, otherwise a new one, written. */
    method ReportFile(slug: Slug, path: Path, indexed: Index) returns (row: FileRow)
      requires Valid() && slug in db.sites && path != "" && path[0] != '/' && FileAt(TreeOf(slug), path)
      requires path in indexed <==> path in db.Rows(slug)
      requires path in indexed ==> db.Rows(slug)[path] == indexed[path]
      modifies db`files
      ensures Valid() && row == ReportedRow(TreeOf(slug), indexed, path)
      ensures db.Rows(slug) == old(db.Rows(slug))[path := row]
      ensures forall s :: s != slug ==> db.Rows(s) == old(db.Rows(s))
    {
      var file := TreeOf(slug)[path];
      if path in indexed && indexed[path].bytes == |file.content| && indexed[path].mtime == file.mtime {
        row := indexed[path];
      } else {
        row := FileRow(|file.content|, file.mtime, Sha256(file.content));
        db.UpsertFile(slug, path, row);
      }
    }

    /** The scan so far: which rows are written, which entries are reported. */
    ghost predicate ScannedSoFar(slug: Slug, folder: Path, index: Index, done: set<string>,
                                 totals: map<string, nat>, rows: map<string, FileRow>, seen: set<Path>)
      reads this, db
    {
      var tree := TreeOf(slug);
      seen == DirectFilePaths(tree, folder, done)
      && db.Rows(slug) == Scanned(tree, index, seen)
      && Reported(tree, index, folder, done, totals, rows)
    }

    method ScanFolder(slug: Slug, folder: Path, name: string, ghost index: Index, ghost done: set<string>,
                      totals: map<string, nat>, rows: map<string, FileRow>, seen: set<Path>)
      returns (totals': map<string, nat>)
      requires RelativeTree(TreeOf(slug)) && ScannedSoFar(slug, folder, index, done, totals, rows, seen)
      requires name in NamesIn(TreeOf(slug), folder) && KindOf(TreeOf(slug), Child(folder, name)) == IsFolder
      ensures ScannedSoFar(slug, folder, index, done + {name}, totals', rows, seen)
    {
      var path := Child(folder, name);
      EntryPath(TreeOf(slug), folder, name);
      DirectFilePathsStep(TreeOf(slug), folder, done, name);
      SubfolderTotalStays(TreeOf(slug), index, seen, folder, path);
      var _, bytes := db.FolderTotals(slug, path);
      FolderStep(TreeOf(slug), index, folder, done, name, totals, rows, bytes);
      totals' := totals[name := bytes];
    }

    method ScanFile(slug: Slug, folder: Path, name: string, indexed: Index, ghost index: Index,
                    ghost done: set<string>, totals: map<string, nat>, rows: map<string, FileRow>, seen: set<Path>)
      returns (rows': map<string, FileRow>, seen': set<Path>)
      requires Valid() && slug in db.sites
      requires RelativeTree(TreeOf(slug)) && ScannedSoFar(slug, folder, index, done, totals, rows, seen)
      requires name in NamesIn(TreeOf(slug), folder) && name !in done && FileAt(TreeOf(slug), Child(folder, name))
      requires indexed == map p | p in index && Parent(p) == folder :: index[p]
      modifies db`files
      ensures Valid() && ScannedSoFar(slug, folder, index, done + {name}, totals, rows', seen')
      ensures forall s :: s != slug ==> db.Rows(s) == old(db.Rows(s))
    {
      var path := Child(folder, name);
      EntryPath(TreeOf(slug), folder, name);
      DirectFilePathsStep(TreeOf(slug), folder, done, name);
      ScannedAt(TreeOf(slug), index, folder, done, name);
      FileStep(TreeOf(slug), index, folder, done, name, totals, rows);
      var row := ReportFile(slug, path, indexed);
      rows', seen' := rows[name := row], seen + {path};
    }

    lemma ScanStarts(slug: Slug, folder: Path)
      ensures ScannedSoFar(slug, folder, db.Rows(slug), {}, map[], map[], {})
    {
    }

    lemma SkipEntry(slug: Slug, folder: Path, name: string, index: Index, done: set<string>,
                    totals: map<string, nat>, rows: map<string, FileRow>, seen: set<Path>)
      requires RelativeTree(TreeOf(slug)) && ScannedSoFar(slug, folder, index, done, totals, rows, seen)
      requires name in NamesIn(TreeOf(slug), folder) && !FileAt(TreeOf(slug), Child(folder, name))
      requires KindOf(TreeOf(slug), Child(folder, name)) != IsFolder
      ensures ScannedSoFar(slug, folder, index, done + {name}, totals, rows, seen)
    {
      DirectFilePathsStep(TreeOf(slug), folder, done, name);
      SkipStep(TreeOf(slug), index, folder, done, name, totals, rows);
    }

    /** The entries of one existing folder, in any order, against its rows. */
    method Scan(slug: Slug, folder: Path, indexed: Index)
      returns (totals: map<string, nat>, rows: map<string, FileRow>, seen: set<Path>)
      requires Valid() && slug in db.sites && RelativeTree(TreeOf(slug))
      requires indexed == map p | p in db.Rows(slug) && Parent(p) == folder :: db.Rows(slug)[p]
      modifies db`files
      ensures Valid()
      ensures ScannedSoFar(slug, folder, old(db.Rows(slug)), NamesIn(TreeOf(slug), folder), totals, rows, seen)
      ensures forall s :: s != slug ==> db.Rows(s) == old(db.Rows(s))
    {
      totals, rows, seen := map[], map[], {};
      ghost var index := db.Rows(slug);
      var names := NamesIn(TreeOf(slug), folder);
      var left, done := names, {};
      ScanStarts(slug, folder);
      while left != {}
        invariant left + done == names && left !! done && Valid()
        invariant ScannedSoFar(slug, folder, index, done, totals, rows, seen)
        invariant forall s :: s != slug ==> db.Rows(s) == old(db.Rows(s))
      {
        var name :| name in left;
        match KindOf(TreeOf(slug), Child(folder, name)) {
          case IsFolder => totals := ScanFolder(slug, folder, name, index, done, totals, rows, seen);
          case IsFile => rows, seen := ScanFile(slug, folder, name, indexed, index, done, totals, rows, seen);
          case _ => SkipEntry(slug, folder, name, index, done, totals, rows, seen);
        }
        left, done := left - {name}, done + {name};
      }
      assert done == names;
    }

    method DropRows(slug: Slug, stale: set<Path>)
      requires Valid()
      modifies db`files
      ensures Valid() && db.Rows(slug) == old(db.Rows(slug)) - stale
      ensures forall s :: s != slug ==> db.Rows(s) == old(db.Rows(s))
    {
      var left := stale;
      while left != {}
        invariant left <= stale && Valid()
        invariant db.Rows(slug) == old(db.Rows(slug)) - (stale - left)
        invariant forall s :: s != slug ==> db.Rows(s) == old(db.Rows(s))
      {
        var path :| path in left;
        db.DeleteFileRow(slug, path);
        left := left - {path};
      }
      assert stale - left == stale;
    }

    /** A folder listed from the disk and the index together; rows of files that are gone are dropped. */
    method ListFolder(slug: Slug, folder: Path)
      returns (refusal: Option<Answer>, totals: map<string, nat>, rows: map<string, FileRow>)
      requires Valid() && slug in db.sites && RelativeTree(TreeOf(slug))
      modifies db`files
      ensures Valid() && refusal == RefuseList(old(SiteOf(slug)), folder)
      ensures var (site, tree) := (old(SiteOf(slug)), TreeOf(slug));
              if refusal.Some? || folder !in tree then SiteOf(slug) == site && totals == map[] && rows == map[]
              else
                SiteOf(slug) == site.(index := Reconcile(tree, site.index, folder))
                && Reported(tree, site.index, folder, NamesIn(tree, folder), totals, rows)
      ensures forall s :: s != slug ==> SiteOf(s) == old(SiteOf(s))
    {
      totals, rows := map[], map[];
      var tree := TreeOf(slug);
      ghost var index := db.Rows(slug);
      if PassesLink(tree, folder) { return Some(INVALID_PATH), totals, rows; }
      match KindOf(tree, folder) {
        case IsFile => return Some(NOT_A_FOLDER), totals, rows;
        case IsSpecial => return Some(INVALID_PATH), totals, rows;
        case Missing => return if folder == "" then None else Some(NOT_FOUND), totals, rows;
        case IsFolder =>
      }
      refusal := None;
      var indexed := db.FilesInFolder(slug, folder);
      var seen;
      totals, rows, seen := Scan(slug, folder, indexed);
      DropRows(slug, indexed.Keys - seen);
      AllFilesSeen(tree, folder);
      ScannedIsReconciled(tree, index, folder, indexed, seen);
    }
  }

  // ---- what a scan has done so far ----

  predicate RelativeTree(tree: Tree) {
    forall p :: p in tree && p != "" ==> p[0] != '/'
  }

  /** The files among the entries of a folder scanned so far. */
  ghost function DirectFilePaths(tree: Tree, folder: Path, names: set<string>): set<Path> {
    set p | p in tree && p != "" && Parent(p) == folder && FileAt(tree, p) && Name(p) in names
  }

  /** The index once the files seen have been reported. */
  ghost function Scanned(tree: Tree, index: Index, seen: set<Path>): Index {
    map p | p in index.Keys + seen && (p in seen ==> FileAt(tree, p))
          :: if p in seen then ReportedRow(tree, index, p) else index[p]
  }

  ghost predicate TotalsOf(tree: Tree, index: Index, folder: Path, names: set<string>, totals: map<string, nat>) {
    totals.Keys == FolderNames(tree, folder) * names
    && forall n :: n in totals ==> TotalFor(index, folder, n, totals[n])
  }

  ghost predicate TotalFor(index: Index, folder: Path, name: string, bytes: nat) {
    bytes == SumBelow(RowSizes(index), Child(folder, name))
  }

  ghost predicate RowsOf(tree: Tree, index: Index, folder: Path, names: set<string>, rows: map<string, FileRow>) {
    rows.Keys == FileNames(tree, folder) * names && forall n :: n in rows ==> RowFor(tree, index, folder, n, rows[n])
  }

  predicate RowFor(tree: Tree, index: Index, folder: Path, name: string, row: FileRow) {
    FileAt(tree, Child(folder, name)) && row == ReportedRow(tree, index, Child(folder, name))
  }

  lemma EntryPath(tree: Tree, folder: Path, name: string)
    requires RelativeTree(tree) && name in NamesIn(tree, folder)
    ensures var p := Child(folder, name);
            p in tree && p != "" && p[0] != '/' && Parent(p) == folder && Name(p) == name
  {
    var p :| p in tree && p != "" && Parent(p) == folder && Name(p) == name;
    ChildOfParent(p);
  }

  lemma DirectFilePathsStep(tree: Tree, folder: Path, names: set<string>, name: string)
    requires RelativeTree(tree) && name in NamesIn(tree, folder)
    ensures DirectFilePaths(tree, folder, names + {name})
            == DirectFilePaths(tree, folder, names)
               + (if FileAt(tree, Child(folder, name)) then {Child(folder, name)} else {})
  {
    EntryPath(tree, folder, name);
    forall p | p in tree && p != "" && Parent(p) == folder && Name(p) == name ensures p == Child(folder, name) {
      ChildOfParent(p);
    }
  }

  ghost predicate Reported(tree: Tree, index: Index, folder: Path, names: set<string>,
                           totals: map<string, nat>, rows: map<string, FileRow>) {
    TotalsOf(tree, index, folder, names, totals) && RowsOf(tree, index, folder, names, rows)
  }

  lemma FolderStep(tree: Tree, index: Index, folder: Path, names: set<string>, name: string,
                   totals: map<string, nat>, rows: map<string, FileRow>, bytes: nat)
    requires Reported(tree, index, folder, names, totals, rows)
    requires name in NamesIn(tree, folder) && KindOf(tree, Child(folder, name)) == IsFolder
    requires bytes == SumBelow(RowSizes(index), Child(folder, name))
    ensures Reported(tree, index, folder, names + {name}, totals[name := bytes], rows)
  {
    NewFolderName(tree, folder, names, name);
    FolderTotalStep(tree, index, folder, names, name, totals, bytes);
  }

  lemma FolderTotalStep(tree: Tree, index: Index, folder: Path, names: set<string>, name: string,
                        totals: map<string, nat>, bytes: nat)
    requires TotalsOf(tree, index, folder, names, totals) && TotalFor(index, folder, name, bytes)
    requires FolderNames(tree, folder) * (names + {name}) == FolderNames(tree, folder) * names + {name}
    ensures TotalsOf(tree, index, folder, names + {name}, totals[name := bytes])
  {
    assert totals[name := bytes].Keys == totals.Keys + {name};
  }

  lemma NewFolderName(tree: Tree, folder: Path, names: set<string>, name: string)
    requires name in NamesIn(tree, folder) && KindOf(tree, Child(folder, name)) == IsFolder
    ensures FolderNames(tree, folder) * (names + {name}) == FolderNames(tree, folder) * names + {name}
    ensures FileNames(tree, folder) * (names + {name}) == FileNames(tree, folder) * names
  {
    assert name in FolderNames(tree, folder) && name !in FileNames(tree, folder);
  }

  lemma FileStep(tree: Tree, index: Index, folder: Path, names: set<string>, name: string,
                 totals: map<string, nat>, rows: map<string, FileRow>)
    requires Reported(tree, index, folder, names, totals, rows)
    requires name in NamesIn(tree, folder) && FileAt(tree, Child(folder, name))
    ensures Reported(tree, index, folder, names + {name},
                     totals, rows[name := ReportedRow(tree, index, Child(folder, name))])
  {
    NewFileName(tree, folder, names, name);
    FileRowStep(tree, index, folder, names, name, rows);
  }

  lemma NewFileName(tree: Tree, folder: Path, names: set<string>, name: string)
    requires name in NamesIn(tree, folder) && FileAt(tree, Child(folder, name))
    ensures FileNames(tree, folder) * (names + {name}) == FileNames(tree, folder) * names + {name}
    ensures FolderNames(tree, folder) * (names + {name}) == FolderNames(tree, folder) * names
  {
    assert name in FileNames(tree, folder) && name !in FolderNames(tree, folder);
  }

  lemma FileRowStep(tree: Tree, index: Index, folder: Path, names: set<string>, name: string,
                    rows: map<string, FileRow>)
    requires RowsOf(tree, index, folder, names, rows) && FileAt(tree, Child(folder, name))
    requires FileNames(tree, folder) * (names + {name}) == FileNames(tree, folder) * names + {name}
    ensures RowsOf(tree, index, folder, names + {name}, rows[name := ReportedRow(tree, index, Child(folder, name))])
  {
    var row := ReportedRow(tree, index, Child(folder, name));
    assert RowFor(tree, index, folder, name, row);
    assert rows[name := row].Keys == rows.Keys + {name};
  }

  lemma SkipStep(tree: Tree, index: Index, folder: Path, names: set<string>, name: string,
                 totals: map<string, nat>, rows: map<string, FileRow>)
    requires Reported(tree, index, folder, names, totals, rows)
    requires KindOf(tree, Child(folder, name)) != IsFolder && KindOf(tree, Child(folder, name)) != IsFile
    ensures Reported(tree, index, folder, names + {name}, totals, rows)
  {
  }

  lemma ScannedAdd(tree: Tree, index: Index, seen: set<Path>, p: Path)
    requires p !in seen && FileAt(tree, p)
    ensures p in Scanned(tree, index, seen) <==> p in index
    ensures p in index ==> Scanned(tree, index, seen)[p] == index[p]
    ensures Scanned(tree, index, seen + {p}) == Scanned(tree, index, seen)[p := ReportedRow(tree, index, p)]
  {
  }

  lemma ScannedAt(tree: Tree, index: Index, folder: Path, names: set<string>, name: string)
    requires RelativeTree(tree) && name in NamesIn(tree, folder) && name !in names
    requires FileAt(tree, Child(folder, name))
    ensures var (p, seen) := (Child(folder, name), DirectFilePaths(tree, folder, names));
            p !in seen && (p in Scanned(tree, index, seen) <==> p in index)
            && (p in index ==> Scanned(tree, index, seen)[p] == index[p])
            && Scanned(tree, index, seen + {p}) == Scanned(tree, index, seen)[p := ReportedRow(tree, index, p)]
  {
    EntryPath(tree, folder, name);
    ScannedAdd(tree, index, DirectFilePaths(tree, folder, names), Child(folder, name));
  }

  /** Writing rows of a folder's own files leaves its subfolders' totals alone. */
  lemma SubfolderTotalStays(tree: Tree, index: Index, seen: set<Path>, folder: Path, c: Path)
    requires forall p :: p in seen ==> Parent(p) == folder && FileAt(tree, p)
    requires c != "" && Parent(c) == folder
    ensures SumBelow(RowSizes(Scanned(tree, index, seen)), c) == SumBelow(RowSizes(index), c)
  {
    var before, after := RowSizes(index), RowSizes(Scanned(tree, index, seen));
    forall p | p in seen ensures !Below(c, p) {
      BelowStep(c, p);
    }
    assert BelowIn(before, c) == BelowIn(after, c);
    SumSame(before, after, BelowIn(before, c));
  }

  lemma ScannedIsReconciled(tree: Tree, index: Index, folder: Path, indexed: Index, seen: set<Path>)
    requires indexed == map p | p in index && Parent(p) == folder :: index[p]
    requires seen == set p | p in tree && Parent(p) == folder && FileAt(tree, p)
    ensures Scanned(tree, index, seen) - (indexed.Keys - seen) == Reconcile(tree, index, folder)
  {
  }

  lemma AllFilesSeen(tree: Tree, folder: Path)
    requires folder == "" ==> !FileAt(tree, "")
    ensures DirectFilePaths(tree, folder, NamesIn(tree, folder))
            == set p | p in tree && Parent(p) == folder && FileAt(tree, p)
  {
  }
}
