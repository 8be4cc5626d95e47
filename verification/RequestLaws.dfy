/** What the requests of the real backend answer and change, told by what other requests show, with every status
    and every code written out. */
module RequestLaws {
  import opened Common
  import opened Naming
  import opened Paths
  import opened Sums
  import opened Sorting
  import opened Model
  import opened SiteStore
  import opened Refinement
  import opened RealBackend
  import Fake = FakeBackend

  // ---- what can be seen ----

  /** The sites' names, the files' contents and the folders, as `GET` requests show them. */
  datatype Seen = Seen(names: imap<Slug, string>, files: imap<(Slug, Path), Bytes>, folders: iset<(Slug, Path)>)

  ghost function Ask(sites: Sites, request: Request): Answer {
    Handle(sites, request, 0, 0).1
  }

  ghost function Look(sites: Sites): Seen {
    Seen(NamesSeen(sites), FilesSeen(sites), FoldersSeen(sites))
  }

  ghost function NamesSeen(sites: Sites): imap<Slug, string> {
    imap slug: Slug | Ask(sites, GetSite(slug)).Info? :: Ask(sites, GetSite(slug)).site.name
  }

  ghost function FilesSeen(sites: Sites): imap<(Slug, Path), Bytes> {
    imap k: (Slug, Path) | Canonical(k.1) && Ask(sites, Download(k.0, k.1)).Content?
      :: Ask(sites, Download(k.0, k.1)).body
  }

  ghost function FoldersSeen(sites: Sites): iset<(Slug, Path)> {
    iset k: (Slug, Path) | (Canonical(k.1) || k.1 == "") && Ask(sites, ListFiles(k.0, k.1)).Listing?
  }

  /** The sites of a volume that only requests have changed. */
  ghost predicate Sound(sites: Sites) {
    exists fake :: Backs(sites, fake)
  }

  ghost predicate Backs(sites: Sites, fake: Fake.Sites) {
    Refines(sites, fake) && Fake.AllWellFormed(fake) && AllCanonical(fake)
  }

  ghost predicate AllCanonical(fake: Fake.Sites) {
    forall s :: s in fake ==> CanonicalView(fake[s].view)
  }

  ghost predicate CanonicalView(v: Fake.View) {
    forall p :: p in v.files || p in v.folders ==> Canonical(p)
  }

  /** A path of a request names a file or folder: that canonical path between slashes. */
  ghost predicate Names(path: string, p: Path) {
    Canonical(p) && exists i: nat, j: nat :: path == Slashes(i) + p + Slashes(j)
  }

  // ---- the fake shows the same ----

  ghost function FakeLook(fake: Fake.Sites): Seen {
    Seen(imap slug: Slug | slug in fake :: fake[slug].name,
         imap k: (Slug, Path) | k.0 in fake && k.1 in fake[k.0].view.files :: fake[k.0].view.files[k.1],
         iset k: (Slug, Path) | k.0 in fake && (k.1 == "" || k.1 in fake[k.0].view.folders))
  }

  lemma NamesIsTarget(path: string, p: Path)
    ensures Names(path, p) <==> ValidateSitePath(path, false) == Ok(p)
  {
    ValidateSitePathExact(path, false, p);
    if Names(path, p) {
      var i: nat, j: nat :| path == Slashes(i) + p + Slashes(j);
      AcceptedBetweenSlashes(path, false, p, i, j);
    }
    if ValidateSitePath(path, false) == Ok(p) {
      var i: nat, j: nat :| path == Slashes(i) + p + Slashes(j);
      assert Names(path, p);
    }
  }

  lemma CanonicalIsTarget(p: Path, allowRoot: bool)
    requires Canonical(p) || (allowRoot && p == "")
    ensures ValidateSitePath(p, allowRoot) == Ok(p)
  {
    AcceptedBetweenSlashes(p, allowRoot, p, 0, 0);
  }

  lemma ShownFile(sites: Sites, fake: Fake.Sites, slug: Slug, p: Path)
    requires Backs(sites, fake) && Canonical(p)
    ensures var answer := Ask(sites, Download(slug, p));
            (answer.Content? <==> slug in fake && p in fake[slug].view.files)
            && (answer.Content? ==> answer.body == fake[slug].view.files[p])
  {
    RequestsAgree(sites, fake, Download(slug, p), 0, 0);
    CanonicalIsTarget(p, false);
    if slug in fake { DownloadIsRead(fake, slug, p, p); }
  }

  lemma DownloadIsRead(fake: Fake.Sites, slug: Slug, path: string, p: Path)
    requires Fake.AllWellFormed(fake) && slug in fake && ValidateSitePath(path, false) == Ok(p)
    ensures Fake.Handle(fake, Download(slug, path), 0).1 == Fake.Read(fake[slug].view, p)
    ensures Fake.Read(fake[slug].view, p).Content? <==> p in fake[slug].view.files
    ensures p in fake[slug].view.files ==> Fake.Read(fake[slug].view, p) == Content(fake[slug].view.files[p])
  {
    assert Fake.WellFormed(fake[slug].view);
    ReadOfView(fake[slug].view, p);
  }

  lemma ReadOfView(v: Fake.View, p: Path)
    requires Fake.WellFormed(v)
    ensures Fake.Read(v, p).Content? <==> p in v.files
    ensures p in v.files ==> Fake.Read(v, p) == Content(v.files[p])
  {
  }

  lemma ShownFolder(sites: Sites, fake: Fake.Sites, slug: Slug, p: Path)
    requires Backs(sites, fake) && (Canonical(p) || p == "")
    ensures Ask(sites, ListFiles(slug, p)).Listing? <==> slug in fake && (p == "" || p in fake[slug].view.folders)
  {
    RequestsAgree(sites, fake, ListFiles(slug, p), 0, 0);
    FakeShowsFolder(fake, slug, p);
  }

  lemma FakeShowsFolder(fake: Fake.Sites, slug: Slug, p: Path)
    requires Fake.AllWellFormed(fake) && (Canonical(p) || p == "")
    ensures Fake.Handle(fake, ListFiles(slug, p), 0).1.Listing?
            <==> slug in fake && (p == "" || p in fake[slug].view.folders)
  {
    CanonicalIsTarget(p, true);
    if slug in fake { FoldersList(fake[slug].view, slug, p); }
  }

  lemma FoldersList(v: Fake.View, slug: Slug, p: Path)
    requires Fake.WellFormed(v)
    ensures Fake.List(v, slug, p).Listing? <==> p == "" || p in v.folders
  {
  }

  lemma ShownName(sites: Sites, fake: Fake.Sites, slug: Slug)
    requires Backs(sites, fake)
    ensures var answer := Ask(sites, GetSite(slug));
            (answer.Info? <==> slug in fake) && (answer.Info? ==> answer.site.name == fake[slug].name)
  {
    RequestsAgree(sites, fake, GetSite(slug), 0, 0);
  }

  lemma NamesLookTheSame(sites: Sites, fake: Fake.Sites)
    requires Backs(sites, fake)
    ensures NamesSeen(sites) == FakeLook(fake).names
  {
    forall slug: Slug
      ensures Ask(sites, GetSite(slug)).Info? <==> slug in fake
      ensures slug in fake ==> Ask(sites, GetSite(slug)).site.name == fake[slug].name
    {
      ShownName(sites, fake, slug);
    }
  }

  lemma FilesLookTheSame(sites: Sites, fake: Fake.Sites)
    requires Backs(sites, fake)
    ensures FilesSeen(sites) == FakeLook(fake).files
  {
    forall k: (Slug, Path) | Canonical(k.1)
      ensures Ask(sites, Download(k.0, k.1)).Content? <==> k.0 in fake && k.1 in fake[k.0].view.files
      ensures k.0 in fake && k.1 in fake[k.0].view.files ==>
                Ask(sites, Download(k.0, k.1)).body == fake[k.0].view.files[k.1]
    {
      ShownFile(sites, fake, k.0, k.1);
    }
  }

  lemma FoldersLookTheSame(sites: Sites, fake: Fake.Sites)
    requires Backs(sites, fake)
    ensures FoldersSeen(sites) == FakeLook(fake).folders
  {
    forall k: (Slug, Path) | Canonical(k.1) || k.1 == ""
      ensures Ask(sites, ListFiles(k.0, k.1)).Listing?
              <==> k.0 in fake && (k.1 == "" || k.1 in fake[k.0].view.folders)
    {
      ShownFolder(sites, fake, k.0, k.1);
    }
  }

  lemma LooksTheSame(sites: Sites, fake: Fake.Sites)
    requires Backs(sites, fake)
    ensures Look(sites) == FakeLook(fake)
  {
    NamesLookTheSame(sites, fake);
    FilesLookTheSame(sites, fake);
    FoldersLookTheSame(sites, fake);
  }

  // ---- soundness is kept ----

  lemma AncestorsAreCanonical(path: Path)
    requires Canonical(path)
    ensures forall a :: a in Ancestors(path) ==> Canonical(a)
    decreases |path|
  {
    CanonicalParent(path);
    if Parent(path) != "" { AncestorsAreCanonical(Parent(path)); }
  }

  lemma StoreKeepsCanonical(fake: Fake.Sites, slug: Slug, result: (Fake.View, Answer))
    requires AllCanonical(fake) && slug in fake && CanonicalView(result.0)
    ensures AllCanonical(Fake.Store(fake, slug, result).0)
  {
  }

  lemma UploadKeepsCanonical(v: Fake.View, p: Path, body: Bytes, overwrite: bool)
    requires Fake.WellFormed(v) && CanonicalView(v) && Canonical(p)
    ensures CanonicalView(Fake.UploadTo(v, p, body, overwrite).0)
  {
    AncestorsAreCanonical(p);
    Fake.AddFoldersForAddsAncestors(v, p);
  }

  lemma UploadRequestKeepsCanonical(fake: Fake.Sites, request: Request, cap: nat)
    requires Fake.AllWellFormed(fake) && AllCanonical(fake) && request.Upload?
    ensures AllCanonical(Fake.Handle(fake, request, cap).0)
  {
    var target := Fake.Target(fake, request.slug, request.path, false);
    if target.Ok? && |request.body| <= cap {
      NamesIsTarget(request.path, target.value);
      UploadKeepsCanonical(fake[request.slug].view, target.value, request.body, request.overwrite);
      StoreKeepsCanonical(fake, request.slug, Fake.UploadTo(fake[request.slug].view, target.value, request.body,
                                                            request.overwrite));
    }
  }

  lemma HandleKeepsCanonical(fake: Fake.Sites, request: Request, cap: nat)
    requires Fake.AllWellFormed(fake) && AllCanonical(fake)
    ensures AllCanonical(Fake.Handle(fake, request, cap).0)
  {
    match request
    case Upload(_, _, _, _, _) => UploadRequestKeepsCanonical(fake, request, cap);
    case DeleteFile(_, _) => DeletionKeepsCanonical(fake, request, cap);
    case DeleteFolder(_, _, _) => DeletionKeepsCanonical(fake, request, cap);
    case _ =>
  }

  lemma DeletionKeepsCanonical(fake: Fake.Sites, request: Request, cap: nat)
    requires AllCanonical(fake) && (request.DeleteFile? || request.DeleteFolder?)
    ensures AllCanonical(Fake.Handle(fake, request, cap).0)
  {
    var target := Fake.Target(fake, request.slug, request.path, false);
    if target.Ok? {
      var v := fake[request.slug].view;
      StoreKeepsCanonical(fake, request.slug,
                          if request.DeleteFile? then Fake.DeleteFileFrom(v, target.value)
                          else Fake.DeleteFolderFrom(v, target.value, request.recursive));
    }
  }

  lemma RequestsKeepBacking(sites: Sites, fake: Fake.Sites, request: Request, cap: nat, mtime: int)
    requires Backs(sites, fake)
    ensures Backs(Handle(sites, request, cap, mtime).0, Fake.Handle(fake, request, cap).0)
    ensures Handle(sites, request, cap, mtime).1 == Fake.Handle(fake, request, cap).1
  {
    RequestsAgree(sites, fake, request, cap, mtime);
    Fake.HandleKeepsWellFormed(fake, request, cap);
    HandleKeepsCanonical(fake, request, cap);
  }

  /** The empty volume is sound, and every request keeps it so. */
  lemma SoundFromTheStart(sites: Sites, request: Request, cap: nat, mtime: int)
    ensures Sound(map[])
    ensures Sound(sites) ==> Sound(Handle(sites, request, cap, mtime).0)
  {
    assert Backs(map[], map[]);
    if Sound(sites) {
      var fake: Fake.Sites :| Backs(sites, fake);
      RequestsKeepBacking(sites, fake, request, cap, mtime);
    }
  }

  // ---- uploads ----

  ghost predicate Above(a: Path, p: Path) {
    a != "" && a + "/" <= p
  }

  /** An upload's answer by what is seen before it. */
  ghost function UploadAnswer(seen: Seen, slug: Slug, p: Path, body: Bytes, overwrite: bool, cap: nat): Answer {
    if |body| > cap then Fail(413, PayloadTooLarge)
    else if (slug, p) in seen.folders then Fail(409, NotAFile)
    else if exists a :: Above(a, p) && (slug, a) in seen.files then Fail(409, NotAFolder)
    else if (slug, p) !in seen.files then Uploaded(201, p, |body|, Sha256(body), false)
    else if overwrite then Uploaded(200, p, |body|, Sha256(body), true)
    else Fail(409, FileExists)
  }

  /** What is seen of one site. */
  ghost function WithView(seen: Seen, slug: Slug, v: Fake.View): Seen {
    Seen(seen.names,
         imap k: (Slug, Path) | if k.0 == slug then k.1 in v.files else k in seen.files
           :: if k.0 == slug then v.files[k.1] else seen.files[k],
         iset k: (Slug, Path) | if k.0 == slug then k.1 == "" || k.1 in v.folders else k in seen.folders)
  }

  /** Two ways of looking that agree on every name and path. */
  lemma SeenSame(a: Seen, b: Seen)
    requires forall s :: (s in a.names <==> s in b.names) && (s in a.names ==> a.names[s] == b.names[s])
    requires forall s, p :: ((s, p) in a.files <==> (s, p) in b.files)
                            && ((s, p) in a.files ==> a.files[(s, p)] == b.files[(s, p)])
    requires forall s, p :: (s, p) in a.folders <==> (s, p) in b.folders
    ensures a == b
  {
    forall k: (Slug, Path) ensures (k in a.files <==> k in b.files) && (k in a.files ==> a.files[k] == b.files[k]) {
      assert k == (k.0, k.1);
    }
    assert a.files == b.files;
    forall k: (Slug, Path) ensures k in a.folders <==> k in b.folders {
      assert k == (k.0, k.1);
    }
    assert a.folders == b.folders;
    assert a.names == b.names;
  }

  lemma StoreLooks(fake: Fake.Sites, slug: Slug, result: (Fake.View, Answer))
    requires slug in fake
    ensures FakeLook(Fake.Store(fake, slug, result).0) == WithView(FakeLook(fake), slug, result.0)
  {
    SeenSame(FakeLook(Fake.Store(fake, slug, result).0), WithView(FakeLook(fake), slug, result.0));
  }

  lemma OwnView(fake: Fake.Sites, slug: Slug)
    requires slug in fake
    ensures FakeLook(fake) == WithView(FakeLook(fake), slug, fake[slug].view)
  {
    SeenSame(FakeLook(fake), WithView(FakeLook(fake), slug, fake[slug].view));
  }

  lemma AncestorsAreAll(p: Path)
    ensures forall a :: a in Ancestors(p) <==> Above(a, p)
  {
    forall a ensures a in Ancestors(p) <==> Above(a, p) { AncestorsAreAbove(p, a); }
  }

  lemma UploadLooks(v: Fake.View, seen: Seen, slug: Slug, p: Path, body: Bytes, overwrite: bool, cap: nat)
    requires Fake.WellFormed(v) && seen == WithView(seen, slug, v) && p != "" && |body| <= cap
    ensures var (v', answer) := Fake.UploadTo(v, p, body, overwrite);
            answer == UploadAnswer(seen, slug, p, body, overwrite, cap)
            && WithView(seen, slug, v')
               == if answer.Uploaded? then
                    Seen(seen.names, seen.files[(slug, p) := body], seen.folders + iset a | Above(a, p) :: (slug, a))
                  else seen
  {
    UploadAnswers(v, seen, slug, p, body, overwrite, cap);
    if Fake.CheckWriteTarget(v, p, overwrite).Ok? { WriteLooks(v, seen, slug, p, body); }
  }

  lemma UploadAnswers(v: Fake.View, seen: Seen, slug: Slug, p: Path, body: Bytes, overwrite: bool, cap: nat)
    requires Fake.WellFormed(v) && seen == WithView(seen, slug, v) && p != "" && |body| <= cap
    ensures Fake.UploadTo(v, p, body, overwrite).1 == UploadAnswer(seen, slug, p, body, overwrite, cap)
  {
    AncestorsAreAll(p);
    if !(Ancestors(p) !! v.files.Keys) {
      var a :| a in Ancestors(p) && a in v.files;
      assert Above(a, p) && (slug, a) in seen.files;
    }
    if a :| Above(a, p) && (slug, a) in seen.files { assert a in Ancestors(p) && a in v.files; }
  }

  lemma WriteLooks(v: Fake.View, seen: Seen, slug: Slug, p: Path, body: Bytes)
    requires Fake.WellFormed(v) && seen == WithView(seen, slug, v) && p != ""
    ensures WithView(seen, slug, Fake.Write(v, p, body))
            == Seen(seen.names, seen.files[(slug, p) := body], seen.folders + iset a | Above(a, p) :: (slug, a))
  {
    Fake.AddFoldersForAddsAncestors(v, p);
    AncestorsAreAll(p);
    SeenSame(WithView(seen, slug, Fake.Write(v, p, body)),
             Seen(seen.names, seen.files[(slug, p) := body], seen.folders + iset a | Above(a, p) :: (slug, a)));
  }

  /** An upload within any state: its answer is told by what was seen before, and afterwards exactly the file and the
      folders above it are seen in addition. */
  lemma Uploads(sites: Sites, slug: Slug, path: string, p: Path, body: Bytes, overwrite: bool, declared: bool, cap: nat,
                mtime: int)
    requires Sound(sites) && slug in Look(sites).names && Names(path, p)
    ensures var seen := Look(sites);
            var (sites', answer) := Handle(sites, Upload(slug, path, body, overwrite, declared), cap, mtime);
            answer == UploadAnswer(seen, slug, p, body, overwrite, cap)
            && Look(sites')
               == if answer.Uploaded? then
                    Seen(seen.names, seen.files[(slug, p) := body], seen.folders + iset a | Above(a, p) :: (slug, a))
                  else seen
  {
    var fake: Fake.Sites :| Backs(sites, fake);
    BothLook(sites, fake, Upload(slug, path, body, overwrite, declared), cap, mtime);
    NamesIsTarget(path, p);
    FakeUploads(fake, slug, path, p, body, overwrite, declared, cap);
  }

  /** A request's answer and what is seen before and after it are the fake's. */
  lemma BothLook(sites: Sites, fake: Fake.Sites, request: Request, cap: nat, mtime: int)
    requires Backs(sites, fake)
    ensures var (sites', answer) := Handle(sites, request, cap, mtime);
            var (fake', answer') := Fake.Handle(fake, request, cap);
            answer == answer' && Look(sites) == FakeLook(fake) && Look(sites') == FakeLook(fake')
  {
    LooksTheSame(sites, fake);
    RequestsKeepBacking(sites, fake, request, cap, mtime);
    LooksTheSame(Handle(sites, request, cap, mtime).0, Fake.Handle(fake, request, cap).0);
  }

  lemma FakeUploads(fake: Fake.Sites, slug: Slug, path: string, p: Path, body: Bytes, overwrite: bool, declared: bool,
                    cap: nat)
    requires Fake.AllWellFormed(fake) && slug in fake && ValidateSitePath(path, false) == Ok(p) && p != ""
    ensures var seen := FakeLook(fake);
            var (fake', answer) := Fake.Handle(fake, Upload(slug, path, body, overwrite, declared), cap);
            answer == UploadAnswer(seen, slug, p, body, overwrite, cap)
            && FakeLook(fake')
               == if answer.Uploaded? then
                    Seen(seen.names, seen.files[(slug, p) := body], seen.folders + iset a | Above(a, p) :: (slug, a))
                  else seen
  {
    UploadIsStore(fake, slug, path, p, body, overwrite, declared, cap);
    if |body| <= cap {
      OwnView(fake, slug);
      UploadLooks(fake[slug].view, FakeLook(fake), slug, p, body, overwrite, cap);
      StoreLooks(fake, slug, Fake.UploadTo(fake[slug].view, p, body, overwrite));
    }
  }

  lemma UploadIsStore(fake: Fake.Sites, slug: Slug, path: string, p: Path, body: Bytes, overwrite: bool, declared: bool,
                      cap: nat)
    requires slug in fake && ValidateSitePath(path, false) == Ok(p)
    ensures Fake.Handle(fake, Upload(slug, path, body, overwrite, declared), cap)
            == if |body| > cap then (fake, Fail(413, PayloadTooLarge))
               else Fake.Store(fake, slug, Fake.UploadTo(fake[slug].view, p, body, overwrite))
  {
  }

  // ---- deletions ----

  ghost function DeleteFileAnswer(seen: Seen, slug: Slug, p: Path): Answer {
    if (slug, p) in seen.folders then Fail(409, NotAFile)
    else if (slug, p) in seen.files then NoContent
    else Fail(404, NotFound)
  }

  lemma DeleteFileLooks(v: Fake.View, seen: Seen, slug: Slug, p: Path)
    requires seen == WithView(seen, slug, v) && p != ""
    ensures var (v', answer) := Fake.DeleteFileFrom(v, p);
            answer == DeleteFileAnswer(seen, slug, p)
            && WithView(seen, slug, v')
               == if answer.NoContent? then seen.(files := seen.files - {(slug, p)}) else seen
  {
    var (v', answer) := Fake.DeleteFileFrom(v, p);
    if answer.NoContent? {
      SeenSame(WithView(seen, slug, v'), seen.(files := seen.files - {(slug, p)}));
    }
  }

  /** A file deletion: its answer, and that afterwards exactly that file is not seen any more. */
  lemma FileDeletions(sites: Sites, slug: Slug, path: string, p: Path, cap: nat, mtime: int)
    requires Sound(sites) && slug in Look(sites).names && Names(path, p)
    ensures var seen := Look(sites);
            var (sites', answer) := Handle(sites, DeleteFile(slug, path), cap, mtime);
            answer == DeleteFileAnswer(seen, slug, p)
            && Look(sites') == if answer.NoContent? then seen.(files := seen.files - {(slug, p)}) else seen
  {
    var fake: Fake.Sites :| Backs(sites, fake);
    BothLook(sites, fake, DeleteFile(slug, path), cap, mtime);
    NamesIsTarget(path, p);
    FakeFileDeletions(fake, slug, path, p, cap);
  }

  lemma FakeFileDeletions(fake: Fake.Sites, slug: Slug, path: string, p: Path, cap: nat)
    requires slug in fake && ValidateSitePath(path, false) == Ok(p) && p != ""
    ensures var seen := FakeLook(fake);
            var (fake', answer) := Fake.Handle(fake, DeleteFile(slug, path), cap);
            answer == DeleteFileAnswer(seen, slug, p)
            && FakeLook(fake') == if answer.NoContent? then seen.(files := seen.files - {(slug, p)}) else seen
  {
    OwnView(fake, slug);
    DeleteFileLooks(fake[slug].view, FakeLook(fake), slug, p);
    StoreLooks(fake, slug, Fake.DeleteFileFrom(fake[slug].view, p));
  }

  ghost predicate SomethingBelow(seen: Seen, slug: Slug, p: Path) {
    exists q :: Above(p, q) && ((slug, q) in seen.files || (slug, q) in seen.folders)
  }

  ghost function DeleteFolderAnswer(seen: Seen, slug: Slug, p: Path, recursive: bool): Answer {
    if (slug, p) in seen.files then Fail(409, NotAFolder)
    else if (slug, p) !in seen.folders then Fail(404, NotFound)
    else if SomethingBelow(seen, slug, p) && !recursive then Fail(409, FolderNotEmpty)
    else NoContent
  }

  /** What is seen without a folder and all below it. */
  ghost function WithoutFolder(seen: Seen, slug: Slug, p: Path): Seen {
    Seen(seen.names,
         imap k: (Slug, Path) | k in seen.files && !(k.0 == slug && Above(p, k.1)) :: seen.files[k],
         iset k: (Slug, Path) | k in seen.folders && !(k.0 == slug && (k.1 == p || Above(p, k.1))))
  }

  lemma DeleteFolderLooks(v: Fake.View, seen: Seen, slug: Slug, p: Path, recursive: bool)
    requires seen == WithView(seen, slug, v) && p != ""
    ensures var (v', answer) := Fake.DeleteFolderFrom(v, p, recursive);
            answer == DeleteFolderAnswer(seen, slug, p, recursive)
            && WithView(seen, slug, v') == if answer.NoContent? then WithoutFolder(seen, slug, p) else seen
  {
    BelowIsSeen(v, seen, slug, p);
    var (v', answer) := Fake.DeleteFolderFrom(v, p, recursive);
    if answer.NoContent? { SeenSame(WithView(seen, slug, v'), WithoutFolder(seen, slug, p)); }
  }

  lemma BelowIsSeen(v: Fake.View, seen: Seen, slug: Slug, p: Path)
    requires seen == WithView(seen, slug, v) && p != ""
    ensures SomethingBelow(seen, slug, p) <==> Fake.FoldersBelow(v, p) != {} || Fake.FilesBelow(v, p) != {}
  {
    if SomethingBelow(seen, slug, p) {
      var q :| Above(p, q) && ((slug, q) in seen.files || (slug, q) in seen.folders);
      assert q in Fake.FilesBelow(v, p) || q in Fake.FoldersBelow(v, p);
    }
    if q :| q in Fake.FoldersBelow(v, p) { assert Above(p, q) && (slug, q) in seen.folders; }
    if q :| q in Fake.FilesBelow(v, p) { assert Above(p, q) && (slug, q) in seen.files; }
  }

  /** A folder deletion: its answer, and that afterwards exactly the folder and what was below it are gone. */
  lemma FolderDeletions(sites: Sites, slug: Slug, path: string, p: Path, recursive: bool, cap: nat, mtime: int)
    requires Sound(sites) && slug in Look(sites).names && Names(path, p)
    ensures var seen := Look(sites);
            var (sites', answer) := Handle(sites, DeleteFolder(slug, path, recursive), cap, mtime);
            answer == DeleteFolderAnswer(seen, slug, p, recursive)
            && Look(sites') == if answer.NoContent? then WithoutFolder(seen, slug, p) else seen
  {
    var fake: Fake.Sites :| Backs(sites, fake);
    BothLook(sites, fake, DeleteFolder(slug, path, recursive), cap, mtime);
    NamesIsTarget(path, p);
    FakeFolderDeletions(fake, slug, path, p, recursive, cap);
  }

  lemma FakeFolderDeletions(fake: Fake.Sites, slug: Slug, path: string, p: Path, recursive: bool, cap: nat)
    requires slug in fake && ValidateSitePath(path, false) == Ok(p) && p != ""
    ensures var seen := FakeLook(fake);
            var (fake', answer) := Fake.Handle(fake, DeleteFolder(slug, path, recursive), cap);
            answer == DeleteFolderAnswer(seen, slug, p, recursive)
            && FakeLook(fake') == if answer.NoContent? then WithoutFolder(seen, slug, p) else seen
  {
    OwnView(fake, slug);
    DeleteFolderLooks(fake[slug].view, FakeLook(fake), slug, p, recursive);
    StoreLooks(fake, slug, Fake.DeleteFolderFrom(fake[slug].view, p, recursive));
  }

  // ---- reading ----

  /** A download by any spelling of the path. */
  lemma Downloads(sites: Sites, slug: Slug, path: string, p: Path)
    requires Sound(sites) && slug in Look(sites).names && Names(path, p)
    ensures var seen := Look(sites);
            Ask(sites, Download(slug, path))
            == if (slug, p) in seen.files then Content(seen.files[(slug, p)])
               else if (slug, p) in seen.folders then Fail(409, NotAFile)
               else Fail(404, NotFound)
  {
    var fake: Fake.Sites :| Backs(sites, fake);
    BothLook(sites, fake, Download(slug, path), 0, 0);
    NamesIsTarget(path, p);
    FakeDownloads(fake, slug, path, p);
  }

  lemma FakeDownloads(fake: Fake.Sites, slug: Slug, path: string, p: Path)
    requires Fake.AllWellFormed(fake) && slug in fake && ValidateSitePath(path, false) == Ok(p) && p != ""
    ensures var seen := FakeLook(fake);
            Fake.Handle(fake, Download(slug, path), 0).1
            == if (slug, p) in seen.files then Content(seen.files[(slug, p)])
               else if (slug, p) in seen.folders then Fail(409, NotAFile)
               else Fail(404, NotFound)
  {
    OwnView(fake, slug);
    ReadLooks(fake[slug].view, FakeLook(fake), slug, p);
    DownloadIsRead(fake, slug, path, p);
  }

  lemma ReadLooks(v: Fake.View, seen: Seen, slug: Slug, p: Path)
    requires Fake.WellFormed(v) && seen == WithView(seen, slug, v) && p != ""
    ensures Fake.Read(v, p)
            == if (slug, p) in seen.files then Content(seen.files[(slug, p)])
               else if (slug, p) in seen.folders then Fail(409, NotAFile)
               else Fail(404, NotFound)
  {
  }

  /** Requests that read change nothing that is seen. */
  lemma ReadingChangesNothing(sites: Sites, request: Request, cap: nat, mtime: int)
    requires Sound(sites)
    requires request.ListSites? || request.GetSite? || request.ListFiles? || request.Download?
    ensures Look(Handle(sites, request, cap, mtime).0) == Look(sites)
  {
    var fake: Fake.Sites :| Backs(sites, fake);
    RequestsKeepBacking(sites, fake, request, cap, mtime);
    LooksTheSame(sites, fake);
    LooksTheSame(Handle(sites, request, cap, mtime).0, fake);
  }

  // ---- refusals that come first ----

  predicate OfOneSite(request: Request) {
    !request.ListSites? && !request.CreateSite?
  }

  predicate OfOnePath(request: Request) {
    request.Upload? || request.DeleteFile? || request.DeleteFolder? || request.Download? || request.ListFiles?
  }

  /** A path names something, or for a listing the root. */
  ghost predicate NamesSome(request: Request)
    requires OfOnePath(request)
  {
    (exists p :: Names(request.path, p)) || (request.ListFiles? && exists i: nat :: request.path == Slashes(i))
  }

  lemma SomeIsTarget(request: Request)
    requires OfOnePath(request)
    ensures NamesSome(request) <==> ValidateSitePath(request.path, request.ListFiles?).Ok?
  {
    var path := request.path;
    if p :| Names(path, p) {
      var i: nat, j: nat :| path == Slashes(i) + p + Slashes(j);
      AcceptedBetweenSlashes(path, request.ListFiles?, p, i, j);
    }
    if request.ListFiles? && exists i: nat :: path == Slashes(i) {
      var i: nat :| path == Slashes(i);
      assert path == Slashes(i) + "" + Slashes(0);
      AcceptedBetweenSlashes(path, true, "", i, 0);
    }
    var r := ValidateSitePath(path, request.ListFiles?);
    if r.Ok? {
      ValidateSitePathExact(path, request.ListFiles?, r.value);
      var i: nat, j: nat :| path == Slashes(i) + r.value + Slashes(j);
      if Canonical(r.value) {
        assert Names(path, r.value);
      } else {
        SlashesJoin(i, j);
        assert path == Slashes(i + j);
      }
    }
  }

  lemma {:induction false} SlashesJoin(i: nat, j: nat)
    ensures Slashes(i) + "" + Slashes(j) == Slashes(i + j)
  {
    assert forall s: string, t: string :: |s| == |t| && (forall k :: 0 <= k < |s| ==> s[k] == t[k]) ==> s == t;
  }

  /** An unknown site is 404 before anything else, a path that names nothing is 400 next; neither changes anything. */
  lemma RefusedFirst(sites: Sites, request: Request, cap: nat, mtime: int)
    requires Sound(sites) && OfOneSite(request)
    ensures var (sites', answer) := Handle(sites, request, cap, mtime);
            (request.slug !in Look(sites).names ==> answer == Fail(404, NotFound) && Look(sites') == Look(sites))
            && (request.slug in Look(sites).names && OfOnePath(request) && !NamesSome(request) ==>
                  answer == Fail(400, InvalidPath) && Look(sites') == Look(sites))
  {
    var fake: Fake.Sites :| Backs(sites, fake);
    BothLook(sites, fake, request, cap, mtime);
    if OfOnePath(request) { SomeIsTarget(request); }
    FakeRefuses(fake, request, cap);
  }

  lemma FakeRefuses(fake: Fake.Sites, request: Request, cap: nat)
    requires OfOneSite(request)
    ensures request.slug !in fake ==> Fake.Handle(fake, request, cap) == (fake, Fail(404, NotFound))
    ensures request.slug in fake && OfOnePath(request) && ValidateSitePath(request.path, request.ListFiles?).Err? ==>
              Fake.Handle(fake, request, cap) == (fake, Fail(400, InvalidPath))
  {
  }

  // ---- an upload between two downloads ----

  /** A successful upload says 201 or, if and only if a download just before had an answer with content, 200 and that it
      replaced a file; it carries the body's length and digest, and a download just after answers the body. */
  lemma UploadBetweenDownloads(sites: Sites, slug: Slug, path: string, body: Bytes, overwrite: bool, declared: bool,
                               cap: nat, mtime: int)
    requires Sound(sites)
    ensures var before := Ask(sites, Download(slug, path));
            var (sites', answer) := Handle(sites, Upload(slug, path, body, overwrite, declared), cap, mtime);
            answer.Uploaded? ==>
              answer.bytes == |body| && answer.digest == Sha256(body) && Names(path, answer.path)
              && answer.status == (if before.Content? then 200 else 201) && answer.replaced == before.Content?
              && Ask(sites', Download(slug, path)) == Content(body)
  {
    var request := Upload(slug, path, body, overwrite, declared);
    var (sites', answer) := Handle(sites, request, cap, mtime);
    RefusedFirst(sites, request, cap, mtime);
    if answer.Uploaded? {
      var p :| Names(path, p);
      Downloads(sites, slug, path, p);
      Uploads(sites, slug, path, p, body, overwrite, declared, cap, mtime);
      SoundFromTheStart(sites, request, cap, mtime);
      Downloads(sites', slug, path, p);
    }
  }
}
