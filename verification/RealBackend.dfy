/** The routes of the real backend over its sites, one request at a time, and their equality with the fake. */
module RealBackend {
  import opened Common
  import opened Naming
  import opened Paths
  import opened Sums
  import opened Sorting
  import opened Model
  import opened SiteStore
  import opened Refinement
  import Fake = FakeBackend

  type Sites = map<Slug, Site>

  function At(sites: Sites, slug: Slug): Site {
    if slug in sites then sites[slug] else ABSENT
  }

  ghost function PublicSite(site: Site, slug: Slug): SiteInfo
    requires site.row.Some?
  {
    SiteInfo(slug, site.row.value, |site.index|, SumBelow(RowSizes(site.index), ""))
  }

  ghost function PublicSites(sites: Sites, slugs: seq<Slug>): seq<SiteInfo>
    requires forall s :: s in slugs ==> At(sites, s).row.Some?
  {
    if slugs == [] then [] else [PublicSite(At(sites, slugs[0]), slugs[0])] + PublicSites(sites, slugs[1..])
  }

  function SiteRows(sites: Sites): set<Slug> {
    set s | s in sites && sites[s].row.Some?
  }

  /** `_site`: the slug's form, then its row. */
  predicate Known(sites: Sites, slug: Slug) {
    SlugReMatches(slug) && At(sites, slug).row.Some?
  }

  /** `_site`, then `_valid_path`. */
  function Target(sites: Sites, slug: Slug, path: string, allowRoot: bool): (r: Result<Path, Answer>)
  {
    if !Known(sites, slug) then Err(NOT_FOUND)
    else
      match ValidateSitePath(path, allowRoot)
      case Err(_) => Err(INVALID_PATH)
      case Ok(target) => Ok(target)
  }

  function Store(sites: Sites, slug: Slug, result: (Site, Answer)): (Sites, Answer) {
    (sites[slug := result.0], result.1)
  }

  /** `write_file` of a whole body: what is checked before the lock, then the critical section. */
  function WriteFile(site: Site, path: Path, body: Bytes, overwrite: bool, declared: bool, cap: nat, mtime: int)
    : (Site, Answer)
  {
    if PassesLink(site.tree, path) then (site, INVALID_PATH)
    else if declared && |body| > cap then (site, TOO_LARGE)
    else if |body| > cap then (site, TOO_LARGE)
    else CommitUpload(site, path, body, overwrite, mtime)
  }

  ghost function Create(sites: Sites, name: string, folded: string): (Sites, Answer) {
    match SlugFromName(folded)
    case Err(_) => (sites, INVALID_NAME)
    case Ok(slug) =>
      var (site, refusal) := MakeSite(At(sites, slug), name);
      match refusal
      case Some(e) => (sites, e)
      case None => (sites[slug := site], Created(PublicSite(site, slug)))
  }

  /** One request, the clock giving a stored file its mtime. */
  ghost function Handle(sites: Sites, request: Request, cap: nat, mtime: int): (Sites, Answer) {
    match request
    case ListSites => (sites, SiteList(PublicSites(sites, Sorted(SiteRows(sites)))))
    case CreateSite(name, folded) => Create(sites, name, folded)
    case GetSite(slug) =>
      (sites, if !Known(sites, slug) then NOT_FOUND else Info(PublicSite(At(sites, slug), slug)))
    case DeleteSite(slug, confirm) =>
      if !Known(sites, slug) then (sites, NOT_FOUND)
      else if confirm != Some(slug) then (sites, CONFIRM_MISMATCH)
      else (sites[slug := DropSite(At(sites, slug))], NoContent)
    case ListFiles(slug, path) =>
      (match Target(sites, slug, path, true)
       case Err(e) => (sites, e)
       case Ok(folder) => Store(sites, slug, ListFolder(At(sites, slug), slug, folder)))
    case Upload(slug, path, body, overwrite, declared) =>
      (match Target(sites, slug, path, false)
       case Err(e) => (sites, e)
       case Ok(target) =>
         Store(sites, slug, WriteFile(At(sites, slug), target, body, overwrite, declared, cap, mtime)))
    case Download(slug, path) =>
      (match Target(sites, slug, path, false)
       case Err(e) => (sites, e)
       case Ok(target) => (sites, Read(At(sites, slug), target)))
    case DeleteFile(slug, path) =>
      (match Target(sites, slug, path, false)
       case Err(e) => (sites, e)
       case Ok(target) => Store(sites, slug, RemoveFile(At(sites, slug), target)))
    case DeleteFolder(slug, path, recursive) =>
      (match Target(sites, slug, path, false)
       case Err(e) => (sites, e)
       case Ok(target) => Store(sites, slug, RemoveFolder(At(sites, slug), target, recursive)))
  }

  // ---- the two backends agree ----

  ghost predicate SiteRefines(site: Site, sites: Fake.Sites, slug: Slug) {
    if slug in sites then IsSlug(slug) && Matches(site, sites[slug]) else site == ABSENT
  }

  ghost predicate Refines(sites: Sites, fake: Fake.Sites) {
    forall slug :: SiteRefines(At(sites, slug), fake, slug)
  }

  lemma KnownAgrees(sites: Sites, fake: Fake.Sites, slug: Slug)
    requires Refines(sites, fake)
    ensures Known(sites, slug) <==> slug in fake
  {
    assert SiteRefines(At(sites, slug), fake, slug);
    if slug in fake { SlugIdempotent(slug); }
  }

  lemma TargetsAgree(sites: Sites, fake: Fake.Sites, slug: Slug, path: string, allowRoot: bool)
    requires Refines(sites, fake)
    ensures Target(sites, slug, path, allowRoot) == Fake.Target(fake, slug, path, allowRoot)
    ensures Target(sites, slug, path, allowRoot).Ok?
            ==> var target := Target(sites, slug, path, allowRoot).value;
                slug in fake && Matches(At(sites, slug), fake[slug])
                && (if allowRoot then target == "" || Relative(target) else Relative(target))
  {
    KnownAgrees(sites, fake, slug);
    assert SiteRefines(At(sites, slug), fake, slug);
    var r := Target(sites, slug, path, allowRoot);
    if r.Ok? {
      ValidateSitePathExact(path, allowRoot, r.value);
      if Canonical(r.value) { CanonicalEnds(r.value); }
    }
  }

  lemma StoresRefine(sites: Sites, fake: Fake.Sites, slug: Slug, r: (Site, Answer), f: (Fake.View, Answer))
    requires Refines(sites, fake) && slug in fake
    requires Matches(r.0, fake[slug].(view := f.0)) && r.1 == f.1
    ensures var (sites', answer) := Store(sites, slug, r);
            var (fake', answer') := Fake.Store(fake, slug, f);
            answer == answer' && Refines(sites', fake')
  {
    var sites', fake' := Store(sites, slug, r).0, Fake.Store(fake, slug, f).0;
    assert SiteRefines(At(sites, slug), fake, slug);
    forall s ensures SiteRefines(At(sites', s), fake', s) {
      assert SiteRefines(At(sites, s), fake, s);
    }
  }

  lemma ChangeRefines(sites: Sites, fake: Fake.Sites, slug: Slug, site: Site, fake': Fake.Sites)
    requires Refines(sites, fake)
    requires forall s :: s != slug ==> (s in fake <==> s in fake') && (s in fake ==> fake'[s] == fake[s])
    requires SiteRefines(site, fake', slug)
    ensures Refines(sites[slug := site], fake')
  {
    var sites' := sites[slug := site];
    forall s ensures SiteRefines(At(sites', s), fake', s) {
      assert SiteRefines(At(sites, s), fake, s);
    }
  }

  lemma PublicSitesAgreeAt(site: Site, fake: Fake.Sites, slug: Slug)
    requires slug in fake && Matches(site, fake[slug])
    ensures PublicSite(site, slug) == Fake.PublicSite(fake, slug)
  {
    SizesAgree(site.tree);
    var v := fake[slug].view;
    assert BelowIn(RowSizes(site.index), "") == v.files.Keys;
    assert site.index.Keys == v.files.Keys;
    assert |site.index| == |site.index.Keys| && |v.files| == |v.files.Keys|;
  }

  lemma {:induction false} PublicSitesAgree(sites: Sites, fake: Fake.Sites, slugs: seq<Slug>)
    requires Refines(sites, fake)
    requires forall s :: s in slugs ==> s in fake && At(sites, s).row.Some?
    ensures PublicSites(sites, slugs) == Fake.PublicSites(fake, slugs)
  {
    if slugs != [] {
      assert SiteRefines(At(sites, slugs[0]), fake, slugs[0]);
      PublicSitesAgreeAt(At(sites, slugs[0]), fake, slugs[0]);
      PublicSitesAgree(sites, fake, slugs[1..]);
    }
  }

  lemma SiteRowsAgree(sites: Sites, fake: Fake.Sites)
    requires Refines(sites, fake)
    ensures SiteRows(sites) == fake.Keys
  {
    forall s ensures s in SiteRows(sites) <==> s in fake {
      assert SiteRefines(At(sites, s), fake, s);
    }
  }

  lemma NewSiteMatches(name: string)
    ensures Matches(MakeSite(ABSENT, name).0, Fake.FakeSite(name, Fake.EMPTY))
  {
  }

  lemma CreationsAgree(sites: Sites, fake: Fake.Sites, name: string, folded: string)
    requires Refines(sites, fake)
    ensures var (sites', answer) := Create(sites, name, folded);
            var (fake', answer') := Fake.Create(fake, name, folded);
            answer == answer' && Refines(sites', fake')
  {
    SlugFromNameMeaning(folded);
    if SlugFromName(folded).Ok? {
      var slug := SlugFromName(folded).value;
      assert SiteRefines(At(sites, slug), fake, slug);
      if slug !in fake {
        var fake' := fake[slug := Fake.FakeSite(name, Fake.EMPTY)];
        var site := MakeSite(ABSENT, name).0;
        NewSiteMatches(name);
        PublicSitesAgreeAt(site, fake', slug);
        ChangeRefines(sites, fake, slug, site, fake');
      }
    }
  }

  lemma DeletionsAgree(sites: Sites, fake: Fake.Sites, slug: Slug)
    requires Refines(sites, fake) && slug in fake
    ensures Refines(sites[slug := DropSite(At(sites, slug))], fake - {slug})
  {
    assert SiteRefines(At(sites, slug), fake, slug);
    assert DropSite(At(sites, slug)) == ABSENT;
    ChangeRefines(sites, fake, slug, ABSENT, fake - {slug});
  }

  ghost predicate StepAgrees(sites: Sites, fake: Fake.Sites, request: Request, cap: nat, mtime: int) {
    var (sites', answer) := Handle(sites, request, cap, mtime);
    var (fake', answer') := Fake.Handle(fake, request, cap);
    answer == answer' && Refines(sites', fake')
  }

  lemma FileRequestsAgree(sites: Sites, fake: Fake.Sites, request: Request, cap: nat, mtime: int)
    requires Refines(sites, fake)
    requires request.Upload? || request.DeleteFile? || request.DeleteFolder?
    ensures StepAgrees(sites, fake, request, cap, mtime)
  {
    var slug := request.slug;
    TargetsAgree(sites, fake, slug, request.path, false);
    var r := Target(sites, slug, request.path, false);
    if r.Ok? {
      var site, view := At(sites, slug), fake[slug].view;
      match request
      case Upload(_, _, body, overwrite, declared) =>
        NoLinks(site.tree, r.value);
        if |body| <= cap {
          UploadsAgree(site, fake[slug], r.value, body, overwrite, mtime);
          StoresRefine(sites, fake, slug, WriteFile(site, r.value, body, overwrite, declared, cap, mtime),
                       Fake.UploadTo(view, r.value, body, overwrite));
        } else {
          ChangeRefines(sites, fake, slug, site, fake);
        }
      case DeleteFile(_, _) =>
        FileDeletionsAgree(site, fake[slug], r.value);
        StoresRefine(sites, fake, slug, RemoveFile(site, r.value), Fake.DeleteFileFrom(view, r.value));
      case DeleteFolder(_, _, recursive) =>
        FolderDeletionsAgree(site, fake[slug], r.value, recursive);
        StoresRefine(sites, fake, slug, RemoveFolder(site, r.value, recursive),
                     Fake.DeleteFolderFrom(view, r.value, recursive));
    }
  }

  /** Status, error code and body are the same, and the two stay in step. */
  lemma RequestsAgree(sites: Sites, fake: Fake.Sites, request: Request, cap: nat, mtime: int)
    requires Refines(sites, fake)
    ensures StepAgrees(sites, fake, request, cap, mtime)
  {
    match request
    case ListSites =>
      SiteRowsAgree(sites, fake);
      PublicSitesAgree(sites, fake, Sorted(fake.Keys));
    case CreateSite(name, folded) => CreationsAgree(sites, fake, name, folded);
    case GetSite(slug) =>
      KnownAgrees(sites, fake, slug);
      if slug in fake {
        assert SiteRefines(At(sites, slug), fake, slug);
        PublicSitesAgreeAt(At(sites, slug), fake, slug);
      }
    case DeleteSite(slug, confirm) =>
      KnownAgrees(sites, fake, slug);
      if slug in fake { DeletionsAgree(sites, fake, slug); }
    case ListFiles(slug, path) =>
      TargetsAgree(sites, fake, slug, path, true);
      var r := Target(sites, slug, path, true);
      if r.Ok? {
        ListingsAgree(At(sites, slug), fake[slug], slug, r.value);
        ChangeRefines(sites, fake, slug, At(sites, slug), fake);
      }
    case Download(slug, path) =>
      TargetsAgree(sites, fake, slug, path, false);
      var r := Target(sites, slug, path, false);
      if r.Ok? { ReadsAgree(At(sites, slug), fake[slug], r.value); }
    case _ => FileRequestsAgree(sites, fake, request, cap, mtime);
  }

  /** The answers of a sequence of requests, none starting before the last has ended. */
  ghost function RunReal(sites: Sites, requests: seq<(Request, int)>, cap: nat): seq<Answer>
    decreases |requests|
  {
    if requests == [] then []
    else
      var (sites', answer) := Handle(sites, requests[0].0, cap, requests[0].1);
      [answer] + RunReal(sites', requests[1..], cap)
  }

  ghost function RunFake(sites: Fake.Sites, requests: seq<(Request, int)>, cap: nat): seq<Answer>
    decreases |requests|
  {
    if requests == [] then []
    else
      var (sites', answer) := Fake.Handle(sites, requests[0].0, cap);
      [answer] + RunFake(sites', requests[1..], cap)
  }

  lemma {:induction false} RunsAgree(sites: Sites, fake: Fake.Sites, requests: seq<(Request, int)>, cap: nat)
    requires Refines(sites, fake)
    ensures RunReal(sites, requests, cap) == RunFake(fake, requests, cap)
    decreases |requests|
  {
    if requests != [] {
      var (request, mtime) := requests[0];
      RequestsAgree(sites, fake, request, cap, mtime);
      var (sites', answer) := Handle(sites, request, cap, mtime);
      var (fake', answer') := Fake.Handle(fake, request, cap);
      RunsAgree(sites', fake', requests[1..], cap);
    }
  }

  /** From an empty volume the two backends give every sequence of requests the same answers. */
  lemma {:induction false} BackendsIdentical(requests: seq<(Request, int)>, cap: nat)
    ensures RunReal(map[], requests, cap) == RunFake(map[], requests, cap)
  {
    RunsAgree(map[], map[], requests, cap);
  }
}
