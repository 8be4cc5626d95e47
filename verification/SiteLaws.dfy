/** What the requests about sites and the listings of the real backend answer, told by what other requests show. */
module SiteLaws {
  import opened Common
  import opened Naming
  import opened SlugSigns
  import opened Paths
  import opened Sums
  import opened Sorting
  import opened Model
  import opened SiteStore
  import opened Refinement
  import opened RealBackend
  import opened RequestLaws
  import FileIndex
  import Listings
  import Fake = FakeBackend

  // ---- creating and deleting sites ----

  /** A name gives a slug: its runs of letters and digits in small letters, joined by hyphens and cut. */
  ghost predicate NameGives(folded: string, slug: Slug) {
    var joined := Spelled(SignRuns(folded));
    SignRuns(folded) != []
    && slug == if |joined| <= 63 then joined else if joined[62] == '-' then joined[..62] else joined[..63]
  }

  ghost function CreateAnswer(seen: Seen, name: string, slug: Slug): Answer {
    if slug in seen.names then Fail(409, SiteExists) else Created(SiteInfo(slug, name, 0, 0))
  }

  /** An empty site more. */
  ghost function WithSite(seen: Seen, slug: Slug, name: string): Seen {
    Seen(seen.names[slug := name], seen.files, seen.folders + iset{(slug, "")})
  }

  /** Creating a site: refused without a letter or digit in the name or with a slug that is taken; otherwise the site
      is there, empty, under its name. */
  lemma Creations(sites: Sites, name: string, folded: string, cap: nat, mtime: int)
    requires Sound(sites)
    ensures var seen := Look(sites);
            var (sites', answer) := Handle(sites, CreateSite(name, folded), cap, mtime);
            (SignRuns(folded) == [] ==> answer == Fail(400, InvalidName) && Look(sites') == seen)
            && forall slug :: NameGives(folded, slug) ==>
                 answer == CreateAnswer(seen, name, slug)
                 && Look(sites')
                    == if answer.Created? then WithSite(seen, slug, name) else seen
  {
    var fake: Fake.Sites :| Backs(sites, fake);
    BothLook(sites, fake, CreateSite(name, folded), cap, mtime);
    SlugIsSpelled(folded);
    if SlugFromName(folded).Ok? { FakeCreations(fake, name, folded, SlugFromName(folded).value); }
  }

  lemma FakeCreations(fake: Fake.Sites, name: string, folded: string, slug: Slug)
    requires SlugFromName(folded) == Ok(slug)
    ensures var seen := FakeLook(fake);
            var (fake', answer) := Fake.Create(fake, name, folded);
            answer == CreateAnswer(seen, name, slug)
            && FakeLook(fake')
               == if answer.Created? then WithSite(seen, slug, name) else seen
  {
    if slug !in fake { NewSiteLooks(fake, name, slug); }
  }

  lemma NewSiteLooks(fake: Fake.Sites, name: string, slug: Slug)
    requires slug !in fake
    ensures var fake' := fake[slug := Fake.FakeSite(name, Fake.EMPTY)];
            Fake.PublicSite(fake', slug) == SiteInfo(slug, name, 0, 0)
            && FakeLook(fake') == WithSite(FakeLook(fake), slug, name)
  {
    SeenSame(FakeLook(fake[slug := Fake.FakeSite(name, Fake.EMPTY)]), WithSite(FakeLook(fake), slug, name));
  }

  ghost function WithoutSite(seen: Seen, slug: Slug): Seen {
    Seen(imap s | s in seen.names && s != slug :: seen.names[s],
         imap k | k in seen.files && k.0 != slug :: seen.files[k],
         iset k | k in seen.folders && k.0 != slug)
  }

  /** Deleting a site wants its slug repeated; afterwards nothing of the site is seen, and everything else is. */
  lemma SiteDeletions(sites: Sites, slug: Slug, confirm: Option<string>, cap: nat, mtime: int)
    requires Sound(sites) && slug in Look(sites).names
    ensures var seen := Look(sites);
            var (sites', answer) := Handle(sites, DeleteSite(slug, confirm), cap, mtime);
            answer == (if confirm == Some(slug) then NoContent else Fail(400, ConfirmMismatch))
            && Look(sites') == if answer.NoContent? then WithoutSite(seen, slug) else seen
  {
    var fake: Fake.Sites :| Backs(sites, fake);
    BothLook(sites, fake, DeleteSite(slug, confirm), cap, mtime);
    FakeSiteDeletions(fake, slug, confirm, cap);
  }

  lemma FakeSiteDeletions(fake: Fake.Sites, slug: Slug, confirm: Option<string>, cap: nat)
    requires slug in fake
    ensures var seen := FakeLook(fake);
            var (fake', answer) := Fake.Handle(fake, DeleteSite(slug, confirm), cap);
            answer == (if confirm == Some(slug) then NoContent else Fail(400, ConfirmMismatch))
            && FakeLook(fake') == if answer.NoContent? then WithoutSite(seen, slug) else seen
  {
    OneSiteLess(fake, slug);
  }

  lemma OneSiteLess(fake: Fake.Sites, slug: Slug)
    ensures FakeLook(fake - {slug}) == WithoutSite(FakeLook(fake), slug)
  {
    SeenSame(FakeLook(fake - {slug}), WithoutSite(FakeLook(fake), slug));
  }

  // ---- listings ----

  /** The answer to a listing by the canonical path, the root's being empty. */
  ghost function List(sites: Sites, slug: Slug, p: Path): Answer {
    Ask(sites, ListFiles(slug, p))
  }

  /** A file entry has the length and the digest of what a download of that path answers. */
  ghost predicate EntryOfFile(seen: Seen, slug: Slug, p: Path, e: Entry) {
    var k := (slug, Child(p, e.name));
    e.FileEntry? && k in seen.files && e.bytes == |seen.files[k]| && e.digest == Sha256(seen.files[k])
  }

  /** A folder entry has the bytes that a listing of that folder sums to. */
  ghost predicate EntryOfFolder(sites: Sites, slug: Slug, p: Path, e: Entry) {
    var c := Child(p, e.name);
    e.FolderEntry? && (slug, c) in Look(sites).folders && List(sites, slug, c).Listing?
    && e.bytes == FileIndex.EntriesBytes(List(sites, slug, c).entries)
  }

  ghost predicate ShownAs(sites: Sites, slug: Slug, p: Path, folders: seq<Entry>, files: seq<Entry>) {
    var seen := Look(sites);
    Listings.InNameOrder(folders) && Listings.InNameOrder(files)
    && (forall i :: 0 <= i < |folders| ==> EntryOfFolder(sites, slug, p, folders[i]))
    && (forall i :: 0 <= i < |files| ==> EntryOfFile(seen, slug, p, files[i]))
    && (forall c :: (slug, c) in seen.folders && c != "" && Parent(c) == p ==> Listings.HasEntry(p, folders, c))
    && forall c :: (slug, c) in seen.files && Parent(c) == p ==> Listings.HasEntry(p, files, c)
  }

  /** A path names a file or folder, or it is the root. */
  ghost predicate NamesOrRoot(path: string, p: Path) {
    (Canonical(p) || p == "") && exists i: nat, j: nat :: path == Slashes(i) + p + Slashes(j)
  }

  lemma NamesOrRootIsTarget(path: string, p: Path)
    requires NamesOrRoot(path, p)
    ensures ValidateSitePath(path, true) == Ok(p)
  {
    var i: nat, j: nat :| path == Slashes(i) + p + Slashes(j);
    AcceptedBetweenSlashes(path, true, p, i, j);
  }

  /** What is behind a site that is seen. */
  ghost predicate Behind(sites: Sites, fake: Fake.Sites, slug: Slug, site: Site) {
    slug in fake && Backs(sites, fake) && site == At(sites, slug) && Matches(site, fake[slug]) && Known(sites, slug)
  }

  lemma SiteBehind(sites: Sites, slug: Slug) returns (fake: Fake.Sites, site: Site)
    requires Sound(sites) && slug in Look(sites).names
    ensures Behind(sites, fake, slug, site)
  {
    fake :| Backs(sites, fake);
    site := At(sites, slug);
    LooksTheSame(sites, fake);
    KnownAgrees(sites, fake, slug);
    assert SiteRefines(site, fake, slug);
  }

  lemma SeenInTree(sites: Sites, fake: Fake.Sites, slug: Slug, site: Site)
    requires Behind(sites, fake, slug, site)
    ensures var (seen, tree) := (Look(sites), site.tree);
            (forall p :: (slug, p) in seen.files <==> FileAt(tree, p))
            && (forall p :: FileAt(tree, p) ==> seen.files[(slug, p)] == tree[p].content)
            && forall p :: (slug, p) in seen.folders <==> p in tree && tree[p].Folder?
  {
    LooksTheSame(sites, fake);
    assert FilesOf(site.tree) == fake[slug].view.files && FoldersOf(site.tree) == fake[slug].view.folders;
  }

  lemma ListIsListFolder(sites: Sites, slug: Slug, path: string, p: Path)
    requires Known(sites, slug) && ValidateSitePath(path, true) == Ok(p)
    ensures Ask(sites, ListFiles(slug, path)) == ListFolder(At(sites, slug), slug, p).1
  {
  }

  lemma FolderEntryIsShown(sites: Sites, fake: Fake.Sites, slug: Slug, site: Site, p: Path, e: Entry)
    requires Behind(sites, fake, slug, site) && Listings.ShowsFolder(site.tree, site.index, p, e)
    ensures EntryOfFolder(sites, slug, p, e)
  {
    var c := Child(p, e.name);
    SeenInTree(sites, fake, slug, site);
    LooksTheSame(sites, fake);
    assert CanonicalView(fake[slug].view) && c in fake[slug].view.folders;
    CanonicalIsTarget(c, true);
    ListIsListFolder(sites, slug, c, c);
    FileIndex.ListingConservesBytes(site, fake[slug], slug, c);
  }

  lemma FileEntryIsShown(sites: Sites, fake: Fake.Sites, slug: Slug, site: Site, p: Path, e: Entry)
    requires Behind(sites, fake, slug, site) && Listings.ShowsFile(site.tree, site.index, p, e)
    ensures EntryOfFile(Look(sites), slug, p, e)
  {
    SeenInTree(sites, fake, slug, site);
    assert site.index == ExactIndex(site.tree);
  }

  /** A listing, by any spelling of the path: the subfolders, then the files, each once and by name, with the lengths
      and digests of their downloads and the sums of their listings. */
  lemma ListingsShow(sites: Sites, slug: Slug, path: string, p: Path) returns (folders: seq<Entry>, files: seq<Entry>)
    requires Sound(sites) && slug in Look(sites).names && NamesOrRoot(path, p) && (slug, p) in Look(sites).folders
    ensures Ask(sites, ListFiles(slug, path)) == Listing(slug, p, folders + files)
    ensures ShownAs(sites, slug, p, folders, files)
  {
    var fake, site := SiteBehind(sites, slug);
    NamesOrRootIsTarget(path, p);
    ListIsListFolder(sites, slug, path, p);
    SeenInTree(sites, fake, slug, site);
    folders, files := Listings.ListingShows(site, slug, p);
    forall i | 0 <= i < |folders| ensures EntryOfFolder(sites, slug, p, folders[i]) {
      FolderEntryIsShown(sites, fake, slug, site, p, folders[i]);
    }
    forall i | 0 <= i < |files| ensures EntryOfFile(Look(sites), slug, p, files[i]) {
      FileEntryIsShown(sites, fake, slug, site, p, files[i]);
    }
  }

  /** Why a listing is refused. */
  lemma ListingsRefuse(sites: Sites, slug: Slug, path: string, p: Path)
    requires Sound(sites) && slug in Look(sites).names && NamesOrRoot(path, p) && (slug, p) !in Look(sites).folders
    ensures Ask(sites, ListFiles(slug, path))
            == if (slug, p) in Look(sites).files then Fail(409, NotAFolder) else Fail(404, NotFound)
  {
    var fake, site := SiteBehind(sites, slug);
    NamesOrRootIsTarget(path, p);
    ListIsListFolder(sites, slug, path, p);
    SeenInTree(sites, fake, slug, site);
    NoLinks(site.tree, p);
  }

  // ---- totals ----

  /** A site's answer counts its files and sums the entries of its root. */
  lemma SitesShow(sites: Sites, slug: Slug) returns (files: set<Path>)
    requires Sound(sites) && slug in Look(sites).names
    ensures forall p :: p in files <==> (slug, p) in Look(sites).files
    ensures List(sites, slug, "").Listing?
    ensures Ask(sites, GetSite(slug))
            == Info(SiteInfo(slug, Look(sites).names[slug], |files|,
                             FileIndex.EntriesBytes(List(sites, slug, "").entries)))
  {
    var fake, site := SiteBehind(sites, slug);
    SeenInTree(sites, fake, slug, site);
    LooksTheSame(sites, fake);
    CanonicalIsTarget("", true);
    ListIsListFolder(sites, slug, "", "");
    FileIndex.ListingConservesBytes(site, fake[slug], slug, "");
    files := site.index.Keys;
    assert |site.index| == |files|;
  }

  lemma {:induction false} PublicSitesAre(sites: Sites, slugs: seq<Slug>)
    requires forall s :: s in slugs ==> At(sites, s).row.Some?
    ensures var infos := PublicSites(sites, slugs);
            |infos| == |slugs|
            && forall i :: 0 <= i < |infos| ==> infos[i] == PublicSite(At(sites, slugs[i]), slugs[i])
  {
    if slugs != [] {
      var tail := PublicSites(sites, slugs[1..]);
      PublicSitesAre(sites, slugs[1..]);
      assert PublicSites(sites, slugs)[1..] == tail;
    }
  }

  lemma RowsAreSeen(sites: Sites, slug: Slug)
    requires Sound(sites)
    ensures slug in SiteRows(sites) <==> slug in Look(sites).names
    ensures slug in SiteRows(sites) ==> Ask(sites, GetSite(slug)) == Info(PublicSite(At(sites, slug), slug))
  {
    var fake: Fake.Sites :| Backs(sites, fake);
    LooksTheSame(sites, fake);
    KnownAgrees(sites, fake, slug);
    SiteRowsAgree(sites, fake);
  }

  /** The list of sites holds every site once, by slug, as a request for that site answers. */
  lemma SiteListShows(sites: Sites) returns (infos: seq<SiteInfo>)
    requires Sound(sites)
    ensures Ask(sites, ListSites) == SiteList(infos)
    ensures forall i, j :: 0 <= i < j < |infos| ==> Less(infos[i].slug, infos[j].slug)
    ensures forall i :: 0 <= i < |infos| ==> Ask(sites, GetSite(infos[i].slug)) == Info(infos[i])
    ensures forall slug :: slug in Look(sites).names ==> exists i :: 0 <= i < |infos| && infos[i].slug == slug
  {
    var slugs := Sorted(SiteRows(sites));
    infos := PublicSites(sites, slugs);
    SortedSorts(SiteRows(sites));
    PublicSitesAre(sites, slugs);
    forall i | 0 <= i < |infos|
      ensures infos[i].slug == slugs[i] && Ask(sites, GetSite(infos[i].slug)) == Info(infos[i])
    {
      RowsAreSeen(sites, slugs[i]);
    }
    forall slug | slug in Look(sites).names ensures exists i :: 0 <= i < |infos| && infos[i].slug == slug {
      RowsAreSeen(sites, slug);
      var i :| 0 <= i < |slugs| && slugs[i] == slug;
      assert infos[i].slug == slug;
    }
  }

  // ---- a folder already on the volume ----

  /** Creating a site never adopts what is there: with a row of that slug, or a node where its folder would be, it is
      refused and nothing changes; otherwise the new folder is empty. */
  lemma NeverAdopts(sites: Sites, name: string, folded: string, slug: Slug, cap: nat, mtime: int)
    requires NameGives(folded, slug)
    ensures var site := At(sites, slug);
            var (sites', answer) := Handle(sites, CreateSite(name, folded), cap, mtime);
            (answer == Fail(409, SiteExists) <==> site.row.Some? || "" in site.tree)
            && (answer == Fail(409, SiteExists) ==> sites' == sites)
            && (answer != Fail(409, SiteExists) ==>
                  sites' == sites[slug := Site(Some(name), map["" := Folder], site.index)])
  {
    SlugIsSpelled(folded);
    SpelledIsSome(SignRuns(folded));
  }
}
