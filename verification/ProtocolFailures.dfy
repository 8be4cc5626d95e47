/** What failures inside the lock leave behind and what repairs it, and what becomes of a folder once it is parked. */
module ProtocolFailures {
  import opened Common
  import opened Naming
  import opened Paths
  import opened Model
  import opened SiteStore
  import opened Refinement
  import opened Locks
  import opened RealBackend
  import opened Protocol
  import opened ProtocolSafety
  import opened ProtocolOrder
  import opened ProtocolTheorems
  import FileIndex
  import Fake = FakeBackend

  // ---- failures ----

  /** At the moment an operation of a site no failure has struck takes the lock, the site is the fake's. */
  lemma LockedInStep(cap: nat, before: seq<Step>, t: TaskId)
    requires Runs(Init(cap), before)
    requires var w := Run(Init(cap), before);
             t in w.tasks && w.tasks[t].pc.Waiting? && CanAcquire(w.locks, t) && w.tasks[t].slug !in w.faulty
    ensures var w := Run(Init(cap), before);
            var task := w.tasks[t];
            SiteRefines(At(w.sites, task.slug), Replay(w.log, w.cap), task.slug) && Ready(task, w.cap)
  {
    InitInStep(cap);
    AlwaysInStep(Init(cap), before);
    var w := Run(Init(cap), before);
    assert TaskInOrder(w, t);
    WaitingIsReady(w.tasks[t], w.cap);
    assert SiteInStep(w, w.tasks[t].slug);
  }

  lemma PlacedSection(site: Site, fake: Fake.Sites, task: Task, cap: nat, mtime: int)
    requires Ready(task, cap) && SiteRefines(site, fake, task.slug) && task.request.Upload?
    requires CommitUpload(site, task.target, task.request.body, task.request.overwrite, 0).1.Uploaded?
    ensures task.slug in fake && Matches(site, fake[task.slug]) && Placeable(site.tree, task.target)
    ensures var body := task.request.body;
            Critical(site, task, mtime).0
            == site.(tree := Place(site.tree, task.target, body, mtime),
                     index := site.index[task.target := FileRow(|body|, mtime, Sha256(body))])
  {
    UploadedPlaces(site, task.target, task.request.body, task.request.overwrite, mtime);
    if task.slug in fake { AcceptedIsPlaceable(site.tree, task.target, task.request.overwrite); }
  }

  lemma UploadedPlaces(site: Site, path: Path, body: Bytes, overwrite: bool, mtime: int)
    requires CommitUpload(site, path, body, overwrite, 0).1.Uploaded?
    ensures site.row.Some? && CheckWriteTarget(site.tree, path, overwrite).Ok?
    ensures CommitUpload(site, path, body, overwrite, mtime).0
            == site.(tree := Place(site.tree, path, body, mtime),
                     index := site.index[path := FileRow(|body|, mtime, Sha256(body))])
  {
    ParentsRefuse(site.tree, path);
  }

  lemma AcceptedIsPlaceable(tree: Tree, path: Path, overwrite: bool)
    requires TreeOk(tree) && Relative(path) && CheckWriteTarget(tree, path, overwrite).Ok?
    ensures Placeable(tree, path)
  {
    CheckParentsMeaning(tree, path);
  }

  lemma SameTreeSameIndex(site: Site, other: Site, fake: Fake.FakeSite)
    requires Matches(site, fake) && other.row == site.row && other.tree == site.tree
    ensures Matches(other, fake) <==> other == site
  {
  }

  /** An upload's index row fails to be written after the rename. The new file is in place, whole; and one listing
      of its folder leaves the site exactly where the fake is after that upload, if and only if no row of a
      replaced file passes for one of the new file. */
  lemma LateFailureIsRepaired(cap: nat, before: seq<Step>, t: TaskId, mtime: int)
    requires Runs(Init(cap), before)
    requires Enabled(Run(Init(cap), before), Step.Fail(t, FileRowFails(mtime), INTERNAL_ERROR))
    requires var w := Run(Init(cap), before); w.tasks[t].slug !in w.faulty
    ensures var w := Run(Init(cap), before);
            var task := w.tasks[t];
            var left := At(Next(w, Step.Fail(t, FileRowFails(mtime), INTERNAL_ERROR)).sites, task.slug);
            var (listed, answer) := ListFolder(left, task.slug, Parent(task.target));
            FileAt(left.tree, task.target) && left.tree[task.target] == File(task.request.body, mtime)
            && answer.Listing?
            && (SiteRefines(listed, Fake.Handle(Replay(w.log, w.cap), task.request, w.cap).0, task.slug)
                <==> !FileIndex.Mistaken(At(w.sites, task.slug).index, task.target, task.request.body, mtime))
  {
    LockedInStep(cap, before, t);
    var w := Run(Init(cap), before);
    var task := w.tasks[t];
    RepairedUpload(At(w.sites, task.slug), Replay(w.log, w.cap), task, w.cap, mtime);
  }

  lemma RepairedUpload(site: Site, fake: Fake.Sites, task: Task, cap: nat, mtime: int)
    requires Ready(task, cap) && SiteRefines(site, fake, task.slug) && task.request.Upload?
    requires CommitUpload(site, task.target, task.request.body, task.request.overwrite, 0).1.Uploaded?
    ensures var placed := SiteAfterFailure(site, task, FileRowFails(mtime));
            var (listed, answer) := ListFolder(placed, task.slug, Parent(task.target));
            FileAt(placed.tree, task.target) && placed.tree[task.target] == File(task.request.body, mtime)
            && answer.Listing?
            && (SiteRefines(listed, Fake.Handle(fake, task.request, cap).0, task.slug)
                <==> !FileIndex.Mistaken(site.index, task.target, task.request.body, mtime))
  {
    var (slug, path, body) := (task.slug, task.target, task.request.body);
    PlacedSection(site, fake, task, cap, mtime);
    SectionsAgree(site, fake, task, cap, mtime);
    FakeOnFile(fake, task, cap);
    FileIndex.ListingCompletesUpload(site, fake[slug], slug, path, body, mtime);
    var placed := SiteAfterFailure(site, task, FileRowFails(mtime));
    var fake' := Fake.Handle(fake, task.request, cap).0;
    PlaceKeepsOk(site.tree, path, body, mtime);
    FileIndex.ListedIn(placed, slug, Parent(path));
    SameTreeSameIndex(Critical(site, task, mtime).0, ListFolder(placed, slug, Parent(path)).0, fake'[slug]);
  }

  /** A deleted file's row fails to go. One listing of its folder leaves the site where the fake is after that
      deletion. */
  lemma FailedRowDeletionIsRepaired(cap: nat, before: seq<Step>, t: TaskId)
    requires Runs(Init(cap), before) && Enabled(Run(Init(cap), before), Step.Fail(t, UnlinkedRowFails, INTERNAL_ERROR))
    requires var w := Run(Init(cap), before); w.tasks[t].slug !in w.faulty
    ensures var w := Run(Init(cap), before);
            var task := w.tasks[t];
            var left := At(Next(w, Step.Fail(t, UnlinkedRowFails, INTERNAL_ERROR)).sites, task.slug);
            var (listed, answer) := ListFolder(left, task.slug, Parent(task.target));
            answer.Listing?
            && SiteRefines(listed, Fake.Handle(Replay(w.log, w.cap), task.request, w.cap).0, task.slug)
  {
    LockedInStep(cap, before, t);
    var w := Run(Init(cap), before);
    var task := w.tasks[t];
    RepairedDeletion(At(w.sites, task.slug), Replay(w.log, w.cap), task, w.cap);
  }

  lemma DeletedSection(site: Site, fake: Fake.Sites, task: Task, cap: nat)
    requires Ready(task, cap) && SiteRefines(site, fake, task.slug) && task.request.DeleteFile?
    requires RemoveFile(site, task.target).1.NoContent?
    ensures task.slug in fake && Matches(site, fake[task.slug]) && FileAt(site.tree, task.target) && task.target != ""
    ensures Critical(site, task, 0).0 == Site(site.row, site.tree - {task.target}, site.index - {task.target})
  {
    RemovedFile(site, task.target);
  }

  lemma RemovedFile(site: Site, path: Path)
    requires RemoveFile(site, path).1.NoContent?
    ensures FileAt(site.tree, path)
    ensures RemoveFile(site, path).0 == Site(site.row, site.tree - {path}, site.index - {path})
  {
  }

  lemma RepairedDeletion(site: Site, fake: Fake.Sites, task: Task, cap: nat)
    requires Ready(task, cap) && SiteRefines(site, fake, task.slug) && task.request.DeleteFile?
    requires RemoveFile(site, task.target).1.NoContent?
    ensures var (listed, answer) :=
              ListFolder(SiteAfterFailure(site, task, UnlinkedRowFails), task.slug, Parent(task.target));
            answer.Listing? && SiteRefines(listed, Fake.Handle(fake, task.request, cap).0, task.slug)
  {
    DeletionIsListed(site, fake, task, cap);
    SectionsAgree(site, fake, task, cap, 0);
  }

  lemma DeletionIsListed(site: Site, fake: Fake.Sites, task: Task, cap: nat)
    requires Ready(task, cap) && SiteRefines(site, fake, task.slug) && task.request.DeleteFile?
    requires RemoveFile(site, task.target).1.NoContent?
    ensures var (listed, answer) :=
              ListFolder(SiteAfterFailure(site, task, UnlinkedRowFails), task.slug, Parent(task.target));
            answer.Listing? && listed == Critical(site, task, 0).0
  {
    DeletedSection(site, fake, task, cap);
    FileIndex.ListingCompletesDeletion(site, fake[task.slug], task.slug, task.target);
  }

  /** A rename fails. The site is the fake's but for folders: the parents already made stay, empty, inside
      folders; files, index and row are untouched. */
  lemma FailedRenameLeavesFolders(cap: nat, before: seq<Step>, t: TaskId, made: set<Path>, answer: Answer)
    requires Runs(Init(cap), before) && Enabled(Run(Init(cap), before), Step.Fail(t, RenameFails(made), answer))
    requires var w := Run(Init(cap), before); w.tasks[t].slug !in w.faulty
    ensures var w := Run(Init(cap), before);
            var (task, fake) := (w.tasks[t], Replay(w.log, w.cap));
            var left := At(Next(w, Step.Fail(t, RenameFails(made), answer)).sites, task.slug);
            task.slug in fake && TreeOk(left.tree) && left.row == Some(fake[task.slug].name)
            && FilesOf(left.tree) == fake[task.slug].view.files
            && FoldersOf(left.tree) == fake[task.slug].view.folders + (made - {""})
            && left.index == ExactIndex(left.tree)
  {
    LockedInStep(cap, before, t);
    var w := Run(Init(cap), before);
    var task := w.tasks[t];
    var site := At(w.sites, task.slug);
    PlacedSection(site, Replay(w.log, w.cap), task, w.cap, 0);
    FoldersAdded(site.tree, task.target, made);
  }

  /** A rename can fail before any parent was made and after all missing ones were. */
  lemma RenamesCanFail(w: World, t: TaskId)
    requires t in w.tasks && CanPlace(w, t, At(w.sites, w.tasks[t].slug), w.tasks[t])
    ensures var (tree, target) := (At(w.sites, w.tasks[t].slug).tree, w.tasks[t].target);
            var missing := set a | a in Ancestors(target) + {""} && a !in tree;
            CanFail(w, t, RenameFails({})) && CanFail(w, t, RenameFails(missing))
  {
    var (tree, target) := (At(w.sites, w.tasks[t].slug).tree, w.tasks[t].target);
    forall a | a in Ancestors(target) ensures Parent(a) in Ancestors(target) + {""} { Fake.AncestorsChain(target, a); }
  }

  function WithFolders(tree: Tree, made: set<Path>): Tree {
    (map a | a in made :: Folder) + tree
  }

  /** Folders above a placeable path: where the tree has one already, it is a folder. */
  lemma MadeAreFolders(tree: Tree, path: Path, made: set<Path>)
    requires Placeable(tree, path) && made <= Ancestors(path) + {""}
    ensures forall a :: a in made && a in tree ==> tree[a].Folder?
  {
    forall a | a in made && a in tree ensures tree[a].Folder? {
      assert a !in FilesOf(tree);
    }
  }

  lemma FoldersAddedOk(tree: Tree, path: Path, made: set<Path>)
    requires Placeable(tree, path) && made <= Ancestors(path) + {""}
    requires forall a :: a in made && a != "" ==> Parent(a) in made || Parent(a) in tree
    ensures TreeOk(WithFolders(tree, made))
  {
    AncestorsAreRelative(path);
    MadeAreFolders(tree, path, made);
    MadeAreFolders(tree, path, Ancestors(path) + {""});
  }

  lemma FoldersAdded(tree: Tree, path: Path, made: set<Path>)
    requires Placeable(tree, path) && made <= Ancestors(path) + {""}
    requires forall a :: a in made && a != "" ==> Parent(a) in made || Parent(a) in tree
    ensures var tree' := WithFolders(tree, made);
            TreeOk(tree') && FilesOf(tree') == FilesOf(tree) && FoldersOf(tree') == FoldersOf(tree) + (made - {""})
            && ExactIndex(tree') == ExactIndex(tree)
  {
    FoldersAddedOk(tree, path, made);
    MadeAreFolders(tree, path, made);
    FoldersAddedFiles(tree, made);
    FoldersAddedFolders(tree, made);
  }

  lemma FoldersAddedFiles(tree: Tree, made: set<Path>)
    requires forall a :: a in made && a in tree ==> tree[a].Folder?
    ensures FilesOf(WithFolders(tree, made)) == FilesOf(tree)
    ensures ExactIndex(WithFolders(tree, made)) == ExactIndex(tree)
  {
    assert forall p :: FileAt(WithFolders(tree, made), p) <==> FileAt(tree, p);
  }

  lemma FoldersAddedFolders(tree: Tree, made: set<Path>)
    requires forall a :: a in made && a in tree ==> tree[a].Folder?
    ensures FoldersOf(WithFolders(tree, made)) == FoldersOf(tree) + (made - {""})
  {
  }

  /** A folder's removal fails half-way, or its index rows fail to go. While the folder is still there, the same
      request again ends in the fake's state after the deletion. Once it is gone from disk, the request is answered
      404, and the site is where the fake is after the deletion if and only if no row from below is left. */
  lemma FailedRemovalIsRepeated(cap: nat, before: seq<Step>, t: TaskId, answer: Answer)
    requires Runs(Init(cap), before) && Enabled(Run(Init(cap), before), Step.Fail(t, RemovalFails, answer))
    requires var w := Run(Init(cap), before); w.tasks[t].slug !in w.faulty
    ensures var w := Run(Init(cap), before);
            var task := w.tasks[t];
            var fake' := Fake.Handle(Replay(w.log, w.cap), task.request, w.cap).0;
            var sites := Next(w, Step.Fail(t, RemovalFails, answer)).sites;
            var left := At(sites, task.slug);
            var (repeated, reply) := RealBackend.Handle(sites, task.request, w.cap, 0);
            if task.target in left.tree then
              reply == NoContent && SiteRefines(At(repeated, task.slug), fake', task.slug)
            else
              reply == NOT_FOUND && At(repeated, task.slug) == left
              && (SiteRefines(left, fake', task.slug) <==> forall p :: p in left.index ==> !Below(task.target, p))
  {
    RemovingInStep(cap, before, t);
    var w := Run(Init(cap), before);
    RemovalRepeated(w.sites, At(w.sites, w.tasks[t].slug), Replay(w.log, w.cap), w.tasks[t], w.cap);
  }

  lemma RemovingInStep(cap: nat, before: seq<Step>, t: TaskId)
    requires Runs(Init(cap), before)
    requires var w := Run(Init(cap), before);
             t in w.tasks && w.tasks[t].pc.Removing? && w.tasks[t].slug !in w.faulty
    ensures var w := Run(Init(cap), before);
            var (task, fake) := (w.tasks[t], Replay(w.log, w.cap));
            Ready(task, w.cap) && TaskOk(task, w.cap) && task.slug in fake
            && SiteRefines(task.pc.before, fake, task.slug)
            && HalfRemoved(At(w.sites, task.slug), task.pc.before, task.target)
  {
    InitInStep(cap);
    AlwaysInStep(Init(cap), before);
    var w := Run(Init(cap), before);
    assert TaskInOrder(w, t) && SiteInStep(w, w.tasks[t].slug) && LockOk(w);
    WaitingIsReady(w.tasks[t], w.cap);
  }

  lemma RemovalRepeated(sites: Sites, left: Site, fake: Fake.Sites, task: Task, cap: nat)
    requires Ready(task, cap) && TaskOk(task, cap) && task.pc.Removing? && task.slug in fake
    requires SiteRefines(task.pc.before, fake, task.slug) && HalfRemoved(left, task.pc.before, task.target)
    ensures var fake' := Fake.Handle(fake, task.request, cap).0;
            var (repeated, reply) := RealBackend.Handle(sites[task.slug := left], task.request, cap, 0);
            if task.target in left.tree then
              reply == NoContent && SiteRefines(At(repeated, task.slug), fake', task.slug)
            else
              reply == NOT_FOUND && At(repeated, task.slug) == left
              && (SiteRefines(left, fake', task.slug) <==> forall p :: p in left.index ==> !Below(task.target, p))
  {
    var (before, recursive) := (task.pc.before, task.request.recursive);
    FolderDeletionsAgree(before, fake[task.slug], task.target, recursive);
    FakeOnFile(fake, task, cap);
    FolderRequest(sites[task.slug := left], task, cap);
    if task.target in left.tree {
      RestIsRemovable(left, before, task.target, recursive);
    } else {
      NothingRemains(left, before, task.target);
      NoLinks(before.tree, task.target);
      RowsRemain(left, before, task.target, recursive);
      SameTreeSameIndex(RemoveFolder(before, task.target, recursive).0, left,
                        Fake.Handle(fake, task.request, cap).0[task.slug]);
    }
  }

  lemma FolderRequest(sites: Sites, task: Task, cap: nat)
    requires Ready(task, cap) && task.request.DeleteFolder? && Known(sites, task.slug)
    ensures RealBackend.Handle(sites, task.request, cap, 0)
            == RealBackend.Store(sites, task.slug,
                                 RemoveFolder(At(sites, task.slug), task.target, task.request.recursive))
  {
  }

  /** What is left of a folder can be removed as the whole could, to the same effect. */
  lemma RestIsRemovable(left: Site, before: Site, target: Path, recursive: bool)
    requires HalfRemoved(left, before, target) && target in left.tree && before.index == ExactIndex(before.tree)
    requires RefuseRemoveFolder(before, target, recursive).None? && target != ""
    ensures RemoveFolder(left, target, recursive) == RemoveFolder(before, target, recursive)
  {
    RestIsNotRefused(left, before, target, recursive);
    assert RemoveTree(left.tree, target) == RemoveTree(before.tree, target);
    assert target !in before.index;
    assert RemoveRows(left.index, target) == RemoveRows(before.index, target);
  }

  lemma RestIsNotRefused(left: Site, before: Site, target: Path, recursive: bool)
    requires (forall p :: p in left.tree ==> p in before.tree && left.tree[p] == before.tree[p]) && target in left.tree
    requires RefuseRemoveFolder(before, target, recursive).None?
    ensures RefuseRemoveFolder(left, target, recursive).None?
  {
    if PassesLink(left.tree, target) { assert PassesLink(before.tree, target); }
    assert EmptyFolder(before.tree, target) ==> EmptyFolder(left.tree, target);
  }

  lemma NothingRemains(left: Site, before: Site, target: Path)
    requires HalfRemoved(left, before, target) && target !in left.tree && target != ""
    ensures forall p :: p in left.tree ==> !Within(target, p)
  {
    forall p | p in left.tree ensures !Within(target, p) {
      if Below(target, p) { AboveRemains(left.tree, target, p); }
    }
  }

  lemma {:induction false} AboveRemains(tree: Tree, folder: Path, p: Path)
    requires Rooted(tree) && p in tree && folder != "" && Below(folder, p)
    ensures folder in tree
    decreases |p|
  {
    BelowStep(folder, p);
    if Parent(p) != folder { AboveRemains(tree, folder, Parent(p)); }
  }

  lemma RowsRemain(left: Site, before: Site, target: Path, recursive: bool)
    requires HalfRemoved(left, before, target) && TreeOk(before.tree) && before.index == ExactIndex(before.tree)
    requires RefuseRemoveFolder(before, target, recursive).None? && forall p :: p in left.tree ==> !Within(target, p)
    ensures var after := RemoveFolder(before, target, recursive).0;
            left.row == after.row && left.tree == after.tree
            && (left == after <==> forall p :: p in left.index ==> !Below(target, p))
  {
    var after := RemoveFolder(before, target, recursive).0;
    assert left.tree == after.tree;
    if forall p :: p in left.index ==> !Below(target, p) {
      assert target !in before.index;
      assert left.index == after.index;
    }
  }

  // ---- a site deletion, once more ----

  /** Whatever has happened before, failures included, a site deletion that gets the lock leaves nothing of the site,
      which is where the fake is after it. */
  lemma DeletionAlwaysEndsSite(cap: nat, before: seq<Step>, s: Step)
    requires Runs(Init(cap), before) && Enabled(Run(Init(cap), before), s) && s.Section?
    requires Run(Init(cap), before).tasks[s.t].request.DeleteSite?
    ensures var (w, w') := (Run(Init(cap), before), Next(Run(Init(cap), before), s));
            var task := w.tasks[s.t];
            At(w'.sites, task.slug) == ABSENT && w'.log == w.log + [Event(s.t, task.request, task.slug, NoContent)]
            && SiteRefines(At(w'.sites, task.slug), Replay(w'.log, w'.cap), task.slug)
  {
    InitSafe(cap);
    AlwaysSafe(Init(cap), before);
    var w, w' := Run(Init(cap), before), Next(Run(Init(cap), before), s);
    DeletionCommits(w, s);
    ReplayNext(w.log, w'.log[|w.log|], w.cap);
  }

  lemma DeletionCommits(w: World, s: Step)
    requires Safe(w) && Enabled(w, s) && s.Section? && w.tasks[s.t].request.DeleteSite?
    ensures var (w', task) := (Next(w, s), w.tasks[s.t]);
            At(w'.sites, task.slug) == ABSENT && w'.log == w.log + [Event(s.t, task.request, task.slug, NoContent)]
            && w'.cap == w.cap
            && forall fake :: task.slug !in Fake.Handle(fake, task.request, w.cap).0
  {
    assert TaskInOrder(w, s.t) && RowOk(At(w.sites, w.tasks[s.t].slug));
    WaitingIsReady(w.tasks[s.t], w.cap);
    DeletionParksFolder(w, s);
  }

  /** A site's row fails to be deleted after its folder was parked. What is left is the row and the index rows of the
      folder that is gone; the site is still known, so the same deletion is not refused when it is sent again, and
      then leaves nothing, as in the fake. */
  lemma FailedSiteDeletionIsRepeated(cap: nat, before: seq<Step>, t: TaskId, parked: StagingName)
    requires Runs(Init(cap), before)
    requires Enabled(Run(Init(cap), before), Step.Fail(t, SiteRowFails(parked), INTERNAL_ERROR))
    requires var w := Run(Init(cap), before); w.tasks[t].slug !in w.faulty
    ensures var w := Run(Init(cap), before);
            var (task, w') := (w.tasks[t], Next(w, Step.Fail(t, SiteRowFails(parked), INTERNAL_ERROR)));
            var (repeated, reply) := RealBackend.Handle(w'.sites, task.request, w.cap, 0);
            At(w'.sites, task.slug) == At(w.sites, task.slug).(tree := map[]) && Refusal(w', task.request).None?
            && reply == NoContent
            && SiteRefines(At(repeated, task.slug), Fake.Handle(Replay(w.log, w.cap), task.request, w.cap).0, task.slug)
  {
    LockedInStep(cap, before, t);
    var w := Run(Init(cap), before);
    SlugsAreKnown(At(w.sites, w.tasks[t].slug), Replay(w.log, w.cap), w.tasks[t].slug);
  }

  lemma SlugsAreKnown(site: Site, fake: Fake.Sites, slug: Slug)
    requires SiteRefines(site, fake, slug) && site.tree != map[]
    ensures SlugReMatches(slug) && slug in fake && site.row.Some?
  {
    SlugReExact(slug);
  }

  // ---- a full volume ----

  /** The step gives a task its answer. */
  ghost predicate Answers(w: World, s: Step, answer: Answer) {
    Enabled(w, s) && s.t in w.tasks && !w.tasks[s.t].pc.Done?
    && Next(w, s).tasks[s.t].pc.Done? && Next(w, s).tasks[s.t].pc.answer == answer
  }

  lemma NoSectionIsFull(site: Site, task: Task, mtime: int)
    ensures Critical(site, task, mtime).1 != Answer.Fail(507, InsufficientStorage)
  {
    ParentsRefuse(site.tree, task.target);
  }

  lemma FullStep(w: World, s: Step)
    requires InOrder(w) && Answers(w, s, Answer.Fail(507, InsufficientStorage))
    ensures s.Abort? || (s.Fail? && (s.fault.RenameFails? || s.fault.RemovalFails?))
  {
    if s.Section? {
      NoSectionIsFull(At(w.sites, w.tasks[s.t].slug), w.tasks[s.t], s.mtime);
      SectionAnswersCritical(w, s);
    }
  }

  lemma SectionAnswersCritical(w: World, s: Step)
    requires Enabled(w, s) && s.Section? && Next(w, s).tasks[s.t].pc.Done?
    ensures Next(w, s).tasks[s.t].pc.answer == Critical(At(w.sites, w.tasks[s.t].slug), w.tasks[s.t], s.mtime).1
  {
  }

  /** "Nothing was written": the step that answers 507, whichever it is, leaves all files, index rows and site rows of
      all sites as they were. */
  lemma FullVolumeWritesNothing(w: World, s: Step, slug: Slug)
    requires InOrder(w) && Answers(w, s, Answer.Fail(507, InsufficientStorage))
    ensures var (site, site') := (At(w.sites, slug), At(Next(w, s).sites, slug));
            SameFiles(site.tree, site'.tree) && site'.index == site.index && site'.row == site.row
  {
    FullStep(w, s);
    if s.Fail? { FailureAt(w, s, slug); }
  }

  lemma FailureAt(w: World, s: Step, slug: Slug)
    requires Enabled(w, s) && s.Fail? && (s.fault.RenameFails? || s.fault.RemovalFails?)
    ensures var (site, site') := (At(w.sites, slug), At(FailNext(w, s.t, s.fault, s.answer).sites, slug));
            SameFiles(site.tree, site'.tree) && site'.index == site.index && site'.row == site.row
  {
  }

  /** What a failure may answer: 507 where the file system may report a full volume, in staging, in the rename and in
      a folder's removal; 500 anywhere. */
  lemma FailuresAnswer(w: World, t: TaskId, fault: Fault, answer: Answer)
    requires t in w.tasks && t in w.locks.inside && CanFail(w, t, fault)
    ensures Enabled(w, Step.Fail(t, fault, answer))
            <==> answer == Answer.Fail(500, InternalError)
                 || (answer == Answer.Fail(507, InsufficientStorage) && (fault.RenameFails? || fault.RemovalFails?))
    ensures Enabled(w, Abort(t, answer)) && w.tasks[t].pc.Waiting?
            <==> w.tasks[t].pc.Waiting?
                 && (answer == Answer.Fail(500, InternalError) || answer == Answer.Fail(507, InsufficientStorage))
  {
  }

  /** A task that was given up was answered 500 or 507, in every run. */
  lemma GivenUpAnswers(cap: nat, steps: seq<Step>, t: TaskId)
    requires Runs(Init(cap), steps) && t in Run(Init(cap), steps).tasks
    requires Run(Init(cap), steps).tasks[t].pc.Done? && Run(Init(cap), steps).tasks[t].pc.how.GivenUp?
    ensures var answer := Run(Init(cap), steps).tasks[t].pc.answer;
            answer == Answer.Fail(500, InternalError) || answer == Answer.Fail(507, InsufficientStorage)
  {
    InitInStep(cap);
    AlwaysInStep(Init(cap), steps);
    assert AnswerOk(Run(Init(cap), steps), t);
  }

  // ---- parked folders ----

  lemma DeletionParksFolder(w: World, s: Step)
    requires s.t in w.tasks && Enabled(w, s) && s.Section? && w.tasks[s.t].request.DeleteSite?
    ensures var (slug, w') := (w.tasks[s.t].slug, Next(w, s));
            var tree := At(w.sites, slug).tree;
            At(w'.sites, slug) == Site(None, if "" in tree then map[] else tree, map[]) && s.t in w'.tasks
            && if "" in tree then
                 w'.staging == w.staging[s.name := Parked(tree)] && s.name !in w.staging
                 && w'.tasks[s.t].pc == Clearing(s.name, |w.log|, tree)
               else w'.staging == w.staging - NamesOf(w.tasks[s.t].pc.staged)
  {
  }

  lemma {:induction false} ClearingOnlyEnds(w: World, steps: seq<Step>, t: TaskId)
    requires Safe(w) && Runs(w, steps) && t in w.tasks && w.tasks[t].pc.Clearing?
    ensures Safe(Run(w, steps)) && t in Run(w, steps).tasks
    ensures var (pc, pc') := (w.tasks[t].pc, Run(w, steps).tasks[t].pc);
            pc' == pc || pc' == Done(NoContent, Ordered(pc.at))
    decreases |steps|
  {
    if steps != [] {
      var (s, w') := (steps[0], Next(w, steps[0]));
      SafeKept(w, s);
      if s.t == t { ClearingStays(w, s); } else { TasksGrowBy(w, s); }
      if w'.tasks[t].pc.Clearing? {
        ClearingOnlyEnds(w', steps[1..], t);
      } else {
        AlwaysSafe(w', steps[1..]);
      }
    }
  }

  /** A site's deletion, over everything that can follow it. In the step that ends its serving the served folder is
      in staging, whole. From then on, however others interleave, what is there is a part of that folder as it was,
      until it is gone and the deletion has its answer. */
  lemma {:induction false} ParkedFolderOnlyShrinks(cap: nat, before: seq<Step>, s: Step, after: seq<Step>)
    requires Runs(Init(cap), before) && Enabled(Run(Init(cap), before), s) && s.Section?
    requires var w := Run(Init(cap), before);
             w.tasks[s.t].request.DeleteSite? && "" in At(w.sites, w.tasks[s.t].slug).tree
    requires Runs(Next(Run(Init(cap), before), s), after)
    ensures var w := Run(Init(cap), before);
            var slug := w.tasks[s.t].slug;
            var served := At(w.sites, slug).tree;
            var (w1, w2) := (Next(w, s), Run(Next(w, s), after));
            At(w1.sites, slug) == ABSENT && s.name in w1.staging && w1.staging[s.name] == Parked(served)
            && s.t in w2.tasks
            && if w2.tasks[s.t].pc.Clearing? then
                 s.name in w2.staging && w2.staging[s.name].Parked? && Remains(w2.staging[s.name].tree, served)
               else w2.tasks[s.t].pc == Done(NoContent, Ordered(|w.log|))
  {
    InitSafe(cap);
    AlwaysSafe(Init(cap), before);
    var w := Run(Init(cap), before);
    SafeKept(w, s);
    DeletionParksFolder(w, s);
    var w1 := Next(w, s);
    ClearingOnlyEnds(w1, after, s.t);
    assert TaskInOrder(Run(w1, after), s.t);
  }

  lemma LeakedStays(w: World, s: Step, n: StagingName)
    requires InOrder(w) && Enabled(w, s) && n in w.leaked
    ensures var w' := Next(w, s); n in w'.leaked && n in w'.staging && w'.staging[n] == w.staging[n]
  {
    if !s.RemoveOne? {
      StepMoves(w, s);
      assert s.t in w.tasks ==> TaskInOrder(w, s.t);
      OthersParcelStays(w, Next(w, s), s.t, n);
    }
  }

  lemma OthersParcelStays(w: World, w': World, t: TaskId, n: StagingName)
    requires StagingMove(w, w', t) && n in w.leaked && n in w.staging && NameIn(w, t) != Some(n)
    ensures n in w'.leaked && n in w'.staging && w'.staging[n] == w.staging[n]
  {
  }

  /** A site row fails to be deleted after its folder was parked: the folder stays in staging, whole, whatever
      follows. */
  lemma {:induction false} LeakedForGood(w: World, steps: seq<Step>, n: StagingName)
    requires Safe(w) && Runs(w, steps) && n in w.leaked
    ensures var w' := Run(w, steps); n in w'.leaked && n in w'.staging && w'.staging[n] == w.staging[n]
    decreases |steps|
  {
    if steps != [] {
      LeakedStays(w, steps[0], n);
      SafeKept(w, steps[0]);
      LeakedForGood(Next(w, steps[0]), steps[1..], n);
    }
  }
}
