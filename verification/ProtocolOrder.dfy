/** Every interleaving is, site by site, a sequential run of the fake backend in lock order. */
module ProtocolOrder {
  import opened Common
  import opened Naming
  import opened Paths
  import opened Model
  import opened SiteStore
  import opened Refinement
  import opened Locks
  import opened RealBackend
  import opened Protocol
  import opened ProtocolSafety
  import Fake = FakeBackend

  // ---- one critical section against one fake request ----

  /** A deletion that found the site already gone: the real backend answers success, the fake 404. */
  predicate Stutters(request: Request, slug: Slug, fake: Fake.Sites) {
    request.DeleteSite? && slug !in fake
  }

  /** The answer at its place in the order is the fake's, a second deletion aside. */
  ghost predicate EventOk(fake: Fake.Sites, e: Event, cap: nat) {
    if Stutters(e.request, e.slug, fake) then e.answer == NoContent && Fake.Handle(fake, e.request, cap).0 == fake
    else e.answer == Fake.Handle(fake, e.request, cap).1
  }

  ghost predicate SameAt(fake: Fake.Sites, fake': Fake.Sites, slug: Slug) {
    (slug in fake' <==> slug in fake) && (slug in fake ==> fake'[slug] == fake[slug])
  }

  lemma FakeCreatesOneSite(fake: Fake.Sites, name: string, folded: string, slug: Slug)
    requires SlugFromName(folded) != Ok(slug)
    ensures SameAt(fake, Fake.Create(fake, name, folded).0, slug)
  {
  }

  lemma FakeTouchesOneSite(fake: Fake.Sites, request: Request, cap: nat, slug: Slug)
    requires slug != SlugOf(request) || !Mutates(request)
    ensures SameAt(fake, Fake.Handle(fake, request, cap).0, slug)
  {
    match request
    case CreateSite(name, folded) => FakeCreatesOneSite(fake, name, folded, slug);
    case DeleteSite(_, _) =>
    case Upload(_, _, _, _, _) =>
    case DeleteFile(_, _) =>
    case DeleteFolder(_, _, _) =>
    case _ =>
  }

  /** What a task waiting for the lock has passed. */
  ghost predicate Ready(task: Task, cap: nat) {
    var r := task.request;
    Mutates(r) && task.slug == SlugOf(r) && task.target == TargetOf(r)
    && (r.Upload? ==> |r.body| <= cap)
    && (OnFile(r) ==> ValidateSitePath(r.path, false) == Ok(task.target) && Relative(task.target))
    && (r.CreateSite? ==> SlugFromName(r.folded) == Ok(task.slug))
    && (r.DeleteSite? ==> r.confirm == Some(task.slug))
  }

  ghost predicate SectionAgrees(site: Site, fake: Fake.Sites, task: Task, cap: nat, mtime: int) {
    var (site', answer) := Critical(site, task, mtime);
    EventOk(fake, Event(0, task.request, task.slug, answer), cap)
    && SiteRefines(site', Fake.Handle(fake, task.request, cap).0, task.slug)
  }

  lemma AbsentSection(site: Site, fake: Fake.Sites, task: Task, cap: nat, mtime: int)
    requires Ready(task, cap) && site == ABSENT && task.slug !in fake && !task.request.CreateSite?
    ensures SectionAgrees(site, fake, task, cap, mtime)
  {
    FakeOnMissing(fake, task, cap);
    assert forall p :: !PassesLink(site.tree, p);
  }

  lemma FakeOnMissing(fake: Fake.Sites, task: Task, cap: nat)
    requires Ready(task, cap) && task.slug !in fake && !task.request.CreateSite?
    ensures Fake.Handle(fake, task.request, cap) == (fake, NOT_FOUND)
  {
  }

  lemma FakeOnFile(fake: Fake.Sites, task: Task, cap: nat)
    requires Ready(task, cap) && task.slug in fake && OnFile(task.request)
    ensures var v := fake[task.slug].view;
            Fake.Handle(fake, task.request, cap)
            == Fake.Store(fake, task.slug,
                 match task.request
                 case Upload(_, _, body, overwrite, _) => Fake.UploadTo(v, task.target, body, overwrite)
                 case DeleteFile(_, _) => Fake.DeleteFileFrom(v, task.target)
                 case DeleteFolder(_, _, recursive) => Fake.DeleteFolderFrom(v, task.target, recursive)
                 case _ => (v, NoContent))
  {
  }

  lemma FileSection(site: Site, fake: Fake.Sites, task: Task, cap: nat, mtime: int)
    requires Ready(task, cap) && SiteRefines(site, fake, task.slug) && task.slug in fake && OnFile(task.request)
    ensures SectionAgrees(site, fake, task, cap, mtime)
  {
    FakeOnFile(fake, task, cap);
    match task.request
    case Upload(_, _, body, overwrite, _) => UploadsAgree(site, fake[task.slug], task.target, body, overwrite, mtime);
    case DeleteFile(_, _) => FileDeletionsAgree(site, fake[task.slug], task.target);
    case DeleteFolder(_, _, recursive) => FolderDeletionsAgree(site, fake[task.slug], task.target, recursive);
  }

  lemma CreateSection(site: Site, fake: Fake.Sites, task: Task, cap: nat, mtime: int)
    requires Ready(task, cap) && SiteRefines(site, fake, task.slug) && task.request.CreateSite?
    ensures SectionAgrees(site, fake, task, cap, mtime)
  {
    SlugFromNameMeaning(task.request.folded);
    var name := task.request.name;
    if task.slug !in fake {
      var fake' := fake[task.slug := Fake.FakeSite(name, Fake.EMPTY)];
      NewSiteMatches(name);
      PublicSitesAgreeAt(MakeSite(ABSENT, name).0, fake', task.slug);
    }
  }

  lemma DropSection(site: Site, fake: Fake.Sites, task: Task, cap: nat, mtime: int)
    requires Ready(task, cap) && SiteRefines(site, fake, task.slug) && task.slug in fake && task.request.DeleteSite?
    ensures SectionAgrees(site, fake, task, cap, mtime)
  {
  }

  lemma SectionsAgree(site: Site, fake: Fake.Sites, task: Task, cap: nat, mtime: int)
    requires Ready(task, cap) && SiteRefines(site, fake, task.slug)
    ensures SectionAgrees(site, fake, task, cap, mtime)
  {
    if task.request.CreateSite? {
      CreateSection(site, fake, task, cap, mtime);
    } else if task.slug !in fake {
      AbsentSection(site, fake, task, cap, mtime);
    } else if task.request.DeleteSite? {
      DropSection(site, fake, task, cap, mtime);
    } else {
      FileSection(site, fake, task, cap, mtime);
    }
  }

  // ---- a removal in progress ----

  predicate Rooted(tree: Tree) {
    forall p {:trigger Parent(p)} :: p in tree && p != "" ==> Parent(p) in tree
  }

  lemma LeafGoes(tree: Tree, node: Path)
    requires Rooted(tree) && Leaf(tree, node)
    ensures Rooted(tree - {node})
  {
  }

  /** Part of a folder is gone, from the bottom up; everything else, and the rows of everything else, are as
      before. */
  ghost predicate HalfRemoved(site: Site, before: Site, target: Path) {
    site.row == before.row
    && Rooted(site.tree)
    && (forall p :: p in site.tree ==> p in before.tree && site.tree[p] == before.tree[p])
    && (forall p :: p in before.tree && !Within(target, p) ==> p in site.tree)
    && (forall p :: p in site.index ==> p in before.index && site.index[p] == before.index[p])
    && (forall p :: p in before.index && !Within(target, p) ==> p in site.index)
  }

  lemma RemovalStarts(site: Site, target: Path)
    requires TreeOk(site.tree)
    ensures HalfRemoved(site, site, target)
  {
  }

  lemma RemovalGoesOn(site: Site, before: Site, target: Path, node: Path)
    requires HalfRemoved(site, before, target) && Within(target, node) && Leaf(site.tree, node)
    ensures HalfRemoved(site.(tree := site.tree - {node}), before, target)
  {
    LeafGoes(site.tree, node);
  }

  lemma ListingDuringRemoval(site: Site, before: Site, target: Path, fake: Fake.FakeSite, folder: Path)
    requires HalfRemoved(site, before, target) && Matches(before, fake)
    ensures HalfRemoved(site.(index := Reconcile(site.tree, site.index, folder)), before, target)
  {
  }

  lemma RemovalEnds(site: Site, before: Site, target: Path, recursive: bool)
    requires HalfRemoved(site, before, target) && TreeOk(before.tree) && before.index == ExactIndex(before.tree)
    requires RefuseRemoveFolder(before, target, recursive).None? && target != ""
    requires forall p :: p in site.tree ==> !Within(target, p)
    ensures (site.(index := RemoveRows(site.index, target)), NoContent) == RemoveFolder(before, target, recursive)
  {
    var after := RemoveFolder(before, target, recursive).0;
    assert site.tree == after.tree;
    assert target !in before.index;
    assert RemoveRows(site.index, target) == after.index;
  }

  // ---- the invariant ----

  /** Where nobody holds the lock, the real site is the fake one after the operations so far; during a
      removal it is what the removal has left of that. */
  ghost predicate SiteInStep(w: World, slug: Slug) {
    var fake, site := Replay(w.log, w.cap), At(w.sites, slug);
    if slug in w.locks.holder then
      var t := w.locks.holder[slug];
      t in w.tasks && w.tasks[t].pc.Removing? && slug in fake
      && SiteRefines(w.tasks[t].pc.before, fake, slug)
      && HalfRemoved(site, w.tasks[t].pc.before, w.tasks[t].target)
    else SiteRefines(site, fake, slug)
  }

  lemma WaitingIsReady(task: Task, cap: nat)
    requires TaskOk(task, cap) && InHold(task.pc)
    ensures Ready(task, cap)
  {
  }

  lemma ReplayNext(log: seq<Event>, e: Event, cap: nat)
    ensures Replay(log + [e], cap) == Fake.Handle(Replay(log, cap), e.request, cap).0
  {
  }

  /** A step that leaves a site, its lock and its fake counterpart alone. */
  lemma UndisturbedAt(w: World, w': World, slug: Slug)
    requires SiteInStep(w, slug) && At(w'.sites, slug) == At(w.sites, slug)
    requires SameAt(Replay(w.log, w.cap), Replay(w'.log, w'.cap), slug)
    requires slug in w'.locks.holder <==> slug in w.locks.holder
    requires slug in w.locks.holder ==>
               var t := w.locks.holder[slug];
               w'.locks.holder[slug] == t && t in w.tasks && t in w'.tasks && w'.tasks[t] == w.tasks[t]
    ensures SiteInStep(w', slug)
  {
  }

  lemma KnownInStep(w: World, slug: Slug)
    requires SiteInStep(w, slug)
    ensures Known(w.sites, slug) <==> slug in Replay(w.log, w.cap)
  {
  }

  /** The holder of a lock is removing a folder, and its own step is the only one that changes it. */
  ghost predicate HolderAt(w: World, slug: Slug) {
    slug in w.locks.holder ==>
      var t := w.locks.holder[slug];
      t in w.tasks && w.tasks[t].pc.Removing? && w.tasks[t].slug == slug
  }

  lemma ReadingLeavesSite(sites: Sites, request: Request, cap: nat, slug: Slug)
    requires !Mutates(request) && !(request.ListFiles? && request.slug == slug)
    ensures At(RealBackend.Handle(sites, request, cap, 0).0, slug) == At(sites, slug)
  {
  }

  lemma ListingEffect(sites: Sites, request: Request, cap: nat) returns (folder: Path)
    requires request.ListFiles?
    ensures var (slug, site) := (request.slug, At(sites, request.slug));
            var site' := At(RealBackend.Handle(sites, request, cap, 0).0, slug);
            site' == site
            || (site.row.Some? && site' == ListFolder(site, slug, folder).0
                && site' == site.(index := Reconcile(site.tree, site.index, folder)))
  {
    var target := Target(sites, request.slug, request.path, true);
    folder := if target.Ok? then target.value else "";
  }

  lemma ListingInStep(w: World, w': World, request: Request)
    requires request.ListFiles? && SiteInStep(w, request.slug)
    requires w'.sites == RealBackend.Handle(w.sites, request, w.cap, 0).0
    requires w'.log == w.log && w'.cap == w.cap && w'.locks == w.locks
    requires forall t :: t in w.tasks ==> t in w'.tasks && w'.tasks[t] == w.tasks[t]
    ensures SiteInStep(w', request.slug)
  {
    var slug, site := request.slug, At(w.sites, request.slug);
    var fake := Replay(w.log, w.cap);
    var folder := ListingEffect(w.sites, request, w.cap);
    if At(w'.sites, slug) != site {
      if slug in w.locks.holder {
        var task := w.tasks[w.locks.holder[slug]];
        ListingDuringRemoval(site, task.pc.before, task.target, fake[slug], folder);
      } else {
        ListingsAgree(site, fake[slug], slug, folder);
      }
    }
  }

  lemma BeginInStep(w: World, s: Step, slug: Slug)
    requires Enabled(w, s) && s.Begin? && SiteInStep(w, slug)
    ensures SiteInStep(BeginNext(w, s), slug)
  {
    var w' := BeginNext(w, s);
    if s.request.ListFiles? && s.request.slug == slug {
      ListingInStep(w, w', s.request);
    } else {
      if !Mutates(s.request) { ReadingLeavesSite(w.sites, s.request, w.cap, slug); }
      UndisturbedAt(w, w', slug);
    }
  }

  /** A step that only moves its own task. */
  lemma QuietInStep(w: World, s: Step, slug: Slug)
    requires Enabled(w, s) && SiteInStep(w, slug) && TaskInOrder(w, s.t) && HolderAt(w, slug)
    requires s.EndOfBody? || s.Synced? || s.ClearOne? || s.CancelClear? || s.FinishClear?
    ensures SiteInStep(Next(w, s), slug)
  {
    UndisturbedAt(w, Next(w, s), slug);
  }

  lemma ChunkInStep(w: World, t: TaskId, slug: Slug)
    requires Enabled(w, Chunk(t)) && SiteInStep(w, slug) && HolderAt(w, slug)
    ensures SiteInStep(ChunkNext(w, t), slug)
  {
    var w' := ChunkNext(w, t);
    assert w'.sites == w.sites && w'.log == w.log && w'.locks == w.locks && w'.cap == w.cap;
    UndisturbedAt(w, w', slug);
  }

  lemma AbortInStep(w: World, t: TaskId, answer: Answer, slug: Slug)
    requires Enabled(w, Abort(t, answer)) && SiteInStep(w, slug) && TaskInOrder(w, t) && HolderAt(w, slug)
    ensures SiteInStep(AbortNext(w, t, answer), slug)
  {
    UndisturbedAt(w, AbortNext(w, t, answer), slug);
  }

  lemma SectionElsewhere(w: World, s: Step, slug: Slug)
    requires Enabled(w, s) && TaskInOrder(w, s.t) && s.Section? && slug != w.tasks[s.t].slug && HolderAt(w, slug)
    ensures var w' := SectionNext(w, s.t, s.mtime, s.name);
            At(w'.sites, slug) == At(w.sites, slug) && w'.cap == w.cap
            && (slug in w'.locks.holder <==> slug in w.locks.holder)
            && (slug in w.locks.holder ==>
                  var t := w.locks.holder[slug];
                  w'.locks.holder[slug] == t && t in w'.tasks && w'.tasks[t] == w.tasks[t])
  {
  }

  lemma OtherSiteSection(w: World, s: Step, slug: Slug)
    requires Enabled(w, s) && SiteInStep(w, slug) && TaskInOrder(w, s.t) && HolderAt(w, slug)
    requires s.Section? && slug != w.tasks[s.t].slug
    ensures SiteInStep(SectionNext(w, s.t, s.mtime, s.name), slug)
  {
    var task, w' := w.tasks[s.t], SectionNext(w, s.t, s.mtime, s.name);
    SectionElsewhere(w, s, slug);
    LogMoves(w, s);
    if w'.log != w.log {
      ReplayNext(w.log, w'.log[|w.log|], w.cap);
      FakeTouchesOneSite(Replay(w.log, w.cap), task.request, w.cap, slug);
    }
    UndisturbedAt(w, w', slug);
  }

  lemma OtherSiteRemoval(w: World, s: Step, slug: Slug)
    requires Enabled(w, s) && SiteInStep(w, slug) && TaskInOrder(w, s.t) && HolderAt(w, slug)
    requires s.FinishRemoval? && slug != w.tasks[s.t].slug
    ensures SiteInStep(FinishRemovalNext(w, s.t), slug)
  {
    var task, w' := w.tasks[s.t], FinishRemovalNext(w, s.t);
    ReplayNext(w.log, w'.log[|w.log|], w.cap);
    FakeTouchesOneSite(Replay(w.log, w.cap), task.request, w.cap, slug);
    UndisturbedAt(w, w', slug);
  }

  lemma OtherSiteFailure(w: World, t: TaskId, fault: Fault, answer: Answer, slug: Slug)
    requires Enabled(w, Step.Fail(t, fault, answer)) && SiteInStep(w, slug) && TaskInOrder(w, t) && HolderAt(w, slug)
    requires slug != w.tasks[t].slug
    ensures SiteInStep(FailNext(w, t, fault, answer), slug)
  {
    UndisturbedAt(w, FailNext(w, t, fault, answer), slug);
  }

  lemma OtherSiteNode(w: World, s: Step, slug: Slug)
    requires Enabled(w, s) && SiteInStep(w, slug) && HolderAt(w, slug)
    requires s.RemoveOne? && slug != w.tasks[s.t].slug
    ensures SiteInStep(RemoveNode(w, s.t, s.node), slug)
  {
  }

  lemma OtherSiteInStep(w: World, s: Step, slug: Slug)
    requires Enabled(w, s) && SiteInStep(w, slug) && TaskInOrder(w, s.t) && HolderAt(w, slug)
    requires s.Section? || s.RemoveOne? || s.FinishRemoval? || s.Fail?
    requires slug != w.tasks[s.t].slug
    ensures SiteInStep(Next(w, s), slug)
  {
    match s
    case Section(_, _, _) => OtherSiteSection(w, s, slug);
    case FinishRemoval(_) => OtherSiteRemoval(w, s, slug);
    case Fail(t, fault, answer) => OtherSiteFailure(w, t, fault, answer, slug);
    case RemoveOne(_, _) => OtherSiteNode(w, s, slug);
    case _ =>
  }

  lemma SectionInStep(w: World, s: Step)
    requires Enabled(w, s) && s.Section? && TaskInOrder(w, s.t) && SiteInStep(w, w.tasks[s.t].slug)
    ensures SiteInStep(SectionNext(w, s.t, s.mtime, s.name), w.tasks[s.t].slug)
  {
    var task := w.tasks[s.t];
    var w' := SectionNext(w, s.t, s.mtime, s.name);
    var site, fake := At(w.sites, task.slug), Replay(w.log, w.cap);
    WaitingIsReady(task, w.cap);
    if w'.tasks[s.t].pc.Removing? {
      RemovalStarts(site, task.target);
      RemovableIsKnown(site, fake, task);
    } else {
      SectionsAgree(site, fake, task, w.cap, s.mtime);
      ReplayNext(w.log, w'.log[|w.log|], w.cap);
    }
  }

  lemma RemovableIsKnown(site: Site, fake: Fake.Sites, task: Task)
    requires SiteRefines(site, fake, task.slug) && task.request.DeleteFolder?
    requires RefuseRemoveFolder(site, task.target, task.request.recursive).None?
    ensures task.slug in fake
  {
  }

  lemma RemoveOneInStep(w: World, s: Step)
    requires Enabled(w, s) && s.RemoveOne? && SiteInStep(w, w.tasks[s.t].slug) && Holds(w.locks, s.t)
    requires TaskInOrder(w, s.t)
    ensures SiteInStep(Next(w, s), w.tasks[s.t].slug)
  {
    var task := w.tasks[s.t];
    RemovalGoesOn(At(w.sites, task.slug), task.pc.before, task.target, s.node);
  }

  lemma RemovalAgrees(site: Site, before: Site, fake: Fake.Sites, task: Task, cap: nat)
    requires Ready(task, cap) && task.request.DeleteFolder? && task.slug in fake
    requires RefuseRemoveFolder(before, task.target, task.request.recursive).None?
    requires SiteRefines(before, fake, task.slug) && HalfRemoved(site, before, task.target)
    requires forall p :: p in site.tree ==> !Within(task.target, p)
    ensures EventOk(fake, Event(0, task.request, task.slug, NoContent), cap)
    ensures SiteRefines(site.(index := RemoveRows(site.index, task.target)),
                        Fake.Handle(fake, task.request, cap).0, task.slug)
  {
    var recursive := task.request.recursive;
    var result := RemoveFolder(before, task.target, recursive);
    RemovalEnds(site, before, task.target, recursive);
    FolderDeletionsAgree(before, fake[task.slug], task.target, recursive);
    FakeOnFile(fake, task, cap);
    assert result.1 == NoContent;
  }

  lemma FinishRemovalInStep(w: World, s: Step)
    requires Enabled(w, s) && s.FinishRemoval? && SiteInStep(w, w.tasks[s.t].slug) && Holds(w.locks, s.t)
    requires TaskInOrder(w, s.t)
    ensures SiteInStep(FinishRemovalNext(w, s.t), w.tasks[s.t].slug)
  {
    var task, w' := w.tasks[s.t], FinishRemovalNext(w, s.t);
    WaitingIsReady(task, w.cap);
    RemovalAgrees(At(w.sites, task.slug), task.pc.before, Replay(w.log, w.cap), task, w.cap);
    ReplayNext(w.log, w'.log[|w.log|], w.cap);
  }

  lemma StepInStep(w: World, s: Step, slug: Slug)
    requires InOrder(w) && Enabled(w, s) && SiteInStep(w, slug) && slug !in Next(w, s).faulty
    ensures SiteInStep(Next(w, s), slug)
  {
    if s.Begin? {
      BeginInStep(w, s, slug);
    } else {
      assert TaskInOrder(w, s.t) && HolderAt(w, slug);
      if s.Section? || s.RemoveOne? || s.FinishRemoval? || s.Fail? {
        if slug != w.tasks[s.t].slug {
          OtherSiteInStep(w, s, slug);
        } else if s.Section? {
          SectionInStep(w, s);
        } else if s.RemoveOne? {
          RemoveOneInStep(w, s);
        } else if s.FinishRemoval? {
          FinishRemovalInStep(w, s);
        }
      } else if s.Chunk? {
        ChunkInStep(w, s.t, slug);
      } else if s.Abort? {
        AbortInStep(w, s.t, s.answer, slug);
      } else {
        QuietInStep(w, s, slug);
      }
    }
  }

  // ---- the order and the answers ----

  /** Every operation in the order got the fake's answer at its place. */
  ghost predicate EventsOk(w: World) {
    forall i :: 0 <= i < |w.log| && w.log[i].slug !in w.faulty ==>
      EventOk(Replay(w.log[..i], w.cap), w.log[i], w.cap)
  }

  /** Where a task's answer comes from. */
  ghost predicate AnswerOk(w: World, t: TaskId)
    requires t in w.tasks
  {
    var task := w.tasks[t];
    match task.pc
    case Done(answer, Refused) => task.slug !in w.faulty ==> answer == task.arrival
    case Done(answer, Ordered(i)) => i < |w.log| && w.log[i] == Event(t, task.request, task.slug, answer)
    case Done(answer, GivenUp) => answer in {INTERNAL_ERROR, INSUFFICIENT_STORAGE}
    case Done(answer, ReadOnly) => !Mutates(task.request)
    case Clearing(_, i, _) => i < |w.log| && w.log[i] == Event(t, task.request, task.slug, NoContent)
    case Receiving(_, _) =>
      task.slug !in w.faulty && task.request.Upload? && |task.request.body| > w.cap ==> task.arrival == TOO_LARGE
    case _ => true
  }

  ghost predicate AnswersOk(w: World) {
    forall t :: t in w.tasks ==> AnswerOk(w, t)
  }

  /** No task is in the order twice. */
  ghost predicate EventsOwned(w: World) {
    forall i :: 0 <= i < |w.log| ==>
      var t := w.log[i].task;
      t in w.tasks && w.log[i].slug == w.tasks[t].slug
      && match w.tasks[t].pc
         case Done(_, Ordered(j)) => i == j
         case Clearing(_, j, _) => i == j
         case _ => false
  }

  ghost predicate InStep(w: World) {
    (forall slug :: slug !in w.faulty ==> SiteInStep(w, slug)) && EventsOk(w) && AnswersOk(w) && EventsOwned(w)
  }

  lemma NoLinksInStep(w: World, slug: Slug, path: Path)
    requires SiteInStep(w, slug)
    ensures !PassesLink(At(w.sites, slug).tree, path)
  {
  }

  lemma TargetInStep(w: World, slug: Slug, path: string)
    requires SiteInStep(w, slug)
    ensures Target(w.sites, slug, path, false) == Fake.Target(Replay(w.log, w.cap), slug, path, false)
  {
  }

  /** A refusal on arrival is the fake's answer on arrival; so is a 413 that comes later. */
  lemma RefusalInStep(w: World, request: Request)
    requires Mutates(request) && SiteInStep(w, SlugOf(request))
    ensures var arrival := Fake.Handle(Replay(w.log, w.cap), request, w.cap).1;
            match Refusal(w, request)
            case Some(e) => e == arrival
            case None => request.Upload? && |request.body| > w.cap ==> arrival == TOO_LARGE
  {
    var slug := SlugOf(request);
    if OnFile(request) {
      TargetInStep(w, slug, request.path);
      NoLinksInStep(w, slug, TargetOf(request));
    } else if request.DeleteSite? {
      KnownInStep(w, slug);
    }
  }

  lemma BeginAnswer(w: World, s: Step)
    requires Enabled(w, s) && s.Begin?
    requires SlugOf(s.request) !in w.faulty ==> SiteInStep(w, SlugOf(s.request))
    ensures AnswerOk(BeginNext(w, s), s.t)
  {
    if Mutates(s.request) && SlugOf(s.request) !in w.faulty { RefusalInStep(w, s.request); }
  }

  lemma ChunkAnswer(w: World, t: TaskId)
    requires TaskInOrder(w, t) && Enabled(w, Chunk(t)) && AnswerOk(w, t)
    ensures AnswerOk(ChunkNext(w, t), t)
  {
    var task := w.tasks[t];
    FlattenNext(task.chunks, task.pc.got);
    FlattenGrows(task.chunks, task.pc.got + 1);
  }

  lemma SectionAnswer(w: World, s: Step)
    requires Enabled(w, s) && s.Section? && TaskInOrder(w, s.t)
    ensures s.t in SectionNext(w, s.t, s.mtime, s.name).tasks && AnswerOk(SectionNext(w, s.t, s.mtime, s.name), s.t)
  {
  }

  lemma OwnAnswer(w: World, s: Step)
    requires Enabled(w, s) && TaskInOrder(w, s.t) && AnswerOk(w, s.t) && !s.Begin? && !s.Chunk?
    ensures AnswerOk(Next(w, s), s.t)
  {
    match s
    case Section(_, _, _) => SectionAnswer(w, s);
    case Fail(_, _, _) => FailureAnswer(w, s);
    case FinishRemoval(_) => RemovalAnswer(w, s);
    case _ =>
  }

  lemma FailureAnswer(w: World, s: Step)
    requires Enabled(w, s) && s.Fail?
    ensures AnswerOk(FailNext(w, s.t, s.fault, s.answer), s.t)
  {
  }

  lemma RemovalAnswer(w: World, s: Step)
    requires Enabled(w, s) && s.FinishRemoval?
    ensures AnswerOk(FinishRemovalNext(w, s.t), s.t)
  {
  }

  lemma OtherAnswer(w: World, w': World, t: TaskId)
    requires t in w.tasks && t in w'.tasks && w'.tasks[t] == w.tasks[t] && AnswerOk(w, t)
    requires w.log <= w'.log && w.faulty <= w'.faulty && w'.cap == w.cap
    ensures AnswerOk(w', t)
  {
  }

  /** The log only grows, by the moving task's own operation. */
  ghost predicate LogMove(w: World, w': World, s: Step) {
    w'.cap == w.cap && w.faulty <= w'.faulty
    && (w'.log == w.log
        || (s.t in w.tasks && InHold(w.tasks[s.t].pc) && s.t in w'.tasks && |w'.log| == |w.log| + 1
            && w'.log == w.log + [w'.log[|w.log|]]
            && w'.log[|w.log|].task == s.t && w'.log[|w.log|].request == w.tasks[s.t].request
            && w'.log[|w.log|].slug == w.tasks[s.t].slug
            && match w'.tasks[s.t].pc
               case Done(_, Ordered(j)) => j == |w.log|
               case Clearing(_, j, _) => j == |w.log|
               case _ => false))
  }

  lemma LogMoves(w: World, s: Step)
    requires Enabled(w, s)
    ensures LogMove(w, Next(w, s), s)
  {
  }

  /** The operation a step appends, if any, got the fake's answer. */
  lemma NewEventOk(w: World, s: Step)
    requires Enabled(w, s) && (s.Section? || s.FinishRemoval?) && TaskInOrder(w, s.t)
    requires SiteInStep(w, w.tasks[s.t].slug) && (w.tasks[s.t].pc.Removing? ==> Holds(w.locks, s.t))
    ensures var log' := Next(w, s).log;
            log' == w.log || EventOk(Replay(w.log, w.cap), log'[|w.log|], w.cap)
  {
    var task, fake := w.tasks[s.t], Replay(w.log, w.cap);
    WaitingIsReady(task, w.cap);
    if s.Section? {
      SectionsAgree(At(w.sites, task.slug), fake, task, w.cap, s.mtime);
    } else {
      RemovalAgrees(At(w.sites, task.slug), task.pc.before, fake, task, w.cap);
    }
  }

  lemma EventsKept(w: World, w': World, s: Step)
    requires EventsOk(w) && LogMove(w, w', s)
    requires w'.log != w.log && w'.log[|w.log|].slug !in w'.faulty ==>
               EventOk(Replay(w.log, w.cap), w'.log[|w.log|], w.cap)
    ensures EventsOk(w')
  {
    forall i | 0 <= i < |w'.log| && w'.log[i].slug !in w'.faulty
      ensures EventOk(Replay(w'.log[..i], w.cap), w'.log[i], w.cap)
    {
      if i < |w.log| {
        assert w'.log[..i] == w.log[..i] && w'.log[i] == w.log[i];
      } else {
        assert w'.log[..i] == w.log;
      }
    }
  }

  lemma OwnedKept(w: World, w': World, s: Step)
    requires EventsOwned(w) && LogMove(w, w', s) && TasksGrow(w, w')
    requires forall t :: t in w.tasks && t != s.t ==> t in w'.tasks && w'.tasks[t] == w.tasks[t]
    requires s.t in w.tasks && w.tasks[s.t].pc.Clearing? ==>
               w'.tasks[s.t].pc == w.tasks[s.t].pc || w'.tasks[s.t].pc == Done(NoContent, Ordered(w.tasks[s.t].pc.at))
    ensures EventsOwned(w')
  {
  }

  lemma AnswersKept(w: World, s: Step)
    requires InOrder(w) && InStep(w) && Enabled(w, s)
    ensures AnswersOk(Next(w, s))
  {
    var w' := Next(w, s);
    LogMoves(w, s);
    if s.Begin? {
      BeginAnswer(w, s);
    } else {
      assert TaskInOrder(w, s.t) && AnswerOk(w, s.t);
      if s.Chunk? { ChunkAnswer(w, s.t); } else { OwnAnswer(w, s); }
    }
    TasksGrowBy(w, s);
    forall t | t in w'.tasks ensures AnswerOk(w', t) {
      if t != s.t { OtherAnswer(w, w', t); }
    }
  }

  lemma ClearingStays(w: World, s: Step)
    requires InOrder(w) && Enabled(w, s) && s.t in w.tasks && w.tasks[s.t].pc.Clearing?
    ensures var pc' := Next(w, s).tasks[s.t].pc;
            pc' == w.tasks[s.t].pc || pc' == Done(NoContent, Ordered(w.tasks[s.t].pc.at))
  {
  }

  /** One step keeps the real backend in step with the fake. */
  lemma InStepKept(w: World, s: Step)
    requires Safe(w) && InStep(w) && Enabled(w, s)
    ensures InStep(Next(w, s))
  {
    var w' := Next(w, s);
    SafeKept(w, s);
    LogMoves(w, s);
    TasksGrowBy(w, s);
    forall slug | slug !in w'.faulty ensures SiteInStep(w', slug) {
      StepInStep(w, s, slug);
    }
    if w'.log != w.log && w'.log[|w.log|].slug !in w'.faulty {
      AppendedInOrder(w, s);
    }
    EventsKept(w, w', s);
    AnswersKept(w, s);
    if s.t in w.tasks && w.tasks[s.t].pc.Clearing? { ClearingStays(w, s); }
    OwnedKept(w, w', s);
  }

  lemma AppendedInOrder(w: World, s: Step)
    requires InOrder(w) && InStep(w) && Enabled(w, s) && LogMove(w, Next(w, s), s)
    requires var w' := Next(w, s); w'.log != w.log && w'.log[|w.log|].slug !in w'.faulty
    ensures EventOk(Replay(w.log, w.cap), Next(w, s).log[|w.log|], w.cap)
  {
    assert TaskInOrder(w, s.t);
    assert SiteInStep(w, w.tasks[s.t].slug);
    NewEventOk(w, s);
  }

  lemma {:induction false} AlwaysInStep(w: World, steps: seq<Step>)
    requires Safe(w) && InStep(w) && Runs(w, steps)
    ensures Safe(Run(w, steps)) && InStep(Run(w, steps))
    decreases |steps|
  {
    if steps != [] {
      SafeKept(w, steps[0]);
      InStepKept(w, steps[0]);
      AlwaysInStep(Next(w, steps[0]), steps[1..]);
    }
  }
}
