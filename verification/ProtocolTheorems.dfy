/** The main statements about all runs of the protocol. */
module ProtocolTheorems {
  import opened Common
  import opened Paths
  import opened Model
  import opened SiteStore
  import opened Locks
  import opened RealBackend
  import opened Protocol
  import opened ProtocolSafety
  import opened ProtocolOrder
  import Fake = FakeBackend

  predicate NoFailure(steps: seq<Step>) {
    forall i :: 0 <= i < |steps| ==> !steps[i].Fail?
  }

  lemma {:induction false} FailureMarks(w: World, steps: seq<Step>)
    requires Runs(w, steps) && NoFailure(steps)
    ensures Run(w, steps).faulty == w.faulty && Run(w, steps).leaked == w.leaked
    decreases |steps|
  {
    if steps != [] {
      assert !steps[0].Fail?;
      assert forall i :: 0 <= i < |steps[1..]| ==> steps[1..][i] == steps[i + 1];
      FailureMarks(Next(w, steps[0]), steps[1..]);
    }
  }

  // ---- linearization ----

  /** In every interleaving, failures aside: a site whose lock is free is the fake's after the operations in
      lock order; each of these got the fake's answer at its place, a second site deletion aside; and every
      task's answer is its answer in that order, the fake's answer on its arrival, or a give-up. */
  lemma {:induction false} InterleavingsAreSequential(cap: nat, steps: seq<Step>)
    requires Runs(Init(cap), steps)
    ensures var w := Run(Init(cap), steps);
            (forall slug :: slug !in w.faulty && slug !in w.locks.holder ==>
               SiteRefines(At(w.sites, slug), Replay(w.log, w.cap), slug))
            && EventsOk(w) && AnswersOk(w) && EventsOwned(w)
            && (NoFailure(steps) ==> w.faulty == {})
  {
    var w0 := Init(cap);
    InitInStep(cap);
    AlwaysInStep(w0, steps);
    if NoFailure(steps) { FailureMarks(w0, steps); }
    var w := Run(w0, steps);
    forall slug | slug !in w.faulty && slug !in w.locks.holder
      ensures SiteRefines(At(w.sites, slug), Replay(w.log, w.cap), slug)
    {
      assert SiteInStep(w, slug);
    }
  }

  /** Which operations get another answer than the fake's: exactly the site deletions that find the site gone at
      their place in the order. They get 204 where the fake says 404. */
  lemma {:induction false} AnswersDifferExactly(cap: nat, steps: seq<Step>, i: nat)
    requires Runs(Init(cap), steps) && i < |Run(Init(cap), steps).log|
    requires var w := Run(Init(cap), steps); w.log[i].slug !in w.faulty
    ensures var w := Run(Init(cap), steps);
            var (e, fake) := (w.log[i], Replay(w.log[..i], w.cap));
            var answer := Fake.Handle(fake, e.request, w.cap).1;
            (e.answer != answer <==> e.request.DeleteSite? && e.slug !in fake)
            && (e.answer != answer ==> e.answer == NoContent && answer == NOT_FOUND)
  {
    InitInStep(cap);
    AlwaysInStep(Init(cap), steps);
    var w := Run(Init(cap), steps);
    assert EventOk(Replay(w.log[..i], w.cap), w.log[i], w.cap);
    EventNamesSlug(w, i);
  }

  lemma EventNamesSlug(w: World, i: nat)
    requires EventsOwned(w) && AnswersOk(w) && TasksOk(w) && i < |w.log|
    ensures w.log[i].slug == SlugOf(w.log[i].request)
  {
    var t := w.log[i].task;
    assert AnswerOk(w, t) && TaskOk(w.tasks[t], w.cap);
  }

  lemma {:induction false} LogGrows(w: World, steps: seq<Step>)
    requires Runs(w, steps)
    ensures w.log <= Run(w, steps).log
    decreases |steps|
  {
    if steps != [] {
      LogMoves(w, steps[0]);
      LogGrows(Next(w, steps[0]), steps[1..]);
    }
  }

  lemma InitInStep(cap: nat)
    ensures Safe(Init(cap)) && InStep(Init(cap))
  {
  }

  /** The order of the operations is the order in time: one that was answered before another arrived comes
      before it. */
  lemma {:induction false} OrderIsRealTime(cap: nat, before: seq<Step>, after: seq<Step>, u: TaskId, t: TaskId)
    requires Runs(Init(cap), before) && Runs(Run(Init(cap), before), after)
    requires var w := Run(Init(cap), before);
             u in w.tasks && w.tasks[u].pc.Done? && w.tasks[u].pc.how.Ordered? && t !in w.tasks
    requires var w' := Run(Run(Init(cap), before), after);
             t in w'.tasks && w'.tasks[t].pc.Done? && w'.tasks[t].pc.how.Ordered?
    ensures Run(Init(cap), before).tasks[u].pc.how.at < Run(Run(Init(cap), before), after).tasks[t].pc.how.at
  {
    var w := Run(Init(cap), before);
    var w' := Run(w, after);
    InitInStep(cap);
    AlwaysInStep(Init(cap), before);
    AlwaysInStep(w, after);
    LogGrows(w, after);
    assert AnswerOk(w, u) && AnswerOk(w', t);
    var i := w'.tasks[t].pc.how.at;
    if i < |w.log| { assert w.log[i] == w'.log[i] && w.log[i].task == t; }
  }

  /** The reads of one site depend on that site only. */
  lemma ReadIsLocal(sites: Sites, fake: Fake.Sites, request: Request, cap: nat)
    requires request.GetSite? || request.Download? || request.ListFiles?
    requires SiteRefines(At(sites, request.slug), fake, request.slug)
    ensures RealBackend.Handle(sites, request, cap, 0).1 == Fake.Handle(fake, request, cap).1
  {
    var slug := request.slug;
    var sites1: Sites := map[slug := At(sites, slug)];
    var fake1: Fake.Sites := if slug in fake then map[slug := fake[slug]] else map[];
    forall s ensures SiteRefines(At(sites1, s), fake1, s) {
    }
    RequestsAgree(sites1, fake1, request, cap, 0);
    assert RealBackend.Handle(sites, request, cap, 0).1 == RealBackend.Handle(sites1, request, cap, 0).1;
    assert Fake.Handle(fake, request, cap).1 == Fake.Handle(fake1, request, cap).1;
  }

  /** The sites a read looks at are in the fake's state: no failure has struck them, no lock on them is held. */
  predicate Settled(w: World, request: Request) {
    if request.ListSites? then w.faulty == {} && w.locks.holder == map[]
    else SlugOf(request) !in w.faulty && SlugOf(request) !in w.locks.holder
  }

  /** In every run, a read of settled sites, the list of all sites included, gets the fake's answer on arrival. */
  lemma {:induction false} ReadsInStep(cap: nat, before: seq<Step>, s: Step)
    requires Runs(Init(cap), before) && Enabled(Run(Init(cap), before), s)
    requires s.Begin? && !Mutates(s.request) && Settled(Run(Init(cap), before), s.request)
    ensures var task := Next(Run(Init(cap), before), s).tasks[s.t]; task.pc == Done(task.arrival, ReadOnly)
  {
    InitInStep(cap);
    AlwaysInStep(Init(cap), before);
    var w := Run(Init(cap), before);
    if s.request.ListSites? {
      forall slug ensures SiteRefines(At(w.sites, slug), Replay(w.log, w.cap), slug) {
        assert SiteInStep(w, slug);
      }
      RequestsAgree(w.sites, Replay(w.log, w.cap), s.request, w.cap, 0);
    } else {
      assert SiteInStep(w, s.request.slug);
      ReadIsLocal(w.sites, Replay(w.log, w.cap), s.request, w.cap);
    }
    ReadAnswer(w, s);
  }

  lemma ReadAnswer(w: World, s: Step)
    requires Enabled(w, s) && s.Begin? && !Mutates(s.request)
    requires RealBackend.Handle(w.sites, s.request, w.cap, 0).1 == Fake.Handle(Replay(w.log, w.cap), s.request, w.cap).1
    ensures var task := Next(w, s).tasks[s.t]; task.pc == Done(task.arrival, ReadOnly)
  {
  }

  // ---- whole files ----

  /** The file at a path is the whole body of an upload to it, every chunk from the first to the last. */
  ghost predicate WholeUpload(w: World, t: TaskId, slug: Slug, path: Path)
    requires FileAt(At(w.sites, slug).tree, path)
  {
    t in w.tasks && w.tasks[t].request.Upload? && w.tasks[t].slug == slug && w.tasks[t].target == path
    && w.tasks[t].pc.Done? && At(w.sites, slug).tree[path].content == Flatten(w.tasks[t].chunks)
  }

  lemma WholeIn(w: World, slug: Slug, path: Path)
    requires TasksOk(w) && ServedWhole(w) && FileAt(At(w.sites, slug).tree, path)
    ensures exists t :: WholeUpload(w, t, slug, path)
  {
    var t :| Uploader(w, t, slug, path, At(w.sites, slug).tree[path].content);
    assert TaskOk(w.tasks[t], w.cap);
    assert WholeUpload(w, t, slug, path);
  }

  /** At every step of every interleaving, failures included, a served file is one upload's whole body. */
  lemma {:induction false} ServedFilesAreWhole(cap: nat, steps: seq<Step>, slug: Slug, path: Path)
    requires Runs(Init(cap), steps)
    requires FileAt(At(Run(Init(cap), steps).sites, slug).tree, path)
    ensures exists t :: WholeUpload(Run(Init(cap), steps), t, slug, path)
  {
    InitSafe(cap);
    AlwaysSafe(Init(cap), steps);
    WholeIn(Run(Init(cap), steps), slug, path);
  }

  ghost predicate SameFiles(tree: Tree, tree': Tree) {
    forall p :: (FileAt(tree, p) <==> FileAt(tree', p)) && (FileAt(tree, p) ==> tree'[p] == tree[p])
  }

  ghost predicate UploadFails(w: World, s: Step) {
    s.t in w.tasks && w.tasks[s.t].request.Upload? && !w.tasks[s.t].pc.Done?
    && Enabled(w, s) && Next(w, s).tasks[s.t].pc.Done? && Next(w, s).tasks[s.t].pc.answer.Fail?
  }

  lemma RefusedSectionLeavesFiles(w: World, s: Step, slug: Slug)
    requires s.t in w.tasks && s.Section? && UploadFails(w, s)
    ensures SameFiles(At(w.sites, slug).tree, At(SectionNext(w, s.t, s.mtime, s.name).sites, slug).tree)
  {
  }

  lemma FailedRenameLeavesFiles(w: World, t: TaskId, fault: Fault, answer: Answer, slug: Slug)
    requires Enabled(w, Step.Fail(t, fault, answer)) && w.tasks[t].request.Upload? && fault.RenameFails?
    ensures SameFiles(At(w.sites, slug).tree, At(FailNext(w, t, fault, answer).sites, slug).tree)
  {
  }

  /** An upload that fails, at the cap, in staging, waiting, at a check, or in the rename, leaves every
      served file of every site as it was; only a failed index write comes too late for that. */
  lemma FailedUploadLeavesFiles(w: World, s: Step, slug: Slug)
    requires s.t in w.tasks && TaskInOrder(w, s.t) && UploadFails(w, s)
    requires !(s.Fail? && s.fault.FileRowFails?)
    ensures SameFiles(At(w.sites, slug).tree, At(Next(w, s).sites, slug).tree)
  {
    match s
    case Section(_, _, _) => RefusedSectionLeavesFiles(w, s, slug);
    case Fail(t, fault, answer) => if fault.RenameFails? { FailedRenameLeavesFiles(w, t, fault, answer, slug); }
    case _ =>
  }

  /** And its part file is gone. */
  lemma FailedUploadLeavesNoPart(w: World, s: Step)
    requires s.t in w.tasks && TaskInOrder(w, s.t) && UploadFails(w, s)
    ensures NamesOf(NameIn(w, s.t)) !! Next(w, s).staging.Keys
  {
  }

  // ---- folders and rows ----

  /** A folder `sites/<slug>` implies a site row, at every step and under every failure; and a row implies
      the folder where nothing failed and the lock is free. */
  lemma {:induction false} FolderImpliesRow(cap: nat, steps: seq<Step>, slug: Slug)
    requires Runs(Init(cap), steps)
    ensures var (w, site) := (Run(Init(cap), steps), At(Run(Init(cap), steps).sites, slug));
            ("" in site.tree ==> site.row.Some?)
            && (slug !in w.faulty && slug !in w.locks.holder ==> ("" in site.tree <==> site.row.Some?))
  {
    InitSafe(cap);
    AlwaysSafe(Init(cap), steps);
    InterleavingsAreSequential(cap, steps);
    var w := Run(Init(cap), steps);
    assert RowOk(At(w.sites, slug));
  }

  /** A step that may create the site. */
  predicate Creates(w: World, s: Step, slug: Slug) {
    s.Section? && s.t in w.tasks && w.tasks[s.t].request.CreateSite? && w.tasks[s.t].slug == slug
  }

  ghost predicate NoCreation(w: World, steps: seq<Step>, slug: Slug)
    requires Runs(w, steps)
    decreases |steps|
  {
    steps == [] || (!Creates(w, steps[0], slug) && NoCreation(Next(w, steps[0]), steps[1..], slug))
  }

  lemma GoneStaysGone(w: World, s: Step, slug: Slug)
    requires Enabled(w, s) && !Creates(w, s, slug) && (s.t in w.tasks ==> TaskOk(w.tasks[s.t], w.cap))
    requires At(w.sites, slug) == ABSENT
    ensures At(Next(w, s).sites, slug) == ABSENT
  {
    match s
    case Section(_, _, _) => GoneAfterSection(w, s, slug);
    case Fail(_, _, _) => GoneAfterFailure(w, s, slug);
    case Begin(_, _, _, _) =>
    case RemoveOne(_, _) =>
    case FinishRemoval(_) =>
    case _ =>
  }

  lemma AbsentStaysAbsent(task: Task, mtime: int)
    requires Mutates(task.request) && !task.request.CreateSite?
    ensures Critical(ABSENT, task, mtime).0 == ABSENT
  {
  }

  lemma GoneAfterSection(w: World, s: Step, slug: Slug)
    requires Enabled(w, s) && s.Section? && !Creates(w, s, slug) && TaskOk(w.tasks[s.t], w.cap)
    requires At(w.sites, slug) == ABSENT
    ensures At(SectionNext(w, s.t, s.mtime, s.name).sites, slug) == ABSENT
  {
    var task := w.tasks[s.t];
    if slug == task.slug { AbsentStaysAbsent(task, s.mtime); }
  }

  lemma GoneAfterFailure(w: World, s: Step, slug: Slug)
    requires Enabled(w, s) && s.Fail? && At(w.sites, slug) == ABSENT
    ensures At(FailNext(w, s.t, s.fault, s.answer).sites, slug) == ABSENT
  {
  }

  lemma {:induction false} AbsentThroughout(w: World, steps: seq<Step>, slug: Slug)
    requires Safe(w) && Runs(w, steps) && NoCreation(w, steps, slug)
    requires At(w.sites, slug) == ABSENT
    ensures At(Run(w, steps).sites, slug) == ABSENT
    decreases |steps|
  {
    if steps != [] {
      SafeKept(w, steps[0]);
      GoneStaysGone(w, steps[0], slug);
      AbsentThroughout(Next(w, steps[0]), steps[1..], slug);
    }
  }

  /** Once a site is gone no upload in flight brings its folder back: only a later creation can. */
  lemma {:induction false} DeletedSiteStaysGone(cap: nat, before: seq<Step>, after: seq<Step>, slug: Slug)
    requires Runs(Init(cap), before)
    requires var w := Run(Init(cap), before);
             At(w.sites, slug) == ABSENT && Runs(w, after) && NoCreation(w, after, slug)
    ensures At(Run(Run(Init(cap), before), after).sites, slug) == ABSENT
  {
    InitSafe(cap);
    AlwaysSafe(Init(cap), before);
    AbsentThroughout(Run(Init(cap), before), after, slug);
  }

  // ---- staging ----

  /** A parcel in staging belongs to one task; where no task runs, nothing is left but what failed site
      deletions parked, and without failures nothing at all. */
  lemma {:induction false} StagingIsConserved(cap: nat, steps: seq<Step>)
    requires Runs(Init(cap), steps)
    ensures var w := Run(Init(cap), steps);
            StagingOk(w)
            && ((forall t :: t in w.tasks ==> w.tasks[t].pc.Done?) ==> w.staging.Keys == w.leaked)
            && (NoFailure(steps) ==> w.leaked == {})
  {
    InitSafe(cap);
    AlwaysSafe(Init(cap), steps);
    if NoFailure(steps) { FailureMarks(Init(cap), steps); }
    var w := Run(Init(cap), steps);
    if forall t :: t in w.tasks ==> w.tasks[t].pc.Done? {
      assert forall t :: t in w.tasks ==> NameOf(w.tasks[t].pc) == None;
      assert forall n :: n in w.staging ==> n in w.leaked;
    }
  }

  /** An upload's rename moves its part file: what was staged, and nothing else, is what is served. */
  lemma RenameMovesPart(w: World, s: Step)
    requires s.t in w.tasks && TaskInOrder(w, s.t) && Enabled(w, s) && s.Section? && w.tasks[s.t].request.Upload?
    requires var pc := Next(w, s).tasks[s.t].pc; pc.Done? && pc.answer.Uploaded?
    ensures var (task, w') := (w.tasks[s.t], Next(w, s));
            var part := task.pc.staged;
            part.Some? && part.value in w.staging && w.staging[part.value].Part?
            && FileAt(At(w'.sites, task.slug).tree, task.target)
            && At(w'.sites, task.slug).tree[task.target] == File(w.staging[part.value].content, s.mtime)
            && w'.staging == w.staging - {part.value}
  {
    var task := w.tasks[s.t];
    assert ParcelOk(task, w.staging[task.pc.staged.value]);
    UploadPlaces(At(w.sites, task.slug), task, s.mtime);
  }

  lemma UploadPlaces(site: Site, task: Task, mtime: int)
    requires task.request.Upload? && Critical(site, task, mtime).1.Uploaded?
    ensures var tree' := Critical(site, task, mtime).0.tree;
            FileAt(tree', task.target) && tree'[task.target] == File(task.request.body, mtime)
  {
    ParentsRefuse(site.tree, task.target);
  }

  // ---- exclusion ----

  lemma SectionKeepsTree(w: World, s: Step, slug: Slug)
    requires Enabled(w, s) && s.Section? && slug != w.tasks[s.t].slug
    ensures At(Next(w, s).sites, slug).tree == At(w.sites, slug).tree
  {
  }

  lemma BeginKeepsTree(w: World, s: Step, slug: Slug)
    requires Enabled(w, s) && s.Begin? && RowOk(At(w.sites, slug))
    ensures At(BeginNext(w, s).sites, slug).tree == At(w.sites, slug).tree
  {
    if !Mutates(s.request) { ReadingKeeps(w.sites, s.request, w.cap, slug); }
  }

  lemma FailureKeepsTree(w: World, t: TaskId, fault: Fault, answer: Answer, slug: Slug)
    requires Enabled(w, Step.Fail(t, fault, answer)) && slug != w.tasks[t].slug
    ensures At(FailNext(w, t, fault, answer).sites, slug).tree == At(w.sites, slug).tree
  {
  }

  /** The steps that may change a site's tree, or take or leave its lock for good. */
  predicate InSection(s: Step) {
    s.Section? || s.RemoveOne? || s.FinishRemoval? || s.Fail?
  }

  lemma OtherStepKeepsTree(w: World, s: Step, slug: Slug)
    requires Enabled(w, s) && RowOk(At(w.sites, slug)) && (InSection(s) ==> slug != w.tasks[s.t].slug)
    ensures At(Next(w, s).sites, slug).tree == At(w.sites, slug).tree
  {
    match s
    case Begin(_, _, _, _) => BeginKeepsTree(w, s, slug);
    case Section(_, _, _) => SectionKeepsTree(w, s, slug);
    case Fail(t, fault, answer) => FailureKeepsTree(w, t, fault, answer, slug);
    case _ =>
  }

  lemma HolderExcludes(w: World, s: Step, t: TaskId)
    requires TaskInOrder(w, s.t) && Enabled(w, s) && InSection(s) && s.t != t
    requires t in w.tasks && w.tasks[t].slug in w.locks.holder && w.locks.holder[w.tasks[t].slug] == t
    requires w.tasks[s.t].pc.Removing? ==> Holds(w.locks, s.t)
    ensures w.tasks[t].slug != w.tasks[s.t].slug
  {
  }

  /** While one task removes a folder, no other task's step changes the site's tree. */
  lemma RemovalExcludesOthers(w: World, s: Step, t: TaskId)
    requires InOrder(w) && RowsOk(w) && Enabled(w, s) && s.t != t
    requires t in w.tasks && w.tasks[t].pc.Removing?
    ensures At(Next(w, s).sites, w.tasks[t].slug).tree == At(w.sites, w.tasks[t].slug).tree
  {
    var slug := w.tasks[t].slug;
    assert RowOk(At(w.sites, slug));
    if InSection(s) {
      assert Holds(w.locks, t) && TaskInOrder(w, s.t);
      HolderExcludes(w, s, t);
    }
    OtherStepKeepsTree(w, s, slug);
  }
}
