/** Uploads, deletions and site creations as tasks that interleave at their awaits. */
module Protocol {
  import opened Common
  import opened Naming
  import opened Paths
  import opened Model
  import opened SiteStore
  import opened Locks
  import opened RealBackend
  import Fake = FakeBackend

  // ---- the state ----

  /** A name in `staging/`. */
  type StagingName = string

  datatype Parcel = Part(content: Bytes) | Parked(tree: Tree)

  /** How a task came to its answer: refused on arrival or while receiving, at its place `at` in the order
      of the lock, given up after a failure, or by reading only. */
  datatype How = Refused | Ordered(at: nat) | GivenUp | ReadOnly

  datatype Pc =
    | Receiving(part: StagingName, got: nat)
    | Syncing(part: StagingName)
    | Waiting(staged: Option<StagingName>)
    | Removing(before: Site)
    | Clearing(parked: StagingName, at: nat, whole: Tree)
    | Done(answer: Answer, how: How)

  /** A request in progress. `slug` and `target` are what it names; `arrival` is what the fake backend would
      have answered when it arrived. */
  datatype Task = Task(request: Request, slug: Slug, target: Path, chunks: seq<Bytes>, arrival: Answer, pc: Pc)

  datatype Event = Event(task: TaskId, request: Request, slug: Slug, answer: Answer)

  /** `log`, `faulty` and `leaked` are history: the operations in lock order, the sites a failure inside the
      lock has touched, and the folders parked by a site deletion that then failed. */
  datatype World = World(
    cap: nat, sites: Sites, staging: map<StagingName, Parcel>, locks: Locks.Table, tasks: map<TaskId, Task>,
    log: seq<Event>, faulty: set<Slug>, leaked: set<StagingName>)

  function Init(cap: nat): World {
    World(cap, map[], map[], NOBODY, map[], [], {}, {})
  }

  /** The bytes of a streamed body. */
  function Flatten(chunks: seq<Bytes>): Bytes {
    if chunks == [] then [] else Flatten(chunks[..|chunks| - 1]) + chunks[|chunks| - 1]
  }

  lemma FlattenNext(chunks: seq<Bytes>, i: nat)
    requires i < |chunks|
    ensures Flatten(chunks[..i + 1]) == Flatten(chunks[..i]) + chunks[i]
  {
    assert chunks[..i + 1][..i] == chunks[..i];
  }

  lemma {:induction false} FlattenGrows(chunks: seq<Bytes>, i: nat)
    requires i <= |chunks|
    ensures |Flatten(chunks[..i])| <= |Flatten(chunks)|
    decreases |chunks| - i
  {
    if i < |chunks| {
      FlattenNext(chunks, i);
      FlattenGrows(chunks, i + 1);
    } else {
      assert chunks[..i] == chunks;
    }
  }

  // ---- the fake's run ----

  ghost function Replay(log: seq<Event>, cap: nat): Fake.Sites {
    if log == [] then map[]
    else Fake.Handle(Replay(log[..|log| - 1], cap), log[|log| - 1].request, cap).0
  }

  // ---- steps ----

  function SlugOf(request: Request): Slug {
    match request
    case ListSites => ""
    case CreateSite(_, folded) => (match SlugFromName(folded) case Ok(slug) => slug case Err(_) => "")
    case _ => request.slug
  }

  predicate OnFile(request: Request) {
    request.Upload? || request.DeleteFile? || request.DeleteFolder?
  }

  predicate Mutates(request: Request) {
    OnFile(request) || request.CreateSite? || request.DeleteSite?
  }

  function TargetOf(request: Request): Path {
    if OnFile(request) then
      match ValidateSitePath(request.path, false) case Ok(target) => target case Err(_) => ""
    else ""
  }

  /** What is refused before the first await, if anything. */
  ghost function Refusal(w: World, request: Request): Option<Answer> {
    match request
    case CreateSite(_, folded) => if SlugFromName(folded).Err? then Some(INVALID_NAME) else None
    case DeleteSite(slug, confirm) =>
      if !Known(w.sites, slug) then Some(NOT_FOUND)
      else if confirm != Some(slug) then Some(CONFIRM_MISMATCH) else None
    case Upload(slug, path, body, _, declared) =>
      (match Target(w.sites, slug, path, false)
       case Err(e) => Some(e)
       case Ok(target) =>
         if PassesLink(At(w.sites, slug).tree, target) then Some(INVALID_PATH)
         else if declared && |body| > w.cap then Some(TOO_LARGE) else None)
    case _ =>
      if OnFile(request) then
        match Target(w.sites, request.slug, request.path, false) case Err(e) => Some(e) case Ok(_) => None
      else None
  }

  datatype Fault =
    | RenameFails(made: set<Path>)
    | FileRowFails(mtime: int)
    | UnlinkedRowFails
    | SiteRowFails(parked: StagingName)
    | RemovalFails

  datatype Step =
    | Begin(t: TaskId, request: Request, chunks: seq<Bytes>, name: StagingName)
    | Chunk(t: TaskId)
    | EndOfBody(t: TaskId)
    | Synced(t: TaskId)
    | Abort(t: TaskId, answer: Answer)
    | Section(t: TaskId, mtime: int, name: StagingName)
    | RemoveOne(t: TaskId, node: Path)
    | FinishRemoval(t: TaskId)
    | ClearOne(t: TaskId, node: Path)
    | CancelClear(t: TaskId)
    | FinishClear(t: TaskId)
    | Fail(t: TaskId, fault: Fault, answer: Answer)

  function NewTask(s: Step, arrival: Answer, pc: Pc): Task
    requires s.Begin?
  {
    Task(s.request, SlugOf(s.request), TargetOf(s.request), s.chunks, arrival, pc)
  }

  function SetPc(w: World, t: TaskId, pc: Pc): World
    requires t in w.tasks
  {
    w.(tasks := w.tasks[t := w.tasks[t].(pc := pc)])
  }

  /** Where a request stands at its first await: refused, answered by reading, receiving, or in line. */
  ghost function BeginPc(w: World, request: Request, name: StagingName): Pc {
    if !Mutates(request) then Done(RealBackend.Handle(w.sites, request, w.cap, 0).1, ReadOnly)
    else
      match Refusal(w, request)
      case Some(e) => Done(e, Refused)
      case None => if request.Upload? then Receiving(name, 0) else Waiting(None)
  }

  /** Reading may repair the index of the listed folder. */
  ghost function SitesAfterReading(w: World, request: Request): Sites {
    if Mutates(request) then w.sites else RealBackend.Handle(w.sites, request, w.cap, 0).0
  }

  ghost function BeginNext(w: World, s: Step): World
    requires s.Begin? && s.t !in w.tasks
  {
    var arrival := Fake.Handle(Replay(w.log, w.cap), s.request, w.cap).1;
    var pc := BeginPc(w, s.request, s.name);
    w.(sites := SitesAfterReading(w, s.request),
       tasks := w.tasks[s.t := NewTask(s, arrival, pc)],
       staging := if pc.Receiving? then w.staging[s.name := Part([])] else w.staging,
       locks := if pc.Waiting? then Enter(w.locks, s.t, SlugOf(s.request)) else w.locks)
  }

  /** One chunk of the body: counted against the cap, then written; an empty one is skipped. */
  function ChunkNext(w: World, t: TaskId): World
    requires t in w.tasks && w.tasks[t].pc.Receiving? && w.tasks[t].pc.got < |w.tasks[t].chunks|
    requires w.tasks[t].pc.part in w.staging && w.staging[w.tasks[t].pc.part].Part?
  {
    var task := w.tasks[t];
    var part, chunk := task.pc.part, task.chunks[task.pc.got];
    var sofar := w.staging[part].content;
    if chunk == [] then SetPc(w, t, Receiving(part, task.pc.got + 1))
    else if |sofar| + |chunk| > w.cap then
      SetPc(w, t, Done(TOO_LARGE, Refused)).(staging := w.staging - {part})
    else SetPc(w, t, Receiving(part, task.pc.got + 1)).(staging := w.staging[part := Part(sofar + chunk)])
  }

  /** The part file of a task, if it has one. */
  function PartOf(pc: Pc): Option<StagingName> {
    match pc
    case Receiving(part, _) => Some(part)
    case Syncing(part) => Some(part)
    case Waiting(staged) => staged
    case _ => None
  }

  function NamesOf(o: Option<StagingName>): set<StagingName> {
    match o case Some(n) => {n} case None => {}
  }

  /** A failure or a cancellation while receiving, while waiting, or under the lock before the site has changed
      (an insert or a rename that fails and is undone counts as such): the part file goes, the lock is left. */
  function AbortNext(w: World, t: TaskId, answer: Answer): World
    requires t in w.tasks && (w.tasks[t].pc.Waiting? ==> t in w.locks.inside)
  {
    var pc := w.tasks[t].pc;
    SetPc(w, t, Done(answer, GivenUp)).(
      staging := w.staging - NamesOf(PartOf(pc)),
      locks := if pc.Waiting? then Leave(w.locks, t) else w.locks)
  }

  /** The critical section of each kind of request, a folder's removal taken whole. */
  ghost function Critical(site: Site, task: Task, mtime: int): (Site, Answer) {
    match task.request
    case Upload(_, _, body, overwrite, _) => CommitUpload(site, task.target, body, overwrite, mtime)
    case DeleteFile(_, _) => RemoveFile(site, task.target)
    case DeleteFolder(_, _, recursive) => RemoveFolder(site, task.target, recursive)
    case CreateSite(name, _) =>
      (match MakeSite(site, name)
       case (site', Some(e)) => (site', e)
       case (site', None) => (site', if site'.row.Some? then Created(PublicSite(site', task.slug)) else NoContent))
    case _ => (DropSite(site), NoContent)
  }

  /** End a critical section: the site's new state, its place in the order, the lock left. */
  function Commit(w: World, t: TaskId, site: Site, answer: Answer, pc: Pc): World
    requires t in w.tasks && t in w.locks.inside
  {
    var task := w.tasks[t];
    SetPc(w, t, pc).(
      sites := w.sites[task.slug := site],
      locks := Leave(w.locks, t),
      log := w.log + [Event(t, task.request, task.slug, answer)])
  }

  /** The lock is free and this task takes it. Only `rmtree` keeps it over an await. */
  ghost function SectionNext(w: World, t: TaskId, mtime: int, name: StagingName): World
    requires t in w.tasks && w.tasks[t].pc.Waiting? && CanAcquire(w.locks, t)
  {
    var task := w.tasks[t];
    var site := At(w.sites, task.slug);
    if task.request.DeleteFolder? && RefuseRemoveFolder(site, task.target, task.request.recursive).None? then
      SetPc(w, t, Removing(site)).(locks := Acquire(w.locks, t))
    else
      var (site', answer) := Critical(site, task, mtime);
      if task.request.DeleteSite? && "" in site.tree then
        var parked := w.staging[name := Parked(site.tree)];
        Commit(w, t, site', answer, Clearing(name, |w.log|, site.tree)).(staging := parked)
      else
        Commit(w, t, site', answer, Done(answer, Ordered(|w.log|))).(staging := w.staging - NamesOf(task.pc.staged))
  }

  /** What is left of a folder while it is removed. */
  predicate Remains(tree: Tree, whole: Tree) {
    forall p :: p in tree ==> p in whole && whole[p] == tree[p]
  }

  predicate Leaf(tree: Tree, node: Path) {
    node in tree && forall q {:trigger Parent(q)} :: q in tree && q != "" ==> Parent(q) != node
  }

  function RemoveNode(w: World, t: TaskId, node: Path): World
    requires t in w.tasks
  {
    var slug := w.tasks[t].slug;
    var site := At(w.sites, slug);
    w.(sites := w.sites[slug := site.(tree := site.tree - {node})])
  }

  function FinishRemovalNext(w: World, t: TaskId): World
    requires t in w.tasks && t in w.locks.inside
  {
    var task := w.tasks[t];
    var site := At(w.sites, task.slug);
    Commit(w, t, site.(index := RemoveRows(site.index, task.target)), NoContent, Done(NoContent, Ordered(|w.log|)))
  }

  /** What a failure inside the critical section leaves of the site. */
  function SiteAfterFailure(site: Site, task: Task, fault: Fault): Site {
    match fault
    case RenameFails(made) => site.(tree := (map a | a in made :: Folder) + site.tree)
    case FileRowFails(mtime) =>
      if task.request.Upload? then site.(tree := Place(site.tree, task.target, task.request.body, mtime)) else site
    case UnlinkedRowFails => site.(tree := site.tree - {task.target})
    case SiteRowFails(_) => site.(tree := map[])
    case RemovalFails => site
  }

  /** A full volume is 507 where the file system reports it; every other failure, one of the database included, is
      an internal error. */
  function FailureAnswers(fault: Fault): set<Answer> {
    if fault.RenameFails? || fault.RemovalFails? then {INTERNAL_ERROR, INSUFFICIENT_STORAGE} else {INTERNAL_ERROR}
  }

  /** A failure inside the critical section: the part file goes and the lock is released. */
  function FailNext(w: World, t: TaskId, fault: Fault, answer: Answer): World
    requires t in w.tasks && t in w.locks.inside
  {
    var task := w.tasks[t];
    var site := At(w.sites, task.slug);
    SetPc(w, t, Done(answer, GivenUp)).(
      sites := w.sites[task.slug := SiteAfterFailure(site, task, fault)],
      locks := Leave(w.locks, t),
      faulty := w.faulty + {task.slug},
      staging := if fault.SiteRowFails? then w.staging[fault.parked := Parked(site.tree)]
                 else w.staging - NamesOf(PartOf(task.pc)),
      leaked := if fault.SiteRowFails? then w.leaked + {fault.parked} else w.leaked)
  }

  /** A name in staging nobody has used. */
  predicate Unused(w: World, name: StagingName) {
    name !in w.staging && name !in w.leaked
  }

  /** An upload has the lock and passes every check. */
  ghost predicate CanPlace(w: World, t: TaskId, site: Site, task: Task) {
    task.pc.Waiting? && CanAcquire(w.locks, t) && task.request.Upload?
    && CommitUpload(site, task.target, task.request.body, task.request.overwrite, 0).1.Uploaded?
  }

  /** When each failure can happen. Parent folders are made from the top, so a rename that fails leaves folders
      whose own parents are there. */
  ghost predicate CanFail(w: World, t: TaskId, fault: Fault)
    requires t in w.tasks
  {
    var task := w.tasks[t];
    var site := At(w.sites, task.slug);
    match fault
    case RenameFails(made) =>
      CanPlace(w, t, site, task) && made <= Ancestors(task.target) + {""}
      && (made != {} ==> "" in made || "" in site.tree)
      && forall a :: a in made && a != "" ==> Parent(a) in made || Parent(a) in site.tree
    case FileRowFails(mtime) => CanPlace(w, t, site, task)
    case UnlinkedRowFails =>
      task.pc.Waiting? && CanAcquire(w.locks, t) && task.request.DeleteFile?
      && RemoveFile(site, task.target).1.NoContent?
    case SiteRowFails(parked) =>
      task.pc.Waiting? && CanAcquire(w.locks, t) && task.request.DeleteSite? && "" in site.tree && Unused(w, parked)
    case RemovalFails => task.pc.Removing?
  }

  ghost predicate Enabled(w: World, s: Step) {
    match s
    case Begin(t, request, chunks, name) =>
      t !in w.tasks && Unused(w, name) && (request.Upload? ==> request.body == Flatten(chunks))
    case Chunk(t) =>
      t in w.tasks && w.tasks[t].pc.Receiving? && w.tasks[t].pc.got < |w.tasks[t].chunks|
      && w.tasks[t].pc.part in w.staging && w.staging[w.tasks[t].pc.part].Part?
    case EndOfBody(t) => t in w.tasks && w.tasks[t].pc.Receiving? && w.tasks[t].pc.got == |w.tasks[t].chunks|
    case Synced(t) => t in w.tasks && w.tasks[t].pc.Syncing?
    case Abort(t, answer) =>
      t in w.tasks && (w.tasks[t].pc.Receiving? || w.tasks[t].pc.Syncing? || w.tasks[t].pc.Waiting?)
      && answer in {INTERNAL_ERROR, INSUFFICIENT_STORAGE} && (w.tasks[t].pc.Waiting? ==> t in w.locks.inside)
    case Section(t, mtime, name) =>
      t in w.tasks && w.tasks[t].pc.Waiting? && CanAcquire(w.locks, t) && Unused(w, name)
    case RemoveOne(t, node) =>
      t in w.tasks && w.tasks[t].pc.Removing?
      && Within(w.tasks[t].target, node) && Leaf(At(w.sites, w.tasks[t].slug).tree, node)
    case FinishRemoval(t) =>
      t in w.tasks && w.tasks[t].pc.Removing? && t in w.locks.inside
      && forall p :: p in At(w.sites, w.tasks[t].slug).tree ==> !Within(w.tasks[t].target, p)
    case CancelClear(t) => t in w.tasks && w.tasks[t].pc.Clearing?
    case ClearOne(t, node) =>
      t in w.tasks && w.tasks[t].pc.Clearing? && w.tasks[t].pc.parked in w.staging
      && w.staging[w.tasks[t].pc.parked].Parked? && Leaf(w.staging[w.tasks[t].pc.parked].tree, node)
    case FinishClear(t) =>
      t in w.tasks && w.tasks[t].pc.Clearing? && w.tasks[t].pc.parked in w.staging
      && w.staging[w.tasks[t].pc.parked] == Parked(map[])
    case Fail(t, fault, answer) =>
      t in w.tasks && t in w.locks.inside && CanFail(w, t, fault) && answer in FailureAnswers(fault)
  }

  /** One step. A request that is cancelled while its thread removes the parked folder is only not heard any more:
      the thread goes on, and stands for the task. */
  ghost function Next(w: World, s: Step): World
    requires Enabled(w, s)
  {
    match s
    case Begin(_, _, _, _) => BeginNext(w, s)
    case Chunk(t) => ChunkNext(w, t)
    case EndOfBody(t) => SetPc(w, t, Syncing(w.tasks[t].pc.part))
    case Synced(t) =>
      SetPc(w, t, Waiting(Some(w.tasks[t].pc.part))).(locks := Enter(w.locks, t, w.tasks[t].slug))
    case Abort(t, answer) => AbortNext(w, t, answer)
    case Section(t, mtime, name) => SectionNext(w, t, mtime, name)
    case RemoveOne(t, node) => RemoveNode(w, t, node)
    case FinishRemoval(t) => FinishRemovalNext(w, t)
    case CancelClear(_) => w
    case ClearOne(t, node) =>
      var parked := w.tasks[t].pc.parked;
      w.(staging := w.staging[parked := Parked(w.staging[parked].tree - {node})])
    case FinishClear(t) =>
      SetPc(w, t, Done(NoContent, Ordered(w.tasks[t].pc.at))).(staging := w.staging - {w.tasks[t].pc.parked})
    case Fail(t, fault, answer) => FailNext(w, t, fault, answer)
  }

  /** The steps can run one after the other from `w`. */
  ghost predicate Runs(w: World, steps: seq<Step>)
    decreases |steps|
  {
    steps == [] || (Enabled(w, steps[0]) && Runs(Next(w, steps[0]), steps[1..]))
  }

  ghost function Run(w: World, steps: seq<Step>): World
    requires Runs(w, steps)
    decreases |steps|
  {
    if steps == [] then w else Run(Next(w, steps[0]), steps[1..])
  }
}
