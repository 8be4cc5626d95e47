/** What every step of every interleaving keeps, failures included: the lock, the staging area, whole files. */
module ProtocolSafety {
  import opened Common
  import opened Naming
  import opened Paths
  import opened Model
  import opened SiteStore
  import opened Locks
  import opened RealBackend
  import opened Protocol

  // ---- tasks ----

  predicate InHold(pc: Pc) {
    pc.Waiting? || pc.Removing?
  }

  ghost predicate TaskOk(task: Task, cap: nat) {
    var r := task.request;
    task.slug == SlugOf(r) && task.target == TargetOf(r)
    && (r.Upload? ==> r.body == Flatten(task.chunks))
    && match task.pc
       case Receiving(_, got) =>
         r.Upload? && got <= |task.chunks| && |Flatten(task.chunks[..got])| <= cap && task.target != ""
       case Syncing(_) => r.Upload? && |r.body| <= cap && task.target != ""
       case Waiting(staged) =>
         Mutates(r) && (r.Upload? <==> staged.Some?) && (r.Upload? ==> |r.body| <= cap)
         && (OnFile(r) ==> task.target != "") && (r.CreateSite? ==> SlugFromName(r.folded).Ok?)
         && (r.DeleteSite? ==> r.confirm == Some(task.slug))
       case Removing(before) =>
         r.DeleteFolder? && task.target != "" && RefuseRemoveFolder(before, task.target, r.recursive).None?
       case Clearing(_, _, _) => r.DeleteSite?
       case Done(_, _) => true
  }

  ghost predicate TasksOk(w: World) {
    forall t :: t in w.tasks ==> TaskOk(w.tasks[t], w.cap)
  }

  /** A task keeps what it is through every step; once done it stays as it is. */
  ghost predicate TasksGrow(w: World, w': World) {
    w'.cap == w.cap
    && forall t :: t in w.tasks ==>
         t in w'.tasks && w'.tasks[t] == w.tasks[t].(pc := w'.tasks[t].pc)
         && (w.tasks[t].pc.Done? ==> w'.tasks[t].pc == w.tasks[t].pc)
  }

  // ---- the lock ----

  /** Everybody inside `hold` is waiting or removing a folder; a lock is held exactly over a removal. */
  ghost predicate LockOk(w: World) {
    (forall t :: t in w.locks.inside ==>
       t in w.tasks && InHold(w.tasks[t].pc) && w.locks.inside[t] == w.tasks[t].slug)
    && (forall t :: t in w.tasks && InHold(w.tasks[t].pc) ==> t in w.locks.inside)
    && (forall slug :: slug in w.locks.holder ==>
          var t := w.locks.holder[slug]; t in w.tasks && w.tasks[t].pc.Removing? && w.tasks[t].slug == slug)
    && (forall t :: t in w.tasks && w.tasks[t].pc.Removing? ==> Holds(w.locks, t))
  }

  // ---- staging ----

  /** The one name in staging a task answers for. */
  function NameOf(pc: Pc): Option<StagingName> {
    if pc.Clearing? then Some(pc.parked) else PartOf(pc)
  }

  ghost predicate ParcelOk(task: Task, parcel: Parcel) {
    match task.pc
    case Receiving(_, got) => got <= |task.chunks| && parcel == Part(Flatten(task.chunks[..got]))
    case Syncing(_) => parcel == Part(Flatten(task.chunks))
    case Waiting(_) => parcel == Part(Flatten(task.chunks))
    case Clearing(_, _, whole) => parcel.Parked? && Remains(parcel.tree, whole)
    case _ => parcel.Parked?
  }

  ghost predicate ParcelsOk(w: World) {
    forall t :: t in w.tasks && NameOf(w.tasks[t].pc).Some? ==>
      var n := NameOf(w.tasks[t].pc).value;
      n in w.staging && n !in w.leaked && ParcelOk(w.tasks[t], w.staging[n])
  }

  predicate NamesApart(w: World) {
    forall t, u :: t in w.tasks && u in w.tasks && t != u && NameOf(w.tasks[t].pc).Some? ==>
      NameOf(w.tasks[t].pc) != NameOf(w.tasks[u].pc)
  }

  ghost predicate Owned(w: World, n: StagingName) {
    exists t :: t in w.tasks && NameOf(w.tasks[t].pc) == Some(n)
  }

  /** Staging holds one parcel for each task that has one, with the bytes received so far, nothing else but
      the folders failed site deletions left. */
  ghost predicate StagingOk(w: World) {
    w.leaked <= w.staging.Keys && ParcelsOk(w) && NamesApart(w)
    && forall n :: n in w.staging && n !in w.leaked ==> Owned(w, n)
  }

  // ---- served files ----

  /** The upload that put a file where it is. */
  ghost predicate Uploader(w: World, t: TaskId, slug: Slug, path: Path, content: Bytes) {
    t in w.tasks && w.tasks[t].request.Upload? && w.tasks[t].slug == slug && w.tasks[t].target == path
    && w.tasks[t].request.body == content && w.tasks[t].pc.Done?
  }

  /** Each served path holds nothing, or one upload's whole body. */
  ghost predicate ServedWhole(w: World) {
    forall slug, path :: FileAt(At(w.sites, slug).tree, path) ==>
      exists t :: Uploader(w, t, slug, path, At(w.sites, slug).tree[path].content)
  }

  /** A folder `sites/<slug>` implies a site row; an index row too. */
  ghost predicate RowOk(site: Site) {
    (site.tree != map[] ==> "" in site.tree && site.row.Some?) && (site.index != map[] ==> site.row.Some?)
  }

  ghost predicate RowsOk(w: World) {
    forall slug :: RowOk(At(w.sites, slug))
  }

  /** Tasks, lock and staging in order. */
  ghost predicate InOrder(w: World) {
    TasksOk(w) && LockOk(w) && StagingOk(w)
  }

  ghost predicate Safe(w: World) {
    InOrder(w) && ServedWhole(w) && RowsOk(w)
  }

  // ---- changes of one task ----

  /** Task `t` is new or has moved; no other task has. */
  ghost predicate Moved(w: World, w': World, t: TaskId) {
    t in w'.tasks && w'.tasks == w.tasks[t := w'.tasks[t]] && w'.cap == w.cap
    && (t in w.tasks ==> w'.tasks[t] == w.tasks[t].(pc := w'.tasks[t].pc) && !w.tasks[t].pc.Done?)
  }

  predicate WasInHold(w: World, t: TaskId) {
    t in w.tasks && InHold(w.tasks[t].pc)
  }

  /** The ways a step moves the lock table: not at all, into line, to the lock, out. */
  ghost predicate LockMove(w: World, w': World, t: TaskId)
    requires t in w'.tasks
  {
    var pc' := w'.tasks[t].pc;
    if !InHold(pc') then w'.locks == if WasInHold(w, t) && t in w.locks.inside then Leave(w.locks, t) else w.locks
    else if pc'.Waiting? then !WasInHold(w, t) && w'.locks == Enter(w.locks, t, w'.tasks[t].slug)
    else WasInHold(w, t) && w.tasks[t].pc.Waiting? && CanAcquire(w.locks, t) && w'.locks == Acquire(w.locks, t)
  }

  lemma LeavesLock(w: World, w': World, t: TaskId)
    requires LockOk(w) && Moved(w, w', t) && LockMove(w, w', t) && !InHold(w'.tasks[t].pc)
    ensures LockOk(w')
  {
  }

  lemma JoinsLine(w: World, w': World, t: TaskId)
    requires LockOk(w) && Moved(w, w', t) && LockMove(w, w', t) && w'.tasks[t].pc.Waiting?
    ensures LockOk(w')
  {
    assert t !in w.locks.inside;
  }

  lemma TakesLock(w: World, w': World, t: TaskId)
    requires LockOk(w) && Moved(w, w', t) && LockMove(w, w', t) && w'.tasks[t].pc.Removing?
    ensures LockOk(w')
  {
    assert w'.locks.inside == w.locks.inside;
    assert w'.locks.holder == w.locks.holder[w.tasks[t].slug := t];
  }

  lemma LockMoveKeeps(w: World, w': World, t: TaskId)
    requires LockOk(w) && Moved(w, w', t) && LockMove(w, w', t)
    ensures LockOk(w')
  {
    match w'.tasks[t].pc
    case Waiting(_) => JoinsLine(w, w', t);
    case Removing(_) => TakesLock(w, w', t);
    case _ => LeavesLock(w, w', t);
  }

  function NameIn(w: World, t: TaskId): Option<StagingName> {
    if t in w.tasks then NameOf(w.tasks[t].pc) else None
  }

  /** The ways a step moves staging: a parcel kept, taken up under a fresh name, dropped, or leaked. */
  ghost predicate StagingMove(w: World, w': World, t: TaskId) {
    match (NameIn(w, t), NameIn(w', t))
    case (Some(n), Some(m)) =>
      m == n && w'.leaked == w.leaked && n in w'.staging && w'.staging == w.staging[n := w'.staging[n]]
      && ParcelOk(w'.tasks[t], w'.staging[n])
    case (None, Some(n)) =>
      w'.leaked == w.leaked && Unused(w, n) && n in w'.staging && w'.staging == w.staging[n := w'.staging[n]]
      && ParcelOk(w'.tasks[t], w'.staging[n])
    case (Some(n), None) => w'.leaked == w.leaked && w'.staging == w.staging - {n}
    case (None, None) =>
      (w'.leaked == w.leaked && w'.staging == w.staging)
      || exists n :: Unused(w, n) && n in w'.staging && w'.leaked == w.leaked + {n}
                     && w'.staging == w.staging[n := w'.staging[n]]
  }

  lemma OwnerStays(w: World, w': World, t: TaskId, n: StagingName)
    requires Moved(w, w', t) && Owned(w, n) && NameIn(w, t) != Some(n)
    ensures Owned(w', n)
  {
    var u :| u in w.tasks && NameOf(w.tasks[u].pc) == Some(n);
    assert u in w'.tasks && NameOf(w'.tasks[u].pc) == Some(n);
  }

  lemma OwnersKept(w: World, w': World, t: TaskId)
    requires StagingOk(w) && Moved(w, w', t) && StagingMove(w, w', t)
    ensures w'.leaked <= w'.staging.Keys
    ensures forall n :: n in w'.staging && n !in w'.leaked ==> Owned(w', n)
  {
    forall n | n in w'.staging && n !in w'.leaked ensures Owned(w', n) {
      if NameIn(w', t) != Some(n) {
        assert n in w.staging && n !in w.leaked && NameIn(w, t) != Some(n);
        OwnerStays(w, w', t, n);
      }
    }
  }

  lemma ParcelsKept(w: World, w': World, t: TaskId)
    requires StagingOk(w) && Moved(w, w', t) && StagingMove(w, w', t)
    ensures ParcelsOk(w') && NamesApart(w')
  {
  }

  lemma StagingMoveKeeps(w: World, w': World, t: TaskId)
    requires StagingOk(w) && Moved(w, w', t) && StagingMove(w, w', t)
    ensures StagingOk(w')
  {
    OwnersKept(w, w', t);
    ParcelsKept(w, w', t);
  }

  // ---- each step keeps them ----

  ghost predicate TaskMoves(w: World, w': World, t: TaskId) {
    Moved(w, w', t) && LockMove(w, w', t) && StagingMove(w, w', t) && TaskOk(w'.tasks[t], w.cap)
  }

  lemma TasksOkMoved(w: World, w': World, t: TaskId)
    requires TasksOk(w) && Moved(w, w', t) && TaskOk(w'.tasks[t], w.cap)
    ensures TasksOk(w')
  {
  }

  /** What `InOrder` says of one task. */
  ghost predicate TaskInOrder(w: World, t: TaskId) {
    t in w.tasks && TaskOk(w.tasks[t], w.cap)
    && (InHold(w.tasks[t].pc) <==> t in w.locks.inside)
    && (t in w.locks.inside ==> w.locks.inside[t] == w.tasks[t].slug)
    && (NameOf(w.tasks[t].pc).Some? ==>
          var n := NameOf(w.tasks[t].pc).value;
          n in w.staging && n !in w.leaked && ParcelOk(w.tasks[t], w.staging[n]))
  }

  lemma BeginTaskOk(w: World, s: Step)
    requires Enabled(w, s) && s.Begin?
    ensures TaskOk(BeginNext(w, s).tasks[s.t], w.cap)
  {
    var r := s.request;
    if Mutates(r) && Refusal(w, r).None? && OnFile(r) {
      ValidateSitePathExact(r.path, false, TargetOf(r));
    }
  }

  lemma BeginMoves(w: World, s: Step)
    requires s.t !in w.locks.inside && Enabled(w, s) && s.Begin?
    ensures TaskMoves(w, BeginNext(w, s), s.t)
  {
    BeginTaskOk(w, s);
    var pc := BeginPc(w, s.request, s.name);
    assert pc == Receiving(s.name, 0) || pc == Waiting(None) || pc.Done?;
  }

  /** One chunk read: skipped, refused, or appended within the cap. */
  lemma ChunkRead(w: World, t: TaskId)
    requires Enabled(w, Chunk(t))
    ensures var (task, w') := (w.tasks[t], ChunkNext(w, t));
            var (part, sofar, chunk) := (task.pc.part, w.staging[task.pc.part].content, task.chunks[task.pc.got]);
            t in w'.tasks && w'.tasks[t] == task.(pc := w'.tasks[t].pc)
            && if |sofar| + |chunk| > w.cap && chunk != [] then w'.tasks[t].pc.Done?
               else w'.tasks[t].pc == Receiving(part, task.pc.got + 1) && part in w'.staging
                    && w'.staging[part] == Part(sofar + chunk)
  {
    var part := w.tasks[t].pc.part;
    assert w.staging[part].content + [] == w.staging[part].content;
  }

  lemma ChunkTaskOk(w: World, t: TaskId)
    requires TaskInOrder(w, t) && Enabled(w, Chunk(t))
    ensures var w' := ChunkNext(w, t);
            TaskOk(w'.tasks[t], w.cap)
            && (w'.tasks[t].pc.Receiving? ==> ParcelOk(w'.tasks[t], w'.staging[w.tasks[t].pc.part]))
  {
    FlattenNext(w.tasks[t].chunks, w.tasks[t].pc.got);
    ChunkRead(w, t);
  }

  lemma ChunkStagingMove(w: World, t: TaskId)
    requires Enabled(w, Chunk(t)) && t in ChunkNext(w, t).tasks && t in w.tasks && PartOf(w.tasks[t].pc).Some?
    requires var w' := ChunkNext(w, t);
             w'.tasks[t].pc.Receiving? ==> ParcelOk(w'.tasks[t], w'.staging[w.tasks[t].pc.part])
    ensures StagingMove(w, ChunkNext(w, t), t)
  {
  }

  lemma ChunkLockMove(w: World, t: TaskId)
    requires Enabled(w, Chunk(t))
    ensures Moved(w, ChunkNext(w, t), t) && LockMove(w, ChunkNext(w, t), t)
  {
  }

  lemma ChunkMoves(w: World, t: TaskId)
    requires TaskInOrder(w, t) && Enabled(w, Chunk(t))
    ensures TaskMoves(w, ChunkNext(w, t), t)
  {
    ChunkTaskOk(w, t);
    ChunkStagingMove(w, t);
    ChunkLockMove(w, t);
  }

  lemma ReceivedMoves(w: World, s: Step)
    requires Enabled(w, s) && (s.EndOfBody? || s.Synced?) && TaskInOrder(w, s.t)
    ensures TaskMoves(w, Next(w, s), s.t)
  {
    ReceivedTaskOk(w, s);
    StagingStays(w, Next(w, s), s.t);
  }

  /** The body is whole: its bytes are in the part file, and they are within the cap. */
  lemma ReceivedTaskOk(w: World, s: Step)
    requires Enabled(w, s) && (s.EndOfBody? || s.Synced?) && TaskInOrder(w, s.t)
    ensures var (task, task') := (w.tasks[s.t], Next(w, s).tasks[s.t]);
            TaskOk(task', w.cap) && NameOf(task'.pc) == NameOf(task.pc) && NameOf(task.pc).Some?
            && ParcelOk(task', w.staging[NameOf(task.pc).value])
  {
    var task := w.tasks[s.t];
    assert task.chunks[..|task.chunks|] == task.chunks;
  }

  lemma StagingStays(w: World, w': World, t: TaskId)
    requires NameIn(w, t).Some? && NameIn(w', t) == NameIn(w, t) && t in w'.tasks
    requires w'.staging == w.staging && w'.leaked == w.leaked && NameIn(w, t).value in w.staging
    requires ParcelOk(w'.tasks[t], w.staging[NameIn(w, t).value])
    ensures StagingMove(w, w', t)
  {
    var n := NameIn(w, t).value;
    assert w.staging == w.staging[n := w.staging[n]];
  }

  lemma AbortMoves(w: World, t: TaskId, answer: Answer)
    requires TaskInOrder(w, t) && Enabled(w, Abort(t, answer))
    ensures TaskMoves(w, AbortNext(w, t, answer), t)
  {
  }

  /** Where a task can stand after its section. */
  ghost predicate AfterWaiting(task: Task, pc: Pc) {
    match pc
    case Removing(before) =>
      task.request.DeleteFolder? && RefuseRemoveFolder(before, task.target, task.request.recursive).None?
    case Clearing(_, _, _) => task.request.DeleteSite?
    case Done(_, _) => true
    case _ => false
  }

  lemma SectionPc(w: World, s: Step)
    requires Enabled(w, s) && s.Section?
    ensures var w' := SectionNext(w, s.t, s.mtime, s.name);
            Moved(w, w', s.t) && AfterWaiting(w.tasks[s.t], w'.tasks[s.t].pc)
  {
  }

  lemma AfterWaitingOk(task: Task, pc: Pc, cap: nat)
    requires TaskOk(task, cap) && task.pc.Waiting? && AfterWaiting(task, pc)
    ensures TaskOk(task.(pc := pc), cap)
  {
  }

  lemma SectionTaskOk(w: World, s: Step)
    requires Enabled(w, s) && s.Section? && TaskInOrder(w, s.t)
    ensures var w' := SectionNext(w, s.t, s.mtime, s.name); Moved(w, w', s.t) && TaskOk(w'.tasks[s.t], w.cap)
  {
    SectionPc(w, s);
    AfterWaitingOk(w.tasks[s.t], SectionNext(w, s.t, s.mtime, s.name).tasks[s.t].pc, w.cap);
  }

  lemma SectionLockMove(w: World, s: Step)
    requires Enabled(w, s) && s.Section? && TaskInOrder(w, s.t)
    ensures s.t in SectionNext(w, s.t, s.mtime, s.name).tasks && LockMove(w, SectionNext(w, s.t, s.mtime, s.name), s.t)
  {
  }

  /** A section leaves staging alone, drops its part file, or parks a folder under a fresh name. */
  lemma SectionStaging(w: World, s: Step)
    requires Enabled(w, s) && s.Section?
    ensures var (w', staged) := (SectionNext(w, s.t, s.mtime, s.name), w.tasks[s.t].pc.staged);
            s.t in w'.tasks && w'.leaked == w.leaked
            && match w'.tasks[s.t].pc
               case Removing(_) => w'.staging == w.staging && w.tasks[s.t].request.DeleteFolder?
               case Clearing(n, _, whole) =>
                 n == s.name && n in w'.staging && w'.staging == w.staging[n := w'.staging[n]]
                 && w'.staging[n] == Parked(whole) && w.tasks[s.t].request.DeleteSite?
               case Done(_, _) => w'.staging == w.staging - NamesOf(staged)
               case _ => false
  {
  }

  lemma SectionStagingMove(w: World, s: Step)
    requires Enabled(w, s) && s.Section? && TaskInOrder(w, s.t)
    ensures StagingMove(w, SectionNext(w, s.t, s.mtime, s.name), s.t)
  {
    SectionStaging(w, s);
    assert NameIn(w, s.t) == w.tasks[s.t].pc.staged;
  }

  lemma SectionMoves(w: World, s: Step)
    requires Enabled(w, s) && s.Section? && TaskInOrder(w, s.t)
    ensures TaskMoves(w, SectionNext(w, s.t, s.mtime, s.name), s.t)
  {
    SectionTaskOk(w, s);
    SectionLockMove(w, s);
    SectionStagingMove(w, s);
  }

  lemma FinishMoves(w: World, s: Step)
    requires Enabled(w, s) && (s.ClearOne? || s.CancelClear? || s.FinishClear?) && TaskInOrder(w, s.t)
    ensures TaskMoves(w, Next(w, s), s.t)
  {
  }

  lemma FinishRemovalMoves(w: World, t: TaskId)
    requires Enabled(w, FinishRemoval(t)) && TaskInOrder(w, t)
    ensures TaskMoves(w, FinishRemovalNext(w, t), t)
  {
  }

  lemma FailMoves(w: World, t: TaskId, fault: Fault, answer: Answer)
    requires TaskInOrder(w, t) && Enabled(w, Step.Fail(t, fault, answer))
    ensures TaskMoves(w, FailNext(w, t, fault, answer), t)
  {
    var w' := FailNext(w, t, fault, answer);
    if fault.SiteRowFails? {
      var n := fault.parked;
      assert Unused(w, n) && n in w'.staging && w'.staging == w.staging[n := w'.staging[n]];
    }
  }

  lemma StepMoves(w: World, s: Step)
    requires InOrder(w) && Enabled(w, s) && !s.RemoveOne?
    ensures TaskMoves(w, Next(w, s), s.t)
  {
    match s
    case Begin(_, _, _, _) => BeginMoves(w, s);
    case Section(_, _, _) => SectionMoves(w, s);
    case Fail(t, fault, answer) => FailMoves(w, t, fault, answer);
    case FinishRemoval(t) => FinishRemovalMoves(w, t);
    case _ => OutsideMoves(w, s);
  }

  /** The steps outside the critical section of a task that has begun. */
  lemma OutsideMoves(w: World, s: Step)
    requires Enabled(w, s) && TaskInOrder(w, s.t)
    requires s.Chunk? || s.Abort? || s.EndOfBody? || s.Synced? || s.ClearOne? || s.CancelClear? || s.FinishClear?
    ensures TaskMoves(w, Next(w, s), s.t)
  {
    match s
    case Chunk(t) => ChunkMoves(w, t);
    case Abort(t, answer) => AbortMoves(w, t, answer);
    case _ => if s.EndOfBody? || s.Synced? { ReceivedMoves(w, s); } else { FinishMoves(w, s); }
  }

  lemma MovedGrow(w: World, w': World, t: TaskId)
    requires Moved(w, w', t)
    ensures TasksGrow(w, w')
    ensures forall u :: u in w'.tasks && u != t ==> u in w.tasks && w'.tasks[u] == w.tasks[u]
  {
  }

  /** A task keeps what it is; the tasks other than the one that moves stay as they are. */
  lemma TasksGrowBy(w: World, s: Step)
    requires InOrder(w) && Enabled(w, s)
    ensures TasksGrow(w, Next(w, s))
    ensures forall u :: u in Next(w, s).tasks && u != s.t ==> u in w.tasks && Next(w, s).tasks[u] == w.tasks[u]
  {
    if s.RemoveOne? {
      assert Next(w, s).tasks == w.tasks;
    } else {
      StepMoves(w, s);
      MovedGrow(w, Next(w, s), s.t);
    }
  }

  /** Tasks, lock and staging stay in order. */
  lemma OrderKept(w: World, s: Step)
    requires InOrder(w) && Enabled(w, s)
    ensures InOrder(Next(w, s))
  {
    var w' := Next(w, s);
    if s.RemoveOne? {
      assert w' == w.(sites := w'.sites);
    } else {
      StepMoves(w, s);
      TasksOkMoved(w, w', s.t);
      LockMoveKeeps(w, w', s.t);
      StagingMoveKeeps(w, w', s.t);
    }
  }

  // ---- served files and rows ----

  /** Every file of a new tree was in the old one, or is the body this task has just put at its target. */
  ghost predicate TreeFrom(tree: Tree, tree': Tree, task: Task) {
    forall p :: FileAt(tree', p) ==>
      (FileAt(tree, p) && tree[p].content == tree'[p].content)
      || (task.request.Upload? && task.pc.Done? && p == task.target && tree'[p].content == task.request.body)
  }

  lemma CriticalKeeps(site: Site, task: Task, mtime: int)
    requires RowOk(site) && (OnFile(task.request) ==> task.target != "")
    ensures RowOk(Critical(site, task, mtime).0)
    ensures TreeFrom(site.tree, Critical(site, task, mtime).0.tree, task.(pc := Done(INTERNAL_ERROR, Refused)))
  {
  }

  lemma FailureKeeps(w: World, t: TaskId, fault: Fault, answer: Answer)
    requires t in w.tasks && CanFail(w, t, fault) && TaskOk(w.tasks[t], w.cap)
    requires RowOk(At(w.sites, w.tasks[t].slug))
    ensures var site := At(w.sites, w.tasks[t].slug);
            var site' := SiteAfterFailure(site, w.tasks[t], fault);
            RowOk(site') && TreeFrom(site.tree, site'.tree, w.tasks[t].(pc := Done(answer, GivenUp)))
  {
  }

  lemma ListingKeeps(sites: Sites, request: Request, cap: nat, slug: Slug)
    requires request.ListFiles? && RowOk(At(sites, slug))
    ensures var site' := At(RealBackend.Handle(sites, request, cap, 0).0, slug);
            site'.tree == At(sites, slug).tree && RowOk(site')
  {
  }

  lemma ReadingKeeps(sites: Sites, request: Request, cap: nat, slug: Slug)
    requires !Mutates(request) && RowOk(At(sites, slug))
    ensures var site' := At(RealBackend.Handle(sites, request, cap, 0).0, slug);
            site'.tree == At(sites, slug).tree && RowOk(site')
  {
    match request
    case ListFiles(_, _) => ListingKeeps(sites, request, cap, slug);
    case ListSites =>
    case GetSite(_) =>
    case Download(_, _) =>
    case _ =>
  }

  /** What a step does to one site: nothing to its tree, or what its own task may do. */
  ghost predicate SiteMove(w: World, w': World, t: TaskId, slug: Slug) {
    t in w'.tasks && RowOk(At(w'.sites, slug))
    && (At(w'.sites, slug).tree == At(w.sites, slug).tree
        || (slug == w'.tasks[t].slug && TreeFrom(At(w.sites, slug).tree, At(w'.sites, slug).tree, w'.tasks[t])))
  }

  lemma BeginSiteMove(w: World, s: Step, slug: Slug)
    requires Enabled(w, s) && s.Begin? && RowOk(At(w.sites, slug))
    ensures SiteMove(w, BeginNext(w, s), s.t, slug)
  {
    if !Mutates(s.request) { ReadingKeeps(w.sites, s.request, w.cap, slug); }
  }

  /** The site a section acts on: as it was while a folder's removal only starts, otherwise as the section
      leaves it, and then the task is done or clearing. */
  lemma SectionSite(w: World, s: Step)
    requires Enabled(w, s) && s.Section?
    ensures var (task, w') := (w.tasks[s.t], SectionNext(w, s.t, s.mtime, s.name));
            w'.tasks[s.t] == task.(pc := w'.tasks[s.t].pc)
            && if w'.tasks[s.t].pc.Removing? then w'.sites == w.sites
               else w'.sites == w.sites[task.slug := Critical(At(w.sites, task.slug), task, s.mtime).0]
                    && (task.request.Upload? ==> w'.tasks[s.t].pc.Done?)
  {
  }

  lemma SectionSiteMove(w: World, s: Step, slug: Slug)
    requires Enabled(w, s) && s.Section? && TaskOk(w.tasks[s.t], w.cap) && RowOk(At(w.sites, slug))
    ensures SiteMove(w, SectionNext(w, s.t, s.mtime, s.name), s.t, slug)
  {
    var task := w.tasks[s.t];
    SectionSite(w, s);
    if slug == task.slug { CriticalKeeps(At(w.sites, slug), task, s.mtime); }
  }

  lemma FailSiteMove(w: World, t: TaskId, fault: Fault, answer: Answer, slug: Slug)
    requires Enabled(w, Step.Fail(t, fault, answer)) && TaskOk(w.tasks[t], w.cap) && RowOk(At(w.sites, slug))
    ensures SiteMove(w, FailNext(w, t, fault, answer), t, slug)
  {
    if slug == w.tasks[t].slug { FailureKeeps(w, t, fault, answer); }
  }

  lemma RemoveOneSiteMove(w: World, s: Step, slug: Slug)
    requires Enabled(w, s) && s.RemoveOne? && TaskOk(w.tasks[s.t], w.cap) && RowOk(At(w.sites, slug))
    ensures SiteMove(w, RemoveNode(w, s.t, s.node), s.t, slug)
  {
  }

  lemma FinishRemovalSiteMove(w: World, s: Step, slug: Slug)
    requires Enabled(w, s) && s.FinishRemoval? && RowOk(At(w.sites, slug))
    ensures SiteMove(w, FinishRemovalNext(w, s.t), s.t, slug)
  {
  }

  lemma StepSiteMove(w: World, s: Step, slug: Slug)
    requires Enabled(w, s) && RowOk(At(w.sites, slug)) && (s.t in w.tasks ==> TaskOk(w.tasks[s.t], w.cap))
    ensures SiteMove(w, Next(w, s), s.t, slug)
  {
    match s
    case Begin(_, _, _, _) => BeginSiteMove(w, s, slug);
    case Section(_, _, _) => SectionSiteMove(w, s, slug);
    case Fail(t, fault, answer) => FailSiteMove(w, t, fault, answer, slug);
    case RemoveOne(_, _) => RemoveOneSiteMove(w, s, slug);
    case FinishRemoval(_) => FinishRemovalSiteMove(w, s, slug);
    case _ =>
  }

  lemma SitesMoved(w: World, w': World, t: TaskId)
    requires ServedWhole(w) && TasksGrow(w, w') && t in w'.tasks
    requires forall slug :: SiteMove(w, w', t, slug)
    ensures ServedWhole(w') && RowsOk(w')
  {
    forall slug ensures RowOk(At(w'.sites, slug)) {
      assert SiteMove(w, w', t, slug);
    }
    forall slug, path | FileAt(At(w'.sites, slug).tree, path)
      ensures exists u :: Uploader(w', u, slug, path, At(w'.sites, slug).tree[path].content)
    {
      assert SiteMove(w, w', t, slug);
      var content := At(w'.sites, slug).tree[path].content;
      if FileAt(At(w.sites, slug).tree, path) && At(w.sites, slug).tree[path].content == content {
        var u :| Uploader(w, u, slug, path, content);
        assert Uploader(w', u, slug, path, content);
      } else {
        assert Uploader(w', t, slug, path, content);
      }
    }
  }

  lemma SiteMoves(w: World, s: Step)
    requires InOrder(w) && RowsOk(w) && Enabled(w, s)
    ensures var w' := Next(w, s); s.t in w'.tasks && forall slug :: SiteMove(w, w', s.t, slug)
  {
    var w' := Next(w, s);
    forall slug ensures SiteMove(w, w', s.t, slug) {
      assert RowOk(At(w.sites, slug));
      StepSiteMove(w, s, slug);
    }
    assert SiteMove(w, w', s.t, "");
  }

  /** Every step keeps all of it, failures inside and outside the lock included. */
  lemma SafeKept(w: World, s: Step)
    requires Safe(w) && Enabled(w, s)
    ensures Safe(Next(w, s)) && TasksGrow(w, Next(w, s))
  {
    OrderKept(w, s);
    TasksGrowBy(w, s);
    SiteMoves(w, s);
    SitesMoved(w, Next(w, s), s.t);
  }

  lemma InitSafe(cap: nat)
    ensures Safe(Init(cap))
  {
  }

  /** Whatever the interleaving and wherever it failed, the state is safe. */
  lemma {:induction false} AlwaysSafe(w: World, steps: seq<Step>)
    requires Safe(w) && Runs(w, steps)
    ensures Safe(Run(w, steps)) && TasksGrow(w, Run(w, steps))
    decreases |steps|
  {
    if steps != [] {
      SafeKept(w, steps[0]);
      AlwaysSafe(Next(w, steps[0]), steps[1..]);
    }
  }
}
