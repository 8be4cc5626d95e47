/** `SiteLocks.hold` step by step. What a task keeps over its awaits is the entry object it was handed on
    entering; others enter and leave meanwhile. Proved: that object is still the table's whenever it matters. */
module LockRuns {
  import opened Model
  import opened Locks

  /** Where a task is inside `hold`: before the lock, in the block, or past it and still counted. */
  datatype Phase = Awaiting | Inside | Leaving

  /** The local variables of one `hold`. */
  datatype Frame<Id> = Frame(slug: Slug, entry: Id, phase: Phase)

  datatype Entry = Entry(locked: bool, waiting: int)

  /** `table` is `_entries`; `objects` are all entries ever made, `Id` being object identity. */
  datatype State<Id> = State(table: map<Slug, Id>, objects: map<Id, Entry>, frames: map<TaskId, Frame<Id>>)

  /** A cancelled wait is a `Drop` of a task that is awaiting. */
  datatype Step<Id> =
    | Enter(task: TaskId, slug: Slug, made: Id)
    | Acquire(task: TaskId)
    | Release(task: TaskId)
    | Drop(task: TaskId)

  function Empty<Id>(): State<Id> {
    State(map[], map[], map[])
  }

  function ObjectAt<Id>(s: State<Id>, e: Id): Entry {
    if e in s.objects then s.objects[e] else Entry(false, 0)
  }

  predicate Enabled<Id>(s: State<Id>, step: Step<Id>) {
    match step
    case Enter(t, slug, e) => t !in s.frames && (slug !in s.table ==> e !in s.objects)
    case Acquire(t) => t in s.frames && s.frames[t].phase.Awaiting? && !ObjectAt(s, s.frames[t].entry).locked
    case Release(t) => t in s.frames && s.frames[t].phase.Inside?
    case Drop(t) => t in s.frames && !s.frames[t].phase.Inside?
  }

  /** `self._entries.get(slug) is entry`. */
  predicate IsEntry<Id(==)>(s: State<Id>, t: TaskId)
    requires t in s.frames
  {
    s.frames[t].slug in s.table && s.table[s.frames[t].slug] == s.frames[t].entry
  }

  function Next<Id>(s: State<Id>, step: Step<Id>): State<Id>
    requires Enabled(s, step)
  {
    match step
    case Enter(t, slug, made) =>
      var e := if slug in s.table then s.table[slug] else made;
      var o := ObjectAt(s, e);
      State(s.table[slug := e], s.objects[e := o.(waiting := o.waiting + 1)],
            s.frames[t := Frame(slug, e, Awaiting)])
    case Acquire(t) =>
      var e := s.frames[t].entry;
      s.(objects := s.objects[e := ObjectAt(s, e).(locked := true)],
         frames := s.frames[t := s.frames[t].(phase := Inside)])
    case Release(t) =>
      var e := s.frames[t].entry;
      s.(objects := s.objects[e := ObjectAt(s, e).(locked := false)],
         frames := s.frames[t := s.frames[t].(phase := Leaving)])
    case Drop(t) =>
      var (slug, e) := (s.frames[t].slug, s.frames[t].entry);
      var o := ObjectAt(s, e);
      State(if o.waiting == 1 && IsEntry(s, t) then s.table - {slug} else s.table,
            s.objects[e := o.(waiting := o.waiting - 1)], s.frames - {t})
  }

  // ---- the invariant ----

  function Of<Id>(frames: map<TaskId, Frame<Id>>, slug: Slug): set<TaskId> {
    set t | t in frames && frames[t].slug == slug
  }

  /** Everybody inside for a slug has the table's entry. */
  predicate Shared<Id(==)>(s: State<Id>) {
    forall t :: t in s.frames ==> IsEntry(s, t)
  }

  predicate Apart<Id(==)>(s: State<Id>) {
    forall a, b :: a in s.table && b in s.table && a != b ==> s.table[a] != s.table[b]
  }

  /** An entry is in the table exactly while its count, that of the tasks inside, is positive. */
  predicate Counted<Id>(s: State<Id>) {
    forall slug :: slug in s.table ==>
      s.table[slug] in s.objects && s.objects[s.table[slug]].waiting == |Of(s.frames, slug)| > 0
  }

  predicate IsInside<Id>(s: State<Id>, t: TaskId, slug: Slug) {
    t in s.frames && s.frames[t].slug == slug && s.frames[t].phase.Inside?
  }

  /** A lock is taken exactly while a task is in its block, and that is one task. */
  ghost predicate Exclusive<Id>(s: State<Id>) {
    (forall slug :: slug in s.table ==> (ObjectAt(s, s.table[slug]).locked <==> exists t :: IsInside(s, t, slug)))
    && forall slug, t, u :: IsInside(s, t, slug) && IsInside(s, u, slug) ==> t == u
  }

  ghost predicate Inv<Id>(s: State<Id>) {
    Shared(s) && Apart(s) && Counted(s) && Exclusive(s)
  }

  lemma OfMore<Id>(frames: map<TaskId, Frame<Id>>, t: TaskId, frame: Frame<Id>)
    requires t !in frames
    ensures var more := frames[t := frame];
            |Of(more, frame.slug)| == |Of(frames, frame.slug)| + 1
            && forall slug :: slug != frame.slug ==> Of(more, slug) == Of(frames, slug)
  {
    assert Of(frames[t := frame], frame.slug) == Of(frames, frame.slug) + {t};
  }

  lemma OfLess<Id>(frames: map<TaskId, Frame<Id>>, t: TaskId)
    requires t in frames
    ensures var (less, slug) := (frames - {t}, frames[t].slug);
            |Of(less, slug)| == |Of(frames, slug)| - 1
            && forall other :: other != slug ==> Of(less, other) == Of(frames, other)
  {
    assert Of(frames, frames[t].slug) == Of(frames - {t}, frames[t].slug) + {t};
  }

  lemma OfSame<Id>(frames: map<TaskId, Frame<Id>>, t: TaskId, frame: Frame<Id>)
    requires t in frames && frame.slug == frames[t].slug
    ensures forall slug :: Of(frames[t := frame], slug) == Of(frames, slug)
  {
    forall slug ensures Of(frames[t := frame], slug) == Of(frames, slug) {
    }
  }

  lemma EnterKeepsTable<Id>(s: State<Id>, step: Step<Id>)
    requires Shared(s) && Apart(s) && Counted(s) && Enabled(s, step) && step.Enter?
    ensures var s' := Next(s, step); Shared(s') && Apart(s') && Counted(s')
  {
    OfMore(s.frames, step.task, Frame(step.slug, Next(s, step).table[step.slug], Awaiting));
    if step.slug !in s.table { NobodyOf(s, step.slug); }
  }

  lemma EnterKeeps<Id>(s: State<Id>, step: Step<Id>)
    requires Inv(s) && Enabled(s, step) && step.Enter?
    ensures Inv(Next(s, step))
  {
    EnterKeepsTable(s, step);
    var s' := Next(s, step);
    assert forall t, slug :: IsInside(s', t, slug) <==> IsInside(s, t, slug);
    assert step.slug !in s.table ==> forall t :: !IsInside(s, t, step.slug);
  }

  lemma NobodyOf<Id>(s: State<Id>, slug: Slug)
    requires Shared(s) && slug !in s.table
    ensures Of(s.frames, slug) == {}
  {
  }

  lemma AcquireKeeps<Id>(s: State<Id>, step: Step<Id>)
    requires Inv(s) && Enabled(s, step) && step.Acquire?
    ensures Inv(Next(s, step))
  {
    var (t, s') := (step.task, Next(s, step));
    OfSame(s.frames, t, s'.frames[t]);
    var slug := s.frames[t].slug;
    assert IsInside(s', t, slug);
    assert forall u, other :: u != t ==> (IsInside(s', u, other) <==> IsInside(s, u, other));
  }

  lemma ReleaseKeeps<Id>(s: State<Id>, step: Step<Id>)
    requires Inv(s) && Enabled(s, step) && step.Release?
    ensures Inv(Next(s, step))
  {
    var (t, s') := (step.task, Next(s, step));
    OfSame(s.frames, t, s'.frames[t]);
    assert IsInside(s, t, s.frames[t].slug);
    assert forall u, other :: u != t ==> (IsInside(s', u, other) <==> IsInside(s, u, other));
  }

  lemma DropKeepsTable<Id>(s: State<Id>, step: Step<Id>)
    requires Shared(s) && Apart(s) && Counted(s) && Enabled(s, step) && step.Drop?
    ensures var s' := Next(s, step); Shared(s') && Apart(s') && Counted(s')
  {
    var (t, s') := (step.task, Next(s, step));
    OfLess(s.frames, t);
    assert IsEntry(s, t);
    forall u | u in s'.frames ensures IsEntry(s', u) {
      assert IsEntry(s, u);
      if s'.frames[u].slug == s.frames[t].slug { assert u in Of(s'.frames, s.frames[t].slug); }
    }
  }

  lemma DropKeeps<Id>(s: State<Id>, step: Step<Id>)
    requires Inv(s) && Enabled(s, step) && step.Drop?
    ensures Inv(Next(s, step))
  {
    DropKeepsTable(s, step);
    assert IsEntry(s, step.task);
    assert forall u, slug :: IsInside(Next(s, step), u, slug) <==> IsInside(s, u, slug);
  }

  /** Each of the four steps, whoever takes it and whatever others do in between, keeps the invariant. */
  lemma StepKeeps<Id>(s: State<Id>, step: Step<Id>)
    requires Inv(s) && Enabled(s, step)
    ensures Inv(Next(s, step))
  {
    match step
    case Enter(_, _, _) => EnterKeeps(s, step);
    case Acquire(_) => AcquireKeeps(s, step);
    case Release(_) => ReleaseKeeps(s, step);
    case Drop(_) => DropKeeps(s, step);
  }

  // ---- runs ----

  predicate Runs<Id>(s: State<Id>, steps: seq<Step<Id>>)
    decreases |steps|
  {
    steps == [] || (Enabled(s, steps[0]) && Runs(Next(s, steps[0]), steps[1..]))
  }

  function Run<Id>(s: State<Id>, steps: seq<Step<Id>>): State<Id>
    requires Runs(s, steps)
    decreases |steps|
  {
    if steps == [] then s else Run(Next(s, steps[0]), steps[1..])
  }

  lemma {:induction false} RunKeeps<Id>(s: State<Id>, steps: seq<Step<Id>>)
    requires Inv(s) && Runs(s, steps)
    ensures Inv(Run(s, steps))
    decreases |steps|
  {
    if steps != [] {
      StepKeeps(s, steps[0]);
      RunKeeps(Next(s, steps[0]), steps[1..]);
    }
  }

  /** In every interleaving of entering, taking the lock, releasing it, leaving, and giving up a wait: at most
      one task is in its block for a slug; all tasks inside for a slug have one and the same entry object; a slug
      has an entry exactly while somebody is inside for it; and whoever leaves finds its own entry in the
      table. */
  lemma {:induction false} EveryInterleaving<Id>(steps: seq<Step<Id>>)
    requires Runs(Empty(), steps)
    ensures var s: State<Id> := Run(Empty(), steps);
            (forall slug, t, u :: IsInside(s, t, slug) && IsInside(s, u, slug) ==> t == u)
            && (forall t, u :: t in s.frames && u in s.frames && s.frames[t].slug == s.frames[u].slug ==>
                  s.frames[t].entry == s.frames[u].entry)
            && (forall slug :: slug in s.table <==> Of(s.frames, slug) != {})
            && (forall t :: t in s.frames ==> IsEntry(s, t))
  {
    RunKeeps(Empty(), steps);
    var s: State<Id> := Run(Empty(), steps);
    assert forall t :: t in s.frames ==> IsEntry(s, t);
    forall slug ensures slug in s.table <==> Of(s.frames, slug) != {} {
      if slug !in s.table { NobodyOf(s, slug); }
    }
  }

  // ---- the table its users see ----

  /** `Locks.Table` is what is left when objects are forgotten. */
  ghost predicate Shows<Id>(s: State<Id>, t: Table) {
    t.inside.Keys == s.frames.Keys && (forall u :: u in s.frames ==> t.inside[u] == s.frames[u].slug)
    && (forall slug :: slug in t.holder ==> IsInside(s, t.holder[slug], slug))
    && forall slug, u :: IsInside(s, u, slug) ==> slug in t.holder && t.holder[slug] == u
  }

  lemma EnterShows<Id>(s: State<Id>, t: Table, step: Step<Id>)
    requires Inv(s) && Enabled(s, step) && Shows(s, t) && step.Enter?
    ensures Shows(Next(s, step), Locks.Enter(t, step.task, step.slug))
  {
    assert forall u, slug :: IsInside(Next(s, step), u, slug) <==> IsInside(s, u, slug);
  }

  lemma AcquireShows<Id>(s: State<Id>, t: Table, step: Step<Id>)
    requires Inv(s) && Enabled(s, step) && Shows(s, t) && step.Acquire?
    ensures CanAcquire(t, step.task) && Shows(Next(s, step), Locks.Acquire(t, step.task))
  {
    var slug := s.frames[step.task].slug;
    assert IsEntry(s, step.task);
    assert forall u :: !IsInside(s, u, slug);
    var s' := Next(s, step);
    assert IsInside(s', step.task, slug);
    forall u, other ensures IsInside(s', u, other) <==> IsInside(s, u, other) || (u == step.task && other == slug) {
    }
  }

  /** Leaving `hold`, after the block or after a cancelled wait. */
  function Left<Id>(s: State<Id>, task: TaskId): State<Id>
    requires task in s.frames
  {
    Next(if s.frames[task].phase.Inside? then Next(s, Release(task)) else s, Drop(task))
  }

  /** Leaving is releasing the lock, if it was taken, and being counted out. */
  lemma LeaveShows<Id>(s: State<Id>, t: Table, task: TaskId)
    requires Inv(s) && task in s.frames && Shows(s, t)
    ensures Shows(Left(s, task), Locks.Leave(t, task))
  {
    var slug := s.frames[task].slug;
    assert Holds(t, task) <==> IsInside(s, task, slug);
    assert forall u :: IsInside(s, task, slug) && IsInside(s, u, slug) ==> u == task;
    forall u, other ensures IsInside(Left(s, task), u, other) <==> IsInside(s, u, other) && u != task {
    }
  }
}
