/** `SiteLocks` itself: shared entry objects, a count of who waits, and an entry dropped by its last user. Between
    two of these methods of one task, any methods of other tasks can run; a task comes back with the entry object
    it was handed by `Enter`. */
module SiteLocks {
  import opened Model
  import opened Locks
  import opened LockRuns

  /** An `asyncio.Lock` and the number of tasks inside `hold` with it. */
  class LockEntry {
    var locked: bool
    var waiting: int

    constructor ()
      ensures !locked && waiting == 0
    {
      locked, waiting := false, 0;
    }
  }

  class SiteLocks {
    var entries: map<Slug, LockEntry>
    ghost var frames: map<TaskId, Frame<LockEntry>>
    ghost var made: set<LockEntry>

    /** The state as `LockRuns` sees it, an object standing for its own identity. */
    ghost function Snapshot(): State<LockEntry>
      reads this, made
    {
      State(entries, map e | e in made :: Entry(e.locked, e.waiting), frames)
    }

    ghost predicate Valid()
      reads this, made
    {
      Inv(Snapshot())
    }

    constructor ()
      ensures Valid() && Snapshot() == Empty()
    {
      entries, frames, made := map[], map[], {};
    }

    /** Up to the wait for the lock. */
    method Enter(task: TaskId, slug: Slug) returns (entry: LockEntry)
      requires Valid() && task !in frames
      modifies this, made
      ensures Valid() && fresh(made - old(made))
      ensures Enabled(old(Snapshot()), Step.Enter(task, slug, entry))
      ensures Snapshot() == Next(old(Snapshot()), Step.Enter(task, slug, entry)) && frames[task].entry == entry
    {
      ghost var s := Snapshot();
      if slug !in entries {
        entry := new LockEntry();
        entries, made := entries[slug := entry], made + {entry};
      } else {
        entry := entries[slug];
      }
      entry.waiting := entry.waiting + 1;
      frames := frames[task := Frame(slug, entry, Awaiting)];
      assert Snapshot() == Next(s, Step.Enter(task, slug, entry));
      EnterKeeps(s, Step.Enter(task, slug, entry));
    }

    /** The lock is free and a task that waits for it takes it. */
    method Acquire(task: TaskId, entry: LockEntry)
      requires Valid() && task in frames && entry == frames[task].entry
      requires frames[task].phase.Awaiting? && !entry.locked
      modifies this`frames, made
      ensures Valid() && Enabled(old(Snapshot()), Step.Acquire(task))
      ensures Snapshot() == Next(old(Snapshot()), Step.Acquire(task))
    {
      ghost var s := Snapshot();
      assert IsEntry(s, task);
      entry.locked := true;
      frames := frames[task := frames[task].(phase := Inside)];
      assert Snapshot() == Next(s, Step.Acquire(task));
      AcquireKeeps(s, Step.Acquire(task));
    }

    /** The end of the block: the lock is released, the task still counted. */
    method Release(task: TaskId, entry: LockEntry)
      requires Valid() && task in frames && entry == frames[task].entry && frames[task].phase.Inside?
      modifies this`frames, made
      ensures Valid() && Enabled(old(Snapshot()), Step.Release(task))
      ensures Snapshot() == Next(old(Snapshot()), Step.Release(task))
    {
      ghost var s := Snapshot();
      assert IsEntry(s, task);
      entry.locked := false;
      frames := frames[task := frames[task].(phase := Leaving)];
      assert Snapshot() == Next(s, Step.Release(task));
      ReleaseKeeps(s, Step.Release(task));
    }

    /** The end of `hold`, after the block or after a cancelled wait: the task is counted out and the last
        one drops the entry. The test that the table still holds this very entry never fails. */
    method Drop(task: TaskId, slug: Slug, entry: LockEntry) returns (isEntry: bool)
      requires Valid() && task in frames && entry == frames[task].entry && slug == frames[task].slug
      requires !frames[task].phase.Inside?
      modifies this, made
      ensures Valid() && isEntry && Enabled(old(Snapshot()), Step<LockEntry>.Drop(task)) && made == old(made)
      ensures Snapshot() == Next(old(Snapshot()), Step<LockEntry>.Drop(task))
      ensures slug in entries <==> Of(frames, slug) != {}
    {
      ghost var s := Snapshot();
      assert IsEntry(s, task);
      entry.waiting := entry.waiting - 1;
      isEntry := slug in entries && entries[slug] == entry;
      if entry.waiting == 0 && isEntry {
        entries := entries - {slug};
      }
      frames := frames - {task};
      assert Snapshot() == Next(s, Step<LockEntry>.Drop(task));
      DropKeeps(s, Step<LockEntry>.Drop(task));
      if slug !in entries { NobodyOf(Snapshot(), slug); }
    }

    /** Leaving `hold` in either way. */
    method Leave(task: TaskId, slug: Slug, entry: LockEntry, acquired: bool) returns (isEntry: bool)
      requires Valid() && task in frames && entry == frames[task].entry && slug == frames[task].slug
      requires if acquired then frames[task].phase.Inside? else frames[task].phase.Awaiting?
      modifies this, made
      ensures Valid() && isEntry && made == old(made) && Snapshot() == Left(old(Snapshot()), task)
    {
      if acquired { Release(task, entry); }
      isEntry := Drop(task, slug, entry);
    }

    method IsLocked(slug: Slug) returns (locked: bool)
      requires Valid()
      ensures locked <==> exists t :: IsInside(Snapshot(), t, slug)
    {
      locked := slug in entries && entries[slug].locked;
      assert forall t :: IsInside(Snapshot(), t, slug) ==> IsEntry(Snapshot(), t);
    }

    /** How many entries there are: one for each slug somebody is inside for. */
    method Length() returns (n: nat)
      requires Valid()
      ensures n == |entries| && forall s :: s in entries <==> Of(frames, s) != {}
    {
      n := |entries|;
      forall s ensures s in entries <==> Of(frames, s) != {} {
        if s !in entries { NobodyOf(Snapshot(), s); }
      }
    }
  }
}
