/** One lock per site, created on first use and dropped when nobody holds or awaits it. */
module Locks {
  import opened Model

  type TaskId = nat

  /** The table as its users see it: who is inside `hold` for which slug, and who has the lock. */
  datatype Table = Table(inside: map<TaskId, Slug>, holder: map<Slug, TaskId>)

  const NOBODY := Table(map[], map[])

  predicate CanAcquire(t: Table, task: TaskId) {
    task in t.inside && t.inside[task] !in t.holder
  }

  function Enter(t: Table, task: TaskId, slug: Slug): Table {
    t.(inside := t.inside[task := slug])
  }

  function Acquire(t: Table, task: TaskId): Table
    requires CanAcquire(t, task)
  {
    t.(holder := t.holder[t.inside[task] := task])
  }

  predicate Holds(t: Table, task: TaskId) {
    task in t.inside && t.inside[task] in t.holder && t.holder[t.inside[task]] == task
  }

  /** Leaving `hold`, after the block or because the wait was cancelled. */
  function Leave(t: Table, task: TaskId): Table
    requires task in t.inside
  {
    Table(t.inside - {task}, if Holds(t, task) then t.holder - {t.inside[task]} else t.holder)
  }
}
