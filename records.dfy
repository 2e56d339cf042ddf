/** The records that flow between the store and the views (`src/types/link.ts`, `src/types/task.ts`). */
module Records {
  import opened Wrappers

  /** Abstract time: the value `CURRENT_TIMESTAMP` or `new Date()` reads. */
  type Time = nat

  /** A bookmark row; `favicon` and `tags` are NULL / `undefined` when absent. */
  datatype Link = Link(
    id: int,
    title: string,
    url: string,
    favicon: Option<string>,
    tags: Option<string>,
    visitCount: nat,
    createdAt: Time,
    updatedAt: Time)

  /** A day-scoped to-do item; `completed` is the number 0 or 1. */
  datatype Task = Task(
    id: int,
    title: string,
    notes: Option<string>,
    date: string,
    completed: int,
    createdAt: Time,
    updatedAt: Time)

  /** JavaScript truthiness of an optional string: present and non-empty. */
  predicate Truthy(s: Option<string>) {
    s.Some? && s.value != []
  }

  /** `x || null`: an absent or empty string is stored as NULL. */
  function NullIfEmpty(s: Option<string>): (r: Option<string>)
    ensures r.Some? <==> Truthy(s)
    ensures r.Some? ==> r == s
  {
    if Truthy(s) then s else None
  }
}
