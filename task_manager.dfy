/**
 * The tasks page (`TaskManager`): the incomplete-only view of the day's tasks,
 * and the handlers that toggle, delete, create and edit tasks in the tasks
 * store. On the desktop every task handler first awaits a task channel that
 * the main process never registers, so the call is rejected and the handler
 * stops before it touches any state; in the browser the list is updated
 * locally.
 */
module TaskManager {
  import opened Wrappers
  import opened Text
  import opened Seqs
  import opened Records
  import opened TaskStoreState

  /** `!t.completed`: the flag is the number 0. */
  predicate Incomplete(t: Task) {
    t.completed == 0
  }

  /** `displayTasks`: with `onlyIncomplete`, the tasks whose flag is 0, otherwise all of them. */
  function DisplayTasks(tasks: seq<Task>, onlyIncomplete: bool): seq<Task> {
    if onlyIncomplete then Filter(tasks, Incomplete) else tasks
  }

  /**
   * The incomplete view keeps exactly the incomplete tasks, each as often as
   * it occurs, in the original order; the full view is the list itself.
   */
  lemma DisplayTasksExact(tasks: seq<Task>, onlyIncomplete: bool)
    ensures !onlyIncomplete ==> DisplayTasks(tasks, onlyIncomplete) == tasks
    ensures onlyIncomplete ==> IsSubsequence(DisplayTasks(tasks, onlyIncomplete), tasks)
    ensures onlyIncomplete ==>
      forall t: Task :: multiset(DisplayTasks(tasks, onlyIncomplete))[t] == if t.completed == 0 then multiset(tasks)[t] else 0
  {
    if onlyIncomplete {
      FilterIsSubsequence(tasks, Incomplete);
      forall t ensures multiset(Filter(tasks, Incomplete))[t] == if t.completed == 0 then multiset(tasks)[t] else 0 {
        FilterCount(tasks, Incomplete, t);
      }
    }
  }

  /** `tasks.map(t => t.id === id ? { ...t, completed: done ? 1 : 0 } : t)`. */
  function Toggled(tasks: seq<Task>, id: int, done: bool): (r: seq<Task>)
    ensures |r| == |tasks|
  {
    seq(|tasks|, i requires 0 <= i < |tasks| =>
      if tasks[i].id == id then tasks[i].(completed := if done then 1 else 0) else tasks[i])
  }

  /** The flag of every task is 0 or 1. */
  predicate FlagsBinary(tasks: seq<Task>) {
    forall i :: 0 <= i < |tasks| ==> tasks[i].completed == 0 || tasks[i].completed == 1
  }

  /**
   * A toggle touches only the tasks with that id and only their flag, which
   * becomes 1 or 0; so flags that were 0 or 1 stay so.
   */
  lemma ToggleEffect(tasks: seq<Task>, id: int, done: bool)
    ensures forall i :: 0 <= i < |tasks| && tasks[i].id != id ==> Toggled(tasks, id, done)[i] == tasks[i]
    ensures forall i :: 0 <= i < |tasks| && tasks[i].id == id ==>
      Toggled(tasks, id, done)[i].(completed := tasks[i].completed) == tasks[i]
      && Incomplete(Toggled(tasks, id, done)[i]) == !done
    ensures FlagsBinary(tasks) ==> FlagsBinary(Toggled(tasks, id, done))
  {
  }

  /** Completing a task and then reopening it restores a list whose flags for that id were 0. */
  lemma ToggleRoundTrip(tasks: seq<Task>, id: int)
    requires forall i :: 0 <= i < |tasks| && tasks[i].id == id ==> Incomplete(tasks[i])
    ensures Toggled(Toggled(tasks, id, true), id, false) == tasks
  {
  }

  /** Once completed, a task leaves the incomplete view; once reopened, it is in it. */
  lemma ToggleAndView(tasks: seq<Task>, id: int)
    ensures forall t :: t in DisplayTasks(Toggled(tasks, id, true), true) ==> t.id != id
    ensures forall i :: 0 <= i < |tasks| && tasks[i].id == id ==>
      Toggled(tasks, id, false)[i] in DisplayTasks(Toggled(tasks, id, false), true)
  {
    var done := Toggled(tasks, id, true);
    forall t | t in Filter(done, Incomplete) ensures t.id != id {
      var k :| 0 <= k < |Filter(done, Incomplete)| && Filter(done, Incomplete)[k] == t;
    }
  }

  /** `!task.completed`: the value the toggle button passes. */
  function ToggleArgument(t: Task): (done: bool)
    ensures done <==> Incomplete(t)
  {
    t.completed == 0
  }

  /** Pressing the button completes an incomplete task and reopens a completed one. */
  lemma ToggleButtonFlips(tasks: seq<Task>, i: nat)
    requires i < |tasks|
    ensures Incomplete(Toggled(tasks, tasks[i].id, ToggleArgument(tasks[i]))[i]) == !Incomplete(tasks[i])
  {
  }

  /** `tasks.filter(t => t.id !== id)`. */
  function RemoveTask(tasks: seq<Task>, id: int): seq<Task> {
    Filter(tasks, (t: Task) => t.id != id)
  }

  /** A delete removes every task with that id and keeps every other one, as often and in order. */
  lemma RemoveTaskEffect(tasks: seq<Task>, id: int)
    ensures forall i :: 0 <= i < |RemoveTask(tasks, id)| ==> RemoveTask(tasks, id)[i].id != id
    ensures IsSubsequence(RemoveTask(tasks, id), tasks)
    ensures forall t: Task :: t.id != id ==> multiset(RemoveTask(tasks, id))[t] == multiset(tasks)[t]
  {
    FilterIsSubsequence(tasks, (t: Task) => t.id != id);
    forall t: Task | t.id != id ensures multiset(RemoveTask(tasks, id))[t] == multiset(tasks)[t] {
      FilterCount(tasks, (t: Task) => t.id != id, t);
    }
  }

  /** `date || selectedDate`: an empty date falls back to the chosen day. */
  function TargetDate(date: string, selectedDate: string): (d: string)
    ensures date != [] ==> d == date
    ensures date == [] ==> d == selectedDate
  {
    if date != [] then date else selectedDate
  }

  /** The task a browser-mode create builds: incomplete, dated, both timestamps `now`. */
  function CreatedTask(id: int, title: string, notes: Option<string>, date: string, selectedDate: string, now: Time): (t: Task)
    ensures t.id == id && t.title == title && t.notes == notes
    ensures t.date == TargetDate(date, selectedDate) && Incomplete(t)
    ensures t.createdAt == now && t.updatedAt == now
  {
    Task(id, title, notes, TargetDate(date, selectedDate), 0, now, now)
  }

  /** `tasks.map(t => t.id === id ? { ...t, title, notes, date: date || t.date, updated_at: now } : t)`. */
  function UpdatedTasks(tasks: seq<Task>, id: int, title: string, notes: Option<string>, date: string, now: Time): (r: seq<Task>)
    ensures |r| == |tasks|
  {
    seq(|tasks|, i requires 0 <= i < |tasks| =>
      if tasks[i].id == id then tasks[i].(title := title, notes := notes, date := TargetDate(date, tasks[i].date), updatedAt := now)
      else tasks[i])
  }

  /**
   * An edit rewrites title and notes of the tasks with that id, keeps their
   * date when none is given, and keeps their flag and creation time; every
   * other task is untouched.
   */
  lemma UpdateEffect(tasks: seq<Task>, id: int, title: string, notes: Option<string>, date: string, now: Time)
    ensures forall i :: 0 <= i < |tasks| && tasks[i].id != id ==> UpdatedTasks(tasks, id, title, notes, date, now)[i] == tasks[i]
    ensures forall i :: 0 <= i < |tasks| && tasks[i].id == id ==>
      var u := UpdatedTasks(tasks, id, title, notes, date, now)[i];
      u.id == id && u.title == title && u.notes == notes && u.updatedAt == now
      && u.completed == tasks[i].completed && u.createdAt == tasks[i].createdAt
      && (date == [] ==> u.date == tasks[i].date)
      && (date != [] ==> u.date == date)
  {
  }

  /** What the editor hands to its save callback. */
  datatype EditorOutput = EditorOutput(title: string, notes: Option<string>, date: string)

  /** `onSave(title.trim(), notes.trim() || undefined, targetDate)`. */
  function EditorSave(title: string, notes: string, date: string): EditorOutput {
    EditorOutput(Trim(title), if Trim(notes) != [] then Some(Trim(notes)) else None, date)
  }

  /**
   * The saved title carries no surrounding whitespace; a blank note is
   * dropped and any other note is kept trimmed.
   */
  lemma EditorSaveNormalises(title: string, notes: string, date: string)
    ensures var out := EditorSave(title, notes, date);
      out.title == Trim(title) && Trim(out.title) == out.title
      && (out.notes.Some? ==> out.notes.value == Trim(notes))
      && (out.title != [] ==> !IsJsWhitespace(out.title[0]) && !IsJsWhitespace(out.title[|out.title| - 1]))
      && (out.notes.None? <==> IsBlank(notes))
      && (out.notes.Some? ==> out.notes.value != [] && Trim(out.notes.value) == out.notes.value)
      && out.date == date
  {
    var out := EditorSave(title, notes, date);
    var t, n := Trim(title), Trim(notes);
    assert out.title == t;
    assert out.notes == if n != [] then Some(n) else None;
    TrimShape(title);
    TrimIdempotent(title);
    TrimShape(notes);
    TrimIdempotent(notes);
  }

  /** The page's own state beside the tasks store. */
  class TaskPage {
    const store: TaskStore
    var editing: Option<Task>
    var onlyIncomplete: bool

    constructor (taskStore: TaskStore)
      ensures store == taskStore && editing == None && !onlyIncomplete
    {
      store := taskStore;
      editing := None;
      onlyIncomplete := false;
    }

    /** The tasks the page lists. */
    function Shown(): seq<Task>
      reads this, store
    {
      DisplayTasks(store.tasks, onlyIncomplete)
    }

    /** `onToggle`: in the browser the flag of that id becomes `done`. */
    method OnToggle(id: int, done: bool, desktop: bool)
      modifies store
      ensures store.tasks == if desktop then old(store.tasks) else Toggled(old(store.tasks), id, done)
      ensures store.selectedDate == old(store.selectedDate) && store.selectedIndex == old(store.selectedIndex)
      ensures store.isCreating == old(store.isCreating)
      ensures !desktop && done && onlyIncomplete ==> forall t :: t in Shown() ==> t.id != id
    {
      if desktop {
        return;
      }
      store.SetTasks(Toggled(store.tasks, id, done));
      ToggleAndView(old(store.tasks), id);
    }

    /** `onDelete`: in the browser the tasks with that id go. */
    method OnDelete(id: int, desktop: bool)
      modifies store
      ensures store.tasks == if desktop then old(store.tasks) else RemoveTask(old(store.tasks), id)
      ensures store.selectedDate == old(store.selectedDate) && store.selectedIndex == old(store.selectedIndex)
      ensures store.isCreating == old(store.isCreating)
      ensures !desktop ==> forall t :: t in Shown() ==> t.id != id
    {
      if desktop {
        return;
      }
      store.SetTasks(RemoveTask(store.tasks, id));
      RemoveTaskEffect(old(store.tasks), id);
      DisplayTasksExact(store.tasks, onlyIncomplete);
      forall t | t in Shown() ensures t.id != id {
        assert multiset(Shown())[t] > 0;
        assert t in store.tasks;
      }
    }

    /** `onCreate`: in the browser a new incomplete task goes first and the form closes. */
    method OnCreate(id: int, title: string, notes: Option<string>, date: string, now: Time, desktop: bool)
      modifies store
      ensures desktop ==> store.tasks == old(store.tasks) && store.isCreating == old(store.isCreating)
      ensures !desktop ==>
        store.tasks == [CreatedTask(id, title, notes, date, old(store.selectedDate), now)] + old(store.tasks)
        && !store.isCreating
      ensures store.selectedDate == old(store.selectedDate) && store.selectedIndex == old(store.selectedIndex)
    {
      if desktop {
        return;
      }
      store.SetTasks([CreatedTask(id, title, notes, date, store.selectedDate, now)] + store.tasks);
      store.SetIsCreating(false);
    }

    /** `onUpdate`: in the browser the task is edited in place and the editor closes. */
    method OnUpdate(id: int, title: string, notes: Option<string>, date: string, now: Time, desktop: bool)
      modifies this, store
      ensures desktop ==> store.tasks == old(store.tasks) && editing == old(editing)
      ensures !desktop ==> store.tasks == UpdatedTasks(old(store.tasks), id, title, notes, date, now) && editing == None
      ensures onlyIncomplete == old(onlyIncomplete)
      ensures store.selectedDate == old(store.selectedDate) && store.selectedIndex == old(store.selectedIndex)
      ensures store.isCreating == old(store.isCreating)
    {
      if desktop {
        return;
      }
      store.SetTasks(UpdatedTasks(store.tasks, id, title, notes, date, now));
      editing := None;
    }
  }
}
