/**
 * The tasks store (`useTaskStore`): the tasks of the shown day, the chosen
 * date, the highlighted row and whether the create form is open. Choosing a
 * date moves the highlight back to the first row.
 */
module TaskStoreState {
  import opened Records

  class TaskStore {
    var tasks: seq<Task>
    var selectedDate: string
    var selectedIndex: int
    var isCreating: bool

    /** The initial state; `today` stands for the date the clock gives at start-up. */
    constructor (today: string)
      ensures tasks == [] && selectedDate == today
      ensures selectedIndex == 0 && !isCreating
    {
      tasks := [];
      selectedDate := today;
      selectedIndex := 0;
      isCreating := false;
    }

    method SetTasks(newTasks: seq<Task>)
      modifies this
      ensures tasks == newTasks
      ensures selectedDate == old(selectedDate)
      ensures selectedIndex == old(selectedIndex) && isCreating == old(isCreating)
    {
      tasks := newTasks;
    }

    /** A new date always starts again from the first row. */
    method SetSelectedDate(date: string)
      modifies this
      ensures selectedDate == date && selectedIndex == 0
      ensures tasks == old(tasks) && isCreating == old(isCreating)
    {
      selectedDate := date;
      selectedIndex := 0;
    }

    method SetSelectedIndex(index: int)
      modifies this
      ensures selectedIndex == index
      ensures tasks == old(tasks) && selectedDate == old(selectedDate)
      ensures isCreating == old(isCreating)
    {
      selectedIndex := index;
    }

    method SetIsCreating(creating: bool)
      modifies this
      ensures isCreating == creating
      ensures tasks == old(tasks) && selectedDate == old(selectedDate)
      ensures selectedIndex == old(selectedIndex)
    {
      isCreating := creating;
    }
  }
}
