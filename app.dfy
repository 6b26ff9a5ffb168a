/**
 * The state of the task manager component and its handlers. Each handler is one
 * atomic transition of the three state fields: the task list, the form, and the
 * edit session.
 */
module App {
  import opened Wrappers
  import opened Tasks

  class TaskManager {
    var tasks: seq<Task>
    var form: Form
    var session: Session

    /** The component's initial state: no tasks, an empty form, no edit in progress. */
    constructor ()
      ensures tasks == [] && form == EMPTY_FORM && session == Idle
    {
      tasks := [];
      form := EMPTY_FORM;
      session := Idle;
    }

    /** `handleChange`: one input of the form changes; the tasks and the session do not. */
    method HandleChange(e: FieldEdit)
      modifies this
      ensures form == Changed(old(form), e)
      ensures tasks == old(tasks) && session == old(session)
    {
      form := Changed(form, e);
    }

    /**
     * `addTask`: an incomplete form changes nothing; a complete one is appended as a
     * task stamped with `now` (unless the form already carries an id) and the form
     * is reset. The session is left as it was.
     */
    method AddTask(now: int)
      modifies this
      ensures !IsComplete(old(form)) ==> tasks == old(tasks) && form == old(form)
      ensures IsComplete(old(form)) ==>
        tasks == old(tasks) + [Stamped(old(form), now)] && form == EMPTY_FORM
      ensures session == old(session)
    {
      if !IsComplete(form) {
        return;
      }
      tasks := tasks + [Stamped(form, now)];
      form := EMPTY_FORM;
    }

    /** `deleteTask`: drop every task whose id is `id`; the form and the session stay. */
    method DeleteTask(id: Option<int>)
      modifies this
      ensures tasks == Without(old(tasks), id)
      ensures form == old(form) && session == old(session)
    {
      tasks := Without(tasks, id);
    }

    /** `editTask`: start (or restart) an edit of `t`: the form becomes `t` and the session records its id. */
    method EditTask(t: Task)
      modifies this
      ensures session == Editing(t.id) && form == t
      ensures tasks == old(tasks)
    {
      session := Editing(t.id);
      form := t;
    }

    /** `updateTask`: every task matching the session becomes the form; the session ends; the form is NOT reset. */
    method UpdateTask()
      modifies this
      ensures tasks == Replaced(old(tasks), old(session), old(form))
      ensures session == Idle && form == old(form)
    {
      tasks := Replaced(tasks, session, form);
      session := Idle;
    }

    /** `cancelEdit`: the session ends and the form is reset; the tasks are untouched. */
    method CancelEdit()
      modifies this
      ensures session == Idle && form == EMPTY_FORM
      ensures tasks == old(tasks)
    {
      session := Idle;
      form := EMPTY_FORM;
    }
  }

  /** Starting an edit and cancelling it leaves the list as it was and the manager idle with an empty form. */
  method EditThenCancel(m: TaskManager, t: Task)
    modifies m
    ensures m.tasks == old(m.tasks) && m.session == Idle && m.form == EMPTY_FORM
  {
    m.EditTask(t);
    m.CancelEdit();
  }

  /**
   * Starting an edit of a listed task, changing one field and committing keeps every
   * position's id, and changes only the entries with the edited task's id.
   */
  method EditThenCommit(m: TaskManager, k: nat, e: FieldEdit)
    requires k < |m.tasks|
    modifies m
    ensures |m.tasks| == |old(m.tasks)|
    ensures forall i :: 0 <= i < |m.tasks| ==> m.tasks[i].id == old(m.tasks)[i].id
    ensures forall i :: 0 <= i < |m.tasks| && old(m.tasks)[i].id != old(m.tasks)[k].id ==>
      m.tasks[i] == old(m.tasks)[i]
    ensures m.tasks[k] == Changed(old(m.tasks)[k], e)
    ensures m.session == Idle
  {
    ghost var before := m.tasks;
    var t := m.tasks[k];
    m.EditTask(t);
    m.HandleChange(e);
    m.UpdateTask();
    EditSessionKeepsIds(before, t, [e]);
  }

  /**
   * The list can come to hold two tasks with one id: add a task, edit and commit it
   * (which leaves the form holding the task, id included), then press Add again.
   * Each step is one the interface offers in that state; the second clock reading
   * is discarded because the form's id overrides it.
   */
  method DuplicateIdScenario(title: string, description: string, dueDate: string, first: int, second: int)
    returns (ts: seq<Task>)
    requires title != "" && description != "" && dueDate != ""
    ensures |ts| == 2 && ts[0].id == ts[1].id == Some(first)
    ensures ts[0] == ts[1]
  {
    var m := new TaskManager();
    m.HandleChange(SetTitle(title));
    m.HandleChange(SetDescription(description));
    m.HandleChange(SetDueDate(dueDate));
    m.AddTask(first);
    m.EditTask(m.tasks[0]);
    m.UpdateTask();
    m.AddTask(second);
    ts := m.tasks;
  }

  /** A commit does not validate: editing a task can empty its title. */
  method EmptyTitleScenario(title: string, description: string, dueDate: string, now: int)
    returns (ts: seq<Task>)
    requires title != "" && description != "" && dueDate != ""
    ensures |ts| == 1 && ts[0].title == "" && ts[0].id == Some(now)
  {
    var m := new TaskManager();
    m.HandleChange(SetTitle(title));
    m.HandleChange(SetDescription(description));
    m.HandleChange(SetDueDate(dueDate));
    m.AddTask(now);
    m.EditTask(m.tasks[0]);
    m.HandleChange(SetTitle(""));
    m.UpdateTask();
    ts := m.tasks;
  }
}
