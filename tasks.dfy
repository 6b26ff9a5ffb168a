/**
 * The records of the task manager and the pure computations inside its handlers:
 * the object spreads that edit the form and build a task, the `filter` that deletes,
 * the `map` that commits an edit, and the predicate that selects the visible tasks.
 */
module Tasks {
  import opened Wrappers
  import opened Seqs
  import opened Text

  datatype Priority = High | Medium | Low

  /**
   * A task object. `id` is `None` when the object has no `id` property: a fresh form
   * has none, and a task committed from such a form has none either. Ids are plain
   * numbers, so no task's id is ever equal to `null`.
   */
  datatype Task = Task(id: Option<int>, title: string, description: string, dueDate: string, priority: Priority)

  /** The form holds an object of the same shape; after an edit starts it is the task itself. */
  type Form = Task

  /** The form's initial and reset value: empty strings, priority High, no id. */
  const EMPTY_FORM: Form := Task(None, "", "", "", High)

  /** `editingTaskId`: `null` (Idle) or the `id` of the task whose edit started. */
  datatype Session = Idle | Editing(target: Option<int>)

  /** One change event of the form: the input it comes from and the new value. */
  datatype FieldEdit =
    | SetTitle(value: string)
    | SetDescription(value: string)
    | SetDueDate(value: string)
    | SetPriority(level: Priority)

  /** The value of the priority filter: "All" or one priority. */
  datatype PriorityFilter = All | Only(level: Priority)

  /** `{ ...formData, [name]: value }`: the named field takes the value, all others are kept. */
  function Changed(f: Form, e: FieldEdit): (r: Form)
    ensures r.id == f.id
    ensures r.title == if e.SetTitle? then e.value else f.title
    ensures r.description == if e.SetDescription? then e.value else f.description
    ensures r.dueDate == if e.SetDueDate? then e.value else f.dueDate
    ensures r.priority == if e.SetPriority? then e.level else f.priority
  {
    match e
    case SetTitle(v) => f.(title := v)
    case SetDescription(v) => f.(description := v)
    case SetDueDate(v) => f.(dueDate := v)
    case SetPriority(p) => f.(priority := p)
  }

  /** The form after a series of change events, in order. */
  function ChangedAll(f: Form, es: seq<FieldEdit>): Form
    decreases es
  {
    if es == [] then f else ChangedAll(Changed(f, es[0]), es[1..])
  }

  /** No sequence of change events touches the form's id. */
  lemma {:induction false} ChangedAllKeepsId(f: Form, es: seq<FieldEdit>)
    ensures ChangedAll(f, es).id == f.id
    decreases es
  {
    if es != [] {
      ChangedAllKeepsId(Changed(f, es[0]), es[1..]);
    }
  }

  /** The guard of `addTask`: title, description and due date are all non-empty. */
  predicate IsComplete(f: Form)
  {
    f.title != "" && f.description != "" && f.dueDate != ""
  }

  /**
   * `{ id: Date.now(), ...formData }`: the clock reading `now` is the id unless the
   * form already has one, which the spread then copies over it.
   */
  function Stamped(f: Form, now: int): (t: Task)
    ensures t.id.Some?
    ensures f.id.Some? ==> t.id == f.id
    ensures f.id.None? ==> t.id == Some(now)
    ensures t.(id := f.id) == f
  {
    if f.id.Some? then f else f.(id := Some(now))
  }

  /** `tasks.filter((task) => task.id !== id)`. */
  function Without(ts: seq<Task>, id: Option<int>): seq<Task>
  {
    Filter(ts, (t: Task) => t.id != id)
  }

  /** Deleting keeps, in order, exactly the tasks whose id differs from `id`. */
  lemma WithoutSpec(ts: seq<Task>, id: Option<int>)
    ensures IsSubsequence(Without(ts, id), ts)
    ensures forall t: Task :: t in Without(ts, id) <==> t in ts && t.id != id
    ensures forall t: Task :: t.id != id ==> multiset(Without(ts, id))[t] == multiset(ts)[t]
  {
    FilterIsSubsequence(ts, (t: Task) => t.id != id);
    forall t
      ensures t in Without(ts, id) <==> t in ts && t.id != id
      ensures t.id != id ==> multiset(Without(ts, id))[t] == multiset(ts)[t]
    {
      FilterMembership(ts, (t: Task) => t.id != id, t);
      FilterCount(ts, (t: Task) => t.id != id, t);
    }
  }

  /** Deleting the same id twice leaves what deleting it once left. */
  lemma WithoutIdempotent(ts: seq<Task>, id: Option<int>)
    ensures Without(Without(ts, id), id) == Without(ts, id)
  {
    FilterIdempotent(ts, (t: Task) => t.id != id);
  }

  /** Deleting an id that no task carries changes nothing. */
  lemma WithoutAbsent(ts: seq<Task>, id: Option<int>)
    requires forall i :: 0 <= i < |ts| ==> ts[i].id != id
    ensures Without(ts, id) == ts
  {
    FilterKeepsAll(ts, (t: Task) => t.id != id);
  }

  /** `task.id === editingTaskId`: only an Editing session matches, and only its target id. */
  predicate Matches(t: Task, s: Session)
  {
    s.Editing? && t.id == s.target
  }

  /** `tasks.map((task) => task.id === editingTaskId ? { ...formData } : task)`. */
  function Replaced(ts: seq<Task>, s: Session, f: Form): seq<Task>
  {
    Map(ts, (t: Task) => if Matches(t, s) then f else t)
  }

  /** Committing keeps the length, puts the form at every matching position and leaves the rest as they were. */
  lemma ReplacedSpec(ts: seq<Task>, s: Session, f: Form)
    ensures |Replaced(ts, s, f)| == |ts|
    ensures forall i :: 0 <= i < |ts| && Matches(ts[i], s) ==> Replaced(ts, s, f)[i] == f
    ensures forall i :: 0 <= i < |ts| && !Matches(ts[i], s) ==> Replaced(ts, s, f)[i] == ts[i]
  {
  }

  /** When no task matches the session (in particular when it is Idle) committing changes nothing. */
  lemma ReplacedNoMatch(ts: seq<Task>, s: Session, f: Form)
    requires forall i :: 0 <= i < |ts| ==> !Matches(ts[i], s)
    ensures Replaced(ts, s, f) == ts
  {
    var r := Replaced(ts, s, f);
    assert forall i :: 0 <= i < |ts| ==> r[i] == ts[i];
  }

  /**
   * An edit of a task `t` that starts with the form set to `t`, goes through any
   * change events and is committed gives back a list with the same ids at every
   * position, with only the entries carrying `t`'s id replaced.
   */
  lemma EditSessionKeepsIds(ts: seq<Task>, t: Task, es: seq<FieldEdit>)
    ensures |Replaced(ts, Editing(t.id), ChangedAll(t, es))| == |ts|
    ensures forall i :: 0 <= i < |ts| ==> Replaced(ts, Editing(t.id), ChangedAll(t, es))[i].id == ts[i].id
    ensures forall i :: 0 <= i < |ts| && ts[i].id != t.id ==> Replaced(ts, Editing(t.id), ChangedAll(t, es))[i] == ts[i]
  {
    ChangedAllKeepsId(t, es);
  }

  /** `filterPriority === "All" || task.priority === filterPriority`. */
  predicate PriorityMatches(pf: PriorityFilter, p: Priority)
  {
    pf == All || pf == Only(p)
  }

  /** The predicate of `filteredTasks`: the search term, lowered, occurs in the lowered title or description, and the priority matches. */
  predicate Shown(t: Task, search: string, pf: PriorityFilter)
  {
    (Includes(Lower(t.title), Lower(search)) || Includes(Lower(t.description), Lower(search)))
    && PriorityMatches(pf, t.priority)
  }

  /** `filteredTasks`: the tasks the list shows for a search term and a priority filter. */
  function Visible(ts: seq<Task>, search: string, pf: PriorityFilter): seq<Task>
  {
    Filter(ts, (t: Task) => Shown(t, search, pf))
  }

  /** Reference reading of the search: the lowered term occurs at some position of the lowered title or description. */
  ghost predicate Mentions(t: Task, search: string)
  {
    (exists i :: OccursAt(Lower(t.title), Lower(search), i))
    || (exists i :: OccursAt(Lower(t.description), Lower(search), i))
  }

  /** A task passes the query's predicate iff it mentions the term and its priority matches the filter. */
  lemma ShownIff(t: Task, search: string, pf: PriorityFilter)
    ensures Shown(t, search, pf) <==> Mentions(t, search) && (pf == All || pf == Only(t.priority))
  {
    IncludesIff(Lower(t.title), Lower(search));
    IncludesIff(Lower(t.description), Lower(search));
  }

  /**
   * The visible tasks are a subsequence of the list; a task is visible iff it is in
   * the list, mentions the search term and has a priority the filter admits; every
   * copy of such a task is kept.
   */
  lemma VisibleSpec(ts: seq<Task>, search: string, pf: PriorityFilter)
    ensures IsSubsequence(Visible(ts, search, pf), ts)
    ensures forall t: Task :: t in Visible(ts, search, pf) <==>
      t in ts && Mentions(t, search) && (pf == All || pf == Only(t.priority))
    ensures forall t: Task :: Shown(t, search, pf) ==> multiset(Visible(ts, search, pf))[t] == multiset(ts)[t]
  {
    var p := (t: Task) => Shown(t, search, pf);
    FilterIsSubsequence(ts, p);
    forall t: Task
      ensures t in Visible(ts, search, pf) <==>
        t in ts && Mentions(t, search) && (pf == All || pf == Only(t.priority))
      ensures Shown(t, search, pf) ==> multiset(Visible(ts, search, pf))[t] == multiset(ts)[t]
    {
      FilterMembership(ts, p, t);
      FilterCount(ts, p, t);
      ShownIff(t, search, pf);
    }
  }

  /** With an empty search term and the filter at All, every task is shown, in order. */
  lemma VisibleEverything(ts: seq<Task>)
    ensures Visible(ts, "", All) == ts
  {
    forall i | 0 <= i < |ts|
      ensures Shown(ts[i], "", All)
    {
      assert Lower("") == "";
      IncludesEmpty(Lower(ts[i].title));
    }
    FilterKeepsAll(ts, (t: Task) => Shown(t, "", All));
  }

  /** The search is case-insensitive: terms that differ only in ASCII case show the same tasks. */
  lemma VisibleIgnoresCase(ts: seq<Task>, a: string, b: string, pf: PriorityFilter)
    requires EqualIgnoringCase(a, b)
    ensures Visible(ts, a, pf) == Visible(ts, b, pf)
  {
    LowerEqualIff(a, b);
    FilterCongruent(ts, (t: Task) => Shown(t, a, pf), (t: Task) => Shown(t, b, pf));
  }

  /** Whether a task is shown does not depend on the ASCII case of its title or description. */
  lemma ShownIgnoresCaseOfTask(t: Task, u: Task, search: string, pf: PriorityFilter)
    requires EqualIgnoringCase(t.title, u.title) && EqualIgnoringCase(t.description, u.description)
    requires t.priority == u.priority
    ensures Shown(t, search, pf) == Shown(u, search, pf)
  {
    LowerEqualIff(t.title, u.title);
    LowerEqualIff(t.description, u.description);
  }

  /** Searching "milk" finds a task described "Buy milk and eggs". */
  lemma MilkFound(due: string, p: Priority)
    ensures Shown(Task(None, "Shopping", "Buy milk and eggs", due, p), "milk", All)
  {
    var m := Lower("milk");
    assert m == "milk" by {
      assert m[0] == 'm' && m[1] == 'i' && m[2] == 'l' && m[3] == 'k';
    }
    var d := Lower("Buy milk and eggs");
    assert d[4..8] == "milk" by {
      assert d[4] == 'm' && d[5] == 'i' && d[6] == 'l' && d[7] == 'k';
    }
    assert OccursAt(d, m, 4);
    IncludesIff(d, m);
    assert Includes(d, m);
  }

  /** Searching "milk" skips a task titled "Gym" and described "Leg day". */
  lemma GymSkipped(due: string, p: Priority)
    ensures !Shown(Task(None, "Gym", "Leg day", due, p), "milk", All)
  {
    var m := Lower("milk");
    assert m == "milk" by {
      assert m[0] == 'm' && m[1] == 'i' && m[2] == 'l' && m[3] == 'k';
    }
    assert |Lower("Gym")| < |m|;
    var l := Lower("Leg day");
    assert forall i :: OccursAt(l, m, i) ==> l[i] == 'm' by {
      forall i | OccursAt(l, m, i) ensures l[i] == 'm' {
        assert l[i..i + 4][0] == m[0];
      }
    }
    assert forall j :: 0 <= j < |l| ==> l[j] != 'm';
    IncludesIff(l, m);
  }
}
