/** The task list of the widget and the pure transformations its handlers apply
    to it (`src/App.js`): adding, deleting, archiving, answering the completion
    question, and the four category views. */
module Tasks {
  import opened Clock
  import opened Text
  import opened Optional

  /** A task as the component stores it. `alertPlayed5Min` and `showClockIcon`
      are absent from a new task in the source, which reads them as false. */
  datatype Task = Task(
    id: int,
    text: string,
    date: int,
    archived: bool,
    completed: bool,
    isShaking: bool,
    alertPlayed: bool,
    alertPlayed5Min: bool,
    showClockIcon: bool)

  /** The outcome of `addTask`: the new list, or the "Please provide both a task
      and a date." alert with the list left as it was. */
  datatype AddOutcome = Added(tasks: seq<Task>) | MissingInput

  /** `addTask` with the two input fields and the clock reading `Date.now()` used
      as the id. An empty date field is `None`. */
  function AddTask(tasks: seq<Task>, newTask: string, taskDate: Option<int>, now: int): (r: AddOutcome)
    ensures r.MissingInput? <==> AllSpace(newTask) || taskDate.None?
    ensures r.Added? ==>
              && |r.tasks| == |tasks| + 1
              && r.tasks[..|tasks|] == tasks
              && var t := r.tasks[|tasks|];
                 && t.id == now && t.text == Trim(newTask) && t.text != []
                 && t.date == taskDate.value
                 && !t.archived && !t.completed && !t.isShaking && !t.alertPlayed
                 && !t.alertPlayed5Min && !t.showClockIcon
  {
    var text := Trim(newTask);
    if text != [] && taskDate.Some? then
      Added(tasks + [Task(now, text, taskDate.value, false, false, false, false, false, false)])
    else
      MissingInput
  }

  function Ids(tasks: seq<Task>): (r: seq<int>)
    ensures |r| == |tasks|
    ensures forall i :: 0 <= i < |tasks| ==> r[i] == tasks[i].id
  {
    if tasks == [] then [] else [tasks[0].id] + Ids(tasks[1..])
  }

  /** `tasks.filter((task) => task.id !== id)`. */
  function Delete(tasks: seq<Task>, id: int): (r: seq<Task>)
    ensures forall t :: t in r <==> t in tasks && t.id != id
    ensures |r| <= |tasks|
    ensures (forall t :: t in tasks ==> t.id != id) ==> r == tasks
  {
    if tasks == [] then []
    else if tasks[0].id == id then Delete(tasks[1..], id)
    else [tasks[0]] + Delete(tasks[1..], id)
  }

  /** Deleting works piece by piece: the kept tasks stay in their original order. */
  lemma {:induction false} DeleteKeepsOrder(a: seq<Task>, b: seq<Task>, id: int)
    ensures Delete(a + b, id) == Delete(a, id) + Delete(b, id)
  {
    if a == [] {
      assert a + b == b;
    } else {
      assert (a + b)[1..] == a[1..] + b;
      DeleteKeepsOrder(a[1..], b, id);
    }
  }

  /** Exactly the tasks that carry the id are removed. */
  lemma {:induction false} DeleteCount(tasks: seq<Task>, id: int)
    ensures |Delete(tasks, id)| == |tasks| - CountId(tasks, id)
  {
    if tasks != [] {
      DeleteCount(tasks[1..], id);
    }
  }

  function CountId(tasks: seq<Task>, id: int): nat
  {
    if tasks == [] then 0 else (if tasks[0].id == id then 1 else 0) + CountId(tasks[1..], id)
  }

  /** `tasks.map((task) => task.id === id ? { ...task, archived: true } : task)`. */
  function Archive(tasks: seq<Task>, id: int): (r: seq<Task>)
    ensures |r| == |tasks|
    ensures forall i :: 0 <= i < |tasks| ==>
              r[i] == if tasks[i].id == id then tasks[i].(archived := true) else tasks[i]
  {
    if tasks == [] then [] else
      [if tasks[0].id == id then tasks[0].(archived := true) else tasks[0]] + Archive(tasks[1..], id)
  }

  /** The popup of the completion question: `{ show, taskId }`. */
  datatype Popup = Popup(show: bool, taskId: Option<int>)

  /** `if (completionPopup.taskId)`: a missing id and the id 0 are both falsy. */
  predicate HasTask(p: Popup)
  {
    p.taskId.Some? && p.taskId.value != 0
  }

  /** The task-list part of `handleCompletionResponse(response)`. */
  function Respond(tasks: seq<Task>, popup: Popup, response: string): (r: seq<Task>)
    ensures |r| == |tasks|
    ensures forall i :: 0 <= i < |tasks| ==> Ids(r)[i] == Ids(tasks)[i]
  {
    if !HasTask(popup) then tasks
    else if tasks == [] then []
    else
      var t := tasks[0];
      var t' := if t.id != popup.taskId.value then t
                else if response == "yes" then t.(completed := true)
                else if response == "no" then t.(alertPlayed := true)
                else t;
      [t'] + Respond(tasks[1..], popup, response)
  }

  /** What the answer does to each task: "yes" completes the popup's task, "no"
      marks only its one-minute alert as played, any other answer and any other
      task are left alone. */
  lemma {:induction false} RespondEffect(tasks: seq<Task>, popup: Popup, response: string, i: int)
    requires 0 <= i < |tasks|
    ensures var t := tasks[i];
            var r := Respond(tasks, popup, response)[i];
            if HasTask(popup) && t.id == popup.taskId.value && response == "yes" then r == t.(completed := true)
            else if HasTask(popup) && t.id == popup.taskId.value && response == "no" then r == t.(alertPlayed := true)
            else r == t
  {
    if HasTask(popup) && i > 0 {
      RespondEffect(tasks[1..], popup, response, i - 1);
    }
  }

  // ---------------------------------------------------------------------------
  // Category views

  datatype Category = Today | Upcoming | Completed | Archived

  /** The filter each category list applies (`src/App.js`, the four `tasks.filter` calls). */
  predicate InCategory(t: Task, c: Category, now: int)
    ensures InCategory(t, c, now) ==> (t.archived <==> c == Archived)
    ensures InCategory(t, c, now) && !t.archived ==> (t.completed <==> c == Completed)
  {
    match c
    case Today => IsToday(t.date, now) && !t.archived && !t.completed
    case Upcoming => IsFuture(t.date, now) && !IsToday(t.date, now) && !t.archived && !t.completed
    case Completed => t.completed && !t.archived
    case Archived => t.archived
  }

  /** The tasks a category list shows, in list order. */
  function View(tasks: seq<Task>, c: Category, now: int): (r: seq<Task>)
    ensures forall t :: t in r <==> t in tasks && InCategory(t, c, now)
    ensures |r| <= |tasks|
  {
    if tasks == [] then []
    else (if InCategory(tasks[0], c, now) then [tasks[0]] else []) + View(tasks[1..], c, now)
  }

  /** An independent statement of where a task belongs: archived first, then
      completed, then by due day; `None` for an open task due on a past day. */
  function CategoryOf(t: Task, now: int): Option<Category>
  {
    if t.archived then Some(Archived)
    else if t.completed then Some(Completed)
    else if DayOf(t.date) == DayOf(now) then Some(Today)
    else if DayOf(t.date) > DayOf(now) then Some(Upcoming)
    else None
  }

  /** The four filters agree with `CategoryOf`: a task is in at most one list, and
      in none exactly when it is open and due on a day already past. */
  lemma CategoryExclusive(t: Task, c: Category, now: int)
    ensures InCategory(t, c, now) <==> CategoryOf(t, now) == Some(c)
  {
    if t.date <= now {
      DayOfMonotone(t.date, now);
    } else {
      DayOfMonotone(now, t.date);
    }
  }

  /** The lists are pairwise disjoint. */
  lemma ViewsDisjoint(tasks: seq<Task>, c1: Category, c2: Category, now: int, t: Task)
    requires c1 != c2
    ensures !(t in View(tasks, c1, now) && t in View(tasks, c2, now))
  {
    CategoryExclusive(t, c1, now);
    CategoryExclusive(t, c2, now);
  }

  /** An open task due on a past day is shown in none of the four lists. */
  lemma OverdueShownNowhere(t: Task, c: Category, now: int)
    requires !t.archived && !t.completed && DayOf(t.date) < DayOf(now)
    ensures !InCategory(t, c, now)
  {
    CategoryExclusive(t, c, now);
  }

  function Overdue(tasks: seq<Task>, now: int): (r: seq<Task>)
    ensures forall t :: t in r <==> t in tasks && CategoryOf(t, now).None?
  {
    if tasks == [] then []
    else (if CategoryOf(tasks[0], now).None? then [tasks[0]] else []) + Overdue(tasks[1..], now)
  }

  /** Counting every list and the overdue tasks accounts for each task exactly once. */
  lemma {:induction false} ViewsPartition(tasks: seq<Task>, now: int)
    ensures |View(tasks, Today, now)| + |View(tasks, Upcoming, now)| + |View(tasks, Completed, now)|
            + |View(tasks, Archived, now)| + |Overdue(tasks, now)| == |tasks|
  {
    if tasks != [] {
      ViewsPartition(tasks[1..], now);
      var t := tasks[0];
      CategoryExclusive(t, Today, now);
      CategoryExclusive(t, Upcoming, now);
      CategoryExclusive(t, Completed, now);
      CategoryExclusive(t, Archived, now);
    }
  }
}
