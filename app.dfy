/** The `App` component of `src/App.js` as an object: its state hooks are fields,
    and each handler, the weekly reset timer and the monitoring interval replace
    them. Sounds, browser alerts and calls to the push service are recorded as
    effects in the order they happen. */
module App {
  import opened Optional
  import opened Clock
  import opened Tasks
  import opened Tick

  /** An observable side effect of a handler. */
  datatype Effect =
    | PlayAlertSound(alert: Alert)   // `alertAudio.current.play()` in the tick
    | MissingInputAlert              // `alert("Please provide both a task and a date.")`
    | RemoteRemove(id: int)          // `OneSignal.Notifications.remove(id)`
    | RemoveFailed(id: int)          // the error logged when that call rejects

  /** The sounds one tick plays, one per alert, in list order. */
  function Sounds(alerts: seq<Alert>): (r: seq<Effect>)
    ensures |r| == |alerts|
    ensures forall i :: 0 <= i < |alerts| ==> r[i] == PlayAlertSound(alerts[i])
  {
    if alerts == [] then [] else [PlayAlertSound(alerts[0])] + Sounds(alerts[1..])
  }

  class Widget {
    var tasks: seq<Task>
    var newTask: string
    var taskDate: Option<int>
    var alertVisible: bool
    var completionPopup: Popup
    var effects: seq<Effect>

    /** The initial state of the hooks. */
    constructor ()
      ensures tasks == [] && newTask == [] && taskDate == None && !alertVisible
      ensures completionPopup == Popup(false, None) && effects == []
    {
      tasks := [];
      newTask := [];
      taskDate := None;
      alertVisible := false;
      completionPopup := Popup(false, None);
      effects := [];
    }

    /** The text input's `onChange`. */
    method SetNewTask(text: string)
      modifies this
      ensures newTask == text
      ensures tasks == old(tasks) && taskDate == old(taskDate) && alertVisible == old(alertVisible)
      ensures completionPopup == old(completionPopup) && effects == old(effects)
    {
      newTask := text;
    }

    /** The date input's `onChange`; clearing the field gives `None`. */
    method SetTaskDate(date: Option<int>)
      modifies this
      ensures taskDate == date
      ensures tasks == old(tasks) && newTask == old(newTask) && alertVisible == old(alertVisible)
      ensures completionPopup == old(completionPopup) && effects == old(effects)
    {
      taskDate := date;
    }

    /** `addTask`, with `Date.now()` passed in as `now`: on valid input the task is
        appended and both inputs are cleared, otherwise the browser alert is shown
        and nothing else changes. */
    method AddTask(now: int)
      modifies this
      ensures var outcome := Tasks.AddTask(old(tasks), old(newTask), old(taskDate), now);
              if outcome.Added? then
                tasks == outcome.tasks && newTask == [] && taskDate == None && effects == old(effects)
              else
                tasks == old(tasks) && newTask == old(newTask) && taskDate == old(taskDate)
                && effects == old(effects) + [MissingInputAlert]
      ensures alertVisible == old(alertVisible) && completionPopup == old(completionPopup)
    {
      var outcome := Tasks.AddTask(tasks, newTask, taskDate, now);
      if outcome.Added? {
        tasks := outcome.tasks;
        newTask := [];
        taskDate := None;
      } else {
        effects := effects + [MissingInputAlert];
      }
    }

    /** `deleteTask(id)`: the push service is asked to remove the notification, and
        the task is filtered out whether or not that call fails. */
    method DeleteTask(id: int, removeFails: bool)
      modifies this
      ensures tasks == Delete(old(tasks), id)
      ensures effects == old(effects) + [RemoteRemove(id)] + (if removeFails then [RemoveFailed(id)] else [])
      ensures newTask == old(newTask) && taskDate == old(taskDate) && alertVisible == old(alertVisible)
      ensures completionPopup == old(completionPopup)
    {
      effects := effects + [RemoteRemove(id)];
      if removeFails {
        effects := effects + [RemoveFailed(id)];
      }
      tasks := Delete(tasks, id);
    }

    /** `archiveTask(id)`; no notification is cancelled. */
    method ArchiveTask(id: int)
      modifies this
      ensures tasks == Archive(old(tasks), id)
      ensures newTask == old(newTask) && taskDate == old(taskDate) && alertVisible == old(alertVisible)
      ensures completionPopup == old(completionPopup) && effects == old(effects)
    {
      tasks := Archive(tasks, id);
    }

    /** `completeTask(id)`: only opens the completion question. */
    method CompleteTask(id: int)
      modifies this
      ensures completionPopup == Popup(true, Some(id))
      ensures tasks == old(tasks) && newTask == old(newTask) && taskDate == old(taskDate)
      ensures alertVisible == old(alertVisible) && effects == old(effects)
    {
      completionPopup := Popup(true, Some(id));
    }

    /** `handleCompletionResponse(response)`: the answer is applied to the popup's
        task and the popup is closed, whatever the answer. */
    method HandleCompletionResponse(response: string)
      modifies this
      ensures tasks == Respond(old(tasks), old(completionPopup), response)
      ensures completionPopup == Popup(false, None)
      ensures newTask == old(newTask) && taskDate == old(taskDate)
      ensures alertVisible == old(alertVisible) && effects == old(effects)
    {
      tasks := Respond(tasks, completionPopup, response);
      completionPopup := Popup(false, None);
    }

    /** `resetTasks`: every task is dropped and the reset banner is shown. */
    method ResetTasks()
      modifies this
      ensures tasks == [] && alertVisible
      ensures newTask == old(newTask) && taskDate == old(taskDate)
      ensures completionPopup == old(completionPopup) && effects == old(effects)
    {
      tasks := [];
      alertVisible := true;
    }

    /** The weekly reset effect, mounted at `now`: the delay its timer is given and,
        once the timer fires, the reset. The delay is the one up to the next
        Sunday 00:00; the delay the code computes is `Clock.ResetDelay`. */
    method WeeklyReset(now: int) returns (delay: int)
      modifies this
      ensures 0 < delay <= WeekMs && Weekday(now + delay) == 0 && (now + delay) % DayMs == 0
      ensures tasks == [] && alertVisible
      ensures newTask == old(newTask) && taskDate == old(taskDate)
      ensures completionPopup == old(completionPopup) && effects == old(effects)
    {
      delay := NextWeekResetDelay(now);
      ResetTasks();
    }

    /** One run of the monitoring interval at instant `now`. */
    method Tick(now: int)
      modifies this
      ensures tasks == TickAll(old(tasks), now).tasks
      ensures effects == old(effects) + Sounds(TickAll(old(tasks), now).alerts)
      ensures newTask == old(newTask) && taskDate == old(taskDate)
      ensures alertVisible == old(alertVisible) && completionPopup == old(completionPopup)
    {
      var batch := TickAll(tasks, now);
      tasks := batch.tasks;
      effects := effects + Sounds(batch.alerts);
    }
  }

  /** A task typed into a fresh widget becomes its only task, with the clock
      reading as id and the trimmed text; the first tick keeps its id and due date
      and plays the alert sound at most once, exactly when that instant falls in
      the window of one of the two alerts. */
  method AddThenTick(text: string, date: int, created: int, now: int)
    returns (w: Widget)
    requires !Text.AllSpace(text)
    ensures |w.tasks| == 1
    ensures w.tasks[0].id == created && w.tasks[0].date == date && w.tasks[0].text == Text.Trim(text)
    ensures |w.effects| <= 1
    ensures |w.effects| == 1 <==> exists a :: InWindow(a, w.tasks[0], now)
  {
    w := new Widget();
    w.SetNewTask(text);
    w.SetTaskDate(Some(date));
    w.AddTask(created);
    ghost var added := w.tasks[0];
    w.Tick(now);
    assert TickAll([added], now).tasks == [TickTask(added, now).task];
    assert w.tasks[0] == TickTask(added, now).task;
    assert TickAll([added], now).alerts == (if TickTask(added, now).alert.Some? then [TickTask(added, now).alert.value] else []);
    assert forall a :: InWindow(a, w.tasks[0], now) == InWindow(a, added, now);
  }
}
