/** The one-second monitoring tick of `src/App.js`: each task is mapped through
    one transition that may raise the five-minute or the one-minute alert, sets
    the clock icon, and lets the shaking stop once the task is due. */
module Tick {
  import opened Clock
  import opened Optional
  import opened Tasks

  /** The two alerts the tick raises; each one plays the alert sound once. */
  datatype Alert = FiveMinute | OneMinute

  /** The flag that records that an alert has been played for a task. */
  predicate Played(a: Alert, t: Task)
  {
    match a
    case FiveMinute => t.alertPlayed5Min
    case OneMinute => t.alertPlayed
  }

  /** When an alert is due: the task is due today and the time remaining is in
      (4 min, 5 min] for the five-minute alert, in (0, 1 min] for the one-minute one. */
  predicate InWindow(a: Alert, t: Task, now: int)
  {
    var remaining := t.date - now;
    && IsToday(t.date, now)
    && match a
       case FiveMinute => 4 * MinuteMs < remaining <= 5 * MinuteMs
       case OneMinute => 0 < remaining <= MinuteMs
  }

  /** The result of one task's transition and the alert it raised, if any. */
  datatype Step = Step(task: Task, alert: Option<Alert>)

  /** The callback passed to `prevTasks.map` in the interval effect. */
  function TickTask(t: Task, now: int): (r: Step)
    ensures r.task.id == t.id && r.task.text == t.text && r.task.date == t.date
    ensures r.task.archived == t.archived && r.task.completed == t.completed
    ensures forall a :: r.alert == Some(a) <==> InWindow(a, t, now) && !Played(a, t)
    ensures forall a :: Played(a, r.task) <==> Played(a, t) || r.alert == Some(a)
    ensures r.task.showClockIcon
            == (t.showClockIcon || ((IsToday(t.date, now) || IsFuture(t.date, now)) && !t.archived && !t.completed))
    ensures r.task.isShaking <==> r.alert == Some(OneMinute) || (t.isShaking && t.date - now > 0)
  {
    var remaining := t.date - now;
    var t1 := if (IsToday(t.date, now) || IsFuture(t.date, now)) && !t.archived && !t.completed
              then t.(showClockIcon := true) else t;
    if IsToday(t.date, now) && remaining <= 5 * MinuteMs && remaining > 4 * MinuteMs && !t1.alertPlayed5Min then
      Step(t1.(alertPlayed5Min := true), Some(FiveMinute))
    else if IsToday(t.date, now) && remaining <= MinuteMs && remaining > 0 && !t1.alertPlayed then
      Step(t1.(alertPlayed := true, isShaking := true), Some(OneMinute))
    else if t1.isShaking && remaining > 0 then
      Step(t1, None)
    else if t1.isShaking && remaining <= 0 then
      Step(t1.(isShaking := false), None)
    else
      Step(t1, None)
  }

  /** The alert branches read neither `archived` nor `completed`: an archived or
      completed task still raises its alerts. */
  lemma AlertsIgnoreLifecycle(t: Task, now: int, archived: bool, completed: bool)
    ensures TickTask(t.(archived := archived, completed := completed), now).alert == TickTask(t, now).alert
  {
    var u := t.(archived := archived, completed := completed);
    assert forall a :: InWindow(a, u, now) == InWindow(a, t, now) && Played(a, u) == Played(a, t);
    if TickTask(t, now).alert.Some? {
      var a := TickTask(t, now).alert.value;
      assert TickTask(u, now).alert == Some(a);
    } else {
      assert forall a :: !(InWindow(a, t, now) && !Played(a, t));
    }
  }

  // ---------------------------------------------------------------------------
  // One tick over the whole list

  /** The new list and the alerts raised, in list order. */
  datatype Batch = Batch(tasks: seq<Task>, alerts: seq<Alert>)

  /** `prevTasks.map(...)` for one tick at instant `now`. */
  function TickAll(tasks: seq<Task>, now: int): (r: Batch)
    ensures |r.tasks| == |tasks| && |r.alerts| <= |tasks|
    ensures forall i :: 0 <= i < |tasks| ==> r.tasks[i] == TickTask(tasks[i], now).task
    ensures Ids(r.tasks) == Ids(tasks)
  {
    if tasks == [] then Batch([], [])
    else
      var s := TickTask(tasks[0], now);
      var rest := TickAll(tasks[1..], now);
      Batch([s.task] + rest.tasks, (if s.alert.Some? then [s.alert.value] else []) + rest.alerts)
  }

  /** Every alert one tick sounds is raised by some task, whose index is returned. */
  lemma {:induction false} TickAllAlertSource(tasks: seq<Task>, now: int, a: Alert) returns (i: nat)
    requires a in TickAll(tasks, now).alerts
    ensures i < |tasks| && TickTask(tasks[i], now).alert == Some(a)
  {
    var head := TickTask(tasks[0], now).alert;
    if head == Some(a) {
      i := 0;
    } else {
      var rest := tasks[1..];
      assert a in TickAll(rest, now).alerts;
      var j := TickAllAlertSource(rest, now, a);
      i := j + 1;
      assert tasks[i] == rest[j];
    }
  }

  /** Every alert a task raises is sounded by the tick. */
  lemma {:induction false} TickAllAlertSounded(tasks: seq<Task>, now: int, i: nat)
    requires i < |tasks| && TickTask(tasks[i], now).alert.Some?
    ensures TickTask(tasks[i], now).alert.value in TickAll(tasks, now).alerts
  {
    if i > 0 {
      var rest := tasks[1..];
      assert rest[i - 1] == tasks[i];
      TickAllAlertSounded(rest, now, i - 1);
    }
  }

  /** The values of the `Some` entries, in order. */
  function Raised(xs: seq<Option<Alert>>): seq<Alert>
  {
    if xs == [] then [] else (if xs[0].Some? then [xs[0].value] else []) + Raised(xs[1..])
  }

  /** Each task's alert, position by position. */
  function AlertsByTask(tasks: seq<Task>, now: int): (r: seq<Option<Alert>>)
    ensures |r| == |tasks| && forall i :: 0 <= i < |tasks| ==> r[i] == TickTask(tasks[i], now).alert
  {
    seq(|tasks|, i requires 0 <= i < |tasks| => TickTask(tasks[i], now).alert)
  }

  lemma {:induction false} TickAllRaised(tasks: seq<Task>, now: int)
    ensures TickAll(tasks, now).alerts == Raised(AlertsByTask(tasks, now))
  {
    if tasks != [] {
      TickAllRaised(tasks[1..], now);
      assert AlertsByTask(tasks, now)[1..] == AlertsByTask(tasks[1..], now);
    }
  }

  function Shift(j: seq<nat>): (r: seq<nat>)
    ensures |r| == |j| && forall k :: 0 <= k < |j| ==> r[k] == j[k] + 1
  {
    seq(|j|, k requires 0 <= k < |j| => j[k] + 1)
  }

  /** The positions of the `Some` entries of `xs`, in order. */
  function Origins(xs: seq<Option<Alert>>): (idx: seq<nat>)
    ensures |idx| == |Raised(xs)|
  {
    if xs == [] then [] else (if xs[0].Some? then [0] else []) + Shift(Origins(xs[1..]))
  }

  /** The `k`-th raised alert is the entry at the `k`-th origin. */
  lemma {:induction false} OriginsPoint(xs: seq<Option<Alert>>, k: nat)
    requires k < |Origins(xs)|
    ensures Origins(xs)[k] < |xs| && xs[Origins(xs)[k]] == Some(Raised(xs)[k])
  {
    var pre := if xs[0].Some? then 1 else 0;
    if k >= pre {
      var rest := xs[1..];
      OriginsPoint(rest, k - pre);
      assert Origins(xs)[k] == Origins(rest)[k - pre] + 1;
      assert Raised(xs)[k] == Raised(rest)[k - pre];
    }
  }

  lemma {:induction false} OriginsIncreasing(xs: seq<Option<Alert>>, k: nat, l: nat)
    requires k < l < |Origins(xs)|
    ensures Origins(xs)[k] < Origins(xs)[l]
  {
    var rest := xs[1..];
    var o := Origins(rest);
    var pre: seq<nat> := if xs[0].Some? then [0] else [];
    assert Origins(xs) == pre + Shift(o);
    assert Origins(xs)[l] == o[l - |pre|] + 1;
    if k >= |pre| {
      OriginsIncreasing(rest, k - |pre|, l - |pre|);
      assert Origins(xs)[k] == o[k - |pre|] + 1;
    } else {
      assert Origins(xs)[k] == 0;
    }
  }

  /** Every `Some` entry is an origin. */
  lemma {:induction false} OriginsCover(xs: seq<Option<Alert>>, i: nat) returns (k: nat)
    requires i < |xs| && xs[i].Some?
    ensures k < |Origins(xs)| && Origins(xs)[k] == i
  {
    var rest := xs[1..];
    var pre: seq<nat> := if xs[0].Some? then [0] else [];
    if i == 0 {
      k := 0;
    } else {
      assert rest[i - 1] == xs[i];
      var m := OriginsCover(rest, i - 1);
      assert Origins(xs) == pre + Shift(Origins(rest));
      k := m + |pre|;
    }
  }

  /** The alerts of one tick are exactly the alerts of the alerting tasks, one per
      task and in list order: the returned indices are the alerting tasks, increasing. */
  lemma TickAllAlertOrigins(tasks: seq<Task>, now: int) returns (idx: seq<nat>)
    ensures |idx| == |TickAll(tasks, now).alerts|
    ensures forall k :: 0 <= k < |idx| ==>
              idx[k] < |tasks| && TickTask(tasks[idx[k]], now).alert == Some(TickAll(tasks, now).alerts[k])
    ensures forall k, l :: 0 <= k < l < |idx| ==> idx[k] < idx[l]
    ensures forall i :: 0 <= i < |tasks| && TickTask(tasks[i], now).alert.Some? ==> i in idx
  {
    var xs := AlertsByTask(tasks, now);
    TickAllRaised(tasks, now);
    idx := Origins(xs);
    forall k | 0 <= k < |idx| {
      OriginsPoint(xs, k);
    }
    forall k, l | 0 <= k < l < |idx| {
      OriginsIncreasing(xs, k, l);
    }
    forall i | 0 <= i < |tasks| && TickTask(tasks[i], now).alert.Some?
      ensures i in idx
    {
      var k := OriginsCover(xs, i);
    }
  }

  // ---------------------------------------------------------------------------
  // Successive ticks of one task

  /** The task after a run of ticks and every alert raised along the way. */
  datatype Trace = Trace(task: Task, alerts: seq<Alert>)

  function Run(t: Task, nows: seq<int>): Trace
    decreases |nows|
  {
    if nows == [] then Trace(t, [])
    else
      var s := TickTask(t, nows[0]);
      var rest := Run(s.task, nows[1..]);
      Trace(rest.task, (if s.alert.Some? then [s.alert.value] else []) + rest.alerts)
  }

  /** Ticks never change what the task is, and never clear an alert flag. */
  lemma {:induction false} RunKeepsTask(t: Task, nows: seq<int>)
    ensures var u := Run(t, nows).task;
            u.id == t.id && u.text == t.text && u.date == t.date
            && u.archived == t.archived && u.completed == t.completed
    ensures forall a :: Played(a, t) ==> Played(a, Run(t, nows).task)
    ensures t.showClockIcon ==> Run(t, nows).task.showClockIcon
    decreases |nows|
  {
    if nows != [] {
      RunKeepsTask(TickTask(t, nows[0]).task, nows[1..]);
    }
  }

  /** Each alert sounds at most once over any run of ticks, and never once its flag is set. */
  lemma {:induction false} AlertAtMostOnce(a: Alert, t: Task, nows: seq<int>)
    ensures multiset(Run(t, nows).alerts)[a] <= if Played(a, t) then 0 else 1
    decreases |nows|
  {
    if nows != [] {
      var s := TickTask(t, nows[0]);
      AlertAtMostOnce(a, s.task, nows[1..]);
    }
  }

  /** A tick inside the window of an alert that has not sounded yet makes it sound. */
  lemma {:induction false} AlertFiresInWindow(a: Alert, t: Task, nows: seq<int>, k: int)
    requires 0 <= k < |nows| && !Played(a, t) && InWindow(a, t, nows[k])
    ensures a in Run(t, nows).alerts
    decreases |nows|
  {
    var s := TickTask(t, nows[0]);
    if k > 0 && s.alert != Some(a) {
      assert InWindow(a, s.task, nows[1..][k - 1]);
      AlertFiresInWindow(a, s.task, nows[1..], k - 1);
    }
  }

  /** An alert whose window no tick falls in never sounds: a task created less
      than four minutes before it is due never gets the five-minute alert. */
  lemma {:induction false} AlertSilentOutsideWindow(a: Alert, t: Task, nows: seq<int>)
    requires forall k :: 0 <= k < |nows| ==> !InWindow(a, t, nows[k])
    ensures a !in Run(t, nows).alerts
    decreases |nows|
  {
    if nows != [] {
      var s := TickTask(t, nows[0]);
      assert forall k :: 0 <= k < |nows| - 1 ==> !InWindow(a, s.task, nows[1..][k]) by {
        forall k | 0 <= k < |nows| - 1 ensures !InWindow(a, s.task, nows[1..][k]) {
          assert nows[1..][k] == nows[k + 1];
        }
      }
      AlertSilentOutsideWindow(a, s.task, nows[1..]);
    }
  }

  /** Answering "no" to the completion question silences the one-minute alert of
      that task for good. */
  lemma DeclineSilencesOneMinute(tasks: seq<Task>, popup: Popup, i: int, nows: seq<int>)
    requires 0 <= i < |tasks| && HasTask(popup) && tasks[i].id == popup.taskId.value
    ensures OneMinute !in Run(Respond(tasks, popup, "no")[i], nows).alerts
  {
    RespondEffect(tasks, popup, "no", i);
    AlertAtMostOnce(OneMinute, Respond(tasks, popup, "no")[i], nows);
  }

  /** A task observed once in each window, five minutes and one minute before it is
      due on the same day, sounds the five-minute alert and then the one-minute one. */
  lemma FiveThenOne(t: Task)
    requires !t.alertPlayed5Min && !t.alertPlayed
    requires IsToday(t.date, t.date - 5 * MinuteMs)
    ensures Run(t, [t.date - 5 * MinuteMs, t.date - MinuteMs]).alerts == [FiveMinute, OneMinute]
  {
    var n1, n2 := t.date - 5 * MinuteMs, t.date - MinuteMs;
    DayOfMonotone(n1, n2);
    DayOfMonotone(n2, t.date);
    var s1 := TickTask(t, n1);
    assert s1.alert == Some(FiveMinute);
    var s2 := TickTask(s1.task, n2);
    assert s2.alert == Some(OneMinute);
    assert [n1, n2][1..] == [n2];
    assert [n2][1..] == [];
    assert Run(s1.task, [n2]).alerts == [OneMinute];
  }

  lemma {:induction false} AlertCounts(s: seq<Alert>)
    ensures |s| == multiset(s)[FiveMinute] + multiset(s)[OneMinute]
  {
    if s != [] {
      AlertCounts(s[1..]);
      assert s == [s[0]] + s[1..];
      assert multiset(s) == multiset{s[0]} + multiset(s[1..]);
      if s[0] == FiveMinute {
        assert multiset(s)[FiveMinute] == multiset(s[1..])[FiveMinute] + 1;
        assert multiset(s)[OneMinute] == multiset(s[1..])[OneMinute];
      } else {
        assert multiset(s)[OneMinute] == multiset(s[1..])[OneMinute] + 1;
        assert multiset(s)[FiveMinute] == multiset(s[1..])[FiveMinute];
      }
    }
  }

  /** A task sounds at most twice over any run of ticks: once per alert. */
  lemma RunSoundsAtMostTwice(t: Task, nows: seq<int>)
    ensures |Run(t, nows).alerts| <= 2
  {
    AlertCounts(Run(t, nows).alerts);
    AlertAtMostOnce(FiveMinute, t, nows);
    AlertAtMostOnce(OneMinute, t, nows);
  }

  // ---------------------------------------------------------------------------
  // Successive ticks of the whole list

  /** The list after one tick at each instant of `nows`, and every alert sounded. */
  function TickRuns(tasks: seq<Task>, nows: seq<int>): Batch
    decreases |nows|
  {
    if nows == [] then Batch(tasks, [])
    else
      var b := TickAll(tasks, nows[0]);
      var rest := TickRuns(b.tasks, nows[1..]);
      Batch(rest.tasks, b.alerts + rest.alerts)
  }

  /** Successive ticks of the list act on each task as that task's own run of ticks:
      the properties proved about `Run` hold for every task of the list. */
  lemma {:induction false} TickRunsPerTask(tasks: seq<Task>, nows: seq<int>, i: nat)
    requires i < |tasks|
    ensures |TickRuns(tasks, nows).tasks| == |tasks|
    ensures TickRuns(tasks, nows).tasks[i] == Run(tasks[i], nows).task
    decreases |nows|
  {
    if nows != [] {
      var b := TickAll(tasks, nows[0]);
      TickRunsPerTask(b.tasks, nows[1..], i);
    }
  }

  /** The sounds of every task's own run, added up over the list. */
  function SumLen(tasks: seq<Task>, nows: seq<int>): nat
  {
    if tasks == [] then 0 else |Run(tasks[0], nows).alerts| + SumLen(tasks[1..], nows)
  }

  lemma {:induction false} SumLenStep(tasks: seq<Task>, n: int, ns: seq<int>)
    ensures SumLen(tasks, [n] + ns) == |TickAll(tasks, n).alerts| + SumLen(TickAll(tasks, n).tasks, ns)
  {
    if tasks != [] {
      var b := TickAll(tasks, n);
      var s := TickTask(tasks[0], n);
      SumLenStep(tasks[1..], n, ns);
      assert ([n] + ns)[1..] == ns;
      assert b.tasks[1..] == TickAll(tasks[1..], n).tasks;
      assert b.tasks[0] == s.task;
      assert |Run(tasks[0], [n] + ns).alerts|
             == (if s.alert.Some? then 1 else 0) + |Run(s.task, ns).alerts|;
    }
  }

  /** What successive ticks of the list sound is, in number, what the tasks' own
      runs sound together. */
  lemma {:induction false} TickRunsCount(tasks: seq<Task>, nows: seq<int>)
    ensures |TickRuns(tasks, nows).alerts| == SumLen(tasks, nows)
    decreases |nows|
  {
    if nows == [] {
      SumLenNone(tasks, nows);
    } else {
      var b := TickAll(tasks, nows[0]);
      TickRunsCount(b.tasks, nows[1..]);
      SumLenStep(tasks, nows[0], nows[1..]);
      assert [nows[0]] + nows[1..] == nows;
    }
  }

  lemma {:induction false} SumLenNone(tasks: seq<Task>, nows: seq<int>)
    requires nows == []
    ensures SumLen(tasks, nows) == 0
  {
    if tasks != [] {
      SumLenNone(tasks[1..], nows);
    }
  }

  lemma {:induction false} SumLenBound(tasks: seq<Task>, nows: seq<int>)
    ensures SumLen(tasks, nows) <= 2 * |tasks|
  {
    if tasks != [] {
      RunSoundsAtMostTwice(tasks[0], nows);
      SumLenBound(tasks[1..], nows);
    }
  }

  /** However long the interval runs, the list sounds at most twice per task. */
  lemma TickRunsSoundsAtMostTwicePerTask(tasks: seq<Task>, nows: seq<int>)
    ensures |TickRuns(tasks, nows).alerts| <= 2 * |tasks|
  {
    TickRunsCount(tasks, nows);
    SumLenBound(tasks, nows);
  }
}
