/** `sendTaskNotification` of `src/OneSignal.js`: which of the three reminders of a
    task are requested from the push service (or, on localhost, from browser
    timers), and what is logged on the way. Requests and log lines are recorded
    as values; nothing is sent. */
module OneSignal {
  import opened Clock
  import opened Tasks

  /** The three reminders of a task, in the order the code considers them. */
  datatype Kind = FiveMinute | OneMinute | Due

  /** How long before the due instant each reminder is sent. */
  function Lead(k: Kind): int
  {
    match k
    case FiveMinute => 5 * MinuteMs
    case OneMinute => MinuteMs
    case Due => 0
  }

  datatype Reminder = Reminder(kind: Kind, sendAt: int)

  /** The candidate reminders of a task due at `due`: `fiveMinBefore`,
      `oneMinuteBefore` and `dueTime`. */
  function Candidates(due: int): (r: seq<Reminder>)
    ensures |r| == 3
    ensures r[0].kind == FiveMinute && r[1].kind == OneMinute && r[2].kind == Due
    ensures forall i :: 0 <= i < 3 ==> r[i].sendAt == due - Lead(r[i].kind)
  {
    [Reminder(FiveMinute, due - Lead(FiveMinute)), Reminder(OneMinute, due - Lead(OneMinute)), Reminder(Due, due)]
  }

  /** The candidates come strictly one after the other. */
  predicate Increasing(cs: seq<Reminder>)
  {
    forall i, j :: 0 <= i < j < |cs| ==> cs[i].sendAt < cs[j].sendAt
  }

  lemma CandidatesIncreasing(due: int)
    ensures Increasing(Candidates(due))
  {
  }

  /** The reminders whose send instant is strictly after `now`, in order. */
  function Upcoming(cs: seq<Reminder>, now: int): (r: seq<Reminder>)
    ensures |r| <= |cs|
  {
    if cs == [] then []
    else (if cs[0].sendAt > now then [cs[0]] else []) + Upcoming(cs[1..], now)
  }

  /** The reminders that are skipped, in order: the ones the "Skipping" lines name. */
  function Passed(cs: seq<Reminder>, now: int): (r: seq<Reminder>)
    ensures |r| <= |cs|
  {
    if cs == [] then []
    else (if cs[0].sendAt <= now then [cs[0]] else []) + Passed(cs[1..], now)
  }

  /** A reminder is requested exactly when it is a candidate whose send instant
      is strictly after `now`. */
  lemma {:induction false} UpcomingMembers(cs: seq<Reminder>, now: int)
    ensures forall x :: x in Upcoming(cs, now) <==> x in cs && x.sendAt > now
  {
    if cs != [] {
      UpcomingMembers(cs[1..], now);
      assert cs == [cs[0]] + cs[1..];
    }
  }

  /** A reminder is skipped exactly when it is a candidate whose send instant is
      at or before `now`. */
  lemma {:induction false} PassedMembers(cs: seq<Reminder>, now: int)
    ensures forall x :: x in Passed(cs, now) <==> x in cs && x.sendAt <= now
  {
    if cs != [] {
      PassedMembers(cs[1..], now);
      assert cs == [cs[0]] + cs[1..];
    }
  }

  /** Whatever their order, the candidates are dealt out between the skipped and the
      requested reminders: each one goes to exactly one of the two lists. */
  lemma {:induction false} PassedUpcomingSplit(cs: seq<Reminder>, now: int)
    ensures multiset(Passed(cs, now)) + multiset(Upcoming(cs, now)) == multiset(cs)
  {
    if cs != [] {
      var tail := cs[1..];
      PassedUpcomingSplit(tail, now);
      assert cs == [cs[0]] + tail;
      if cs[0].sendAt > now {
        assert Passed(cs, now) == Passed(tail, now);
        assert Upcoming(cs, now) == [cs[0]] + Upcoming(tail, now);
      } else {
        assert Passed(cs, now) == [cs[0]] + Passed(tail, now);
        assert Upcoming(cs, now) == Upcoming(tail, now);
      }
    }
  }

  /** When every candidate is still ahead, nothing is skipped and everything is
      requested. */
  lemma {:induction false} AllAhead(cs: seq<Reminder>, now: int)
    requires forall i :: 0 <= i < |cs| ==> cs[i].sendAt > now
    ensures Passed(cs, now) == [] && Upcoming(cs, now) == cs
  {
    if cs != [] {
      AllAhead(cs[1..], now);
      assert cs == [cs[0]] + cs[1..];
    }
  }

  /** The skipped reminders and the requested ones split the candidates: first
      the skipped, then the requested. */
  lemma {:induction false} PassedThenUpcoming(cs: seq<Reminder>, now: int)
    requires Increasing(cs)
    ensures Passed(cs, now) + Upcoming(cs, now) == cs
  {
    if cs == [] {
    } else if cs[0].sendAt > now {
      assert forall i :: 0 <= i < |cs| ==> cs[0].sendAt <= cs[i].sendAt;
      AllAhead(cs, now);
    } else {
      var tail := cs[1..];
      assert Increasing(tail) by {
        forall i, j | 0 <= i < j < |tail| ensures tail[i].sendAt < tail[j].sendAt {
          assert tail[i] == cs[i + 1] && tail[j] == cs[j + 1];
        }
      }
      PassedThenUpcoming(tail, now);
      assert Passed(cs, now) == [cs[0]] + Passed(tail, now);
      assert Upcoming(cs, now) == Upcoming(tail, now);
      assert cs == [cs[0]] + tail;
    }
  }

  /** The requested reminders are always a suffix of the candidates: once one is
      requested, every later one is too. */
  lemma UpcomingIsSuffix(due: int, now: int)
    ensures Upcoming(Candidates(due), now) == Candidates(due)[3 - |Upcoming(Candidates(due), now)|..]
  {
    PassedThenUpcoming(Candidates(due), now);
  }

  /** A task that is already due gets no reminder at all; a task more than five
      minutes away gets all three. */
  lemma DueTaskGetsNothing(due: int, now: int)
    ensures due <= now ==> Upcoming(Candidates(due), now) == []
    ensures due - 5 * MinuteMs > now ==> Upcoming(Candidates(due), now) == Candidates(due)
  {
    UpcomingUnrolled(due, now);
  }

  /** The three guarded comparisons, one after the other. */
  lemma UpcomingUnrolled(due: int, now: int)
    ensures var cs := Candidates(due);
            Upcoming(cs, now)
            == (if cs[0].sendAt > now then [cs[0]] else [])
               + (if cs[1].sendAt > now then [cs[1]] else [])
               + (if cs[2].sendAt > now then [cs[2]] else [])
  {
    var cs := Candidates(due);
    assert cs[1..][1..][1..] == [];
    assert Upcoming(cs[1..][1..], now) == (if cs[2].sendAt > now then [cs[2]] else []);
  }

  // ---------------------------------------------------------------------------
  // Requests and log lines

  function Title(k: Kind): string
  {
    match k
    case FiveMinute => "5-minute Reminder"
    case OneMinute => "1-minute Reminder"
    case Due => "Task Due"
  }

  function Body(k: Kind, text: string): string
  {
    match k
    case FiveMinute => "\U{23F0} Task \"" + text + "\" is coming up in 5 minutes!"
    case OneMinute => "\U{26A0}\U{FE0F} Task \"" + text + "\" is due in 1 minute!"
    case Due => "\U{1F514} Task \"" + text + "\" is now due!"
  }

  /** A reminder handed on: a browser timer showing `new Notification` after
      `delay` ms (localhost), or a POST to the REST API with `send_after`. */
  datatype Request =
    | Timer(kind: Kind, title: string, body: string, delay: int)
    | Rest(kind: Kind, title: string, body: string, sendAt: int, taskId: int)

  datatype Log =
    | NotLoaded                 // "OneSignal is not loaded"
    | NotSubscribed             // "User is not subscribed to notifications"
    | Skipping(kind: Kind)      // "Skipping ... notification"
    | NoNotificationSupport     // "Browser does not support notifications"
    | SendFailed(kind: Kind)    // "Failed to send notification:" on a non-ok response
    | ScheduledOk               // "Notifications scheduled successfully"
    | SchedulingError           // the catch: "Error scheduling notifications:"

  /** What `isPushNotificationsEnabled` answers, or that it rejects. */
  datatype Answer = Yes | No | Rejects

  /** What the page and the push service are like when the function runs. */
  datatype Env = Env(
    loaded: bool,             // `window.OneSignal` is present
    subscribed: Answer,
    localhost: bool,          // `window.location.hostname === 'localhost'`
    notificationApi: bool)    // `'Notification' in window`

  /** What each REST call comes back with. */
  datatype Reply = Ok | NotOk | Throws

  function ToRequest(r: Reminder, task: Task, now: int, localhost: bool): Request
  {
    if localhost then Timer(r.kind, Title(r.kind), Body(r.kind, task.text), r.sendAt - now)
    else Rest(r.kind, Title(r.kind), Body(r.kind, task.text), r.sendAt, task.id)
  }

  /** The requests made for the upcoming reminders, one each, in order. */
  function Requests(rs: seq<Reminder>, task: Task, now: int, localhost: bool): (r: seq<Request>)
    ensures |r| == |rs|
    ensures forall i :: 0 <= i < |rs| ==> r[i] == ToRequest(rs[i], task, now, localhost)
  {
    if rs == [] then [] else [ToRequest(rs[0], task, now, localhost)] + Requests(rs[1..], task, now, localhost)
  }

  function Skips(rs: seq<Reminder>): (r: seq<Log>)
    ensures |r| == |rs|
    ensures forall i :: 0 <= i < |rs| ==> r[i] == Skipping(rs[i].kind)
  {
    if rs == [] then [] else [Skipping(rs[0].kind)] + Skips(rs[1..])
  }

  /** The "Failed to send" lines of the calls that answer with a non-ok status. */
  function Failures(requests: seq<Request>, reply: Kind -> Reply): (r: seq<Log>)
    ensures forall k :: SendFailed(k) in r <==>
              exists i :: 0 <= i < |requests| && requests[i].kind == k && reply(k) == NotOk
    ensures forall e :: e in r ==> e.SendFailed?
  {
    if requests == [] then []
    else
      var rest := Failures(requests[1..], reply);
      var r := (if reply(requests[0].kind) == NotOk then [SendFailed(requests[0].kind)] else []) + rest;
      assert forall k :: SendFailed(k) in rest <==>
               exists i :: 1 <= i < |requests| && requests[i].kind == k && reply(k) == NotOk by {
        forall k ensures SendFailed(k) in rest <==>
               exists i :: 1 <= i < |requests| && requests[i].kind == k && reply(k) == NotOk {
          if SendFailed(k) in rest {
            var i :| 0 <= i < |requests| - 1 && requests[1..][i].kind == k && reply(k) == NotOk;
            assert requests[i + 1].kind == k;
          }
          if exists i :: 1 <= i < |requests| && requests[i].kind == k && reply(k) == NotOk {
            var i :| 1 <= i < |requests| && requests[i].kind == k && reply(k) == NotOk;
            assert requests[1..][i - 1].kind == k;
          }
        }
      }
      r
  }

  /** `Promise.all(promises)` rejects as soon as one call throws. */
  predicate AnyThrows(requests: seq<Request>, reply: Kind -> Reply)
  {
    exists i :: 0 <= i < |requests| && reply(requests[i].kind) == Throws
  }

  /** The three "Skipping" checks, one after the other. */
  lemma SkipsUnrolled(due: int, now: int)
    ensures Skips(Passed(Candidates(due), now))
            == (if due - 5 * MinuteMs <= now then [Skipping(FiveMinute)] else [])
               + (if due - MinuteMs <= now then [Skipping(OneMinute)] else [])
               + (if due <= now then [Skipping(Due)] else [])
  {
    var cs := Candidates(due);
    var a := if cs[0].sendAt <= now then [cs[0]] else [];
    var b := if cs[1].sendAt <= now then [cs[1]] else [];
    var c := if cs[2].sendAt <= now then [cs[2]] else [];
    assert cs[1..][1..][1..] == [];
    assert Passed(cs[1..][1..], now) == c;
    assert Passed(cs, now) == a + b + c;
    SkipsAppend(a + b, c);
    SkipsAppend(a, b);
  }

  lemma {:induction false} SkipsAppend(a: seq<Reminder>, b: seq<Reminder>)
    ensures Skips(a + b) == Skips(a) + Skips(b)
  {
    if a == [] {
      assert a + b == b;
    } else {
      assert (a + b)[1..] == a[1..] + b;
      SkipsAppend(a[1..], b);
    }
  }

  /** The three guarded `push`es (or `setTimeout`s), one after the other. */
  lemma RequestsUnrolled(task: Task, now: int, localhost: bool)
    ensures var cs := Candidates(task.date);
            Requests(Upcoming(cs, now), task, now, localhost)
            == (if cs[0].sendAt > now then [ToRequest(cs[0], task, now, localhost)] else [])
               + (if cs[1].sendAt > now then [ToRequest(cs[1], task, now, localhost)] else [])
               + (if cs[2].sendAt > now then [ToRequest(cs[2], task, now, localhost)] else [])
  {
    var cs := Candidates(task.date);
    var a := if cs[0].sendAt > now then [cs[0]] else [];
    var b := if cs[1].sendAt > now then [cs[1]] else [];
    var c := if cs[2].sendAt > now then [cs[2]] else [];
    UpcomingUnrolled(task.date, now);
    RequestsAppend(a + b, c, task, now, localhost);
    RequestsAppend(a, b, task, now, localhost);
  }

  lemma {:induction false} RequestsAppend(a: seq<Reminder>, b: seq<Reminder>, task: Task, now: int, localhost: bool)
    ensures Requests(a + b, task, now, localhost) == Requests(a, task, now, localhost) + Requests(b, task, now, localhost)
  {
    if a == [] {
      assert a + b == b;
    } else {
      assert (a + b)[1..] == a[1..] + b;
      RequestsAppend(a[1..], b, task, now, localhost);
    }
  }

  /** The three "Skipping" checks: they only log. */
  method LogSkipped(task: Task, now: int) returns (log: seq<Log>)
    ensures log == Skips(Passed(Candidates(task.date), now))
  {
    var taskTime := task.date;
    var fiveMinBefore := taskTime - 5 * MinuteMs;
    var oneMinuteBefore := taskTime - MinuteMs;
    var dueTime := taskTime;
    log := [];
    if fiveMinBefore <= now {
      log := log + [Skipping(FiveMinute)];
    }
    if oneMinuteBefore <= now {
      log := log + [Skipping(OneMinute)];
    }
    if dueTime <= now {
      log := log + [Skipping(Due)];
    }
    SkipsUnrolled(task.date, now);
  }

  /** The localhost branch when the browser has `Notification`: one `setTimeout`
      per reminder still ahead, with the time left as its delay. */
  method SetTimers(task: Task, now: int) returns (timers: seq<Request>)
    ensures timers == Requests(Upcoming(Candidates(task.date), now), task, now, true)
  {
    var taskTime := task.date;
    var fiveMinBefore := taskTime - 5 * MinuteMs;
    var oneMinuteBefore := taskTime - MinuteMs;
    var dueTime := taskTime;
    ghost var cs := Candidates(task.date);
    timers := [];
    if fiveMinBefore > now {
      timers := timers + [Timer(FiveMinute, Title(FiveMinute), Body(FiveMinute, task.text), fiveMinBefore - now)];
    }
    assert timers == (if cs[0].sendAt > now then [ToRequest(cs[0], task, now, true)] else []);
    ghost var first := timers;
    if oneMinuteBefore > now {
      timers := timers + [Timer(OneMinute, Title(OneMinute), Body(OneMinute, task.text), oneMinuteBefore - now)];
    }
    assert timers == first + (if cs[1].sendAt > now then [ToRequest(cs[1], task, now, true)] else []);
    ghost var second := timers;
    if dueTime > now {
      timers := timers + [Timer(Due, Title(Due), Body(Due, task.text), dueTime - now)];
    }
    assert timers == second + (if cs[2].sendAt > now then [ToRequest(cs[2], task, now, true)] else []);
    RequestsUnrolled(task, now, true);
  }

  /** The production branch: one `sendNotificationViaRest` promise pushed per
      reminder still ahead, in the order 5-minute, 1-minute, due. */
  method PushRestCalls(task: Task, now: int) returns (promises: seq<Request>)
    ensures promises == Requests(Upcoming(Candidates(task.date), now), task, now, false)
  {
    var taskTime := task.date;
    var fiveMinBefore := taskTime - 5 * MinuteMs;
    var oneMinuteBefore := taskTime - MinuteMs;
    var dueTime := taskTime;
    ghost var cs := Candidates(task.date);
    promises := [];
    if fiveMinBefore > now {
      promises := promises + [Rest(FiveMinute, Title(FiveMinute), Body(FiveMinute, task.text), fiveMinBefore, task.id)];
    }
    assert promises == (if cs[0].sendAt > now then [ToRequest(cs[0], task, now, false)] else []);
    ghost var first := promises;
    if oneMinuteBefore > now {
      promises := promises + [Rest(OneMinute, Title(OneMinute), Body(OneMinute, task.text), oneMinuteBefore, task.id)];
    }
    assert promises == first + (if cs[1].sendAt > now then [ToRequest(cs[1], task, now, false)] else []);
    ghost var second := promises;
    if dueTime > now {
      promises := promises + [Rest(Due, Title(Due), Body(Due, task.text), dueTime, task.id)];
    }
    assert promises == second + (if cs[2].sendAt > now then [ToRequest(cs[2], task, now, false)] else []);
    RequestsUnrolled(task, now, false);
  }

  /** `sendTaskNotification(task)` run at instant `now` in environment `env`;
      `reply` says how the REST API answers each reminder. Every failure ends in
      a log line; nothing is thrown to the caller. */
  method SendTaskNotification(env: Env, task: Task, now: int, reply: Kind -> Reply)
    returns (requests: seq<Request>, log: seq<Log>)
    ensures !env.loaded ==> requests == [] && log == [NotLoaded]
    ensures env.loaded && env.subscribed == No ==> requests == [] && log == [NotSubscribed]
    ensures env.loaded && env.subscribed == Rejects ==> requests == [] && log == [SchedulingError]
    ensures env.loaded && env.subscribed == Yes && env.localhost ==>
              && requests == (if env.notificationApi then Requests(Upcoming(Candidates(task.date), now), task, now, true)
                              else [])
              && log == Skips(Passed(Candidates(task.date), now))
                        + (if env.notificationApi then [] else [NoNotificationSupport])
    ensures env.loaded && env.subscribed == Yes && !env.localhost ==>
              && requests == Requests(Upcoming(Candidates(task.date), now), task, now, false)
              && log == Skips(Passed(Candidates(task.date), now)) + Failures(requests, reply)
                        + [if AnyThrows(requests, reply) then SchedulingError else ScheduledOk]
  {
    requests := [];
    if !env.loaded {
      log := [NotLoaded];
      return;
    }
    match env.subscribed
    case Rejects =>
      log := [SchedulingError];
    case No =>
      log := [NotSubscribed];
    case Yes =>
      log := LogSkipped(task, now);
      if env.localhost {
        if env.notificationApi {
          requests := SetTimers(task, now);
        } else {
          log := log + [NoNotificationSupport];
        }
      } else {
        requests := PushRestCalls(task, now);
        // await Promise.all(promises): every call is made; a non-ok answer is
        // logged by the call itself, a thrown error ends in the catch.
        log := log + Failures(requests, reply);
        if AnyThrows(requests, reply) {
          log := log + [SchedulingError];
        } else {
          log := log + [ScheduledOk];
        }
      }
  }

  /** On localhost every timer is set with a strictly positive delay, and each
      delay is exactly the time left until its send instant. */
  lemma TimerDelaysPositive(task: Task, now: int, i: int)
    requires 0 <= i < |Requests(Upcoming(Candidates(task.date), now), task, now, true)|
    ensures var r := Requests(Upcoming(Candidates(task.date), now), task, now, true)[i];
            r.Timer? && r.delay > 0 && now + r.delay == task.date - Lead(r.kind)
  {
    var ups := Upcoming(Candidates(task.date), now);
    UpcomingMembers(Candidates(task.date), now);
    assert ups[i] in ups;
  }

  /** In production every REST request is for a send instant strictly after `now`,
      carries the task's id, and the requests keep the order 5-minute, 1-minute, due. */
  lemma RestRequestsInFuture(task: Task, now: int, i: int)
    requires 0 <= i < |Requests(Upcoming(Candidates(task.date), now), task, now, false)|
    ensures var rs := Requests(Upcoming(Candidates(task.date), now), task, now, false);
            && rs[i].Rest? && rs[i].sendAt > now && rs[i].taskId == task.id
            && rs[i].sendAt == task.date - Lead(rs[i].kind)
            && forall j :: i < j < |rs| ==> rs[j].Rest? && rs[i].sendAt < rs[j].sendAt
  {
    UpcomingInOrder(task.date, now, i);
  }

  /** The `i`-th requested reminder is ahead of `now`, at its lead before the due
      instant, and before every later requested reminder. */
  lemma UpcomingInOrder(due: int, now: int, i: int)
    requires 0 <= i < |Upcoming(Candidates(due), now)|
    ensures var ups := Upcoming(Candidates(due), now);
            && ups[i].sendAt > now && ups[i].sendAt == due - Lead(ups[i].kind)
            && forall j :: i < j < |ups| ==> ups[i].sendAt < ups[j].sendAt
  {
    var cs := Candidates(due);
    var ups := Upcoming(cs, now);
    UpcomingIsSuffix(due, now);
    var k := 3 - |ups|;
    assert ups[i] == cs[k + i];
    assert forall j :: i < j < |ups| ==> ups[j] == cs[k + j];
    UpcomingMembers(cs, now);
    assert ups[i] in ups;
  }

  /** The "Skipping" checks only log: whether a reminder is skipped or requested is
      decided by the same comparison, so each of the three is one or the other. */
  lemma SkippedOrRequested(due: int, now: int, k: Kind)
    ensures (Skipping(k) in Skips(Passed(Candidates(due), now)))
            != (exists r :: r in Upcoming(Candidates(due), now) && r.kind == k)
  {
    var cs := Candidates(due);
    var c := match k case FiveMinute => cs[0] case OneMinute => cs[1] case Due => cs[2];
    assert c in cs && c.kind == k;
    assert forall r :: r in cs && r.kind == k ==> r == c;
    SkipsMembers(Passed(cs, now), k);
    PassedMembers(cs, now);
    UpcomingMembers(cs, now);
    if c.sendAt <= now {
      assert c in Passed(cs, now);
    } else {
      assert c in Upcoming(cs, now);
    }
  }

  /** A "Skipping" line names a kind exactly when a skipped reminder has that kind. */
  lemma SkipsMembers(rs: seq<Reminder>, k: Kind)
    ensures Skipping(k) in Skips(rs) <==> exists r :: r in rs && r.kind == k
  {
    if Skipping(k) in Skips(rs) {
      var i :| 0 <= i < |rs| && Skips(rs)[i] == Skipping(k);
      assert rs[i] in rs;
    }
    if exists r :: r in rs && r.kind == k {
      var r :| r in rs && r.kind == k;
      var i :| 0 <= i < |rs| && rs[i] == r;
      assert Skips(rs)[i] == Skipping(k);
    }
  }
}
