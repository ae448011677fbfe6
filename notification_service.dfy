/** `NotificationService` of `src/sendNotification.js`: a permission flag, a table
    of pending reminders kept in `localStorage` under the key `task-<id>`, and a
    deferred callback that shows the reminder only while its entry is still in
    the table. Shown notifications are recorded as values. */
module NotificationService {
  import opened Optional
  import opened Clock
  import opened Tasks
  import Text

  /** The JSON record stored for a pending reminder. */
  datatype Stored = Stored(title: string, body: string, timestamp: int)

  /** A pending `setTimeout` callback: the key it checks, the task text it closes
      over, and the delay it was given. */
  datatype Timer = Timer(key: string, text: string, delay: int)

  /** A notification shown through the service-worker registration; `tag` is the key. */
  datatype Shown = Shown(title: string, body: string, tag: string)

  const ReminderTitle: string := "Task Reminder"

  function ReminderBody(text: string): string
  {
    "Task \"" + text + "\" is due in 1 minute!"
  }

  /** `task-${task.id}`. */
  function Key(id: int): (k: string)
    ensures |k| > 5 && k[..5] == "task-"
  {
    "task-" + Text.IntToDecimal(id)
  }

  /** Different task ids never share an entry. */
  lemma KeyInjective(a: int, b: int)
    requires Key(a) == Key(b)
    ensures a == b
  {
    assert Key(a)[5..] == Text.IntToDecimal(a);
    assert Key(b)[5..] == Text.IntToDecimal(b);
    Text.IntToDecimalInjective(a, b);
  }

  /** Whether `scheduleNotification` stores anything: permission was granted and
      one minute before the due instant is strictly after `now`. */
  predicate Stores(permission: bool, task: Task, now: int)
  {
    permission && (task.date - MinuteMs) - now > 0
  }

  /** The table after `scheduleNotification(task)` at `now`. */
  function Scheduled(storage: map<string, Stored>, permission: bool, task: Task, now: int): (r: map<string, Stored>)
    ensures forall k :: k in r <==> k in storage || (Stores(permission, task, now) && k == Key(task.id))
    ensures forall k :: k in storage && k != Key(task.id) ==> r[k] == storage[k]
    ensures !Stores(permission, task, now) ==> r == storage
    ensures Stores(permission, task, now) ==>
              && r[Key(task.id)].timestamp == task.date - MinuteMs
              && r[Key(task.id)].timestamp > now
              && r[Key(task.id)].body == ReminderBody(task.text)
  {
    if Stores(permission, task, now) then
      storage[Key(task.id) := Stored(ReminderTitle, ReminderBody(task.text), task.date - MinuteMs)]
    else storage
  }

  /** The table after `cancelNotification(id)`. */
  function Cancelled(storage: map<string, Stored>, id: int): (r: map<string, Stored>)
    ensures forall k :: k in r <==> k in storage && k != Key(id)
    ensures forall k :: k in r ==> r[k] == storage[k]
  {
    storage - {Key(id)}
  }

  /** Whether the deferred callback shows its notification: the entry is still
      there, permission is held and the service worker answers. */
  predicate FireShows(storage: map<string, Stored>, permission: bool, timer: Timer, registrationFails: bool)
  {
    timer.key in storage && permission && !registrationFails
  }

  /** The callback looks only at its own key: the other entries and the stored data
      do not decide whether the reminder is shown. */
  lemma FireLooksOnlyAtItsKey(s1: map<string, Stored>, s2: map<string, Stored>, permission: bool, timer: Timer,
                              registrationFails: bool)
    requires (timer.key in s1) == (timer.key in s2)
    ensures FireShows(s1, permission, timer, registrationFails) == FireShows(s2, permission, timer, registrationFails)
  {
  }

  /** Cancelling a task after scheduling it suppresses its reminder. */
  lemma CancelSuppressesFire(storage: map<string, Stored>, permission: bool, task: Task, now: int,
                             registrationFails: bool)
    ensures !FireShows(Cancelled(Scheduled(storage, permission, task, now), task.id), permission,
                       Timer(Key(task.id), task.text, task.date - MinuteMs - now), registrationFails)
  {
  }

  /** Cancelling another task leaves this task's reminder in place. */
  lemma CancelOtherKeepsEntry(storage: map<string, Stored>, permission: bool, task: Task, now: int, other: int)
    requires Stores(permission, task, now) && other != task.id
    ensures var st := Cancelled(Scheduled(storage, permission, task, now), other);
            Key(task.id) in st && st[Key(task.id)] == Stored(ReminderTitle, ReminderBody(task.text), task.date - MinuteMs)
  {
    if Key(other) == Key(task.id) {
      KeyInjective(other, task.id);
    }
  }

  /** Scheduling the same task id twice leaves a single entry, the second one. */
  lemma ScheduleOverwrites(storage: map<string, Stored>, permission: bool, first: Task, second: Task,
                           now1: int, now2: int)
    requires first.id == second.id && Stores(permission, second, now2)
    ensures var st := Scheduled(Scheduled(storage, permission, first, now1), permission, second, now2);
            && st.Keys == storage.Keys + {Key(second.id)}
            && st[Key(second.id)].body == ReminderBody(second.text)
            && st[Key(second.id)].timestamp == second.date - MinuteMs
  {
  }

  /** Cancelling is idempotent, and a no-op on a key that is not there. */
  lemma CancelIdempotent(storage: map<string, Stored>, id: int)
    ensures Cancelled(Cancelled(storage, id), id) == Cancelled(storage, id)
    ensures Key(id) !in storage ==> Cancelled(storage, id) == storage
  {
  }

  class Service {
    var vapidKey: string
    var hasPermission: bool
    /** The `localStorage` entries the service reads and writes. */
    var storage: map<string, Stored>
    var shown: seq<Shown>

    /** `new NotificationService()` before `initialize` has answered; `storage` is
        whatever `localStorage` already holds. */
    constructor (publicKey: string, storage0: map<string, Stored>)
      ensures vapidKey == publicKey && !hasPermission && storage == storage0 && shown == []
    {
      vapidKey := publicKey;
      hasPermission := false;
      storage := storage0;
      shown := [];
    }

    /** `initialize`: `permission` is what `Notification.requestPermission()`
        answers, `None` when it rejects (the error is logged and nothing changes). */
    method Initialize(permission: Option<string>)
      modifies this
      ensures permission.Some? ==> hasPermission == (permission.value == "granted")
      ensures permission.None? ==> hasPermission == old(hasPermission)
      ensures vapidKey == old(vapidKey) && storage == old(storage) && shown == old(shown)
    {
      if permission.Some? {
        hasPermission := permission.value == "granted";
      }
    }

    /** `scheduleNotification(task)` at instant `now`: returns the timer it sets, if any. */
    method ScheduleNotification(task: Task, now: int) returns (timer: Option<Timer>)
      modifies this
      ensures storage == Scheduled(old(storage), hasPermission, task, now)
      ensures timer.Some? <==> Stores(hasPermission, task, now)
      ensures timer.Some? ==> timer.value == Timer(Key(task.id), task.text, task.date - MinuteMs - now)
                              && timer.value.delay > 0
      ensures hasPermission == old(hasPermission) && vapidKey == old(vapidKey) && shown == old(shown)
    {
      timer := None;
      if !hasPermission {
        return;
      }
      var notificationTime := task.date - MinuteMs;
      var timeUntilNotification := notificationTime - now;
      if timeUntilNotification <= 0 {
        return;
      }
      var notificationId := Key(task.id);
      storage := storage[notificationId := Stored(ReminderTitle, ReminderBody(task.text), notificationTime)];
      timer := Some(Timer(notificationId, task.text, timeUntilNotification));
    }

    /** `showNotification(title, body, { tag })`; `registrationFails` says that the
        service worker does not answer, which is logged. */
    method ShowNotification(title: string, body: string, tag: string, registrationFails: bool)
      modifies this
      ensures shown == old(shown) + (if hasPermission && !registrationFails then [Shown(title, body, tag)] else [])
      ensures hasPermission == old(hasPermission) && vapidKey == old(vapidKey) && storage == old(storage)
    {
      if !hasPermission {
        return;
      }
      if !registrationFails {
        shown := shown + [Shown(title, body, tag)];
      }
    }

    /** The deferred callback of a timer: it shows the reminder only if the entry is
        still stored, and leaves the entry where it is. */
    method Fire(timer: Timer, registrationFails: bool)
      modifies this
      ensures shown == old(shown) + (if FireShows(storage, hasPermission, timer, registrationFails)
                                     then [Shown(ReminderTitle, ReminderBody(timer.text), timer.key)] else [])
      ensures storage == old(storage) && hasPermission == old(hasPermission) && vapidKey == old(vapidKey)
    {
      if timer.key !in storage {
        return;
      }
      ShowNotification(ReminderTitle, ReminderBody(timer.text), timer.key, registrationFails);
    }

    /** `cancelNotification(taskId)`. */
    method CancelNotification(taskId: int)
      modifies this
      ensures storage == Cancelled(old(storage), taskId)
      ensures hasPermission == old(hasPermission) && vapidKey == old(vapidKey) && shown == old(shown)
    {
      var notificationId := Key(taskId);
      storage := storage - {notificationId};
    }
  }

  /** Scheduling, cancelling and then letting the timer fire shows nothing. */
  method ScheduleCancelFire(s: Service, task: Task, now: int, registrationFails: bool)
    modifies s
    ensures s.shown == old(s.shown)
    ensures Key(task.id) !in s.storage
  {
    var timer := s.ScheduleNotification(task, now);
    s.CancelNotification(task.id);
    if timer.Some? {
      s.Fire(timer.value, registrationFails);
    }
  }
}
