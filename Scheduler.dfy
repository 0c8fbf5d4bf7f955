/** The pending-alarm table behind `ReminderScheduler`
    (app/.../reminder/ReminderScheduler.kt). Every alarm is registered
    through a `PendingIntent` whose request code is `itemId.hashCode()` and
    whose intent differs only in its extras, so the system keeps at most one
    alarm per request code: a new `schedule` replaces the old alarm in that
    slot, and `cancel` empties it. */
module Scheduler {
  import opened Strings
  import opened Items

  /** The extras an alarm carries, and its trigger time. */
  datatype Alarm = Alarm(itemId: string, title: string, whenAt: int, deleteAfter: bool, itemLabel: Option<string>)

  function AfterSchedule(slots: map<int, Alarm>, hash: string -> int, a: Alarm): map<int, Alarm>
  {
    slots[hash(a.itemId) := a]
  }

  function AfterCancel(slots: map<int, Alarm>, hash: string -> int, itemId: string): map<int, Alarm>
  {
    slots - {hash(itemId)}
  }

  /** The alarm pending for `itemId`: the one in its slot, if it was
      scheduled for that id. */
  function Pending(slots: map<int, Alarm>, hash: string -> int, itemId: string): (r: Option<Alarm>)
    ensures r.Some? ==> r.value.itemId == itemId
  {
    var h := hash(itemId);
    if h in slots && slots[h].itemId == itemId then Some(slots[h]) else None
  }

  /** The title the callers pass: the first 80 characters of the cleaned
      text, else of the text, else "Reminder". */
  function ReminderTitle(it: Item): (title: string)
    ensures Utf16Length(title) <= 80
    ensures it.cleanedText.Some? ==> StartsWith(it.cleanedText.value, title)
    ensures it.cleanedText.None? && it.text.Some? ==> StartsWith(it.text.value, title)
    ensures it.cleanedText.None? && it.text.None? ==> title == "Reminder"
  {
    if it.cleanedText.Some? then Take(it.cleanedText.value, 80)
    else if it.text.Some? then Take(it.text.value, 80)
    else "Reminder"
  }

  class AlarmTable {
    /** Request code to the alarm registered under it. */
    var slots: map<int, Alarm>
    /** `String.hashCode`. */
    const hash: string -> int

    constructor(hash: string -> int)
      ensures slots == map[] && this.hash == hash
    {
      slots := map[];
      this.hash := hash;
    }

    function PendingFor(itemId: string): Option<Alarm>
      reads this
    {
      Pending(slots, hash, itemId)
    }

    /** `schedule`: one exact alarm at `whenAt` in the slot `hash(itemId)`. */
    method Schedule(itemId: string, title: string, whenAt: int, deleteAfter: bool, itemLabel: Option<string>)
      modifies this
      ensures slots == AfterSchedule(old(slots), hash, Alarm(itemId, title, whenAt, deleteAfter, itemLabel))
      ensures PendingFor(itemId) == Some(Alarm(itemId, title, whenAt, deleteAfter, itemLabel))
    {
      slots := slots[hash(itemId) := Alarm(itemId, title, whenAt, deleteAfter, itemLabel)];
    }

    /** `cancel`: empties the slot `hash(itemId)`. */
    method Cancel(itemId: string)
      modifies this
      ensures slots == AfterCancel(old(slots), hash, itemId)
      ensures PendingFor(itemId).None?
    {
      slots := slots - {hash(itemId)};
    }
  }

  /** A later `schedule` for the same id replaces the earlier alarm: at most
      one alarm is pending per id. */
  lemma ScheduleReplaces(slots: map<int, Alarm>, hash: string -> int, a: Alarm, b: Alarm)
    requires a.itemId == b.itemId
    ensures AfterSchedule(AfterSchedule(slots, hash, a), hash, b) == AfterSchedule(slots, hash, b)
    ensures Pending(AfterSchedule(AfterSchedule(slots, hash, a), hash, b), hash, a.itemId) == Some(b)
  {
  }

  /** `cancel` is idempotent, and a no-op when the slot is empty. */
  lemma CancelIdempotent(slots: map<int, Alarm>, hash: string -> int, itemId: string)
    ensures AfterCancel(AfterCancel(slots, hash, itemId), hash, itemId) == AfterCancel(slots, hash, itemId)
    ensures hash(itemId) !in slots ==> AfterCancel(slots, hash, itemId) == slots
  {
  }

  /** `schedule` and `cancel` touch no other slot. */
  lemma OtherSlotsUnchanged(slots: map<int, Alarm>, hash: string -> int, a: Alarm, itemId: string, h: int)
    ensures h != hash(a.itemId) ==>
      (h in AfterSchedule(slots, hash, a) <==> h in slots)
      && (h in slots ==> AfterSchedule(slots, hash, a)[h] == slots[h])
    ensures h != hash(itemId) ==>
      (h in AfterCancel(slots, hash, itemId) <==> h in slots)
      && (h in slots ==> AfterCancel(slots, hash, itemId)[h] == slots[h])
  {
  }

  /** Two ids with the same hash share one slot: scheduling one drops the
      other's pending alarm, and cancelling one cancels the other's. */
  lemma CollisionClobbers(slots: map<int, Alarm>, hash: string -> int, a: Alarm, other: string)
    requires hash(other) == hash(a.itemId) && other != a.itemId
    ensures Pending(AfterSchedule(slots, hash, a), hash, other).None?
    ensures Pending(AfterCancel(AfterSchedule(slots, hash, a), hash, other), hash, a.itemId).None?
  {
  }

  /** The joint state after a reminder is set: the row holds `whenAt` and
      the id's slot holds an alarm for it at the same time. */
  predicate ReminderSet(rows: map<string, Item>, slots: map<int, Alarm>, hash: string -> int, id: string, whenAt: int)
  {
    && (id in rows ==> rows[id].reminderAt == Some(whenAt))
    && Pending(slots, hash, id).Some? && Pending(slots, hash, id).value.whenAt == whenAt
  }

  /** The joint state after a reminder is cancelled: neither the row nor the
      alarm table holds one. */
  predicate ReminderCleared(rows: map<string, Item>, slots: map<int, Alarm>, hash: string -> int, id: string)
  {
    && (id in rows ==> rows[id].reminderAt.None?)
    && Pending(slots, hash, id).None?
  }
}
