/** The boot receiver (app/.../reminder/BootReceiver.kt): after a reboot or
    an app update, every item whose reminder lies in the future gets its
    alarm registered again. */
module Boot {
  import opened Strings
  import opened Items
  import opened Store
  import opened Scheduler

  const ActionBootCompleted: string := "android.intent.action.BOOT_COMPLETED"
  const ActionMyPackageReplaced: string := "android.intent.action.MY_PACKAGE_REPLACED"

  predicate IsBootAction(action: Option<string>)
  {
    action == Some(ActionBootCompleted) || action == Some(ActionMyPackageReplaced)
  }

  /** The items with a non-null reminder later than the clock, in snapshot
      order. The filter reads `System.currentTimeMillis()` afresh for each
      item: `clock(i)` is the reading taken for the item at index `i`. */
  function DueItems(items: seq<Item>, clock: nat -> int): (r: seq<Item>)
    ensures |r| <= |items|
    ensures forall i :: 0 <= i < |r| ==> r[i].reminderAt.Some?
    decreases |items|
  {
    if items == [] then []
    else
      var n := |items| - 1;
      DueItems(items[..n], clock) + (if HasActiveReminder(items[n], clock(n)) then [items[n]] else [])
  }

  /** The alarm rescheduled for a due item: at its stored time, never
      deleting the item afterwards. */
  function BootAlarm(it: Item): Alarm
    requires it.reminderAt.Some?
  {
    Alarm(it.id, ReminderTitle(it), it.reminderAt.value, false, it.itemLabel)
  }

  function BootAlarms(due: seq<Item>): (r: seq<Alarm>)
    requires forall i :: 0 <= i < |due| ==> due[i].reminderAt.Some?
    ensures |r| == |due|
    ensures forall i :: 0 <= i < |r| ==> r[i] == BootAlarm(due[i])
  {
    seq(|due|, i requires 0 <= i < |due| => BootAlarm(due[i]))
  }

  /** The alarm table after scheduling `alarms` in order. */
  function ScheduleAll(slots: map<int, Alarm>, hash: string -> int, alarms: seq<Alarm>): map<int, Alarm>
  {
    if alarms == [] then slots
    else AfterSchedule(ScheduleAll(slots, hash, alarms[..|alarms| - 1]), hash, alarms[|alarms| - 1])
  }

  /** Scheduling one more alarm of a list extends the table by it. */
  lemma ScheduleAllSnoc(slots: map<int, Alarm>, hash: string -> int, alarms: seq<Alarm>, k: nat)
    requires k < |alarms|
    ensures ScheduleAll(slots, hash, alarms[..k + 1]) == AfterSchedule(ScheduleAll(slots, hash, alarms[..k]), hash, alarms[k])
  {
    assert alarms[..k + 1][..k] == alarms[..k];
  }

  /** The last alarm of `alarms` that lands in slot `h`. */
  function LastInSlot(alarms: seq<Alarm>, hash: string -> int, h: int): (r: Option<Alarm>)
    ensures r.Some? ==> r.value in alarms && hash(r.value.itemId) == h
  {
    if alarms == [] then None
    else if hash(alarms[|alarms| - 1].itemId) == h then Some(alarms[|alarms| - 1])
    else LastInSlot(alarms[..|alarms| - 1], hash, h)
  }

  /** `onReceive`: on a boot action, reschedules the due items of one
      snapshot of the table. An exception anywhere is swallowed: `failAt`
      is the number of schedule calls that succeed before one throws (none
      when absent), so a failure leaves a prefix of the calls done. */
  method OnReceive(action: Option<string>, dao: ItemDao, table: AlarmTable, clock: nat -> int, failAt: Option<nat>)
    returns (snapshot: seq<Item>, done: nat)
    requires dao.Valid()
    modifies table
    ensures !IsBootAction(action) ==> done == 0 && table.slots == old(table.slots)
    ensures IsBootAction(action) ==>
      && (forall i :: 0 <= i < |snapshot| ==> snapshot[i].id in dao.rows && dao.rows[snapshot[i].id] == snapshot[i])
      && (forall id :: id in dao.rows ==> dao.rows[id] in snapshot)
      && done == (if failAt.Some? && failAt.value < |DueItems(snapshot, clock)| then failAt.value else |DueItems(snapshot, clock)|)
      && table.slots == ScheduleAll(old(table.slots), table.hash, BootAlarms(DueItems(snapshot, clock))[..done])
  {
    snapshot, done := [], 0;
    if IsBootAction(action) {
      snapshot := dao.ObserveAllOnce();
      done := Reschedule(snapshot, table, clock, failAt);
    }
  }

  /** The `filter { … }.forEach { schedule(…) }` loop. */
  method Reschedule(items: seq<Item>, table: AlarmTable, clock: nat -> int, failAt: Option<nat>) returns (done: nat)
    modifies table
    ensures done == (if failAt.Some? && failAt.value < |DueItems(items, clock)| then failAt.value else |DueItems(items, clock)|)
    ensures table.slots == ScheduleAll(old(table.slots), table.hash, BootAlarms(DueItems(items, clock))[..done])
  {
    var due := DueItems(items, clock);
    ghost var alarms := BootAlarms(due);
    done := 0;
    while done < |due|
      invariant done <= |due|
      invariant failAt.Some? ==> done <= failAt.value
      invariant table.slots == ScheduleAll(old(table.slots), table.hash, alarms[..done])
      decreases |due| - done
    {
      if failAt.Some? && done == failAt.value {
        break;
      }
      var item := due[done];
      table.Schedule(item.id, ReminderTitle(item), item.reminderAt.value, false, item.itemLabel);
      ScheduleAllSnoc(old(table.slots), table.hash, alarms, done);
      done := done + 1;
    }
  }

  // --- properties ----------------------------------------------------------

  /** An item is due iff it sits in the snapshot at an index whose clock
      reading its reminder is later than. */
  lemma {:induction false} DueItemsExact(items: seq<Item>, clock: nat -> int, it: Item)
    ensures it in DueItems(items, clock) <==>
      exists i :: 0 <= i < |items| && items[i] == it && HasActiveReminder(it, clock(i))
    decreases |items|
  {
    if items != [] {
      var n := |items| - 1;
      DueItemsExact(items[..n], clock, it);
      if it in DueItems(items, clock) && it !in DueItems(items[..n], clock) {
        assert items[n] == it && HasActiveReminder(it, clock(n));
      }
      if exists i :: 0 <= i < |items| && items[i] == it && HasActiveReminder(it, clock(i)) {
        var i :| 0 <= i < |items| && items[i] == it && HasActiveReminder(it, clock(i));
        if i < n {
          assert items[..n][i] == it;
        }
      }
    }
  }

  /** When every clock reading lies between `t0` and `t1`: an item whose
      reminder is later than `t1` is rescheduled as often as it occurs in
      the snapshot, one whose reminder is null or not later than `t0` is not
      rescheduled, and no item more often than it occurs. With one reading
      (`t0 == t1`) the due items are exactly the active ones. */
  lemma {:induction false} DueItemsWithin(items: seq<Item>, clock: nat -> int, t0: int, t1: int, it: Item)
    requires forall i :: 0 <= i < |items| ==> t0 <= clock(i) <= t1
    ensures multiset(DueItems(items, clock))[it] <= multiset(items)[it]
    ensures HasActiveReminder(it, t1) ==> multiset(DueItems(items, clock))[it] == multiset(items)[it]
    ensures !HasActiveReminder(it, t0) ==> multiset(DueItems(items, clock))[it] == 0
    decreases |items|
  {
    if items != [] {
      var n := |items| - 1;
      var pre, last := items[..n], items[n];
      DueItemsWithin(pre, clock, t0, t1, it);
      assert items == pre + [last];
      assert multiset(items)[it] == multiset(pre)[it] + (if last == it then 1 else 0);
      DueItemsSnoc(items, clock, it);
      assert t0 <= clock(n) <= t1;
    }
  }

  /** The last item of the snapshot adds one occurrence to the due items
      exactly when its reminder is later than its clock reading. */
  lemma DueItemsSnoc(items: seq<Item>, clock: nat -> int, it: Item)
    requires items != []
    ensures var n := |items| - 1;
      multiset(DueItems(items, clock))[it]
      == multiset(DueItems(items[..n], clock))[it] + (if items[n] == it && HasActiveReminder(it, clock(n)) then 1 else 0)
  {
    var n := |items| - 1;
    var tail := if HasActiveReminder(items[n], clock(n)) then [items[n]] else [];
    assert DueItems(items, clock) == DueItems(items[..n], clock) + tail;
  }

  /** Each rescheduled alarm is at its item's stored time, later than the
      earliest clock reading, with `deleteAfterReminder = false`, the usual
      title, and the label. */
  lemma BootAlarmsShape(items: seq<Item>, clock: nat -> int, t0: int, i: nat)
    requires forall j :: 0 <= j < |items| ==> t0 <= clock(j)
    requires i < |DueItems(items, clock)|
    ensures var due := DueItems(items, clock);
      var a := BootAlarms(due)[i];
      && a.itemId == due[i].id
      && due[i].reminderAt == Some(a.whenAt) && a.whenAt > t0
      && !a.deleteAfter
      && a.title == ReminderTitle(due[i])
      && a.itemLabel == due[i].itemLabel
  {
    var due := DueItems(items, clock);
    DueItemsExact(items, clock, due[i]);
  }

  /** After scheduling a list of alarms, each slot holds the last alarm that
      landed in it, or what it held before. */
  lemma {:induction false} ScheduleAllSlot(slots: map<int, Alarm>, hash: string -> int, alarms: seq<Alarm>, h: int)
    ensures var r := ScheduleAll(slots, hash, alarms);
      match LastInSlot(alarms, hash, h)
      case Some(a) => h in r && r[h] == a
      case None => (h in r <==> h in slots) && (h in slots ==> r[h] == slots[h])
    decreases |alarms|
  {
    if alarms != [] {
      ScheduleAllSlot(slots, hash, alarms[..|alarms| - 1], h);
    }
  }

  /** With no failure, every due item whose hash it shares with no other due
      item ends up with its alarm pending at its stored reminder time. */
  lemma BootRestoresReminder(slots: map<int, Alarm>, hash: string -> int, items: seq<Item>, clock: nat -> int, i: nat)
    requires i < |DueItems(items, clock)|
    requires var due := DueItems(items, clock);
      forall j :: 0 <= j < |due| && j != i ==> hash(due[j].id) != hash(due[i].id)
    ensures var due := DueItems(items, clock);
      Pending(ScheduleAll(slots, hash, BootAlarms(due)), hash, due[i].id) == Some(BootAlarm(due[i]))
  {
    var due := DueItems(items, clock);
    var alarms := BootAlarms(due);
    var h := hash(due[i].id);
    assert alarms[..|alarms|] == alarms;
    LastInSlotUnique(alarms, hash, i);
    ScheduleAllSlot(slots, hash, alarms, h);
  }

  lemma {:induction false} LastInSlotUnique(alarms: seq<Alarm>, hash: string -> int, i: nat)
    requires i < |alarms|
    requires forall j :: 0 <= j < |alarms| && j != i ==> hash(alarms[j].itemId) != hash(alarms[i].itemId)
    ensures LastInSlot(alarms, hash, hash(alarms[i].itemId)) == Some(alarms[i])
    decreases |alarms|
  {
    if i < |alarms| - 1 {
      var init := alarms[..|alarms| - 1];
      assert init[i] == alarms[i];
      forall j | 0 <= j < |init| && j != i ensures hash(init[j].itemId) != hash(init[i].itemId) {
        assert init[j] == alarms[j];
      }
      LastInSlotUnique(init, hash, i);
    }
  }
}
