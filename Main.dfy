/** The main activity (app/.../ui/MainActivity.kt): its own inbox list,
    refreshed in place for the current query, filter and sort, the scroll
    to an item opened from a notification, and the reminder actions on a
    card. */
module Main {
  import opened Strings
  import opened Longs
  import opened Items
  import opened Store
  import opened Repo
  import opened Scheduler
  import opened InboxVM
  import opened Screen

  class MainScreen {
    const repo: Repository
    /** The `openItemId` extra of the launching intent. */
    const openItemId: Option<string>
    /** The snapshot list the cards are drawn from. */
    var items: seq<Item>

    constructor(repo: Repository, openItemId: Option<string>)
      ensures this.repo == repo && this.openItemId == openItemId && items == []
    {
      this.repo := repo;
      this.openItemId := openItemId;
      items := [];
    }

    /** One emission of the inbox: the query is only blank-to-null (not
        trimmed), the list is sorted and filtered, `items` is cleared and
        refilled, and the first card with `openItemId` is scrolled to. */
    method Refresh(query: string, filter: ItemFilter, sort: ItemSort) returns (list: seq<Item>, scrollTo: Option<nat>)
      requires repo.dao.Valid()
      modifies this
      ensures InListOrder(list) && DistinctIds(list)
      ensures forall i :: 0 <= i < |list| ==>
        list[i].id in repo.dao.rows && repo.dao.rows[list[i].id] == list[i]
        && InboxSelects(IfBlankNull(query), list[i])
      ensures forall id :: id in repo.dao.rows && InboxSelects(IfBlankNull(query), repo.dao.rows[id]) ==>
        repo.dao.rows[id] in list
      ensures items == SortAndFilter(list, filter, sort)
      ensures scrollTo.Some? ==>
        && openItemId.Some? && scrollTo.value < |items| && items[scrollTo.value].id == openItemId.value
        && forall k :: 0 <= k < scrollTo.value ==> items[k].id != openItemId.value
      ensures scrollTo.None? && openItemId.Some? ==> forall k :: 0 <= k < |items| ==> items[k].id != openItemId.value
    {
      list := repo.Inbox(IfBlankNull(query));
      var processed := SortAndFilter(list, filter, sort);
      items := [];
      items := items + processed;
      scrollTo := None;
      if openItemId.Some? {
        scrollTo := IndexOfFirst(items, openItemId.value);
      }
    }

    /** Add-reminder confirm: `whenAt = now + millis` (a `Long` sum) is
        stored first, then the alarm is registered with the card's title. */
    method AddReminder(item: Item, millis: int, deleteAfterReminder: bool, now: int, table: AlarmTable)
      returns (whenAt: int)
      requires repo.dao.Valid()
      modifies repo.dao, table
      ensures repo.dao.Valid()
      ensures whenAt == Wrap64(now + millis)
      ensures ReminderSet(repo.dao.rows, table.slots, table.hash, item.id, whenAt)
      ensures table.slots == AfterSchedule(old(table.slots), table.hash,
        Alarm(item.id, ReminderTitle(item), whenAt, deleteAfterReminder, item.itemLabel))
      ensures item.id in old(repo.dao.rows) ==>
        repo.dao.rows == old(repo.dao.rows)[item.id := old(repo.dao.rows)[item.id].(reminderAt := Some(whenAt))]
      ensures item.id !in old(repo.dao.rows) ==> repo.dao.rows == old(repo.dao.rows)
    {
      whenAt := Wrap64(now + millis);
      var title := ReminderTitle(item);
      repo.SetReminder(item.id, Some(whenAt));
      table.Schedule(item.id, title, whenAt, deleteAfterReminder, item.itemLabel);
    }

    /** Cancel in the details dialog: the alarm first, then the stored time. */
    method CancelReminder(itemToCancel: Item, table: AlarmTable)
      requires repo.dao.Valid()
      modifies repo.dao, table
      ensures repo.dao.Valid()
      ensures ReminderCleared(repo.dao.rows, table.slots, table.hash, itemToCancel.id)
      ensures table.slots == AfterCancel(old(table.slots), table.hash, itemToCancel.id)
      ensures itemToCancel.id in old(repo.dao.rows) ==>
        repo.dao.rows == old(repo.dao.rows)[itemToCancel.id := old(repo.dao.rows)[itemToCancel.id].(reminderAt := None)]
      ensures itemToCancel.id !in old(repo.dao.rows) ==> repo.dao.rows == old(repo.dao.rows)
    {
      table.Cancel(itemToCancel.id);
      repo.SetReminder(itemToCancel.id, None);
    }
  }

  /** The card title on this screen: an image card has none. */
  function MainCardTitle(it: Item): (title: string)
    ensures it.itemType == IMAGE ==> title == ""
    ensures it.itemType != IMAGE ==> title == CardTitle(it)
  {
    match it.itemType
    case LINK => if it.cleanedText.Some? then it.cleanedText.value else if it.text.Some? then it.text.value else "(link)"
    case TEXT => if it.text.Some? then it.text.value else "(text)"
    case IMAGE => ""
  }

  /** This screen passes the query untrimmed: a query with leading
      whitespace is searched with it, where the inbox view-model searches
      the trimmed text. */
  lemma QueryNotTrimmed(query: string)
    requires query != [] && IsWhitespace(query[0]) && !IsBlank(query)
    ensures IfBlankNull(query) == Some(query)
    ensures ResultsQuery(query) == Some(Trim(query))
    ensures Trim(query) != query
  {
    TrimSlice(query);
    TrimEmptyIffBlank(query);
  }
}
