/** The inbox view-model (app/.../ui/inbox/InboxViewModel.kt): the query,
    filter, sort and selection state, the derived screen state, and the
    item actions it forwards to the repository and the alarm table. */
module InboxVM {
  import opened Strings
  import opened Longs
  import opened Items
  import opened Store
  import opened Repo
  import opened Scheduler

  datatype InboxUiState = InboxUiState(
    query: string,
    filter: ItemFilter,
    sortBy: ItemSort,
    items: seq<Item>,
    isLoading: bool,
    selectedIds: set<string>,
    isSelectionMode: bool)

  /** The state shown before the first result arrives. */
  function InitialState(): (s: InboxUiState)
    ensures s.isLoading && s.items == [] && !s.isSelectionMode && s.selectedIds == {}
  {
    InboxUiState("", All, Date, [], true, {}, false)
  }

  /** The query the results are fetched for: trimmed, and null when blank. */
  function ResultsQuery(query: string): (q: Option<string>)
    ensures q.None? <==> IsBlank(query)
    ensures q.Some? ==> q.value == Trim(query) && !IsBlank(q.value)
  {
    TrimEmptyIffBlank(query);
    if Trim(query) == [] then None
    else
      assert !IsWhitespace(Trim(query)[0]) by { TrimSlice(query); }
      Some(Trim(query))
  }

  /** The text an item offers for copying: `cleanedText ?: text`. */
  function CopySource(it: Item): Option<string>
  {
    if it.cleanedText.Some? then it.cleanedText else it.text
  }

  datatype CopyAction = CopyText(text: string) | CopyImage(uri: string) | NothingToCopy

  /** `copy`: non-blank text first, then the first image of an IMAGE item,
      else nothing. */
  function CopyChoice(it: Item): (c: CopyAction)
    ensures c.CopyText? <==> CopySource(it).Some? && !IsBlank(CopySource(it).value)
    ensures c.CopyText? ==> Some(c.text) == CopySource(it)
    ensures c.CopyImage? <==> !c.CopyText? && it.itemType == IMAGE && it.imageUris != []
    ensures c.CopyImage? ==> c.uri == it.imageUris[0]
  {
    var text := CopySource(it);
    if text.Some? && !IsBlank(text.value) then CopyText(text.value)
    else if it.itemType == IMAGE && it.imageUris != [] then CopyImage(it.imageUris[0])
    else NothingToCopy
  }

  function Toggled(s: set<string>, id: string): set<string>
  {
    if id in s then s - {id} else s + {id}
  }

  /** `selectedIds.toList()`: the members of the set, each once, in some
      order. */
  method SetToList(s: set<string>) returns (l: seq<string>)
    ensures |l| == |s|
    ensures forall x :: x in l <==> x in s
    ensures forall i, j :: 0 <= i < j < |l| ==> l[i] != l[j]
  {
    l := [];
    var rest := s;
    while rest != {}
      invariant rest <= s
      invariant forall x :: x in l <==> x in s && x !in rest
      invariant forall i, j :: 0 <= i < j < |l| ==> l[i] != l[j]
      invariant |l| + |rest| == |s|
      decreases rest
    {
      var x :| x in rest;
      forall i | 0 <= i < |l| ensures l[i] != x {
        assert l[i] in l;
      }
      l := l + [x];
      rest := rest - {x};
    }
  }

  class InboxViewModel {
    const repository: Repository
    var query: string
    var filter: ItemFilter
    var sort: ItemSort
    var selectedIds: set<string>

    constructor(repository: Repository)
      ensures this.repository == repository
      ensures query == "" && filter == All && sort == Date && selectedIds == {}
    {
      this.repository := repository;
      query := "";
      filter := All;
      sort := Date;
      selectedIds := {};
    }

    method OnQueryChange(newQuery: string)
      modifies this
      ensures query == newQuery && filter == old(filter) && sort == old(sort) && selectedIds == old(selectedIds)
    {
      query := newQuery;
    }

    method OnFilterSelected(f: ItemFilter)
      modifies this
      ensures filter == f && query == old(query) && sort == old(sort) && selectedIds == old(selectedIds)
    {
      filter := f;
    }

    method OnSortSelected(s: ItemSort)
      modifies this
      ensures sort == s && query == old(query) && filter == old(filter) && selectedIds == old(selectedIds)
    {
      sort := s;
    }

    /** One emission of `state`: the inbox for the trimmed query, sorted and
        filtered, with the selection. */
    method State() returns (results: seq<Item>, s: InboxUiState)
      requires repository.dao.Valid()
      ensures InListOrder(results) && DistinctIds(results)
      ensures forall i :: 0 <= i < |results| ==>
        results[i].id in repository.dao.rows && repository.dao.rows[results[i].id] == results[i]
        && InboxSelects(ResultsQuery(query), results[i])
      ensures forall id :: id in repository.dao.rows && InboxSelects(ResultsQuery(query), repository.dao.rows[id]) ==>
        repository.dao.rows[id] in results
      ensures s.items == SortAndFilter(results, filter, sort)
      ensures s.query == query && s.filter == filter && s.sortBy == sort && !s.isLoading
      ensures s.selectedIds == selectedIds && (s.isSelectionMode <==> selectedIds != {})
    {
      results := repository.Inbox(ResultsQuery(query));
      s := InboxUiState(query, filter, sort, SortAndFilter(results, filter, sort), false, selectedIds, selectedIds != {});
    }

    /** `togglePin`: writes the negation of the item's current flag. */
    method TogglePin(item: Item)
      requires repository.dao.Valid()
      modifies repository.dao
      ensures repository.dao.Valid()
      ensures item.id in old(repository.dao.rows) ==>
        repository.dao.rows == old(repository.dao.rows)[item.id := old(repository.dao.rows)[item.id].(pinned := !item.pinned)]
      ensures item.id !in old(repository.dao.rows) ==> repository.dao.rows == old(repository.dao.rows)
    {
      repository.Pin(item.id, !item.pinned);
    }

    method Delete(item: Item)
      requires repository.dao.Valid()
      modifies repository.dao
      ensures repository.dao.Valid()
      ensures repository.dao.rows == old(repository.dao.rows) - {item.id}
    {
      repository.Delete(item.id);
    }

    method UpdateLabel(item: Item, newLabel: Option<string>)
      requires repository.dao.Valid()
      modifies repository.dao
      ensures repository.dao.Valid()
      ensures item.id in old(repository.dao.rows) ==>
        repository.dao.rows == old(repository.dao.rows)[item.id := old(repository.dao.rows)[item.id].(itemLabel := newLabel)]
      ensures item.id !in old(repository.dao.rows) ==> repository.dao.rows == old(repository.dao.rows)
    {
      repository.UpdateLabel(item.id, newLabel);
    }

    /** `cancelReminder`: cancel the alarm, then clear the stored time. */
    method CancelReminder(item: Item, table: AlarmTable)
      requires repository.dao.Valid()
      modifies repository.dao, table
      ensures repository.dao.Valid()
      ensures ReminderCleared(repository.dao.rows, table.slots, table.hash, item.id)
      ensures table.slots == AfterCancel(old(table.slots), table.hash, item.id)
      ensures item.id in old(repository.dao.rows) ==>
        repository.dao.rows == old(repository.dao.rows)[item.id := old(repository.dao.rows)[item.id].(reminderAt := None)]
      ensures item.id !in old(repository.dao.rows) ==> repository.dao.rows == old(repository.dao.rows)
    {
      table.Cancel(item.id);
      repository.SetReminder(item.id, None);
    }

    /** `scheduleReminder`: `whenAt = now + millisFromNow` (a `Long` sum) is
        stored on the row, then the alarm is registered for the same time. */
    method ScheduleReminder(item: Item, millisFromNow: int, deleteAfter: bool, now: int, table: AlarmTable)
      returns (whenAt: int)
      requires repository.dao.Valid()
      modifies repository.dao, table
      ensures repository.dao.Valid()
      ensures whenAt == Wrap64(now + millisFromNow)
      ensures ReminderSet(repository.dao.rows, table.slots, table.hash, item.id, whenAt)
      ensures table.slots == AfterSchedule(old(table.slots), table.hash,
        Alarm(item.id, ReminderTitle(item), whenAt, deleteAfter, item.itemLabel))
      ensures item.id in old(repository.dao.rows) ==>
        repository.dao.rows == old(repository.dao.rows)[item.id := old(repository.dao.rows)[item.id].(reminderAt := Some(whenAt))]
      ensures item.id !in old(repository.dao.rows) ==> repository.dao.rows == old(repository.dao.rows)
    {
      whenAt := Wrap64(now + millisFromNow);
      var title := ReminderTitle(item);
      repository.SetReminder(item.id, Some(whenAt));
      table.Schedule(item.id, title, whenAt, deleteAfter, item.itemLabel);
    }

    method ToggleSelection(itemId: string)
      modifies this
      ensures selectedIds == Toggled(old(selectedIds), itemId)
      ensures query == old(query) && filter == old(filter) && sort == old(sort)
    {
      if itemId in selectedIds {
        selectedIds := selectedIds - {itemId};
      } else {
        selectedIds := selectedIds + {itemId};
      }
    }

    method ClearSelection()
      modifies this
      ensures selectedIds == {}
      ensures query == old(query) && filter == old(filter) && sort == old(sort)
    {
      selectedIds := {};
    }

    /** `deleteSelected`: nothing on an empty selection; otherwise deletes
        exactly the selected ids and clears the selection. */
    method DeleteSelected() returns (count: nat)
      requires repository.dao.Valid()
      modifies this, repository.dao
      ensures repository.dao.Valid()
      ensures count == |old(selectedIds)|
      ensures old(selectedIds) == {} ==> repository.dao.rows == old(repository.dao.rows) && selectedIds == {}
      ensures old(selectedIds) != {} ==> repository.dao.rows == old(repository.dao.rows) - old(selectedIds) && selectedIds == {}
      ensures query == old(query) && filter == old(filter) && sort == old(sort)
    {
      var ids := SetToList(selectedIds);
      count := |ids|;
      if ids == [] {
        return;
      }
      assert (set i | 0 <= i < |ids| :: ids[i]) == selectedIds by {
        forall x | x in selectedIds ensures x in (set i | 0 <= i < |ids| :: ids[i]) {
          var i :| 0 <= i < |ids| && ids[i] == x;
        }
      }
      repository.DeleteBulk(ids);
      ClearSelection();
    }

    /** `pinSelected`: nothing on an empty selection; otherwise sets `pinned`
        on exactly the selected rows and clears the selection. */
    method PinSelected(pinned: bool) returns (count: nat)
      requires repository.dao.Valid()
      modifies this, repository.dao
      ensures repository.dao.Valid()
      ensures count == |old(selectedIds)|
      ensures old(selectedIds) == {} ==> repository.dao.rows == old(repository.dao.rows) && selectedIds == {}
      ensures old(selectedIds) != {} ==>
        && repository.dao.rows.Keys == old(repository.dao.rows).Keys
        && (forall id :: id in repository.dao.rows ==>
              repository.dao.rows[id] == if id in old(selectedIds) then old(repository.dao.rows)[id].(pinned := pinned)
                                         else old(repository.dao.rows)[id])
        && selectedIds == {}
      ensures query == old(query) && filter == old(filter) && sort == old(sort)
    {
      var ids := SetToList(selectedIds);
      count := |ids|;
      if ids == [] {
        return;
      }
      repository.PinBulk(ids, pinned);
      ClearSelection();
    }
  }

  // --- properties ----------------------------------------------------------

  /** Toggling adds an absent id, removes a present one, leaves the others,
      and toggling twice restores the selection. */
  lemma ToggleSelectionRules(s: set<string>, id: string, other: string)
    ensures id in Toggled(s, id) <==> id !in s
    ensures other != id ==> (other in Toggled(s, id) <==> other in s)
    ensures Toggled(Toggled(s, id), id) == s
  {
  }

  /** The shown items are exactly the stored rows that match the trimmed
      query and the filter, each once, in the chosen key order. */
  lemma {:induction false} ShownItemsExact(results: seq<Item>, rows: map<string, Item>, q: Option<string>,
                                           filter: ItemFilter, sort: ItemSort, it: Item)
    requires DistinctIds(results)
    requires forall i :: 0 <= i < |results| ==> results[i].id in rows && rows[results[i].id] == results[i] && InboxSelects(q, results[i])
    requires forall id :: id in rows && InboxSelects(q, rows[id]) ==> rows[id] in results
    ensures it in SortAndFilter(results, filter, sort) <==>
      it.id in rows && rows[it.id] == it && InboxSelects(q, it) && Admits(filter, it)
    ensures multiset(SortAndFilter(results, filter, sort))[it] <= 1
  {
    SortAndFilterExact(results, filter, sort, it);
    var r := SortAndFilter(results, filter, sort);
    assert it in r <==> multiset(r)[it] > 0;
    assert it in results <==> multiset(results)[it] > 0;
    DistinctCountOne(results, it);
  }

  lemma {:induction false} DistinctCountOne(l: seq<Item>, it: Item)
    requires DistinctIds(l)
    ensures multiset(l)[it] <= 1
    decreases |l|
  {
    if l != [] {
      assert DistinctIds(l[1..]) by {
        forall i, j | 0 <= i < j < |l| - 1 ensures l[1..][i].id != l[1..][j].id {
          assert l[1..][i] == l[i + 1] && l[1..][j] == l[j + 1];
        }
      }
      DistinctCountOne(l[1..], it);
      assert l == [l[0]] + l[1..];
      if l[0] == it {
        assert it !in l[1..] by {
          forall k | 0 <= k < |l| - 1 ensures l[1..][k] != it {
            assert l[1..][k] == l[k + 1];
          }
        }
      }
    }
  }
}
