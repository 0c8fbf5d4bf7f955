/** The Room table of captured items (app/.../data/ItemDao.kt), modelled as a
    map from id to row, with the two ordered queries computed by insertion
    into the `ORDER BY pinned DESC, createdAt DESC` order. */
module Store {
  import opened Strings
  import opened Items

  /** `a` may be listed before `b` under `ORDER BY pinned DESC, createdAt DESC`. */
  predicate ListedBefore(a: Item, b: Item)
  {
    (a.pinned && !b.pinned) || (a.pinned == b.pinned && a.createdAt >= b.createdAt)
  }

  predicate InListOrder(l: seq<Item>)
  {
    forall i, j :: 0 <= i < j < |l| ==> ListedBefore(l[i], l[j])
  }

  predicate DistinctIds(l: seq<Item>)
  {
    forall i, j :: 0 <= i < j < |l| ==> l[i].id != l[j].id
  }

  /** The `WHERE` clause of `search`: `text` or `cleanedText` contains the
      query (SQL `LIKE '%' || q || '%'` read as plain containment). The label
      is not searched. */
  predicate MatchesQuery(it: Item, q: string)
  {
    (it.text.Some? && Contains(it.text.value, q))
    || (it.cleanedText.Some? && Contains(it.cleanedText.value, q))
  }

  /** Which rows a listing selects: all of them, or those matching a query. */
  predicate Selected(it: Item, q: Option<string>)
  {
    q.None? || MatchesQuery(it, q.value)
  }

  /** Insert `x` at its place in a list already in list order. */
  function InsertListed(x: Item, l: seq<Item>): (r: seq<Item>)
    ensures |r| == |l| + 1
    ensures forall it :: it in r <==> it == x || it in l
  {
    if l == [] then [x]
    else if ListedBefore(x, l[0]) then [x] + l
    else [l[0]] + InsertListed(x, l[1..])
  }

  lemma {:induction false} InsertListedOrdered(x: Item, l: seq<Item>)
    requires InListOrder(l)
    ensures InListOrder(InsertListed(x, l))
    decreases |l|
  {
    if l != [] && !ListedBefore(x, l[0]) {
      InsertListedOrdered(x, l[1..]);
      var t := InsertListed(x, l[1..]);
      forall j | 0 <= j < |t| ensures ListedBefore(l[0], t[j]) {
        if t[j] != x {
          assert t[j] in t;
          var k :| 0 <= k < |l[1..]| && l[1..][k] == t[j];
          assert l[1..][k] == l[k + 1];
        }
      }
    }
  }

  lemma {:induction false} InsertListedDistinct(x: Item, l: seq<Item>)
    requires DistinctIds(l)
    requires forall i :: 0 <= i < |l| ==> l[i].id != x.id
    ensures DistinctIds(InsertListed(x, l))
    decreases |l|
  {
    if l != [] && !ListedBefore(x, l[0]) {
      InsertListedDistinct(x, l[1..]);
      var t := InsertListed(x, l[1..]);
      forall j | 0 <= j < |t| ensures l[0].id != t[j].id {
        if t[j] != x {
          assert t[j] in t;
          var k :| 0 <= k < |l[1..]| && l[1..][k] == t[j];
          assert l[1..][k] == l[k + 1];
        }
      }
    }
  }

  class ItemDao {
    /** The table: primary key `id` to row. */
    var rows: map<string, Item>

    /** Every row is stored under its own id. */
    ghost predicate Valid()
      reads this
    {
      forall id :: id in rows ==> rows[id].id == id
    }

    constructor()
      ensures rows == map[] && Valid()
    {
      rows := map[];
    }

    /** `upsert` with `OnConflictStrategy.REPLACE`. */
    method Upsert(item: Item)
      requires Valid()
      modifies this
      ensures Valid()
      ensures rows == old(rows)[item.id := item]
    {
      rows := rows[item.id := item];
    }

    /** `getItemById`: the row with that id, or null. */
    method GetItemById(id: string) returns (r: Option<Item>)
      requires Valid()
      ensures r.Some? <==> id in rows
      ensures r.Some? ==> r.value == rows[id] && r.value.id == id
    {
      if id in rows {
        r := Some(rows[id]);
      } else {
        r := None;
      }
    }

    /** `setPinned`: only the `pinned` field of the matching row changes. */
    method SetPinned(id: string, pinned: bool)
      requires Valid()
      modifies this
      ensures Valid()
      ensures id in old(rows) ==> rows == old(rows)[id := old(rows)[id].(pinned := pinned)]
      ensures id !in old(rows) ==> rows == old(rows)
    {
      if id in rows {
        rows := rows[id := rows[id].(pinned := pinned)];
      }
    }

    /** `delete`: removes only that id. */
    method Delete(id: string)
      requires Valid()
      modifies this
      ensures Valid()
      ensures rows == old(rows) - {id}
    {
      rows := rows - {id};
    }

    /** `deleteBulk` (called by the repository, not declared in the DAO
        source): removes exactly the listed ids. */
    method DeleteBulk(ids: seq<string>)
      requires Valid()
      modifies this
      ensures Valid()
      ensures rows == old(rows) - set i | 0 <= i < |ids| :: ids[i]
    {
      rows := rows - set i | 0 <= i < |ids| :: ids[i];
    }

    /** `setPinnedBulk` (called by the repository, not declared in the DAO
        source): sets `pinned` on exactly the listed rows that exist. */
    method SetPinnedBulk(ids: seq<string>, pinned: bool)
      requires Valid()
      modifies this
      ensures Valid()
      ensures rows.Keys == old(rows).Keys
      ensures forall id :: id in rows ==>
        rows[id] == if id in ids then old(rows)[id].(pinned := pinned) else old(rows)[id]
    {
      rows := map id | id in rows :: if id in ids then rows[id].(pinned := pinned) else rows[id];
    }

    /** `setReminder` (called by the repository, not declared in the DAO
        source): only the `reminderAt` field of the matching row changes. */
    method SetReminder(id: string, reminderAt: Option<int>)
      requires Valid()
      modifies this
      ensures Valid()
      ensures id in old(rows) ==> rows == old(rows)[id := old(rows)[id].(reminderAt := reminderAt)]
      ensures id !in old(rows) ==> rows == old(rows)
    {
      if id in rows {
        rows := rows[id := rows[id].(reminderAt := reminderAt)];
      }
    }

    /** The selected rows, each once, in list order; rows that tie on
        (pinned, createdAt) come out in an order the database chooses. */
    method Listing(q: Option<string>) returns (l: seq<Item>)
      requires Valid()
      ensures InListOrder(l) && DistinctIds(l)
      ensures forall i :: 0 <= i < |l| ==> l[i].id in rows && rows[l[i].id] == l[i] && Selected(l[i], q)
      ensures forall id :: id in rows && Selected(rows[id], q) ==> rows[id] in l
    {
      l := [];
      var remaining := rows.Keys;
      ghost var done: set<string> := {};
      while remaining != {}
        invariant remaining + done == rows.Keys && remaining !! done
        invariant InListOrder(l) && DistinctIds(l)
        invariant forall i :: 0 <= i < |l| ==> l[i].id in done && rows[l[i].id] == l[i] && Selected(l[i], q)
        invariant forall id :: id in done && Selected(rows[id], q) ==> rows[id] in l
        decreases remaining
      {
        var k :| k in remaining;
        var row := rows[k];
        if Selected(row, q) {
          InsertListedOrdered(row, l);
          InsertListedDistinct(row, l);
          var next := InsertListed(row, l);
          forall i | 0 <= i < |next|
            ensures next[i].id in done + {k} && rows[next[i].id] == next[i] && Selected(next[i], q)
          {
            assert next[i] in next;
            if next[i] != row {
              var j :| 0 <= j < |l| && l[j] == next[i];
            }
          }
          l := next;
        }
        remaining := remaining - {k};
        done := done + {k};
      }
    }

    /** `observeAll`: every row, pinned first, newest first within each group. */
    method ObserveAll() returns (l: seq<Item>)
      requires Valid()
      ensures InListOrder(l) && DistinctIds(l)
      ensures forall i :: 0 <= i < |l| ==> l[i].id in rows && rows[l[i].id] == l[i]
      ensures forall id :: id in rows ==> rows[id] in l
    {
      l := Listing(None);
    }

    /** `observeAllOnce` (called by the boot receiver, not declared in the
        DAO source): one snapshot of `observeAll`. */
    method ObserveAllOnce() returns (l: seq<Item>)
      requires Valid()
      ensures InListOrder(l) && DistinctIds(l)
      ensures forall i :: 0 <= i < |l| ==> l[i].id in rows && rows[l[i].id] == l[i]
      ensures forall id :: id in rows ==> rows[id] in l
    {
      l := ObserveAll();
    }

    /** `search(query)`: exactly the rows whose text or cleaned text contains
        the query, in the same order as `observeAll`. */
    method Search(query: string) returns (l: seq<Item>)
      requires Valid()
      ensures InListOrder(l) && DistinctIds(l)
      ensures forall i :: 0 <= i < |l| ==> l[i].id in rows && rows[l[i].id] == l[i] && MatchesQuery(l[i], query)
      ensures forall id :: id in rows && MatchesQuery(rows[id], query) ==> rows[id] in l
    {
      l := Listing(Some(query));
    }
  }

  /** The label plays no part in `search`: two rows that differ only in
      their label are both found or both missed. */
  lemma SearchIgnoresLabel(it: Item, q: string, newLabel: Option<string>)
    ensures MatchesQuery(it.(itemLabel := newLabel), q) <==> MatchesQuery(it, q)
  {
  }

  /** Pinned rows precede unpinned ones in any listing. */
  lemma PinnedFirst(l: seq<Item>, i: nat, j: nat)
    requires InListOrder(l)
    requires i < |l| && j < |l| && l[i].pinned && !l[j].pinned
    ensures i < j
  {
  }

  /** Within the pinned group, and within the unpinned group, rows are
      listed newest first. */
  lemma NewestFirstWithinGroup(l: seq<Item>, i: nat, j: nat)
    requires InListOrder(l)
    requires i < j < |l| && l[i].pinned == l[j].pinned
    ensures l[i].createdAt >= l[j].createdAt
  {
  }
}
