/** The repository over the item table (app/.../data/Repository.kt): the
    inbox query, the save rules for text, links and images, the label
    read-modify-write, the delegations to the table, and the pure
    `sortAndFilter` used by the inbox screens. */
module Repo {
  import opened Strings
  import opened Items
  import opened LinkCleaner
  import opened Store

  datatype ItemFilter = All | Links | Text | Images
  datatype ItemSort = Date | Name | Label

  // ---------------------------------------------------------------------
  // sortAndFilter
  // ---------------------------------------------------------------------

  /** A sort key: `Date` sorts by `createdAt` descending, which is ascending
      order on its negation; `Name` and `Label` sort by text. */
  datatype Key = IntKey(n: int) | StrKey(s: string)

  function TextKey(it: Item): string
  {
    if it.text.Some? then it.text.value else ""
  }

  function LabelKey(it: Item): string
  {
    if it.itemLabel.Some? then it.itemLabel.value else ""
  }

  function KeyOf(sort: ItemSort, it: Item): Key
  {
    match sort
    case Date => IntKey(-it.createdAt)
    case Name => StrKey(TextKey(it))
    case Label => StrKey(LabelKey(it))
  }

  predicate KeyLt(a: Key, b: Key)
  {
    match (a, b)
    case (IntKey(x), IntKey(y)) => x < y
    case (StrKey(x), StrKey(y)) => StrLt(x, y)
    case _ => false
  }

  /** `a` has a strictly smaller key than `b` under `sort`. */
  predicate SortsBefore(sort: ItemSort, a: Item, b: Item)
  {
    KeyLt(KeyOf(sort, a), KeyOf(sort, b))
  }

  predicate SortedBy(sort: ItemSort, l: seq<Item>)
  {
    forall i, j :: 0 <= i < j < |l| ==> !SortsBefore(sort, l[j], l[i])
  }

  lemma SortsBeforeIrreflexive(sort: ItemSort, a: Item)
    ensures !SortsBefore(sort, a, a)
  {
    match KeyOf(sort, a)
    case IntKey(_) =>
    case StrKey(s) => StrLtIrreflexive(s);
  }

  lemma SortsBeforeTransitive(sort: ItemSort, a: Item, b: Item, c: Item)
    requires SortsBefore(sort, a, b) && SortsBefore(sort, b, c)
    ensures SortsBefore(sort, a, c)
  {
    if sort != Date {
      StrLtTransitive(KeyOf(sort, a).s, KeyOf(sort, b).s, KeyOf(sort, c).s);
    }
  }

  /** Keys are totally ordered: if `a` is before `b`, any `c` is after `a`
      or before `b`. */
  lemma SortsBeforeComparable(sort: ItemSort, a: Item, b: Item, c: Item)
    requires SortsBefore(sort, a, b)
    ensures SortsBefore(sort, a, c) || SortsBefore(sort, c, b)
  {
    if sort != Date {
      var x, y, z := KeyOf(sort, a).s, KeyOf(sort, b).s, KeyOf(sort, c).s;
      StrLtTotal(x, z);
      if StrLt(z, x) {
        StrLtTransitive(z, x, y);
      }
    }
  }

  /** Insert `x` after every element whose key is not greater than its own. */
  function InsertStable(sort: ItemSort, x: Item, l: seq<Item>): (r: seq<Item>)
    ensures |r| == |l| + 1
    ensures forall it :: it in r <==> it == x || it in l
  {
    if l == [] then [x]
    else if SortsBefore(sort, x, l[0]) then [x] + l
    else [l[0]] + InsertStable(sort, x, l[1..])
  }

  /** `sortedBy` / `sortedByDescending`: a stable insertion sort. */
  function SortBy(sort: ItemSort, l: seq<Item>): (r: seq<Item>)
    ensures |r| == |l|
  {
    if l == [] then []
    else InsertStable(sort, l[|l| - 1], SortBy(sort, l[..|l| - 1]))
  }

  function KeepType(l: seq<Item>, t: ItemType): seq<Item>
  {
    if l == [] then []
    else (if l[0].itemType == t then [l[0]] else []) + KeepType(l[1..], t)
  }

  predicate Admits(filter: ItemFilter, it: Item)
  {
    match filter
    case All => true
    case Links => it.itemType == LINK
    case Text => it.itemType == TEXT
    case Images => it.itemType == IMAGE
  }

  function FilterBy(filter: ItemFilter, l: seq<Item>): seq<Item>
  {
    match filter
    case All => l
    case Links => KeepType(l, LINK)
    case Text => KeepType(l, TEXT)
    case Images => KeepType(l, IMAGE)
  }

  /** `Repository.sortAndFilter`: sort by the chosen key, then keep the
      chosen type. */
  function SortAndFilter(list: seq<Item>, filter: ItemFilter, sort: ItemSort): seq<Item>
  {
    FilterBy(filter, SortBy(sort, list))
  }

  /** The items of `l` whose key equals `k`, in their order in `l`. */
  function KeyClass(sort: ItemSort, l: seq<Item>, k: Key): seq<Item>
  {
    if l == [] then []
    else (if KeyOf(sort, l[0]) == k then [l[0]] else []) + KeyClass(sort, l[1..], k)
  }

  // --- sortedness -------------------------------------------------------

  lemma {:induction false} InsertStableSorted(sort: ItemSort, x: Item, l: seq<Item>)
    requires SortedBy(sort, l)
    ensures SortedBy(sort, InsertStable(sort, x, l))
    decreases |l|
  {
    if l != [] {
      if SortsBefore(sort, x, l[0]) {
        forall j | 0 <= j < |l| ensures !SortsBefore(sort, l[j], x) {
          if SortsBefore(sort, l[j], x) {
            SortsBeforeTransitive(sort, l[j], x, l[0]);
            if j == 0 {
              SortsBeforeIrreflexive(sort, l[0]);
            }
          }
        }
        ConsSorted(sort, x, l);
      } else {
        var rest := l[1..];
        assert SortedBy(sort, rest) by {
          forall i, j | 0 <= i < j < |rest| ensures !SortsBefore(sort, rest[j], rest[i]) {
            assert rest[i] == l[i + 1] && rest[j] == l[j + 1];
          }
        }
        InsertStableSorted(sort, x, rest);
        var t := InsertStable(sort, x, rest);
        forall j | 0 <= j < |t| ensures !SortsBefore(sort, t[j], l[0]) {
          assert t[j] in t;
          if t[j] != x {
            var k :| 0 <= k < |rest| && rest[k] == t[j];
            assert rest[k] == l[k + 1];
          }
        }
        ConsSorted(sort, l[0], t);
      }
    }
  }

  /** An item no later than any entry of a sorted list can go in front. */
  lemma ConsSorted(sort: ItemSort, y: Item, t: seq<Item>)
    requires SortedBy(sort, t)
    requires forall j :: 0 <= j < |t| ==> !SortsBefore(sort, t[j], y)
    ensures SortedBy(sort, [y] + t)
  {
    var r := [y] + t;
    forall i, j | 0 <= i < j < |r| ensures !SortsBefore(sort, r[j], r[i]) {
      assert r[j] == t[j - 1];
      if i > 0 {
        assert r[i] == t[i - 1];
      }
    }
  }

  // --- permutation ----------------------------------------------------------

  lemma {:induction false} InsertStablePerm(sort: ItemSort, x: Item, l: seq<Item>)
    ensures multiset(InsertStable(sort, x, l)) == multiset(l) + multiset{x}
    decreases |l|
  {
    if l != [] && !SortsBefore(sort, x, l[0]) {
      InsertStablePerm(sort, x, l[1..]);
      assert l == [l[0]] + l[1..];
    }
  }

  /** The sort is a permutation of its input. */
  lemma {:induction false} SortByPerm(sort: ItemSort, l: seq<Item>)
    ensures multiset(SortBy(sort, l)) == multiset(l)
    decreases |l|
  {
    if l != [] {
      var init, last := l[..|l| - 1], l[|l| - 1];
      assert multiset(l) == multiset(init) + multiset{last} by {
        assert l == init + [last];
      }
      SortByPerm(sort, init);
      InsertStablePerm(sort, last, SortBy(sort, init));
    }
  }

  lemma {:induction false} SortBySorted(sort: ItemSort, l: seq<Item>)
    ensures SortedBy(sort, SortBy(sort, l))
    decreases |l|
  {
    if l != [] {
      SortBySorted(sort, l[..|l| - 1]);
      InsertStableSorted(sort, l[|l| - 1], SortBy(sort, l[..|l| - 1]));
    }
  }

  lemma {:induction false} KeepTypeSorted(sort: ItemSort, l: seq<Item>, t: ItemType)
    requires SortedBy(sort, l)
    ensures SortedBy(sort, KeepType(l, t))
    ensures forall it :: it in KeepType(l, t) ==> it in l && it.itemType == t
    decreases |l|
  {
    if l != [] {
      var rest := l[1..];
      assert SortedBy(sort, rest) by {
        forall i, j | 0 <= i < j < |rest| ensures !SortsBefore(sort, rest[j], rest[i]) {
          assert rest[i] == l[i + 1] && rest[j] == l[j + 1];
        }
      }
      KeepTypeSorted(sort, rest, t);
      var r := KeepType(rest, t);
      forall j | 0 <= j < |r| ensures !SortsBefore(sort, r[j], l[0]) && r[j] in l {
        assert r[j] in r;
        var k :| 0 <= k < |rest| && rest[k] == r[j];
        assert rest[k] == l[k + 1];
      }
      if l[0].itemType == t {
        assert KeepType(l, t) == [l[0]] + r;
        ConsSorted(sort, l[0], r);
      } else {
        assert KeepType(l, t) == r;
      }
    }
  }

  // --- permutation of the admitted items -----------------------------------

  lemma {:induction false} KeepTypeCount(l: seq<Item>, t: ItemType, it: Item)
    ensures multiset(KeepType(l, t))[it] == if it.itemType == t then multiset(l)[it] else 0
    decreases |l|
  {
    if l != [] {
      var rest := l[1..];
      KeepTypeCount(rest, t, it);
      assert multiset(l) == multiset{l[0]} + multiset(rest) by {
        assert l == [l[0]] + rest;
      }
      if l[0].itemType == t {
        assert KeepType(l, t) == [l[0]] + KeepType(rest, t);
      } else {
        assert KeepType(l, t) == KeepType(rest, t);
      }
    }
  }

  lemma FilterByCount(filter: ItemFilter, l: seq<Item>, it: Item)
    ensures multiset(FilterBy(filter, l))[it] == if Admits(filter, it) then multiset(l)[it] else 0
  {
    match filter
    case All =>
    case Links => KeepTypeCount(l, LINK, it);
    case Text => KeepTypeCount(l, TEXT, it);
    case Images => KeepTypeCount(l, IMAGE, it);
  }

  // --- stability ----------------------------------------------------------

  lemma {:induction false} KeyClassAppend(sort: ItemSort, a: seq<Item>, x: Item, k: Key)
    ensures KeyClass(sort, a + [x], k) == KeyClass(sort, a, k) + (if KeyOf(sort, x) == k then [x] else [])
    decreases |a|
  {
    if a == [] {
      assert a + [x] == [x];
    } else {
      var y, rest := a[0], a[1..];
      KeyClassAppend(sort, rest, x, k);
      KeyClassCons(sort, y, rest + [x], k);
      KeyClassCons(sort, y, rest, k);
      assert a + [x] == [y] + (rest + [x]) && a == [y] + rest;
    }
  }

  lemma {:induction false} KeyClassAllAfter(sort: ItemSort, x: Item, l: seq<Item>)
    requires forall i :: 0 <= i < |l| ==> SortsBefore(sort, x, l[i])
    ensures KeyClass(sort, l, KeyOf(sort, x)) == []
    decreases |l|
  {
    if l != [] {
      SortsBeforeIrreflexive(sort, x);
      KeyClassAllAfter(sort, x, l[1..]);
    }
  }

  lemma {:induction false} InsertStableKeyClass(sort: ItemSort, x: Item, l: seq<Item>, k: Key)
    requires SortedBy(sort, l)
    ensures KeyClass(sort, InsertStable(sort, x, l), k)
         == KeyClass(sort, l, k) + (if KeyOf(sort, x) == k then [x] else [])
    decreases |l|
  {
    if l != [] {
      if SortsBefore(sort, x, l[0]) {
        InsertFrontKeyClass(sort, x, l, k);
      } else {
        SortedTail(sort, l);
        InsertStableKeyClass(sort, x, l[1..], k);
        InsertLaterKeyClass(sort, x, l[0], l[1..], k);
        assert [l[0]] + l[1..] == l;
      }
    }
  }

  lemma SortedTail(sort: ItemSort, l: seq<Item>)
    requires l != [] && SortedBy(sort, l)
    ensures SortedBy(sort, l[1..])
  {
    forall i, j | 0 <= i < j < |l| - 1 ensures !SortsBefore(sort, l[1..][j], l[1..][i]) {
      assert l[1..][j] == l[j + 1] && l[1..][i] == l[i + 1];
    }
  }

  /** Inserting past the head: the head's key class entry stays in front. */
  lemma InsertLaterKeyClass(sort: ItemSort, x: Item, y: Item, rest: seq<Item>, k: Key)
    requires !SortsBefore(sort, x, y)
    requires KeyClass(sort, InsertStable(sort, x, rest), k)
          == KeyClass(sort, rest, k) + (if KeyOf(sort, x) == k then [x] else [])
    ensures KeyClass(sort, InsertStable(sort, x, [y] + rest), k)
         == KeyClass(sort, [y] + rest, k) + (if KeyOf(sort, x) == k then [x] else [])
  {
    var t := InsertStable(sort, x, rest);
    assert InsertStable(sort, x, [y] + rest) == [y] + t by {
      assert ([y] + rest)[0] == y && ([y] + rest)[1..] == rest;
    }
    KeyClassCons(sort, y, t, k);
    KeyClassCons(sort, y, rest, k);
  }

  lemma KeyClassCons(sort: ItemSort, y: Item, t: seq<Item>, k: Key)
    ensures KeyClass(sort, [y] + t, k) == (if KeyOf(sort, y) == k then [y] else []) + KeyClass(sort, t, k)
  {
    assert ([y] + t)[0] == y && ([y] + t)[1..] == t;
  }

  /** Inserting in front of a sorted list whose head is strictly after `x`:
      no element of the list shares `x`'s key. */
  lemma InsertFrontKeyClass(sort: ItemSort, x: Item, l: seq<Item>, k: Key)
    requires SortedBy(sort, l) && l != [] && SortsBefore(sort, x, l[0])
    ensures KeyClass(sort, [x] + l, k) == KeyClass(sort, l, k) + (if KeyOf(sort, x) == k then [x] else [])
  {
    if KeyOf(sort, x) == k {
      forall i | 0 <= i < |l| ensures SortsBefore(sort, x, l[i]) {
        SortsBeforeComparable(sort, x, l[0], l[i]);
      }
      KeyClassAllAfter(sort, x, l);
    }
    assert ([x] + l)[1..] == l;
  }

  lemma {:induction false} SortByKeyClass(sort: ItemSort, l: seq<Item>, k: Key)
    ensures KeyClass(sort, SortBy(sort, l), k) == KeyClass(sort, l, k)
    decreases |l|
  {
    if l != [] {
      var init, last := l[..|l| - 1], l[|l| - 1];
      SortByKeyClass(sort, init, k);
      SortBySorted(sort, init);
      InsertStableKeyClass(sort, last, SortBy(sort, init), k);
      assert l == init + [last];
      KeyClassAppend(sort, init, last, k);
    }
  }

  lemma {:induction false} KeepTypeKeyClass(sort: ItemSort, l: seq<Item>, t: ItemType, k: Key)
    ensures KeyClass(sort, KeepType(l, t), k) == KeepType(KeyClass(sort, l, k), t)
    decreases |l|
  {
    if l != [] {
      KeepTypeKeyClass(sort, l[1..], t, k);
      var head := if l[0].itemType == t then [l[0]] else [];
      assert KeepType(l, t) == head + KeepType(l[1..], t);
      KeyClassConcat(sort, head, KeepType(l[1..], t), k);
      var khead := if KeyOf(sort, l[0]) == k then [l[0]] else [];
      assert KeyClass(sort, l, k) == khead + KeyClass(sort, l[1..], k);
      KeepTypeConcat(khead, KeyClass(sort, l[1..], k), t);
    }
  }

  lemma {:induction false} KeyClassConcat(sort: ItemSort, a: seq<Item>, b: seq<Item>, k: Key)
    ensures KeyClass(sort, a + b, k) == KeyClass(sort, a, k) + KeyClass(sort, b, k)
    decreases |a|
  {
    if a == [] {
      assert a + b == b;
    } else {
      var h := if KeyOf(sort, a[0]) == k then [a[0]] else [];
      var ka, kb := KeyClass(sort, a[1..], k), KeyClass(sort, b, k);
      assert (a + b)[0] == a[0];
      assert (a + b)[1..] == a[1..] + b;
      KeyClassConcat(sort, a[1..], b, k);
      assert KeyClass(sort, a + b, k) == h + (ka + kb);
      assert h + (ka + kb) == (h + ka) + kb;
    }
  }

  lemma {:induction false} KeepTypeConcat(a: seq<Item>, b: seq<Item>, t: ItemType)
    ensures KeepType(a + b, t) == KeepType(a, t) + KeepType(b, t)
    decreases |a|
  {
    if a == [] {
      assert a + b == b;
    } else {
      var h := if a[0].itemType == t then [a[0]] else [];
      var ka, kb := KeepType(a[1..], t), KeepType(b, t);
      assert (a + b)[0] == a[0];
      assert (a + b)[1..] == a[1..] + b;
      KeepTypeConcat(a[1..], b, t);
      assert KeepType(a + b, t) == h + (ka + kb);
      assert h + (ka + kb) == (h + ka) + kb;
    }
  }

  // --- what sortAndFilter promises ----------------------------------------

  /** The order `sortAndFilter` promises between an earlier `a` and a later
      `b`: non-increasing `createdAt` for Date, non-decreasing `text ?: ""`
      for Name and `label ?: ""` for Label. */
  predicate KeyOrdered(sort: ItemSort, a: Item, b: Item)
  {
    match sort
    case Date => a.createdAt >= b.createdAt
    case Name => StrLe(TextKey(a), TextKey(b))
    case Label => StrLe(LabelKey(a), LabelKey(b))
  }

  /** Every earlier item of the result is ordered before every later one. */
  lemma SortAndFilterOrdered(list: seq<Item>, filter: ItemFilter, sort: ItemSort)
    ensures var r := SortAndFilter(list, filter, sort);
      forall i, j :: 0 <= i < j < |r| ==> KeyOrdered(sort, r[i], r[j])
  {
    SortBySorted(sort, list);
    var s := SortBy(sort, list);
    match filter {
      case All =>
      case Links => KeepTypeSorted(sort, s, LINK);
      case Text => KeepTypeSorted(sort, s, TEXT);
      case Images => KeepTypeSorted(sort, s, IMAGE);
    }
    var r := SortAndFilter(list, filter, sort);
    assert SortedBy(sort, r);
    forall i, j | 0 <= i < j < |r| ensures KeyOrdered(sort, r[i], r[j]) {
      assert !SortsBefore(sort, r[j], r[i]);
      if sort != Date {
        StrLtTotal(KeyOf(sort, r[i]).s, KeyOf(sort, r[j]).s);
      }
    }
  }

  /** The result holds exactly the admitted items of the input, each as
      many times as in the input: for All a permutation of the input, for
      the other filters a permutation of the items of that type. */
  lemma SortAndFilterExact(list: seq<Item>, filter: ItemFilter, sort: ItemSort, it: Item)
    ensures multiset(SortAndFilter(list, filter, sort))[it]
         == if Admits(filter, it) then multiset(list)[it] else 0
  {
    SortByPerm(sort, list);
    FilterByCount(filter, SortBy(sort, list), it);
  }

  /** Stability: the items sharing any one key appear in the result in the
      same relative order as in the filtered input. */
  lemma SortAndFilterStable(list: seq<Item>, filter: ItemFilter, sort: ItemSort, k: Key)
    ensures KeyClass(sort, SortAndFilter(list, filter, sort), k) == KeyClass(sort, FilterBy(filter, list), k)
  {
    var s := SortBy(sort, list);
    match filter {
      case All => SortByKeyClass(sort, list, k);
      case Links =>
        KeepTypeKeyClass(sort, s, LINK, k);
        SortByKeyClass(sort, list, k);
        KeepTypeKeyClass(sort, list, LINK, k);
      case Text =>
        KeepTypeKeyClass(sort, s, TEXT, k);
        SortByKeyClass(sort, list, k);
        KeepTypeKeyClass(sort, list, TEXT, k);
      case Images =>
        KeepTypeKeyClass(sort, s, IMAGE, k);
        SortByKeyClass(sort, list, k);
        KeepTypeKeyClass(sort, list, IMAGE, k);
    }
  }

  /** The `sortsByName` test: texts b, a, c sort to a, b, c. */
  lemma ExampleSortsByName(i1: Item, i2: Item, i3: Item)
    requires i1 == NewItem("1", TEXT, 2).(text := Some("b"))
    requires i2 == NewItem("2", TEXT, 3).(text := Some("a"))
    requires i3 == NewItem("3", LINK, 1).(text := Some("c"))
    ensures SortAndFilter([i1, i2, i3], All, Name) == [i2, i1, i3]
  {
    assert [i1, i2, i3][..2] == [i1, i2] && [i1, i2][..1] == [i1] && [i1][..0] == [];
    assert StrLt("a", "b") && !StrLt("c", "b") && !StrLt("c", "a");
    assert SortBy(Name, [i1]) == [i1];
    assert SortBy(Name, [i1, i2]) == [i2, i1];
    assert InsertStable(Name, i3, [i1]) == [i1, i3];
  }

  /** The `filtersLinks` test: only the single LINK item survives. */
  lemma ExampleFiltersLinks(i1: Item, i2: Item, i3: Item)
    requires i1 == NewItem("1", TEXT, 2).(text := Some("b"))
    requires i2 == NewItem("2", TEXT, 3).(text := Some("a"))
    requires i3 == NewItem("3", LINK, 1).(text := Some("c"))
    ensures SortAndFilter([i1, i2, i3], Links, Date) == [i3]
  {
    assert [i1, i2, i3][..2] == [i1, i2] && [i1, i2][..1] == [i1] && [i1][..0] == [];
    assert SortBy(Date, [i1]) == [i1];
    assert SortBy(Date, [i1, i2]) == [i2, i1];
    assert InsertStable(Date, i3, [i1]) == [i1, i3];
    assert SortBy(Date, [i1, i2, i3]) == [i2, i1, i3];
    assert KeepType([i3], LINK) == [i3];
    assert KeepType([i1, i3], LINK) == [i3];
  }

  // ---------------------------------------------------------------------
  // Save rules
  // ---------------------------------------------------------------------

  /** A shared text is a link iff it starts with `http://` or `https://`,
      ignoring case. */
  predicate IsLinkText(trimmed: string)
  {
    StartsWithIgnoreCase(trimmed, "http://") || StartsWithIgnoreCase(trimmed, "https://")
  }

  /** A long s counts as an `s` in the scheme, as under the JVM's folding. */
  lemma LongSSchemeIsLink()
    ensures IsLinkText("HTTP\U{17F}://a") && !IsLinkText("ftp://a")
  {
    assert EqualsIgnoreCase("HTTP\U{17F}://a"[..8], "https://");
    assert "ftp://a"[..7][0] == 'f' && Fold('f') != Fold('h');
  }

  /** The row `saveTextOrLink` stores. `parse`, `suggestLabel` and
      `thumbnail` stand for `Uri.parse`, `LinkCleaner.suggestLabel` and the
      thumbnail fetch; `id` and `now` for the random UUID and the clock. */
  function TextOrLinkItem(raw: string, sourcePkg: Option<string>, userLabel: Option<string>,
                          id: string, now: int,
                          parse: string -> Option<ParsedUrl>,
                          suggestLabel: string -> Option<string>,
                          thumbnail: string -> Option<string>): Item
  {
    var trimmed := Trim(raw);
    var isLink := IsLinkText(trimmed);
    Item(id,
      if isLink then LINK else TEXT,
      Some(trimmed),
      if isLink then Some(Cleaned(trimmed, parse(trimmed))) else None,
      [],
      if isLink then thumbnail(trimmed) else None,
      sourcePkg,
      now,
      false,
      None,
      if userLabel.Some? then userLabel else if isLink then suggestLabel(trimmed) else None)
  }

  /** What `saveTextOrLink` promises about the stored row: the trimmed text
      is kept; the type is LINK iff that text starts with `http://` or
      `https://` ignoring case; only links get a cleaned text and a
      thumbnail; an explicit label wins, otherwise links get a suggested
      label and text gets none. */
  lemma TextOrLinkRules(raw: string, sourcePkg: Option<string>, userLabel: Option<string>,
                        id: string, now: int,
                        parse: string -> Option<ParsedUrl>,
                        suggestLabel: string -> Option<string>,
                        thumbnail: string -> Option<string>)
    ensures var it := TextOrLinkItem(raw, sourcePkg, userLabel, id, now, parse, suggestLabel, thumbnail);
      var t := Trim(raw);
      && it.text == Some(t)
      && (it.itemType == LINK <==> IsLinkText(t))
      && (it.itemType == TEXT <==> !IsLinkText(t))
      && (it.itemType == LINK ==> it.cleanedText == Some(Cleaned(t, parse(t))) && it.thumbnailUrl == thumbnail(t))
      && (it.itemType == TEXT ==> it.cleanedText.None? && it.thumbnailUrl.None?)
      && (userLabel.Some? ==> it.itemLabel == userLabel)
      && (userLabel.None? && it.itemType == LINK ==> it.itemLabel == suggestLabel(t))
      && (userLabel.None? && it.itemType == TEXT ==> it.itemLabel.None?)
      && it.id == id && it.createdAt == now && it.sourcePackage == sourcePkg
      && !it.pinned && it.reminderAt.None? && it.imageUris == []
  {
  }

  /** The stored text of a saved text or link has no surrounding whitespace,
      and is blank only when the shared text was. */
  lemma SavedTextTrimmed(raw: string, sourcePkg: Option<string>, userLabel: Option<string>,
                         id: string, now: int,
                         parse: string -> Option<ParsedUrl>,
                         suggestLabel: string -> Option<string>,
                         thumbnail: string -> Option<string>)
    ensures var t := TextOrLinkItem(raw, sourcePkg, userLabel, id, now, parse, suggestLabel, thumbnail).text.value;
      && (t == [] || (!IsWhitespace(t[0]) && !IsWhitespace(t[|t| - 1])))
      && (t == [] <==> IsBlank(raw))
  {
    TrimSlice(raw);
    TrimEmptyIffBlank(raw);
  }

  /** The image list `saveImages` stores: each shared URI is replaced by its
      imported copy, or kept when the import gives nothing (unknown type or
      an exception). */
  function SavedUris(uris: seq<string>, importOne: string -> Option<string>): (r: seq<string>)
    ensures |r| == |uris|
  {
    if uris == [] then []
    else [if importOne(uris[0]).Some? then importOne(uris[0]).value else uris[0]]
         + SavedUris(uris[1..], importOne)
  }

  lemma {:induction false} SavedUrisElementwise(uris: seq<string>, importOne: string -> Option<string>, i: nat)
    requires i < |uris|
    ensures var r := SavedUris(uris, importOne);
      r[i] == uris[i] || importOne(uris[i]) == Some(r[i])
    ensures importOne(uris[i]).None? ==> SavedUris(uris, importOne)[i] == uris[i]
    decreases i
  {
    if i > 0 {
      SavedUrisElementwise(uris[1..], importOne, i - 1);
    }
  }

  /** The row `saveImages` stores; OCR runs on the first stored URI only. */
  function ImagesItem(uris: seq<string>, sourcePkg: Option<string>, userLabel: Option<string>,
                      id: string, now: int,
                      importOne: string -> Option<string>,
                      ocr: string -> Option<string>): Item
  {
    var saved := SavedUris(uris, importOne);
    Item(id, IMAGE, if saved != [] then ocr(saved[0]) else None, None, saved, None,
      sourcePkg, now, false, None, userLabel)
  }

  /** `saveImages` keeps the length and order of the shared list, OCR text
      comes from element 0 only, and no cleaned text or thumbnail is set. */
  lemma ImagesRules(uris: seq<string>, sourcePkg: Option<string>, userLabel: Option<string>,
                    id: string, now: int,
                    importOne: string -> Option<string>,
                    ocr: string -> Option<string>)
    ensures var it := ImagesItem(uris, sourcePkg, userLabel, id, now, importOne, ocr);
      && it.itemType == IMAGE
      && |it.imageUris| == |uris|
      && (forall i :: 0 <= i < |uris| ==> it.imageUris[i] == uris[i] || importOne(uris[i]) == Some(it.imageUris[i]))
      && (uris == [] ==> it.text.None?)
      && (uris != [] ==> it.text == ocr(it.imageUris[0]))
      && it.cleanedText.None? && it.thumbnailUrl.None? && it.itemLabel == userLabel
  {
    forall i | 0 <= i < |uris|
      ensures SavedUris(uris, importOne)[i] == uris[i] || importOne(uris[i]) == Some(SavedUris(uris, importOne)[i])
    {
      SavedUrisElementwise(uris, importOne, i);
    }
  }

  /** A blank or absent query lists everything; otherwise the query is
      searched as given. */
  predicate InboxSelects(query: Option<string>, it: Item)
  {
    query.None? || IsBlank(query.value) || MatchesQuery(it, query.value)
  }

  class Repository {
    const dao: ItemDao

    constructor(dao: ItemDao)
      ensures this.dao == dao
    {
      this.dao := dao;
    }

    /** `inbox(query)`: `observeAll` for a null or blank query, else `search`. */
    method Inbox(query: Option<string>) returns (l: seq<Item>)
      requires dao.Valid()
      ensures InListOrder(l) && DistinctIds(l)
      ensures forall i :: 0 <= i < |l| ==>
        l[i].id in dao.rows && dao.rows[l[i].id] == l[i] && InboxSelects(query, l[i])
      ensures forall id :: id in dao.rows && InboxSelects(query, dao.rows[id]) ==> dao.rows[id] in l
    {
      if query.None? || IsBlank(query.value) {
        l := dao.ObserveAll();
      } else {
        l := dao.Search(query.value);
      }
    }

    method SaveTextOrLink(raw: string, sourcePkg: Option<string>, userLabel: Option<string>,
                          id: string, now: int,
                          parse: string -> Option<ParsedUrl>,
                          suggestLabel: string -> Option<string>,
                          thumbnail: string -> Option<string>)
      returns (item: Item)
      requires dao.Valid()
      modifies dao
      ensures dao.Valid()
      ensures item == TextOrLinkItem(raw, sourcePkg, userLabel, id, now, parse, suggestLabel, thumbnail)
      ensures dao.rows == old(dao.rows)[id := item]
    {
      var trimmed := Trim(raw);
      var isLink := IsLinkText(trimmed);
      var cleaned: Option<string> := None;
      if isLink {
        var c := Clean(trimmed, parse(trimmed));
        cleaned := Some(c);
      }
      var itemType := if isLink then LINK else TEXT;
      var thumbnailUrl := if isLink then thumbnail(trimmed) else None;
      var finalLabel := if userLabel.Some? then userLabel else if isLink then suggestLabel(trimmed) else None;
      item := Item(id, itemType, Some(trimmed), cleaned, [], thumbnailUrl, sourcePkg, now, false, None, finalLabel);
      dao.Upsert(item);
    }

    method SaveImages(uris: seq<string>, sourcePkg: Option<string>, userLabel: Option<string>,
                      id: string, now: int,
                      importOne: string -> Option<string>,
                      ocr: string -> Option<string>)
      returns (item: Item)
      requires dao.Valid()
      modifies dao
      ensures dao.Valid()
      ensures item == ImagesItem(uris, sourcePkg, userLabel, id, now, importOne, ocr)
      ensures dao.rows == old(dao.rows)[id := item]
    {
      var imageUrisToSave := SavedUris(uris, importOne);
      var ocrText := if imageUrisToSave != [] then ocr(imageUrisToSave[0]) else None;
      item := Item(id, IMAGE, ocrText, None, imageUrisToSave, None, sourcePkg, now, false, None, userLabel);
      dao.Upsert(item);
    }

    method Delete(id: string)
      requires dao.Valid()
      modifies dao
      ensures dao.Valid()
      ensures dao.rows == old(dao.rows) - {id}
    {
      dao.Delete(id);
    }

    method DeleteBulk(ids: seq<string>)
      requires dao.Valid()
      modifies dao
      ensures dao.Valid()
      ensures dao.rows == old(dao.rows) - set i | 0 <= i < |ids| :: ids[i]
    {
      dao.DeleteBulk(ids);
    }

    method Pin(id: string, pinned: bool)
      requires dao.Valid()
      modifies dao
      ensures dao.Valid()
      ensures id in old(dao.rows) ==> dao.rows == old(dao.rows)[id := old(dao.rows)[id].(pinned := pinned)]
      ensures id !in old(dao.rows) ==> dao.rows == old(dao.rows)
    {
      dao.SetPinned(id, pinned);
    }

    method PinBulk(ids: seq<string>, pinned: bool)
      requires dao.Valid()
      modifies dao
      ensures dao.Valid()
      ensures dao.rows.Keys == old(dao.rows).Keys
      ensures forall id :: id in dao.rows ==>
        dao.rows[id] == if id in ids then old(dao.rows)[id].(pinned := pinned) else old(dao.rows)[id]
    {
      dao.SetPinnedBulk(ids, pinned);
    }

    /** `updateLabel`: a no-op when the id is absent; otherwise only that
        row's label changes. */
    method UpdateLabel(id: string, userLabel: Option<string>)
      requires dao.Valid()
      modifies dao
      ensures dao.Valid()
      ensures id in old(dao.rows) ==> dao.rows == old(dao.rows)[id := old(dao.rows)[id].(itemLabel := userLabel)]
      ensures id !in old(dao.rows) ==> dao.rows == old(dao.rows)
    {
      var item := dao.GetItemById(id);
      if item.Some? {
        dao.Upsert(item.value.(itemLabel := userLabel));
      }
    }

    method SetReminder(id: string, reminderAt: Option<int>)
      requires dao.Valid()
      modifies dao
      ensures dao.Valid()
      ensures id in old(dao.rows) ==> dao.rows == old(dao.rows)[id := old(dao.rows)[id].(reminderAt := reminderAt)]
      ensures id !in old(dao.rows) ==> dao.rows == old(dao.rows)
    {
      dao.SetReminder(id, reminderAt);
    }
  }
}
