/** The inbox screen (app/.../ui/inbox/InboxScreen.kt): the split into a
    pinned and a recent section, the rows of the list, the scroll to an item
    opened from a notification, and the per-card texts. */
module Screen {
  import opened Strings
  import opened Longs
  import opened Items
  import opened Repo
  import opened InboxVM

  // --- the two sections ----------------------------------------------------

  /** `filter { it.pinned }` (pinned = true) and `filterNot { it.pinned }`
      (pinned = false). */
  function Section(items: seq<Item>, pinned: bool): (r: seq<Item>)
    ensures |r| <= |items|
    ensures forall i :: 0 <= i < |r| ==> r[i].pinned == pinned
  {
    if items == [] then []
    else (if items[0].pinned == pinned then [items[0]] else []) + Section(items[1..], pinned)
  }

  /** A row of the lazy list. */
  datatype Row = PinnedHeader(count: nat) | Card(item: Item) | Spacer | RecentHeader(count: nat)

  function Cards(l: seq<Item>): (r: seq<Row>)
    ensures |r| == |l|
    ensures forall i :: 0 <= i < |l| ==> r[i] == Card(l[i])
  {
    seq(|l|, i requires 0 <= i < |l| => Card(l[i]))
  }

  /** Header, cards and spacer of the pinned section; nothing when empty. */
  function PinnedBlock(pinned: seq<Item>): (r: seq<Row>)
    ensures |r| == if pinned == [] then 0 else |pinned| + 2
  {
    if pinned == [] then [] else [PinnedHeader(|pinned|)] + Cards(pinned) + [Spacer]
  }

  /** The "Recent" header, only when there are unpinned items, then their
      cards. */
  function RecentBlock(other: seq<Item>): (r: seq<Row>)
    ensures |r| == if other == [] then 0 else |other| + 1
  {
    (if other == [] then [] else [RecentHeader(|other|)]) + Cards(other)
  }

  /** The rows the list shows for a non-empty result. */
  function Layout(items: seq<Item>): seq<Row>
  {
    PinnedBlock(Section(items, true)) + RecentBlock(Section(items, false))
  }

  predicate CardFor(r: Row, id: string)
  {
    r.Card? && r.item.id == id
  }

  /** Row `k` is the first card of the item `id`. */
  predicate FirstCardFor(rows: seq<Row>, k: nat, id: string)
  {
    && k < |rows| && CardFor(rows[k], id)
    && forall m :: 0 <= m < k ==> !CardFor(rows[m], id)
  }

  /** `indexOfFirst { it.id == id }`, with -1 as `None`. */
  function IndexOfFirst(l: seq<Item>, id: string): (r: Option<nat>)
    ensures r.Some? ==> r.value < |l| && l[r.value].id == id && forall k :: 0 <= k < r.value ==> l[k].id != id
    ensures r.None? ==> forall k :: 0 <= k < |l| ==> l[k].id != id
  {
    if l == [] then None
    else if l[0].id == id then Some(0)
    else match IndexOfFirst(l[1..], id)
      case None => None
      case Some(k) => Some(k + 1)
  }

  /** The scroll request made from a notification: `pendingScrollItemId`
      survives until a list containing that item arrives. */
  class ScrollState {
    var pendingScrollItemId: Option<string>

    constructor(initialScrollItemId: Option<string>)
      ensures pendingScrollItemId == initialScrollItemId
    {
      pendingScrollItemId := initialScrollItemId;
    }

    /** The effect run when the items or the pending id change: look in the
        pinned section first (after its header), then in the recent one
        (after the pinned block and the recent header). */
    method OnItemsChanged(items: seq<Item>) returns (scrollTo: Option<nat>)
      modifies this
      ensures old(pendingScrollItemId).None? ==> scrollTo.None? && pendingScrollItemId.None?
      ensures scrollTo.Some? ==>
        && old(pendingScrollItemId).Some?
        && FirstCardFor(Layout(items), scrollTo.value, old(pendingScrollItemId).value)
        && Layout(items)[scrollTo.value].item in items
        && pendingScrollItemId.None?
      ensures old(pendingScrollItemId).Some? && scrollTo.None? ==>
        && pendingScrollItemId == old(pendingScrollItemId)
        && forall i :: 0 <= i < |items| ==> items[i].id != old(pendingScrollItemId).value
    {
      scrollTo := None;
      if pendingScrollItemId.None? {
        return;
      }
      var target := pendingScrollItemId.value;
      var pinnedItems := Section(items, true);
      var otherItems := Section(items, false);
      var pinnedIndex := IndexOfFirst(pinnedItems, target);
      if pinnedIndex.Some? {
        var headerOffset := 1;
        scrollTo := Some(headerOffset + pinnedIndex.value);
        LayoutPinnedPosition(items, pinnedIndex.value, target);
        SectionMembers(items, true, pinnedItems[pinnedIndex.value]);
        pendingScrollItemId := None;
        return;
      }
      var regularIndex := IndexOfFirst(otherItems, target);
      if regularIndex.Some? {
        var offset := 0;
        if pinnedItems != [] {
          offset := offset + 1 + |pinnedItems| + 1;
        }
        offset := offset + 1;
        scrollTo := Some(offset + regularIndex.value);
        LayoutOtherPosition(items, regularIndex.value, target);
        SectionMembers(items, false, otherItems[regularIndex.value]);
        pendingScrollItemId := None;
        return;
      }
      AbsentFromSections(items, target);
    }
  }

  // --- per-card texts ------------------------------------------------------

  /** The reminder chip: shown only for a reminder still in the future; the
      relative phrase comes from the platform. */
  function ReminderText(it: Item, now: int, relative: (int, int) -> string): (r: Option<string>)
    ensures r.Some? <==> HasActiveReminder(it, now)
    ensures r.Some? ==> StartsWith(r.value, "Reminds ")
  {
    match it.reminderAt
    case None => None
    case Some(at) => if at <= now then None else Some("Reminds " + relative(at, now))
  }

  /** The card title. */
  function CardTitle(it: Item): string
  {
    match it.itemType
    case LINK => if it.cleanedText.Some? then it.cleanedText.value else if it.text.Some? then it.text.value else "(link)"
    case TEXT => if it.text.Some? then it.text.value else "(text)"
    case IMAGE => if it.itemLabel.Some? then it.itemLabel.value else "Image"
  }

  /** Whether the Copy chip is enabled. */
  predicate CanCopy(it: Item)
  {
    var text := CopySource(it);
    (text.Some? && !IsBlank(text.value)) || (it.itemType == IMAGE && it.imageUris != [])
  }

  /** The text the label dialog starts with. */
  function InitialLabelText(it: Item): string
  {
    if it.itemLabel.Some? then it.itemLabel.value else ""
  }

  /** What the remaining-time text says, before it is rendered. */
  datatype Remaining =
    | NoReminder
    | Overdue
    | DaysHours(days: nat, hours: nat)
    | HoursMinutes(hours: nat, minutes: nat)
    | MinutesLeft(minutes: nat)
    | UnderAMinute

  /** `remainingTime`: the `Long` difference to the reminder, cut into whole
      minutes, hours and days by integer division. */
  function RemainingOf(reminderAt: Option<int>, now: int): Remaining
  {
    if reminderAt.None? then NoReminder
    else
      var diff := Wrap64(reminderAt.value - now);
      if diff <= 0 then Overdue
      else
        var minutes := diff / (1000 * 60);
        var hours := minutes / 60;
        var days := hours / 24;
        if days > 0 then DaysHours(days, hours % 24)
        else if hours > 0 then HoursMinutes(hours, minutes % 60)
        else if minutes > 0 then MinutesLeft(minutes)
        else UnderAMinute
  }

  function RemainingText(reminderAt: Option<int>, now: int): string
  {
    match RemainingOf(reminderAt, now)
    case NoReminder => "No reminder set"
    case Overdue => "Reminder overdue"
    case DaysHours(d, h) => NatToString(d) + "d " + NatToString(h) + "h remaining"
    case HoursMinutes(h, m) => NatToString(h) + "h " + NatToString(m) + "m remaining"
    case MinutesLeft(m) => NatToString(m) + "m remaining"
    case UnderAMinute => "Less than a minute remaining"
  }

  // --- properties ----------------------------------------------------------

  /** An item is in a section iff it is in the list with that pin state. */
  lemma {:induction false} SectionMembers(items: seq<Item>, pinned: bool, it: Item)
    ensures it in Section(items, pinned) <==> it in items && it.pinned == pinned
    decreases |items|
  {
    if items != [] {
      SectionMembers(items[1..], pinned, it);
      assert items == [items[0]] + items[1..];
    }
  }

  /** The two sections split the list: every occurrence lands in exactly one
      of them. */
  lemma {:induction false} SectionsPartition(items: seq<Item>)
    ensures multiset(Section(items, true)) + multiset(Section(items, false)) == multiset(items)
    decreases |items|
  {
    if items != [] {
      SectionsPartition(items[1..]);
      assert items == [items[0]] + items[1..];
    }
  }

  /** Taking a section commutes with concatenation, so each section keeps
      the relative order of the list. */
  lemma {:induction false} SectionConcat(a: seq<Item>, b: seq<Item>, pinned: bool)
    ensures Section(a + b, pinned) == Section(a, pinned) + Section(b, pinned)
    decreases |a|
  {
    if a != [] {
      var y, rest := a[0], a[1..];
      var h := if y.pinned == pinned then [y] else [];
      SectionConcat(rest, b, pinned);
      assert Section(a + b, pinned) == h + Section(rest + b, pinned) by {
        assert a + b == [y] + (rest + b);
        SectionCons(y, rest + b, pinned);
      }
      assert Section(a, pinned) == h + Section(rest, pinned) by {
        assert a == [y] + rest;
        SectionCons(y, rest, pinned);
      }
      ConcatAssoc(h, Section(rest, pinned), Section(b, pinned));
    } else {
      assert a + b == b;
    }
  }

  lemma ConcatAssoc<T>(x: seq<T>, y: seq<T>, z: seq<T>)
    ensures x + (y + z) == (x + y) + z
  {
  }

  lemma SectionCons(y: Item, t: seq<Item>, pinned: bool)
    ensures Section([y] + t, pinned) == (if y.pinned == pinned then [y] else []) + Section(t, pinned)
  {
    assert ([y] + t)[0] == y && ([y] + t)[1..] == t;
  }

  /** Every two entries of `l` are in the order `sort` shows them. */
  predicate InKeyOrder(sort: ItemSort, l: seq<Item>)
  {
    forall i, j :: 0 <= i < j < |l| ==> KeyOrdered(sort, l[i], l[j])
  }

  /** A list in key order gives sections in key order. */
  lemma {:induction false} SectionKeepsOrder(items: seq<Item>, pinned: bool, sort: ItemSort)
    requires InKeyOrder(sort, items)
    ensures InKeyOrder(sort, Section(items, pinned))
    decreases |items|
  {
    if items != [] {
      var rest := items[1..];
      assert InKeyOrder(sort, rest) by {
        forall i, j | 0 <= i < j < |rest| ensures KeyOrdered(sort, rest[i], rest[j]) {
          assert rest[i] == items[i + 1] && rest[j] == items[j + 1];
        }
      }
      SectionKeepsOrder(rest, pinned, sort);
      if items[0].pinned == pinned {
        assert forall k :: 0 <= k < |rest| ==> KeyOrdered(sort, items[0], rest[k]) by {
          forall k | 0 <= k < |rest| ensures KeyOrdered(sort, items[0], rest[k]) {
            assert rest[k] == items[k + 1];
          }
        }
        HeadBeforeSection(sort, items[0], rest, pinned);
        ConsInKeyOrder(sort, items[0], Section(rest, pinned));
        assert Section(items, pinned) == [items[0]] + Section(rest, pinned);
      } else {
        assert Section(items, pinned) == Section(rest, pinned);
      }
    }
  }

  /** An item before every entry of a list is before every entry of its
      sections. */
  lemma HeadBeforeSection(sort: ItemSort, x: Item, rest: seq<Item>, pinned: bool)
    requires forall k :: 0 <= k < |rest| ==> KeyOrdered(sort, x, rest[k])
    ensures forall j :: 0 <= j < |Section(rest, pinned)| ==> KeyOrdered(sort, x, Section(rest, pinned)[j])
  {
    var t := Section(rest, pinned);
    forall j | 0 <= j < |t| ensures KeyOrdered(sort, x, t[j]) {
      SectionMembers(rest, pinned, t[j]);
    }
  }

  lemma ConsInKeyOrder(sort: ItemSort, x: Item, t: seq<Item>)
    requires InKeyOrder(sort, t)
    requires forall j :: 0 <= j < |t| ==> KeyOrdered(sort, x, t[j])
    ensures InKeyOrder(sort, [x] + t)
  {
    var s := [x] + t;
    forall i, j | 0 <= i < j < |s| ensures KeyOrdered(sort, s[i], s[j]) {
      assert s[j] == t[j - 1];
      if i > 0 {
        assert s[i] == t[i - 1];
      }
    }
  }

  /** A pinned item at index `i` of its section is at row `1 + i`, and no
      earlier row is a card for the same id unless an earlier pinned item
      has it. */
  lemma LayoutPinnedPosition(items: seq<Item>, i: nat, id: string)
    requires i < |Section(items, true)|
    requires forall k :: 0 <= k < i ==> Section(items, true)[k].id != id
    ensures 1 + i < |Layout(items)| && Layout(items)[1 + i] == Card(Section(items, true)[i])
    ensures forall m :: 0 <= m < 1 + i ==> !CardFor(Layout(items)[m], id)
  {
    var p := Section(items, true);
    var pb := PinnedBlock(p);
    var l := Layout(items);
    assert pb == [PinnedHeader(|p|)] + Cards(p) + [Spacer];
    assert pb[1 + i] == Card(p[i]);
    forall m | 0 <= m < 1 + i ensures !CardFor(l[m], id) {
      assert l[m] == pb[m];
      if m > 0 {
        assert pb[m] == Card(p[m - 1]);
      }
    }
  }

  /** An unpinned item at index `j` of its section is at row
      `(pinned non-empty ? pinned size + 2 : 0) + 1 + j`, and no earlier row
      is a card for the same id when no pinned item and no earlier unpinned
      item has it. */
  lemma LayoutOtherPosition(items: seq<Item>, j: nat, id: string)
    requires j < |Section(items, false)|
    requires forall k :: 0 <= k < |Section(items, true)| ==> Section(items, true)[k].id != id
    requires forall k :: 0 <= k < j ==> Section(items, false)[k].id != id
    ensures var p := Section(items, true);
      var offset := (if p != [] then 1 + |p| + 1 else 0) + 1;
      && offset + j < |Layout(items)|
      && Layout(items)[offset + j] == Card(Section(items, false)[j])
      && forall m :: 0 <= m < offset + j ==> !CardFor(Layout(items)[m], id)
  {
    var p := Section(items, true);
    var o := Section(items, false);
    var pb := PinnedBlock(p);
    var rb := RecentBlock(o);
    var l := Layout(items);
    PinnedBlockNoCard(p, id);
    RecentBlockRow(o, j, id);
    assert l[|pb| + 1 + j] == rb[1 + j];
    forall m | 0 <= m < |pb| + 1 + j ensures !CardFor(l[m], id) {
      if m < |pb| {
        assert l[m] == pb[m];
      } else {
        assert l[m] == rb[m - |pb|];
      }
    }
  }

  /** No row of the pinned block is a card for an id no pinned item has. */
  lemma PinnedBlockNoCard(p: seq<Item>, id: string)
    requires forall k :: 0 <= k < |p| ==> p[k].id != id
    ensures forall m :: 0 <= m < |PinnedBlock(p)| ==> !CardFor(PinnedBlock(p)[m], id)
  {
    if p != [] {
      var pb := PinnedBlock(p);
      assert pb == [PinnedHeader(|p|)] + Cards(p) + [Spacer];
      forall m | 0 <= m < |pb| ensures !CardFor(pb[m], id) {
        if 0 < m < |pb| - 1 {
          assert pb[m] == Card(p[m - 1]);
        }
      }
    }
  }

  /** The unpinned item at index `j` is row `1 + j` of the recent block, the
      first card there for its id when no earlier unpinned item has it. */
  lemma RecentBlockRow(o: seq<Item>, j: nat, id: string)
    requires j < |o|
    requires forall k :: 0 <= k < j ==> o[k].id != id
    ensures 1 + j < |RecentBlock(o)| && RecentBlock(o)[1 + j] == Card(o[j])
    ensures forall m :: 0 <= m < 1 + j ==> !CardFor(RecentBlock(o)[m], id)
  {
    var rb := RecentBlock(o);
    assert rb == [RecentHeader(|o|)] + Cards(o);
    forall m | 0 <= m < 1 + j ensures !CardFor(rb[m], id) {
      if m > 0 {
        assert rb[m] == Card(o[m - 1]);
      }
    }
  }

  /** An id found in neither section is on no item. */
  lemma AbsentFromSections(items: seq<Item>, id: string)
    requires forall k :: 0 <= k < |Section(items, true)| ==> Section(items, true)[k].id != id
    requires forall k :: 0 <= k < |Section(items, false)| ==> Section(items, false)[k].id != id
    ensures forall i :: 0 <= i < |items| ==> items[i].id != id
  {
    forall i | 0 <= i < |items| ensures items[i].id != id {
      SectionMembers(items, items[i].pinned, items[i]);
      var s := Section(items, items[i].pinned);
      var k :| 0 <= k < |s| && s[k] == items[i];
    }
  }

  /** The Copy chip is enabled exactly when copying does something. */
  lemma CanCopyIffCopies(it: Item)
    ensures CanCopy(it) <==> !CopyChoice(it).NothingToCopy?
  {
  }

  /** A link or text card shows the text that Copy puts on the clipboard. */
  lemma TitleShowsCopiedText(it: Item)
    requires it.itemType == LINK || (it.itemType == TEXT && it.cleanedText.None?)
    requires CopyChoice(it).CopyText?
    ensures CardTitle(it) == CopyChoice(it).text
  {
  }

  /** Confirming the label dialog untouched keeps a non-blank label and
      turns a blank one into none. */
  lemma LabelDialogRoundTrip(it: Item)
    ensures it.itemLabel.None? || !IsBlank(it.itemLabel.value) ==> IfBlankNull(InitialLabelText(it)) == it.itemLabel
    ensures it.itemLabel.Some? && IsBlank(it.itemLabel.value) ==> IfBlankNull(InitialLabelText(it)).None?
  {
  }

  /** Each case of the remaining-time text brackets the true difference:
      the shown amount is the difference rounded down to the shown units. */
  lemma RemainingBounds(at: int, now: int)
    ensures var diff := Wrap64(at - now);
      match RemainingOf(Some(at), now)
      case NoReminder => false
      case Overdue => diff <= 0
      case DaysHours(d, h) =>
        0 < d && h < 24 && d * 86400000 + h * 3600000 <= diff < d * 86400000 + (h + 1) * 3600000
      case HoursMinutes(h, m) =>
        0 < h < 24 && m < 60 && h * 3600000 + m * 60000 <= diff < h * 3600000 + (m + 1) * 60000
      case MinutesLeft(m) => 0 < m < 60 && m * 60000 <= diff < (m + 1) * 60000
      case UnderAMinute => 0 < diff < 60000
  {
    var diff := Wrap64(at - now);
    if diff > 0 {
      var minutes := diff / 60000;
      var hours := minutes / 60;
      var days := hours / 24;
      assert diff == minutes * 60000 + diff % 60000;
      assert minutes == hours * 60 + minutes % 60;
      assert hours == days * 24 + hours % 24;
      assert diff == days * 86400000 + (hours % 24) * 3600000 + (minutes % 60) * 60000 + diff % 60000;
    }
  }

  /** For a clock and a reminder time within `0..Long.MAX_VALUE`, the
      details dialog shows a remaining time exactly when the card shows an
      active reminder. */
  lemma ActiveIffTimeRemains(it: Item, now: int)
    requires 0 <= now <= MaxLong
    requires it.reminderAt.Some? ==> 0 <= it.reminderAt.value <= MaxLong
    ensures var r := RemainingOf(it.reminderAt, now);
      HasActiveReminder(it, now) <==> !(r.NoReminder? || r.Overdue?)
  {
  }
}
