/** The persisted record of a captured share (app/.../data/Item.kt) and the
    Room type converter that stores its image list in one text column. */
module Items {
  import opened Strings

  datatype ItemType = TEXT | LINK | IMAGE

  /** One row of the Item table. `createdAt` and `reminderAt` are Kotlin
      `Long` milliseconds, modelled as `int`. */
  // `type` and `label` are Dafny keywords: the fields are `itemType` and `itemLabel`.
  datatype Item = Item(
    id: string,
    itemType: ItemType,
    text: Option<string>,
    cleanedText: Option<string>,
    imageUris: seq<string>,
    thumbnailUrl: Option<string>,
    sourcePackage: Option<string>,
    createdAt: int,
    pinned: bool,
    reminderAt: Option<int>,
    itemLabel: Option<string>)

  /** The data-class constructor with every defaulted argument left at its
      default; `id` (a random UUID) and `createdAt` (the clock) are supplied
      by the caller. */
  function NewItem(id: string, itemType: ItemType, createdAt: int): (it: Item)
    ensures it.id == id && it.itemType == itemType && it.createdAt == createdAt
    ensures !it.pinned && it.reminderAt.None? && it.imageUris == []
    ensures it.text.None? && it.cleanedText.None? && it.thumbnailUrl.None?
    ensures it.sourcePackage.None? && it.itemLabel.None?
  {
    Item(id, itemType, None, None, [], None, None, createdAt, false, None, None)
  }

  /** "Active" reminder: a reminder time is set and lies in the future. */
  predicate HasActiveReminder(it: Item, now: int)
  {
    it.reminderAt.Some? && it.reminderAt.value > now
  }

  // ---------------------------------------------------------------------
  // Converters: List<String> <-> String with the delimiter "|:|"
  // ---------------------------------------------------------------------

  const Delimiter: string := "|:|"

  /** `joinToString("|:|")`. */
  function Join(l: seq<string>): string
  {
    if l == [] then ""
    else if |l| == 1 then l[0]
    else l[0] + Delimiter + Join(l[1..])
  }

  /** Index of the first occurrence of the delimiter at or after `from`. */
  function FirstDelimiterFrom(s: string, from: nat): (r: Option<nat>)
    ensures r.Some? ==> from <= r.value && OccursAt(s, Delimiter, r.value)
    ensures r.Some? ==> forall j :: from <= j < r.value ==> !OccursAt(s, Delimiter, j)
    ensures r.None? ==> forall j :: from <= j ==> !OccursAt(s, Delimiter, j)
    decreases |s| - from
  {
    if from + |Delimiter| > |s| then None
    else if OccursAt(s, Delimiter, from) then Some(from)
    else FirstDelimiterFrom(s, from + 1)
  }

  /** `String.split("|:|")`: the pieces between non-overlapping occurrences
      of the delimiter, found left to right; empty pieces are kept. */
  function Split(s: string): (r: seq<string>)
    ensures |r| >= 1
    decreases |s|
  {
    match FirstDelimiterFrom(s, 0)
    case None => [s]
    case Some(k) => [s[..k]] + Split(s[k + |Delimiter|..])
  }

  /** `Converters.fromList`: a null list is stored as the empty string. */
  function FromList(list: Option<seq<string>>): (s: string)
  {
    match list
    case None => ""
    case Some(l) => Join(l)
  }

  /** `Converters.toList`: null or blank text reads back as the empty list. */
  function ToList(csv: Option<string>): (l: seq<string>)
  {
    match csv
    case None => []
    case Some(s) => if IsBlank(s) then [] else Split(s)
  }

  /** Number of non-overlapping occurrences of the delimiter, counted by a
      left-to-right scan that skips over each match. */
  function CountDelimiters(s: string): nat
    decreases |s|
  {
    if |s| < |Delimiter| then 0
    else if s[..|Delimiter|] == Delimiter then 1 + CountDelimiters(s[|Delimiter|..])
    else CountDelimiters(s[1..])
  }

  predicate NoPipe(x: string)
  {
    '|' !in x
  }

  // ---------------------------------------------------------------------
  // Properties of the converter pair
  // ---------------------------------------------------------------------

  /** Null list and null or blank text decode to the empty list / empty text. */
  lemma NullAndBlankDecode(s: string)
    requires IsBlank(s)
    ensures FromList(None) == ""
    ensures ToList(None) == [] && ToList(Some(s)) == []
  {
  }

  /** Splitting then joining gives back the text, whatever it holds. */
  lemma {:induction false} JoinSplit(s: string)
    ensures Join(Split(s)) == s
    decreases |s|
  {
    match FirstDelimiterFrom(s, 0)
    case None =>
    case Some(k) =>
      var rest := s[k + |Delimiter|..];
      var l := Split(s);
      assert |l| >= 2 && l[0] == s[..k] && l[1..] == Split(rest) by {
        assert l == [s[..k]] + Split(rest);
      }
      JoinSplit(rest);
      assert s == s[..k] + Delimiter + rest by {
        assert s[k..k + |Delimiter|] == Delimiter;
        assert s == s[..k] + s[k..k + |Delimiter|] + rest;
      }
  }

  /** `fromList(toList(s)) == s` for every non-blank `s`. */
  lemma TextRoundTrip(s: string)
    requires !IsBlank(s)
    ensures FromList(Some(ToList(Some(s)))) == s
  {
    JoinSplit(s);
  }

  lemma {:induction false} FirstDelimiterAfterPipeFree(x: string, y: string, from: nat)
    requires from <= |x| && NoPipe(x)
    ensures FirstDelimiterFrom(x + Delimiter + y, from) == Some(|x|)
    decreases |x| - from
  {
    var s := x + Delimiter + y;
    assert s[|x|..|x| + |Delimiter|] == Delimiter;
    if from < |x| {
      assert s[from] == x[from];
      assert !OccursAt(s, Delimiter, from);
      FirstDelimiterAfterPipeFree(x, y, from + 1);
    }
  }

  lemma {:induction false} NoDelimiterInPipeFree(x: string, from: nat)
    requires NoPipe(x)
    ensures FirstDelimiterFrom(x, from) == None
    decreases |x| - from
  {
    if from + |Delimiter| <= |x| {
      assert x[from] == x[from..from + |Delimiter|][0];
      NoDelimiterInPipeFree(x, from + 1);
    }
  }

  lemma {:induction false} SplitJoin(l: seq<string>)
    requires l != []
    requires forall i :: 0 <= i < |l| ==> NoPipe(l[i])
    ensures Split(Join(l)) == l
  {
    if |l| == 1 {
      NoDelimiterInPipeFree(l[0], 0);
    } else {
      var s := Join(l);
      FirstDelimiterAfterPipeFree(l[0], Join(l[1..]), 0);
      assert s[..|l[0]|] == l[0];
      assert s[|l[0]| + |Delimiter|..] == Join(l[1..]);
      SplitJoin(l[1..]);
    }
  }

  /** `toList(fromList(l)) == l` when no element contains `|` and `l` is not a
      single blank element (which decodes to the empty list). */
  lemma ListRoundTrip(l: seq<string>)
    requires forall i :: 0 <= i < |l| ==> NoPipe(l[i])
    requires !(|l| == 1 && IsBlank(l[0]))
    ensures ToList(Some(FromList(Some(l)))) == l
  {
    if l != [] {
      if |l| >= 2 {
        var s := Join(l);
        assert s[|l[0]|] == '|';
      }
      SplitJoin(l);
    }
  }

  /** The round trip is not total: a single empty element is lost. */
  lemma ListRoundTripLosesBlankElement()
    ensures ToList(Some(FromList(Some([""])))) == []
  {
  }

  /** The round trip is not total: an element holding the delimiter splits. */
  lemma ListRoundTripSplitsDelimiter()
    ensures ToList(Some(FromList(Some(["a|:|b"])))) == ["a", "b"]
  {
    var s := "a|:|b";
    assert !IsBlank(s) by { assert !IsWhitespace(s[0]); }
    assert OccursAt(s, Delimiter, 1);
    assert !OccursAt(s, Delimiter, 0) by {
      assert |Delimiter| == 3 && Delimiter[0] == '|';
      assert s[0..3][0] == 'a';
    }
    assert FirstDelimiterFrom(s, 0) == Some(1);
    assert s[..1] == "a" && s[4..] == "b";
    assert FirstDelimiterFrom("b", 0) == None;
    assert Split("b") == ["b"];
    assert Split(s) == [s[..1]] + Split(s[4..]);
  }

  lemma {:induction false} CountSkipsPrefix(s: string, k: nat)
    requires k <= |s|
    requires forall j :: 0 <= j < k ==> !OccursAt(s, Delimiter, j)
    ensures CountDelimiters(s) == CountDelimiters(s[k..])
    decreases k
  {
    if k > 0 {
      assert |s| >= |Delimiter| ==> s[..|Delimiter|] != Delimiter by {
        assert !OccursAt(s, Delimiter, 0);
      }
      if |s| >= |Delimiter| {
        var t := s[1..];
        forall j | 0 <= j < k - 1 ensures !OccursAt(t, Delimiter, j) {
          assert !OccursAt(s, Delimiter, j + 1);
          if j + |Delimiter| <= |t| {
            assert t[j..j + |Delimiter|] == s[j + 1..j + 1 + |Delimiter|];
          }
        }
        CountSkipsPrefix(t, k - 1);
        assert t[k - 1..] == s[k..];
      } else {
        assert CountDelimiters(s[k..]) == 0;
      }
    }
  }

  lemma {:induction false} SplitCount(s: string)
    ensures |Split(s)| == 1 + CountDelimiters(s)
    decreases |s|
  {
    match FirstDelimiterFrom(s, 0)
    case None =>
      CountSkipsPrefix(s, |s|);
      assert s[|s|..] == [];
    case Some(k) =>
      CountSkipsPrefix(s, k);
      var t := s[k..];
      assert t[..|Delimiter|] == Delimiter;
      assert t[|Delimiter|..] == s[k + |Delimiter|..];
      SplitCount(s[k + |Delimiter|..]);
  }

  /** For non-blank text, `toList` yields one more element than there are
      non-overlapping occurrences of the delimiter. */
  lemma PieceCount(s: string)
    requires !IsBlank(s)
    ensures |ToList(Some(s))| == 1 + CountDelimiters(s)
  {
    SplitCount(s);
  }
}
