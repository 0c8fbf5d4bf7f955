/** Link canonicalisation (app/.../util/LinkCleaner.kt): drop tracking query
    parameters, re-emit the rest sorted by name with each name's values
    grouped, drop one trailing slash, and fall back to the input on failure.

    A URL is modelled as the parse that `android.net.Uri` would produce: the
    text before the query, the query as (name, value) pairs in order, and the
    text after it (the `#fragment`, if any). `None` stands for a parse or
    rebuild that throws (for instance an opaque URI such as `mailto:`). */
module LinkCleaner {
  import opened Strings

  datatype Param = Param(name: string, value: string)
  datatype ParsedUrl = ParsedUrl(prefix: string, query: seq<Param>, suffix: string)

  /** The 19 deny-listed parameter names. */
  const StripParams: seq<string> := [
    "utm_source", "utm_medium", "utm_campaign", "utm_term", "utm_content",
    "gclid", "gbraid", "wbraid", "fbclid", "mc_eid", "mc_cid", "igsh", "vero_id",
    "spm", "yclid", "msclkid", "otc", "cmpid", "s_cid"
  ]

  predicate IsDenyListed(p: string)
  {
    exists i :: 0 <= i < |StripParams| && EqualsIgnoreCase(StripParams[i], p)
  }

  /** The `filterNot` predicate: deny-listed, or starting with `utm_`, both ignoring case. */
  predicate IsStripped(p: string)
  {
    IsDenyListed(p) || StartsWithIgnoreCase(p, "utm_")
  }

  // ---------------------------------------------------------------------
  // The parsed query: names and values
  // ---------------------------------------------------------------------

  predicate Distinct(s: seq<string>)
  {
    forall i, j :: 0 <= i < j < |s| ==> s[i] != s[j]
  }

  /** `Uri.getQueryParameters(name)`: the values of `name`, in order. */
  function ValuesOf(q: seq<Param>, n: string): seq<string>
  {
    if q == [] then []
    else ValuesOf(q[..|q| - 1], n) + (if q[|q| - 1].name == n then [q[|q| - 1].value] else [])
  }

  /** `Uri.getQueryParameterNames()`: each name once, in order of first appearance. */
  function NamesOf(q: seq<Param>): (r: seq<string>)
    ensures Distinct(r)
    ensures forall n :: n in r <==> ValuesOf(q, n) != []
  {
    if q == [] then []
    else
      var r := NamesOf(q[..|q| - 1]);
      var n := q[|q| - 1].name;
      if n in r then r else r + [n]
  }

  /** `filterNot { stripped }`. */
  function KeptNames(names: seq<string>): (r: seq<string>)
    ensures forall n :: n in r <==> n in names && !IsStripped(n)
    ensures Distinct(names) ==> Distinct(r)
  {
    if names == [] then []
    else
      var r := KeptNames(names[..|names| - 1]);
      var n := names[|names| - 1];
      if IsStripped(n) then r else r + [n]
  }

  predicate StrictlySorted(s: seq<string>)
  {
    forall i, j :: 0 <= i < j < |s| ==> StrLt(s[i], s[j])
  }

  function InsertName(x: string, s: seq<string>): (r: seq<string>)
    ensures forall n :: n in r <==> n == x || n in s
    ensures |r| == |s| + 1
  {
    if s == [] then [x]
    else if StrLt(x, s[0]) then [x] + s
    else [s[0]] + InsertName(x, s[1..])
  }

  /** `sorted()` on the kept names (insertion sort). */
  function SortNames(s: seq<string>): (r: seq<string>)
    ensures forall n :: n in r <==> n in s
    ensures |r| == |s|
  {
    if s == [] then [] else InsertName(s[|s| - 1], SortNames(s[..|s| - 1]))
  }

  /** The pairs `(name, v)` for each `v` of `values`. */
  function Group(name: string, values: seq<string>): (r: seq<Param>)
    ensures |r| == |values|
    ensures forall i :: 0 <= i < |r| ==> r[i] == Param(name, values[i])
  {
    if values == [] then []
    else Group(name, values[..|values| - 1]) + [Param(name, values[|values| - 1])]
  }

  /** What the nested `for (p in kept) for (v in values(p)) append(p, v)` builds. */
  function Regroup(names: seq<string>, q: seq<Param>): seq<Param>
  {
    if names == [] then []
    else
      var last := names[|names| - 1];
      Regroup(names[..|names| - 1], q) + Group(last, ValuesOf(q, last))
  }

  /** The names `clean` keeps, sorted. */
  function KeptSortedNames(q: seq<Param>): seq<string>
  {
    SortNames(KeptNames(NamesOf(q)))
  }

  /** The query that `clean` rebuilds. */
  function CleanedQuery(q: seq<Param>): seq<Param>
  {
    Regroup(KeptSortedNames(q), q)
  }

  // ---------------------------------------------------------------------
  // Rendering: Uri.Builder.appendQueryParameter and toString
  // ---------------------------------------------------------------------

  /** Characters `Uri.encode` leaves as they are. */
  predicate Unreserved(c: char)
  {
    ('a' <= c <= 'z') || ('A' <= c <= 'Z') || ('0' <= c <= '9')
    || c == '_' || c == '-' || c == '!' || c == '.' || c == '~'
    || c == '\'' || c == '(' || c == ')' || c == '*'
  }

  function HexDigit(d: nat): (c: char)
    requires d < 16
    ensures Unreserved(c)
  {
    "0123456789ABCDEF"[d]
  }

  /** The UTF-8 bytes of one character. */
  function Utf8(c: char): (bytes: seq<nat>)
    ensures 1 <= |bytes| <= 4
    ensures forall i :: 0 <= i < |bytes| ==> bytes[i] < 256
  {
    var v := c as int;
    if v < 0x80 then [v]
    else if v < 0x800 then [0xC0 + v / 64, 0x80 + v % 64]
    else if v < 0x10000 then [0xE0 + v / 4096, 0x80 + (v / 64) % 64, 0x80 + v % 64]
    else [0xF0 + v / 262144, 0x80 + (v / 4096) % 64, 0x80 + (v / 64) % 64, 0x80 + v % 64]
  }

  function PercentBytes(bytes: seq<nat>): (r: string)
    requires forall i :: 0 <= i < |bytes| ==> bytes[i] < 256
    ensures forall i :: 0 <= i < |r| ==> r[i] == '%' || Unreserved(r[i])
  {
    if bytes == [] then []
    else ['%', HexDigit(bytes[0] / 16), HexDigit(bytes[0] % 16)] + PercentBytes(bytes[1..])
  }

  /** `Uri.encode(s, null)`: unreserved characters stay, every other character
      becomes its UTF-8 bytes as `%XX` with upper-case hex digits. */
  function Encode(s: string): (r: string)
    ensures forall i :: 0 <= i < |r| ==> r[i] == '%' || Unreserved(r[i])
  {
    if s == [] then []
    else (if Unreserved(s[0]) then [s[0]] else PercentBytes(Utf8(s[0]))) + Encode(s[1..])
  }

  /** The encoded query text: `name=value` pairs joined by `&`. */
  function QueryText(q: seq<Param>): (r: string)
    ensures '/' !in r
  {
    if q == [] then ""
    else
      var pair := Encode(q[0].name) + "=" + Encode(q[0].value);
      if |q| == 1 then pair else pair + "&" + QueryText(q[1..])
  }

  /** `builder.build().toString()`: no `?` at all when the query is empty. */
  function Rebuild(prefix: string, q: seq<Param>, suffix: string): string
  {
    prefix + (if q == [] then "" else "?" + QueryText(q)) + suffix
  }

  /** The trailing-slash rule applied to the rebuilt string. */
  function DropTrailingSlash(s: string): string
  {
    if EndsWith(s, "/") && CountChar(s, '/') > 2 then s[..|s| - 1] else s
  }

  /** `LinkCleaner.clean(url)`, with the parse of `url` supplied. */
  function Cleaned(url: string, parsed: Option<ParsedUrl>): string
  {
    match parsed
    case None => url
    case Some(u) => DropTrailingSlash(Rebuild(u.prefix, CleanedQuery(u.query), u.suffix))
  }

  /** `LinkCleaner.clean` as the source runs it: rebuild the query, then
      apply the trailing-slash rule; a failed parse returns the input. */
  method Clean(url: string, parsed: Option<ParsedUrl>) returns (r: string)
    ensures r == Cleaned(url, parsed)
  {
    if parsed.None? {
      return url;
    }
    var u := parsed.value;
    var built := RebuildQuery(u.query);
    var cleaned := Rebuild(u.prefix, built, u.suffix);
    if EndsWith(cleaned, "/") && CountChar(cleaned, '/') > 2 {
      r := cleaned[..|cleaned| - 1];
    } else {
      r := cleaned;
    }
  }

  /** The loops of `clean`: filter and sort the names, then append every
      value of every kept name to a cleared query. */
  method RebuildQuery(q: seq<Param>) returns (built: seq<Param>)
    ensures built == CleanedQuery(q)
  {
    var kept := KeptSortedNames(q);
    built := [];
    var i := 0;
    while i < |kept|
      invariant 0 <= i <= |kept|
      invariant built == Regroup(kept[..i], q)
    {
      var p := kept[i];
      built := AppendValues(built, p, ValuesOf(q, p));
      RegroupSnoc(kept, i, q);
      i := i + 1;
    }
    assert kept[..i] == kept;
  }

  /** The inner loop: `appendQueryParameter(p, v)` for each value in turn. */
  method AppendValues(start: seq<Param>, p: string, values: seq<string>) returns (built: seq<Param>)
    ensures built == start + Group(p, values)
  {
    built := start;
    var j := 0;
    while j < |values|
      invariant 0 <= j <= |values|
      invariant built == start + Group(p, values[..j])
    {
      GroupSnoc(p, values, j);
      built := built + [Param(p, values[j])];
      j := j + 1;
    }
    assert values[..j] == values;
  }

  // ---------------------------------------------------------------------
  // Lemmas: values, names and order of the rebuilt query
  // ---------------------------------------------------------------------

  lemma RegroupSnoc(names: seq<string>, i: nat, q: seq<Param>)
    requires i < |names|
    ensures Regroup(names[..i + 1], q) == Regroup(names[..i], q) + Group(names[i], ValuesOf(q, names[i]))
  {
    assert names[..i + 1][..i] == names[..i];
  }

  lemma GroupSnoc(n: string, vs: seq<string>, j: nat)
    requires j < |vs|
    ensures Group(n, vs[..j + 1]) == Group(n, vs[..j]) + [Param(n, vs[j])]
  {
    assert vs[..j + 1][..j] == vs[..j];
  }

  lemma {:induction false} ValuesOfAppend(a: seq<Param>, b: seq<Param>, n: string)
    ensures ValuesOf(a + b, n) == ValuesOf(a, n) + ValuesOf(b, n)
    decreases |b|
  {
    if b == [] {
      assert a + b == a;
    } else {
      var b' := b[..|b| - 1];
      assert (a + b)[..|a + b| - 1] == a + b';
      ValuesOfAppend(a, b', n);
    }
  }

  lemma {:induction false} ValuesOfGroup(m: string, vs: seq<string>, n: string)
    ensures ValuesOf(Group(m, vs), n) == if m == n then vs else []
    decreases |vs|
  {
    if vs != [] {
      var vs' := vs[..|vs| - 1];
      assert Group(m, vs)[..|vs| - 1] == Group(m, vs');
      ValuesOfGroup(m, vs', n);
    }
  }

  /** Regrouping over distinct names gives each listed name exactly its
      values in the original query, and nothing to any other name. */
  lemma {:induction false} ValuesOfRegroup(names: seq<string>, q: seq<Param>, n: string)
    requires Distinct(names)
    ensures ValuesOf(Regroup(names, q), n) == if n in names then ValuesOf(q, n) else []
    decreases |names|
  {
    if names != [] {
      var init := names[..|names| - 1];
      var last := names[|names| - 1];
      ValuesOfRegroup(init, q, n);
      ValuesOfAppend(Regroup(init, q), Group(last, ValuesOf(q, last)), n);
      ValuesOfGroup(last, ValuesOf(q, last), n);
      assert n in names <==> n in init || n == last;
      if n == last {
        assert n !in init;
      }
    }
  }

  lemma {:induction false} RegroupNames(names: seq<string>, q: seq<Param>)
    ensures forall i :: 0 <= i < |Regroup(names, q)| ==> Regroup(names, q)[i].name in names
    decreases |names|
  {
    if names != [] {
      var init := names[..|names| - 1];
      RegroupNames(init, q);
    }
  }

  predicate NamesNonDecreasing(r: seq<Param>)
  {
    forall i, j :: 0 <= i < j < |r| ==> StrLe(r[i].name, r[j].name)
  }

  /** Regrouping strictly sorted names yields pairs whose names never decrease. */
  lemma {:induction false} RegroupOrdered(names: seq<string>, q: seq<Param>)
    requires StrictlySorted(names)
    ensures NamesNonDecreasing(Regroup(names, q))
    decreases |names|
  {
    if names != [] {
      var init := names[..|names| - 1];
      var last := names[|names| - 1];
      RegroupOrdered(init, q);
      RegroupNames(init, q);
      var a := Regroup(init, q);
      var g := Group(last, ValuesOf(q, last));
      var r := a + g;
      assert r == Regroup(names, q);
      forall i, j | 0 <= i < j < |r| ensures StrLe(r[i].name, r[j].name) {
        if j < |a| {
          assert r[i] == a[i] && r[j] == a[j];
          assert StrLe(a[i].name, a[j].name);
        } else if i >= |a| {
          assert r[i] == g[i - |a|] && r[j] == g[j - |a|];
          assert r[i].name == r[j].name;
        } else {
          assert r[i] == a[i] && r[j] == g[j - |a|];
          assert a[i].name in init;
          var k :| 0 <= k < |init| && init[k] == a[i].name;
          assert names[k] == init[k];
          assert StrLt(names[k], names[|names| - 1]);
          assert StrLt(r[i].name, r[j].name);
        }
      }
    }
  }

  lemma {:induction false} RegroupCongruent(names: seq<string>, q1: seq<Param>, q2: seq<Param>)
    requires forall n :: n in names ==> ValuesOf(q1, n) == ValuesOf(q2, n)
    ensures Regroup(names, q1) == Regroup(names, q2)
    decreases |names|
  {
    if names != [] {
      RegroupCongruent(names[..|names| - 1], q1, q2);
    }
  }

  lemma {:induction false} InsertSorted(x: string, s: seq<string>)
    requires StrictlySorted(s) && x !in s
    ensures StrictlySorted(InsertName(x, s))
    decreases |s|
  {
    if s != [] {
      if StrLt(x, s[0]) {
        forall j | 0 < j < |s| ensures StrLt(x, s[j]) {
          StrLtTransitive(x, s[0], s[j]);
        }
      } else {
        StrLtTotal(x, s[0]);
        InsertSorted(x, s[1..]);
        var t := InsertName(x, s[1..]);
        forall j | 0 <= j < |t| ensures StrLt(s[0], t[j]) {
          if t[j] != x {
            assert t[j] in t;
            assert t[j] in s[1..];
            var k :| 0 <= k < |s[1..]| && s[1..][k] == t[j];
            assert s[1..][k] == s[k + 1];
          }
        }
      }
    }
  }

  lemma {:induction false} SortNamesSorted(s: seq<string>)
    requires Distinct(s)
    ensures StrictlySorted(SortNames(s))
    decreases |s|
  {
    if s != [] {
      var init := s[..|s| - 1];
      SortNamesSorted(init);
      assert s[|s| - 1] !in init;
      InsertSorted(s[|s| - 1], SortNames(init));
    }
  }

  lemma NoMemberEmpty(b: seq<string>)
    ensures b == [] <==> forall n :: n !in b
  {
    if b != [] {
      assert b[0] in b;
    }
  }

  /** Two strictly sorted sequences with the same elements are equal. */
  lemma {:induction false} SortedUnique(a: seq<string>, b: seq<string>)
    requires StrictlySorted(a) && StrictlySorted(b)
    requires forall n :: n in a <==> n in b
    ensures a == b
    decreases |a|
  {
    if a == [] {
      NoMemberEmpty(b);
    } else {
      assert a[0] in b;
      assert b != [];
      if a[0] != b[0] {
        assert b[0] in a;
        var i :| 0 < i < |a| && a[i] == b[0];
        var j :| 0 < j < |b| && b[j] == a[0];
        StrLtAsymmetric(a[0], a[i]);
      }
      assert a[0] == b[0];
      forall n ensures n in a[1..] <==> n in b[1..] {
        if n in a[1..] {
          var i :| 0 <= i < |a[1..]| && a[1..][i] == n;
          assert StrLt(a[0], a[i + 1]);
          StrLtIrreflexive(n);
          assert n in b && n != b[0];
          var j :| 0 <= j < |b| && b[j] == n;
          assert b[1..][j - 1] == n;
        }
        if n in b[1..] {
          var j :| 0 <= j < |b[1..]| && b[1..][j] == n;
          assert StrLt(b[0], b[j + 1]);
          StrLtIrreflexive(n);
          assert n in a && n != a[0];
          var i :| 0 <= i < |a| && a[i] == n;
          assert a[1..][i - 1] == n;
        }
      }
      SortedUnique(a[1..], b[1..]);
    }
  }

  lemma KeptSortedNamesFacts(q: seq<Param>)
    ensures var s := KeptSortedNames(q);
      && StrictlySorted(s) && Distinct(s)
      && forall n :: n in s <==> ValuesOf(q, n) != [] && !IsStripped(n)
  {
    SortNamesSorted(KeptNames(NamesOf(q)));
    var s := KeptSortedNames(q);
    forall i, j | 0 <= i < j < |s| ensures s[i] != s[j] {
      StrLtIrreflexive(s[i]);
    }
  }

  // ---------------------------------------------------------------------
  // Lemmas: what `clean` promises
  // ---------------------------------------------------------------------

  /** No parameter name that survives equals a deny-listed name or starts
      with `utm_`, ignoring case. */
  lemma CleanedDropsTracking(q: seq<Param>)
    ensures forall i :: 0 <= i < |CleanedQuery(q)| ==>
      && !StartsWithIgnoreCase(CleanedQuery(q)[i].name, "utm_")
      && forall d :: 0 <= d < |StripParams| ==> !EqualsIgnoreCase(StripParams[d], CleanedQuery(q)[i].name)
  {
    KeptSortedNamesFacts(q);
    RegroupNames(KeptSortedNames(q), q);
  }

  /** Every kept name keeps all of its values in their original order, and
      a stripped name keeps none: nothing else is added or dropped. */
  lemma {:induction false} CleanedKeepsValues(q: seq<Param>, n: string)
    ensures ValuesOf(CleanedQuery(q), n) == if IsStripped(n) then [] else ValuesOf(q, n)
  {
    KeptSortedNamesFacts(q);
    ValuesOfRegroup(KeptSortedNames(q), q, n);
  }

  /** Names come out in ascending order, so the values of one name are
      contiguous. */
  lemma {:induction false} CleanedSortedByName(q: seq<Param>)
    ensures var r := CleanedQuery(q);
      && NamesNonDecreasing(r)
      && (forall i, j, k :: 0 <= i < j < k < |r| && r[i].name == r[k].name ==> r[j].name == r[i].name)
  {
    KeptSortedNamesFacts(q);
    RegroupOrdered(KeptSortedNames(q), q);
    var r := CleanedQuery(q);
    forall i, j, k | 0 <= i < j < k < |r| && r[i].name == r[k].name
      ensures r[j].name == r[i].name
    {
      assert StrLe(r[i].name, r[j].name);
      assert StrLe(r[j].name, r[k].name);
      if r[j].name != r[i].name {
        StrLtAsymmetric(r[i].name, r[j].name);
      }
    }
  }

  /** The filter-and-sort step is idempotent. */
  lemma {:induction false} CleanedQueryIdempotent(q: seq<Param>)
    ensures CleanedQuery(CleanedQuery(q)) == CleanedQuery(q)
  {
    var s := KeptSortedNames(q);
    var out := CleanedQuery(q);
    KeptSortedNamesFacts(q);
    KeptSortedNamesFacts(out);
    forall n ensures ValuesOf(out, n) == if n in s then ValuesOf(q, n) else [] {
      ValuesOfRegroup(s, q, n);
    }
    SortedUnique(KeptSortedNames(out), s);
    RegroupCongruent(s, out, q);
  }

  /** On a parse or rebuild failure the input comes back unchanged. */
  lemma CleanFailureReturnsInput(url: string)
    ensures Cleaned(url, None) == url
  {
  }

  /** Percent-encoding keeps `/` out of the rebuilt query, so only the text
      around it decides the trailing-slash rule. */
  lemma {:induction false} RebuildSlashes(prefix: string, q: seq<Param>, suffix: string)
    ensures CountChar(Rebuild(prefix, q, suffix), '/') == CountChar(prefix, '/') + CountChar(suffix, '/')
    ensures q != [] && suffix == [] ==> !EndsWith(Rebuild(prefix, q, suffix), "/")
  {
    var mid := if q == [] then "" else "?" + QueryText(q);
    assert '/' !in mid;
    CountCharZero(mid, '/');
    CountCharAppend(prefix, mid, '/');
    CountCharAppend(prefix + mid, suffix, '/');
    if q != [] && suffix == [] {
      var s := Rebuild(prefix, q, suffix);
      assert s == prefix + mid;
      assert s[|s| - 1] == mid[|mid| - 1];
    }
  }

  /** Exactly one trailing `/` is removed iff the rebuilt string ends in `/`
      and holds more than two `/`; otherwise it is returned unchanged. */
  lemma TrailingSlashRule(url: string, u: ParsedUrl)
    ensures var c := Rebuild(u.prefix, CleanedQuery(u.query), u.suffix);
      var r := Cleaned(url, Some(u));
      && r == c[..|r|]
      && (|r| == |c| - 1 <==> EndsWith(c, "/") && CountChar(c, '/') > 2)
      && (|r| != |c| - 1 ==> r == c)
  {
  }

  lemma CountCharSnoc(s: string, c: char)
    ensures CountChar(s + [c], c) == CountChar(s, c) + 1
  {
    CountCharAppend(s, [c], c);
  }

  /** The trailing-slash rule is not idempotent: `p//` becomes `p/`, which
      becomes `p` when `p` holds at least two `/`. */
  lemma DropTrailingSlashTwice(p: string)
    requires CountChar(p, '/') >= 2
    ensures DropTrailingSlash(p + "//") == p + "/"
    ensures DropTrailingSlash(p + "/") == p
  {
    DropOneSlash(p);
    CountCharSnoc(p, '/');
    DropOneSlash(p + "/");
    assert p + "//" == (p + "/") + "/";
  }

  lemma DropOneSlash(p: string)
    requires CountChar(p, '/') >= 2
    ensures DropTrailingSlash(p + "/") == p
  {
    CountCharSnoc(p, '/');
    assert (p + "/")[|p|..] == "/";
    assert (p + "/")[..|p|] == p;
  }

  /** Whole-string idempotence fails: cleaning `p//` (no query) gives `p/`,
      and cleaning that again gives `p`. */
  lemma CleanNotIdempotent(p: string)
    requires CountChar(p, '/') >= 2
    ensures Cleaned(p + "//", Some(ParsedUrl(p + "//", [], ""))) == p + "/"
    ensures Cleaned(p + "/", Some(ParsedUrl(p + "/", [], ""))) == p
  {
    CleanedNoQuery(p + "//");
    CleanedNoQuery(p + "/");
    DropTrailingSlashTwice(p);
  }

  /** With no query, only the trailing-slash rule applies. */
  lemma CleanedNoQuery(s: string)
    ensures Cleaned(s, Some(ParsedUrl(s, [], ""))) == DropTrailingSlash(s)
  {
    assert KeptSortedNames([]) == [];
    assert Rebuild(s, [], "") == s;
  }

  /** Case is ignored the way the JVM ignores it: a name spelled with a
      dotless i or with the Kelvin sign is stripped like its ASCII spelling. */
  lemma StrippedUnderJvmFolding()
    ensures IsStripped("GCL\U{131}D") && IsStripped("msCL\U{212A}id")
  {
    assert StripParams[5] == "gclid" && StripParams[15] == "msclkid";
    assert EqualsIgnoreCase(StripParams[5], "GCL\U{131}D");
    assert EqualsIgnoreCase(StripParams[15], "msCL\U{212A}id");
  }

  lemma NotStrippedId()
    ensures !IsStripped("id") && !IsStripped("ID")
  {
    forall i | 0 <= i < |StripParams| ensures !EqualsIgnoreCase(StripParams[i], "id") && !EqualsIgnoreCase(StripParams[i], "ID") {
      assert |StripParams[i]| != 2;
    }
  }

  predicate AllUnreserved(s: string)
  {
    forall i :: 0 <= i < |s| ==> Unreserved(s[i])
  }

  lemma {:induction false} EncodeUnreserved(s: string)
    requires AllUnreserved(s)
    ensures Encode(s) == s
  {
    if s != [] {
      EncodeUnreserved(s[1..]);
    }
  }

  /** When the cleaned query is a single pair of unreserved text and nothing
      follows the query, the result is `prefix?name=value`. */
  lemma CleanedSinglePair(url: string, prefix: string, q: seq<Param>, n: string, v: string)
    requires CleanedQuery(q) == [Param(n, v)]
    requires AllUnreserved(n) && AllUnreserved(v)
    ensures Cleaned(url, Some(ParsedUrl(prefix, q, ""))) == prefix + ("?" + (n + "=" + v))
  {
    EncodeUnreserved(n);
    EncodeUnreserved(v);
    var c := Rebuild(prefix, [Param(n, v)], "");
    RebuildSlashes(prefix, [Param(n, v)], "");
    assert DropTrailingSlash(c) == c;
    assert QueryText([Param(n, v)]) == n + "=" + v;
    assert c == prefix + ("?" + (n + "=" + v)) + "";
  }

  lemma ExampleUnreserved()
    ensures AllUnreserved("id") && AllUnreserved("123") && AllUnreserved("ID") && AllUnreserved("456")
  {
    assert Unreserved('i') && Unreserved('d') && Unreserved('I') && Unreserved('D');
    assert forall c :: '0' <= c <= '9' ==> Unreserved(c);
  }

  lemma ExampleNamesUtm(p1: Param, p2: Param, p3: Param)
    requires p1 == Param("utm_source", "news") && p2 == Param("utm_medium", "email") && p3 == Param("id", "123")
    ensures NamesOf([p1, p2, p3]) == ["utm_source", "utm_medium", "id"]
    ensures ValuesOf([p1, p2, p3], "id") == ["123"]
  {
    var q := [p1, p2, p3];
    assert q[..2] == [p1, p2] && [p1, p2][..1] == [p1] && [p1][..0] == [];
    assert NamesOf([p1]) == ["utm_source"];
    assert NamesOf([p1, p2]) == ["utm_source", "utm_medium"];
    assert ValuesOf([p1], "id") == [] && ValuesOf([p1, p2], "id") == [];
  }

  lemma ExampleKeptUtm()
    ensures KeptNames(["utm_source", "utm_medium", "id"]) == ["id"]
  {
    var ns := ["utm_source", "utm_medium", "id"];
    NotStrippedId();
    assert StartsWithIgnoreCase("utm_source", "utm_") && StartsWithIgnoreCase("utm_medium", "utm_");
    assert ns[..2] == ["utm_source", "utm_medium"] && ns[..2][..1] == ["utm_source"] && ["utm_source"][..0] == [];
    assert KeptNames(["utm_source"]) == [];
    assert KeptNames(ns[..2]) == [];
  }

  lemma ExampleDropsUtmQuery(p1: Param, p2: Param, p3: Param)
    requires p1 == Param("utm_source", "news") && p2 == Param("utm_medium", "email") && p3 == Param("id", "123")
    ensures CleanedQuery([p1, p2, p3]) == [p3]
  {
    var q := [p1, p2, p3];
    ExampleNamesUtm(p1, p2, p3);
    ExampleKeptUtm();
    assert ["id"][..0] == [] && ["123"][..0] == [];
    assert SortNames(["id"]) == ["id"];
    assert Group("id", ["123"]) == [p3];
    assert KeptSortedNames(q) == ["id"];
    assert Regroup(["id"], q) == [p3];
  }

  /** `https://example.com/page?utm_source=news&utm_medium=email&id=123`
      becomes `https://example.com/page?id=123`. */
  lemma ExampleDropsUtm(url: string, prefix: string, p1: Param, p2: Param, p3: Param)
    requires url == "https://example.com/page?utm_source=news&utm_medium=email&id=123"
    requires prefix == "https://example.com/page"
    requires p1 == Param("utm_source", "news") && p2 == Param("utm_medium", "email") && p3 == Param("id", "123")
    ensures Cleaned(url, Some(ParsedUrl(prefix, [p1, p2, p3], ""))) == prefix + ("?" + ("id" + "=" + "123"))
  {
    ExampleDropsUtmQuery(p1, p2, p3);
    ExampleUnreserved();
    CleanedSinglePair(url, prefix, [p1, p2, p3], "id", "123");
  }

  lemma ExampleNamesMixed(p1: Param, p2: Param)
    requires p1 == Param("ID", "456") && p2 == Param("UTM_CAMPAIGN", "summer")
    ensures NamesOf([p1, p2]) == ["ID", "UTM_CAMPAIGN"]
    ensures ValuesOf([p1, p2], "ID") == ["456"]
  {
    var q := [p1, p2];
    assert q[..1] == [p1] && [p1][..0] == [];
    assert NamesOf([p1]) == ["ID"];
    assert ValuesOf([p1], "ID") == ["456"];
  }

  lemma ExampleKeptMixed()
    ensures KeptNames(["ID", "UTM_CAMPAIGN"]) == ["ID"]
  {
    var ns := ["ID", "UTM_CAMPAIGN"];
    NotStrippedId();
    assert StartsWithIgnoreCase("UTM_CAMPAIGN", "utm_");
    assert ns[..1] == ["ID"] && ["ID"][..0] == [];
    assert KeptNames(["ID"]) == ["ID"];
  }

  lemma ExampleMixedCaseQuery(p1: Param, p2: Param)
    requires p1 == Param("ID", "456") && p2 == Param("UTM_CAMPAIGN", "summer")
    ensures CleanedQuery([p1, p2]) == [p1]
  {
    var q := [p1, p2];
    ExampleNamesMixed(p1, p2);
    ExampleKeptMixed();
    assert ["ID"][..0] == [] && ["456"][..0] == [];
    assert SortNames(["ID"]) == ["ID"];
    assert Group("ID", ["456"]) == [p1];
    assert KeptSortedNames(q) == ["ID"];
    assert Regroup(["ID"], q) == [p1];
  }

  /** `https://example.com/path?ID=456&UTM_CAMPAIGN=summer` keeps only `ID=456`. */
  lemma ExampleMixedCase(url: string, prefix: string, p1: Param, p2: Param)
    requires url == "https://example.com/path?ID=456&UTM_CAMPAIGN=summer"
    requires prefix == "https://example.com/path"
    requires p1 == Param("ID", "456") && p2 == Param("UTM_CAMPAIGN", "summer")
    ensures Cleaned(url, Some(ParsedUrl(prefix, [p1, p2], ""))) == prefix + ("?" + ("ID" + "=" + "456"))
  {
    ExampleMixedCaseQuery(p1, p2);
    ExampleUnreserved();
    CleanedSinglePair(url, prefix, [p1, p2], "ID", "456");
  }
}
