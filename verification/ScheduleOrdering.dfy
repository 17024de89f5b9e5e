/** A schedule keeps its repositories as unordered links plus one string, the
    JSON of the ordered id list, and reads them back sorted by the position of
    each id inside that string. For UUIDs this is the order of the list. */
module ScheduleOrdering {
  import opened Prelude

  // ---- JSON.stringify of a list of strings (sections 5 and 7 of RFC 8259) ------

  const HEX := "0123456789abcdef"

  function EscapeChar(c: char): string {
    if c == '"' then "\\\""
    else if c == '\\' then "\\\\"
    else if c == '\U{8}' then "\\b"
    else if c == '\U{C}' then "\\f"
    else if c == '\n' then "\\n"
    else if c == '\r' then "\\r"
    else if c == '\t' then "\\t"
    else if c < ' ' then "\\u00" + [HEX[c as int / 16], HEX[c as int % 16]]
    else [c]
  }

  function Escape(s: string): string {
    if s == "" then "" else EscapeChar(s[0]) + Escape(s[1..])
  }

  function HexValue(c: char): Option<int> {
    if '0' <= c <= '9' then Some(c as int - '0' as int)
    else if 'a' <= c <= 'f' then Some(c as int - 'a' as int + 10)
    else if 'A' <= c <= 'F' then Some(c as int - 'A' as int + 10)
    else None
  }

  /** The character at the front of the text between two quotes, and how long its
      notation is (section 7 of RFC 8259; escapes of four digits up to U+00FF). */
  function Front(s: string): Option<(char, nat)>
    requires s != ""
  {
    if s[0] == '"' || s[0] < ' ' then None
    else if s[0] != '\\' then Some((s[0], 1))
    else if |s| < 2 then None
    else if s[1] in "\"\\/" then Some((s[1], 2))
    else if s[1] == 'b' then Some(('\U{8}', 2))
    else if s[1] == 'f' then Some(('\U{C}', 2))
    else if s[1] == 'n' then Some(('\n', 2))
    else if s[1] == 'r' then Some(('\r', 2))
    else if s[1] == 't' then Some(('\t', 2))
    else if |s| >= 6 && s[1..4] == "u00" && HexValue(s[4]).Some? && HexValue(s[5]).Some?
    then Some(((16 * HexValue(s[4]).value + HexValue(s[5]).value) as char, 6))
    else None
  }

  /** The string a text between two quotes stands for. */
  function Unescape(s: string): Option<string> {
    if s == "" then Some("")
    else match Front(s)
      case None => None
      case Some((c, n)) =>
        if n > |s| || n == 0 then None
        else match Unescape(s[n..]) case Some(rest) => Some([c] + rest) case None => None
  }

  lemma {:induction false} FrontOfEscape(c: char, rest: string)
    ensures Front(EscapeChar(c) + rest) == Some((c, |EscapeChar(c)|))
  {
    var s := EscapeChar(c) + rest;
    if |EscapeChar(c)| == 6 {
      var n := c as int;
      assert s[1..4] == "u00" && s[4] == HEX[n / 16] && s[5] == HEX[n % 16];
      HexDigitValue(n / 16);
      HexDigitValue(n % 16);
      assert 16 * (n / 16) + n % 16 == n;
    }
  }

  lemma {:induction false} HexDigitValue(d: nat)
    requires d < 16
    ensures HexValue(HEX[d]) == Some(d)
  {
    assert HEX[..10] == "0123456789" && HEX[10..] == "abcdef";
  }

  lemma {:induction false} UnescapeCons(c: char, rest: string)
    requires Unescape(rest).Some?
    ensures Unescape(EscapeChar(c) + rest) == Some([c] + Unescape(rest).value)
  {
    var s, n := EscapeChar(c) + rest, |EscapeChar(c)|;
    FrontOfEscape(c, rest);
    assert s != "" && 0 < n <= |s|;
    assert s[n..] == rest;
  }

  /** Every string can be read back from its JSON: nothing in it ends the quotes. */
  lemma {:induction false} EscapeRoundTrip(s: string)
    ensures Unescape(Escape(s)) == Some(s)
  {
    if s != "" {
      EscapeRoundTrip(s[1..]);
      UnescapeCons(s[0], Escape(s[1..]));
      assert [s[0]] + s[1..] == s;
    }
  }

  function Quote(s: string): string {
    "\"" + Escape(s) + "\""
  }

  function Elements(r: seq<string>): string {
    if r == [] then ""
    else if |r| == 1 then Quote(r[0])
    else Elements(r[..|r| - 1]) + "," + Quote(r[|r| - 1])
  }

  function Stringify(r: seq<string>): string {
    "[" + Elements(r) + "]"
  }

  // ---- indexOf and toSorted -------------------------------------------------------

  predicate OccursAt(s: string, t: string, k: int) {
    0 <= k && k + |t| <= |s| && s[k..k + |t|] == t
  }

  function IndexFrom(s: string, t: string, k: nat): (r: int)
    ensures r == -1 || (OccursAt(s, t, r) && r >= k)
    ensures forall j :: k <= j && (r == -1 || j < r) ==> !OccursAt(s, t, j)
    decreases |s| - k
  {
    if k + |t| > |s| then -1
    else if s[k..k + |t|] == t then k
    else IndexFrom(s, t, k + 1)
  }

  /** The first position of `t` in `s`, or -1. */
  function IndexOf(s: string, t: string): int {
    IndexFrom(s, t, 0)
  }

  function Insert(x: string, ys: seq<string>, key: string -> int): seq<string> {
    if ys == [] || key(x) <= key(ys[0]) then [x] + ys else [ys[0]] + Insert(x, ys[1..], key)
  }

  /** The stable sort by key. */
  function SortBy(xs: seq<string>, key: string -> int): seq<string> {
    if xs == [] then [] else Insert(xs[0], SortBy(xs[1..], key), key)
  }

  ghost predicate Sorted(xs: seq<string>, key: string -> int) {
    forall i, j :: 0 <= i < j < |xs| ==> key(xs[i]) <= key(xs[j])
  }

  function WithKey(xs: seq<string>, key: string -> int, k: int): (r: seq<string>)
    ensures forall x :: x in r <==> x in xs && key(x) == k
  {
    if xs == [] then [] else (if key(xs[0]) == k then [xs[0]] else []) + WithKey(xs[1..], key, k)
  }

  lemma {:induction false} WithKeyAppend(xs: seq<string>, ys: seq<string>, key: string -> int, k: int)
    ensures WithKey(xs + ys, key, k) == WithKey(xs, key, k) + WithKey(ys, key, k)
  {
    if xs == [] {
      assert xs + ys == ys;
    } else {
      assert (xs + ys)[1..] == xs[1..] + ys;
      WithKeyAppend(xs[1..], ys, key, k);
    }
  }

  lemma {:induction false} InsertElements(x: string, ys: seq<string>, key: string -> int)
    ensures forall y :: y in Insert(x, ys, key) <==> y == x || y in ys
  {
    if ys != [] && key(x) > key(ys[0]) { InsertElements(x, ys[1..], key); }
  }

  lemma {:induction false} InsertSorted(x: string, ys: seq<string>, key: string -> int)
    requires Sorted(ys, key)
    ensures Sorted(Insert(x, ys, key), key)
  {
    if ys != [] && key(x) > key(ys[0]) {
      InsertSorted(x, ys[1..], key);
      InsertElements(x, ys[1..], key);
      var rest := Insert(x, ys[1..], key);
      forall j | 0 <= j < |rest| ensures key(ys[0]) <= key(rest[j]) {
        assert rest[j] in rest;
      }
    }
  }

  lemma {:induction false} InsertWithKey(x: string, ys: seq<string>, key: string -> int, k: int)
    ensures WithKey(Insert(x, ys, key), key, k) == (if key(x) == k then [x] else []) + WithKey(ys, key, k)
  {
    if ys != [] && key(x) > key(ys[0]) {
      InsertWithKey(x, ys[1..], key, k);
      WithKeyCons(ys[0], Insert(x, ys[1..], key), key, k);
    } else {
      WithKeyCons(x, ys, key, k);
    }
  }

  lemma WithKeyCons(x: string, xs: seq<string>, key: string -> int, k: int)
    ensures WithKey([x] + xs, key, k) == (if key(x) == k then [x] else []) + WithKey(xs, key, k)
  {
    assert ([x] + xs)[1..] == xs;
  }

  /** Sorted by key, and elements with equal keys in their original order. */
  lemma {:induction false} SortIsStable(xs: seq<string>, key: string -> int, k: int)
    ensures Sorted(SortBy(xs, key), key)
    ensures WithKey(SortBy(xs, key), key, k) == WithKey(xs, key, k)
  {
    if xs != [] {
      SortIsStable(xs[1..], key, k);
      InsertSorted(xs[0], SortBy(xs[1..], key), key);
      InsertWithKey(xs[0], SortBy(xs[1..], key), key, k);
    }
  }

  /** There is only one stable sort. */
  lemma {:induction false} StableSortUnique(a: seq<string>, b: seq<string>, key: string -> int)
    requires Sorted(a, key) && Sorted(b, key)
    requires forall k :: WithKey(a, key, k) == WithKey(b, key, k)
    ensures a == b
  {
    if b != [] { assert b[0] in WithKey(a, key, key(b[0])); }
    if a != [] {
      assert a[0] in WithKey(b, key, key(a[0]));
      assert key(a[0]) == key(b[0]);
      assert WithKey(a, key, key(a[0]))[0] == a[0] && WithKey(b, key, key(a[0]))[0] == b[0];
      forall k ensures WithKey(a[1..], key, k) == WithKey(b[1..], key, k) {
        var c := if key(a[0]) == k then 1 else 0;
        assert WithKey(a[1..], key, k) == WithKey(a, key, k)[c..];
        assert WithKey(b[1..], key, k) == WithKey(b, key, k)[c..];
      }
      StableSortUnique(a[1..], b[1..], key);
    }
  }

  // ---- UUIDs inside the string ----------------------------------------------------

  predicate IsHex(c: char) {
    '0' <= c <= '9' || 'a' <= c <= 'f' || 'A' <= c <= 'F'
  }

  /** The text form of a UUID (section 4 of RFC 9562). */
  predicate IsUuid(s: string) {
    && |s| == 36
    && forall i :: 0 <= i < 36 ==> if i in {8, 13, 18, 23} then s[i] == '-' else IsHex(s[i])
  }

  predicate AllUuid(r: seq<string>) {
    forall x | x in r :: IsUuid(x)
  }

  lemma {:induction false} EscapePlain(s: string)
    requires forall c | c in s :: IsHex(c) || c == '-'
    ensures Escape(s) == s
  {
    if s != "" {
      assert s[0] in s;
      assert EscapeChar(s[0]) == [s[0]];
      EscapePlain(s[1..]);
      assert s == [s[0]] + s[1..];
    }
  }

  lemma QuoteUuid(x: string)
    requires IsUuid(x)
    ensures Quote(x) == "\"" + x + "\"" && |Quote(x)| == 38
    ensures '"' !in x
  {
    EscapePlain(x);
  }

  /** Everything before the closing bracket. */
  function Open(r: seq<string>): string {
    "[" + Elements(r)
  }

  /** A further element. */
  function Next(x: string): string {
    "," + ("\"" + x + "\"")
  }

  lemma OpenLast(r: seq<string>)
    requires AllUuid(r) && |r| > 1
    ensures Open(r) == Open(r[..|r| - 1]) + Next(r[|r| - 1])
  {
    QuoteUuid(r[|r| - 1]);
  }

  lemma {:induction false} OpenLength(r: seq<string>)
    requires AllUuid(r) && r != []
    ensures |Open(r)| == 39 * |r|
  {
    if |r| == 1 {
      QuoteUuid(r[0]);
    } else {
      OpenLength(r[..|r| - 1]);
      OpenLast(r);
      assert IsUuid(r[|r| - 1]);
    }
  }

  /** Id `i` occupies positions 39i+2 to 39i+37, with quotes right around it. */
  predicate Slot(open: string, x: string, i: nat) {
    && 39 * i + 39 <= |open|
    && open[39 * i + 1] == '"' && open[39 * i + 38] == '"' && open[39 * i + 2..39 * i + 38] == x
  }

  lemma FirstSlot(x: string)
    requires IsUuid(x)
    ensures Slot(Open([x]), x, 0)
  {
    QuoteUuid(x);
    assert Open([x]) == "[\"" + x + "\"";
    assert Open([x])[2..38] == x;
  }

  lemma SlotKept(before: string, more: string, x: string, i: nat)
    requires Slot(before, x, i)
    ensures Slot(before + more, x, i)
  {
    assert (before + more)[39 * i + 2..39 * i + 38] == before[39 * i + 2..39 * i + 38];
  }

  lemma LastSlot(before: string, x: string, i: nat)
    requires IsUuid(x) && |before| == 39 * i
    ensures Slot(before + Next(x), x, i)
  {
    var open := before + Next(x);
    assert open[39 * i + 2..39 * i + 38] == x;
  }

  lemma {:induction false} Layout(r: seq<string>, i: nat)
    requires AllUuid(r) && i < |r|
    ensures Slot(Open(r), r[i], i)
  {
    if |r| == 1 {
      FirstSlot(r[0]);
      assert r == [r[0]];
    } else {
      var n := |r| - 1;
      OpenLast(r);
      if i < n {
        Layout(r[..n], i);
        SlotKept(Open(r[..n]), Next(r[n]), r[i], i);
      } else {
        OpenLength(r[..n]);
        LastSlot(Open(r[..n]), r[n], n);
      }
    }
  }

  /** A window of 36 characters that starts anywhere but at an id takes in a quote. */
  lemma MisalignedWindow(s: string, x: string, i: nat, k: nat)
    requires 39 * i + 39 <= |s| && s[39 * i + 1] == '"' && s[39 * i + 38] == '"'
    requires |x| == 36 && OccursAt(s, x, k) && k / 39 == i && k % 39 != 2
    ensures '"' in x
  {
    var q := if k % 39 < 2 then 39 * i + 1 else 39 * i + 38;
    assert k == 39 * i + k % 39;
    assert s[k..k + 36][q - k] == '"';
  }

  lemma {:induction false} AlignedSlot(s: string, id: string, x: string, i: nat)
    requires Slot(s, id, i) && |x| == 36
    ensures OccursAt(s, x, 39 * i + 2) <==> id == x
  {
    assert s[39 * i + 2..39 * i + 2 + 36] == s[39 * i + 2..39 * i + 38];
  }

  lemma {:induction false} StringifySlot(r: seq<string>, i: nat)
    requires AllUuid(r) && i < |r|
    ensures Slot(Stringify(r), r[i], i)
  {
    Layout(r, i);
    assert Stringify(r) == Open(r) + "]";
    SlotKept(Open(r), "]", r[i], i);
  }

  lemma {:induction false} StringifyLength(r: seq<string>)
    requires AllUuid(r)
    ensures |Stringify(r)| == if r == [] then 2 else 39 * |r| + 1
  {
    if r != [] {
      OpenLength(r);
      assert Stringify(r) == Open(r) + "]";
    }
  }

  /** A UUID occurs in the string exactly at the slots that hold it. */
  lemma {:induction false} OccurrencesAligned(r: seq<string>, x: string, k: int)
    requires AllUuid(r) && IsUuid(x)
    ensures OccursAt(Stringify(r), x, k) <==> 0 <= k && k % 39 == 2 && k / 39 < |r| && r[k / 39] == x
  {
    StringifyLength(r);
    if 0 <= k && k / 39 < |r| {
      var i := k / 39;
      StringifySlot(r, i);
      if k % 39 == 2 {
        AlignedSlot(Stringify(r), r[i], x, i);
      } else if OccursAt(Stringify(r), x, k) {
        QuoteUuid(x);
        MisalignedWindow(Stringify(r), x, i, k);
      }
    }
  }

  /** The first index of `x` in the list. */
  function First(r: seq<string>, x: string): (i: nat)
    requires x in r
    ensures i < |r| && r[i] == x
    ensures forall j :: 0 <= j < i ==> r[j] != x
  {
    if r[0] == x then 0 else 1 + First(r[1..], x)
  }

  lemma IndexOfUuid(r: seq<string>, x: string)
    requires AllUuid(r) && IsUuid(x)
    ensures IndexOf(Stringify(r), x) == if x in r then 2 + 39 * First(r, x) else -1
  {
    var at := IndexOf(Stringify(r), x);
    if at != -1 { OccurrencesAligned(r, x, at); }
    if x in r {
      var k := 2 + 39 * First(r, x);
      OccurrencesAligned(r, x, k);
      assert k / 39 == First(r, x) && k % 39 == 2;
    }
  }

  // ---- The order read back ---------------------------------------------------------

  /** The list without repetitions, each id where it first occurs. */
  function Dedup(r: seq<string>): (d: seq<string>)
    ensures forall x :: x in d <==> x in r
  {
    if r == [] then []
    else
      var n := |r| - 1;
      Dedup(r[..n]) + (if r[n] in r[..n] then [] else [r[n]])
  }

  lemma {:induction false} DedupDistinct(r: seq<string>)
    requires Distinct(r)
    ensures Dedup(r) == r
  {
    if r != [] {
      var n := |r| - 1;
      DedupDistinct(r[..n]);
      assert r[n] !in r[..n];
      assert r == r[..n] + [r[n]];
    }
  }

  lemma {:induction false} DedupOrdered(r: seq<string>)
    ensures forall i, j :: 0 <= i < j < |Dedup(r)| ==> First(r, Dedup(r)[i]) < First(r, Dedup(r)[j])
  {
    if r != [] {
      var n := |r| - 1;
      DedupOrdered(r[..n]);
      forall x | x in r[..n] ensures First(r, x) == First(r[..n], x) {}
    }
  }

  lemma {:induction false} FilterOrdered(xs: seq<string>, p: string -> bool, key: string -> int)
    requires forall i, j :: 0 <= i < j < |xs| ==> key(xs[i]) < key(xs[j])
    ensures forall i, j :: 0 <= i < j < |Filter(xs, p)| ==> key(Filter(xs, p)[i]) < key(Filter(xs, p)[j])
  {
    if xs != [] {
      FilterOrdered(xs[1..], p, key);
      var rest := Filter(xs[1..], p);
      assert forall y | y in rest :: key(xs[0]) < key(y);
    }
  }

  lemma {:induction false} WithKeyIsFilter(xs: seq<string>, key: string -> int, k: int, p: string -> bool)
    requires forall x | x in xs :: p(x) <==> key(x) == k
    ensures WithKey(xs, key, k) == Filter(xs, p)
  {
    if xs != [] { WithKeyIsFilter(xs[1..], key, k, p); }
  }

  lemma {:induction false} WithKeyOne(xs: seq<string>, key: string -> int, k: int, x: string)
    requires Distinct(xs) && forall y | y in xs && key(y) == k :: y == x
    ensures WithKey(xs, key, k) == if x in xs && key(x) == k then [x] else []
  {
    if xs != [] {
      assert Distinct(xs[1..]);
      assert xs[0] !in xs[1..];
      WithKeyOne(xs[1..], key, k, x);
    }
  }

  /** Position in the string as a sort key. */
  function Key(ordering: string): string -> int {
    x => IndexOf(ordering, x)
  }

  /** Order by substring refines order by list. Whatever order the links come in,
      sorting them by position in the JSON of `r` gives first the ids that are not
      in `r`, in the order they came, then those of `r` in list order. */
  lemma SubstringOrderIsListOrder(r: seq<string>, rows: seq<string>)
    requires AllUuid(r) && AllUuid(rows) && Distinct(rows)
    ensures SortBy(rows, Key(Stringify(r))) == Filter(rows, x => x !in r) + Filter(Dedup(r), x => x in rows)
  {
    var key := Key(Stringify(r));
    var strangers := Filter(rows, x => x !in r);
    var listed := Filter(Dedup(r), x => x in rows);
    forall x | x in rows || x in r ensures key(x) == if x in r then 2 + 39 * First(r, x) else -1 { IndexOfUuid(r, x); }
    ListedOrdered(r, rows, key, listed);
    StrangersFirst(r, rows, key, strangers, listed);
    SortIsStable(rows, key, 0);
    forall k ensures WithKey(strangers + listed, key, k) == WithKey(SortBy(rows, key), key, k) {
      SameKeys(r, rows, key, strangers, listed, k);
      SortIsStable(rows, key, k);
    }
    StableSortUnique(SortBy(rows, key), strangers + listed, key);
  }

  lemma {:induction false} StrangersFirst(r: seq<string>, rows: seq<string>, key: string -> int, strangers: seq<string>, listed: seq<string>)
    requires forall x | x in rows || x in r :: key(x) == if x in r then 2 + 39 * First(r, x) else -1
    requires forall x | x in strangers :: x in rows && x !in r
    requires forall x | x in listed :: x in r
    requires Sorted(listed, key)
    ensures Sorted(strangers + listed, key)
  {
    forall i, j | 0 <= i < j < |strangers + listed| ensures key((strangers + listed)[i]) <= key((strangers + listed)[j]) {
      if i < |strangers| { assert strangers[i] in strangers; }
      if j < |strangers| { assert strangers[j] in strangers; } else { assert listed[j - |strangers|] in listed; }
    }
  }

  lemma {:induction false} ListedOrdered(r: seq<string>, rows: seq<string>, key: string -> int, listed: seq<string>)
    requires forall x | x in r :: key(x) == 2 + 39 * First(r, x)
    requires listed == Filter(Dedup(r), x => x in rows)
    ensures Sorted(listed, key) && Distinct(listed)
  {
    DedupOrdered(r);
    FilterOrdered(Dedup(r), x => x in rows, key);
  }

  lemma SameKeys(r: seq<string>, rows: seq<string>, key: string -> int, strangers: seq<string>, listed: seq<string>, k: int)
    requires forall x | x in rows || x in r :: key(x) == if x in r then 2 + 39 * First(r, x) else -1
    requires strangers == Filter(rows, x => x !in r)
    requires Distinct(rows) && Distinct(listed) && forall x :: x in listed <==> x in r && x in rows
    ensures WithKey(strangers + listed, key, k) == WithKey(rows, key, k)
  {
    WithKeyAppend(strangers, listed, key, k);
    if k == -1 {
      WithKeyIsFilter(rows, key, k, x => x !in r);
      WithKeyIsFilter(strangers, key, k, x => true);
      FilterAll(strangers, x => true);
      NoKey(listed, key, k);
    } else {
      NoKey(strangers, key, k);
      SameListedKeys(r, rows, key, listed, k);
    }
  }

  lemma NoKey(xs: seq<string>, key: string -> int, k: int)
    requires forall x | x in xs :: key(x) != k
    ensures WithKey(xs, key, k) == []
  {
    WithKeyIsFilter(xs, key, k, x => false);
    FilterNone(xs, x => false);
  }

  /** A key other than -1 belongs to at most one id. */
  lemma SameListedKeys(r: seq<string>, rows: seq<string>, key: string -> int, listed: seq<string>, k: int)
    requires k != -1
    requires forall x | x in rows || x in r :: key(x) == if x in r then 2 + 39 * First(r, x) else -1
    requires Distinct(rows) && Distinct(listed) && forall x :: x in listed <==> x in r && x in rows
    ensures WithKey(listed, key, k) == WithKey(rows, key, k)
  {
    if x :| x in rows && key(x) == k {
      forall y | y in rows && key(y) == k ensures y == x { assert r[First(r, y)] == r[First(r, x)]; }
      WithKeyOne(rows, key, k, x);
      WithKeyOne(listed, key, k, x);
    } else {
      NoKey(listed, key, k);
      NoKey(rows, key, k);
    }
  }

  /** With links to exactly the ids of a duplicate-free list, the list itself. */
  lemma {:induction false} ReadBackIsTheList(r: seq<string>, rows: seq<string>)
    requires AllUuid(r) && Distinct(rows) && forall x :: x in rows <==> x in r
    ensures SortBy(rows, Key(Stringify(r))) == Dedup(r)
    ensures Distinct(r) ==> SortBy(rows, Key(Stringify(r))) == r
  {
    SubstringOrderIsListOrder(r, rows);
    FilterNone(rows, x => x !in r);
    FilterAll(Dedup(r), x => x in rows);
    if Distinct(r) { DedupDistinct(r); }
  }

  /** After some links have disappeared, the rest of the list in the same order. */
  lemma {:induction false} ReadBackAfterRemoval(r: seq<string>, rows: seq<string>)
    requires AllUuid(r) && Distinct(r) && Distinct(rows) && forall x | x in rows :: x in r
    ensures SortBy(rows, Key(Stringify(r))) == Filter(r, x => x in rows)
  {
    SubstringOrderIsListOrder(r, rows);
    FilterNone(rows, x => x !in r);
    DedupDistinct(r);
  }
}
