/** Binlog file names: a basename and a numeric sequence, which is what orders them. */
module BinlogNames {
  import opened Common

  const U64_LIMIT: nat := 0x1_0000_0000_0000_0000

  /** What follows the last dot, or the whole name when there is none. */
  function LastSegment(name: string): string {
    if name == [] then []
    else if name[|name| - 1] == '.' then []
    else LastSegment(name[..|name| - 1]) + [name[|name| - 1]]
  }

  predicate AllDigits(s: string) {
    forall k | 0 <= k < |s| :: IsDigit(s[k])
  }

  function DigitsValue(s: string): nat
    requires AllDigits(s)
  {
    if s == [] then 0
    else
      var c := s[|s| - 1];
      assert IsDigit(c);
      DigitsValue(s[..|s| - 1]) * 10 + (c as int - '0' as int)
  }

  /** An unsigned 64-bit integer as the standard parser reads it: an optional plus sign, at
      least one digit, nothing else, no overflow. */
  function ParseU64(s: string): Option<nat> {
    var digits := if s != [] && s[0] == '+' then s[1..] else s;
    if digits == [] || !AllDigits(digits) then None
    else if DigitsValue(digits) < U64_LIMIT then Some(DigitsValue(digits))
    else None
  }

  function BinlogSeq(name: string): (r: Option<nat>)
    ensures r.Some? ==> r.value < U64_LIMIT
  {
    ParseU64(LastSegment(name))
  }

  // ----- the names mysqld gives -----

  /** A number's decimal digits, the most significant first, padded with zeros. */
  function Padded(n: nat, width: nat): (s: string)
    ensures |s| == width
  {
    if width == 0 then "" else Padded(n / 10, width - 1) + ['0' + (n % 10) as char]
  }

  function Power10(width: nat): (p: nat)
    ensures p >= 1
  {
    if width == 0 then 1 else 10 * Power10(width - 1)
  }

  function NumberedName(base: string, n: nat, width: nat): string {
    base + "." + Padded(n, width)
  }

  lemma {:induction false} PaddedIsWorth(n: nat, width: nat)
    requires n < Power10(width)
    ensures AllDigits(Padded(n, width)) && DigitsValue(Padded(n, width)) == n
  {
    if width > 0 {
      var front, last := Padded(n / 10, width - 1), '0' + (n % 10) as char;
      PaddedIsWorth(n / 10, width - 1);
      assert Padded(n, width)[..width - 1] == front && Padded(n, width)[width - 1] == last;
    }
  }

  lemma {:induction false} AfterTheLastDot(base: string, digits: string)
    requires AllDigits(digits)
    ensures LastSegment(base + "." + digits) == digits
  {
    var name := base + "." + digits;
    if digits == "" {
      assert name[|name| - 1] == '.';
    } else {
      var front, last := digits[..|digits| - 1], digits[|digits| - 1];
      assert IsDigit(last) && forall k | 0 <= k < |front| :: front[k] == digits[k];
      AfterTheLastDot(base, front);
      assert name[..|name| - 1] == base + "." + front && name[|name| - 1] == last;
    }
  }

  /** A zero-padded decimal suffix parses to its value, whatever stands before its dot. */
  lemma PaddedNamesParse(base: string, n: nat, width: nat)
    requires 0 < width && n < Power10(width) && n < 0x1_0000_0000_0000_0000
    ensures BinlogSeq(NumberedName(base, n, width)) == Some(n)
  {
    PaddedIsWorth(n, width);
    AfterTheLastDot(base, Padded(n, width));
    assert IsDigit(Padded(n, width)[0]);
  }

  /** Byte-wise string order. */
  predicate StringLess(a: string, b: string) {
    b != [] && (a == [] || a[0] < b[0] || (a[0] == b[0] && StringLess(a[1..], b[1..])))
  }

  /** A binlog file name together with what its sequence parses to. */
  datatype Binlog = Binlog(name: string, number: Option<nat>)

  function FromName(name: string): Binlog {
    Binlog(name, BinlogSeq(name))
  }

  /** By sequence when both parse, as plain strings otherwise. */
  predicate NameLess(a: Binlog, b: Binlog) {
    match (a.number, b.number)
    case (Some(x), Some(y)) => x < y
    case _ => StringLess(a.name, b.name)
  }

  /** mysqld is done with the file: it comes before the active one. */
  predicate IsClosed(name: Binlog, active: Binlog) {
    NameLess(name, active)
  }

  /** Names whose order is total: each parses, and no two carry the same sequence. */
  predicate WellNamed(files: seq<Binlog>) {
    && (forall k | 0 <= k < |files| :: files[k].number.Some?)
    && (forall j, k | 0 <= j < k < |files| :: files[j].number != files[k].number)
  }

  predicate Ascending(files: seq<Binlog>) {
    && (forall k | 0 <= k < |files| :: files[k].number.Some?)
    && (forall j, k | 0 <= j < k < |files| :: files[j].number.value < files[k].number.value)
  }

  function Insert(sorted: seq<Binlog>, name: Binlog): (r: seq<Binlog>)
    ensures multiset(r) == multiset(sorted) + multiset{name}
  {
    if sorted == [] then [name]
    else if NameLess(name, sorted[|sorted| - 1]) then
      assert sorted == sorted[..|sorted| - 1] + [sorted[|sorted| - 1]];
      Insert(sorted[..|sorted| - 1], name) + [sorted[|sorted| - 1]]
    else sorted + [name]
  }

  /** A stable sort by `NameLess`. */
  function Sorted(files: seq<Binlog>): (r: seq<Binlog>)
    ensures multiset(r) == multiset(files)
    ensures |r| == |files|
  {
    if files == [] then []
    else
      assert files == files[..|files| - 1] + [files[|files| - 1]];
      var r := Insert(Sorted(files[..|files| - 1]), files[|files| - 1]);
      assert |multiset(r)| == |r|;
      r
  }

  lemma SameElements(a: seq<Binlog>, b: seq<Binlog>)
    requires multiset(a) == multiset(b)
    ensures forall x :: x in a <==> x in b
  {
    assert forall x :: x in a <==> x in multiset(a);
    assert forall x :: x in b <==> x in multiset(b);
  }

  lemma AppendAscends(front: seq<Binlog>, last: Binlog)
    requires Ascending(front) && last.number.Some?
    requires forall x | x in front :: x.number.value < last.number.value
    ensures Ascending(front + [last])
  {
    var r := front + [last];
    forall j, k | 0 <= j < k < |r|
      ensures r[j].number.Some? && r[k].number.Some? && r[j].number.value < r[k].number.value
    {
      assert r[j] == front[j] && front[j] in front;
    }
  }

  lemma {:induction false} InsertKeepsAscending(sorted: seq<Binlog>, name: Binlog)
    requires Ascending(sorted) && name.number.Some?
    requires forall x | x in sorted :: x.number != name.number
    ensures Ascending(Insert(sorted, name))
  {
    if sorted == [] {
    } else if NameLess(name, sorted[|sorted| - 1]) {
      var front, last := sorted[..|sorted| - 1], sorted[|sorted| - 1];
      assert forall x | x in front :: x in sorted;
      InsertKeepsAscending(front, name);
      forall x | x in Insert(front, name)
        ensures x.number.Some? && x.number.value < last.number.value
      {
        InsertedElements(front, name, x);
        if x != name {
          var j :| 0 <= j < |front| && front[j] == x;
          assert sorted[j] == x;
        }
      }
      AppendAscends(Insert(front, name), last);
    } else {
      LargestGoesLast(sorted, name);
    }
  }

  lemma LargestGoesLast(sorted: seq<Binlog>, name: Binlog)
    requires sorted != [] && Ascending(sorted) && name.number.Some?
    requires !NameLess(name, sorted[|sorted| - 1])
    requires forall x | x in sorted :: x.number != name.number
    ensures Ascending(sorted + [name])
  {
    assert sorted[|sorted| - 1] in sorted;
    forall x | x in sorted
      ensures x.number.Some? && x.number.value < name.number.value
    {
      var j :| 0 <= j < |sorted| && sorted[j] == x;
    }
    AppendAscends(sorted, name);
  }

  lemma InsertedElements(sorted: seq<Binlog>, name: Binlog, x: Binlog)
    requires x in Insert(sorted, name)
    ensures x == name || x in sorted
  {
    assert x in multiset(Insert(sorted, name));
  }

  /** Sorting well-named files orders them strictly, whatever order they came in. */
  lemma {:induction false} SortedAscends(files: seq<Binlog>)
    requires WellNamed(files)
    ensures Ascending(Sorted(files))
  {
    if files != [] {
      var front, last := files[..|files| - 1], files[|files| - 1];
      SortedAscends(front);
      SameElements(Sorted(front), front);
      forall x | x in Sorted(front)
        ensures x.number != last.number
      {
        assert x in front;
        var j :| 0 <= j < |front| && front[j] == x;
        assert files[j] == front[j];
      }
      InsertKeepsAscending(Sorted(front), last);
    }
  }

  /** The first of an ascending list is its least element, and the rest is everything else. */
  lemma HeadAndTail(a: seq<Binlog>)
    requires a != [] && Ascending(a)
    ensures forall x | x in a :: x.number.Some? && a[0].number.value <= x.number.value
    ensures forall x :: x in a[1..] <==> x in a && x != a[0]
    ensures Ascending(a[1..])
  {
    forall x | x in a && x != a[0]
      ensures x in a[1..]
    {
      var k :| 0 <= k < |a| && a[k] == x;
      assert a[1..][k - 1] == x;
    }
    forall x | x in a[1..]
      ensures x in a && x != a[0]
    {
      var k :| 0 <= k < |a[1..]| && a[1..][k] == x;
      assert a[k + 1] == x;
    }
  }

  /** An ascending list is determined by its elements. */
  lemma {:induction false} AscendingIsUnique(a: seq<Binlog>, b: seq<Binlog>)
    requires Ascending(a) && Ascending(b)
    requires forall x :: x in a <==> x in b
    ensures a == b
  {
    assert a != [] ==> a[0] in b;
    assert b != [] ==> b[0] in a;
    if a != [] {
      HeadAndTail(a);
      HeadAndTail(b);
      SameHead(a, b);
      AscendingIsUnique(a[1..], b[1..]);
    }
  }

  lemma SameHead(a: seq<Binlog>, b: seq<Binlog>)
    requires a != [] && b != [] && Ascending(a) && Ascending(b)
    requires a[0] in b && b[0] in a
    ensures a[0] == b[0]
  {
    HeadAndTail(a);
    HeadAndTail(b);
    var k :| 0 <= k < |b| && b[k] == a[0];
  }

  lemma {:induction false} LastSegmentIsAfterTheDot(base: string, s: string)
    requires '.' !in s
    ensures LastSegment(base + "." + s) == s
  {
    var name := base + "." + s;
    if s == [] {
      assert name[|name| - 1] == '.';
    } else {
      assert name[..|name| - 1] == base + "." + s[..|s| - 1];
      LastSegmentIsAfterTheDot(base, s[..|s| - 1]);
    }
  }

  lemma {:induction false} CommonPrefixOrder(base: string, a: string, b: string)
    ensures StringLess(base + a, base + b) == StringLess(a, b)
  {
    if base == [] {
      assert base + a == a && base + b == b;
    } else {
      assert (base + a)[1..] == base[1..] + a && (base + b)[1..] == base[1..] + b;
      CommonPrefixOrder(base[1..], a, b);
    }
  }

  lemma NotANumber(s: string, k: nat)
    requires k < |s| && !IsDigit(s[k]) && s[0] != '+'
    ensures ParseU64(s) == None
  {
    assert !AllDigits(s);
  }

  /** Why the names must parse: mixing in one that does not makes the order a cycle. */
  lemma NameOrderCanCycle(base: string)
    ensures NameLess(FromName(base + "." + "9"), FromName(base + "." + "10"))
    ensures NameLess(FromName(base + "." + "10"), FromName(base + "." + "5z"))
    ensures NameLess(FromName(base + "." + "5z"), FromName(base + "." + "9"))
  {
    LastSegmentIsAfterTheDot(base, "9");
    LastSegmentIsAfterTheDot(base, "10");
    LastSegmentIsAfterTheDot(base, "5z");
    assert DigitsValue("9") == 9;
    assert DigitsValue("10") == 10 by { assert "10"[..1] == "1"; }
    NotANumber("5z", 1);
    CommonPrefixOrder(base + ".", "10", "5z");
    CommonPrefixOrder(base + ".", "5z", "9");
  }
}
