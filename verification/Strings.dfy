/** JavaScript's view of strings: code-unit order, splitting, prefixes and suffixes. */
module Strings {

  /**
   The place of a character in UTF-16 code-unit order. Characters above U+FFFF start with a
   surrogate (D800..DBFF), so they come before U+E000..U+FFFF.
   */
  function Rank(c: char): (r: nat) {
    var u := c as int;
    if u < 0xE000 then u
    else if u < 0x1_0000 then u + 0x10_0000
    else u - 0x1_0000 + 0xD800
  }

  lemma RankIsInjective(c: char, d: char)
    requires Rank(c) == Rank(d)
    ensures c == d
  {
  }

  /** The comparison a < b of two JavaScript strings. */
  predicate Less(a: string, b: string) {
    if b == "" then false
    else if a == "" then true
    else if a[0] == b[0] then Less(a[1..], b[1..])
    else Rank(a[0]) < Rank(b[0])
  }

  lemma {:induction false} LessIrreflexive(a: string)
    ensures !Less(a, a)
  {
    if a != "" {
      LessIrreflexive(a[1..]);
    }
  }

  lemma {:induction false} LessConnected(a: string, b: string)
    requires a != b
    ensures Less(a, b) || Less(b, a)
  {
    if a != "" && b != "" {
      if a[0] == b[0] {
        assert a == [a[0]] + a[1..] && b == [b[0]] + b[1..];
        LessConnected(a[1..], b[1..]);
      } else if Rank(a[0]) == Rank(b[0]) {
        RankIsInjective(a[0], b[0]);
      }
    }
  }

  lemma {:induction false} LessTransitive(a: string, b: string, c: string)
    requires Less(a, b) && Less(b, c)
    ensures Less(a, c)
  {
    if a != "" {
      if a[0] == b[0] == c[0] {
        LessTransitive(a[1..], b[1..], c[1..]);
      } else if a[0] == c[0] {
        assert false;
      }
    }
  }

  lemma LessAsymmetric(a: string, b: string)
    requires Less(a, b)
    ensures !Less(b, a)
  {
  }

  // ----- the order of UTF-16 strings, from their code units

  /** The code units of a character: itself, or a surrogate pair. */
  function Units(c: char): (units: seq<nat>) {
    var u := c as int;
    if u < 0x1_0000 then [u] else [0xD800 + (u - 0x1_0000) / 0x400, 0xDC00 + (u - 0x1_0000) % 0x400]
  }

  function Utf16(s: string): (units: seq<nat>) {
    if s == "" then [] else Units(s[0]) + Utf16(s[1..])
  }

  /** The two agree before place k; there the first has the smaller unit, or it ends. */
  predicate SmallerAt(x: seq<nat>, y: seq<nat>, k: nat) {
    k <= |x| && k < |y| && (forall i :: 0 <= i < k ==> x[i] == y[i]) && (k == |x| || x[k] < y[k])
  }

  ghost predicate UnitsBefore(x: seq<nat>, y: seq<nat>) {
    exists k: nat :: SmallerAt(x, y, k)
  }

  lemma UnitsBeforeAsymmetric(x: seq<nat>, y: seq<nat>)
    requires UnitsBefore(x, y)
    ensures !UnitsBefore(y, x)
  {
  }

  /** Characters are ranked as their first code units that differ. */
  lemma RankFollowsUnits(c: char, d: char)
    requires Rank(c) < Rank(d)
    ensures Units(c)[0] < Units(d)[0]
      || (|Units(c)| == |Units(d)| == 2 && Units(c)[0] == Units(d)[0] && Units(c)[1] < Units(d)[1])
  {
    var u, v := c as int, d as int;
    if u >= 0x1_0000 && v >= 0x1_0000 {
      var m, n := u - 0x1_0000, v - 0x1_0000;
      assert m / 0x400 <= n / 0x400;
      assert m == m / 0x400 * 0x400 + m % 0x400 && n == n / 0x400 * 0x400 + n % 0x400;
    }
  }

  lemma {:induction false} LessGivesUnitsBefore(a: string, b: string)
    requires Less(a, b)
    ensures UnitsBefore(Utf16(a), Utf16(b))
  {
    if a == "" {
      assert SmallerAt(Utf16(a), Utf16(b), 0);
    } else if a[0] == b[0] {
      LessGivesUnitsBefore(a[1..], b[1..]);
      PrefixedUnitsBefore(Units(a[0]), Utf16(a[1..]), Utf16(b[1..]));
    } else {
      RankFollowsUnits(a[0], b[0]);
      var k := if Units(a[0])[0] < Units(b[0])[0] then 0 else 1;
      assert SmallerAt(Utf16(a), Utf16(b), k);
    }
  }

  lemma PrefixedUnitsBefore(p: seq<nat>, x: seq<nat>, y: seq<nat>)
    requires UnitsBefore(x, y)
    ensures UnitsBefore(p + x, p + y)
  {
    var k: nat :| SmallerAt(x, y, k);
    assert SmallerAt(p + x, p + y, |p| + k);
  }

  /** The comparison is that of the code units, from the first one that differs. */
  lemma LessIsUnitOrder(a: string, b: string)
    ensures Less(a, b) <==> UnitsBefore(Utf16(a), Utf16(b))
  {
    if Less(a, b) {
      LessGivesUnitsBefore(a, b);
    } else if a == b {
      if UnitsBefore(Utf16(a), Utf16(b)) {
        UnitsBeforeAsymmetric(Utf16(a), Utf16(b));
      }
    } else {
      LessConnected(a, b);
      LessGivesUnitsBefore(b, a);
      UnitsBeforeAsymmetric(Utf16(b), Utf16(a));
    }
  }

  // ----- splitting on one character

  /** The number of characters before the first c, or all of them. */
  function IndexOf(s: string, c: char): (n: nat)
    ensures n <= |s|
    ensures c !in s[..n]
    ensures n < |s| ==> s[n] == c
    ensures n == |s| <==> c !in s
  {
    if s == "" || s[0] == c then 0
    else
      var n := IndexOf(s[1..], c) + 1;
      assert s[..n] == [s[0]] + s[1..][..n - 1];
      n
  }

  function Split(s: string, c: char): (parts: seq<string>)
    ensures |parts| > 0
    ensures parts[0] == s[..IndexOf(s, c)]
    decreases |s|
  {
    var n := IndexOf(s, c);
    if n == |s| then [s] else [s[..n]] + Split(s[n + 1..], c)
  }

  function Join(parts: seq<string>, c: char): (s: string)
    requires |parts| > 0
  {
    if |parts| == 1 then parts[0] else parts[0] + [c] + Join(parts[1..], c)
  }

  /** Splitting loses nothing: the parts hold no separator, and joining them restores the text. */
  lemma {:induction false} SplitJoin(s: string, c: char)
    ensures Join(Split(s, c), c) == s
    ensures forall i :: 0 <= i < |Split(s, c)| ==> c !in Split(s, c)[i]
    decreases |s|
  {
    var n := IndexOf(s, c);
    if n < |s| {
      SplitJoin(s[n + 1..], c);
      assert Split(s, c)[1..] == Split(s[n + 1..], c);
      assert s == s[..n] + [c] + s[n + 1..];
    }
  }

  // ----- unused strings

  lemma {:induction false} LongerThanAll(ids: set<string>) returns (n: nat)
    ensures forall e :: e in ids ==> |e| < n
  {
    if ids == {} {
      n := 0;
    } else {
      var e :| e in ids;
      var m := LongerThanAll(ids - {e});
      n := if |e| < m then m else |e| + 1;
    }
  }

  lemma UnusedString(ids: set<string>) returns (e: string)
    ensures e !in ids
  {
    var n := LongerThanAll(ids);
    e := seq(n, i => '0');
    assert |e| == n;
  }
}
