/**
 * The few java.lang.String and java.util.Collections operations the core
 * relies on, with their Java semantics written out: trim(), split() on a
 * one-character separator, the decimal conversion of "" + i, compareTo and
 * Collections.sort on a list of strings.
 */
module JavaStrings {

  // ---------------------------------------------------------------- trim()

  /** String.trim() removes every leading and trailing char whose code is at most U+0020. */
  predicate IsTrimmable(c: char)
  {
    c <= ' '
  }

  function TrimStart(s: string): (r: string)
    ensures |r| <= |s| && r == s[|s| - |r|..]
    ensures r != [] ==> !IsTrimmable(r[0])
    ensures forall k | 0 <= k < |s| - |r| :: IsTrimmable(s[k])
  {
    if s != [] && IsTrimmable(s[0]) then TrimStart(s[1..]) else s
  }

  function TrimEnd(s: string): (r: string)
    ensures |r| <= |s| && r == s[..|r|]
    ensures r != [] ==> !IsTrimmable(r[|r| - 1])
    ensures forall k | |r| <= k < |s| :: IsTrimmable(s[k])
  {
    if s != [] && IsTrimmable(s[|s| - 1]) then TrimEnd(s[..|s| - 1]) else s
  }

  /** String.trim(): the slice of `s` left after removing blanks and controls at both ends. */
  function Trim(s: string): (r: string)
    ensures r == [] || (!IsTrimmable(r[0]) && !IsTrimmable(r[|r| - 1]))
    ensures exists i, j :: 0 <= i <= j <= |s| && r == s[i..j]
                        && (forall k | 0 <= k < i :: IsTrimmable(s[k]))
                        && (forall k | j <= k < |s| :: IsTrimmable(s[k]))
  {
    var t := TrimStart(s);
    var r := TrimEnd(t);
    assert r == s[|s| - |t|..|s| - |t| + |r|];
    r
  }

  /** Trimming twice is trimming once. */
  lemma TrimIdempotent(s: string)
    ensures Trim(Trim(s)) == Trim(s)
  {
    var r := Trim(s);
    assert TrimStart(r) == r;
    assert TrimEnd(r) == r;
  }

  // --------------------------------------------------------------- split()

  /** Every field between occurrences of `sep`, empty ones included. */
  function SplitAll(s: string, sep: char): (r: seq<string>)
    ensures |r| >= 1
    ensures forall k | 0 <= k < |r| :: sep !in r[k]
    decreases |s|
  {
    if s == [] then [""]
    else
      var rest := SplitAll(s[1..], sep);
      if s[0] == sep then [""] + rest
      else [[s[0]] + rest[0]] + rest[1..]
  }

  /** String.join: the inverse of SplitAll. */
  function Join(fields: seq<string>, sep: char): string
    requires |fields| >= 1
  {
    if |fields| == 1 then fields[0] else fields[0] + [sep] + Join(fields[1..], sep)
  }

  lemma {:induction false} JoinSplitAll(s: string, sep: char)
    ensures Join(SplitAll(s, sep), sep) == s
    decreases |s|
  {
    if s != [] {
      var rest := SplitAll(s[1..], sep);
      JoinSplitAll(s[1..], sep);
      if s[0] == sep {
        assert ([""] + rest)[1..] == rest;
      } else {
        var r := SplitAll(s, sep);
        assert r[1..] == rest[1..];
        if |rest| > 1 {
          assert Join(rest, sep) == rest[0] + [sep] + Join(rest[1..], sep);
        }
        assert s == [s[0]] + s[1..];
      }
    }
  }

  lemma {:induction false} SplitAllSeveralFields(s: string, sep: char)
    requires sep in s
    ensures |SplitAll(s, sep)| >= 2
    decreases |s|
  {
    if s[0] != sep {
      assert sep in s[1..];
      SplitAllSeveralFields(s[1..], sep);
    }
  }

  lemma {:induction false} SplitAllLastField(s: string, sep: char)
    requires s != [] && s[|s| - 1] != sep
    ensures SplitAll(s, sep)[|SplitAll(s, sep)| - 1] != ""
    decreases |s|
  {
    if |s| > 1 {
      assert s[1..][|s[1..]| - 1] == s[|s| - 1];
      SplitAllLastField(s[1..], sep);
    }
  }

  /** The trailing empty strings that String.split removes from its result. */
  function DropTrailingEmpty(fields: seq<string>): (r: seq<string>)
    ensures |r| <= |fields| && r == fields[..|r|]
    ensures r == [] || r[|r| - 1] != ""
    ensures forall k | |r| <= k < |fields| :: fields[k] == ""
  {
    if fields == [] then []
    else if fields[|fields| - 1] == "" then DropTrailingEmpty(fields[..|fields| - 1])
    else fields
  }

  /**
   * String.split(regex) for a regex that matches exactly the one character
   * `sep`: the input itself when it holds no separator, otherwise every field
   * with the trailing empty ones removed.
   */
  function JavaSplit(s: string, sep: char): seq<string>
  {
    if sep !in s then [s] else DropTrailingEmpty(SplitAll(s, sep))
  }

  /**
   * On a trimmed line (whose last char is never a tab), split("\t") keeps
   * every field, and gives at least two of them exactly when the line holds
   * a tab.
   */
  lemma TrimmedTabSplit(line: string)
    ensures var t := Trim(line);
      && (|JavaSplit(t, '\t')| >= 2 <==> '\t' in t)
      && ('\t' in t ==> JavaSplit(t, '\t') == SplitAll(t, '\t'))
  {
    var t := Trim(line);
    if '\t' in t {
      SplitAllSeveralFields(t, '\t');
      SplitAllLastField(t, '\t');
    }
  }

  // -------------------------------------------------------------- "" + i

  function DigitChar(d: nat): (c: char)
    requires d < 10
    ensures '0' <= c <= '9'
  {
    ['0', '1', '2', '3', '4', '5', '6', '7', '8', '9'][d]
  }

  predicate IsDigit(c: char)
  {
    '0' <= c <= '9'
  }

  /** The decimal text of a non-negative int, as Java's "" + i writes it. */
  function NatToDecimal(n: nat): (r: string)
    ensures |r| >= 1
    ensures forall k | 0 <= k < |r| :: IsDigit(r[k])
    decreases n
  {
    if n < 10 then [DigitChar(n)] else NatToDecimal(n / 10) + [DigitChar(n % 10)]
  }

  /** The value of a string of decimal digits: the inverse of NatToDecimal. */
  function DecimalValue(s: string): nat
    requires forall k | 0 <= k < |s| :: IsDigit(s[k])
  {
    if s == [] then 0
    else
      assert IsDigit(s[|s| - 1]);
      DecimalValue(s[..|s| - 1]) * 10 + (s[|s| - 1] as int - '0' as int)
  }

  lemma {:induction false} DecimalRoundTrip(n: nat)
    ensures DecimalValue(NatToDecimal(n)) == n
    decreases n
  {
    if n >= 10 {
      DecimalRoundTrip(n / 10);
      var r := NatToDecimal(n);
      assert r[..|r| - 1] == NatToDecimal(n / 10);
    }
  }

  /** Distinct grid rows get distinct identifiers. */
  lemma DecimalInjective(m: nat, n: nat)
    requires m != n
    ensures NatToDecimal(m) != NatToDecimal(n)
  {
    DecimalRoundTrip(m);
    DecimalRoundTrip(n);
  }

  // ------------------------------------------- compareTo and Collections.sort

  /**
   * A char as UTF-16 code units, the form a Java String holds: one unit in
   * the Basic Multilingual Plane, a high and a low surrogate above it.
   */
  function CharUnits(c: char): (u: seq<int>)
    ensures |u| == 1 <==> (c as int) < 0x1_0000
    ensures |u| == 1 ==> u[0] == c as int && !(0xD800 <= u[0] < 0xE000)
    ensures |u| != 1 ==> |u| == 2 && 0xD800 <= u[0] < 0xDC00 && 0xDC00 <= u[1] < 0xE000
  {
    var v := c as int;
    if v < 0x1_0000 then [v]
    else [0xD800 + (v - 0x1_0000) / 0x400, 0xDC00 + (v - 0x1_0000) % 0x400]
  }

  /** A string as the sequence of its UTF-16 code units. */
  function Utf16(s: string): seq<int>
  {
    if s == [] then [] else CharUnits(s[0]) + Utf16(s[1..])
  }

  /** Lexicographic order on code-unit sequences, a proper prefix first. */
  predicate UnitsLessEq(x: seq<int>, y: seq<int>)
    decreases |x|
  {
    x == [] || (y != [] && (x[0] < y[0] || (x[0] == y[0] && UnitsLessEq(x[1..], y[1..]))))
  }

  /** a.compareTo(b) <= 0: String.compareTo compares UTF-16 code units, not code points. */
  predicate LessEq(a: string, b: string)
  {
    UnitsLessEq(Utf16(a), Utf16(b))
  }

  /**
   * The two orders differ: U+1F600 is above U+FF01 as a code point, but
   * its high surrogate 0xD83D is below 0xFF01, so compareTo puts it first.
   */
  lemma CompareToByCodeUnits()
    ensures LessEq("\U{1F600}", "\U{FF01}") && !LessEq("\U{FF01}", "\U{1F600}")
    ensures '\U{FF01}' < '\U{1F600}'
  {
    assert Utf16("\U{1F600}") == [0xD83D, 0xDE00] by {
      assert CharUnits('\U{1F600}') == [0xD83D, 0xDE00];
      assert "\U{1F600}"[1..] == [];
    }
    assert Utf16("\U{FF01}") == [0xFF01] by {
      assert "\U{FF01}"[1..] == [];
    }
  }

  lemma {:induction false} UnitsLessEqTotal(x: seq<int>, y: seq<int>)
    ensures UnitsLessEq(x, y) || UnitsLessEq(y, x)
    decreases |x|
  {
    if x != [] && y != [] && x[0] == y[0] {
      UnitsLessEqTotal(x[1..], y[1..]);
    }
  }

  lemma {:induction false} UnitsLessEqTransitive(x: seq<int>, y: seq<int>, z: seq<int>)
    requires UnitsLessEq(x, y) && UnitsLessEq(y, z)
    ensures UnitsLessEq(x, z)
    decreases |x|
  {
    if x != [] && x[0] == y[0] && y[0] == z[0] {
      UnitsLessEqTransitive(x[1..], y[1..], z[1..]);
    }
  }

  lemma {:induction false} UnitsLessEqAntisymmetric(x: seq<int>, y: seq<int>)
    requires UnitsLessEq(x, y) && UnitsLessEq(y, x)
    ensures x == y
    decreases |x|
  {
    if x != [] {
      UnitsLessEqAntisymmetric(x[1..], y[1..]);
      assert x == [x[0]] + x[1..] && y == [y[0]] + y[1..];
    }
  }

  /** Different chars have different code units. */
  lemma CharUnitsInjective(c: char, d: char)
    requires CharUnits(c) == CharUnits(d)
    ensures c == d
  {
    var v, w := c as int, d as int;
    if v >= 0x1_0000 {
      assert v - 0x1_0000 == (v - 0x1_0000) / 0x400 * 0x400 + (v - 0x1_0000) % 0x400;
      assert w - 0x1_0000 == (w - 0x1_0000) / 0x400 * 0x400 + (w - 0x1_0000) % 0x400;
    }
  }

  /** The UTF-16 form determines the string. */
  lemma {:induction false} Utf16Injective(a: string, b: string)
    requires Utf16(a) == Utf16(b)
    ensures a == b
    decreases |a|
  {
    if a != [] {
      var ua, ub := CharUnits(a[0]), CharUnits(b[0]);
      assert Utf16(a) == ua + Utf16(a[1..]);
      assert b != [];
      assert Utf16(b) == ub + Utf16(b[1..]);
      assert Utf16(a)[0] == ua[0] && Utf16(b)[0] == ub[0];
      assert |ua| == |ub|;
      assert ua == Utf16(a)[..|ua|] && ub == Utf16(b)[..|ub|];
      CharUnitsInjective(a[0], b[0]);
      assert Utf16(a[1..]) == Utf16(a)[|ua|..] && Utf16(b[1..]) == Utf16(b)[|ub|..];
      Utf16Injective(a[1..], b[1..]);
      assert a == [a[0]] + a[1..] && b == [b[0]] + b[1..];
    }
  }

  lemma LessEqTotal(a: string, b: string)
    ensures LessEq(a, b) || LessEq(b, a)
  {
    UnitsLessEqTotal(Utf16(a), Utf16(b));
  }

  lemma LessEqTransitive(a: string, b: string, c: string)
    requires LessEq(a, b) && LessEq(b, c)
    ensures LessEq(a, c)
  {
    UnitsLessEqTransitive(Utf16(a), Utf16(b), Utf16(c));
  }

  lemma LessEqAntisymmetric(a: string, b: string)
    requires LessEq(a, b) && LessEq(b, a)
    ensures a == b
  {
    UnitsLessEqAntisymmetric(Utf16(a), Utf16(b));
    Utf16Injective(a, b);
  }

  ghost predicate Sorted(s: seq<string>)
  {
    forall i, j | 0 <= i < j < |s| :: LessEq(s[i], s[j])
  }

  function Insert(x: string, s: seq<string>): (r: seq<string>)
    requires Sorted(s)
    ensures Sorted(r)
    ensures multiset(r) == multiset(s) + multiset{x}
  {
    if s == [] then [x]
    else if LessEq(x, s[0]) then
      InsertFrontSorted(x, s);
      [x] + s
    else
      LessEqTotal(x, s[0]);
      SortedTail(s);
      var t := Insert(x, s[1..]);
      InsertBehindSorted(s, t, x);
      [s[0]] + t
  }

  lemma SortedTail(s: seq<string>)
    requires Sorted(s) && s != []
    ensures Sorted(s[1..])
  {
    forall i, j | 0 <= i < j < |s| - 1
      ensures LessEq(s[1..][i], s[1..][j])
    {
      assert s[1..][i] == s[i + 1] && s[1..][j] == s[j + 1];
    }
  }

  lemma InsertFrontSorted(x: string, s: seq<string>)
    requires Sorted(s) && s != [] && LessEq(x, s[0])
    ensures Sorted([x] + s)
  {
    forall j | 0 < j < |s| + 1
      ensures LessEq(([x] + s)[0], ([x] + s)[j])
    {
      if j > 1 { LessEqTransitive(x, s[0], s[j - 1]); }
    }
  }

  /** Putting the head of a sorted list before a sorted permutation of its tail with x added. */
  lemma InsertBehindSorted(s: seq<string>, t: seq<string>, x: string)
    requires Sorted(s) && s != [] && Sorted(t) && LessEq(s[0], x)
    requires multiset(t) == multiset(s[1..]) + multiset{x}
    ensures Sorted([s[0]] + t)
    ensures multiset([s[0]] + t) == multiset(s) + multiset{x}
  {
    assert s == [s[0]] + s[1..];
    forall j | 0 <= j < |t|
      ensures LessEq(s[0], t[j])
    {
      assert t[j] in multiset(t);
      if t[j] != x {
        assert t[j] in multiset(s[1..]);
        var k :| 0 <= k < |s[1..]| && s[1..][k] == t[j];
        assert s[k + 1] == t[j];
      }
    }
  }

  /** Collections.sort on a list of strings: a sorted permutation of it. */
  function SortStrings(s: seq<string>): (r: seq<string>)
    ensures Sorted(r)
    ensures multiset(r) == multiset(s)
  {
    if s == [] then []
    else
      assert s == [s[0]] + s[1..];
      Insert(s[0], SortStrings(s[1..]))
  }
}
