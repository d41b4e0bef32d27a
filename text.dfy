/**
  The handful of java.lang.String operations the query engine relies on:
  trim, toLowerCase, contains and compareTo. A Dafny string is a sequence of
  Unicode scalar values; Java stores the same text as UTF-16 code units, a
  character above U+FFFF taking a surrogate pair. Trimming, case folding and
  containment give the same answers on either view of a well-formed string;
  compareTo is stated on the code units.
 */
module Text {

  /** Every character is at or below U+0020: what trim removes. */
  predicate Blank(s: string)
  {
    forall k :: 0 <= k < |s| ==> s[k] <= ' '
  }

  /** trim's first scan: from st, skip every character at or below U+0020. */
  function TrimStart(s: string, st: nat): (i: nat)
    requires st <= |s|
    ensures st <= i <= |s|
    ensures forall k :: st <= k < i ==> s[k] <= ' '
    ensures i < |s| ==> s[i] > ' '
    decreases |s| - st
  {
    if st < |s| && s[st] <= ' ' then TrimStart(s, st + 1) else st
  }

  /** trim's second scan: move len down past every character at or below U+0020, not below st. */
  function TrimEnd(s: string, st: nat, len: nat): (j: nat)
    requires st <= len <= |s|
    ensures st <= j <= len
    ensures forall k :: j <= k < len ==> s[k] <= ' '
    ensures st < j ==> s[j - 1] > ' '
    decreases len
  {
    if st < len && s[len - 1] <= ' ' then TrimEnd(s, st, len - 1) else len
  }

  /**
    String.trim(): the substring between the two scans, the blank prefix and
    the blank suffix being as long as they can be.
   */
  function Trim(s: string): (r: string)
    ensures r == [] <==> Blank(s)
    ensures r != [] ==> r[0] > ' ' && r[|r| - 1] > ' '
    ensures exists i, j :: 0 <= i <= j <= |s| && r == s[i..j] && Blank(s[..i]) && Blank(s[j..])
    ensures Contains(s, r)
  {
    var i := TrimStart(s, 0);
    var j := TrimEnd(s, i, |s|);
    assert Blank(s[..i]) && Blank(s[j..]);
    assert OccursAt(s, s[i..j], i);
    s[i..j]
  }

  /** ASCII case folding of one character (toLowerCase outside A-Z is the identity here). */
  function LowerChar(c: char): (d: char)
    ensures !('A' <= d <= 'Z')
    ensures d == c || ('A' <= c <= 'Z' && d as int == c as int + 32)
    ensures (d <= ' ') <==> (c <= ' ')
  {
    if 'A' <= c <= 'Z' then (c as int - 'A' as int + 'a' as int) as char else c
  }

  /** String.toLowerCase() with ASCII folding. */
  function ToLower(s: string): (r: string)
    ensures |r| == |s|
    ensures forall k :: 0 <= k < |s| ==> r[k] == LowerChar(s[k])
  {
    seq(|s|, k requires 0 <= k < |s| => LowerChar(s[k]))
  }

  /** t occurs in s starting at index i. */
  predicate OccursAt(s: string, t: string, i: nat)
  {
    i + |t| <= |s| && s[i..i + |t|] == t
  }

  /** String.contains(t): t occurs somewhere in s (the empty string occurs everywhere). */
  predicate Contains(s: string, t: string)
    ensures Contains(s, t) ==> |t| <= |s|
    ensures Contains(s, t) ==> forall j :: 0 <= j < |t| ==> t[j] in s
  {
    exists i :: 0 <= i <= |s| - |t| && OccursAt(s, t, i)
  }

  // ---- String.compareTo over UTF-16 code units

  /**
    The UTF-16 code units Java stores for one character: the character itself
    below U+10000, a high and a low surrogate above it.
   */
  function CodeUnits(c: char): (u: seq<int>)
    ensures |u| == 1 <==> c as int < 0x1_0000
    ensures |u| == 1 || |u| == 2
    ensures |u| == 1 ==> u[0] == c as int
    ensures |u| == 2 ==>
      0xD800 <= u[0] < 0xDC00 && 0xDC00 <= u[1] < 0xE000 &&
      (u[0] - 0xD800) * 0x400 + (u[1] - 0xDC00) + 0x1_0000 == c as int
  {
    if c as int < 0x1_0000 then [c as int]
    else [0xD800 + (c as int - 0x1_0000) / 0x400, 0xDC00 + (c as int - 0x1_0000) % 0x400]
  }

  /** The code units of a whole string, character by character. */
  function Utf16(s: string): (u: seq<int>)
    ensures |u| >= |s|
    ensures forall k :: 0 <= k < |u| ==> 0 <= u[k] < 0x1_0000
  {
    if s == [] then [] else CodeUnits(s[0]) + Utf16(s[1..])
  }

  /** Lexicographic order on code unit sequences, a proper prefix first. */
  predicate UnitsLess(x: seq<int>, y: seq<int>)
  {
    if x == [] then y != []
    else y != [] && (x[0] < y[0] || (x[0] == y[0] && UnitsLess(x[1..], y[1..])))
  }

  /**
    Java's compareTo on code units: the difference of the first differing
    units, or the difference of the lengths when one is a prefix of the other.
   */
  function CompareUnits(x: seq<int>, y: seq<int>): (r: int)
    ensures r < 0 <==> UnitsLess(x, y)
    ensures r == 0 <==> x == y
    ensures r > 0 <==> UnitsLess(y, x)
  {
    if x == [] || y == [] then |x| - |y|
    else if x[0] != y[0] then x[0] - y[0]
    else
      var r := CompareUnits(x[1..], y[1..]);
      assert x == [x[0]] + x[1..] && y == [y[0]] + y[1..];
      r
  }

  /**
    Where a character falls in code unit order: characters below U+D800 first,
    then those above U+FFFF (whose high surrogate is U+D800-U+DBFF), then
    U+E000-U+FFFF.
   */
  function UnitRank(c: char): (k: int)
    ensures c as int < 0xD800 ==> k == c as int
    ensures 0x1_0000 <= c as int ==> k == c as int
    ensures 0xE000 <= c as int < 0x1_0000 ==> k > 0x10_FFFF
  {
    if c as int < 0xD800 || 0x1_0000 <= c as int then c as int else c as int + 0x11_0000
  }

  /**
    String.compareTo(b) < 0, on characters: the first differing characters
    are in code unit order, or a is a proper prefix of b.
   */
  predicate Less(a: string, b: string)
  {
    if a == [] then b != []
    else b != [] && (UnitRank(a[0]) < UnitRank(b[0]) || (a[0] == b[0] && Less(a[1..], b[1..])))
  }

  /** String.compareTo(b), computed on the code units of both strings. */
  function CompareTo(a: string, b: string): (r: int)
    ensures r < 0 <==> Less(a, b)
    ensures r == 0 <==> a == b
    ensures r > 0 <==> Less(b, a)
  {
    LessIsUnitOrder(a, b);
    LessIsUnitOrder(b, a);
    LessTotal(a, b);
    CompareUnits(Utf16(a), Utf16(b))
  }

  // ---- properties of case folding and trimming

  /** Case folding keeps blanks blank, so trim's first scan stops at the same index. */
  lemma {:induction false} TrimStartLower(s: string, st: nat)
    requires st <= |s|
    ensures TrimStart(ToLower(s), st) == TrimStart(s, st)
    decreases |s| - st
  {
    if st < |s| && s[st] <= ' ' {
      TrimStartLower(s, st + 1);
    }
  }

  /** ... and so does its second scan. */
  lemma {:induction false} TrimEndLower(s: string, st: nat, len: nat)
    requires st <= len <= |s|
    ensures TrimEnd(ToLower(s), st, len) == TrimEnd(s, st, len)
    decreases len
  {
    if st < len && s[len - 1] <= ' ' {
      TrimEndLower(s, st, len - 1);
    }
  }

  /** Trimming and case folding commute, so `x.trim().toLowerCase()` is `x.toLowerCase().trim()`. */
  lemma TrimLower(s: string)
    ensures Trim(ToLower(s)) == ToLower(Trim(s))
  {
    var i := TrimStart(s, 0);
    TrimStartLower(s, 0);
    var j := TrimEnd(s, i, |s|);
    TrimEndLower(s, i, |s|);
    ToLowerSlice(s, i, j);
  }

  /** Case folding works character by character, so it commutes with taking a substring. */
  lemma ToLowerSlice(s: string, i: nat, j: nat)
    requires i <= j <= |s|
    ensures ToLower(s)[i..j] == ToLower(s[i..j])
  {
    var a, b := ToLower(s)[i..j], ToLower(s[i..j]);
    assert |a| == |b|;
    forall k | 0 <= k < |a| ensures a[k] == b[k] {
      assert a[k] == ToLower(s)[i + k];
    }
  }

  /** A string that starts and ends above U+0020 is its own trim. */
  lemma TrimOfTrimmed(s: string)
    requires s != [] && s[0] > ' ' && s[|s| - 1] > ' '
    ensures Trim(s) == s
  {
  }

  // ---- properties of the order

  lemma {:induction false} LessIrreflexive(a: string)
    ensures !Less(a, a)
    decreases |a|
  {
    if a != [] {
      LessIrreflexive(a[1..]);
    }
  }

  lemma {:induction false} LessTransitive(a: string, b: string, c: string)
    requires Less(a, b) && Less(b, c)
    ensures Less(a, c)
    decreases |a|
  {
    if a != [] && a[0] == b[0] && b[0] == c[0] {
      LessTransitive(a[1..], b[1..], c[1..]);
    }
  }

  lemma {:induction false} LessTotal(a: string, b: string)
    ensures a == b || Less(a, b) || Less(b, a)
    decreases |a|
  {
    if a != [] && b != [] && a[0] == b[0] {
      assert a == [a[0]] + a[1..] && b == [b[0]] + b[1..];
      LessTotal(a[1..], b[1..]);
    }
  }

  /** A common prefix of code units does not change their order. */
  lemma {:induction false} UnitsLessPrefix(p: seq<int>, x: seq<int>, y: seq<int>)
    ensures UnitsLess(p + x, p + y) <==> UnitsLess(x, y)
    decreases |p|
  {
    if p == [] {
      assert p + x == x && p + y == y;
    } else {
      assert (p + x)[0] == p[0] == (p + y)[0];
      assert (p + x)[1..] == p[1..] + x && (p + y)[1..] == p[1..] + y;
      UnitsLessPrefix(p[1..], x, y);
    }
  }

  /** Two different characters are ordered by their first code units, or else by their second. */
  lemma CodeUnitsDecide(c: char, d: char, x: seq<int>, y: seq<int>)
    requires c != d
    ensures UnitsLess(CodeUnits(c) + x, CodeUnits(d) + y) <==> UnitRank(c) < UnitRank(d)
  {
    var u, v := CodeUnits(c), CodeUnits(d);
    assert (u + x)[0] == u[0] && (v + y)[0] == v[0];
    if u[0] == v[0] {
      assert |u| == 2 && |v| == 2;
      assert (u + x)[1..] == [u[1]] + x && (v + y)[1..] == [v[1]] + y;
      assert u[1] != v[1];
    }
  }

  /** The order on characters is exactly Java's order on the code units of the strings. */
  lemma {:induction false} LessIsUnitOrder(a: string, b: string)
    ensures Less(a, b) <==> UnitsLess(Utf16(a), Utf16(b))
    decreases |a|
  {
    if a != [] && b != [] {
      if a[0] == b[0] {
        UnitsLessPrefix(CodeUnits(a[0]), Utf16(a[1..]), Utf16(b[1..]));
        LessIsUnitOrder(a[1..], b[1..]);
      } else {
        CodeUnitsDecide(a[0], b[0], Utf16(a[1..]), Utf16(b[1..]));
      }
    }
  }
}
