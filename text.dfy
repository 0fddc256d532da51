/**
  Text helpers shared by the modules: decimal numbers as the C++ streams and
  JavaScript print them, searching, JavaScript's `String.prototype.split` with a
  one-character separator, whitespace trimming, and the byte-wise ordering that
  `std::map<std::string, _>` iterates in.
 */
module Text {

  // ---------------------------------------------------------------------------
  // Searching
  // ---------------------------------------------------------------------------

  /** Index of the first `x` at or after `from`, or -1. */
  function FindFrom<T(==)>(s: seq<T>, from: nat, x: T): (r: int)
    ensures r == -1 || (from <= r < |s| && s[r] == x)
    ensures r == -1 ==> forall k :: from <= k < |s| ==> s[k] != x
    ensures r != -1 ==> forall k :: from <= k < r ==> s[k] != x
    decreases |s| - from
  {
    if from >= |s| then -1
    else if s[from] == x then from
    else FindFrom(s, from + 1, x)
  }

  /** The text `pat` occurs in `s` at position `k`. */
  predicate OccursAt(s: string, pat: string, k: nat)
  {
    k + |pat| <= |s| && s[k..k + |pat|] == pat
  }

  /** JavaScript `s.indexOf(pat, from)` for `from <= |s|`: the first occurrence at or after `from`, or -1. */
  function IndexOfFrom(s: string, pat: string, from: nat): (r: int)
    requires from <= |s|
    ensures r == -1 || (from <= r && OccursAt(s, pat, r))
    ensures r == -1 ==> forall k: nat :: from <= k ==> !OccursAt(s, pat, k)
    ensures r != -1 ==> forall k: nat :: from <= k < r ==> !OccursAt(s, pat, k)
    decreases |s| - from
  {
    if from + |pat| > |s| then -1
    else if s[from..from + |pat|] == pat then from
    else IndexOfFrom(s, pat, from + 1)
  }

  function IndexOf(s: string, pat: string): int
  {
    IndexOfFrom(s, pat, 0)
  }

  /** `s` contains `pat` somewhere (JavaScript `indexOf(pat) >= 0`, or `search` with a literal pattern). */
  predicate Contains(s: string, pat: string)
  {
    IndexOf(s, pat) >= 0
  }

  /** `s` begins with `pat` (C++ `s.compare(0, |pat|, pat) == 0`, JavaScript `s.indexOf(pat) == 0`). */
  predicate StartsWith(s: string, pat: string)
  {
    OccursAt(s, pat, 0)
  }

  /** The first occurrence is at the start exactly when the text starts with the pattern. */
  lemma IndexOfZero(s: string, pat: string)
    ensures IndexOf(s, pat) == 0 <==> StartsWith(s, pat)
  {
  }

  // ---------------------------------------------------------------------------
  // Decimal numbers
  // ---------------------------------------------------------------------------

  predicate IsDigit(c: char)
  {
    '0' <= c <= '9'
  }

  predicate AllDigits(s: string)
  {
    forall i :: 0 <= i < |s| ==> IsDigit(s[i])
  }

  function DigitChar(d: nat): (c: char)
    requires d < 10
    ensures IsDigit(c)
  {
    (d + '0' as int) as char
  }

  function DigitValue(c: char): nat
    requires IsDigit(c)
  {
    c as int - '0' as int
  }

  /** The decimal text of `n`, without sign or leading zeros. */
  function NatToString(n: nat): (s: string)
    ensures |s| >= 1 && AllDigits(s)
    ensures s[0] == '0' ==> n == 0
    decreases n
  {
    if n < 10 then [DigitChar(n)] else NatToString(n / 10) + [DigitChar(n % 10)]
  }

  /** The value of a string of decimal digits. */
  function DecimalValue(s: string): nat
    requires AllDigits(s)
  {
    if s == [] then 0 else DecimalValue(s[..|s| - 1]) * 10 + DigitValue(s[|s| - 1])
  }

  lemma {:induction false} DecimalRoundTrip(n: nat)
    ensures DecimalValue(NatToString(n)) == n
  {
    if n >= 10 {
      var s := NatToString(n);
      assert s[..|s| - 1] == NatToString(n / 10);
      DecimalRoundTrip(n / 10);
    }
  }

  /** Different numbers print differently. */
  lemma NatToStringInjective(a: nat, b: nat)
    requires NatToString(a) == NatToString(b)
    ensures a == b
  {
    DecimalRoundTrip(a);
    DecimalRoundTrip(b);
  }

  /**
    Two texts that each end in a decimal number, preceded by a non-digit, are
    equal only when the numbers are equal.
   */
  lemma {:induction false} NumberSuffixInjective(u1: string, n1: nat, u2: string, n2: nat)
    requires |u1| > 0 && !IsDigit(u1[|u1| - 1])
    requires |u2| > 0 && !IsDigit(u2[|u2| - 1])
    requires u1 + NatToString(n1) == u2 + NatToString(n2)
    ensures n1 == n2 && u1 == u2
  {
    var d1, d2 := NatToString(n1), NatToString(n2);
    var w := u1 + d1;
    assert w == u2 + d2;
    // the last character of each prefix is no digit, everything after a prefix is one
    assert w[|u1| - 1] == u1[|u1| - 1];
    assert forall k :: |u2| <= k < |w| ==> w[k] == d2[k - |u2|];
    assert |u1| <= |u2|;
    assert w[|u2| - 1] == u2[|u2| - 1];
    assert forall k :: |u1| <= k < |w| ==> w[k] == d1[k - |u1|];
    assert |u2| <= |u1|;
    assert d1 == w[|u1|..] == d2;
    assert u1 == w[..|u1|] == u2;
    NatToStringInjective(n1, n2);
  }

  /** The same with a common suffix after the number, such as a file extension. */
  lemma NumberedNameInjective(u1: string, n1: nat, u2: string, n2: nat, ext: string)
    requires |u1| > 0 && !IsDigit(u1[|u1| - 1])
    requires |u2| > 0 && !IsDigit(u2[|u2| - 1])
    requires u1 + NatToString(n1) + ext == u2 + NatToString(n2) + ext
    ensures n1 == n2 && u1 == u2
  {
    var w1, w2 := u1 + NatToString(n1), u2 + NatToString(n2);
    assert w1 == (w1 + ext)[..|w1 + ext| - |ext|] == (w2 + ext)[..|w2 + ext| - |ext|] == w2;
    NumberSuffixInjective(u1, n1, u2, n2);
  }

  /** The decimal text of an integer as JavaScript prints it: a '-' before negative numbers. */
  function IntToString(i: int): (s: string)
    ensures |s| >= 1
    ensures s[0] == '-' <==> i < 0
  {
    if i < 0 then "-" + NatToString(-i) else NatToString(i)
  }

  /** Different integers print differently. */
  lemma IntToStringInjective(a: int, b: int)
    requires IntToString(a) == IntToString(b)
    ensures a == b
  {
    assert (a < 0) == (b < 0);
    if a < 0 {
      assert NatToString(-a) == IntToString(a)[1..] == IntToString(b)[1..] == NatToString(-b);
      NatToStringInjective(-a, -b);
    } else {
      NatToStringInjective(a, b);
    }
  }

  // ---------------------------------------------------------------------------
  // Removing the first occurrence of a value
  // ---------------------------------------------------------------------------

  /** The sequence without its first `v`; unchanged when there is none. */
  function RemoveFirst<T(==)>(s: seq<T>, v: T): seq<T>
  {
    if s == [] then []
    else if s[0] == v then s[1..]
    else [s[0]] + RemoveFirst(s[1..], v)
  }

  /** `RemoveFirst` cuts out exactly the element at the first index holding `v`, and nothing when there is none. */
  lemma {:induction false} RemoveFirstCutsFirst<T>(s: seq<T>, v: T)
    ensures var k := FindFrom(s, 0, v);
      (k == -1 ==> RemoveFirst(s, v) == s)
      && (k != -1 ==> RemoveFirst(s, v) == s[..k] + s[k + 1..])
  {
    if s != [] && s[0] != v {
      RemoveFirstCutsFirst(s[1..], v);
      FindFromShift(s, v);
      var k := FindFrom(s, 0, v);
      if k != -1 {
        assert s[1..][..k - 1] + s[1..][k..] == s[1..k] + s[k + 1..];
        assert [s[0]] + s[1..k] == s[..k];
      }
    }
  }

  /** Searching a sequence whose head is not `v` is searching its tail, one place further on. */
  lemma FindFromShift<T>(s: seq<T>, v: T)
    requires s != [] && s[0] != v
    ensures var k := FindFrom(s, 0, v);
      var k1 := FindFrom(s[1..], 0, v);
      (k == -1 <==> k1 == -1) && (k != -1 ==> k == k1 + 1)
  {
    var k := FindFrom(s, 0, v);
    var k1 := FindFrom(s[1..], 0, v);
    if k1 != -1 {
      assert s[k1 + 1] == v;
      forall j | 0 <= j < k1 + 1 ensures s[j] != v {
        if j > 0 { assert s[j] == s[1..][j - 1]; }
      }
    } else {
      forall j | 0 <= j < |s| ensures s[j] != v {
        if j > 0 { assert s[j] == s[1..][j - 1]; }
      }
    }
  }

  /** Exactly one `v` leaves when there is one: the multiset loses one copy of `v` and nothing else. */
  lemma {:induction false} RemoveFirstMultiset<T>(s: seq<T>, v: T)
    ensures multiset(RemoveFirst(s, v)) == multiset(s) - multiset{v}
  {
    if s != [] {
      assert s == [s[0]] + s[1..];
      if s[0] != v {
        RemoveFirstMultiset(s[1..], v);
      }
    }
  }

  /** The sequence without any `v`, the others in order. */
  function RemoveAll<T(==)>(s: seq<T>, v: T): seq<T>
  {
    if s == [] then []
    else (if s[0] == v then [] else [s[0]]) + RemoveAll(s[1..], v)
  }

  /** What stays is what was there and is not `v`. */
  lemma {:induction false} RemoveAllMembers<T>(s: seq<T>, v: T, x: T)
    ensures x in RemoveAll(s, v) <==> x in s && x != v
  {
    if s != [] {
      RemoveAllMembers(s[1..], v, x);
      assert s == [s[0]] + s[1..];
    }
  }

  /** Removing the first `v` before removing every `v` changes nothing. */
  lemma {:induction false} RemoveAllFirst<T>(s: seq<T>, v: T)
    ensures RemoveAll(RemoveFirst(s, v), v) == RemoveAll(s, v)
  {
    if s != [] && s[0] != v {
      RemoveAllFirst(s[1..], v);
      var t := RemoveFirst(s[1..], v);
      assert RemoveFirst(s, v) == [s[0]] + t;
      assert ([s[0]] + t)[1..] == t;
    }
  }

  /** Without a `v` there is nothing to remove. */
  lemma {:induction false} RemoveAllAbsent<T>(s: seq<T>, v: T)
    requires v !in s
    ensures RemoveAll(s, v) == s
  {
    if s != [] {
      assert v !in s[1..];
      RemoveAllAbsent(s[1..], v);
      assert s == [s[0]] + s[1..];
    }
  }

  /** No element occurs twice. */
  predicate Distinct<T(==)>(s: seq<T>)
  {
    forall i, j :: 0 <= i < j < |s| ==> s[i] != s[j]
  }

  /** A value not yet in a list without repeats can go at its end. */
  lemma DistinctSnoc<T>(s: seq<T>, v: T)
    requires Distinct(s) && v !in s
    ensures Distinct(s + [v])
  {
  }

  /** Cutting one place out of a list without repeats removes its value and keeps the others. */
  lemma DistinctCut<T>(s: seq<T>, i: nat)
    requires Distinct(s) && i < |s|
    ensures Distinct(s[..i] + s[i + 1..])
    ensures forall x :: x in s[..i] + s[i + 1..] ==> x in s && x != s[i]
  {
    var r := s[..i] + s[i + 1..];
    forall j | 0 <= j < |r| ensures r[j] == s[if j < i then j else j + 1] {
    }
  }

  /** In a list without repeats, removing the first `v` removes every `v` and keeps the list without repeats. */
  lemma {:induction false} RemoveFirstDistinct<T>(s: seq<T>, v: T)
    requires Distinct(s)
    ensures Distinct(RemoveFirst(s, v))
    ensures forall x :: x in RemoveFirst(s, v) <==> x in s && x != v
  {
    if s != [] {
      assert Distinct(s[1..]) by {
        forall i, j | 0 <= i < j < |s[1..]| ensures s[1..][i] != s[1..][j] {
          assert s[1..][i] == s[i + 1] && s[1..][j] == s[j + 1];
        }
      }
      assert s[0] !in s[1..] by {
        forall j | 0 <= j < |s[1..]| ensures s[1..][j] != s[0] {
          assert s[1..][j] == s[j + 1];
        }
      }
      assert s == [s[0]] + s[1..];
      if s[0] != v {
        RemoveFirstDistinct(s[1..], v);
        var t := RemoveFirst(s[1..], v);
        assert RemoveFirst(s, v) == [s[0]] + t;
        forall i, j | 0 <= i < j < |[s[0]] + t| ensures ([s[0]] + t)[i] != ([s[0]] + t)[j] {
          if i > 0 {
            assert ([s[0]] + t)[i] == t[i - 1] && ([s[0]] + t)[j] == t[j - 1];
          } else {
            assert ([s[0]] + t)[j] == t[j - 1];
          }
        }
      }
    }
  }

  // ---------------------------------------------------------------------------
  // JavaScript split with a one-character separator, and its inverse
  // ---------------------------------------------------------------------------

  /** JavaScript `s.split(sep)`: the pieces between separators; `""` gives `[""]`. */
  function JsSplit(s: string, sep: char): (parts: seq<string>)
    ensures |parts| >= 1
    ensures forall i :: 0 <= i < |parts| ==> sep !in parts[i]
    decreases |s|
  {
    var k := FindFrom(s, 0, sep);
    if k == -1 then [s] else [s[..k]] + JsSplit(s[k + 1..], sep)
  }

  /** Pieces glued with the separator between them. */
  function Join(parts: seq<string>, sep: char): string
    requires |parts| >= 1
  {
    if |parts| == 1 then parts[0] else parts[0] + [sep] + Join(parts[1..], sep)
  }

  lemma {:induction false} JoinSplit(s: string, sep: char)
    ensures Join(JsSplit(s, sep), sep) == s
    decreases |s|
  {
    var k := FindFrom(s, 0, sep);
    if k != -1 {
      JoinSplit(s[k + 1..], sep);
      assert s == s[..k] + [sep] + s[k + 1..];
    }
  }

  lemma {:induction false} SplitJoin(parts: seq<string>, sep: char)
    requires |parts| >= 1
    requires forall i :: 0 <= i < |parts| ==> sep !in parts[i]
    ensures JsSplit(Join(parts, sep), sep) == parts
    decreases |parts|
  {
    var s := Join(parts, sep);
    if |parts| == 1 {
      assert FindFrom(s, 0, sep) == -1;
    } else {
      var rest := Join(parts[1..], sep);
      assert s == parts[0] + [sep] + rest;
      assert s[|parts[0]|] == sep;
      var k := FindFrom(s, 0, sep);
      assert k == |parts[0]| by {
        forall j | 0 <= j < |parts[0]| ensures s[j] != sep {
          assert s[j] == parts[0][j];
        }
      }
      assert s[..k] == parts[0];
      assert s[k + 1..] == rest;
      SplitJoin(parts[1..], sep);
    }
  }

  /** The non-empty pieces, in order. */
  function RemoveEmpty(parts: seq<string>): (r: seq<string>)
    ensures |r| <= |parts|
    ensures forall i :: 0 <= i < |r| ==> r[i] != "" && r[i] in parts
  {
    if parts == [] then []
    else if parts[0] == "" then RemoveEmpty(parts[1..])
    else [parts[0]] + RemoveEmpty(parts[1..])
  }

  /** Pieces that are all non-empty are kept as they are. */
  lemma {:induction false} RemoveEmptyKeeps(parts: seq<string>)
    requires forall i :: 0 <= i < |parts| ==> parts[i] != ""
    ensures RemoveEmpty(parts) == parts
  {
    if parts != [] {
      RemoveEmptyKeeps(parts[1..]);
    }
  }

  /** Dropping the empty pieces distributes over appending one piece. */
  lemma {:induction false} RemoveEmptySnoc(parts: seq<string>, x: string)
    ensures RemoveEmpty(parts + [x]) == RemoveEmpty(parts) + (if x == "" then [] else [x])
    decreases |parts|
  {
    if parts != [] {
      assert (parts + [x])[1..] == parts[1..] + [x];
      RemoveEmptySnoc(parts[1..], x);
    }
  }

  // ---------------------------------------------------------------------------
  // Whitespace
  // ---------------------------------------------------------------------------

  /** JavaScript white space and line terminators among the Latin-1 characters. */
  predicate IsJsSpace(c: char)
  {
    c == ' ' || c == '\t' || c == '\n' || c == '\r' || c == '\U{000B}' || c == '\U{000C}' || c == '\U{00A0}'
  }

  /** JavaScript `s.trimStart()`. */
  function TrimStart(s: string): string
  {
    if s != [] && IsJsSpace(s[0]) then TrimStart(s[1..]) else s
  }

  /** What `TrimStart` removes is white space, and what it keeps starts with a non-space. */
  lemma {:induction false} TrimStartSuffix(s: string)
    ensures var r := TrimStart(s);
      |r| <= |s| && r == s[|s| - |r|..]
      && (r != [] ==> !IsJsSpace(r[0]))
      && forall i :: 0 <= i < |s| - |r| ==> IsJsSpace(s[i])
  {
    if s != [] && IsJsSpace(s[0]) {
      TrimStartSuffix(s[1..]);
      var r := TrimStart(s);
      assert r == TrimStart(s[1..]);
      assert s[1..][|s| - 1 - |r|..] == s[|s| - |r|..];
      forall i | 0 <= i < |s| - |r|
        ensures IsJsSpace(s[i])
      {
        if i > 0 {
          assert s[i] == s[1..][i - 1];
        }
      }
    }
  }

  /** JavaScript `s.trimEnd()`. */
  function TrimEnd(s: string): string
  {
    if s != [] && IsJsSpace(s[|s| - 1]) then TrimEnd(s[..|s| - 1]) else s
  }

  /** What `TrimEnd` removes is white space, and what it keeps ends with a non-space. */
  lemma {:induction false} TrimEndPrefix(s: string)
    ensures var r := TrimEnd(s);
      |r| <= |s| && r == s[..|r|]
      && (r != [] ==> !IsJsSpace(r[|r| - 1]))
      && forall i :: |r| <= i < |s| ==> IsJsSpace(s[i])
  {
    if s != [] && IsJsSpace(s[|s| - 1]) {
      TrimEndPrefix(s[..|s| - 1]);
      var r := TrimEnd(s);
      assert r == TrimEnd(s[..|s| - 1]);
      assert s[..|s| - 1][..|r|] == s[..|r|];
      forall i | |r| <= i < |s|
        ensures IsJsSpace(s[i])
      {
        if i < |s| - 1 {
          assert s[i] == s[..|s| - 1][i];
        }
      }
    }
  }

  /** JavaScript `s.trim()`. */
  function Trim(s: string): string
  {
    TrimEnd(TrimStart(s))
  }

  /** C `isspace` in the "C" locale: the separators of `std::istream >> std::string`. */
  predicate IsCSpace(c: char)
  {
    c == ' ' || c == '\t' || c == '\n' || c == '\r' || c == '\U{000B}' || c == '\U{000C}'
  }

  /** The whitespace-delimited tokens of a line, as repeated `is >> token` extracts them. */
  function Tokens(s: string): (r: seq<string>)
    ensures forall i :: 0 <= i < |r| ==> r[i] != [] && forall j :: 0 <= j < |r[i]| ==> !IsCSpace(r[i][j])
    decreases |s|
  {
    if s == [] then []
    else if IsCSpace(s[0]) then Tokens(s[1..])
    else
      var w := Word(s);
      [w] + Tokens(s[|w|..])
  }

  /** The longest prefix of `s` without a C space. */
  function Word(s: string): (w: string)
    ensures w <= s
    ensures forall j :: 0 <= j < |w| ==> !IsCSpace(w[j])
    ensures |w| < |s| ==> IsCSpace(s[|w|])
  {
    if s == [] || IsCSpace(s[0]) then [] else [s[0]] + Word(s[1..])
  }

  // ---------------------------------------------------------------------------
  // Byte-wise lexicographic order (std::string's operator<) and sorted key lists
  // ---------------------------------------------------------------------------

  /** `a` sorts strictly before `b`, comparing character codes and then lengths. */
  predicate LexLess(a: string, b: string)
  {
    |b| > 0 && (|a| == 0 || a[0] < b[0] || (a[0] == b[0] && LexLess(a[1..], b[1..])))
  }

  lemma {:induction false} LexIrreflexive(a: string)
    ensures !LexLess(a, a)
  {
    if |a| > 0 {
      LexIrreflexive(a[1..]);
    }
  }

  lemma {:induction false} LexTransitive(a: string, b: string, c: string)
    requires LexLess(a, b) && LexLess(b, c)
    ensures LexLess(a, c)
  {
    if |a| > 0 && a[0] == b[0] && b[0] == c[0] {
      LexTransitive(a[1..], b[1..], c[1..]);
    }
  }

  lemma {:induction false} LexTotal(a: string, b: string)
    ensures a == b || LexLess(a, b) || LexLess(b, a)
  {
    if |a| > 0 && |b| > 0 && a[0] == b[0] {
      LexTotal(a[1..], b[1..]);
      if a[1..] == b[1..] {
        assert a == [a[0]] + a[1..] && b == [b[0]] + b[1..];
      }
    }
  }

  /** Every element of `s` other than `m` sorts after `m`. */
  ghost predicate IsLeast(m: string, s: set<string>)
  {
    m in s && forall y :: y in s && y != m ==> LexLess(m, y)
  }

  lemma {:induction false} LeastExists(s: set<string>)
    requires s != {}
    ensures exists m :: IsLeast(m, s)
    decreases |s|
  {
    if forall y :: y !in s { assert false; }
    var x :| x in s;
    if s == {x} {
      assert IsLeast(x, s);
    } else {
      LeastExists(s - {x});
      var m' :| IsLeast(m', s - {x});
      LexTotal(x, m');
      if LexLess(x, m') {
        forall y | y in s && y != x ensures LexLess(x, y) {
          if y != m' {
            LexTransitive(x, m', y);
          }
        }
        assert IsLeast(x, s);
      } else {
        assert IsLeast(m', s);
      }
    }
  }

  lemma LeastUnique(m1: string, m2: string, s: set<string>)
    requires IsLeast(m1, s) && IsLeast(m2, s)
    ensures m1 == m2
  {
    if m1 != m2 {
      assert LexLess(m1, m2) && LexLess(m2, m1);
      LexTransitive(m1, m2, m1);
      LexIrreflexive(m1);
    }
  }

  /** The strings of `s` in increasing order: the iteration order of a `std::map` with these keys. */
  ghost function SortedStrings(s: set<string>): (r: seq<string>)
    ensures |r| == |s|
    ensures forall i :: 0 <= i < |r| ==> r[i] in s
    ensures forall i, j :: 0 <= i < j < |r| ==> LexLess(r[i], r[j])
    decreases |s|
  {
    if s == {} then []
    else
      LeastExists(s);
      var m :| IsLeast(m, s);
      var rest := SortedStrings(s - {m});
      assert forall j :: 0 <= j < |rest| ==> LexLess(m, rest[j]);
      [m] + rest
  }

  /** Every string of `s` is listed. */
  lemma {:induction false} SortedStringsComplete(s: set<string>)
    ensures forall y :: y in s ==> y in SortedStrings(s)
    decreases |s|
  {
    if s != {} {
      LeastExists(s);
      var m :| IsLeast(m, s);
      SortedStringsUnfold(s, m);
      SortedStringsComplete(s - {m});
    }
  }

  lemma SortedStringsUnfold(s: set<string>, m: string)
    requires IsLeast(m, s)
    ensures SortedStrings(s) == [m] + SortedStrings(s - {m})
  {
    forall m' | IsLeast(m', s) ensures m' == m {
      LeastUnique(m', m, s);
    }
  }

  /** One step of listing a set of strings in order: its least element moves from the set to the list. */
  lemma {:induction false} SortedStringsStep(all: set<string>, rest: set<string>, done: seq<string>, s: string)
    requires done + SortedStrings(rest) == SortedStrings(all)
    requires IsLeast(s, rest)
    ensures (done + [s]) + SortedStrings(rest - {s}) == SortedStrings(all)
  {
    SortedStringsUnfold(rest, s);
    var tail := SortedStrings(rest - {s});
    assert done + ([s] + tail) == (done + [s]) + tail;
  }

  // ---------------------------------------------------------------------------
  // Integer keys in increasing order (the order JavaScript enumerates index-like keys)
  // ---------------------------------------------------------------------------

  ghost predicate IsLeastInt(m: int, s: set<int>)
  {
    m in s && forall y :: y in s ==> m <= y
  }

  lemma {:induction false} IntLeastExists(s: set<int>)
    requires s != {}
    ensures exists m :: IsLeastInt(m, s)
    decreases |s|
  {
    if forall y :: y !in s { assert false; }
    var x :| x in s;
    if s == {x} {
      assert IsLeastInt(x, s);
    } else {
      var r := s - {x};
      IntLeastExists(r);
      var m' :| IsLeastInt(m', r);
      forall y | y in s ensures y == x || y in r { }
      if x < m' {
        assert IsLeastInt(x, s);
      } else {
        assert IsLeastInt(m', s);
      }
    }
  }

  /** The integers of `s` in increasing order. */
  ghost function SortedInts(s: set<int>): (r: seq<int>)
    ensures |r| == |s|
    ensures forall i :: 0 <= i < |r| ==> r[i] in s
    ensures forall i, j :: 0 <= i < j < |r| ==> r[i] < r[j]
    decreases |s|
  {
    if s == {} then []
    else
      IntLeastExists(s);
      var m :| IsLeastInt(m, s);
      [m] + SortedInts(s - {m})
  }

  /** Every integer of `s` is listed. */
  lemma {:induction false} SortedIntsComplete(s: set<int>)
    ensures forall y :: y in s ==> y in SortedInts(s)
    decreases |s|
  {
    if s != {} {
      IntLeastExists(s);
      var m :| IsLeastInt(m, s);
      SortedIntsUnfold(s, m);
      SortedIntsComplete(s - {m});
    }
  }

  lemma SortedIntsUnfold(s: set<int>, m: int)
    requires IsLeastInt(m, s)
    ensures SortedInts(s) == [m] + SortedInts(s - {m})
  {
    forall m' | IsLeastInt(m', s) ensures m' == m {
      assert m <= m' && m' <= m;
    }
  }
}
