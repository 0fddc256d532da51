/**
  The string utilities of `Util`: the `std::getline` split on one separator
  character, the line and space splits built on it, copying a container to a
  vector, the two-way map `DoubleMap`, and `strAsBool`.
 */
module Util {
  import opened Wrappers
  import opened Text

  // ---------------------------------------------------------------------------
  // split<Sep>
  // ---------------------------------------------------------------------------

  /**
    What repeated `std::getline(ss, to, sep)` extracts from `s`: the text up
    to each separator; the text after the last separator only when it is not
    empty (getline fails when it extracts nothing at the end of the input).
   */
  function Pieces(s: string, sep: char): (parts: seq<string>)
    ensures parts == [] <==> s == []
    ensures forall i :: 0 <= i < |parts| ==> sep !in parts[i]
    decreases |s|
  {
    if s == [] then []
    else
      var k := FindFrom(s, 0, sep);
      if k == -1 then [s] else [s[..k]] + Pieces(s[k + 1..], sep)
  }

  /** A field without the separator, then the separator: the field comes first. */
  lemma PiecesAt(field: string, rest: string, sep: char)
    requires sep !in field
    ensures Pieces(field + [sep] + rest, sep) == [field] + Pieces(rest, sep)
  {
    var s := field + [sep] + rest;
    var k := FindFrom(s, 0, sep);
    assert s[|field|] == sep;
    assert k == |field|;
    assert s[..k] == field;
    assert s[k + 1..] == rest;
  }

  /** Text without the separator is one field, or none when it is empty. */
  lemma PiecesOfField(field: string, sep: char)
    requires sep !in field
    ensures Pieces(field, sep) == if field == [] then [] else [field]
  {
  }

  /** One character of the loop of `split`: a separator ends the field, another character extends it. */
  lemma SplitStep(s: string, i: nat, to: string, sep: char)
    requires i < |s| && sep !in to
    ensures s[i] == sep ==> Pieces(to + s[i..], sep) == [to] + Pieces("" + s[i + 1..], sep)
    ensures s[i] != sep ==> Pieces(to + s[i..], sep) == Pieces((to + [s[i]]) + s[i + 1..], sep)
  {
    if s[i] == sep {
      assert to + s[i..] == to + [sep] + s[i + 1..];
      PiecesAt(to, s[i + 1..], sep);
      assert "" + s[i + 1..] == s[i + 1..];
    } else {
      assert (to + [s[i]]) + s[i + 1..] == to + s[i..];
    }
  }

  /** `split<Sep>`: the loop pushing each field `std::getline` extracts. */
  method Split(s: string, sep: char) returns (res: seq<string>)
    ensures res == Pieces(s, sep)
  {
    res := [];
    var to := "";
    var i := 0;
    assert to + s[i..] == s;
    ghost var whole := Pieces(s, sep);
    while i < |s|
      invariant 0 <= i <= |s|
      invariant sep !in to
      invariant whole == res + Pieces(to + s[i..], sep)
    {
      SplitStep(s, i, to, sep);
      if s[i] == sep {
        res := res + [to];
        to := "";
      } else {
        to := to + [s[i]];
      }
      i := i + 1;
    }
    assert to + s[i..] == to;
    PiecesOfField(to, sep);
    if to != [] {
      res := res + [to];
    }
  }

  /**
    The getline fields against JavaScript's `split`: the same pieces, except
    that a separator at the very end gives no empty last field.
   */
  lemma {:induction false} PiecesJsSplit(s: string, sep: char)
    requires s != []
    ensures JsSplit(s, sep) == if s[|s| - 1] == sep then Pieces(s, sep) + [""] else Pieces(s, sep)
    decreases |s|
  {
    var k := FindFrom(s, 0, sep);
    if k != -1 {
      var rest := s[k + 1..];
      if rest == [] {
        assert FindFrom(rest, 0, sep) == -1;
      } else {
        PiecesJsSplit(rest, sep);
        assert rest[|rest| - 1] == s[|s| - 1];
      }
    }
  }

  lemma {:induction false} JoinSnoc(parts: seq<string>, x: string, sep: char)
    requires |parts| >= 1
    ensures Join(parts + [x], sep) == Join(parts, sep) + [sep] + x
    decreases |parts|
  {
    if |parts| > 1 {
      assert (parts + [x])[1..] == parts[1..] + [x];
      JoinSnoc(parts[1..], x, sep);
    }
  }

  /**
    Joining the fields with the separator gives the text back, without its
    last character when that is the separator.
   */
  lemma JoinPieces(s: string, sep: char)
    requires s != []
    ensures Join(Pieces(s, sep), sep) == if s[|s| - 1] == sep then s[..|s| - 1] else s
  {
    PiecesJsSplit(s, sep);
    JoinSplit(s, sep);
    var p := Pieces(s, sep);
    if s[|s| - 1] == sep {
      JoinSnoc(p, "", sep);
      assert s == Join(p, sep) + [sep];
    }
  }

  /** Lines each ended by the separator split back into those lines. */
  lemma PiecesOfEndedLines(ls: seq<string>, sep: char)
    requires forall i :: 0 <= i < |ls| ==> sep !in ls[i]
    ensures Pieces(Join(ls + [""], sep), sep) == ls
  {
    var s := Join(ls + [""], sep);
    SplitJoin(ls + [""], sep);
    if ls != [] {
      JoinSnoc(ls, "", sep);
      PiecesJsSplit(s, sep);
      assert Pieces(s, sep) + [""] == ls + [""];
      assert Pieces(s, sep) == (Pieces(s, sep) + [""])[..|ls|];
    } else {
      assert s == [];
    }
  }

  /** `splitLines`: `split<'\n'>`. */
  method SplitLines(s: string) returns (res: seq<string>)
    ensures res == Pieces(s, '\n')
  {
    res := Split(s, '\n');
  }


  /** `splitSpaces`: the non-empty fields of `split<' '>`, in order. */
  method SplitSpaces(s: string) returns (res: seq<string>)
    ensures res == RemoveEmpty(Pieces(s, ' '))
    ensures forall i :: 0 <= i < |res| ==> res[i] != "" && ' ' !in res[i]
  {
    var parts := Split(s, ' ');
    res := [];
    for i := 0 to |parts|
      invariant res == RemoveEmpty(parts[..i])
    {
      RemoveEmptySnoc(parts[..i], parts[i]);
      assert parts[..i + 1] == parts[..i] + [parts[i]];
      if parts[i] != "" {
        res := res + [parts[i]];
      }
    }
    assert parts[..|parts|] == parts;
  }

  /** `containerToVec`: the elements in iteration order. */
  method ContainerToVec<T>(c: seq<T>) returns (res: seq<T>)
    ensures |res| == |c| && forall i :: 0 <= i < |c| ==> res[i] == c[i]
  {
    res := [];
    for i := 0 to |c|
      invariant res == c[..i]
    {
      res := res + [c[i]];
    }
  }

  // ---------------------------------------------------------------------------
  // DoubleMap
  // ---------------------------------------------------------------------------

  /** A key's entry, or nothing (the null pointer `get12`/`get21` return). */
  function Lookup<K, V>(m: map<K, V>, k: K): (r: Option<V>)
    ensures r.Some? <==> k in m
    ensures r.Some? ==> r.value == m[k]
  {
    if k in m then Some(m[k]) else None
  }

  /** Two maps, one each way; `add` writes both, and removes nothing. */
  class DoubleMap<T1(==), T2(==)> {
    var m12: map<T1, T2>
    var m21: map<T2, T1>

    constructor ()
      ensures m12 == map[] && m21 == map[]
    {
      m12 := map[];
      m21 := map[];
    }

    /**
      `add(t1, t2)`: each maps to the other from now on; a reverse entry of
      an earlier pair with `t1` or `t2` stays.
     */
    method Add(t1: T1, t2: T2)
      modifies this
      ensures m12 == old(m12)[t1 := t2] && m21 == old(m21)[t2 := t1]
      ensures Get12(t1) == Some(t2) && Get21(t2) == Some(t1)
      ensures forall x :: x in old(m21) && x != t2 ==> Get21(x) == Some(old(m21)[x])
      ensures forall x :: x in old(m12) && x != t1 ==> Get12(x) == Some(old(m12)[x])
    {
      m12 := m12[t1 := t2];
      m21 := m21[t2 := t1];
    }

    function Get12(t1: T1): Option<T2>
      reads this
    {
      Lookup(m12, t1)
    }

    function Get21(t2: T2): Option<T1>
      reads this
    {
      Lookup(m21, t2)
    }
  }

  /**
    Adding `(a, x)` and then `(a, y)` with `x != y` leaves a stale reverse
    entry: `x` still maps back to `a`, while `a` maps to `y`.
   */
  method StaleReverse<T1(==), T2(==)>(a: T1, x: T2, y: T2) returns (dm: DoubleMap<T1, T2>)
    requires x != y
    ensures dm.Get12(a) == Some(y) && dm.Get21(x) == Some(a) && dm.Get21(y) == Some(a)
  {
    dm := new DoubleMap();
    dm.Add(a, x);
    dm.Add(a, y);
  }

  // ---------------------------------------------------------------------------
  // strAsBool
  // ---------------------------------------------------------------------------

  const TrueWords: seq<string> := ["yes", "true", "on", "1"]
  const FalseWords: seq<string> := ["no", "false", "off", "0"]

  /** `tolower` in the "C" locale: only 'A'..'Z' change. */
  function Lower(c: char): (l: char)
    ensures 'A' <= c <= 'Z' ==> 'a' <= l <= 'z'
    ensures !('A' <= c <= 'Z') ==> l == c
  {
    if 'A' <= c <= 'Z' then (c as int + 32) as char else c
  }

  /** `boost::algorithm::to_lower_copy`. */
  function ToLower(s: string): (r: string)
    ensures |r| == |s| && forall i :: 0 <= i < |s| ==> r[i] == Lower(s[i])
  {
    seq(|s|, i requires 0 <= i < |s| => Lower(s[i]))
  }

  /**
    `strAsBool`: true for the words yes/true/on/1 and false for no/false/off/0
    in any letter case; any other string is an error naming it.
   */
  function StrAsBool(str: string): (r: Result<bool, string>)
    ensures r == Ok(true) <==> ToLower(str) in TrueWords
    ensures r == Ok(false) <==> ToLower(str) in FalseWords
    ensures r.Err? <==> ToLower(str) !in TrueWords + FalseWords
    ensures r.Err? ==> r.error == "the string '" + str + "' can't be converted to boolean"
  {
    var l := ToLower(str);
    if l in TrueWords then Ok(true)
    else if l in FalseWords then Ok(false)
    else Err("the string '" + str + "' can't be converted to boolean")
  }

  /** No word reads both ways. */
  lemma WordsDisjoint()
    ensures forall w :: w in TrueWords ==> w !in FalseWords
  {
  }

  /** Strings equal up to letter case convert alike. */
  lemma StrAsBoolCaseInsensitive(s: string, t: string)
    requires |s| == |t| && forall i :: 0 <= i < |s| ==> Lower(s[i]) == Lower(t[i])
    ensures StrAsBool(s).Ok? == StrAsBool(t).Ok?
    ensures StrAsBool(s).Ok? ==> StrAsBool(s).value == StrAsBool(t).value
  {
    assert ToLower(s) == ToLower(t);
  }
}
