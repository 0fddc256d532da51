/**
  Amino-acid helpers of the JavaScript layer (modules/amino-acids.js):
  the file each amino-acid code is read from, the walk over a peptide's
  codes, the checks `combine` makes before chaining the amino acids, and
  the conversion of backbone-angle arrays to named objects.

  The code-to-name table comes from the `amino-acids-and-codons` package;
  here it is a parameter. Reading the files and appending the molecules
  are not modelled: the chain is the list of files and the angles each
  append receives.
 */
module AminoAcids {
  import opened Wrappers
  import opened Text
  import opened JsObjects

  const XyzPath: string := "molecules/Amino_Acids/"

  /** `AcidsCodons.AMINO_ACIDS`: amino-acid code to name. */
  type Table = map<char, string>

  /**
    What JavaScript throws when a code is not in the table (`undefined.name`).
    The text stands for the engine's TypeError; its exact wording depends on
    the engine and is not modelled.
   */
  const UnknownCode: string := "TypeError: AcidsCodons.AMINO_ACIDS[code] is undefined"

  /** JavaScript `s.replace(a, b)` with a one-character string pattern: only the first `a` becomes `b`. */
  function ReplaceFirst(s: string, a: char, b: char): (r: string)
    ensures |r| == |s|
  {
    if s == [] then []
    else if s[0] == a then [b] + s[1..]
    else [s[0]] + ReplaceFirst(s[1..], a, b)
  }

  /** Only the first `a` changes: the rest of the text, including any later `a`, is kept. */
  lemma {:induction false} ReplaceFirstAt(s: string, a: char, b: char)
    ensures var k := FindFrom(s, 0, a);
      (k == -1 ==> ReplaceFirst(s, a, b) == s) && (k != -1 ==> ReplaceFirst(s, a, b) == s[k := b])
  {
    if s != [] && s[0] == a {
      assert [b] + s[1..] == s[0 := b];
    } else if s != [] {
      ReplaceFirstAt(s[1..], a, b);
      FindFromTail(s, a);
      var k := FindFrom(s[1..], 0, a);
      assert ReplaceFirst(s, a, b) == [s[0]] + ReplaceFirst(s[1..], a, b);
      if k != -1 {
        assert [s[0]] + s[1..][k := b] == s[k + 1 := b];
      } else {
        assert [s[0]] + s[1..] == s;
      }
    }
  }

  lemma {:induction false} FindFromTail(s: string, a: char)
    requires s != [] && s[0] != a
    ensures FindFrom(s, 0, a) == (if FindFrom(s[1..], 0, a) == -1 then -1 else FindFrom(s[1..], 0, a) + 1)
  {
    var k := FindFrom(s[1..], 0, a);
    if k == -1 {
      assert forall i :: 0 <= i < |s| ==> s[i] != a by {
        forall i | 0 <= i < |s|
          ensures s[i] != a
        {
          if i > 0 {
            assert s[i] == s[1..][i - 1];
          }
        }
      }
    } else {
      assert s[k + 1] == a;
      forall i | 0 <= i < k + 1
        ensures s[i] != a
      {
        if i > 0 {
          assert s[i] == s[1..][i - 1];
        }
      }
      FindFromFirst(s, a, k + 1);
    }
  }

  /** The first index holding `a` is what `FindFrom` returns. */
  lemma FindFromFirst(s: string, a: char, k: nat)
    requires k < |s| && s[k] == a && forall i :: 0 <= i < k ==> s[i] != a
    ensures FindFrom(s, 0, a) == k
  {
  }

  /** A name without '_' is recovered from its file part by turning the first '_' back into a space. */
  lemma {:induction false} ReplaceFirstInverse(s: string)
    requires '_' !in s
    ensures ReplaceFirst(ReplaceFirst(s, ' ', '_'), '_', ' ') == s
  {
    if s != [] && s[0] != ' ' {
      assert s[0] != '_';
      assert '_' !in s[1..] by {
        assert forall i :: 0 <= i < |s[1..]| ==> s[1..][i] == s[i + 1];
      }
      ReplaceFirstInverse(s[1..]);
    } else if s != [] {
      assert [s[0]] + s[1..] == s;
    }
  }

  /** `codeToName(code)`. */
  function CodeToName(table: Table, code: char): Result<string, string>
  {
    if code in table then Ok(table[code]) else Err(UnknownCode)
  }

  /** `codeToFile(code)`: under the amino-acid directory, "L-" unless glycine ('G'), the name with its first space as '_'. */
  function CodeToFile(table: Table, code: char): (r: Result<string, string>)
    ensures r.Ok? <==> code in table
  {
    var name := CodeToName(table, code);
    if name.Err? then Err(name.error)
    else if code != 'G' then Ok(XyzPath + "L-" + ReplaceFirst(name.value, ' ', '_') + ".xyz")
    else Ok(XyzPath + ReplaceFirst(name.value, ' ', '_') + ".xyz")
  }

  /** The path's parts: the directory, the "L-" prefix exactly for codes other than 'G', the name, ".xyz". */
  lemma CodeToFileParts(table: Table, code: char)
    requires code in table
    ensures var path := CodeToFile(table, code).value;
      var prefix := if code == 'G' then "" else "L-";
      var part := ReplaceFirst(table[code], ' ', '_');
      && path == XyzPath + prefix + part + ".xyz"
      && path[..|XyzPath|] == XyzPath
      && path[|XyzPath| + |prefix|..|path| - 4] == part
      && path[|path| - 4..] == ".xyz"
  {
    var path := CodeToFile(table, code).value;
    var prefix := if code == 'G' then "" else "L-";
    var part := ReplaceFirst(table[code], ' ', '_');
    assert path == XyzPath + prefix + part + ".xyz";
  }

  /** `decodePeptide(peptide, f)`: the calls of `f`, once per position, in order. */
  method DecodePeptide(peptide: string) returns (calls: seq<(nat, char)>)
    ensures |calls| == |peptide| && forall i :: 0 <= i < |peptide| ==> calls[i] == (i, peptide[i])
  {
    calls := [];
    for i := 0 to |peptide|
      invariant |calls| == i && forall k :: 0 <= k < i ==> calls[k] == (k, peptide[k])
    {
      calls := calls + [(i, peptide[i])];
    }
  }

  /** The chain `combine` builds: the first amino acid's file, then each appended one's file with its angles. */
  datatype Chain<A> = Chain(first: string, appended: seq<(string, A)>)

  const NoDefaultAngles: string := "defaultAngles isn't implemented yet"

  function Mismatch(given: nat, peptideLength: nat): string
  {
    "peptide combine: unmatching angles array provided, angles.length=" + NatToString(given) + ", expected "
      + IntToString(peptideLength - 1)
  }

  /**
    `combine(peptide, angles)`: angles, when given, must number one less
    than the codes; each code's file is named in order, the first starts
    the chain and each later one is appended with its angles. Without
    angles a second amino acid throws, since default angles do not exist.
    An empty peptide leaves the chain undefined.
   */
  method Combine<A>(table: Table, peptide: string, angles: Option<seq<A>>) returns (r: Result<Option<Chain<A>>, string>)
    ensures angles.Some? && |angles.value| != |peptide| - 1 ==> r == Err(Mismatch(|angles.value|, |peptide|))
    ensures r.Ok? <==> (angles.Some? ==> |angles.value| == |peptide| - 1) && (angles.None? ==> |peptide| <= 1)
                       && forall i :: 0 <= i < |peptide| ==> peptide[i] in table
    ensures r.Ok? ==> (r.value.None? <==> peptide == [])
    ensures r.Ok? && r.value.Some? ==>
              var c := r.value.value;
              && c.first == CodeToFile(table, peptide[0]).value
              && |c.appended| == |peptide| - 1
              && forall i :: 0 <= i < |c.appended| ==> c.appended[i] == (CodeToFile(table, peptide[i + 1]).value, angles.value[i])
    ensures angles.None? && |peptide| >= 2 && peptide[0] in table && peptide[1] in table ==> r == Err(NoDefaultAngles)
    ensures r.Err? ==> r.error in {Mismatch(if angles.Some? then |angles.value| else 0, |peptide|), NoDefaultAngles, UnknownCode}
  {
    if angles.Some? && |angles.value| != |peptide| - 1 {
      return Err(Mismatch(|angles.value|, |peptide|));
    }
    var chain: Option<Chain<A>> := None;
    for i := 0 to |peptide|
      invariant forall k :: 0 <= k < i ==> peptide[k] in table
      invariant i <= 1 || angles.Some?
      invariant chain.None? <==> i == 0
      invariant chain.Some? ==>
                  && chain.value.first == CodeToFile(table, peptide[0]).value
                  && |chain.value.appended| == i - 1
                  && forall k :: 0 <= k < i - 1 ==> chain.value.appended[k] == (CodeToFile(table, peptide[k + 1]).value, angles.value[k])
    {
      var file := CodeToFile(table, peptide[i]);
      if file.Err? {
        return Err(file.error);
      }
      if i == 0 {
        chain := Some(Chain(file.value, []));
      } else {
        if angles.None? {
          return Err(NoDefaultAngles);
        }
        chain := Some(Chain(chain.value.first, chain.value.appended + [(file.value, angles.value[i - 1])]));
      }
    }
    r := Ok(chain);
  }

  // ---------------------------------------------------------------------------
  // Backbone angles
  // ---------------------------------------------------------------------------

  /** The names of the angle array's entries, by index. */
  const AngleNames: seq<string> := ["omega", "phi", "psi", "adjN", "adjCmain", "adjCoo", "O2Rise", "O2Tilt", "PlRise", "PlTilt"]

  const InvalidIndex: string := "invalid index 10 in the angles array"

  lemma AngleNamesDistinct()
    ensures forall i, j :: 0 <= i < j < |AngleNames| ==> AngleNames[i] != AngleNames[j]
  {
  }

  /** The object for an array of at most ten angles: each named entry in index order. */
  function AnglesObject<V>(angles: seq<V>): (o: JsObject<V>)
    requires |angles| <= |AngleNames|
  {
    seq(|angles|, k requires 0 <= k < |angles| => (AngleNames[k], angles[k]))
  }

  /** Each name reads back its angle, and the object's keys are the first names in order. */
  lemma AnglesObjectGet<V>(angles: seq<V>, i: nat)
    requires |angles| <= |AngleNames| && i < |angles|
    ensures Get(AnglesObject(angles), AngleNames[i]) == Some(angles[i])
    ensures Keys(AnglesObject(angles)) == AngleNames[..|angles|]
  {
    AngleNamesDistinct();
    GetFirst(AnglesObject(angles), i);
  }

  /** With distinct keys, `Get` finds the entry at its position. */
  lemma {:induction false} GetFirst<V>(o: JsObject<V>, i: nat)
    requires i < |o| && forall j :: 0 <= j < i ==> o[j].0 != o[i].0
    ensures Get(o, o[i].0) == Some(o[i].1)
  {
    if i > 0 {
      GetFirst(o[1..], i - 1);
    }
  }

  /** The message for the first index past the names. */
  lemma InvalidIndexText()
    ensures "invalid index " + NatToString(|AngleNames|) + " in the angles array" == InvalidIndex
  {
    assert |AngleNames| == 10;
    TenText();
    assert "invalid index " + "10" + " in the angles array" == InvalidIndex;
  }

  lemma TenText()
    ensures NatToString(10) == "10"
  {
    assert NatToString(10) == NatToString(1) + [DigitChar(0)];
  }

  /** Assigning the next named angle appends it, since the names are distinct. */
  lemma AnglesStep<V>(angles: seq<V>, i: nat)
    requires i < |angles| && i < |AngleNames|
    ensures Set(AnglesObject(angles[..i]), AngleNames[i], angles[i]) == AnglesObject(angles[..i + 1])
  {
    AngleNamesDistinct();
    var o := AnglesObject(angles[..i]);
    assert forall j :: 0 <= j < |o| ==> o[j].0 != AngleNames[i];
    assert AnglesObject(angles[..i + 1]) == o + [(AngleNames[i], angles[i])];
  }

  /** `anglesArrayToObject(angles)`: names the first ten angles; an eleventh throws. */
  method AnglesArrayToObject<V>(angles: seq<V>) returns (r: Result<JsObject<V>, string>)
    ensures |angles| <= |AngleNames| ==> r == Ok(AnglesObject(angles))
    ensures |angles| > |AngleNames| ==> r == Err(InvalidIndex)
  {
    var o: JsObject<V> := [];
    for i := 0 to |angles|
      invariant i <= |AngleNames| && o == AnglesObject(angles[..i])
    {
      if i >= |AngleNames| {
        InvalidIndexText();
        return Err("invalid index " + NatToString(i) + " in the angles array");
      }
      AnglesStep(angles, i);
      o := Set(o, AngleNames[i], angles[i]);
    }
    assert angles[..|angles|] == angles;
    r := Ok(o);
  }

  /** `anglesArraysToObjects(angleArrays)`: each array converted, in order; the first failure throws. */
  method AnglesArraysToObjects<V>(angleArrays: seq<seq<V>>) returns (r: Result<seq<JsObject<V>>, string>)
    ensures r.Ok? <==> forall i :: 0 <= i < |angleArrays| ==> |angleArrays[i]| <= |AngleNames|
    ensures r.Ok? ==> |r.value| == |angleArrays| &&
                      forall i :: 0 <= i < |angleArrays| ==> r.value[i] == AnglesObject(angleArrays[i])
    ensures r.Err? ==> r.error == InvalidIndex
  {
    var a: seq<JsObject<V>> := [];
    for i := 0 to |angleArrays|
      invariant |a| == i
      invariant forall k :: 0 <= k < i ==> |angleArrays[k]| <= |AngleNames| && a[k] == AnglesObject(angleArrays[k])
    {
      var o := AnglesArrayToObject(angleArrays[i]);
      if o.Err? {
        return Err(o.error);
      }
      a := a + [o.value];
    }
    r := Ok(a);
  }
}
