/**
  The Erkale calculation module of the JavaScript layer (modules/calc-erkale.js).

  Parameters arrive as a JavaScript object; the ones Erkale knows are renamed,
  a default basis is added, and the runfile lists them in the object's order.
  The process output (from running the executable, or from the earlier output
  file when reprocessing) is a parameter; it is split into lines, which must
  end with a line end, and the energy is the second word of the line before
  the final "RDFT converged" line. Every error is a thrown string starting
  with "ERROR(erkale) ".
 */
module CalcErkale {
  import opened Wrappers
  import opened Text
  import opened Molecules
  import opened JsObjects

  const Name: string := "erkale"
  const DefaultBasis: string := "3-21G"
  const InputXyzFile: string := "m.xyz"
  const ExecutableEnergy: string := "erkale_omp"
  const ExecutableGeomOpt: string := "erkale_geom_omp"

  /** `xthrow`: the message as thrown. */
  function Thrown(msg: string): string
  {
    "ERROR(" + Name + ") " + msg
  }

  // ---------------------------------------------------------------------------
  // Parameters
  // ---------------------------------------------------------------------------

  /**
    A key the translation accepts: one of the two it renames, or one the
    shared parameter check (`CalcUtils.isValidParam`, the parameter `isValid`)
    accepts.
   */
  predicate Accepted(key: string, isValid: string -> bool)
  {
    key == "precision" || key == "basis" || isValid(key)
  }

  function Unexpected(key: string): string
  {
    Thrown("unexpected key '" + key + "' found in params passed to the '" + Name + "' calc engine")
  }

  /** The keys among the first `n` entries. */
  predicate InFirst(params: JsObject<string>, n: nat, key: string)
    requires n <= |params|
  {
    exists i :: 0 <= i < n && params[i].0 == key
  }

  /**
    `paramsToErkaleParams` after its first `n` keys: "precision" stored as
    "ConvThr", "basis" as "Basis", other accepted keys skipped, the first
    other key thrown.
   */
  function Translate(params: JsObject<string>, isValid: string -> bool, n: nat): Result<JsObject<string>, string>
    requires n <= |params|
  {
    if n == 0 then Ok([])
    else
      var prev := Translate(params, isValid, n - 1);
      var key := params[n - 1].0;
      if prev.Err? then prev
      else if key == "precision" then
        GetPresent(params, n - 1);
        Ok(Set(prev.value, "ConvThr", Get(params, "precision").value))
      else if key == "basis" then
        GetPresent(params, n - 1);
        Ok(Set(prev.value, "Basis", Get(params, "basis").value))
      else if !isValid(key) then Err(Unexpected(key))
      else prev
  }

  /** Once the translation has failed, the later keys do not matter. */
  lemma {:induction false} TranslateErrStays(params: JsObject<string>, isValid: string -> bool, i: nat, n: nat)
    requires i <= n <= |params| && Translate(params, isValid, i).Err?
    ensures Translate(params, isValid, n) == Translate(params, isValid, i)
    decreases n
  {
    if n > i {
      TranslateErrStays(params, isValid, i, n - 1);
    }
  }

  /**
    The translation fails exactly when some key is neither renamed nor
    valid, and then it names the first such key.
   */
  lemma {:induction false} TranslateFails(params: JsObject<string>, isValid: string -> bool, n: nat)
    requires n <= |params|
    ensures var r := Translate(params, isValid, n);
      && (r.Ok? <==> forall i :: 0 <= i < n ==> Accepted(params[i].0, isValid))
      && (r.Err? ==> exists k :: 0 <= k < n && !Accepted(params[k].0, isValid) && r.error == Unexpected(params[k].0)
                       && forall i :: 0 <= i < k ==> Accepted(params[i].0, isValid))
  {
    TranslateRejects(params, isValid, n);
    RejectsFirst(params, isValid, n);
  }

  /** The error of the first `n` keys, if any: the message for the first key not accepted. */
  function Rejects(params: JsObject<string>, isValid: string -> bool, n: nat): Option<string>
    requires n <= |params|
  {
    if n == 0 then None
    else
      var prev := Rejects(params, isValid, n - 1);
      if prev.Some? then prev
      else if !Accepted(params[n - 1].0, isValid) then Some(Unexpected(params[n - 1].0))
      else None
  }

  /** The translation fails exactly with the error `Rejects` names. */
  lemma {:induction false} TranslateRejects(params: JsObject<string>, isValid: string -> bool, n: nat)
    requires n <= |params|
    ensures Translate(params, isValid, n).Err? <==> Rejects(params, isValid, n).Some?
    ensures Translate(params, isValid, n).Err? ==> Translate(params, isValid, n).error == Rejects(params, isValid, n).value
  {
    if n > 0 {
      TranslateRejects(params, isValid, n - 1);
      TranslateStep(params, isValid, n);
    }
  }

  /** `Rejects` names the first key that is not accepted, and nothing when all are. */
  lemma {:induction false} RejectsFirst(params: JsObject<string>, isValid: string -> bool, n: nat)
    requires n <= |params|
    ensures var r := Rejects(params, isValid, n);
      && (r.None? <==> forall i :: 0 <= i < n ==> Accepted(params[i].0, isValid))
      && (r.Some? ==> exists k :: 0 <= k < n && !Accepted(params[k].0, isValid) && r.value == Unexpected(params[k].0)
                       && forall i :: 0 <= i < k ==> Accepted(params[i].0, isValid))
  {
    if n > 0 {
      RejectsFirst(params, isValid, n - 1);
      var prev := Rejects(params, isValid, n - 1);
      if prev.Some? {
        var k :| 0 <= k < n - 1 && !Accepted(params[k].0, isValid) && prev.value == Unexpected(params[k].0)
                 && forall i :: 0 <= i < k ==> Accepted(params[i].0, isValid);
        assert 0 <= k < n;
      } else if !Accepted(params[n - 1].0, isValid) {
        assert forall i :: 0 <= i < n - 1 ==> Accepted(params[i].0, isValid);
      }
    }
  }

  /** One step of the translation: an error stays, and otherwise the step fails exactly on a key it does not accept. */
  lemma TranslateStep(params: JsObject<string>, isValid: string -> bool, n: nat)
    requires 0 < n <= |params|
    ensures var prev := Translate(params, isValid, n - 1);
      var r := Translate(params, isValid, n);
      var key := params[n - 1].0;
      && (prev.Err? ==> r == prev)
      && (prev.Ok? ==> (r.Ok? <==> Accepted(key, isValid)))
      && (prev.Ok? && !Accepted(key, isValid) ==> r == Err(Unexpected(key)))
  {
  }

  /**
    A successful translation holds "ConvThr" and "Basis" exactly when
    "precision" and "basis" were among the keys, with their values, and
    nothing else.
   */
  lemma {:induction false} TranslateKeys(params: JsObject<string>, isValid: string -> bool, n: nat)
    requires n <= |params| && Translate(params, isValid, n).Ok?
    ensures var o := Translate(params, isValid, n).value;
      && Get(o, "ConvThr") == (if InFirst(params, n, "precision") then Get(params, "precision") else None)
      && Get(o, "Basis") == (if InFirst(params, n, "basis") then Get(params, "basis") else None)
      && forall i :: 0 <= i < |o| ==> o[i].0 == "ConvThr" || o[i].0 == "Basis"
  {
    if n > 0 {
      var prev := Translate(params, isValid, n - 1);
      TranslateKeys(params, isValid, n - 1);
      var key := params[n - 1].0;
      InFirstStep(params, n, "precision");
      InFirstStep(params, n, "basis");
      var o := prev.value;
      if key == "precision" {
        SetKeys(o, "ConvThr", Get(params, "precision").value);
      } else if key == "basis" {
        SetKeys(o, "Basis", Get(params, "basis").value);
      }
    }
  }

  lemma InFirstStep(params: JsObject<string>, n: nat, k: string)
    requires 0 < n <= |params|
    ensures InFirst(params, n, k) <==> InFirst(params, n - 1, k) || params[n - 1].0 == k
  {
    if InFirst(params, n, k) && params[n - 1].0 != k {
      var i :| 0 <= i < n && params[i].0 == k;
      assert i < n - 1;
    }
  }

  /** Setting a key adds at most that key. */
  lemma SetKeys(o: JsObject<string>, k: string, v: string)
    ensures forall i :: 0 <= i < |Set(o, k, v)| ==> Set(o, k, v)[i].0 == k || exists j :: 0 <= j < |o| && o[j].0 == Set(o, k, v)[i].0
  {
    var t := Set(o, k, v);
    forall i | 0 <= i < |t| && t[i].0 != k
      ensures exists j :: 0 <= j < |o| && o[j].0 == t[i].0
    {
      if Get(o, k).None? {
        assert t[i] == o[i];
      } else {
        assert t[i].0 == Keys(t)[i] == Keys(o)[i] == o[i].0;
      }
    }
  }

  /** `paramsToErkaleParams`: the `forEach` over `Object.keys(engParams)`. */
  method ParamsToErkaleParams(params: JsObject<string>, isValid: string -> bool) returns (r: Result<JsObject<string>, string>)
    ensures r == Translate(params, isValid, |params|)
  {
    var erk: JsObject<string> := [];
    for i := 0 to |params|
      invariant Translate(params, isValid, i) == Ok(erk)
    {
      var key := params[i].0;
      GetPresent(params, i);
      if key == "precision" {
        erk := Set(erk, "ConvThr", Get(params, "precision").value);
      } else if key == "basis" {
        erk := Set(erk, "Basis", Get(params, "basis").value);
      } else if !isValid(key) {
        TranslateErrStays(params, isValid, i + 1, |params|);
        return Err(Unexpected(key));
      }
    }
    r := Ok(erk);
  }

  /** The keys follow the caller's order: "basis" given first puts "Basis" first. */
  lemma TranslateOrder(b: string, p: string, isValid: string -> bool)
    ensures Translate([("basis", b), ("precision", p)], isValid, 2) == Ok([("Basis", b), ("ConvThr", p)])
  {
    var o: JsObject<string> := [("basis", b), ("precision", p)];
    assert Get(o, "basis") == Some(b);
    assert Get(o, "precision") == Some(p) by {
      assert o[1..] == [("precision", p)];
    }
    var one: JsObject<string> := [("Basis", b)];
    assert Translate(o, isValid, 1) == Ok(one) by {
      assert Translate(o, isValid, 0) == Ok([]);
    }
    assert Set(one, "ConvThr", p) == [("Basis", b), ("ConvThr", p)] by {
      assert one[1..] == [];
    }
  }

  /** `defaultParams`: "Basis" appended with the default basis when it is absent. */
  function DefaultParams(erk: JsObject<string>): (r: JsObject<string>)
    ensures Get(r, "Basis") == Some(if Get(erk, "Basis").Some? then Get(erk, "Basis").value else DefaultBasis)
    ensures forall k :: k != "Basis" ==> Get(r, k) == Get(erk, k)
    ensures Get(erk, "Basis").Some? ==> r == erk
    ensures Get(erk, "Basis").None? ==> r == erk + [("Basis", DefaultBasis)]
  {
    if Get(erk, "Basis").None? then Set(erk, "Basis", DefaultBasis) else erk
  }

  // ---------------------------------------------------------------------------
  // The runfile
  // ---------------------------------------------------------------------------

  /** One "key value" line per entry, in the object's order. */
  function EntryLines(o: JsObject<string>): (ls: seq<string>)
    ensures |ls| == |o| && forall i :: 0 <= i < |o| ==> ls[i] == o[i].0 + " " + o[i].1
  {
    if o == [] then [] else EntryLines(o[..|o| - 1]) + [o[|o| - 1].0 + " " + o[|o| - 1].1]
  }

  function RunfileLines(erk: JsObject<string>): seq<string>
  {
    ["System " + InputXyzFile, "Method lda_x-lda_c_vwn"] + EntryLines(erk)
  }

  /** `formRunfile`: the text built line by line. */
  method FormRunfile(erk: JsObject<string>) returns (runfile: string)
    ensures runfile == Lines(RunfileLines(erk))
  {
    runfile := "";
    runfile := runfile + "System " + InputXyzFile + "\n";
    runfile := runfile + "Method lda_x-lda_c_vwn\n";
    RunfileStart(erk);
    for i := 0 to |erk|
      invariant runfile == Lines(RunfileLines(erk[..i]))
    {
      RunfileNext(erk, i);
      runfile := runfile + erk[i].0 + " " + erk[i].1 + "\n";
    }
    assert erk[..|erk|] == erk;
  }

  lemma RunfileStart(erk: JsObject<string>)
    ensures "" + "System " + InputXyzFile + "\n" + "Method lda_x-lda_c_vwn\n" == Lines(RunfileLines(erk[..0]))
  {
    var ls := RunfileLines(erk[..0]);
    assert ls == ["System " + InputXyzFile, "Method lda_x-lda_c_vwn"];
    assert Lines(ls[1..]) == "Method lda_x-lda_c_vwn" + "\n" by {
      assert ls[1..][1..] == [];
    }
    assert "Method lda_x-lda_c_vwn\n" == "Method lda_x-lda_c_vwn" + "\n";
  }

  lemma RunfileNext(erk: JsObject<string>, i: nat)
    requires i < |erk|
    ensures Lines(RunfileLines(erk[..i])) + erk[i].0 + " " + erk[i].1 + "\n" == Lines(RunfileLines(erk[..i + 1]))
  {
    var line := erk[i].0 + " " + erk[i].1;
    assert erk[..i + 1][..i] == erk[..i];
    assert RunfileLines(erk[..i + 1]) == RunfileLines(erk[..i]) + [line];
    LinesSnoc(RunfileLines(erk[..i]), line);
  }

  // ---------------------------------------------------------------------------
  // The output
  // ---------------------------------------------------------------------------

  /** `findErrors`: its checks are disabled, so it never reports an error. */
  function FindErrors(lines: seq<string>): (r: Option<string>)
    ensures r == None
  {
    None
  }

  /**
    The output processing of `runCalcEngine`: split at line ends, no error
    reported, and the last piece, which must be empty, dropped.
   */
  function OutputLines(out: string): (r: Result<seq<string>, string>)
    ensures r.Ok? ==> Lines(r.value) == out
  {
    var lines := JsSplit(out, '\n');
    var err := FindErrors(lines);
    if err.Some? then Err(Thrown(err.value))
    else if lines[|lines| - 1] != "" then Err(Thrown("last line in erkale's output doesn't end with a newline"))
    else
      OutputLinesJoin(out);
      Ok(lines[..|lines| - 1])
  }

  lemma OutputLinesJoin(out: string)
    requires var lines := JsSplit(out, '\n'); lines[|lines| - 1] == ""
    ensures var lines := JsSplit(out, '\n'); Lines(lines[..|lines| - 1]) == out
  {
    var lines := JsSplit(out, '\n');
    JoinSplit(out, '\n');
    LinesJoin(lines[..|lines| - 1]);
    assert lines[..|lines| - 1] + [""] == lines;
  }

  /** Lines each ended by a line end come back as those lines. */
  lemma OutputLinesOfLines(ls: seq<string>)
    requires forall i :: 0 <= i < |ls| ==> '\n' !in ls[i]
    ensures OutputLines(Lines(ls)) == Ok(ls)
  {
    LinesSplit(ls);
    assert (ls + [""])[..|ls|] == ls;
  }

  /** Output whose last line has no line end is rejected. */
  lemma UnterminatedOutput(ls: seq<string>, last: string)
    requires forall i :: 0 <= i < |ls| ==> '\n' !in ls[i]
    requires last != "" && '\n' !in last
    ensures OutputLines(Lines(ls) + last).Err?
  {
    LastLineSplit(ls, last);
    var lines := JsSplit(Lines(ls) + last, '\n');
    assert lines[|lines| - 1] == last;
  }

  /** Lines with line ends followed by an unterminated `last` split into the lines and `last`. */
  lemma LastLineSplit(ls: seq<string>, last: string)
    requires forall i :: 0 <= i < |ls| ==> '\n' !in ls[i]
    requires '\n' !in last
    ensures JsSplit(Lines(ls) + last, '\n') == ls + [last]
  {
    LinesJoin(ls);
    JoinLast(ls, last);
    SplitJoin(ls + [last], '\n');
  }

  /** Replacing the empty last piece by `last` appends `last`. */
  lemma {:induction false} JoinLast(ls: seq<string>, last: string)
    ensures Join(ls + [""], '\n') + last == Join(ls + [last], '\n')
    decreases |ls|
  {
    if ls != [] {
      assert (ls + [""])[1..] == ls[1..] + [""];
      assert (ls + [last])[1..] == ls[1..] + [last];
      JoinLast(ls[1..], last);
    }
  }

  /**
    `extractEnergyFromOutput`: at least five lines, the last starting with
    "RDFT converged", at least three words in the line before; the energy
    is its second word.
   */
  function ExtractEnergyFromOutput(lines: seq<string>): (r: Result<string, string>)
    ensures r.Ok? <==> |lines| >= 5 && StartsWith(lines[|lines| - 1], "RDFT converged")
                       && |RemoveEmpty(JsSplit(lines[|lines| - 2], ' '))| >= 3
    ensures r.Ok? ==> r.value == RemoveEmpty(JsSplit(lines[|lines| - 2], ' '))[1] && r.value != "" && ' ' !in r.value
    ensures |lines| < 5 ==> r == Err(Thrown("erkale output is too short (it has " + NatToString(|lines|) + " lines)"))
  {
    if |lines| < 5 then Err(Thrown("erkale output is too short (it has " + NatToString(|lines|) + " lines)"))
    else
      var last := lines[|lines| - 1];
      IndexOfZero(last, "RDFT converged");
      if IndexOf(last, "RDFT converged") != 0 then
        Err(Thrown("energy calculation failed: no signature found in the output file (last-line=" + last + ")"))
      else
        var split := RemoveEmpty(JsSplit(lines[|lines| - 2], ' '));
        if |split| < 3 then Err(Thrown("didn't find the result line in the output (line=" + lines[|lines| - 2] + ")"))
        else Ok(split[1])
  }

  /** `arrRmEmpty`: the non-empty strings, in order. */
  method ArrRmEmpty(arr: seq<string>) returns (res: seq<string>)
    ensures res == RemoveEmpty(arr)
  {
    res := [];
    for i := 0 to |arr|
      invariant res == RemoveEmpty(arr[..i])
    {
      RemoveEmptySnoc(arr[..i], arr[i]);
      assert arr[..i + 1] == arr[..i] + [arr[i]];
      if arr[i] != "" {
        res := res + [arr[i]];
      }
    }
    assert arr[..|arr|] == arr;
  }


  /** Removing the empty strings keeps every other string as often as it occurred. */
  lemma {:induction false} RemoveEmptyMultiset(parts: seq<string>)
    ensures multiset(RemoveEmpty(parts)) == multiset(parts)[[] := 0]
    decreases |parts|
  {
    if parts != [] {
      RemoveEmptyMultiset(parts[1..]);
      assert parts == [parts[0]] + parts[1..];
    }
  }

  // ---------------------------------------------------------------------------
  // The module's calculations
  // ---------------------------------------------------------------------------

  /** The shell command that runs `executable` in the run directory. */
  function Command(runDir: string, executable: string): string
  {
    "cd " + runDir + " && " + executable + " runfile 2>&1 | tee outp"
  }

  /**
    `runCalcEngine` up to the output function: parameters translated and
    completed, then either the runfile written and the process run
    (`system`), or, when reprocessing, the earlier output read (`readFile`);
    the output's lines come back.
   */
  method RunCalcEngine(params: JsObject<string>, isValid: string -> bool, reprocess: bool, runDir: string,
                       executable: string, system: string -> string, readFile: string -> string)
    returns (runfile: Option<string>, r: Result<seq<string>, string>)
    ensures var t := Translate(params, isValid, |params|);
      && (t.Err? ==> runfile == None && r == Err(t.error))
      && (t.Ok? && !reprocess ==> runfile == Some(Lines(RunfileLines(DefaultParams(t.value))))
                                  && r == OutputLines(system(Command(runDir, executable))))
      && (t.Ok? && reprocess ==> runfile == None && r == OutputLines(readFile(runDir + "/outp")))
  {
    var erk := ParamsToErkaleParams(params, isValid);
    if erk.Err? {
      return None, Err(erk.error);
    }
    var p := DefaultParams(erk.value);
    var out: string;
    if !reprocess {
      var text := FormRunfile(p);
      runfile := Some(text);
      out := system(Command(runDir, executable));
    } else {
      runfile := None;
      out := readFile(runDir + "/outp");
    }
    r := OutputLines(out);
  }

  /** `calcEnergy`: the engine run with the energy executable, then the energy word. */
  method CalcEnergy(params: JsObject<string>, isValid: string -> bool, reprocess: bool, runDir: string,
                    system: string -> string, readFile: string -> string) returns (r: Result<string, string>)
    ensures var t := Translate(params, isValid, |params|);
      && (t.Err? ==> r == Err(t.error))
      && (t.Ok? ==> var o := OutputLines(if reprocess then readFile(runDir + "/outp") else system(Command(runDir, ExecutableEnergy)));
                    r == if o.Err? then Err(o.error) else ExtractEnergyFromOutput(o.value))
  {
    var runfile, lines := RunCalcEngine(params, isValid, reprocess, runDir, ExecutableEnergy, system, readFile);
    if lines.Err? {
      return Err(lines.error);
    }
    r := ExtractEnergyFromOutput(lines.value);
  }

  /** `calcOptimized`: the engine run with the optimisation executable; the result is read from this file. */
  method CalcOptimized(params: JsObject<string>, isValid: string -> bool, reprocess: bool, runDir: string,
                       system: string -> string, readFile: string -> string) returns (r: Result<string, string>)
    ensures var t := Translate(params, isValid, |params|);
      && (t.Err? ==> r == Err(t.error))
      && (t.Ok? ==> var o := OutputLines(if reprocess then readFile(runDir + "/outp") else system(Command(runDir, ExecutableGeomOpt)));
                    r == if o.Err? then Err(o.error) else Ok(runDir + "/optimized.xyz"))
  {
    var runfile, lines := RunCalcEngine(params, isValid, reprocess, runDir, ExecutableGeomOpt, system, readFile);
    if lines.Err? {
      return Err(lines.error);
    }
    r := Ok(runDir + "/optimized.xyz");
  }
}
