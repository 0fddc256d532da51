/**
  The Erkale calculation engine of the C++ core (calc-engine-erkale.cpp).

  A calculation translates the caller's parameters into Erkale's names, adds
  a default basis, writes a runfile named after the engine's call counter,
  runs the executable and checks its output lines. Running the process is
  the parameter `exec`, from the command line to the text the process
  prints; writing and removing files are not modelled, only the file names
  and the runfile text.
 */
module ErkaleEngine {
  import opened Wrappers
  import opened Text
  import opened Util
  import opened Molecules
  import opened Common

  /** `Params`: a `std::map<std::string, std::string>`. */
  type Params = map<string, string>

  /** The range of C++ `unsigned`. */
  const UintRange: nat := 0x1_0000_0000

  // ---------------------------------------------------------------------------
  // Parameter names
  // ---------------------------------------------------------------------------

  /** The generic parameter names the engine understands. */
  predicate KnownKey(k: string)
  {
    k == "precision" || k == "basis"
  }

  ghost function UnknownKeys(params: Params): set<string>
  {
    set k | k in params && !KnownKey(k)
  }

  const UnknownParameter: string := "Unknown parameter supplied to Erkale engine: "

  /** The parameters under Erkale's names: "precision" as "ConvThr", "basis" as "Basis". */
  function Translated(params: Params): (r: Params)
    ensures "ConvThr" in r <==> "precision" in params
    ensures "Basis" in r <==> "basis" in params
    ensures "ConvThr" in r ==> r["ConvThr"] == params["precision"]
    ensures "Basis" in r ==> r["Basis"] == params["basis"]
    ensures forall k :: k in r ==> k == "ConvThr" || k == "Basis"
  {
    var a: Params := if "precision" in params then map["ConvThr" := params["precision"]] else map[];
    if "basis" in params then a["Basis" := params["basis"]] else a
  }

  /**
    What `paramsToErkaleParams` yields: the translated map when every key is
    known, else the error naming the first unknown key in the map's order.
   */
  ghost function ErkaleParams(params: Params): (r: Result<Params, string>)
    ensures r.Ok? <==> forall k :: k in params ==> KnownKey(k)
    ensures r.Ok? ==> r.value == Translated(params)
    ensures r.Err? ==> exists k :: IsLeast(k, UnknownKeys(params)) && r.error == UnknownParameter + k
  {
    var u := UnknownKeys(params);
    if u == {} then
      NoUnknownKeys(params);
      Ok(Translated(params))
    else
      LeastExists(u);
      var k :| IsLeast(k, u);
      Err(UnknownParameter + k)
  }

  lemma NoUnknownKeys(params: Params)
    requires UnknownKeys(params) == {}
    ensures forall k :: k in params ==> KnownKey(k)
  {
    forall k | k in params
      ensures KnownKey(k)
    {
      assert !KnownKey(k) ==> k in UnknownKeys(params);
    }
  }

  /** `Helpers::paramsToErkaleParams`: the loop over the map in key order. */
  method ParamsToErkaleParams(params: Params) returns (r: Result<Params, string>)
    ensures r == ErkaleParams(params)
  {
    var mres: Params := map[];
    var rest := params.Keys;
    while rest != {}
      invariant rest <= params.Keys
      invariant forall k :: k in params && k !in rest ==> KnownKey(k)
      invariant "ConvThr" in mres <==> "precision" in params && "precision" !in rest
      invariant "Basis" in mres <==> "basis" in params && "basis" !in rest
      invariant "ConvThr" in mres ==> mres["ConvThr"] == params["precision"]
      invariant "Basis" in mres ==> mres["Basis"] == params["basis"]
      invariant forall k :: k in mres ==> k == "ConvThr" || k == "Basis"
      decreases |rest|
    {
      LeastExists(rest);
      var s :| s in rest && forall y :: y in rest && y != s ==> LexLess(s, y);
      if s == "precision" {
        mres := mres["ConvThr" := params[s]];
      } else if s == "basis" {
        mres := mres["Basis" := params[s]];
      } else {
        r := Err(UnknownParameter + s);
        FirstUnknown(params, rest, s);
        return;
      }
      rest := rest - {s};
    }
    assert mres == Translated(params);
    r := Ok(mres);
  }

  /** The least key left over, when unknown, is the least unknown key: the one the error names. */
  lemma FirstUnknown(params: Params, rest: set<string>, s: string)
    requires rest <= params.Keys && s in rest && !KnownKey(s)
    requires forall k :: k in params && k !in rest ==> KnownKey(k)
    requires forall y :: y in rest && y != s ==> LexLess(s, y)
    ensures ErkaleParams(params) == Err(UnknownParameter + s)
  {
    var u := UnknownKeys(params);
    assert IsLeast(s, u);
    var r := ErkaleParams(params);
    var k :| IsLeast(k, u) && r.error == UnknownParameter + k;
    LeastUnique(k, s, u);
  }

  /** `Helpers::defaultParams`: "Basis" set to "3-21G" when absent; every other entry as it was. */
  function DefaultParams(params: Params): (r: Params)
    ensures "Basis" in r
    ensures r["Basis"] == if "Basis" in params then params["Basis"] else "3-21G"
    ensures forall k :: k != "Basis" ==> (k in r <==> k in params)
    ensures forall k :: k != "Basis" && k in params ==> r[k] == params[k]
  {
    if "Basis" in params then params else params["Basis" := "3-21G"]
  }

  /** The defaults added twice are the defaults added once. */
  lemma DefaultParamsIdempotent(params: Params)
    ensures DefaultParams(DefaultParams(params)) == DefaultParams(params)
  {
  }

  // ---------------------------------------------------------------------------
  // Files and the runfile
  // ---------------------------------------------------------------------------

  function XyzFileName(num: nat): string
  {
    "tmp-mol-" + NatToString(num) + ".xyz"
  }

  function RunfileName(num: nat): string
  {
    "tmp-runfile-" + NatToString(num) + ".run"
  }

  function ResultFileName(num: nat): string
  {
    "tmp-result-mol-" + NatToString(num) + ".xyz"
  }

  /** Calls with different counter values use different files. */
  lemma FileNamesDiffer(num1: nat, num2: nat)
    requires num1 != num2
    ensures XyzFileName(num1) != XyzFileName(num2)
    ensures RunfileName(num1) != RunfileName(num2)
    ensures ResultFileName(num1) != ResultFileName(num2)
  {
    if XyzFileName(num1) == XyzFileName(num2) {
      NumberedNameInjective("tmp-mol-", num1, "tmp-mol-", num2, ".xyz");
    }
    if RunfileName(num1) == RunfileName(num2) {
      NumberedNameInjective("tmp-runfile-", num1, "tmp-runfile-", num2, ".run");
    }
    if ResultFileName(num1) == ResultFileName(num2) {
      NumberedNameInjective("tmp-result-mol-", num1, "tmp-result-mol-", num2, ".xyz");
    }
  }

  /** One "key value" line per key of `ks`, in that order. */
  function ParamLines(params: Params, ks: seq<string>): (ls: seq<string>)
    requires forall i :: 0 <= i < |ks| ==> ks[i] in params
    ensures |ls| == |ks|
    ensures forall i :: 0 <= i < |ks| ==> ls[i] == ks[i] + " " + params[ks[i]]
  {
    if ks == [] then [] else ParamLines(params, ks[..|ks| - 1]) + [ks[|ks| - 1] + " " + params[ks[|ks| - 1]]]
  }

  /** The runfile: the molecule file, the method, then one line per parameter in key order. */
  ghost function RunfileLines(xyzFile: string, params: Params): (ls: seq<string>)
  {
    Header(xyzFile) + ParamLines(params, SortedStrings(params.Keys))
  }

  /** The first two runfile lines: the molecule file and the method. */
  function Header(xyzFile: string): seq<string>
  {
    ["System " + xyzFile, "Method lda_x-lda_c_vwn"]
  }

  /** Every parameter has its line, after the two fixed lines. */
  lemma RunfileHasParams(xyzFile: string, params: Params, k: string)
    requires k in params
    ensures var ls := RunfileLines(xyzFile, params);
      |ls| == 2 + |params| && (k + " " + params[k]) in ls[2..]
  {
    SortedStringsComplete(params.Keys);
    var ks := SortedStrings(params.Keys);
    var i :| 0 <= i < |ks| && ks[i] == k;
    var ls := RunfileLines(xyzFile, params);
    assert ls[2..] == ParamLines(params, ks);
    assert ls[2 + i] == k + " " + params[k];
  }

  /** The runfile of an energy call with a basis and a precision: "Basis" sorts before "ConvThr". */
  lemma EnergyRunfile(xyzFile: string, basis: string, thr: string)
    ensures RunfileLines(xyzFile, map["Basis" := basis, "ConvThr" := thr])
         == ["System " + xyzFile, "Method lda_x-lda_c_vwn", "Basis " + basis, "ConvThr " + thr]
  {
    var p := map["Basis" := basis, "ConvThr" := thr];
    assert p.Keys == {"Basis", "ConvThr"};
    assert LexLess("Basis", "ConvThr");
    assert IsLeast("Basis", p.Keys);
    SortedStringsUnfold(p.Keys, "Basis");
    assert p.Keys - {"Basis"} == {"ConvThr"};
    assert IsLeast("ConvThr", {"ConvThr"});
    SortedStringsUnfold({"ConvThr"}, "ConvThr");
    assert {"ConvThr"} - {"ConvThr"} == {};
    var ks := SortedStrings(p.Keys);
    assert ks == ["Basis", "ConvThr"];
    var ls := ParamLines(p, ks);
    assert ls[0] == "Basis " + basis && ls[1] == "ConvThr " + thr;
    assert ls == ["Basis " + basis, "ConvThr " + thr];
  }

  /** The runfile writer of `runProcess`: two fixed lines, then the map in key order, each line ended by `std::endl`. */
  method WriteRunfile(xyzFile: string, params: Params) returns (text: string)
    ensures text == Lines(RunfileLines(xyzFile, params))
  {
    text := "System " + xyzFile + "\n" + "Method lda_x-lda_c_vwn" + "\n";
    RunfileHeader(xyzFile, params);
    var rest := params.Keys;
    ghost var done: seq<string> := [];
    while rest != {}
      invariant rest <= params.Keys
      invariant done + SortedStrings(rest) == SortedStrings(params.Keys)
      invariant forall i :: 0 <= i < |done| ==> done[i] in params
      invariant text == Lines(Header(xyzFile) + ParamLines(params, done))
      decreases |rest|
    {
      LeastExists(rest);
      var s :| s in rest && forall y :: y in rest && y != s ==> LexLess(s, y);
      SortedStringsStep(params.Keys, rest, done, s);
      RunfileStep(xyzFile, params, done, s);
      text := text + (s + " " + params[s]) + "\n";
      done := done + [s];
      rest := rest - {s};
    }
    assert |SortedStrings(rest)| == 0;
    assert done + SortedStrings(rest) == done;
  }

  /** The two fixed lines, as the writer starts the runfile. */
  lemma RunfileHeader(xyzFile: string, params: Params)
    ensures "System " + xyzFile + "\n" + "Method lda_x-lda_c_vwn" + "\n" == Lines(Header(xyzFile) + ParamLines(params, []))
  {
    var head := Header(xyzFile);
    assert head + ParamLines(params, []) == head;
    assert Lines(head[1..]) == "Method lda_x-lda_c_vwn" + "\n" by {
      assert head[1..][1..] == [];
    }
  }

  /** One more parameter line at the end of the runfile. */
  lemma RunfileStep(xyzFile: string, params: Params, done: seq<string>, s: string)
    requires forall i :: 0 <= i < |done| ==> done[i] in params
    requires s in params
    ensures Lines(Header(xyzFile) + ParamLines(params, done + [s]))
         == Lines(Header(xyzFile) + ParamLines(params, done)) + (s + " " + params[s]) + "\n"
  {
    var line := s + " " + params[s];
    var head := Header(xyzFile);
    LinesSnoc(head + ParamLines(params, done), line);
    assert ParamLines(params, done + [s]) == ParamLines(params, done) + [line] by {
      assert (done + [s])[..|done|] == done;
    }
    assert head + ParamLines(params, done + [s]) == (head + ParamLines(params, done)) + [line];
  }

  // ---------------------------------------------------------------------------
  // Running the process and checking its output
  // ---------------------------------------------------------------------------

  /** The shell command line that runs `cmd` on the runfile and copies its output to the file "out". */
  function Command(cmd: string, runfile: string): string
  {
    "/bin/sh -c \"/usr/local/bin/" + cmd + " " + runfile + " 2>&1\" | tee out"
  }

  const ErrorTag: string := "error:"

  /** A line longer than the tag that starts with it; the bare tag alone is no error. */
  predicate IsErrorLine(line: string)
  {
    |line| > |ErrorTag| && line[..|ErrorTag|] == ErrorTag
  }

  /** The index of the first error line at or after `from`, or -1. */
  function FirstErrorLine(lines: seq<string>, from: nat): (k: int)
    ensures k == -1 || (from <= k < |lines| && IsErrorLine(lines[k]))
    ensures k == -1 ==> forall i :: from <= i < |lines| ==> !IsErrorLine(lines[i])
    ensures k != -1 ==> forall i :: from <= i < k ==> !IsErrorLine(lines[i])
    decreases |lines| - from
  {
    if from >= |lines| then -1
    else if IsErrorLine(lines[from]) then from
    else FirstErrorLine(lines, from + 1)
  }

  /** The error-tag scan of `runProcess`: the first error line, quoted, or nothing. */
  method FindErrorTag(lines: seq<string>) returns (r: Option<string>)
    ensures var k := FirstErrorLine(lines, 0);
      r == if k == -1 then None else Some("Erkale process failed: " + lines[k])
  {
    for i := 0 to |lines|
      invariant FirstErrorLine(lines, 0) == FirstErrorLine(lines, i)
    {
      if |lines[i]| > |ErrorTag| && lines[i][..|ErrorTag|] == ErrorTag {
        return Some("Erkale process failed: " + lines[i]);
      }
    }
    return None;
  }

  /** The lines of the process output; the first error line anywhere makes the whole run fail. */
  function RunOutput(out: string): (r: Result<seq<string>, string>)
    ensures r.Ok? <==> forall i :: 0 <= i < |Pieces(out, '\n')| ==> !IsErrorLine(Pieces(out, '\n')[i])
    ensures r.Ok? ==> r.value == Pieces(out, '\n')
    ensures r.Err? ==> exists k :: 0 <= k < |Pieces(out, '\n')| && IsErrorLine(Pieces(out, '\n')[k])
                         && r.error == "Erkale process failed: " + Pieces(out, '\n')[k]
  {
    var lines := Pieces(out, '\n');
    var k := FirstErrorLine(lines, 0);
    if k == -1 then Ok(lines) else Err("Erkale process failed: " + lines[k])
  }

  /**
    `Helpers::runProcess`: the runfile text for the counter value `num`,
    the process run on it, its output split into lines and scanned for the
    error tag.
   */
  method RunProcess(num: nat, cmd: string, params: Params, exec: string -> string) returns (runfile: string, r: Result<seq<string>, string>)
    ensures runfile == Lines(RunfileLines(XyzFileName(num), params))
    ensures r == RunOutput(exec(Command(cmd, RunfileName(num))))
  {
    runfile := WriteRunfile(XyzFileName(num), params);
    var lines := SplitLines(exec(Command(cmd, RunfileName(num))));
    var failed := FindErrorTag(lines);
    if failed.Some? {
      r := Err(failed.value);
    } else {
      r := Ok(lines);
    }
  }

  const Signature: string := "RDFT converged"

  /**
    The output checks of `Erkale::calcEnergy`: at least five lines, the last
    one starting with "RDFT converged", and at least three space-separated
    words on the line before it; the energy is the second word.
   */
  function EnergyField(res: seq<string>): (r: Result<string, string>)
    ensures r.Ok? <==> |res| >= 5 && StartsWith(res[|res| - 1], Signature) && |RemoveEmpty(Pieces(res[|res| - 2], ' '))| >= 3
    ensures r.Ok? ==> r.value == RemoveEmpty(Pieces(res[|res| - 2], ' '))[1] && r.value != "" && ' ' !in r.value
  {
    if |res| < 5 then Err("Erkale::calcEnergy: erkale output is too short")
    else if !StartsWith(res[|res| - 1], Signature) then Err("Erkale::calcEnergy didn't find the signature in the output")
    else
      var lineSplit := RemoveEmpty(Pieces(res[|res| - 2], ' '));
      if |lineSplit| < 3 then Err("Erkale::calcEnergy didn't find the result line in the output")
      else Ok(lineSplit[1])
  }

  /** Words without spaces, joined by single spaces, split back into those words. */
  lemma WordsLine(w0: string, e: string, w2: string)
    requires w0 != "" && e != "" && w2 != ""
    requires ' ' !in w0 && ' ' !in e && ' ' !in w2
    ensures RemoveEmpty(Pieces(w0 + " " + e + " " + w2, ' ')) == [w0, e, w2]
  {
    var line := w0 + " " + e + " " + w2;
    assert line == w0 + [' '] + (e + [' '] + w2);
    WordsPieces(w0, e, w2);
    RemoveEmptyKeeps([w0, e, w2]);
  }

  lemma WordsPieces(w0: string, e: string, w2: string)
    requires w2 != ""
    requires ' ' !in w0 && ' ' !in e && ' ' !in w2
    ensures Pieces(w0 + [' '] + (e + [' '] + w2), ' ') == [w0, e, w2]
  {
    PiecesOfField(w2, ' ');
    PiecesAt(e, w2, ' ');
    PiecesAt(w0, e + [' '] + w2, ' ');
  }

  /** A converged run whose result line is "w0 E w2" yields E. */
  lemma ConvergedEnergy(before: seq<string>, w0: string, e: string, w2: string, last: string)
    requires |before| >= 3
    requires w0 != "" && e != "" && w2 != ""
    requires ' ' !in w0 && ' ' !in e && ' ' !in w2
    requires StartsWith(last, Signature)
    ensures EnergyField(before + [w0 + " " + e + " " + w2, last]) == Ok(e)
  {
    WordsLine(w0, e, w2);
  }

  // ---------------------------------------------------------------------------
  // The engine
  // ---------------------------------------------------------------------------

  /** The output of one energy calculation with counter value `num`. */
  ghost function EnergyOutcome(params: Params, num: nat, exec: string -> string): Result<string, string>
  {
    var p := ErkaleParams(params);
    if p.Err? then Err(p.error)
    else
      var out := RunOutput(exec(Command("erkale_omp", RunfileName(num))));
      if out.Err? then Err(out.error) else EnergyField(out.value)
  }

  /** An unknown parameter stops the calculation before anything runs, whatever the process would print. */
  lemma UnknownParamFails(params: Params, num: nat, exec1: string -> string, exec2: string -> string)
    requires exists k :: k in params && !KnownKey(k)
    ensures EnergyOutcome(params, num, exec1).Err?
    ensures EnergyOutcome(params, num, exec1) == EnergyOutcome(params, num, exec2)
  {
  }

  /** `Erkale`: an engine object with the counter `num` of calculations started. */
  class Erkale {
    var num: nat

    ghost predicate Valid()
      reads this
    {
      num < UintRange
    }

    /** `Erkale()`: the counter starts at 0. */
    constructor ()
      ensures Valid() && num == 0
    {
      num := 0;
    }

    /** `kind`. */
    function Kind(): (k: string)
      ensures k == "erkale"
    {
      "erkale"
    }

    /**
      `Erkale::calcEnergy`: the counter goes up (wrapping like `unsigned`),
      the parameters are translated and completed, the runfile names the
      counter's files, and the output's energy word is returned.
     */
    method CalcEnergy(params: Params, exec: string -> string) returns (runfile: Option<string>, r: Result<string, string>)
      requires Valid()
      modifies this
      ensures Valid() && num == (old(num) + 1) % UintRange
      ensures r == EnergyOutcome(params, num, exec)
      ensures runfile.Some? <==> ErkaleParams(params).Ok?
      ensures runfile.Some? ==> runfile.value == Lines(RunfileLines(XyzFileName(num), DefaultParams(Translated(params))))
    {
      num := (num + 1) % UintRange;
      var p := ParamsToErkaleParams(params);
      if p.Err? {
        return None, Err(p.error);
      }
      var pd := DefaultParams(p.value);
      var text, res := RunProcess(num, "erkale_omp", pd, exec);
      runfile := Some(text);
      if res.Err? {
        return runfile, Err(res.error);
      }
      r := EnergyField(res.value);
    }

    /**
      `Erkale::calcOptimized`, up to reading the result: the counter goes up,
      the "Result" entry naming the counter's result file is added to the
      translated parameters (the `operator+` of common.h), and the defaults
      are completed. The result file is then read as an XYZ file.
     */
    method CalcOptimized(params: Params, exec: string -> string) returns (runParams: Option<Params>, r: Result<string, string>)
      requires Valid()
      modifies this
      ensures Valid() && num == (old(num) + 1) % UintRange
      ensures runParams.Some? <==> ErkaleParams(params).Ok?
      ensures runParams.Some? ==> runParams.value == DefaultParams(Translated(params) + map["Result" := ResultFileName(num)])
      ensures r.Ok? <==> runParams.Some? && RunOutput(exec(Command("erkale_geom_omp", RunfileName(num)))).Ok?
      ensures r.Ok? ==> r.value == ResultFileName(num)
    {
      num := (num + 1) % UintRange;
      var resultFile := ResultFileName(num);
      var p := ParamsToErkaleParams(params);
      if p.Err? {
        return None, Err(p.error);
      }
      var withResult := MapPlus(p.value, map["Result" := resultFile]);
      var pd := DefaultParams(withResult);
      runParams := Some(pd);
      var text, res := RunProcess(num, "erkale_geom_omp", pd, exec);
      if res.Err? {
        return runParams, Err(res.error);
      }
      r := Ok(resultFile);
    }
  }

  /** The optimisation run always names its result file, and the caller cannot override it. */
  lemma ResultEntry(params: Params, num: nat)
    ensures var p := DefaultParams(Translated(params) + map["Result" := ResultFileName(num)]);
      "Result" in p && p["Result"] == ResultFileName(num) && "Basis" in p
  {
  }
}
