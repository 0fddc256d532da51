/**
  The NWChem calculation module of the JavaScript layer (modules/calc-nwchem.js).

  It writes an input deck, takes the process output (from running NWChem,
  or from the earlier output file when reprocessing; a parameter here),
  checks it for errors and scans it for the energy or for the coordinate
  sections of the optimised geometry. Every error is a thrown string
  starting with "ERROR(NWChem) ", except a coordinate table that runs off
  the end of the output, which fails with a JavaScript `TypeError`.
 */
module CalcNWChem {
  import opened Wrappers
  import opened Text
  import opened Molecules

  const Name: string := "NWChem"
  const Executable: string := "nwchem"
  const DefaultBasis: string := "3-21G"
  const InputXyzFile: string := "m.xyz"

  /** `xthrow`: the message as thrown. */
  function Thrown(msg: string): string
  {
    "ERROR(" + Name + ") " + msg
  }

  /** `runProcess`: the command line, with `mpirun` when there is more than one CPU. */
  function RunCommand(runDir: string, numCPUs: nat): string
  {
    if numCPUs == 1 then "cd " + runDir + " && " + Executable + " inp 2>&1 | tee outp"
    else "cd " + runDir + " && mpirun -np " + NatToString(numCPUs) + " " + Executable + " inp 2>&1 | tee outp"
  }

  // ---------------------------------------------------------------------------
  // The input deck
  // ---------------------------------------------------------------------------

  /** One basis line per element name, in the molecule's order. */
  function BasisLines(elts: seq<string>): (ls: seq<string>)
    ensures |ls| == |elts| && forall i :: 0 <= i < |elts| ==> ls[i] == " " + elts[i] + " library " + DefaultBasis
  {
    if elts == [] then [] else BasisLines(elts[..|elts| - 1]) + [" " + elts[|elts| - 1] + " library " + DefaultBasis]
  }

  function GeometryLines(): seq<string>
  {
    ["title \"todo-title\"", "echo", "geometry units angstroms", " load " + InputXyzFile, "end", "basis"]
  }

  /** The SCF block: the threshold line only when a precision is given. */
  function ScfLines(precision: Option<string>): seq<string>
  {
    ["end", "scf"] + (if precision.Some? then ["  thresh " + precision.value] else []) + ["end"]
  }

  /** The lines of the deck for operation `op`. */
  function InpLines(elts: seq<string>, precision: Option<string>, op: string): seq<string>
  {
    GeometryLines() + BasisLines(elts) + ScfLines(precision) + ["task scf " + op]
  }

  /** The deck has ten fixed lines, one per element and one for a given precision, and ends with the task. */
  lemma InpLinesShape(elts: seq<string>, precision: Option<string>, op: string)
    ensures var ls := InpLines(elts, precision, op);
      && |ls| == 10 + |elts| + (if precision.Some? then 1 else 0)
      && ls[|ls| - 1] == "task scf " + op
      && ls[..6] == GeometryLines()
      && ls[6..6 + |elts|] == BasisLines(elts)
  {
    var ls := InpLines(elts, precision, op);
    assert ls == GeometryLines() + (BasisLines(elts) + (ScfLines(precision) + ["task scf " + op]));
  }

  /** None of the lines holds a line end. */
  predicate NoLineEnds(ls: seq<string>)
  {
    forall i :: 0 <= i < |ls| ==> '\n' !in ls[i]
  }

  lemma NoLineEndsConcat(a: seq<string>, b: seq<string>)
    requires NoLineEnds(a) && NoLineEnds(b)
    ensures NoLineEnds(a + b)
  {
    forall i | 0 <= i < |a + b|
      ensures '\n' !in (a + b)[i]
    {
      if i >= |a| {
        assert (a + b)[i] == b[i - |a|];
      }
    }
  }

  /** Element names and a precision without line ends give a deck that splits back into its lines. */
  lemma InpRoundTrip(elts: seq<string>, precision: Option<string>, op: string)
    requires forall i :: 0 <= i < |elts| ==> '\n' !in elts[i]
    requires precision.Some? ==> '\n' !in precision.value
    requires '\n' !in op
    ensures JsSplit(Lines(InpLines(elts, precision, op)), '\n') == InpLines(elts, precision, op) + [""]
  {
    var g := GeometryLines();
    var b := BasisLines(elts);
    var c := ScfLines(precision);
    var t := ["task scf " + op];
    assert NoLineEnds(g);
    assert NoLineEnds(b) by {
      forall i | 0 <= i < |b|
        ensures '\n' !in b[i]
      {
        assert b[i] == " " + elts[i] + " library " + DefaultBasis;
      }
    }
    assert NoLineEnds(c);
    assert NoLineEnds(t) by {
      assert t[0] == "task scf " + op;
    }
    NoLineEndsConcat(g, b);
    NoLineEndsConcat(g + b, c);
    NoLineEndsConcat(g + b + c, t);
    LinesSplit(InpLines(elts, precision, op));
  }

  /** The first lines of `formInp`: title, echo, the geometry block loading the xyz file, and the basis header. */
  method FormGeometry() returns (inp: string)
    ensures inp == Lines(GeometryLines())
  {
    inp := "";
    ghost var done: seq<string> := [];
    LineStep(done, inp, "title \"todo-title\"", "title \"todo-title\"\n");
    inp, done := inp + "title \"todo-title\"\n", done + ["title \"todo-title\""];
    LineStep(done, inp, "echo", "echo\n");
    inp, done := inp + "echo\n", done + ["echo"];
    LineStep(done, inp, "geometry units angstroms", "geometry units angstroms\n");
    inp, done := inp + "geometry units angstroms\n", done + ["geometry units angstroms"];
    TaskStep(done, inp, " load ", InputXyzFile);
    inp, done := inp + " load " + InputXyzFile + "\n", done + [" load " + InputXyzFile];
    LineStep(done, inp, "end", "end\n");
    inp, done := inp + "end\n", done + ["end"];
    LineStep(done, inp, "basis", "basis\n");
    inp, done := inp + "basis\n", done + ["basis"];
    assert done == GeometryLines();
  }

  /** `formInp`: the deck built line by line; an operation other than "optimize" or "energy" is thrown. */
  method FormInp(elts: seq<string>, op: string, precision: Option<string>) returns (r: Result<string, string>)
    ensures op == "optimize" || op == "energy" ==> r == Ok(Lines(InpLines(elts, precision, op)))
    ensures op != "optimize" && op != "energy" ==> r == Err(Thrown("unknown op '" + op + "'"))
  {
    var inp := FormGeometry();
    assert GeometryLines() + BasisLines(elts[..0]) == GeometryLines();
    for i := 0 to |elts|
      invariant inp == Lines(GeometryLines() + BasisLines(elts[..i]))
    {
      BasisStep(elts, i);
      inp := inp + " " + elts[i] + " library " + DefaultBasis + "\n";
    }
    assert elts[..|elts|] == elts;
    ghost var done := GeometryLines() + BasisLines(elts);
    LineStep(done, inp, "end", "end\n");
    inp, done := inp + "end\n", done + ["end"];
    LineStep(done, inp, "scf", "scf\n");
    inp, done := inp + "scf\n", done + ["scf"];
    if precision.Some? {
      TaskStep(done, inp, "  thresh ", precision.value);
      inp, done := inp + "  thresh " + precision.value + "\n", done + ["  thresh " + precision.value];
    }
    LineStep(done, inp, "end", "end\n");
    inp, done := inp + "end\n", done + ["end"];
    assert done == GeometryLines() + BasisLines(elts) + ScfLines(precision);
    if op != "optimize" && op != "energy" {
      return Err(Thrown("unknown op '" + op + "'"));
    }
    TaskStep(done, inp, "task scf ", op);
    inp := inp + "task scf " + op + "\n";
    r := Ok(inp);
  }

  /** Appending a line given as one literal ending in a line end. */
  lemma LineStep(done: seq<string>, text: string, line: string, lit: string)
    requires text == Lines(done) && lit == line + "\n"
    ensures text + lit == Lines(done + [line])
  {
    LinesSnoc(done, line);
  }

  /** Appending a line given as a literal prefix and a value. */
  lemma TaskStep(done: seq<string>, text: string, prefix: string, value: string)
    requires text == Lines(done)
    ensures text + prefix + value + "\n" == Lines(done + [prefix + value])
  {
    LinesSnoc(done, prefix + value);
    assert text + prefix + value + "\n" == text + (prefix + value) + "\n";
  }

  lemma BasisStep(elts: seq<string>, i: nat)
    requires i < |elts|
    ensures Lines(GeometryLines() + BasisLines(elts[..i])) + " " + elts[i] + " library " + DefaultBasis + "\n"
         == Lines(GeometryLines() + BasisLines(elts[..i + 1]))
  {
    var line := " " + elts[i] + " library " + DefaultBasis;
    assert elts[..i + 1][..i] == elts[..i];
    assert GeometryLines() + BasisLines(elts[..i + 1]) == (GeometryLines() + BasisLines(elts[..i])) + [line];
    LinesSnoc(GeometryLines() + BasisLines(elts[..i]), line);
  }

  // ---------------------------------------------------------------------------
  // Scanning the output
  // ---------------------------------------------------------------------------

  /** The index of the first line at or after `from` that contains `pat`, or -1. */
  function FirstWith(lines: seq<string>, pat: string, from: nat): (k: int)
    ensures k == -1 || (from <= k < |lines| && Contains(lines[k], pat))
    ensures k == -1 ==> forall i :: from <= i < |lines| ==> !Contains(lines[i], pat)
    ensures k != -1 ==> forall i :: from <= i < k ==> !Contains(lines[i], pat)
    decreases |lines| - from
  {
    if from >= |lines| then -1
    else if Contains(lines[from], pat) then from
    else FirstWith(lines, pat, from + 1)
  }

  /** What `findErrors` reports: the first line mentioning "ERROR", else a warning about a short output. */
  function Errors(lines: seq<string>): (r: Option<string>)
    ensures r.None? <==> |lines| >= 25 && forall i :: 0 <= i < |lines| ==> !Contains(lines[i], "ERROR")
  {
    var k := FirstWith(lines, "ERROR", 0);
    if k != -1 then Some(lines[k])
    else if |lines| < 25 then Some("too few lines in the output (" + NatToString(|lines|) + "), did the process fail?")
    else None
  }

  /** `findErrors`. */
  method FindErrors(lines: seq<string>) returns (r: Option<string>)
    ensures r == Errors(lines)
  {
    for i := 0 to |lines|
      invariant FirstWith(lines, "ERROR", 0) == FirstWith(lines, "ERROR", i)
    {
      if IndexOf(lines[i], "ERROR") >= 0 {
        return Some(lines[i]);
      }
    }
    if |lines| < 25 {
      return Some("too few lines in the output (" + NatToString(|lines|) + "), did the process fail?");
    }
    return None;
  }

  const CoordsHeader: string := "Output coordinates in angstroms"

  /** A coordinate-section header: the text found at position 1, after one leading space. */
  predicate IsHeader(line: string)
  {
    IndexOf(line, CoordsHeader) == 1
  }

  /** The header line numbers among the first `n` lines, ascending. */
  function HeaderLnos(lines: seq<string>, n: nat): (lnos: seq<nat>)
    requires n <= |lines|
    ensures forall j :: 0 <= j < |lnos| ==> lnos[j] < n && IsHeader(lines[lnos[j]])
    ensures forall j, k :: 0 <= j < k < |lnos| ==> lnos[j] < lnos[k]
  {
    if n == 0 then []
    else HeaderLnos(lines, n - 1) + (if IsHeader(lines[n - 1]) then [n - 1] else [])
  }

  /** Every header line is listed. */
  lemma {:induction false} HeaderLnosComplete(lines: seq<string>, n: nat, i: nat)
    requires i < n <= |lines| && IsHeader(lines[i])
    ensures i in HeaderLnos(lines, n)
  {
    if i < n - 1 {
      HeaderLnosComplete(lines, n - 1, i);
    }
  }

  /** `parseMoleculeHeaderLnos`. */
  method ParseMoleculeHeaderLnos(lines: seq<string>) returns (lnos: seq<nat>)
    ensures lnos == HeaderLnos(lines, |lines|)
  {
    lnos := [];
    for i := 0 to |lines|
      invariant lnos == HeaderLnos(lines, i)
    {
      if IndexOf(lines[i], CoordsHeader) == 1 {
        lnos := lnos + [i];
      }
    }
  }

  // ---------------------------------------------------------------------------
  // Coordinate sections
  // ---------------------------------------------------------------------------

  const ColumnNames: string := "  No.       Tag          Charge          X              Y              Z"
  const Dashes: string := " ---- ---------------- ---------- -------------- -------------- --------------"

  /**
    The JavaScript error raised when a row is read past the end of the
    output. The text stands for the engine's TypeError; its exact wording
    depends on the engine and is not modelled.
   */
  const PastEnd: string := "TypeError: lines[lno] is undefined"

  /** One row of the table: the tag (the element) and the three coordinate words. */
  datatype Row = Row(tag: string, coords: seq<string>)

  /** The words of a line: `Arrayx.removeEmpty(line.split(' '))`. */
  function Columns(line: string): seq<string>
  {
    RemoveEmpty(JsSplit(line, ' '))
  }

  /** `lines[k]`, or `undefined` past the end. */
  function LineAt(lines: seq<string>, k: nat): Option<string>
  {
    if k < |lines| then Some(lines[k]) else None
  }

  /** The rows from line `k` up to the first empty line; each must have six words. */
  function Rows(lines: seq<string>, k: nat): Result<seq<Row>, string>
    decreases |lines| - k
  {
    if k >= |lines| then Err(PastEnd)
    else if lines[k] == "" then Ok([])
    else
      var cols := Columns(lines[k]);
      if |cols| != 6 then
        Err(Thrown("coordinates format error (expected 6 columns, found " + NatToString(|cols|) + ", line='" + lines[k] + "')"))
      else
        var rest := Rows(lines, k + 1);
        if rest.Err? then rest else Ok([Row(cols[1], cols[3..6])] + rest.value)
  }

  /** A result with `acc` in front of the rows, or the error. */
  function Prepend(acc: seq<Row>, r: Result<seq<Row>, string>): Result<seq<Row>, string>
  {
    if r.Err? then r else Ok(acc + r.value)
  }

  /** The section after the header at `lno`: three fixed lines, the rows, and the atom count check. */
  function CoordsSection(lines: seq<string>, lno: nat, natoms: nat): Result<seq<Row>, string>
  {
    if LineAt(lines, lno + 1) != Some("") then Err(Thrown("coordinates format error (no empty line after the header)"))
    else if LineAt(lines, lno + 2) != Some(ColumnNames) then Err(Thrown("coordinates format error (column names)"))
    else if LineAt(lines, lno + 3) != Some(Dashes) then Err(Thrown("coordinates format error (dash separators)"))
    else
      var rows := Rows(lines, lno + 4);
      if rows.Err? then rows
      else if |rows.value| != natoms then
        Err(Thrown("mismatch in the atom count: found " + NatToString(|rows.value|) + " atoms, original molecule had "
                   + NatToString(natoms) + " atoms"))
      else rows
  }

  /** Line `line` is a table row of six words: number, tag, charge, x, y, z. */
  predicate RowLine(line: string, row: Row)
  {
    line != "" && |Columns(line)| == 6 && row == Row(Columns(line)[1], Columns(line)[3..6])
  }

  /** What the rows are: line `k + j` holds row `j`, and the table ends with an empty line. */
  lemma {:induction false} RowsShape(lines: seq<string>, k: nat)
    requires Rows(lines, k).Ok?
    ensures k + |Rows(lines, k).value| < |lines| && lines[k + |Rows(lines, k).value|] == ""
    ensures forall j :: 0 <= j < |Rows(lines, k).value| ==> RowLine(lines[k + j], Rows(lines, k).value[j])
    decreases |lines| - k
  {
    if lines[k] != "" {
      RowsShape(lines, k + 1);
      var rs := Rows(lines, k).value;
      var rest := Rows(lines, k + 1).value;
      assert rs == [Row(Columns(lines[k])[1], Columns(lines[k])[3..6])] + rest;
      forall j | 0 <= j < |rs|
        ensures RowLine(lines[k + j], rs[j])
      {
        if j > 0 {
          assert rs[j] == rest[j - 1];
          assert k + j == (k + 1) + (j - 1);
        }
      }
    }
  }

  /** A parsed section has exactly as many rows as the molecule has atoms, right after the three fixed lines. */
  lemma CoordsSectionShape(lines: seq<string>, lno: nat, natoms: nat)
    requires CoordsSection(lines, lno, natoms).Ok?
    ensures var rs := CoordsSection(lines, lno, natoms).value;
      && |rs| == natoms && lno + 4 + natoms < |lines|
      && lines[lno + 1] == "" && lines[lno + 2] == ColumnNames && lines[lno + 3] == Dashes
      && lines[lno + 4 + natoms] == ""
  {
    RowsShape(lines, lno + 4);
  }

  /** A row line puts its row in front of the rows after it. */
  lemma RowsStep(lines: seq<string>, k: nat)
    requires k < |lines| && lines[k] != "" && |Columns(lines[k])| == 6
    ensures Rows(lines, k) == Prepend([Row(Columns(lines[k])[1], Columns(lines[k])[3..6])], Rows(lines, k + 1))
  {
  }

  lemma PrependPrepend(a: seq<Row>, b: seq<Row>, r: Result<seq<Row>, string>)
    ensures Prepend(a, Prepend(b, r)) == Prepend(a + b, r)
  {
    if r.Ok? {
      assert a + (b + r.value) == (a + b) + r.value;
    }
  }

  /** The row loop of `parseCoordsSection`: rows from line `k0` up to the first empty line. */
  method ParseRows(lines: seq<string>, k0: nat) returns (r: Result<seq<Row>, string>)
    ensures r == Rows(lines, k0)
  {
    var mo: seq<Row> := [];
    var k := k0;
    assert Rows(lines, k).Ok? ==> [] + Rows(lines, k).value == Rows(lines, k).value;
    while k >= |lines| || lines[k] != ""
      invariant Rows(lines, k0) == Prepend(mo, Rows(lines, k))
      decreases |lines| - k
    {
      if k >= |lines| {
        return Err(PastEnd);
      }
      var cols := Columns(lines[k]);
      if |cols| != 6 {
        return Err(Thrown("coordinates format error (expected 6 columns, found " + NatToString(|cols|) + ", line='" + lines[k] + "')"));
      }
      var row := Row(cols[1], cols[3..6]);
      RowsStep(lines, k);
      PrependPrepend(mo, [row], Rows(lines, k + 1));
      mo := mo + [row];
      k := k + 1;
    }
    assert mo + [] == mo;
    r := Ok(mo);
  }

  /** `parseCoordsSection`, up to `detectBonds` on the new molecule. */
  method ParseCoordsSection(lines: seq<string>, lno: nat, natoms: nat) returns (r: Result<seq<Row>, string>)
    ensures r == CoordsSection(lines, lno, natoms)
  {
    if LineAt(lines, lno + 1) != Some("") {
      return Err(Thrown("coordinates format error (no empty line after the header)"));
    }
    if LineAt(lines, lno + 2) != Some(ColumnNames) {
      return Err(Thrown("coordinates format error (column names)"));
    }
    if LineAt(lines, lno + 3) != Some(Dashes) {
      return Err(Thrown("coordinates format error (dash separators)"));
    }
    var rows := ParseRows(lines, lno + 4);
    if rows.Err? {
      return rows;
    }
    if |rows.value| != natoms {
      return Err(Thrown("mismatch in the atom count: found " + NatToString(|rows.value|) + " atoms, original molecule had "
                        + NatToString(natoms) + " atoms"));
    }
    r := rows;
  }

  const NoCoordinates: string := "no output coordinates found"

  /** The section after the last header, or the error that there is no header. */
  function LastSection(lines: seq<string>, natoms: nat): Result<seq<Row>, string>
  {
    var hs := HeaderLnos(lines, |lines|);
    if hs == [] then Err(Thrown(NoCoordinates)) else CoordsSection(lines, hs[|hs| - 1], natoms)
  }

  /** `parseLastCoordSection`: the section after the last header. */
  method ParseLastCoordSection(lines: seq<string>, natoms: nat) returns (r: Result<seq<Row>, string>)
    ensures var hs := HeaderLnos(lines, |lines|);
      r == if hs == [] then Err(Thrown(NoCoordinates)) else CoordsSection(lines, hs[|hs| - 1], natoms)
    ensures r == LastSection(lines, natoms)
  {
    var molHeaders := ParseMoleculeHeaderLnos(lines);
    if |molHeaders| == 0 {
      return Err(Thrown(NoCoordinates));
    }
    r := ParseCoordsSection(lines, molHeaders[|molHeaders| - 1], natoms);
  }

  /** The outcome of parsing the section after each header, in order. */
  function SectionResults(lines: seq<string>, hs: seq<nat>, natoms: nat): (rs: seq<Result<seq<Row>, string>>)
    ensures |rs| == |hs| && forall i :: 0 <= i < |hs| ==> rs[i] == CoordsSection(lines, hs[i], natoms)
  {
    seq(|hs|, i requires 0 <= i < |hs| => CoordsSection(lines, hs[i], natoms))
  }

  /** The values of a run of outcomes, in order; the first error stops it. */
  function Collect<T>(rs: seq<Result<T, string>>): Result<seq<T>, string>
  {
    if rs == [] then Ok([])
    else
      var prev := Collect(rs[..|rs| - 1]);
      if prev.Err? then prev
      else if rs[|rs| - 1].Err? then Err(rs[|rs| - 1].error)
      else Ok(prev.value + [rs[|rs| - 1].value])
  }

  /** One more outcome: an earlier error stays, a new error stops the run, a value is appended. */
  lemma CollectSnoc<T>(rs: seq<Result<T, string>>, i: nat)
    requires i < |rs|
    ensures var prev := Collect(rs[..i]);
      Collect(rs[..i + 1]) == if prev.Err? then prev else if rs[i].Err? then Err(rs[i].error) else Ok(prev.value + [rs[i].value])
  {
    assert rs[..i + 1][..i] == rs[..i];
  }

  lemma {:induction false} CollectErrStays<T>(rs: seq<Result<T, string>>, i: nat)
    requires i <= |rs| && Collect(rs[..i]).Err?
    ensures Collect(rs) == Collect(rs[..i])
    decreases |rs|
  {
    if i < |rs| {
      assert rs[..|rs| - 1][..i] == rs[..i];
      CollectErrStays(rs[..|rs| - 1], i);
    } else {
      assert rs[..i] == rs;
    }
  }

  /** A run succeeds exactly when every outcome does; then it holds every value, in order. */
  lemma {:induction false} CollectShape<T>(rs: seq<Result<T, string>>)
    ensures var r := Collect(rs);
      && (r.Ok? <==> forall i :: 0 <= i < |rs| ==> rs[i].Ok?)
      && (r.Ok? ==> |r.value| == |rs| && forall i :: 0 <= i < |rs| ==> r.value[i] == rs[i].value)
    decreases |rs|
  {
    if rs != [] {
      var init := rs[..|rs| - 1];
      CollectShape(init);
      assert forall i :: 0 <= i < |init| ==> init[i] == rs[i];
    }
  }

  /** Every header's section is parsed, in order, up to the first that fails. */
  lemma SectionsShape(lines: seq<string>, hs: seq<nat>, natoms: nat)
    ensures var r := Collect(SectionResults(lines, hs, natoms));
      && (r.Ok? <==> forall i :: 0 <= i < |hs| ==> CoordsSection(lines, hs[i], natoms).Ok?)
      && (r.Ok? ==> |r.value| == |hs| && forall i :: 0 <= i < |hs| ==> r.value[i] == CoordsSection(lines, hs[i], natoms).value)
  {
    CollectShape(SectionResults(lines, hs, natoms));
  }

  /** Every section, in header order, or the error that there is no header. */
  function AllSections(lines: seq<string>, natoms: nat): Result<seq<seq<Row>>, string>
  {
    var hs := HeaderLnos(lines, |lines|);
    if hs == [] then Err(Thrown(NoCoordinates)) else Collect(SectionResults(lines, hs, natoms))
  }

  /** `parseAllCoordSections`: every section, in header order. */
  method ParseAllCoordSections(lines: seq<string>, natoms: nat) returns (r: Result<seq<seq<Row>>, string>)
    ensures var hs := HeaderLnos(lines, |lines|);
      r == if hs == [] then Err(Thrown(NoCoordinates)) else Collect(SectionResults(lines, hs, natoms))
    ensures r == AllSections(lines, natoms)
  {
    var molHeaders := ParseMoleculeHeaderLnos(lines);
    if |molHeaders| == 0 {
      return Err(Thrown(NoCoordinates));
    }
    ghost var rs := SectionResults(lines, molHeaders, natoms);
    var mols: seq<seq<Row>> := [];
    for i := 0 to |molHeaders|
      invariant Collect(rs[..i]) == Ok(mols)
    {
      var mo := ParseCoordsSection(lines, molHeaders[i], natoms);
      CollectSnoc(rs, i);
      if mo.Err? {
        CollectErrStays(rs, i + 1);
        return Err(mo.error);
      }
      mols := mols + [mo.value];
    }
    assert rs[..|molHeaders|] == rs;
    r := Ok(mols);
  }

  // ---------------------------------------------------------------------------
  // The energy
  // ---------------------------------------------------------------------------

  const FinalResults: string := "Final RHF  results"
  const TotalEnergy: string := "Total SCF energy ="
  const NoEnergy: string := "can't find the energy value in the output file"

  /**
    The energy: the last space-separated piece of the first "Total SCF
    energy =" line after the first "Final RHF  results" line.
   */
  function Energy(lines: seq<string>): (r: Result<string, string>)
    ensures r.Ok? <==> exists i, j :: 0 <= i < j < |lines| && Contains(lines[i], FinalResults) && Contains(lines[j], TotalEnergy)
  {
    var i := FirstWith(lines, FinalResults, 0);
    if i == -1 then Err(Thrown(NoEnergy))
    else
      var j := FirstWith(lines, TotalEnergy, i + 1);
      if j == -1 then
        EnergyMissing(lines, i);
        Err(Thrown(NoEnergy))
      else
        var split := JsSplit(lines[j], ' ');
        Ok(split[|split| - 1])
  }

  lemma EnergyMissing(lines: seq<string>, i: nat)
    requires FirstWith(lines, FinalResults, 0) == i && FirstWith(lines, TotalEnergy, i + 1) == -1
    ensures !exists i', j :: 0 <= i' < j < |lines| && Contains(lines[i'], FinalResults) && Contains(lines[j], TotalEnergy)
  {
    forall i', j | 0 <= i' < j < |lines| && Contains(lines[i'], FinalResults)
      ensures !Contains(lines[j], TotalEnergy)
    {
      assert i <= i';
    }
  }

  /** A line without the pattern is skipped by the scan. */
  lemma FirstWithSkip(lines: seq<string>, pat: string, k: nat)
    requires k < |lines| && !Contains(lines[k], pat)
    ensures FirstWith(lines, pat, k) == FirstWith(lines, pat, k + 1)
  {
  }

  /** The inner loop of `extractEnergyFromOutput`: the first line from `from` on that contains `pat`, or -1. */
  method ScanFrom(lines: seq<string>, pat: string, from: nat) returns (k: int)
    ensures k == FirstWith(lines, pat, from)
  {
    var j := from;
    while j < |lines|
      invariant FirstWith(lines, pat, from) == FirstWith(lines, pat, j)
      decreases |lines| - j
    {
      if IndexOf(lines[j], pat) >= 0 {
        return j;
      }
      FirstWithSkip(lines, pat, j);
      j := j + 1;
    }
    return -1;
  }

  /**
    `extractEnergyFromOutput`: the nested scan, returning from the inner
    loop. When the inner loop finds nothing after the first "Final RHF
    results" line, the later outer rounds find nothing either.
   */
  method ExtractEnergyFromOutput(lines: seq<string>) returns (r: Result<string, string>)
    ensures r == Energy(lines)
  {
    ghost var first := FirstWith(lines, FinalResults, 0);
    for i := 0 to |lines|
      invariant first == FirstWith(lines, FinalResults, i) || (first != -1 && FirstWith(lines, TotalEnergy, first + 1) == -1)
    {
      if IndexOf(lines[i], FinalResults) >= 0 {
        var j := ScanFrom(lines, TotalEnergy, i + 1);
        if j != -1 {
          assert FirstWith(lines, FinalResults, i) == i;
          EnergyAt(lines, i, j);
          var split := JsSplit(lines[j], ' ');
          return Ok(split[|split| - 1]);
        }
      } else {
        FirstWithSkip(lines, FinalResults, i);
      }
    }
    assert FirstWith(lines, FinalResults, |lines|) == -1;
    EnergyNone(lines);
    return Err(Thrown(NoEnergy));
  }

  /** The energy is the last piece of the first energy line after the first "Final RHF  results" line. */
  lemma EnergyAt(lines: seq<string>, i: nat, j: int)
    requires FirstWith(lines, FinalResults, 0) == i && FirstWith(lines, TotalEnergy, i + 1) == j && j != -1
    ensures var split := JsSplit(lines[j], ' '); Energy(lines) == Ok(split[|split| - 1])
  {
  }

  /** When the first "Final RHF  results" line has no energy line after it, or there is none, there is no energy. */
  lemma EnergyNone(lines: seq<string>)
    requires var first := FirstWith(lines, FinalResults, 0);
      first == -1 || FirstWith(lines, TotalEnergy, first + 1) == -1
    ensures Energy(lines) == Err(Thrown(NoEnergy))
  {
  }

  // ---------------------------------------------------------------------------
  // The module's calculations
  // ---------------------------------------------------------------------------

  /** The output worked on: the process's (`system`), or, when reprocessing, the earlier one (`readFile`). */
  function Output(reprocess: bool, runDir: string, numCPUs: nat, system: string -> string, readFile: string -> string): string
  {
    if reprocess then readFile(runDir + "/outp") else system(RunCommand(runDir, numCPUs))
  }

  /** The output's lines when `findErrors` reports nothing, else its report thrown. */
  function CheckedLines(out: string): (r: Result<seq<string>, string>)
    ensures r.Ok? <==> Errors(JsSplit(out, '\n')).None?
    ensures r.Ok? ==> r.value == JsSplit(out, '\n') && |r.value| >= 25
  {
    var lines := JsSplit(out, '\n');
    var e := Errors(lines);
    if e.Some? then Err(Thrown(e.value)) else Ok(lines)
  }

  /**
    `runCalcEngine` up to the output function: unless reprocessing, the
    deck is formed and the process run; otherwise the earlier output is
    read. The output is split at line ends and must pass `findErrors`.
   */
  method RunCalcEngine(op: string, elts: seq<string>, precision: Option<string>, reprocess: bool, runDir: string,
                       numCPUs: nat, system: string -> string, readFile: string -> string)
    returns (inp: Option<string>, r: Result<seq<string>, string>)
    ensures !reprocess && op != "optimize" && op != "energy" ==> inp == None && r == Err(Thrown("unknown op '" + op + "'"))
    ensures !reprocess && (op == "optimize" || op == "energy") ==> inp == Some(Lines(InpLines(elts, precision, op)))
    ensures reprocess ==> inp == None
    ensures reprocess || op == "optimize" || op == "energy" ==> r == CheckedLines(Output(reprocess, runDir, numCPUs, system, readFile))
  {
    var out: string;
    if !reprocess {
      var deck := FormInp(elts, op, precision);
      if deck.Err? {
        return None, Err(deck.error);
      }
      inp := Some(deck.value);
      out := system(RunCommand(runDir, numCPUs));
    } else {
      inp := None;
      out := readFile(runDir + "/outp");
    }
    var lines := JsSplit(out, '\n');
    var err := FindErrors(lines);
    if err.Some? {
      return inp, Err(Thrown(err.value));
    }
    r := Ok(lines);
  }

  /** `calcEnergy`: the energy operation, then the energy scan. */
  method CalcEnergy(elts: seq<string>, precision: Option<string>, reprocess: bool, runDir: string,
                    numCPUs: nat, system: string -> string, readFile: string -> string) returns (r: Result<string, string>)
    ensures var c := CheckedLines(Output(reprocess, runDir, numCPUs, system, readFile));
      r == if c.Err? then Err(c.error) else Energy(c.value)
  {
    var inp, lines := RunCalcEngine("energy", elts, precision, reprocess, runDir, numCPUs, system, readFile);
    if lines.Err? {
      return Err(lines.error);
    }
    r := ExtractEnergyFromOutput(lines.value);
  }

  /** `calcOptimized`: the optimisation, then the last coordinate section. */
  method CalcOptimized(elts: seq<string>, natoms: nat, precision: Option<string>, reprocess: bool, runDir: string,
                       numCPUs: nat, system: string -> string, readFile: string -> string) returns (r: Result<seq<Row>, string>)
    ensures var c := CheckedLines(Output(reprocess, runDir, numCPUs, system, readFile));
      r == if c.Err? then Err(c.error) else LastSection(c.value, natoms)
  {
    var inp, lines := RunCalcEngine("optimize", elts, precision, reprocess, runDir, numCPUs, system, readFile);
    if lines.Err? {
      return Err(lines.error);
    }
    r := ParseLastCoordSection(lines.value, natoms);
  }

  /** `calcOptimizedWithSteps`: the optimisation, then every coordinate section. */
  method CalcOptimizedWithSteps(elts: seq<string>, natoms: nat, precision: Option<string>, reprocess: bool, runDir: string,
                                numCPUs: nat, system: string -> string, readFile: string -> string)
    returns (r: Result<seq<seq<Row>>, string>)
    ensures var c := CheckedLines(Output(reprocess, runDir, numCPUs, system, readFile));
      r == if c.Err? then Err(c.error) else AllSections(c.value, natoms)
  {
    var inp, lines := RunCalcEngine("optimize", elts, precision, reprocess, runDir, numCPUs, system, readFile);
    if lines.Err? {
      return Err(lines.error);
    }
    r := ParseAllCoordSections(lines.value, natoms);
  }
}
