/**
  The XYZ reader, `Molecule::readXyzFile`: the lines of the file, as
  `std::getline` delivers them, drive a four-phase machine (count line,
  description line, atom lines, end). Each line is read through an
  `std::istringstream`; the conversion of a coordinate is a parameter; bonds
  are detected once, after the last line.
 */
module MoleculeXyz {
  import opened Wrappers
  import opened Text
  import opened Molecules
  import opened Util

  /** `2^32`: `natoms` is an `unsigned`, so `--natoms` wraps modulo this. */
  const U32: nat := 0x1_0000_0000

  /**
    The conversion behind `is >> x` for a `double` (`std::num_get`), given
    the stream's text after the skipped white space: the value and the number
    of characters it takes from the front, or nothing when no number starts
    there. It stops where the number ends, which need not be white space.
   */
  type NumParse = string -> Option<(real, nat)>

  /** The `phase` character: 'N', 'D', 'A', 'E'. */
  datatype Phase = CountPhase | DescrPhase | AtomPhase | EndPhase

  /** What the reader holds between two lines. */
  datatype XyzRead = XyzRead(phase: Phase, natoms: nat, descr: string, atoms: seq<AtomData>)

  const Start: XyzRead := XyzRead(CountPhase, 0, "", [])

  // ---------------------------------------------------------------------------
  // One line
  // ---------------------------------------------------------------------------

  /** The longest prefix of `t` made of decimal digits. */
  function DigitRun(t: string): (p: string)
    ensures p <= t && AllDigits(p)
    ensures |p| < |t| ==> !IsDigit(t[|p|])
  {
    if t == [] || !IsDigit(t[0]) then [] else [t[0]] + DigitRun(t[1..])
  }

  /**
    The count line: `is >> natoms` skips white space and reads the digits
    that follow (an unsigned value that does not fit fails); any text after
    them is read by `is >> dummy` and is an error.
   */
  function CountLine(line: string): (r: Result<nat, string>)
    ensures r.Ok? ==> r.value < U32
  {
    var ts := Tokens(line);
    if ts == [] then Err("no natoms in file")
    else
      var p := DigitRun(ts[0]);
      if p == [] || DecimalValue(p) >= U32 then Err("no natoms in file")
      else if |p| < |ts[0]| then Err("garbage in the end of the line: " + ts[0][|p|..])
      else if |ts| > 1 then Err("garbage in the end of the line: " + ts[1])
      else Ok(DecimalValue(p))
  }

  /** What `operator>>` skips before it extracts: the text from the first non-space character on. */
  function SkipSpaces(s: string): (r: string)
    ensures |r| <= |s|
    ensures r == [] || !IsCSpace(r[0])
  {
    if s != [] && IsCSpace(s[0]) then SkipSpaces(s[1..]) else s
  }

  /** What is left of the stream after `is >> token` takes the next token. */
  function AfterToken(s: string): (r: string)
    ensures |r| <= |s|
    ensures SkipSpaces(s) != [] ==> |r| < |s|
  {
    var t := SkipSpaces(s);
    t[|Word(t)|..]
  }

  /** Repeated `is >> token` extracts exactly the tokens `Tokens` lists, in order. */
  lemma {:induction false} TokensUnfold(s: string)
    ensures SkipSpaces(s) == [] <==> Tokens(s) == []
    ensures SkipSpaces(s) != [] ==> Tokens(s) == [Word(SkipSpaces(s))] + Tokens(AfterToken(s))
    decreases |s|
  {
    if s != [] && IsCSpace(s[0]) {
      TokensUnfold(s[1..]);
    }
  }

  /** `is >> x` for a `double`: skip white space, convert, and leave the rest; taking no character fails. */
  function ReadNum(s: string, num: NumParse): (r: Option<(real, string)>)
    ensures r.Some? <==> var t := SkipSpaces(s); num(t).Some? && 1 <= num(t).value.1 <= |t|
    ensures r.Some? ==> var t := SkipSpaces(s); r.value == (num(t).value.0, t[num(t).value.1..])
    ensures r.Some? ==> |r.value.1| < |s|
  {
    var t := SkipSpaces(s);
    match num(t)
    case None => None
    case Some((x, k)) => if 1 <= k <= |t| then Some((x, t[k..])) else None
  }

  /** `>> x >> y >> z`: three numbers in a row, each read from what the one before left, and what is left after them. */
  function ReadCoords(s: string, num: NumParse): (r: Option<(Vec3, string)>)
    ensures r.Some? <==>
      ReadNum(s, num).Some? && ReadNum(ReadNum(s, num).value.1, num).Some?
      && ReadNum(ReadNum(ReadNum(s, num).value.1, num).value.1, num).Some?
    ensures r.Some? ==>
      var (x, s1) := ReadNum(s, num).value;
      var (y, s2) := ReadNum(s1, num).value;
      var (z, s3) := ReadNum(s2, num).value;
      r.value == (Vec3(x, y, z), s3)
    ensures r.Some? ==> |r.value.1| + 3 <= |s|
  {
    match ReadNum(s, num)
    case None => None
    case Some((x, s1)) =>
      match ReadNum(s1, num)
      case None => None
      case Some((y, s2)) =>
        match ReadNum(s2, num)
        case None => None
        case Some((z, s3)) => Some((Vec3(x, y, z), s3))
  }

  /** The error for an atom line with neither 0 nor 3 tokens after the coordinates. */
  function ArityError(extra: nat, line: string): string
  {
    "the atom descriptor can have either 4 or 7 elements, found " + NatToString(extra) + " elements in line " + line
  }

  /**
    An atom line: `is >> elt` reads the first token (an unknown name
    throws), `>> x >> y >> z` read three numbers from what follows (else
    "no atom description"), and the tokens `is >> dummy` then finds must
    number 0 or 3.
   */
  function AtomLine(line: string, num: NumParse): Result<AtomData, string>
  {
    match ReadElement(line)
    case Err(err) => Err(err)
    case Ok(elt) =>
      match ReadCoords(AfterToken(line), num)
      case None => Err("no atom description found in line: " + line)
      case Some((pos, rest)) =>
        var ndummy := |Tokens(rest)|;
        if ndummy != 0 && ndummy != 3 then Err(ArityError(ndummy, line)) else Ok(AtomData(elt, pos))
  }

  /** `--natoms` on a 32-bit unsigned counter. */
  function Decrement(n: nat): (r: nat)
    requires n < U32
    ensures r < U32 && (r + 1) % U32 == n
  {
    if n == 0 then U32 - 1 else n - 1
  }

  /** One turn of the `switch (phase)`. */
  function Step(st: XyzRead, line: string, num: NumParse): (r: Result<XyzRead, string>)
    requires st.natoms < U32
    ensures r.Ok? ==> r.value.natoms < U32
  {
    match st.phase
    case CountPhase =>
      (match CountLine(line)
       case Err(e) => Err(e)
       case Ok(n) => Ok(st.(phase := DescrPhase, natoms := n)))
    case DescrPhase =>
      Ok(st.(phase := AtomPhase, descr := line))
    case AtomPhase =>
      (match AtomLine(line, num)
       case Err(e) => Err(e)
       case Ok(a) =>
         var left := Decrement(st.natoms);
         Ok(st.(phase := if left == 0 then EndPhase else AtomPhase, natoms := left, atoms := st.atoms + [a])))
    case EndPhase =>
      if Tokens(line) != [] then Err("trailing characters after the atom data: " + line) else Ok(st)
  }

  /** The reader's state after the given lines, or the first error. */
  function Run(lines: seq<string>, num: NumParse): (r: Result<XyzRead, string>)
    ensures r.Ok? ==> r.value.natoms < U32
  {
    if lines == [] then Ok(Start)
    else
      match Run(lines[..|lines| - 1], num)
      case Err(e) => Err(e)
      case Ok(st) => Step(st, lines[|lines| - 1], num)
  }

  /** After two lines without error the reader is in the atom or the end phase. */
  lemma PastDescription(lines: seq<string>, num: NumParse)
    requires |lines| >= 2 && Run(lines, num).Ok?
    ensures Run(lines, num).value.phase in {AtomPhase, EndPhase}
  {
    RunShape(lines, num);
  }

  /** The state after one more line is one more step. */
  lemma RunNext(lines: seq<string>, i: nat, num: NumParse)
    requires i < |lines| && Run(lines[..i], num).Ok?
    ensures Run(lines[..i + 1], num) == Step(Run(lines[..i], num).value, lines[i], num)
  {
    assert lines[..i + 1][..i] == lines[..i];
  }

  // ---------------------------------------------------------------------------
  // The reader
  // ---------------------------------------------------------------------------

  /** The molecule holds what the lines describe, with bonds detected over its atoms. */
  ghost predicate Holds(m: Molecule, st: XyzRead, isBond: BondTest)
    reads m
  {
    m.Valid() && m.descr == st.descr && m.Data() == st.atoms
    && forall k :: 0 <= k < |m.atoms| ==> m.bonds[m.atoms[k]] == Partners(m.atoms, m.Data(), isBond, k, |m.atoms|)
  }

  /** The reader's variables agree with the state `cur` the lines so far lead to. */
  ghost predicate Agrees(phase: Phase, natoms: nat, m: Molecule?, cur: XyzRead)
    reads m
  {
    phase == cur.phase && natoms == cur.natoms && natoms < U32
    && (phase == CountPhase || phase == DescrPhase ==> cur.atoms == [])
    && (phase == AtomPhase || phase == EndPhase ==>
          m != null && m.Valid() && m.descr == cur.descr && m.Data() == cur.atoms)
  }

  /**
    One turn of the loop of `readXyzFile`: the `switch (phase)` on one line,
    which throws, or updates the phase, the counter and the molecule.
   */
  method ReadLine(line: string, num: NumParse, phase: Phase, natoms: nat, m: Molecule?, ghost cur: XyzRead)
    returns (err: Option<string>, phase': Phase, natoms': nat, m': Molecule?)
    requires Agrees(phase, natoms, m, cur)
    modifies m
    ensures Step(cur, line, num).Err? ==> err == Some(Step(cur, line, num).error)
    ensures Step(cur, line, num).Ok? ==>
      err.None? && (m' == m || fresh(m')) && Agrees(phase', natoms', m', Step(cur, line, num).value)
  {
    phase', natoms', m' := phase, natoms, m;
    match phase {
      case CountPhase =>
        var c := CountLine(line);
        if c.Err? {
          return Some(c.error), phase', natoms', m';
        }
        natoms' := c.value;
        phase' := DescrPhase;
      case DescrPhase =>
        m' := new Molecule(line);
        phase' := AtomPhase;
      case AtomPhase =>
        err, phase', natoms' := ReadAtomLine(line, num, natoms, m, cur);
        return;
      case EndPhase =>
        if Tokens(line) != [] {
          return Some("trailing characters after the atom data: " + line), phase', natoms', m';
        }
    }
    err := None;
  }

  /** The atom-phase case: an atom line is read, added, and counted down. */
  method ReadAtomLine(line: string, num: NumParse, natoms: nat, m: Molecule?, ghost cur: XyzRead)
    returns (err: Option<string>, phase': Phase, natoms': nat)
    requires cur.phase == AtomPhase && Agrees(AtomPhase, natoms, m, cur)
    modifies m
    ensures Step(cur, line, num).Err? ==> err == Some(Step(cur, line, num).error)
    ensures Step(cur, line, num).Ok? ==> err.None? && Agrees(phase', natoms', m, Step(cur, line, num).value)
  {
    AtomLineErrors(line, num);
    AtomStepErr(cur, line, num);
    phase', natoms' := AtomPhase, natoms;
    var e := ReadElement(line);
    if e.Err? {
      return Some(e.error), phase', natoms';
    }
    var c := ReadCoords(AfterToken(line), num);
    if c.None? {
      return Some("no atom description found in line: " + line), phase', natoms';
    }
    var atom := AtomData(e.value, c.value.0);
    var _ := m.Add(atom);
    var ndummy := CountTokens(c.value.1);
    if ndummy != 0 && ndummy != 3 {
      return Some(ArityError(ndummy, line)), phase', natoms';
    }
    assert AtomLine(line, num) == Ok(atom);
    AtomStep(cur, line, num);
    natoms' := Decrement(natoms);
    if natoms' == 0 {
      phase' := EndPhase;
    }
    err := None;
  }

  /** The gradient, if any: `while (is >> dummy) ndummy++;` counts the tokens left in the stream. */
  method CountTokens(s: string) returns (ndummy: nat)
    ensures ndummy == |Tokens(s)|
  {
    var rest := s;
    ndummy := 0;
    while SkipSpaces(rest) != []
      invariant ndummy + |Tokens(rest)| == |Tokens(s)|
      decreases |rest|
    {
      TokensUnfold(rest);
      rest := AfterToken(rest);
      ndummy := ndummy + 1;
    }
    TokensUnfold(rest);
  }

  /**
    `readXyzFile` over the file's lines. With fewer than two lines no
    molecule exists when `detectBonds` is called, so two are required.
   */
  method ReadXyzFile(lines: seq<string>, num: NumParse, isBond: BondTest) returns (r: Result<Molecule, string>)
    requires |lines| >= 2
    ensures Run(lines, num).Err? ==> r == Err(Run(lines, num).error)
    ensures Run(lines, num).Ok? ==> r.Ok? && fresh(r.value) && Holds(r.value, Run(lines, num).value, isBond)
  {
    var natoms: nat := 0;
    var m: Molecule? := null;
    var phase := CountPhase;
    ghost var cur := Start;
    var i := 0;
    while i < |lines|
      invariant 0 <= i <= |lines|
      invariant Run(lines[..i], num) == Ok(cur)
      invariant Agrees(phase, natoms, m, cur) && (m == null || fresh(m))
    {
      RunNext(lines, i, num);
      var err;
      err, phase, natoms, m := ReadLine(lines[i], num, phase, natoms, m, cur);
      if err.Some? {
        ErrorsStick(lines, i + 1, num);
        return Err(err.value);
      }
      cur := Step(cur, lines[i], num).value;
      i := i + 1;
    }
    assert lines[..|lines|] == lines;
    PastDescription(lines, num);
    m.DetectBonds(isBond);
    r := Ok(m);
  }

  // ---------------------------------------------------------------------------
  // Properties
  // ---------------------------------------------------------------------------

  /** Once an error is raised, no later line matters: the reader has stopped. */
  lemma {:induction false} ErrorsStick(lines: seq<string>, i: nat, num: NumParse)
    requires i <= |lines| && Run(lines[..i], num).Err?
    ensures Run(lines, num) == Err(Run(lines[..i], num).error)
    decreases |lines| - i
  {
    if i < |lines| {
      ErrorNext(lines, i, num);
      ErrorsStick(lines, i + 1, num);
    } else {
      assert lines[..i] == lines;
    }
  }

  lemma ErrorNext(lines: seq<string>, i: nat, num: NumParse)
    requires i < |lines| && Run(lines[..i], num).Err?
    ensures Run(lines[..i + 1], num) == Run(lines[..i], num)
  {
    assert lines[..i + 1][..i] == lines[..i];
  }

  /**
    The count line is accepted exactly when it holds one token of decimal
    digits denoting a value below 2^32; the value is the count.
   */
  lemma CountLineExact(line: string)
    ensures CountLine(line).Ok? <==>
      |Tokens(line)| == 1 && AllDigits(Tokens(line)[0]) && DecimalValue(Tokens(line)[0]) < U32
    ensures CountLine(line).Ok? ==> CountLine(line).value == DecimalValue(Tokens(line)[0])
  {
    var ts := Tokens(line);
    if ts != [] {
      var p := DigitRun(ts[0]);
      if AllDigits(ts[0]) {
        DigitRunAll(ts[0]);
      }
    }
  }

  lemma {:induction false} DigitRunAll(t: string)
    requires AllDigits(t)
    ensures DigitRun(t) == t
  {
    if t != [] {
      DigitRunAll(t[1..]);
    }
  }

  /** A line with no count gives "no natoms in file". */
  lemma CountLineMissing(line: string)
    requires Tokens(line) == [] || !IsDigit(Tokens(line)[0][0])
    ensures CountLine(line) == Err("no natoms in file")
  {
  }

  /** A token after the count gives the "garbage" error naming that token. */
  lemma CountLineGarbage(line: string)
    requires |Tokens(line)| >= 2 && AllDigits(Tokens(line)[0]) && DecimalValue(Tokens(line)[0]) < U32
    ensures CountLine(line) == Err("garbage in the end of the line: " + Tokens(line)[1])
  {
    DigitRunAll(Tokens(line)[0]);
  }

  /**
    An atom line is accepted exactly when its first token names an element,
    three numbers follow it, each starting where the one before stopped, and
    0 or 3 tokens are left after the third; the atom read has that element
    and those coordinates.
   */
  lemma AtomLineExact(line: string, num: NumParse)
    ensures var c := ReadCoords(AfterToken(line), num);
      AtomLine(line, num).Ok? <==>
        ReadElement(line).Ok? && c.Some? && (|Tokens(c.value.1)| == 0 || |Tokens(c.value.1)| == 3)
    ensures var c := ReadCoords(AfterToken(line), num);
      AtomLine(line, num).Ok? ==> AtomLine(line, num).value == AtomData(ReadElement(line).value, c.value.0)
  {
  }

  /** The error cases of an atom line, in the order the stream meets them. */
  lemma AtomLineErrors(line: string, num: NumParse)
    ensures ReadElement(line).Err? ==> AtomLine(line, num) == Err(ReadElement(line).error)
    ensures ReadElement(line).Ok? && ReadCoords(AfterToken(line), num).None? ==>
      AtomLine(line, num) == Err("no atom description found in line: " + line)
    ensures var c := ReadCoords(AfterToken(line), num);
      ReadElement(line).Ok? && c.Some? && |Tokens(c.value.1)| != 0 && |Tokens(c.value.1)| != 3 ==>
        AtomLine(line, num) == Err(ArityError(|Tokens(c.value.1)|, line))
  {
  }

  /**
    Numbers need no white space between them: "C 1.0-2.0 3.0" has only three
    tokens, yet, with a conversion that stops where each number ends, it is
    the carbon atom at (1.0, -2.0, 3.0).
   */
  lemma AdjacentNumbersAccepted(num: NumParse)
    requires num("1.0-2.0 3.0") == Some((1.0, 3))
    requires num("-2.0 3.0") == Some((-2.0, 4))
    requires num("3.0") == Some((3.0, 3))
    ensures |Tokens("C" + " 1.0-2.0 3.0")| == 3
    ensures AtomLine("C" + " 1.0-2.0 3.0", num) == Ok(AtomData(C, Vec3(1.0, -2.0, 3.0)))
  {
    AdjacentNumbersRead(num);
    TokensUnfold([]);
    CarbonLine(" 1.0-2.0 3.0");
    AtomLineOf(C, "C" + " 1.0-2.0 3.0", " 1.0-2.0 3.0", "-2.0 3.0", " 3.0", [], num, 1.0, -2.0, 3.0);
    AdjacentTokens();
  }

  /** The three conversions of "C 1.0-2.0 3.0", each starting where the one before stopped. */
  lemma AdjacentNumbersRead(num: NumParse)
    requires num("1.0-2.0 3.0") == Some((1.0, 3))
    requires num("-2.0 3.0") == Some((-2.0, 4))
    requires num("3.0") == Some((3.0, 3))
    ensures ReadNum(" 1.0-2.0 3.0", num) == Some((1.0, "-2.0 3.0"))
    ensures ReadNum("-2.0 3.0", num) == Some((-2.0, " 3.0"))
    ensures ReadNum(" 3.0", num) == Some((3.0, []))
  {
    ReadOneAt(" ", "1.0-2.0 3.0", " 1.0-2.0 3.0", "-2.0 3.0", num);
    ReadOneAt([], "-2.0 3.0", "-2.0 3.0", " 3.0", num);
    ReadOneAt(" ", "3.0", " 3.0", [], num);
  }

  lemma AdjacentTokens()
    ensures |Tokens("C" + " 1.0-2.0 3.0")| == 3
  {
    assert "C" + " " + "1.0-2.0" + " " + "3.0" == "C" + " 1.0-2.0 3.0";
    ThreeTokens("C", "1.0-2.0", "3.0");
  }

  /** A carbon atom's name followed by the rest of a line. */
  lemma CarbonLine(rest: string)
    ensures "C" + rest == EltName(C) + rest
  {
    assert EltName(C) == "C";
  }

  /**
    A number that runs into other characters: in "C 1 2 3abc" the third
    conversion stops before "abc", which `is >> dummy` then counts as one
    token, so the line has neither 0 nor 3 extra tokens.
   */
  lemma TrailingCharactersCounted(num: NumParse)
    requires num("1 2 3abc") == Some((1.0, 1))
    requires num("2 3abc") == Some((2.0, 1))
    requires num("3abc") == Some((3.0, 1))
    ensures AtomLine("C" + " 1 2 3abc", num) == Err(ArityError(1, "C" + " 1 2 3abc"))
  {
    TrailingNumbersRead(num);
    OneTokenLeft();
    CarbonLine(" 1 2 3abc");
    AtomLineOf(C, "C" + " 1 2 3abc", " 1 2 3abc", " 2 3abc", " 3abc", "abc", num, 1.0, 2.0, 3.0);
  }

  /** The three conversions of "C 1 2 3abc": the third leaves "abc". */
  lemma TrailingNumbersRead(num: NumParse)
    requires num("1 2 3abc") == Some((1.0, 1))
    requires num("2 3abc") == Some((2.0, 1))
    requires num("3abc") == Some((3.0, 1))
    ensures ReadNum(" 1 2 3abc", num) == Some((1.0, " 2 3abc"))
    ensures ReadNum(" 2 3abc", num) == Some((2.0, " 3abc"))
    ensures ReadNum(" 3abc", num) == Some((3.0, "abc"))
  {
    ReadOneAt(" ", "1 2 3abc", " 1 2 3abc", " 2 3abc", num);
    ReadOneAt(" ", "2 3abc", " 2 3abc", " 3abc", num);
    ReadOneAt(" ", "3abc", " 3abc", "abc", num);
  }

  /** One conversion from `text`, which is white space `ws` then `t`, leaving `tail`. */
  lemma ReadOneAt(ws: string, t: string, text: string, tail: string, num: NumParse)
    requires forall i :: 0 <= i < |ws| ==> IsCSpace(ws[i])
    requires t != [] && !IsCSpace(t[0]) && text == ws + t
    requires num(t).Some? && 1 <= num(t).value.1 <= |t| && t[num(t).value.1..] == tail
    ensures ReadNum(text, num) == Some((num(t).value.0, tail))
  {
    ReadNumOf(ws, t, num);
  }

  lemma OneTokenLeft()
    ensures |Tokens("abc")| == 1
  {
    OneWord("abc");
    TokensCons("abc", []);
    assert "abc" + [] == "abc";
  }

  /** A named element, then three numbers read in a row: the atom, unless the tokens left are neither 0 nor 3. */
  lemma AtomLineOf(e: Element, line: string, rest: string, s1: string, s2: string, s3: string, num: NumParse, x: real, y: real, z: real)
    requires Named(e) && line == EltName(e) + rest
    requires rest == [] || IsCSpace(rest[0])
    requires ReadNum(rest, num) == Some((x, s1)) && ReadNum(s1, num) == Some((y, s2)) && ReadNum(s2, num) == Some((z, s3))
    ensures var n := |Tokens(s3)|;
      AtomLine(line, num) == if n != 0 && n != 3 then Err(ArityError(n, line)) else Ok(AtomData(e, Vec3(x, y, z)))
  {
    NoSpaceInNames(e);
    assert EltName(e) + rest == [] + EltName(e) + rest;
    ReadElementPrinted([], e, rest);
    AfterTokenOf(EltName(e), rest);
  }

  /** Three non-space words separated by single spaces are three tokens. */
  lemma ThreeTokens(a: string, b: string, c: string)
    requires OneWordText(a) && OneWordText(b) && OneWordText(c)
    ensures |Tokens(a + " " + b + " " + c)| == 3
  {
    OneWord(a);
    OneWord(b);
    OneWord(c);
    TokensAfterSpace(c, []);
    assert " " + c + [] == " " + c;
    TokensAfterSpace(b, " " + c);
    Assoc(a + " " + b, " ", c);
    Assoc3(a, " ", b, " " + c);
    Assoc(" " + b, " ", c);
    TokensCons(a, " " + b + " " + c);
  }

  /** A word without white space, checked character by character. */
  predicate OneWordText(w: string)
  {
    w != [] && NoSpaceFrom(w, 0)
  }

  predicate NoSpaceFrom(w: string, i: nat)
    decreases |w| - i
  {
    i >= |w| || (!IsCSpace(w[i]) && NoSpaceFrom(w, i + 1))
  }

  lemma {:induction false} NoSpaceAfter(w: string, i: nat)
    requires NoSpaceFrom(w, i)
    ensures forall j :: i <= j < |w| ==> !IsCSpace(w[j])
    decreases |w| - i
  {
    if i < |w| {
      NoSpaceAfter(w, i + 1);
    }
  }

  lemma OneWord(w: string)
    requires OneWordText(w)
    ensures OneToken(w)
  {
    NoSpaceAfter(w, 0);
  }

  /** White space, then a number the conversion reads: `is >> x` gives it and leaves the rest. */
  lemma ReadNumOf(ws: string, t: string, num: NumParse)
    requires forall i :: 0 <= i < |ws| ==> IsCSpace(ws[i])
    requires t != [] && !IsCSpace(t[0])
    requires num(t).Some? && 1 <= num(t).value.1 <= |t|
    ensures ReadNum(ws + t, num) == Some((num(t).value.0, t[num(t).value.1..]))
  {
    SkipSpacesOf(ws, t);
  }

  /** White space followed by text that does not start with it: `SkipSpaces` leaves that text. */
  lemma {:induction false} SkipSpacesOf(ws: string, t: string)
    requires forall i :: 0 <= i < |ws| ==> IsCSpace(ws[i])
    requires t == [] || !IsCSpace(t[0])
    ensures SkipSpaces(ws + t) == t
    decreases |ws|
  {
    if ws != [] {
      assert (ws + t)[1..] == ws[1..] + t;
      SkipSpacesOf(ws[1..], t);
    } else {
      assert ws + t == t;
    }
  }

  /** After a token that starts the text, what is left is the text after it. */
  lemma AfterTokenOf(w: string, rest: string)
    requires OneToken(w)
    requires rest == [] || IsCSpace(rest[0])
    ensures AfterToken(w + rest) == rest
  {
    WordOf(w, rest);
    assert (w + rest)[|w|..] == rest;
  }

  /**
    The number of atom lines after which the 32-bit counter reaches zero:
    the count itself, or 2^32 for a count of 0, which wraps.
   */
  function Declared(n: nat): (c: nat)
    ensures 1 <= c && (n >= 1 ==> c == n)
  {
    if n == 0 then U32 else n
  }

  /**
    After the count and description lines: the description is the second
    line, the atoms are read from the following lines in file order, the
    phase becomes End exactly after the declared number of atom lines (see
    `Declared`), and every later line is blank.
   */
  lemma {:induction false} RunShape(lines: seq<string>, num: NumParse)
    requires |lines| >= 2 && Run(lines, num).Ok?
    ensures CountLine(lines[0]).Ok?
    ensures var n := CountLine(lines[0]).value; var st := Run(lines, num).value; var k := |st.atoms|;
      st.descr == lines[1] && k <= |lines| - 2 && k <= Declared(n)
      && (st.phase == AtomPhase || st.phase == EndPhase)
      && (st.phase == EndPhase <==> k == Declared(n))
      && (st.phase == AtomPhase ==> k == |lines| - 2)
      && st.natoms == (if k == 0 then n else Declared(n) - k)
      && (forall j :: 0 <= j < k ==> AtomLine(lines[2 + j], num) == Ok(st.atoms[j]))
      && (forall j :: 2 + k <= j < |lines| ==> Tokens(lines[j]) == [])
    decreases |lines|
  {
    var p := lines[..|lines| - 1];
    var l := lines[|lines| - 1];
    assert p[..|p| - 1] == lines[..|lines| - 2];
    if |lines| == 2 {
      FirstTwo(lines, num);
    } else {
      assert Run(p, num).Ok?;
      RunShape(p, num);
      assert p[0] == lines[0] && p[1] == lines[1];
      var st := Run(p, num).value;
      assert Run(lines, num) == Step(st, l, num);
      if st.phase == AtomPhase {
        AtomStep(st, l, num);
        AtomsExtend(lines, p, st.atoms, AtomLine(l, num).value, num);
      } else {
        BlankStep(st, l, num);
        BlanksExtend(lines, p, |st.atoms|);
      }
    }
  }

  /** One atom line in the atom phase: the atom goes at the end and the counter goes down. */
  lemma AtomStep(st: XyzRead, l: string, num: NumParse)
    requires st.phase == AtomPhase && st.natoms < U32 && Step(st, l, num).Ok?
    ensures AtomLine(l, num).Ok?
    ensures var left := Decrement(st.natoms);
      Step(st, l, num).value
        == st.(phase := if left == 0 then EndPhase else AtomPhase, natoms := left, atoms := st.atoms + [AtomLine(l, num).value])
  {
  }

  /** An atom line that fails fails the step with the same message. */
  lemma AtomStepErr(st: XyzRead, l: string, num: NumParse)
    requires st.phase == AtomPhase && st.natoms < U32
    ensures AtomLine(l, num).Err? ==> Step(st, l, num) == Err(AtomLine(l, num).error)
  {
  }

  /** A line in the end phase changes nothing and is blank. */
  lemma BlankStep(st: XyzRead, l: string, num: NumParse)
    requires st.phase == EndPhase && st.natoms < U32 && Step(st, l, num).Ok?
    ensures Step(st, l, num).value == st && Tokens(l) == []
  {
  }

  lemma AtomsExtend(lines: seq<string>, p: seq<string>, atoms: seq<AtomData>, a: AtomData, num: NumParse)
    requires |lines| == |atoms| + 3 && p == lines[..|lines| - 1]
    requires forall j :: 0 <= j < |atoms| ==> AtomLine(p[2 + j], num) == Ok(atoms[j])
    requires AtomLine(lines[|lines| - 1], num) == Ok(a)
    ensures forall j :: 0 <= j < |atoms| + 1 ==> AtomLine(lines[2 + j], num) == Ok((atoms + [a])[j])
  {
    ReadsExtend(lines, p, atoms, a, l => AtomLine(l, num));
  }

  /** `AtomsExtend` for any reading of a line. */
  lemma ReadsExtend<T>(lines: seq<string>, p: seq<string>, atoms: seq<T>, a: T, f: string -> Result<T, string>)
    requires |lines| == |atoms| + 3 && p == lines[..|lines| - 1]
    requires forall j :: 0 <= j < |atoms| ==> f(p[2 + j]) == Ok(atoms[j])
    requires f(lines[|lines| - 1]) == Ok(a)
    ensures forall j :: 0 <= j < |atoms| + 1 ==> f(lines[2 + j]) == Ok((atoms + [a])[j])
  {
    forall j | 0 <= j < |atoms| + 1 ensures f(lines[2 + j]) == Ok((atoms + [a])[j]) {
      if j < |atoms| {
        assert p[2 + j] == lines[2 + j];
      }
    }
  }

  lemma BlanksExtend(lines: seq<string>, p: seq<string>, k: nat)
    requires 2 + k < |lines| && p == lines[..|lines| - 1]
    requires forall j :: 2 + k <= j < |p| ==> Tokens(p[j]) == []
    requires Tokens(lines[|lines| - 1]) == []
    ensures forall j :: 2 + k <= j < |lines| ==> Tokens(lines[j]) == []
  {
    forall j | 2 + k <= j < |lines| ensures Tokens(lines[j]) == [] {
      if j < |p| {
        assert p[j] == lines[j];
      }
    }
  }

  /** The first two lines: a count line, then the description. */
  lemma FirstTwo(lines: seq<string>, num: NumParse)
    requires |lines| == 2
    ensures Run(lines, num) ==
      match CountLine(lines[0])
      case Err(e) => Err(e)
      case Ok(n) => Ok(XyzRead(AtomPhase, n, lines[1], []))
  {
    var p := lines[..1];
    assert p[..0] == [];
    assert Run(p, num) == Step(Start, lines[0], num);
  }

  /** A count of 0 never reaches the end phase: the counter wraps on the first atom line. */
  lemma ZeroCountNeverEnds(lines: seq<string>, num: NumParse)
    requires |lines| >= 2 && Run(lines, num).Ok? && CountLine(lines[0]) == Ok(0)
    requires |lines| - 2 < U32
    ensures Run(lines, num).value.phase == AtomPhase
    ensures |Run(lines, num).value.atoms| == |lines| - 2
  {
    RunShape(lines, num);
  }

  /** With a count n >= 1 and at least n atom lines, the phase is End after exactly n atoms. */
  lemma DeclaredCountEnds(lines: seq<string>, num: NumParse, n: nat)
    requires |lines| >= 2 && Run(lines, num).Ok? && CountLine(lines[0]) == Ok(n)
    requires 1 <= n <= |lines| - 2
    ensures Run(lines, num).value.phase == EndPhase && |Run(lines, num).value.atoms| == n
  {
    RunShape(lines, num);
  }

  /** In the end phase a line holding a token is the "trailing characters" error. */
  lemma TrailingTokenError(lines: seq<string>, line: string, num: NumParse)
    requires Run(lines, num).Ok? && Run(lines, num).value.phase == EndPhase
    requires Tokens(line) != []
    ensures Run(lines + [line], num) == Err("trailing characters after the atom data: " + line)
  {
    assert (lines + [line])[..|lines|] == lines;
  }

  /**
    Fewer atom lines than declared is not an error: a count line, any
    description and good atom lines, no more of them than declared, read
    without error, with the atoms in file order.
   */
  lemma {:induction false} FewerAtomLines(lines: seq<string>, num: NumParse)
    requires |lines| >= 2 && CountLine(lines[0]).Ok?
    requires |lines| - 2 <= Declared(CountLine(lines[0]).value)
    requires forall j :: 2 <= j < |lines| ==> AtomLine(lines[j], num).Ok?
    ensures var r := Run(lines, num);
      r.Ok? && |r.value.atoms| == |lines| - 2 && r.value.descr == lines[1]
      && forall j :: 2 <= j < |lines| ==> r.value.atoms[j - 2] == AtomLine(lines[j], num).value
    decreases |lines|
  {
    var p := lines[..|lines| - 1];
    assert p[..|p| - 1] == lines[..|lines| - 2];
    if |lines| == 2 {
      FirstTwo(lines, num);
    } else {
      assert p[0] == lines[0];
      forall j | 2 <= j < |p| ensures AtomLine(p[j], num).Ok? {
        assert p[j] == lines[j];
      }
      FewerAtomLines(p, num);
      RunShape(p, num);
      RunShape(lines, num);
    }
  }

  // ---------------------------------------------------------------------------
  // Reading back what the writer prints
  // ---------------------------------------------------------------------------

  /** A non-empty token without white space. */
  predicate OneToken(s: string)
  {
    s != [] && forall j :: 0 <= j < |s| ==> !IsCSpace(s[j])
  }

  /**
    The coordinate `r` prints as one token, which reads back as `r`, the
    conversion stopping at the end of the token when white space or the end
    of the line follows.
   */
  ghost predicate ReadsBackAt(fmt: real -> string, num: NumParse, r: real)
  {
    OneToken(fmt(r))
    && forall rest {:trigger num(fmt(r) + rest)} :: rest == [] || IsCSpace(rest[0]) ==> num(fmt(r) + rest) == Some((r, |fmt(r)|))
  }

  /**
    Every coordinate of the atoms `d` prints as one token that reads back as
    itself. The printer's fixed precision makes this a property of the
    values written, not of every real.
   */
  ghost predicate CoordsReadBack(d: seq<AtomData>, fmt: real -> string, num: NumParse)
  {
    forall i :: 0 <= i < |d| ==>
      ReadsBackAt(fmt, num, d[i].pos.x) && ReadsBackAt(fmt, num, d[i].pos.y) && ReadsBackAt(fmt, num, d[i].pos.z)
  }

  lemma {:induction false} TokensCons(w: string, rest: string)
    requires OneToken(w)
    requires rest == [] || IsCSpace(rest[0])
    ensures Tokens(w + rest) == [w] + Tokens(rest)
  {
    WordOf(w, rest);
    assert (w + rest)[|w|..] == rest;
  }

  /** A space before a token, then more: the token, then the tokens of the rest. */
  lemma {:induction false} TokensAfterSpace(w: string, rest: string)
    requires OneToken(w)
    requires rest == [] || IsCSpace(rest[0])
    ensures Tokens(" " + w + rest) == [w] + Tokens(rest)
  {
    assert (" " + w + rest)[1..] == w + rest;
    TokensCons(w, rest);
  }

  /** A space, a printed coordinate and a separator or the end: `is >> x` reads the coordinate and leaves the rest. */
  lemma ReadNumPrinted(fmt: real -> string, num: NumParse, x: real, rest: string)
    requires ReadsBackAt(fmt, num, x)
    requires rest == [] || IsCSpace(rest[0])
    ensures ReadNum(" " + fmt(x) + rest, num) == Some((x, rest))
  {
    var w := fmt(x);
    assert num(w + rest) == Some((x, |w|));
    assert " " + w + rest == " " + (w + rest);
    ReadNumOf(" ", w + rest, num);
    assert (w + rest)[|w|..] == rest;
  }

  lemma {:induction false} SpacedAssoc(a: string, b: string, c: string, d: string)
    ensures a + " " + b + " " + c + " " + d == a + (" " + b + (" " + c + (" " + d)))
  {
    var x2 := a + " " + b;
    var x1 := x2 + " " + c;
    Assoc(x1, " ", d);
    Assoc3(x2, " ", c, " " + d);
    Assoc3(a, " ", b, " " + c + (" " + d));
  }

  lemma Assoc(x: string, y: string, z: string)
    ensures x + y + z == x + (y + z)
  {
  }

  lemma Assoc3(x: string, y: string, z: string, w: string)
    ensures x + y + z + w == x + (y + z + w)
  {
    Assoc(x, y, z);
    Assoc(x + y, z, w);
  }

  /** A printed atom line reads back as the same atom. */
  lemma {:induction false} AtomLinePrinted(a: AtomData, fmt: real -> string, num: NumParse)
    requires Named(a.elt)
    requires ReadsBackAt(fmt, num, a.pos.x) && ReadsBackAt(fmt, num, a.pos.y) && ReadsBackAt(fmt, num, a.pos.z)
    ensures AtomLine(AtomText(a, fmt), num) == Ok(a)
  {
    var name := EltName(a.elt);
    var (fx, fy, fz) := (fmt(a.pos.x), fmt(a.pos.y), fmt(a.pos.z));
    var s3 := " " + fz;
    var s2 := " " + fy + s3;
    var s1 := " " + fx + s2;
    SpacedAssoc(name, fx, fy, fz);
    assert AtomText(a, fmt) == name + s1;
    ReadNumPrinted(fmt, num, a.pos.x, s2);
    ReadNumPrinted(fmt, num, a.pos.y, s3);
    assert " " + fz + [] == s3;
    ReadNumPrinted(fmt, num, a.pos.z, []);
    AtomLineOf(a.elt, AtomText(a, fmt), s1, s2, s3, [], num, a.pos.x, a.pos.y, a.pos.z);
    TokensUnfold([]);
  }

  /** A printed count below 2^32 reads back as itself. */
  lemma {:induction false} CountLinePrinted(n: nat)
    requires n < U32
    ensures CountLine(NatToString(n)) == Ok(n)
  {
    var s := NatToString(n);
    assert OneToken(s) by {
      forall j | 0 <= j < |s| ensures !IsCSpace(s[j]) {
        assert IsDigit(s[j]);
      }
    }
    TokensCons(s, []);
    assert s + [] == s;
    DecimalRoundTrip(n);
    CountLineExact(s);
  }

  /** After the two header lines, each printed atom line reads back as its atom. */
  lemma {:induction false} PrintedAtomLines(pre: seq<string>, d: seq<AtomData>, fmt: real -> string, num: NumParse)
    requires |pre| == 2
    requires forall i :: 0 <= i < |d| ==> Named(d[i].elt)
    requires CoordsReadBack(d, fmt, num)
    ensures forall j :: 2 <= j < |pre + AtomLines(d, fmt)| ==> AtomLine((pre + AtomLines(d, fmt))[j], num) == Ok(d[j - 2])
  {
    var lines := pre + AtomLines(d, fmt);
    forall j | 2 <= j < |lines| ensures AtomLine(lines[j], num) == Ok(d[j - 2]) {
      PrintedLineAt(pre, d, fmt, j);
      AtomLinePrinted(d[j - 2], fmt, num);
    }
  }

  lemma {:induction false} PrintedLineAt(pre: seq<string>, d: seq<AtomData>, fmt: real -> string, j: nat)
    requires |pre| == 2 && 2 <= j < |d| + 2
    requires forall i :: 0 <= i < |d| ==> Named(d[i].elt)
    ensures (pre + AtomLines(d, fmt))[j] == AtomText(d[j - 2], fmt)
  {
    assert (pre + AtomLines(d, fmt))[j] == AtomLines(d, fmt)[j - 2];
  }

  /** Lines whose atom lines all read back as `d`, no more of them than declared, give the description and `d`. */
  lemma {:induction false} AtomLinesRead(lines: seq<string>, d: seq<AtomData>, num: NumParse)
    requires |lines| == |d| + 2 && CountLine(lines[0]).Ok?
    requires |d| <= Declared(CountLine(lines[0]).value)
    requires forall j :: 2 <= j < |lines| ==> AtomLine(lines[j], num) == Ok(d[j - 2])
    ensures Run(lines, num).Ok? && Run(lines, num).value.descr == lines[1] && Run(lines, num).value.atoms == d
  {
    FewerAtomLines(lines, num);
    var atoms := Run(lines, num).value.atoms;
    forall k | 0 <= k < |d| ensures atoms[k] == d[k] {
      assert AtomLine(lines[k + 2], num) == Ok(d[k]);
    }
  }

  /**
    The lines `operator<<` writes for a molecule (fewer than 2^32 atoms) read
    back as that description and those atoms, in order.
   */
  lemma {:induction false} ReadPrinted(descr: string, d: seq<AtomData>, fmt: real -> string, num: NumParse)
    requires forall i :: 0 <= i < |d| ==> Named(d[i].elt)
    requires CoordsReadBack(d, fmt, num) && |d| < U32
    ensures var st := Run([NatToString(|d|), descr] + AtomLines(d, fmt), num);
      st.Ok? && st.value.descr == descr && st.value.atoms == d
  {
    var pre := [NatToString(|d|), descr];
    var lines := pre + AtomLines(d, fmt);
    CountLinePrinted(|d|);
    PrintedAtomLines(pre, d, fmt, num);
    assert lines[0] == NatToString(|d|) && lines[1] == descr;
    AtomLinesRead(lines, d, num);
  }

  /**
    The round trip through a file: the text `operator<<` writes for a
    molecule with a one-line description, split into lines as `getline` does,
    reads back as that description and those atoms, in order.
   */
  lemma {:induction false} ReadWritten(descr: string, d: seq<AtomData>, fmt: real -> string, num: NumParse)
    requires forall i :: 0 <= i < |d| ==> Named(d[i].elt)
    requires CoordsReadBack(d, fmt, num) && OneLineFormat(fmt) && |d| < U32 && '\n' !in descr
    ensures var st := Run(Pieces(MoleculeText(descr, d, fmt), '\n'), num);
      st.Ok? && st.value.descr == descr && st.value.atoms == d
  {
    var ls := [NatToString(|d|), descr] + AtomLines(d, fmt);
    MoleculeTextLines(descr, d, fmt);
    LinesJoin(ls);
    SplitJoin(ls + [""], '\n');
    forall i | 0 <= i < |ls| ensures '\n' !in ls[i] {
      assert ls[i] in (ls + [""])[..|ls|];
      assert (ls + [""])[i] == ls[i];
    }
    PiecesOfEndedLines(ls, '\n');
    ReadPrinted(descr, d, fmt, num);
  }
}
