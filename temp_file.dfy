/**
  Temporary file names (temp-file.cpp).

  Every `TempFile` gets the name
  `<dir>/<program>-<name>-pid<pid>-sno<n>.tmp`, where `<name>` falls back to
  "file" when empty and `n` is a process-wide serial number, an `unsigned`
  that is pre-incremented for every name and so wraps modulo 2^32. The
  program name (a compile-time macro) and the process id come from outside
  and are parameters here.
 */
module TempFiles {
  import opened Text

  /** `dirLocation`: where the files are created. */
  const DirLocation: string := "/tmp"
  /** `deftFileName`: the name part used when the caller gives none. */
  const DefaultFileName: string := "file"
  /** The range of C++ `unsigned`. */
  const UintRange: nat := 0x1_0000_0000

  /** The name part that goes into the file name. */
  function NamePart(fileName: string): (r: string)
    ensures |r| > 0
    ensures fileName != "" ==> r == fileName
  {
    if fileName == "" then DefaultFileName else fileName
  }

  /** The text before the serial number. */
  function Stem(program: string, fileName: string, pid: nat): (r: string)
    ensures |r| > 0 && !IsDigit(r[|r| - 1])
  {
    DirLocation + "/" + program + "-" + NamePart(fileName) + "-pid" + NatToString(pid) + "-sno"
  }

  /** The full name for serial number `sno`, as the format string lays it out. */
  function FileName(program: string, fileName: string, pid: nat, sno: nat): string
  {
    Stem(program, fileName, pid) + NatToString(sno) + ".tmp"
  }

  /** Names in `/tmp` that end in ".tmp"; an empty caller name becomes "file". */
  lemma FileNameShape(program: string, fileName: string, pid: nat, sno: nat)
    ensures var f := FileName(program, fileName, pid, sno);
      && f[..5] == "/tmp/"
      && f[|f| - 4..] == ".tmp"
    ensures FileName(program, "", pid, sno) == FileName(program, DefaultFileName, pid, sno)
  {
  }

  /** Names with different serial numbers differ, whatever the program, name and pid. */
  lemma FileNamesDiffer(program1: string, fileName1: string, pid1: nat, sno1: nat,
                        program2: string, fileName2: string, pid2: nat, sno2: nat)
    requires sno1 != sno2
    ensures FileName(program1, fileName1, pid1, sno1) != FileName(program2, fileName2, pid2, sno2)
  {
    if FileName(program1, fileName1, pid1, sno1) == FileName(program2, fileName2, pid2, sno2) {
      NumberedNameInjective(Stem(program1, fileName1, pid1), sno1, Stem(program2, fileName2, pid2), sno2, ".tmp");
    }
  }

  /** The static `sno`: the serial number of the last name handed out. */
  class SerialNumber {
    var sno: nat

    ghost predicate Valid()
      reads this
    {
      sno < UintRange
    }

    /** Zero at program start. */
    constructor ()
      ensures Valid() && sno == 0
    {
      sno := 0;
    }

    /** `TempFile::genName`: `++sno`, then the name holding the new value. */
    method GenName(program: string, fileName: string, pid: nat) returns (name: string)
      requires Valid()
      modifies this
      ensures Valid()
      ensures sno == (old(sno) + 1) % UintRange
      ensures name == FileName(program, fileName, pid, sno)
    {
      sno := (sno + 1) % UintRange;
      name := FileName(program, fileName, pid, sno);
    }

    /**
      A run of `count` names from one counter: they are pairwise distinct as
      long as the counter does not come round again, i.e. for at most 2^32
      names.
     */
    method GenNames(program: string, fileNames: seq<string>, pid: nat) returns (names: seq<string>)
      requires Valid() && |fileNames| <= UintRange
      modifies this
      ensures Valid() && |names| == |fileNames|
      ensures forall j :: 0 <= j < |names| ==> names[j] == FileName(program, fileNames[j], pid, (old(sno) + j + 1) % UintRange)
      ensures Distinct(names)
    {
      names := [];
      ghost var s0 := sno;
      for i := 0 to |fileNames|
        invariant Valid() && sno == (s0 + i) % UintRange
        invariant |names| == i
        invariant forall j :: 0 <= j < i ==> names[j] == FileName(program, fileNames[j], pid, (s0 + j + 1) % UintRange)
        invariant Distinct(names)
      {
        var name := GenName(program, fileNames[i], pid);
        NextSerial(s0 + i);
        assert sno == (s0 + i + 1) % UintRange;
        FreshName(program, fileNames, pid, s0, names, name);
        DistinctSnoc(names, name);
        names := names + [name];
      }
    }
  }

  /** Counting on from a wrapped value is counting on and then wrapping. */
  lemma NextSerial(x: nat)
    ensures (x % UintRange + 1) % UintRange == (x + 1) % UintRange
  {
    var q, r := x / UintRange, x % UintRange;
    assert x + 1 == q * UintRange + (r + 1);
    if r + 1 < UintRange {
      assert (x + 1) % UintRange == r + 1;
    } else {
      assert x + 1 == (q + 1) * UintRange;
      assert (x + 1) % UintRange == 0;
    }
  }

  /** The next name of a run differs from all the earlier ones. */
  lemma FreshName(program: string, fileNames: seq<string>, pid: nat, s0: nat, names: seq<string>, name: string)
    requires |names| < |fileNames| <= UintRange
    requires forall j :: 0 <= j < |names| ==> names[j] == FileName(program, fileNames[j], pid, (s0 + j + 1) % UintRange)
    requires name == FileName(program, fileNames[|names|], pid, (s0 + |names| + 1) % UintRange)
    ensures name !in names
  {
    var i := |names|;
    forall j | 0 <= j < i
      ensures names[j] != name
    {
      SerialsDiffer(s0, j + 1, i + 1);
      FileNamesDiffer(program, fileNames[j], pid, (s0 + j + 1) % UintRange, program, fileNames[i], pid, (s0 + i + 1) % UintRange);
    }
  }

  /** Within one turn of the counter the serial numbers are distinct. */
  lemma SerialsDiffer(s0: nat, a: nat, b: nat)
    requires 0 < a < b <= UintRange
    ensures (s0 + a) % UintRange != (s0 + b) % UintRange
  {
    var r := (s0 + a) % UintRange;
    var q := (s0 + a) / UintRange;
    assert s0 + a == q * UintRange + r;
    var d := b - a;
    assert 0 < d < UintRange;
    if r + d < UintRange {
      assert s0 + b == q * UintRange + (r + d);
      assert (s0 + b) % UintRange == r + d;
    } else {
      assert s0 + b == (q + 1) * UintRange + (r + d - UintRange);
      assert (s0 + b) % UintRange == r + d - UintRange;
    }
  }

  /** `TempFile`: an object holding the generated full path. */
  class TempFile {
    const fullPath: string

    /** `TempFile(fileName)`: takes the next name from the counter. */
    constructor (counter: SerialNumber, program: string, fileName: string, pid: nat)
      requires counter.Valid()
      modifies counter
      ensures counter.Valid() && counter.sno == (old(counter.sno) + 1) % UintRange
      ensures fullPath == FileName(program, fileName, pid, counter.sno)
    {
      var name := counter.GenName(program, fileName, pid);
      fullPath := name;
    }

    /** `getFname`. */
    function GetFname(): (r: string)
      ensures r == fullPath
    {
      fullPath
    }
  }
}
