/**
  Molecules as atom lists with per-atom bond lists.

  An atom is an identifier (`AtomId`) into the molecule's tables of elements,
  positions and bond lists; the atom list is a sequence of identifiers, and a
  bond list is a sequence of the identifiers of the atoms it points to, as the
  `std::vector<Atom*>` members hold pointers. The distance test behind bond
  detection uses floating point; it is the function-valued parameter
  `isBond`, and positions are kept only to be handed to it.
 */
module Molecules {
  import opened Wrappers
  import opened Text

  // ---------------------------------------------------------------------------
  // Elements
  // ---------------------------------------------------------------------------

  /** The `Element` enumeration: H = 1 up to Kr = 36. */
  newtype Element = e: int | 1 <= e <= 36 witness 1

  const C: Element := 6

  /** The element names the program knows, for H = 1 up to Ar = 18. */
  const EltNames: seq<string> := [
    "H", "He",
    "Li", "Be", "B", "C", "N", "O", "F", "Ne",
    "Na", "Mg", "Al", "Si", "P", "S", "Cl", "Ar"
  ]

  /** The enumerators the table has no name for, K = 19 up to Kr = 36. */
  const FourthPeriodNames: seq<string> := [
    "K", "Ca", "Sc", "Ti", "V", "Cr", "Mn", "Fe", "Co",
    "Ni", "Cu", "Zn", "Ga", "Ge", "As", "Se", "Br", "Kr"
  ]

  /** The names of all the enumerators, H = 1 up to Kr = 36. */
  const ElementNames: seq<string> := EltNames + FourthPeriodNames

  /** An element that has a name in the program's table: one it can print and read back. */
  predicate Named(e: Element)
  {
    e as int <= |EltNames|
  }

  lemma EltNamesDistinct()
    ensures Distinct(EltNames)
  {
  }

  /** `elementFromString`: the element of a name in the table, else the "Not an element name" error. */
  function ElementFromString(s: string): (r: Result<Element, string>)
    ensures r.Ok? <==> s in EltNames
    ensures r.Ok? ==> Named(r.value) && EltNames[r.value as int - 1] == s
    ensures r.Err? ==> r.error == "Not an element name: " + s
  {
    var k := FindFrom(EltNames, 0, s);
    if k == -1 then Err("Not an element name: " + s) else Ok((k + 1) as Element)
  }

  /**
    `MapEltName`: the constructor's loop numbers the names from H onwards; the
    map answers every name as `elementFromString` does.
   */
  method BuildEltMap() returns (m: map<string, Element>)
    ensures forall s :: s in m <==> s in EltNames
    ensures forall s :: s in m ==> ElementFromString(s) == Ok(m[s])
  {
    EltNamesDistinct();
    m := map[];
    var e := 1;
    for i := 0 to |EltNames|
      invariant e == i + 1
      invariant forall s :: s in m <==> s in EltNames[..i]
      invariant forall j :: 0 <= j < i ==> m[EltNames[j]] == (j + 1) as Element
    {
      m := m[EltNames[i] := e as Element];
      e := e + 1;
    }
    assert EltNames[..|EltNames|] == EltNames;
    forall s | s in m ensures ElementFromString(s) == Ok(m[s]) {
      var j :| 0 <= j < |EltNames| && EltNames[j] == s;
      NameLookup(j);
    }
  }

  /** The i-th name reads as element i + 1: no name occurs twice in the table. */
  lemma NameLookup(i: nat)
    requires i < |EltNames|
    ensures ElementFromString(EltNames[i]) == Ok((i + 1) as Element)
  {
    EltNamesDistinct();
    var r := ElementFromString(EltNames[i]);
    assert EltNames[i] in EltNames;
    var k := r.value as int - 1;
    assert EltNames[k] == EltNames[i];
  }

  /**
    `os << eltNames[e-1]` as written: the table holds 18 names, so for K = 19
    up to Kr = 36 the index lies past its end and nothing defined is printed
    (`None`). Where a name is printed it reads back as the element.
   */
  function EltNameAsWritten(e: Element): (r: Option<string>)
    ensures r.Some? <==> Named(e)
    ensures r.Some? ==> ElementFromString(r.value) == Ok(e)
  {
    if Named(e) then
      NameLookup(e as int - 1);
      Some(EltNames[e as int - 1])
    else None
  }

  /** Potassium, a value of the enumeration, lies past the table: `eltNames[18]` is read beyond its 18 entries. */
  lemma PotassiumPastTable()
    ensures |EltNames| == 18 && EltNameAsWritten(19).None?
    ensures EltName(19) == "K"
  {
  }

  /**
    Printing an element, as evidently intended: the name of its enumerator,
    the same as the program's table wherever that has one.
   */
  function EltName(e: Element): (s: string)
    ensures s in ElementNames
    ensures Named(e) ==> EltNameAsWritten(e) == Some(s)
  {
    ElementNames[e as int - 1]
  }

  /** No two enumerators print the same name. */
  lemma ElementNamesDistinct()
    ensures Distinct(ElementNames)
  {
    EltNamesDistinct();
    FourthPeriodDistinct();
    NewNamesNotInTable();
  }

  lemma FourthPeriodDistinct()
    ensures Distinct(FourthPeriodNames)
  {
  }

  lemma NewNamesNotInTable()
    ensures forall i, j :: 0 <= i < |EltNames| && 0 <= j < |FourthPeriodNames| ==> EltNames[i] != FourthPeriodNames[j]
  {
  }

  /** Printing is one-to-one on the whole enumeration. */
  lemma EltNameInjective(e: Element, f: Element)
    requires EltName(e) == EltName(f)
    ensures e == f
  {
    ElementNamesDistinct();
  }

  /** Reading back a printed element gives the element. */
  lemma ElementRoundTrip(e: Element)
    requires Named(e)
    ensures ElementFromString(EltName(e)) == Ok(e)
  {
    NameLookup(e as int - 1);
  }

  /**
    `is >> e`: reads one whitespace-delimited token (nothing, when only
    white space is left) and looks it up.
   */
  function ReadElement(input: string): Result<Element, string>
  {
    var toks := Tokens(input);
    ElementFromString(if toks == [] then "" else toks[0])
  }

  /**
    A printed element, after any white space and before white space or the
    end, reads back as that element; input with no token is an error.
   */
  lemma {:induction false} ReadElementPrinted(ws: string, e: Element, rest: string)
    requires Named(e)
    requires forall i :: 0 <= i < |ws| ==> IsCSpace(ws[i])
    requires rest == [] || IsCSpace(rest[0])
    ensures ReadElement(ws + EltName(e) + rest) == Ok(e)
    ensures ReadElement(ws) == Err("Not an element name: ")
  {
    NoSpaceInNames(e);
    FirstToken(ws, EltName(e), rest);
    ElementRoundTrip(e);
    OnlySpaceNoTokens(ws);
    EmptyName();
  }

  /** The empty string is no element name. */
  lemma EmptyName()
    ensures ElementFromString("") == Err("Not an element name: ")
  {
    if "" in EltNames {
      var j :| 0 <= j < |EltNames| && EltNames[j] == "";
      NoSpaceInNames((j + 1) as Element);
    }
    assert "Not an element name: " + "" == "Not an element name: ";
  }

  lemma NoSpaceInNames(e: Element)
    ensures EltName(e) != [] && forall j :: 0 <= j < |EltName(e)| ==> !IsCSpace(EltName(e)[j])
  {
    if Named(e) {
      NoSpaceInTable(e as int - 1);
    } else {
      NoSpaceInFourthPeriod(e as int - 1 - |EltNames|);
    }
  }

  lemma NoSpaceInTable(i: nat)
    requires i < |EltNames|
    ensures EltNames[i] != [] && forall j :: 0 <= j < |EltNames[i]| ==> !IsCSpace(EltNames[i][j])
  {
  }

  lemma NoSpaceInFourthPeriod(i: nat)
    requires i < |FourthPeriodNames|
    ensures FourthPeriodNames[i] != [] && forall j :: 0 <= j < |FourthPeriodNames[i]| ==> !IsCSpace(FourthPeriodNames[i][j])
  {
  }

  lemma {:induction false} OnlySpaceNoTokens(ws: string)
    requires forall i :: 0 <= i < |ws| ==> IsCSpace(ws[i])
    ensures Tokens(ws) == []
    decreases |ws|
  {
    if ws != [] {
      OnlySpaceNoTokens(ws[1..]);
    }
  }

  /** The first token of white space, a word and text starting at a separator is the word. */
  lemma {:induction false} FirstToken(ws: string, w: string, rest: string)
    requires forall i :: 0 <= i < |ws| ==> IsCSpace(ws[i])
    requires w != [] && forall j :: 0 <= j < |w| ==> !IsCSpace(w[j])
    requires rest == [] || IsCSpace(rest[0])
    ensures Tokens(ws + w + rest) != [] && Tokens(ws + w + rest)[0] == w
    decreases |ws|
  {
    var s := ws + w + rest;
    if ws != [] {
      assert s[1..] == ws[1..] + w + rest;
      FirstToken(ws[1..], w, rest);
    } else {
      assert s == w + rest;
      WordOf(w, rest);
    }
  }

  lemma {:induction false} WordOf(w: string, rest: string)
    requires forall j :: 0 <= j < |w| ==> !IsCSpace(w[j])
    requires rest == [] || IsCSpace(rest[0])
    ensures Word(w + rest) == w
    decreases |w|
  {
    if w != [] {
      assert (w + rest)[1..] == w[1..] + rest;
      WordOf(w[1..], rest);
    }
  }

  // ---------------------------------------------------------------------------
  // Atoms and the bond graph
  // ---------------------------------------------------------------------------

  /** A position in space; coordinates are kept as exact numbers. */
  datatype Vec3 = Vec3(x: real, y: real, z: real)

  /** What an atom carries besides its bonds. */
  datatype AtomData = AtomData(elt: Element, pos: Vec3)

  type AtomId = nat

  /** The distance test `a1.isBond(a2)`, given the first atom's and the second atom's data. */
  type BondTest = (AtomData, AtomData) -> bool

  /** The two `filterBonds1` errors, naming the atom's element and the element looked for. */
  datatype BondError = DuplicateBond(from: Element, to: Element) | NoBond(from: Element, to: Element)

  /** How often `y` is on `x`'s bond list (none when `x` has no list). */
  ghost function BondCount(b: map<AtomId, seq<AtomId>>, x: AtomId, y: AtomId): nat
  {
    if x in b then multiset(b[x])[y] else 0
  }

  /**
    Bond lists that only point at atoms of the table, where `x` lists `y`
    exactly as often as `y` lists `x`, and an atom lists itself an even
    number of times (a link of an atom to itself enters it twice).
   */
  ghost predicate Symmetric(b: map<AtomId, seq<AtomId>>)
  {
    Closed(b) && CountsAgree(b) && SelfEven(b)
  }

  ghost predicate Closed(b: map<AtomId, seq<AtomId>>)
  {
    forall x, y :: BondCount(b, x, y) > 0 ==> y in b
  }

  ghost predicate CountsAgree(b: map<AtomId, seq<AtomId>>)
  {
    forall x, y :: BondCount(b, x, y) == BondCount(b, y, x)
  }

  ghost predicate SelfEven(b: map<AtomId, seq<AtomId>>)
  {
    forall x :: BondCount(b, x, x) % 2 == 0
  }

  /** An entry on a bond list is counted. */
  lemma Listed(b: map<AtomId, seq<AtomId>>, x: AtomId, y: AtomId)
    requires x in b
    ensures y in b[x] <==> BondCount(b, x, y) > 0
  {
    assert y in b[x] <==> y in multiset(b[x]);
  }

  /** `link(a, b)` on bond lists: `b` goes at the end of `a`'s list, then `a` at the end of `b`'s. */
  function Linked(b: map<AtomId, seq<AtomId>>, x: AtomId, y: AtomId): (r: map<AtomId, seq<AtomId>>)
    requires x in b && y in b
    ensures r.Keys == b.Keys
  {
    var b1 := b[x := b[x] + [y]];
    b1[y := b1[y] + [x]]
  }

  /** `unlink(a, b)` on bond lists: the first `b` leaves `a`'s list, then the first `a` leaves `b`'s. */
  function Unlinked(b: map<AtomId, seq<AtomId>>, x: AtomId, y: AtomId): (r: map<AtomId, seq<AtomId>>)
    requires x in b && y in b
    ensures r.Keys == b.Keys
  {
    var b1 := b[x := RemoveFirst(b[x], y)];
    b1[y := RemoveFirst(b1[y], x)]
  }

  /** Linking two atoms keeps the bond lists symmetric. */
  lemma LinkSymmetric(b: map<AtomId, seq<AtomId>>, x: AtomId, y: AtomId)
    requires Symmetric(b) && x in b && y in b
    ensures Symmetric(Linked(b, x, y))
  {
    var r := Linked(b, x, y);
    forall u, v ensures BondCount(r, u, v) > 0 ==> v in r {
      LinkedCount(b, x, y, u, v);
    }
    forall u, v ensures BondCount(r, u, v) == BondCount(r, v, u) {
      LinkedCount(b, x, y, u, v);
      LinkedCount(b, x, y, v, u);
    }
    forall u ensures BondCount(r, u, u) % 2 == 0 {
      LinkedCount(b, x, y, u, u);
      var c := BondCount(b, u, u);
      assert c % 2 == 0;
    }
  }

  /** How often `v` is on `u`'s list after `link(x, y)`: once more for each end of the new bond. */
  lemma LinkedCount(b: map<AtomId, seq<AtomId>>, x: AtomId, y: AtomId, u: AtomId, v: AtomId)
    requires x in b && y in b
    ensures BondCount(Linked(b, x, y), u, v)
      == BondCount(b, u, v) + (if u == x && v == y then 1 else 0) + (if u == y && v == x then 1 else 0)
  {
    var r := Linked(b, x, y);
    if u !in b {
    } else if x == y && u == x {
      assert r[u] == b[u] + [x] + [x];
    } else if u == x {
      assert r[u] == b[u] + [y];
    } else if u == y {
      assert r[u] == b[u] + [x];
    } else {
      assert r[u] == b[u];
    }
  }

  /**
    In symmetric bond lists, unlinking `x` from a `y` on its list finds `x`
    on `y`'s list for the second removal, and the lists stay symmetric.
   */
  lemma UnlinkSymmetric(b: map<AtomId, seq<AtomId>>, x: AtomId, y: AtomId)
    requires Symmetric(b) && x in b && y in b[x]
    ensures y in b && x in (if x == y then RemoveFirst(b[x], y) else b[y])
    ensures Symmetric(Unlinked(b, x, y))
  {
    Listed(b, x, y);
    assert BondCount(b, y, x) == BondCount(b, x, y) >= 1;
    if x == y {
      assert BondCount(b, x, x) % 2 == 0;
      RemoveFirstMultiset(b[x], x);
      assert x in multiset(RemoveFirst(b[x], x));
    } else {
      Listed(b, y, x);
    }
    var r := Unlinked(b, x, y);
    forall u, v ensures BondCount(r, u, v) > 0 ==> v in r {
      UnlinkedCount(b, x, y, u, v);
    }
    forall u, v ensures BondCount(r, u, v) == BondCount(r, v, u) {
      UnlinkedCount(b, x, y, u, v);
      UnlinkedCount(b, x, y, v, u);
    }
    forall u ensures BondCount(r, u, u) % 2 == 0 {
      UnlinkedCount(b, x, y, u, u);
      var c := BondCount(b, u, u);
      assert c % 2 == 0;
    }
  }

  /** How often `v` is on `u`'s list after `unlink(x, y)`: once less for each end of the removed bond. */
  lemma UnlinkedCount(b: map<AtomId, seq<AtomId>>, x: AtomId, y: AtomId, u: AtomId, v: AtomId)
    requires x in b && y in b
    requires BondCount(b, x, y) >= 1 && BondCount(b, y, x) >= (if x == y then 2 else 1)
    ensures BondCount(Unlinked(b, x, y), u, v)
      == BondCount(b, u, v) - (if u == x && v == y then 1 else 0) - (if u == y && v == x then 1 else 0)
  {
    var b1 := b[x := RemoveFirst(b[x], y)];
    var r := Unlinked(b, x, y);
    RemoveFirstMultiset(b[x], y);
    RemoveFirstMultiset(b1[y], x);
    if u !in b {
    } else if x == y && u == x {
      assert r[u] == RemoveFirst(RemoveFirst(b[x], x), x);
    } else if u == x {
      assert r[u] == RemoveFirst(b[x], y);
    } else if u == y {
      assert r[u] == RemoveFirst(b[y], x);
    } else {
      assert r[u] == b[u];
    }
  }

  /** A new atom without bonds leaves the bond lists symmetric. */
  lemma AddIsolatedSymmetric(b: map<AtomId, seq<AtomId>>, id: AtomId)
    requires Symmetric(b) && id !in b
    ensures Symmetric(b[id := []])
  {
    var r := b[id := []];
    assert BondCount(r, id, id) == 0;
    forall u, v ensures BondCount(r, u, v) == (if u == id then 0 else BondCount(b, u, v)) {
    }
    forall u ensures BondCount(b, u, id) == 0 {
    }
  }

  /** An atom without bonds, that no list points at, can leave the table. */
  lemma DropIsolatedSymmetric(b: map<AtomId, seq<AtomId>>, id: AtomId)
    requires Symmetric(b) && id in b && b[id] == []
    ensures forall u :: u in b ==> id !in b[u]
    ensures Symmetric(b - {id})
  {
    forall u | u in b ensures id !in b[u] {
      Listed(b, u, id);
      assert BondCount(b, u, id) == BondCount(b, id, u) == 0;
    }
    var r := b - {id};
    forall u, v ensures BondCount(r, u, v) == (if u == id then 0 else BondCount(b, u, v)) {
    }
    forall u ensures BondCount(b, u, id) == 0 {
      assert BondCount(b, u, id) == BondCount(b, id, u);
    }
  }

  // ---------------------------------------------------------------------------
  // Molecules
  // ---------------------------------------------------------------------------

  /**
    Unlinking `x` from a `y` on its list shortens `x`'s list and leaves the
    other lists the same once their entries for `x` are ignored.
   */
  lemma UnlinkKeepsOthers(b: map<AtomId, seq<AtomId>>, x: AtomId, y: AtomId)
    requires Symmetric(b) && x in b && y in b[x]
    ensures y in b && |Unlinked(b, x, y)[x]| < |b[x]|
    ensures forall u :: u in b && u != x ==> RemoveAll(Unlinked(b, x, y)[u], x) == RemoveAll(b[u], x)
  {
    UnlinkSymmetric(b, x, y);
    UnlinkShortens(b, x, y);
    var r := Unlinked(b, x, y);
    forall u | u in b && u != x ensures RemoveAll(r[u], x) == RemoveAll(b[u], x) {
      if u == y {
        assert r[u] == RemoveFirst(b[y], x);
        RemoveAllFirst(b[y], x);
      } else {
        assert r[u] == b[u];
      }
    }
  }

  lemma UnlinkShortens(b: map<AtomId, seq<AtomId>>, x: AtomId, y: AtomId)
    requires x in b && y in b && y in b[x]
    ensures |Unlinked(b, x, y)[x]| < |b[x]|
  {
    RemoveFirstMultiset(b[x], y);
    var s1 := RemoveFirst(b[x], y);
    assert |multiset(s1)| < |multiset(b[x])|;
    if x == y {
      RemoveFirstMultiset(s1, x);
      assert Unlinked(b, x, y)[x] == RemoveFirst(s1, x);
      assert |multiset(RemoveFirst(s1, x))| <= |multiset(s1)|;
    } else {
      assert Unlinked(b, x, y)[x] == s1;
    }
  }

  /**
    Once `x` has no bonds left, no list names it, so lists that agree with
    earlier ones up to their entries for `x` are those earlier lists without `x`.
   */
  lemma IsolatedLists(b: map<AtomId, seq<AtomId>>, b0: map<AtomId, seq<AtomId>>, x: AtomId)
    requires Symmetric(b) && x in b && b[x] == [] && b.Keys == b0.Keys
    requires forall u :: u in b && u != x ==> RemoveAll(b[u], x) == RemoveAll(b0[u], x)
    ensures forall u :: u in b && u != x ==> b[u] == RemoveAll(b0[u], x)
  {
    DropIsolatedSymmetric(b, x);
    forall u | u in b && u != x ensures b[u] == RemoveAll(b0[u], x) {
      RemoveAllAbsent(b[u], x);
    }
  }

  /**
    The tables of a molecule agree with its atom list: the list has no
    repeats, exactly its atoms have an element, a position and a bond list,
    `next` is above every identifier in use, and the bond lists are symmetric.
   */
  ghost predicate Consistent(atoms: seq<AtomId>, elt: map<AtomId, Element>, pos: map<AtomId, Vec3>,
                             bonds: map<AtomId, seq<AtomId>>, next: AtomId)
  {
    && Distinct(atoms)
    && bonds.Keys == (set x | x in atoms)
    && elt.Keys == bonds.Keys && pos.Keys == bonds.Keys
    && (forall i :: 0 <= i < |atoms| ==> atoms[i] < next)
    && Symmetric(bonds)
  }

  lemma ConsistentAdd(atoms: seq<AtomId>, elt: map<AtomId, Element>, pos: map<AtomId, Vec3>,
                      bonds: map<AtomId, seq<AtomId>>, next: AtomId, a: AtomData)
    requires Consistent(atoms, elt, pos, bonds, next)
    ensures next !in bonds
    ensures Consistent(atoms + [next], elt[next := a.elt], pos[next := a.pos], bonds[next := []], next + 1)
  {
    AddIsolatedSymmetric(bonds, next);
    assert next !in atoms;
    DistinctSnoc(atoms, next);
  }

  /** An atom without bonds leaves the list, and its entries leave the tables. */
  lemma ConsistentRemove(atoms: seq<AtomId>, elt: map<AtomId, Element>, pos: map<AtomId, Vec3>,
                         bonds: map<AtomId, seq<AtomId>>, next: AtomId, i: nat)
    requires Consistent(atoms, elt, pos, bonds, next)
    requires i < |atoms| && bonds[atoms[i]] == []
    ensures atoms[i] !in atoms[..i] + atoms[i + 1..]
    ensures Consistent(atoms[..i] + atoms[i + 1..], elt - {atoms[i]}, pos - {atoms[i]}, bonds - {atoms[i]}, next)
  {
    var a := atoms[i];
    var rest := atoms[..i] + atoms[i + 1..];
    DropIsolatedSymmetric(bonds, a);
    DistinctCut(atoms, i);
    forall x ensures x in rest <==> x in atoms && x != a {
      if x in atoms && x != a {
        var j :| 0 <= j < |atoms| && atoms[j] == x;
        if j < i { assert rest[j] == x; } else { assert rest[j - 1] == x; }
      }
    }
  }

  /** Every entry of `x`'s bond list has a list of its own. */
  lemma Neighbours(b: map<AtomId, seq<AtomId>>, x: AtomId)
    requires Closed(b) && x in b
    ensures forall k :: 0 <= k < |b[x]| ==> b[x][k] in b
  {
    forall k | 0 <= k < |b[x]| ensures b[x][k] in b {
      Listed(b, x, b[x][k]);
    }
  }

  /** A molecule without atoms is consistent. */
  lemma ConsistentEmpty()
    ensures Consistent([], map[], map[], map[], 0)
  {
    EmptySymmetric(map[]);
  }

  /** A table whose bond lists are all empty is symmetric. */
  lemma EmptySymmetric(b: map<AtomId, seq<AtomId>>)
    requires forall x :: x in b ==> b[x] == []
    ensures Symmetric(b)
  {
    forall x, y ensures BondCount(b, x, y) == 0 {
    }
  }

  // ---------------------------------------------------------------------------
  // Queries by element
  // ---------------------------------------------------------------------------

  /** Whether atom `y` has an element, and it is one of `s`. */
  predicate HasElt(elt: map<AtomId, Element>, y: AtomId, s: set<Element>)
  {
    y in elt && elt[y] in s
  }

  /** The atoms of `ids` whose element is `e`, in order. */
  function Matching(ids: seq<AtomId>, elt: map<AtomId, Element>, e: Element): seq<AtomId>
  {
    if ids == [] then []
    else Matching(ids[..|ids| - 1], elt, e) + (if HasElt(elt, ids[|ids| - 1], {e}) then [ids[|ids| - 1]] else [])
  }

  /** How many atoms of `ids` have an element of `s`. */
  function CountIn(ids: seq<AtomId>, elt: map<AtomId, Element>, s: set<Element>): nat
  {
    if ids == [] then 0
    else CountIn(ids[..|ids| - 1], elt, s) + (if HasElt(elt, ids[|ids| - 1], s) then 1 else 0)
  }

  /** How many atoms of `ids` have no element of `s`. */
  function CountOut(ids: seq<AtomId>, elt: map<AtomId, Element>, s: set<Element>): nat
  {
    if ids == [] then 0
    else CountOut(ids[..|ids| - 1], elt, s) + (if HasElt(elt, ids[|ids| - 1], s) then 0 else 1)
  }

  /** Filtering a concatenation filters the parts. */
  lemma {:induction false} MatchingAppend(a: seq<AtomId>, c: seq<AtomId>, elt: map<AtomId, Element>, e: Element)
    ensures Matching(a + c, elt, e) == Matching(a, elt, e) + Matching(c, elt, e)
    decreases |c|
  {
    if c != [] {
      var c1 := c[..|c| - 1];
      assert (a + c)[..|a + c| - 1] == a + c1;
      MatchingAppend(a, c1, elt, e);
    } else {
      assert a + c == a;
    }
  }

  /** An atom is matched exactly when it is listed and has the element. */
  lemma {:induction false} MatchingMembers(ids: seq<AtomId>, elt: map<AtomId, Element>, e: Element, y: AtomId)
    ensures y in Matching(ids, elt, e) <==> y in ids && y in elt && elt[y] == e
  {
    if ids != [] {
      var init := ids[..|ids| - 1];
      MatchingMembers(init, elt, e, y);
      assert ids == init + [ids[|ids| - 1]];
    }
  }

  /** Matching keeps order: it picks out the matching places of `ids`. */
  lemma {:induction false} MatchingPlaces(ids: seq<AtomId>, elt: map<AtomId, Element>, e: Element, i: nat)
    requires i < |ids| && HasElt(elt, ids[i], {e})
    ensures Matching(ids, elt, e) == Matching(ids[..i], elt, e) + [ids[i]] + Matching(ids[i + 1..], elt, e)
  {
    assert ids == ids[..i] + [ids[i]] + ids[i + 1..];
    MatchingAppend(ids[..i] + [ids[i]], ids[i + 1..], elt, e);
    MatchingAppend(ids[..i], [ids[i]], elt, e);
    assert Matching([ids[i]], elt, e) == Matching([], elt, e) + [ids[i]] by {
      assert [ids[i]][..0] == [];
    }
  }

  /**
    The scan of `filterBonds1` and `findOnlyC` over a bond list: it stops at
    the second atom with element `e`; otherwise it ends with the only one,
    or with none.
   */
  method ScanOne(bs: seq<AtomId>, elt: map<AtomId, Element>, e: Element) returns (found: Option<AtomId>, twice: bool)
    requires forall k :: 0 <= k < |bs| ==> bs[k] in elt
    ensures var m := Matching(bs, elt, e);
      && (twice <==> |m| >= 2)
      && (!twice ==> found == (if m == [] then None else Some(m[0])))
  {
    found, twice := None, false;
    for i := 0 to |bs|
      invariant var m := Matching(bs[..i], elt, e); |m| <= 1 && found == (if m == [] then None else Some(m[0]))
    {
      assert bs[..i + 1][..i] == bs[..i];
      if elt[bs[i]] == e {
        if found.Some? {
          MatchingAppend(bs[..i + 1], bs[i + 1..], elt, e);
          assert bs[..i + 1] + bs[i + 1..] == bs;
          return found, true;
        }
        found := Some(bs[i]);
      }
    }
    assert bs[..|bs|] == bs;
  }

  /** The scan of `findFirstBond`: the first atom of `bs` with element `e`, which must be there. */
  method ScanFirst(bs: seq<AtomId>, elt: map<AtomId, Element>, e: Element) returns (y: AtomId)
    requires forall k :: 0 <= k < |bs| ==> bs[k] in elt
    requires exists z :: z in bs && HasElt(elt, z, {e})
    ensures y in bs && HasElt(elt, y, {e})
    ensures var m := Matching(bs, elt, e); |m| > 0 && y == m[0]
  {
    ghost var z :| z in bs && HasElt(elt, z, {e});
    ghost var kz :| 0 <= kz < |bs| && bs[kz] == z;
    var i := 0;
    while elt[bs[i]] != e
      invariant 0 <= i <= kz && Matching(bs[..i], elt, e) == []
      decreases kz - i
    {
      assert bs[..i + 1][..i] == bs[..i];
      i := i + 1;
    }
    MatchingPlaces(bs, elt, e, i);
    y := bs[i];
  }

  /** Going backwards: the place `i` does not match either, so nothing from `i` on matches. */
  lemma NoMatchFrom(ids: seq<AtomId>, elt: map<AtomId, Element>, e: Element, i: nat)
    requires i < |ids| && Matching(ids[i + 1..], elt, e) == [] && !HasElt(elt, ids[i], {e})
    ensures Matching(ids[i..], elt, e) == []
  {
    assert ids[i..] == [ids[i]] + ids[i + 1..];
    MatchingAppend([ids[i]], ids[i + 1..], elt, e);
  }

  /** Going backwards: when nothing after place `i` matches and `i` does, `i` holds the last match. */
  lemma LastMatch(ids: seq<AtomId>, elt: map<AtomId, Element>, e: Element, i: nat)
    requires i < |ids| && Matching(ids[i + 1..], elt, e) == [] && HasElt(elt, ids[i], {e})
    ensures var m := Matching(ids, elt, e); m != [] && m[|m| - 1] == ids[i]
  {
    MatchingPlaces(ids, elt, e, i);
  }

  /** Counting one element counts the matches. */
  lemma {:induction false} CountMatching(ids: seq<AtomId>, elt: map<AtomId, Element>, e: Element)
    ensures CountIn(ids, elt, {e}) == |Matching(ids, elt, e)|
  {
    if ids != [] {
      CountMatching(ids[..|ids| - 1], elt, e);
    }
  }

  /** No atom falls outside `s` exactly when every atom has an element of `s`. */
  lemma {:induction false} CountOutZero(ids: seq<AtomId>, elt: map<AtomId, Element>, s: set<Element>)
    ensures CountOut(ids, elt, s) == 0 <==> forall y :: y in ids ==> HasElt(elt, y, s)
  {
    if ids != [] {
      var init := ids[..|ids| - 1];
      CountOutZero(init, elt, s);
      assert ids == init + [ids[|ids| - 1]];
    }
  }

  /** Nothing is counted for no elements. */
  lemma {:induction false} CountNone(ids: seq<AtomId>, elt: map<AtomId, Element>)
    ensures CountIn(ids, elt, {}) == 0
  {
    if ids != [] {
      CountNone(ids[..|ids| - 1], elt);
    }
  }

  /** The two counts split the list. */
  lemma {:induction false} CountSplit(ids: seq<AtomId>, elt: map<AtomId, Element>, s: set<Element>, s2: set<Element>)
    ensures CountIn(ids, elt, s + s2) == CountIn(ids, elt, s) + CountIn(ids, elt, s2 - s)
    ensures CountOut(ids, elt, s) == CountIn(ids, elt, s2 - s) + CountOut(ids, elt, s + s2)
  {
    if ids != [] {
      CountSplit(ids[..|ids| - 1], elt, s, s2);
    }
  }

  // ---------------------------------------------------------------------------
  // Bond detection
  // ---------------------------------------------------------------------------

  /**
    Whether `detectBonds` bonds the atoms at places `j` and `k`: the pair is
    tested once, with the earlier atom first, and never with itself.
   */
  predicate Bonded(d: seq<AtomData>, isBond: BondTest, j: nat, k: nat)
    requires j < |d| && k < |d|
  {
    if j < k then isBond(d[j], d[k]) else if k < j then isBond(d[k], d[j]) else false
  }

  /** The atoms among the first `n` places that are bonded with the one at place `k`, in list order. */
  function Partners(ids: seq<AtomId>, d: seq<AtomData>, isBond: BondTest, k: nat, n: nat): seq<AtomId>
    requires |d| == |ids| && k < |ids| && n <= |ids|
  {
    if n == 0 then []
    else Partners(ids, d, isBond, k, n - 1) + (if Bonded(d, isBond, n - 1, k) then [ids[n - 1]] else [])
  }

  /** An atom is a partner exactly when its place comes before `n` and the test bonds the pair. */
  lemma {:induction false} PartnersMembers(ids: seq<AtomId>, d: seq<AtomData>, isBond: BondTest, k: nat, n: nat, j: nat)
    requires |d| == |ids| && k < |ids| && n <= |ids| && j < |ids| && Distinct(ids)
    ensures ids[j] in Partners(ids, d, isBond, k, n) <==> j < n && Bonded(d, isBond, j, k)
  {
    if n > 0 {
      PartnersMembers(ids, d, isBond, k, n - 1, j);
    }
  }

  /** No atom is listed twice: each pair is linked at most once. */
  lemma {:induction false} PartnersDistinct(ids: seq<AtomId>, d: seq<AtomData>, isBond: BondTest, k: nat, n: nat)
    requires |d| == |ids| && k < |ids| && n <= |ids| && Distinct(ids)
    ensures Distinct(Partners(ids, d, isBond, k, n))
  {
    if n > 0 {
      PartnersDistinct(ids, d, isBond, k, n - 1);
      var p := Partners(ids, d, isBond, k, n - 1);
      if Bonded(d, isBond, n - 1, k) {
        assert ids[n - 1] !in p by {
          if ids[n - 1] in p {
            PartnersMembers(ids, d, isBond, k, n - 1, n - 1);
          }
        }
        DistinctSnoc(p, ids[n - 1]);
      }
    }
  }

  /**
    The bond lists `detectBonds` builds: no atom lists itself, no atom lists
    another twice, and `x` lists `y` exactly when `y` lists `x`.
   */
  lemma DetectedBonds(ids: seq<AtomId>, d: seq<AtomData>, isBond: BondTest, j: nat, k: nat)
    requires |d| == |ids| && j < |ids| && k < |ids| && Distinct(ids)
    ensures ids[k] !in Partners(ids, d, isBond, k, |ids|)
    ensures Distinct(Partners(ids, d, isBond, k, |ids|))
    ensures ids[j] in Partners(ids, d, isBond, k, |ids|) <==> ids[k] in Partners(ids, d, isBond, j, |ids|)
  {
    PartnersMembers(ids, d, isBond, k, |ids|, k);
    PartnersDistinct(ids, d, isBond, k, |ids|);
    PartnersMembers(ids, d, isBond, k, |ids|, j);
    PartnersMembers(ids, d, isBond, j, |ids|, k);
  }

  /** The lists before the outer loop's step `i1`: rows above `i1` are done, the rest hold their earlier partners. */
  ghost predicate RowsBefore(b: map<AtomId, seq<AtomId>>, ids: seq<AtomId>, d: seq<AtomData>, isBond: BondTest, i1: nat)
    requires |d| == |ids| && i1 <= |ids|
  {
    forall k: nat {:trigger Settled(ids, d, isBond, k, i1)} :: k < |ids| ==>
      ids[k] in b && b[ids[k]] == Settled(ids, d, isBond, k, i1)
  }

  function Settled(ids: seq<AtomId>, d: seq<AtomData>, isBond: BondTest, k: nat, i1: nat): seq<AtomId>
    requires |d| == |ids| && k < |ids| && i1 <= |ids|
  {
    if k < i1 then Partners(ids, d, isBond, k, |ids|) else Partners(ids, d, isBond, k, i1)
  }

  /** The lists inside the inner loop: pairs `(i1, i2')` with `i2' < i2` are done too. */
  ghost predicate RowsDuring(b: map<AtomId, seq<AtomId>>, ids: seq<AtomId>, d: seq<AtomData>, isBond: BondTest,
                             i1: nat, i2: nat)
    requires |d| == |ids| && i1 < i2 <= |ids|
  {
    forall k: nat {:trigger Partial(ids, d, isBond, k, i1, i2)} :: k < |ids| ==>
      ids[k] in b && b[ids[k]] == Partial(ids, d, isBond, k, i1, i2)
  }

  function Partial(ids: seq<AtomId>, d: seq<AtomData>, isBond: BondTest, k: nat, i1: nat, i2: nat): seq<AtomId>
    requires |d| == |ids| && k < |ids| && i1 < i2 <= |ids|
  {
    if k < i1 then Partners(ids, d, isBond, k, |ids|)
    else if k == i1 then Partners(ids, d, isBond, k, i2)
    else Partners(ids, d, isBond, k, if k < i2 then i1 + 1 else i1)
  }

  /** With every list empty, no pair is done yet. */
  lemma RowsFirst(b: map<AtomId, seq<AtomId>>, ids: seq<AtomId>, d: seq<AtomData>, isBond: BondTest)
    requires |d| == |ids| && forall k :: 0 <= k < |ids| ==> ids[k] in b && b[ids[k]] == []
    ensures RowsBefore(b, ids, d, isBond, 0)
  {
    forall k: nat | k < |ids| ensures ids[k] in b && b[ids[k]] == Settled(ids, d, isBond, k, 0) {
    }
  }

  /** After the last step of the outer loop, every list holds all its partners. */
  lemma RowsLast(b: map<AtomId, seq<AtomId>>, ids: seq<AtomId>, d: seq<AtomData>, isBond: BondTest)
    requires |d| == |ids| && RowsBefore(b, ids, d, isBond, |ids|)
    ensures forall k :: 0 <= k < |ids| ==> ids[k] in b && b[ids[k]] == Partners(ids, d, isBond, k, |ids|)
  {
    forall k: nat | k < |ids| ensures ids[k] in b && b[ids[k]] == Partners(ids, d, isBond, k, |ids|) {
      var tk := Settled(ids, d, isBond, k, |ids|);
      assert ids[k] in b && b[ids[k]] == tk;
    }
  }

  lemma RowsStart(b: map<AtomId, seq<AtomId>>, ids: seq<AtomId>, d: seq<AtomData>, isBond: BondTest, i1: nat)
    requires |d| == |ids| && i1 < |ids| && RowsBefore(b, ids, d, isBond, i1)
    ensures RowsDuring(b, ids, d, isBond, i1, i1 + 1)
  {
    forall k: nat | k < |ids| ensures ids[k] in b && b[ids[k]] == Partial(ids, d, isBond, k, i1, i1 + 1) {
      var tk := Settled(ids, d, isBond, k, i1);
      assert ids[k] in b && b[ids[k]] == tk;
      if k == i1 {
        assert Partners(ids, d, isBond, k, i1 + 1) == Partners(ids, d, isBond, k, i1) + [];
      }
    }
  }

  /** Testing the pair `(i1, i2)`, and linking it when the test holds, moves the inner loop on. */
  lemma RowsStepKeys(b: map<AtomId, seq<AtomId>>, ids: seq<AtomId>, d: seq<AtomData>, isBond: BondTest, i1: nat, i2: nat)
    requires |d| == |ids| && i1 < i2 < |ids| && RowsDuring(b, ids, d, isBond, i1, i2)
    ensures ids[i1] in b && ids[i2] in b
  {
    var ti1 := Partial(ids, d, isBond, i1, i1, i2);
    assert ids[i1] in b && b[ids[i1]] == ti1;
    var ti2 := Partial(ids, d, isBond, i2, i1, i2);
    assert ids[i2] in b && b[ids[i2]] == ti2;
  }

  lemma RowsStep(b: map<AtomId, seq<AtomId>>, r: map<AtomId, seq<AtomId>>, ids: seq<AtomId>, d: seq<AtomData>,
                 isBond: BondTest, i1: nat, i2: nat)
    requires |d| == |ids| && i1 < i2 < |ids| && Distinct(ids) && RowsDuring(b, ids, d, isBond, i1, i2)
    requires ids[i1] in b && ids[i2] in b
    requires r == if isBond(d[i1], d[i2]) then Linked(b, ids[i1], ids[i2]) else b
    ensures RowsDuring(r, ids, d, isBond, i1, i2 + 1)
  {
    forall k: nat | k < |ids| ensures ids[k] in r && r[ids[k]] == Partial(ids, d, isBond, k, i1, i2 + 1) {
      var tk := Partial(ids, d, isBond, k, i1, i2);
      assert ids[k] in b && b[ids[k]] == tk;
      if k != i1 && k != i2 {
        assert ids[k] != ids[i1] && ids[k] != ids[i2];
      } else {
        assert ids[i1] != ids[i2];
      }
    }
  }

  lemma RowsEnd(b: map<AtomId, seq<AtomId>>, ids: seq<AtomId>, d: seq<AtomData>, isBond: BondTest, i1: nat)
    requires |d| == |ids| && i1 < |ids| && RowsDuring(b, ids, d, isBond, i1, |ids|)
    ensures RowsBefore(b, ids, d, isBond, i1 + 1)
  {
    forall k: nat | k < |ids| ensures ids[k] in b && b[ids[k]] == Settled(ids, d, isBond, k, i1 + 1) {
      var tk := Partial(ids, d, isBond, k, i1, |ids|);
      assert ids[k] in b && b[ids[k]] == tk;
    }
  }

  // ---------------------------------------------------------------------------
  // Printing
  // ---------------------------------------------------------------------------

  /**
    `operator<<` for an atom: the element name and the three coordinates,
    each written by `fmt` (the `%.05lf` conversion), separated by spaces.
   */
  function AtomText(a: AtomData, fmt: real -> string): (s: string)
  {
    EltName(a.elt) + " " + fmt(a.pos.x) + " " + fmt(a.pos.y) + " " + fmt(a.pos.z)
  }

  /** Lines, each followed by a line end, as `std::endl` writes them. */
  function Lines(ls: seq<string>): string
  {
    if ls == [] then "" else ls[0] + "\n" + Lines(ls[1..])
  }

  /** Text of lines with line ends is the lines joined by line ends, with an empty piece after the last one. */
  lemma {:induction false} LinesJoin(ls: seq<string>)
    ensures Lines(ls) == Join(ls + [""], '\n')
  {
    if ls != [] {
      LinesJoin(ls[1..]);
      assert (ls + [""])[1..] == ls[1..] + [""];
    }
  }

  /** Split at line ends, lines with line ends give back the lines and an empty last piece. */
  lemma LinesSplit(ls: seq<string>)
    requires forall i :: 0 <= i < |ls| ==> '\n' !in ls[i]
    ensures JsSplit(Lines(ls), '\n') == ls + [""]
  {
    LinesJoin(ls);
    SplitJoin(ls + [""], '\n');
  }

  /** One more line at the end. */
  lemma {:induction false} LinesSnoc(ls: seq<string>, x: string)
    ensures Lines(ls + [x]) == Lines(ls) + x + "\n"
    decreases |ls|
  {
    if ls != [] {
      assert (ls + [x])[1..] == ls[1..] + [x];
      LinesSnoc(ls[1..], x);
    }
  }

  /** Coordinates are written without line ends. */
  ghost predicate OneLineFormat(fmt: real -> string)
  {
    forall r :: '\n' !in fmt(r)
  }

  /** The atom lines of a molecule's text, in list order. */
  function AtomLines(d: seq<AtomData>, fmt: real -> string): (ls: seq<string>)
    ensures |ls| == |d|
  {
    seq(|d|, i requires 0 <= i < |d| => AtomText(d[i], fmt))
  }

  /** `operator<<` for a molecule: the atom count, the description, then one line per atom. */
  function MoleculeText(descr: string, d: seq<AtomData>, fmt: real -> string): string
  {
    Lines([NatToString(|d|), descr] + AtomLines(d, fmt))
  }

  lemma AtomTextOneLine(a: AtomData, fmt: real -> string)
    requires OneLineFormat(fmt)
    ensures '\n' !in AtomText(a, fmt)
  {
    NoSpaceInNames(a.elt);
    assert '\n' !in EltName(a.elt) by {
      assert IsCSpace('\n');
    }
    assert '\n' !in fmt(a.pos.x) && '\n' !in fmt(a.pos.y) && '\n' !in fmt(a.pos.z);
  }

  /**
    Split at line ends, the text of a molecule with a one-line description
    gives back the count line, the description and the atom lines, followed
    by the empty piece after the last line end.
   */
  lemma {:induction false} MoleculeTextLines(descr: string, d: seq<AtomData>, fmt: real -> string)
    requires OneLineFormat(fmt) && '\n' !in descr
    ensures JsSplit(MoleculeText(descr, d, fmt), '\n') == [NatToString(|d|), descr] + AtomLines(d, fmt) + [""]
  {
    assert '\n' !in NatToString(|d|) by {
      assert !IsDigit('\n');
    }
    AtomLinesOneLine(d, fmt);
    HeaderLinesOneLine(NatToString(|d|), descr, AtomLines(d, fmt));
    LinesSplit([NatToString(|d|), descr] + AtomLines(d, fmt));
  }

  lemma {:induction false} AtomLinesOneLine(d: seq<AtomData>, fmt: real -> string)
    requires OneLineFormat(fmt)
    ensures forall i :: 0 <= i < |d| ==> '\n' !in AtomLines(d, fmt)[i]
  {
    forall i | 0 <= i < |d| ensures '\n' !in AtomLines(d, fmt)[i] {
      AtomTextOneLine(d[i], fmt);
      assert AtomLines(d, fmt)[i] == AtomText(d[i], fmt);
    }
  }

  lemma {:induction false} HeaderLinesOneLine(count: string, descr: string, atomLines: seq<string>)
    requires '\n' !in count && '\n' !in descr
    requires forall i :: 0 <= i < |atomLines| ==> '\n' !in atomLines[i]
    ensures forall i :: 0 <= i < |[count, descr] + atomLines| ==> '\n' !in ([count, descr] + atomLines)[i]
  {
    var ls := [count, descr] + atomLines;
    forall i | 0 <= i < |ls| ensures '\n' !in ls[i] {
      if 2 <= i {
        assert ls[i] == atomLines[i - 2];
      }
    }
  }

  /**
    A molecule: a description, the atom list, and for every atom on the list
    its element, position and bond list. `nextId` is larger than every
    identifier in use, so that a new atom gets an unused one.
   */
  class Molecule {
    var descr: string
    var atoms: seq<AtomId>
    var elt: map<AtomId, Element>
    var pos: map<AtomId, Vec3>
    var bonds: map<AtomId, seq<AtomId>>
    var nextId: AtomId

    ghost predicate Valid()
      reads this
    {
      Consistent(atoms, elt, pos, bonds, nextId)
    }

    /** Every atom on the list has an element and a position. */
    predicate HasData()
      reads this`atoms, this`elt, this`pos
    {
      forall i :: 0 <= i < |atoms| ==> atoms[i] in elt && atoms[i] in pos
    }

    /** The element and position of each atom, in list order. */
    function Data(): (d: seq<AtomData>)
      reads this`atoms, this`elt, this`pos
      requires HasData()
      ensures |d| == |atoms|
      ensures forall i :: 0 <= i < |atoms| ==> d[i] == AtomData(elt[atoms[i]], pos[atoms[i]])
    {
      var a, e, p := atoms, elt, pos;
      seq(|a|, i requires 0 <= i < |a| && a[i] in e && a[i] in p => AtomData(e[a[i]], p[a[i]]))
    }

    /** `Molecule(descr)`: a molecule without atoms. */
    constructor (newDescr: string)
      ensures Valid()
      ensures descr == newDescr && atoms == []
    {
      descr := newDescr;
      atoms := [];
      elt := map[];
      pos := map[];
      bonds := map[];
      nextId := 0;
    }

    /**
      `add(const Atom&)`: a copy of the atom, with its element and position
      but without bonds, goes at the end of the list.
     */
    method Add(a: AtomData) returns (id: AtomId)
      requires Valid()
      modifies this
      ensures Valid()
      ensures id !in old(bonds) && atoms == old(atoms) + [id]
      ensures elt == old(elt)[id := a.elt] && pos == old(pos)[id := a.pos]
      ensures bonds == old(bonds)[id := []]
      ensures descr == old(descr) && Data() == old(Data()) + [a]
    {
      id := nextId;
      ConsistentAdd(atoms, elt, pos, bonds, nextId, a);
      atoms, elt, pos, bonds, nextId := atoms + [id], elt[id := a.elt], pos[id := a.pos], bonds[id := []], nextId + 1;
    }

    /** `x->addToBonds(y)`: `y` goes at the end of `x`'s bond list. */
    method AddToBonds(x: AtomId, y: AtomId)
      requires x in bonds
      modifies this`bonds
      ensures bonds == old(bonds)[x := old(bonds)[x] + [y]]
      ensures atoms == old(atoms) && elt == old(elt) && pos == old(pos)
      ensures descr == old(descr) && nextId == old(nextId)
    {
      bonds := bonds[x := bonds[x] + [y]];
    }

    /** `x->link(y)`: each of the two atoms goes at the end of the other's list; the lists stay symmetric. */
    method Link(x: AtomId, y: AtomId)
      requires Valid() && x in bonds && y in bonds
      modifies this`bonds
      ensures Valid()
      ensures bonds == Linked(old(bonds), x, y)
      ensures atoms == old(atoms) && elt == old(elt) && pos == old(pos) && descr == old(descr)
      ensures nextId == old(nextId)
    {
      LinkSymmetric(bonds, x, y);
      AddToBonds(x, y);
      AddToBonds(y, x);
    }

    /**
      `x->removeFromBonds(y)`: the first `y` on `x`'s list is erased; the
      program stops at `unreachable()` when there is none, so one is required.
     */
    method RemoveFromBonds(x: AtomId, y: AtomId)
      requires x in bonds && y in bonds[x]
      modifies this
      ensures bonds == old(bonds)[x := RemoveFirst(old(bonds)[x], y)]
      ensures atoms == old(atoms) && elt == old(elt) && pos == old(pos)
      ensures descr == old(descr) && nextId == old(nextId)
    {
      var s := bonds[x];
      var i := 0;
      while s[i] != y
        invariant 0 <= i < |s| && y in s[i..]
        invariant forall j :: 0 <= j < i ==> s[j] != y
        decreases |s| - i
      {
        i := i + 1;
      }
      RemoveFirstCutsFirst(s, y);
      assert FindFrom(s, 0, y) == i;
      bonds := bonds[x := s[..i] + s[i + 1..]];
    }

    /**
      `x->unlink(y)`: `y` leaves `x`'s list and `x` leaves `y`'s, first
      occurrences only. In symmetric lists the second removal always finds
      its atom, so only the first needs to be required.
     */
    method Unlink(x: AtomId, y: AtomId)
      requires Valid() && x in bonds && y in bonds[x]
      modifies this
      ensures Valid()
      ensures y in old(bonds) && bonds == Unlinked(old(bonds), x, y)
      ensures atoms == old(atoms) && elt == old(elt) && pos == old(pos) && descr == old(descr)
      ensures nextId == old(nextId)
    {
      UnlinkSymmetric(bonds, x, y);
      RemoveFromBonds(x, y);
      RemoveFromBonds(y, x);
    }

    /**
      `while (!a->bonds.empty()) a->unlink(a->bonds[0])`: every bond of `a`
      goes, and no other list mentions `a` afterwards; other lists lose
      exactly their entries for `a`.
     */
    method UnlinkAll(a: AtomId)
      requires Valid() && a in bonds
      modifies this
      ensures Valid()
      ensures bonds.Keys == old(bonds).Keys && bonds[a] == []
      ensures forall x :: x in bonds && x != a ==> bonds[x] == RemoveAll(old(bonds)[x], a)
      ensures atoms == old(atoms) && elt == old(elt) && pos == old(pos) && descr == old(descr)
      ensures nextId == old(nextId)
    {
      while bonds[a] != []
        invariant Valid() && bonds.Keys == old(bonds).Keys
        invariant forall x :: x in bonds && x != a ==> RemoveAll(bonds[x], a) == RemoveAll(old(bonds)[x], a)
        invariant atoms == old(atoms) && elt == old(elt) && pos == old(pos) && descr == old(descr)
        invariant nextId == old(nextId)
        decreases |bonds[a]|
      {
        var y := bonds[a][0];
        UnlinkKeepsOthers(bonds, a, y);
        Unlink(a, y);
      }
      IsolatedLists(bonds, old(bonds), a);
    }

    /**
      `removeAtBegin(a)`: searching from the front, the first place holding
      `a` is found, all of `a`'s bonds are unlinked and `a` is erased there
      and deleted. An absent atom stops the program at `unreachable()`.
     */
    method RemoveAtBegin(a: AtomId)
      requires Valid() && a in atoms
      modifies this
      ensures Valid()
      ensures atoms == RemoveFirst(old(atoms), a) && a !in atoms
      ensures elt == old(elt) - {a} && pos == old(pos) - {a}
      ensures bonds.Keys == old(bonds).Keys - {a}
      ensures forall x :: x in bonds ==> bonds[x] == RemoveAll(old(bonds)[x], a)
      ensures descr == old(descr)
    {
      var i := 0;
      while atoms[i] != a
        invariant 0 <= i < |atoms| && a in atoms[i..]
        invariant forall j :: 0 <= j < i ==> atoms[j] != a
        decreases |atoms| - i
      {
        i := i + 1;
      }
      RemoveFirstCutsFirst(atoms, a);
      assert FindFrom(atoms, 0, a) == i;
      Erase(i);
    }

    /**
      `removeAtEnd(a)`: the same, searching from the back. The atom list has
      no repeats, so the last place holding `a` is also the first.
     */
    method RemoveAtEnd(a: AtomId)
      requires Valid() && a in atoms
      modifies this
      ensures Valid()
      ensures atoms == RemoveFirst(old(atoms), a) && a !in atoms
      ensures elt == old(elt) - {a} && pos == old(pos) - {a}
      ensures bonds.Keys == old(bonds).Keys - {a}
      ensures forall x :: x in bonds ==> bonds[x] == RemoveAll(old(bonds)[x], a)
      ensures descr == old(descr)
    {
      var idx := |atoms|;
      while atoms[idx - 1] != a
        invariant 0 < idx <= |atoms| && a in atoms[..idx]
        decreases idx
      {
        idx := idx - 1;
      }
      RemoveFirstCutsFirst(atoms, a);
      assert FindFrom(atoms, 0, a) == idx - 1;
      Erase(idx - 1);
    }

    /** Unlinking every bond of the atom at place `i`, erasing it from the list and deleting it. */
    method Erase(i: nat)
      requires Valid() && i < |atoms|
      modifies this
      ensures Valid()
      ensures atoms == old(atoms)[..i] + old(atoms)[i + 1..] && old(atoms)[i] !in atoms
      ensures elt == old(elt) - {old(atoms)[i]} && pos == old(pos) - {old(atoms)[i]}
      ensures bonds.Keys == old(bonds).Keys - {old(atoms)[i]}
      ensures forall x :: x in bonds ==> bonds[x] == RemoveAll(old(bonds)[x], old(atoms)[i])
      ensures descr == old(descr)
    {
      UnlinkAll(atoms[i]);
      DropIsolated(i);
    }

    /** Erasing an atom without bonds from the list and deleting it. */
    method DropIsolated(i: nat)
      requires Valid() && i < |atoms| && bonds[atoms[i]] == []
      modifies this
      ensures Valid()
      ensures atoms == old(atoms)[..i] + old(atoms)[i + 1..] && old(atoms)[i] !in atoms
      ensures elt == old(elt) - {old(atoms)[i]} && pos == old(pos) - {old(atoms)[i]}
      ensures bonds == old(bonds) - {old(atoms)[i]}
      ensures descr == old(descr)
    {
      var a := atoms[i];
      ConsistentRemove(atoms, elt, pos, bonds, nextId, i);
      atoms, elt, pos, bonds := atoms[..i] + atoms[i + 1..], elt - {a}, pos - {a}, bonds - {a};
    }

    /** `findFirst(e)`: the first atom of the list with element `e`, if any. */
    method FindFirst(e: Element) returns (r: Option<AtomId>)
      requires Valid()
      ensures r == (if Matching(atoms, elt, e) == [] then None else Some(Matching(atoms, elt, e)[0]))
    {
      for i := 0 to |atoms|
        invariant Matching(atoms[..i], elt, e) == []
      {
        if elt[atoms[i]] == e {
          MatchingPlaces(atoms, elt, e, i);
          return Some(atoms[i]);
        }
        assert atoms[..i + 1] == atoms[..i] + [atoms[i]];
        MatchingAppend(atoms[..i], [atoms[i]], elt, e);
      }
      assert atoms[..|atoms|] == atoms;
      return None;
    }

    /** `findLast(e)`: searching from the end, the last atom with element `e`, if any. */
    method FindLast(e: Element) returns (r: Option<AtomId>)
      requires Valid()
      ensures var m := Matching(atoms, elt, e); r == (if m == [] then None else Some(m[|m| - 1]))
    {
      var i := |atoms|;
      while i > 0
        invariant 0 <= i <= |atoms| && Matching(atoms[i..], elt, e) == []
      {
        i := i - 1;
        if elt[atoms[i]] == e {
          LastMatch(atoms, elt, e, i);
          return Some(atoms[i]);
        }
        NoMatchFrom(atoms, elt, e, i);
      }
      assert atoms[0..] == atoms;
      return None;
    }

    /**
      `findAaLast()` once `findAaCterm()` has named the nitrogen `atomN`:
      searching from the end for `atomN`, then stepping the reverse iterator
      back towards the end of the list, it collects the atoms from `atomN`'s
      place to the end, in list order.
     */
    method FindAaLast(atomN: AtomId) returns (res: seq<AtomId>)
      requires Valid() && atomN in atoms
      ensures 1 <= |res| <= |atoms| && res[0] == atomN && atomN !in res[1..]
      ensures atoms == atoms[..|atoms| - |res|] + res
    {
      var p := |atoms| - 1;
      while atoms[p] != atomN
        invariant 0 <= p < |atoms| && atomN in atoms[..p + 1] && atomN !in atoms[p + 1..]
        decreases p
      {
        assert atoms[..p + 1] == atoms[..p] + [atoms[p]];
        assert atoms[p..] == [atoms[p]] + atoms[p + 1..];
        p := p - 1;
      }
      res := [];
      var q := p;
      while q < |atoms|
        invariant p <= q <= |atoms| && res == atoms[p..q]
      {
        res := res + [atoms[q]];
        q := q + 1;
      }
      assert atoms == atoms[..p] + atoms[p..];
    }

    /**
      `isBonds(e, cnt)`: counting over `x`'s bonds, exactly `cnt` of them go
      to atoms of element `e` and none to other elements.
     */
    method IsBonds1(x: AtomId, e: Element, cnt: nat) returns (r: bool)
      requires Valid() && x in bonds
      ensures r <==> |Matching(bonds[x], elt, e)| == cnt && forall y :: y in bonds[x] ==> HasElt(elt, y, {e})
    {
      var bs := bonds[x];
      Neighbours(bonds, x);
      var c, other := 0, 0;
      for i := 0 to |bs|
        invariant c == CountIn(bs[..i], elt, {e}) && other == CountOut(bs[..i], elt, {e})
      {
        assert bs[..i + 1][..i] == bs[..i];
        if elt[bs[i]] == e {
          c := c + 1;
        } else {
          other := other + 1;
        }
      }
      assert bs[..|bs|] == bs;
      CountMatching(bs, elt, e);
      CountOutZero(bs, elt, {e});
      r := c == cnt && other == 0;
    }

    /**
      `isBonds(e1, cnt1, e2, cnt2)`: each bond is counted for the first of
      `e1`, `e2` it matches; the counts must be `cnt1` and `cnt2` and no bond
      may go to another element (when `e2` is `e1`, nothing is counted for it).
     */
    method IsBonds2(x: AtomId, e1: Element, cnt1: nat, e2: Element, cnt2: nat) returns (r: bool)
      requires Valid() && x in bonds
      ensures r <==>
        && |Matching(bonds[x], elt, e1)| == cnt1
        && (if e2 == e1 then 0 else |Matching(bonds[x], elt, e2)|) == cnt2
        && forall y :: y in bonds[x] ==> HasElt(elt, y, {e1, e2})
    {
      var bs := bonds[x];
      Neighbours(bonds, x);
      var c1, c2, other := 0, 0, 0;
      for i := 0 to |bs|
        invariant c1 == CountIn(bs[..i], elt, {e1}) && c2 == CountIn(bs[..i], elt, {e2} - {e1})
        invariant other == CountOut(bs[..i], elt, {e1, e2})
      {
        assert bs[..i + 1][..i] == bs[..i];
        if elt[bs[i]] == e1 {
          c1 := c1 + 1;
        } else if elt[bs[i]] == e2 {
          c2 := c2 + 1;
        } else {
          other := other + 1;
        }
      }
      assert bs[..|bs|] == bs;
      CountMatching(bs, elt, e1);
      CountMatching(bs, elt, e2);
      if e2 == e1 {
        assert {e2} - {e1} == {};
        CountNone(bs, elt);
      } else {
        assert {e2} - {e1} == {e2};
      }
      CountOutZero(bs, elt, {e1, e2});
      r := c1 == cnt1 && c2 == cnt2 && other == 0;
    }

    /** `isBonds(e1, cnt1, e2, cnt2, e3, cnt3)`: as for two elements, with a third. */
    method IsBonds3(x: AtomId, e1: Element, cnt1: nat, e2: Element, cnt2: nat, e3: Element, cnt3: nat)
      returns (r: bool)
      requires Valid() && x in bonds
      ensures r <==>
        && |Matching(bonds[x], elt, e1)| == cnt1
        && (if e2 == e1 then 0 else |Matching(bonds[x], elt, e2)|) == cnt2
        && (if e3 == e1 || e3 == e2 then 0 else |Matching(bonds[x], elt, e3)|) == cnt3
        && forall y :: y in bonds[x] ==> HasElt(elt, y, {e1, e2, e3})
    {
      var bs := bonds[x];
      Neighbours(bonds, x);
      var c1, c2, c3, other := 0, 0, 0, 0;
      for i := 0 to |bs|
        invariant c1 == CountIn(bs[..i], elt, {e1}) && c2 == CountIn(bs[..i], elt, {e2} - {e1})
        invariant c3 == CountIn(bs[..i], elt, {e3} - {e1, e2})
        invariant other == CountOut(bs[..i], elt, {e1, e2, e3})
      {
        assert bs[..i + 1][..i] == bs[..i];
        if elt[bs[i]] == e1 {
          c1 := c1 + 1;
        } else if elt[bs[i]] == e2 {
          c2 := c2 + 1;
        } else if elt[bs[i]] == e3 {
          c3 := c3 + 1;
        } else {
          other := other + 1;
        }
      }
      assert bs[..|bs|] == bs;
      CountMatching(bs, elt, e1);
      CountMatching(bs, elt, e2);
      CountMatching(bs, elt, e3);
      if e2 == e1 {
        assert {e2} - {e1} == {};
        CountNone(bs, elt);
      } else {
        assert {e2} - {e1} == {e2};
      }
      if e3 == e1 || e3 == e2 {
        assert {e3} - {e1, e2} == {};
        CountNone(bs, elt);
      } else {
        assert {e3} - {e1, e2} == {e3};
      }
      CountOutZero(bs, elt, {e1, e2, e3});
      r := c1 == cnt1 && c2 == cnt2 && c3 == cnt3 && other == 0;
    }

    /** `filterBonds(e)`: the atoms on `x`'s bond list with element `e`, in list order. */
    method FilterBonds(x: AtomId, e: Element) returns (res: seq<AtomId>)
      requires Valid() && x in bonds
      ensures res == Matching(bonds[x], elt, e)
    {
      var bs := bonds[x];
      Neighbours(bonds, x);
      res := [];
      for i := 0 to |bs|
        invariant res == Matching(bs[..i], elt, e)
      {
        assert bs[..i + 1][..i] == bs[..i];
        if elt[bs[i]] == e {
          res := res + [bs[i]];
        }
      }
      assert bs[..|bs|] == bs;
    }

    /**
      `filterBonds1(e)`: the one atom on `x`'s bond list with element `e`; a
      second one is an error as soon as it is met, and none at all is an error.
     */
    method FilterBonds1(x: AtomId, e: Element) returns (r: Result<AtomId, BondError>)
      requires Valid() && x in bonds
      ensures var m := Matching(bonds[x], elt, e);
        && (r.Ok? <==> |m| == 1)
        && (r.Ok? ==> r.value == m[0])
        && (r.Err? ==> r.error == (if m == [] then NoBond(elt[x], e) else DuplicateBond(elt[x], e)))
    {
      BondsHaveElements(x);
      var found, twice := ScanOne(bonds[x], elt, e);
      if twice {
        return Err(DuplicateBond(elt[x], e));
      }
      if found.None? {
        return Err(NoBond(elt[x], e));
      }
      return Ok(found.value);
    }

    /** `findOnlyC()`: the carbon on `x`'s bond list when there is exactly one, else nothing. */
    method FindOnlyC(x: AtomId) returns (r: Option<AtomId>)
      requires Valid() && x in bonds
      ensures var m := Matching(bonds[x], elt, C); r == (if |m| == 1 then Some(m[0]) else None)
    {
      BondsHaveElements(x);
      var found, twice := ScanOne(bonds[x], elt, C);
      r := if twice then None else found;
    }

    /**
      `findFirstBond(e)`: the first atom on `x`'s bond list with element `e`;
      the program stops at `unreachable()` when there is none, so one is required.
     */
    method FindFirstBond(x: AtomId, e: Element) returns (y: AtomId)
      requires Valid() && x in bonds && exists z :: z in bonds[x] && HasElt(elt, z, {e})
      ensures y in bonds[x] && HasElt(elt, y, {e})
      ensures var m := Matching(bonds[x], elt, e); |m| > 0 && y == m[0]
    {
      BondsHaveElements(x);
      y := ScanFirst(bonds[x], elt, e);
    }

    /** The atoms on a bond list all have an element. */
    lemma BondsHaveElements(x: AtomId)
      requires Valid() && x in bonds
      ensures x in elt && forall k :: 0 <= k < |bonds[x]| ==> bonds[x][k] in elt
    {
      Neighbours(bonds, x);
    }

    /** `detectBonds()`, first step: every bond list is cleared. */
    method ClearBonds()
      requires Valid()
      modifies this`bonds
      ensures Valid() && bonds.Keys == old(bonds).Keys && forall y :: y in bonds ==> bonds[y] == []
      ensures atoms == old(atoms) && elt == old(elt) && pos == old(pos) && descr == old(descr)
      ensures nextId == old(nextId)
    {
      for i := 0 to |atoms|
        invariant bonds.Keys == old(bonds).Keys
        invariant forall k :: 0 <= k < i ==> bonds[atoms[k]] == []
      {
        bonds := bonds[atoms[i] := []];
      }
      forall y | y in bonds ensures bonds[y] == [] {
        var k :| 0 <= k < |atoms| && atoms[k] == y;
      }
      EmptySymmetric(bonds);
    }

    /** One pass of `detectBonds`' outer loop: the atom at place `i1` is tested against every later one. */
    method LinkRow(i1: nat, isBond: BondTest, ghost d: seq<AtomData>)
      requires Valid() && i1 < |atoms| && d == Data()
      requires RowsBefore(bonds, atoms, d, isBond, i1)
      modifies this`bonds
      ensures Valid() && RowsBefore(bonds, atoms, d, isBond, i1 + 1)
    {
      RowsStart(bonds, atoms, d, isBond, i1);
      for i2 := i1 + 1 to |atoms|
        invariant Valid() && RowsDuring(bonds, atoms, d, isBond, i1, i2)
      {
        LinkPair(i1, i2, isBond, d);
      }
      RowsEnd(bonds, atoms, d, isBond, i1);
    }

    /** The body of `detectBonds`' inner loop: the atoms at places `i1 < i2` are linked when the test holds. */
    method LinkPair(i1: nat, i2: nat, isBond: BondTest, ghost d: seq<AtomData>)
      requires Valid() && i1 < i2 < |atoms| && d == Data()
      requires RowsDuring(bonds, atoms, d, isBond, i1, i2)
      modifies this`bonds
      ensures Valid() && RowsDuring(bonds, atoms, d, isBond, i1, i2 + 1)
    {
      var a1, a2 := atoms[i1], atoms[i2];
      ghost var b0 := bonds;
      assert d[i1] == AtomData(elt[a1], pos[a1]) && d[i2] == AtomData(elt[a2], pos[a2]);
      RowsStepKeys(b0, atoms, d, isBond, i1, i2);
      var test := isBond(AtomData(elt[a1], pos[a1]), AtomData(elt[a2], pos[a2]));
      if test {
        Link(a1, a2);
      }
      RowsStep(b0, bonds, atoms, d, isBond, i1, i2);
    }

    /**
      `detectBonds()`: after clearing every list, each pair of places
      `i1 < i2` is tested once and linked when the test holds. The lists then
      hold, for each atom, its partners in list order (see `DetectedBonds`).
     */
    method DetectBonds(isBond: BondTest)
      requires Valid()
      modifies this`bonds
      ensures Valid() && bonds.Keys == old(bonds).Keys
      ensures atoms == old(atoms) && elt == old(elt) && pos == old(pos) && descr == old(descr)
      ensures forall k :: 0 <= k < |atoms| ==> bonds[atoms[k]] == Partners(atoms, Data(), isBond, k, |atoms|)
    {
      ClearBonds();
      LinkRows(isBond, Data());
    }

    /** `detectBonds()`' outer loop, from lists that are all empty. */
    method LinkRows(isBond: BondTest, ghost d: seq<AtomData>)
      requires Valid() && d == Data() && forall y :: y in bonds ==> bonds[y] == []
      modifies this`bonds
      ensures Valid() && forall k :: 0 <= k < |atoms| ==> bonds[atoms[k]] == Partners(atoms, d, isBond, k, |atoms|)
    {
      RowsFirst(bonds, atoms, d, isBond);
      for i1 := 0 to |atoms|
        invariant Valid() && RowsBefore(bonds, atoms, d, isBond, i1)
      {
        LinkRow(i1, isBond, d);
      }
      RowsLast(bonds, atoms, d, isBond);
    }

    /**
      The copy constructor: the description and, in order, a copy of each
      atom (element and position, no bonds), then `detectBonds()`.
     */
    constructor Copy(other: Molecule, isBond: BondTest)
      requires other.Valid()
      ensures Valid() && descr == other.descr && Data() == other.Data()
      ensures forall k :: 0 <= k < |atoms| ==> bonds[atoms[k]] == Partners(atoms, Data(), isBond, k, |atoms|)
    {
      descr := other.descr;
      atoms := [];
      elt := map[];
      pos := map[];
      bonds := map[];
      nextId := 0;
      ConsistentEmpty();
      new;
      AddMolecule(other, isBond);
    }

    /** The loop of the copy constructor and of `add(const Molecule&)`: `add(atom)` for each atom, in order. */
    method AddAll(src: seq<AtomData>)
      requires Valid()
      modifies this
      ensures Valid() && descr == old(descr) && Data() == old(Data()) + src
    {
      ghost var d0 := Data();
      for i := 0 to |src|
        invariant Valid() && descr == old(descr) && Data() == d0 + src[..i]
      {
        var _ := Add(src[i]);
        assert src[..i + 1] == src[..i] + [src[i]];
      }
      assert src[..|src|] == src;
    }

    /**
      `add(const Molecule&)`: copies of `m`'s atoms go at the end of the list,
      in order, then all bonds are detected again.
     */
    method AddMolecule(m: Molecule, isBond: BondTest)
      requires Valid() && m.Valid() && m != this
      modifies this
      ensures Valid() && descr == old(descr) && Data() == old(Data()) + m.Data()
      ensures forall k :: 0 <= k < |atoms| ==> bonds[atoms[k]] == Partners(atoms, Data(), isBond, k, |atoms|)
    {
      AddAll(m.Data());
      DetectBonds(isBond);
    }

    /** `toString()`, the text `operator<<` writes. */
    function ToString(fmt: real -> string): string
      reads this
      requires Valid()
    {
      MoleculeText(descr, Data(), fmt)
    }
  }
}
