/**
  The `Binary` byte buffer (a `std::vector<uint8_t>` exposed to JavaScript) and
  the read-only sequence operations the HTTP parser calls on it.
 */
module BinaryBuffer {
  import opened Text
  import Wrappers

  newtype byte = x: int | 0 <= x < 256

  const TWO_32: int := 0x1_0000_0000

  /** JavaScript's ToUint32: the number modulo 2^32. */
  function ToUint32(x: int): (r: nat)
    ensures r < TWO_32
    ensures 0 <= x < TWO_32 ==> r == x
  {
    x % TWO_32
  }

  /** JavaScript's ToInt32: the number wrapped into [-2^31, 2^31). */
  function ToInt32(x: int): (r: int)
    ensures -0x8000_0000 <= r < 0x8000_0000
    ensures -0x8000_0000 <= x < 0x8000_0000 ==> r == x
  {
    var u := x % TWO_32;
    if u < 0x8000_0000 then u else u - TWO_32
  }

  // ---------------------------------------------------------------------------
  // Bytes as characters (each byte is the character with the same code)
  // ---------------------------------------------------------------------------

  function ByteChar(b: byte): char
  {
    b as int as char
  }

  function BytesToString(b: seq<byte>): (s: string)
    ensures |s| == |b|
    ensures forall i :: 0 <= i < |b| ==> s[i] == ByteChar(b[i])
  {
    seq(|b|, i requires 0 <= i < |b| => ByteChar(b[i]))
  }

  lemma BytesToStringAppend(a: seq<byte>, b: seq<byte>)
    ensures BytesToString(a + b) == BytesToString(a) + BytesToString(b)
  {
    assert BytesToString(a + b) == BytesToString(a) + BytesToString(b);
  }

  /** Characters below 256 and the bytes with the same codes are the same text. */
  lemma {:induction false} BytesToStringInjective(a: seq<byte>, b: seq<byte>)
    requires BytesToString(a) == BytesToString(b)
    ensures a == b
  {
    assert |a| == |b|;
    forall i | 0 <= i < |a| ensures a[i] == b[i] {
      assert ByteChar(a[i]) == ByteChar(b[i]);
    }
  }

  /** The bytes before the first NUL, or all of them when there is none. */
  function UpToNul(b: seq<byte>): (r: seq<byte>)
    ensures r <= b && 0 !in r
    ensures |r| < |b| ==> b[|r|] == 0
  {
    var k := FindFrom(b, 0, 0);
    if k == -1 then b else b[..k]
  }

  /**
    The text `toString()` gives JavaScript: the bytes go into a `std::string`,
    which `js_pushstring` takes as a C string, so the text ends before the
    first NUL byte; each byte before it is one character.
   */
  function CStringText(b: seq<byte>): (s: string)
    ensures |s| <= |b|
    ensures forall i :: 0 <= i < |s| ==> b[i] != 0 && s[i] == ByteChar(b[i])
    ensures |s| < |b| ==> b[|s|] == 0
  {
    BytesToString(UpToNul(b))
  }

  /** Bytes without a NUL convert whole. */
  lemma CStringTextNulFree(b: seq<byte>)
    requires 0 !in b
    ensures CStringText(b) == BytesToString(b)
  {
  }

  /**
    Text is lost after a NUL: bytes without a NUL, then a NUL, then anything,
    convert like the bytes before the NUL alone.
   */
  lemma CStringTextStopsAtNul(a: seq<byte>, rest: seq<byte>)
    requires 0 !in a
    ensures CStringText(a + [0] + rest) == BytesToString(a)
  {
    assert (a + [0] + rest)[|a|] == 0;
  }

  /** Bytes without a NUL, followed by more bytes: their text, then the text of the rest. */
  lemma CStringTextAppend(a: seq<byte>, b: seq<byte>)
    requires 0 !in a
    ensures CStringText(a + b) == BytesToString(a) + CStringText(b)
  {
    var u := CStringText(b);
    if |u| < |b| {
      assert (a + b)[|a| + |u|] == b[|u|];
    }
  }

  // ---------------------------------------------------------------------------
  // Read-only queries used by the parser; ranges are half-open
  // ---------------------------------------------------------------------------

  /** `b.findChar(off, c)`: the first index at or after `off` holding `c`, or -1. */
  function FindChar(b: seq<byte>, off: nat, c: byte): (r: int)
    ensures r == -1 || (off <= r < |b| && b[r] == c)
    ensures r == -1 <==> forall k :: off <= k < |b| ==> b[k] != c
    ensures r != -1 ==> forall k :: off <= k < r ==> b[k] != c
  {
    FindFrom(b, off, c)
  }

  /** A prefix that already holds `c` at or after `off` answers `findChar` like the whole buffer. */
  lemma FindCharPrefix(b1: seq<byte>, b2: seq<byte>, off: nat, c: byte)
    requires b1 <= b2
    requires FindChar(b1, off, c) != -1
    ensures FindChar(b2, off, c) == FindChar(b1, off, c)
  {
    var r1 := FindChar(b1, off, c);
    assert b2[r1] == c;
    assert forall k :: off <= k < r1 ==> b2[k] == b1[k];
  }

  /** `b.getSubString(from, to)`: the bytes in [from, to) as text. */
  function GetSubString(b: seq<byte>, from: nat, to: nat): (s: string)
    requires from <= to <= |b|
    ensures |s| == to - from
    ensures forall i :: 0 <= i < |s| ==> s[i] == ByteChar(b[from + i])
  {
    BytesToString(b[from..to])
  }

  // ---------------------------------------------------------------------------
  // Growing a vector, and the constructor and `BinaryAppend` as written
  // ---------------------------------------------------------------------------

  /**
    The bytes after `resize(m)`: those that fit are kept, and new ones are
    zero, since `std::vector::resize` value-initialises them.
   */
  function Resized(data: seq<byte>, m: nat): (r: seq<byte>)
    ensures |r| == m
    ensures forall i :: 0 <= i < m && i < |data| ==> r[i] == data[i]
    ensures forall i :: |data| <= i < m ==> r[i] == 0
  {
    if m <= |data| then data[..m] else data + seq(m - |data|, _ => 0)
  }

  /**
    `BinaryAppend(b, arg)` as written, `rep` being the bytes of `arg`: after
    `reserve`, `arg` is stored at `&b[sz]`, past the end of the vector, so no
    element changes; the `resize` that follows value-initialises the new
    elements. The vector grows by `|rep|` zero bytes, whatever `arg` was.
   */
  function AppendAsWritten(data: seq<byte>, rep: seq<byte>): (r: seq<byte>)
    ensures |r| == |data| + |rep| && r[..|data|] == data
    ensures forall i :: |data| <= i < |r| ==> r[i] == 0
  {
    Resized(data, |data| + |rep|)
  }

  /** As written, the value appended makes no difference: values of the same width leave the same bytes. */
  lemma AppendAsWrittenIgnoresValue(data: seq<byte>, rep1: seq<byte>, rep2: seq<byte>)
    requires |rep1| == |rep2|
    ensures AppendAsWritten(data, rep1) == AppendAsWritten(data, rep2)
  {
  }

  /**
    As written, `appendInt(1)` on an empty buffer leaves four zero bytes,
    which read back as 0; the bytes of 1 are [1, 0, 0, 0].
   */
  lemma AppendIntAsWrittenLosesValue()
    ensures EncodeLE32(ToUint32(ToInt32(1))) == [1, 0, 0, 0]
    ensures AppendAsWritten([], EncodeLE32(ToUint32(ToInt32(1)))) == [0, 0, 0, 0]
    ensures DecodeLE32(AppendAsWritten([], EncodeLE32(ToUint32(ToInt32(1))))) == 0
  {
    var r := AppendAsWritten([], EncodeLE32(ToUint32(ToInt32(1))));
    assert |r| == 4 && r[0] == 0 && r[1] == 0 && r[2] == 0 && r[3] == 0;
  }

  /** How the program is built: with assertions active, or with `NDEBUG`. */
  datatype Build = Checked | NoDebug

  /** "undefined", the text `js_tostring` gives for an argument that was not passed. */
  const UndefinedText: seq<byte> := [0x75, 0x6E, 0x64, 0x65, 0x66, 0x69, 0x6E, 0x65, 0x64]

  /**
    `new Binary(...)` as written, given the C strings of its arguments:
    `AssertNargs(1)` aborts a checked build (None) unless there is exactly
    one argument; argument 1 is then read with `js_tostring`, which gives
    "undefined" when it is missing, and copied up to its first NUL.
   */
  function NewBinaryAsWritten(args: seq<seq<byte>>, build: Build): (r: Wrappers.Option<seq<byte>>)
    ensures build == Checked ==> (r.Some? <==> |args| == 1)
    ensures build == NoDebug ==> r.Some?
    ensures r.Some? ==> r.value == UpToNul(if args == [] then UndefinedText else args[0])
  {
    if build == Checked && |args| != 1 then Wrappers.None
    else Wrappers.Some(UpToNul(if args == [] then UndefinedText else args[0]))
  }

  /**
    As written, `new Binary()` with no argument aborts a checked build, and
    in a build without assertions holds the nine bytes of "undefined", not
    an empty buffer.
   */
  lemma NoArgumentBinary()
    ensures NewBinaryAsWritten([], Checked).None?
    ensures NewBinaryAsWritten([], NoDebug) == Wrappers.Some(UndefinedText) && |UndefinedText| == 9
  {
    assert 0 !in UndefinedText;
  }

  /** `new Binary("")` gives the empty buffer in any build: the buffer the callers of `new Binary()` mean. */
  lemma EmptyArgumentBinary(build: Build)
    ensures NewBinaryAsWritten([[]], build) == Wrappers.Some([])
  {
  }

  // ---------------------------------------------------------------------------
  // The buffer object
  // ---------------------------------------------------------------------------

  class Binary {
    var data: seq<byte>

    /**
      `new Binary(str)`: the bytes of the C string, up to its first NUL, as
      `strlen` measures it.
     */
    constructor (str: seq<byte>)
      ensures data <= str
      ensures 0 !in data
      ensures |data| == |str| || str[|data|] == 0
    {
      data := UpToNul(str);
    }

    /**
      A buffer holding the given bytes. It stands for the copies the C++ side
      makes in `dupl` and `concatenate`, and, with no bytes, for the empty
      buffer the JavaScript side means by `new Binary()` (see
      `NoArgumentBinary` for what that call does as written).
     */
    constructor Of(bytes: seq<byte>)
      ensures data == bytes
    {
      data := bytes;
    }

    /** `dupl()`: a new buffer with the same bytes. */
    method Dupl() returns (r: Binary)
      ensures fresh(r) && r.data == data
    {
      r := new Binary.Of(data);
    }

    /** `size()`: the length, converted to a 32-bit unsigned number. */
    function Size(): (n: nat)
      reads this
      ensures n < TWO_32
      ensures |data| < TWO_32 ==> n == |data|
    {
      ToUint32(|data|)
    }

    /**
      `resize(n)`: the new length is `n` taken as a 32-bit unsigned number; the
      bytes that fit are kept and new ones are zero.
     */
    method Resize(n: int)
      modifies this
      ensures |data| == ToUint32(n)
      ensures forall i :: 0 <= i < |data| && i < |old(data)| ==> data[i] == old(data)[i]
      ensures forall i :: |old(data)| <= i < |data| ==> data[i] == 0
    {
      data := Resized(data, ToUint32(n));
    }

    /** `append(b1)`: this buffer's bytes followed by those of `b1`; `b1` is not written. */
    method Append(b1: Binary)
      modifies this
      ensures data == old(data) + old(b1.data)
    {
      data := data + b1.data;
    }

    /**
      `BinaryAppend`: the object representation of a value, `rep`, goes at the
      end; all earlier bytes stay.
     */
    method AppendRaw(rep: seq<byte>)
      modifies this
      ensures |data| == |old(data)| + |rep|
      ensures data[..|old(data)|] == old(data)
      ensures data[|old(data)|..] == rep
    {
      data := data + rep;
    }

    /**
      `appendInt(v)` as intended: four more bytes, those of `v` as a 32-bit
      signed number. As written, `BinaryAppend` appends four zero bytes
      (`AppendAsWritten`).
     */
    method AppendInt(v: int)
      modifies this
      ensures |data| == |old(data)| + 4
      ensures data[..|old(data)|] == old(data)
      ensures DecodeLE32(data[|old(data)|..]) == ToUint32(ToInt32(v))
    {
      EncodeDecodeLE32(ToUint32(ToInt32(v)));
      AppendRaw(EncodeLE32(ToUint32(ToInt32(v))));
    }

    /**
      `appendUInt(v)` as intended: four more bytes, those of `v` as a 32-bit
      unsigned number. As written, `BinaryAppend` appends four zero bytes
      (`AppendAsWritten`).
     */
    method AppendUInt(v: int)
      modifies this
      ensures |data| == |old(data)| + 4
      ensures data[..|old(data)|] == old(data)
      ensures DecodeLE32(data[|old(data)|..]) == ToUint32(v)
    {
      EncodeDecodeLE32(ToUint32(v));
      AppendRaw(EncodeLE32(ToUint32(v)));
    }

    /**
      `appendFloat4(x)`: four more bytes. As intended they hold `bits`, the
      IEEE-754 single pattern of `x`; as written they are zero
      (`AppendAsWritten`). The contract states only what both share.
     */
    method AppendFloat4(bits: nat)
      requires bits < TWO_32
      modifies this
      ensures |data| == |old(data)| + 4
      ensures data[..|old(data)|] == old(data)
    {
      AppendRaw(EncodeLE32(bits));
    }

    /**
      `appendFloat8(x)`: eight more bytes. As intended they hold `lo` and `hi`,
      the halves of the IEEE-754 double pattern of `x`; as written they are
      zero (`AppendAsWritten`). The contract states only what both share.
     */
    method AppendFloat8(lo: nat, hi: nat)
      requires lo < TWO_32 && hi < TWO_32
      modifies this
      ensures |data| == |old(data)| + 8
      ensures data[..|old(data)|] == old(data)
    {
      AppendRaw(EncodeLE32(lo) + EncodeLE32(hi));
    }

    /** `concatenate(b1)`: a new buffer with this buffer's bytes, then `b1`'s; neither operand changes. */
    method Concatenate(b1: Binary) returns (r: Binary)
      ensures fresh(r)
      ensures r.data == data + b1.data
    {
      r := new Binary.Of(data);
      r.Append(b1);
    }

    /** `toString()`: the bytes before the first NUL, one character each. */
    function ToString(): (s: string)
      reads this
      ensures |s| <= |data|
      ensures forall i :: 0 <= i < |s| ==> data[i] != 0 && s[i] == ByteChar(data[i])
      ensures |s| < |data| ==> data[|s|] == 0
    {
      CStringText(data)
    }

    /** `appendRange(b, from, to)`: the bytes of `b` in [from, to) go at the end. */
    method AppendRange(b: seq<byte>, from: nat, to: nat)
      requires from <= to <= |b|
      modifies this
      ensures data == old(data) + b[from..to]
    {
      data := data + b[from..to];
    }
  }

  // ---------------------------------------------------------------------------
  // The 4-byte layout used for 32-bit values (least significant byte first)
  // ---------------------------------------------------------------------------

  function EncodeLE32(u: nat): (r: seq<byte>)
    requires u < TWO_32
    ensures |r| == 4
  {
    [(u % 256) as byte, (u / 256 % 256) as byte, (u / 65536 % 256) as byte, (u / 16777216) as byte]
  }

  function DecodeLE32(r: seq<byte>): (u: nat)
    requires |r| == 4
    ensures u < TWO_32
  {
    r[0] as nat + 256 * r[1] as nat + 65536 * r[2] as nat + 16777216 * r[3] as nat
  }

  lemma EncodeDecodeLE32(u: nat)
    requires u < TWO_32
    ensures DecodeLE32(EncodeLE32(u)) == u
  {
    var r := EncodeLE32(u);
    assert u == u % 256 + 256 * (u / 256);
    assert u / 256 == u / 256 % 256 + 256 * (u / 65536);
    assert u / 65536 == u / 65536 % 256 + 256 * (u / 16777216);
  }
}
