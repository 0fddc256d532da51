/**
  The incremental HTTP/1.1 request parser: a four-state machine (`I` headline,
  `H` header lines, `B` length-delimited body, `F` finished) that eats a growing
  byte buffer from an offset and reports how many bytes it advanced. It frames
  messages as RFC 7230 sections 3, 3.2 and 3.3.2 describe, accepting CRLF line
  ends only.

  `Run` is the meaning of one `processData` call on an immutable snapshot of the
  processor; `Processor.ProcessData` is the in-place loop, proved equal to it.
 */
module HttpProtocol {
  import opened Wrappers
  import opened Text
  import opened BinaryBuffer

  const CR: byte := 13
  const LF: byte := 10
  const COLON: byte := 58

  /** The reasons the parser throws. */
  datatype HttpError =
    | InvalidLine(off: nat, eol: nat)   // a '\n' at the start of the line or without '\r' before it
    | NoColon                           // a header line without ':' inside it
    | TransferEncodingUnsupported       // headers end, Transfer-Encoding but no Content-Length
    | NoContentLength                   // headers end with neither field
    | InvalidContentLength(text: string) // Content-Length that is not a non-negative number
    | UnknownBodyEndSignal              // state B entered without a length-based body
    | NoBodyBuffer                      // state B with a stale length but no body buffer

  // ---------------------------------------------------------------------------
  // findLine
  // ---------------------------------------------------------------------------

  /**
    The offset just past the CRLF that ends the line starting at `off`, -1 when
    no '\n' follows `off`, and an error when the first '\n' is at `off` or has
    no '\r' before it.
   */
  function FindLine(buf: seq<byte>, off: nat): (r: Result<int, HttpError>)
    ensures r == Ok(-1) <==> forall k :: off <= k < |buf| ==> buf[k] != LF
    ensures r.Ok? && r.value != -1 ==>
      off + 2 <= r.value <= |buf| && buf[r.value - 2] == CR && buf[r.value - 1] == LF
      && forall k :: off <= k < r.value - 1 ==> buf[k] != LF
    ensures r.Err? ==>
      r.error.InvalidLine? && r.error.off == off && off <= r.error.eol < |buf| && buf[r.error.eol] == LF
      && (forall k :: off <= k < r.error.eol ==> buf[k] != LF)
      && (r.error.eol == off || buf[r.error.eol - 1] != CR)
  {
    var eol := FindChar(buf, off, LF);
    if eol == -1 then Ok(-1)
    else if eol == off || buf[eol - 1] != CR then Err(InvalidLine(off, eol))
    else Ok(eol + 1)
  }

  /** A longer buffer gives the same answer once the shorter one holds a '\n' after `off`. */
  lemma FindLinePrefix(b1: seq<byte>, b2: seq<byte>, off: nat)
    requires b1 <= b2
    requires FindLine(b1, off) != Ok(-1)
    ensures FindLine(b2, off) == FindLine(b1, off)
  {
    FindCharPrefix(b1, b2, off, LF);
    var eol := FindChar(b1, off, LF);
    if eol > off {
      assert b2[eol - 1] == b1[eol - 1];
    }
  }

  // ---------------------------------------------------------------------------
  // parseInt(text, 10)
  // ---------------------------------------------------------------------------

  /** The longest prefix of decimal digits. */
  function DigitPrefix(s: string): (d: string)
    ensures d <= s && AllDigits(d)
    ensures |d| < |s| ==> !IsDigit(s[|d|])
  {
    if s != [] && IsDigit(s[0]) then [s[0]] + DigitPrefix(s[1..]) else []
  }

  /**
    JavaScript `parseInt(s, 10)`: leading white space, an optional sign, then
    the longest run of digits; `None` stands for NaN (no digit at all).
   */
  function JsParseInt(s: string): (r: Option<int>)
    ensures var t := TrimStart(s); t == [] || !(IsDigit(t[0]) || t[0] == '+' || t[0] == '-') ==> r.None?
    ensures var t := TrimStart(s); t != [] && IsDigit(t[0]) ==> r.Some? && r.value >= 0
    ensures r.Some? && r.value < 0 ==> TrimStart(s)[0] == '-'
  {
    var t := TrimStart(s);
    var neg := t != [] && t[0] == '-';
    var u := if t != [] && (t[0] == '-' || t[0] == '+') then t[1..] else t;
    var d := DigitPrefix(u);
    var v: int := DecimalValue(d);
    if d == [] then None
    else if neg then Some(-v) else Some(v)
  }

  lemma ParseIntOfNumber(n: nat)
    ensures JsParseInt(NatToString(n)) == Some(n)
  {
    var s := NatToString(n);
    assert !IsJsSpace(s[0]);
    assert TrimStart(s) == s;
    assert DigitPrefix(s) == s by { DigitPrefixAll(s); }
    DecimalRoundTrip(n);
  }

  lemma {:induction false} DigitPrefixAll(s: string)
    requires AllDigits(s)
    ensures DigitPrefix(s) == s
  {
    if s != [] {
      DigitPrefixAll(s[1..]);
    }
  }

  /**
    The body length the parser takes from a Content-Length value: the value
    `parseInt` reads, when it is a number and not negative.
   */
  function ContentLength(text: string): (r: Result<nat, HttpError>)
    ensures r.Ok? <==> JsParseInt(text).Some? && JsParseInt(text).value >= 0
    ensures r.Ok? ==> r.value == JsParseInt(text).value
  {
    match JsParseInt(text)
    case Some(n) => if n >= 0 then Ok(n) else Err(InvalidContentLength(text))
    case None => Err(InvalidContentLength(text))
  }

  // ---------------------------------------------------------------------------
  // The processor's state as a value
  // ---------------------------------------------------------------------------

  datatype PState = I | H | B | F

  /** The body: not yet created, bytes being collected, or the finished text. */
  datatype Body = Null | Bytes(bytes: seq<byte>) | Str(text: string)

  datatype Headers = Headers(headline: string, fields: map<string, string>, body: Body)

  /** `bodyEndSignal`: never set, or 'L' (length-based). */
  datatype Signal = Unset | LengthBased

  datatype Snapshot = Snapshot(state: PState, headers: Headers, bodyEndSignal: Signal, bodyNeedLength: nat)

  const EmptyHeaders: Headers := Headers("", map[], Null)

  /** The order in which the states are passed. */
  function Rank(s: PState): nat
  {
    match s
    case I => 0
    case H => 1
    case B => 2
    case F => 3
  }

  // ---------------------------------------------------------------------------
  // One turn of the loop and the whole call
  // ---------------------------------------------------------------------------

  datatype StepResult =
    | Continue(p: Snapshot, off: nat)    // go round the loop again from `off`
    | Return(p: Snapshot, off: nat)      // leave, having advanced to `off`
    | Throw(p: Snapshot, err: HttpError) // leave by an exception

  /**
    The effect of the blank line that ends the headers (the state is already
    B). The body starts empty; the code creates it with `new Binary()`, which
    as written aborts or holds "undefined" (`NoArgumentBinary`).
   */
  function EndOfHeaders(p: Snapshot, off: nat): StepResult
  {
    var fields := p.headers.fields;
    if "Content-Length" in fields then
      match ContentLength(fields["Content-Length"])
      case Ok(n) =>
        Continue(p.(bodyEndSignal := LengthBased, bodyNeedLength := n, headers := p.headers.(body := Bytes([]))), off)
      case Err(e) => Throw(p, e)
    else if "Transfer-Encoding" in fields then Throw(p, TransferEncodingUnsupported)
    else Throw(p, NoContentLength)
  }

  /** The `'I'` turn: the headline is the line without its CRLF. */
  function HeadlineStep(p: Snapshot, buf: seq<byte>, off: nat): (r: StepResult)
    requires off < |buf|
    ensures r.Continue? ==> off < r.off <= |buf|
    ensures r.Return? ==> r.off == off
  {
    match FindLine(buf, off)
    case Err(e) => Throw(p, e)
    case Ok(off1) =>
      if off1 == -1 then Return(p, off)
      else Continue(p.(state := H, headers := p.headers.(headline := GetSubString(buf, off, off1 - 2))), off1)
  }

  /**
    A non-empty header line in [off, off1): the key is the text before the
    first colon, the value the rest without surrounding white space.
   */
  function FieldLine(p: Snapshot, buf: seq<byte>, off: nat, off1: nat): (r: StepResult)
    requires off + 2 < off1 <= |buf| && buf[off1 - 2] == CR && buf[off1 - 1] == LF
    ensures r.Continue? ==> r.off == off1
    ensures !r.Return?
  {
    var offColon := FindChar(buf, off, COLON);
    if offColon == -1 || offColon >= off1 then Throw(p, NoColon)
    else
      var key := GetSubString(buf, off, offColon);
      Continue(p.(headers := p.headers.(fields := p.headers.fields[key := FieldValue(buf, offColon, off1)])), off1)
  }

  /** The value after the colon at `offColon`, up to the CRLF ending at `off1`, trimmed. */
  function FieldValue(buf: seq<byte>, offColon: nat, off1: nat): string
    requires offColon + 3 <= off1 <= |buf|
  {
    Trim(GetSubString(buf, offColon + 1, off1 - 2))
  }

  /** The `'H'` turn: one header line, or the blank line that ends the headers. */
  function HeaderStep(p: Snapshot, buf: seq<byte>, off: nat): (r: StepResult)
    requires off < |buf|
    ensures r.Continue? ==> off < r.off <= |buf|
    ensures r.Return? ==> r.off == off
  {
    match FindLine(buf, off)
    case Err(e) => Throw(p, e)
    case Ok(off1) =>
      if off1 == -1 then Return(p, off)
      else if off + 2 < off1 then FieldLine(p, buf, off, off1)
      else
        EndOfHeaders(p.(state := B), off + 2)
  }

  /** The `'B'` turn: take what the buffer holds of the body, up to the length still needed. */
  function BodyStep(p: Snapshot, buf: seq<byte>, off: nat): (r: StepResult)
    requires off < |buf|
    ensures !r.Continue?
    ensures r.Return? ==> off <= r.off <= |buf|
  {
    if p.bodyEndSignal == Unset then Throw(p, UnknownBodyEndSignal)
    else if !p.headers.body.Bytes? then Throw(p, NoBodyBuffer)
    else
      var available := |buf| - off;
      var stepLength := if available <= p.bodyNeedLength then available else p.bodyNeedLength;
      var body := p.headers.body.bytes + buf[off..off + stepLength];
      var need := p.bodyNeedLength - stepLength;
      if need == 0 then
        Return(p.(state := F, bodyNeedLength := 0, headers := p.headers.(body := Str(CStringText(body)))), off + stepLength)
      else
        Return(p.(bodyNeedLength := need, headers := p.headers.(body := Bytes(body))), off + stepLength)
  }

  /** One turn of the `processData` loop at `off`, for a state other than F. */
  function StepAt(p: Snapshot, buf: seq<byte>, off: nat): (r: StepResult)
    requires p.state != F && off < |buf|
    ensures r.Continue? ==> off < r.off <= |buf|
    ensures r.Return? ==> off <= r.off <= |buf|
  {
    match p.state
    case I => HeadlineStep(p, buf, off)
    case H => HeaderStep(p, buf, off)
    case B => BodyStep(p, buf, off)
  }

  /**
    The `processData` loop from `off`: the final state and the offset reached, or
    the exception with the state at the moment it was thrown.
   */
  function Loop(p: Snapshot, buf: seq<byte>, off: nat): (r: (Snapshot, Result<nat, HttpError>))
    ensures r.1.Ok? ==> off <= r.1.value && (r.1.value == off || r.1.value <= |buf|)
    ensures Rank(p.state) <= Rank(r.0.state)
    decreases |buf| - off
  {
    if p.state == F || off >= |buf| then (p, Ok(off))
    else
      match StepAt(p, buf, off)
      case Continue(q, off1) => Loop(q, buf, off1)
      case Return(q, off1) => (q, Ok(off1))
      case Throw(q, e) => (q, Err(e))
  }

  /** One `processData(buf, bufHead)` call: the new state and the number of bytes consumed. */
  function Run(p: Snapshot, buf: seq<byte>, bufHead: nat): (r: (Snapshot, Result<nat, HttpError>))
    ensures r.1.Ok? ==> bufHead + r.1.value <= |buf| || r.1.value == 0
  {
    FromHead(Loop(p, buf, bufHead), bufHead)
  }

  /** A loop outcome with its final offset counted from `bufHead`. */
  function FromHead(l: (Snapshot, Result<nat, HttpError>), bufHead: nat): (Snapshot, Result<nat, HttpError>)
    requires l.1.Ok? ==> bufHead <= l.1.value
  {
    (l.0, if l.1.Ok? then Ok(l.1.value - bufHead) else Err(l.1.error))
  }

  /** How one turn of the loop ended, apart from the new state. */
  datatype Turn = Again(off: nat) | Done(off: nat) | Failed(err: HttpError)
  {
    function With(p: Snapshot): StepResult
    {
      match this
      case Again(off) => Continue(p, off)
      case Done(off) => Return(p, off)
      case Failed(e) => Throw(p, e)
    }
  }

  /** How the loop goes on after a turn that ended as `turn` in state `q`. */
  lemma LoopTurn(p: Snapshot, buf: seq<byte>, off: nat, turn: Turn, q: Snapshot)
    requires p.state != F && off < |buf|
    requires StepAt(p, buf, off) == turn.With(q)
    ensures turn.Again? ==> off < turn.off <= |buf| && Loop(p, buf, off) == Loop(q, buf, turn.off)
    ensures turn.Done? ==> off <= turn.off <= |buf| && Loop(p, buf, off) == (q, Ok(turn.off))
    ensures turn.Failed? ==> Loop(p, buf, off) == (q, Err(turn.err))
  {
  }

  lemma LoopStops(p: Snapshot, buf: seq<byte>, off: nat)
    requires p.state == F || off >= |buf|
    ensures Loop(p, buf, off) == (p, Ok(off))
  {
  }

  lemma RunFromLoop(p: Snapshot, buf: seq<byte>, bufHead: nat, q: Snapshot, res: Result<nat, HttpError>)
    requires Loop(p, buf, bufHead) == (q, res)
    ensures res.Ok? ==> bufHead <= res.value && Run(p, buf, bufHead) == (q, Ok(res.value - bufHead))
    ensures res.Err? ==> Run(p, buf, bufHead) == (q, Err(res.error))
  {
  }

  // ---------------------------------------------------------------------------
  // The body length as the code holds it
  // ---------------------------------------------------------------------------

  /** A JavaScript number as the body arithmetic meets it: an integer, or NaN. */
  datatype JsNumber = Num(n: int) | NaN

  /** `x - h`, where NaN stays NaN. */
  function Minus(x: JsNumber, h: int): JsNumber
  {
    match x
    case Num(n) => Num(n - h)
    case NaN => NaN
  }

  /** `available <= need ? available : need`: the bytes the body step takes, sign included. */
  function AsWrittenStepLength(available: nat, need: int): (step: int)
    ensures step <= available && step <= need
    ensures step == available || step == need
  {
    if available <= need then available else need
  }

  /**
    The `'B'` turn as written, where `need` is the length the code holds:
    whatever `parseInt` gave, NaN or negative included. A NaN length makes
    the step, the offset and the need NaN, so the state stays B and the call
    returns NaN. A negative length takes a negative step, which moves the
    offset back and brings the need to 0, so the state becomes F.
    `appendRange` over an empty or reversed range adds nothing.
   */
  function AsWrittenBody(p: Snapshot, need: JsNumber, buf: seq<byte>, off: nat): (r: (Snapshot, JsNumber, Result<JsNumber, HttpError>))
    requires off < |buf|
  {
    if p.bodyEndSignal == Unset then (p, need, Err(UnknownBodyEndSignal))
    else if !p.headers.body.Bytes? then (p, need, Err(NoBodyBuffer))
    else
      match need
      case NaN => (p, NaN, Ok(NaN))
      case Num(n) =>
        var step := AsWrittenStepLength(|buf| - off, n);
        var body := p.headers.body.bytes + (if step >= 0 then buf[off..off + step] else []);
        if n - step == 0 then
          (p.(state := F, headers := p.headers.(body := Str(CStringText(body)))), Num(0), Ok(Num(off + step)))
        else
          (p.(headers := p.headers.(body := Bytes(body))), Num(n - step), Ok(Num(off + step)))
  }

  /**
    The `processData` loop as written, from `off`: the end of the headers
    stores `parseInt` of Content-Length unchecked (NaN when it reads no
    digit), and the body step is `AsWrittenBody`. Every other turn is
    `StepAt`. The result is the final state, the length still needed and the
    offset reached, or the exception.
   */
  function AsWrittenLoop(p: Snapshot, need: JsNumber, buf: seq<byte>, off: nat): (r: (Snapshot, JsNumber, Result<JsNumber, HttpError>))
    decreases |buf| - off
  {
    if p.state == F || off >= |buf| then (p, need, Ok(Num(off)))
    else if p.state == B then AsWrittenBody(p, need, buf, off)
    else if p.state == H && FindLine(buf, off) == Ok(off + 2) then
      var q := p.(state := B);
      var fields := q.headers.fields;
      if "Content-Length" in fields then
        var n := match JsParseInt(fields["Content-Length"]) case Some(v) => Num(v) case None => NaN;
        AsWrittenLoop(q.(bodyEndSignal := LengthBased, headers := q.headers.(body := Bytes([]))), n, buf, off + 2)
      else if "Transfer-Encoding" in fields then (q, need, Err(TransferEncodingUnsupported))
      else (q, need, Err(NoContentLength))
    else
      match StepAt(p, buf, off)
      case Continue(q, off1) => AsWrittenLoop(q, need, buf, off1)
      case Return(q, off1) => (q, need, Ok(Num(off1)))
      case Throw(q, e) => (q, need, Err(e))
  }

  /** One `processData(buf, bufHead)` call as written: the count it returns is the offset reached minus `bufHead`. */
  function AsWrittenRun(p: Snapshot, need: JsNumber, buf: seq<byte>, bufHead: nat): (r: (Snapshot, JsNumber, Result<JsNumber, HttpError>))
  {
    var l := AsWrittenLoop(p, need, buf, bufHead);
    (l.0, l.1, if l.2.Ok? then Ok(Minus(l.2.value, bufHead)) else Err(l.2.error))
  }

  // ---------------------------------------------------------------------------
  // The processor object
  // ---------------------------------------------------------------------------

  class Processor {
    var state: PState
    var headers: Headers
    var bodyEndSignal: Signal
    var bodyNeedLength: nat

    function Snap(): Snapshot
      reads this
    {
      Snapshot(state, headers, bodyEndSignal, bodyNeedLength)
    }

    /** `create()`: state I and empty headers; no body signal yet. */
    constructor ()
      ensures Snap() == Snapshot(I, EmptyHeaders, Unset, 0)
    {
      state := I;
      headers := EmptyHeaders;
      bodyEndSignal := Unset;
      bodyNeedLength := 0;
    }

    /** `init()`: back to state I with empty headers; the body signal and length are left as they were. */
    method Init()
      modifies this
      ensures Snap() == old(Snap()).(state := I, headers := EmptyHeaders)
    {
      state := I;
      headers := EmptyHeaders;
    }

    /** `isFinished()`. */
    function IsFinished(): (b: bool)
      reads this
      ensures b <==> Rank(state) == 3
    {
      state == F
    }

    /** `getState()`: the state letter. */
    function GetState(): (c: char)
      reads this
      ensures c in "IHBF"
      ensures c == "IHBF"[Rank(state)]
    {
      match state
      case I => 'I'
      case H => 'H'
      case B => 'B'
      case F => 'F'
    }

    /**
      `processData(buf, bufHead)`: consumes bytes from `bufHead` on, updating
      the state in place, and returns how many it consumed.
     */
    method ProcessData(buf: seq<byte>, bufHead: nat) returns (r: Result<nat, HttpError>)
      modifies this
      ensures (Snap(), r) == Run(old(Snap()), buf, bufHead)
    {
      ghost var start := Snap();
      var end := Advance(buf, bufHead);
      RunFromLoop(start, buf, bufHead, Snap(), end);
      match end
      case Ok(off) =>
        r := Ok(off - bufHead);
      case Err(e) =>
        r := Err(e);
    }

    /** The `while` loop of `processData`: the offset it stops at, or the exception. */
    method Advance(buf: seq<byte>, bufHead: nat) returns (end: Result<nat, HttpError>)
      modifies this
      ensures (Snap(), end) == Loop(old(Snap()), buf, bufHead)
    {
      var off := bufHead;
      var bufLen := |buf|;
      while state != F && off < bufLen
        invariant bufHead <= off
        invariant Loop(Snap(), buf, off) == Loop(old(Snap()), buf, bufHead)
        decreases bufLen - off
      {
        var turn := Turn(buf, off);
        match turn
        case Again(off1) =>
          off := off1;
        case Done(off1) =>
          return Ok(off1);
        case Failed(e) =>
          return Err(e);
      }
      LoopStops(Snap(), buf, off);
      return Ok(off);
    }

    /** One turn of the loop: the `switch` on the state. */
    method Turn(buf: seq<byte>, off: nat) returns (turn: Turn)
      requires state != F && off < |buf|
      modifies this
      ensures turn.Again? ==> off < turn.off <= |buf| && Loop(old(Snap()), buf, off) == Loop(Snap(), buf, turn.off)
      ensures turn.Done? ==> off <= turn.off <= |buf| && Loop(old(Snap()), buf, off) == (Snap(), Ok(turn.off))
      ensures turn.Failed? ==> Loop(old(Snap()), buf, off) == (Snap(), Err(turn.err))
    {
      ghost var before := Snap();
      match state
      case I =>
        turn := HeadlineTurn(buf, off);
      case H =>
        turn := HeaderTurn(buf, off);
      case B =>
        turn := BodyTurn(buf, off);
      LoopTurn(before, buf, off, turn, Snap());
    }

    /** The `'I'` case: read the headline. */
    method HeadlineTurn(buf: seq<byte>, off: nat) returns (turn: Turn)
      requires off < |buf|
      modifies this
      ensures HeadlineStep(old(Snap()), buf, off) == turn.With(Snap())
    {
      var line := FindLine(buf, off);
      if line.Err? {
        return Failed(line.error);
      }
      var off1 := line.value;
      if off1 == -1 {
        return Done(off);
      }
      headers := headers.(headline := GetSubString(buf, off, off1 - 2));
      state := H;
      return Again(off1);
    }

    /** The `'H'` case: read one header line, or the blank line that ends them. */
    method HeaderTurn(buf: seq<byte>, off: nat) returns (turn: Turn)
      requires off < |buf|
      modifies this
      ensures HeaderStep(old(Snap()), buf, off) == turn.With(Snap())
    {
      ghost var p := Snap();
      var line := FindLine(buf, off);
      if line.Err? {
        return Failed(line.error);
      }
      var off1 := line.value;
      if off1 == -1 {
        return Done(off);
      }
      if off + 2 < off1 {
        turn := FieldTurn(buf, off, off1);
        return;
      }
      state := B;
      assert Snap() == p.(state := B);
      turn := EndHeadersTurn(off + 2);
    }

    /** A non-empty header line in [off, off1): store its field. */
    method FieldTurn(buf: seq<byte>, off: nat, off1: nat) returns (turn: Turn)
      requires off + 2 < off1 <= |buf| && buf[off1 - 2] == CR && buf[off1 - 1] == LF
      modifies this
      ensures FieldLine(old(Snap()), buf, off, off1) == turn.With(Snap())
    {
      var offColon := FindChar(buf, off, COLON);
      if offColon == -1 || offColon >= off1 {
        return Failed(NoColon);
      }
      var key := GetSubString(buf, off, offColon);
      var val := FieldValue(buf, offColon, off1);
      headers := headers.(fields := headers.fields[key := val]);
      return Again(off1);
    }

    /** The blank line that ends the headers, once the state is B: find the body's length. */
    method EndHeadersTurn(off: nat) returns (turn: Turn)
      modifies this
      ensures EndOfHeaders(old(Snap()), off) == turn.With(Snap())
    {
      if "Content-Length" in headers.fields {
        var len := ContentLength(headers.fields["Content-Length"]);
        if len.Err? {
          return Failed(len.error);
        }
        bodyEndSignal := LengthBased;
        bodyNeedLength := len.value;
        headers := headers.(body := Bytes([]));
        return Again(off);
      } else if "Transfer-Encoding" in headers.fields {
        return Failed(TransferEncodingUnsupported);
      } else {
        return Failed(NoContentLength);
      }
    }

    /** The `'B'` case: take what the buffer holds of the body, up to the length still needed. */
    method BodyTurn(buf: seq<byte>, off: nat) returns (turn: Turn)
      requires off < |buf|
      modifies this
      ensures BodyStep(old(Snap()), buf, off) == turn.With(Snap())
    {
      if bodyEndSignal == Unset {
        return Failed(UnknownBodyEndSignal);
      }
      if !headers.body.Bytes? {
        return Failed(NoBodyBuffer);
      }
      var available := |buf| - off;
      var stepLength := if available <= bodyNeedLength then available else bodyNeedLength;
      headers := headers.(body := Bytes(headers.body.bytes + buf[off..off + stepLength]));
      bodyNeedLength := bodyNeedLength - stepLength;
      if bodyNeedLength == 0 {
        state := F;
        headers := headers.(body := Str(CStringText(headers.body.bytes)));
      }
      return Done(off + stepLength);
    }
  }
}
