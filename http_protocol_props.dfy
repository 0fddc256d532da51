/**
  What one `processData` call does, stated over the snapshot semantics `Run`,
  and why feeding a growing buffer piece by piece gives the same result as
  feeding it whole.
 */
module HttpProtocolProperties {
  import opened Wrappers
  import opened Text
  import opened BinaryBuffer
  import opened HttpProtocol

  // ---------------------------------------------------------------------------
  // Headline and header lines
  // ---------------------------------------------------------------------------

  /**
    In state I a complete line becomes the headline, without its CRLF, and the
    state becomes H; nothing else changes.
   */
  lemma HeadlineLine(p: Snapshot, buf: seq<byte>, off: nat, off1: nat)
    requires p.state == I && off < |buf|
    requires FindLine(buf, off) == Ok(off1)
    requires off1 != -1
    ensures StepAt(p, buf, off).Continue?
    ensures var q := StepAt(p, buf, off).p;
      q == p.(state := H, headers := q.headers)
      && q.headers.fields == p.headers.fields && q.headers.body == p.headers.body
      && BytesToString(buf[off..off1]) == q.headers.headline + "\r\n"
      && '\n' !in q.headers.headline
      && StepAt(p, buf, off).off == off1
  {
    var q := StepAt(p, buf, off).p;
    var line := buf[off..off1];
    assert line == buf[off..off1 - 2] + [CR, LF];
    BytesToStringAppend(buf[off..off1 - 2], [CR, LF]);
    forall k | 0 <= k < |q.headers.headline| ensures q.headers.headline[k] != '\n' {
      assert buf[off + k] != LF;
    }
  }

  /** A header line with no ':' before its CRLF throws, leaving the state as it was. */
  lemma HeaderLineWithoutColon(p: Snapshot, buf: seq<byte>, off: nat, off1: nat)
    requires p.state == H && off < |buf|
    requires FindLine(buf, off) == Ok(off1) && off + 2 < off1
    requires COLON !in buf[off..off1]
    ensures StepAt(p, buf, off) == Throw(p, NoColon)
  {
    forall k | off <= k < off1 ensures buf[k] != COLON {
      assert buf[off..off1][k - off] == buf[k];
    }
  }

  /**
    A header line with a ':' stores one field: the key is the text before the
    first colon, untrimmed; the value is the rest of the line, trimmed; an
    earlier value of the same key is replaced.
   */
  lemma HeaderLineWithColon(p: Snapshot, buf: seq<byte>, off: nat, off1: nat, c: nat)
    requires p.state == H && off < |buf|
    requires FindLine(buf, off) == Ok(off1) && off + 2 < off1
    requires off <= c < off1 && buf[c] == COLON && COLON !in buf[off..c]
    ensures c + 3 <= off1
    ensures StepAt(p, buf, off) == Continue(
      p.(headers := p.headers.(fields := p.headers.fields[BytesToString(buf[off..c]) := FieldValue(buf, c, off1)])),
      off1)
    ensures FieldValue(buf, c, off1) == Trim(BytesToString(buf[c + 1..off1 - 2]))
  {
    forall k | off <= k < c ensures buf[k] != COLON {
      assert buf[off..c][k - off] == buf[k];
    }
    assert FindChar(buf, off, COLON) == c;
    assert HeaderStep(p, buf, off) == FieldLine(p, buf, off, off1);
  }

  // ---------------------------------------------------------------------------
  // The blank line that ends the headers
  // ---------------------------------------------------------------------------

  /**
    The blank line takes exactly two bytes and sets state B; with a usable
    Content-Length the body starts empty and that many bytes are awaited.
   */
  lemma BlankLineWithLength(p: Snapshot, buf: seq<byte>, off: nat, n: nat)
    requires p.state == H && off + 2 <= |buf| && buf[off] == CR && buf[off + 1] == LF
    requires "Content-Length" in p.headers.fields
    requires JsParseInt(p.headers.fields["Content-Length"]) == Some(n)
    ensures StepAt(p, buf, off) ==
      Continue(p.(state := B, bodyEndSignal := LengthBased, bodyNeedLength := n, headers := p.headers.(body := Bytes([]))), off + 2)
  {
    assert FindChar(buf, off, LF) == off + 1;
  }

  /**
    Without Content-Length the blank line always throws, whatever the request
    method: the Transfer-Encoding message when that field is present, else the
    end-of-file message. The state is left at B.
   */
  lemma BlankLineWithoutLength(p: Snapshot, buf: seq<byte>, off: nat)
    requires p.state == H && off + 2 <= |buf| && buf[off] == CR && buf[off + 1] == LF
    requires "Content-Length" !in p.headers.fields
    ensures StepAt(p, buf, off) == Throw(p.(state := B),
      if "Transfer-Encoding" in p.headers.fields then TransferEncodingUnsupported else NoContentLength)
    ensures Run(p, buf, off) == (p.(state := B),
      Err(if "Transfer-Encoding" in p.headers.fields then TransferEncodingUnsupported else NoContentLength))
  {
    assert FindChar(buf, off, LF) == off + 1;
  }

  /**
    `Content-Length: 0` with nothing after the blank line leaves the processor in
    B, not F: the loop needs one more byte to run the body step.
   */
  lemma ZeroLengthWaitsInB(p: Snapshot, buf: seq<byte>, off: nat)
    requires p.state == H && |buf| == off + 2 && buf[off] == CR && buf[off + 1] == LF
    requires "Content-Length" in p.headers.fields
    requires JsParseInt(p.headers.fields["Content-Length"]) == Some(0)
    ensures Run(p, buf, off).0.state == B
    ensures Run(p, buf, off).0.bodyNeedLength == 0
    ensures Run(p, buf, off).1 == Ok(2)
    ensures Run(Run(p, buf, off).0, buf, off + 2) == (Run(p, buf, off).0, Ok(0))
  {
    BlankLineWithLength(p, buf, off, 0);
    var q := p.(state := B, bodyEndSignal := LengthBased, bodyNeedLength := 0, headers := p.headers.(body := Bytes([])));
    assert Loop(q, buf, off + 2) == (q, Ok(off + 2));
  }

  // ---------------------------------------------------------------------------
  // The body
  // ---------------------------------------------------------------------------

  /**
    In state B one call takes min(available, needed) bytes, appends exactly those
    to the body, and returns right after; it reaches F, with the body turned into
    text, exactly when nothing more is needed.
   */
  lemma BodyChunk(p: Snapshot, buf: seq<byte>, bufHead: nat, body: seq<byte>)
    requires p.state == B && p.bodyEndSignal == LengthBased && p.headers.body == Bytes(body)
    requires bufHead < |buf|
    ensures var m := if |buf| - bufHead <= p.bodyNeedLength then |buf| - bufHead else p.bodyNeedLength;
      var got := body + buf[bufHead..bufHead + m];
      var q := Run(p, buf, bufHead).0;
      Run(p, buf, bufHead).1 == Ok(m)
      && q.bodyNeedLength == p.bodyNeedLength - m
      && (q.state == F <==> m == p.bodyNeedLength)
      && (q.state == F ==> q.headers.body == Str(CStringText(got)))
      && (q.state != F ==> q.state == B && q.headers.body == Bytes(got))
      && q.headers.headline == p.headers.headline && q.headers.fields == p.headers.fields
  {
  }

  /** A finished processor consumes nothing and stays as it is. */
  lemma FinishedConsumesNothing(p: Snapshot, buf: seq<byte>, bufHead: nat)
    requires p.state == F
    ensures Run(p, buf, bufHead) == (p, Ok(0))
  {
  }

  // ---------------------------------------------------------------------------
  // Whole lines, state order
  // ---------------------------------------------------------------------------

  /** `e` is just past a CRLF in `buf`. */
  predicate EndsLine(buf: seq<byte>, e: nat)
  {
    2 <= e <= |buf| && buf[e - 2] == CR && buf[e - 1] == LF
  }

  /** No '\n' from `from` on. */
  predicate NoLF(buf: seq<byte>, from: nat)
  {
    forall k :: from <= k < |buf| ==> buf[k] != LF
  }

  /** In states I and H a turn goes on only past a CRLF, and returns only when no '\n' is left. */
  lemma LineTurnShape(p: Snapshot, buf: seq<byte>, off: nat)
    requires (p.state == I || p.state == H) && off < |buf|
    ensures var st := StepAt(p, buf, off);
      (st.Continue? ==> off + 2 <= st.off && EndsLine(buf, st.off))
      && (st.Return? ==> st.off == off && st.p == p && NoLF(buf, off))
  {
    var line := FindLine(buf, off);
    if line.Ok? && line.value != -1 && p.state == H && off + 2 == line.value {
      assert StepAt(p, buf, off) == EndOfHeaders(p.(state := B), off + 2);
    }
  }

  lemma {:induction false} LoopWholeLines(p: Snapshot, buf: seq<byte>, off: nat)
    requires p.state == I || p.state == H
    ensures var l := Loop(p, buf, off);
      l.1.Ok? && (l.0.state == I || l.0.state == H) ==>
        (l.1.value == off || (off + 2 <= l.1.value && EndsLine(buf, l.1.value))) && NoLF(buf, l.1.value)
    decreases |buf| - off
  {
    if off < |buf| {
      LineTurnShape(p, buf, off);
      match StepAt(p, buf, off)
      case Continue(q, e) =>
        LoopTurn(p, buf, off, Again(e), q);
        if q.state == I || q.state == H {
          LoopWholeLines(q, buf, e);
        }
      case Return(q, e) =>
        LoopTurn(p, buf, off, Done(e), q);
      case Throw(q, err) =>
        LoopTurn(p, buf, off, Failed(err), q);
    } else {
      LoopStops(p, buf, off);
    }
  }

  /**
    In states I and H a call consumes whole CRLF-terminated lines only: it stops
    at a line end, and what it leaves holds no '\n'.
   */
  lemma ConsumesWholeLines(p: Snapshot, buf: seq<byte>, bufHead: nat)
    requires p.state == I || p.state == H
    requires bufHead <= |buf|
    ensures var run := Run(p, buf, bufHead);
      run.1.Ok? && (run.0.state == I || run.0.state == H) ==>
        (run.1.value == 0 || EndsLine(buf, bufHead + run.1.value)) && LF !in buf[bufHead + run.1.value..]
  {
    LoopWholeLines(p, buf, bufHead);
    var l := Loop(p, buf, bufHead);
    RunFromLoop(p, buf, bufHead, l.0, l.1);
    if l.1.Ok? && (l.0.state == I || l.0.state == H) {
      var e := l.1.value;
      assert NoLF(buf, e);
      forall k | 0 <= k < |buf[e..]| ensures buf[e..][k] != LF {
        assert buf[e..][k] == buf[e + k];
      }
    }
  }

  /** The state only moves forward, I to H to B to F; only `init` leads back to I. */
  lemma StateOnlyAdvances(p: Snapshot, buf: seq<byte>, bufHead: nat)
    ensures Rank(p.state) <= Rank(Run(p, buf, bufHead).0.state)
    ensures p.state != I ==> Run(p, buf, bufHead).0.state != I
  {
  }

  // ---------------------------------------------------------------------------
  // Resuming on a grown buffer
  // ---------------------------------------------------------------------------

  lemma SliceJoin(b1: seq<byte>, b2: seq<byte>, off: nat, m: nat)
    requires b1 <= b2 && off <= |b1| && |b1| + m <= |b2|
    ensures b1[off..] + b2[|b1|..|b1| + m] == b2[off..|b1| + m]
  {
  }

  /** A header line that lies inside a prefix of the buffer is read the same from the whole buffer. */
  lemma FieldLinePrefix(p: Snapshot, b1: seq<byte>, b2: seq<byte>, off: nat, off1: nat)
    requires b1 <= b2
    requires off + 2 < off1 <= |b1| && b1[off1 - 2] == CR && b1[off1 - 1] == LF
    ensures FieldLine(p, b2, off, off1) == FieldLine(p, b1, off, off1)
  {
    var c := FindChar(b1, off, COLON);
    if c != -1 {
      FindCharPrefix(b1, b2, off, COLON);
      if c < off1 {
        assert b1[off..c] == b2[off..c];
        assert b1[c + 1..off1 - 2] == b2[c + 1..off1 - 2];
      }
    } else {
      forall k | off <= k < off1 ensures b2[k] != COLON {
        assert b2[k] == b1[k];
      }
    }
  }

  lemma HeadlinePrefix(p: Snapshot, b1: seq<byte>, b2: seq<byte>, off: nat)
    requires b1 <= b2 && off < |b1|
    requires !HeadlineStep(p, b1, off).Return?
    ensures HeadlineStep(p, b2, off) == HeadlineStep(p, b1, off)
  {
    FindLinePrefix(b1, b2, off);
    var line := FindLine(b1, off);
    if line.Ok? {
      assert b1[off..line.value - 2] == b2[off..line.value - 2];
    }
  }

  lemma HeaderPrefix(p: Snapshot, b1: seq<byte>, b2: seq<byte>, off: nat)
    requires b1 <= b2 && off < |b1|
    requires !HeaderStep(p, b1, off).Return?
    ensures HeaderStep(p, b2, off) == HeaderStep(p, b1, off)
  {
    FindLinePrefix(b1, b2, off);
    var line := FindLine(b1, off);
    if line.Ok? && off + 2 < line.value {
      FieldLinePrefix(p, b1, b2, off, line.value);
    }
  }

  /** A turn that ends in a prefix of the buffer ends the same way on the whole buffer. */
  lemma StepPrefix(p: Snapshot, b1: seq<byte>, b2: seq<byte>, off: nat)
    requires b1 <= b2 && p.state != F && p.state != B && off < |b1|
    requires !StepAt(p, b1, off).Return?
    ensures StepAt(p, b2, off) == StepAt(p, b1, off)
  {
    if p.state == I {
      HeadlinePrefix(p, b1, b2, off);
    } else {
      HeaderPrefix(p, b1, b2, off);
    }
  }

  /** The body step on a prefix, followed by a body step on the rest, is one body step on the whole. */
  lemma BodyPrefix(p: Snapshot, b1: seq<byte>, b2: seq<byte>, off: nat)
    requires b1 <= b2 && p.state == B && off < |b1|
    requires BodyStep(p, b1, off).Return?
    ensures Loop(BodyStep(p, b1, off).p, b2, BodyStep(p, b1, off).off) == Loop(p, b2, off)
  {
    var r2 := BodyStep(p, b2, off);
    assert StepAt(p, b2, off) == r2;
    assert Loop(p, b2, off) == (r2.p, Ok(r2.off));
    if |b1| - off < p.bodyNeedLength && |b1| < |b2| {
      BodyPrefixPartial(p, b1, b2, off);
    } else {
      BodyPrefixSame(p, b1, b2, off);
    }
  }

  /**
    When the prefix completes the body, or is the whole buffer, the body step
    on it is the body step on the whole and the loop stops there.
   */
  lemma BodyPrefixSame(p: Snapshot, b1: seq<byte>, b2: seq<byte>, off: nat)
    requires b1 <= b2 && p.state == B && off < |b1|
    requires BodyStep(p, b1, off).Return?
    requires |b1| - off >= p.bodyNeedLength || |b1| == |b2|
    ensures BodyStep(p, b2, off) == BodyStep(p, b1, off)
    ensures Loop(BodyStep(p, b1, off).p, b2, BodyStep(p, b1, off).off) == (BodyStep(p, b1, off).p, Ok(BodyStep(p, b1, off).off))
  {
    var need := p.bodyNeedLength;
    var r1 := BodyStep(p, b1, off);
    if |b1| - off >= need {
      assert b1[off..off + need] == b2[off..off + need];
      assert r1.off == off + need && r1.p.state == F;
    } else {
      assert b1 == b2;
      assert r1.off == |b2|;
    }
  }

  /** What a body step that did not throw returns, once the body is `body` and `need` bytes are still wanted. */
  function BodyReturn(p: Snapshot, body: seq<byte>, need: nat, off: nat): StepResult
  {
    if need == 0 then Return(p.(state := F, bodyNeedLength := 0, headers := p.headers.(body := Str(CStringText(body)))), off)
    else Return(p.(bodyNeedLength := need, headers := p.headers.(body := Bytes(body))), off)
  }

  /**
    A body step that does not throw takes all it can, `m` bytes, up to the
    bytes still wanted: `body` is what it has then and `need` what it still wants.
   */
  lemma BodyStepReturns(p: Snapshot, buf: seq<byte>, off: nat, m: nat, body: seq<byte>, need: nat)
    requires off < |buf| && p.bodyEndSignal != Unset && p.headers.body.Bytes?
    requires m == if |buf| - off <= p.bodyNeedLength then |buf| - off else p.bodyNeedLength
    requires body == p.headers.body.bytes + buf[off..off + m] && need == p.bodyNeedLength - m
    ensures BodyStep(p, buf, off) == BodyReturn(p, body, need, off + m)
  {
  }

  /** The body so far, then the rest of a prefix, then bytes past the prefix, is the body then one slice of the whole. */
  lemma BodyJoin(body: seq<byte>, b1: seq<byte>, b2: seq<byte>, off: nat, m1: nat, m3: nat, m2: nat)
    requires b1 <= b2 && off + m1 == |b1| && m1 + m3 == m2 && |b1| + m3 <= |b2|
    ensures body + b1[off..off + m1] + b2[|b1|..|b1| + m3] == body + b2[off..off + m2]
  {
    SliceJoin(b1, b2, off, m3);
    assert b1[off..off + m1] == b1[off..];
    assert body + b1[off..off + m1] + b2[|b1|..|b1| + m3] == body + (b1[off..off + m1] + b2[|b1|..|b1| + m3]);
  }

  /**
    When the prefix ends inside the body, the body step on the rest of the
    whole buffer picks up where the step on the prefix stopped.
   */
  lemma BodyPrefixPartial(p: Snapshot, b1: seq<byte>, b2: seq<byte>, off: nat)
    requires b1 <= b2 && p.state == B && off < |b1|
    requires BodyStep(p, b1, off).Return?
    requires |b1| - off < p.bodyNeedLength && |b1| < |b2|
    ensures BodyStep(p, b1, off).off == |b1| && BodyStep(p, b1, off).p.state == B
    ensures BodyStep(BodyStep(p, b1, off).p, b2, |b1|) == BodyStep(p, b2, off)
    ensures Loop(BodyStep(p, b1, off).p, b2, |b1|) == (BodyStep(p, b2, off).p, Ok(BodyStep(p, b2, off).off))
  {
    var body := p.headers.body.bytes;
    var need := p.bodyNeedLength;
    var m1 := |b1| - off;
    var m2 := if |b2| - off <= need then |b2| - off else need;
    var m3 := if |b2| - |b1| <= need - m1 then |b2| - |b1| else need - m1;
    assert m1 + m3 == m2 && |b1| + m3 == off + m2;
    var x := body + b1[off..off + m1];
    BodyStepReturns(p, b1, off, m1, x, need - m1);
    var q1 := BodyStep(p, b1, off).p;
    assert q1 == BodyReturn(p, x, need - m1, |b1|).p;
    assert q1.headers.body == Bytes(x) && q1.bodyNeedLength == need - m1 && q1.bodyEndSignal == p.bodyEndSignal;
    var whole := body + b2[off..off + m2];
    BodyJoin(body, b1, b2, off, m1, m3, m2);
    BodyStepReturns(q1, b2, |b1|, m3, whole, need - m2);
    BodyStepReturns(p, b2, off, m2, whole, need - m2);
    ReturnThenReturn(p, x, whole, need - m1, need - m2, |b1|, off + m2);
    assert StepAt(q1, b2, |b1|) == BodyStep(q1, b2, |b1|);
  }

  /** A body step that leaves bytes wanted, then one that returns `r`, end as if only the second had run. */
  lemma ReturnThenReturn(p: Snapshot, mid: seq<byte>, whole: seq<byte>, need1: nat, need2: nat, o1: nat, o2: nat)
    requires need1 > 0
    ensures BodyReturn(BodyReturn(p, mid, need1, o1).p, whole, need2, o2) == BodyReturn(p, whole, need2, o2)
  {
  }

  /** The loop's final state and offset, or its exception, from offset `off`. */
  ghost function Outcome(p: Snapshot, buf: seq<byte>, off: nat): (Snapshot, Result<nat, HttpError>)
  {
    Loop(p, buf, off)
  }

  /** `LoopPrefix` with the first loop's outcome named. */
  lemma LoopPrefixAt(p: Snapshot, b1: seq<byte>, b2: seq<byte>, off: nat, q: Snapshot, e: nat)
    requires b1 <= b2 && Outcome(p, b1, off) == (q, Ok(e))
    ensures Outcome(q, b2, e) == Outcome(p, b2, off)
  {
    var l := Loop(p, b1, off);
    LoopPrefix(p, b1, b2, off);
    assert l.0 == q && l.1.value == e;
  }

  lemma {:induction false} LoopPrefix(p: Snapshot, b1: seq<byte>, b2: seq<byte>, off: nat)
    requires b1 <= b2
    requires Loop(p, b1, off).1.Ok?
    ensures Loop(Loop(p, b1, off).0, b2, Loop(p, b1, off).1.value) == Loop(p, b2, off)
    decreases |b1| - off
  {
    if p.state != F && off < |b1| {
      if p.state == B {
        BodyPrefix(p, b1, b2, off);
      } else if !StepAt(p, b1, off).Return? {
        StepPrefix(p, b1, b2, off);
        var q := StepAt(p, b1, off).p;
        var off1 := StepAt(p, b1, off).off;
        LoopPrefix(q, b1, b2, off1);
      }
    }
  }

  /** A count of consumed bytes, `n` more. */
  function AddConsumed(r: Result<nat, HttpError>, n: nat): Result<nat, HttpError>
  {
    if r.Ok? then Ok(r.value + n) else r
  }

  /**
    Calling again with the grown buffer and the advanced head resumes where the
    last call stopped: a single call on the whole buffer reaches the same state,
    having consumed what both calls consumed together, or throws the same
    exception.
   */
  lemma ResumeOnGrownBuffer(p: Snapshot, b1: seq<byte>, b2: seq<byte>, bufHead: nat, q1: Snapshot, n1: nat,
                            q2: Snapshot, r2: Result<nat, HttpError>)
    requires b1 <= b2
    requires Run(p, b1, bufHead) == (q1, Ok(n1))
    requires Run(q1, b2, bufHead + n1) == (q2, r2)
    ensures Run(p, b2, bufHead) == (q2, AddConsumed(r2, n1))
  {
    RunOkLoop(p, b1, bufHead, q1, n1);
    LoopPrefixAt(p, b1, b2, bufHead, q1, bufHead + n1);
    RunResumed(p, b2, bufHead, q1, n1, q2, r2);
  }

  /** A call that returned `n` left the loop at offset `bufHead + n`. */
  lemma RunOkLoop(p: Snapshot, buf: seq<byte>, bufHead: nat, q: Snapshot, n: nat)
    requires Run(p, buf, bufHead) == (q, Ok(n))
    ensures Outcome(p, buf, bufHead) == (q, Ok(bufHead + n))
  {
    FromHeadOk(Loop(p, buf, bufHead), bufHead, q, n);
  }

  lemma FromHeadOk(l: (Snapshot, Result<nat, HttpError>), h: nat, q: Snapshot, n: nat)
    requires l.1.Ok? ==> h <= l.1.value
    requires FromHead(l, h) == (q, Ok(n))
    ensures l == (q, Ok(h + n))
  {
  }

  /** A call from `h + n` whose loop is the loop from `h` reports `n` bytes fewer. */
  lemma RunResumed(p: Snapshot, buf: seq<byte>, h: nat, q1: Snapshot, n: nat, q2: Snapshot, r2: Result<nat, HttpError>)
    requires Outcome(q1, buf, h + n) == Outcome(p, buf, h)
    requires Run(q1, buf, h + n) == (q2, r2)
    ensures Run(p, buf, h) == (q2, AddConsumed(r2, n))
  {
    var whole := Loop(p, buf, h);
    FromHeadShift(whole, h, n);
  }

  /** Counting a loop outcome from `h` adds `n` to what counting it from `h + n` gives. */
  lemma FromHeadShift(l: (Snapshot, Result<nat, HttpError>), h: nat, n: nat)
    requires l.1.Ok? ==> h + n <= l.1.value
    ensures FromHead(l, h) == (FromHead(l, h + n).0, AddConsumed(FromHead(l, h + n).1, n))
  {
  }

  /** The loop's view of a call: offsets counted from the buffer's start. */
  lemma LoopOfRun(p: Snapshot, buf: seq<byte>, bufHead: nat)
    ensures Loop(p, buf, bufHead) == (Run(p, buf, bufHead).0, AddConsumed(Run(p, buf, bufHead).1, bufHead))
  {
    FromHeadBack(Loop(p, buf, bufHead), bufHead);
  }

  /** Counting from `h` and adding `h` back gives the loop outcome. */
  lemma FromHeadBack(l: (Snapshot, Result<nat, HttpError>), h: nat)
    requires l.1.Ok? ==> h <= l.1.value
    ensures l == (FromHead(l, h).0, AddConsumed(FromHead(l, h).1, h))
  {
  }

  // ---------------------------------------------------------------------------
  // Content-Length as parseInt reads it
  // ---------------------------------------------------------------------------

  /**
    The code as written, on a header block whose Content-Length is "-3":
    `parseInt` gives -3 and the body step takes -3 bytes. When the blank line
    ending the headers and a body byte arrive in one call, that call returns
    -1, sending the caller's head back before where it started, and the
    state becomes F. When the blank line ends the buffer, the call stops in
    state B with -3 still needed; the next call, once more bytes arrived,
    returns -3.
   */
  lemma NegativeLengthMovesHeadBack(p: Snapshot, need: JsNumber, buf: seq<byte>, off: nat, rest: seq<byte>)
    requires p.state == H && "Content-Length" in p.headers.fields && p.headers.fields["Content-Length"] == "-3"
    requires off + 2 == |buf| && buf[off] == CR && buf[off + 1] == LF
    requires rest != []
    ensures var r := AsWrittenRun(p, need, buf + rest, off); r.0.state == F && r.2 == Ok(Num(-1))
    ensures var r := AsWrittenRun(p, need, buf, off); r.0.state == B && r.1 == Num(-3) && r.2 == Ok(Num(2))
    ensures var r := AsWrittenRun(p, need, buf, off);
      var r2 := AsWrittenRun(r.0, r.1, buf + rest, off + 2);
      r2.0.state == F && r2.2 == Ok(Num(-3))
  {
    ParseIntMinusThree();
    var whole := buf + rest;
    BlankLineAt(buf, off);
    BlankLineAt(whole, off);
    var q := LengthRead(p);
    AsWrittenHeadersEnd(p, need, buf, off, -3);
    AsWrittenHeadersEnd(p, need, whole, off, -3);
    LoopStopsAsWritten(q, Num(-3), buf, off + 2);
    AsWrittenNegativeBody(q, -3, whole, off + 2);
  }

  lemma ParseIntMinusThree()
    ensures JsParseInt("-3") == Some(-3)
  {
    assert TrimStart("-3") == "-3";
    assert DigitPrefix("3") == "3";
    assert DecimalValue("3") == 3;
  }

  /** A CRLF at `off` is a blank line. */
  lemma BlankLineAt(buf: seq<byte>, off: nat)
    requires off + 2 <= |buf| && buf[off] == CR && buf[off + 1] == LF
    ensures FindLine(buf, off) == Ok(off + 2)
  {
    assert FindChar(buf, off, LF) == off + 1;
  }

  /** The state the blank line leads to when Content-Length is present: B, length-based, an empty body. */
  function LengthRead(p: Snapshot): (q: Snapshot)
    ensures q.state == B && q.bodyEndSignal == LengthBased && q.headers.body == Bytes([])
  {
    p.(state := B, bodyEndSignal := LengthBased, headers := p.headers.(body := Bytes([])))
  }

  /** As written, the blank line after a Content-Length that `parseInt` reads as `n` goes on in state B with `n` needed. */
  lemma AsWrittenHeadersEnd(p: Snapshot, need: JsNumber, buf: seq<byte>, off: nat, n: int)
    requires p.state == H && off < |buf| && FindLine(buf, off) == Ok(off + 2)
    requires "Content-Length" in p.headers.fields && JsParseInt(p.headers.fields["Content-Length"]) == Some(n)
    ensures AsWrittenLoop(p, need, buf, off) == AsWrittenLoop(LengthRead(p), Num(n), buf, off + 2)
  {
  }

  lemma LoopStopsAsWritten(p: Snapshot, need: JsNumber, buf: seq<byte>, off: nat)
    requires off >= |buf|
    ensures AsWrittenLoop(p, need, buf, off) == (p, need, Ok(Num(off)))
  {
  }

  /** As written, a negative length `n` in state B takes `n` bytes: the offset moves back by `-n` and the state becomes F. */
  lemma AsWrittenNegativeBody(q: Snapshot, n: int, buf: seq<byte>, off: nat)
    requires q.state == B && q.bodyEndSignal == LengthBased && q.headers.body.Bytes?
    requires n < 0 && off < |buf|
    ensures var r := AsWrittenLoop(q, Num(n), buf, off); r.0.state == F && r.1 == Num(0) && r.2 == Ok(Num(off + n))
  {
    assert AsWrittenStepLength(|buf| - off, n) == n;
  }

  /** With the length checked first, a Content-Length `parseInt` reads as negative or NaN is an error. */
  lemma NegativeLengthRejected(p: Snapshot, buf: seq<byte>, off: nat)
    requires p.state == H && off + 2 <= |buf| && buf[off] == CR && buf[off + 1] == LF
    requires "Content-Length" in p.headers.fields
    requires var v := JsParseInt(p.headers.fields["Content-Length"]); v.None? || v.value < 0
    ensures Run(p, buf, off) == (p.(state := B), Err(InvalidContentLength(p.headers.fields["Content-Length"])))
  {
    assert FindChar(buf, off, LF) == off + 1;
  }
}
