/**
  The HTTP server's bookkeeping: the status-phrase table, the per-client
  records with their input and output buffers and head cursors, the response
  writer handed to the request handler, and one round of the `select` loop.

  Sockets, `select`, `accept`, `read`, `write` and `close` are not modelled as
  I/O: what they return is a parameter (`IoRead`, a byte count, a socket
  number). The parser's `pick`, `createHeaders`, `fmtResponseHeadline` and
  `formResponse` are not shown anywhere; where they matter they are
  function-valued parameters.
 */
module HttpServer {
  import opened Wrappers
  import opened Text
  import opened BinaryBuffer
  import opened HttpProtocol

  const OurHttpVersion: string := "HTTP/1.1"

  /** The most bytes one `read` on a client socket asks for. */
  const ParamReadSize: nat := 1024 * 32

  /** The status codes the server can describe, with their reason phrases. */
  const HttpCodeDescriptions: map<int, string> := map[
    200 := "OK",
    201 := "Created",
    202 := "Accepted",
    203 := "Non-Authoritative Information",
    204 := "No Content",
    205 := "Reset Content",
    206 := "Partial Content",
    207 := "Multi-Status",
    208 := "Already Reported",
    226 := "IM Used",
    300 := "Multiple Choices",
    301 := "Moved Permanently",
    400 := "Bad Request",
    401 := "Unauthorized",
    404 := "Not Found",
    500 := "Internal Server Error"
  ]

  /** What the server throws: a failed system call, an `error(http): ...` message, or the parser's exception. */
  datatype ServerError =
    | SysCallFailed(fname: string)  // "http: <fname> failed: <strerror>"
    | Thrown(msg: string)           // a string thrown by the server itself
    | ParserError(e: HttpError)     // an exception out of `processData`
    | NotAFunction(name: string)    // the engine's TypeError for calling an undefined property

  // ---------------------------------------------------------------------------
  // Status phrases
  // ---------------------------------------------------------------------------

  /** The message `Throw` builds. */
  function ErrorMessage(msg: string): string
  {
    "error(http): " + msg
  }

  /** `findHttpCodeDescription(code)`: the table's phrase, or the "Unknown httpCode=" exception. */
  function FindHttpCodeDescription(code: int): (r: Result<string, string>)
    ensures r.Ok? <==> code in HttpCodeDescriptions
    ensures r.Ok? ==> r.value == HttpCodeDescriptions[code] && r.value != ""
    ensures r.Err? ==> r.error == ErrorMessage("Unknown httpCode=" + IntToString(code))
  {
    if code in HttpCodeDescriptions then Ok(HttpCodeDescriptions[code])
    else Err(ErrorMessage("Unknown httpCode=" + IntToString(code)))
  }

  /** Every described code is a success, redirection, client-error or server-error status. */
  lemma DescribedCodesAreStatuses(code: int)
    requires FindHttpCodeDescription(code).Ok?
    ensures 200 <= code < 600
  {
  }

  /** The exception for an unknown code names that code: two codes with the same message are the same code. */
  lemma UnknownCodeMessageNamesCode(a: int, b: int)
    requires FindHttpCodeDescription(a).Err? && FindHttpCodeDescription(a) == FindHttpCodeDescription(b)
    ensures a == b
  {
    UnknownCodeSuffix(a);
    UnknownCodeSuffix(b);
    IntToStringInjective(a, b);
  }

  lemma UnknownCodeSuffix(code: int)
    requires FindHttpCodeDescription(code).Err?
    ensures FindHttpCodeDescription(code).error[|"error(http): Unknown httpCode="|..] == IntToString(code)
  {
  }

  // ---------------------------------------------------------------------------
  // delOneFromArray
  // ---------------------------------------------------------------------------

  /** `delOneFromArray(arr, val)`: the loop that finds the first `val` and splices it out. */
  method DelOneFromArray(arr: seq<int>, val: int) returns (r: seq<int>)
    ensures r == RemoveFirst(arr, val)
  {
    r := arr;
    var i := 0;
    while i < |r|
      invariant 0 <= i <= |arr| && r == arr
      invariant RemoveFirst(arr, val) == arr[..i] + RemoveFirst(arr[i..], val)
    {
      if r[i] == val {
        r := r[..i] + r[i + 1..];
        return;
      }
      assert arr[i..] == [arr[i]] + arr[i + 1..];
      assert arr[..i + 1] == arr[..i] + [arr[i]];
      i := i + 1;
    }
  }

  /** One step of listing a set in ascending order: its least element moves from the set to the list. */
  lemma {:induction false} SortedStep(all: set<int>, rest: set<int>, done: seq<int>, s: int)
    requires done + SortedInts(rest) == SortedInts(all)
    requires s in rest && forall y :: y in rest ==> s <= y
    ensures (done + [s]) + SortedInts(rest - {s}) == SortedInts(all)
    ensures s in all
  {
    assert IsLeastInt(s, rest);
    SortedIntsUnfold(rest, s);
    var tail := SortedInts(rest - {s});
    assert done + ([s] + tail) == (done + [s]) + tail;
    assert SortedInts(all)[|done|] == s;
  }

  /** Strictly increasing socket numbers. */
  predicate Ascending(s: seq<int>)
  {
    forall i, j :: 0 <= i < j < |s| ==> s[i] < s[j]
  }

  /**
    Removing a closed socket from a list that holds the sockets of `l0` not yet
    closed leaves one that holds those of `l0` not closed now.
   */
  lemma DropClosed(l: seq<int>, l0: seq<int>, closed: set<int>, sock: int)
    requires Distinct(l) && forall s :: s in l <==> s in l0 && s !in closed
    ensures Distinct(RemoveFirst(l, sock))
    ensures forall s :: s in RemoveFirst(l, sock) <==> s in l0 && s !in closed + {sock}
  {
    RemoveFirstDistinct(l, sock);
  }

  // ---------------------------------------------------------------------------
  // Client records
  // ---------------------------------------------------------------------------

  /** What one `read` on a client socket gave: a failure (-1) or the bytes read, none at end of file. */
  datatype IoRead = ReadFailed | ReadBytes(bytes: seq<byte>)

  /**
    A client record: the socket, the outgoing buffer with the offset of the
    first unsent byte, the incoming buffer with the offset of the first
    unparsed byte, and a request parser.
   */
  class Client {
    const sock: int
    const bufOut: Binary
    var bufOutHead: nat
    const httpOutProcessor: Processor
    const bufIn: Binary
    var bufInHead: nat
    const httpInProcessor: Processor

    /** The objects this record owns. */
    ghost function Objects(): set<object>
    {
      {this, bufOut, httpOutProcessor, bufIn, httpInProcessor}
    }

    /** No object of this record is one of `other`'s. */
    predicate ApartFrom(other: Client)
    {
      this != other
      && bufOut != other.bufOut && bufOut != other.bufIn && bufIn != other.bufOut && bufIn != other.bufIn
      && httpOutProcessor != other.httpOutProcessor && httpOutProcessor != other.httpInProcessor
      && httpInProcessor != other.httpOutProcessor && httpInProcessor != other.httpInProcessor
    }

    /** The record as a value. */
    ghost function View(): ClientView
      reads this, bufOut, bufIn, httpInProcessor
    {
      ClientView(bufOut.data, bufOutHead, bufIn.data, bufInHead, httpInProcessor.Snap())
    }

    /** The two buffers are distinct and each head lies within its buffer. */
    ghost predicate Valid()
      reads this, bufOut, bufIn
    {
      bufOut != bufIn && bufOutHead <= |bufOut.data| && bufInHead <= |bufIn.data|
    }

    /**
      The record `_acceptConnection_` creates: empty buffers, heads at 0,
      fresh parsers. The code builds each buffer with `new Binary()`, which
      as written aborts or holds "undefined" (`NoArgumentBinary`); the model
      starts them empty, as `new Binary("")` would (`EmptyArgumentBinary`).
     */
    constructor (clntSock: int)
      ensures sock == clntSock
      ensures fresh(bufOut) && fresh(bufIn) && fresh(httpOutProcessor) && fresh(httpInProcessor)
      ensures View() == NewClient
      ensures Valid()
    {
      sock := clntSock;
      bufOut := new Binary.Of([]);
      bufOutHead := 0;
      httpOutProcessor := new Processor();
      bufIn := new Binary.Of([]);
      bufInHead := 0;
      httpInProcessor := new Processor();
    }

    /** Bytes are waiting to be sent. */
    predicate HasPendingOutput()
      reads this, bufOut
    {
      bufOutHead < |bufOut.data|
    }

    /**
      `canWrite()`: `nbytes` is what `write` returned for the bytes from the head
      on; the head moves by exactly that much and the buffer is not touched.
     */
    method CanWrite(nbytes: int) returns (r: Result<(), ServerError>)
      requires nbytes >= -1
      modifies this
      ensures nbytes == -1 <==> r.Err?
      ensures r.Err? ==> r.error == SysCallFailed("write") && bufOutHead == old(bufOutHead)
      ensures r.Ok? ==> bufOutHead == old(bufOutHead) + nbytes
      ensures bufInHead == old(bufInHead)
      ensures WriteOne(old(View()), nbytes) == if r.Ok? then Ok(View()) else Err(r.error)
      ensures r.Err? ==> View() == old(View())
      ensures old(Valid()) && nbytes <= old(|bufOut.data| - bufOutHead) ==> Valid()
    {
      if nbytes == -1 {
        return Err(SysCallFailed("write"));
      }
      bufOutHead := bufOutHead + nbytes;
      return Ok(());
    }

    /**
      `_onSendHttpResponse`: the formatted response goes at the end of the
      outgoing buffer; nothing else changes.
     */
    method SendResponse(response: seq<byte>)
      modifies bufOut
      ensures bufOut.data == old(bufOut.data) + response
    {
      bufOut.AppendRaw(response);
    }

    /**
      `_onNewClientData`: the parser runs over the unparsed input and the head
      moves by what it consumed; the result says whether the request is
      complete and goes to the request handler.
     */
    method OnNewData() returns (r: Result<bool, ServerError>)
      requires Valid()
      modifies this, httpInProcessor
      ensures (View(), r) == ParseNewData(old(View()))
      ensures Valid()
    {
      var consumed := httpInProcessor.ProcessData(bufIn.data, bufInHead);
      if consumed.Err? {
        return Err(ParserError(consumed.error));
      }
      bufInHead := bufInHead + consumed.value;
      var st := httpInProcessor.GetState();
      r := Ok(st == 'F');
    }
  }

  /** What a read event led to: new input (and whether a request became complete), or end of file. */
  datatype ReadOutcome = NewData(dispatched: bool) | Eof

  /** What `select` reported: its status and the ready sockets for reading, writing and exceptions. */
  datatype Selected = Selected(status: int, rd: seq<int>, wr: seq<int>, ex: seq<int>)

  /** The except phase: the first socket with an exception condition aborts the loop. */
  function ExceptPhase(ex: seq<int>): (r: Result<(), ServerError>)
    ensures r.Ok? <==> ex == []
    ensures r.Err? ==> r.error == Thrown("Unhandled except condition on a client socket @sock=" + IntToString(ex[0]))
  {
    if ex == [] then Ok(())
    else Err(Thrown("Unhandled except condition on a client socket @sock=" + IntToString(ex[0])))
  }

  // ---------------------------------------------------------------------------
  // The client records as values, and one iteration of `listen` on them
  // ---------------------------------------------------------------------------

  /**
    A client record as a value: the outgoing bytes and the offset of the
    first unsent one, the incoming bytes and the offset of the first
    unparsed one, and the request parser's state.
   */
  datatype ClientView = ClientView(output: seq<byte>, outHead: nat, input: seq<byte>, inHead: nat, parser: Snapshot)

  /** The record `_acceptConnection_` creates: empty buffers, heads at 0, a fresh parser. */
  const NewClient: ClientView := ClientView([], 0, [], 0, Snapshot(I, EmptyHeaders, Unset, 0))

  /** The names the parser module exports: only `create`. */
  const ProtocolExports: set<string> := {"create"}

  /**
    `_acceptConnection_` on the records `v` when it builds the parsers by
    calling the parser module's property `name`: a name the module does not
    export is undefined, and calling it throws the engine's TypeError before
    the record is filed.
   */
  function AcceptWith(v: map<int, ClientView>, clntSock: int, name: string): (r: (map<int, ClientView>, Result<(), ServerError>))
    ensures r.1.Ok? <==> name in ProtocolExports
    ensures r.1.Ok? ==> r.0 == v[clntSock := NewClient]
    ensures r.1.Err? ==> r.0 == v && r.1.error == NotAFunction(name)
  {
    if name in ProtocolExports then (v[clntSock := NewClient], Ok(())) else (v, Err(NotAFunction(name)))
  }

  /**
    As written, `_acceptConnection_` calls `createProcessor`, which the
    parser module does not export, so accepting a connection throws and files
    nothing; calling `create`, as `Server.AcceptConnection` does, files a
    fresh record.
   */
  lemma AcceptAsWrittenThrows(v: map<int, ClientView>, clntSock: int)
    ensures AcceptWith(v, clntSock, "createProcessor") == (v, Err(NotAFunction("createProcessor")))
    ensures AcceptWith(v, clntSock, "create") == (v[clntSock := NewClient], Ok(()))
  {
    assert "createProcessor" != "create" by {
      assert |"createProcessor"| != |"create"|;
    }
  }

  /** Every record's outgoing head lies within its buffer. */
  predicate OutHeadsWithin(v: map<int, ClientView>)
  {
    forall s :: s in v ==> v[s].outHead <= |v[s].output|
  }

  /**
    `_onNewClientData` on a record: the parser runs over the unparsed input.
    On success the head moves by the bytes consumed and the request is
    complete exactly when the state is F; on an exception the head stays.
   */
  function ParseNewData(c: ClientView): (r: (ClientView, Result<bool, ServerError>))
    ensures r.0.output == c.output && r.0.outHead == c.outHead && r.0.input == c.input
  {
    var run := Run(c.parser, c.input, c.inHead);
    match run.1
    case Ok(n) => (c.(parser := run.0, inHead := c.inHead + n), Ok(run.0.state == F))
    case Err(e) => (c.(parser := run.0), Err(ParserError(e)))
  }

  /**
    A client socket's `canRead` on the records `v`: a failed read throws; no
    bytes means end of file, and the record goes once `close` succeeds;
    bytes read go at the end of the input and the parser runs.
   */
  function ReadClient(v: map<int, ClientView>, sock: int, io: IoRead, closeResult: int)
    : (r: (map<int, ClientView>, Result<ReadOutcome, ServerError>))
    requires sock in v
    ensures r.0.Keys == if r.1 == Ok(Eof) then v.Keys - {sock} else v.Keys
    ensures forall s :: s in r.0 ==> r.0[s].output == v[s].output && r.0[s].outHead == v[s].outHead
  {
    match io
    case ReadFailed => (v, Err(SysCallFailed("read")))
    case ReadBytes(bytes) =>
      if bytes == [] then
        if closeResult == -1 then (v, Err(SysCallFailed("close"))) else (v - {sock}, Ok(Eof))
      else
        var c := v[sock];
        var nd := ParseNewData(c.(input := c.input + bytes));
        (v[sock := nd.0], match nd.1 case Ok(d) => Ok(NewData(d)) case Err(e) => Err(e))
  }

  /**
    One socket of the read phase on the records `v`: the listening socket
    accepts a client (`accepted` is what `accept` returned), a client socket
    reads. The result holds the new records, whether the client went away,
    and whether the step threw.
   */
  function ReadStep(v: map<int, ClientView>, servSock: int, sock: int, accepted: int, io: IoRead, closeResult: int)
    : (r: (map<int, ClientView>, bool, Result<(), ServerError>))
    requires sock == servSock || sock in v
    ensures forall s :: s in v && s != sock ==> s in r.0
    ensures r.1 ==> sock != servSock && sock !in r.0
    ensures OutHeadsWithin(v) ==> OutHeadsWithin(r.0)
  {
    if sock == servSock then
      if accepted == -1 then (v, false, Err(SysCallFailed("accept"))) else (v[accepted := NewClient], false, Ok(()))
    else
      var rc := ReadClient(v, sock, io, closeResult);
      (rc.0, rc.1 == Ok(Eof), if rc.1.Ok? then Ok(()) else Err(rc.1.error))
  }

  /** The read phase's bookkeeping: the records, this iteration's write and except lists, and the clients that went away. */
  datatype ReadState = ReadState(v: map<int, ClientView>, wr: seq<int>, ex: seq<int>, closed: set<int>)

  /**
    The read phase from the `i`-th ready socket on: each socket in turn
    takes its `ReadStep`; a client that went away leaves the write and
    except lists; the first step that throws ends the phase.
   */
  function ReadsFrom(st: ReadState, ready: seq<int>, i: nat, servSock: int, accepted: int,
                     readResult: int -> IoRead, closeResult: int -> int): (r: (ReadState, Result<(), ServerError>))
    requires i <= |ready| && Distinct(ready)
    requires forall j :: i <= j < |ready| ==> ready[j] == servSock || ready[j] in st.v
    ensures OutHeadsWithin(st.v) ==> OutHeadsWithin(r.0.v)
    ensures Distinct(st.wr) && (forall s :: s in st.wr ==> s in st.v) ==>
      Distinct(r.0.wr) && forall s :: s in r.0.wr ==> s in r.0.v
    decreases |ready| - i
  {
    if i == |ready| then (st, Ok(()))
    else
      var sock := ready[i];
      var step := ReadStep(st.v, servSock, sock, accepted, readResult(sock), closeResult(sock));
      if step.2.Err? then (st.(v := step.0), step.2)
      else
        DropFromList(st.wr, sock);
        ReadsFrom(ReadNext(st, sock, step.0, step.1), ready, i + 1, servSock, accepted, readResult, closeResult)
  }

  /** The bookkeeping after a step that did not throw left the records `v`; `gone` says the client went away. */
  function ReadNext(st: ReadState, sock: int, v: map<int, ClientView>, gone: bool): ReadState
  {
    if gone then ReadState(v, RemoveFirst(st.wr, sock), RemoveFirst(st.ex, sock), st.closed + {sock})
    else st.(v := v)
  }

  /**
    What holds between two steps of the read phase that began with the
    records `keys0`, the write list `wr0` and the except list `ex0`: the
    sockets still to come are the listening socket or filed records and none
    has gone; the write and except lists are the initial ones less the
    clients that went away, each without repeats and each naming filed
    records; only initial clients went away.
   */
  ghost predicate ReadInv(st: ReadState, keys0: set<int>, wr0: seq<int>, ex0: seq<int>,
                          ready: seq<int>, i: nat, servSock: int)
  {
    i <= |ready| && Distinct(ready)
    && (forall j :: i <= j < |ready| ==> ready[j] == servSock || ready[j] in st.v)
    && (forall j :: i <= j < |ready| ==> ready[j] !in st.closed)
    && Distinct(st.wr) && (forall s :: s in st.wr <==> s in wr0 && s !in st.closed)
    && Distinct(st.ex) && (forall s :: s in st.ex <==> s in ex0 && s !in st.closed)
    && (forall s :: s in st.wr || s in st.ex ==> s in st.v)
    && st.closed <= keys0
  }

  /**
    One step of the read phase: `ReadsFrom` at `i` is the step followed by
    the rest; a step that throws keeps the invariant where it is, one that
    does not carries it to the next socket.
   */
  lemma ReadInvStep(st: ReadState, keys0: set<int>, wr0: seq<int>, ex0: seq<int>, ready: seq<int>, i: nat,
                    servSock: int, accepted: int, readResult: int -> IoRead, closeResult: int -> int)
    requires ReadInv(st, keys0, wr0, ex0, ready, i, servSock) && i < |ready|
    requires forall s :: s in ready ==> s == servSock || s in keys0
    ensures var sock := ready[i];
      var step := ReadStep(st.v, servSock, sock, accepted, readResult(sock), closeResult(sock));
      ReadsFrom(st, ready, i, servSock, accepted, readResult, closeResult)
        == (if step.2.Err? then (st.(v := step.0), step.2)
            else ReadsFrom(ReadNext(st, sock, step.0, step.1), ready, i + 1, servSock, accepted, readResult, closeResult))
      && (step.2.Err? ==> ReadInv(st.(v := step.0), keys0, wr0, ex0, ready, i, servSock))
      && (step.2.Ok? ==> ReadInv(ReadNext(st, sock, step.0, step.1), keys0, wr0, ex0, ready, i + 1, servSock))
  {
    ReadsFromUnfold(st, ready, i, servSock, accepted, readResult, closeResult);
    ReadInvNext(st, keys0, wr0, ex0, ready, i, servSock, accepted, readResult(ready[i]), closeResult(ready[i]));
  }

  /** `ReadsFrom` at a socket still to come is its step followed by the rest. */
  lemma ReadsFromUnfold(st: ReadState, ready: seq<int>, i: nat, servSock: int, accepted: int,
                        readResult: int -> IoRead, closeResult: int -> int)
    requires i < |ready| && Distinct(ready)
    requires forall j :: i <= j < |ready| ==> ready[j] == servSock || ready[j] in st.v
    ensures var sock := ready[i];
      var step := ReadStep(st.v, servSock, sock, accepted, readResult(sock), closeResult(sock));
      && (step.2.Ok? ==> forall j :: i + 1 <= j < |ready| ==> ready[j] == servSock || ready[j] in ReadNext(st, sock, step.0, step.1).v)
      && ReadsFrom(st, ready, i, servSock, accepted, readResult, closeResult)
        == (if step.2.Err? then (st.(v := step.0), step.2)
            else ReadsFrom(ReadNext(st, sock, step.0, step.1), ready, i + 1, servSock, accepted, readResult, closeResult))
  {
    var sock := ready[i];
    forall j | i < j < |ready| ensures ready[j] != sock {
    }
  }

  /** A step keeps `ReadInv`: at the same socket when it throws, at the next one when it does not. */
  lemma ReadInvNext(st: ReadState, keys0: set<int>, wr0: seq<int>, ex0: seq<int>, ready: seq<int>, i: nat,
                    servSock: int, accepted: int, io: IoRead, closeResult: int)
    requires ReadInv(st, keys0, wr0, ex0, ready, i, servSock) && i < |ready|
    requires forall s :: s in ready ==> s == servSock || s in keys0
    ensures var step := ReadStep(st.v, servSock, ready[i], accepted, io, closeResult);
      && (step.2.Err? ==> ReadInv(st.(v := step.0), keys0, wr0, ex0, ready, i, servSock))
      && (step.2.Ok? ==> ReadInv(ReadNext(st, ready[i], step.0, step.1), keys0, wr0, ex0, ready, i + 1, servSock))
  {
    var sock := ready[i];
    var step := ReadStep(st.v, servSock, sock, accepted, io, closeResult);
    assert sock in ready;
    forall j | i < j < |ready| ensures ready[j] != sock {
    }
    if step.1 {
      DropClosed(st.wr, wr0, st.closed, sock);
      DropClosed(st.ex, ex0, st.closed, sock);
    }
  }

  /** Dropping a socket from a list without repeats keeps it without repeats and removes that socket. */
  lemma DropFromList(l: seq<int>, sock: int)
    ensures Distinct(l) ==> Distinct(RemoveFirst(l, sock)) && forall s :: s in RemoveFirst(l, sock) <==> s in l && s != sock
  {
    if Distinct(l) {
      RemoveFirstDistinct(l, sock);
    }
  }

  /** `canWrite` on a record: `n` is what `write` returned; -1 throws, any other count moves the head by that much. */
  function WriteOne(c: ClientView, n: int): (r: Result<ClientView, ServerError>)
    requires n >= -1
    ensures r.Err? <==> n == -1
    ensures r.Ok? ==> r.value == c.(outHead := c.outHead + n)
  {
    if n == -1 then Err(SysCallFailed("write")) else Ok(c.(outHead := c.outHead + n))
  }

  /**
    The write phase from the `i`-th writable socket on: each sends from its
    head, `writeResult(sock, n)` being what `write` returned when asked for
    the `n` unsent bytes; the first failed write ends the phase.
   */
  function WritesFrom(v: map<int, ClientView>, wr: seq<int>, i: nat, writeResult: (int, nat) -> int)
    : (r: (map<int, ClientView>, Result<(), ServerError>))
    requires i <= |wr| && OutHeadsWithin(v) && forall s :: s in wr ==> s in v
    requires forall s, n: nat :: -1 <= writeResult(s, n) <= n
    ensures r.0.Keys == v.Keys && OutHeadsWithin(r.0)
    decreases |wr| - i
  {
    if i == |wr| then (v, Ok(()))
    else
      var s := wr[i];
      var c := v[s];
      match WriteOne(c, writeResult(s, |c.output| - c.outHead))
      case Err(e) => (v, Err(e))
      case Ok(c1) => WritesFrom(v[s := c1], wr, i + 1, writeResult)
  }

  /** One step of the write phase: the `i`-th writable socket writes, then the rest follow. */
  lemma WritesFromStep(v: map<int, ClientView>, wr: seq<int>, i: nat, writeResult: (int, nat) -> int)
    requires i < |wr| && OutHeadsWithin(v) && forall s :: s in wr ==> s in v
    requires forall s, n: nat :: -1 <= writeResult(s, n) <= n
    ensures wr[i] in v && v[wr[i]].outHead <= |v[wr[i]].output|
    ensures -1 <= writeResult(wr[i], |v[wr[i]].output| - v[wr[i]].outHead) <= |v[wr[i]].output| - v[wr[i]].outHead
    ensures var c := v[wr[i]];
      var one := WriteOne(c, writeResult(wr[i], |c.output| - c.outHead));
      (one.Ok? ==> OutHeadsWithin(v[wr[i] := one.value]))
      && WritesFrom(v, wr, i, writeResult)
         == if one.Err? then (v, Err(one.error)) else WritesFrom(v[wr[i] := one.value], wr, i + 1, writeResult)
  {
    var s := wr[i];
    assert s in wr;
    assert s in v;
    var k: nat := |v[s].output| - v[s].outHead;
    assert -1 <= writeResult(s, k) <= k;
  }

  /**
    The write phase moves outgoing heads only: every record keeps its
    buffers and input state, no head moves back, and a record whose socket is
    not among those still to write is left as it was.
   */
  lemma {:induction false} WritesFromKeeps(v: map<int, ClientView>, wr: seq<int>, i: nat, writeResult: (int, nat) -> int)
    requires i <= |wr| && OutHeadsWithin(v) && forall s :: s in wr ==> s in v
    requires forall s, n: nat :: -1 <= writeResult(s, n) <= n
    ensures var r := WritesFrom(v, wr, i, writeResult).0;
      forall s :: s in v ==> v[s].outHead <= r[s].outHead && r[s] == v[s].(outHead := r[s].outHead)
    ensures var r := WritesFrom(v, wr, i, writeResult).0;
      forall s :: s in v && s !in wr[i..] ==> r[s] == v[s]
    decreases |wr| - i
  {
    if i < |wr| {
      var s := wr[i];
      var c := v[s];
      match WriteOne(c, writeResult(s, |c.output| - c.outHead))
      case Err(_) =>
      case Ok(c1) =>
        var v1 := v[s := c1];
        WritesFromKeeps(v1, wr, i + 1, writeResult);
        assert forall t :: t in wr[i + 1..] ==> t in wr[i..];
    }
  }

  /**
    One iteration of the `listen` loop on the records `v` after `select`
    returned `sel`: a failed `select` throws; otherwise the read phase, then
    the write phase over the write list the read phase left, then the except
    phase, each ending the iteration when it throws.
   */
  function IterateSpec(v: map<int, ClientView>, servSock: int, sel: Selected, accepted: int,
                       readResult: int -> IoRead, closeResult: int -> int, writeResult: (int, nat) -> int)
    : (r: (map<int, ClientView>, Result<(), ServerError>))
    requires OutHeadsWithin(v)
    requires Distinct(sel.rd) && forall s :: s in sel.rd ==> s == servSock || s in v
    requires Distinct(sel.wr) && forall s :: s in sel.wr ==> s in v
    requires forall s, n: nat :: -1 <= writeResult(s, n) <= n
  {
    if sel.status == -1 then (v, Err(SysCallFailed("socket")))
    else
      var rd := ReadsFrom(ReadState(v, sel.wr, sel.ex, {}), sel.rd, 0, servSock, accepted, readResult, closeResult);
      if rd.1.Err? then (rd.0.v, rd.1)
      else
        var wt := WritesFrom(rd.0.v, rd.0.wr, 0, writeResult);
        if wt.1.Err? then wt else (wt.0, ExceptPhase(rd.0.ex))
  }

  // ---------------------------------------------------------------------------
  // The server object
  // ---------------------------------------------------------------------------

  /**
    The object `createServer` returns: the listening socket, the stop flag and
    the client records keyed by socket number. `records` is the records as
    values, which the methods below are specified on.
   */
  class Server {
    const servSock: int
    var stop: bool
    var clients: map<int, Client>
    ghost var records: map<int, ClientView>
    ghost var Repr: set<object>

    /**
      Each record is filed under its own socket, which is a descriptor other
      than the listening one; each record is valid; no two records share an
      object; `records` holds each record's value under its socket.
     */
    ghost predicate Valid()
      reads this, Repr
    {
      this !in Repr
      && servSock !in clients
      && (forall s :: s in clients ==>
            s >= 0 && clients[s].sock == s && clients[s].Objects() <= Repr && clients[s].Valid())
      && (forall s, t :: s in clients && t in clients && s != t ==> clients[s].ApartFrom(clients[t]))
      && records.Keys == clients.Keys
      && (forall s :: s in clients ==> records[s] == clients[s].View())
      && OutHeadsWithin(records)
    }

    /**
      When only the objects of the record under `sock` changed, that record is
      still valid and `records` has its new value, the server is valid and
      every other record is as it was.
     */
    twostate lemma OthersKept(sock: int)
      requires old(Valid()) && sock in old(clients)
      requires clients == old(clients) && Repr == old(Repr)
      requires records == old(records)[sock := clients[sock].View()]
      requires forall o :: o in Repr && o !in clients[sock].Objects() ==> unchanged(o)
      requires clients[sock].Valid()
      ensures Valid()
    {
      var c := clients[sock];
      forall t | t in clients && t != sock
        ensures clients[t].View() == old(clients[t].View()) && clients[t].Valid()
      {
        var a := clients[t];
        assert a.ApartFrom(c);
        assert unchanged(a, a.bufOut, a.bufIn, a.httpInProcessor);
      }
    }

    /**
      When no record's outgoing head moved back and only the records of the
      sockets in `wr` changed, the same holds of the clients' heads.
     */
    twostate lemma HeadsFollow(wr: seq<int>)
      requires old(Valid()) && Valid() && clients == old(clients)
      requires forall s :: s in old(records) ==> old(records)[s].outHead <= records[s].outHead
      requires forall s :: s in old(records) && s !in wr ==> records[s] == old(records)[s]
      ensures forall s :: s in clients ==> old(clients[s].bufOutHead) <= clients[s].bufOutHead
      ensures forall s :: s in clients && s !in wr ==> clients[s].bufOutHead == old(clients[s].bufOutHead)
    {
      forall s | s in clients
        ensures old(clients[s].bufOutHead) == old(records)[s].outHead && clients[s].bufOutHead == records[s].outHead
      {
      }
    }

    /**
      When a valid record made of objects apart from all others was filed
      under a new or replaced socket, and nothing the old records own
      changed, the server is valid.
     */
    twostate lemma RecordAdded(sock: int)
      requires old(Valid()) && sock >= 0 && sock != servSock && sock in clients
      requires clients == old(clients)[sock := clients[sock]] && records == old(records)[sock := clients[sock].View()]
      requires Repr == old(Repr) + clients[sock].Objects() && this !in clients[sock].Objects()
      requires clients[sock].sock == sock && clients[sock].Valid()
      requires clients[sock].Objects() !! old(Repr)
      requires forall o :: o in old(Repr) ==> unchanged(o)
      ensures Valid()
    {
      var c := clients[sock];
      FreshRecordApart(old(clients), old(Repr), c);
      forall t | t in clients && t != sock
        ensures clients[t] == old(clients[t]) && clients[t].View() == old(clients[t].View()) && clients[t].Valid()
      {
        var a := clients[t];
        assert unchanged(a, a.bufOut, a.bufIn, a.httpInProcessor);
      }
    }

    /** `createServer(requestProcessor)` on an already created socket: no clients, not stopped. */
    constructor (sock: int)
      ensures servSock == sock && !stop && clients == map[] && records == map[]
      ensures Valid() && fresh(Repr)
    {
      servSock := sock;
      stop := false;
      clients := map[];
      records := map[];
      Repr := {};
    }

    /** A record made of fresh objects shares none with the records already filed. */
    static lemma FreshRecordApart(cs: map<int, Client>, r: set<object>, c: Client)
      requires forall s :: s in cs ==> cs[s].Objects() <= r
      requires c.Objects() !! r
      ensures forall s :: s in cs ==> cs[s].ApartFrom(c) && c.ApartFrom(cs[s])
    {
    }

    /**
      `_acceptConnection_(clntSock)`: a new record is filed under the socket,
      replacing any record already there; every other record stays.
     */
    method AcceptConnection(clntSock: int)
      requires Valid()
      requires clntSock >= 0 && clntSock != servSock
      modifies this
      ensures Valid() && fresh(Repr - old(Repr))
      ensures clients.Keys == old(clients.Keys) + {clntSock}
      ensures forall s :: s in old(clients) && s != clntSock ==> clients[s] == old(clients[s])
      ensures fresh(clients[clntSock])
      ensures records == old(records)[clntSock := NewClient]
    {
      var c := new Client(clntSock);
      clients := clients[clntSock := c];
      records := records[clntSock := NewClient];
      Repr := Repr + c.Objects();
      RecordAdded(clntSock);
    }

    /**
      `_onEof`: the socket is closed and its record deleted; a failed `close`
      throws before the record goes.
     */
    method OnEof(sock: int, closeResult: int) returns (r: Result<(), ServerError>)
      requires Valid() && sock in clients
      modifies this
      ensures Valid() && Repr == old(Repr)
      ensures closeResult == -1 <==> r.Err?
      ensures r.Err? ==> r.error == SysCallFailed("close") && clients == old(clients)
      ensures r.Ok? ==> clients == old(clients) - {sock}
      ensures records == if r.Ok? then old(records) - {sock} else old(records)
    {
      if closeResult == -1 {
        return Err(SysCallFailed("close"));
      }
      clients := clients - {sock};
      records := records - {sock};
      r := Ok(());
    }

    /**
      The record's `canRead`: a failed read throws; bytes read go at the end
      of the input buffer and the parser runs; no bytes means the client has
      gone, and its record is dropped.
     */
    method CanRead(sock: int, io: IoRead, closeResult: int) returns (r: Result<ReadOutcome, ServerError>)
      requires Valid() && sock in clients
      requires io.ReadBytes? ==> |io.bytes| <= ParamReadSize
      modifies this, clients[sock], clients[sock].bufIn, clients[sock].httpInProcessor
      ensures Valid() && Repr == old(Repr)
      ensures (records, r) == ReadClient(old(records), sock, io, closeResult)
    {
      var c := clients[sock];
      if io == ReadFailed {
        return Err(SysCallFailed("read"));
      }
      if io.bytes == [] {
        var closed := OnEof(sock, closeResult);
        if closed.Err? {
          return Err(closed.error);
        }
        return Ok(Eof);
      }
      ghost var nd := ParseNewData(records[sock].(input := records[sock].input + io.bytes));
      c.bufIn.AppendRaw(io.bytes);
      assert c.View() == old(records[sock]).(input := old(records[sock]).input + io.bytes);
      var rd := c.OnNewData();
      assert c.View() == nd.0;
      r := if rd.Ok? then Ok(NewData(rd.value)) else Err(rd.error);
      records := records[sock := c.View()];
      OthersKept(sock);
    }

    /** The clients among `ks`, in the order of `ks`, that have bytes waiting to be sent. */
    ghost function PendingAmong(ks: seq<int>): (r: seq<int>)
      requires Valid() && forall k :: k in ks ==> k in clients
      reads this, Repr
      ensures forall s :: s in r <==> s in ks && clients[s].HasPendingOutput()
    {
      if ks == [] then []
      else
        var last := ks[|ks| - 1];
        var rest := PendingAmong(ks[..|ks| - 1]);
        assert forall s :: s in ks <==> s in ks[..|ks| - 1] || s == last;
        if clients[last].HasPendingOutput() then rest + [last] else rest
    }

    /** Extending the list by one client extends the pick by that client exactly when it has bytes to send. */
    lemma PendingAmongSnoc(ks: seq<int>, s: int)
      requires Valid() && s in clients && forall k :: k in ks ==> k in clients
      ensures PendingAmong(ks + [s]) == if clients[s].HasPendingOutput() then PendingAmong(ks) + [s] else PendingAmong(ks)
    {
      assert (ks + [s])[..|ks|] == ks;
    }

    /** Picking from an ascending list keeps it ascending. */
    lemma {:induction false} PendingAmongAscending(ks: seq<int>)
      requires Valid() && forall k :: k in ks ==> k in clients
      requires Ascending(ks)
      ensures Ascending(PendingAmong(ks))
    {
      if ks != [] {
        var init := ks[..|ks| - 1];
        assert Ascending(init);
        PendingAmongAscending(init);
        var rest := PendingAmong(init);
        forall x | x in rest ensures x < ks[|ks| - 1] {
          var k :| 0 <= k < |init| && init[k] == x;
          assert ks[k] == x;
        }
        var r := PendingAmong(ks);
        if r != rest {
          assert r == rest + [ks[|ks| - 1]];
          forall i, j | 0 <= i < j < |r| ensures r[i] < r[j] {
            if j < |rest| {
              assert r[i] == rest[i] && r[j] == rest[j];
            } else {
              assert r[j] == ks[|ks| - 1];
              assert r[i] == rest[i] && rest[i] in rest;
            }
          }
        }
      }
    }

    /**
      The interest sets built at the top of each `listen` iteration: the
      listening socket and then every client, in ascending socket order (the
      order `Object.keys` gives integer keys), for reading; the clients with
      unsent bytes, in the same order, for writing.
     */
    method InterestSets() returns (rd: seq<int>, wr: seq<int>)
      requires Valid()
      ensures rd == [servSock] + SortedInts(clients.Keys)
      ensures wr == PendingAmong(SortedInts(clients.Keys))
    {
      wr := [];
      var rest := clients.Keys;
      var done: seq<int> := [];
      while rest != {}
        invariant rest <= clients.Keys
        invariant done + SortedInts(rest) == SortedInts(clients.Keys)
        invariant forall k :: k in done ==> k in clients.Keys
        invariant wr == PendingAmong(done)
        decreases |rest|
      {
        IntLeastExists(rest);
        var s :| s in rest && forall y :: y in rest ==> s <= y;
        SortedStep(clients.Keys, rest, done, s);
        PendingAmongSnoc(done, s);
        var c := clients[s];
        if c.bufOutHead < |c.bufOut.data| {
          wr := wr + [s];
        }
        done := done + [s];
        rest := rest - {s};
      }
      assert |SortedInts(rest)| == 0;
      assert done + SortedInts(rest) == done;
      rd := [servSock] + done;
    }

    /**
      One socket of the read phase: the listening socket accepts a client
      (`accepted` is what `accept` returned, -1 on failure), a client socket
      reads; `gone` says the client reached end of file and was dropped.
     */
    method ReadEvent(sock: int, accepted: int, io: IoRead, closeResult: int)
      returns (r: Result<(), ServerError>, gone: bool)
      requires Valid() && (sock == servSock || sock in clients)
      requires accepted == -1 || (accepted >= 0 && accepted != servSock)
      requires io.ReadBytes? ==> |io.bytes| <= ParamReadSize
      modifies this, Repr
      ensures Valid() && fresh(Repr - old(Repr))
      ensures sock == servSock ==> !gone && (r.Ok? <==> accepted != -1)
      ensures r.Err? ==> !gone && clients.Keys == old(clients.Keys)
      ensures sock == servSock && r.Ok? ==> clients.Keys == old(clients.Keys) + {accepted}
      ensures sock != servSock && gone ==> r.Ok? && clients.Keys == old(clients.Keys) - {sock}
      ensures sock != servSock && !gone ==> clients.Keys == old(clients.Keys)
      ensures (records, gone, r) == ReadStep(old(records), servSock, sock, accepted, io, closeResult)
    {
      gone := false;
      if sock == servSock {
        if accepted == -1 {
          return Err(SysCallFailed("accept")), false;
        }
        AcceptConnection(accepted);
        r := Ok(());
      } else {
        var res := CanRead(sock, io, closeResult);
        if res.Err? {
          return Err(res.error), false;
        }
        gone := res.value == Eof;
        r := Ok(());
      }
    }

    /**
      The `i`-th socket of the read phase takes its `ReadEvent`; a client that
      reached end of file leaves the write and except lists `wr` and `ex` and
      joins `closed`. The phase goes on with the next socket unless the event
      threw.
     */
    method ReadAt(ready: seq<int>, i: nat, ghost keys0: set<int>, wr0: seq<int>, ex0: seq<int>, accepted: int,
                  readResult: int -> IoRead, closeResult: int -> int, wr: seq<int>, ex: seq<int>, ghost closed: set<int>)
      returns (r: Result<(), ServerError>, wr1: seq<int>, ex1: seq<int>, ghost closed1: set<int>)
      requires Valid() && i < |ready|
      requires ReadInv(ReadState(records, wr, ex, closed), keys0, wr0, ex0, ready, i, servSock)
      requires forall s :: s in ready ==> s == servSock || s in keys0
      requires accepted == -1 || (accepted >= 0 && accepted != servSock)
      requires forall s :: readResult(s).ReadBytes? ==> |readResult(s).bytes| <= ParamReadSize
      modifies this, Repr
      ensures Valid() && fresh(Repr - old(Repr))
      ensures ReadInv(ReadState(records, wr1, ex1, closed1), keys0, wr0, ex0, ready, if r.Ok? then i + 1 else i, servSock)
      ensures ReadsFrom(ReadState(old(records), wr, ex, closed), ready, i, servSock, accepted, readResult, closeResult)
        == if r.Err? then (ReadState(records, wr1, ex1, closed1), r)
           else ReadsFrom(ReadState(records, wr1, ex1, closed1), ready, i + 1, servSock, accepted, readResult, closeResult)
    {
      var sock := ready[i];
      ghost var st := ReadState(records, wr, ex, closed);
      ReadInvStep(st, keys0, wr0, ex0, ready, i, servSock, accepted, readResult, closeResult);
      var gone;
      r, gone := ReadEvent(sock, accepted, readResult(sock), closeResult(sock));
      wr1, ex1, closed1 := wr, ex, closed;
      if r.Ok? && gone {
        wr1 := RemoveFirst(wr, sock);
        ex1 := RemoveFirst(ex, sock);
        closed1 := closed + {sock};
      }
    }

    /**
      The read phase of a `listen` iteration over the sockets `select` found
      readable: the listening socket accepts (`accepted` is what `accept`
      returned), a client socket reads (`readResult` and `closeResult` give
      what `read` and `close` return on it). A client that reached end of
      file leaves this iteration's write and except lists (`delOneFromArray`,
      whose result `RemoveFirst` gives); `closed` names those clients.
     */
    method ReadPhase(ready: seq<int>, wr0: seq<int>, ex0: seq<int>, accepted: int,
                     readResult: int -> IoRead, closeResult: int -> int)
      returns (r: Result<(), ServerError>, wr: seq<int>, ex: seq<int>, ghost closed: set<int>)
      requires Valid()
      requires Distinct(ready) && forall s :: s in ready ==> s == servSock || s in clients
      requires Distinct(wr0) && forall s :: s in wr0 ==> s in clients
      requires Distinct(ex0) && forall s :: s in ex0 ==> s in clients
      requires accepted == -1 || (accepted >= 0 && accepted != servSock)
      requires forall s :: readResult(s).ReadBytes? ==> |readResult(s).bytes| <= ParamReadSize
      modifies this, Repr
      ensures Valid() && fresh(Repr - old(Repr))
      ensures Distinct(wr) && forall s :: s in wr <==> s in wr0 && s !in closed
      ensures Distinct(ex) && forall s :: s in ex <==> s in ex0 && s !in closed
      ensures forall s :: s in wr || s in ex ==> s in clients
      ensures closed <= old(clients.Keys)
      ensures (ReadState(records, wr, ex, closed), r)
        == ReadsFrom(ReadState(old(records), wr0, ex0, {}), ready, 0, servSock, accepted, readResult, closeResult)
    {
      wr, ex, closed := wr0, ex0, {};
      ghost var keys0 := clients.Keys;
      ghost var whole := ReadsFrom(ReadState(records, wr, ex, closed), ready, 0, servSock, accepted, readResult, closeResult);
      var i := 0;
      while i < |ready|
        invariant Valid() && fresh(Repr - old(Repr))
        invariant ReadInv(ReadState(records, wr, ex, closed), keys0, wr0, ex0, ready, i, servSock)
        invariant whole == ReadsFrom(ReadState(records, wr, ex, closed), ready, i, servSock, accepted, readResult, closeResult)
      {
        ghost var repr := Repr;
        label mid:
        r, wr, ex, closed := ReadAt(ready, i, keys0, wr0, ex0, accepted, readResult, closeResult, wr, ex, closed);
        assert forall o :: o in Repr && o !in repr ==> !old@mid(allocated(o)) && !old(allocated(o));
        if r.Err? {
          return;
        }
        i := i + 1;
      }
      r := Ok(());
    }

    /**
      One writable client: `write` sent `n` bytes of its unsent output (-1
      when it failed), and its head moves past them.
     */
    method WriteClient(sock: int, n: int) returns (r: Result<(), ServerError>)
      requires Valid() && sock in clients
      requires -1 <= n <= |records[sock].output| - records[sock].outHead
      modifies this, Repr
      ensures Valid() && clients == old(clients) && Repr == old(Repr) && stop == old(stop)
      ensures var one := WriteOne(old(records[sock]), n);
        if one.Err? then r == Err(one.error) && records == old(records)
        else r.Ok? && records == old(records)[sock := one.value]
    {
      var c := clients[sock];
      ghost var v := records;
      label before:
      r := c.CanWrite(n);
      assert WriteOne(v[sock], n) == if r.Ok? then Ok(c.View()) else Err(r.error);
      records := records[sock := c.View()];
      OthersKept@before(sock);
      assert r.Err? ==> records == v;
    }

    /**
      The `i`-th writable socket: its client writes what `write` sent, and
      the phase goes on with the next socket unless the write failed.
     */
    method WriteTo(wr: seq<int>, i: nat, writeResult: (int, nat) -> int) returns (r: Result<(), ServerError>)
      requires Valid() && i < |wr| && forall s :: s in wr ==> s in clients
      requires forall s, n: nat :: -1 <= writeResult(s, n) <= n
      modifies this, Repr
      ensures Valid() && clients == old(clients) && Repr == old(Repr) && stop == old(stop)
      ensures WritesFrom(old(records), wr, i, writeResult)
              == if r.Ok? then WritesFrom(records, wr, i + 1, writeResult) else (records, r)
    {
      var sock := wr[i];
      ghost var v := records;
      WritesFromStep(v, wr, i, writeResult);
      assert v[sock] == clients[sock].View();
      var n := writeResult(sock, |clients[sock].bufOut.data| - clients[sock].bufOutHead);
      assert n == writeResult(wr[i], |v[wr[i]].output| - v[wr[i]].outHead);
      r := WriteClient(sock, n);
    }

    /**
      The write loop: every socket `select` found writable sends from its
      head in turn; `writeResult(sock, n)` is what `write` returned when asked
      for `n` bytes. The first failed write ends the loop.
     */
    method WriteAll(wr: seq<int>, writeResult: (int, nat) -> int) returns (r: Result<(), ServerError>)
      requires Valid() && forall s :: s in wr ==> s in clients
      requires forall s, n: nat :: -1 <= writeResult(s, n) <= n
      modifies this, Repr
      ensures Valid() && clients == old(clients) && Repr == old(Repr) && stop == old(stop)
      ensures (records, r) == WritesFrom(old(records), wr, 0, writeResult)
    {
      ghost var whole := WritesFrom(records, wr, 0, writeResult);
      r := Ok(());
      var i := 0;
      while i < |wr|
        invariant 0 <= i <= |wr|
        invariant Valid() && clients == old(clients) && Repr == old(Repr) && stop == old(stop)
        invariant whole == WritesFrom(records, wr, i, writeResult) && r == Ok(())
      {
        var res := WriteTo(wr, i, writeResult);
        if res.Err? {
          r := res;
          break;
        }
        i := i + 1;
      }
    }

    /**
      The write phase: the write loop over the sockets `select` found
      writable. Heads only move forward, stay within their buffers, and only
      the writable sockets' heads move.
     */
    method WritePhase(wr: seq<int>, writeResult: (int, nat) -> int) returns (r: Result<(), ServerError>)
      requires Valid() && forall s :: s in wr ==> s in clients
      requires forall s, n: nat :: -1 <= writeResult(s, n) <= n
      modifies this, Repr
      ensures Valid() && clients == old(clients) && Repr == old(Repr) && stop == old(stop)
      ensures forall s :: s in clients ==> old(clients[s].bufOutHead) <= clients[s].bufOutHead
      ensures forall s :: s in clients && s !in wr ==> clients[s].bufOutHead == old(clients[s].bufOutHead)
      ensures (records, r) == WritesFrom(old(records), wr, 0, writeResult)
    {
      r := WriteAll(wr, writeResult);
      WritesFromKeeps(old(records), wr, 0, writeResult);
      assert wr[0..] == wr;
      HeadsFollow(wr);
    }

    /**
      One iteration of the `listen` loop after `select` returned `sel`: the
      status check, then the read, write and except phases. `sel` lists only
      sockets from this iteration's interest sets, each once.
     */
    method Iterate(sel: Selected, accepted: int, readResult: int -> IoRead, closeResult: int -> int,
                   writeResult: (int, nat) -> int)
      returns (r: Result<(), ServerError>)
      requires Valid()
      requires Distinct(sel.rd) && forall s :: s in sel.rd ==> s == servSock || s in clients
      requires Distinct(sel.wr) && forall s :: s in sel.wr ==> s in clients && clients[s].HasPendingOutput()
      requires Distinct(sel.ex) && forall s :: s in sel.ex ==> s in clients
      requires accepted == -1 || (accepted >= 0 && accepted != servSock)
      requires forall s :: readResult(s).ReadBytes? ==> |readResult(s).bytes| <= ParamReadSize
      requires forall s, n: nat :: -1 <= writeResult(s, n) <= n
      modifies this, Repr
      ensures Valid() && fresh(Repr - old(Repr))
      ensures sel.status == -1 ==> r == Err(SysCallFailed("socket")) && clients == old(clients)
      ensures (records, r) == IterateSpec(old(records), servSock, sel, accepted, readResult, closeResult, writeResult)
    {
      if sel.status == -1 {
        return Err(SysCallFailed("socket"));
      }
      ghost var closed: set<int>;
      var wr, ex;
      r, wr, ex, closed := ReadPhase(sel.rd, sel.wr, sel.ex, accepted, readResult, closeResult);
      if r.Err? {
        return;
      }
      r := WritePhase(wr, writeResult);
      if r.Err? {
        return;
      }
      r := ExceptPhase(ex);
    }
  }

  // ---------------------------------------------------------------------------
  // The response object
  // ---------------------------------------------------------------------------

  /** The fields after copying `kvs` over `m` in order: each pair sets its key, so a later pair wins. */
  function Overlay(m: map<string, string>, kvs: seq<(string, string)>): map<string, string>
  {
    if kvs == [] then m
    else
      var last := kvs[|kvs| - 1];
      Overlay(m, kvs[..|kvs| - 1])[last.0 := last.1]
  }

  /** The index of the last pair whose key is `k`, or -1 when there is none. */
  function LastWithKey(kvs: seq<(string, string)>, k: string): (j: int)
    ensures -1 <= j < |kvs|
    ensures j >= 0 ==> kvs[j].0 == k && forall i :: j < i < |kvs| ==> kvs[i].0 != k
    ensures j == -1 ==> forall i :: 0 <= i < |kvs| ==> kvs[i].0 != k
  {
    if kvs == [] then -1
    else if kvs[|kvs| - 1].0 == k then |kvs| - 1
    else LastWithKey(kvs[..|kvs| - 1], k)
  }

  /**
    A key given in `kvs` ends up with the value of its last pair; any other
    key keeps what `m` had, present or absent.
   */
  lemma {:induction false} OverlayLookup(m: map<string, string>, kvs: seq<(string, string)>, k: string)
    ensures var j := LastWithKey(kvs, k);
      var o := Overlay(m, kvs);
      (j >= 0 ==> k in o && o[k] == kvs[j].1)
      && (j == -1 ==> (k in o <==> k in m) && (k in m ==> o[k] == m[k]))
  {
    if kvs != [] {
      OverlayLookup(m, kvs[..|kvs| - 1], k);
    }
  }

  /**
    The response object `_onNewHttpRequest` hands to the request handler: the
    client it answers, the response headers (`createHeaders()` gives their
    first value) and the body buffer, created on first use.
   */
  class ResponseWriter {
    const client: Client
    var headline: string
    var fields: map<string, string>
    var responseBuf: Binary?

    /** The body written so far. */
    ghost function Body(): seq<byte>
      reads this, responseBuf
    {
      if responseBuf == null then [] else responseBuf.data
    }

    /** The body buffer is none of the client's buffers. */
    ghost predicate Valid()
      reads this
    {
      responseBuf != client.bufOut && responseBuf != client.bufIn
    }

    /** The response object for a request from `c`, with the headers `createHeaders()` made and no body buffer yet. */
    constructor (c: Client, initHeadline: string, initFields: map<string, string>)
      ensures client == c && headline == initHeadline && fields == initFields && responseBuf == null
      ensures Valid()
    {
      client := c;
      headline := initHeadline;
      fields := initFields;
      responseBuf := null;
    }

    /**
      `writeHead(code, keyVals)`: an unknown code throws before anything
      changes; otherwise the headline is formatted (`fmt` stands for
      `fmtResponseHeadline`) and the pairs are copied over the fields in order.
     */
    method WriteHead(code: int, kvs: seq<(string, string)>, fmt: (string, int, string) -> string)
      returns (r: Result<(), ServerError>)
      modifies this
      ensures FindHttpCodeDescription(code).Err? ==>
        r == Err(Thrown(FindHttpCodeDescription(code).error)) && headline == old(headline) && fields == old(fields)
      ensures FindHttpCodeDescription(code).Ok? ==>
        r == Ok(()) && headline == fmt(OurHttpVersion, code, FindHttpCodeDescription(code).value)
        && fields == Overlay(old(fields), kvs)
      ensures responseBuf == old(responseBuf)
    {
      var descr := FindHttpCodeDescription(code);
      if descr.Err? {
        return Err(Thrown(descr.error));
      }
      headline := fmt(OurHttpVersion, code, descr.value);
      var i := 0;
      while i < |kvs|
        invariant 0 <= i <= |kvs|
        invariant fields == Overlay(old(fields), kvs[..i])
        invariant headline == fmt(OurHttpVersion, code, descr.value)
        invariant responseBuf == old(responseBuf)
      {
        assert kvs[..i + 1][..i] == kvs[..i];
        fields := fields[kvs[i].0 := kvs[i].1];
        i := i + 1;
      }
      assert kvs[..i] == kvs;
      r := Ok(());
    }

    /**
      `write(txt)`: the encoded text (`encode` stands for `appendString`'s
      encoding) goes at the end of the body, which is created empty on first
      use; the headers do not change. The code creates it with `new
      Binary()`, which as written aborts or holds "undefined"
      (`NoArgumentBinary`); the model starts it empty.
     */
    method Write(txt: string, encode: string -> seq<byte>)
      requires Valid()
      modifies this, responseBuf
      ensures Valid() && responseBuf != null
      ensures old(responseBuf) == null ==> fresh(responseBuf)
      ensures old(responseBuf) != null ==> responseBuf == old(responseBuf)
      ensures responseBuf.data == old(Body()) + encode(txt)
      ensures headline == old(headline) && fields == old(fields)
    {
      if responseBuf == null {
        responseBuf := new Binary.Of([]);
      }
      responseBuf.AppendRaw(encode(txt));
      assert responseBuf.data == old(Body()) + encode(txt);
    }

    /**
      `end(txt)`: like `write`, then the formatted response (`formResponse`
      of the headers and the whole body) goes at the end of the client's
      outgoing buffer; nothing else of the client changes.
     */
    method End(txt: string, encode: string -> seq<byte>,
               formResponse: (string, map<string, string>, seq<byte>) -> seq<byte>)
      requires Valid()
      modifies this, responseBuf, client.bufOut
      ensures Valid() && responseBuf != null
      ensures responseBuf.data == old(Body()) + encode(txt)
      ensures client.bufOut.data == old(client.bufOut.data) + formResponse(headline, fields, responseBuf.data)
      ensures headline == old(headline) && fields == old(fields)
    {
      Write(txt, encode);
      client.SendResponse(formResponse(headline, fields, responseBuf.data));
    }
  }
}
