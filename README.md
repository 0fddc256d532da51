# A verified model of the sequential cores of a molecular-modelling runtime

The repository is a C++ runtime with a JavaScript layer. It reads and compares
molecules, drives quantum-chemistry programs (Erkale, NWChem) and serves files
over a small HTTP server of its own. This project models the parts of it that are
plain sequential logic over text, buffers and graphs, and proves what they
promise:

- the incremental HTTP/1.1 request parser (`HttpProtocol`, `HttpProtocolProperties`),
  which frames messages as RFC 7230 sections 3, 3.2 and 3.3.2 describe, and the
  server's connection bookkeeping (`HttpServer`);
- the byte buffer `Binary` (`BinaryBuffer`);
- the molecule graph with its element table, bond lists and printing
  (`Molecules`), the XYZ reader (`MoleculeXyz`) and the structure-signature
  database (`StructureDb`);
- string and map utilities (`Util`, `Common`) and temp-file naming (`TempFiles`);
- the text protocols of the calculation engines (`ErkaleEngine` for the C++
  Erkale engine, `CalcErkale` and `CalcNWChem` for the JavaScript ones);
- the bond-graph traversal (`MoleculeFunctions`), amino-acid file naming and
  angle tables (`AminoAcids`), the static-file server (`ServeDirectory`) and
  linear interpolation (`Interpolate`).

Shared helpers live in `Wrappers` (Option, Result), `Text` (JavaScript-style
split, search, decimal numbers, trimming, sorting keys) and `JsObjects` (a
JavaScript object as an ordered list of keys and values).

Code that changes state in place is modelled as classes with `modifies`
clauses and loops with invariants, each proved against a specification
function. Pure code is modelled as functions and lemmas. Floating-point
arithmetic, sockets, processes and files are parameters of the model; the
section "Left out" lists them.

Where the code departs from the standard or from its own documentation, the
model follows the code. A header block without Content-Length always throws,
even for a request that section 3.3.3 of RFC 7230 would give an empty body.
`Content-Length: 0` with no byte after the blank line leaves the parser
waiting in state B. `findAaLast` returns the atoms from the last occurrence of
the given nitrogen to the end of the list, that nitrogen included.

Under "Findings" are defects the code evidently did not intend. For each, one
member states the code as written and another the corrected behaviour. For
the rows on modules/http.js:130-133 (the parser's constructor name),
modules/http-protocol.js:59-88 (a negative Content-Length), binary.cpp:16-22
(the `append` helpers write zero bytes), binary.cpp:38-46 (the no-argument
`new Binary()` that the server and the parser call) and molecule.cpp:32-35
(element names past Ar), the rest of the model uses the corrected behaviour.
For structure-db.cpp:61-67 it does not: `StructureDb.Db` follows the code as
written and keys molecules by their size alone, and the corrected order is
stated and proved on its own.

## Model

| member | source | states |
|---|---|---|
| HttpProtocol.FindLine | modules/http-protocol.js:11-18 | -1 exactly when no '\n' lies at or after `off`; an exception when the '\n' is at `off` or not preceded by '\r'; otherwise the index just past the '\n', which is preceded by '\r' with no '\n' in between |
| HttpProtocol.FindLinePrefix | modules/http-protocol.js:11-18 | once a buffer holds a '\n' after `off`, any longer buffer with the same prefix gives the same answer |
| HttpProtocol.JsParseInt | modules/http-protocol.js:61 | `parseInt(text, 10)`: NaN when the trimmed text does not start with a digit or sign; a digit start gives a non-negative number; only a '-' start gives a negative one |
| HttpProtocol.ParseIntOfNumber | modules/http-protocol.js:61 | `parseInt` reads back every decimal numeral: parseInt(String(n)) == n |
| HttpProtocol.ContentLength | modules/http-protocol.js:59-61 | corrected reading of Content-Length: accepted exactly when `parseInt` gives a non-negative number, which is the length |
| HttpProtocol.HeadlineStep | modules/http-protocol.js:35-42 | the 'I' case advances past a whole line or returns without moving |
| HttpProtocol.FieldLine | modules/http-protocol.js:47-54 | a non-empty header line either throws or is consumed up to its CRLF |
| HttpProtocol.HeaderStep | modules/http-protocol.js:43-73 | the 'H' case advances past a whole line or returns without moving |
| HttpProtocol.BodyStep | modules/http-protocol.js:74-92 | the 'B' case never continues the loop: it returns within the buffer or throws |
| HttpProtocol.StepAt | modules/http-protocol.js:34-95 | one turn of the loop moves the offset strictly forward when it continues, and stays within the buffer |
| HttpProtocol.Loop | modules/http-protocol.js:33-97 | the loop never moves the offset back and the state never moves back in the order I, H, B, F |
| HttpProtocol.Run | modules/http-protocol.js:30-97 | the count `processData` returns never takes the head past the end of the buffer |
| HttpProtocol.Processor.constructor | modules/http-protocol.js:24-29 | `create()` gives state I, an empty headline and fields and no body |
| HttpProtocol.Processor.Init | modules/http-protocol.js:26-29 | `init()` returns to state I with empty headers and changes nothing else |
| HttpProtocol.Processor.IsFinished | modules/http-protocol.js:99-101 | true exactly in state F |
| HttpProtocol.Processor.GetState | modules/http-protocol.js:102-104 | the state's letter, one of I, H, B, F |
| HttpProtocol.Processor.ProcessData | modules/http-protocol.js:30-98 | the in-place loop leaves the processor in the state `Run` gives and returns `Run`'s count or exception |
| HttpProtocol.Processor.Advance | modules/http-protocol.js:31-97 | the `while` loop over the offset computes `Loop` |
| HttpProtocol.Processor.Turn | modules/http-protocol.js:34-95 | one pass of the `switch` takes the loop one step as `StepAt` does |
| HttpProtocol.Processor.HeadlineTurn | modules/http-protocol.js:35-42 | the 'I' case updates the fields as `HeadlineStep` says |
| HttpProtocol.Processor.HeaderTurn | modules/http-protocol.js:43-73 | the 'H' case updates the fields as `HeaderStep` says |
| HttpProtocol.Processor.FieldTurn | modules/http-protocol.js:47-54 | a header line updates the fields as `FieldLine` says |
| HttpProtocol.Processor.EndHeadersTurn | modules/http-protocol.js:55-70 | the blank line updates the fields as `EndOfHeaders` says |
| HttpProtocol.Processor.BodyTurn | modules/http-protocol.js:74-92 | the 'B' case updates the fields as `BodyStep` says |
| HttpProtocolProperties.HeadlineLine | modules/http-protocol.js:35-42 | in state I a complete line becomes the headline without its CRLF, the state becomes H, the offset moves past the line and nothing else changes |
| HttpProtocolProperties.HeaderLineWithoutColon | modules/http-protocol.js:47-50 | a non-empty header line with no ':' before its CRLF throws and leaves the state as it was |
| HttpProtocolProperties.HeaderLineWithColon | modules/http-protocol.js:47-54 | with the first ':' inside the line, the key is the text before it (untrimmed), the value is the rest trimmed, a repeated key overwrites, and the offset moves past the line |
| HttpProtocolProperties.BlankLineWithLength | modules/http-protocol.js:55-65 | the blank line takes exactly 2 bytes, sets state B and the length-based signal, starts an empty body and awaits the parsed length |
| HttpProtocolProperties.BlankLineWithoutLength | modules/http-protocol.js:55-70 | without Content-Length the blank line throws, whatever the method: the Transfer-Encoding message when that field is present, else the EOF message; the state is B |
| HttpProtocolProperties.ZeroLengthWaitsInB | modules/http-protocol.js:59-65 | `Content-Length: 0` with no bytes after the blank line leaves the parser in B, and a further call on the same buffer consumes nothing and stays in B |
| HttpProtocolProperties.BodyChunk | modules/http-protocol.js:74-88 | in state B one call takes min(available, needed) bytes, appends exactly those to the body, and reaches F, with the body as text, exactly when nothing more is needed |
| HttpProtocolProperties.FinishedConsumesNothing | modules/http-protocol.js:30-33 | in state F a call consumes nothing and changes nothing |
| HttpProtocolProperties.LineTurnShape | modules/http-protocol.js:36-46 | in states I and H a turn moves only past a CRLF and returns only when no '\n' is left |
| HttpProtocolProperties.ConsumesWholeLines | modules/http-protocol.js:30-46 | a call that ends in state I or H has consumed whole CRLF-terminated lines and left no '\n' behind |
| HttpProtocolProperties.StateOnlyAdvances | modules/http-protocol.js:26-85 | a call moves the state only forward in I, H, B, F, and never back to I |
| HttpProtocolProperties.FieldLinePrefix | modules/http-protocol.js:47-54 | a header line inside a prefix of the buffer is read the same from any longer buffer |
| HttpProtocolProperties.StepPrefix | modules/http-protocol.js:34-73 | a line turn that does not return on a prefix ends the same way on any longer buffer |
| HttpProtocolProperties.BodyPrefix | modules/http-protocol.js:74-88 | a body step on a prefix followed by the loop on the grown buffer equals the loop on the grown buffer |
| HttpProtocolProperties.LoopPrefix | modules/http-protocol.js:33-97 | running the loop on a prefix and then resuming on the grown buffer at the offset reached equals running it on the grown buffer |
| HttpProtocolProperties.ResumeOnGrownBuffer | modules/http-protocol.js:30-46 | calling again with the grown buffer and the advanced head reaches the same state as one call on the whole buffer, with the counts added, or the same exception |
| HttpProtocolProperties.LoopOfRun | modules/http-protocol.js:30-33 | the returned count is the loop's final offset minus `bufHead` |
| HttpProtocolProperties.NegativeLengthMovesHeadBack | modules/http-protocol.js:59-88 | as written, with `Content-Length: -3`: when the blank line and a body byte arrive in one call, the call returns -1, moving the caller's head back, and the state becomes F; when the blank line ends the buffer, the call stops in B needing -3, and the next call returns -3 and reaches F |
| HttpProtocolProperties.AsWrittenHeadersEnd | modules/http-protocol.js:55-65 | as written, the blank line after a Content-Length that `parseInt` reads as n goes on in state B, length-based, with an empty body and n needed, whatever the sign of n |
| HttpProtocolProperties.AsWrittenNegativeBody | modules/http-protocol.js:74-88 | as written, a negative needed length n takes a step of n bytes: the offset moves back by -n, the need becomes 0 and the state F |
| HttpProtocol.AsWrittenStepLength | modules/http-protocol.js:76 | `available <= need ? available : need` is the smaller of the two, sign included |
| HttpProtocolProperties.NegativeLengthRejected | modules/http-protocol.js:59-65 | in the corrected parser a Content-Length that `parseInt` reads as NaN or negative is an error at the blank line |
| HttpServer.FindHttpCodeDescription | modules/http.js:68-77 | the table's non-empty phrase exactly for the listed codes; any other code throws "error(http): Unknown httpCode=" followed by the code |
| HttpServer.DescribedCodesAreStatuses | modules/http.js:18-38 | every code in the table is a status between 200 and 599 |
| HttpServer.UnknownCodeMessageNamesCode | modules/http.js:72-77 | two unknown codes with the same exception message are the same code |
| HttpServer.UnknownCodeSuffix | modules/http.js:68-77 | the exception message ends with the code in decimal |
| HttpServer.DelOneFromArray | modules/http.js:79-87 | removes only the first element equal to the value and keeps the rest in order; a no-op when the value is absent (with the `Text.RemoveFirst` lemmas) |
| HttpServer.DropClosed | modules/http.js:278-281 | removing a closed client's socket from a list of distinct sockets keeps it distinct and leaves exactly the sockets not yet closed |
| HttpServer.Client.constructor | modules/http.js:121-133 | a new record has empty input and output buffers, both heads at 0 and fresh parsers in state I |
| HttpServer.Client.CanWrite | modules/http.js:149-155 | a failed write (-1) is an error; otherwise the output head advances by exactly the bytes written; the buffers never change; a write of at most the requested count keeps the head within the buffer |
| HttpServer.Client.SendResponse | modules/http.js:239-243 | the formatted response is appended to the output buffer |
| HttpServer.Client.OnNewData | modules/http.js:161-168 | the input head advances by `processData`'s count; the request is complete exactly when the parser's state is F; a parser exception leaves the head where it was |
| HttpServer.ExceptPhase | modules/http.js:291-295 | no error exactly when no socket reported an exception; otherwise the first one's message |
| HttpServer.Server.constructor | modules/http.js:102-120 | a new server has no clients and is not stopped |
| HttpServer.Server.AcceptConnection | modules/http.js:121-160 | the new socket gets a fresh record; every other record is unchanged |
| HttpServer.AcceptWith | modules/http.js:121-133 | building the parsers with a name the parser module exports files a fresh record; any other name throws the engine's TypeError and files nothing |
| HttpServer.AcceptAsWrittenThrows | modules/http.js:130-133 | as written, with `createProcessor`, accepting a connection throws and files nothing; with `create` it files a fresh record |
| HttpServer.Server.OnEof | modules/http.js:169-184 | the client is closed and its record deleted; a failed close is an error that deletes nothing |
| HttpServer.Server.CanRead | modules/http.js:135-148 | a failed read is an error; an empty read is end of file and removes the client; otherwise the bytes are appended to the input buffer and handed to the parser as `OnNewData` says |
| HttpServer.Server.PendingAmong | modules/http.js:253-260 | the clients picked are exactly those with bytes waiting to be sent |
| HttpServer.Server.PendingAmongSnoc | modules/http.js:257-260 | a client is added to the write list exactly when its output head is before the end of its output buffer |
| HttpServer.Server.PendingAmongAscending | modules/http.js:253-260 | the write list keeps the ascending order of the client keys |
| HttpServer.Server.InterestSets | modules/http.js:250-261 | the read set is the listening socket followed by every client; the write set is exactly the clients with `bufOutHead < bufOut.size()` |
| HttpServer.Server.ReadEvent | modules/http.js:269-283 | the listening socket accepts one client unless `accept` failed; a client socket either stays or, at end of file, is removed |
| HttpServer.Server.ReadPhase | modules/http.js:269-283 | the records, write and except lists after the read phase are those `ReadsFrom` gives from the old records; every client that reached end of file leaves this iteration's write and except lists, which stay distinct, and no other socket leaves them |
| HttpServer.Server.WritePhase | modules/http.js:285-289 | the records and the result are those `WritesFrom` gives from the old records; output heads only move forward and heads of clients not in the write list stay |
| HttpServer.ReadsFrom | modules/http.js:269-283 | the read phase keeps every output head within its buffer and keeps the write list distinct and made of live clients |
| HttpServer.WritesFrom | modules/http.js:285-289 | the write phase keeps the same clients and every output head within its buffer |
| HttpServer.WritesFromKeeps | modules/http.js:285-289 | the write phase only moves output heads forward, changes nothing else in a record, and leaves the records of sockets not in the write list as they were |
| HttpServer.WriteOne | modules/http.js:149-155 | a write that returned -1 is an error; any other count moves the output head by exactly that much |
| HttpServer.Server.Iterate | modules/http.js:249-296 | the records and the result are those `IterateSpec` gives from the old records: a failed `select` is an error that changes nothing; otherwise the read, write and except phases run in that order and keep every record valid |
| HttpServer.LastWithKey | modules/http.js:233-235 | the index of the last pair with the key, or -1 when no pair has it |
| HttpServer.OverlayLookup | modules/http.js:233-235 | after copying the pairs in order, a key takes the value of its last pair; any other key keeps its earlier value or stays absent |
| HttpServer.ResponseWriter.constructor | modules/http.js:189-190 | the response starts with the headers `createHeaders` gave and no body buffer |
| HttpServer.ResponseWriter.WriteHead | modules/http.js:231-236 | an unknown code throws before anything changes; otherwise the headline is formatted from "HTTP/1.1", the code and its phrase, and the pairs are copied over the fields, later keys winning |
| HttpServer.ResponseWriter.Write | modules/http.js:225-229 | the body buffer is created on first use and the text is appended to it |
| HttpServer.ResponseWriter.End | modules/http.js:209-243 | like `write`, then the formatted response of the headers and the whole body is appended to the client's output buffer |
| BinaryBuffer.ToUint32 | binary.cpp:58-76 | a number converted to 32-bit unsigned is below 2^32 and unchanged when already in range |
| BinaryBuffer.ToInt32 | binary.cpp:71 | a number converted to 32-bit signed lies in [-2^31, 2^31) and is unchanged when already in range |
| BinaryBuffer.BytesToString | binary.cpp:97-101 | `std::string(begin, end)`: the text has one character per byte, with the same code, in order |
| BinaryBuffer.BytesToStringAppend | binary.cpp:97-101 | converting a concatenation converts each part |
| BinaryBuffer.BytesToStringInjective | binary.cpp:97-101 | different byte sequences give different texts |
| BinaryBuffer.UpToNul | js-support.h:118-120 | the longest prefix of the bytes without a NUL: it stops only at a NUL or at the end |
| BinaryBuffer.CStringText | js-support.h:118-120 | `js_pushstring(J, val.c_str())`: the text stops before the first NUL byte, and each character before it has its byte's code |
| BinaryBuffer.CStringTextNulFree | js-support.h:118-120 | bytes without a NUL convert whole |
| BinaryBuffer.CStringTextStopsAtNul | js-support.h:118-120 | whatever follows a NUL is lost from the text |
| BinaryBuffer.CStringTextAppend | js-support.h:118-120 | NUL-free bytes followed by more bytes give their own text followed by the text of the rest |
| BinaryBuffer.FindChar | modules/http-protocol.js:11-18 | `findChar(off, c)`: the first index at or after `off` holding `c`, or -1 exactly when there is none |
| BinaryBuffer.FindCharPrefix | modules/http-protocol.js:12 | a prefix that already holds `c` after `off` gives the same answer as any longer buffer |
| BinaryBuffer.GetSubString | modules/http-protocol.js:51-52 | `getSubString(from, to)`: the bytes in [from, to) as text, in order |
| BinaryBuffer.Binary.constructor | binary.cpp:38-46 | the string constructor copies the bytes up to the first NUL: a prefix of the argument with no NUL, stopping only at a NUL or the end |
| BinaryBuffer.Binary.Dupl | binary.cpp:48-51 | a new buffer equal to this one |
| BinaryBuffer.Binary.Size | binary.cpp:52-55 | the length as a 32-bit unsigned number |
| BinaryBuffer.Binary.Resize | binary.cpp:56-60 | the size becomes the argument taken as 32-bit unsigned; the first min(old, new) bytes are kept and new bytes are 0 |
| BinaryBuffer.Binary.Append | binary.cpp:62-68 | the buffer becomes its old bytes followed by the argument's; the argument is not changed |
| BinaryBuffer.Binary.AppendInt | binary.cpp:69-73 | as intended: four more bytes holding the argument as a 32-bit signed number; earlier bytes kept |
| BinaryBuffer.Binary.AppendUInt | binary.cpp:74-78 | as intended: four more bytes holding the argument as a 32-bit unsigned number; earlier bytes kept |
| BinaryBuffer.Binary.AppendFloat4 | binary.cpp:79-83 | four more bytes, the same count as written and as intended; earlier bytes kept |
| BinaryBuffer.Binary.AppendFloat8 | binary.cpp:84-88 | eight more bytes, the same count as written and as intended; earlier bytes kept |
| BinaryBuffer.Binary.Of | binary.cpp:48-51 | a buffer holding exactly the given bytes, as the copies of `dupl` and `concatenate` do |
| BinaryBuffer.Resized | binary.cpp:56-60 | `std::vector::resize`: the new length, the old bytes kept up to it, every added byte zero |
| BinaryBuffer.AppendAsWritten | binary.cpp:16-22 | `BinaryAppend` as written: the old bytes followed by as many zero bytes as the value has, whatever the value |
| BinaryBuffer.AppendAsWrittenIgnoresValue | binary.cpp:16-22 | two values of the same size append the same bytes as written |
| BinaryBuffer.AppendIntAsWrittenLosesValue | binary.cpp:16-22 | `appendInt(1)` on an empty buffer: intended [1,0,0,0], as written [0,0,0,0], which reads back as 0 |
| BinaryBuffer.NewBinaryAsWritten | binary.cpp:38-46 | the constructor as written: with the argument check it fails unless given exactly one argument; without it, a missing argument is read as the text "undefined"; the bytes are the argument's up to the first NUL |
| BinaryBuffer.NoArgumentBinary | binary.cpp:38-46 | `new Binary()` fails the argument check, and with the check compiled out holds the 9 bytes of "undefined" |
| BinaryBuffer.EmptyArgumentBinary | binary.cpp:38-46 | `new Binary("")` is the empty buffer on either build, the value the no-argument calls evidently intend |
| BinaryBuffer.Binary.Concatenate | binary.cpp:90-96 | a new buffer holding this buffer's bytes then the argument's; neither operand changes |
| BinaryBuffer.Binary.ToString | binary.cpp:97-101 | the bytes before the first NUL, one character each with the same code; the text is shorter than the buffer only when a NUL follows it |
| BinaryBuffer.Binary.AppendRange | modules/http-protocol.js:80 | `appendRange(b, from, to)` appends exactly the bytes of `b` in [from, to) |
| BinaryBuffer.EncodeDecodeLE32 | binary.cpp:16-22 | the intended little-endian encoding of a 32-bit number, four bytes, reads back as that number |
| Molecules.EltNamesDistinct | molecule.cpp:15-19 | no element name occurs twice in the table |
| Molecules.ElementFromString | molecule.cpp:44-49 | a name in the table gives its element, whose printed name it is; any other string is the error "Not an element name: " followed by the string |
| Molecules.BuildEltMap | molecule.cpp:21-28 | the map `MapEltName` builds holds exactly the 18 names, each mapped to the element `elementFromString` gives |
| Molecules.NameLookup | molecule.cpp:21-49 | the i-th name of the table reads as element i + 1 |
| Molecules.EltNameAsWritten | molecule.cpp:15-35 | `os << eltNames[e-1]` as written: a name exactly for the 18 elements of the table, which reads back as the element; none for K up to Kr, whose index lies past the table |
| Molecules.PotassiumPastTable | molecule.cpp:15-35 | the table holds 18 names, so potassium (19), a value of the enumeration, has no printed name as written, while the corrected printer gives "K" |
| Molecules.EltName | molecule.cpp:32-35 | printing an element as intended: the name of its enumerator (molecule.h:19-56), the same as the table's wherever the table has one |
| Molecules.ElementNamesDistinct | molecule.h:19-56 | no two enumerators have the same name |
| Molecules.EltNameInjective | molecule.cpp:32-35 | different elements print differently |
| Molecules.NoSpaceInNames | molecule.cpp:32-35 | every printed element name is one non-empty token without white space |
| Molecules.ElementRoundTrip | molecule.cpp:32-49 | reading back a printed element gives the element |
| Molecules.ReadElementPrinted | molecule.cpp:37-42 | `>>` skips leading white space and reads one token, so a printed element followed by a separator reads back; white space alone reads as the empty name and fails |
| Molecules.Listed | molecule.h:71 | an atom is on a bond list exactly when it is counted there |
| Molecules.Linked | molecule.h:113-119 | linking keeps the set of atoms with lists |
| Molecules.LinkSymmetric | molecule.h:113-119 | linking two atoms keeps the bond lists symmetric |
| Molecules.LinkedCount | molecule.h:113-119 | after `link(x, y)`, `y` is listed once more under `x` and `x` once more under `y`, nothing else changes |
| Molecules.Unlinked | molecule.h:120-131 | unlinking keeps the set of atoms with lists |
| Molecules.UnlinkSymmetric | molecule.h:120-131 | unlinking a listed bond keeps the bond lists symmetric; the reverse entry that `removeFromBonds` needs is there |
| Molecules.UnlinkedCount | molecule.h:120-131 | after `unlink(x, y)`, each end of the bond is listed once less and nothing else changes |
| Molecules.AddIsolatedSymmetric | molecule.h:221-223 | a new atom without bonds leaves the lists symmetric |
| Molecules.DropIsolatedSymmetric | molecule.h:261-283 | an atom without bonds is on no list and can leave the table keeping it symmetric |
| Molecules.UnlinkKeepsOthers | molecule.h:264-277 | one step of `while (!a->bonds.empty()) a->unlink(a->bonds[0])` shortens `a`'s list and, ignoring `a`, leaves every other list as it was |
| Molecules.IsolatedLists | molecule.h:264-277 | when that loop ends, every other list is its old list without `a` |
| Molecules.ConsistentAdd | molecule.h:221-223 | appending a fresh atom keeps the atom list and the tables consistent |
| Molecules.ConsistentRemove | molecule.h:266-278 | erasing an atom without bonds keeps the atom list and the tables consistent |
| Molecules.MatchingMembers | molecule.h:185-191 | an atom is picked exactly when it is listed and has the element |
| Molecules.MatchingPlaces | molecule.h:185-191 | picking keeps list order |
| Molecules.LastMatch | molecule.h:248-253 | searching from the end, the first match is the last one in list order |
| Molecules.CountMatching | molecule.h:152-160 | counting an element counts the picked atoms |
| Molecules.CountOutZero | molecule.h:152-184 | "no other element" holds exactly when every atom has one of the elements counted |
| Molecules.CountSplit | molecule.h:161-184 | the per-element counts of the two- and three-element overloads add up as the `if`/`else if` chain sorts them |
| Molecules.PartnersMembers | molecule.cpp:145-157 | after detection an atom's list holds exactly the atoms the test bonds it with |
| Molecules.PartnersDistinct | molecule.cpp:145-157 | each pair is linked at most once: no list holds an atom twice |
| Molecules.DetectedBonds | molecule.cpp:140-158 | detected bonds have no self-bonds, no duplicates and are symmetric |
| Molecules.RowsLast | molecule.cpp:145-157 | after the outer loop every list holds all of its partners |
| Molecules.RowsStep | molecule.cpp:147-155 | testing one pair, and linking it when the test holds, moves the inner loop's invariant on |
| Molecules.LinesJoin | molecule.cpp:273-279 | text written line by line with `std::endl` is the lines joined by line ends, with an empty piece after the last |
| Molecules.LinesSplit | molecule.cpp:273-279 | split at line ends, such text gives back its lines and an empty last piece |
| Molecules.LinesSnoc | molecule.cpp:276-277 | writing one more line appends it and a line end |
| Molecules.AtomLines | molecule.cpp:276-277 | one atom line per atom, for atoms of any element |
| Molecules.AtomTextOneLine | molecule.cpp:55-63 | an atom line holds no line end |
| Molecules.MoleculeTextLines | molecule.cpp:267-279 | the text of a molecule splits into the atom count, the description and one line per atom, in order |
| Molecules.Molecule.Data | molecule.h:211-215 | the element and position of each atom, in list order |
| Molecules.Molecule.constructor | molecule.cpp:69-72 | a new molecule has the description and no atoms |
| Molecules.Molecule.Add | molecule.h:221-223 | `add(const Atom&)` appends a copy with the same element and position and no bonds |
| Molecules.Molecule.AddToBonds | molecule.h:117-119 | the atom goes at the end of the bond list |
| Molecules.Molecule.Link | molecule.h:113-116 | each atom goes at the end of the other's list |
| Molecules.Molecule.RemoveFromBonds | molecule.h:120-127 | the first occurrence leaves the list; its absence is `unreachable` (a precondition) |
| Molecules.Molecule.Unlink | molecule.h:128-131 | the first occurrence of each atom leaves the other's list |
| Molecules.Molecule.UnlinkAll | molecule.h:264-277 | every bond of the atom is removed: its list is empty and every other list loses it |
| Molecules.Molecule.RemoveAtBegin | molecule.h:261-271 | the first occurrence is erased after its bonds are unlinked; other atoms keep their order; an absent atom is `unreachable` |
| Molecules.Molecule.RemoveAtEnd | molecule.h:272-283 | the last occurrence found from the end is erased after its bonds are unlinked; other atoms keep their order |
| Molecules.Molecule.Erase | molecule.h:264-279 | unlinking then erasing the atom at one place |
| Molecules.Molecule.DropIsolated | molecule.h:266-279 | erasing an atom without bonds |
| Molecules.Molecule.FindFirst | molecule.h:242-247 | the first atom of the element, or null |
| Molecules.Molecule.FindLast | molecule.h:248-253 | the last atom of the element, or null |
| Molecules.Molecule.FindAaLast | molecule.cpp:124-138 | the atoms from the last occurrence of the given atom to the end of the list, in list order |
| Molecules.Molecule.IsBonds1 | molecule.h:152-160 | true exactly when `cnt` bonds go to the element and none to any other |
| Molecules.Molecule.IsBonds2 | molecule.h:161-171 | true exactly when the counts of the two elements match, the first taking precedence, and no bond goes elsewhere |
| Molecules.Molecule.IsBonds3 | molecule.h:172-184 | the same with three elements |
| Molecules.Molecule.FilterBonds | molecule.h:185-191 | the neighbours with the element, in bond-list order |
| Molecules.Molecule.FilterBonds1 | molecule.h:192-203 | the single neighbour with the element; none or two and more are the two errors |
| Molecules.Molecule.FindOnlyC | molecule.h:135-145 | the carbon neighbour when there is exactly one, else null |
| Molecules.Molecule.FindFirstBond | molecule.h:146-151 | the first neighbour with the element; its absence is `unreachable` (a precondition) |
| Molecules.Molecule.ClearBonds | molecule.cpp:141-143 | every bond list is emptied |
| Molecules.Molecule.LinkRow | molecule.cpp:145-157 | one pass of the outer loop settles the atom's row |
| Molecules.Molecule.LinkPair | molecule.cpp:147-154 | testing one pair of places, and linking the two atoms when the test holds, carries the inner loop's invariant one place on |
| Molecules.Molecule.LinkRows | molecule.cpp:144-157 | from all-empty lists, the outer loop leaves every atom's list holding exactly its partners under the test, in atom-list order |
| Molecules.Molecule.DetectBonds | molecule.cpp:140-158 | every atom's list holds exactly its partners under the test, in atom-list order; atoms, elements and positions unchanged |
| Molecules.Molecule.Copy | molecule.cpp:74-80 | the copy has the description and the atoms in order with the same element and position, and its bonds are detected afresh |
| Molecules.Molecule.AddMolecule | molecule.h:227-231 | appends copies of the other molecule's atoms and re-detects all bonds |
| Molecules.Molecule.AddAll | molecule.h:228-229 | the atoms come out as the old atoms followed by the given ones, in order, with the description unchanged and the molecule consistent |
| MoleculeXyz.DigitRun | molecule-xyz.cpp:29 | the digits `>> natoms` reads: the longest all-digit prefix of the token |
| MoleculeXyz.CountLine | molecule-xyz.cpp:27-34 | an accepted count fits the 32-bit `unsigned` |
| MoleculeXyz.CountLineExact | molecule-xyz.cpp:27-34 | the count line is accepted exactly when it holds one token of digits whose value is below 2^32; that value is the count |
| MoleculeXyz.CountLineMissing | molecule-xyz.cpp:29-30 | a line without a leading number gives "no natoms in file" |
| MoleculeXyz.CountLineGarbage | molecule-xyz.cpp:31-32 | a token after the count gives the "garbage in the end of the line" error naming that token |
| MoleculeXyz.ReadNum | molecule-xyz.cpp:45 | `is >> x` for a coordinate: white space is skipped, then the conversion takes a non-empty numeric prefix and the stream resumes right after it, which need not be white space; a read takes at least one character |
| MoleculeXyz.ReadCoords | molecule-xyz.cpp:45 | `>> x >> y >> z`: three conversions in a row, each starting where the one before stopped; the coordinates and the text left, at least three characters shorter |
| MoleculeXyz.TokensUnfold | molecule-xyz.cpp:51-52 | `is >> dummy` fails exactly when only white space is left; otherwise it takes the next token and the rest are the tokens after it |
| MoleculeXyz.CountTokens | molecule-xyz.cpp:50-52 | the `while (is >> dummy) ndummy++` loop counts the tokens left after the coordinates |
| MoleculeXyz.AtomLineExact | molecule-xyz.cpp:39-54 | an atom line is accepted exactly when its first token names a known element, three numbers follow, each read by `operator>>(double&)` from where the one before stopped, and 0 or 3 tokens are left after them; the atom has that element and those coordinates |
| MoleculeXyz.AtomLineErrors | molecule-xyz.cpp:45-54 | an unknown element gives `elementFromString`'s error, a coordinate that cannot be read "no atom description found in line", a number of tokens left other than 0 or 3 the "either 4 or 7 elements" error with that number |
| MoleculeXyz.AdjacentNumbersAccepted | molecule-xyz.cpp:45-54 | "C 1.0-2.0 3.0" has three tokens but is accepted as the carbon atom at (1.0, -2.0, 3.0), since each conversion stops where its number ends |
| MoleculeXyz.TrailingCharactersCounted | molecule-xyz.cpp:45-54 | in "C 1 2 3abc" the third conversion stops before "abc", which is counted as one more token, so the line is the "found 1 elements" error |
| MoleculeXyz.Decrement | molecule-xyz.cpp:55 | `--natoms` on an `unsigned`: the value one below, modulo 2^32 |
| MoleculeXyz.Step | molecule-xyz.cpp:26-65 | one turn of the `switch` keeps the counter a 32-bit value |
| MoleculeXyz.Run | molecule-xyz.cpp:25-66 | the reader's state after the lines, or the first error |
| MoleculeXyz.RunNext | molecule-xyz.cpp:25-26 | one more line is one more turn of the `switch` |
| MoleculeXyz.PastDescription | molecule-xyz.cpp:33-37 | after two lines without error the phase is A or E |
| MoleculeXyz.ReadLine | molecule-xyz.cpp:26-65 | the `switch` on one line updates the phase, the counter and the molecule as `Step` says, or raises its error |
| MoleculeXyz.ReadAtomLine | molecule-xyz.cpp:39-57 | the atom case reads the element and the coordinates, adds the atom, counts the tokens left with `CountTokens`, and counts down or raises its error as `Step` says |
| MoleculeXyz.ReadXyzFile | molecule-xyz.cpp:14-72 | the `getline` loop gives the first error `Run` names, or a new molecule holding `Run`'s description and atoms with bonds detected over them |
| MoleculeXyz.ErrorsStick | molecule-xyz.cpp:25-66 | once an error is raised no later line matters |
| MoleculeXyz.Declared | molecule-xyz.cpp:55 | the number of atom lines after which the counter reaches 0: the count, or 2^32 for a count of 0 |
| MoleculeXyz.RunShape | molecule-xyz.cpp:25-66 | the description is the second line verbatim; atoms come in file order, at most the declared number; the phase is E exactly after the declared number of atom lines |
| MoleculeXyz.AtomStep | molecule-xyz.cpp:45-56 | an atom line appends its atom and counts down |
| MoleculeXyz.BlankStep | molecule-xyz.cpp:58-62 | a line accepted in phase E is blank and changes nothing |
| MoleculeXyz.FirstTwo | molecule-xyz.cpp:27-38 | the first two lines give the count and the description |
| MoleculeXyz.ZeroCountNeverEnds | molecule-xyz.cpp:46-55 | a count of 0 never reaches phase E: the counter wraps on the first atom line |
| MoleculeXyz.DeclaredCountEnds | molecule-xyz.cpp:55-56 | with a count n of at least 1 and at least n atom lines, the phase is E after exactly n atoms |
| MoleculeXyz.TrailingTokenError | molecule-xyz.cpp:58-62 | in phase E a line holding a token is the "trailing characters" error |
| MoleculeXyz.FewerAtomLines | molecule-xyz.cpp:39-57 | fewer atom lines than declared is not an error: the atoms read are those lines', in order |
| MoleculeXyz.AtomLinePrinted | molecule.cpp:55-63 | a printed atom line reads back as the same atom, when every coordinate prints as one token that reads back as itself and the conversion stops at the white space or line end after it |
| MoleculeXyz.CountLinePrinted | molecule.cpp:274 | a printed count below 2^32 reads back as itself |
| MoleculeXyz.ReadPrinted | molecule.cpp:273-279 | the lines `operator<<` writes read back as the same description and atoms, when every coordinate prints as one token that reads back as itself and the conversion stops at the white space or line end after it |
| MoleculeXyz.ReadWritten | molecule.cpp:262-279 | the text written for a molecule, split as `getline` splits it, reads back as the same description and atoms, when every coordinate prints as one token that reads back as itself |
| StructureDb.Depth | structure-db.h:20-29 | a signature is higher than each of its neighbours |
| StructureDb.LessIrreflexive | structure-db.cpp:87-102 | `AtomSignature::operator<` is irreflexive: equal signatures give false |
| StructureDb.LessTotal | structure-db.cpp:87-102 | of two different signatures one is smaller |
| StructureDb.Equivalent | structure-db.cpp:87-102 | two signatures neither of which is smaller are equal |
| StructureDb.LessTransitive | structure-db.cpp:87-102 | the order is transitive (lexicographic: element, then neighbour count, then neighbours pairwise), so `std::sort` may use it |
| StructureDb.Insert | structure-db.cpp:74 | putting one signature into a sorted list keeps it sorted, with that signature once more |
| StructureDb.SortSeq | structure-db.cpp:74 | a sorted arrangement of the same signatures |
| StructureDb.SortedUnique | structure-db.cpp:74 | two sorted lists of the same signatures are the same list: sorting is determined |
| StructureDb.Sort | structure-db.cpp:69-105 | `std::sort`: the same signatures, none smaller than one before it |
| StructureDb.SortNeighbors | structure-db.cpp:104-106 | `AtomSignature::sort` sorts only the immediate neighbour list; the element and the signatures inside the neighbours are unchanged |
| StructureDb.ConsistentGraph | structure-db.cpp:20-23 | every atom of a consistent molecule has an element and a bond list whose entries have lists |
| StructureDb.Unseen | structure-db.cpp:43-52 | the entries kept are bond-list entries not on the path |
| StructureDb.ChildSigsUnseen | structure-db.cpp:41-55 | below the maximal depth the children are exactly the neighbour signatures of the bond entries not on `stack[0..depth)`, one each, in bond-list order |
| StructureDb.RootChildren | structure-db.cpp:28-37 | a root signature has the atom's element and one child per bond entry, the neighbour's signature at depth 1 |
| StructureDb.NeighborSigDepth | structure-db.cpp:39-57 | at depth `maxDepth` a neighbour signature has no children, and below it the tree is bounded by the remaining depth |
| StructureDb.AtomSigDepth | structure-db.h:11-40 | `STACK_SZ` = 3 bounds a root signature to 4 levels |
| StructureDb.ComputeAtomNeighborSignature | structure-db.cpp:39-57 | the recursion writing `stack[depth]` computes the neighbour signature for the path `stack[0..depth)` and leaves that part of the stack as it was |
| StructureDb.ComputeAtomSignature | structure-db.cpp:28-37 | the root signature of the atom |
| StructureDb.AtomSigs | structure-db.cpp:20-23 | one signature per atom |
| StructureDb.SortedAtomSignatures | structure-db.cpp:20-26 | the loop computes each atom's signature, in atom order, with its neighbours sorted |
| StructureDb.ComputeMoleculeSignature | structure-db.cpp:20-26 | exactly one signature per atom, sorted by `AtomSignature::operator<` |
| StructureDb.SignatureOrderFree | structure-db.cpp:69-75 | the molecule signature does not depend on the order of the atoms |
| StructureDb.SameKey | structure-db.cpp:61-67 | `MoleculeSignature::operator<` compares only sizes, so two signatures are the same map key exactly when they are equally long |
| StructureDb.DifferentMoleculesShareKey | structure-db.cpp:61-67 | two different one-atom signatures (hydrogen and carbon), neither smaller than the other, so the map takes them for one key |
| StructureDb.SignatureSameKey | structure-db.cpp:61-67 | the corrected order, sizes then atom signatures pairwise: two signatures are the same key exactly when they are equal |
| StructureDb.SignatureLessTransitive | structure-db.cpp:61-67 | the corrected order is transitive, so `std::map` may use it |
| StructureDb.Db.constructor | structure-db.cpp:5-6 | a new database is empty |
| StructureDb.Db.Add | structure-db.cpp:8-11 | the entry for the molecule's atom count gets the identifier, keeping the key first stored; other entries are unchanged |
| StructureDb.Db.Find | structure-db.cpp:13-16 | the identifier stored for an equivalent key, or "" when there is none |
| StructureDb.Db.Size | structure-db.h:31-36 | the number of entries, one per distinct key |
| StructureDb.AddThenFind | structure-db.cpp:8-16 | `find` after `add` returns the identifier added, for the same molecule or any with as many atoms |
| Util.Pieces | util.h:12-21 | the fields of the text between separators, with the last one dropped when empty: no field holds the separator, and there are none exactly when the text is empty |
| Util.PiecesAt | util.h:14-18 | a field followed by the separator is emitted as it is, ahead of the fields of the rest |
| Util.PiecesOfField | util.h:19 | text without the separator is a single field, or no field when empty |
| Util.SplitStep | util.h:14-18 | one character of the loop: a separator ends the current field, any other character extends it |
| Util.Split | util.h:12-21 | `split` returns exactly the fields described by `Pieces` |
| Util.PiecesJsSplit | util.h:12-21 | `split` agrees with the every-field split except that it drops the trailing empty field after a final separator |
| Util.JoinSnoc | util.h:12-21 | joining one more field appends the separator and that field |
| Util.JoinPieces | util.h:12-21 | joining the fields with the separator gives the text back, less a final separator |
| Util.PiecesOfEndedLines | util.h:42-44 | lines each ended by a newline split back into exactly those lines |
| Util.SplitLines | util.h:42-44 | `splitLines` is `split` at '\n' |
| Text.RemoveEmptySnoc | util.h:46-52 | dropping empty fields distributes over appending one field |
| Util.SplitSpaces | util.h:46-52 | `splitSpaces` keeps the non-empty fields of the split at ' ', in order; none is empty or holds a space |
| Util.ContainerToVec | util.h:23-29 | the elements, in iteration order |
| Util.Lookup | util.h:91-92 | a pointer to the mapped value exactly when the key is present, null otherwise |
| Util.DoubleMap.constructor | util.h:84-85 | both maps start empty |
| Util.DoubleMap.Add | util.h:87-90 | each of the pair maps to the other; every other entry in either map, including a stale reverse entry, is kept |
| Util.StaleReverse | util.h:87-92 | after add(a, x) and add(a, y), `get21(x)` still returns a although `get12(a)` is y |
| Util.Lower | util.cpp:10 | 'A'..'Z' go to lower case, every other character is unchanged |
| Util.ToLower | util.cpp:10 | the string with each character lowered, same length |
| Util.StrAsBool | util.cpp:9-16 | true exactly for yes/true/on/1, false exactly for no/false/off/0 in any letter case, otherwise the error naming the string |
| Util.WordsDisjoint | util.cpp:11-14 | no word is accepted as both true and false |
| Util.StrAsBoolCaseInsensitive | util.cpp:9-16 | strings equal up to letter case convert alike |
| Common.MapPlus | common.h:24-30 | the keys of both maps; a key of the right operand takes its value, a key only of the left keeps its value |
| TempFiles.NamePart | temp-file.cpp:27 | the caller's name, or "file" when it is empty; never empty |
| TempFiles.Stem | temp-file.cpp:24-28 | the name up to the serial number is non-empty and does not end in a digit |
| TempFiles.FileNameShape | temp-file.cpp:9-29 | every name lies in /tmp and ends in ".tmp"; an empty name is the same as "file" |
| TempFiles.FileNamesDiffer | temp-file.cpp:24-29 | names with different serial numbers differ, whatever the other parts |
| TempFiles.SerialNumber.constructor | temp-file.cpp:11 | the serial number starts at 0 |
| TempFiles.SerialNumber.GenName | temp-file.cpp:23-30 | the serial number is pre-incremented modulo 2^32 and the name carries the new one |
| TempFiles.SerialNumber.GenNames | temp-file.cpp:23-30 | up to 2^32 consecutive names carry consecutive serial numbers and are pairwise distinct |
| TempFiles.NextSerial | temp-file.cpp:29 | incrementing the wrapped serial equals wrapping the incremented serial |
| TempFiles.FreshName | temp-file.cpp:23-30 | a new name differs from all names generated since, within 2^32 names |
| TempFiles.SerialsDiffer | temp-file.cpp:29 | fewer than 2^32 increments never return to the same serial |
| TempFiles.TempFile.constructor | temp-file.cpp:13-14 | the full path is a freshly generated name for the caller's name |
| TempFiles.TempFile.GetFname | temp-file.h:16 | the full path |
| ErkaleEngine.Translated | calc-engine-erkale.cpp:53-63 | "precision" becomes "ConvThr" and "basis" becomes "Basis", with their values; nothing else is produced |
| ErkaleEngine.ErkaleParams | calc-engine-erkale.cpp:53-63 | success exactly when every key is known, giving the translation; otherwise the error names the first unknown key in map order |
| ErkaleEngine.NoUnknownKeys | calc-engine-erkale.cpp:55-61 | with no unknown key left, every key is known |
| ErkaleEngine.ParamsToErkaleParams | calc-engine-erkale.cpp:53-63 | the loop over the keys in order returns exactly `ErkaleParams` |
| ErkaleEngine.FirstUnknown | calc-engine-erkale.cpp:55-61 | the error names the least unknown key when all keys before it are known |
| ErkaleEngine.DefaultParams | calc-engine-erkale.cpp:65-68 | "Basis" is present, kept if given and "3-21G" otherwise; every other entry is unchanged |
| ErkaleEngine.DefaultParamsIdempotent | calc-engine-erkale.cpp:65-68 | applying the defaults twice is the same as once |
| ErkaleEngine.FileNamesDiffer | calc-engine-erkale.cpp:24-27 | distinct call numbers give distinct xyz, run and result file names |
| ErkaleEngine.ParamLines | calc-engine-erkale.cpp:33-34 | one line "key value" per key, in the given order |
| ErkaleEngine.RunfileHasParams | calc-engine-erkale.cpp:28-35 | the runfile has the two header lines plus one line per parameter, and every parameter's line is among them |
| ErkaleEngine.EnergyRunfile | calc-engine-erkale.cpp:28-35 | with a basis and a precision the runfile is System, Method, Basis, ConvThr, in that order |
| ErkaleEngine.WriteRunfile | calc-engine-erkale.cpp:28-35 | the text written is the runfile's lines, each ended by a newline |
| ErkaleEngine.RunfileHeader | calc-engine-erkale.cpp:30-31 | the two header lines as written |
| ErkaleEngine.RunfileStep | calc-engine-erkale.cpp:33-34 | writing one more parameter appends its line |
| ErkaleEngine.FirstErrorLine | calc-engine-erkale.cpp:44-47 | the first line from the given index that is longer than "error:" and starts with it, or -1 when there is none |
| ErkaleEngine.FindErrorTag | calc-engine-erkale.cpp:43-48 | the failure message for the first error line, or nothing when no line carries the tag |
| ErkaleEngine.RunOutput | calc-engine-erkale.cpp:41-50 | the output's lines exactly when none carries the error tag, and an error otherwise |
| ErkaleEngine.RunProcess | calc-engine-erkale.cpp:21-51 | the runfile written for the call's xyz file and the outcome of running the command on the call's runfile |
| ErkaleEngine.EnergyField | calc-engine-erkale.cpp:92-106 | the energy token exactly when the output has at least 5 lines, the last starts with "RDFT converged" and the one before has at least 3 words; the token is the second word |
| ErkaleEngine.WordsLine | calc-engine-erkale.cpp:101 | a line of three space-separated words splits into those words |
| ErkaleEngine.ConvergedEnergy | calc-engine-erkale.cpp:92-106 | a converged run yields the second word of its next-to-last line |
| ErkaleEngine.UnknownParamFails | calc-engine-erkale.cpp:53-63 | an unknown parameter fails the call before any process is run, whatever the process would print |
| ErkaleEngine.Erkale.constructor | calc-engine-erkale.cpp:81-82 | the call counter starts at 0 |
| ErkaleEngine.Erkale.Kind | calc-engine-erkale.cpp:77-79 | "erkale" |
| ErkaleEngine.Erkale.CalcEnergy | calc-engine-erkale.cpp:81-108 | the counter advances modulo 2^32; a runfile is written exactly when the parameters translate, with the defaults; the result is the energy outcome for the new counter |
| ErkaleEngine.Erkale.CalcOptimized | calc-engine-erkale.cpp:110-166 | the counter advances; the parameters gain "Result" naming the result file; on success the result is that file, to be read back as an xyz file |
| ErkaleEngine.ResultEntry | calc-engine-erkale.cpp:119-120 | the optimisation parameters name the result file and carry a basis |
| CalcErkale.TranslateErrStays | modules/calc-erkale.js:19-26 | once a key has been thrown, the later keys change nothing |
| CalcErkale.TranslateFails | modules/calc-erkale.js:17-28 | the translation succeeds exactly when every key is "precision", "basis" or a shared valid parameter; otherwise it throws for the first key that is none of these |
| CalcErkale.TranslateKeys | modules/calc-erkale.js:17-28 | on success "ConvThr" holds the precision and "Basis" the basis exactly when these were given, and no other key is present |
| CalcErkale.InFirstStep | modules/calc-erkale.js:19 | a key is among the first n entries exactly when it is among the first n-1 or is the n-th |
| CalcErkale.SetKeys | modules/calc-erkale.js:21-23 | assigning a property adds at most that key |
| CalcErkale.ParamsToErkaleParams | modules/calc-erkale.js:17-28 | the loop over the keys in object order returns the translation of all of them |
| CalcErkale.TranslateOrder | modules/calc-erkale.js:17-28 | basis then precision become Basis then ConvThr, in that order |
| CalcErkale.DefaultParams | modules/calc-erkale.js:30-33 | the object unchanged when it has a basis; otherwise "Basis" = "3-21G" appended last |
| CalcErkale.EntryLines | modules/calc-erkale.js:39-41 | one "key value" line per entry, in object order |
| CalcErkale.FormRunfile | modules/calc-erkale.js:35-43 | the System and Method lines, then the entry lines, each ended by a newline |
| CalcErkale.RunfileStart | modules/calc-erkale.js:36-38 | the text before the loop is the two header lines |
| CalcErkale.RunfileNext | modules/calc-erkale.js:39-41 | each entry appends its line |
| CalcErkale.FindErrors | modules/calc-erkale.js:112-119 | never reports an error, its checks being disabled |
| CalcErkale.OutputLines | modules/calc-erkale.js:64-72 | on success the lines, each ended by a newline, make up the whole output |
| CalcErkale.OutputLinesJoin | modules/calc-erkale.js:65-71 | an output whose split ends in an empty piece is its other pieces each ended by a newline |
| CalcErkale.OutputLinesOfLines | modules/calc-erkale.js:64-72 | newline-terminated lines are read back as exactly those lines |
| CalcErkale.UnterminatedOutput | modules/calc-erkale.js:71-72 | output whose last line lacks its newline is thrown |
| CalcErkale.JoinLast | modules/calc-erkale.js:65 | joining with an empty last piece then appending text is joining with that text last |
| CalcErkale.ExtractEnergyFromOutput | modules/calc-erkale.js:78-90 | the energy word exactly when there are at least 5 lines, the last starts with "RDFT converged" and the one before has at least 3 words; it is the second word; a short output is thrown with its line count |
| CalcErkale.ArrRmEmpty | modules/calc-erkale.js:96-102 | the non-empty strings, in order |
| CalcErkale.RemoveEmptyMultiset | modules/calc-erkale.js:96-102 | every non-empty string is kept as often as it occurs, and the empty ones are all dropped |
| CalcErkale.RunCalcEngine | modules/calc-erkale.js:45-76 | a translation error is thrown first; otherwise the runfile is written and the process run, or the earlier output read when reprocessing, and its lines come back |
| CalcErkale.CalcEnergy | modules/calc-erkale.js:129-133 | the energy word of the run's output, or the first error on the way |
| CalcErkale.CalcOptimized | modules/calc-erkale.js:134-138 | the optimised-molecule file of the run directory, or the first error on the way |
| CalcNWChem.BasisLines | modules/calc-nwchem.js:41-42 | one " <element> library 3-21G" line per element, in the molecule's order |
| CalcNWChem.InpLinesShape | modules/calc-nwchem.js:33-55 | the deck has ten fixed lines, one per element and one more when a precision is given; it starts with the geometry block, then the basis lines, and ends with the task line |
| CalcNWChem.InpRoundTrip | modules/calc-nwchem.js:33-55 | with no line end inside the element names, the precision or the operation, the deck text splits back into exactly its lines |
| CalcNWChem.FormGeometry | modules/calc-nwchem.js:34-40 | the title, echo, geometry block loading m.xyz, and the basis header, each ended by a newline |
| CalcNWChem.FormInp | modules/calc-nwchem.js:33-55 | the deck text for "optimize" or "energy"; any other operation is thrown as unknown |
| CalcNWChem.BasisStep | modules/calc-nwchem.js:41-42 | each element appends its basis line |
| CalcNWChem.FirstWith | modules/calc-nwchem.js:141-144 | the first line from the given index that contains the pattern, or -1 when none does |
| CalcNWChem.Errors | modules/calc-nwchem.js:61-67 | nothing is reported exactly when no line contains "ERROR" and there are at least 25 lines |
| CalcNWChem.FindErrors | modules/calc-nwchem.js:61-67 | the loop reports the first line containing "ERROR", else the short-output warning, else nothing |
| CalcNWChem.HeaderLnos | modules/calc-nwchem.js:69-75 | ascending line numbers, each of a line where the coordinates header starts at position 1 |
| CalcNWChem.HeaderLnosComplete | modules/calc-nwchem.js:71-73 | every header line is listed |
| CalcNWChem.ParseMoleculeHeaderLnos | modules/calc-nwchem.js:69-75 | the loop collects exactly the header line numbers |
| CalcNWChem.RowsShape | modules/calc-nwchem.js:85-90 | the parsed rows come from consecutive six-word lines, and the table ends with an empty line |
| CalcNWChem.CoordsSectionShape | modules/calc-nwchem.js:77-96 | a parsed section follows an empty line, the column names and the dashes, has exactly as many rows as the molecule has atoms, and ends with an empty line |
| CalcNWChem.RowsStep | modules/calc-nwchem.js:85-90 | a six-word line puts its row in front of the rows after it |
| CalcNWChem.ParseRows | modules/calc-nwchem.js:85-90 | the row loop returns the rows up to the first empty line, throws for a line without six words, and fails when the output ends first |
| CalcNWChem.ParseCoordsSection | modules/calc-nwchem.js:77-96 | the three fixed lines are checked in order, then the rows, then the atom count, each failure with its own message |
| CalcNWChem.ParseLastCoordSection | modules/calc-nwchem.js:98-105 | the section after the last header, or the error that there is no header |
| CalcNWChem.SectionResults | modules/calc-nwchem.js:114-115 | the outcome of parsing after each header, in header order |
| CalcNWChem.CollectSnoc | modules/calc-nwchem.js:114-115 | one more section: an earlier error stays, a new error stops, a success is appended |
| CalcNWChem.CollectErrStays | modules/calc-nwchem.js:114-115 | once a section has failed, the later ones change nothing |
| CalcNWChem.CollectShape | modules/calc-nwchem.js:113-116 | the run succeeds exactly when every section does, and then holds every section in order |
| CalcNWChem.SectionsShape | modules/calc-nwchem.js:107-117 | parsing every section succeeds exactly when each header's section parses, and returns them in header order |
| CalcNWChem.ParseAllCoordSections | modules/calc-nwchem.js:107-117 | every section in header order, the first failure thrown, or the error that there is no header |
| CalcNWChem.Energy | modules/calc-nwchem.js:140-149 | an energy exists exactly when some "Final RHF  results" line is followed later by a "Total SCF energy =" line |
| CalcNWChem.EnergyMissing | modules/calc-nwchem.js:141-148 | no energy line after the first results line means no energy line after any results line |
| CalcNWChem.FirstWithSkip | modules/calc-nwchem.js:141-144 | a line without the pattern is passed over |
| CalcNWChem.ScanFrom | modules/calc-nwchem.js:143-147 | the inner loop finds the first energy line from the given index, or none |
| CalcNWChem.ExtractEnergyFromOutput | modules/calc-nwchem.js:140-149 | the nested loops return the last space-separated piece of the first energy line after the first results line, or throw |
| CalcNWChem.EnergyAt | modules/calc-nwchem.js:142-146 | the energy is the last piece of the first energy line after the first results line |
| CalcNWChem.EnergyNone | modules/calc-nwchem.js:148 | with no results line, or no energy line after the first one, there is no energy |
| CalcNWChem.CheckedLines | modules/calc-nwchem.js:132-135 | the output's lines exactly when `findErrors` reports nothing; then there are at least 25 of them |
| CalcNWChem.RunCalcEngine | modules/calc-nwchem.js:119-138 | unless reprocessing, the deck is written and the process run, and an unknown operation is thrown; the lines of the output worked on come back when they pass the error check |
| CalcNWChem.CalcEnergy | modules/calc-nwchem.js:158-162 | the energy of the checked output lines, or the first error on the way |
| CalcNWChem.CalcOptimized | modules/calc-nwchem.js:163-167 | the last coordinate section of the checked output lines, or the first error on the way |
| CalcNWChem.CalcOptimizedWithSteps | modules/calc-nwchem.js:168-172 | every coordinate section of the checked output lines, or the first error on the way |
| MoleculeFunctions.Unseen | modules/molecule-functions.js:34-43 | entries for neighbours not yet seen, all at the given level, in bond order |
| MoleculeFunctions.TraverseBonds | modules/molecule-functions.js:34-43 | `traverseBonds` pushes exactly the unseen neighbours, in bond order, on top of the stack |
| MoleculeFunctions.InvSeed | modules/molecule-functions.js:44-49 | after atom1 and atom2 are marked seen and the neighbours of atom2 pushed at level 1, the walk's invariant holds |
| MoleculeFunctions.StepMeasure | modules/molecule-functions.js:51-56 | each round either marks a new atom seen or shrinks the stack, so the walk ends |
| MoleculeFunctions.StepPending | modules/molecule-functions.js:52-55 | every pending entry stays justified by a report one level up, and is neither atom1 nor atom2 |
| MoleculeFunctions.StepReports | modules/molecule-functions.js:53-54 | the popped entry is reported and marked seen, keeping every report justified by earlier ones |
| MoleculeFunctions.StepClosure | modules/molecule-functions.js:54-55 | every neighbour of a seen atom other than atom1 is seen or pending |
| MoleculeFunctions.UnseenFacts | modules/molecule-functions.js:39-40 | every neighbour not yet seen gets a pending entry |
| MoleculeFunctions.TraverseForward | modules/molecule-functions.js:31-57 | the calls of `fn`, in order and repeats included, are exactly the walk `Traversal`: pop the last stack entry, report it, mark its atom seen and push its unseen neighbours one level deeper, until the stack is empty |
| MoleculeFunctions.Walk | modules/molecule-functions.js:51-56 | from a non-empty stack, the walk reports at least as many entries as are stacked, the last-pushed entry first |
| MoleculeFunctions.WalkUnfold | modules/molecule-functions.js:51-56 | the walk from a non-empty stack is the popped entry followed by the walk from the state after one iteration |
| MoleculeFunctions.WalkStep | modules/molecule-functions.js:51-56 | one iteration keeps the walk's precondition and lowers its termination measure |
| MoleculeFunctions.Traversal | modules/molecule-functions.js:31-57 | the walk from the seed: empty exactly when atom2 has no neighbour besides atom1 and atom2, and otherwise starting with the last-pushed seed entry |
| MoleculeFunctions.TraversalOk | modules/molecule-functions.js:31-57 | every call of the walk is for an atom in the graph other than atom1 and atom2, and is either at level 1 for a neighbour of atom2 or at level l for a neighbour of an earlier call at level l - 1; the atoms reached are closed under bonds except through atom1 |
| MoleculeFunctions.WalkInv | modules/molecule-functions.js:51-56 | from any state satisfying the loop invariant, the reports so far followed by the rest of the walk satisfy `WalkOk` |
| MoleculeFunctions.ReportedTwice | modules/molecule-functions.js:34-56 | an atom can be reported twice: in a triangle 1-2-3 walked from the bond 0 -> 1, the calls are 3 at level 1, 2 at level 2 and 2 at level 1 |
| MoleculeFunctions.Pop | modules/molecule-functions.js:52-55 | one loop round: the popped entry's atom joins the seen set, its unseen neighbours replace it on the stack, and it is appended to the calls |
| MoleculeFunctions.IterateSnoc | modules/molecule-functions.js:51-56 | n + 1 rounds are n rounds followed by one more, which changes nothing once the stack is empty |
| MoleculeFunctions.IterateStops | modules/molecule-functions.js:51 | once the stack is empty, further rounds change nothing |
| MoleculeFunctions.IterateIds | modules/molecule-functions.js:51-56 | in a graph closed under bonds, every stacked atom stays an atom of the graph |
| MoleculeFunctions.RestUnfold | modules/molecule-functions.js:51-56 | the rest of the walk is empty for an empty stack and otherwise the popped entry followed by the rest after one round |
| MoleculeFunctions.WalkIterate | modules/molecule-functions.js:51-56 | after n rounds the calls are the first n entries of the walk, and the stack is empty exactly when the whole walk is done |
| MoleculeFunctions.TraversalBound | modules/molecule-functions.js:51-56 | some number of rounds empties the stack, so the loop ends |
| MoleculeFunctions.TraversalNext | modules/molecule-functions.js:51-56 | while the stack is not empty the bound is not reached, and the next round pops, reports, marks seen and pushes as the loop body does |
| MoleculeFunctions.TraversalEnd | modules/molecule-functions.js:51-57 | when the stack is empty the calls made are the whole walk |
| MoleculeFunctions.InvStep | modules/molecule-functions.js:51-56 | one round of the loop keeps the loop invariant: pending entries justified, reports justified, reached atoms closed, termination labels consistent |
| MoleculeFunctions.StepPendingOk | modules/molecule-functions.js:52-55 | after a round every pending entry is still justified by a report one level up and is neither atom1 nor atom2 |
| MoleculeFunctions.StepClosureOk | modules/molecule-functions.js:54-55 | after a round every neighbour of a seen atom other than atom1 is seen or pending |
| MoleculeFunctions.StepLabelsOk | modules/molecule-functions.js:51-56 | after a round the termination labels still match the stack |
| MoleculeFunctions.ReachedIsSeen | modules/molecule-functions.js:51-56 | when the stack is empty, the reached atoms are the seen ones, and they are closed under bonds except through atom1 |
| MoleculeFunctions.PathReached | modules/molecule-functions.js:31-57 | every atom on a bond path from atom2 that does not pass through atom1 is reached |
| MoleculeFunctions.Width | modules/molecule-functions.js:66-68 | one more than the highest reported level, or 0 with no report |
| MoleculeFunctions.AtLevel | modules/molecule-functions.js:70 | the atoms reported at a level, in report order |
| MoleculeFunctions.AtLevelSnoc | modules/molecule-functions.js:70 | one more report extends its level's list only |
| MoleculeFunctions.WidthSnoc | modules/molecule-functions.js:66-68 | one more report raises the width to its level + 1 when that is larger |
| MoleculeFunctions.AtLevelEmpty | modules/molecule-functions.js:66-70 | a level nobody reports stays empty |
| MoleculeFunctions.AtLevelBeyond | modules/molecule-functions.js:66-70 | levels at or above the width are empty |
| MoleculeFunctions.Pad | modules/molecule-functions.js:66-68 | the list grows with empty levels up to the given level and keeps its existing levels |
| MoleculeFunctions.BucketStep | modules/molecule-functions.js:64-71 | one callback keeps every level equal to the reports at that level |
| MoleculeFunctions.Bucket | modules/molecule-functions.js:63-72 | `res[l]` lists the atoms reported at level l, in order, and the list is as long as the width |
| MoleculeFunctions.FindLevelsFrom | modules/molecule-functions.js:62-73 | `res[l]` lists, in order, the atoms `Traversal` reports at level l, and `res` is as long as its width; level 0 is empty and the last level is not, so the result never has exactly one level; each listed atom is a neighbour of atom2 at level 1 or of an atom one level up; the listed atoms are closed under bonds except through atom1 |
| MoleculeFunctions.LevelsEnds | modules/molecule-functions.js:62-73 | with every report at level 1 or more, level 0 is empty and the last level is not |
| MoleculeFunctions.LevelJustified | modules/molecule-functions.js:62-73 | a listed atom is justified by atom2 or by an atom on the level above |
| MoleculeFunctions.LevelsJustified | modules/molecule-functions.js:62-73 | every listed atom is justified |
| MoleculeFunctions.ListedReached | modules/molecule-functions.js:70 | a listed atom was reported |
| MoleculeFunctions.ReachedListed | modules/molecule-functions.js:70 | a reported atom other than atom1 or atom2 is listed |
| MoleculeFunctions.LevelsClosed | modules/molecule-functions.js:62-73 | the listed atoms, with atom2, are closed under bonds, except through atom1 |
| AminoAcids.ReplaceFirst | modules/amino-acids.js:13-15 | `replace` with a one-character string pattern keeps the length |
| AminoAcids.ReplaceFirstAt | modules/amino-acids.js:13-15 | only the first occurrence changes; the text is unchanged when there is none |
| AminoAcids.FindFromTail | modules/amino-acids.js:13-15 | the first occurrence in a text not starting with the character is one past its first occurrence in the tail |
| AminoAcids.FindFromFirst | modules/amino-acids.js:13-15 | the first occurrence is the position before which the character does not occur |
| AminoAcids.ReplaceFirstInverse | modules/amino-acids.js:13-15 | for a name without '_', turning the first '_' back into a space restores it |
| AminoAcids.CodeToFile | modules/amino-acids.js:7-17 | a file exactly for codes in the table; an unknown code fails as the table lookup does |
| AminoAcids.CodeToFileParts | modules/amino-acids.js:11-17 | the path is the amino-acid directory, "L-" exactly for codes other than 'G', the name with its first space as '_', then ".xyz" |
| AminoAcids.DecodePeptide | modules/amino-acids.js:19-23 | `f` is called once per position, with the index and the code there, in order |
| AminoAcids.Combine | modules/amino-acids.js:25-45 | angles of the wrong length are thrown first; otherwise every code's file is named in order, the first starting the chain and each later one appended with its angles; without angles a second code throws; an empty peptide leaves no chain |
| AminoAcids.AngleNamesDistinct | modules/amino-acids.js:54-63 | the ten angle names are distinct |
| AminoAcids.AnglesObjectGet | modules/amino-acids.js:52-63 | entry i is stored under the i-th angle name, and the keys are the first names, in order |
| AminoAcids.GetFirst | modules/amino-acids.js:52-63 | a key set once is read back |
| AminoAcids.InvalidIndexText | modules/amino-acids.js:65 | the message for index 10 |
| AminoAcids.AnglesStep | modules/amino-acids.js:53-63 | each index adds its named property |
| AminoAcids.AnglesArrayToObject | modules/amino-acids.js:50-69 | up to ten angles become the object named by index; an eleventh angle throws at index 10 |
| AminoAcids.AnglesArraysToObjects | modules/amino-acids.js:74-79 | every array converted in order, same length, or the first array's error |
| ServeDirectory.LastIndexOf | modules/http-serve-directory.js:15 | the last position of the character, or -1 when it does not occur |
| ServeDirectory.Extname | modules/http-serve-directory.js:14-17 | the text after the last '.', which holds no '.'; "" when there is no '.' |
| ServeDirectory.ExtnameOfSuffix | modules/http-serve-directory.js:14-17 | a path ending in "." and a dot-free extension yields that extension |
| ServeDirectory.PathToContentType | modules/http-serve-directory.js:36-42 | one of the six table types, an inherited function for an extension that names one, or 'text/html' |
| ServeDirectory.LookupType | modules/http-serve-directory.js:37 | `extToContentType[ext]`: the table's own entry first, then an inherited property of that name, and undefined exactly when neither exists |
| ServeDirectory.InheritedExtension | modules/http-serve-directory.js:36-42 | a request for "/a.toString" gets the inherited `toString` function as its content type, not 'text/html' |
| ServeDirectory.GetFound | modules/http-serve-directory.js:37 | a property found is one of the object's entries |
| ServeDirectory.ContentTypeOf | modules/http-serve-directory.js:27-42 | a table extension gets its type; an extension naming a property every object inherits (`toString`, `valueOf`, ...) gets that inherited function; any other extension gets 'text/html' |
| ServeDirectory.Page404 | modules/http-serve-directory.js:19-25 | the page embeds the requested URL right after "Requested file not found: " |
| ServeDirectory.MappedPathInDir | modules/http-serve-directory.js:51-56 | every mapped path is the directory followed by a path starting with '/' |
| ServeDirectory.FilePath | modules/http-serve-directory.js:51-56 | the handler's reassignments give the mapped path: "/" becomes "/index.html", a missing leading '/' is added, the directory goes in front |
| ServeDirectory.SameFiles | modules/http-serve-directory.js:52-55 | a URL without its leading '/' names the same file as with it, and "/" names the index page |
| ServeDirectory.FilePathsDiffer | modules/http-serve-directory.js:51-56 | distinct URLs starting with '/', other than "/", name distinct files |
| ServeDirectory.Serve | modules/http-serve-directory.js:48-70 | a file read answers 200 with the content type `pathToContentType` gives and the file; a failed read answers 404 with 'text/html' and the not-found page |
| Interpolate.Walk | modules/interpolate.js:3-10 | exactly the requested number of points |
| Interpolate.WalkSteps | modules/interpolate.js:5-7 | the walk starts at the first point and each point is the previous plus the step |
| Interpolate.SegmentShape | modules/interpolate.js:3-11 | a segment of n splits has n+1 points, starts at b when n is at least 1, ends at e itself, and steps by (e - b) / n |
| Interpolate.Linear3DOneSegment | modules/interpolate.js:3-11 | the loop pushes the walk from b and then e, giving the segment |
| Interpolate.Linear3D | modules/interpolate.js:13-20 | throws exactly when there is not one more point than split counts; otherwise one segment per count, the i-th from pts[i] to pts[i+1] |
| Interpolate.SegmentsJoin | modules/interpolate.js:13-20 | each segment ends where the next one starts, when that one has at least one split |

## Left out

HTTP parser and server (modules/http-protocol.js, modules/http.js):
- Socket creation, bind, listen, select, accept, read, write and close are not modelled as I/O. Their results are parameters of the model, and a read or write count is bounded by what was asked.
- The throwing `onExcept` handler is modelled as an error result of the except phase (`HttpServer.ExceptPhase`).
- `pick`, `createHeaders`, `fmtResponseHeadline` and `formResponse` are called by the server but defined in no file of the repository. They are function parameters with no body.
- The string encoding of `Binary.appendString` is the parameter `encode`.
- `bodyTodoLength` and `bodyDoneLength` are set by the parser but never read, so they are not modelled.
- A parser test in the repository calls `createProcessor` and expects `body: null`. The parser's `init` does set `body: null` (modules/http-protocol.js:28). The test still fails, because the module does not export `createProcessor`; it exports only `create`.
- `HttpProtocol.JsParseInt`: it keeps every digit exactly. JavaScript's `parseInt` rounds a value above 2^53 to the nearest double, and that rounding is not modelled.
- `HttpProtocol.ContentLength`: rejects a Content-Length that `parseInt` reads as NaN or as a negative number. The code at modules/http-protocol.js:61 stores it unchecked. The code as written is `HttpProtocol.AsWrittenLoop` and `HttpProtocol.AsWrittenRun`, and the row under "Findings" shows what it does.
- `HttpProtocol.EndOfHeaders`: throws `InvalidContentLength` on such a length, where the code goes on in state B with that length; see `HttpProtocol.ContentLength`.
- `HttpProtocol.StepAt`: the end of the headers goes through `EndOfHeaders`, so an invalid length throws; see `HttpProtocol.ContentLength`.
- `HttpProtocol.Loop`: on an invalid length it ends in a throw. The code loops on with a NaN need, or takes a negative step; see `HttpProtocol.ContentLength`.
- `HttpProtocol.Run`: on an invalid length it throws. `processData` as written returns NaN or a negative count; see `HttpProtocol.ContentLength`.
- `HttpProtocol.Processor.ProcessData`: it equals `Run`, so it has the same divergence on an invalid length; see `HttpProtocol.ContentLength`.
- `HttpProtocol.Processor.EndHeadersTurn`: it equals `EndOfHeaders`, so it throws on an invalid length; see `HttpProtocol.ContentLength`.
- `HttpProtocol.BodyStep`: the finished body is `CStringText` of the bytes. It stops at the first NUL as the engine does, but each byte is one character: the engine's UTF-8 decoding of multi-byte sequences is not modelled.
- `HttpProtocol.Processor.BodyTurn`: it equals `BodyStep`, with the same byte-per-character text.
- `BinaryBuffer.FindChar`: `findChar` is called on a `Binary` at modules/http-protocol.js:12 but defined in no file of the repository; binary.cpp:48-102 defines only `dupl`, `size`, `resize`, the `append` family, `concatenate`, `toString` and `toFile`. The model assumes the first index at or after the offset that holds the byte, or -1. `getChar`, equally undefined, is taken as indexing the bytes.
- `BinaryBuffer.GetSubString`: `getSubString` is likewise defined nowhere. The model assumes the bytes of the half-open range, one character each.
- `BinaryBuffer.Binary.AppendRange`: `appendRange` is likewise defined nowhere. The model assumes it appends the bytes of the half-open range, and nothing for an empty or reversed range.
- `HttpServer.Client.constructor`: modules/http.js:130,133 call `httpProtocol.createProcessor()`, which modules/http-protocol.js:24 does not export (it exports `create`). As written, that call throws a TypeError; the record is built with `create`, and the row under "Findings" records the difference.
- `HttpServer.Client.constructor`: the input and output buffers at modules/http.js:128,131 are created by `new Binary()`; the empty buffer stands for `new Binary()`, which the code calls with no argument. As written, that call fails the argument check, or, with the check compiled out, holds the 9 bytes of "undefined" (`BinaryBuffer.NoArgumentBinary`). The model uses the evidently intended empty buffer; see "Findings".
- `HttpServer.ResponseWriter.Write`: the body buffer created at modules/http.js:227 starts empty; the empty buffer stands for `new Binary()`, which the code calls with no argument. As written, that call fails the argument check, or, with the check compiled out, holds the 9 bytes of "undefined" (`BinaryBuffer.NoArgumentBinary`). The model uses the evidently intended empty buffer; see "Findings".
- `HttpServer.ResponseWriter.End`: the body buffer created at modules/http.js:211 starts empty; the empty buffer stands for `new Binary()`, which the code calls with no argument. As written, that call fails the argument check, or, with the check compiled out, holds the 9 bytes of "undefined" (`BinaryBuffer.NoArgumentBinary`). The model uses the evidently intended empty buffer; see "Findings".
- `HttpProtocol.EndOfHeaders`: the body buffer created at modules/http-protocol.js:64 starts empty; the empty buffer stands for `new Binary()`, which the code calls with no argument. As written, that call fails the argument check, or, with the check compiled out, holds the 9 bytes of "undefined" (`BinaryBuffer.NoArgumentBinary`). The model uses the evidently intended empty buffer; see "Findings".
- `HttpProtocol.Processor.EndHeadersTurn`: it equals `EndOfHeaders`, so its body starts empty; the empty buffer stands for `new Binary()`, which the code calls with no argument. As written, that call fails the argument check, or, with the check compiled out, holds the 9 bytes of "undefined" (`BinaryBuffer.NoArgumentBinary`). The model uses the evidently intended empty buffer; see "Findings".
- `HttpProtocol.Processor.HeaderTurn`: on the blank line its body starts empty; the empty buffer stands for `new Binary()`, which the code calls with no argument. As written, that call fails the argument check, or, with the check compiled out, holds the 9 bytes of "undefined" (`BinaryBuffer.NoArgumentBinary`). The model uses the evidently intended empty buffer; see "Findings".
- `HttpProtocolProperties.BlankLineWithLength`: the body it promises empty is the one modules/http-protocol.js:64 creates; the empty buffer stands for `new Binary()`, which the code calls with no argument. As written, that call fails the argument check, or, with the check compiled out, holds the 9 bytes of "undefined" (`BinaryBuffer.NoArgumentBinary`). The model uses the evidently intended empty buffer; see "Findings".
- `HttpServer.Server.AcceptConnection`: files the record built with `create`, where the code as written throws (`HttpServer.AcceptWith`, `HttpServer.AcceptAsWrittenThrows`).
- `HttpServer.Client.OnNewData`: at modules/http.js:165-167 a finished request is handed straight to `_onNewHttpRequest` with the parser's `pick()`, and the handler appends the response to `bufOut`. That dispatch is not modelled: the member returns whether the request is complete.
- `HttpServer.Server.CanRead`: the same dispatch is not modelled, so a read never appends a response to the output buffer.

Byte buffer (binary.cpp):
- `BinaryBuffer.Binary.AppendInt`, `BinaryBuffer.Binary.AppendUInt`: they model the evident intent, with native byte order taken as little-endian. As written, `BinaryAppend` (binary.cpp:16-22) stores the value past the end and then calls `resize`, which fills the new bytes with zeros. That code is `BinaryBuffer.AppendAsWritten`; see "Findings".
- `BinaryBuffer.Binary.AppendFloat4`, `BinaryBuffer.Binary.AppendFloat8`: the intended bytes are the float's bit pattern, given as a parameter. As written they are zeros (`BinaryBuffer.AppendAsWritten`). The contract states only what both share: the length and the earlier bytes.
- `BinaryBuffer.Binary.Of`: it has no counterpart in the code. It stands for the copies that `dupl` and `concatenate` make, and, with no bytes, for the empty buffer that `new Binary()` is meant to create (see "Findings").
- `BinaryBuffer.Binary.constructor`: it models the one-argument call. The no-argument call is `BinaryBuffer.NewBinaryAsWritten`.
- `toFile` writes a file and is not modelled.
- `BinaryBuffer.Binary.ToString`: each byte before the first NUL is one character. The engine reads the bytes as UTF-8, and that decoding is not modelled.
- `BinaryBuffer.CStringText`: each byte is one character; UTF-8 decoding is not modelled, as for `Binary.ToString`.
- `BinaryBuffer.BytesToStringAppend`: it states the `std::string(begin, end)` step, which keeps every byte. What JavaScript receives is `CStringText`, which loses the bytes after a NUL and obeys only `CStringTextAppend`.
- `BinaryBuffer.BytesToStringInjective`: it states the same `std::string` step. Two buffers that differ only after a NUL give JavaScript the same text (`CStringTextStopsAtNul`).

Molecules (molecule.h, molecule.cpp, molecule-xyz.cpp):
- The distance test `isBond` works on floating-point positions. It is a parameter (`Molecules.BondTest`), and positions are opaque values.
- `appendAsAminoAcidChain` is floating-point geometry and is not modelled.
- `findAaNterm` and `findAaCterm` are distance heuristics and are not modelled. `Molecules.Molecule.FindAaLast` takes the nitrogen that `findAaCterm` would name as the parameter `atomN`.
- `Molecules.Molecule.FindAaLast`: the reverse iterator in the code steps toward `rbegin`. The result is therefore the atoms from the last occurrence of `atomN` to the end of the list, in list order, and the model follows the code.
- The second `readXyzFile` in molecule.cpp duplicates the one in molecule-xyz.cpp and is not modelled. Neither are the coordinate transforms applied when adding molecules.
- `JsObjects.Keys`: it lists keys in insertion order, and `HttpServer` lists the integer socket keys of `Server._clients_` in ascending order; both are the order ECMAScript 2015 gives `Object.keys`. The program runs its JavaScript on MuJS (main.cpp:9, js-binding.cpp:12), an ECMAScript 5 engine, and ECMAScript 5 (sections 12.6.4 and 15.2.3.14) leaves that order to the engine. MuJS is not part of this model. The order these members state holds only for an engine that keeps it, and with another order they hold up to a permutation of the entries: `HttpServer.Server.InterestSets`, `HttpServer.Server.PendingAmongAscending`, `HttpServer.ResponseWriter.WriteHead` (the order of the copied fields), `CalcErkale.ParamsToErkaleParams`, `CalcErkale.TranslateOrder`, `CalcErkale.TranslateFails` (which unknown key is named), `CalcErkale.DefaultParams`, `CalcErkale.EntryLines`, `CalcErkale.FormRunfile` and `AminoAcids.AnglesObjectGet`.
- `Molecules.EltName`: it prints the evidently intended name for every enumerator. The code as written indexes its 18-name table past the end for K up to Kr; `Molecules.EltNameAsWritten` models that, and "Findings" has the row.
- `Molecules.AtomLines`, `Molecules.AtomText`, `Molecules.MoleculeText`, `Molecules.Molecule.ToString`: they print through the corrected `EltName`, so an atom of K up to Kr gets its name. The code as written has no defined output for such an atom.
- `Molecules.ElementFromString`: the reader knows only the table's 18 names, as the code does, so "K" is the "Not an element name" error. The read-back lemmas of `MoleculeXyz` therefore require elements of the table (`Named`).
- `Molecules.AtomText`: `prnCoord` writes `%.05lf` into `char buf[10]`, which overflows when the text has more than 9 characters, as for a coordinate of 1000 or more or of -100 or less. The conversion is the parameter `fmt`, and the model does not capture the overflow.
- `MoleculeXyz.ReadXyzFile`: coordinates are read by `operator>>(double&)`; its `num_get` conversion of the text after the skipped white space (which characters form a number and its value) is the parameter `num`, not modelled.
- `MoleculeXyz.ReadXyzFile`: a signed count is not modelled.
- `MoleculeXyz.ReadXyzFile` requires at least two lines. For a shorter file the code reaches `m->detectBonds()` (molecule-xyz.cpp:69) before any molecule exists, which dereferences a null pointer. That case has no defined result to model.

Utilities and temp files (util.h, util.cpp, common.h, temp-file.cpp):
- `createContainerFromBufferOfDifferentType` reinterprets memory and is not modelled.
- `OnExit` and `realEof` are not modelled.
- `DoubleMap::get12` and `get21` are the lookups that `Util.Lookup` states. They have no members of their own.
- Deleting the temp file in the `TempFile` destructor is file I/O and is not modelled.
- The `content` argument of the `TempFile` constructor is ignored by the code, and the model ignores it too.
- The process id in a temp-file name is a parameter.

Calculation engines (calc-engine-erkale.cpp, modules/calc-erkale.js, modules/calc-nwchem.js):
- Running the engine processes, and reading and writing their files, are not modelled. The program output and the file contents are parameters.
- `CalcUtils.createRunDir` lives in modules/calc-utils.js, which is not part of this model. The run directory is a parameter.
- `CalcUtils.argParams` and `CalcUtils.isValidParam` are called at modules/calc-nwchem.js:159,164,169 and modules/calc-erkale.js:24, but no file of the repository defines them; modules/calc-utils.js exports only `createRunDir`. As written, each of those calls throws a TypeError. The model takes their results as parameters.
- `CalcNWChem.CalcEnergy`: as written, `CalcUtils.argParams(params)` throws a TypeError before the run. The model assumes it yields the precision, the parameter `precision`.
- `CalcNWChem.CalcOptimized`: as written, it throws at the same `argParams` call; the model assumes the parameter `precision`.
- `CalcNWChem.CalcOptimizedWithSteps`: as written, it throws at the same `argParams` call; the model assumes the parameter `precision`.
- `CalcErkale.TranslateFails`: as written, any key other than `precision` and `basis` reaches `CalcUtils.isValidParam`, which throws a TypeError. The model assumes a test given as the parameter `isValid`.
- `CalcErkale.ParamsToErkaleParams`: as written, it throws at `isValidParam` for any key other than `precision` and `basis`. The model uses the parameter `isValid`.
- `ErkaleEngine.EnergyField`, `CalcErkale.ExtractEnergyFromOutput`: the energy is returned as the text token. Its conversion to a floating-point number (`stod`, `Number`) is not modelled.
- `ErkaleEngine.Erkale.CalcOptimized`: reading the result molecule back with `readXyzFile` is not modelled; the result names the file to read.
- `CalcErkale.CalcOptimized`: `calcOptimizedWithSteps` makes the same run as `calcOptimized`. It differs only in reading every molecule of the result file, which is file I/O, so it has no member of its own.
- `CalcNWChem.FormInp`: the element list `m.allElements()` is a parameter. It is not defined in any file of the repository.
- `CalcNWChem.ParseCoordsSection` and the section parsers: the atom count of the original molecule is the parameter `natoms`.
- Precision and the CPU count are parameters.
- NWChem coordinate rows are kept as their six words. Building `Atom` objects from them and detecting bonds is floating-point work and is not modelled.
- Reading past the end of the output lines makes JavaScript throw a TypeError. This is modelled as the error `PastEnd`.
- With `reprocess` set, the output is read from `runDir + "/outp"` by a parameter instead of running NWChem.

Structure database (structure-db.cpp):
- `StructureDb.Db.Add`, `StructureDb.Db.Find`: the database keeps the code's size-only key order (`StructureDb.MoleculeLess`), so molecules with the same atom count share an entry. The corrected order `StructureDb.SignatureLess` is stated and proved a strict total order, but the database does not use it; see "Findings".

Traversal, amino acids, file server, interpolation:
- `MoleculeFunctions.TraverseForward`, `MoleculeFunctions.FindLevelsFrom` require that every bond points to an atom of the molecule (`Closed`). The code assumes this without checking.
- `MoleculeFunctions.TraverseForward`: the callback `fn` is modelled as the sequence of its calls.
- `printBondLengths`, `reportGeometryDetails` and the molecule `interpolate` helper in modules/molecule-functions.js are floating-point reports and are not modelled.
- The code-to-name table of amino acids comes from an external package and is a parameter.
- Reading amino-acid files and `appendAminoAcid` are file I/O and geometry, and are not modelled. `AminoAcids.Combine` returns the chain as the list of files it would read, each with its angles.
- The HTTP server itself and the request log of the file server are not modelled. `readFile` is a parameter.
- `Interpolate.Linear3D`, `Interpolate.Linear3DOneSegment`: split counts are natural numbers. A fractional count, which JavaScript would accept, is not modelled.
- The vector arithmetic `Vec3.plus`, `Vec3.minus` and `Vec3.muln` is a parameter.

## Findings

| source | as written | input that shows it | evidently intended | confidence | as-written member | corrected member |
|---|---|---|---|---|---|---|
| modules/http.js:130-133 | `_acceptConnection_` calls `httpProtocol.createProcessor()`, which the parser module does not export, so the call throws a TypeError | any accepted connection | the parser is built with `create`, the name modules/http-protocol.js:24 exports | not executed | HttpServer.AcceptAsWrittenThrows | HttpServer.Server.AcceptConnection |
| modules/http-protocol.js:59-88 | `parseInt` accepts a negative Content-Length or yields NaN, and the body step then takes `min(available, need)`, a negative count that moves the caller's head backwards | a header block ending with `Content-Length: -3` and more bytes after it | a negative or non-numeric length is rejected as an error | not executed | HttpProtocolProperties.NegativeLengthMovesHeadBack | HttpProtocolProperties.NegativeLengthRejected |
| binary.cpp:16-22 | `BinaryAppend` stores the value at `&b[sz]`, past the vector's size, and then calls `resize`, which fills the new bytes with zeros over it | `appendInt(1)` on an empty buffer gives [0,0,0,0] | the value's bytes are appended, [1,0,0,0] on a little-endian machine | not executed | BinaryBuffer.AppendIntAsWrittenLosesValue | BinaryBuffer.Binary.AppendInt |
| binary.cpp:38-46 | the constructor asserts exactly one argument (js-support.h:67), but modules/http-protocol.js:64 and modules/http.js:128,131,211,227 call `new Binary()` with none; with the assert compiled out, the missing argument becomes the text "undefined" | `new Binary()` | an empty buffer | not executed | BinaryBuffer.NoArgumentBinary | BinaryBuffer.EmptyArgumentBinary |
| molecule.cpp:32-35 | `operator<<(Element)` prints `eltNames[e-1]`, but the table (molecule.cpp:15-19) has 18 names while the enumeration (molecule.h:19-56) goes up to Kr = 36, so the index lies past the table | printing an atom of potassium (element 19) | a name for every enumerator, "K" for potassium | not executed | Molecules.PotassiumPastTable | Molecules.EltNameInjective |
| structure-db.cpp:61-67 | `MoleculeSignature::operator<` compares only the sizes, so the map takes any two molecules with the same atom count for one key | the signatures of a hydrogen atom and of a carbon atom | sizes first, then the atom signatures in order, so that only equal signatures share a key | not executed | StructureDb.DifferentMoleculesShareKey | StructureDb.SignatureSameKey |
