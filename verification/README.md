# goadstc: a verified model

goadstc is a Go client for Beckhoff's TwinCAT ADS/AMS protocol. It multiplexes concurrent requests over
one TCP connection, frames and parses nested binary formats, discovers PLC data types recursively,
encodes and parses structs by those types, updates struct fields in place, addresses array elements, and
keeps subscriptions alive across reconnects. This project models those parts in Dafny 4.11 and proves what
they keep, what they return and what they recover. `dafny verify dfyconfig.toml` checks the whole project.

| files | what they model |
|---|---|
| `Transport`, `TransportSafety`, `TransportOwners`, `TransportClose`, `TransportProgress`, `TransportConn` | the request multiplexer of one connection: every interleaving of senders, read loop, dispatch loop, timeouts and Close calls as a transition system; who owns its shutdown; what each call comes to; the shared object, whose critical sections are methods that make exactly those steps |
| `TransportPanics`, `TransportReach`, `TransportCauses`, `TransportDelivery`, `TransportTwice` | runs of the multiplexer that panic, and for each cause of a panic the exact condition on a reachable state under which it can still come |
| `EncodingOrders`, `StructCodec`, `StructParser`, `StructRoundTrip`, `Values`, `Scalars`, `Windows` | encoding values and nested maps by type, in every iteration order of every map, parsing them back, and copying named pieces into a buffer |
| `SymbolPath`, `ArrayTypes`, `Addressing`, `AutoParser`, `FieldUpdates`, `SymbolAccess`, `ValueAccess` | symbol paths, array elements and their fields in PLC memory, whole arrays, and the read-modify-write of struct fields |
| `Discovery`, `TypeUpload`, `FieldTypes`, `Registry`, `Types` | data type entries, the recursive fetch, any of whose requests may be lost, and the registry that caches its results |
| `Ams`, `Notification`, `SymbolParser`, `SymbolTable` | packet framing, notification payloads, the symbol upload and its index |
| `Reconnect`, `Subscriptions`, `Deliveries` | the reconnect guard, backoff, retries, and the life of a subscription |
| `WString`, `Text`, `Bytes`, `Outcomes` | UTF-16LE windows, string operations, bytes and buffers, Go's three ways to end a call |

A Go panic is an outcome (`Panic`) or, in the multiplexer, the end of a run. `uint32`, `int64` and `uint16`
wrap-around, truncating conversions and Go's slice bounds are written out. A Go map iterated by the code is
iterated in an arbitrary order.

Where the code does not do what it is meant to do, the model keeps the code and states exactly when it does:

* ReadPacket slices the AMS header out of a payload whose length it has not checked, and adds 32 to a data
  length in 32 bits: it panics exactly on the frames of `Ams.ReadPanicsExactly`, the shortest being six zero
  bytes (`Ams.ZeroFramePanics`). The read loop does not recover, so such a frame ends the program whenever the
  loop is reading or can come to (`TransportDelivery.FramePanicsExactly`, `TransportPanics.FirstFrame`). Before
  some Close call gets past the state check there is no other panic (`TransportPanics.NoPanicBeforeClose`).
* Close is meant to close `responses` once. It does in every run in which at most one Close call gets past
  the state check (`TransportClose.OneOwnerClosesOnce`), so for a single call always, a read error included
  (`TransportClose.OneCallClosesOnce`). Two calls get past it only when one of them loads the state as
  Errored and overwrites it (`TransportClose.SecondOwnerForces`), and from then on, and only then, the calls
  already past the check can close `responses` twice and panic (`TransportClose.ClosesTwiceExactly`). A read
  error and two ordinary calls lead there (`TransportPanics.ReadErrorClosesTwice`), and so does a call whose
  drain times out (`TransportPanics.DoubleClosePanics`). `TransportTwice.TwicePanicsExactly` says from which
  states some continuation by any party does.
* A Close can also make another party panic. A SendRequest can still assign to the cleared pending map exactly
  when the state is Connected or some request passed its check and has not registered
  (`TransportCauses.RegisterPanicsExactly`). The read loop can still send on the closed `responses` exactly
  when it holds something to send, is reading or reporting an error, or can come to that while the state is
  Connected (`TransportCauses.ReadPanicsExactly`). The dispatcher can still send on a closed channel exactly
  when the response it holds is for a channel that is closed or still pending, or one can still come to be
  looked up under an ID that is pending or can come to be (`TransportDelivery.DeliverPanicsExactly`).
  No channel of the pending map is ever closed twice (`TransportClose.PendingClosedOnce`).
* A connection replaced between two attempts of one call hands out its IDs from 1 again, so a retry can repeat
  the ID of an earlier attempt (`Reconnect.RetryRepeatsID`); short of 2^32 allocations only then
  (`Reconnect.SameIDs`). The connection pointer is read three times per attempt without a lock: if it turns nil
  after its check the call crashes (`Reconnect.Client.SendRequestWithRetry`), and if it is replaced after the ID
  was taken, the packet goes out on a connection that did not hand out its ID (`Reconnect.EachItsOwnID`).
* An array index is not checked: one outside the array, or a negative one, resolves to memory beside it, in
  arithmetic modulo 2^32 (`Addressing.AnyElementLocation`). An array of 2^32 elements counts as empty
  (`AutoParser.TotalIsProduct`).
* A Go int written to an array element by WriteSymbolValue is encoded at the size of the whole array, so it is
  written exactly when the array has one element, of 2, 4 or 8 bytes (`ValueAccess.IntToElement`). Both
  ReadSymbolValue and WriteSymbolValue look a path a[i].f up as a symbol named a.f
  (`ValueAccess.FieldPathsRefused`), and a text symbol is read as a struct (`ValueAccess.TextReadsAsStruct`).
* A zero data length keeps the data of a packet unmarshalled into before; `Ams.UnmarshalMarshal` is the exact
  condition.
* The error of a nested type request is swallowed. The type fetched is the one its name stands for if and
  only if every nested request lost, at any depth, was for a type unknown to the PLC or one whose entry says
  no more than the placeholder (`Discovery.FetchedExactly`). A stunted type is cached for good
  (`Registry.StuntedTypeIsCached`); `Registry.CacheHoldsExactly` is the exact condition on the cache.
* A struct written from a map gives one result in every iteration order of its maps if and only if every byte
  is settled: the pieces that cover it agree there and are settled themselves
  (`EncodingOrders.OrderIndependence`; `FieldUpdates.UpdateOrderIndependence` for the update of fields).
* The symbol parser panics, instead of returning an error, exactly on an entry that ends the upload where the
  terminator of one of its names should stand, and on a type name that contains ARRAY with a closing
  bracket before the first opening one (`SymbolParser.EntryPanicsExactly`, `SymbolParser.TablePanicsExactly`).
* When the very first connect fails, the loop that New starts runs with an attempt count of 0. At most one
  loop is ever live if and only if no trigger comes during that loop's first wait
  (`Reconnect.OneLoopAfterFirstFailure`).
* The backoff is the capped power of two for every number of failures if and only if the limit is below
  2^62 ns; above, the doubling overflows and the delay turns negative (`Reconnect.BackoffExact`).
* Closing a subscription can remove another one's registry entry if and only if the PLC answered a Subscribe
  with the handle of a subscription still open (`Subscriptions.CloseTakesAnothersExactly`).
* The empty WSTRING reads back as a window full of U+0000 (`WString.EmptyTextReadsAsNuls`), and writing to a
  window of fewer than two bytes panics (`WString.WriteWString`). `WString.RoundTrip` is the exact condition.

## Model

| member | source | states |
|---|---|---|
| TransportSafety.ResponsesMatch | internal/transport/conn.go:208-340 | in every interleaving a returned packet was read off the wire, carries the request's own invoke ID and is no notification (command 0x0008), and no packet is returned to two requests |
| TransportSafety.ResultsStay | internal/transport/conn.go:208-262 | once a request's result is decided no later step changes it: a request gets at most one packet |
| TransportProgress.ResultExactly | internal/transport/conn.go:208-262 | over every run, a SendRequest that is done returned packet i if and only if it looked at its channel while that held i, and failed if and only if its state check failed, its write failed, it gave up, or it found its channel closed and empty |
| TransportProgress.TakenIsReturned | internal/transport/conn.go:246-254 | a packet taken from the channel is the result, whatever follows |
| TransportProgress.AnswerIsReturned | internal/transport/conn.go:246-340 | from every reachable Connected state in which the read loop reads, the dispatcher is idle and request r waits inside the ID window, the first packet with r's ID that is no notification is what r returns, by steps of the read loop, the dispatcher and r alone |
| TransportProgress.FirstAnswerWins | internal/transport/conn.go:332-338 | a packet in a request's channel is replaced by no later one, and is the result once taken |
| TransportProgress.CallCanEnd | internal/transport/conn.go:208-262 | from every sound state with the pending map, a SendRequest reaches its end by at most five steps of its own |
| TransportProgress.NotificationsAreHanded | internal/transport/conn.go:315-325 | over every run the handler is given exactly the packets with command 0x0008 that the dispatcher took, in the order they were read, each once |
| TransportProgress.QueueHoldsSixteen | internal/transport/conn.go:300-303 | over every run the queue holds at most 16 items, and holds up the read loop exactly when 16 are queued and it is not closed |
| TransportProgress.ReaderWindsDown | internal/transport/conn.go:264-305 | once the state left Connected every step of the read loop brings it nearer its end, and no other party moves it |
| TransportProgress.StoppedIsClosed | internal/transport/conn.go:307-313 | over every run, a dispatcher that stopped leaves a connection that some Close call was made for |
| TransportSafety.StepKeepsInv | internal/transport/conn.go:131-340 | every step of every party keeps the invariant: IDs, queue order, packet in hand, who holds which packet, no packet held twice |
| TransportSafety.RunKeepsInv | internal/transport/conn.go:131-340 | the invariant holds in every reachable state |
| TransportSafety.PendingIsExact | internal/transport/conn.go:197-228 | while outstanding requests are among the last 2^32 invoke IDs, their IDs are pairwise distinct and, until Close clears it, the pending map is exactly the requests between registration and deferred delete |
| TransportSafety.LateResponse | internal/transport/conn.go:327-338 | an answer to request q is looked up for q exactly while q is among the last 2^32 requests, so a late one never reaches a later request |
| TransportSafety.NeverBackUp | internal/transport/conn.go:208-215 | once the state left Connected it never returns, and every SendRequest that had not passed the check fails without being registered |
| TransportSafety.DispatcherNeverStuck | internal/transport/conn.go:307-340 | the bounds the model's dispatcher steps ask for always hold |
| TransportClose.OneOwnerClosesOnce | internal/transport/conn.go:131-189 | over every run, setError included, in which at most one Close call gets past the state check: the responses channel is closed at most once, no Close panics, and once all calls have returned it is closed exactly once and the connection is Closed, unless setError ran after the owner's last step |
| TransportClose.OneCallClosesOnce | internal/transport/conn.go:131-174 | so for a single call, also the dispatcher's own after a read error |
| TransportClose.PendingClosedOnce | internal/transport/conn.go:145-153 | no run closes a pending channel twice, however many calls race |
| TransportClose.ClosesTwiceExactly | internal/transport/conn.go:131-174 | from every reachable state without a panic, the calls past the state check can close the responses channel twice if and only if there are two of them |
| TransportClose.SecondOwnerForces | internal/transport/conn.go:133-139 | over every run, a call gets past the state check after another one only by the unconditional store, which follows only a load that found Errored |
| TransportClose.CloseOnce | internal/transport/conn.go:126-178 | without setError, any number of racing Close calls close the responses channel at most once, never panic, and once all have returned the connection is Closed, with the channel closed exactly once and nothing pending |
| TransportOwners.StepKeepsOwn | internal/transport/conn.go:131-340 | the invariant behind them, kept by every step of every party: before there is an owner nothing is closed and nothing has panicked, afterwards the state is not Connected, and the responses channel was closed only by an owner past that point |
| TransportOwners.StepOwners | internal/transport/conn.go:131-174 | an owner stays one, and each step makes at most its own call an owner, in one of two ways |
| TransportPanics.NoPanicBeforeClose | internal/transport/conn.go:131-340 | in every run in which no Close call has got past the state check no channel is closed and nothing has panicked, but the read loop on a malformed frame |
| TransportPanics.FirstFrame | internal/transport/conn.go:264-305 | the run in which the read loop reads what the peer sends first panics exactly when ReadPacket does, with no Close call in it |
| TransportPanics.ZeroFrameCrashes | internal/transport/conn.go:264-305 | a run of three steps that ends in a malformed frame |
| TransportDelivery.FramePanicsExactly | internal/transport/conn.go:264-305 | from every reachable state without a panic, a run can still end in a malformed frame if and only if the read loop is reading or can come to while the state is Connected |
| TransportCauses.RegisterPanicsExactly | internal/transport/conn.go:131-228 | from every such state, a run can still assign to the nil pending map if and only if the state is Connected or some request has passed its check and not registered |
| TransportCauses.ReadPanicsExactly | internal/transport/conn.go:131-305 | from every such state, a run can still send on the closed responses channel if and only if the read loop holds something to send, is reading or reporting an error, or can come to that while the state is Connected |
| TransportDelivery.DeliverPanicsExactly | internal/transport/conn.go:131-340 | from every such state, a run can still send on a closed response channel if and only if the dispatcher holds a response for a channel closed or still pending, or a response can still come to be looked up under an ID that is pending or can come to be |
| TransportTwice.TwicePanicsExactly | internal/transport/conn.go:131-305 | from every such state, a run can still close the responses channel twice if and only if two calls are past the state check, one is about to overwrite the state, the state is Connected or Errored, or setError can still run |
| TransportReach.StepKeepsLive | internal/transport/conn.go:131-340 | the invariant behind these, kept by every step: also, the loops stop only after the state left Connected, and a channel under delivery was registered |
| TransportPanics.DoubleClosePanics | internal/transport/conn.go:131-174 | a run with a timed-out drain in which the responses channel is closed twice |
| TransportPanics.ReadErrorClosesTwice | internal/transport/conn.go:131-174 | a run with a read error, two ordinary Close calls and no timeout in which it is closed twice |
| TransportPanics.RegisterPanics | internal/transport/conn.go:208-222 | a run without setError in which a SendRequest assigns to the cleared pending map |
| TransportPanics.DeliverPanics | internal/transport/conn.go:327-338 | a run without setError in which the dispatcher sends on a closed channel |
| TransportPanics.ReadPanics | internal/transport/conn.go:291-303 | a run without setError in which the read loop sends on the closed responses channel |
| TransportConn.Conn.NewRequest | internal/transport/conn.go:197-199 | the new ID and channel are those of the model's step |
| TransportConn.Conn.CompareAndSwapState | internal/transport/conn.go:176-178 | swaps any pair of states exactly when the current one is the old one; the swap Close starts with makes the model's step |
| TransportConn.Conn.SetError | internal/transport/conn.go:184-189 | makes the model's step for every caller of setError: a SendRequest, the read loop in three places, a Close that timed out |
| TransportConn.Conn.RegisterPending | internal/transport/conn.go:217-222 | makes the model's step; panics exactly when Close has cleared the map |
| TransportConn.Conn.UnregisterPending | internal/transport/conn.go:224-228 | the deferred delete makes the model's step, by invoke ID |
| TransportConn.Conn.LookupPending | internal/transport/conn.go:327-330 | finds the channel of the request the model's step finds |
| TransportConn.Conn.Offer | internal/transport/conn.go:332-338 | the non-blocking send makes the model's step: kept, dropped, or a panic on a closed channel |
| TransportConn.Conn.DrainPending | internal/transport/conn.go:145-153 | closing every pending channel in any map order and clearing the map is one step of the model |
| StructCodec.EncodeSymbolValue | client_auto.go:435-583 | returns what one iteration order of the maps in the value gives: bytes, an error or a panic; success and length do not depend on the order, nor do the bytes when every one is settled |
| EncodingOrders.OrderIndependence | client_auto.go:586-631 | at every depth: all iteration orders of all maps give the same bytes if and only if every byte is settled, and then they are the specified ones |
| EncodingOrders.FailsExactly | client_auto.go:435-631 | some order ends in an error, or in a panic, exactly when some entry may; every order succeeds exactly when none may |
| EncodingOrders.SameOutcomeExactly | client_auto.go:435-631 | all orders end the same way if and only if either encoding succeeds and every byte is settled, or it cannot both err and panic |
| EncodingOrders.SettledByte | client_auto.go:603-628 | a settled byte has the specified value in every order |
| EncodingOrders.UnsettledByte | client_auto.go:603-628 | a byte that is not settled has different values in two orders |
| EncodingOrders.UncoveredIsZero | client_auto.go:600-628 | in every order, a byte that no entry's field covers is zero |
| StructCodec.EncodeNestedStruct | client_auto.go:586-631 | the loop over a map, with lookup, search, recursive encoding and copy, returns what the order it iterated in gives; the mutual recursion terminates |
| StructParser.ParseFieldValue | client_structs.go:410-432 | parses as the specification does, recursively |
| StructParser.ParseNestedStruct | client_structs.go:435-449 | the same for a nested struct |
| StructParser.ParseAllFields | client_auto.go:195-203 | the loop over fields collects every field inside the data |
| StructParser.ParseFieldsKeys | client_structs.go:391-399 | a name is a key of the result exactly when some field of that name lies inside the data |
| StructParser.ParseFieldsAt | client_structs.go:435-449 | each field inside the data that is the last one inside it of its name is parsed from its own window |
| StructParser.HexDigits | client_structs.go:428-431 | bytes of an unknown type are shown in hexadecimal, two digits a byte |
| StructParser.Unparsed | client_structs.go:410-439 | what an empty field, an array, a struct without fields and an unknown type are shown as |
| StructRoundTrip.RoundTrip | client_auto.go:586-631 | a value that fits its type, at any nesting depth, encodes to exactly the type's size in every iteration order and parses back as itself |
| StructRoundTrip.FetchedAgrees | client_structs.go:136-157 | the types embedded in a type fetched without losses agree at every depth with what their names look up to, as RoundTrip asks |
| Values.ScalarRoundTrip | client_auto.go:435-564 | a scalar that fits its type encodes to exactly the type's size and parses back as itself |
| Scalars.IntEncoding | client_auto.go:486-501 | a Go int is written at size 2, 4 or 8, and read back by the signed or unsigned type of that size if and only if it is in its range; any other size is an error |
| Scalars.FloatEncoding | client_auto.go:508-544 | a whole float64 is written as an integer unless the type is named REAL or LREAL and survives likewise; any other as a float32 into four bytes, as a float64 otherwise |
| Scalars.RawEncoding | client_auto.go:570-574 | raw bytes are cut or padded to the symbol's size |
| Scalars.TextEncoding | client_auto.go:546-554 | a text is cut to leave room for a NUL, padded, and reads back cut; size 0 panics |
| Scalars.NilEncoding | client_auto.go:437-439 | nil is written as zeros, which read as the zero of the type |
| Scalars.DateEncoding | client_auto.go:563-568 | a time written to a DATE, DATE_AND_TIME or DT comes back if and only if its seconds fit 32 unsigned bits |
| Scalars.DurationIsCut | client_auto.go:556-561 | a duration that fits reads back from a TIME cut to whole milliseconds, towards zero |
| Scalars.TimeOfDayEncoding | client_auto.go:556-561 | a duration written to a TIME_OF_DAY or TOD comes back if and only if it is a whole number of milliseconds that fits 32 unsigned bits |
| Scalars.ScalarFails | client_auto.go:435-583 | only an integer for an unusual size and an unsupported type are errors, and only a text for size 0 panics |
| Scalars.NumberPatterns | client_structs.go:452-546 | every pattern of a number's width reads as a number whose encoding is that pattern; fewer bytes do not read |
| Scalars.TextPatterns | client_structs.go:548-555 | a text is what comes before the first NUL, or all of it |
| Scalars.BoolPatterns | client_structs.go:475-481 | a BOOL is true unless its byte is zero |
| Scalars.OtherPatterns | client_structs.go:452-472 | no other data type is parsed as a single value |
| Scalars.SignedNames | client_auto.go:209-265 | which names stand for the signed integer types |
| Scalars.UnsignedNames | client_auto.go:209-265 | which names stand for the unsigned integer types of one and two bytes |
| Scalars.WideUnsignedNames | client_auto.go:209-265 | which names stand for those of four and eight bytes |
| Scalars.FloatNames | client_auto.go:267-279 | which names stand for the two float types |
| Scalars.BoolName | client_auto.go:213-217 | which name stands for BOOL |
| Scalars.TextName | client_auto.go:281-287 | which name stands for texts |
| Scalars.SimpleNames | client_auto.go:376-394 | exactly the names whose elements are parsed as single values |
| Scalars.IntByName | client_auto.go:209-314 | a Go int comes back by any of its type's names if and only if it is in the type's range |
| Values.StringRoundTrip | client_auto.go:552-560 | a NUL-free string shorter than its window parses back |
| Windows.CopyByte | client_auto.go:603-628 | in every order, each byte of the result is one a covering piece holds, and the old one exactly where no piece covers it |
| Windows.PaintedByte | client_auto.go:603-628 | where the covering pieces agree, every order leaves the painted byte |
| Windows.PaintedBytes | client_auto.go:603-628 | each piece that fits can be read back whole, and bytes no piece covers are unchanged |
| FieldUpdates.UpdateFields | client_auto.go:684-716 | the loop over the named fields leaves what the order it iterated in gives; it succeeds, in any order, exactly when every named field exists, encodes and lies inside the struct |
| FieldUpdates.UpdateOrderIndependence | client_auto.go:684-716 | all orders leave the same bytes if and only if every byte is settled, and then they are the specified ones |
| FieldUpdates.UpdateFailsExactly | client_auto.go:684-716 | some order ends in an error, or in a panic such as a bound that wraps past the check, exactly when some entry may |
| FieldUpdates.UpdateSameOutcomeExactly | client_auto.go:684-716 | all orders end the same way if and only if either the update succeeds and every byte is settled, or it cannot both err and panic |
| FieldUpdates.DisjointFieldsAnyOrder | client_auto.go:684-716 | the order does not matter when the named windows are disjoint and each value encodes the same in every order |
| FieldUpdates.UpdateKeepsRest | client_auto.go:684-716 | in every order, bytes outside the named windows keep their old value |
| FieldUpdates.UpdatedFieldParses | client_auto.go:684-716 | in every order, a named field whose value fits it and that no other named field reaches into parses back, from the updated struct, as the value written |
| SymbolAccess.Client.WriteStructFields | client_auto.go:647-725 | which outcome each failure ends in; sends no write and changes no memory unless every check passes and the struct is read; otherwise sends exactly one write to the struct's own window, of the struct updated in some iteration order |
| SymbolAccess.Client.WriteSymbol | client.go:1011-1027 | sends exactly one write when the path resolves and the size matches, otherwise none and fails; written to a plain name, the data is in the symbol's window of memory and no other byte has changed |
| ValueAccess.ReadSymbolValue | client_auto.go:19-51 | reads the resolved window and parses it by the type of the symbol the path starts with; an unknown one is an error without a request |
| ValueAccess.ParseSymbolValue | client_auto.go:79-118 | an element by its element type, a whole array element by element, a struct by its fields, any other by its data type, by its type's name, or as raw bytes |
| ValueAccess.WriteSymbolValue | client_auto.go:400-432 | encodes the value for the symbol the path starts with and writes it to the resolved window if the size is that window's; otherwise fails without a request |
| ValueAccess.IntToElement | client_auto.go:400-501 | a Go int written to an element of an array of n is of the element's size if and only if n is 1 and the size is 2, 4 or 8 |
| ValueAccess.FieldPathsRefused | client_auto.go:19-36 | the symbol that both look up for a path a[i].f is a.f |
| ValueAccess.TextReadsAsStruct | client_auto.go:79-103 | a symbol of data type 30 that is no array is read as a struct |
| ValueAccess.ScalarSymbolRoundTrip | client_auto.go:79-118 | any other scalar symbol reads back the value written to it |
| ValueAccess.ElementReadsAsInArray | client_auto.go:79-170 | an element asked for by its index reads as it does in the whole array, but bytes that do not parse are an error |
| ValueAccess.ScalarReads | client_auto.go:79-118 | a symbol that is no array and no struct reads by its data type, else by its type's name, else as its bytes |
| ValueAccess.StructReads | client_auto.go:100-103 | a struct, or a symbol with STRUCT in its type's name, reads as the struct of that name |
| SymbolAccess.Client.ReadSymbol | client.go:995-1006 | asks for exactly the resolved window and returns its bytes when the request is answered; for a plain name these are the symbol's bytes of memory, and an unknown one is an error |
| SymbolAccess.WriteThenRead | client.go:995-1027 | a write is seen by reading the same window, and changes no other byte of memory |
| SymbolPath.ScanArrayAccess | client.go:802-839 | the loop computes the specified base name and indices, or the error |
| SymbolPath.ParsePrintedPath | client.go:802-839 | parsing base[i1]...[in]rest returns base joined with rest and the list of indices |
| SymbolPath.SplitPrintedPath | client.go:928-936 | for one index and a field, splitting recovers base[i] and the field |
| SymbolPath.PrintedPathHasField | client.go:867-878 | a printed path is taken for an element's field if and only if it has one index followed by a dot |
| SymbolPath.UnclosedIndex | client.go:817-820 | a bracket that is never closed is an error, after any number of indices |
| SymbolPath.BadIndex | client.go:822-827 | so is anything but a number between brackets |
| Text.ScanExactly | client.go:822-827 | a decimal scan skips blanks, takes a sign, stops at the first other byte, and fails on numbers beyond 64 bits |
| Text.ScanNeedsDigit | client.go:822-827 | a scan fails where no digit is |
| ArrayTypes.ElementOfArrayName | client.go:844-851 | the element type of ARRAY [0..n-1] OF T is T |
| ArrayTypes.ParsedArrayType | internal/symbols/parser.go:144-187 | that name is parsed as a one-dimensional array of n elements |
| ArrayTypes.ParsedRanges | internal/symbols/parser.go:144-187 | a name with any number of ranges low..high is parsed as an array with a dimension of high-low+1 for each, modulo 2^32 |
| ArrayTypes.DescribedType | internal/symbols/parser.go:144-161 | a type is described by its name, data type and size, as an array if ARRAY occurs in its name, and as a struct unless it is a number, a BOOL or a BIT |
| ArrayTypes.ElementOfName | client.go:844-851 | the element type of any name is what follows its first OF, trimmed |
| ArrayTypes.NoElementType | client.go:844-851 | a name without OF has no element type, and stands for itself |
| Text.TrimExactly | client.go:844-851 | trimming takes white space off both ends, all of it and nothing else |
| Addressing.ElementLocation | client.go:939-971 | a[i] resolves to the i-th of n equal windows of the symbol, without wrap-around |
| Addressing.FieldLocation | client.go:881-925 | a[i].f resolves to the window of f inside the i-th element |
| Addressing.PlainLocation | client.go:939-957 | a path without brackets lies where the symbol of that name does, whatever its type; an unknown name is an error |
| Addressing.AnyElementLocation | client.go:939-971 | any index, also one outside the array, resolves to that many elements on from the symbol's start, modulo 2^32; an unknown symbol or element type is an error |
| Addressing.AnyFieldLocation | client.go:881-925 | so for a field of any element; an unknown field or a symbol that is no array is an error |
| Addressing.ManyIndices | client.go:958-960 | more than one index is refused |
| Addressing.WindowsTile | client.go:939-971 | every byte of the array belongs to exactly one element, and no element has a byte outside it |
| Addressing.ReadElement | client.go:995-1006 | reading a[i] reads the i-th slice of what reading a does |
| Addressing.ReadElementField | client.go:881-925 | reading a[i].f reads the bytes the struct parser takes for f from the i-th slice |
| Addressing.WriteElement | client.go:1011-1027 | writing a[i] is seen by reading a[i] and leaves every other a[j] unchanged |
| AutoParser.ParseArrayValue | client_auto.go:121-170 | returns as many elements as the dimensions say or as lie wholly inside the data, each parsed from its own slice; no offset wraps |
| AutoParser.TotalIsProduct | client_auto.go:122-126 | the number of elements is the product of the dimensions modulo 2^32 |
| AutoParser.ElementExactly | client_auto.go:147-167 | an element of a simple type is its parsed value, or its bytes when they do not parse |
| AutoParser.WholeArrayByElements | client_auto.go:121-170 | for an array symbol, parsing the whole gives n values, the i-th parsed from the bytes that reading a[i] returns |
| AutoParser.ParseStructWithTypeInfo | client_auto.go:173-206 | parses by the fields of the named type, or returns the raw bytes with their description |
| AutoParser.UnknownStruct | client_auto.go:173-193 | a struct whose fields are not known is its bytes with their description, key by key |
| AutoParser.StructByNameRoundTrip | client_auto.go:173-206 | a fitting struct value, encoded and parsed by its type's name, is the same value |
| AutoParser.TimeRoundTrip | client_auto.go:283-288 | a duration written to a TIME comes back if and only if it is a whole number of milliseconds that fits 32 bits |
| Discovery.FetchTypeInfoFromPLC | client_structs.go:160-272 | terminates on ranked type tables and returns what the recursive specification says for the requests that were answered and those that were lost; the error of a nested one is swallowed |
| Discovery.FetchedExactly | client_structs.go:160-272 | a fetch whose own request is answered returns the type its name stands for if and only if every nested request lost, at any depth, was harmless; one whose own request is lost is an error |
| Discovery.HarmlessExactly | client_structs.go:254-262 | losing the request for a field's type is harmless exactly when the PLC does not know the type or the placeholder says as much |
| Discovery.AllAnswered | client_structs.go:160-272 | with every request answered the fetch returns the type its name stands for |
| Discovery.StuntedParent | client_structs.go:254-262 | losing the request for a nested type that has fields leaves the parent without them, and the fetch succeeds |
| Discovery.FetchLoop | client_structs.go:208-262 | the loop over sub-items appends exactly the specified fields, request by request, stopping where data is cut off |
| FieldTypes.FieldExactlyFetched | client_structs.go:240-286 | a field of data type 16, 17, 2, 18, 3, 19, 20, 21, 4, 5, 33 or 30 is described exactly as its item says, without a request; any other is asked for by its type name |
| FieldTypes.FetchedScalarRoundTrip | client_structs.go:160-287 | a scalar field of a printed type is fetched as a scalar, and a value of its data type and size, encoded for the fetched field, is parsed back by it |
| FieldTypes.CutItems | client_structs.go:208-240 | a list of items that is cut off inside one yields the items before it, and that one exactly when its name and type name are there |
| TypeUpload.ParsePrinted | client_structs.go:178-262 | every field's name, type name, size, offset and data type is recovered from a printed entry |
| TypeUpload.FetchExpands | client_structs.go:160-287 | for any finite acyclic table of well-formed entries whose requests are all answered the fetch returns the fully expanded type tree, and an error for an unknown name |
| Registry.GetOrFetchTypeInfo | client_structs.go:136-157 | returns the cached type or fetches it and caches any success; the registry stays one of true types exactly when the name was cached, the fetch failed, or no nested request that mattered was lost |
| Registry.CacheHoldsExactly | client_structs.go:136-157 | however lookups and stores of different callers interleave, the registry holds only the types its names stand for if and only if, for every name, the fetch behind its last store lost no nested request that mattered |
| Registry.StuntedTypeIsCached | client_structs.go:136-157 | two types and one lost nested request after which the registry holds a type its name does not stand for |
| Registry.CacheTransparent | client_structs.go:136-157 | when no fetch loses a nested request that matters, every hit returns what its name stands for, and a name is held exactly if some fetch of it was answered and succeeds |
| Registry.FetchedFieldsAgree | client_structs.go:240-262 | in a type fetched without losses, a field carries its item's name, offset and type name, and a nested one the very type its name fetches |
| Registry.TypeRegistry.Register | internal/symbols/registry.go:22-26 | adds or replaces one entry |
| Registry.TypeRegistry.Get | internal/symbols/registry.go:29-34 | finds an entry by name |
| Ams.ReadManyOfEncoded | internal/ams/packet.go:100-138 | reading a stream of marshalled packets returns the same list and stops exactly at its end |
| Ams.ReadOneIsExact | internal/ams/packet.go:100-138 | the bytes a read consumes are the marshalled packet if and only if the TCP length is the AMS header and the data |
| Ams.ReadPacket | internal/ams/packet.go:100-138 | consumes the stream as specified, on every input |
| Ams.ReadPanicsExactly | internal/ams/packet.go:100-138 | reading panics if and only if the announced payload is there and is shorter than an AMS header, or its data length overflows 32 bits with the header's |
| Ams.ReadErrsExactly | internal/ams/packet.go:100-138 | reading errs if and only if the stream ends before the announced payload or the data length reaches beyond it; otherwise the packet has the data its header announces |
| Ams.PacketLayout | internal/ams/header.go:29-92 | where each field of a packet stands on the wire |
| Bytes.LittleEndian | internal/ams/header.go:29-92 | integers are read least significant byte first |
| Ams.ZeroFramePanics | internal/ams/packet.go:100-138 | six zero bytes make it panic |
| Ams.UnmarshalMarshal | internal/ams/packet.go:38-98 | for every receiver and whatever follows: unmarshalling a marshalled consistent packet returns it if and only if it has data or the receiver has none, and its size and the buffer's, taken in 32 bits, cover it |
| Ams.MarshalUnmarshal | internal/ams/packet.go:38-98 | for every receiver: marshalling an unmarshalled packet returns the bytes if and only if the data length covers all of them, or it is zero and what follows the header is what the receiver held |
| Ams.Packet.Request | internal/ams/packet.go:16-35 | the packet built, with lengths that describe it if and only if they do not overflow 32 bits |
| Ams.Packet.MarshalBinary | internal/ams/packet.go:38-65 | fills the buffer with the packet's wire form |
| Ams.Packet.UnmarshalBinary | internal/ams/packet.go:68-98 | on every input, errors and the panic on an overflowing length included, leaves the packet with exactly the fields assigned up to there |
| Ams.MarshalHeader | internal/ams/header.go:61-92 | fills the 32 bytes of the header |
| Ams.UnmarshalHeader | internal/ams/header.go:95-128 | reads them back: encoding the result gives the bytes read |
| Ams.MarshalTCP | internal/ams/header.go:29-34 | fills the 6 bytes of the TCP header |
| Ams.UnmarshalTCP | internal/ams/header.go:37-46 | reads them back: encoding the result gives the bytes read |
| Ams.DecodeEncodeHeader | internal/ams/header.go:61-128 | decoding an encoded header returns it |
| Ams.EncodeDecodeHeader | internal/ams/header.go:61-128 | encoding a decoded header returns its 32 bytes |
| Notification.DecodePrint | internal/ads/commands.go:355-413 | decoding any printed list of stamps and samples returns that list and stops where the print ends |
| Notification.PrintDecode | internal/ads/commands.go:355-413 | on any input that decodes, printing the result reproduces exactly the body bytes consumed |
| Notification.DeviceNotificationRequest.UnmarshalBinary | internal/ads/commands.go:355-413 | on every input the nested loops stay in bounds, succeed exactly when every announced item is complete, and leave the stamps read |
| SymbolParser.ParseSymbolTable | internal/symbols/parser.go:69-101 | parses as specified on every input; on success 30 times the symbol count is at most the input length |
| SymbolParser.EntryPanicsExactly | internal/symbols/parser.go:104-187 | an entry panics if and only if it ends the upload where the terminator of one of its names should stand, or its names are there and the type's contains ARRAY with a closing bracket before the first opening one |
| SymbolParser.TablePanicsExactly | internal/symbols/parser.go:69-101 | an upload panics if and only if some entry reached after successfully parsed ones does |
| SymbolParser.ShortUploadPanics | internal/symbols/parser.go:69-126 | every upload of one 30-byte entry with a name of length 0 panics |
| SymbolParser.AShortUpload | internal/symbols/parser.go:69-126 | one such upload |
| SymbolParser.ReversedBracketsPanic | internal/symbols/parser.go:144-170 | a type name on which describing its type panics, whatever the data type and size |
| SymbolParser.TableRoundTrip | internal/symbols/parser.go:69-142 | a printed table of well-formed entries, padded or not, ended by a zero length or a short tail, is recovered exactly |
| SymbolParser.ParsePrintedEntry | internal/symbols/parser.go:104-142 | one printed entry is recovered exactly |
| SymbolParser.EntryErrsExactly | internal/symbols/parser.go:104-142 | an entry is an error if and only if it is too short for its head or its names and does not panic |
| SymbolParser.CutTable | internal/symbols/parser.go:69-101 | a printed table cut off inside an entry is refused, unless fewer than four bytes of that entry are left |
| SymbolTable.Table.Load | internal/symbols/table.go:24-42 | replaces the index by that of the parsed upload; a failing Load changes nothing |
| SymbolTable.Table.Get | internal/symbols/table.go:45-59 | returns the indexed symbol, or an error when not loaded or unknown |
| SymbolTable.Table.List | internal/symbols/table.go:62-76 | lists every indexed symbol, and nothing else, each once |
| SymbolTable.Table.Find | internal/symbols/table.go:86-104 | lists every symbol whose lower-cased name contains the lower-cased pattern, and nothing else, each once |
| SymbolTable.MatchesExactly | internal/symbols/table.go:86-104 | a name matches if and only if the lower-cased pattern stands somewhere in the lower-cased name |
| SymbolTable.IndexedIsLast | internal/symbols/table.go:33-38 | a name is indexed if and only if some parsed symbol has it, and stands for the last such symbol |
| SymbolTable.LoadedPrinted | internal/symbols/table.go:24-59 | after loading a printed upload, a name stands for the last entry printed with it |
| Reconnect.AtMostOneLoop | client.go:363-450 | after a successful first connect, over every interleaving of triggers, loop steps and shutdown, at most one loop is live, the attempt count is at least 1 while it is, and it waits the delay its failures call for |
| Reconnect.TriggerExactly | client.go:363-450 | over every such run until shutdown, a trigger starts a loop if and only if none is live, and the connected flag and the attempt count are those of the loop's phase |
| Reconnect.OneLoopAfterFirstFailure | client.go:196-258 | after a failed first connect, over every run: at most one loop is ever live if and only if no trigger comes while the loop New started is in its first wait |
| Reconnect.FirstFailureAdmitsTwoLoops | client.go:196-258 | the shortest run that makes two loops live |
| Reconnect.BackoffExact | client.go:364-395 | the delay after k failures is min(2^k s, limit) for all k if and only if the limit is below 2^62 ns |
| Reconnect.Client.TriggerReconnection | client.go:414-450 | starts a loop exactly when auto-reconnect is on and none is under way |
| Reconnect.Client.ReconnectLoop | client.go:363-411 | waits the specified delays, stops at success or shutdown, and leaves the attempt count as promised |
| Reconnect.Client.SendRequestWithRetry | client.go:573-623 | sends the specified packets, waits as specified, triggers reconnection exactly when all n+1 sends failed retryably, and crashes exactly when the connection pointer turns nil after its check |
| Reconnect.RetryResult | client.go:573-623 | which of its attempts' endings decides the result, and which result each gives |
| Reconnect.WaitGrows | client.go:608-614 | the k-th retry waits k times 100 ms |
| Reconnect.EachItsOwnID | client.go:573-595 | at most n+1 packets, one for each attempt that goes, each with an ID allocated for it alone, later than the one before on the same connection or by a later one; it goes out on the connection the ID is from unless that was replaced in between |
| Reconnect.SameIDs | client.go:573-595 | two packets of one call bear the same ID if and only if their allocations are a multiple of 2^32 apart in count, so only if a new connection gave the second one or 2^32 were handed out in between |
| Reconnect.RetryRepeatsID | client.go:573-595 | a connection replaced in the first wait, and a retry with the ID of the first attempt |
| Subscriptions.ChannelsBehave | subscription.go:61-128 | over any run a channel is closed at most once, holds at most 16 values, and what was sent is the notify calls in order with some left out |
| Subscriptions.ClosedStaysClosed | subscription.go:114-128 | nothing is sent after closing, and a closed subscription stays closed |
| Deliveries.DeliveredExactly | subscription.go:114-128 | over every run what entered a subscription's channel is the values of exactly those notify calls that found it open with fewer than 16 values, in order; nothing is lost if all did |
| Deliveries.NotifyExactly | subscription.go:114-128 | one notify call adds its value at the end if the subscription is open with room, and otherwise nothing |
| Subscriptions.StaleCloseIsHarmless | client.go:453-484 | closing a subscription that a reconnect closed changes nothing, however many steps and new subscriptions later |
| Subscriptions.CloseTakesAnothersExactly | client_notifications.go:56-117 | over every run, some Close could remove another subscription's entry at some point if and only if a Subscribe was answered with the handle of a subscription still open |
| Subscriptions.RegistryIsTheOpenOnes | client_notifications.go:56-117 | over every run without such an answer the registry holds exactly the open subscriptions, each under its handle |
| Subscriptions.CloseUnregisters | client_notifications.go:109-117 | over every run, closing i removes the entry of another subscription j exactly when i is open under j's handle; j came later and is left open but unregistered |
| Subscriptions.Subscription.Notify | subscription.go:114-128 | drops when closed or full, otherwise appends |
| Subscriptions.Subscription.Close | subscription.go:61-111 | the first call closes and unregisters, later calls return the first error and touch nothing |
| Subscriptions.Client.Subscribe | client_notifications.go:56-70 | registers a new open subscription under the answered handle |
| Subscriptions.Client.HandleNotification | client_notifications.go:120-151 | each registered subscription is offered exactly the samples bearing its handle, in message order, and its open channel gains the first of them that fit into 16; an undecodable message offers nothing |
| Subscriptions.BatchExactly | subscription.go:114-128 | a batch of notify calls with nothing taken in between fills the channel up to 16 values, in order |
| Deliveries.SamplesOfHandle | client_notifications.go:138-148 | the samples of a handle are those that bear it, in order |
| Deliveries.SamplesOfStamps | client_notifications.go:128-148 | the samples of a message are those of its stamps, with their payloads and their stamp's time |
| Deliveries.SamplesOfPrinted | client_notifications.go:120-151 | a printed message has the samples of its stamps |
| Deliveries.CutMessage | internal/ads/commands.go:355-375 | a printed message cut off anywhere is not decoded |
| Deliveries.TimeOfFiletime | client_notifications.go:129-133 | a FILETIME n ticks after 1970-01-01 is n times 100 nanoseconds of Unix time |
| Subscriptions.NotifiedAllOk | subscription.go:114-128 | a batch of notify calls keeps what holds of the channel |
| Subscriptions.Client.Reestablish | client.go:453-484 | closes every registered channel, registers only new subscriptions, and keeps the multiset of options if all re-subscribes succeed with distinct handles |
| WString.RoundTrip | client_types.go:206-241 | the exact condition under which reading after writing returns the text |
| WString.RoundTripWithoutNul | client_types.go:381-411 | text without U+0000 survives if and only if it is non-empty and its UTF-16 length is at most size/2 - 1 |
| WString.EmptyTextReadsAsNuls | client_types.go:206-241 | the empty text reads back as size/2 times U+0000 |
| WString.ReadBack | client_types.go:206-241 | what any text reads back as after writing, cut or not |
| WString.ReadsUpToNul | client_types.go:206-241 | any buffer reads up to its first zero unit, the whole of it if there is none or it comes first |
| WString.WindowLayout | client_types.go:381-411 | each unit kept is two bytes, the lower first, then zeros to the window's size |
| WString.Surrogates | client_types.go:381-411 | how scalars above the basic plane are split, and that a lone surrogate decodes to U+FFFD |
| WString.DecodeEncode | client_types.go:381-411 | decoding UTF-16 inverts encoding, surrogate pairs included (sections 2.1 and 2.2 of RFC 2781) |
| WString.WriteWString | client_types.go:381-411 | fills the window as specified; panics exactly for windows of fewer than two bytes |
| WString.ReadWString | client_types.go:206-241 | reads up to the first zero unit, the whole buffer if there is none or it comes first |

## Left out

- Sockets, TCP options, deadlines and clocks: in the multiplexer receiving, failing and timing out are steps that may happen at any time; elsewhere what becomes of each request is a parameter; delays are integers.
- The text of `lastError`: `setError` is one step that stores the state; only whether it ran matters.
- Logging, metrics, error classification, health checks, state callbacks and the HTTP, WebSocket and YAML layers.
- IEEE floating point: floats are 32 and 64 bit patterns, and whether a float64 is whole, and its nearest float32, are parameters of the encoder.
- `fmt.Sscanf` beyond its decimal verb: blanks, a sign and digits are scanned, other verbs and formats are not modelled.
- `strings.ToLower` and `strings.ToUpper` are parameters; white space beyond ASCII is not trimmed.
- UTF-8: WSTRING text is a sequence of Unicode scalar values, other names are bytes.
- Multi-dimensional access, which the code refuses, and arrays with a non-zero lower bound: their paths are resolved by the model, but no tiling is claimed for them.
- Changes the PLC makes to its memory between the read and the write of `WriteStructFields`, and answers of the wrong length: each request is answered with the bytes asked for, or it or its answer is lost.
- Payloads of 2^32 bytes or more in the struct, array and symbol operations: a packet cannot carry them.
- Type tables that nest cyclically: the fetch does not terminate on them while its requests are answered.
- Type requests lost while a struct is parsed or written: those operations take the lookup of a type by name as a parameter, so what a name looks up to does not change during a call.
- `RegisterType`, which puts definitions of the application's own into the registry.
- Locks: each critical section and each subscription operation is one atomic step, so lock order and liveness are not covered.
- Aliasing of `subscription.client`: a subscription is closed against the client it is given.
- Buffer capacity beyond length: the symbol upload, and the buffer given to `Packet.UnmarshalBinary`, are taken to fill theirs.
- Requests sent on a connection that did not hand out their ID (`Reconnect.EachItsOwnID` says when): in the multiplexer each SendRequest bears an ID of its own connection.
- Memory allocation: a decoder that preallocates for an announced count is modelled with unbounded sequences.
- The one-line scalar reads and writes and `ReadMultipleSymbolValues`, which only repeat operations modelled here; the deprecated `ReadStructField*` and `ReadStructAsMap`.
- Reconnect.Client.ReconnectLoop: what each round meets is given as a finite list, because the loop itself has no bound.
