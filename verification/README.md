# Diagnostic stack: a model and its proofs

Dafny model of the stateful and arithmetic parts of an AUTOSAR diagnostic stack (DCM and DEM), with the properties the
code is meant to have proved for every input, every run or every reachable state.

`dafny verify dfyconfig.toml` checks the whole project.

| file | what it models |
|---|---|
| `Prelude.dfy` | bytes, optional results, and copying into buffers |
| `Bits.dfy` | 8- and 32-bit words as vectors of bits, with the operators of C |
| `SRSignal.dfy` | packing and unpacking of sender-receiver signals of 1 to 32 bits |
| `ReadDid.dfy`, `ReadDidGrowth.dfy`, `ReadDidValues.dfy`, `ReadDidLayout.dfy`, `ReadDidRefusals.dfy`, `ReadDidSuccess.dfy`, `ReadDidBounds.dfy` | ReadDataByIdentifier over a tree of DIDs that may be suspended, every byte of its response, when it is answered and what it is refused with, and when it stays inside the buffer |
| `Dsl.dfy`, `DslExclusion.dfy`, `DslChunks.dfy`, `DslWait.dfy`, `DslPreemption.dfy`, `DslProgress.dfy`, `DslDecisions.dfy`, `DslRuntime.dfy` | the DSL request/response protocol: its invariant, how many requests at once, chunks, timers, how a preemption ends, when a response goes out, which protocol wins, and the code itself |
| `PeriodicDid.dfy`, `PeriodicTable.dfy` | the table of periodic DIDs, its service and its scheduler |
| `BlockTransfer.dfy` | RequestDownload and TransferData against a stop-and-wait tester |
| `SecurityAccess.dfy`, `SecurityDelay.dfy` | seeds, keys, delays, what sessions do to security levels, and how many wrong keys a tester can try |
| `ObdPid.dfy` | OBD service 0x01: availability bitmaps and PID discovery |
| `Debounce.dfy` | counter-based and time-based debouncing |
| `NvM.dfy` | the DEM's write-back of memory blocks |
| `DtcFilter.dfy` | the DTC filter, its iteration, and the reports of ReadDTCInformation |

Every module first defines a pure function for each operation, with the branches of the code; then classes and methods
with loops do the same in place, as the program does, and are proved equal to those functions; then the lemmas prove
what the operations are for. Runs are sequences of events; whatever the code gets from its surroundings (callback
answers, PduR results, completions, clocks as main-function calls) is an input of the event.

## What turned out differently

* Time-based debouncing raises its verdict on the `(1 + ceil(T / task))`-th main call exactly when
  `ceil(T / task) * task` stays below 2^32; otherwise the 32-bit timer wraps and that call does not raise it
  (`Debounce.FirstVerdict`, with an example in `Debounce.WrapsInsteadOfFailing`).
* Two rows can have requests at the DSD or responses on the way at once, in some run, exactly if receive PDUs lead to a
  DCM_OBD_ON_CAN row and to another row (`DslExclusion.TwoInFlightExactly`): the OBD session can expire while its request
  is being worked on. A row that is not started has one exactly if receive PDUs lead to an OBD row at all
  (`DslExclusion.StoppedInFlightExactly`).
* The size check of ReadDataByIdentifier sees the bytes a sender-receiver signal occupies, but the code loads and stores
  four, or five. A big-endian signal that is accepted stays inside the response buffer; a little-endian one does so
  exactly if four bytes are left from its first byte on (`SRSignal.AcceptedStaysInside`). One of 8 bits in the last byte
  of the buffer does not (`SRSignal.LastByteOverruns`). A DID without references can be read beyond the end of some buffer
  that holds its response exactly if such a signal is among its signals and all signals before it can be read
  (`ReadDidBounds.CanLeaveExactly`). Three bytes of memory behind the buffer are always enough
  (`ReadDidBounds.ServeStays`).
* A row that waits to preempt is let go within `max(1, timeout)` main-function calls if it is the only one
  (`DslPreemption.WaitIsBounded`). Two rows can wait at once exactly if receive PDUs lead to three rows
  (`DslPreemption.TwoWaitExactly`); letting one go ends the preemption, and the other is left waiting
  (`DslPreemption.WaitingTurn`, `DslPreemption.LeftBehind`, `DslPreemption.LeftBehindIsReached`).
* A negative response that PduR refuses keeps its buffer as if it were on the way, and until a confirmation arrives no
  response of that row goes out (`DslProgress.HeldUntilConfirmed`, `DslProgress.GoesOutExactly`); every row that receive
  PDUs lead to can get there (`DslProgress.AnyRowCanBeHeld`).
* A request made by the periodic scheduler for an entry that was removed in between puts an entry with period 0 into the
  table, which is then due on every call; `PeriodicDid.InternalRequest` says exactly when.
* The OBD availability bitmaps announce disabled PIDs, which are then not served (`ObdPid.FoundButDisabled`).
* DTC lists from the mirror memory are handled by the service but always refused by the filter
  (`DtcFilter.RefusedExactly`).

## Model

| member | source | states |
|---|---|---|
| SRSignal.AffectedBytesExact | core/dcm/src/Dcm_Internal.c:344-360 | the announced byte range of a signal holds every bit of it and each of its bytes holds one, in both byte orders |
| SRSignal.PackTouchesAffectedBytes | core/dcm/src/Dcm_Internal.c:249-335 | bytes outside the announced range are not changed by packing |
| SRSignal.AcceptedStaysInside | core/dcm/src/Dcm_Internal.c:280-325 | the four- or five-byte window of a signal that the size check accepts stays inside the buffer exactly if the signal is big-endian or four bytes are left from its first byte on |
| SRSignal.LastByteOverruns | core/dcm/src/Dcm_Internal.c:298-325 | wherever the data starts, a little-endian signal in the last byte of the buffer is accepted and its window leaves the buffer, even with one or two bytes of memory behind |
| SRSignal.ThreeBytesAreEnough | core/dcm/src/Dcm_Internal.c:280-325 | with three bytes of memory behind the buffer every accepted signal is safe |
| SRSignal.LoadWindow | core/dcm/src/Dcm_Internal.c:266-290 | the four bytes of the window as one number, in the byte order of the signal |
| SRSignal.StoreWindow | core/dcm/src/Dcm_Internal.c:300-330 | the number goes back to its four bytes and no other byte changes |
| SRSignal.ReadSRSignal | core/dcm/src/Dcm_Internal.c:249-335 | whether the window stays inside the buffer, and then: the buffer is the packed one, bit by bit, and the callback's code is returned |
| SRSignal.WriteSRSignal | core/dcm/src/Dcm_Internal.c:195-241 | whether the window stays inside the buffer, and then: the word handed to the port is the bits of the signal, sign-extended for signed types, and the port's code is returned |
| SRSignal.UnpackOfPack | core/dcm/src/Dcm_Internal.c:195-335 | the bits of a packed signal come back |
| SRSignal.PackOverwrites | core/dcm/src/Dcm_Internal.c:249-335 | packing twice at one place keeps the second value only |
| SRSignal.RoundTrip | core/dcm/src/Dcm_Internal.c:158-335 | what the port gets back is the value that was packed exactly when it fits the bits and type of the signal |
| SRSignal.AllDecodeBack | core/dcm/src/Dcm_Internal.c:195-335 | any number of signals that do not overlap, packed one after another, all decode back |
| SRSignal.OrderIrrelevant | core/dcm/src/Dcm_Internal.c:249-335 | and the order of packing does not matter |
| ReadDid.SuspensionInvisible | core/dcm/src/Dcm_Dsp.c:2399-2489 | however callbacks suspend with E_PENDING, the request ends with the response bytes, length and code of the run in which none does, and calls settle as often |
| ReadDid.WalkSim | core/dcm/src/Dcm_Internal.c:92-149 | a walk that is suspended can be run again from where it stopped and agrees with the direct one |
| ReadDid.PassOver | core/dcm/src/Dcm_Internal.c:107-134 | a resumed walk passes over the nodes that were read before, without touching the response |
| ReadDid.CallSim | core/dcm/src/Dcm_Dsp.c:2421-2488 | one call of the service, suspended or not, leaves saved indices from which the same answer results |
| ReadDid.ReadSignalsSim | core/dcm/src/Dcm_Internal.c:386-528 | the signals of one DID, suspended at any of them, agree with the direct run |
| ReadDid.StaleBitsOverwritten | core/dcm/src/Dcm_Internal.c:249-335 | the bits a pending sender-receiver read packs are overwritten by the settled one |
| ReadDid.DidReader.CheckCondition | core/dcm/src/Dcm_Internal.c:390-432 | the condition check of an asynchronous or synchronous port, as specified |
| ReadDid.DidReader.FetchData | core/dcm/src/Dcm_Internal.c:455-513 | reading one signal into the response, with its end state |
| ReadDid.DidReader.ReadSignal | core/dcm/src/Dcm_Internal.c:386-528 | one pass of the signal loop |
| ReadDid.DidReader.ReadSignalLoop | core/dcm/src/Dcm_Internal.c:386-528 | the signal loop, from the saved index |
| ReadDid.DidReader.GetData | core/dcm/src/Dcm_Internal.c:362-535 | one DID: size check, identifier, zeroed data area, signals |
| ReadDid.DidReader.ReadDidData | core/dcm/src/Dcm_Internal.c:92-149 | the recursive preorder walk equals the walk of the preorder list |
| ReadDid.DidReader.ReadDataByIdentifier | core/dcm/src/Dcm_Dsp.c:2399-2489 | one call of the service, restoring and saving its pending state |
| ReadDid.DidReader.ServeRequest | core/dcm/src/Dcm_Dsp.c:903-906 | the main function repeats the call until the request has ended |
| ReadDidLayout.ResponseLayout | core/dcm/src/Dcm_Internal.c:92-149 | a positive response, however often suspended, stays within the limit, keeps its first byte, and holds the identifiers of all visited DIDs in preorder, each with its data right behind and nothing else; each sender-receiver signal that no later signal of its DID overlaps unpacks to the value its own read callback gave, each byte of another port that no later signal has is that byte of the data its own read callback gave, and bytes no signal has are zero; callbacks are known by how many settled before them |
| ReadDidValues.SignalsCarry | core/dcm/src/Dcm_Internal.c:386-528 | reading the signals of a DID leaves every value and every byte of data that no later signal touches in its place, zeros where no signal has written, and the write position exactly behind the last byte |
| ReadDidValues.DataByte | core/dcm/src/Dcm_Internal.c:461-463 | byte j of the data a synchronous, asynchronous or ECU signal was given is byte j of its place in the response, for j below the length of the signal, which is fixed or what its length callback gave |
| ReadDidValues.CarriedDecodes | core/dcm/src/Dcm_Internal.c:195-241 | and it decodes to the number the low bits of the stored word stand for |
| ReadDidBounds.FetchLeavesExactly | core/dcm/src/Dcm_Internal.c:455-493 | a signal read leaves the buffer exactly if it is accepted, little-endian and fewer than four bytes are left |
| ReadDidBounds.ServeStays | core/dcm/src/Dcm_Internal.c:298-325 | however often it is suspended, a request stays inside the buffer if every little-endian signal has four bytes left in its data area, or the buffer three bytes of memory behind it |
| ReadDidBounds.SnugDidLeaves | core/dcm/src/Dcm_Internal.c:298-325 | a DID whose first signal has fewer leaves every buffer that just holds its response |
| ReadDidBounds.CanLeaveExactly | core/dcm/src/Dcm_Internal.c:298-325 | for a DID without references, with any number of signals inside its data area: some buffer is left by some run if and only if a little-endian signal with fewer than four bytes left can be reached, all signals before it being configured so that they can succeed |
| ReadDidLayout.NodeLaysOut | core/dcm/src/Dcm_Internal.c:107-134 | a node puts its identifier at the write position and touches nothing before it |
| ReadDidGrowth.SignalsGrow | core/dcm/src/Dcm_Internal.c:386-528 | no signal of a DID reaches back before the start of its data, and the write position never moves back |
| ReadDidLayout.IdBytesDecode | core/dcm/src/Dcm_Internal.c:379-384 | the two identifier bytes say the identifier, high byte first |
| ReadDidSuccess.AnsweredExactly | core/dcm/src/Dcm_Dsp.c:2399-2489 | however often suspended, a request is answered if and only if it consists of whole identifiers, names a configured DID, and every DID it visits is readable and has room, with the condition, the length and the data of each of its signals given by the signal's own callbacks; the response ends where the last of them ends |
| ReadDidSuccess.StepSucceeds | core/dcm/src/Dcm_Internal.c:386-528 | the same for one signal |
| ReadDidRefusals.Malformed | core/dcm/src/Dcm_Dsp.c:2399-2489 | a request that does not consist of whole identifiers, or names no configured DID |
| ReadDidRefusals.FirstDidRefused | core/dcm/src/Dcm_Internal.c:362-384 | the codes for a DID that is not configured for the session, is locked, or has no room |
| ReadDidRefusals.LoneReference | core/dcm/src/Dcm_Internal.c:107-134 | a DID without data of its own needs room for its identifier and no more |
| ReadDidSuccess.FirstSignalRefused | core/dcm/src/Dcm_Internal.c:386-528 | the first signal of the first requested DID that cannot be had decides the code: its condition and length first, then its place in the response, then its data |
| Dsl.StartedIffActive | core/dcm/src/Dcm_Dsl.c:1217-1290 | in every reachable state a row is marked as started exactly if it is the active protocol |
| DslExclusion.OneRequestInFlight | core/dcm/src/Dcm_Dsl.c:951-996 | unless receive PDUs lead to an OBD row and to another, at most one row has a request at the DSD or a response on the way, through all preemptions and timeouts |
| DslExclusion.UsedRows | core/dcm/src/Dcm_Dsl.c:1218-1290 | a row no receive PDU leads to is never started or used; without a reachable OBD row, a row that is not started is idle or waits to preempt |
| DslExclusion.TwoInFlightExactly | core/dcm/src/Dcm_Dsl.c:828-843 | some run has two rows in flight if and only if receive PDUs lead to an OBD row and to another |
| DslExclusion.StoppedInFlightExactly | core/dcm/src/Dcm_Dsl.c:828-843 | some run has a request in flight on a row that is not started if and only if receive PDUs lead to an OBD row |
| DslExclusion.AnyObdRowIsStopped | core/dcm/src/Dcm_Dsl.c:828-843 | every reachable OBD row is closed while its response goes out, by a main call before its session timer runs |
| Dsl.BufferOwnership | core/dcm/src/Dcm_Dsl.c:338-391 | in every reachable state the receive buffer is busy exactly if its status is not NOT_IN_USE, a request is in flight exactly if the receive buffer belongs to the DSD, and the external and local transmit buffers are never both in transmission |
| Dsl.ConfirmationIsUnambiguous | core/dcm/src/Dcm_Dsl.c:1483-1593 | a confirmation ends the one transmission of its row that was under way, and touches no other row |
| Dsl.StepKeepsInv | core/dcm/src/Dcm_Dsl.c:816-1593 | every callback and the main function keep the protocol invariant |
| Dsl.ArbitrateKeepsInv | core/dcm/src/Dcm_Dsl.c:1217-1288 | starting, taking over, preempting and turning away keep it |
| Dsl.GiveWayKeepsInv | core/dcm/src/Dcm_Dsl.c:966-992 | so does ending a preempted protocol, when it is done and when its time is up |
| Dsl.SendResponseKeepsInv | core/dcm/src/Dcm_Dsl.c:473-508 | a negative response is built from the request's service identifier, touches the local transmit buffer of its row only, and starts only if that is free |
| DslExclusion.RequestReachesDsd | core/dcm/src/Dcm_Dsl.c:1217-1350 | with no protocol active, a request on a free row reaches the DSD with its P2 timer running, and its row becomes active |
| DslDecisions.HigherPriorityWins | core/dcm/src/Dcm_Dsl.c:1242-1286 | a complete request beside an active protocol outside the default session: its row runs, or waits to preempt, if and only if its priority number is smaller (or it was waiting before); otherwise the active row goes on with its transmission as it was and the receive buffer is free |
| DslDecisions.NeverDisplaced | core/dcm/src/Dcm_Dsl.c:1217-1288 | over every run: requests of lower or equal priority never displace a protocol outside the default session |
| DslDecisions.ArrivalBeside | core/dcm/src/Dcm_Dsl.c:1217-1350 | all outcomes of a request beside another active protocol, by priority, session, callouts and the state of the active row |
| DslDecisions.ArrivalAlone | core/dcm/src/Dcm_Dsl.c:1217-1350 | and of one whose row runs already, or beside which no protocol is active |
| DslDecisions.TesterPresent | core/dcm/src/Dcm_Dsl.c:1203-1216 | a tester-present message without response restarts the session timer of its row and stays in the DSL |
| DslDecisions.FailedReception | core/dcm/src/Dcm_Dsl.c:1170-1202 | a reception that fails or has the wrong length is dropped and restarts the session timer of the active row |
| DslDecisions.LocalReception | core/dcm/src/Dcm_Dsl.c:1366-1389 | whatever ends in the extra receive buffer stays in the DSL: a failed reception restarts the session timer of the active row, a tester-present message that of its own, nothing else any |
| DslDecisions.ChunksAreStored | core/dcm/src/Dcm_Dsl.c:1105-1162 | chunks are stored one behind the other in the buffer that receives, and the room left is reported; others change nothing |
| DslDecisions.WhereItGoes | core/dcm/src/Dcm_Dsl.c:1017-1103 | which buffer a reception gets, by its length and what is free, that it stops the session timer, and the refusals in their order |
| DslDecisions.UnknownPdu | core/dcm/src/Dcm_Dsl.c:1017-1593 | PDUs that are not configured, or on which nothing is sent, are refused and change nothing |
| DslDecisions.StartsAtRest | core/dcm/src/Dcm_Dsl.c:600-645 | at start-up every row is idle in the default session and no protocol is active |
| DslDecisions.SessionEndsExactly | core/dcm/src/Dcm_Dsl.c:828-843 | over every run of main calls: a row at rest with its session timer running is back in the default session on exactly the max(1, count)-th call |
| DslDecisions.SessionIsSet | core/dcm/src/Dcm_Dsl.c:263-273 | the active row is in the new session with its timer running, and nothing else changes |
| DslDecisions.ConfirmedStartsS3 | core/dcm/src/Dcm_Dsl.c:1483-1593 | the confirmation of a response starts the session timer of its row |
| DslDecisions.WaitSays | core/dcm/src/Dcm_Dsl.c:848-872 | when the wait for the DSD is over the tester is told 0x78, or 0x10 and the buffers are free |
| DslDecisions.DsdAsksForTime | core/dcm/src/Dcm_Dsl.c:535-550 | 0x78 at the DSD's wish, and the new wait in main cycles |
| DslDecisions.PreemptingSays | core/dcm/src/Dcm_Dsl.c:951-964 | a row that preempts says 0x21 once, and its receive buffer is free when PduR has taken it |
| DslDecisions.NegativeResponseIsCopied | core/dcm/src/Dcm_Dsl.c:1403-1475 | PduR gets the bytes of a negative response in order, each once, with the number of those left |
| DslDecisions.DsdAnswers | core/dcm/src/Dcm_Dsl.c:415-470 | the response the DSD gives is the one that is ready, or both buffers are free |
| DslChunks.DsdGetsTheChunks | core/dcm/src/Dcm_Dsl.c:1105-1198 | however a reception is cut into chunks, the DSD gets exactly their concatenation, and only if its length is the announced one or none was announced |
| DslChunks.PdurGetsAPrefix | core/dcm/src/Dcm_Dsl.c:1403-1475 | the chunks handed to PduR concatenate to a prefix of the response, and the reported remainder is the length of the rest |
| DslChunks.Observed | core/dcm/src/Dcm_Dsl.c:1017-1475 | after every step the buffers hold what an observer of the accepted chunks expects |
| DslChunks.StepKeepsData | core/dcm/src/Dcm_Dsl.c:816-1392 | all other callbacks leave receptions and transmissions under way as they are |
| DslWait.SilenceEndsInCancellation | core/dcm/src/Dcm_Dsl.c:848-872 | a request the DSD never answers is at the DSD until, and cancelled with its buffers released on, exactly the (max(1,P2) + N*max(1,P2*))-th main call, after at most N timer-driven 0x78 responses |
| DslWait.CancelledExactlyThen | core/dcm/src/Dcm_Dsl.c:848-872 | the same from any state with a request at the DSD |
| DslWait.Countdown | core/dcm/src/Dcm_Dsl.c:848-872 | until then every main call, and nothing else, takes one off the remaining wait |
| DslWait.WaitOfFreshRequest | core/dcm/src/Dcm_Dsl.c:1321-1333 | the wait of a request that has just been handed over, in main cycles |
| DslWait.MainRowsByRow | core/dcm/src/Dcm_Dsl.c:816-1008 | the main function treats every row by itself, but for closing a preempted one |
| DslPreemption.WaitingTurn | core/dcm/src/Dcm_Dsl.c:951-996 | exactly when the turn of a waiting row ends the preemption, what it releases and closes, and that any other waiting row is left as it is |
| DslPreemption.WaitIsBounded | core/dcm/src/Dcm_Dsl.c:965-990 | over every run: a single waiting row stops waiting within max(1, timeout) main-function calls, as long as some protocol is active when the main function comes to it |
| DslPreemption.WaitBegins | core/dcm/src/Dcm_Dsl.c:1243-1290 | a row begins to wait with its configured timeout |
| DslPreemption.TwoWaitExactly | core/dcm/src/Dcm_Dsl.c:1243-1290 | some run has two rows waiting at once if and only if receive PDUs lead to three rows |
| DslPreemption.LeftBehind | core/dcm/src/Dcm_Dsl.c:951-954 | a row that waits while no preemption is on waits through any number of main-function calls, its receive buffer as it was |
| DslPreemption.LeftBehindIsReached | core/dcm/src/Dcm_Dsl.c:966-977 | with three rows a run leads there |
| DslProgress.GoesOutExactly | core/dcm/src/Dcm_Dsl.c:873-940 | by one main call a ready response goes out, or is given up if PduR refuses it, exactly if no negative response of its row is on the way; only the end of a preemption stops it otherwise |
| DslProgress.HeldUntilConfirmed | core/dcm/src/Dcm_Dsl.c:471-508 | a negative response, even a refused one, is on the way until PduR confirms it, and over every run until then no response of its row goes out |
| DslProgress.AnyRowCanBeHeld | core/dcm/src/Dcm_Dsl.c:471-508 | for every configuration and receive PDU: a request whose 0x78 PduR refuses gets its response ready and held |
| DslRuntime.Runtime.constructor | core/dcm/src/Dcm_Dsl.c:600-645 | all rows idle, in the default session, no protocol active |
| DslRuntime.Runtime.ReleaseExternalBuffers | core/dcm/src/Dcm_Dsl.c:338-391 | both external buffers of the row are free, nothing else changes |
| DslRuntime.Runtime.StartS3Timer | core/dcm/src/Dcm_Dsl.c:94-102 | the session timer of the row starts over, in main cycles |
| DslRuntime.Runtime.ResetSessionTimeoutTimer | core/dcm/src/Dcm_Dsl.c:204-212 | of the active row, if there is one |
| DslRuntime.Runtime.SetSesCtrlType | core/dcm/src/Dcm_Dsl.c:263-273 | the session of the active row changes and its timer starts over |
| DslRuntime.Runtime.Send | core/dcm/src/Dcm_Dsl.c:473-508 | a negative response of three bytes, unless one is on its way |
| DslRuntime.Runtime.StartReception | core/dcm/src/Dcm_Dsl.c:1017-1103 | which buffer a reception gets, or why none |
| DslRuntime.Runtime.CopyData | core/dcm/src/Dcm_Dsl.c:1105-1162 | the chunk is appended if it fits, and the room left is reported |
| DslRuntime.Runtime.ChooseProtocol | core/dcm/src/Dcm_Dsl.c:1217-1288 | start, take over, preempt, or turn the request away |
| DslRuntime.Runtime.ProvideToDsd | core/dcm/src/Dcm_Dsl.c:1289-1350 | request and transmit buffer are handed to the DSD, the P2 timer starts |
| DslRuntime.Runtime.TpRxIndication | core/dcm/src/Dcm_Dsl.c:1170-1392 | the end of a reception in either buffer |
| DslRuntime.Runtime.ProcessingDone | core/dcm/src/Dcm_Dsl.c:415-470 | a response is ready, or suppressed and the buffers released |
| DslRuntime.Runtime.SendResponsePending | core/dcm/src/Dcm_Dsl.c:535-550 | 0x78 at the DSD's wish, with a new P2* period |
| DslRuntime.Runtime.CopyToPdur | core/dcm/src/Dcm_Dsl.c:1403-1475 | the next bytes of the response or of a negative response |
| DslRuntime.Runtime.TpTxConfirmation | core/dcm/src/Dcm_Dsl.c:1483-1593 | the end of a transmission |
| DslRuntime.Runtime.CheckS3 | core/dcm/src/Dcm_Dsl.c:828-843 | the session timer of one row and its expiry |
| DslRuntime.Runtime.AwaitDsd | core/dcm/src/Dcm_Dsl.c:848-872 | the response-pending timer of one row |
| DslRuntime.Runtime.Transmit | core/dcm/src/Dcm_Dsl.c:873-943 | a finished response goes out, or its buffers are released |
| DslRuntime.Runtime.AwaitPreemption | core/dcm/src/Dcm_Dsl.c:951-996 | NRC 0x21 once, the preemption timer, and the end of the preempted protocol |
| DslRuntime.Runtime.MainFunction | core/dcm/src/Dcm_Dsl.c:816-1008 | all rows in table order; the object keeps the invariant of the protocol, as it does in every callback |
| PeriodicDid.RemoveKeepsOthers | core/dcm/src/Dcm_Dsp.c:3811-3837 | removing a pair keeps every other entry with its period and counter, uniqueness, and a scheduler start inside the table |
| PeriodicDid.AddOrUpdateKeepsOthers | core/dcm/src/Dcm_Dsp.c:3846-3871 | adding or updating changes the one entry only; full exactly if the pair is new and no room is left |
| PeriodicDid.StopKeepsTheSupported | core/dcm/src/Dcm_Dsp.c:596-620 | with the service supported exactly the supported entries are kept; otherwise all are cleared |
| PeriodicDid.StopRequest | core/dcm/src/Dcm_Dsp.c:3981-3992 | a stop request removes exactly the entries it names for its PDU |
| PeriodicDid.TransmitRequest | core/dcm/src/Dcm_Dsp.c:4150-4235 | a request is refused with the set of pairs as before exactly if it needs more new entries than are free; otherwise exactly its usable DIDs are refreshed and nothing else changes, with the response code for each case |
| PeriodicDid.TesterRequest | core/dcm/src/Dcm_Dsp.c:4105-4238 | from the first byte of the request on: modes 1, 2 and 3 enter the readable DIDs that fit into a frame at the slow, medium and fast rate, all of them or none |
| PeriodicDid.OtherRequests | core/dcm/src/Dcm_Dsp.c:4105-4238 | other modes and requests without a DID are refused; mode 4 without one clears the table |
| PeriodicDid.RollBack | core/dcm/src/Dcm_Dsp.c:4168-4175 | removing what the request added leaves the pairs of the table as before the request |
| PeriodicDid.EveryRequestKeepsWf | core/dcm/src/Dcm_Dsp.c:4105-4238 | no request ever puts a (DID, PDU) pair into the table twice or outgrows it |
| PeriodicDid.InternalRequest | core/dcm/src/Dcm_Dsp.c:4184-4216 | the scheduler's own request leaves the table as it is, and in exactly one case leaves an entry with period 0 |
| PeriodicDid.OneRound | core/dcm/src/Dcm_Dsp.c:866-897 | in one main call a due entry is sent or its turn comes nearer, and one that is not due is not sent |
| PeriodicDid.NoEntryStarves | core/dcm/src/Dcm_Dsp.c:866-897 | from any table an entry is first sent when it is due or within n - 1 calls of that |
| PeriodicDid.ConsecutiveSends | core/dcm/src/Dcm_Dsp.c:866-897 | with all sends accepted, consecutive sends of an entry with period P among n are at least max(1,P) and at most max(1,P) + n - 1 calls apart |
| PeriodicDid.MainKeepsWf | core/dcm/src/Dcm_Dsp.c:866-897 | a main call keeps the table unique and the start index inside it |
| PeriodicDid.CounterRuns | core/dcm/src/Dcm_Dsp.c:866-897 | a counter runs up to its period and stops there; only an entry that is due is sent, and its counter starts over |
| PeriodicTable.PDidTable.Position | core/dcm/src/Dcm_Dsp.c:3792-3803 | the index of the first entry of the pair, or none |
| PeriodicTable.PDidTable.RemoveEntry | core/dcm/src/Dcm_Dsp.c:3811-3837 | swap-remove in the array |
| PeriodicTable.PDidTable.Enter | core/dcm/src/Dcm_Dsp.c:3846-3871 | add or update in the array |
| PeriodicTable.PDidTable.Stop | core/dcm/src/Dcm_Dsp.c:596-620 | collect the unsupported pairs, then remove them |
| PeriodicTable.PDidTable.EnterAll | core/dcm/src/Dcm_Dsp.c:4150-4183 | the loop over the requested DIDs |
| PeriodicTable.PDidTable.Serve | core/dcm/src/Dcm_Dsp.c:4105-4238 | the whole service |
| PeriodicTable.PDidTable.Schedule | core/dcm/src/Dcm_Dsp.c:866-897 | one round over the array, at most one send |
| BlockTransfer.EachBlockOnce | core/dcm/src/Dcm_Dsp.c:6298-6429 | with responses lost, blocks repeated, writes pending, failing or given up: the acknowledged blocks and at most one more are written, each exactly once, contiguously, and nextAddress is the start plus all bytes written |
| BlockTransfer.OneGoodExchangeIsEnough | core/dcm/src/Dcm_Dsp.c:6311-6386 | one write that succeeds and one response that arrives bring the tester to its next block, whatever happened before |
| BlockTransfer.NextBlock | core/dcm/src/Dcm_Dsp.c:6311-6339 | the expected block is written and acknowledged with its counter exactly if the write succeeds, across the wrap from 255 to 0 |
| BlockTransfer.OldBlock | core/dcm/src/Dcm_Dsp.c:6371-6386 | a repeated block is acknowledged exactly if it is the last one written, and changes nothing |
| BlockTransfer.ImageIsContiguous | core/dcm/src/Dcm_Dsp.c:6322-6325 | each block is written where the one before it ends |
| BlockTransfer.AcceptedDownloadIsFresh | core/dcm/src/Dcm_Dsp.c:6121-6200 | exactly the requests that carry an address and a size of one to four bytes each are accepted; the download starts at counter 1 and at the number whose digits are the address bytes, and the response tells the block size; a malformed one changes nothing |
| BlockTransfer.ImageStartsAtTheAddress | core/dcm/src/Dcm_Dsp.c:6137-6140 | whatever run follows the tester's request for address a: the first write is the first block at the number written by a |
| BlockTransfer.PendingDownloadResumes | core/dcm/src/Dcm_Dsp.c:1061-1070 | a request that was pending, or forced 0x78 first, ends as if it had been answered at once |
| BlockTransfer.DownloadNotYet | core/dcm/src/Dcm_Dsp.c:6165-6205 | a download request that is refused, pending or forces 0x78 leaves the download as it was |
| BlockTransfer.BlockNotYet | core/dcm/src/Dcm_Dsp.c:6311-6340 | and so does an expected block whose write fails, is pending or forces 0x78; the codes, and what the server works on then |
| BlockTransfer.OutOfTurn | core/dcm/src/Dcm_Dsp.c:6298-6429 | what TransferData refuses, and the acknowledged repetition of the last block: nothing is written and the download stays as it was |
| BlockTransfer.GiveUpFrees | core/dcm/src/Dcm_Dsp.c:1193-1196 | after a cancellation the server takes the next request and the pending write never takes effect |
| BlockTransfer.Bytes4Decode | core/dcm/src/Dcm_Dsp.c:6153-6156 | the four block-size bytes decode to the block size |
| BlockTransfer.BlockServer.ReadAddress | core/dcm/src/Dcm_Dsp.c:6137-6140 | the bytes shifted into a 32-bit word are the big-endian number, without overflow |
| BlockTransfer.BlockServer.StartDownload | core/dcm/src/Dcm_Dsp.c:6121-6200 | RequestDownload, in place |
| BlockTransfer.BlockServer.ReceiveBlock | core/dcm/src/Dcm_Dsp.c:6298-6429 | TransferData, in place |
| BlockTransfer.BlockServer.CancelPending | core/dcm/src/Dcm_Dsp.c:1193-1196 | a pending write is dropped |
| BlockTransfer.BlockServer.UploadDownloadMain | core/dcm/src/Dcm_Dsp.c:1061-1070 | a pending request runs again, one main call later after a forced 0x78 |
| SecurityAccess.DefaultSessionIsLocked | core/dcm/src/Dcm_Dsl.c:150-195 | in every run from start-up a row in the default session is locked |
| SecurityAccess.SessionChangeLocks | core/dcm/src/Dcm_Dsl.c:150-195 | every session change in any such run leaves its row locked |
| SecurityAccess.UnlockedIsEarned | core/dcm/src/Dcm_Dsp.c:2838-2871 | an unlocked row has had a good key for its level since its last session change, which used up a seed for that level no other key verdict had used |
| SecurityAccess.StepKeepsInv | core/dcm/src/Dcm_Dsp.c:2710-2947 | every event keeps that |
| SecurityAccess.DelayEndsExactly | core/dcm/src/Dcm_Dsp.c:1147-1170 | a delay of t milliseconds ends on exactly the (t / period)-th tick |
| SecurityAccess.NoSeedDuringDelay | core/dcm/src/Dcm_Dsp.c:2749-2756 | over every run: until the (t / period)-th tick of a delay of t milliseconds, and as long as no other security row is asked for a seed, no seed is handed out and no key is judged, for any level |
| SecurityAccess.DelayedStep | core/dcm/src/Dcm_Dsp.c:2849-2853 | during the delay the seed of its row is refused with requiredTimeDelayNotExpired |
| SecurityDelay.EveryLimitthWrongKeyDelays | core/dcm/src/Dcm_Dsp.c:2885-2891 | over every run from start-up in which only row i is asked: the row is delayed for all of its delay time right after every max(1, attempts)-th wrong key, and after no other, with the code for each |
| SecurityDelay.WrongKeysAreBounded | core/dcm/src/Dcm_Dsp.c:2749-2891 | in every stretch of every such run no more wrong keys are judged than max(1, attempts) for each delay that fits into its ticks, and as many more |
| SecurityDelay.WrongKeyCountsForTheLastRow | core/dcm/src/Dcm_Dsp.c:2882-2897 | whichever rows have been asked: a wrong key counts for the row asked for a seed last, up to the limit of the row its seed came from, and the delay is that of the former |
| SecurityDelay.NoSeedAfterBoot | core/dcm/src/Dcm_Dsp.c:645-691 | no seed is given and no key judged before exactly the (delayTimeOnBoot / period)-th tick after start-up |
| SecurityDelay.GoodKeyUnlocks | core/dcm/src/Dcm_Dsp.c:2854-2871 | a seed and then a good key unlock exactly that level on the active row; a bad key unlocks nothing; both use up the seed |
| SecurityDelay.UnlockedNeedsNoSeed | core/dcm/src/Dcm_Dsp.c:2764-2768 | the level that is unlocked already is answered without a seed |
| SecurityDelay.KeyNeedsItsSeed | core/dcm/src/Dcm_Dsp.c:2898-2909 | without a seed for its level no key is judged |
| SecurityDelay.SeedRefusals | core/dcm/src/Dcm_Dsp.c:2749-2823 | what a seed request that gives no seed is answered: during a delay, for a record of the wrong size, without room in the response, without a callout, and by its answer |
| SecurityDelay.KeyRefusals | core/dcm/src/Dcm_Dsp.c:2849-2884 | and a key whose seed is there: it is judged exactly outside a delay, with the right size and with a callout; else the seed stays |
| SecurityDelay.NoSuchRequest | core/dcm/src/Dcm_Dsp.c:2914-2947 | requests without a valid sub-function or for a level that is not configured |
| SecurityDelay.SessionsFollow | core/dcm/src/Dcm_Dsl.c:150-195 | session, active protocol and pending seed after every event |
| SecurityDelay.StartsLocked | core/dcm/src/Dcm_Dsl.c:600-645 | at start-up every row is in the default session and locked |
| SecurityAccess.SecurityServer.constructor | core/dcm/src/Dcm_Dsp.c:645-691 | locked rows and the delays on boot |
| SecurityAccess.SecurityServer.ChangeDiagnosticSession | core/dcm/src/Dcm_Dsl.c:150-195 | what a session change does to the level and to a pending seed |
| SecurityAccess.SecurityServer.Open | core/dcm/src/Dcm_Dsl.c:1220-1262 | a protocol starts, in a fresh session |
| SecurityAccess.SecurityServer.Close | core/dcm/src/Dcm_Dsl.c:966-992 | the active protocol is closed by a preemption; one that has timed out drops a pending seed |
| SecurityAccess.SecurityServer.LookUp | core/dcm/src/Dcm_Dsp.c:2741-2745 | the first security row of the level |
| SecurityAccess.SecurityServer.RequestSeed | core/dcm/src/Dcm_Dsp.c:2727-2823 | the seed request, with every refusal in its order |
| SecurityAccess.SecurityServer.NoteWrongKey | core/dcm/src/Dcm_Dsp.c:2882-2897 | counting wrong keys and starting the delay |
| SecurityAccess.SecurityServer.SendKey | core/dcm/src/Dcm_Dsp.c:2826-2912 | the key comparison, with every refusal in its order |
| SecurityAccess.SecurityServer.Serve | core/dcm/src/Dcm_Dsp.c:2914-2947 | which of the two a sub-function is |
| SecurityAccess.SecurityServer.TickAll | core/dcm/src/Dcm_Dsp.c:1147-1170 | one tick of all delay timers |
| ObdPid.BitmapMeans | core/dcm/src/Dcm_Dsp.c:5298-5333 | bits 31 to 1 say which of the next 31 PIDs are configured for the service, bit 0 whether anything comes from the next availability PID on |
| ObdPid.ClientFindsExactlyTheConfigured | core/dcm/src/Dcm_Dsp.c:5298-5387 | a client that starts at 0x00 and follows the low bits through real responses finds exactly the configured PIDs of the service that are not multiples of 0x20 |
| ObdPid.FoundButDisabled | core/dcm/src/Dcm_Dsp.c:5205-5231 | a PID that was found can be read exactly if one of its entries is enabled |
| ObdPid.ResponseFits | core/dcm/src/Dcm_Dsp.c:5336-5420 | the response is never longer than the checked buffer |
| ObdPid.BitmapAnswer | core/dcm/src/Dcm_Dsp.c:5366-5390 | what a single availability PID is answered |
| ObdPid.DataPidsAnswer | core/dcm/src/Dcm_Dsp.c:5398-5436 | one to six data PIDs: a positive answer holds, in the order asked for, each PID that has an enabled entry with its data byte by byte; it is refused if one of them cannot be read, if none is known, or if no such answer fits |
| ObdPid.BadRequests | core/dcm/src/Dcm_Dsp.c:5336-5364 | no PID, more than six, or a mixture of data and availability PIDs |
| ObdPid.SetAvailability | core/dcm/src/Dcm_Dsp.c:5298-5333 | the loop that builds one bitmap |
| ObdPid.FindPid | core/dcm/src/Dcm_Dsp.c:5205-5231 | the first enabled entry of the PID |
| ObdPid.ServeCurrentData | core/dcm/src/Dcm_Dsp.c:5336-5436 | the whole service, with its refusals |
| Debounce.UdsCounterRange | dem/src/Dem_Debounce.c:40-47 | the counter shown stays in [-128, 127] and is 127, or -128, exactly at the failed, or passed, threshold |
| Debounce.UdsCounterMonotone | dem/src/Dem_Debounce.c:40-47 | and grows with the internal one |
| Debounce.UdsCounterTruncates | dem/src/Dem_Debounce.c:40-47 | and in proportion, cut off towards zero |
| Debounce.CounterDebouncer.ToUds | dem/src/Dem_Debounce.c:40-47 | the mapping in 32-bit arithmetic with truncating division never overflows, and between the thresholds neither does the cast to 8 bits |
| Debounce.History | dem/src/Dem_Debounce.c:76-136 | over every report history the counter stays between the thresholds, the verdict is FAILED (PASSED) exactly at the failed (passed) one, and maxUDSFdc is the largest counter shown |
| Debounce.EachReport | dem/src/Dem_Debounce.c:81-124 | in every history FAILED (PASSED) decides at once with the counter at its threshold and 127 (-128) shown; PREFAILED never lowers the counter, PREPASSED never raises it, both move it by at least a step unless the threshold is reached; any other report leaves it |
| Debounce.EachReportShown | dem/src/Dem_Debounce.c:76-136 | and so does the counter shown |
| Debounce.PrefailedReportsNeeded | dem/src/Dem_Debounce.c:81-92 | exactly max(1, ceil((F - m) / inc)) consecutive PREFAILED reports reach the failed threshold |
| Debounce.PrepassedReportsNeeded | dem/src/Dem_Debounce.c:94-105 | and the mirror image for PREPASSED |
| Debounce.CounterDebouncer.Report | dem/src/Dem_Debounce.c:76-136 | one report, in place, in the widths of the code, for every state of the counter |
| Debounce.ResetStartsOver | dem/src/Dem_Debounce.c:312-317 | a reset starts from 0, shown as its 8-bit cast, which is also the largest so far |
| Debounce.CounterDebouncer.Reset | dem/src/Dem_Debounce.c:312-317 | the counters after a reset, also where 0 is not between the thresholds |
| Debounce.TimedFdcRange | dem/src/Dem_Debounce.c:145-173 | the time-based counter is 127 (-128) exactly if the time for failing (passing) has been reached |
| Debounce.FirstVerdict | dem/src/Dem_Debounce.c:245-305 | after one PREFAILED (PREPASSED) report and then only reports in that direction, exactly the (1 + ceil(T / task))-th main call is the first to raise the verdict, if and only if the counted time does not wrap |
| Debounce.WrapsInsteadOfFailing | dem/src/Dem_Debounce.c:266-268 | a threshold and task time for which it wraps |
| Debounce.TimeCounted | dem/src/Dem_Debounce.c:261-302 | until then each main call but the first counts one task time |
| Debounce.TimedReports | dem/src/Dem_Debounce.c:181-235 | FAILED (PASSED) is the verdict at once; a report that turns the timer sets it to its end, or to its start; one in the direction that is counted does not restart it |
| Debounce.MainCall | dem/src/Dem_Debounce.c:245-305 | which timers count, that a timer stays at its limit and raises its verdict on every call, and that a cycle that is not started stops it |
| Debounce.MainShows | dem/src/Dem_Debounce.c:290-295 | after a main call a running timer shows 127 (-128) exactly if its verdict is due, and the largest value is kept |
| Debounce.TimeDebouncer.Report | dem/src/Dem_Debounce.c:181-235 | which reports start, turn or decide the timer |
| Debounce.TimeDebouncer.Reset | dem/src/Dem_Debounce.c:312-331 | a reset stops the timer and shows zero |
| Debounce.TimeDebouncer.MainFunction | dem/src/Dem_Debounce.c:245-305 | one main call over all timers |
| NvM.NoUpdateIsLost | dem/src/Dem_NvM.c:250-310 | across every interleaving of changes and main calls, Dirty says exactly that a change is not handed over and PendingWrite that an immediate one is not followed by a write request |
| NvM.WrittenExactlyThen | dem/src/Dem_NvM.c:250-310 | with a ready NvM an immediate change is followed by its write request on an exactly known main call, at most the third, from any state |
| NvM.HandedOverExactlyThen | dem/src/Dem_NvM.c:250-310 | and any change is handed over on the first or second |
| NvM.RequestsOnlyWhenOwedAndFree | dem/src/Dem_NvM.c:250-310 | in every run a request is made only of an NvM that is not busy and takes it, and only for what is owed; after a write there is none before the NvM has been seen free again |
| NvM.BlockTable.constructor | dem/src/Dem_NvM.c:236-245 | all blocks idle and clean |
| NvM.BlockTable.SetChanged | dem/src/Dem_NvM.c:119-132 | the flags of the one block, if an NvM block is configured |
| NvM.BlockTable.MainFunction | dem/src/Dem_NvM.c:250-310 | one main call over all blocks |
| DtcFilter.OneRound | dem/src/impl/Dem_Filter_impl.c:156-193 | the n-th call yields the n-th matching DTC in table order, the call after the last reports the end and starts over |
| DtcFilter.IterationIsPeriodic | dem/src/impl/Dem_Filter_impl.c:156-193 | for ever |
| DtcFilter.MatchingIsComplete | dem/src/impl/Dem_Filter_impl.c:127-149 | every matching DTC of the table is among them, at the place the count says |
| DtcFilter.EachDtcIsTold | dem/src/impl/Dem_Filter_impl.c:156-193 | each matching DTC is told by the call its place among the matches says, with its UDS number, or its OBD number moved up by a byte |
| DtcFilter.SetExactly | dem/src/impl/Dem_Filter_impl.c:13-59 | which settings are accepted, and that a refused one leaves the filter as it was |
| DtcFilter.ListIsExact | core/dcm/src/Dcm_Dsp.c:1716-1813 | an accepted list has exactly 3 + 4 * count bytes, fits the checked buffer, holds the bytes of each matching DTC once, and leaves the cursor at the start |
| DtcFilter.ListTells | core/dcm/src/Dcm_Dsp.c:1716-1813 | for each report type the filter it stands for; an accepted list holds, for each DTC that passes it, in table order and without a gap, the three bytes of its number and its status |
| DtcFilter.NumberTells | core/dcm/src/Dcm_Dsp.c:1634-1713 | and the number reported is that of those DTCs |
| DtcFilter.RefusedExactly | dem/src/impl/Dem_Filter_impl.c:13-59 | which lists are refused |
| DtcFilter.NumberAndListAgree | core/dcm/src/Dcm_Dsp.c:1634-1813 | for every mask the number reported and the list reported agree, or both are refused |
| DtcFilter.FilterServer.Set | dem/src/impl/Dem_Filter_impl.c:13-59 | the filter is set, with the cursor at the start, exactly if all its parameters are acceptable |
| DtcFilter.FilterServer.Number | dem/src/impl/Dem_Filter_impl.c:127-149 | the number of matching DTCs, in 16 bits |
| DtcFilter.FilterServer.Next | dem/src/impl/Dem_Filter_impl.c:156-193 | the next match and the cursor behind it |
| DtcFilter.FilterServer.Records | core/dcm/src/Dcm_Dsp.c:1782-1789 | the loop of the service writes the records of all matching DTCs |
| DtcFilter.FilterServer.List | core/dcm/src/Dcm_Dsp.c:1716-1813 | the report types 0x02, 0x0A, 0x0F, 0x13 and 0x15 |
| DtcFilter.FilterServer.ReportNumber | core/dcm/src/Dcm_Dsp.c:1634-1713 | the report types 0x01, 0x11 and 0x12 |

## Left out

Assumptions the statements rest on:

- Dsl.StepKeepsInv: completions and response-pending wishes of the DSD count only while the row's transmit status is PROVIDED_TO_DSD, and the two places of the main function that use the active protocol unchecked do nothing if there is none; DslDiagResp is configured.
- ReadDid.SuspensionInvisible: the answers of the callbacks do not depend on the opStatus they are given, which is not modelled; after a read has been resumed the code calls the condition checks of later signals with DCM_PENDING and no DCM_INITIAL before (core/dcm/src/Dcm_Internal.c:377-396).
- DslPreemption.LeftBehind: says what the main function does; a new preemption, or a new request on the row, may end the wait.
- DslWait.SilenceEndsInCancellation: as long as the row's session is not changed and its protocol not closed by a preemption; the call that cancels needs neither.
- DslChunks.DsdGetsTheChunks: for the external receive buffer; the local one never reaches the DSD.
- PeriodicDid.ConsecutiveSends: for a table that is not edited in between and with every send accepted by the DSL; a refused send delays without bound.
- SecurityAccess.UnlockedIsEarned: the sessions and the active row are kept beside those of the Dsl module, and driven by events of their own; keys are accepted only outside the default session, and the key comparison answers at once.
- SecurityAccess.NoSeedDuringDelay: for the delay of the row of the last seed request; the code counts wrong keys for that row, not for the level of the key.
- SecurityDelay.WrongKeysAreBounded: as long as only one security row is asked for seeds; with others asked in between, `SecurityDelay.WrongKeyCountsForTheLastRow` says what each wrong key counts for, and no bound for each level follows.
- DtcFilter.OneRound: whether a DTC passes the filter is a fixed oracle of the settings and the table index; the statuses do not change during a walk.
- NvM.NoUpdateIsLost: says what has been requested of the NvM, not how its jobs end; their results are ignored by the code.
- BlockTransfer.EachBlockOnce: a write that is reported as done has taken effect once, one that failed or was cancelled has not.

Parts of the program that are not modelled:

- Dcm_Dsl.c: the split-task variant, ComM, type-2 periodic PDUs, jump to boot, response on event, and DslDspSilentlyStartProtocol; PduR calls back only after the call that started a transmission has returned; the rows' pointers to shared buffer records are values in an array, so aliasing between rows is not captured; a response is taken when the DSD reports it done.
- Dcm_Internal.c: NvM-backed DIDs, the variant of getDidData without identifiers, and 16-bit wrap-around of write positions; what happens once a window has left the response buffer, where the model stops.
- Dcm_Dsp.c, reading DIDs: dynamically defined DIDs and cancelling a pending read.
- Dcm_Dsp.c, periodic DIDs: the clearing of the whole table by DspInit (when the default session is left, or a preemption times out), synchronous sampling, the data of the periodic response itself, and requests of more than 255 identifiers, for which the 8-bit loop counters of the code wrap.
- Dcm_Dsp.c, transfers: upload, RequestTransferExit, and the response parameter record of TransferData.
- Dcm_Dsp.c, security: pending seed requests are repeated as new ones; keys that answer pending are left out; the seed and key bytes are not modelled.
- Dcm_Dsp.c, OBD: services 0x02 to 0x0A, and a missing PID table, which answers as an empty one.
- Dem_Debounce.c: monitor-internal debouncing, which passes reports through, and the extension hook.
- Dem_NvM.c: the data of the blocks.
- Dem_Filter_impl.c: everything but the filter; severity reports (0x07) and freeze-frame filters.
- Calls before initialisation, which all of these refuse, and development error reports.
