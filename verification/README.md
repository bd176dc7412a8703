# A verified model of ffi-bridge

ffi-bridge carries byte buffers, strings, results and named callbacks between Go and Rust. This
project models its two hard parts and proves what holds over whole runs of them.

**Ownership across the boundary.** `FfiBuffer`, `FfiString` and `FfiResult` are plain structs over
raw pointers; nothing in their types says who frees what. `Memory.dfy` gives them an explicit heap of
numbered blocks. A use of memory that the allocator does not permit (a second free, a free with
another size than the block was allocated with, a read or write outside live initialised bytes, a
layout above `isize::MAX`) raises a `fault` flag that never goes away, so "safe" means that a run ends
without a fault. On top of it stand results and the panic boundary (`Results.dfy`),
`ffi_invoke_callback` (`Invoke.dfy`), Go's `Buffer` (`GoBuffer.dfy`) and Go's call path
(`GoCalls.dfy`). `GoRuns.dfy` and `CClient.dfy` prove safety and an exact ledger of live blocks for
every run of a Go client and of a C client; `HandOver.dfy` and `TypedCalls.dfy` prove that what is
sent arrives; `Frames.dfy` proves that what is held stays as it is; `Leaks.dfy` and `Lifetimes.dfy`
prove where memory is lost and where it is used too late.

**The callback registry.** A mutex around a map, poisoned by a callback that panics while the lock is
held. `Registry.dfy` is one call at a time, `History.dfy` the sequential machine and what its states
mean in terms of the calls made, `Protocol.dfy` any number of threads step by step, `Closures.dfy` how
the closures of a run end, `Concurrency.dfy` linearizability, quiescence and poison, `Progress.dfy`
termination and the re-entry deadlock.

**Names and strings.** `Utf8.dfy` is the byte grammar of section 4 of RFC 3629, proved to accept
exactly the encodings of section 3; `Names.dfy` is how a Go string becomes a registry key;
`Machine.dfy` is the narrowing of `size_t` to C's `int` in every Go read.

State that the program changes in place is held in classes (`Memory.Allocator`, `GoBuffer.Buffer`,
`Registry.CallbackRegistry`); each method is tied to a function of the old state, and the theorems are
about those functions.

## Assumptions

- Panics unwind. The release profile of the crate (`rust/Cargo.toml:36`) sets `panic = "abort"`, under
  which no panic is ever converted; the model is of the unwinding profile.
- A callback borrows its input: it frees no block that an unfreed Go `Buffer` (or open C handle) owns,
  its payload is null, fresh or an alias of a live block, and is readable for its length. This is
  `GoRuns.Obeys`; `EchoObeys` and `IdentityObeys` show callbacks that meet it.
- In runs, a `Buffer` passed to `InvokeCallback` is not freed, and a `Buffer` stays reachable while
  `Bytes` or `InvokeCallback` uses the struct it loaded: finalizers run between operations. The code
  does not enforce either; `Lifetimes.dfy` states exactly what goes wrong without them.
- Closure destructors do not panic, and no call is made from a thread that is already unwinding; a
  panic of either kind would poison the lock in another way.
- A thread that locks a mutex it already holds blocks; the Rust documentation also allows a panic.

## Where the code and its documentation differ

The model follows the code in each case.

- `go/errors.go:74-76` and `go/errors.go:93` say that `CheckResult` frees the original payload. It
  clears the payload field of its copy first, and a null buffer frees nothing
  (`rust/src/memory.rs:138`), so a payload that owns a block stays live. `FreesAllMemoryIff` is the
  exact condition and the ledger counts these blocks as orphans. `EchoLosesPayload` is the witness:
  each successful echo of a non-empty message loses one block. `EchoesLeak` and `LeakHasNoBound` carry
  it over whole runs: clients that free every buffer they were given hold any number of blocks.
- `go/bridge.go:141-145` asks only that the result of `raw` is not freed. `InvokeCallback` does not look
  at the `freed` flag, and nothing keeps a `Buffer` alive after its struct was loaded.
  `EchoOfOwnerFaultsIff`, `LoadedInputFaultsIff` and `LoadedCopyFaultsIff` say exactly when a dead block
  is then read, and `DeadBufferWitness` gives the inputs.
- `rust/src/errors.rs:10-11` says that every exported function runs inside `catch_panic`. Only
  `ffi_invoke_callback` and `ffi_echo` do; the allocation of `SmallestFailure` is a panic outside it.
- `rust/src/callback.rs:14-16` says that every operation on a poisoned registry reports it. The count
  is 0 instead, and a call with a bad name is rejected before the lock is looked at.
- `shared/ffi.h:83` says that a failed allocation gives a zeroed buffer; the code panics
  (`rust/src/memory.rs:70-76`). `AllocFailsIff` says for which sizes, and `SmallestFailure` names the
  smallest one.
- A read of 2^31 bytes or more is not a full read: its length is narrowed to a signed 32-bit number,
  and a negative length is a Go run-time panic. The model carries that panic as an outcome.

## Model

| member | source | states |
|---|---|---|
| Machine.CIntExact | go/bridge.go:106 | the length Go reads is the true length exactly below 2^31, otherwise off by whole multiples of 2^32, and negative from 2^31 up to 2^32 |
| Utf8.ValidIffEncoded | rust/src/memory.rs:249 | the validity check accepts exactly the encodings of sequences of Unicode scalar values |
| Utf8.ValidSplitsAtNul | rust/src/types.rs:78-86 | a text with a zero byte is valid exactly when the parts before and after it are: no multi-byte character contains a zero byte |
| Names.LookupIsPrefix | rust/src/types.rs:78-86 | the name looked up is the longest NUL-free prefix of the Go string, rejected exactly when that prefix is not UTF-8 |
| Names.SameEntryIff | go/callback.go:29-37 | two Go names reach the same entry exactly when they agree up to their first NUL |
| Names.ValidNamesAreAccepted | go/callback.go:29-37 | a Go string is valid UTF-8 exactly when its name is accepted and the rest after the NUL is valid, so valid strings are never rejected |
| Names.InvalidStringAccepted | rust/src/types.rs:82-85 | a string that is not UTF-8 can still name an entry: bytes after the NUL are not looked at |
| Errors.ErrorNumbers | rust/src/errors.rs:23-66 | the number under which each error crosses the boundary, error by error |
| Errors.TextIdentifiesError | rust/src/errors.rs:69-83 | the text of an error determines its kind and its detail, so nothing of it is lost on the way |
| Errors.CodeNamesDiffer | rust/src/errors.rs:22-33 | the name of a code, as written into a text, determines the code |
| Registry.RejectedIff | rust/src/types.rs:78-86 | a C name is turned away exactly if it is null or not UTF-8 up to its first NUL |
| Registry.RejectedAnswers | rust/src/callback.rs:85-166 | with a bad name every table stays as it is, poisoned or not: -1 from register and unregister; from invoke code 1 for a null name and 3 for invalid UTF-8 |
| Registry.RegisterStatus | rust/src/callback.rs:81-97 | each status of `ffi_register_callback` holds in exactly one case, and 0 means that this name and no other has a new entry |
| Registry.UnregisterStatus | rust/src/callback.rs:151-166 | 0 exactly if the name was registered and is now gone, -2 exactly for a good name on a poisoned lock, -1 otherwise |
| Registry.RustRegisterAnswers | rust/src/callback.rs:45-65 | `register_callback` gives the very name it is passed a new registration; the count is the number of entries, 0 if poisoned |
| Registry.RustUnregisterAnswers | rust/src/callback.rs:57-60 | `unregister_callback` takes away that name only and says whether it was there; a poisoned table stays as it is |
| Registry.InvokeRunsEntry | rust/src/callback.rs:110-124 | an invoke runs a closure exactly if the lock is healthy, the name is good, and the closure is the entry under its NUL-free prefix |
| Memory.Allocator.NewBuffer | rust/src/memory.rs:66-82 | in place, `FfiBuffer::new` adds one block of exactly the capacity, with no initialised byte; zero capacity allocates nothing |
| Memory.Allocator.BufferFromVec | rust/src/memory.rs:88-97 | in place, `from_vec` hands over a block of the vector's capacity, or a dangling pointer with capacity 0 |
| Memory.Allocator.FreeBuffer | rust/src/memory.rs:137-143 | in place, buffers are freed by capacity; null or zero capacity frees nothing |
| Memory.Allocator.NewString | rust/src/memory.rs:192-207 | in place, a string block is exactly as long as its text |
| Memory.Allocator.AllocString | rust/src/memory.rs:244-254 | in place, null, empty or non-UTF-8 input gives the null string and allocates nothing |
| Memory.Allocator.FreeString | rust/src/memory.rs:227-233 | in place, strings are freed by length |
| Ownership.Conservation | rust/src/memory.rs:72-143 | in every sound heap, allocations = frees + live blocks |
| Ownership.ReleaseEffect | rust/src/memory.rs:137-143 | a permitted free ends the life of exactly the block it owns, counts once, and leaves every other block as it was, bytes included |
| Ownership.CopyInTouchesOne | go/bridge.go:80-87 | a write replaces exactly the bytes it covers, in its own block only |
| Ownership.FreeFaultsIff | rust/src/memory.rs:137-143 | a free goes wrong exactly when the block is not live or was allocated with another size |
| Ownership.AllocFailsIff | rust/src/memory.rs:66-82 | `ffi_buffer_alloc` fails exactly above the layout limit and is null exactly for capacity 0, so the promise of a zeroed buffer on failure holds exactly up to the limit |
| Ownership.SmallestFailure | shared/ffi.h:83 | a request of one byte above the limit fails without a zeroed buffer; at the limit it does not fail |
| Ownership.SecondFreeFaults | rust/src/memory.rs:134-136 | freeing the same block a second time always goes wrong |
| Results.FreeResult | rust/src/errors.rs:149-155 | in place, message then payload are freed |
| Results.CatchUnwind | rust/src/errors.rs:176-192 | in place, a value, an error and a panic each become a result |
| Invoke.FfiInvokeCallback | rust/src/callback.rs:110-139 | in place, what each path leaves in heap, registry and result: a rejected name, a poisoned lock, an unknown name, and a closure that panics, fails or succeeds |
| Invoke.ResultShape | rust/src/callback.rs:117-138 | whatever the closure returns, success carries its payload and no message, failure a new message and no payload |
| Invoke.FailureMessage | rust/src/errors.rs:124-131 | the message of a failure is a new, non-empty block that holds exactly the error's text |
| Invoke.InvokeFollowsRegistry | rust/src/callback.rs:117-138 | the invoke's table and code are those of the lock protocol: 0, 5, 7, 8, 99 or a rejected name |
| Invoke.BridgeNeverPoisons | rust/src/bridge.rs:42-48 | a handler run by `BridgeCall` never poisons the registry; its failure or panic is code 99 to the caller |
| Invoke.CallbackErrorText | rust/src/callback.rs:133-136 | the report of a failing callback mentions its name, ends with its code, and tells codes apart |
| Registry.CallbackRegistry.RegisterCallback | rust/src/callback.rs:45-52 | in place, register replaces the entry, or reports poison |
| Registry.CallbackRegistry.UnregisterCallback | rust/src/callback.rs:57-60 | in place, unregister removes the entry and says whether there was one |
| Registry.CallbackRegistry.CallbackCount | rust/src/callback.rs:63-65 | the number of entries, or 0 when poisoned |
| Registry.CallbackRegistry.FfiRegisterCallback | rust/src/callback.rs:81-97 | in place, 0, -1 for a bad name, -2 for poison |
| Registry.CallbackRegistry.FfiUnregisterCallback | rust/src/callback.rs:151-166 | in place, 0, -1 for a bad or unknown name, -2 for poison |
| History.HistoryDecidesAnswers | rust/src/callback.rs:45-65 | in an unpoisoned history, count is the number of names last registered; invoke runs the closure registered last and answers 7 exactly when there is none |
| History.PoisonHasOneCause | rust/src/callback.rs:117-138 | the sequential machine is poisoned exactly when some call was answered with code 5 |
| History.OnePanic | rust/src/callback.rs:117-138 | at most one call is ever answered with code 5 |
| History.PoisonedForever | rust/src/callback.rs:14-16 | a poisoned table is frozen and every later call gets its poisoned answer |
| Protocol.StepKeepsInv | rust/src/callback.rs:117-138 | every step of every thread keeps the link between the concurrent state and the sequential replay of the lock order |
| Closures.ClosureEnds | rust/src/callback.rs:117-138 | a running closure may return, fail or panic; its call then ends with code 0, 99 or 5, gives the lock back, and poisons it exactly after a panic |
| Closures.InvokeRuns | rust/src/callback.rs:110-139 | from any state with a free lock an invoke of a registered name has a run to each of these ends, so all of them are reachable |
| Closures.ExitsAreReal | rust/src/callback.rs:117-138 | each completed call ran a closure exactly if the sequential machine runs one at its place, it ran that one, and the recorded exit is that of its own `Finish` event |
| Concurrency.Linearizable | rust/src/callback.rs:45-166 | in every interleaving each finished call has the answer of the sequential machine run in lock-acquisition order, a free lock guards the table that machine ends with, and the machine runs exactly the closures that the threads ran, ending as their own `Finish` events say |
| Concurrency.RealTimeOrder | rust/src/callback.rs:45-166 | a call that was over before another began precedes it in that order |
| Concurrency.UnregisterIsQuiescent | rust/src/callback.rs:57-60 | once unregister has reported a removal, no thread is inside that closure, now or at any later point of the run |
| Concurrency.TableFrozenDuringCallback | rust/src/callback.rs:118-124 | while a thread is inside a closure, no run of the other threads changes the table or takes the lock |
| Concurrency.PoisonCause | rust/src/callback.rs:117-138 | in every run the flag is set exactly when some finished call reported a panicking callback, and exactly when the closure of some finished call did panic |
| Concurrency.PanicIsReported | rust/src/callback.rs:117-138 | a finished call reports code 5 exactly if its own closure panicked |
| Concurrency.PoisonIsFinal | rust/src/callback.rs:49-118 | from then on the table never changes and every call is turned away: `LockPoisoned`, -2, code 8, or count 0 |
| Progress.NoDeadlock | rust/src/callback.rs:118-124 | without re-entry, unfinished work always has an enabled step |
| Progress.BlockedIff | rust/src/callback.rs:118-124 | a thread with a call to make is stuck exactly while its closure has re-entered the registry, or while it waits and another thread is in the lock |
| Progress.RunsFinish | rust/src/callback.rs:118-124 | without re-entry no run is longer than five steps a call, and a run that cannot go on has finished every call |
| Progress.ReentryIsFatal | rust/src/callback.rs:118-124 | after a closure re-enters the registry on its own thread, no thread ever takes the lock again |
| GoBuffer.Buffer.OfBytes | go/bridge.go:78-89 | in place, `FromBytes` allocates, copies and sets the length |
| GoBuffer.Buffer.Bytes | go/bridge.go:102-107 | in place, nil when freed or empty, otherwise the narrowed read |
| GoBuffer.Buffer.Free | go/bridge.go:133-139 | in place, the first free releases the Rust buffer and clears the finalizer |
| GoBuffer.CopyOf | go/memory.go:62-68 | in place, a copy of the raw buffer in a new owner |
| GoBuffer.FreedOnce | go/bridge.go:66-139 | any sequence of frees and finalizer events frees the Rust buffer once, exactly once if not empty, and every later read sees an empty buffer |
| GoCalls.CheckResultInPlace | go/errors.go:82-101 | in place, copy, clear, free in the order of the code |
| GoCalls.InvokeCallbackInPlace | go/callback.go:28-39 | in place, the call path from name to checked result |
| GoCalls.InvokeCallbackJson | go/callback.go:44-65 | in place, the typed call with its deferred frees on every return path |
| GoRuns.InvokeEffect | go/callback.go:28-39 | an invoke keeps the borrowed blocks, delivers an owner of new blocks only, and changes the live blocks by exactly what is delivered and what is lost |
| GoRuns.RunIsSafe | go/bridge.go:66-145 | over every run of a Go client, finalizers between any two operations and aliasing payloads included, there is no fault and unfreed owners own disjoint live blocks |
| GoRuns.RunIsAccounted | go/errors.go:93-100 | over every run with tidy callbacks, live blocks = those of unfreed owners + recorded orphans, and allocations = frees + owned + orphans |
| HandOver.BytesRoundTrip | go/bridge.go:78-107 | `FromBytes(d).Bytes()` is d exactly for 0 < len < 2^31, and what it is otherwise |
| HandOver.JsonOfBytes | go/bridge.go:110-124 | `ToJSON` of a buffer made of d decodes exactly d for 0 < len < 2^31, reports malformed bytes and empty buffers apart, and `Len` is the length of d |
| HandOver.EchoRoundTrip | rust/src/callback.rs:192-195 | bytes sent to a registered echo closure come back through both copies, all of them exactly for 0 < len < 2^31 |
| HandOver.EchoReturnsInput | rust/src/bridge.rs:80-86 | `ffi_echo` succeeds with a payload of its own that holds exactly the bytes of the input, and changes no block |
| HandOver.EchoObeys | rust/src/bridge.rs:80-86 | the echo closure keeps the callback contract and is tidy |
| HandOver.IdentityObeys | rust/src/callback.rs:222 | so does a closure that returns its own input |
| HandOver.EchoFaultsIff | rust/src/memory.rs:113-118 | a callback that reads its input goes wrong exactly when the struct is not null and its bytes are not live and initialised |
| HandOver.StringRoundTrip | go/memory.go:35-51 | a Go string survives the trip, NULs included, exactly when empty or valid UTF-8 below 2^31 bytes; invalid input becomes empty and allocates nothing |
| HandOver.RefusalRoundTrip | go/errors.go:83-91 | a failing call reaches Go with its code and whole text exactly when the text is below 2^31 bytes, and then adds no block to those live after the closure |
| HandOver.MissingNameReported | rust/src/callback.rs:120-122 | an unregistered name is reported with code 7 and a text that ends with the name that was looked up; no block is added or lost |
| HandOver.PanicReported | rust/src/errors.rs:183-190 | a panicking callback reaches Go as code 5 with the text of the panic, and poisons the registry with its entries in place |
| HandOver.ErrorReported | rust/src/callback.rs:132-137 | a failing callback reaches Go as code 99 whatever its own code, with a text that mentions its name and ends with that code |
| HandOver.FreesAllMemoryIff | go/errors.go:71-101 | `CheckResult` frees all memory of a result exactly when a failure's message is readable, or a success's payload owns no block |
| TypedCalls.JsonFreesItsOwners | go/callback.go:44-65 | whatever a callback that keeps its contract does, on every path each owner the typed call created is freed: none on marshal failure, one on call failure, two otherwise; there is no fault |
| TypedCalls.JsonLeavesOnlyLost | go/callback.go:44-65 | if the callback is tidy, a typed call adds to the live blocks exactly what the result lost |
| TypedCalls.TypedObeys | rust/src/bridge.rs:54-66 | a decode-handle-encode callback keeps the callback contract and is tidy, whatever its handler does, panics included |
| TypedCalls.TypedCall | go/callback.go:44-65 | a typed call end to end, for answers, refusals and panics of any length: the outcome Go sees, all created owners freed, no fault, an unchanged registry, and exactly one block left behind - none if the answer had no block, two if the report is too long to read |
| TypedCalls.TypedCallAnswers | go/callback.go:44-65 | if the codecs round-trip the values of the call, the response is the handler's answer |
| TypedCalls.TypedCallRefuses | rust/src/bridge.rs:54-66 | a typed callback succeeds exactly when it decodes, answers and encodes; otherwise the caller sees code 99 and the registry is not poisoned |
| TypedCalls.ResponseIsToJson | go/callback.go:57-63 | the typed call makes of its response exactly what `ToJSON` makes of it: a value, malformed bytes, nothing, or a panic |
| Leaks.EchoLosesPayload | go/errors.go:93-98 | an echo call of a non-empty message below 2^31 bytes succeeds and loses exactly the payload block of the echo |
| Leaks.EchoesLeak | go/errors.go:93-98 | a legal, tidy run of echo calls that frees every buffer it created ends with one more live block for each non-empty message |
| Leaks.LeakHasNoBound | go/errors.go:71-76 | for every n some run from an empty heap has freed every buffer it ever had and still holds n live blocks |
| Lifetimes.LoadedCopyFaultsIff | go/bridge.go:102-107 | whatever runs between the load of the struct in `Bytes` and the copy, the copy goes wrong exactly when the buffer is freed by then and there is a byte to copy |
| Lifetimes.LoadedInputFaultsIff | go/callback.go:32-37 | whatever runs between the load of the struct in `InvokeCallback` and the call, a callback that reads its input goes wrong exactly when the buffer is freed by then and not empty |
| Lifetimes.EchoOfOwnerFaultsIff | go/bridge.go:141-145 | an owner of a safe run can be passed to a callback that reads it without a fault exactly if it is unfreed or empty |
| Lifetimes.DeadBufferWitness | go/bridge.go:66-145 | for any short non-empty bytes, a buffer that `Free` or its finalizer frees after its struct was loaded, or before it is passed on, makes the read and the call go wrong |
| CClient.CRunIsSafe | shared/ffi.h:13-18 | over every run of a C client under all three ownership rules, payload extraction included, there is no fault, and each live block belongs to one open handle or was lost by a callback |
| CClient.TakePayloadStep | shared/ffi.h:17-18 | extracting a payload and zeroing the field moves the whole payload to a new buffer handle, leaves the result its code and message only, and keeps every invariant, the heap and all other handles |
| CClient.FreeItStep | shared/ffi.h:13-16 | the matching free ends exactly the blocks of its handle and keeps every invariant |
| CClient.LookFaultsIff | rust/src/memory.rs:113-118 | a read of a buffer or payload goes wrong exactly if it is not null and its bytes are not live and initialised |
| CClient.ZeroBeforeFree | shared/ffi.h:17-18 | without the zeroing, freeing result and extracted payload goes wrong exactly when the payload owns a block; with it, the two frees end all blocks of the result and no other |
| CClient.ZeroLeak | shared/ffi.h:13-18 | a run that has freed each handle ends with exactly the live blocks it began with if and only if no callback of the run lost a block |
| CClient.OkLosesNothing | rust/src/callback.rs:192-195 | any closure that allocates a payload, returns `ok` of it and keeps nothing else meets every rule of the discipline and loses no block |
| CClient.EchoLosesNothing | rust/src/bridge.rs:80-86 | the echo closure is one of these |
| CClient.AliasedPayloadFreedTwice | rust/src/callback.rs:222 | a C client that frees both a buffer and the result that aliases it goes wrong exactly when the buffer owns a block |
| Frames.InvokeSpares | go/callback.go:28-39 | an invoke changes no byte of any block that its closure spares |
| Frames.ReplySpares | rust/src/bridge.rs:54-86 | echo and typed closures spare every block |
| Frames.ContentsStay | go/bridge.go:102-139 | over every legal run, what `Bytes` and `Len` return for an owner that stays unfreed does not change, whatever else is made, freed, finalized or called, if the callbacks spare its block; once freed it reads as empty |
| Frames.MadeStaysReadable | go/bridge.go:78-107 | a buffer made of d reads as d after any such run, as far as Go can read it, until it is freed |
| Frames.NewIsEmpty | go/bridge.go:73-75 | `NewBuffer` adds one unfreed, empty owner with a new block of exactly the capacity, or with none for capacity 0 |
| Frames.RunReplaysCalls | rust/src/callback.rs:45-166 | over every run of a Go client the registry is where its calls, its own and those of other threads, bring the sequential machine |
| Frames.CRunReplaysCalls | rust/src/callback.rs:45-166 | the same over every run of a C client |
| Frames.HandleStays | shared/ffi.h:13-18 | over every run of a C client, a handle that no operation names keeps its struct and its blocks, byte for byte |
| Frames.FilledStaysReadable | shared/ffi.h:49-58 | what a C client writes into a buffer it reads back after any such run |
| Frames.AllocHandsOver | shared/ffi.h:83-84 | `ffi_buffer_alloc` hands over an empty buffer with a new block of exactly the capacity |
| Frames.StringHandsOver | shared/ffi.h:93-94 | `ffi_string_alloc` hands over a copy of valid text, or the null string |
| Frames.EchoHandsOver | rust/src/bridge.rs:80-86 | `ffi_echo` hands over a result that carries the bytes of the input |
| Frames.InvokeHandsOver | rust/src/callback.rs:110-139 | `ffi_invoke_callback` hands over a result whose code, like the new table, is that of the registry machine |

## Left out

- JSON: serde_json and encoding/json are parameters; only what they do to the values of one call is assumed.
- The allocator, out-of-memory, vector growth and hash maps: a heap of fresh blocks, any capacity not below the length, and a Dafny map.
- `once_cell` initialisation and memory ordering: taking and releasing the lock are single steps.
- The heap effects of several threads interleaved: heap runs are of one client, with the registry changing between its steps.
- Go's garbage collector: a finalizer is an event between the steps of a run, or between the load of a struct and its use; reachability itself is not modelled.
- The `malloc`ed copy of a name made by `C.CString`: it is not on the Rust heap and is freed on every path.
- Panics of exported functions that `catch_panic` does not surround: a capacity or length above `isize::MAX` or a negative Go capacity is excluded from runs.
- Message texts beyond what the proofs use: the detail of a UTF-8 error is a fixed text, and the two numbers of `BufferTooSmall` are taken as already written out.
- `Version` copies a constant string out of a buffer and frees it, `InspectBuffer` copies the fields of an owner, `BridgeValue` holds JSON in a buffer, `check_not_null` tests a pointer, and `ErrorCode.String` names a code: none of them has a state or an ownership question of its own.
