# erlylua NIF bridge — a verified Dafny model

erlylua exposes the Lua 5.3 C API to Erlang through one native library,
`c_src/erlylua_nif.c`. Most of its entry points forward a call to a Lua
primitive and wrap the answer in an Erlang term. This project models the
logic the bridge adds around those primitives and proves what it promises:

- the growable buffer `lua_writer` fills while `lua_dump` serializes a
  function, and how `nif_dump` turns it into a binary (`writer.dfy`,
  `calls.dfy`);
- the life cycle of a VM handle: the two-stage `GET_RESOURCE` check,
  `nif_newstate` and `nif_close` (`nif.dfy`);
- how `nif_pcall`, `nif_loadbuffer`, `nif_loadfile` and `nif_dump` turn a
  Lua status into a reply, and when they pop the error message
  (`calls.dfy`);
- `typename`, the table and userdata guards in front of the get/set entry
  points, the conversion entry points and their error paths, pushing
  strings and integers, and the `gc` reply (`marshal.dfy`, `facade.dfy`).

The Lua VM stays a black box. Its stack is a sequence of abstract tagged
values (`LuaApi.LuaValue`) addressed by Lua's index rules, and every
primitive whose result depends on Lua's internals — `lua_pcall`, the
loaders, `lua_gettable` and friends, the serializer behind `lua_dump`,
string/number coercions — is a function-typed parameter of the operation
that calls it. Metatables have no parameter of their own: they act only
inside the table primitives' parameter. The collector is not a function:
the `gc` request carries the integer `lua_gc` returned as a plain value.
Allocation outcomes (`malloc`, `realloc`, `enif_alloc_binary`,
`luaL_newstate`) are boolean parameters.

State the C code changes in place is modelled imperatively: `Writer` is a
class over an `array<byte>` with `cur` and `size`; a handle is a
`Resource` object whose `lua` and `L` fields `Close` clears; a Lua thread is
a `LuaState` whose stack the entry points reassign and `Pop` shortens.

Writer growth is additive: after the first allocation of `max(chunk, 512)`
bytes, a chunk that does not fit grows the capacity by the shortfall or by
512 bytes, whichever is larger. It is not geometric. The proved invariant is
`cur <= size <= cur + 512` after every successful write.

## Model

| member | source | states |
|---|---|---|
| LuaApi.LuaState.Pop | c_src/erlylua_nif.c:659 | `lua_pop(L, n)` removes exactly the top `n` values and keeps the rest in order |
| Nif.NifError | c_src/erlylua_nif.c:43-61 | an error reply is `{error, Msg}` whose second element is exactly the message, as a character list |
| Nif.Validate | c_src/erlylua_nif.c:37-40 | argc 0 or a non-handle gives "First argument is not a Lua VM instance" before liveness is looked at; a handle with either pointer null gives "Lua VM is not initialized"; only a handle with both pointers set is accepted |
| Nif.NewState | c_src/erlylua_nif.c:84-97 | a failed `luaL_newstate` gives "Could not initialize the Lua VM"; otherwise a fresh live handle whose thread has an empty stack, and whose main stack keeps what the library loaders left with the new thread pushed on top |
| Nif.Close | c_src/erlylua_nif.c:99-106 | a rejected handle gets the validation reply and is untouched; a live one answers `ok`, its VM is closed, both pointers are null and the handle is released; every handle stays live or dead |
| Nif.Apply | c_src/erlylua_nif.c:37-40 | a rejected handle gets the validation reply and its thread is untouched; an accepted one gets exactly the operation's reply and stack |
| Nif.CloseTwice | c_src/erlylua_nif.c:99-106 | closing a fresh handle answers `ok`; closing it again answers "Lua VM is not initialized" |
| BytecodeWriter.Capacity | c_src/erlylua_nif.c:716-727 | the first write sets capacity to at least the chunk and at least 512 and no more than chunk + 512; later the capacity is unchanged exactly when the chunk fits and otherwise grows by at least 512; the chunk always fits afterwards |
| BytecodeWriter.Grow | c_src/erlylua_nif.c:717-730 | a successful write advances the cursor by the chunk size, keeps `cur <= size`, never shrinks the capacity and keeps at most 512 bytes free |
| BytecodeWriter.ShapeAfter | c_src/erlylua_nif.c:714-732 | after any sequence of successful writes from `{NULL,0,0}`, `cur` is the total length written, `cur <= size <= cur + 512`, storage exists iff something was written and then `size >= 512` |
| BytecodeWriter.AppendChunk | c_src/erlylua_nif.c:729-730 | one more successful write appends its chunk to the contents and applies one growth step |
| BytecodeWriter.CapacityMonotone | c_src/erlylua_nif.c:722-725 | the capacity never decreases over a run of successful writes |
| BytecodeWriter.ConcatPrefix | c_src/erlylua_nif.c:729 | the contents after any prefix of the writes are a prefix of the final contents: earlier bytes are never overwritten |
| BytecodeWriter.Realloc | c_src/erlylua_nif.c:725 | a grown block keeps every byte of the old one |
| BytecodeWriter.CopyAt | c_src/erlylua_nif.c:729 | copying at the cursor keeps the bytes before it and places the chunk right after |
| BytecodeWriter.Writer.constructor | c_src/erlylua_nif.c:737 | the writer starts as `{NULL, 0, 0}` with nothing written |
| BytecodeWriter.Writer.Written | c_src/erlylua_nif.c:744-745 | `bin[0..cur)` is the concatenation of all chunks in call order, empty when nothing was allocated |
| BytecodeWriter.Writer.Reserve | c_src/erlylua_nif.c:716-727 | sets the capacity before allocating; fails with 1 exactly when an allocation was needed and refused, dropping the storage; otherwise the chunk fits and the written bytes are kept |
| BytecodeWriter.Writer.Write | c_src/erlylua_nif.c:714-732 | answers 0 or 1, 1 exactly when a needed allocation failed; on 0 the contents are the old contents followed by the chunk and `cur` advances by its size, and the buffer invariant holds |
| BytecodeWriter.Writer.Free | c_src/erlylua_nif.c:756 | the writer holds no storage afterwards |
| BytecodeWriter.Serialize | c_src/erlylua_nif.c:742 | the dump status is 0 exactly when every allocation the writes needed was granted; then the buffer holds the concatenation of all chunks and its shape is `ShapeAfter`; on 1 the storage is gone |
| LuaApi.CString | c_src/erlylua_nif.c:70 | the `char *` view of a byte string is its longest zero-free prefix: it holds no zero, is the whole string when there is none, and otherwise stops at the first zero |
| Marshal.OkType | c_src/erlylua_nif.c:234-237 | `{ok, Atom}` naming the type, "none" exactly for LUA_TNONE and Lua's own name otherwise |
| Marshal.TypeError | c_src/erlylua_nif.c:257 | the error a failed guard or conversion answers: `{error, "none"}` for an index holding nothing, otherwise `{error, Name}` of the value's type |
| Marshal.TypeName | c_src/erlylua_nif.c:230-232 | "none" exactly for LUA_TNONE, Lua's own name for every other type |
| Marshal.DecodeString | c_src/erlylua_nif.c:63-76 | succeeds exactly for a binary whose copy could be allocated, and yields its bytes |
| Marshal.TypeReply | c_src/erlylua_nif.c:239-245 | `{ok, none}` for an index holding nothing, otherwise `{ok, Name}` of the value's type |
| Marshal.ToNumberReply | c_src/erlylua_nif.c:247-259 | `{ok, Number}` when `lua_tonumberx` converts, otherwise the type error |
| Marshal.Narrow32 | c_src/erlylua_nif.c:269 | passing a `lua_Integer` as `int` keeps it modulo 2^32 and is the identity inside the `int` range |
| Marshal.ToIntegerReply | c_src/erlylua_nif.c:261-273 | as written: `{ok, N}` with `N` the converted integer narrowed to `int`, otherwise the type error |
| Marshal.ToIntegerReplyWide | c_src/erlylua_nif.c:261-273 | corrected: `{ok, N}` with the full 64-bit integer, otherwise the type error |
| Marshal.ToStringStep | c_src/erlylua_nif.c:284-299 | a string is returned byte for byte, zeros included; a number is converted to its numeral in place and returned; a failed copy answers "string"; any other value gets the type error with the stack unchanged |
| Marshal.ToUserdataReply | c_src/erlylua_nif.c:301-319 | a non-userdata slot gets the type error; on userdata the reply is `{ok, Block}` exactly for a non-empty full userdata whose copy succeeds, `{error, null}` otherwise |
| Marshal.PushStringStep | c_src/erlylua_nif.c:373-385 | a decodable binary is pushed as a string of exactly its bytes; otherwise `{error, null}` and the stack is unchanged |
| Marshal.PushIntegerStep | c_src/erlylua_nif.c:355-362 | answers `ok` and grows the stack by one value, the `int` as a Lua integer on top, keeping everything below |
| Marshal.GcReply | c_src/erlylua_nif.c:767-779 | plain `ok` exactly for STOP, RESTART, COLLECT and STEP; `{ok, Bool}` for ISRUNNING; `{ok, N}` with `N` the collector's answer for every other option, known or not |
| Marshal.PushStringThenToString | c_src/erlylua_nif.c:373-385 | pushing a binary and reading the top back with tostring returns the same bytes |
| Marshal.PushIntegerThenToInteger | c_src/erlylua_nif.c:355-362 | pushing an `int` and reading the top back with tointeger returns it |
| Marshal.NonNumericConversions | c_src/erlylua_nif.c:253-272 | a value that is neither number nor string makes tonumber and tointeger answer its type name |
| Marshal.ToIntegerWrapsAbove32Bits | c_src/erlylua_nif.c:269 | the Lua integer 2^32 comes back from tointeger as `{ok, 0}`; the 64-bit reply keeps it |
| Marshal.ToIntegerWideIsExact | c_src/erlylua_nif.c:261-273 | the 64-bit reply returns every Lua integer unchanged |
| Facade.Admits | c_src/erlylua_nif.c:415 | the table entry points accept exactly a table; getuservalue and setuservalue (lines 526 and 636) exactly full or light userdata; an empty index never passes |
| Facade.KeyFailure | c_src/erlylua_nif.c:436 | an undecodable key gives getfield the error "Could not get binary from the third argument" and setfield (line 574) `{error, null}` |
| Facade.CallFor | c_src/erlylua_nif.c:423-441 | only getfield and setfield can fail to build their call, exactly when the key does not decode; the key reaches Lua as a C string |
| Facade.GuardedStep | c_src/erlylua_nif.c:410-482 | a slot the entry point does not accept gets the type error and the stack is unchanged; an undecodable key gets its key error; otherwise getters answer `{ok, Type}` of what the VM pushed and setters `ok`, with the VM's stack |
| Facade.RejectedSlotNeverReachesVm | c_src/erlylua_nif.c:415-420 | on a slot that fails the guard every VM gives the same reply, an error with a type name, and the stack is unchanged |
| Facade.NonTableSlotsNamed | c_src/erlylua_nif.c:553-558 | a table entry point on a number answers `{error, "number"}`, on an empty index `{error, "none"}` |
| Facade.GuardBeforeKey | c_src/erlylua_nif.c:561-579 | getfield and setfield check the slot before decoding the key: a non-table slot is reported whatever the key |
| Facade.LightUserdataPassesUservalueGuard | c_src/erlylua_nif.c:521-532 | a light userdata passes the `lua_isuserdata` guard and reaches the VM |
| Facade.Run | c_src/erlylua_nif.c:239-385 | type, tonumber, tointeger, touserdata and gc leave the stack alone; a push grows it by one value on `ok` and leaves it unchanged otherwise; tointeger uses the corrected 64-bit reply (see Findings) |
| Facade.Invoke | c_src/erlylua_nif.c:37-40 | every modelled one-step entry point runs only behind a handle that passes validation |
| Calls.ErrorMessage | c_src/erlylua_nif.c:658 | the message reported is as long as the top value's text (a number's numeral) up to its first zero byte, holds no zero, carries each byte as the Latin-1 character of the same code, and a shorter message stops at a zero byte |
| Calls.FailureStep | c_src/erlylua_nif.c:677-682 | always `{error, _}`; pops exactly one value exactly when a string or number is on top, reporting its text; otherwise reports the status and leaves the stack unchanged |
| Calls.LoadReply | c_src/erlylua_nif.c:675-682 | `ok` exactly for LUA_OK; the stack loses one value exactly when a failure leaves a string on top, and is otherwise unchanged |
| Calls.PcallReply | c_src/erlylua_nif.c:653-663 | as written: `ok` exactly for LUA_OK; every other status answers `null`, and the stack is never popped |
| Calls.PcallReplyIntended | c_src/erlylua_nif.c:653-663 | corrected: `ok` for LUA_OK, `null` for LUA_YIELD, and every other status is classified like a load failure |
| Calls.PcallFailureIsAlwaysNull | c_src/erlylua_nif.c:655-656 | as written a failed pcall answers `null` with the stack unchanged, the same reply as a yield |
| Calls.PcallLosesRuntimeError | c_src/erlylua_nif.c:655-659 | a runtime error with "boom" on top answers `null` and leaves "boom" as written; the corrected version answers `{error, "boom"}` and pops it |
| Calls.PcallIntendedPopsOnlyTheMessage | c_src/erlylua_nif.c:657-661 | corrected pcall failures pop exactly the message they report and nothing when they report the status |
| Calls.ChunkName | c_src/erlylua_nif.c:674 | an empty name binary is passed as NULL; any other as a zero-free prefix of its bytes that, when shorter, stops at a zero byte |
| Calls.ReportFailure | c_src/erlylua_nif.c:750-755 | the imperative failure tail gives the reply and stack of `FailureStep` |
| Calls.PCall | c_src/erlylua_nif.c:644-664 | behind validation, the reply and stack are the corrected classification (see Findings) of what `lua_pcall` returned: `ok`, `null` for a yield, or the shared failure classification |
| Calls.LoadBuffer | c_src/erlylua_nif.c:666-689 | behind validation, an undecodable chunk or name answers `{error, null}` with the stack unchanged; otherwise the loader gets the exact chunk bytes and the chunk name, and its status is classified |
| Calls.LoadFile | c_src/erlylua_nif.c:691-712 | behind validation, an undecodable path answers `{error, null}`; otherwise the loader gets the path as a C string and its status is classified |
| Calls.DumpStatus | c_src/erlylua_nif.c:742 | the dump status is 1 whenever the top of the stack is not a Lua function |
| Calls.DumpReply | c_src/erlylua_nif.c:743-755 | on status 0 the reply is `{ok, Payload}`, or `{error, null}` when the binary cannot be allocated, with the stack unchanged; any other status takes the shared failure classification |
| Calls.DumpOfStringPopsIt | c_src/erlylua_nif.c:750-752 | dumping with a string on top reports that string as the error and pops it |
| Calls.Dump | c_src/erlylua_nif.c:734-758 | behind validation, the payload is exactly the concatenation of the serializer's chunks (empty when there were none) and the reply and stack follow `DumpReply`; the writer holds no storage at the end |

## Left out

- Lua VM semantics: `lua_pcall`, `luaL_loadbuffer`, `luaL_loadfile`, `lua_dump`'s serializer and the table primitives are foreign code; each is a function-typed parameter giving a status or a type tag together with a new stack (the serializer gives the blocks it writes). Metatables are reached only inside the table primitives' parameter and are not modelled on their own. The collector's integer answer is a plain value of the `gc` request.
- The thin forwarders, each one Lua call whose answer is wrapped without further logic: `settop`, `pushvalue`, `rotate`, `copy`, `pushnil`, `pushboolean`, `createtable`, `concat` and `len` answer `ok`; `checkstack`, the `is*` predicates, `toboolean`, `rawequal`, `compare`, `getmetatable`, `setmetatable` and `next` answer `{ok, Bool}`; `absindex`, `gettop` and `rawlen` answer `{ok, Int}`.
- `getglobal` and `setglobal` decode the name like `getfield`/`setfield` but without a guard: `getglobal` answers `{ok, Type}` or `{error, null}` for an undecodable name, `setglobal` `ok` or `{error, null}`.
- `newuserdata` copies a binary into a new full userdata and answers `ok`, "Not enough memory" when Lua returns no block, or "Could not get binary" for a non-binary argument.
- Erlang NIF plumbing: term construction, the resource type registered at c_src/erlylua_nif.c:78-82 and the dispatch table at c_src/erlylua_nif.c:817-877.
- Nif.NifError: the message is used as a `vsnprintf` format, which is a defect in the source: a Lua error message containing `%s` or `%n` (passed as the format at c_src/erlylua_nif.c:658, 678, 703 and 751) makes `vsnprintf` read or write through arguments that were never passed. The model covers messages without directives and does not reproduce that undefined behaviour. The store `buf[size] = '0'` at c_src/erlylua_nif.c:53 is a second defect: it writes one byte past the `size`-byte buffer (and writes the character `'0'`, not a terminator); it is not modelled, nor is the failed-malloc reply `{error, null}`.
- Floating point: `nif_version`, `nif_pushnumber` and the value of the double `tonumber` returns; floats are kept as 64-bit patterns only.
- `nif_error`: `lua_error` long-jumps out and never returns.
- File reading inside `luaL_loadfile` is I/O; the loader oracle receives only the path.
- Unchecked `enif_get_int` results: an argument that is not an integer leaves the C variable uninitialised; the model takes every integer argument as a valid `int`.
- Pseudo-indices such as the registry index: `Slot` treats every index outside `1..n` and `-n..-1` as holding nothing.
- `enif_alloc_resource` is taken to succeed, and the resource type has no destructor, so a handle never closed keeps its VM; the model has no garbage collection of handles.
- BytecodeWriter.Writer.Reserve: a failed `realloc` leaves the old block allocated and unreachable in C; the model drops the storage (`bin := null`) and does not model the leak.
- BytecodeWriter.Capacity: sizes are unbounded integers; `size_t` overflow of `size + max(...)` and the `int` type of `avail` are not modelled.
- Calls.DumpStatus: the serializer is an oracle giving the non-empty blocks `lua_dump` hands to the writer; `lua_dump` on an empty stack is treated as a non-function top.
- Calls.ErrorMessage: `nif_niferror` receives a C string, so text after a zero byte in the Lua message is dropped; the model states this but not the `%`-directive defect noted under `Nif.NifError`.
- Calls.PCall: follows the corrected reply `PcallReplyIntended`, so a failure with a message on top answers `{error, Msg}` and pops it; the code as written answers `null` and pops nothing, which `Calls.PcallReply` models.
- Facade.Run: its tointeger request follows the corrected 64-bit reply `Marshal.ToIntegerReplyWide`; the code as written narrows to `int` (2^32 answers `{ok, 0}`), which `Marshal.ToIntegerReply` models.
- Concurrency: calls on one handle are not serialised by the bridge, and the model treats them one at a time.

## Findings

| source | as written | input that shows it | evidently intended | confidence | as-written member | corrected member |
|---|---|---|---|---|---|---|
| c_src/erlylua_nif.c:655 | `else if(LUA_YIELD)` tests a non-zero constant, so every failed pcall answers `null` (line 34 spells the yield atom `null`) and never pops the error message | `lua_pcall` returns LUA_ERRRUN with the string "boom" on top: reply `null`, "boom" left on the stack | compare the status with LUA_YIELD, so failures report `{error, Msg}` and pop it, like the loaders | high, not executed | Calls.PcallLosesRuntimeError | Calls.PcallReplyIntended |
| c_src/erlylua_nif.c:269 | the `lua_Integer` from `lua_tointegerx` is passed to `enif_make_int`, which takes an `int`, keeping only the low 32 bits | the Lua integer 4294967296 (2^32) on top: reply `{ok, 0}` | return the full 64-bit integer (`enif_make_int64`) | high, not executed | Marshal.ToIntegerWrapsAbove32Bits | Marshal.ToIntegerWideIsExact |
