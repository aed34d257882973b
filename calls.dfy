/** The entry points that run, load or serialize Lua code: pcall, loadbuffer,
 *  loadfile and dump.
 *
 *  All four hand a status to the same classification: `ok` for success;
 *  otherwise `{error, Msg}` when the value on top of the stack is a string
 *  (or a number), popping exactly that value; otherwise `{error, Status}`
 *  with the stack untouched. pcall, as written, never reaches that last
 *  part (see PcallReply); PCall follows the corrected PcallReplyIntended.
 */
module Calls {
  import opened LuaApi
  import opened Nif
  import opened Marshal
  import opened BytecodeWriter

  /** The message nif_niferror receives from `lua_tostring(L, -1)`: the
   *  bytes up to the first zero, each read as one Latin-1 character. */
  function ErrorMessage(top: LuaValue, c: Coercions): (msg: string)
    requires IsStringValue(top)
    ensures |msg| <= |ToLString(top, c).value|
    ensures |msg| == |CString(ToLString(top, c).value)|
    ensures forall k :: 0 <= k < |msg| ==> msg[k] as int == ToLString(top, c).value[k] as int
    ensures forall k :: 0 <= k < |msg| ==> msg[k] != 0 as char
    ensures |msg| < |ToLString(top, c).value| ==> ToLString(top, c).value[|msg|] == 0
    ensures top.Str? && 0 !in top.bytes ==> msg == Latin1(top.bytes)
  {
    Latin1(CString(ToLString(top, c).value))
  }

  /** The failure branch shared by every entry point of this module. */
  function FailureStep(status: int, stack: seq<LuaValue>, c: Coercions): (r: Step)
    ensures r.0.Tuple2? && r.0.first == ErrorAtom
    ensures r.1 <= stack && |stack| - |r.1| <= 1
    ensures |r.1| < |stack| <==> StringOnTop(stack)
    ensures r.0.second.CharList? <==> StringOnTop(stack)
    ensures !StringOnTop(stack) ==> r.0.second == Int(status)
    ensures StringOnTop(stack) ==> r.0.second == CharList(ErrorMessage(stack[|stack| - 1], c))
  {
    if StringOnTop(stack) then
      (NifError(ErrorMessage(stack[|stack| - 1], c)), stack[..|stack| - 1])
    else
      (Tuple2(ErrorAtom, Int(status)), stack)
  }

  /** loadbuffer and loadfile, after the loader returned `status` and left
   *  `stack` behind. */
  function LoadReply(status: int, stack: seq<LuaValue>, c: Coercions): (r: Step)
    ensures r.0 == OkAtom <==> status == LUA_OK
    ensures r.0 != OkAtom ==> r.0.Tuple2? && r.0.first == ErrorAtom
    ensures r.1 <= stack
    ensures |r.1| == |stack| - (if status != LUA_OK && StringOnTop(stack) then 1 else 0)
  {
    if status == LUA_OK then (OkAtom, stack) else FailureStep(status, stack, c)
  }

  /** nif_pcall as written: the test after the success case is the constant
   *  LUA_YIELD rather than a comparison with it, so every failure takes the
   *  yield branch. The last branch is unreachable. */
  function PcallReply(status: int, stack: seq<LuaValue>, c: Coercions): (r: Step)
    ensures r.1 == stack
    ensures r.0 == OkAtom <==> status == LUA_OK
    ensures status != LUA_OK ==> r.0 == Atom("null")
  {
    if status == LUA_OK then (OkAtom, stack)
    else if LUA_YIELD != 0 then (YieldAtom, stack)
    else FailureStep(status, stack, c)
  }

  /** nif_pcall with the yield test comparing the status. */
  function PcallReplyIntended(status: int, stack: seq<LuaValue>, c: Coercions): (r: Step)
    ensures status == LUA_OK ==> r == (OkAtom, stack)
    ensures status == LUA_YIELD ==> r == (YieldAtom, stack)
    ensures status != LUA_OK && status != LUA_YIELD ==> r == LoadReply(status, stack, c)
  {
    if status == LUA_OK then (OkAtom, stack)
    else if status == LUA_YIELD then (YieldAtom, stack)
    else FailureStep(status, stack, c)
  }

  /** As written, a failed pcall is indistinguishable from a yield: the
   *  error message is neither returned nor popped, whatever the status. */
  lemma PcallFailureIsAlwaysNull(status: int, stack: seq<LuaValue>, c: Coercions)
    requires status != LUA_OK
    ensures PcallReply(status, stack, c) == (Atom("null"), stack)
    ensures PcallReply(status, stack, c).0 == PcallReply(LUA_YIELD, stack, c).0
  {
  }

  /** A runtime error whose message is on top: as written the reply is
   *  `null` and "boom" stays on the stack; intended, the reply is
   *  `{error, "boom"}` and the stack is empty again. */
  lemma PcallLosesRuntimeError(c: Coercions)
    ensures PcallReply(LUA_ERRRUN, [Str([98, 111, 111, 109])], c) == (Atom("null"), [Str([98, 111, 111, 109])])
    ensures PcallReplyIntended(LUA_ERRRUN, [Str([98, 111, 111, 109])], c) == (NifError("boom"), [])
  {
    var b: seq<byte> := [98, 111, 111, 109];
    assert CString(b) == b;
    assert Latin1(b) == "boom";
  }

  /** Every failure of the intended pcall pops exactly the message it
   *  reports, and nothing when it reports a status code. */
  lemma PcallIntendedPopsOnlyTheMessage(status: int, stack: seq<LuaValue>, c: Coercions)
    requires status != LUA_OK && status != LUA_YIELD
    ensures var r := PcallReplyIntended(status, stack, c);
            (r.0.second.CharList? ==> r.1 == stack[..|stack| - 1]) &&
            (!r.0.second.CharList? ==> r.1 == stack && r.0.second == Int(status))
  {
  }

  /** The name luaL_loadbuffer is given: NULL for an empty binary, else the
   *  bytes up to the first zero. */
  function ChunkName(name: seq<byte>): (r: Option<seq<byte>>)
    ensures r.None? <==> name == []
    ensures r.Some? ==> 0 !in r.value && r.value <= name
    ensures r.Some? && |r.value| < |name| ==> name[|r.value|] == 0
  {
    if |name| > 0 then Some(CString(name)) else None
  }

  /** The classification tail of loadbuffer, loadfile and dump after a
   *  failure, on the thread's stack. */
  method ReportFailure(L: LuaState, status: int, c: Coercions) returns (t: Term)
    modifies L
    ensures (t, L.stack) == FailureStep(status, old(L.stack), c)
  {
    if StringOnTop(L.stack) {
      t := NifError(ErrorMessage(L.stack[|L.stack| - 1], c));
      L.Pop(1);
    } else {
      t := Tuple2(ErrorAtom, Int(status));
    }
  }

  /** What lua_pcall does: a status and the stack it leaves. */
  type Runner = (seq<LuaValue>, Int32, Int32) -> (int, seq<LuaValue>)

  /** nif_pcall with the yield test corrected (PcallReply is the reply as
   *  written). */
  method PCall(argc: nat, h: Term, nargs: Int32, nresults: Int32, c: Coercions, run: Runner) returns (t: Term)
    modifies ThreadOf(h)
    ensures old(Validate(argc, h)).Rejected? ==>
              t == old(Validate(argc, h)).reply && unchanged(ThreadOf(h))
    ensures old(Validate(argc, h)).Valid? ==>
              var answer := run(old(h.res.L.stack), nargs, nresults);
              (t, h.res.L.stack) == PcallReplyIntended(answer.0, answer.1, c)
  {
    var v := Validate(argc, h);
    if v.Rejected? {
      t := v.reply;
      return;
    }
    var L := v.res.L;
    var answer := run(L.stack, nargs, nresults);
    L.stack := answer.1;
    if answer.0 == LUA_OK {
      t := OkAtom;
    } else if answer.0 == LUA_YIELD {
      t := YieldAtom;
    } else {
      t := ReportFailure(L, answer.0, c);
    }
  }

  /** What luaL_loadbuffer does with a chunk, its name (None for NULL) and the stack. */
  type BufferLoader = (seq<byte>, Option<seq<byte>>, seq<LuaValue>) -> (int, seq<LuaValue>)

  /** nif_loadbuffer. The chunk is passed with its length, zero bytes
   *  included; the name as a C string. `chunkCopied` and `nameCopied` are
   *  whether decode_string's mallocs succeed. */
  method LoadBuffer(argc: nat, h: Term, chunk: Term, name: Term, chunkCopied: bool, nameCopied: bool,
                    c: Coercions, load: BufferLoader) returns (t: Term)
    modifies ThreadOf(h)
    ensures old(Validate(argc, h)).Rejected? ==>
              t == old(Validate(argc, h)).reply && unchanged(ThreadOf(h))
    ensures old(Validate(argc, h)).Valid? && !(chunk.Binary? && chunkCopied && name.Binary? && nameCopied) ==>
              t == ErrorNull && h.res.L.stack == old(h.res.L.stack)
    ensures old(Validate(argc, h)).Valid? && chunk.Binary? && chunkCopied && name.Binary? && nameCopied ==>
              var answer := load(chunk.bytes, ChunkName(name.bytes), old(h.res.L.stack));
              (t, h.res.L.stack) == LoadReply(answer.0, answer.1, c)
  {
    var v := Validate(argc, h);
    if v.Rejected? {
      t := v.reply;
      return;
    }
    var L := v.res.L;
    var code := DecodeString(chunk, chunkCopied);
    var chunkName := DecodeString(name, nameCopied);
    if code.Some? && chunkName.Some? {
      var answer := load(code.value, ChunkName(chunkName.value), L.stack);
      L.stack := answer.1;
      if answer.0 == LUA_OK {
        t := OkAtom;
      } else {
        t := ReportFailure(L, answer.0, c);
      }
    } else {
      t := ErrorNull;
    }
  }

  /** What luaL_loadfile does with a path and the stack. */
  type FileLoader = (seq<byte>, seq<LuaValue>) -> (int, seq<LuaValue>)

  /** nif_loadfile. The path reaches luaL_loadfile as a C string. */
  method LoadFile(argc: nat, h: Term, path: Term, copied: bool, c: Coercions, load: FileLoader) returns (t: Term)
    modifies ThreadOf(h)
    ensures old(Validate(argc, h)).Rejected? ==>
              t == old(Validate(argc, h)).reply && unchanged(ThreadOf(h))
    ensures old(Validate(argc, h)).Valid? && !(path.Binary? && copied) ==>
              t == ErrorNull && h.res.L.stack == old(h.res.L.stack)
    ensures old(Validate(argc, h)).Valid? && path.Binary? && copied ==>
              var answer := load(CString(path.bytes), old(h.res.L.stack));
              (t, h.res.L.stack) == LoadReply(answer.0, answer.1, c)
  {
    var v := Validate(argc, h);
    if v.Rejected? {
      t := v.reply;
      return;
    }
    var L := v.res.L;
    var filename := DecodeString(path, copied);
    if filename.Some? {
      var answer := load(CString(filename.value), L.stack);
      L.stack := answer.1;
      if answer.0 == LUA_OK {
        t := OkAtom;
      } else {
        t := ReportFailure(L, answer.0, c);
      }
    } else {
      t := ErrorNull;
    }
  }

  /** lua_dump serializes only a Lua function on top of the stack. */
  predicate DumpableTop(stack: seq<LuaValue>)
  {
    |stack| > 0 && stack[|stack| - 1].Function? && stack[|stack| - 1].isLua
  }

  /** The blocks lua_dump hands to the writer for a function and a strip flag. */
  type Serializer = (LuaValue, Int32) -> seq<seq<byte>>

  /** The fate of the allocation the `j`-th write asks for, as a sequence. */
  function Grants(chunks: seq<seq<byte>>, granted: int -> bool): (g: seq<bool>)
    ensures |g| == |chunks|
    ensures forall j :: 0 <= j < |chunks| ==> g[j] == granted(j)
  {
    seq(|chunks|, j => granted(j))
  }

  /** lua_dump's status: 1 when the top is not a Lua function or a write
   *  failed, 0 otherwise. */
  function DumpStatus(stack: seq<LuaValue>, strip: Int32, serialize: Serializer, granted: int -> bool): (s: int)
    ensures s == 0 || s == 1
    ensures !DumpableTop(stack) ==> s == 1
  {
    if !DumpableTop(stack) then 1
    else
      var chunks := serialize(stack[|stack| - 1], strip);
      if forall j :: 0 <= j < |chunks| ==> WriteGranted(chunks, Grants(chunks, granted), j) then 0 else 1
  }

  /** nif_dump's reply once lua_dump has returned `status`; `payload` is
   *  the writer's `bin[0..cur)`, `copied` whether enif_alloc_binary succeeds. */
  function DumpReply(status: int, payload: seq<byte>, copied: bool, stack: seq<LuaValue>, c: Coercions): (r: Step)
    ensures status == 0 && copied ==> r == (OkWith(Binary(payload)), stack)
    ensures status == 0 && !copied ==> r == (ErrorNull, stack)
    ensures status != 0 ==> r == FailureStep(status, stack, c)
  {
    if status == 0 then (if copied then OkWith(Binary(payload)) else ErrorNull, stack)
    else FailureStep(status, stack, c)
  }

  /** Dumping with a string on top (rather than a function) reports that
   *  string as the error and pops it. */
  lemma DumpOfStringPopsIt(stack: seq<LuaValue>, s: seq<byte>, strip: Int32, serialize: Serializer,
                           granted: int -> bool, copied: bool, c: Coercions)
    ensures var st := stack + [Str(s)];
            DumpReply(DumpStatus(st, strip, serialize, granted), [], copied, st, c) ==
              (NifError(Latin1(CString(s))), stack)
  {
  }

  /** nif_dump: runs lua_dump into a fresh writer, copies what it wrote
   *  into the reply and frees the writer. `granted(j)` is whether the
   *  allocation the `j`-th write asks for succeeds. */
  method Dump(argc: nat, h: Term, strip: Int32, serialize: Serializer, granted: int -> bool,
              copied: bool, c: Coercions) returns (t: Term, ghost w: Writer?)
    modifies ThreadOf(h)
    ensures old(Validate(argc, h)).Rejected? ==>
              t == old(Validate(argc, h)).reply && unchanged(ThreadOf(h))
    ensures old(Validate(argc, h)).Valid? ==>
              var stack := old(h.res.L.stack);
              var status := DumpStatus(stack, strip, serialize, granted);
              var payload := if DumpableTop(stack) then Concat(serialize(stack[|stack| - 1], strip)) else [];
              (t, h.res.L.stack) == DumpReply(status, payload, copied, stack, c)
    ensures old(Validate(argc, h)).Valid? ==> w != null
    ensures w != null ==> fresh(w) && w.bin == null
  {
    w := null;
    var v := Validate(argc, h);
    if v.Rejected? {
      t := v.reply;
      return;
    }
    var L := v.res.L;
    var wrt := new Writer();
    w := wrt;
    var ret := 1;
    if DumpableTop(L.stack) {
      var chunks := serialize(L.stack[|L.stack| - 1], strip);
      ret := Serialize(wrt, chunks, Grants(chunks, granted));
    }
    if ret == 0 {
      var written := wrt.Written();
      if copied {
        t := OkWith(Binary(written));
      } else {
        t := ErrorNull;
      }
    } else {
      t := ReportFailure(L, ret, c);
    }
    wrt.Free();
  }
}
