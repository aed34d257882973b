/** Conversions between Lua stack values and Erlang terms, and the pure
 *  reply mappings (type names, gc results).
 *
 *  Each entry point is a step on the thread's stack: from the stack before
 *  the call (and the VM's oracle answers) to the reply and the stack after.
 */
module Marshal {
  import opened LuaApi
  import opened Nif

  type Step = (Term, seq<LuaValue>)

  /** `typename`: Lua's own name for every type, except that an index holding
   *  no value is reported as "none" (Lua itself says "no value"). */
  function TypeName(t: LuaType): (name: string)
    ensures name == "none" <==> t == TNone
    ensures t != TNone ==> name == LuaTypeName(t)
  {
    if t == TNone then "none" else LuaTypeName(t)
  }

  /** ok_type_tuple: `{ok, TypeAtom}`. */
  function OkType(t: LuaType): (r: Term)
    ensures r.Tuple2? && r.first == OkAtom && r.second.Atom?
    ensures r.second.name == "none" <==> t == TNone
    ensures t != TNone ==> r.second.name == LuaTypeName(t)
  {
    OkWith(Atom(TypeName(t)))
  }

  /** The error every guard and failed conversion answers with:
   *  `{error, TypeName}` for the value actually found at `idx`. */
  function TypeError(stack: seq<LuaValue>, idx: int): (r: Term)
    ensures Slot(stack, idx).None? ==> r == NifError("none")
    ensures Slot(stack, idx).Some? ==> r == NifError(LuaTypeName(TypeOf(Slot(stack, idx).value)))
  {
    NifError(TypeName(TypeAt(stack, idx)))
  }

  /** decode_string: the bytes of a binary term, copied into a malloc'ed
   *  buffer. `copied` is whether that malloc succeeds. */
  function DecodeString(t: Term, copied: bool): (r: Option<seq<byte>>)
    ensures r.Some? <==> t.Binary? && copied
    ensures r.Some? ==> r.value == t.bytes
  {
    if t.Binary? && copied then Some(t.bytes) else None
  }

  /** nif_type. */
  function TypeReply(stack: seq<LuaValue>, idx: int): (r: Term)
    ensures Slot(stack, idx).None? ==> r == OkWith(Atom("none"))
    ensures Slot(stack, idx).Some? ==> r == OkWith(Atom(LuaTypeName(TypeOf(Slot(stack, idx).value))))
  {
    OkType(TypeAt(stack, idx))
  }

  /** nif_tonumber: `{ok, Float}` when lua_tonumberx converts, otherwise the
   *  type error for the value found there. */
  function ToNumberReply(stack: seq<LuaValue>, idx: int, c: Coercions): (r: Term)
    ensures ToNumberX(Slot(stack, idx), c).Some? ==> r == OkWith(Double(ToNumberX(Slot(stack, idx), c).value))
    ensures ToNumberX(Slot(stack, idx), c).None? ==> r == TypeError(stack, idx)
  {
    match ToNumberX(Slot(stack, idx), c)
    case Some(d) => OkWith(Double(d))
    case None => TypeError(stack, idx)
  }

  /** Converting `lua_Integer` to the `int` that enif_make_int takes keeps the
   *  low 32 bits, read as two's complement. */
  function Narrow32(n: Int64): (r: Int32)
    ensures (r - n) % 0x1_0000_0000 == 0
    ensures -0x8000_0000 <= n < 0x8000_0000 ==> r == n
  {
    var low := n % 0x1_0000_0000;
    if low >= 0x8000_0000 then low - 0x1_0000_0000 else low
  }

  /** nif_tointeger as written: the converted integer goes through `int`. */
  function ToIntegerReply(stack: seq<LuaValue>, idx: int, c: Coercions): (r: Term)
    ensures ToIntegerX(Slot(stack, idx), c).Some? ==>
              r == OkWith(Int(Narrow32(ToIntegerX(Slot(stack, idx), c).value)))
    ensures ToIntegerX(Slot(stack, idx), c).None? ==> r == TypeError(stack, idx)
  {
    match ToIntegerX(Slot(stack, idx), c)
    case Some(n) => OkWith(Int(Narrow32(n)))
    case None => TypeError(stack, idx)
  }

  /** nif_tointeger with the full `lua_Integer` kept (enif_make_int64). */
  function ToIntegerReplyWide(stack: seq<LuaValue>, idx: int, c: Coercions): (r: Term)
    ensures ToIntegerX(Slot(stack, idx), c).Some? ==>
              r == OkWith(Int(ToIntegerX(Slot(stack, idx), c).value))
    ensures ToIntegerX(Slot(stack, idx), c).None? ==> r == TypeError(stack, idx)
  {
    match ToIntegerX(Slot(stack, idx), c)
    case Some(n) => OkWith(Int(n))
    case None => TypeError(stack, idx)
  }

  /** nif_tostring: copies exactly the bytes lua_tolstring reports, zeros
   *  included. lua_tolstring turns a number it prints into a string in
   *  place, so the type named on a failed copy is read afterwards.
   *  `copied` is whether enif_alloc_binary succeeds. */
  function ToStringStep(stack: seq<LuaValue>, idx: int, copied: bool, c: Coercions): (r: Step)
    ensures r.1 == ConvertInPlace(stack, idx, c)
    ensures Slot(stack, idx).Some? && IsStringValue(Slot(stack, idx).value) && copied ==>
              r.0 == OkWith(Binary(ToLString(Slot(stack, idx).value, c).value))
    ensures Slot(stack, idx).Some? && IsStringValue(Slot(stack, idx).value) && !copied ==>
              r.0 == NifError("string")
    ensures (Slot(stack, idx).None? || !IsStringValue(Slot(stack, idx).value)) ==>
              r == (TypeError(stack, idx), stack)
  {
    var after := ConvertInPlace(stack, idx, c);
    match Slot(stack, idx)
    case Some(v) =>
      var text := ToLString(v, c);
      if text.Some? && copied then (OkWith(Binary(text.value)), after)
      else (TypeError(after, idx), after)
    case None => (TypeError(after, idx), after)
  }

  /** lua_isuserdata: full or light userdata. */
  predicate IsUserdata(t: LuaType)
  {
    t == TUserdata || t == TLightUserdata
  }

  /** lua_rawlen of a userdata: its block size (0 for light userdata). */
  function UserdataLength(v: LuaValue): nat
  {
    if v.Userdata? then |v.block| else 0
  }

  /** nif_touserdata: a copy of a non-empty full userdata block; `{error, null}`
   *  for empty or light userdata or a failed copy; the type error otherwise. */
  function ToUserdataReply(stack: seq<LuaValue>, idx: int, copied: bool): (r: Term)
    ensures !IsUserdata(TypeAt(stack, idx)) ==> r == TypeError(stack, idx)
    ensures IsUserdata(TypeAt(stack, idx)) ==>
              (r.Tuple2? && r.first == OkAtom <==> Slot(stack, idx).value.Userdata? && Slot(stack, idx).value.block != [] && copied)
    ensures r.Tuple2? && r.first == OkAtom ==> r == OkWith(Binary(Slot(stack, idx).value.block))
    ensures IsUserdata(TypeAt(stack, idx)) && !(r.Tuple2? && r.first == OkAtom) ==> r == ErrorNull
  {
    if IsUserdata(TypeAt(stack, idx)) then
      var v := Slot(stack, idx).value;
      if UserdataLength(v) > 0 && copied then OkWith(Binary(v.block)) else ErrorNull
    else TypeError(stack, idx)
  }

  /** nif_pushstring: pushes the binary's bytes exactly (lua_pushlstring). */
  function PushStringStep(stack: seq<LuaValue>, arg: Term, copied: bool): (r: Step)
    ensures DecodeString(arg, copied).Some? ==> r == (OkAtom, stack + [Str(arg.bytes)])
    ensures DecodeString(arg, copied).None? ==> r == (ErrorNull, stack)
  {
    match DecodeString(arg, copied)
    case Some(b) => (OkAtom, stack + [Str(b)])
    case None => (ErrorNull, stack)
  }

  /** nif_pushinteger: the `int` argument becomes a Lua integer. */
  function PushIntegerStep(stack: seq<LuaValue>, n: Int32): (r: Step)
    ensures r.0 == OkAtom
    ensures |r.1| == |stack| + 1 && r.1[..|stack|] == stack
    ensures Slot(r.1, -1) == Some(Integer(n))
  {
    (OkAtom, stack + [Integer(n)])
  }

  /** nif_gc: lua_gc is always called; the option decides the reply's shape. */
  function GcReply(what: Int32, ret: Int32): (r: Term)
    ensures r == OkAtom <==>
              what in {LUA_GCSTOP, LUA_GCRESTART, LUA_GCCOLLECT, LUA_GCSTEP}
    ensures r != OkAtom ==> r.Tuple2? && r.first == OkAtom
    ensures what == LUA_GCISRUNNING ==> r == OkWith(Bool(ret != 0))
    ensures r.Tuple2? && r.second.Int? ==> r.second.i == ret
    ensures what !in {LUA_GCSTOP, LUA_GCRESTART, LUA_GCCOLLECT, LUA_GCSTEP, LUA_GCISRUNNING} ==>
              r == OkWith(Int(ret))
  {
    if what == LUA_GCSTOP || what == LUA_GCRESTART || what == LUA_GCCOLLECT || what == LUA_GCSTEP then
      OkAtom
    else if what == LUA_GCISRUNNING then
      OkWith(Bool(ret != 0))
    else
      OkWith(Int(ret))
  }

  /** Pushing a binary and reading it back with tostring gives the same
   *  bytes, zero bytes included. */
  lemma PushStringThenToString(stack: seq<LuaValue>, b: seq<byte>, c: Coercions)
    ensures var pushed := PushStringStep(stack, Binary(b), true);
            pushed.0 == OkAtom &&
            ToStringStep(pushed.1, -1, true, c) == (OkWith(Binary(b)), pushed.1)
  {
  }

  /** Pushing an `int` and reading it back with tointeger gives it back. */
  lemma PushIntegerThenToInteger(stack: seq<LuaValue>, n: Int32, c: Coercions)
    ensures var pushed := PushIntegerStep(stack, n);
            ToIntegerReply(pushed.1, -1, c) == OkWith(Int(n))
  {
  }

  /** A value that is neither a number nor a string never converts: tonumber
   *  and tointeger both answer with its type name. */
  lemma NonNumericConversions(stack: seq<LuaValue>, idx: int, c: Coercions)
    requires TypeAt(stack, idx) != TNumber && TypeAt(stack, idx) != TString
    ensures ToNumberReply(stack, idx, c) == NifError(TypeName(TypeAt(stack, idx)))
    ensures ToIntegerReply(stack, idx, c) == NifError(TypeName(TypeAt(stack, idx)))
  {
  }

  /** A Lua integer outside the `int` range comes back from tointeger wrapped:
   *  2^32 is answered as `{ok, 0}`; the 64-bit reply keeps it. */
  lemma ToIntegerWrapsAbove32Bits(c: Coercions)
    ensures ToIntegerReply([Integer(0x1_0000_0000)], -1, c) == OkWith(Int(0))
    ensures ToIntegerReplyWide([Integer(0x1_0000_0000)], -1, c) == OkWith(Int(0x1_0000_0000))
  {
  }

  /** The 64-bit reply returns every Lua integer unchanged. */
  lemma ToIntegerWideIsExact(stack: seq<LuaValue>, idx: int, n: Int64, c: Coercions)
    requires Slot(stack, idx) == Some(Integer(n))
    ensures ToIntegerReplyWide(stack, idx, c) == OkWith(Int(n))
  {
  }
}
