/** The slice of the Lua 5.3 C API that the bridge observes.
 *
 *  The Lua VM itself is a black box: its stack is a sequence of abstract
 *  tagged values, and the parts of its behaviour that depend on its
 *  internals (numeric coercions, number formatting, what a call pushes)
 *  reach the model only as oracle inputs.
 */
module LuaApi {

  newtype byte = x: int | 0 <= x < 256

  /** C `int`, the width of every integer `enif_get_int`/`enif_make_int` exchange. */
  type Int32 = x: int | -0x8000_0000 <= x < 0x8000_0000

  /** `lua_Integer` (a 64-bit `long long` in a default Lua 5.3 build). */
  type Int64 = x: int | -0x8000_0000_0000_0000 <= x < 0x8000_0000_0000_0000

  datatype Option<T> = None | Some(value: T)

  /** The type tags of lua.h, LUA_TNONE to LUA_TTHREAD. */
  datatype LuaType =
    | TNone | TNil | TBoolean | TLightUserdata | TNumber
    | TString | TTable | TFunction | TUserdata | TThread

  /** A value on a Lua stack. Floats are kept as their 64-bit pattern only;
   *  tables, functions and threads are identities. */
  datatype LuaValue =
    | Nil
    | Boolean(b: bool)
    | LightUserdata(address: nat)
    | Integer(i: Int64)
    | Float(bits: bv64)
    | Str(bytes: seq<byte>)
    | Table(id: nat)
    | Function(id: nat, isLua: bool)
    | Userdata(id: nat, block: seq<byte>)
    | Thread(id: nat)

  /** `lua_type` of a present value. */
  function TypeOf(v: LuaValue): (t: LuaType)
    ensures t != TNone
  {
    match v
    case Nil => TNil
    case Boolean(_) => TBoolean
    case LightUserdata(_) => TLightUserdata
    case Integer(_) => TNumber
    case Float(_) => TNumber
    case Str(_) => TString
    case Table(_) => TTable
    case Function(_, _) => TFunction
    case Userdata(_, _) => TUserdata
    case Thread(_) => TThread
  }

  /** The value a stack index addresses: 1..n from the bottom, -1..-n from the top.
   *  Every other index (0, beyond the top, pseudo-indices) addresses nothing. */
  function Slot(stack: seq<LuaValue>, idx: int): (r: Option<LuaValue>)
    ensures r.Some? <==> (1 <= idx <= |stack| || -|stack| <= idx <= -1)
    ensures 1 <= idx <= |stack| ==> r == Some(stack[idx - 1])
    ensures -|stack| <= idx <= -1 ==> r == Some(stack[|stack| + idx])
  {
    if 1 <= idx <= |stack| then Some(stack[idx - 1])
    else if -|stack| <= idx <= -1 then Some(stack[|stack| + idx])
    else None
  }

  /** `lua_type(L, idx)`: LUA_TNONE for an index that holds no value. */
  function TypeAt(stack: seq<LuaValue>, idx: int): (t: LuaType)
    ensures t == TNone <==> Slot(stack, idx).None?
    ensures Slot(stack, idx).Some? ==> t == TypeOf(Slot(stack, idx).value)
  {
    match Slot(stack, idx)
    case None => TNone
    case Some(v) => TypeOf(v)
  }

  /** `lua_typename` as Lua 5.3 defines it: "no value" for LUA_TNONE and
   *  "userdata" for both kinds of userdata. */
  function LuaTypeName(t: LuaType): string
  {
    match t
    case TNone => "no value"
    case TNil => "nil"
    case TBoolean => "boolean"
    case TLightUserdata => "userdata"
    case TNumber => "number"
    case TString => "string"
    case TTable => "table"
    case TFunction => "function"
    case TUserdata => "userdata"
    case TThread => "thread"
  }

  /** `lua_isstring`: strings, and numbers (which always convert to strings). */
  predicate IsStringValue(v: LuaValue)
  {
    v.Str? || v.Integer? || v.Float?
  }

  /** `lua_isstring(L, -1)` on a whole stack. */
  predicate StringOnTop(stack: seq<LuaValue>)
  {
    |stack| > 0 && IsStringValue(stack[|stack| - 1])
  }

  // Thread status codes of lua.h.
  const LUA_OK := 0
  const LUA_YIELD := 1
  const LUA_ERRRUN := 2
  const LUA_ERRSYNTAX := 3
  const LUA_ERRMEM := 4
  const LUA_ERRGCMM := 5
  const LUA_ERRERR := 6
  const LUA_ERRFILE := 7

  // Options of lua_gc in lua.h.
  const LUA_GCSTOP := 0
  const LUA_GCRESTART := 1
  const LUA_GCCOLLECT := 2
  const LUA_GCCOUNT := 3
  const LUA_GCCOUNTB := 4
  const LUA_GCSTEP := 5
  const LUA_GCSETPAUSE := 6
  const LUA_GCSETSTEPMUL := 7
  const LUA_GCISRUNNING := 9

  /** The VM's numeric internals, which the bridge never sees inside:
   *  string-to-number parsing, integer/float conversions and the numerals
   *  `lua_tolstring` prints for numbers. */
  datatype Coercions = Coercions(
    parse: seq<byte> -> Option<LuaValue>,
    intToFloat: Int64 -> bv64,
    floatToInteger: bv64 -> Option<Int64>,
    intNumeral: Int64 -> seq<byte>,
    floatNumeral: bv64 -> seq<byte>)

  /** `lua_tonumberx`: the float it yields, or None when `isnum` is 0. */
  function ToNumberX(v: Option<LuaValue>, c: Coercions): (r: Option<bv64>)
    ensures v.None? ==> r.None?
    ensures v.Some? && v.value.Float? ==> r == Some(v.value.bits)
    ensures v.Some? && v.value.Integer? ==> r.Some?
    ensures v.Some? && !v.value.Str? && !v.value.Integer? && !v.value.Float? ==> r.None?
  {
    match v
    case Some(Integer(i)) => Some(c.intToFloat(i))
    case Some(Float(f)) => Some(f)
    case Some(Str(b)) =>
      (match c.parse(b)
       case Some(Integer(i)) => Some(c.intToFloat(i))
       case Some(Float(f)) => Some(f)
       case _ => None)
    case _ => None
  }

  /** `lua_tointegerx`: the integer it yields, or None when `isnum` is 0. */
  function ToIntegerX(v: Option<LuaValue>, c: Coercions): (r: Option<Int64>)
    ensures v.None? ==> r.None?
    ensures v.Some? && v.value.Integer? ==> r == Some(v.value.i)
    ensures v.Some? && !v.value.Str? && !v.value.Integer? && !v.value.Float? ==> r.None?
  {
    match v
    case Some(Integer(i)) => Some(i)
    case Some(Float(f)) => c.floatToInteger(f)
    case Some(Str(b)) =>
      (match c.parse(b)
       case Some(Integer(i)) => Some(i)
       case Some(Float(f)) => c.floatToInteger(f)
       case _ => None)
    case _ => None
  }

  /** The bytes `lua_tolstring` returns for a value, or None for NULL.
   *  Strings come back unchanged; numbers come back as their numeral. */
  function ToLString(v: LuaValue, c: Coercions): (r: Option<seq<byte>>)
    ensures r.Some? <==> IsStringValue(v)
    ensures v.Str? ==> r == Some(v.bytes)
  {
    match v
    case Str(b) => Some(b)
    case Integer(i) => Some(c.intNumeral(i))
    case Float(f) => Some(c.floatNumeral(f))
    case _ => None
  }

  /** `lua_tolstring` also converts a number it prints into that string, in place. */
  function ConvertInPlace(stack: seq<LuaValue>, idx: int, c: Coercions): (r: seq<LuaValue>)
    ensures |r| == |stack|
    ensures Slot(stack, idx).Some? && Slot(stack, idx).value.Str? ==> r == stack
    ensures Slot(stack, idx).Some? && IsStringValue(Slot(stack, idx).value) ==>
              Slot(r, idx) == Some(Str(ToLString(Slot(stack, idx).value, c).value))
    ensures forall k :: 0 <= k < |stack| && k + 1 != idx && k - |stack| != idx ==> r[k] == stack[k]
  {
    match Slot(stack, idx)
    case Some(v) =>
      if v.Integer? || v.Float? then
        var k := if idx > 0 then idx - 1 else |stack| + idx;
        stack[k := Str(ToLString(v, c).value)]
      else stack
    case None => stack
  }

  /** The C-string view of a byte string: what a `char *` argument carries,
   *  everything before the first zero byte. */
  function CString(b: seq<byte>): (r: seq<byte>)
    ensures 0 !in r
    ensures r <= b
    ensures 0 !in b ==> r == b
    ensures |r| < |b| ==> b[|r|] == 0
  {
    if b == [] || b[0] == 0 then []
    else [b[0]] + CString(b[1..])
  }

  /** The whole VM instance (Lua's global state); lua_close destroys it. */
  class LuaVm {
    var open: bool

    constructor ()
      ensures open
    {
      open := true;
    }
  }

  /** A lua_State: one thread of a VM with its own operand stack. */
  class LuaState {
    const vm: LuaVm
    var stack: seq<LuaValue>

    constructor (vm: LuaVm, stack: seq<LuaValue>)
      ensures this.vm == vm && this.stack == stack
    {
      this.vm := vm;
      this.stack := stack;
    }

    /** lua_pop(L, n). */
    method Pop(n: nat)
      requires n <= |stack|
      modifies this
      ensures stack == old(stack)[..|old(stack)| - n]
    {
      stack := stack[..|stack| - n];
    }
  }
}
