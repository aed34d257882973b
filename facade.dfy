/** The entry points that index a stack slot "as a table" (or as userdata),
 *  and the dispatch of the modelled one-step entry points through the
 *  handle check.
 *
 *  Each guarded entry point first asks lua_istable (lua_isuserdata for the
 *  uservalue pair); only when the slot qualifies does it decode its key and
 *  call the VM primitive. A slot that does not qualify is answered with the
 *  name of the type actually found, and the VM is not called.
 */
module Facade {
  import opened LuaApi
  import opened Nif
  import opened Marshal

  /** The guarded entry points, with their extra arguments. */
  datatype GuardedOp =
    | GetTable | GetField(key: Term) | GetI(n: Int32) | RawGet | RawGetI(n: Int32)
    | SetTable | SetField(key: Term) | SetI(n: Int32) | RawSet | RawSetI(n: Int32)
    | GetUserValue | SetUserValue

  /** The Lua primitive each entry point calls, as the VM receives it. */
  datatype Call =
    | Gettable(idx: int) | Getfield(idx: int, k: seq<byte>) | Geti(idx: int, n: int)
    | Rawget(idx: int) | Rawgeti(idx: int, n: int)
    | Settable(idx: int) | Setfield(idx: int, k: seq<byte>) | Seti(idx: int, n: int)
    | Rawset(idx: int) | Rawseti(idx: int, n: int)
    | Getuservalue(idx: int) | Setuservalue(idx: int)

  /** The VM's answer to a call: the type it reports (meaningful for the
   *  getters) and the stack it leaves. */
  type Vm = (Call, seq<LuaValue>) -> (LuaType, seq<LuaValue>)

  const KEY_ERROR := "Could not get binary from the third argument"

  predicate IsGetter(op: GuardedOp)
  {
    op.GetTable? || op.GetField? || op.GetI? || op.RawGet? || op.RawGetI? || op.GetUserValue?
  }

  /** The slot types an entry point accepts: tables, or userdata of either
   *  kind for the uservalue pair. */
  predicate Admits(op: GuardedOp, t: LuaType): (b: bool)
    ensures b ==> t != TNone
    ensures (op.GetUserValue? || op.SetUserValue?) ==> (b <==> t == TUserdata || t == TLightUserdata)
    ensures !(op.GetUserValue? || op.SetUserValue?) ==> (b <==> t == TTable)
  {
    if op.GetUserValue? || op.SetUserValue? then IsUserdata(t) else t == TTable
  }

  /** The primitive call an admitted entry point makes, or None when its
   *  key does not decode. A field name reaches Lua as a C string. */
  function CallFor(op: GuardedOp, idx: Int32, copied: bool): (r: Option<Call>)
    ensures r.None? <==> (op.GetField? || op.SetField?) && DecodeString(op.key, copied).None?
    ensures op.GetField? && r.Some? ==> r.value == Getfield(idx, CString(op.key.bytes))
    ensures op.SetField? && r.Some? ==> r.value == Setfield(idx, CString(op.key.bytes))
  {
    match op
    case GetTable => Some(Gettable(idx))
    case GetField(key) =>
      (match DecodeString(key, copied)
       case Some(k) => Some(Getfield(idx, CString(k)))
       case None => None)
    case GetI(n) => Some(Geti(idx, n))
    case RawGet => Some(Rawget(idx))
    case RawGetI(n) => Some(Rawgeti(idx, n))
    case SetTable => Some(Settable(idx))
    case SetField(key) =>
      (match DecodeString(key, copied)
       case Some(k) => Some(Setfield(idx, CString(k)))
       case None => None)
    case SetI(n) => Some(Seti(idx, n))
    case RawSet => Some(Rawset(idx))
    case RawSetI(n) => Some(Rawseti(idx, n))
    case GetUserValue => Some(Getuservalue(idx))
    case SetUserValue => Some(Setuservalue(idx))
  }

  /** The reply to a key that does not decode: getfield formats an error
   *  message, setfield answers `{error, null}`. */
  function KeyFailure(op: GuardedOp): (r: Term)
    ensures r.Tuple2? && r.first == ErrorAtom
    ensures r.second.CharList? <==> op.GetField?
    ensures op.GetField? ==> r.second == CharList(KEY_ERROR)
    ensures !op.GetField? ==> r == ErrorNull
  {
    if op.GetField? then NifError(KEY_ERROR) else ErrorNull
  }

  /** One guarded entry point on the thread's stack. */
  function GuardedStep(op: GuardedOp, idx: Int32, stack: seq<LuaValue>, copied: bool, vm: Vm): (r: Step)
    ensures !Admits(op, TypeAt(stack, idx)) ==> r == (TypeError(stack, idx), stack)
    ensures Admits(op, TypeAt(stack, idx)) && CallFor(op, idx, copied).None? ==>
              r == (KeyFailure(op), stack)
    ensures Admits(op, TypeAt(stack, idx)) && CallFor(op, idx, copied).Some? ==>
              r.1 == vm(CallFor(op, idx, copied).value, stack).1 &&
              r.0 == (if IsGetter(op) then OkType(vm(CallFor(op, idx, copied).value, stack).0) else OkAtom)
  {
    if !Admits(op, TypeAt(stack, idx)) then (TypeError(stack, idx), stack)
    else match CallFor(op, idx, copied)
      case None => (KeyFailure(op), stack)
      case Some(call) =>
        var answer := vm(call, stack);
        (if IsGetter(op) then OkType(answer.0) else OkAtom, answer.1)
  }

  /** A slot the entry point does not accept is reported, and the VM is
   *  never consulted: any two VMs give the same answer. */
  lemma RejectedSlotNeverReachesVm(op: GuardedOp, idx: Int32, stack: seq<LuaValue>, copied: bool, vm1: Vm, vm2: Vm)
    requires !Admits(op, TypeAt(stack, idx))
    ensures GuardedStep(op, idx, stack, copied, vm1) == GuardedStep(op, idx, stack, copied, vm2)
    ensures GuardedStep(op, idx, stack, copied, vm1).0.second.CharList?
    ensures GuardedStep(op, idx, stack, copied, vm1).1 == stack
  {
  }

  /** A table entry point on a slot holding a number fails with "number",
   *  and one on an index that holds nothing fails with "none". */
  lemma NonTableSlotsNamed(op: GuardedOp, stack: seq<LuaValue>, idx: Int32, copied: bool, vm: Vm)
    requires !op.GetUserValue? && !op.SetUserValue?
    ensures Slot(stack, idx).Some? && TypeOf(Slot(stack, idx).value) == TNumber ==>
              GuardedStep(op, idx, stack, copied, vm).0 == NifError("number")
    ensures Slot(stack, idx).None? ==>
              GuardedStep(op, idx, stack, copied, vm).0 == NifError("none")
  {
  }

  /** The guard is checked before the key is decoded: a bad key on a
   *  non-table slot is reported as the slot's type. */
  lemma GuardBeforeKey(stack: seq<LuaValue>, idx: Int32, key: Term, copied: bool, vm: Vm)
    requires TypeAt(stack, idx) != TTable
    ensures GuardedStep(GetField(key), idx, stack, copied, vm) == (TypeError(stack, idx), stack)
    ensures GuardedStep(SetField(key), idx, stack, copied, vm) == (TypeError(stack, idx), stack)
  {
  }

  /** lua_isuserdata accepts light userdata, so the uservalue entry points
   *  pass a light userdata on to the VM. */
  lemma LightUserdataPassesUservalueGuard(stack: seq<LuaValue>, idx: Int32, copied: bool, vm: Vm)
    requires Slot(stack, idx).Some? && Slot(stack, idx).value.LightUserdata?
    ensures GuardedStep(GetUserValue, idx, stack, copied, vm) ==
              (OkType(vm(Getuservalue(idx), stack).0), vm(Getuservalue(idx), stack).1)
  {
  }

  /** The one-step entry points of the model, with the oracle answers each needs. */
  datatype Request =
    | TypeOfSlot(idx: Int32)
    | ToNumber(idx: Int32, c: Coercions)
    | ToInteger(idx: Int32, c: Coercions)
    | ToString(idx: Int32, copied: bool, c: Coercions)
    | ToUserdata(idx: Int32, copied: bool)
    | PushString(arg: Term, copied: bool)
    | PushInteger(n: Int32)
    | Gc(what: Int32, data: Int32, answer: Int32)
    | Guarded(op: GuardedOp, idx: Int32, copied: bool, vm: Vm)

  /** What a request does to the stack and answers. lua_gc's `answer` is
   *  what the collector returned for `what` and `data`. tointeger keeps the
   *  full 64-bit integer (ToIntegerReply is the reply as written). */
  function Run(req: Request, stack: seq<LuaValue>): (r: Step)
    ensures req.TypeOfSlot? || req.ToNumber? || req.ToInteger? || req.ToUserdata? || req.Gc? ==>
              r.1 == stack
    ensures req.PushString? || req.PushInteger? ==>
              r.1 == stack || (|r.1| == |stack| + 1 && r.1[..|stack|] == stack)
    ensures req.PushString? || req.PushInteger? ==> (r.1 == stack <==> r.0 != OkAtom)
  {
    match req
    case TypeOfSlot(idx) => (TypeReply(stack, idx), stack)
    case ToNumber(idx, c) => (ToNumberReply(stack, idx, c), stack)
    case ToInteger(idx, c) => (ToIntegerReplyWide(stack, idx, c), stack)
    case ToString(idx, copied, c) => ToStringStep(stack, idx, copied, c)
    case ToUserdata(idx, copied) => (ToUserdataReply(stack, idx, copied), stack)
    case PushString(arg, copied) => PushStringStep(stack, arg, copied)
    case PushInteger(n) => PushIntegerStep(stack, n)
    case Gc(what, _, answer) => (GcReply(what, answer), stack)
    case Guarded(op, idx, copied, vm) => GuardedStep(op, idx, stack, copied, vm)
  }

  /** A modelled entry point: the handle check, then the request's step. */
  method Invoke(argc: nat, h: Term, req: Request) returns (t: Term)
    modifies ThreadOf(h)
    ensures old(Validate(argc, h)).Rejected? ==>
              t == old(Validate(argc, h)).reply && unchanged(ThreadOf(h))
    ensures old(Validate(argc, h)).Valid? ==>
              (t, h.res.L.stack) == Run(req, old(h.res.L.stack))
  {
    t := Apply(argc, h, s => Run(req, s));
  }
}
