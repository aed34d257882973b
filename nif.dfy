/** Erlang-side terms and the Lua VM handle (the NIF resource).
 *
 *  A handle bundles the VM's main state (`lua`) and the one thread created on
 *  it (`L`); every entry point validates it in two ordered stages before it
 *  touches the VM.
 */
module Nif {
  import opened LuaApi

  /** The Erlang terms the bridge builds or is given. `Other` stands for every
   *  term the bridge does not look into (pids, lists, maps, other resources). */
  datatype Term =
    | Atom(name: string)
    | Int(i: int)
    | Double(bits: bv64)
    | Binary(bytes: seq<byte>)
    | CharList(chars: string)
    | Tuple2(first: Term, second: Term)
    | Handle(res: Resource)
    | Other(tag: nat)

  const OkAtom := Atom("ok")
  const ErrorAtom := Atom("error")
  const NullAtom := Atom("null")
  /** ATOM_YIELD is spelled "null" at the macro's definition. */
  const YieldAtom := Atom("null")
  const ErrorNull := Tuple2(ErrorAtom, NullAtom)

  const RESOURCE_ERROR := "First argument is not a Lua VM instance"
  const LUA_ERROR := "Lua VM is not initialized"
  const NEWSTATE_ERROR := "Could not initialize the Lua VM"

  function OkWith(t: Term): Term
  {
    Tuple2(OkAtom, t)
  }

  function Bool(b: bool): Term
  {
    if b then Atom("true") else Atom("false")
  }

  /** The result of nif_niferror for a message without conversion directives:
   *  `{error, Msg}` with the message as a character list. */
  function NifError(msg: string): (t: Term)
    ensures t.Tuple2? && t.first == ErrorAtom && t.second == CharList(msg)
  {
    Tuple2(ErrorAtom, CharList(msg))
  }

  /** `enif_make_string(..., ERL_NIF_LATIN1)` reads each byte as one Latin-1 character. */
  function Latin1(b: seq<byte>): (s: string)
    ensures |s| == |b|
    ensures forall k :: 0 <= k < |b| ==> s[k] as int == b[k] as int
  {
    seq(|b|, k requires 0 <= k < |b| => (b[k] as int) as char)
  }

  /** The per-handle record `res_t`. */
  class Resource {
    var lua: LuaState?
    var L: LuaState?
    /** Whether close has handed back the reference enif_alloc_resource gave. */
    var released: bool

    constructor (lua: LuaState, L: LuaState)
      ensures this.lua == lua && this.L == L && !released
    {
      this.lua := lua;
      this.L := L;
      released := false;
    }
  }

  function HandleObject(h: Term): set<object>
  {
    if h.Handle? then {h.res} else {}
  }

  /** The thread state an entry point may change through `h`. */
  function ThreadOf(h: Term): set<object>
    reads HandleObject(h)
  {
    if h.Handle? && h.res.L != null then {h.res.L} else {}
  }

  /** A handle is either live (both states set, on one open VM, handle not
   *  released) or dead (both cleared, released); no partial state. */
  ghost predicate Live(r: Resource)
    reads r, r.lua, r.L, (if r.lua != null then {r.lua.vm} else {})
  {
    r.lua != null && r.L != null && r.lua != r.L && r.lua.vm == r.L.vm && r.lua.vm.open && !r.released
  }

  ghost predicate Dead(r: Resource)
    reads r
  {
    r.lua == null && r.L == null && r.released
  }

  datatype Checked = Valid(res: Resource) | Rejected(reply: Term)

  /** GET_RESOURCE: first "is this a Lua resource at all", then "is it still open". */
  function Validate(argc: nat, h: Term): (r: Checked)
    reads HandleObject(h)
    ensures r.Valid? <==> argc > 0 && h.Handle? && h.res.lua != null && h.res.L != null
    ensures r.Valid? ==> r.res == h.res
    ensures (argc == 0 || !h.Handle?) ==> r == Rejected(NifError(RESOURCE_ERROR))
    ensures argc > 0 && h.Handle? && (h.res.lua == null || h.res.L == null) ==>
              r == Rejected(NifError(LUA_ERROR))
  {
    if argc == 0 || !h.Handle? then Rejected(NifError(RESOURCE_ERROR))
    else if h.res.lua == null || h.res.L == null then Rejected(NifError(LUA_ERROR))
    else Valid(h.res)
  }

  /** nif_newstate. `vmAllocated` is whether luaL_newstate returned a state;
   *  `loaded` is what luaL_openlibs and luaopen_erlang leave on the main
   *  state's stack. lua_newthread pushes the new thread on top of it; the
   *  thread starts with an empty stack. */
  method NewState(vmAllocated: bool, loaded: seq<LuaValue>) returns (t: Term)
    ensures !vmAllocated ==> t == NifError(NEWSTATE_ERROR)
    ensures vmAllocated ==> t.Handle? && fresh(t.res) && Live(t.res)
    ensures vmAllocated ==> fresh(t.res.lua) && fresh(t.res.L) && fresh(t.res.lua.vm)
    ensures vmAllocated ==> t.res.L.stack == []
    ensures vmAllocated ==> |t.res.lua.stack| == |loaded| + 1 && t.res.lua.stack[..|loaded|] == loaded
    ensures vmAllocated ==> Slot(t.res.lua.stack, -1).Some? && Slot(t.res.lua.stack, -1).value.Thread?
  {
    if !vmAllocated {
      t := NifError(NEWSTATE_ERROR);
      return;
    }
    var vm := new LuaVm();
    var main := new LuaState(vm, loaded);
    var thread := new LuaState(vm, []);
    main.stack := main.stack + [Thread(0)];
    var res := new Resource(main, thread);
    t := Handle(res);
  }

  /** nif_close: closes the VM, clears both pointers and releases the handle. */
  method Close(argc: nat, h: Term) returns (t: Term)
    requires h.Handle? ==> Live(h.res) || Dead(h.res)
    modifies HandleObject(h), (if h.Handle? && h.res.lua != null then {h.res.lua.vm} else {})
    ensures old(Validate(argc, h)).Rejected? ==>
              t == old(Validate(argc, h)).reply && unchanged(HandleObject(h))
    ensures old(Validate(argc, h)).Valid? ==>
              t == OkAtom && Dead(h.res) && !old(h.res.lua.vm).open
    ensures h.Handle? ==> Live(h.res) || Dead(h.res)
  {
    var v := Validate(argc, h);
    if v.Rejected? {
      t := v.reply;
      return;
    }
    var res := v.res;
    res.lua.vm.open := false;
    res.lua, res.L := null, null;
    res.released := true;
    t := OkAtom;
  }

  /** The frame of every entry point but newstate and close: GET_RESOURCE,
   *  then the operation's own step on the thread's stack. A rejected handle
   *  never reaches the VM. */
  method Apply(argc: nat, h: Term, step: seq<LuaValue> -> (Term, seq<LuaValue>)) returns (t: Term)
    modifies ThreadOf(h)
    ensures old(Validate(argc, h)).Rejected? ==>
              t == old(Validate(argc, h)).reply && unchanged(ThreadOf(h))
    ensures old(Validate(argc, h)).Valid? ==>
              t == step(old(h.res.L.stack)).0 && h.res.L.stack == step(old(h.res.L.stack)).1
  {
    var v := Validate(argc, h);
    if v.Rejected? {
      t := v.reply;
      return;
    }
    var L := v.res.L;
    var r := step(L.stack);
    t := r.0;
    L.stack := r.1;
  }

  /** A fresh handle closes once; the second close is the "not initialized"
   *  error and does not reach the VM. */
  method CloseTwice() returns (first: Term, second: Term)
    ensures first == OkAtom
    ensures second == NifError(LUA_ERROR)
  {
    var h := NewState(true, []);
    first := Close(1, h);
    second := Close(1, h);
  }
}
