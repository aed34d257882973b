/** The growable buffer `lua_writer` fills while lua_dump serializes a function.
 *
 *  The buffer is `{bin, cur, size}`: storage, bytes written, capacity. It
 *  starts as `{NULL, 0, 0}`; the first chunk allocates max(chunk, 512) bytes,
 *  and a later chunk that does not fit grows the capacity by the shortfall or
 *  one 512-byte block, whichever is larger. Growth is therefore additive,
 *  never geometric, and never leaves more than one block unused.
 */
module BytecodeWriter {
  import opened LuaApi

  const BLOCK_SIZE: nat := 512

  /** The observable part of a writer: whether it holds storage, the cursor
   *  and the capacity. */
  datatype Shape = Shape(hasStorage: bool, cur: nat, size: nat)

  const Unused := Shape(false, 0, 0)

  function Max(a: nat, b: nat): nat
  {
    if a > b then a else b
  }

  /** Whether writing `n` more bytes has to allocate (first write) or
   *  reallocate (the chunk exceeds the free space). */
  predicate NeedsAlloc(s: Shape, n: nat)
    requires s.cur <= s.size
  {
    !s.hasStorage || n > s.size - s.cur
  }

  /** The capacity lua_writer sets when asked to take `n` bytes; it is set
   *  before the allocation is attempted, so also when the allocation fails. */
  function Capacity(s: Shape, n: nat): (r: nat)
    requires s.cur <= s.size
    ensures !s.hasStorage ==> r >= n && r >= BLOCK_SIZE && r <= n + BLOCK_SIZE
    ensures s.hasStorage ==> r >= s.size
    ensures s.hasStorage ==> (r == s.size <==> !NeedsAlloc(s, n))
    ensures s.hasStorage && NeedsAlloc(s, n) ==> r - s.size >= BLOCK_SIZE
    ensures s.hasStorage || s.cur == 0 ==> s.cur + n <= r
  {
    if !s.hasStorage then Max(n, BLOCK_SIZE)
    else if n > s.size - s.cur then s.size + Max(n - (s.size - s.cur), BLOCK_SIZE)
    else s.size
  }

  /** The shape after a successful write of `n` bytes. */
  function Grow(s: Shape, n: nat): (r: Shape)
    requires s.cur <= s.size
    requires !s.hasStorage ==> s.cur == 0
    ensures r.hasStorage && r.cur == s.cur + n && r.cur <= r.size
    ensures s.hasStorage ==> s.size <= r.size
    ensures s.size <= s.cur + BLOCK_SIZE ==> r.size <= r.cur + BLOCK_SIZE
  {
    Shape(true, s.cur + n, Capacity(s, n))
  }

  /** All chunks, in the order they were written. */
  function Concat(chunks: seq<seq<byte>>): seq<byte>
  {
    if chunks == [] then []
    else Concat(chunks[..|chunks| - 1]) + chunks[|chunks| - 1]
  }

  /** The shape after every chunk of `chunks` was written successfully,
   *  starting from `{NULL, 0, 0}`. */
  function ShapeAfter(chunks: seq<seq<byte>>): (r: Shape)
    ensures r.cur == |Concat(chunks)|
    ensures r.cur <= r.size <= r.cur + BLOCK_SIZE
    ensures r.hasStorage <==> chunks != []
    ensures chunks != [] ==> r.size >= BLOCK_SIZE
    ensures chunks == [] ==> r == Unused
  {
    if chunks == [] then Unused
    else Grow(ShapeAfter(chunks[..|chunks| - 1]), |chunks[|chunks| - 1]|)
  }

  lemma AppendChunk(chunks: seq<seq<byte>>, p: seq<byte>)
    ensures Concat(chunks + [p]) == Concat(chunks) + p
    ensures ShapeAfter(chunks + [p]) == Grow(ShapeAfter(chunks), |p|)
  {
  }

  /** Capacity never decreases across successful writes. */
  lemma {:induction false} CapacityMonotone(chunks: seq<seq<byte>>, k: nat)
    requires k <= |chunks|
    ensures ShapeAfter(chunks[..k]).size <= ShapeAfter(chunks).size
    decreases |chunks| - k
  {
    if k < |chunks| {
      var prefix := chunks[..|chunks| - 1];
      assert chunks[..k] == prefix[..k];
      CapacityMonotone(prefix, k);
    } else {
      assert chunks[..k] == chunks;
    }
  }

  /** The concatenation of a prefix of the chunks is a prefix of the whole. */
  lemma {:induction false} ConcatPrefix(chunks: seq<seq<byte>>, k: nat)
    requires k <= |chunks|
    ensures Concat(chunks[..k]) <= Concat(chunks)
    decreases |chunks| - k
  {
    if k < |chunks| {
      var prefix := chunks[..|chunks| - 1];
      assert chunks[..k] == prefix[..k];
      ConcatPrefix(prefix, k);
      assert chunks == prefix + [chunks[|chunks| - 1]];
      AppendChunk(prefix, chunks[|chunks| - 1]);
    } else {
      assert chunks[..k] == chunks;
    }
  }

  /** Whether the allocation the `j`-th write needs, if any, was granted. */
  predicate WriteGranted(chunks: seq<seq<byte>>, granted: seq<bool>, j: nat)
    requires j < |chunks| && j < |granted|
  {
    NeedsAlloc(ShapeAfter(chunks[..j]), |chunks[j]|) ==> granted[j]
  }

  /** realloc: a larger block that starts with the old block's bytes. */
  method Realloc(a: array<byte>, n: nat) returns (b: array<byte>)
    requires a.Length <= n
    ensures fresh(b) && b.Length == n && b[..a.Length] == a[..]
  {
    b := new byte[n];
    forall k | 0 <= k < a.Length {
      b[k] := a[k];
    }
  }

  /** memcpy(a + at, p, |p|). */
  method CopyAt(a: array<byte>, at: nat, p: seq<byte>)
    requires at + |p| <= a.Length
    modifies a
    ensures a[..at + |p|] == old(a[..at]) + p
  {
    forall k | 0 <= k < |p| {
      a[at + k] := p[k];
    }
    assert a[..at + |p|] == old(a[..at]) + p;
  }

  /** The writer state `writer_t`. */
  class Writer {
    var bin: array?<byte>
    var cur: nat
    var size: nat
    /** The chunks written so far. */
    ghost var chunks: seq<seq<byte>>

    /** The writer's current shape. */
    function View(): Shape
      reads this
    {
      Shape(bin != null, cur, size)
    }

    ghost predicate Valid()
      reads this, bin
    {
      View() == ShapeAfter(chunks) &&
      (bin == null ==> chunks == []) &&
      (bin != null ==> bin.Length == size && bin[..cur] == Concat(chunks))
    }

    /** `writer_t wrt = { NULL, 0, 0 }`. */
    constructor ()
      ensures Valid() && chunks == [] && bin == null && cur == 0 && size == 0
    {
      bin, cur, size := null, 0, 0;
      chunks := [];
    }

    /** The bytes written so far, `bin[0..cur)`; empty when nothing was allocated. */
    function Written(): (r: seq<byte>)
      reads this, bin
      requires Valid()
      ensures r == Concat(chunks)
    {
      if bin == null then [] else bin[..cur]
    }

    /** The allocation half of lua_writer: makes room for `n` more bytes at
     *  the cursor, allocating on the first write and reallocating when the
     *  free space is short. */
    method Reserve(n: nat, granted: bool) returns (status: int)
      requires Valid()
      modifies this
      ensures cur == old(cur) && chunks == old(chunks)
      ensures size == Capacity(old(View()), n)
      ensures status == 0 || status == 1
      ensures status == 1 <==> NeedsAlloc(old(View()), n) && !granted
      ensures status == 0 ==> bin != null && (bin == old(bin) || fresh(bin))
      ensures status == 0 ==> bin.Length == size && cur + n <= size && bin[..cur] == Concat(chunks)
      ensures status == 1 ==> bin == null
    {
      status := 0;
      if bin == null {
        size := if n > BLOCK_SIZE then n else BLOCK_SIZE;
        if !granted {
          status := 1;
          return;
        }
        bin := new byte[size];
      } else {
        var avail := size - cur;
        if n > avail {
          size := size + (if n - avail > BLOCK_SIZE then n - avail else BLOCK_SIZE);
          if !granted {
            bin := null;
            status := 1;
            return;
          }
          bin := Realloc(bin, size);
        }
      }
    }

    /** lua_writer: appends `p` at the cursor. `granted` is whether malloc or
     *  realloc succeeds when it is called. Answers 0, or 1 when an allocation
     *  the write needed failed; a failed realloc loses the storage. */
    method Write(p: seq<byte>, granted: bool) returns (status: int)
      requires Valid()
      modifies this, bin
      ensures status == 0 || status == 1
      ensures status == 1 <==> NeedsAlloc(old(View()), |p|) && !granted
      ensures size == Capacity(old(View()), |p|)
      ensures status == 0 ==> Valid() && chunks == old(chunks) + [p]
      ensures status == 0 ==> Written() == old(Written()) + p && cur == old(cur) + |p|
      ensures status == 0 ==> bin == old(bin) || fresh(bin)
      ensures status == 1 ==> bin == null && cur == old(cur)
    {
      ghost var s0 := View();
      status := Reserve(|p|, granted);
      if status == 1 {
        return;
      }
      CopyAt(bin, cur, p);
      cur := cur + |p|;
      AppendChunk(chunks, p);
      chunks := chunks + [p];
      assert View() == Grow(s0, |p|);
    }

    /** The closing `free(wrt.bin)` of nif_dump: the writer keeps no storage. */
    method Free()
      modifies this
      ensures bin == null && cur == old(cur) && size == old(size)
    {
      bin := null;
    }
  }

  /** lua_dump's side of the protocol: it hands the serialized function to the
   *  writer chunk by chunk and stops at the first non-zero answer, which
   *  becomes its own result. `granted[j]` is the fate of the allocation the
   *  `j`-th write asks for, if it asks. */
  method Serialize(w: Writer, chunks: seq<seq<byte>>, granted: seq<bool>) returns (status: int)
    requires w.Valid() && w.chunks == []
    requires |granted| == |chunks|
    modifies w
    ensures status == 0 || status == 1
    ensures status == 0 <==> forall j :: 0 <= j < |chunks| ==> WriteGranted(chunks, granted, j)
    ensures status == 0 ==> w.Valid() && w.chunks == chunks && w.Written() == Concat(chunks)
    ensures status == 0 ==> w.View() == ShapeAfter(chunks)
    ensures status == 1 ==> w.bin == null
  {
    status := 0;
    var i := 0;
    while i < |chunks| && status == 0
      invariant 0 <= i <= |chunks|
      invariant status == 0 || status == 1
      invariant w.bin == null || fresh(w.bin)
      invariant status == 0 ==> w.Valid() && w.chunks == chunks[..i]
      invariant status == 0 ==> forall j :: 0 <= j < i ==> WriteGranted(chunks, granted, j)
      invariant status == 1 ==> w.bin == null
      invariant status == 1 ==> exists j :: 0 <= j < i && !WriteGranted(chunks, granted, j)
    {
      assert w.View() == ShapeAfter(chunks[..i]);
      status := w.Write(chunks[i], granted[i]);
      if status == 0 {
        assert chunks[..i + 1] == chunks[..i] + [chunks[i]];
      } else {
        assert !WriteGranted(chunks, granted, i);
      }
      i := i + 1;
    }
    if status == 0 {
      assert chunks[..|chunks|] == chunks;
    }
  }
}
