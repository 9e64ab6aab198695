/** sizebuf_t: a bounded byte buffer that is appended to in place. */
module SizeBuffer {
  import opened Bytes
  import opened Options

  /** The value of a buffer. */
  datatype Buf = Buf(contents: seq<byte>, maxsize: nat, allowOverflow: bool, overflowed: bool)

  /** An append either fails (Sys_Error) or yields the new value; when the bytes do not fit but
      overflowing is allowed, what was there is dropped and the buffer remembers that. */
  function Written(b: Buf, bytes: seq<byte>): Option<Buf> {
    if |b.contents| + |bytes| <= b.maxsize then
      Some(b.(contents := b.contents + bytes))
    else if !b.allowOverflow || |bytes| > b.maxsize then
      None
    else
      Some(b.(contents := bytes, overflowed := true))
  }

  /** What was appended last is at the end, and what was there before it is kept whole or not at all. */
  lemma WrittenEndsWithBytes(b: Buf, bytes: seq<byte>)
    requires Written(b, bytes).Some?
    ensures var r := Written(b, bytes).value;
            && |bytes| <= |r.contents| <= b.maxsize
            && r.contents[|r.contents| - |bytes|..] == bytes
            && r.contents[..|r.contents| - |bytes|] in {b.contents, []}
            && (r.overflowed <==> b.overflowed || |b.contents| + |bytes| > b.maxsize)
  {
    var all := b.contents + bytes;
    assert all[|all| - |bytes|..] == bytes && all[..|all| - |bytes|] == b.contents;
  }

  class SizeBuf {
    const data: array<byte>
    var maxsize: nat
    var cursize: nat
    var allowOverflow: bool
    var overflowed: bool

    ghost predicate Valid()
      reads this
    {
      cursize <= maxsize <= data.Length
    }

    ghost function Value(): Buf
      requires Valid()
      reads this, data
    {
      Buf(data[..cursize], maxsize, allowOverflow, overflowed)
    }

    /** SZ_InitEx */
    constructor (capacity: nat, maxsize: nat, allowOverflow: bool)
      requires maxsize <= capacity
      ensures Valid() && fresh(data) && data.Length == capacity
      ensures Value() == Buf([], maxsize, allowOverflow, false)
    {
      data := new byte[capacity];
      this.maxsize, this.cursize := maxsize, 0;
      this.allowOverflow, this.overflowed := allowOverflow, false;
    }

    method Clear()
      requires Valid()
      modifies this
      ensures Valid() && Value() == old(Value()).(contents := [], overflowed := false)
    {
      cursize := 0;
      overflowed := false;
    }

    /** SZ_GetSpace: the offset at which the caller may store length bytes, or None for Sys_Error. */
    method GetSpace(length: nat) returns (offset: Option<nat>)
      requires Valid()
      modifies this
      ensures Valid() && maxsize == old(maxsize) && allowOverflow == old(allowOverflow)
      ensures offset.None? <==> old(cursize) + length > maxsize && (!allowOverflow || length > maxsize)
      ensures offset.None? ==> unchanged(this)
      ensures offset.Some? ==> cursize == offset.value + length
      ensures offset.Some? && old(cursize) + length <= maxsize ==>
                offset.value == old(cursize) && overflowed == old(overflowed)
      ensures offset.Some? && old(cursize) + length > maxsize ==> offset.value == 0 && overflowed
    {
      if cursize + length > maxsize {
        if !allowOverflow || length > maxsize {
          return None;
        }
        Clear();
        overflowed := true;
      }
      offset := Some(cursize);
      cursize := cursize + length;
    }

    /** SZ_Write */
    method Write(bytes: seq<byte>) returns (ok: bool)
      requires Valid()
      modifies this, data
      ensures Valid()
      ensures ok == Written(old(Value()), bytes).Some?
      ensures Value() == if ok then Written(old(Value()), bytes).value else old(Value())
    {
      var space := GetSpace(|bytes|);
      if space.None? {
        return false;
      }
      var at := space.value;
      forall i | 0 <= i < |bytes| {
        data[at + i] := bytes[i];
      }
      ok := true;
      assert data[..at] == old(data[..cursize])[..at];
      assert data[..cursize] == data[..at] + bytes;
    }
  }
}
