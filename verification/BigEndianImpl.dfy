/** The buffers that readers and writers advance through, and cursors on them. */
module BigEndianImpl {
  import opened Common
  import opened BigEndianSpec

  /** BigEndianReader and BigEndianWriter on a span of memory. */
  class BigEndianBuffer {
    const data: array<Byte>
    const bigEndian: bool  // IsBigEndianArchitecture
    var offset: nat
    ghost var origins: seq<nat>  // where each open cursor goes back to, the innermost last

    ghost predicate Valid()
      reads this
    {
      offset <= data.Length && forall i :: 0 <= i < |origins| ==> origins[i] <= data.Length
    }

    /** The buffer as its cursors see it. */
    ghost function Cursors(): Cursors
      reads this
    {
      BigEndianSpec.Cursors(offset, origins)
    }

    ghost function State(): Buffer
      reads this, data
    {
      Buffer(data[..], offset)
    }

    constructor (data: array<Byte>, bigEndian: bool)
      ensures Valid() && this.data == data && this.bigEndian == bigEndian && State() == Buffer(data[..], 0)
      ensures origins == []
    {
      this.data := data;
      this.bigEndian := bigEndian;
      offset := 0;
      origins := [];
    }

    method Skip(length: nat) returns (ok: bool)
      requires Valid()
      modifies this`offset
      ensures Valid() && (State(), ok) == BigEndianSpec.Skip(old(State()), length)
      ensures Cursors() == CursorStep(old(Cursors()), Move(offset))
    {
      if length > data.Length - offset {
        return false;
      }
      offset := offset + length;
      return true;
    }

    /** Copies a byte span into the remaining memory. */
    method WriteBytes(bytes: seq<Byte>) returns (ok: bool)
      requires Valid()
      modifies this`offset, data
      ensures Valid() && (State(), ok) == Put(old(State()), bytes)
      ensures Cursors() == CursorStep(old(Cursors()), Move(offset))
    {
      if data.Length - offset < |bytes| {
        return false;
      }
      ghost var before := data[..];
      for i := 0 to |bytes|
        invariant offset == old(offset)
        invariant forall k :: 0 <= k < data.Length ==>
                    data[k] == if offset <= k < offset + i then bytes[k - offset] else before[k]
      {
        data[offset + i] := bytes[i];
      }
      assert data[..] == before[..offset] + bytes + before[offset + |bytes|..];
      ok := Skip(|bytes|);
    }

    /** Copies the next bytes out. */
    method ReadBytes(out: array<Byte>) returns (ok: bool)
      requires Valid() && out != data
      modifies this`offset, out
      ensures Valid()
      ensures var (b, bytes) := Get(old(State()), out.Length);
              && State() == b && ok == bytes.Some?
              && out[..] == if ok then bytes.value else old(out[..])
      ensures Cursors() == CursorStep(old(Cursors()), Move(offset))
    {
      if data.Length - offset < out.Length {
        return false;
      }
      for i := 0 to out.Length
        invariant offset == old(offset)
        invariant out[..i] == data[offset..offset + i]
      {
        out[i] := data[offset + i];
      }
      assert out[..out.Length] == out[..];
      ok := Skip(out.Length);
    }

    method WriteNumber(width: nat, signed: bool, value: int) returns (ok: bool)
      requires Valid() && ValidField(Number(width, signed, value))
      modifies this`offset, data
      ensures Valid() && (State(), ok) == Write(bigEndian, old(State()), Number(width, signed, value))
      ensures Cursors() == CursorStep(old(Cursors()), Move(offset))
    {
      var u: nat := ToUnsigned(width, value);
      if !bigEndian {
        u := ByteSwap(width, u);
      }
      ok := WriteBytes(ToMemory(bigEndian, width, u));
    }

    method ReadNumber(width: nat, signed: bool) returns (value: Option<int>)
      requires Valid()
      modifies this`offset
      ensures Valid() && data[..] == old(data[..])
      ensures var (b, f) := Read(bigEndian, old(State()), NumberShape(width, signed));
              State() == b && value == if f.Some? then Some(f.value.value) else None
      ensures Cursors() == CursorStep(old(Cursors()), Move(offset))
    {
      if data.Length - offset < width {
        return None;
      }
      var u := FromMemory(bigEndian, data[offset..offset + width]);
      if !bigEndian {
        u := ByteSwap(width, u);
      }
      value := Some(if signed then ToSigned(width, u) else u);
      assert data[offset..offset + width] == data[..][offset..offset + width];
      var _ := Skip(width);
    }
  }

  /** BigEndianBuffer::Cursor: goes back to where it was opened or last committed. */
  class Cursor {
    const buffer: BigEndianBuffer
    ghost const level: nat  // how many cursors of the buffer were open before
    var originOffset: nat

    /** The cursor is open, and its origin is the one that the buffer's stack of cursors has for it. */
    ghost predicate Valid()
      reads this, buffer
    {
      buffer.Valid() && level < |buffer.origins| && buffer.origins[level] == originOffset
    }

    constructor (buffer: BigEndianBuffer)
      requires buffer.Valid()
      modifies buffer`origins
      ensures this.buffer == buffer && Valid() && level == |old(buffer.origins)|
      ensures buffer.Cursors() == CursorStep(old(buffer.Cursors()), Open)
    {
      this.buffer := buffer;
      level := |buffer.origins|;
      originOffset := buffer.offset;
      new;
      buffer.origins := buffer.origins + [buffer.offset];
    }

    method Commit()
      requires Valid()
      modifies this, buffer`origins
      ensures Valid()
      ensures buffer.Cursors() == CursorStep(old(buffer.Cursors()), BigEndianSpec.Commit(level))
    {
      originOffset := buffer.offset;
      buffer.origins := buffer.origins[level := buffer.offset];
    }

    /** The destructor; cursors go out of scope in the reverse order of their opening. */
    method Close()
      requires Valid() && level == |buffer.origins| - 1
      modifies buffer`offset, buffer`origins
      ensures buffer.Valid()
      ensures buffer.Cursors() == CursorStep(old(buffer.Cursors()), BigEndianSpec.Close)
    {
      buffer.offset := originOffset;
      buffer.origins := buffer.origins[..level];
    }
  }
}
