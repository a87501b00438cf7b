/** The growable byte buffers of a connection (src/network/buffer.c). */
module Buffers {
  import opened Bytes

  const BUFFER_LENGTH: nat := 1024

  /** `kvs_input_buffer_t` and `kvs_output_buffer_t`. */
  class ByteBuffer {
    var data: array<Byte>
    var length: nat

    ghost predicate Valid()
      reads this, data
    {
      length <= data.Length <= INT_MAX
    }

    /** The bytes not consumed or not sent yet. */
    ghost function Contents(): ByteString
      requires Valid()
      reads this, data
    {
      data[..length]
    }

    constructor ()
      ensures Valid() && Contents() == [] && fresh(data)
    {
      data := new Byte[0];
      length := 0;
    }

    /** The doubling that avoids overflowing an `int`. */
    static method GrownCapacity(capacity: nat, required: nat) returns (grown: nat)
      requires capacity <= INT_MAX && required <= INT_MAX
      ensures required <= grown <= INT_MAX
    {
      grown := if capacity > 0 then capacity else BUFFER_LENGTH;
      while grown < required
        invariant 0 < grown <= INT_MAX
        decreases required - grown
      {
        grown := if grown > INT_MAX / 2 then required else grown * 2;
      }
    }

    /** `ensure_buffer_space`: fails only when the length would not fit an `int`, and then
        changes nothing; the contents never change. */
    method EnsureSpace(minimumFree: nat) returns (ok: bool)
      requires Valid() && 0 < minimumFree
      modifies this
      ensures Valid() && Contents() == old(Contents()) && length == old(length)
      ensures data == old(data) || fresh(data)
      ensures ok ==> data.Length - length >= minimumFree
      ensures !ok ==> data == old(data) && length + minimumFree > INT_MAX
    {
      if data.Length - length >= minimumFree { return true; }
      if length > INT_MAX - minimumFree { return false; }
      var capacity := GrownCapacity(data.Length, length + minimumFree);
      var moved := new Byte[capacity](_ => 0);
      for i := 0 to length
        invariant data == old(data) && length == old(length) && moved[..i] == data[..i]
      {
        moved[i] := data[i];
      }
      data := moved;
      return true;
    }

    /** Bytes written into the free part. */
    method Put(bytes: ByteString)
      requires Valid() && length + |bytes| <= data.Length
      modifies this`length, data
      ensures Valid() && Contents() == old(Contents()) + bytes
    {
      ghost var before := data[..length];
      forall i | 0 <= i < |bytes| {
        data[length + i] := bytes[i];
      }
      assert data[..length] == before;
      assert data[..length + |bytes|] == before + bytes;
      length := length + |bytes|;
    }

    /** `kvs_input_buffer_consume`: the rest moves to the front. */
    method Consume(count: nat) returns (ok: bool)
      requires Valid()
      modifies this`length, data
      ensures Valid() && (ok <==> count <= old(length))
      ensures Contents() == if ok then old(Contents())[count..] else old(Contents())
    {
      if count > length { return false; }
      var remaining := length - count;
      if count > 0 {
        ghost var before := data[..];
        for i := 0 to remaining
          invariant length == old(length) && remaining == length - count
          invariant forall k :: 0 <= k < i ==> data[k] == before[k + count]
          invariant forall k :: i <= k < data.Length ==> data[k] == before[k]
        {
          data[i] := data[i + count];
        }
      }
      length := remaining;
      return true;
    }

    /** Everything was sent; the memory stays allocated. */
    method Clear()
      requires Valid()
      modifies this`length
      ensures Valid() && Contents() == []
    {
      length := 0;
    }
  }
}
