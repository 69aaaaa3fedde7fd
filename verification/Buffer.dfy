/** Byte buffer with a fixed capacity, filled at the end and emptied at the front. */
module ByteBuffer {
  import opened Bytes

  class Buffer {
    const data: array<uint8>
    var len: nat

    ghost predicate Valid()
      reads this
    {
      len <= data.Length < U16
    }

    ghost function Contents(): (r: seq<uint8>)
      requires Valid()
      reads this, data
      ensures |r| == len
    {
      data[..len]
    }

    constructor (cap: nat)
      requires cap < U16
      ensures Valid() && fresh(data) && data.Length == cap && len == 0
    {
      data := new uint8[cap];
      len := 0;
    }

    method Clean()
      requires Valid()
      modifies this`len
      ensures Valid() && len == 0
    {
      len := 0;
    }

    /** The bytes kept move to the front of the array. */
    method PopFront(num: nat)
      requires Valid()
      modifies this`len, data
      ensures Valid()
      ensures Contents() == if old(len) <= num then [] else old(Contents())[num..]
    {
      if len <= num {
        len := 0;
        return;
      }
      forall i | 0 <= i < len - num {
        data[i] := data[num + i];
      }
      len := len - num;
    }

    /** There is no check for room here; the callers have to leave it. */
    method Push(byte: uint8)
      requires Valid() && len < data.Length
      modifies this`len, data
      ensures Valid() && Contents() == old(Contents()) + [byte]
    {
      data[len] := byte;
      len := len + 1;
    }
  }
}
