/** Ring buffer that overwrites its oldest bytes, as a bounded byte sequence. */
module RingBuffer {
  import opened Bytes

  /** The newest n bytes. */
  function Newest(s: seq<uint8>, n: nat): (r: seq<uint8>)
    ensures |r| == Min(|s|, n)
  {
    if |s| <= n then s else s[|s| - n..]
  }

  /** They stand at the end. */
  lemma NewestAtEnd(s: seq<uint8>, n: nat)
    ensures s == s[..|s| - Min(|s|, n)] + Newest(s, n)
  {
  }

  lemma NewestOfMore(s: seq<uint8>, t: seq<uint8>, n: nat)
    ensures Newest(Newest(s, n) + t, n) == Newest(s + t, n)
  {
  }

  class Ring {
    const buffer: array<uint8>
    var read: nat
    var write: nat
    var full: bool

    ghost predicate Valid()
      reads this
    {
      read < buffer.Length && write < buffer.Length && (full ==> read == write)
    }

    ghost function Contents(): (r: seq<uint8>)
      requires Valid()
      reads this, buffer
      ensures |r| <= buffer.Length
    {
      if read < write || (read == write && !full) then buffer[read..write] else buffer[read..] + buffer[..write]
    }

    constructor (size: nat)
      requires size > 0
      ensures Valid() && Contents() == [] && buffer.Length == size && fresh(buffer)
    {
      buffer := new uint8[size];
      read, write, full := 0, 0, false;
    }

    lemma NextPlace(i: nat, n: nat)
      requires i < buffer.Length && n <= buffer.Length
      ensures (i + n) % buffer.Length == if i + n < buffer.Length then i + n else i + n - buffer.Length
    {
      if i + n >= buffer.Length {
        assert i + n == buffer.Length + (i + n - buffer.Length);
      }
    }

    method WriteByte(b: uint8)
      requires Valid()
      modifies this, buffer
      ensures Valid() && Contents() == Newest(old(Contents()) + [b], buffer.Length)
    {
      NextPlace(read, 1);
      NextPlace(write, 1);
      ghost var was, wasFull := Contents(), full;
      if full {
        read := (read + 1) % buffer.Length;
      }
      buffer[write] := b;
      write := (write + 1) % buffer.Length;
      full := read == write;
      ghost var now := Contents();
      if wasFull {
        assert now == was[1..] + [b];
      } else {
        assert now == was + [b];
      }
    }

    /** em_ringbuf_write */
    method Write(data: seq<uint8>) returns (bytesWritten: nat)
      requires Valid() && data != []
      modifies this, buffer
      ensures Valid() && bytesWritten == |data|
      ensures Contents() == Newest(old(Contents()) + data, buffer.Length)
    {
      bytesWritten := 0;
      ghost var was := Contents();
      for i := 0 to |data|
        invariant Valid() && bytesWritten == i
        invariant Contents() == Newest(was + data[..i], buffer.Length)
      {
        NewestOfMore(was + data[..i], [data[i]], buffer.Length);
        assert was + data[..i + 1] == was + data[..i] + [data[i]];
        WriteByte(data[i]);
        bytesWritten := bytesWritten + 1;
      }
      assert data[..|data|] == data;
    }

    /** em_ringbuf_read: the oldest bytes, which stay in the buffer. */
    method Read(data: array<uint8>, len: nat) returns (bytesRead: nat)
      requires Valid() && 0 < len <= data.Length && data != buffer
      modifies data
      ensures bytesRead == Min(len, |Contents()|)
      ensures data[..bytesRead] == Contents()[..bytesRead]
    {
      if read == write && !full {
        return 0;
      }
      ghost var all := Contents();
      bytesRead := 0;
      for i := 0 to len
        invariant bytesRead == i <= |all| && Contents() == all
        invariant data[..i] == all[..i]
      {
        NextPlace(read, i);
        var readTmp := (read + i) % buffer.Length;
        if i > 0 && readTmp == write {
          break;
        }
        assert all[i] == buffer[readTmp];
        data[i] := buffer[readTmp];
        bytesRead := bytesRead + 1;
      }
    }

    /** em_ringbuf_is_empty */
    method IsEmpty() returns (r: bool)
      requires Valid()
      ensures r == (Contents() == [])
    {
      r := read == write && !full;
    }

    /** em_ringbuf_is_full */
    method IsFull() returns (r: bool)
      requires Valid()
      ensures r == (|Contents()| == buffer.Length)
    {
      r := full;
    }

    /** em_ringbuf_len */
    method Len() returns (r: nat)
      requires Valid()
      ensures r == |Contents()|
    {
      if full {
        return buffer.Length;
      }
      r := if write >= read then write - read else buffer.Length - (read - write);
    }

    /** em_ringbuf_free_len */
    method FreeLen() returns (r: nat)
      requires Valid()
      ensures r == buffer.Length - |Contents()|
    {
      var len := Len();
      r := buffer.Length - len;
    }

    /** em_ringbuf_flush */
    method Flush()
      requires Valid()
      modifies this
      ensures Valid() && Contents() == []
    {
      read, write, full := 0, 0, false;
    }

    /** em_ringbuf_clear: drops the oldest bytes; the answer is what was asked for, not what was there. */
    method Clear(bytesToClear: nat) returns (r: nat)
      requires Valid() && bytesToClear > 0
      modifies this
      ensures Valid() && Contents() == old(Contents())[Min(bytesToClear, |old(Contents())|)..]
      ensures r == if old(Contents()) == [] then 0 else bytesToClear
    {
      var bufLen := Len();
      if bufLen == 0 {
        return 0;
      }
      if bytesToClear >= bufLen {
        Flush();
        return bytesToClear;
      }
      Skip(bytesToClear);
      return bytesToClear;
    }

    method Skip(n: nat)
      requires Valid() && 0 < n < |Contents()|
      modifies this
      ensures Valid() && Contents() == old(Contents())[n..]
    {
      NextPlace(read, n);
      read := read + n;
      read := read % buffer.Length;
      if n > 0 {
        full := false;
      }
    }
  }

  // ---- Histories ------------------------------------------------------------

  datatype Op = Write(data: seq<uint8>) | Clear(n: nat) | Flush

  predicate Legal(op: Op) {
    (op.Write? ==> op.data != []) && (op.Clear? ==> op.n > 0)
  }

  /** Everything ever written. */
  function Written(ops: seq<Op>): seq<uint8> {
    if ops == [] then []
    else Written(ops[..|ops| - 1]) + (if ops[|ops| - 1].Write? then ops[|ops| - 1].data else [])
  }

  /** How much of that is gone, cleared or overwritten. */
  function Gone(ops: seq<Op>, size: nat): (r: nat)
    ensures r <= |Written(ops)|
  {
    if ops == [] then 0
    else
      var front, op := ops[..|ops| - 1], ops[|ops| - 1];
      var gone, all := Gone(front, size), |Written(ops)|;
      match op
      case Write(_) => if all - gone > size then all - size else gone
      case Clear(n) => Min(gone + n, all)
      case Flush => all
  }

  lemma NewestWritten(all: seq<uint8>, gone: nat, data: seq<uint8>, size: nat)
    requires gone <= |all|
    ensures var more := all + data;
            Newest(all[gone..] + data, size) == more[if |more| - gone > size then |more| - size else gone..]
  {
    assert all[gone..] + data == (all + data)[gone..];
  }

  lemma ClearedWritten(all: seq<uint8>, gone: nat, n: nat)
    requires gone <= |all|
    ensures all[gone..][Min(n, |all| - gone)..] == all[Min(gone + n, |all|)..]
  {
  }

  lemma OneMore(ops: seq<Op>, op: Op, size: nat)
    ensures var all, gone, later := Written(ops), Gone(ops, size), ops + [op];
            match op
            case Write(data) =>
              Written(later) == all + data
              && Gone(later, size) == if |all + data| - gone > size then |all + data| - size else gone
            case Clear(n) => Written(later) == all && Gone(later, size) == Min(gone + n, |all|)
            case Flush => Written(later) == all && Gone(later, size) == |all|
  {
    assert (ops + [op])[..|ops|] == ops;
    assert Written(ops) + [] == Written(ops);
  }

  method RunOp(ring: Ring, op: Op, ghost ops: seq<Op>)
    requires ring.Valid() && Legal(op) && ring.Contents() == Written(ops)[Gone(ops, ring.buffer.Length)..]
    modifies ring, ring.buffer
    ensures ring.Valid() && ring.Contents() == Written(ops + [op])[Gone(ops + [op], ring.buffer.Length)..]
  {
    ghost var all, gone, size := Written(ops), Gone(ops, ring.buffer.Length), ring.buffer.Length;
    ghost var later, from := Written(ops + [op]), Gone(ops + [op], size);
    match op
    case Write(data) =>
      assert Newest(all[gone..] + data, size) == later[from..] by {
        OneMore(ops, op, size);
        NewestWritten(all, gone, data, size);
      }
      var n := ring.Write(data);
    case Clear(n) =>
      assert all[gone..][Min(n, |all| - gone)..] == later[from..] by {
        OneMore(ops, op, size);
        ClearedWritten(all, gone, n);
      }
      var r := ring.Clear(n);
    case Flush =>
      assert later[from..] == [] by {
        OneMore(ops, op, size);
      }
      ring.Flush();
  }

  /** After any operations the ring holds what was written last and is not gone. */
  method RunOps(ring: Ring, ops: seq<Op>)
    requires ring.Valid() && ring.Contents() == [] && forall i | 0 <= i < |ops| :: Legal(ops[i])
    modifies ring, ring.buffer
    ensures ring.Valid() && ring.Contents() == Written(ops)[Gone(ops, ring.buffer.Length)..]
  {
    for i := 0 to |ops|
      invariant ring.Valid() && ring.Contents() == Written(ops[..i])[Gone(ops[..i], ring.buffer.Length)..]
    {
      RunOp(ring, ops[i], ops[..i]);
      assert ops[..i + 1] == ops[..i] + [ops[i]];
    }
    assert ops[..|ops|] == ops;
  }
}
