/** Bytes, byte buffers and the cutting of a byte stream into chunks. */
module Bytes {

  newtype uint8 = x: int | 0 <= x < 0x100

  datatype Option<+T> = None | Some(value: T)

  const U16: nat := 0x1_0000
  const U32: nat := 0x1_0000_0000

  /** What a uint32_t counter shows after n increments from zero. */
  function Wrap(n: nat): (r: nat)
    ensures r < U32
  {
    if n < U32 then n else Wrap(n - U32)
  }

  lemma {:induction false} WrapIsModulo(n: nat)
    ensures Wrap(n) == n % U32
  {
    if n >= U32 {
      WrapIsModulo(n - U32);
    }
  }

  lemma {:induction false} WrapAdd(n: nat, k: nat)
    ensures Wrap(Wrap(n) + k) == Wrap(n + k)
  {
    if n >= U32 {
      WrapAdd(n - U32, k);
    }
  }

  /** The stream that a list of chunks carries. */
  function Flatten<T>(chunks: seq<seq<T>>): seq<T> {
    if chunks == [] then [] else Flatten(chunks[..|chunks| - 1]) + chunks[|chunks| - 1]
  }

  lemma {:induction false} FlattenPrefix<T>(chunks: seq<seq<T>>, i: nat)
    requires i < |chunks|
    ensures Flatten(chunks[..i + 1]) == Flatten(chunks[..i]) + chunks[i]
    ensures Flatten(chunks[..i + 1]) <= Flatten(chunks)
    decreases |chunks|
  {
    assert chunks[..i + 1][..i] == chunks[..i];
    if i + 1 == |chunks| {
      assert chunks[..i + 1] == chunks;
    } else {
      var init := chunks[..|chunks| - 1];
      assert init[..i] == chunks[..i] && init[..i + 1] == chunks[..i + 1];
      FlattenPrefix(init, i);
    }
  }

  lemma {:induction false} EndReachedLast<T>(chunks: seq<seq<T>>, i: nat)
    requires i <= |chunks| && forall j | 0 <= j < |chunks| :: chunks[j] != []
    ensures |Flatten(chunks[..i])| <= |Flatten(chunks)|
    ensures |Flatten(chunks[..i])| == |Flatten(chunks)| <==> i == |chunks|
    ensures |Flatten(chunks[..i])| == 0 <==> i == 0
    decreases |chunks| - i
  {
    if i == |chunks| {
      assert chunks[..i] == chunks;
    } else {
      EndReachedLast(chunks, i + 1);
      FlattenPrefix(chunks, i);
    }
    if i > 0 {
      FlattenPrefix(chunks, i - 1);
    }
  }

  lemma Regroup<T>(a: seq<T>, b: seq<T>, c: seq<T>)
    ensures a + b + c == a + (b + c)
  {
  }

  function Min(a: int, b: int): int {
    if a <= b then a else b
  }

  function LittleEndian(b: seq<uint8>): nat {
    if b == [] then 0 else b[0] as nat + 0x100 * LittleEndian(b[1..])
  }

  /** A uint32_t read from memory on a little-endian core. */
  function Le32(b: seq<uint8>): (r: nat)
    requires |b| == 4
    ensures r < U32
  {
    assert LittleEndian(b[1..][1..][1..]) < 0x100;
    assert LittleEndian(b[1..][1..]) < 0x1_0000;
    assert LittleEndian(b[1..]) < 0x100_0000;
    LittleEndian(b)
  }

  lemma Le32Value(a: uint8, b: uint8, c: uint8, d: uint8)
    ensures Le32([a, b, c, d]) == a as nat + 0x100 * b as nat + 0x1_0000 * c as nat + 0x100_0000 * d as nat
  {
    var all := [a, b, c, d];
    assert all[1..] == [b, c, d] && [b, c, d][1..] == [c, d] && [c, d][1..] == [d] && [d][1..] == [];
    assert LittleEndian([d]) == d as nat;
    assert LittleEndian([c, d]) == c as nat + 0x100 * d as nat;
    assert LittleEndian([b, c, d]) == b as nat + 0x100 * LittleEndian([c, d]);
  }

  /** memcpy into a fixed-size buffer; the precondition is that it stays inside. */
  method CopyInto(dst: array<uint8>, at: nat, src: seq<uint8>)
    requires at + |src| <= dst.Length
    modifies dst
    ensures dst[..] == old(dst[..at]) + src + old(dst[at + |src|..])
    ensures dst[..at + |src|] == old(dst[..at]) + src
  {
    forall i | 0 <= i < |src| {
      dst[at + i] := src[i];
    }
  }

  /** Writing at an index that moves on. */
  method Append(data: array<uint8>, index: nat, piece: seq<uint8>) returns (next: nat)
    requires index + |piece| <= data.Length
    modifies data
    ensures next == index + |piece|
    ensures data[..next] == old(data[..index]) + piece
  {
    CopyInto(data, index, piece);
    next := index + |piece|;
  }
}
