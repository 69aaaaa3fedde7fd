/**
  Framing of messages on a TCP stream: SLIP (RFC 1055, PROTOCOL section) with
  an additional byte that starts a frame.
 */
module Slip {
  import opened Bytes
  import opened ByteBuffer

  const BEGIN: uint8 := 0xCF
  const END: uint8 := 0xC0
  const ESC: uint8 := 0xDB
  const ESC_BEGIN: uint8 := 0xDE
  const ESC_END: uint8 := 0xDC
  const ESC_ESC: uint8 := 0xDD

  datatype Status =
    | NoError | IncompletePacket | IncompleteEscSequence | InvalidEscSequence
    | PacketStartNotFound | PacketCut | NoMemory | Unknown

  datatype EspErr = EspOk | EspFail | EspErrNoMem | EspErrInvalidArg

  // ---- Encoding -------------------------------------------------------------

  predicate Special(b: uint8) {
    b == BEGIN || b == END || b == ESC
  }

  function Escaped(b: uint8): seq<uint8> {
    if b == BEGIN then [ESC, ESC_BEGIN]
    else if b == END then [ESC, ESC_END]
    else if b == ESC then [ESC, ESC_ESC]
    else [b]
  }

  function Body(payload: seq<uint8>): seq<uint8> {
    if payload == [] then [] else Escaped(payload[0]) + Body(payload[1..])
  }

  function Encoded(payload: seq<uint8>): seq<uint8> {
    [BEGIN] + Body(payload) + [END]
  }

  function Specials(payload: seq<uint8>): nat {
    if payload == [] then 0 else (if Special(payload[0]) then 1 else 0) + Specials(payload[1..])
  }

  lemma {:induction false} BodyLength(payload: seq<uint8>)
    ensures |Body(payload)| == |payload| + Specials(payload)
  {
    if payload != [] {
      BodyLength(payload[1..]);
    }
  }

  /** Inside a frame neither delimiter occurs. */
  lemma {:induction false} BodyHasNoDelimiters(payload: seq<uint8>)
    ensures BEGIN !in Body(payload) && END !in Body(payload)
  {
    if payload != [] {
      BodyHasNoDelimiters(payload[1..]);
    }
  }

  lemma {:induction false} BodyConcat(a: seq<uint8>, b: seq<uint8>)
    ensures Body(a + b) == Body(a) + Body(b)
  {
    if a == [] {
      assert a + b == b;
    } else {
      assert (a + b)[1..] == a[1..] + b;
      BodyConcat(a[1..], b);
    }
  }

  lemma BodyStep(payload: seq<uint8>, i: nat)
    requires i < |payload|
    ensures Body(payload[..i + 1]) == Body(payload[..i]) + Escaped(payload[i])
    ensures |Body(payload[..i + 1])| <= |Body(payload)|
  {
    assert payload[..i + 1] == payload[..i] + [payload[i]];
    assert Body([payload[i]]) == Escaped(payload[i]) + Body([]);
    BodyConcat(payload[..i], [payload[i]]);
    assert payload == payload[..i + 1] + payload[i + 1..];
    BodyConcat(payload[..i + 1], payload[i + 1..]);
  }

  method Put(encoded: array<uint8>, len: nat, bytes: seq<uint8>) returns (ok: bool, next: nat)
    requires len <= encoded.Length
    modifies encoded
    ensures ok <==> len + |bytes| <= encoded.Length
    ensures ok ==> next == len + |bytes| && encoded[..next] == old(encoded[..len]) + bytes
  {
    if len + |bytes| > encoded.Length {
      return false, len;
    }
    CopyInto(encoded, len, bytes);
    return true, len + |bytes|;
  }

  method EncodeBody(encoded: array<uint8>, payload: seq<uint8>) returns (ok: bool, len: nat)
    requires encoded.Length > 0 && encoded[0] == BEGIN
    modifies encoded
    ensures ok <==> 1 + |Body(payload)| <= encoded.Length
    ensures ok ==> len == 1 + |Body(payload)| && encoded[..len] == [BEGIN] + Body(payload)
  {
    ok, len := true, 1;
    for i := 0 to |payload|
      invariant ok && len == 1 + |Body(payload[..i])| <= encoded.Length
      invariant encoded[..len] == [BEGIN] + Body(payload[..i])
    {
      BodyStep(payload, i);
      ghost var before := encoded[..len];
      ok, len := Put(encoded, len, Escaped(payload[i]));
      if !ok {
        return;
      }
      assert encoded[..len] == [BEGIN] + (Body(payload[..i]) + Escaped(payload[i]));
    }
    assert payload[..|payload|] == payload;
  }

  /** slip_encode: fills the buffer exactly when the whole frame fits. */
  method SlipEncode(encoded: array<uint8>, payload: seq<uint8>) returns (ret: EspErr, len: nat)
    requires encoded.Length > 0
    modifies encoded
    ensures payload == [] <==> ret == EspErrInvalidArg
    ensures payload != [] ==> (ret == EspOk <==> |payload| + Specials(payload) + 2 <= encoded.Length)
    ensures ret in {EspOk, EspErrNoMem, EspErrInvalidArg}
    ensures ret == EspOk ==> len == |Encoded(payload)| <= encoded.Length && encoded[..len] == Encoded(payload)
  {
    if payload == [] {
      return EspErrInvalidArg, encoded.Length;
    }
    BodyLength(payload);
    encoded[0] := BEGIN;
    var ok;
    ok, len := EncodeBody(encoded, payload);
    if ok {
      ok, len := Put(encoded, len, [END]);
    }
    ret := if ok then EspOk else EspErrNoMem;
  }

  /** slip_static_data_encoder */
  method StaticDataEncoder(encDataBuf: array<uint8>, dataIn: seq<uint8>)
    returns (ret: EspErr, dataOut: Option<seq<uint8>>)
    requires 0 < encDataBuf.Length && |dataIn| <= encDataBuf.Length
    modifies encDataBuf
    ensures dataOut == if ret == EspOk then Some(Encoded(dataIn)) else None
    ensures ret == EspOk <==> dataIn != [] && |dataIn| + Specials(dataIn) + 2 <= encDataBuf.Length
  {
    forall i | 0 <= i < encDataBuf.Length {
      encDataBuf[i] := 0;
    }
    var len;
    ret, len := SlipEncode(encDataBuf, dataIn);
    dataOut := if ret == EspOk then Some(encDataBuf[..len]) else None;
  }

  // ---- Decoding -------------------------------------------------------------

  /** What the decoder remembers between bytes. */
  datatype Flags = Flags(inside: bool, esc: bool)

  const IDLE := Flags(false, false)

  /** What one byte does: new flags, bytes for the payload, and a status if the decoder stops here. */
  datatype Effect = Effect(flags: Flags, out: seq<uint8>, stop: Option<Status>)

  function OnByte(f: Flags, b: uint8): (r: Effect)
    ensures |r.out| <= 1
    ensures f.inside && r.stop.None? ==> r.flags.inside
    ensures !f.inside && b != BEGIN ==> r == Effect(f, [], None)
  {
    if !f.inside then Effect(if b == BEGIN then f.(inside := true) else f, [], None)
    else if b == BEGIN then Effect(f.(inside := false), [], Some(PacketCut))
    else if b == ESC then Effect(f.(esc := true), [], None)
    else if b == END then Effect(IDLE, [], Some(if f.esc then IncompleteEscSequence else NoError))
    else if f.esc then
      if b == ESC_BEGIN then Effect(f.(esc := false), [BEGIN], None)
      else if b == ESC_END then Effect(f.(esc := false), [END], None)
      else if b == ESC_ESC then Effect(f.(esc := false), [ESC], None)
      else Effect(IDLE, [], Some(InvalidEscSequence))
    else Effect(f, [b], None)
  }

  datatype Outcome = Outcome(status: Status, out: seq<uint8>, flags: Flags, processed: nat)

  function Exhausted(f: Flags): Status {
    if f.inside then IncompletePacket else PacketStartNotFound
  }

  /** Decoding input from position i on, with out already decoded; cap is the capacity for decoded bytes. */
  function Scan(input: seq<uint8>, i: nat, f: Flags, out: seq<uint8>, cap: nat): (r: Outcome)
    requires i <= |input|
    ensures i <= r.processed <= |input|
    ensures |out| <= |r.out| <= |out| + r.processed - i
    ensures r.status in {IncompletePacket, PacketStartNotFound} ==>
            r.processed == |input| && r.status == Exhausted(r.flags)
    ensures r.status !in {IncompletePacket, PacketStartNotFound, NoMemory} ==> r.processed > i
    ensures r.status != Unknown && (r.status == NoMemory ==> cap < |input|)
    ensures f.inside ==> r.status != PacketStartNotFound
    decreases |input| - i
  {
    if i == |input| then Outcome(Exhausted(f), out, f, i)
    else if i >= cap then Outcome(NoMemory, out, f, i)
    else
      var e := OnByte(f, input[i]);
      if e.stop.Some? then Outcome(e.stop.value, out + e.out, e.flags, i + 1)
      else Scan(input, i + 1, e.flags, out + e.out, cap)
  }

  /** One call of decode; without input there is nothing to find, not even the rest of a frame. */
  function OneDecode(input: seq<uint8>, f: Flags, out: seq<uint8>, cap: nat): (r: Outcome)
    ensures |out| <= |r.out| <= |out| + r.processed <= |out| + |input|
    ensures r.status !in {IncompletePacket, PacketStartNotFound, NoMemory} ==> r.processed > 0
  {
    if input == [] then Outcome(PacketStartNotFound, out, f, 0) else Scan(input, 0, f, out, cap)
  }

  /** One call of slip_decode: the answer, the payload buffer, the flags and the input left over. */
  datatype Reply = Reply(status: Status, out: seq<uint8>, flags: Flags, rest: seq<uint8>)

  const MAX_DECODE_ROUNDS: nat := 16

  /** slip_decode with x rounds left. */
  function Turn(input: seq<uint8>, f: Flags, out: seq<uint8>, cap: nat, x: nat): (r: Reply)
    ensures |r.out| + |r.rest| <= |out| + |input|
    ensures r.status == NoError ==> |r.rest| < |input|
    decreases x, |input|
  {
    if x == 0 then Reply(Unknown, out, f, input)
    else
      var o := OneDecode(input, f, out, cap);
      var rest := input[o.processed..];
      if o.status == PacketCut then Turn(rest, o.flags, o.out, cap, x - 1)
      else if o.status == NoError || o.status == IncompletePacket then Reply(o.status, o.out, o.flags, rest)
      else Reply(o.status, [], o.flags, rest)
  }

  /** Whether everything that slip_decode pushes finds room. */
  predicate Fits(input: seq<uint8>, f: Flags, out: seq<uint8>, cap: nat, x: nat)
    decreases x, |input|
  {
    x > 0 ==>
      var o := OneDecode(input, f, out, cap);
      && |o.out| <= cap
      && (o.status == PacketCut ==> Fits(input[o.processed..], o.flags, o.out, cap, x - 1))
  }

  lemma {:induction false} ShortInputFits(input: seq<uint8>, f: Flags, out: seq<uint8>, cap: nat, x: nat)
    requires |out| + |input| <= cap
    ensures Fits(input, f, out, cap, x)
    decreases x, |input|
  {
    if x > 0 {
      var o := OneDecode(input, f, out, cap);
      ShortInputFits(input[o.processed..], o.flags, o.out, cap, x - 1);
    }
  }

  /** What slip_static_data_decoder comes to: the last status, the payload buffer handed out, the flags. */
  datatype Delivery = Delivery(status: Status, payload: Option<seq<uint8>>, flags: Flags)

  function Drain(input: seq<uint8>, f: Flags, out: seq<uint8>, payload: Option<seq<uint8>>, cap: nat): Delivery
    decreases |input|
  {
    var t := Turn(input, f, out, cap, MAX_DECODE_ROUNDS);
    if t.status == NoError then Drain(t.rest, t.flags, t.out, Some(t.out), cap)
    else Delivery(t.status, payload, t.flags)
  }

  class Codec {
    const decoded: Buffer
    const encoded: Buffer
    var insideOfPacket: bool
    var escActive: bool

    /** The range that Kconfig allows for the buffer sizes. */
    ghost predicate Valid()
      reads this, decoded, encoded
    {
      && decoded != encoded && decoded.data != encoded.data
      && decoded.Valid() && encoded.Valid()
      && encoded.data.Length <= decoded.data.Length
    }

    function CurrentFlags(): Flags
      reads this
    {
      Flags(insideOfPacket, escActive)
    }

    constructor (encodedCap: nat, decodedCap: nat)
      requires encodedCap <= decodedCap < U16
      ensures Valid() && CurrentFlags() == IDLE && encoded.len == decoded.len == 0
      ensures encoded.data.Length == encodedCap && decoded.data.Length == decodedCap
      ensures fresh(decoded) && fresh(encoded) && fresh(decoded.data) && fresh(encoded.data)
    {
      decoded := new Buffer(decodedCap);
      encoded := new Buffer(encodedCap);
      insideOfPacket, escActive := false, false;
    }

    /** slip_clear: the flags survive. */
    method Clear()
      requires Valid()
      modifies decoded`len, encoded`len
      ensures Valid() && decoded.len == 0 && encoded.len == 0
    {
      decoded.len := 0;
      encoded.len := 0;
    }

    /** The switch in decode for a byte inside a packet, or the byte that starts one. */
    method DecodeByte(byte: uint8) returns (stop: Option<Status>)
      requires Valid() && (insideOfPacket || byte == BEGIN)
      requires decoded.len + |OnByte(CurrentFlags(), byte).out| <= decoded.data.Length
      modifies this, decoded`len, decoded.data
      ensures Valid()
      ensures var e := OnByte(old(CurrentFlags()), byte);
              stop == e.stop && CurrentFlags() == e.flags && decoded.Contents() == old(decoded.Contents()) + e.out
      ensures decoded.len >= old(decoded.len) && decoded.data[..old(decoded.len)] == old(decoded.Contents())
    {
      stop := None;
      if byte == BEGIN {
        if !insideOfPacket {
          insideOfPacket := true;
        } else {
          insideOfPacket := false;
          stop := Some(PacketCut);
        }
      } else if byte == ESC {
        escActive := true;
      } else if byte == END {
        insideOfPacket := false;
        stop := Some(if escActive then IncompleteEscSequence else NoError);
        escActive := false;
      } else if escActive {
        escActive := false;
        if byte == ESC_BEGIN {
          decoded.Push(BEGIN);
        } else if byte == ESC_END {
          decoded.Push(END);
        } else if byte == ESC_ESC {
          decoded.Push(ESC);
        } else {
          insideOfPacket := false;
          stop := Some(InvalidEscSequence);
        }
      } else {
        decoded.Push(byte);
      }
    }

    /** decode */
    method Decode() returns (err: Status, processedNum: nat)
      requires Valid()
      requires var cap := decoded.data.Length;
               |OneDecode(encoded.Contents(), CurrentFlags(), decoded.Contents(), cap).out| <= cap
      modifies this, decoded`len, decoded.data
      ensures Valid() && Outcome(err, decoded.Contents(), CurrentFlags(), processedNum) ==
                old(OneDecode(encoded.Contents(), CurrentFlags(), decoded.Contents(), decoded.data.Length))
      ensures decoded.len >= old(decoded.len) && decoded.data[..old(decoded.len)] == old(decoded.Contents())
    {
      processedNum := 0;
      if encoded.len == 0 {
        return PacketStartNotFound, 0;
      }
      ghost var input, before := encoded.Contents(), decoded.Contents();
      ghost var total := Scan(input, 0, CurrentFlags(), before, decoded.data.Length);
      while processedNum < encoded.len
        invariant Scanning(input, processedNum, before, total)
      {
        if processedNum >= decoded.data.Length {
          return NoMemory, processedNum;
        }
        var stop;
        stop, processedNum := DecodeNext(processedNum, input, before, total);
        if stop.Some? {
          return stop.value, processedNum;
        }
      }
      err := if insideOfPacket then IncompletePacket else PacketStartNotFound;
    }

    /** The loop of decode at position n of the input; before is what had been decoded when it started. */
    ghost predicate Scanning(input: seq<uint8>, n: nat, before: seq<uint8>, total: Outcome)
      reads this, decoded, decoded.data, encoded, encoded.data
    {
      && Valid() && encoded.Contents() == input && n <= |input|
      && decoded.len >= |before| && decoded.data[..|before|] == before
      && total == Scan(input, n, CurrentFlags(), decoded.Contents(), decoded.data.Length)
    }

    /** The body of that loop. */
    method DecodeNext(n: nat, ghost input: seq<uint8>, ghost before: seq<uint8>, ghost total: Outcome)
      returns (stop: Option<Status>, next: nat)
      requires Scanning(input, n, before, total) && n < encoded.len && n < decoded.data.Length
               && |total.out| <= decoded.data.Length
      modifies this, decoded`len, decoded.data
      ensures next == n + 1 && Valid() && decoded.len >= |before| && decoded.data[..|before|] == before
      ensures stop.None? ==> Scanning(input, next, before, total)
      ensures stop.Some? ==> total == Outcome(stop.value, decoded.Contents(), CurrentFlags(), next)
    {
      stop := None;
      var encodedByte := encoded.data[n];
      assert encodedByte == input[n];
      assert decoded.Contents() + [] == decoded.Contents();
      next := n + 1;
      if insideOfPacket || encodedByte == BEGIN {
        stop := DecodeByte(encodedByte);
      }
    }

    /** slip_add_data; the 32-bit sum of the lengths must not wrap. */
    method AddData(newEncodedData: seq<uint8>) returns (ret: EspErr)
      requires Valid() && |newEncodedData| + U16 <= U32
      modifies encoded`len, encoded.data
      ensures Valid()
      ensures ret == if newEncodedData == [] then EspErrInvalidArg
                     else if old(encoded.len) + |newEncodedData| > encoded.data.Length then EspErrNoMem else EspOk
      ensures encoded.Contents() == old(encoded.Contents()) + if ret == EspOk then newEncodedData else []
    {
      if newEncodedData == [] {
        return EspErrInvalidArg;
      }
      var neededBufLen := encoded.len + |newEncodedData|;
      if encoded.data.Length < neededBufLen {
        return EspErrNoMem;
      }
      CopyInto(encoded.data, encoded.len, newEncodedData);
      encoded.len := neededBufLen;
      return EspOk;
    }

    /** slip_decode */
    method SlipDecode() returns (err: Status)
      requires Valid()
      requires Fits(encoded.Contents(), CurrentFlags(), decoded.Contents(), decoded.data.Length, MAX_DECODE_ROUNDS)
      modifies this, decoded`len, decoded.data, encoded`len, encoded.data
      ensures Valid() && Reply(err, decoded.Contents(), CurrentFlags(), encoded.Contents()) ==
                old(Turn(encoded.Contents(), CurrentFlags(), decoded.Contents(), decoded.data.Length,
                         MAX_DECODE_ROUNDS))
      ensures decoded.data[..old(decoded.len)] == old(decoded.Contents())
    {
      ghost var total := Turn(encoded.Contents(), CurrentFlags(), decoded.Contents(), decoded.data.Length,
                              MAX_DECODE_ROUNDS);
      for x := 0 to MAX_DECODE_ROUNDS
        invariant Valid()
        invariant decoded.len >= old(decoded.len) && decoded.data[..old(decoded.len)] == old(decoded.Contents())
        invariant Fits(encoded.Contents(), CurrentFlags(), decoded.Contents(), decoded.data.Length,
                       MAX_DECODE_ROUNDS - x)
        invariant total == Turn(encoded.Contents(), CurrentFlags(), decoded.Contents(), decoded.data.Length,
                                MAX_DECODE_ROUNDS - x)
      {
        var stop;
        err, stop := DecodeRound();
        if stop {
          return;
        }
      }
      err := Unknown;
    }

    /** One round of slip_decode; what decode has processed is discarded. */
    method DecodeRound() returns (err: Status, stop: bool)
      requires Valid()
      requires var cap := decoded.data.Length;
               |OneDecode(encoded.Contents(), CurrentFlags(), decoded.Contents(), cap).out| <= cap
      modifies this, decoded`len, decoded.data, encoded`len, encoded.data
      ensures Valid() && decoded.data[..old(decoded.len)] == old(decoded.Contents())
      ensures !stop ==> decoded.len >= old(decoded.len)
      ensures var o := old(OneDecode(encoded.Contents(), CurrentFlags(), decoded.Contents(), decoded.data.Length));
              && err == o.status && CurrentFlags() == o.flags && stop == (err != PacketCut)
              && encoded.Contents() == old(encoded.Contents())[o.processed..]
              && decoded.Contents() == if err in {PacketCut, NoError, IncompletePacket} then o.out else []
    {
      var processedNum;
      err, processedNum := Decode();
      encoded.PopFront(processedNum);
      stop := err != PacketCut;
      if err != PacketCut && err != IncompletePacket && err != NoError {
        decoded.Clean();
      }
    }

    /** slip_static_data_decoder; dataOut is what the buffer handed out shows when the call returns. */
    method StaticDataDecoder(dataIn: seq<uint8>) returns (ret: EspErr, dataOut: Option<seq<uint8>>)
      requires Valid() && encoded.len == 0 && |dataIn| <= decoded.data.Length
      modifies this, decoded`len, decoded.data, encoded`len, encoded.data
      ensures Valid() && encoded.len == decoded.len == 0
      ensures dataIn == [] ==> ret == EspErrInvalidArg
      ensures |dataIn| > encoded.data.Length ==> ret == EspErrNoMem
      ensures 0 < |dataIn| <= encoded.data.Length ==>
                var d := Drain(dataIn, old(CurrentFlags()), [], None, decoded.data.Length);
                && CurrentFlags() == d.flags && dataOut == d.payload
                && ret == if d.status == PacketStartNotFound then EspOk else EspFail
    {
      dataOut := None;
      decoded.PopFront(decoded.len);
      forall i | 0 <= i < decoded.data.Length {
        decoded.data[i] := 0;
      }
      forall i | 0 <= i < encoded.data.Length {
        encoded.data[i] := 0;
      }
      ret := AddData(dataIn);
      if ret != EspOk {
        return;
      }
      ghost var total := Drain(dataIn, CurrentFlags(), [], None, decoded.data.Length);
      assert encoded.Contents() == dataIn && decoded.Contents() == [];
      var err, lenOut := DrainLoop(dataIn);
      if lenOut.Some? {
        dataOut := Some(decoded.data[..lenOut.value]);
      }
      Clear();
      ret := if err == PacketStartNotFound then EspOk else EspFail;
    }

    /** The loop of slip_static_data_decoder: decode until a call does not end with a frame. */
    method DrainLoop(ghost dataIn: seq<uint8>) returns (err: Status, lenOut: Option<nat>)
      requires Valid() && encoded.Contents() == dataIn && decoded.Contents() == [] && |dataIn| <= decoded.data.Length
      modifies this, decoded`len, decoded.data, encoded`len, encoded.data
      ensures Valid()
      ensures var d := Drain(dataIn, old(CurrentFlags()), [], None, decoded.data.Length);
              && err == d.status && CurrentFlags() == d.flags
              && (lenOut.Some? <==> d.payload.Some?)
              && (lenOut.Some? ==>
                    lenOut.value <= decoded.data.Length && decoded.data[..lenOut.value] == d.payload.value)
    {
      ghost var total := Drain(dataIn, CurrentFlags(), [], None, decoded.data.Length);
      ghost var payload: Option<seq<uint8>> := None;
      lenOut := None;
      err := Unknown;
      var done := false;
      while !done
        invariant Valid()
        invariant lenOut.Some? <==> payload.Some?
        invariant lenOut.Some? ==> lenOut.value <= decoded.data.Length && decoded.data[..lenOut.value] == payload.value
        invariant !done ==> decoded.len + encoded.len <= decoded.data.Length
        invariant !done && lenOut.Some? ==> lenOut.value == decoded.len
        invariant !done ==> total == Drain(encoded.Contents(), CurrentFlags(), decoded.Contents(), payload,
                                           decoded.data.Length)
        invariant done ==> total == Delivery(err, payload, CurrentFlags())
        decreases !done, encoded.len
      {
        ShortInputFits(encoded.Contents(), CurrentFlags(), decoded.Contents(), decoded.data.Length, MAX_DECODE_ROUNDS);
        err := SlipDecode();
        if err == NoError {
          lenOut := Some(decoded.len);
          payload := Some(decoded.Contents());
        } else {
          done := true;
        }
      }
    }
  }

  // ---- What a frame decodes to ----------------------------------------------

  lemma {:induction false} SkipGarbage(input: seq<uint8>, i: nat, j: nat, f: Flags, out: seq<uint8>, cap: nat)
    requires i <= j <= |input| <= cap && !f.inside
    requires forall k | i <= k < j :: input[k] != BEGIN
    ensures Scan(input, i, f, out, cap) == Scan(input, j, f, out, cap)
    decreases j - i
  {
    if i < j {
      assert out + [] == out;
      SkipGarbage(input, i + 1, j, f, out, cap);
    }
  }

  predicate Occurs(input: seq<uint8>, i: nat, s: seq<uint8>) {
    i + |s| <= |input| && input[i..i + |s|] == s
  }

  lemma OccursParts(input: seq<uint8>, i: nat, a: seq<uint8>, b: seq<uint8>)
    requires Occurs(input, i, a + b)
    ensures Occurs(input, i, a) && Occurs(input, i + |a|, b)
  {
    assert input[i..i + |a|] == (a + b)[..|a|];
    assert input[i + |a|..i + |a| + |b|] == (a + b)[|a|..];
  }

  const INSIDE := Flags(true, false)

  lemma {:induction false} ScanBodyTo(input: seq<uint8>, i: nat, e: nat, p: seq<uint8>, out: seq<uint8>,
                                      all: seq<uint8>, cap: nat)
    requires Occurs(input, i, Body(p)) && |input| <= cap && e == i + |Body(p)| && all == out + p
    ensures Scan(input, i, INSIDE, out, cap) == Scan(input, e, INSIDE, all, cap)
    decreases |p|
  {
    if p == [] {
      assert all == out;
    } else {
      OccursParts(input, i, Escaped(p[0]), Body(p[1..]));
      ScanEscaped(input, i, p[0], out, cap);
      Complete(out, [p[0]], p);
      ScanBodyTo(input, i + |Escaped(p[0])|, e, p[1..], out + [p[0]], all, cap);
    }
  }

  lemma ScanBody(input: seq<uint8>, i: nat, p: seq<uint8>, out: seq<uint8>, cap: nat)
    requires Occurs(input, i, Body(p)) && |input| <= cap
    ensures Scan(input, i, INSIDE, out, cap) == Scan(input, i + |Body(p)|, INSIDE, out + p, cap)
  {
    ScanBodyTo(input, i, i + |Body(p)|, p, out, out + p, cap);
  }

  lemma ScanEscaped(input: seq<uint8>, i: nat, b: uint8, out: seq<uint8>, cap: nat)
    requires Occurs(input, i, Escaped(b)) && |input| <= cap
    ensures Scan(input, i, INSIDE, out, cap) == Scan(input, i + |Escaped(b)|, INSIDE, out + [b], cap)
  {
    var e := Escaped(b);
    assert input[i] == input[i..i + |e|][0] == e[0];
    if Special(b) {
      assert input[i + 1] == input[i..i + |e|][1] == e[1];
      assert out + [] == out;
      assert Scan(input, i, INSIDE, out, cap) == Scan(input, i + 1, Flags(true, true), out, cap);
    }
  }

  /** Decoding an encoded frame gives the payload back, wherever the frame starts. */
  lemma ScanFrame(input: seq<uint8>, i: nat, p: seq<uint8>, out: seq<uint8>, cap: nat)
    requires Occurs(input, i, Encoded(p)) && |input| <= cap
    ensures Scan(input, i, IDLE, out, cap) == Outcome(NoError, out + p, IDLE, i + |Encoded(p)|)
  {
    OccursParts(input, i, [BEGIN] + Body(p), [END]);
    OccursParts(input, i, [BEGIN], Body(p));
    assert input[i] == input[i..i + 1][0];
    assert out + [] == out;
    ScanBody(input, i + 1, p, out, cap);
    var e := i + 1 + |Body(p)|;
    assert input[e] == input[e..e + 1][0];
    assert out + p + [] == out + p;
  }

  // ---- What the decoder accepts ---------------------------------------------

  /** An escape byte directly behind another is ignored. */
  function Collapse(b: seq<uint8>): seq<uint8> {
    if |b| < 2 then b else (if b[0] == ESC && b[1] == ESC then [] else [b[0]]) + Collapse(b[1..])
  }

  lemma CollapseStep(b: uint8, rest: seq<uint8>)
    ensures Collapse([b] + rest) ==
            if rest != [] && b == ESC && rest[0] == ESC then Collapse(rest) else [b] + Collapse(rest)
  {
    assert ([b] + rest)[1..] == rest;
    assert [] + Collapse(rest) == Collapse(rest);
    assert [b] + [] == [b];
  }

  /** With the escape byte that has come before, if there was one. */
  function Pending(f: Flags, body: seq<uint8>): seq<uint8> {
    if f.esc then [ESC] + body else body
  }

  lemma BodyCons(b: uint8, p: seq<uint8>)
    ensures Body([b] + p) == Escaped(b) + Body(p)
  {
    assert ([b] + p)[1..] == p;
  }

  /** One byte of the body of a frame: what has been decoded and what is still to come stand for the same. */
  lemma CollapseByte(f: Flags, b: uint8, body: seq<uint8>, p: seq<uint8>)
    requires f.inside && b != BEGIN && b != END && OnByte(f, b).stop.None?
    requires Collapse(Pending(OnByte(f, b).flags, body)) == Body(p)
    ensures Collapse(Pending(f, [b] + body)) == Body(OnByte(f, b).out + p)
  {
    var e := OnByte(f, b);
    if b == ESC {
      CollapseStep(ESC, [b] + body);
      assert e.out + p == p && Pending(e.flags, body) == [b] + body;
    } else {
      CollapseStep(b, body);
      BodyCons(e.out[0], p);
      if f.esc {
        CollapseStep(ESC, [b] + body);
        assert [ESC] + ([b] + Collapse(body)) == [ESC, b] + Collapse(body);
      }
    }
  }

  /** No delimiter stands in a body. */
  predicate Plain(body: seq<uint8>) {
    BEGIN !in body && END !in body
  }

  /** From position i to e there is the rest of a frame, which stands for p; f: what the decoder remembers. */
  predicate Stands(input: seq<uint8>, i: nat, e: nat, f: Flags, p: seq<uint8>) {
    && i < e <= |input| && input[e - 1] == END && Plain(input[i..e - 1])
    && Collapse(Pending(f, input[i..e - 1])) == Body(p)
  }

  lemma StandsAtEnd(input: seq<uint8>, i: nat, f: Flags)
    requires i < |input| && input[i] == END && !f.esc
    ensures Stands(input, i, i + 1, f, [])
  {
    assert input[i..i] == [];
  }

  lemma StandsBefore(input: seq<uint8>, i: nat, e: nat, f: Flags, p: seq<uint8>)
    requires i < |input| && f.inside && input[i] != BEGIN && input[i] != END && OnByte(f, input[i]).stop.None?
    requires Stands(input, i + 1, e, OnByte(f, input[i]).flags, p)
    ensures Stands(input, i, e, f, OnByte(f, input[i]).out + p)
  {
    assert input[i..e - 1] == [input[i]] + input[i + 1..e - 1];
    CollapseByte(f, input[i], input[i + 1..e - 1], p);
  }

  lemma ScanOnce(input: seq<uint8>, i: nat, f: Flags, out: seq<uint8>, cap: nat)
    requires i < |input| <= cap
    ensures var e := OnByte(f, input[i]);
            Scan(input, i, f, out, cap) ==
              if e.stop.Some? then Outcome(e.stop.value, out + e.out, e.flags, i + 1)
              else Scan(input, i + 1, e.flags, out + e.out, cap)
  {
  }

  /** What is delivered stood in the input, escaped. */
  lemma {:induction false} DeliveredStood(input: seq<uint8>, i: nat, f: Flags, out: seq<uint8>, cap: nat)
    returns (p: seq<uint8>)
    requires i <= |input| <= cap && f.inside && Scan(input, i, f, out, cap).status == NoError
    ensures Scan(input, i, f, out, cap).out == out + p && Scan(input, i, f, out, cap).flags == IDLE
    ensures Stands(input, i, Scan(input, i, f, out, cap).processed, f, p)
    decreases |input| - i
  {
    ScanOnce(input, i, f, out, cap);
    var step := OnByte(f, input[i]);
    if step.stop.Some? {
      StandsAtEnd(input, i, f);
      p := [];
    } else {
      var rest := DeliveredStood(input, i + 1, step.flags, out + step.out, cap);
      StandsBefore(input, i, Scan(input, i, f, out, cap).processed, f, rest);
      Regroup(out, step.out, rest);
      p := step.out + rest;
    }
  }

  /** An escaped byte is an escape byte and a code, or the byte itself. */
  lemma BodyBegins(p: seq<uint8>, b: uint8, rest: seq<uint8>)
    requires Body(p) == [b] + rest
    ensures p != [] && Escaped(p[0])[0] == b
    ensures b != ESC ==> p[0] == b && Body(p[1..]) == rest
    ensures b == ESC ==> rest != [] && Escaped(p[0]) == [ESC, rest[0]] && Body(p[1..]) == rest[1..]
  {
    var q := Escaped(p[0]);
    assert Body(p)[|q|..] == Body(p[1..]) && Body(p)[..|q|] == q;
    assert ([b] + rest)[0] == b && ([b] + rest)[1..] == rest;
    if b == ESC {
      assert q[1] == Body(p)[1] == rest[0];
      assert Body(p)[2..] == rest[1..];
    }
  }

  /** The other way round: one byte of a body that stands for p. */
  lemma ByteOfBody(f: Flags, b: uint8, body: seq<uint8>, p: seq<uint8>)
    requires f.inside && b != BEGIN && b != END && Collapse(Pending(f, [b] + body)) == Body(p) && Plain(body)
    ensures var e := OnByte(f, b);
            && e.stop.None? && e.out <= p && Collapse(Pending(e.flags, body)) == Body(p[|e.out|..])
  {
    CollapseStep(b, body);
    CollapseStep(ESC, [b] + body);
    if b == ESC {
      assert Pending(f.(esc := true), body) == [b] + body;
    } else if f.esc {
      assert Body(p) == [ESC] + ([b] + Collapse(body));
      BodyBegins(p, ESC, [b] + Collapse(body));
      assert ([b] + Collapse(body))[1..] == Collapse(body);
    } else {
      BodyBegins(p, b, Collapse(body));
    }
  }

  lemma StandsBehind(input: seq<uint8>, i: nat, e: nat, f: Flags, p: seq<uint8>)
    requires Stands(input, i, e, f, p) && i < e - 1 && f.inside
    ensures var step := OnByte(f, input[i]);
            step.stop.None? && step.out <= p && Stands(input, i + 1, e, step.flags, p[|step.out|..])
  {
    var body := input[i..e - 1];
    assert body[0] == input[i] && body[0] in body;
    assert body == [input[i]] + input[i + 1..e - 1];
    ByteOfBody(f, input[i], input[i + 1..e - 1], p);
  }

  lemma Complete(out: seq<uint8>, a: seq<uint8>, p: seq<uint8>)
    requires a <= p
    ensures out + a + p[|a|..] == out + p
  {
  }

  lemma EmptyBody(input: seq<uint8>, i: nat, f: Flags, p: seq<uint8>)
    requires Stands(input, i, i + 1, f, p)
    ensures p == [] && !f.esc && input[i] == END
  {
    assert input[i..i] == [];
    if f.esc {
      BodyBegins(p, ESC, []);
      assert false;
    }
    NoEmptyBody(p);
  }

  lemma NoEmptyBody(p: seq<uint8>)
    ensures Body(p) == [] ==> p == []
  {
    BodyLength(p);
  }

  lemma {:induction false} StoodIsDelivered(input: seq<uint8>, i: nat, e: nat, f: Flags, out: seq<uint8>, cap: nat,
                                            p: seq<uint8>)
    requires f.inside && Stands(input, i, e, f, p) && |input| <= cap
    ensures Scan(input, i, f, out, cap) == Outcome(NoError, out + p, IDLE, e)
    decreases e - i
  {
    ScanOnce(input, i, f, out, cap);
    if i == e - 1 {
      EmptyBody(input, i, f, p);
      assert out + [] == out;
    } else {
      StandsBehind(input, i, e, f, p);
      var step := OnByte(f, input[i]);
      StoodIsDelivered(input, i + 1, e, step.flags, out + step.out, cap, p[|step.out|..]);
      Complete(out, step.out, p);
    }
  }

  /** Bytes without a start byte, a start byte, and what stands for the payload. */
  predicate FrameBehind(input: seq<uint8>, g: nat, n: nat, p: seq<uint8>) {
    g < |input| && input[g] == BEGIN && BEGIN !in input[..g] && Stands(input, g + 1, n, INSIDE, p)
  }

  function FirstBegin(input: seq<uint8>): (g: nat)
    ensures g <= |input| && BEGIN !in input[..g] && (g < |input| ==> input[g] == BEGIN)
  {
    if input == [] || input[0] == BEGIN then 0
    else
      var g := FirstBegin(input[1..]);
      assert input[..g + 1] == [input[0]] + input[1..][..g];
      g + 1
  }

  lemma ScanFromStart(input: seq<uint8>, g: nat, cap: nat)
    requires g <= |input| <= cap && BEGIN !in input[..g] && (g < |input| ==> input[g] == BEGIN)
    ensures Scan(input, 0, IDLE, [], cap) ==
            if g < |input| then Scan(input, g + 1, INSIDE, [], cap) else Outcome(PacketStartNotFound, [], IDLE, |input|)
  {
    forall k | 0 <= k < g
      ensures input[k] != BEGIN
    {
      assert input[k] == input[..g][k];
    }
    SkipGarbage(input, 0, g, IDLE, [], cap);
    assert OnByte(IDLE, BEGIN).out == [];
  }

  /**
    Exactly what a frame stood for is delivered: the decoder hands out p after n
    bytes if and only if these are garbage and one frame with the bytes of p,
    escaped, where an escape byte may be repeated.
   */
  lemma DeliversExactly(input: seq<uint8>, n: nat, p: seq<uint8>, cap: nat)
    requires |input| <= cap
    ensures Scan(input, 0, IDLE, [], cap) == Outcome(NoError, p, IDLE, n) <==>
              exists g: nat :: FrameBehind(input, g, n, p)
  {
    var g := FirstBegin(input);
    ScanFromStart(input, g, cap);
    if Scan(input, 0, IDLE, [], cap) == Outcome(NoError, p, IDLE, n) {
      var q := DeliveredStood(input, g + 1, INSIDE, [], cap);
      assert [] + q == q;
      assert FrameBehind(input, g, n, p);
    }
    if exists h: nat :: FrameBehind(input, h, n, p) {
      var h: nat :| FrameBehind(input, h, n, p);
      SameStart(input, g, h);
      StoodIsDelivered(input, g + 1, n, INSIDE, [], cap, p);
      assert [] + p == p;
    }
  }

  lemma NotBefore(input: seq<uint8>, g: nat, h: nat)
    requires h < g <= |input| && BEGIN !in input[..g]
    ensures input[h] != BEGIN
  {
    assert input[..g][h] in input[..g];
  }

  lemma SameStart(input: seq<uint8>, g: nat, h: nat)
    requires g <= |input| && BEGIN !in input[..g] && (g < |input| ==> input[g] == BEGIN)
    requires h < |input| && BEGIN !in input[..h] && input[h] == BEGIN
    ensures g == h
  {
    if h < g {
      NotBefore(input, g, h);
    } else if g < h {
      NotBefore(input, h, g);
    }
  }

  /** A byte behind an escape byte that is no code ends the frame, and so does an end byte there. */
  lemma BadEscape(input: seq<uint8>, i: nat, p: seq<uint8>, e: nat, b: uint8, cap: nat)
    requires Occurs(input, i, [BEGIN]) && Occurs(input, i + 1, Body(p)) && e == i + 1 + |Body(p)| && |input| <= cap
    requires Occurs(input, e, [ESC, b]) && b !in {BEGIN, ESC, ESC_BEGIN, ESC_END, ESC_ESC}
    ensures Scan(input, i, IDLE, [], cap) ==
            Outcome(if b == END then IncompleteEscSequence else InvalidEscSequence, p, IDLE, e + 2)
  {
    assert input[i] == input[i..i + 1][0];
    ScanOnce(input, i, IDLE, [], cap);
    ScanBodyTo(input, i + 1, e, p, [], p, cap);
    ScanBadEscape(input, e, p, b, cap);
  }

  lemma ScanBadEscape(input: seq<uint8>, e: nat, p: seq<uint8>, b: uint8, cap: nat)
    requires Occurs(input, e, [ESC, b]) && |input| <= cap
    requires b !in {BEGIN, ESC, ESC_BEGIN, ESC_END, ESC_ESC}
    ensures Scan(input, e, INSIDE, p, cap) ==
            Outcome(if b == END then IncompleteEscSequence else InvalidEscSequence, p, IDLE, e + 2)
  {
    assert input[e] == input[e..e + 2][0] && input[e + 1] == input[e..e + 2][1];
    ScanOnce(input, e, INSIDE, p, cap);
    assert p + [] == p;
    ScanOnce(input, e + 1, Flags(true, true), p, cap);
  }

  /** After an error nothing of the payload is kept. */
  lemma ErrorDropsPayload(input: seq<uint8>, f: Flags, out: seq<uint8>, cap: nat, x: nat)
    requires x > 0
    requires OneDecode(input, f, out, cap).status in
             {IncompleteEscSequence, InvalidEscSequence, PacketStartNotFound, NoMemory}
    ensures var o := OneDecode(input, f, out, cap);
            Turn(input, f, out, cap, x) == Reply(o.status, [], o.flags, input[o.processed..])
  {
  }

  lemma CutAtOnce(input: seq<uint8>, out: seq<uint8>, cap: nat)
    requires 2 <= |input| <= cap && input[0] == input[1] == BEGIN
    ensures OneDecode(input, IDLE, out, cap) == Outcome(PacketCut, out, IDLE, 2)
  {
    ScanOnce(input, 0, IDLE, out, cap);
    assert out + [] == out;
    ScanOnce(input, 1, INSIDE, out, cap);
  }

  /** Frames that are cut at once use up the rounds, and then the decoder gives up with input left. */
  lemma {:induction false} CutsRunOut(input: seq<uint8>, out: seq<uint8>, cap: nat, x: nat)
    requires 2 * x <= |input| <= cap && forall k | 0 <= k < 2 * x :: input[k] == BEGIN
    ensures Turn(input, IDLE, out, cap, x) == Reply(Unknown, out, IDLE, input[2 * x..])
    decreases x
  {
    if x > 0 {
      CutAtOnce(input, out, cap);
      CutsRunOut(input[2..], out, cap, x - 1);
      assert input[2..][2 * (x - 1)..] == input[2 * x..];
    }
  }

  /** Sixteen of them in one call. */
  lemma SixteenCuts(input: seq<uint8>, out: seq<uint8>, cap: nat)
    requires 32 <= |input| <= cap && forall k | 0 <= k < 32 :: input[k] == BEGIN
    ensures Turn(input, IDLE, out, cap, MAX_DECODE_ROUNDS) == Reply(Unknown, out, IDLE, input[32..])
  {
    CutsRunOut(input, out, cap, 16);
  }

  /** The bytes on the wire. */
  lemma EncodedExample()
    ensures Encoded([0x01, 0xCF, 0xC0, 0xDB]) == [0xCF, 0x01, 0xDB, 0xDE, 0xDB, 0xDC, 0xDB, 0xDD, 0xC0]
  {
    var p := [0x01, 0xCF, 0xC0, 0xDB];
    assert p[1..] == [0xCF, 0xC0, 0xDB] && p[1..][1..] == [0xC0, 0xDB] && p[1..][1..][1..] == [0xDB];
    assert Body([0xDB]) == [0xDB, 0xDD];
    assert Body([0xC0, 0xDB]) == [0xDB, 0xDC] + Body([0xDB]);
    assert Body([0xCF, 0xC0, 0xDB]) == [0xDB, 0xDE] + Body([0xC0, 0xDB]);
    assert Body(p) == [0x01] + Body(p[1..]);
  }

  // ---- Garbage and frames in any order --------------------------------------

  datatype Item = Garbage(bytes: seq<uint8>) | Frame(payload: seq<uint8>)

  function Stream(items: seq<Item>): seq<uint8> {
    if items == [] then []
    else (if items[0].Garbage? then items[0].bytes else Encoded(items[0].payload)) + Stream(items[1..])
  }

  function Payloads(items: seq<Item>): seq<uint8> {
    if items == [] then []
    else (if items[0].Garbage? then [] else items[0].payload) + Payloads(items[1..])
  }

  predicate HasFrame(items: seq<Item>) {
    items != [] && (items[0].Frame? || HasFrame(items[1..]))
  }

  predicate NoFalseStart(items: seq<Item>) {
    items != [] ==> (items[0].Garbage? ==> BEGIN !in items[0].bytes) && NoFalseStart(items[1..])
  }

  /** The delivery, item by item. */
  function Delivered(items: seq<Item>, out: seq<uint8>, payload: Option<seq<uint8>>): Delivery {
    if items == [] then Delivery(PacketStartNotFound, payload, IDLE)
    else if items[0].Garbage? then Delivered(items[1..], out, payload)
    else Delivered(items[1..], out + items[0].payload, Some(out + items[0].payload))
  }

  lemma {:induction false} DrainItems(g: seq<uint8>, items: seq<Item>, out: seq<uint8>, payload: Option<seq<uint8>>,
                                      cap: nat)
    requires BEGIN !in g && NoFalseStart(items) && |g + Stream(items)| <= cap
    ensures Drain(g + Stream(items), IDLE, out, payload, cap) == Delivered(items, out, payload)
    decreases |items|
  {
    if items == [] {
      assert g + Stream(items) == g;
      DrainGarbage(g, out, payload, cap);
    } else if items[0].Garbage? {
      GarbageFirst(g, items);
      DrainItems(g + items[0].bytes, items[1..], out, payload, cap);
    } else {
      var more := out + items[0].payload;
      FrameFirst(g, items, out, payload, cap);
      DrainItems([], items[1..], more, Some(more), cap);
    }
  }

  lemma GarbageFirst(g: seq<uint8>, items: seq<Item>)
    requires items != [] && items[0].Garbage?
    ensures g + Stream(items) == g + items[0].bytes + Stream(items[1..])
  {
  }

  lemma FrameFirst(g: seq<uint8>, items: seq<Item>, out: seq<uint8>, payload: Option<seq<uint8>>, cap: nat)
    requires items != [] && items[0].Frame? && BEGIN !in g && |g + Stream(items)| <= cap
    ensures var more := out + items[0].payload;
            Drain(g + Stream(items), IDLE, out, payload, cap) ==
              Drain([] + Stream(items[1..]), IDLE, more, Some(more), cap)
  {
    FrameAfterGarbage(g, items[0].payload, Stream(items[1..]), out, payload, cap);
    assert [] + Stream(items[1..]) == Stream(items[1..]);
  }

  lemma {:induction false} DeliveredIsConcatenation(items: seq<Item>, out: seq<uint8>, payload: Option<seq<uint8>>)
    ensures Delivered(items, out, payload) ==
              Delivery(PacketStartNotFound, if HasFrame(items) then Some(out + Payloads(items)) else payload, IDLE)
    ensures !HasFrame(items) ==> Payloads(items) == []
  {
    if items == [] {
    } else if items[0].Garbage? {
      DeliveredIsConcatenation(items[1..], out, payload);
      assert Payloads(items) == Payloads(items[1..]);
    } else {
      var more := out + items[0].payload;
      DeliveredIsConcatenation(items[1..], more, Some(more));
      assert more + Payloads(items[1..]) == out + Payloads(items);
      assert more + [] == more;
    }
  }

  lemma DrainGarbage(g: seq<uint8>, out: seq<uint8>, payload: Option<seq<uint8>>, cap: nat)
    requires BEGIN !in g && |g| <= cap
    ensures Drain(g, IDLE, out, payload, cap) == Delivery(PacketStartNotFound, payload, IDLE)
  {
    SkipGarbage(g, 0, |g|, IDLE, out, cap);
    assert Turn(g, IDLE, out, cap, MAX_DECODE_ROUNDS).status == PacketStartNotFound;
  }

  lemma FrameAfterGarbage(g: seq<uint8>, p: seq<uint8>, rest: seq<uint8>, out: seq<uint8>,
                          payload: Option<seq<uint8>>, cap: nat)
    requires BEGIN !in g && |g + (Encoded(p) + rest)| <= cap
    ensures Drain(g + (Encoded(p) + rest), IDLE, out, payload, cap) == Drain(rest, IDLE, out + p, Some(out + p), cap)
  {
    var input := g + (Encoded(p) + rest);
    assert Turn(input, IDLE, out, cap, MAX_DECODE_ROUNDS) == Reply(NoError, out + p, IDLE, rest) by {
      SkipGarbage(input, 0, |g|, IDLE, out, cap);
      assert Occurs(input, |g|, Encoded(p));
      ScanFrame(input, |g|, p, out, cap);
      assert input[|g| + |Encoded(p)|..] == rest;
    }
  }

  /**
    One call of the wrapper on garbage and frames in any order: all payloads
    are delivered in order, and the decoder is idle again.
   */
  method ReceiveItems(codec: Codec, items: seq<Item>) returns (ret: EspErr, dataOut: Option<seq<uint8>>)
    requires codec.Valid() && codec.encoded.len == 0 && codec.CurrentFlags() == IDLE
    requires NoFalseStart(items) && 0 < |Stream(items)| <= codec.encoded.data.Length
    modifies codec, codec.decoded`len, codec.decoded.data, codec.encoded`len, codec.encoded.data
    ensures codec.Valid() && codec.encoded.len == 0 && codec.CurrentFlags() == IDLE
    ensures ret == EspOk
    ensures dataOut == if HasFrame(items) then Some(Payloads(items)) else None
  {
    assert [] + Stream(items) == Stream(items);
    DrainItems([], items, [], None, codec.decoded.data.Length);
    DeliveredIsConcatenation(items, [], None);
    assert [] + Payloads(items) == Payloads(items);
    ret, dataOut := codec.StaticDataDecoder(Stream(items));
  }

  /** Both wrappers, back to back. */
  method SendAndReceive(encDataBuf: array<uint8>, codec: Codec, payload: seq<uint8>)
    returns (sent: EspErr, received: Option<seq<uint8>>)
    requires codec.Valid() && codec.encoded.len == 0 && codec.CurrentFlags() == IDLE
    requires |payload| <= encDataBuf.Length && 0 < encDataBuf.Length <= codec.encoded.data.Length
    modifies encDataBuf, codec, codec.decoded`len, codec.decoded.data, codec.encoded`len, codec.encoded.data
    ensures sent == EspOk <==> payload != [] && |payload| + Specials(payload) + 2 <= encDataBuf.Length
    ensures sent == EspOk ==> received == Some(payload) && codec.CurrentFlags() == IDLE
  {
    var dataOut;
    received := None;
    sent, dataOut := StaticDataEncoder(encDataBuf, payload);
    if sent == EspOk {
      BodyLength(payload);
      var items := [Frame(payload)];
      assert items[1..] == [] && Stream(items) == Encoded(payload) + [] && Payloads(items) == payload + [];
      assert Encoded(payload) + [] == Encoded(payload) && payload + [] == payload;
      assert HasFrame(items) && NoFalseStart(items);
      var ret;
      ret, received := ReceiveItems(codec, items);
    }
  }

  // ---- One frame in pieces --------------------------------------------------

  predicate Unfinished(s: Status) {
    s == IncompletePacket || s == PacketStartNotFound
  }

  /** Input that ends before the decoder stops can be continued where it ended. */
  lemma {:induction false} ScanJoin(a: seq<uint8>, b: seq<uint8>, i: nat, f: Flags, out: seq<uint8>, cap: nat)
    requires i <= |a| && |a + b| <= cap
    ensures var r := Scan(a, i, f, out, cap);
            Scan(a + b, i, f, out, cap) == if Unfinished(r.status) then Scan(a + b, |a|, r.flags, r.out, cap) else r
    decreases |a| - i
  {
    if i < |a| {
      var e := OnByte(f, a[i]);
      assert (a + b)[i] == a[i];
      if e.stop.None? {
        ScanJoin(a, b, i + 1, e.flags, out + e.out, cap);
      }
    }
  }

  /** What came before in the same buffer does not matter. */
  lemma {:induction false} ScanShift(a: seq<uint8>, b: seq<uint8>, j: nat, f: Flags, out: seq<uint8>, cap: nat,
                                     cap': nat)
    requires j <= |b| <= cap' && |a + b| <= cap
    ensures var r := Scan(b, j, f, out, cap');
            Scan(a + b, |a| + j, f, out, cap) == r.(processed := |a| + r.processed)
    decreases |b| - j
  {
    if j < |b| {
      var e := OnByte(f, b[j]);
      assert (a + b)[|a| + j] == b[j];
      if e.stop.None? {
        ScanShift(a, b, j + 1, e.flags, out + e.out, cap, cap');
      }
    }
  }

  /** The decoder after the first k bytes of a frame. */
  function Partial(p: seq<uint8>, k: nat): Outcome
    requires k <= |Encoded(p)|
  {
    Scan(Encoded(p)[..k], 0, IDLE, [], |Encoded(p)|)
  }

  lemma PartialIsIncomplete(p: seq<uint8>, k: nat)
    requires 0 < k < |Encoded(p)|
    ensures Partial(p, k).status == IncompletePacket && Partial(p, k).flags.inside && |Partial(p, k).out| <= |p|
  {
    var frame := Encoded(p);
    var a, b := frame[..k], frame[k..];
    assert a + b == frame;
    ScanFrame(frame, 0, p, [], |frame|) by {
      assert frame[0..|frame|] == frame;
    }
    ScanJoin(a, b, 0, IDLE, [], |frame|);
    assert a[0] == BEGIN;
    assert Scan(a, 0, IDLE, [], |frame|) == Scan(a, 1, INSIDE, [], |frame|);
  }

  lemma FrameDecodes(p: seq<uint8>)
    ensures Partial(p, |Encoded(p)|) == Outcome(NoError, p, IDLE, |Encoded(p)|)
  {
    var frame := Encoded(p);
    assert frame[..|frame|] == frame && frame[0..|frame|] == frame;
    ScanFrame(frame, 0, p, [], |frame|);
    assert [] + p == p;
  }

  /** The next chunk takes the decoder from one place in the frame to a later one. */
  lemma NextPiece(p: seq<uint8>, k: nat, m: nat, cap: nat)
    requires k < m <= |Encoded(p)| && m - k <= cap
    ensures var before := if k == 0 then Outcome(PacketStartNotFound, [], IDLE, 0) else Partial(p, k);
            var r := Scan(Encoded(p)[k..m], 0, before.flags, before.out, cap);
            Partial(p, m) == r.(processed := k + r.processed)
  {
    var frame := Encoded(p);
    var a, b := frame[..k], frame[k..m];
    assert a + b == frame[..m];
    if k > 0 {
      PartialIsIncomplete(p, k);
    }
    ScanJoin(a, b, 0, IDLE, [], |frame|);
    var before := if k == 0 then Outcome(PacketStartNotFound, [], IDLE, 0) else Partial(p, k);
    ScanShift(a, b, 0, before.flags, before.out, |frame|, cap);
  }

  /** Where a chunk lies in the frame that is cut into chunks. */
  lemma ChunkInFrame(chunks: seq<seq<uint8>>, i: nat, frame: seq<uint8>)
    requires i < |chunks| && Flatten(chunks) == frame
    ensures var k, m := |Flatten(chunks[..i])|, |Flatten(chunks[..i + 1])|;
            k + |chunks[i]| == m <= |frame| && chunks[i] == frame[k..m]
  {
    FlattenPrefix(chunks, i);
  }

  /** Whether the codec is where it should be after the first k bytes of a frame. */
  ghost predicate InFrame(codec: Codec, p: seq<uint8>, k: nat)
    requires codec.Valid() && k <= |Encoded(p)|
    reads codec, codec.decoded, codec.decoded.data, codec.encoded
  {
    && codec.encoded.len == 0
    && codec.CurrentFlags() == BeforePiece(p, k).flags
    && codec.decoded.Contents() == BeforePiece(p, k).out
  }

  function BeforePiece(p: seq<uint8>, k: nat): Outcome
    requires k <= |Encoded(p)|
  {
    if k == 0 then Outcome(PacketStartNotFound, [], IDLE, 0) else Partial(p, k)
  }

  lemma PieceReply(p: seq<uint8>, k: nat, m: nat, cap: nat)
    requires k < m <= |Encoded(p)| && m - k <= cap && |p| <= cap
    ensures var before, chunk := BeforePiece(p, k), Encoded(p)[k..m];
            && Fits(chunk, before.flags, before.out, cap, MAX_DECODE_ROUNDS)
            && Turn(chunk, before.flags, before.out, cap, MAX_DECODE_ROUNDS) ==
                 Reply(if m < |Encoded(p)| then IncompletePacket else NoError,
                       Partial(p, m).out, Partial(p, m).flags, [])
  {
    NextPiece(p, k, m, cap);
    if m < |Encoded(p)| {
      PartialIsIncomplete(p, m);
    } else {
      FrameDecodes(p);
    }
    var before, chunk := BeforePiece(p, k), Encoded(p)[k..m];
    var o := OneDecode(chunk, before.flags, before.out, cap);
    assert |o.out| <= |p| && o.processed == |chunk| && o.status in {IncompletePacket, NoError};
    assert chunk[|chunk|..] == [];
  }

  /** One chunk of a frame, given to the codec. */
  method FeedChunk(codec: Codec, chunk: seq<uint8>, ghost p: seq<uint8>, ghost k: nat) returns (answer: Status)
    requires codec.Valid() && k + |chunk| <= |Encoded(p)| && chunk == Encoded(p)[k..k + |chunk|]
    requires InFrame(codec, p, k) && 0 < |chunk| <= codec.encoded.data.Length && |p| <= codec.decoded.data.Length
    modifies codec, codec.decoded`len, codec.decoded.data, codec.encoded`len, codec.encoded.data
    ensures codec.Valid() && InFrame(codec, p, k + |chunk|)
    ensures answer == if k + |chunk| < |Encoded(p)| then IncompletePacket else NoError
  {
    PieceReply(p, k, k + |chunk|, codec.decoded.data.Length);
    var ret := codec.AddData(chunk);
    assert codec.encoded.Contents() == chunk;
    answer := codec.SlipDecode();
  }

  /** After the first i chunks the codec is where it should be, and each call has answered what it should. */
  ghost predicate Fed(codec: Codec, p: seq<uint8>, chunks: seq<seq<uint8>>, answers: seq<Status>, i: nat)
    requires i <= |chunks|
    reads codec, codec.decoded, codec.decoded.data, codec.encoded, codec.encoded.data
  {
    && codec.Valid() && |Flatten(chunks[..i])| <= |Encoded(p)| && InFrame(codec, p, |Flatten(chunks[..i])|)
    && |answers| == i
    && forall j | 0 <= j < i :: answers[j] == if j < |chunks| - 1 then IncompletePacket else NoError
  }

  method FeedNext(codec: Codec, chunks: seq<seq<uint8>>, i: nat, answers: seq<Status>, ghost p: seq<uint8>)
    returns (answer: Status)
    requires i < |chunks| && Fed(codec, p, chunks, answers, i) && Flatten(chunks) == Encoded(p)
    requires |p| <= codec.decoded.data.Length
    requires forall j | 0 <= j < |chunks| :: 0 < |chunks[j]| <= codec.encoded.data.Length
    modifies codec, codec.decoded`len, codec.decoded.data, codec.encoded`len, codec.encoded.data
    ensures Fed(codec, p, chunks, answers + [answer], i + 1)
  {
    ChunkInFrame(chunks, i, Encoded(p));
    EndReachedLast(chunks, i + 1);
    answer := FeedChunk(codec, chunks[i], p, |Flatten(chunks[..i])|);
  }

  /**
    A frame fed in pieces, wherever it is cut: every call but the last asks
    for more, and the last one has the payload.
   */
  method FeedFrame(codec: Codec, chunks: seq<seq<uint8>>, ghost p: seq<uint8>) returns (answers: seq<Status>)
    requires codec.Valid() && codec.encoded.len == 0 && codec.decoded.len == 0 && codec.CurrentFlags() == IDLE
    requires Flatten(chunks) == Encoded(p) && |p| <= codec.decoded.data.Length
    requires forall i | 0 <= i < |chunks| :: 0 < |chunks[i]| <= codec.encoded.data.Length
    modifies codec, codec.decoded`len, codec.decoded.data, codec.encoded`len, codec.encoded.data
    ensures codec.Valid() && |answers| == |chunks| > 0
    ensures forall i | 0 <= i < |chunks| :: answers[i] == if i < |chunks| - 1 then IncompletePacket else NoError
    ensures codec.decoded.Contents() == p && codec.encoded.len == 0 && codec.CurrentFlags() == IDLE
  {
    answers := [];
    for i := 0 to |chunks|
      invariant Fed(codec, p, chunks, answers, i)
    {
      var answer := FeedNext(codec, chunks, i, answers, p);
      answers := answers + [answer];
    }
    assert chunks[..|chunks|] == chunks;
    FrameDecodes(p);
  }

  // ---- A frame that is cut short --------------------------------------------

  /**
    The start byte that cuts a frame short is not put back, so the frame it
    starts is lost: of a frame that follows an unfinished one, the wrapper
    delivers the payload only if nothing of the unfinished one arrived.
   */
  lemma CutLosesNextFrame(p: seq<uint8>, k: nat, q: seq<uint8>, cap: nat)
    requires k < |Encoded(p)| && |Encoded(p)[..k] + Encoded(q)| <= cap
    ensures var d := Drain(Encoded(p)[..k] + Encoded(q), IDLE, [], None, cap);
            d.status == PacketStartNotFound && d.payload == if k == 0 then Some(q) else None
  {
    var a, b := Encoded(p)[..k], Encoded(q);
    var input := a + b;
    if k == 0 {
      assert [] + Stream([Frame(q)]) == input by {
        assert Stream([Frame(q)]) == b + Stream([]);
      }
      DrainItems([], [Frame(q)], [], None, cap);
      assert [] + q == q;
    } else {
      CutReply(p, k, q, cap);
    }
  }

  /** The first turn: the decoder stops behind the start byte. */
  lemma CutDecode(p: seq<uint8>, k: nat, q: seq<uint8>, input: seq<uint8>, cap: nat)
    requires 0 < k < |Encoded(p)| && input == Encoded(p)[..k] + Encoded(q) && |input| <= cap
    ensures var cut := OneDecode(input, IDLE, [], cap);
            cut.status == PacketCut && cut.processed == k + 1 && !cut.flags.inside
  {
    var a, b := Encoded(p)[..k], Encoded(q);
    var o := Partial(p, k);
    PartialIsIncomplete(p, k);
    ScanCap(a, 0, IDLE, [], |Encoded(p)|, cap);
    ScanJoin(a, b, 0, IDLE, [], cap);
    assert input[k] == BEGIN;
    assert OneDecode(input, IDLE, [], cap) == Scan(input, k, o.flags, o.out, cap);
  }

  lemma CutReply(p: seq<uint8>, k: nat, q: seq<uint8>, cap: nat)
    requires 0 < k < |Encoded(p)| && |Encoded(p)[..k] + Encoded(q)| <= cap
    ensures Turn(Encoded(p)[..k] + Encoded(q), IDLE, [], cap, MAX_DECODE_ROUNDS).status == PacketStartNotFound
  {
    var input := Encoded(p)[..k] + Encoded(q);
    var cut := OneDecode(input, IDLE, [], cap);
    CutDecode(p, k, q, input, cap);
    var tail := Body(q) + [END];
    assert input[k + 1..] == tail;
    BodyHasNoDelimiters(q);
    SkipGarbage(tail, 0, |tail|, cut.flags, cut.out, cap);
    assert Turn(tail, cut.flags, cut.out, cap, MAX_DECODE_ROUNDS - 1).status == PacketStartNotFound;
  }

  /** Any capacity that the input fits is as good as another. */
  lemma {:induction false} ScanCap(input: seq<uint8>, i: nat, f: Flags, out: seq<uint8>, cap: nat, cap': nat)
    requires i <= |input| <= cap && |input| <= cap'
    ensures Scan(input, i, f, out, cap) == Scan(input, i, f, out, cap')
    decreases |input| - i
  {
    if i < |input| {
      var e := OnByte(f, input[i]);
      if e.stop.None? {
        ScanCap(input, i + 1, e.flags, out + e.out, cap, cap');
      }
    }
  }
}
