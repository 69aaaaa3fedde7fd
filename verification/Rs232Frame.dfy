/** Messages of the inverter: "(", the text, two checksum bytes and a carriage return. */
module Rs232Frame {
  import opened Bytes
  import opened Crc16

  const OPEN: uint8 := 0x28
  const RETURN: uint8 := 0x0D
  const MIN_MSG_LEN: nat := 5
  const CRC_LEN: nat := 2

  const PARSE_STATUS_OK: nat := 1
  const PARSE_STATUS_NO_PACKET: nat := 2
  const PARSE_STATUS_INVALID_CRC: nat := 3
  const PARSE_STATUS_RQ_REJECTED: nat := 4
  const PARSE_STATUS_PACKET_MALFORMED: nat := 6

  // ---- Sending --------------------------------------------------------------

  function Serialized(payload: seq<uint8>): (r: seq<uint8>)
    ensures |r| == |payload| + 3
  {
    payload + CrcBytes(payload) + [RETURN]
  }

  /** rs232_2400_serialize */
  method Serialize(payload: seq<uint8>) returns (ret: array<uint8>)
    ensures fresh(ret) && ret[..] == Serialized(payload)
    ensures ret[..] == payload + [(Crc(payload) / 0x100) as uint8, (Crc(payload) % 0x100) as uint8, 0x0D]
  {
    ret := new uint8[|payload| + 3];
    CopyInto(ret, 0, payload);
    var crc := Crc16Xmodem(payload);
    ret[|payload|] := (crc / 0x100) as uint8;
    ret[|payload| + 1] := (crc % 0x100) as uint8;
    ret[|payload| + 2] := RETURN;
  }

  /** A whole answer with the given text. */
  function Answer(text: seq<uint8>): (r: seq<uint8>)
    ensures |r| == |text| + 4
  {
    Serialized([OPEN] + text)
  }

  // ---- Finding --------------------------------------------------------------

  /** Where the last "(" is, or -1. */
  function LastOpen(d: seq<uint8>): (r: int)
    ensures -1 <= r < |d|
    ensures r >= 0 ==> d[r] == OPEN
    ensures forall i | r < i < |d| :: d[i] != OPEN
  {
    if d == [] then -1
    else if d[|d| - 1] == OPEN then |d| - 1
    else LastOpen(d[..|d| - 1])
  }

  /** Where the first carriage return from i on is, or the length. */
  function FirstReturn(d: seq<uint8>, i: nat): (r: nat)
    requires i <= |d|
    ensures i <= r <= |d|
    ensures r < |d| ==> d[r] == RETURN
    ensures forall k | i <= k < r :: d[k] != RETURN
    decreases |d| - i
  {
    if i < |d| && d[i] != RETURN then FirstReturn(d, i + 1) else i
  }

  datatype Found = NoPacket | InvalidCrc | Packet(text: seq<uint8>)

  function Sum(d: seq<uint8>, end: nat): nat
    requires 2 <= end <= |d|
  {
    d[end - 2] as nat * 0x100 + d[end - 1] as nat
  }

  /** A packet whose ends are known: its text, if the checksum is right. */
  function Verdict(d: seq<uint8>, start: nat, end: nat): Found
    requires start + CRC_LEN < end < |d|
  {
    if Crc(d[start..end - CRC_LEN]) != Sum(d, end) then InvalidCrc else Packet(d[start + 1..end - CRC_LEN])
  }

  /** What is found in the received bytes, and how many of them are done with. */
  function Find(d: seq<uint8>): (r: (nat, Found))
    ensures r.0 <= |d|
  {
    if |d| < MIN_MSG_LEN then (0, NoPacket)
    else
      var start := LastOpen(d);
      if start < 0 then (|d|, NoPacket)
      else
        var end := FirstReturn(d, start);
        if end == |d| || end - start <= CRC_LEN then (start, NoPacket)
        else (end + 1, Verdict(d, start, end))
  }

  /** An answer with nothing that looks like an answer behind it. */
  predicate EndsWithAnswer(d: seq<uint8>, pre: seq<uint8>, text: seq<uint8>, rest: seq<uint8>) {
    && |d| >= MIN_MSG_LEN && d == pre + Answer(text) + rest
    && OPEN !in Answer(text)[1..] && OPEN !in rest
    && RETURN !in Answer(text)[..|text| + 3]
  }

  lemma SumOfCrcBytes(d: seq<uint8>, m: seq<uint8>, end: nat)
    requires 2 <= end <= |d|
    ensures d[end - 2..end] == CrcBytes(m) <==> Sum(d, end) == Crc(m)
  {
    var c := Crc(m);
    assert d[end - 2..end] == [d[end - 2], d[end - 1]];
  }

  /** What is recognised is there. */
  lemma PacketIsAnswer(d: seq<uint8>) returns (pre: seq<uint8>, rest: seq<uint8>)
    requires Find(d).1.Packet?
    ensures EndsWithAnswer(d, pre, Find(d).1.text, rest)
    ensures Find(d).0 == |pre| + |Answer(Find(d).1.text)|
  {
    var start := LastOpen(d);
    var end := FirstReturn(d, start);
    var text := Find(d).1.text;
    pre, rest := d[..start], d[end + 1..];
    AnswerBetween(d, start, end, text);
    var a := Answer(text);
    assert d == pre + a + rest;
    assert OPEN !in a[1..] && OPEN !in rest by {
      var tail := a[1..];
      assert forall k | 0 <= k < |tail| :: tail[k] == d[start + 1 + k];
      assert forall k | 0 <= k < |rest| :: rest[k] == d[end + 1 + k];
    }
    assert RETURN !in a[..|text| + 3] by {
      var front := a[..|text| + 3];
      assert forall k | 0 <= k < |front| :: front[k] == d[start + k];
    }
  }

  lemma AnswerBetween(d: seq<uint8>, start: nat, end: nat, text: seq<uint8>)
    requires start + CRC_LEN < end < |d| && d[start] == OPEN && d[end] == RETURN
             && Verdict(d, start, end) == Packet(text)
    ensures Answer(text) == d[start..end + 1] && end == start + |text| + 3
  {
    var m := [OPEN] + text;
    assert m == d[start..end - 2];
    SumOfCrcBytes(d, m, end);
    assert d[start..end + 1] == d[start..end - 2] + d[end - 2..end] + [d[end]];
  }

  lemma LastOpenIs(d: seq<uint8>, pre: seq<uint8>, tail: seq<uint8>)
    requires d == pre + [OPEN] + tail && OPEN !in tail
    ensures LastOpen(d) == |pre|
  {
    assert forall i | |pre| < i < |d| :: d[i] == tail[i - |pre| - 1];
    assert d[|pre|] == OPEN;
  }

  lemma FirstReturnIs(d: seq<uint8>, pre: seq<uint8>, body: seq<uint8>, tail: seq<uint8>)
    requires d == pre + body + [RETURN] + tail && RETURN !in body
    ensures FirstReturn(d, |pre|) == |pre| + |body|
  {
    assert forall i | |pre| <= i < |pre| + |body| :: d[i] == body[i - |pre|];
    assert d[|pre| + |body|] == RETURN;
  }

  /** What is there is recognised. */
  lemma AnswerIsPacket(d: seq<uint8>, pre: seq<uint8>, text: seq<uint8>, rest: seq<uint8>)
    requires EndsWithAnswer(d, pre, text, rest)
    ensures Find(d) == (|pre| + |Answer(text)|, Packet(text))
  {
    var m := [OPEN] + text;
    var body := m + CrcBytes(m);
    var p, e := |pre|, |pre| + |text| + 3;
    assert Answer(text) == body + [RETURN] == [OPEN] + Answer(text)[1..];
    assert LastOpen(d) == p by {
      assert d == pre + [OPEN] + (Answer(text)[1..] + rest);
      LastOpenIs(d, pre, Answer(text)[1..] + rest);
    }
    assert FirstReturn(d, p) == e by {
      assert Answer(text)[..|text| + 3] == body;
      assert d == pre + body + [RETURN] + rest;
      FirstReturnIs(d, pre, body, rest);
    }
    AnswerParts(d, pre, text, rest);
  }

  lemma AnswerParts(d: seq<uint8>, pre: seq<uint8>, text: seq<uint8>, rest: seq<uint8>)
    requires d == pre + Answer(text) + rest
    ensures var p, e := |pre|, |pre| + |text| + 3;
            e < |d| && Crc(d[p..e - 2]) == Sum(d, e) && d[p + 1..e - 2] == text
  {
    var m := [OPEN] + text;
    var p, e := |pre|, |pre| + |text| + 3;
    assert d == pre + m + CrcBytes(m) + ([RETURN] + rest);
    assert d[p..e - 2] == m;
    assert d[e - 2..e] == CrcBytes(m);
    SumOfCrcBytes(d, m, e);
  }

  /** Recognised exactly if there. */
  lemma RecognisedExactly(d: seq<uint8>, text: seq<uint8>)
    ensures Find(d).1 == Packet(text) <==> exists pre, rest :: EndsWithAnswer(d, pre, text, rest)
  {
    if Find(d).1 == Packet(text) {
      var pre, rest := PacketIsAnswer(d);
    }
    forall pre, rest | EndsWithAnswer(d, pre, text, rest)
      ensures Find(d).1 == Packet(text)
    {
      AnswerIsPacket(d, pre, text, rest);
    }
  }
}
