/** The parse function of the inverter protocol, working on a buffer of received bytes. */
module Rs232Protocol {
  import opened Bytes
  import opened Crc16
  import opened Rs232Frame

  const NAK: seq<uint8> := [0x4E, 0x41, 0x4B]

  predicate IsNak(text: seq<uint8>) {
    |text| >= 3 && text[..3] == NAK
  }

  /** The value the decoder for a request leaves in err; NO_PACKET if there is no decoder for it. */
  type Decoder = (nat, seq<uint8>) -> nat

  /** What a parse function finds in received bytes. */
  type Finder = seq<uint8> -> (nat, Found)

  ghost predicate Sound(find: Finder) {
    forall d :: find(d).0 <= |d|
  }

  ghost predicate IsFind(find: Finder) {
    forall d {:trigger Find(d)} :: find(d) == Find(d)
  }

  function StatusOf(decode: Decoder, rqId: nat, f: Found): nat {
    match f
    case NoPacket => PARSE_STATUS_NO_PACKET
    case InvalidCrc => PARSE_STATUS_INVALID_CRC
    case Packet(text) => if IsNak(text) then PARSE_STATUS_RQ_REJECTED else decode(rqId, text)
  }

  function TextsOf(f: Found): seq<seq<uint8>> {
    if f.Packet? then [f.text] else []
  }

  /** A text that is not a rejection and whose decoder reports no error. */
  predicate CountsAsValid(f: Found, err: nat) {
    f.Packet? && !IsNak(f.text) && err == 0
  }

  /** A slice of a slice of a buffer. */
  lemma SubSlice<T>(s: seq<T>, from: nat, end: nat, d: seq<T>, a: nat, b: nat)
    requires from <= end <= |s| && s[from..end] == d && a <= b <= |d|
    ensures s[from + a..from + b] == d[a..b]
  {
    var t := s[from + a..from + b];
    assert forall i | 0 <= i < |t| :: t[i] == s[from..end][a + i];
  }

  lemma SameSuffix<T>(s: seq<T>, t: seq<T>, from: nat, end: nat, d: seq<T>, n: nat)
    requires from <= end <= |s| == |t| && s[from..end] == d && n <= |d|
    requires forall i | from + n <= i < end :: t[i] == s[i]
    ensures t[from + n..end] == d[n..]
  {
    var a, b := t[from + n..end], d[n..];
    assert |a| == |b|;
    forall i | 0 <= i < |a|
      ensures a[i] == b[i]
    {
      assert t[from + n + i] == s[from + n + i] == s[from..end][n + i];
    }
  }

  class Protocol {
    const decode: Decoder
    ghost const find: Finder
    var packetCnt: nat
    var crcErrCnt: nat
    var validCnt: nat
    ghost var recognised: seq<seq<uint8>>

    ghost predicate Valid()
      reads this
    {
      IsFind(find) && Sound(find) && packetCnt == crcErrCnt + |recognised| && validCnt <= |recognised|
    }

    constructor (decode: Decoder)
      ensures Valid() && recognised == [] && this.decode == decode
    {
      this.decode := decode;
      find := d => Find(d);
      packetCnt, crcErrCnt, validCnt, recognised := 0, 0, 0, [];
    }

    method FindStart(data: array<uint8>, from: nat, len: nat, ghost d: seq<uint8>) returns (start: int)
      requires from + len <= data.Length && data[from..from + len] == d
      ensures start == LastOpen(d)
    {
      start := -1;
      for i := 0 to len
        invariant start == LastOpen(d[..i])
      {
        assert d[..i + 1][..i] == d[..i];
        assert data[from + i] == d[i];
        if data[from + i] == OPEN {
          start := i;
        }
      }
      assert d[..len] == d;
    }

    /** The end of the packet; zero if there is none yet. */
    method FindEnd(data: array<uint8>, from: nat, len: nat, start: nat, ghost d: seq<uint8>) returns (end: nat)
      requires from + len <= data.Length && data[from..from + len] == d && start < len && d[start] == OPEN
      ensures var r := FirstReturn(d, start);
              start < r && end == if r == len then 0 else r
    {
      for i := start to len
        invariant FirstReturn(d, start) == FirstReturn(d, i)
      {
        assert data[from + i] == d[i];
        if data[from + i] == RETURN {
          return i;
        }
      }
      end := 0;
    }

    /** rs232_2400_rsp_parse on len bytes of a buffer. */
    method RspParse(rqId: nat, data: array<uint8>, from: nat, len: nat, ghost d: seq<uint8>) returns (n: nat, err: nat)
      requires Valid() && from + len <= data.Length && data[from..from + len] == d
      modifies this, data
      ensures Valid()
      ensures var r := Find(d);
              && n == r.0 && err == StatusOf(decode, rqId, r.1)
              && recognised == old(recognised) + TextsOf(r.1)
              && crcErrCnt == old(crcErrCnt) + (if r.1.InvalidCrc? then 1 else 0)
              && packetCnt == old(packetCnt) + (if r.1.NoPacket? then 0 else 1)
              && validCnt == old(validCnt) + (if CountsAsValid(r.1, err) then 1 else 0)
      ensures n <= len && forall i | from + n <= i < data.Length :: data[i] == old(data[i])
    {
      if len < MIN_MSG_LEN {
        return 0, PARSE_STATUS_NO_PACKET;
      }
      var packetStart := FindStart(data, from, len, d);
      if packetStart < 0 {
        return len, PARSE_STATUS_NO_PACKET;
      }
      var packetEnd := FindEnd(data, from, len, packetStart, d);
      if packetEnd == 0 || packetEnd - packetStart <= CRC_LEN {
        return packetStart, PARSE_STATUS_NO_PACKET;
      }
      n, err := CheckPacket(rqId, data, from, len, packetStart, packetEnd, d);
    }

    /** The checksum received and the checksum calculated. */
    method Checksums(data: array<uint8>, from: nat, len: nat, start: nat, end: nat, ghost d: seq<uint8>)
      returns (actCrc: nat, expCrc: nat)
      requires from + len <= data.Length && data[from..from + len] == d && start + CRC_LEN < end < len
      ensures actCrc == Sum(d, end) && expCrc == Crc(d[start..end - CRC_LEN])
    {
      var at := from + end - CRC_LEN;
      assert data[at] == d[end - CRC_LEN] && data[at + 1] == d[end - CRC_LEN + 1];
      actCrc := data[at] as nat * 0x100 + data[at + 1] as nat;
      SubSlice(data[..], from, from + len, d, start, end - CRC_LEN);
      expCrc := Crc16Xmodem(data[from + start..at]);
    }

    /** The text of a packet; the checksum bytes behind it become zeros. */
    method TakeText(data: array<uint8>, from: nat, len: nat, start: nat, end: nat, ghost d: seq<uint8>)
      returns (text: seq<uint8>)
      requires from + len <= data.Length && data[from..from + len] == d && start + CRC_LEN < end < len
      modifies data
      ensures text == d[start + 1..end - CRC_LEN]
      ensures forall i | from + end <= i < data.Length :: data[i] == old(data[i])
    {
      var at := from + end - CRC_LEN;
      SubSlice(data[..], from, from + len, d, start + 1, end - CRC_LEN);
      text := data[from + start + 1..at];
      data[at] := 0;
      data[at + 1] := 0;
    }

    /** The rest of rs232_2400_rsp_parse, once the ends of the packet are known. */
    method CheckPacket(rqId: nat, data: array<uint8>, from: nat, len: nat, start: nat, end: nat, ghost d: seq<uint8>)
      returns (n: nat, err: nat)
      requires Valid() && from + len <= data.Length && data[from..from + len] == d && start + CRC_LEN < end < len
      modifies this, data
      ensures Valid() && n == end + 1
      ensures var f := Verdict(d, start, end);
              && err == StatusOf(decode, rqId, f) && recognised == old(recognised) + TextsOf(f)
              && crcErrCnt == old(crcErrCnt) + (if f.InvalidCrc? then 1 else 0)
              && packetCnt == old(packetCnt) + 1
              && validCnt == old(validCnt) + (if CountsAsValid(f, err) then 1 else 0)
      ensures forall i | from + n <= i < data.Length :: data[i] == old(data[i])
    {
      n := end + 1;
      packetCnt := packetCnt + 1;
      var actCrc, expCrc := Checksums(data, from, len, start, end, d);
      if expCrc != actCrc {
        crcErrCnt := crcErrCnt + 1;
        err := PARSE_STATUS_INVALID_CRC;
      } else {
        var packet := TakeText(data, from, len, start, end, d);
        recognised := recognised + [packet];
        if IsNak(packet) {
          err := PARSE_STATUS_RQ_REJECTED;
        } else {
          err := decode(rqId, packet);
          if err == 0 {
            validCnt := validCnt + 1;
          }
        }
      }
    }
  }
}
