/** Receiving from the inverter: bytes are collected, answers are picked out of them and settle requests. */
module SerialRx {
  import opened Bytes
  import opened Rs232Frame
  import opened Rs232Protocol
  import RB = RingBuffer
  import RT = RequestTable

  const ROUNDS: nat := 8

  // ---- What parse and process_data come to ----------------------------------

  predicate EndsParsing(status: nat) {
    status == PARSE_STATUS_OK || status == PARSE_STATUS_INVALID_CRC
    || status == PARSE_STATUS_RQ_REJECTED || status == PARSE_STATUS_PACKET_MALFORMED
  }

  /** Parsing up to position n of the data: the last status, and the texts recognised. */
  datatype Parsed = Parsed(n: nat, status: nat, texts: seq<seq<uint8>>)

  function AfterRound(find: Finder, decode: Decoder, rqId: nat, d: seq<uint8>, p: Parsed): Parsed
    requires p.n <= |d|
  {
    var (n, f) := find(d[p.n..]);
    Parsed(p.n + n, StatusOf(decode, rqId, f), p.texts + TextsOf(f))
  }

  /** The loop of parse with x rounds left and p already done. */
  ghost function Parse(find: Finder, decode: Decoder, rqId: nat, d: seq<uint8>, p: Parsed, x: nat): (r: Parsed)
    requires Sound(find) && p.n <= |d|
    ensures p.n <= r.n <= |d|
    decreases x, |d|
  {
    if p.n == |d| || x == 0 then p
    else
      var q := AfterRound(find, decode, rqId, d, p);
      if EndsParsing(q.status) then q else Parse(find, decode, rqId, d, q, x - 1)
  }

  /** One call of parse at position n; without a request outstanding it does nothing. */
  ghost function ParseOnce(find: Finder, decode: Decoder, rqId: nat, d: seq<uint8>, n: nat): (r: Parsed)
    requires Sound(find) && n <= |d|
    ensures n <= r.n <= |d|
  {
    var p := Parsed(n, PARSE_STATUS_NO_PACKET, []);
    if rqId == RT.EXP_RSP_INVALID then p else Parse(find, decode, rqId, d, p, ROUNDS)
  }

  /** Whether the request outstanding is settled by this status. */
  predicate Settles(status: nat) {
    status == PARSE_STATUS_OK || status == PARSE_STATUS_RQ_REJECTED
  }

  /** Processing up to position n of the data: the request outstanding, and the texts recognised. */
  datatype Processed = Processed(n: nat, lastRqId: nat, texts: seq<seq<uint8>>)

  function AfterParse(p: Processed, r: Parsed): Processed {
    Processed(r.n, if Settles(r.status) then RT.EXP_RSP_INVALID else p.lastRqId, p.texts + r.texts)
  }

  /** The loop of process_data with x rounds left and p already done. */
  ghost function Process(find: Finder, decode: Decoder, d: seq<uint8>, p: Processed, x: nat): (r: Processed)
    requires Sound(find) && p.n <= |d|
    ensures p.n <= r.n <= |d|
    decreases x, |d|
  {
    if p.n == |d| || x == 0 then p
    else Process(find, decode, d, AfterParse(p, ParseOnce(find, decode, p.lastRqId, d, p.n)), x - 1)
  }

  /** The slots once the request outstanding is now: it was settled unless it is still the one it was. */
  function SlotsAfter(slots: seq<RT.Slot>, last: nat, now: nat): (r: seq<RT.Slot>)
    ensures |r| == |slots|
  {
    if now == last then slots else RT.Settled(slots, last)
  }

  ghost function ProcessAll(find: Finder, decode: Decoder, d: seq<uint8>, lastRqId: nat): (r: Processed)
    requires Sound(find)
    ensures r.n <= |d|
  {
    Process(find, decode, d, Processed(0, lastRqId, []), ROUNDS)
  }

  /**
    A text recognised and decoded, a rejection, a damaged and a malformed packet
    end a call of parse: nothing behind it is looked at.
   */
  lemma ParseStopsBehind(find: Finder, decode: Decoder, rqId: nat, d: seq<uint8>, n: nat)
    requires Sound(find) && n < |d| && rqId != RT.EXP_RSP_INVALID
    requires var f := find(d[n..]).1;
             match f
             case NoPacket => false
             case InvalidCrc => true
             case Packet(text) => text[..Min(3, |text|)] == [0x4E, 0x41, 0x4B] || decode(rqId, text) in {1, 3, 4, 6}
    ensures var f := find(d[n..]);
            ParseOnce(find, decode, rqId, d, n) == Parsed(n + f.0, StatusOf(decode, rqId, f.1), TextsOf(f.1))
  {
    var p := Parsed(n, PARSE_STATUS_NO_PACKET, []);
    assert [] + TextsOf(find(d[n..]).1) == TextsOf(find(d[n..]).1);
    assert AfterRound(find, decode, rqId, d, p).n == n + find(d[n..]).0;
  }

  /** Without a packet, or with one whose decoder reports anything else, it goes on behind it. */
  lemma ParseGoesOn(find: Finder, decode: Decoder, rqId: nat, d: seq<uint8>, p: Parsed, x: nat)
    requires Sound(find) && p.n < |d| && x > 0
    requires match find(d[p.n..]).1
             case NoPacket => true
             case InvalidCrc => false
             case Packet(text) => !IsNak(text) && decode(rqId, text) !in {1, 3, 4, 6}
    ensures var f := find(d[p.n..]);
            p.n + f.0 <= |d| &&
            Parse(find, decode, rqId, d, p, x) ==
              Parse(find, decode, rqId, d,
                    Parsed(p.n + f.0, StatusOf(decode, rqId, f.1), p.texts + TextsOf(f.1)), x - 1)
  {
  }

  lemma ProcessEnds(find: Finder, decode: Decoder, d: seq<uint8>, p: Processed, x: nat)
    requires Sound(find) && p.n <= |d| && (p.n == |d| || x == 0)
    ensures Process(find, decode, d, p, x) == p
  {
  }

  /** As long as no request is outstanding, whatever is received is left where it is. */
  lemma {:induction false} NothingOutstanding(find: Finder, decode: Decoder, d: seq<uint8>, p: Processed, x: nat)
    requires Sound(find) && p.n <= |d| && p.lastRqId == 0xFFFF
    ensures Process(find, decode, d, p, x) == p
    decreases x
  {
    if p.n < |d| && x > 0 {
      var r := ParseOnce(find, decode, p.lastRqId, d, p.n);
      assert r == Parsed(p.n, PARSE_STATUS_NO_PACKET, []) && p.texts + [] == p.texts;
      NothingOutstanding(find, decode, d, p, x - 1);
    }
  }

  // ---- The loop of parse ----------------------------------------------------

  /** The loop of parse with p done: the buffer still holds the rest of the data, and it will come to goal. */
  ghost predicate Parsing(protocol: Protocol, rqId: nat, data: array<uint8>, d: seq<uint8>, p: Parsed, left: nat,
                          goal: Parsed, base: seq<seq<uint8>>)
    reads protocol, data
  {
    && protocol.Valid() && p.n <= |d| <= data.Length && data[p.n..|d|] == d[p.n..]
    && protocol.recognised == base + p.texts
    && goal == if EndsParsing(p.status) then p else Parse(protocol.find, protocol.decode, rqId, d, p, left)
  }

  method ParseRound(protocol: Protocol, rqId: nat, data: array<uint8>, n: nat, end: nat, ghost d: seq<uint8>)
    returns (more: nat, status: nat)
    requires protocol.Valid() && n <= end == |d| <= data.Length && data[n..end] == d[n..]
    modifies protocol, data
    ensures protocol.Valid()
    ensures var r := protocol.find(d[n..]);
            && more == r.0 <= end - n && status == StatusOf(protocol.decode, rqId, r.1)
            && protocol.recognised == old(protocol.recognised) + TextsOf(r.1)
    ensures data[n + more..end] == d[n + more..]
  {
    ghost var s, rest := data[..], d[n..];
    assert n + (end - n) == end && data[n..n + (end - n)] == rest;
    more, status := protocol.RspParse(rqId, data, n, end - n, rest);
    SameSuffix(s, data[..], n, end, rest, more);
    assert rest[more..] == d[n + more..];
  }

  /** The body of the loop of parse. */
  method ParseBody(protocol: Protocol, rqId: nat, data: array<uint8>, n: nat, end: nat, ghost d: seq<uint8>,
                   ghost p: Parsed, ghost left: nat, ghost goal: Parsed, ghost base: seq<seq<uint8>>)
    returns (next: nat, status: nat, ghost q: Parsed)
    requires Parsing(protocol, rqId, data, d, p, left, goal, base)
    requires n == p.n < end == |d| && left > 0 && !EndsParsing(p.status)
    modifies protocol, data
    ensures q.n == next && q.status == status && Parsing(protocol, rqId, data, d, q, left - 1, goal, base)
  {
    q := AfterRound(protocol.find, protocol.decode, rqId, d, p);
    Regroup(base, p.texts, TextsOf(protocol.find(d[n..]).1));
    var more;
    more, status := ParseRound(protocol, rqId, data, n, end, d);
    next := n + more;
  }

  method ParseLoop(protocol: Protocol, rqId: nat, data: array<uint8>, from: nat, end: nat, ghost d: seq<uint8>)
    returns (next: nat, status: nat)
    requires protocol.Valid() && from <= end == |d| <= data.Length && data[from..end] == d[from..]
    requires rqId != RT.EXP_RSP_INVALID
    modifies protocol, data
    ensures protocol.Valid()
    ensures var r := ParseOnce(protocol.find, protocol.decode, rqId, d, from);
            && next == r.n && status == r.status && protocol.recognised == old(protocol.recognised) + r.texts
    ensures data[next..end] == d[next..]
  {
    next, status := from, PARSE_STATUS_NO_PACKET;
    ghost var p, left: nat, base := Parsed(from, status, []), ROUNDS, protocol.recognised;
    ghost var goal := Parse(protocol.find, protocol.decode, rqId, d, p, left);
    assert base + [] == base;
    var i := 0;
    while next < end && i < ROUNDS && !EndsParsing(status)
      invariant i + left == ROUNDS && p.n == next && p.status == status
      invariant Parsing(protocol, rqId, data, d, p, left, goal, base)
      decreases ROUNDS - i
    {
      next, status, p := ParseBody(protocol, rqId, data, next, end, d, p, left, goal, base);
      i, left := i + 1, left - 1;
    }
  }

  // ---- The receiver ---------------------------------------------------------

  class Receiver {
    const maxPacketLen: nat
    const ring: RB.Ring
    const protocol: Protocol
    const client: RT.Client

    ghost predicate Valid()
      reads this, ring, protocol, client, client.slots
    {
      ring.Valid() && protocol.Valid() && client.Valid() && 0 < maxPacketLen && ring.buffer.Length == 2 * maxPacketLen
    }

    constructor (maxPacketLen: nat, protocol: Protocol, client: RT.Client)
      requires maxPacketLen > 0 && protocol.Valid() && client.Valid()
      ensures Valid() && ring.Contents() == [] && this.protocol == protocol && this.client == client
      ensures this.maxPacketLen == maxPacketLen && fresh(ring) && fresh(ring.buffer)
    {
      this.maxPacketLen, this.protocol, this.client := maxPacketLen, protocol, client;
      ring := new RB.Ring(2 * maxPacketLen);
    }

    /** parse: the answer expected is the one to the last request. */
    method ParseData(data: array<uint8>, from: nat, end: nat, ghost d: seq<uint8>) returns (next: nat, status: nat)
      requires Valid() && from <= end == |d| <= data.Length && data != ring.buffer && data[from..end] == d[from..]
      modifies protocol, client`live, client`lastRqId, client.slots, data
      ensures Valid()
      ensures var last := old(client.lastRqId);
              var r := ParseOnce(protocol.find, protocol.decode, last, d, from);
              && next == r.n && status == r.status && protocol.recognised == old(protocol.recognised) + r.texts
              && client.lastRqId == if status == PARSE_STATUS_RQ_REJECTED then RT.EXP_RSP_INVALID else last
      ensures data[next..end] == d[next..]
      ensures client.slots[..] == if status == PARSE_STATUS_RQ_REJECTED
                                  then RT.Settled(old(client.slots[..]), old(client.lastRqId))
                                  else old(client.slots[..])
    {
      next, status := from, PARSE_STATUS_NO_PACKET;
      if client.lastRqId == RT.EXP_RSP_INVALID {
        assert protocol.recognised + [] == protocol.recognised;
        return;
      }
      next, status := ParseLoop(protocol, client.lastRqId, data, from, end, d);
      if status == PARSE_STATUS_RQ_REJECTED {
        client.AckRsp(client.lastRqId);
      }
    }

    /** The part of packet_handler that is not dispatching. */
    method PacketHandler(msgType: nat)
      requires Valid()
      modifies client`live, client`lastRqId, client.slots
      ensures Valid()
      ensures client.lastRqId == if old(client.lastRqId) == msgType then RT.EXP_RSP_INVALID else old(client.lastRqId)
      ensures client.slots[..] == RT.Settled(old(client.slots[..]), msgType)
    {
      client.AckRsp(msgType);
    }

    /** The loop of process_data with p done: the buffer still holds the rest of the data, and it will come to goal. */
    ghost predicate Processing(data: array<uint8>, d: seq<uint8>, p: Processed, left: nat, goal: Processed,
                               base: seq<seq<uint8>>, last: nat, slots: seq<RT.Slot>)
      reads this, ring, protocol, client, client.slots, data
    {
      && Valid() && p.n <= |d| <= data.Length && data != ring.buffer && data[p.n..|d|] == d[p.n..]
      && client.lastRqId == p.lastRqId && protocol.recognised == base + p.texts
      && goal == Process(protocol.find, protocol.decode, d, p, left)
      && (p.lastRqId == last || p.lastRqId == RT.EXP_RSP_INVALID)
      && client.slots[..] == SlotsAfter(slots, last, p.lastRqId)
    }

    /** The body of the loop of process_data. */
    method ProcessBody(data: array<uint8>, n: nat, end: nat, ghost d: seq<uint8>, ghost p: Processed, ghost left: nat,
                       ghost goal: Processed, ghost base: seq<seq<uint8>>, ghost last: nat, ghost slots: seq<RT.Slot>)
      returns (next: nat, ghost q: Processed)
      requires Processing(data, d, p, left, goal, base, last, slots) && n == p.n < end == |d| && left > 0
      modifies protocol, client`live, client`lastRqId, client.slots, data
      ensures q.n == next && Processing(data, d, q, left - 1, goal, base, last, slots)
    {
      ghost var r := ParseOnce(protocol.find, protocol.decode, client.lastRqId, d, n);
      q := AfterParse(p, r);
      Regroup(base, p.texts, r.texts);
      var status;
      next, status := ParseData(data, n, end, d);
      if status == PARSE_STATUS_OK {
        PacketHandler(client.lastRqId);
      }
    }

    /** The loop of process_data on the bytes read from the ring. */
    method ProcessLoop(data: array<uint8>, dataLen: nat, ghost d: seq<uint8>) returns (processedBytes: nat)
      requires Valid() && dataLen == |d| <= data.Length && data != ring.buffer && data[..dataLen] == d
      modifies protocol, client`live, client`lastRqId, client.slots, data
      ensures Valid()
      ensures var r := ProcessAll(protocol.find, protocol.decode, d, old(client.lastRqId));
              && processedBytes == r.n && client.lastRqId == r.lastRqId
              && protocol.recognised == old(protocol.recognised) + r.texts
      ensures client.slots[..] == SlotsAfter(old(client.slots[..]), old(client.lastRqId), client.lastRqId)
    {
      processedBytes := 0;
      ghost var p, left: nat := Processed(0, client.lastRqId, []), ROUNDS;
      ghost var base, last, slots := protocol.recognised, client.lastRqId, client.slots[..];
      ghost var goal := ProcessAll(protocol.find, protocol.decode, d, last);
      BeginProcessing(data, d, goal);
      var i := 0;
      while processedBytes < dataLen && i < ROUNDS
        invariant i + left == ROUNDS && p.n == processedBytes
        invariant Processing(data, d, p, left, goal, base, last, slots) == true   // as a whole, not clause by clause
        decreases ROUNDS - i
      {
        processedBytes, p := ProcessBody(data, processedBytes, dataLen, d, p, left, goal, base, last, slots);
        i, left := i + 1, left - 1;
      }
      ProcessEnds(protocol.find, protocol.decode, d, p, left);
    }

    lemma BeginProcessing(data: array<uint8>, d: seq<uint8>, goal: Processed)
      requires Valid() && |d| <= data.Length && data != ring.buffer && data[..|d|] == d
      requires goal == ProcessAll(protocol.find, protocol.decode, d, client.lastRqId)
      ensures Processing(data, d, Processed(0, client.lastRqId, []), ROUNDS, goal, protocol.recognised,
                         client.lastRqId, client.slots[..])
    {
      assert protocol.recognised + [] == protocol.recognised && d[0..] == d && data[0..|d|] == d;
    }

    /** process_data: what is not done with stays in the ring. */
    method ProcessData(newData: seq<uint8>)
      requires Valid() && newData != []
      modifies ring, ring.buffer, protocol, client`live, client`lastRqId, client.slots
      ensures Valid()
      ensures var all := RB.Newest(old(ring.Contents()) + newData, ring.buffer.Length);
              var r := ProcessAll(protocol.find, protocol.decode, all[..Min(maxPacketLen, |all|)],
                                  old(client.lastRqId));
              && ring.Contents() == all[r.n..] && client.lastRqId == r.lastRqId
              && protocol.recognised == old(protocol.recognised) + r.texts
      ensures client.lastRqId == old(client.lastRqId) ==> client.slots[..] == old(client.slots[..])
      ensures client.lastRqId != old(client.lastRqId) ==>
                client.slots[..] == RT.Settled(old(client.slots[..]), old(client.lastRqId))
    {
      var n := ring.Write(newData);
      ghost var all := ring.Contents();
      var data := new uint8[maxPacketLen](i => 0);
      var dataLen := ring.Read(data, maxPacketLen);
      var processedBytes := ProcessLoop(data, dataLen, all[..dataLen]);
      if processedBytes > 0 {
        var cleared := ring.Clear(processedBytes);
      }
    }
  }
}
