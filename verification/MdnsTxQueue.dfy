/**
  The mDNS transmit queue: packets in a linked list kept in order of the time
  they are due, shared by all interfaces.
 */
module MdnsTxQueue {
  import opened Bytes

  /** A registered service. Services are told apart by identity (their address), not by name. */
  datatype Service = Service(id: nat, kind: string, proto: string)

  /** A probe question: for a service, or for a host name (of the responder or of one service). */
  datatype Question =
    | ServiceQuestion(service: Service, unicast: bool)
    | HostQuestion(owner: Option<Service>, unicast: bool)

  datatype RecordType = A | AAAA | PTR | SDPTR | SRV | TXT

  datatype Answer = Answer(kind: RecordType, service: Option<Service>)

  datatype Packet = Packet(
    id: nat,              // its address
    pcb: nat,             // interface and protocol it belongs to
    sendAt: nat,
    queued: bool,         // handed to the action queue
    distributed: bool,
    questions: seq<Question>,
    answers: seq<Answer>,
    servers: seq<Answer>,
    additional: seq<Answer>)

  predicate Sorted(q: seq<Packet>) {
    forall i, j | 0 <= i < j < |q| :: q[i].sendAt <= q[j].sendAt
  }

  /** The packets of one PCB, in queue order. */
  function Of(q: seq<Packet>, pcb: nat): seq<Packet> {
    if q == [] then []
    else (if q[0].pcb == pcb then [q[0]] else []) + Of(q[1..], pcb)
  }

  /** The packets of all other PCBs, in queue order. */
  function NotOf(q: seq<Packet>, pcb: nat): seq<Packet> {
    if q == [] then []
    else (if q[0].pcb == pcb then [] else [q[0]]) + NotOf(q[1..], pcb)
  }

  /** The packets due at one time, in queue order. */
  function DueAt(q: seq<Packet>, t: nat): seq<Packet> {
    if q == [] then []
    else (if q[0].sendAt == t then [q[0]] else []) + DueAt(q[1..], t)
  }

  predicate IdsDistinct(q: seq<Packet>) {
    forall i, j | 0 <= i < j < |q| :: q[i].id != q[j].id
  }

  /** Insertion behind every packet that is due no later. */
  function Insert(q: seq<Packet>, p: Packet): (r: seq<Packet>)
    ensures |r| == |q| + 1
  {
    if q == [] || q[0].sendAt > p.sendAt then [p] + q else [q[0]] + Insert(q[1..], p)
  }

  // ---- What the operations keep ---------------------------------------------

  lemma {:induction false} InsertSplits(q: seq<Packet>, p: Packet) returns (k: nat)
    ensures k <= |q| && Insert(q, p) == q[..k] + [p] + q[k..]
    ensures forall i | 0 <= i < k :: q[i].sendAt <= p.sendAt
    ensures k < |q| ==> p.sendAt < q[k].sendAt
  {
    if q == [] || q[0].sendAt > p.sendAt {
      k := 0;
    } else {
      var k' := InsertSplits(q[1..], p);
      k := k' + 1;
      assert q[..k] == [q[0]] + q[1..][..k'];
      assert q[k..] == q[1..][k'..];
    }
  }

  lemma InsertSorted(q: seq<Packet>, p: Packet)
    requires Sorted(q)
    ensures Sorted(Insert(q, p))
  {
    var k := InsertSplits(q, p);
  }

  lemma {:induction false} InsertMembers(q: seq<Packet>, p: Packet)
    ensures forall x :: x in Insert(q, p) <==> x in q || x == p
  {
    if q != [] && q[0].sendAt <= p.sendAt {
      InsertMembers(q[1..], p);
    }
  }

  lemma {:induction false} InsertIds(q: seq<Packet>, p: Packet)
    requires IdsDistinct(q) && forall x | x in q :: x.id != p.id
    ensures IdsDistinct(Insert(q, p))
  {
    if q != [] && q[0].sendAt <= p.sendAt {
      InsertIds(q[1..], p);
      InsertMembers(q[1..], p);
      assert forall x | x in q[1..] :: x.id != q[0].id;
      var r := Insert(q[1..], p);
      assert forall i | 0 <= i < |r| :: r[i] in r;
    }
  }

  lemma {:induction false} OfConcat(a: seq<Packet>, b: seq<Packet>, pcb: nat)
    ensures Of(a + b, pcb) == Of(a, pcb) + Of(b, pcb)
  {
    if a == [] {
      assert a + b == b;
    } else {
      assert (a + b)[1..] == a[1..] + b;
      OfConcat(a[1..], b, pcb);
    }
  }

  lemma {:induction false} DueAtConcat(a: seq<Packet>, b: seq<Packet>, t: nat)
    ensures DueAt(a + b, t) == DueAt(a, t) + DueAt(b, t)
  {
    if a == [] {
      assert a + b == b;
    } else {
      assert (a + b)[1..] == a[1..] + b;
      DueAtConcat(a[1..], b, t);
    }
  }

  lemma {:induction false} NoneDueAt(q: seq<Packet>, t: nat)
    requires forall x | x in q :: x.sendAt != t
    ensures DueAt(q, t) == []
  {
    if q != [] {
      NoneDueAt(q[1..], t);
    }
  }

  /** First in, first out among packets due at the same time. */
  lemma InsertIsFifo(q: seq<Packet>, p: Packet, t: nat)
    requires Sorted(q)
    ensures DueAt(Insert(q, p), t) == DueAt(q, t) + if t == p.sendAt then [p] else []
  {
    var k := InsertSplits(q, p);
    assert q == q[..k] + q[k..];
    DueAtConcat(q[..k], q[k..], t);
    DueAtConcat(q[..k] + [p], q[k..], t);
    DueAtConcat(q[..k], [p], t);
    if t == p.sendAt {
      NoneDueAt(q[k..], t);
    }
  }

  /** Other PCBs do not notice an insertion. */
  lemma InsertOf(q: seq<Packet>, p: Packet, pcb: nat)
    ensures p.pcb != pcb ==> Of(Insert(q, p), pcb) == Of(q, pcb)
    ensures p.pcb == pcb && Of(q, pcb) == [] ==> Of(Insert(q, p), pcb) == [p]
  {
    var k := InsertSplits(q, p);
    assert q == q[..k] + q[k..];
    OfConcat(q[..k], q[k..], pcb);
    OfConcat(q[..k] + [p], q[k..], pcb);
    OfConcat(q[..k], [p], pcb);
    assert Of([p], pcb) == if p.pcb == pcb then [p] else [];
  }

  lemma {:induction false} OfMembers(q: seq<Packet>, pcb: nat)
    ensures forall x :: x in Of(q, pcb) <==> x in q && x.pcb == pcb
  {
    if q != [] {
      OfMembers(q[1..], pcb);
    }
  }

  lemma {:induction false} NotOfMembers(q: seq<Packet>, pcb: nat)
    ensures forall x :: x in NotOf(q, pcb) <==> x in q && x.pcb != pcb
  {
    if q != [] {
      NotOfMembers(q[1..], pcb);
    }
  }

  lemma {:induction false} NotOfSorted(q: seq<Packet>, pcb: nat)
    requires Sorted(q)
    ensures Sorted(NotOf(q, pcb))
  {
    if q != [] {
      NotOfSorted(q[1..], pcb);
      NotOfMembers(q[1..], pcb);
      assert forall x | x in q[1..] :: q[0].sendAt <= x.sendAt;
      var r := NotOf(q[1..], pcb);
      assert forall i | 0 <= i < |r| :: r[i] in q[1..];
    }
  }

  lemma {:induction false} NotOfIds(q: seq<Packet>, pcb: nat)
    requires IdsDistinct(q)
    ensures IdsDistinct(NotOf(q, pcb))
  {
    if q != [] {
      NotOfIds(q[1..], pcb);
      NotOfMembers(q[1..], pcb);
      var r := NotOf(q[1..], pcb);
      assert forall i | 0 <= i < |r| :: r[i] in q[1..];
      assert forall x | x in q[1..] :: q[0].id != x.id;
    }
  }

  /** Clearing a PCB leaves none of its packets and all packets of every other PCB. */
  lemma {:induction false} OfNotOf(q: seq<Packet>, pcb: nat, other: nat)
    ensures Of(NotOf(q, pcb), other) == if other == pcb then [] else Of(q, other)
  {
    if q != [] {
      OfNotOf(q[1..], pcb, other);
      OfConcat(if q[0].pcb == pcb then [] else [q[0]], NotOf(q[1..], pcb), other);
      assert Of([q[0]], other) == if q[0].pcb == other then [q[0]] else [];
    }
  }

  // ---- The operations -------------------------------------------------------

  /** _mdns_schedule_tx_packet: walk to the last packet due no later. */
  method ScheduleTxPacket(q: seq<Packet>, packet: Packet, now: nat, msAfter: nat) returns (r: seq<Packet>, p: Packet)
    ensures p == packet.(sendAt := now + msAfter) && r == Insert(q, p)
  {
    p := packet.(sendAt := now + msAfter);
    if q == [] || q[0].sendAt > p.sendAt {
      return [p] + q, p;
    }
    var i := 0;
    while i + 1 < |q| && q[i + 1].sendAt <= p.sendAt
      invariant 0 <= i < |q|
      invariant Insert(q, p) == q[..i + 1] + Insert(q[i + 1..], p)
    {
      assert q[..i + 2] == q[..i + 1] + [q[i + 1]];
      assert q[i + 1..][1..] == q[i + 2..];
      assert Insert(q[i + 1..], p) == [q[i + 1]] + Insert(q[i + 2..], p);
      i := i + 1;
    }
    assert Insert(q[i + 1..], p) == [p] + q[i + 1..];
    r := q[..i + 1] + ([p] + q[i + 1..]);
  }

  /** _mdns_clear_pcb_tx_queue_head: first from the head, then behind it. */
  method ClearPcbTxQueue(q: seq<Packet>, pcb: nat) returns (r: seq<Packet>)
    ensures r == NotOf(q, pcb)
  {
    r := q;
    while r != [] && r[0].pcb == pcb
      invariant NotOf(r, pcb) == NotOf(q, pcb)
      decreases |r|
    {
      r := r[1..];
    }
    if r != [] {
      var i := 0;
      while i + 1 < |r|
        invariant 0 <= i < |r|
        invariant NotOf(q, pcb) == r[..i + 1] + NotOf(r[i + 1..], pcb)
        decreases |r| - i
      {
        assert r[i + 1..][1..] == r[i + 2..];
        if r[i + 1].pcb == pcb {
          r := r[..i + 1] + r[i + 2..];
        } else {
          assert r[..i + 2] == r[..i + 1] + [r[i + 1]];
          i := i + 1;
        }
      }
    }
  }

  /** _mdns_get_next_pcb_packet */
  method NextPcbPacket(q: seq<Packet>, pcb: nat) returns (i: nat)
    ensures i <= |q|
    ensures Of(q[..i], pcb) == []
    ensures i < |q| ==> q[i].pcb == pcb && Of(q, pcb) != [] && Of(q, pcb)[0] == q[i]
    ensures i == |q| <==> Of(q, pcb) == []
  {
    i := 0;
    while i < |q| && q[i].pcb != pcb
      invariant 0 <= i <= |q|
      invariant Of(q, pcb) == Of(q[i..], pcb) && Of(q[..i], pcb) == []
    {
      assert q[i..][1..] == q[i + 1..];
      assert q[..i + 1] == q[..i] + [q[i]];
      OfConcat(q[..i], [q[i]], pcb);
      i := i + 1;
    }
  }
}
