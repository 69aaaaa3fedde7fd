/** What the responder writes into its packets: records of services, and questions repeated. */
module MdnsRecords {
  import opened Bytes
  import opened MdnsTxQueue
  import opened MdnsProbe

  /** What joining an announcement that is queued already adds to the packet. */
  ghost predicate Joined(p: Packet, r: Packet, svcs: seq<Service>, ip: bool) {
    && r == p.(answers := r.answers, additional := r.additional)
    && (forall y :: y in r.answers <==> y in p.answers || AnnouncesOne(y, svcs, ip))
    && (NoRecordTwice(p.answers) ==> NoRecordTwice(r.answers))
    && r.additional ==
         if ip then RemoveAnswer(RemoveAnswer(p.additional, Answer(A, None)), Answer(AAAA, None)) else p.additional
  }

  /** A packet of its own for an announcement. */
  ghost predicate IsAnnouncement(p: Packet, svcs: seq<Service>, ip: bool) {
    && p.questions == [] && p.additional == [] && !p.queued && !p.distributed
    && AnnouncesAll(p.answers, svcs, false) && NoRecordTwice(p.answers)
    && AnnouncesAll(p.servers, [], ip) && NoRecordTwice(p.servers)
  }

  lemma JoinedRefers(p: Packet, r: Packet, svcs: seq<Service>, ip: bool, alive: seq<Service>)
    requires Joined(p, r, svcs, ip) && PacketRefersOnlyTo(p, alive) && forall s | s in svcs :: s in alive
    ensures PacketRefersOnlyTo(r, alive)
  {
  }

  lemma AnnouncementRefers(p: Packet, svcs: seq<Service>, ip: bool, alive: seq<Service>)
    requires IsAnnouncement(p, svcs, ip) && forall s | s in svcs :: s in alive
    ensures PacketRefersOnlyTo(p, alive)
  {
  }

  /** Services added to an announcement that is already queued. */
  method AddAnnouncement(p: Packet, svcs: seq<Service>, includeIp: bool) returns (r: Packet)
    ensures Joined(p, r, svcs, includeIp)
  {
    var answers := AnnounceServices(p.answers, svcs);
    var additional := p.additional;
    if includeIp {
      additional := RemoveAnswer(RemoveAnswer(additional, Answer(A, None)), Answer(AAAA, None));
      answers := AnnounceAddress(answers);
    }
    r := p.(answers := answers, additional := additional);
  }

  /** Four records for every service. */
  method AnnounceServices(before: seq<Answer>, svcs: seq<Service>) returns (answers: seq<Answer>)
    ensures forall y :: y in answers <==> y in before || AnnouncesOne(y, svcs, false)
    ensures NoRecordTwice(before) ==> NoRecordTwice(answers)
  {
    answers := before;
    for i := 0 to |svcs|
      invariant forall y :: y in answers <==> y in before || AnnouncesOne(y, svcs[..i], false)
      invariant NoRecordTwice(before) ==> NoRecordTwice(answers)
    {
      answers := AnnounceService(answers, svcs[i]);
      OneMoreService(svcs, i);
    }
    NextPrefix(svcs, |svcs|);
  }

  lemma OneMoreService(svcs: seq<Service>, i: nat)
    requires i < |svcs|
    ensures forall y :: AnnouncesOne(y, svcs[..i + 1], false) <==>
                          AnnouncesOne(y, svcs[..i], false) || IsRecordOf(y, svcs[i])
  {
    NextPrefix(svcs, i);
  }

  /** _mdns_dealloc_answer: the first such record, if any. */
  function RemoveAnswer(a: seq<Answer>, x: Answer): (r: seq<Answer>)
    ensures forall y | y in r :: y in a
  {
    if a == [] then []
    else if a[0] == x then a[1..]
    else [a[0]] + RemoveAnswer(a[1..], x)
  }

  /** Exactly one such record goes, if there is one, and the others keep their order. */
  lemma {:induction false} RemoveAnswerMeaning(a: seq<Answer>, x: Answer)
    ensures if x in a then exists i :: 0 <= i < |a| && a[i] == x && RemoveAnswer(a, x) == a[..i] + a[i + 1..]
            else RemoveAnswer(a, x) == a
  {
    if a != [] && a[0] != x {
      RemoveAnswerMeaning(a[1..], x);
      if x in a {
        var i :| 0 <= i < |a[1..]| && a[1..][i] == x && RemoveAnswer(a[1..], x) == a[1..][..i] + a[1..][i + 1..];
        assert a[i + 1] == x && RemoveAnswer(a, x) == a[..i + 1] + a[i + 2..];
      }
    } else if a != [] {
      assert a[..0] + a[1..] == a[1..];
    }
  }

  /** _mdns_create_announce_packet */
  method CreateAnnouncePacket(addr: nat, pcb: nat, svcs: seq<Service>, includeIp: bool) returns (p: Packet)
    ensures p.id == addr && p.pcb == pcb && IsAnnouncement(p, svcs, includeIp)
  {
    var answers := AnnounceServices([], svcs);
    var servers: seq<Answer> := [];
    if includeIp {
      servers := AnnounceAddress(servers);
    }
    p := Packet(addr, pcb, 0, false, false, [], answers, servers, []);
  }

  /** The same questions without the unicast bit. */
  predicate SameButUnicast(q: seq<Question>, r: seq<Question>) {
    |r| == |q| && forall i | 0 <= i < |q| :: r[i] == q[i].(unicast := false)
  }

  /** The questions of a probe that is sent again: the first time the unicast bits are cleared. */
  method QuestionsAgain(q: seq<Question>, first: bool) returns (r: seq<Question>)
    requires AllUnicast(q, first)
    ensures SameButUnicast(q, r)
  {
    r := q;
    if first {
      r := ClearUnicast(q);
    } else {
      assert forall i | 0 <= i < |q| :: q[i] in q;
    }
  }

  /** The loop that clears the unicast bit of every question. */
  method ClearUnicast(q: seq<Question>) returns (r: seq<Question>)
    ensures SameButUnicast(q, r)
  {
    r := [];
    for i := 0 to |q|
      invariant |r| == i && forall k | 0 <= k < i :: r[k] == q[k].(unicast := false)
    {
      r := r + [q[i].(unicast := false)];
    }
  }

  lemma {:induction false} AskedAgain(q: seq<Question>, r: seq<Question>)
    requires SameButUnicast(q, r)
    ensures Asked(r) == Asked(q)
    decreases |q|
  {
    if q != [] {
      AskedAgain(q[..|q| - 1], r[..|q| - 1]);
    }
  }

  /** What the probe asks for stays the same. */
  lemma SameQuestions(q: seq<Question>, r: seq<Question>)
    requires SameButUnicast(q, r)
    ensures Asked(r) == Asked(q) && AllUnicast(r, false) && (HasHostQuestion(r) <==> HasHostQuestion(q))
  {
    AskedAgain(q, r);
    forall x | x in r
      ensures !x.unicast
    {
      var i :| 0 <= i < |r| && r[i] == x;
    }
    if HasHostQuestion(q) {
      var x :| x in q && x.HostQuestion?;
      var i :| 0 <= i < |q| && q[i] == x;
      assert r[i] in r && r[i].HostQuestion?;
    }
    if HasHostQuestion(r) {
      var x :| x in r && x.HostQuestion?;
      var i :| 0 <= i < |r| && r[i] == x;
      assert q[i] in q && q[i].HostQuestion?;
    }
  }

  function Flags(q: seq<Question>): (r: seq<bool>)
    ensures |r| == |q| && forall i | 0 <= i < |q| :: r[i] == q[i].unicast
  {
    seq(|q|, i requires 0 <= i < |q| => q[i].unicast)
  }
}
