/** What the removal of a service does to one queued packet and to the PCB it belongs to. */
module MdnsPurge {
  import opened Bytes
  import opened MdnsTxQueue
  import opened MdnsProbe

  ghost predicate NoReference(p: Packet, s: Service) {
    forall x | x in p.answers || x in p.servers || x in p.additional :: x.service != Some(s)
  }

  predicate ProbesHere(p: Pcb, s: Service) {
    p.ready && InProbe(p.state) && s in p.probeServices
  }

  /** A packet without the records of a service; asked: a question goes too. */
  function PurgedPacket(p: Packet, s: Service, asked: bool): Packet {
    p.(questions := if asked then WithoutMatch(p.questions, s) else p.questions,
       answers := Purge(p.answers, s), servers := Purge(p.servers, s), additional := Purge(p.additional, s))
  }

  predicate HasNothing(p: Packet) {
    p.questions == [] && p.answers == [] && p.servers == [] && p.additional == []
  }

  /** All packets without the records of a service; those in which nothing is left are dropped. */
  function PurgedList(q: seq<Packet>, s: Service, pcbs: seq<Pcb>): seq<Packet> {
    if q == [] then []
    else
      var n := |q| - 1;
      var p := PurgedPacket(q[n], s, q[n].pcb < |pcbs| && ProbesHere(pcbs[q[n].pcb], s));
      PurgedList(q[..n], s, pcbs) + if HasNothing(p) then [] else [p]
  }

  /** A packet had answers, all of them about the service. */
  predicate LosesAnswers(p: Packet, s: Service) {
    p.answers != [] && forall x | x in p.answers :: x.service == Some(s)
  }

  /**
    What the removal of a service does to a PCB and its packets. If it is up and
    probing the service, it goes on probing as long as another service or the
    address is left; if it is announcing, it goes on unless one of its packets
    loses all its answers. Nothing else changes.
   */
  ghost predicate PurgedOn(before: Pcb, after: Pcb, was: seq<Packet>, s: Service) {
    if ProbesHere(before, s) then
      if before.probeServices == [s] && !before.probeIp then
        after == before.(probeServices := [], probeRunning := false, state := Running)
      else
        && after == before.(probeServices := after.probeServices)
        && forall x :: x in after.probeServices <==> x in before.probeServices && x != s
    else if
      && before.ready && before.state in {Announce1, Announce2, Announce3}
      && exists p | p in was :: LosesAnswers(p, s)
    then
      after == before.(state := Running)
    else after == before
  }

  lemma LosesExactly(p: Packet, s: Service)
    ensures LosesAnswers(p, s) <==> p.answers != [] && Purge(p.answers, s) == []
  {
    PurgeMembers(p.answers, s);
    if p.answers != [] && Purge(p.answers, s) != [] {
      assert Purge(p.answers, s)[0] in Purge(p.answers, s);
    }
  }

  method IndexOf(list: seq<Service>, s: Service) returns (i: nat)
    ensures i <= |list| && (i < |list| ==> list[i] == s) && (i == |list| ==> s !in list)
  {
    i := 0;
    while i < |list| && list[i] != s
      invariant 0 <= i <= |list| && s !in list[..i]
    {
      i := i + 1;
    }
    assert list[..i] + list[i..] == list;
  }

  /** Still something to probe after s has left: the packet asks for the rest. */
  lemma ProbesTheRest(p: Pcb, q: Packet, q': Packet, rest: seq<Service>, s: Service,
                      alive: seq<Service>, hostnameSet: bool, clean: bool, phase: Phase)
    requires PcbOk(p, [q], alive, hostnameSet, clean, phase) && InProbe(p.state) && (rest != [] || p.probeIp) && p.ready
    requires NoDuplicates(rest) && forall x :: x in rest <==> x in p.probeServices && x != s
    requires AskedKeys(q'.questions) == Keys(rest) && q'.sendAt == q.sendAt
    requires forall x | x in q'.questions :: x in q.questions
    requires forall x | x in q.questions && x.HostQuestion? :: x in q'.questions
    requires forall x: Answer :: x in q'.servers <==> x in q.servers && x.service != Some(s)
    ensures PcbOk(p.(probeServices := rest), [q'], alive, hostnameSet, clean, phase)
    ensures q'.questions != []
  {
    assert AsksFor(q', rest, p.probeIp, p.state.Probe1?);
    ProbeAsksSomething(q', rest, p.probeIp, p.state.Probe1?);
    forall x: Service
      ensures x in rest <==> Answer(SRV, Some(x)) in q'.servers
    {
      assert x in p.probeServices <==> Answer(SRV, Some(x)) in q.servers;
    }
    assert HasServers(q', rest);
  }

  lemma OnePacketOnly(p: Pcb, a: seq<Packet>, q: Packet, b: seq<Packet>, hostnameSet: bool, phase: Phase)
    requires Consistent(p, a + [q] + b, hostnameSet, phase) && InProbe(p.state)
    ensures a == [] && b == [] && a + [q] + b == [q]
  {
    assert |a + [q] + b| == |a| + 1 + |b|;
  }

  /** A PCB that is up stops probing. */
  function Stopped(p: Pcb): Pcb {
    p.(probeServices := [], probeRunning := false, state := Running)
  }

  lemma StoppedOk(p: Pcb, before: seq<Packet>, mine: seq<Packet>, alive: seq<Service>, hostnameSet: bool, clean: bool,
                  phase: Phase)
    requires PcbOk(p, before, alive, hostnameSet, clean, phase) && p.ready && InProbe(p.state)
    ensures PcbOk(Stopped(p), mine, alive, hostnameSet, clean, Quiet)
  {
  }

  /** The service at position i leaves the probe list, one question leaves the packet. */
  method DropProbed(p: Pcb, q: Packet, s: Service, i: nat,
                    ghost alive: seq<Service>, ghost hostnameSet: bool, ghost clean: bool, ghost phase: Phase)
    returns (p': Pcb, questions: seq<Question>)
    requires PcbOk(p, [q], alive, hostnameSet, clean, phase) && InProbe(p.state) && p.ready
    requires i < |p.probeServices| && p.probeServices[i] == s && (|p.probeServices| > 1 || p.probeIp)
    ensures questions == WithoutMatch(q.questions, s)
    ensures p' == p.(probeServices := p.probeServices[..i] + p.probeServices[i + 1..])
    ensures PcbOk(p', [PurgedPacket(q, s, true)], alive, hostnameSet, clean, phase) && questions != []
    ensures PurgedOn(p, p', [q], s)
  {
    questions := RemoveServiceQuestion(q.questions, s);
    WithoutOne(p.probeServices, i);
    var rest := p.probeServices[..i] + p.probeServices[i + 1..];
    p' := p.(probeServices := rest);
    PurgeMembers(q.servers, s);
    ProbesTheRest(p, q, PurgedPacket(q, s, true), rest, s, alive, hostnameSet, clean, phase);
  }

  /** What becomes of a PCB that is up and probing, and of its packet. */
  ghost predicate ProbePurged(p: Pcb, p': Pcb, q: Packet, questions: seq<Question>, s: Service, alive: seq<Service>,
                              hostnameSet: bool, clean: bool, phase: Phase)
  {
    var q' := PurgedPacket(q, s, ProbesHere(p, s));
    && questions == q'.questions && PurgedOn(p, p', [q], s)
    && if InProbe(p'.state) then PcbOk(p', [q'], alive, hostnameSet, clean, phase) && questions != []
       else p' == Stopped(p)
  }

  lemma NotProbed(p: Pcb, q: Packet, s: Service, alive: seq<Service>, hostnameSet: bool, clean: bool, phase: Phase)
    requires PcbOk(p, [q], alive, hostnameSet, clean, phase) && p.ready && InProbe(p.state) && s !in p.probeServices
    ensures ProbePurged(p, p, q, q.questions, s, alive, hostnameSet, clean, phase)
  {
    PurgeMembers(q.servers, s);
    ProbesTheRest(p, q, PurgedPacket(q, s, false), p.probeServices, s, alive, hostnameSet, clean, phase);
  }

  lemma LastProbed(p: Pcb, q: Packet, s: Service, alive: seq<Service>, hostnameSet: bool, clean: bool, phase: Phase)
    requires p.ready && InProbe(p.state) && p.probeServices == [s] && !p.probeIp
    ensures ProbePurged(p, Stopped(p), q, WithoutMatch(q.questions, s), s, alive, hostnameSet, clean, phase)
  {
  }

  /** The probing case: the service leaves the probe list, or probing stops. */
  method PurgeProbe(p: Pcb, q: Packet, s: Service,
                    ghost alive: seq<Service>, ghost hostnameSet: bool, ghost clean: bool, ghost phase: Phase)
    returns (p': Pcb, questions: seq<Question>)
    requires PcbOk(p, [q], alive, hostnameSet, clean, phase) && p.ready && InProbe(p.state)
    ensures ProbePurged(p, p', q, questions, s, alive, hostnameSet, clean, phase)
  {
    var i := IndexOf(p.probeServices, s);
    if i == |p.probeServices| {
      NotProbed(p, q, s, alive, hostnameSet, clean, phase);
      p', questions := p, q.questions;
    } else if |p.probeServices| > 1 || p.probeIp {
      p', questions := DropProbed(p, q, s, i, alive, hostnameSet, clean, phase);
    } else {
      questions := RemoveServiceQuestion(q.questions, s);
      LastProbed(p, q, s, alive, hostnameSet, clean, phase);
      p' := Stopped(p);
    }
  }

  /** The same seen from the packets of the PCB. */
  lemma ProbePurgedOk(p: Pcb, p': Pcb, q: Packet, questions: seq<Question>, s: Service, a: seq<Packet>, b: seq<Packet>,
                      alive: seq<Service>, hostnameSet: bool, clean: bool, phase: Phase)
    requires PcbOk(p, a + [q] + b, alive, hostnameSet, clean, phase) && p.ready && InProbe(p.state) && a == b == []
    requires ProbePurged(p, p', q, questions, s, alive, hostnameSet, clean, phase)
    ensures PurgedOk(p, p', PurgedPacket(q, s, ProbesHere(p, s)), a, b, alive, hostnameSet, clean, phase)
  {
    var q' := PurgedPacket(q, s, ProbesHere(p, s));
    StoppedOk(p, a + [q] + b, [q'], alive, hostnameSet, clean, phase);
    StoppedOk(p, a + [q] + b, [], alive, hostnameSet, clean, phase);
    assert a + [q'] + b == [q'] && a + b == [];
  }

  /** The PCB is in order with the packet, or without it if it has no questions. */
  ghost predicate PurgedOk(p: Pcb, p': Pcb, q': Packet, a: seq<Packet>, b: seq<Packet>, alive: seq<Service>,
                           hostnameSet: bool, clean: bool, phase: Phase)
  {
    var phase' := if InProbe(p.state) && !InProbe(p'.state) then Quiet else phase;
    && PcbOk(p', a + [q'] + b, alive, hostnameSet, clean, phase')
    && (q'.questions == [] ==> PcbOk(p', a + b, alive, hostnameSet, clean, phase'))
  }

  /**
    Outside PROBE_1..PROBE_3 the contents of the packets do not matter, nor,
    unless all is clean, those of a PCB that is down.
   */
  lemma OtherPackets(p: Pcb, mine: seq<Packet>, others: seq<Packet>, alive: seq<Service>, hostnameSet: bool,
                     clean: bool, phase: Phase)
    requires PcbOk(p, mine, alive, hostnameSet, clean, phase) && !InProbe(p.state) && mine != []
    ensures PcbOk(p, others, alive, hostnameSet, clean, phase)
  {
  }

  /** A PCB that is not up: its packet loses the records of the service, but is asked and answered for as before. */
  lemma LeftAlone(p: Pcb, a: seq<Packet>, q: Packet, s: Service, b: seq<Packet>, alive: seq<Service>,
                  hostnameSet: bool, clean: bool, phase: Phase)
    requires PcbOk(p, a + [q] + b, alive, hostnameSet, clean, phase) && !p.ready
    ensures PcbOk(p, a + [PurgedPacket(q, s, false)] + b, alive, hostnameSet, clean, phase)
    ensures q.questions == [] ==> PcbOk(p, a + b, alive, hostnameSet, clean, phase)
  {
    assert a + [q] + b != [];
    if InProbe(p.state) {
      OnePacketOnly(p, a, q, b, hostnameSet, phase);
      ProbeAsksSomething(q, p.probeServices, p.probeIp, p.state.Probe1?);
      PurgeMembers(q.servers, s);
      assert a + [PurgedPacket(q, s, false)] + b == [PurgedPacket(q, s, false)];
    }
  }

  lemma PurgedRefers(q: Packet, s: Service, asked: bool, alive: seq<Service>)
    ensures NoReference(PurgedPacket(q, s, asked), s)
    ensures PacketRefersOnlyTo(q, alive) ==> PacketRefersOnlyTo(PurgedPacket(q, s, asked), alive)
  {
    PurgeMembers(q.answers, s);
    PurgeMembers(q.additional, s);
    PurgeMembers(q.servers, s);
  }

  /** A PCB that is up and not probing. */
  method PurgeAnnouncement(q: Packet, p: Pcb, s: Service, answers: seq<Answer>, ghost a: seq<Packet>,
                           ghost b: seq<Packet>, ghost alive: seq<Service>, ghost hostnameSet: bool,
                           ghost clean: bool, ghost phase: Phase)
    returns (p': Pcb)
    requires PcbOk(p, a + [q] + b, alive, hostnameSet, clean, phase) && p.ready && !InProbe(p.state)
    requires answers == Purge(q.answers, s)
    ensures PurgedOn(p, p', [q], s) && !InProbe(p'.state)
    ensures PcbOk(p', a + [PurgedPacket(q, s, false)] + b, alive, hostnameSet, clean, phase)
    ensures PcbOk(p', a + b, alive, hostnameSet, clean, phase)
  {
    p' := if IsAnnouncing(p.state) && q.answers != [] && answers == [] then p.(state := Running) else p;
    LosesExactly(q, s);
    assert q in [q];
    assert a + [q] + b != [];
    OtherPackets(p', a + [q] + b, a + [PurgedPacket(q, s, false)] + b, alive, hostnameSet, clean, phase);
    OtherPackets(p', a + [q] + b, a + b, alive, hostnameSet, clean, phase);
  }

  /** What happens to one packet, and to its PCB, when a service goes. */
  method PurgePacket(q: Packet, p: Pcb, s: Service, ghost a: seq<Packet>, ghost b: seq<Packet>,
                     ghost alive: seq<Service>, ghost hostnameSet: bool, ghost clean: bool, ghost phase: Phase)
    returns (q': Packet, p': Pcb)
    requires PcbOk(p, a + [q] + b, alive, hostnameSet, clean, phase)
    ensures q' == PurgedPacket(q, s, ProbesHere(p, s)) && PurgedOn(p, p', [q], s)
    ensures NoReference(q', s) && (PacketRefersOnlyTo(q, alive) ==> PacketRefersOnlyTo(q', alive))
    ensures PurgedOk(p, p', q', a, b, alive, hostnameSet, clean, phase)
  {
    q' := PurgeRecords(q, s);
    PurgedRefers(q, s, ProbesHere(p, s), alive);
    if !p.ready {
      p' := p;
      LeftAlone(p, a, q, s, b, alive, hostnameSet, clean, phase);
    } else if IsProbing(p.state) {
      OnePacketOnly(p, a, q, b, hostnameSet, phase);
      var questions;
      p', questions := PurgeProbe(p, q, s, alive, hostnameSet, clean, phase);
      q' := q'.(questions := questions);
      ProbePurgedOk(p, p', q, questions, s, a, b, alive, hostnameSet, clean, phase);
    } else {
      p' := PurgeAnnouncement(q, p, s, q'.answers, a, b, alive, hostnameSet, clean, phase);
    }
  }

  /** The records of the service go from all three lists. */
  method PurgeRecords(q: Packet, s: Service) returns (q': Packet)
    ensures q' == PurgedPacket(q, s, false)
  {
    var answers := DeallocServiceAnswers(q.answers, s);
    var additional := DeallocServiceAnswers(q.additional, s);
    var servers := DeallocServiceAnswers(q.servers, s);
    q' := q.(answers := answers, additional := additional, servers := servers);
  }

  /** The packet stays unless nothing is left in it. */
  method PurgeOne(q: Packet, p: Pcb, s: Service, ghost a: seq<Packet>, ghost b: seq<Packet>,
                  ghost alive: seq<Service>, ghost hostnameSet: bool, ghost clean: bool, ghost phase: Phase)
    returns (kept: bool, q': Packet, p': Pcb)
    requires PcbOk(p, a + [q] + b, alive, hostnameSet, clean, phase)
    ensures q' == PurgedPacket(q, s, ProbesHere(p, s)) && PurgedOn(p, p', [q], s)
    ensures kept <==> q'.questions != [] || q'.answers != [] || q'.servers != [] || q'.additional != []
    ensures NoReference(q', s) && (PacketRefersOnlyTo(q, alive) ==> PacketRefersOnlyTo(q', alive))
    ensures PcbOk(p', if kept then a + [q'] + b else a + b, alive, hostnameSet, clean,
                  if InProbe(p.state) && !InProbe(p'.state) then Quiet else phase)
  {
    q', p' := PurgePacket(q, p, s, a, b, alive, hostnameSet, clean, phase);
    kept := !(q'.questions == [] && q'.answers == [] && q'.additional == [] && q'.servers == []);
  }

  // ---- The whole queue ------------------------------------------------------

  /** Some of the packets of a PCB have been dealt with: those in done. */
  ghost predicate PartlyPurged(before: Pcb, after: Pcb, done: seq<Packet>, s: Service) {
    if done == [] then after == before else PurgedOn(before, after, done, s)
  }

  /** One packet more. A PCB that is probing has only one. */
  lemma PurgedMore(before: Pcb, mid: Pcb, after: Pcb, done: seq<Packet>, q: Packet, s: Service)
    requires PartlyPurged(before, mid, done, s) && PurgedOn(mid, after, [q], s)
    requires before.ready && InProbe(before.state) ==> done == []
    ensures PartlyPurged(before, after, done + [q], s)
    ensures ProbesHere(mid, s) <==> ProbesHere(before, s)
  {
    assert q in [q] && q in done + [q];
    if before.ready && IsAnnouncing(before.state) {
      assert (exists p | p in done + [q] :: LosesAnswers(p, s)) <==>
             (exists p | p in done :: LosesAnswers(p, s)) || LosesAnswers(q, s);
    }
  }

  lemma AllPurged(before: Pcb, after: Pcb, was: seq<Packet>, s: Service)
    requires PartlyPurged(before, after, was, s) && (before.ready && InProbe(before.state) ==> was != [])
    ensures PurgedOn(before, after, was, s)
  {
  }

  /** A packet in which nothing is left is gone. */
  lemma PurgedListOne(p: Packet, s: Service, pcbs: seq<Pcb>)
    requires p.pcb < |pcbs|
    ensures var r := PurgedPacket(p, s, ProbesHere(pcbs[p.pcb], s));
            PurgedList([p], s, pcbs) ==
              if r.questions == [] && r.answers == [] && r.servers == [] && r.additional == [] then [] else [r]
  {
    assert [p][..0] == [];
  }

  /** The others stay, in their order. */
  lemma {:induction false} PurgedListConcat(a: seq<Packet>, b: seq<Packet>, s: Service, pcbs: seq<Pcb>)
    ensures PurgedList(a + b, s, pcbs) == PurgedList(a, s, pcbs) + PurgedList(b, s, pcbs)
    decreases |b|
  {
    if b == [] {
      assert a + b == a;
    } else {
      var n := |b| - 1;
      assert (a + b)[..|a| + n] == a + b[..n] && (a + b)[|a| + n] == b[n];
      PurgedListConcat(a, b[..n], s, pcbs);
      var p := PurgedPacket(b[n], s, b[n].pcb < |pcbs| && ProbesHere(pcbs[b[n].pcb], s));
      Regroup(PurgedList(a, s, pcbs), PurgedList(b[..n], s, pcbs), if HasNothing(p) then [] else [p]);
    }
  }

  lemma PurgedListNext(q: seq<Packet>, i: nat, s: Service, pcbs: seq<Pcb>)
    requires i < |q| && q[i].pcb < |pcbs|
    ensures var p := PurgedPacket(q[i], s, ProbesHere(pcbs[q[i].pcb], s));
            PurgedList(q[..i + 1], s, pcbs) == PurgedList(q[..i], s, pcbs) + if HasNothing(p) then [] else [p]
  {
    assert q[..i + 1][..i] == q[..i];
  }

  // ---- Several services -----------------------------------------------------

  /**
    What is left of a PCB that is up when of all services only some are left: it
    goes on probing what is left, or just runs if nothing is.
   */
  ghost predicate ReducedTo(before: Pcb, after: Pcb, all: seq<Service>, left: seq<Service>) {
    if !before.ready then after == before
    else if InProbe(before.state) then
      && (forall x :: x in after.probeServices <==> x in before.probeServices && (x in all ==> x in left))
      && after == if after.probeServices == [] && before.probeServices != [] && !before.probeIp then Stopped(before)
                  else before.(probeServices := after.probeServices)
    else after == before || (IsAnnouncing(before.state) && after == before.(state := Running))
  }

  lemma ReducedByOne(before: Pcb, mid: Pcb, after: Pcb, was: seq<Packet>, all: seq<Service>, left: seq<Service>)
    requires ReducedTo(before, mid, all, left) && left != [] && NoDuplicates(left) && forall x | x in left :: x in all
    requires PurgedOn(mid, after, was, left[0]) && NoDuplicates(mid.probeServices)
    ensures ReducedTo(before, after, all, left[1..])
  {
    var s := left[0];
    assert left == [s] + left[1..];
    assert s !in left[1..];
    if before.ready && InProbe(before.state) && ProbesHere(mid, s) {
      ReducedProbe(before, mid, after, s);
    }
  }

  lemma Repeats(list: seq<Service>, s: Service)
    requires |list| > 1 && forall x | x in list :: x == s
    ensures !NoDuplicates(list)
  {
    assert list[0] in list && list[1] in list;
  }

  lemma OnlyElement(list: seq<Service>, s: Service)
    requires NoDuplicates(list) && forall x :: x in list <==> x == s
    ensures list == [s]
  {
    assert s in list;
    if |list| > 1 {
      Repeats(list, s);
    }
  }

  /** The probe list is empty afterwards exactly if the service was all that was probed. */
  lemma ReducedProbe(before: Pcb, mid: Pcb, after: Pcb, s: Service)
    requires PurgedOn(mid, after, [], s) && ProbesHere(mid, s) && NoDuplicates(mid.probeServices)
    requires mid == before.(probeServices := mid.probeServices)
    requires forall x | x in mid.probeServices :: x in before.probeServices
    ensures forall x :: x in after.probeServices <==> x in mid.probeServices && x != s
    ensures after == if after.probeServices == [] && before.probeServices != [] && !before.probeIp then Stopped(before)
                     else before.(probeServices := after.probeServices)
  {
    var list := mid.probeServices;
    if after.probeServices == [] && list != [s] {
      assert forall x | x in list :: x == s;
      OnlyElement(list, s);
    }
  }
}
