/**
  Probing on one PCB (an interface and IP protocol): its record, its probe
  packet, and what its transmissions so far must look like.
 */
module MdnsProbe {
  import opened Bytes
  import opened MdnsTxQueue

  datatype PcbState = Off | Dup | Init | Probe1 | Probe2 | Probe3 | Announce1 | Announce2 | Announce3 | Running

  datatype Pcb = Pcb(
    state: PcbState,
    probeServices: seq<Service>,
    probeIp: bool,
    probeRunning: bool,
    failedProbes: nat,
    ready: bool)          // the network interface behind it is up

  const OFF_PCB := Pcb(Off, [], false, false, 0, false)

  /** PCB_STATE_IS_PROBING: everything above OFF and below ANNOUNCE_1, so DUP and INIT too. */
  predicate IsProbing(s: PcbState) {
    s in {Dup, Init, Probe1, Probe2, Probe3}
  }

  predicate InProbe(s: PcbState) {
    s in {Probe1, Probe2, Probe3}
  }

  predicate IsDown(s: PcbState) {
    s in {Off, Dup}
  }

  predicate IsAnnouncing(s: PcbState) {
    s in {Announce1, Announce2, Announce3}
  }

  // ---- Transmissions --------------------------------------------------------

  /**
    What happens to a PCB. flags: the unicast bits of the questions in the
    packet; Overrun: a probe list was copied behind the end of a new array.
   */
  datatype Event =
    | Restart(pcb: nat)
    | Abandon(pcb: nat)
    | Overrun(pcb: nat)
    | Sent(pcb: nat, at: nat, state: PcbState, flags: seq<bool>)

  datatype Transmission = Transmission(at: nat, flags: seq<bool>)

  /** Where a PCB stands: probes sent since the last restart, until it announces or gives up. */
  datatype Phase = Quiet | Probing(sent: seq<Transmission>)

  function PhaseOf(h: seq<Event>, pcb: nat): Phase {
    if h == [] then Quiet
    else
      var before := PhaseOf(h[..|h| - 1], pcb);
      var e := h[|h| - 1];
      if e.pcb != pcb then before
      else
        match e
        case Restart(_) => Probing([])
        case Abandon(_) => Quiet
        case Overrun(_) => before
        case Sent(_, at, state, flags) =>
          if InProbe(state) && before.Probing? then Probing(before.sent + [Transmission(at, flags)])
          else if IsAnnouncing(state) then Quiet
          else before
  }

  /** The transmissions and overruns, without the remarks on where probing began or ended. */
  function Marks(h: seq<Event>): seq<Event> {
    if h == [] then []
    else
      var e := h[|h| - 1];
      Marks(h[..|h| - 1]) + if e.Sent? || e.Overrun? then [e] else []
  }

  predicate NoOverrun(h: seq<Event>) {
    forall e | e in Marks(h) :: !e.Overrun?
  }

  lemma OneMoreMark(h: seq<Event>, e: Event)
    ensures Marks(h + [e]) == Marks(h) + if e.Sent? || e.Overrun? then [e] else []
  {
    assert (h + [e])[..|h|] == h;
  }

  /** Only the first probe has the unicast bit, and each is at least 250 ms after the one before. */
  predicate Paced(sent: seq<Transmission>) {
    && (forall i | 0 <= i < |sent| :: sent[i].flags != [] && forall b | b in sent[i].flags :: b == (i == 0))
    && (forall i | 0 < i < |sent| :: sent[i - 1].at + 250 <= sent[i].at)
  }

  /**
    Every probe belongs to a (re)start and is the first, second or third since;
    the first announcement after a (re)start follows exactly three.
   */
  predicate WellPaced(h: seq<Event>, pcb: nat) {
    h == [] ||
    var before := PhaseOf(h[..|h| - 1], pcb);
    var e := h[|h| - 1];
    && WellPaced(h[..|h| - 1], pcb)
    && (e.pcb == pcb && e.Sent? && InProbe(e.state) ==> before.Probing? && |before.sent| < 3)
    && (e.pcb == pcb && e.Sent? && IsAnnouncing(e.state) && before.Probing? ==>
        |before.sent| == 3 && Paced(before.sent))
  }

  lemma OneMoreEvent(h: seq<Event>, e: Event, pcb: nat)
    ensures (h + [e])[..|h|] == h
    ensures e.pcb != pcb ==> PhaseOf(h + [e], pcb) == PhaseOf(h, pcb) && (WellPaced(h, pcb) ==> WellPaced(h + [e], pcb))
    ensures e == Restart(pcb) ==> PhaseOf(h + [e], pcb) == Probing([])
    ensures e == Abandon(pcb) ==> PhaseOf(h + [e], pcb) == Quiet
    ensures e.Overrun? ==> PhaseOf(h + [e], pcb) == PhaseOf(h, pcb)
    ensures WellPaced(h, pcb) && !e.Sent? ==> WellPaced(h + [e], pcb)
  {
    assert (h + [e])[..|h|] == h;
  }

  lemma OneMoreSent(h: seq<Event>, pcb: nat, at: nat, state: PcbState, flags: seq<bool>)
    ensures var before, later := PhaseOf(h, pcb), h + [Sent(pcb, at, state, flags)];
            && PhaseOf(later, pcb) ==
                 (if InProbe(state) && before.Probing? then Probing(before.sent + [Transmission(at, flags)])
                  else if IsAnnouncing(state) then Quiet else before)
            && (WellPaced(later, pcb) <==>
                 && WellPaced(h, pcb) && (InProbe(state) ==> before.Probing? && |before.sent| < 3)
                 && (IsAnnouncing(state) && before.Probing? ==> |before.sent| == 3 && Paced(before.sent)))
  {
    assert (h + [Sent(pcb, at, state, flags)])[..|h|] == h;
  }

  /** What WellPaced says about any two moments of a run, without recursion. */
  lemma {:induction false} ThreeProbesBeforeAnnouncing(h: seq<Event>, pcb: nat, k: nat)
    requires WellPaced(h, pcb) && k < |h|
    requires h[k].pcb == pcb && h[k].Sent? && IsAnnouncing(h[k].state) && PhaseOf(h[..k], pcb).Probing?
    ensures var sent := PhaseOf(h[..k], pcb).sent;
            |sent| == 3 && Paced(sent)
    decreases |h|
  {
    if k < |h| - 1 {
      assert h[..|h| - 1][..k] == h[..k];
      ThreeProbesBeforeAnnouncing(h[..|h| - 1], pcb, k);
    }
  }

  // ---- The probe packet -----------------------------------------------------

  predicate NoDuplicates(s: seq<Service>) {
    forall i, j | 0 <= i < j < |s| :: s[i] != s[j]
  }

  /** Type and protocol: the strings by which a question is found when its service is removed. */
  function KeyOf(s: Service): (string, string) {
    (s.kind, s.proto)
  }

  function Keys(s: seq<Service>): multiset<(string, string)> {
    if s == [] then multiset{} else Keys(s[..|s| - 1]) + multiset{KeyOf(s[|s| - 1])}
  }

  /** The services that the service questions are for, in order. */
  function Asked(q: seq<Question>): seq<Service> {
    if q == [] then []
    else Asked(q[..|q| - 1]) + if q[|q| - 1].ServiceQuestion? then [q[|q| - 1].service] else []
  }

  function AskedKeys(q: seq<Question>): multiset<(string, string)> {
    Keys(Asked(q))
  }

  predicate AllUnicast(q: seq<Question>, b: bool) {
    forall x | x in q :: x.unicast == b
  }

  ghost predicate HasHostQuestion(q: seq<Question>) {
    exists x :: x in q && x.HostQuestion?
  }

  predicate RefersOnlyTo(a: seq<Answer>, alive: seq<Service>) {
    forall x | x in a && x.service.Some? :: x.service.value in alive
  }

  predicate PacketRefersOnlyTo(p: Packet, alive: seq<Service>) {
    RefersOnlyTo(p.answers, alive) && RefersOnlyTo(p.servers, alive) && RefersOnlyTo(p.additional, alive)
  }

  predicate HasAddress(records: seq<Answer>) {
    Answer(A, None) in records && Answer(AAAA, None) in records
  }

  /** The records a probe may have: server records of services, and the addresses exactly if they are probed. */
  predicate ProbeRecords(servers: seq<Answer>, probeIp: bool) {
    && (probeIp ==> HasAddress(servers))
    && forall x | x in servers :: if x.service.Some? then x.kind == SRV else probeIp && x.kind in {A, AAAA}
  }

  /**
    A question for every service probed, by type and protocol; a question for
    the host, with its address records, exactly if its address is probed.
   */
  ghost predicate AsksFor(p: Packet, services: seq<Service>, probeIp: bool, first: bool) {
    && AskedKeys(p.questions) == Keys(services)
    && (HasHostQuestion(p.questions) <==> probeIp)
    && AllUnicast(p.questions, first)
    && ProbeRecords(p.servers, probeIp)
  }

  /** A server record for every service probed. */
  ghost predicate HasServers(p: Packet, services: seq<Service>) {
    forall s :: s in services <==> Answer(SRV, Some(s)) in p.servers
  }

  predicate AtRest(phase: Phase) {
    phase.Quiet? || (|phase.sent| == 3 && Paced(phase.sent))
  }

  /** The probes sent so far, and when the next one is due. */
  predicate PhaseFits(state: PcbState, phase: Phase, mine: seq<Packet>) {
    && phase.Probing? && Paced(phase.sent)
    && |phase.sent| == (if state.Probe1? then 0 else if state.Probe2? then 1 else 2)
    && (mine != [] && phase.sent != [] ==> mine[0].sendAt == phase.sent[|phase.sent| - 1].at + 250)
  }

  /** What holds of a PCB and its packets between two actions, in every run. */
  ghost predicate Consistent(p: Pcb, mine: seq<Packet>, hostnameSet: bool, phase: Phase) {
    && NoDuplicates(p.probeServices) && p.state != Init
    && (p.probeServices != [] ==> p.probeRunning)
    && (p.ready ==> !IsDown(p.state))
    && (!hostnameSet ==> (IsDown(p.state) || p.state == Running) && !p.probeRunning && AtRest(phase))
    && (!InProbe(p.state) && !IsDown(p.state) ==> !p.probeRunning && AtRest(phase))
    && (InProbe(p.state) ==>
          && p.probeRunning && (p.probeServices != [] || p.probeIp)
          && |mine| <= 1 && (p.ready ==> |mine| == 1)
          && PhaseFits(p.state, phase, mine)
          && (mine != [] ==> AsksFor(mine[0], p.probeServices, p.probeIp, p.state.Probe1?))
          && (p.ready ==> HasServers(mine[0], p.probeServices)))
  }

  /**
    What holds besides as long as every conflict was noticed on a PCB that was
    up: nothing refers to a service that is gone, and a PCB that is not up has
    nothing left.
   */
  ghost predicate Clean(p: Pcb, mine: seq<Packet>, alive: seq<Service>, phase: Phase) {
    && (forall s | s in p.probeServices :: s in alive)
    && (!p.ready ==> IsDown(p.state) && mine == [] && !p.probeRunning && AtRest(phase))
  }

  ghost predicate PcbOk(p: Pcb, mine: seq<Packet>, alive: seq<Service>, hostnameSet: bool, clean: bool, phase: Phase) {
    Consistent(p, mine, hostnameSet, phase) && (clean ==> Clean(p, mine, alive, phase))
  }

  lemma {:induction false} KeysNonEmpty(s: seq<Service>)
    ensures Keys(s) == multiset{} <==> s == []
  {
    if s != [] {
      assert KeyOf(s[|s| - 1]) in Keys(s);
    }
  }

  /** A probe packet always has something to ask: it is never dropped as empty. */
  lemma ProbeAsksSomething(p: Packet, services: seq<Service>, probeIp: bool, first: bool)
    requires AsksFor(p, services, probeIp, first) && (services != [] || probeIp)
    ensures p.questions != []
  {
    KeysNonEmpty(services);
  }

  // ---- Building and purging packets -----------------------------------------

  lemma {:induction false} KeysConcat(a: seq<Service>, b: seq<Service>)
    ensures Keys(a + b) == Keys(a) + Keys(b)
  {
    if b == [] {
      assert a + b == a;
    } else {
      assert (a + b)[..|a + b| - 1] == a + b[..|b| - 1];
      KeysConcat(a, b[..|b| - 1]);
    }
  }

  lemma {:induction false} AskedConcat(a: seq<Question>, b: seq<Question>)
    ensures Asked(a + b) == Asked(a) + Asked(b)
  {
    if b == [] {
      assert a + b == a;
    } else {
      assert (a + b)[..|a + b| - 1] == a + b[..|b| - 1];
      AskedConcat(a, b[..|b| - 1]);
    }
  }

  lemma {:induction false} AskedMembers(q: seq<Question>)
    ensures forall x | x in q && x.ServiceQuestion? :: x.service in Asked(q)
    ensures forall s | s in Asked(q) :: exists x :: x in q && x == ServiceQuestion(s, x.unicast)
  {
    if q != [] {
      var front, last := q[..|q| - 1], q[|q| - 1];
      AskedMembers(front);
      assert q == front + [last];
      forall s | s in Asked(q)
        ensures exists x :: x in q && x == ServiceQuestion(s, x.unicast)
      {
        if s in Asked(front) {
          var x :| x in front && x == ServiceQuestion(s, x.unicast);
          assert x in q;
        } else {
          assert last in q && last == ServiceQuestion(s, last.unicast);
        }
      }
    }
  }

  /** _mdns_question_exists: questions are the same when they are about the same object. */
  predicate QuestionExists(needle: Question, haystack: seq<Question>) {
    exists i | 0 <= i < |haystack| ::
      match needle
      case ServiceQuestion(s, _) => haystack[i].ServiceQuestion? && haystack[i].service == s
      case HostQuestion(o, _) => haystack[i].HostQuestion? && haystack[i].owner == o
  }

  /** _mdns_alloc_answer: append unless already there. */
  function AllocAnswer(list: seq<Answer>, a: Answer): (r: seq<Answer>)
    ensures forall x :: x in r <==> x in list || x == a
    ensures NoRecordTwice(list) ==> NoRecordTwice(r)
  {
    if a in list then list else list + [a]
  }

  predicate NoRecordTwice(a: seq<Answer>) {
    forall i, j | 0 <= i < j < |a| :: a[i] != a[j]
  }

  lemma NextPrefix<T>(s: seq<T>, i: nat)
    requires i <= |s|
    ensures if i < |s| then s[..i + 1] == s[..i] + [s[i]] else s[..i] == s
  {
  }

  /** Questions and server records for these services and nothing else. */
  ghost predicate ServicesAsked(questions: seq<Question>, servers: seq<Answer>, services: seq<Service>, first: bool) {
    && Asked(questions) == services && AllUnicast(questions, first) && !HasHostQuestion(questions)
    && (forall x :: x in servers <==> x.kind == SRV && x.service.Some? && x.service.value in services)
    && NoRecordTwice(servers)
  }

  lemma OneMoreAsked(questions: seq<Question>, servers: seq<Answer>, services: seq<Service>, first: bool, s: Service)
    requires ServicesAsked(questions, servers, services, first)
    ensures ServicesAsked(questions + [ServiceQuestion(s, first)], AllocAnswer(servers, Answer(SRV, Some(s))),
                          services + [s], first)
  {
    AskedConcat(questions, [ServiceQuestion(s, first)]);
    assert Asked([ServiceQuestion(s, first)]) == [s];
  }

  /** _mdns_create_probe_packet, first loop: a question and a server record per service. */
  method ProbeServices(services: seq<Service>, first: bool) returns (questions: seq<Question>, servers: seq<Answer>)
    requires NoDuplicates(services)
    ensures ServicesAsked(questions, servers, services, first)
  {
    questions, servers := [], [];
    for i := 0 to |services|
      invariant ServicesAsked(questions, servers, services[..i], first)
    {
      var q := ServiceQuestion(services[i], first);
      AskedMembers(questions);
      assert services[i] !in services[..i];
      if !QuestionExists(q, questions) {
        OneMoreAsked(questions, servers, services[..i], first, services[i]);
        NextPrefix(services, i);
        questions := questions + [q];
        servers := AllocAnswer(servers, Answer(SRV, Some(services[i])));
      }
    }
    assert services[..|services|] == services;
  }

  /** The host questions are for the responder and for these services. */
  ghost predicate HostsAsked(before: seq<Question>, q: seq<Question>, services: seq<Service>, first: bool) {
    && Asked(q) == Asked(before) && AllUnicast(q, first)
    && forall o: Option<Service> :: HostQuestion(o, first) in q <==> o.None? || o.value in services
  }

  /** _mdns_append_host_question, unless the same question is there. */
  method AppendHostQuestion(q: seq<Question>, owner: Option<Service>, first: bool) returns (r: seq<Question>)
    requires AllUnicast(q, first)
    ensures Asked(r) == Asked(q) && AllUnicast(r, first)
    ensures forall o: Option<Service> :: HostQuestion(o, first) in r <==> HostQuestion(o, first) in q || o == owner
    ensures r == if HostQuestion(owner, first) in q then q else q + [HostQuestion(owner, first)]
  {
    r := q;
    var h := HostQuestion(owner, first);
    assert QuestionExists(h, q) <==> h in q by {
      assert forall i | 0 <= i < |q| :: q[i] in q;
    }
    if !QuestionExists(h, q) {
      AskedConcat(q, [h]);
      assert Asked([h]) == [];
      r := q + [h];
    }
  }

  lemma OneMoreHost(before: seq<Question>, q: seq<Question>, r: seq<Question>, services: seq<Service>, s: Service,
                    first: bool)
    requires HostsAsked(before, q, services, first) && Asked(r) == Asked(q) && AllUnicast(r, first)
    requires forall o: Option<Service> :: HostQuestion(o, first) in r <==> HostQuestion(o, first) in q || o == Some(s)
    ensures HostsAsked(before, r, services + [s], first)
  {
  }

  lemma FirstHost(q: seq<Question>, r: seq<Question>, first: bool)
    requires AllUnicast(q, first) && !HasHostQuestion(q) && Asked(r) == Asked(q) && AllUnicast(r, first)
    requires forall o: Option<Service> :: HostQuestion(o, first) in r <==> HostQuestion(o, first) in q || o.None?
    ensures HostsAsked(q, r, [], first)
  {
    forall o: Option<Service>
      ensures HostQuestion(o, first) !in q
    {
      assert HostQuestion(o, first).HostQuestion?;
    }
  }

  /** _mdns_append_host_questions_for_services: the name of the responder and those of the services. */
  method ProbeHosts(services: seq<Service>, first: bool, questions: seq<Question>) returns (q: seq<Question>)
    requires AllUnicast(questions, first) && !HasHostQuestion(questions)
    ensures HostsAsked(questions, q, services, first)
  {
    q := AppendHostQuestion(questions, None, first);
    FirstHost(questions, q, first);
    for i := 0 to |services|
      invariant HostsAsked(questions, q, services[..i], first)
    {
      ghost var before := q;
      q := AppendHostQuestion(q, Some(services[i]), first);
      OneMoreHost(questions, before, q, services[..i], services[i], first);
      NextPrefix(services, i);
    }
    NextPrefix(services, |services|);
  }

  /** What a probe packet has. */
  ghost predicate Probes(questions: seq<Question>, servers: seq<Answer>, services: seq<Service>, ip: bool,
                         first: bool)
  {
    && Asked(questions) == services && AllUnicast(questions, first) && NoRecordTwice(servers)
    && (forall o: Option<Service> ::
          HostQuestion(o, first) in questions <==> ip && (o.None? || o.value in services))
    && (forall x :: x in servers <==>
          if x.service.Some? then x.kind == SRV && x.service.value in services else ip && x.kind in {A, AAAA})
  }

  lemma ProbesWithoutIp(questions: seq<Question>, servers: seq<Answer>, services: seq<Service>, first: bool)
    requires ServicesAsked(questions, servers, services, first)
    ensures Probes(questions, servers, services, false, first)
  {
    forall o: Option<Service>
      ensures HostQuestion(o, first) !in questions
    {
      assert HostQuestion(o, first).HostQuestion?;
    }
  }

  lemma ProbesWithIp(questions: seq<Question>, servers: seq<Answer>, services: seq<Service>, first: bool,
                     q: seq<Question>)
    requires ServicesAsked(questions, servers, services, first) && HostsAsked(questions, q, services, first)
    ensures Probes(q, AllocAnswer(AllocAnswer(servers, Answer(A, None)), Answer(AAAA, None)), services, true, first)
  {
  }

  lemma ProbesAsks(p: Packet, services: seq<Service>, ip: bool, first: bool)
    requires Probes(p.questions, p.servers, services, ip, first) && p.answers == p.additional == []
    ensures AsksFor(p, services, ip, first) && HasServers(p, services) && PacketRefersOnlyTo(p, services)
  {
    if ip {
      assert HostQuestion(None, first) in p.questions;
    } else {
      NoHosts(p.questions, first);
    }
  }

  lemma OwnQuestion(q: seq<Question>, x: Question, first: bool)
    requires x in q && x.HostQuestion? && x.unicast == first
    ensures HostQuestion(x.owner, first) in q
  {
    assert x == HostQuestion(x.owner, first);
  }

  lemma NoHosts(q: seq<Question>, first: bool)
    requires AllUnicast(q, first) && forall o: Option<Service> :: HostQuestion(o, first) !in q
    ensures !HasHostQuestion(q)
  {
    forall x | x in q
      ensures x.ServiceQuestion?
    {
      if x.HostQuestion? {
        OwnQuestion(q, x, first);
        assert false;
      }
    }
  }

  /** _mdns_create_probe_packet */
  method CreateProbePacket(addr: nat, pcb: nat, services: seq<Service>, first: bool, includeIp: bool)
    returns (p: Packet)
    requires NoDuplicates(services)
    ensures p == Packet(addr, pcb, 0, false, false, p.questions, [], p.servers, [])
    ensures Probes(p.questions, p.servers, services, includeIp, first)
    ensures AsksFor(p, services, includeIp, first) && HasServers(p, services) && PacketRefersOnlyTo(p, services)
  {
    var questions, servers := ProbeServices(services, first);
    if includeIp {
      var q := ProbeHosts(services, first, questions);
      ProbesWithIp(questions, servers, services, first, q);
      questions := q;
      servers := AllocAnswer(AllocAnswer(servers, Answer(A, None)), Answer(AAAA, None));
    } else {
      ProbesWithoutIp(questions, servers, services, first);
    }
    p := Packet(addr, pcb, 0, false, false, questions, [], servers, []);
    ProbesAsks(p, services, includeIp, first);
  }

  // ---- Announcements --------------------------------------------------------

  /** The records that announce a service. */
  predicate IsRecordOf(x: Answer, s: Service) {
    x.service == Some(s) && x.kind in {SDPTR, PTR, SRV, TXT}
  }

  predicate IsAddress(x: Answer) {
    x.service.None? && x.kind in {A, AAAA}
  }

  method AnnounceService(answers: seq<Answer>, s: Service) returns (r: seq<Answer>)
    ensures forall x :: x in r <==> x in answers || IsRecordOf(x, s)
    ensures NoRecordTwice(answers) ==> NoRecordTwice(r)
  {
    r := AllocAnswer(AllocAnswer(answers, Answer(SDPTR, Some(s))), Answer(PTR, Some(s)));
    r := AllocAnswer(AllocAnswer(r, Answer(SRV, Some(s))), Answer(TXT, Some(s)));
  }

  method AnnounceAddress(answers: seq<Answer>) returns (r: seq<Answer>)
    ensures forall x :: x in r <==> x in answers || IsAddress(x)
    ensures NoRecordTwice(answers) ==> NoRecordTwice(r)
  {
    r := AllocAnswer(AllocAnswer(answers, Answer(A, None)), Answer(AAAA, None));
  }

  /** The records that a server record of a probe turns into. */
  predicate TurnsInto(x: Answer, y: Answer) {
    if x.kind == SRV && x.service.Some? then IsRecordOf(y, x.service.value) || IsAddress(y)
    else x.kind in {A, AAAA} && y == Answer(x.kind, None)
  }

  /** An announcement has what the records of a probe turn into, each once, and nothing else. */
  ghost predicate AnnouncesProbed(servers: seq<Answer>, answers: seq<Answer>) {
    && (forall y :: y in answers <==> exists x | x in servers :: TurnsInto(x, y))
    && NoRecordTwice(answers)
  }

  /** _mdns_create_announce_from_probe: everything that was probed is announced. */
  method CreateAnnounceFromProbe(addr: nat, probe: Packet) returns (p: Packet)
    requires forall x | x in probe.servers && x.kind == SRV :: x.service.Some?
    ensures p == Packet(addr, probe.pcb, 0, false, false, [], p.answers, [], [])
    ensures AnnouncesProbed(probe.servers, p.answers)
  {
    var answers: seq<Answer> := [];
    for i := 0 to |probe.servers|
      invariant AnnouncesProbed(probe.servers[..i], answers)
    {
      var x := probe.servers[i];
      ghost var before := answers;
      if x.kind == SRV {
        answers := AnnounceService(answers, x.service.value);
        answers := AnnounceAddress(answers);
      } else if x.kind in {A, AAAA} {
        answers := AllocAnswer(answers, Answer(x.kind, None));
      }
      OneMoreAnnounced(probe.servers[..i], x, before, answers);
      assert probe.servers[..i + 1] == probe.servers[..i] + [x];
    }
    assert probe.servers[..|probe.servers|] == probe.servers;
    p := Packet(addr, probe.pcb, 0, false, false, [], answers, [], []);
  }

  lemma OneMoreAnnounced(servers: seq<Answer>, x: Answer, before: seq<Answer>, after: seq<Answer>)
    requires AnnouncesProbed(servers, before) && NoRecordTwice(after)
    requires forall y :: y in after <==> y in before || TurnsInto(x, y)
    ensures AnnouncesProbed(servers + [x], after)
  {
    forall y: Answer
      ensures y in after <==> exists z | z in servers + [x] :: TurnsInto(z, y)
    {
      if y in before {
        var z :| z in servers && TurnsInto(z, y);
        assert z in servers + [x];
      } else if TurnsInto(x, y) {
        assert x in servers + [x];
      }
    }
  }

  /** An announcement of these services, and of the address if it is included, has this record. */
  predicate AnnouncesOne(y: Answer, services: seq<Service>, ip: bool) {
    if y.service.Some? then y.service.value in services && IsRecordOf(y, y.service.value) else ip && IsAddress(y)
  }

  /** It has these records and nothing else. */
  ghost predicate AnnouncesAll(answers: seq<Answer>, services: seq<Service>, ip: bool) {
    forall y :: y in answers <==> AnnouncesOne(y, services, ip)
  }

  lemma IsAnnouncedFrom(servers: seq<Answer>, answers: seq<Answer>, x: Answer, y: Answer)
    requires AnnouncesProbed(servers, answers) && x in servers && TurnsInto(x, y)
    ensures y in answers
  {
  }

  lemma OnlyAnnouncedFrom(servers: seq<Answer>, answers: seq<Answer>, y: Answer)
    requires AnnouncesProbed(servers, answers) && y in answers
    ensures if y.service.Some? then IsRecordOf(y, y.service.value) && Answer(SRV, y.service) in servers
            else IsAddress(y)
  {
    var x :| x in servers && TurnsInto(x, y);
  }

  /** A record of the probe from which this record comes. */
  function Origin(y: Answer, services: seq<Service>): Answer {
    if y.service.Some? then Answer(SRV, y.service)
    else if services != [] then Answer(SRV, Some(services[0]))
    else y
  }

  /** The announcement that a probe turns into is for the services probed, and for the address. */
  lemma WhatIsAnnounced(p: Packet, services: seq<Service>, probeIp: bool, answers: seq<Answer>)
    requires ProbeRecords(p.servers, probeIp) && HasServers(p, services) && AnnouncesProbed(p.servers, answers)
    requires services != [] || probeIp
    ensures AnnouncesAll(answers, services, true)
  {
    assert services != [] ==> services[0] in services;
    forall y
      ensures y in answers <==> AnnouncesOne(y, services, true)
    {
      if y in answers {
        OnlyAnnouncedFrom(p.servers, answers, y);
      } else if AnnouncesOne(y, services, true) {
        IsAnnouncedFrom(p.servers, answers, Origin(y, services), y);
        assert false;
      }
    }
  }

  /** The records of a list that are not about one service. */
  function Purge(a: seq<Answer>, s: Service): seq<Answer> {
    if a == [] then []
    else (if a[0].service == Some(s) then [] else [a[0]]) + Purge(a[1..], s)
  }

  lemma {:induction false} PurgeMembers(a: seq<Answer>, s: Service)
    ensures forall x: Answer :: x in Purge(a, s) <==> x in a && x.service != Some(s)
  {
    if a != [] {
      PurgeMembers(a[1..], s);
    }
  }

  lemma {:induction false} PurgeConcat(a: seq<Answer>, b: seq<Answer>, s: Service)
    ensures Purge(a + b, s) == Purge(a, s) + Purge(b, s)
  {
    if a == [] {
      assert a + b == b;
    } else {
      assert (a + b)[1..] == a[1..] + b;
      PurgeConcat(a[1..], b, s);
    }
  }

  /** _mdns_dealloc_scheduled_service_answers: first from the head, then behind it. */
  method DeallocServiceAnswers(a: seq<Answer>, s: Service) returns (r: seq<Answer>)
    ensures r == Purge(a, s)
  {
    r := a;
    while r != [] && r[0].service == Some(s)
      invariant Purge(r, s) == Purge(a, s)
      decreases |r|
    {
      r := r[1..];
    }
    if r != [] {
      var i := 0;
      while i + 1 < |r|
        invariant 0 <= i < |r|
        invariant Purge(a, s) == r[..i + 1] + Purge(r[i + 1..], s)
        decreases |r| - i
      {
        assert r[i + 1..][1..] == r[i + 2..];
        if r[i + 1].service == Some(s) {
          r := r[..i + 1] + r[i + 2..];
        } else {
          assert r[..i + 2] == r[..i + 1] + [r[i + 1]];
          i := i + 1;
        }
      }
    }
  }

  predicate Matches(q: Question, s: Service) {
    q.ServiceQuestion? && KeyOf(q.service) == KeyOf(s)
  }

  lemma AskedKeysConcat(a: seq<Question>, b: seq<Question>)
    ensures AskedKeys(a + b) == AskedKeys(a) + AskedKeys(b)
  {
    AskedConcat(a, b);
    KeysConcat(Asked(a), Asked(b));
  }

  lemma AskedKeysOne(x: Question)
    ensures AskedKeys([x]) == if x.ServiceQuestion? then multiset{KeyOf(x.service)} else multiset{}
  {
    assert Asked([x]) == if x.ServiceQuestion? then [x.service] else [];
    if x.ServiceQuestion? {
      assert Keys([x.service]) == multiset{KeyOf(x.service)};
    }
  }

  lemma {:induction false} NoMatchNoKey(q: seq<Question>, s: Service)
    requires forall x | x in q :: !Matches(x, s)
    ensures KeyOf(s) !in AskedKeys(q)
  {
    if q != [] {
      var front, last := q[..|q| - 1], q[|q| - 1];
      assert q == front + [last] && last in q;
      NoMatchNoKey(front, s);
      AskedKeysConcat(front, [last]);
      AskedKeysOne(last);
    }
  }

  lemma AskedWithoutOne(q: seq<Question>, i: nat, s: Service)
    requires i < |q| && Matches(q[i], s)
    ensures AskedKeys(q[..i] + q[i + 1..]) == AskedKeys(q) - multiset{KeyOf(s)}
  {
    var a, b := q[..i], q[i + 1..];
    assert q == a + [q[i]] + b;
    AskedKeysConcat(a + [q[i]], b);
    AskedKeysConcat(a, [q[i]]);
    AskedKeysOne(q[i]);
    AskedKeysConcat(a, b);
  }

  /** The first service question with the type and protocol of s. */
  function FirstMatch(q: seq<Question>, s: Service): (i: nat)
    ensures i <= |q| && (i < |q| ==> Matches(q[i], s))
    ensures forall k | 0 <= k < i :: !Matches(q[k], s)
  {
    if q == [] || Matches(q[0], s) then 0 else 1 + FirstMatch(q[1..], s)
  }

  /** Without that question. */
  function WithoutMatch(q: seq<Question>, s: Service): seq<Question> {
    var i := FirstMatch(q, s);
    if i == |q| then q else q[..i] + q[i + 1..]
  }

  lemma FirstMatchIs(q: seq<Question>, s: Service, i: nat)
    requires i <= |q| && (i < |q| ==> Matches(q[i], s)) && forall k | 0 <= k < i :: !Matches(q[k], s)
    ensures FirstMatch(q, s) == i
  {
  }

  /** Remove the first service question whose type and protocol are those of s. */
  method RemoveServiceQuestion(q: seq<Question>, s: Service) returns (r: seq<Question>)
    ensures r == WithoutMatch(q, s)
    ensures var i := FirstMatch(q, s);
            && (i < |q| ==> q[i].ServiceQuestion? && q[i].service.kind == s.kind && q[i].service.proto == s.proto)
            && (forall k | 0 <= k < i && q[k].ServiceQuestion? ::
                  q[k].service.kind != s.kind || q[k].service.proto != s.proto)
    ensures AskedKeys(r) == AskedKeys(q) - multiset{KeyOf(s)}
    ensures forall x | x in r :: x in q
    ensures forall x | x in q && x.HostQuestion? :: x in r
  {
    var i := 0;
    while i < |q| && !Matches(q[i], s)
      invariant 0 <= i <= |q|
      invariant forall k | 0 <= k < i :: !Matches(q[k], s)
    {
      i := i + 1;
    }
    FirstMatchIs(q, s, i);
    if i == |q| {
      NoMatchNoKey(q, s);
      return q;
    }
    AskedWithoutOne(q, i, s);
    WithoutOneMembers(q, i);
    r := q[..i] + q[i + 1..];
  }

  lemma AskedAround(q: seq<Question>, i: nat)
    requires i < |q| && q[i].ServiceQuestion?
    ensures Asked(q) == Asked(q[..i]) + [q[i].service] + Asked(q[i + 1..])
    ensures Asked(q[..i] + q[i + 1..]) == Asked(q[..i]) + Asked(q[i + 1..])
  {
    var a, b := q[..i], q[i + 1..];
    assert q == a + [q[i]] + b;
    AskedConcat(a + [q[i]], b);
    AskedConcat(a, [q[i]]);
    assert Asked([q[i]]) == [q[i].service];
    AskedConcat(a, b);
  }

  lemma AskedHasMatch(q: seq<Question>, s: Service)
    requires s in Asked(q)
    ensures FirstMatch(q, s) < |q|
  {
    AskedMembers(q);
    var x :| x in q && x == ServiceQuestion(s, x.unicast);
    var j :| 0 <= j < |q| && q[j] == x;
    assert Matches(q[j], s);
  }

  /**
    The question that goes is found by its strings: it is the one for s if and
    only if the first question with the type and protocol of s is for s.
   */
  lemma OwnQuestionGoes(q: seq<Question>, s: Service)
    requires NoDuplicates(Asked(q)) && s in Asked(q)
    ensures FirstMatch(q, s) < |q|
    ensures s !in Asked(WithoutMatch(q, s)) <==> q[FirstMatch(q, s)].service == s
  {
    AskedHasMatch(q, s);
    var i := FirstMatch(q, s);
    AskedAround(q, i);
    var a, m, b := Asked(q[..i]), q[i].service, Asked(q[i + 1..]);
    if m == s {
      DistinctAround(a, s, b);
    } else {
      assert s in a + [m] + b;
    }
  }

  lemma DistinctAround(a: seq<Service>, s: Service, b: seq<Service>)
    requires NoDuplicates(a + [s] + b)
    ensures s !in a && s !in b
  {
    var list := a + [s] + b;
    assert list[|a|] == s;
    assert forall k | 0 <= k < |a| :: list[k] == a[k];
    assert forall k | 0 <= k < |b| :: list[|a| + 1 + k] == b[k];
  }

  lemma WithoutOneMembers<T>(q: seq<T>, i: nat)
    requires i < |q|
    ensures forall x | x in q[..i] + q[i + 1..] :: x in q
    ensures forall x | x in q && x != q[i] :: x in q[..i] + q[i + 1..]
  {
    assert q == q[..i] + [q[i]] + q[i + 1..];
  }

  lemma NoDuplicatesConcat(a: seq<Service>, b: seq<Service>)
    requires NoDuplicates(a) && NoDuplicates(b) && forall s | s in a :: s !in b
    ensures NoDuplicates(a + b)
  {
    forall i, j | 0 <= i < j < |a + b|
      ensures (a + b)[i] != (a + b)[j]
    {
      if i < |a| <= j {
        assert a[i] in a && b[j - |a|] in b;
      }
    }
  }

  lemma KeysAround(list: seq<Service>, a: seq<Service>, s: Service, b: seq<Service>)
    requires list == a + ([s] + b)
    ensures Keys(a + b) == Keys(list) - multiset{KeyOf(s)}
  {
    var x := [s];
    KeysConcat(a, x + b);
    KeysConcat(x, b);
    KeysConcat(a, b);
    KeysOfOne(s);
    TakeOut(Keys(a), Keys(x), Keys(b));
  }

  lemma KeysOfOne(s: Service)
    ensures Keys([s]) == multiset{KeyOf(s)}
  {
    assert [s][..0] == [];
  }

  lemma TakeOut<T>(a: multiset<T>, x: multiset<T>, b: multiset<T>)
    ensures a + b == a + (x + b) - x
  {
  }

  lemma WithoutOneDistinct(list: seq<Service>, i: nat)
    requires i < |list| && NoDuplicates(list)
    ensures NoDuplicates(list[..i] + list[i + 1..])
    ensures forall x :: x in list[..i] + list[i + 1..] <==> x in list && x != list[i]
  {
    var r := list[..i] + list[i + 1..];
    assert forall k | 0 <= k < |r| :: r[k] == list[if k < i then k else k + 1];
    forall x | x in list && x != list[i]
      ensures x in r
    {
      var k :| 0 <= k < |list| && list[k] == x;
      assert r[if k < i then k else k - 1] == x;
    }
  }

  /** Removal of one entry from a probe list. */
  lemma WithoutOne(list: seq<Service>, i: nat)
    requires i < |list| && NoDuplicates(list)
    ensures var r := list[..i] + list[i + 1..];
            && NoDuplicates(r) && (forall x :: x in r <==> x in list && x != list[i])
            && Keys(r) == Keys(list) - multiset{KeyOf(list[i])}
  {
    assert list == list[..i] + ([list[i]] + list[i + 1..]);
    KeysAround(list, list[..i], list[i], list[i + 1..]);
    WithoutOneDistinct(list, i);
  }
}
