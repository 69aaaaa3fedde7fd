/**
  The mDNS responder: every interface's probe and announce machine over the
  one shared transmit queue. Each method is one action of the service task or
  of the timer; all of them keep Valid().
 */
module MdnsResponder {
  import opened Bytes
  import opened MdnsTxQueue
  import opened MdnsProbe
  import opened MdnsPurge
  import opened MdnsRecords
  import opened MdnsSchedule

  /**
    What the queue has to fit: the number of PCBs, the services registered, the
    time, the pending transmissions, and two facts about the run so far. clean:
    every conflict was noticed on a PCB that was up; orderly: the action queue
    has never taken a packet behind one that it had refused.
   */
  datatype Setting = Setting(
    pcbs: nat, services: seq<Service>, now: nat, actions: seq<nat>, clean: bool, orderly: bool)

  ghost predicate PacketFits(p: Packet, e: Setting) {
    p.pcb < e.pcbs && (p.queued ==> p.sendAt < e.now) && (e.clean ==> PacketRefersOnlyTo(p, e.services))
  }

  ghost predicate QueueOk(queue: seq<Packet>, e: Setting) {
    && Sorted(queue) && IdsDistinct(queue)
    && (forall p | p in queue :: PacketFits(p, e))
    && (e.orderly ==> Promised(queue, e.actions))
  }

  /** Enough to (re)start probing on a PCB whose packets have been dropped. */
  ghost predicate Restartable(p: Pcb, alive: seq<Service>, hostnameSet: bool, clean: bool, phase: Phase) {
    && NoDuplicates(p.probeServices)
    && (clean ==> p.ready && (forall s | s in p.probeServices :: s in alive) && !Leftover(p))
    && (!hostnameSet ==> p.probeServices == [] && !p.probeRunning && AtRest(phase))
  }

  /** A probe list is still there although the PCB is not probing. */
  predicate Leftover(p: Pcb) {
    !IsProbing(p.state) && p.probeServices != []
  }

  /** A step that concerns PCB i and leaves the packets, record and phase of all others alone. */
  ghost predicate OnlyPcb(i: nat, q: seq<Packet>, q': seq<Packet>, ps: seq<Pcb>, ps': seq<Pcb>, h: seq<Event>,
                          h': seq<Event>)
  {
    && |ps'| == |ps|
    && (forall j | 0 <= j < |ps| && j != i ::
          ps'[j] == ps[j] && Of(q', j) == Of(q, j) && PhaseOf(h', j) == PhaseOf(h, j))
    && (forall j: nat :: WellPaced(h, j) ==> WellPaced(h', j))
  }

  ghost predicate Fine(j: nat, queue: seq<Packet>, pcbs: seq<Pcb>, services: seq<Service>, hostnameSet: bool,
                       clean: bool, h: seq<Event>)
  {
    j < |pcbs| ==> PcbOk(pcbs[j], Of(queue, j), services, hostnameSet, clean, PhaseOf(h, j))
  }

  // ---- What the actions do to one PCB ---------------------------------------

  /** What is to be probed: services, perhaps the address, besides what is being probed unless that is cleared. */
  datatype Order = Order(hostnameSet: bool, services: seq<Service>, ip: bool, clearOld: bool)

  /** The only packet is a probe due within 128 ms after 120 ms, or after a second if probing has failed too often. */
  predicate AwaitsProbe(failedProbes: nat, mine: seq<Packet>, now: nat) {
    && |mine| == 1
    && var wait := if failedProbes > 5 then 1000 else 120;
       now + wait <= mine[0].sendAt < now + wait + 128
  }

  function WithoutList(p: Pcb, clear: bool): Pcb {
    if clear then p.(probeServices := [], probeRunning := false) else p
  }

  /** What that does to one PCB, whether it is up or not; without a host name it just runs. */
  ghost predicate Started(before: Pcb, after: Pcb, mine: seq<Packet>, now: nat, o: Order) {
    if !o.hostnameSet then after == WithoutList(before, o.clearOld).(state := Running) && mine == []
    else
      && after == before.(state := Probe1, probeServices := after.probeServices, probeIp := before.probeIp || o.ip,
                          probeRunning := true)
      && (forall s ::
            s in after.probeServices <==>
              || s in o.services
              || (!o.clearOld && before.state in {Dup, Init, Probe1, Probe2, Probe3} && s in before.probeServices))
      && AwaitsProbe(before.failedProbes, mine, now)
  }

  /** The same on a PCB that is up; any other is left alone. */
  ghost predicate Probed(before: Pcb, after: Pcb, was: seq<Packet>, mine: seq<Packet>, now: nat, o: Order) {
    if before.ready then Started(before, after, mine, now, o) else after == before && mine == was
  }

  /** The same on all PCBs; q: the packets before. */
  ghost predicate AllProbed(before: seq<Pcb>, after: seq<Pcb>, q: seq<Packet>, q': seq<Packet>, now: nat, o: Order) {
    && |after| == |before|
    && forall j: nat | j < |before| :: Probed(before[j], after[j], Of(q, j), Of(q', j), now, o)
  }

  /** A new packet that announces these. */
  ghost predicate AnnouncedNow(was: seq<Packet>, mine: seq<Packet>, now: nat, svcs: seq<Service>, ip: bool) {
    exists p :: mine == Insert(was, p) && IsAnnouncement(p, svcs, ip) && p.sendAt == now
  }

  /** What announcing does to one PCB, depending on its state. */
  ghost predicate AnnouncedOn(before: Pcb, after: Pcb, was: seq<Packet>, mine: seq<Packet>, now: nat,
                              hostnameSet: bool, svcs: seq<Service>, ip: bool)
  {
    if before.ready && before.state in {Dup, Init, Probe1, Probe2, Probe3} then
      Started(before, after, mine, now, Order(hostnameSet, svcs, ip, false))
    else if before.ready && before.state in {Announce1, Announce2, Announce3} && was != [] then
      && after == before.(state := Announce1)
      && mine != [] && mine == was[0 := mine[0]] && Joined(was[0], mine[0], svcs, ip)
    else if before.ready && before.state == Running && hostnameSet then
      after == before.(state := Announce1) && AnnouncedNow(was, mine, now, svcs, ip)
    else after == before && mine == was
  }

  /** What enabling does to a PCB. */
  ghost predicate EnabledOn(before: Pcb, after: Pcb, was: seq<Packet>, mine: seq<Packet>, now: nat, initOk: bool,
                            hostnameSet: bool, services: seq<Service>)
  {
    if before.ready || initOk then
      Started(before.(ready := true), after, mine, now, Order(hostnameSet, services, true, false))
    else after == before.(failedProbes := 0) && mine == was
  }

  /** The end of probing: three probes were sent. */
  function Announcing(p: Pcb): Pcb {
    p.(state := Announce1, probeRunning := false, probeIp := false, probeServices := [], failedProbes := 0)
  }

  function Handled(p: Pcb): Pcb {
    if p.state == Probe3 then Announcing(p) else p.(state := AfterSending(p.state))
  }

  /** What transmission does to the PCB: after the third probe nothing is left to probe, and failures are forgotten. */
  predicate HandledOn(before: Pcb, after: Pcb) {
    match before.state
    case Probe1 => after == before.(state := Probe2)
    case Probe2 => after == before.(state := Probe3)
    case Probe3 => after == Pcb(Announce1, [], false, false, 0, before.ready)
    case Announce1 => after == before.(state := Announce2)
    case Announce2 => after == before.(state := Announce3)
    case Announce3 => after == before.(state := Running)
    case _ => after == before
  }

  /** What transmission does to the PCB and to the queue from which the packet has been taken. */
  ghost predicate HandledPacket(p: Packet, ps: seq<Pcb>, ps': seq<Pcb>, q: seq<Packet>, q': seq<Packet>,
                                next: Option<Packet>, now: nat)
    requires p.pcb < |ps|
  {
    && |ps'| == |ps| && ps' == ps[p.pcb := ps'[p.pcb]] && HandledOn(ps[p.pcb], ps'[p.pcb])
    && Follower(ps[p.pcb].state, p, next, now)
    && q' == if next.Some? then Insert(q, next.value) else q
  }

  /** A PCB that is off sends nothing. */
  function SentMarks(p: Packet, state: PcbState, now: nat): seq<Event> {
    if state == Off then [] else [Sent(p.pcb, now, state, Flags(p.questions))]
  }

  /** The head of the queue, which was due, has been transmitted. */
  ghost predicate HeadSent(q: seq<Packet>, q': seq<Packet>, ps: seq<Pcb>, ps': seq<Pcb>, h: seq<Event>, h': seq<Event>,
                           next: Option<Packet>, now: nat)
    requires q != []
  {
    var p := q[0].(queued := false);
    && p.pcb < |ps| && p.sendAt < now
    && HandledPacket(p, ps, ps', q[1..], q', next, now)
    && Marks(h') == Marks(h) + SentMarks(p, ps[p.pcb].state, now)
  }

  function SuppressedOne(p: Packet, pcb: nat, answer: Answer): Packet {
    if p.pcb == pcb && p.distributed then p.(answers := RemoveAnswer(p.answers, answer)) else p
  }

  /** The shared replies of a PCB without an answer that somebody else has given. */
  function Suppressed(q: seq<Packet>, pcb: nat, answer: Answer): (r: seq<Packet>)
    ensures |r| == |q| && forall k | 0 <= k < |q| :: r[k] == SuppressedOne(q[k], pcb, answer)
  {
    seq(|q|, k requires 0 <= k < |q| => SuppressedOne(q[k], pcb, answer))
  }

  /** No queued record is about a service, and nothing is being probed but addresses. */
  ghost predicate NothingRemembered(queue: seq<Packet>, pcbs: seq<Pcb>) {
    && (forall p, x | p in queue && x in p.answers + p.servers + p.additional :: x.service == None)
    && forall j | 0 <= j < |pcbs| :: pcbs[j].probeServices == []
  }

  predicate OthersOk(otherPcb: seq<Option<nat>>, n: nat) {
    && |otherPcb| == n
    && forall i | 0 <= i < |otherPcb| && otherPcb[i].Some? :: otherPcb[i].value < n && otherPcb[i].value != i
  }

  /** The reply is queued, under an address of its own. */
  ghost predicate Replied(before: seq<Packet>, after: seq<Packet>, p: Packet, at: nat) {
    exists id: nat ::
      && after == Insert(before, p.(id := id, queued := false, sendAt := at))
      && forall x | x in before :: x.id != id
  }

  /** A failed probe is counted on one PCB. */
  function Counted(pcbs: seq<Pcb>, i: nat): seq<Pcb>
    requires i < |pcbs|
  {
    pcbs[i := pcbs[i].(failedProbes := pcbs[i].failedProbes + 1)]
  }

  /** Enabling a PCB that is off but has a probe list left copies that list too far. */
  function EnableMarks(i: nat, p: Pcb, initOk: bool, hostnameSet: bool, services: seq<Service>): seq<Event> {
    if (p.ready || initOk) && hostnameSet && services != [] && Leftover(p) then [Overrun(i)] else []
  }

  /** What disabling does to all PCBs. */
  ghost predicate DisabledOn(i: nat, other: Option<nat>, before: seq<Pcb>, after: seq<Pcb>, q: seq<Packet>,
                             q': seq<Packet>, now: nat, initOk: bool, hostnameSet: bool, services: seq<Service>)
    requires i < |before| == |after| && (other.Some? ==> other.value < |before|)
  {
    && after[i] == (if before[i].ready then OFF_PCB else before[i].(state := Off))
    && Of(q', i) == (if before[i].ready then [] else Of(q, i))
    && forall j: nat | j < |before| && j != i ::
         if before[i].ready && other == Some(j) && before[j].state == Dup
         then EnabledOn(before[j].(state := Off), after[j], Of(q, j), Of(q', j), now, initOk, hostnameSet, services)
         else after[j] == before[j] && Of(q', j) == Of(q, j)
  }

  function DisableMarks(i: nat, other: Option<nat>, before: seq<Pcb>, initOk: bool, hostnameSet: bool,
                        services: seq<Service>): seq<Event>
    requires i < |before| && (other.Some? ==> other.value < |before|)
  {
    if before[i].ready && other.Some? && before[other.value].state == Dup
    then EnableMarks(other.value, before[other.value].(state := Off), initOk, hostnameSet, services)
    else []
  }

  /** What stepping aside does to all PCBs, and to the packets of the one that stays. */
  ghost predicate DuplicatedOn(i: nat, o: nat, before: seq<Pcb>, after: seq<Pcb>, q: seq<Packet>, q': seq<Packet>,
                               now: nat, hostnameSet: bool)
    requires i < |before| == |after| && o < |before| && i != o
  {
    if !before[o].ready then after == before && q' == q
    else
      && after[i] == (if before[i].ready then OFF_PCB else before[i]).(state := Dup)
      && Of(q', i) == (if before[i].ready then [] else Of(q, i))
      && AnnouncedOn(before[o], after[o], Of(q, o), Of(q', o), now, hostnameSet, [], true)
      && forall j: nat | j < |before| && j != i && j != o :: after[j] == before[j] && Of(q', j) == Of(q, j)
  }

  function AfterSending(s: PcbState): PcbState {
    match s
    case Probe1 => Probe2
    case Probe2 => Probe3
    case Probe3 => Announce1
    case Announce1 => Announce2
    case Announce2 => Announce3
    case Announce3 => Running
    case _ => s
  }

  /** The packet that takes the place of one that was sent in this state. */
  ghost predicate Follower(state: PcbState, p: Packet, next: Option<Packet>, now: nat) {
    match state
    case Probe1 | Probe2 =>
      && next.Some? && next.value == p.(questions := next.value.questions, sendAt := now + 250)
      && SameButUnicast(p.questions, next.value.questions)
    case Probe3 =>
      && next.Some?
      && next.value == Packet(next.value.id, p.pcb, now + 250, false, false, [], next.value.answers, [], [])
      && AnnouncesProbed(p.servers, next.value.answers)
    case Announce1 | Announce2 => next == Some(p.(sendAt := now + 1000))
    case _ => next == None
  }

  // ---- Lemmas on the queue and the history ----------------------------------

  lemma EventOnPcb(h: seq<Event>, e: Event)
    requires !e.Sent?
    ensures forall j: nat | j != e.pcb :: PhaseOf(h + [e], j) == PhaseOf(h, j)
    ensures forall j: nat :: WellPaced(h, j) ==> WellPaced(h + [e], j)
    ensures PhaseOf(h + [e], e.pcb) ==
              if e.Restart? then Probing([]) else if e.Abandon? then Quiet else PhaseOf(h, e.pcb)
    ensures Marks(h + [e]) == Marks(h) + if e.Overrun? then [e] else []
  {
    OneMoreMark(h, e);
    forall j: nat
      ensures j != e.pcb ==> PhaseOf(h + [e], j) == PhaseOf(h, j)
      ensures WellPaced(h, j) ==> WellPaced(h + [e], j)
    {
      OneMoreEvent(h, e, j);
    }
    OneMoreEvent(h, e, e.pcb);
  }

  /** The remarks of a PCB that starts to probe. */
  function Restarting(i: nat, overrun: bool): seq<Event> {
    (if overrun then [Overrun(i)] else []) + [Restart(i)]
  }

  lemma RestartEvents(h: seq<Event>, i: nat, overrun: bool)
    ensures var h' := h + Restarting(i, overrun);
            && (forall j: nat | j != i :: PhaseOf(h', j) == PhaseOf(h, j))
            && (forall j: nat :: WellPaced(h, j) ==> WellPaced(h', j))
            && PhaseOf(h', i) == Probing([])
            && Marks(h') == Marks(h) + if overrun then [Overrun(i)] else []
  {
    var mid := if overrun then h + [Overrun(i)] else h;
    if overrun {
      EventOnPcb(h, Overrun(i));
    }
    EventOnPcb(mid, Restart(i));
    assert h + Restarting(i, overrun) == mid + [Restart(i)];
  }

  lemma ProbeStarted(p: Pcb, packet: Packet, alive: seq<Service>, clean: bool)
    requires p.state == Probe1 && p.probeRunning && NoDuplicates(p.probeServices)
    requires p.probeServices != [] || p.probeIp
    requires clean ==> p.ready && forall s | s in p.probeServices :: s in alive
    requires AsksFor(packet, p.probeServices, p.probeIp, true) && HasServers(packet, p.probeServices)
    ensures PcbOk(p, [packet], alive, true, clean, Probing([]))
  {
  }

  lemma InsertQueue(q: seq<Packet>, e: Setting, p: Packet)
    requires QueueOk(q, e) && PacketFits(p, e) && !p.queued && p.sendAt >= e.now
    requires forall x | x in q :: x.id != p.id
    ensures QueueOk(Insert(q, p), e)
  {
    InsertSorted(q, p);
    InsertIds(q, p);
    InsertMembers(q, p);
    if e.orderly {
      PromisedInsert(q, e.actions, p);
    }
  }

  lemma RefersToMore(p: Packet, few: seq<Service>, many: seq<Service>)
    requires PacketRefersOnlyTo(p, few) && forall s | s in few :: s in many
    ensures PacketRefersOnlyTo(p, many)
  {
  }

  lemma AnnouncingOk(p: Pcb, mine: seq<Packet>, alive: seq<Service>, clean: bool, phase: Phase)
    requires p.state == Announce1 && p.probeServices == [] && !p.probeRunning && AtRest(phase) && (clean ==> p.ready)
    ensures PcbOk(p, mine, alive, true, clean, phase)
  {
  }

  /** In the other states nothing is queued again, and the contents of the queue do not matter. */
  lemma Finished(p: Pcb, pk: Packet, others: seq<Packet>, alive: seq<Service>, hostnameSet: bool, clean: bool,
                 phase: Phase, phase': Phase)
    requires PcbOk(p, [pk] + others, alive, hostnameSet, clean, phase)
    requires p.state in {Off, Dup, Announce3, Running} && if IsDown(p.state) then phase' == phase else AtRest(phase')
    ensures PcbOk(p.(state := AfterSending(p.state)), others, alive, hostnameSet, clean, phase')
  {
    assert [pk] + others != [];
  }

  lemma RestingOk(p: Pcb, mine: seq<Packet>, later: seq<Packet>, alive: seq<Service>, hostnameSet: bool, clean: bool,
                  phase: Phase)
    requires PcbOk(p, mine, alive, hostnameSet, clean, phase) && (IsAnnouncing(p.state) || p.state == Running)
    ensures PcbOk(p, later, alive, hostnameSet, clean, phase)
  {
  }

  /** A PCB that is in order may be probed again, also after its packets and the host name have changed. */
  lemma MayRestart(p: Pcb, mine: seq<Packet>, alive: seq<Service>, hostnameSet: bool, clean: bool, phase: Phase)
    requires PcbOk(p, mine, alive, hostnameSet, clean, phase)
    ensures p.ready ==> Restartable(p, alive, hostnameSet, clean, phase) && !Leftover(p)
    ensures !p.ready ==> PcbOk(p, [], alive, true, clean, phase)
  {
  }

  lemma MayBeEnabled(p: Pcb, mine: seq<Packet>, alive: seq<Service>, hostnameSet: bool, clean: bool, phase: Phase)
    requires PcbOk(p, mine, alive, hostnameSet, clean, phase)
    ensures Restartable(p.(ready := true), alive, hostnameSet, clean, phase)
    ensures !p.ready && clean ==> IsDown(p.state) && p.probeServices == []
    ensures p.ready ==> !Leftover(p)
  {
  }

  /** What happened before in the history, to the same PCB. */
  lemma OnlyPcbBefore(i: nat, q: seq<Packet>, q': seq<Packet>, ps: seq<Pcb>, ps': seq<Pcb>, h: seq<Event>,
                      h': seq<Event>)
    requires OnlyPcb(i, q, q', ps, ps', h', h')
    requires forall j: nat | j != i :: PhaseOf(h', j) == PhaseOf(h, j)
    requires forall j: nat :: WellPaced(h, j) ==> WellPaced(h', j)
    ensures OnlyPcb(i, q, q', ps, ps', h, h')
  {
  }

  lemma SendingIsNoOverrun(h: seq<Event>, h': seq<Event>, p: Packet, state: PcbState, now: nat)
    requires Marks(h') == Marks(h) + SentMarks(p, state, now) && NoOverrun(h)
    ensures NoOverrun(h')
  {
  }

  lemma AnnouncedAnew(p: Pcb, mine: seq<Packet>, later: seq<Packet>, alive: seq<Service>, hostnameSet: bool,
                      clean: bool, phase: Phase)
    requires PcbOk(p, mine, alive, hostnameSet, clean, phase) && hostnameSet
    requires IsAnnouncing(p.state) || p.state == Running
    ensures PcbOk(p.(state := Announce1), later, alive, hostnameSet, clean, phase)
  {
  }

  lemma AnnouncementStaysAlive(servers: seq<Answer>, answers: seq<Answer>, alive: seq<Service>)
    requires AnnouncesProbed(servers, answers) && RefersOnlyTo(servers, alive)
    ensures RefersOnlyTo(answers, alive)
  {
    forall y | y in answers && y.service.Some?
      ensures y.service.value in alive
    {
      OnlyAnnouncedFrom(servers, answers, y);
    }
  }

  lemma AnnouncedAgain(p: Pcb, mine: seq<Packet>, later: seq<Packet>, alive: seq<Service>, hostnameSet: bool,
                       clean: bool, phase: Phase, phase': Phase)
    requires PcbOk(p, mine, alive, hostnameSet, clean, phase) && IsAnnouncing(p.state) && AtRest(phase')
    ensures PcbOk(p.(state := AfterSending(p.state)), later, alive, hostnameSet, clean, phase')
  {
  }

  lemma MembersNeedPool<T>(s: seq<T>, pool: seq<T>)
    requires forall x | x in s :: x in pool
    ensures s != [] ==> pool != []
  {
    if s != [] {
      assert s[0] in pool;
    }
  }

  lemma DetachKeepsOrder(q: seq<Packet>, k: nat)
    requires Sorted(q) && IdsDistinct(q) && k < |q|
    ensures Sorted(q[..k] + q[k + 1..]) && IdsDistinct(q[..k] + q[k + 1..])
  {
    var r := q[..k] + q[k + 1..];
    assert forall i | 0 <= i < |r| :: r[i] == q[if i < k then i else i + 1];
  }

  lemma DetachQueueOk(q: seq<Packet>, k: nat, e: Setting)
    requires QueueOk(q, e) && k < |q|
    ensures QueueOk(q[..k] + q[k + 1..], e)
  {
    WithoutOneMembers(q, k);
    DetachKeepsOrder(q, k);
    if e.orderly {
      PromisedWithout(q, e.actions, k);
    }
  }

  lemma DetachOf(q: seq<Packet>, k: nat, j: nat)
    requires k < |q|
    ensures Of(q[..k] + q[k + 1..], j) == Of(q[..k], j) + Of(q[k + 1..], j)
    ensures j != q[k].pcb ==> Of(q[..k] + q[k + 1..], j) == Of(q, j)
  {
    OfSplit(q, k, j);
    OfConcat(q[..k], q[k + 1..], j);
  }

  lemma DetachFromQueue(q: seq<Packet>, k: nat, e: Setting)
    requires QueueOk(q, e) && k < |q|
    ensures QueueOk(q[..k] + q[k + 1..], e)
    ensures forall j: nat :: Of(q[..k] + q[k + 1..], j) == Of(q[..k], j) + Of(q[k + 1..], j)
    ensures forall j: nat | j != q[k].pcb :: Of(q[..k] + q[k + 1..], j) == Of(q, j)
  {
    DetachQueueOk(q, k, e);
    forall j: nat
      ensures Of(q[..k] + q[k + 1..], j) == Of(q[..k], j) + Of(q[k + 1..], j)
      ensures j != q[k].pcb ==> Of(q[..k] + q[k + 1..], j) == Of(q, j)
    {
      DetachOf(q, k, j);
    }
  }

  /** What happened before to the packets of the same PCB does not matter to the others. */
  lemma OnlyPcbSince(i: nat, q: seq<Packet>, q1: seq<Packet>, q2: seq<Packet>, ps: seq<Pcb>, ps': seq<Pcb>,
                     h: seq<Event>, h': seq<Event>)
    requires OnlyPcb(i, q1, q2, ps, ps', h, h') && forall j: nat | j != i :: Of(q1, j) == Of(q, j)
    ensures OnlyPcb(i, q, q2, ps, ps', h, h')
  {
  }

  /** The head is taken out of the queue, together with the transmission that was pending for it. */
  lemma TakeHead(q: seq<Packet>, e: Setting)
    requires QueueOk(q, e) && q != [] && q[0].queued && e.actions != [] && e.actions[0] == q[0].id
    ensures QueueOk(q[1..], e.(actions := e.actions[1..]))
    ensures forall x | x in q[1..] :: x.id != q[0].id
  {
    forall x | x in q[1..]
      ensures x in q && x.id != q[0].id
    {
      var k :| 0 <= k < |q[1..]| && q[1..][k] == x;
      assert q[k + 1] == x;
    }
    if e.orderly {
      PromisedNext(q, e.actions);
    }
  }

  lemma OfTail(q: seq<Packet>)
    requires q != []
    ensures Of(q, q[0].pcb) == [q[0]] + Of(q[1..], q[0].pcb)
    ensures forall j: nat | j != q[0].pcb :: Of(q[1..], j) == Of(q, j)
  {
    forall j: nat | j != q[0].pcb
      ensures Of(q[1..], j) == Of(q, j)
    {
      assert Of(q, j) == [] + Of(q[1..], j);
    }
  }

  /** PcbOk does not look at the queued flag or the answers of a packet. */
  lemma FlagFineAt(p: Pcb, a: seq<Packet>, x: Packet, y: Packet, b: seq<Packet>, alive: seq<Service>,
                   hostnameSet: bool, clean: bool, phase: Phase)
    requires PcbOk(p, a + [x] + b, alive, hostnameSet, clean, phase)
    requires y == x.(queued := y.queued, answers := y.answers)
    ensures PcbOk(p, a + [y] + b, alive, hostnameSet, clean, phase)
  {
    assert a + [x] + b != [] && a + [y] + b != [];
    if InProbe(p.state) {
      OnePacketOnly(p, a, x, b, hostnameSet, phase);
      assert a + [y] + b == [y];
    }
  }

  lemma FlagFine(p: Pcb, x: Packet, y: Packet, b: seq<Packet>, alive: seq<Service>, hostnameSet: bool, clean: bool,
                 phase: Phase)
    requires PcbOk(p, [x] + b, alive, hostnameSet, clean, phase)
    requires y == x.(queued := y.queued, answers := y.answers)
    ensures PcbOk(p, [y] + b, alive, hostnameSet, clean, phase)
  {
    assert [] + [x] + b == [x] + b && [] + [y] + b == [y] + b;
    FlagFineAt(p, [], x, y, b, alive, hostnameSet, clean, phase);
  }

  lemma ProbeResent(p: Pcb, pk: Packet, pk': Packet, alive: seq<Service>, hostnameSet: bool, clean: bool, phase: Phase,
                    phase': Phase, now: nat)
    requires PcbOk(p, [pk], alive, hostnameSet, clean, phase) && p.state in {Probe1, Probe2}
    requires SameButUnicast(pk.questions, pk'.questions)
    requires pk'.servers == pk.servers && pk'.sendAt == now + 250
    requires phase' == Probing(phase.sent + [Transmission(now, Flags(pk.questions))]) && Paced(phase'.sent)
    ensures PcbOk(p.(state := AfterSending(p.state)), [pk'], alive, hostnameSet, clean, phase')
  {
    SameQuestions(pk.questions, pk'.questions);
    assert AsksFor(pk', p.probeServices, p.probeIp, false);
  }

  lemma EventElsewhere(h: seq<Event>, e: Event, i: nat)
    requires e.Sent? && e.pcb == i
    ensures forall j: nat | j != i :: PhaseOf(h + [e], j) == PhaseOf(h, j)
    ensures forall j: nat | j != i && WellPaced(h, j) :: WellPaced(h + [e], j)
  {
    forall j: nat | j != i
      ensures PhaseOf(h + [e], j) == PhaseOf(h, j)
      ensures WellPaced(h, j) ==> WellPaced(h + [e], j)
    {
      OneMoreEvent(h, e, j);
    }
  }

  /** Where a PCB stands after a transmission in this state. */
  ghost predicate PhaseAfter(state: PcbState, others: seq<Packet>, before: Phase, after: Phase, now: nat,
                             flags: seq<bool>)
  {
    if InProbe(state) then
      && others == [] && before.Probing?
      && after == Probing(before.sent + [Transmission(now, flags)]) && Paced(after.sent)
    else if IsDown(state) then after == before
    else AtRest(after)
  }

  /** A transmission keeps the run well paced, whatever the state of the PCB. */
  lemma SentEvent(h: seq<Event>, i: nat, p: Pcb, others: seq<Packet>, hostnameSet: bool, now: nat, pk: Packet)
    requires Consistent(p, [pk] + others, hostnameSet, PhaseOf(h, i)) && WellPaced(h, i) && pk.sendAt < now
    ensures var h' := h + [Sent(i, now, p.state, Flags(pk.questions))];
            && (forall j: nat | j != i :: PhaseOf(h', j) == PhaseOf(h, j))
            && (forall j: nat :: WellPaced(h, j) ==> WellPaced(h', j))
            && PhaseAfter(p.state, others, PhaseOf(h, i), PhaseOf(h', i), now, Flags(pk.questions))
  {
    var e := Sent(i, now, p.state, Flags(pk.questions));
    EventElsewhere(h, e, i);
    OneMoreSent(h, i, now, p.state, Flags(pk.questions));
    if InProbe(p.state) {
      ProbeStaysPaced(p, pk, others, hostnameSet, PhaseOf(h, i), now);
    }
  }

  lemma ProbeStaysPaced(p: Pcb, pk: Packet, others: seq<Packet>, hostnameSet: bool, phase: Phase, now: nat)
    requires Consistent(p, [pk] + others, hostnameSet, phase) && InProbe(p.state) && pk.sendAt < now
    ensures others == [] && phase.Probing? && |phase.sent| < 3
    ensures Paced(phase.sent + [Transmission(now, Flags(pk.questions))])
  {
    assert |[pk] + others| == 1 + |others|;
    assert [pk] + others == [pk];
    ProbeAsksSomething(pk, p.probeServices, p.probeIp, p.state.Probe1?);
    PacedOnce(phase.sent, pk, now, p.state.Probe1?);
  }

  lemma PacedOnce(sent: seq<Transmission>, pk: Packet, now: nat, first: bool)
    requires Paced(sent) && (first <==> sent == [])
    requires sent != [] ==> pk.sendAt == sent[|sent| - 1].at + 250
    requires pk.sendAt < now && pk.questions != [] && AllUnicast(pk.questions, first)
    ensures Paced(sent + [Transmission(now, Flags(pk.questions))])
  {
    var flags := Flags(pk.questions);
    forall b | b in flags
      ensures b == first
    {
      var k :| 0 <= k < |flags| && flags[k] == b;
      assert pk.questions[k] in pk.questions;
    }
  }

  lemma InsertFirst(q: seq<Packet>, p: Packet)
    requires Sorted(q) && q != [] && q[0].sendAt > p.sendAt
    ensures Insert(Of(q, p.pcb), p) == [p] + Of(q, p.pcb)
  {
    OfMembers(q, p.pcb);
    var mine := Of(q, p.pcb);
    if mine != [] {
      assert mine[0] in mine;
      var k :| 0 <= k < |q| && q[k] == mine[0];
    }
  }

  /** The packets of a PCB among which one is inserted. */
  lemma {:induction false} InsertOfMine(q: seq<Packet>, p: Packet)
    requires Sorted(q)
    ensures Of(Insert(q, p), p.pcb) == Insert(Of(q, p.pcb), p)
  {
    if q == [] {
      assert Of([p], p.pcb) == [p];
    } else if q[0].sendAt > p.sendAt {
      assert ([p] + q)[1..] == q;
      InsertFirst(q, p);
    } else {
      assert Insert(q, p)[1..] == Insert(q[1..], p);
      InsertOfMine(q[1..], p);
      assert Of(q, p.pcb)[if q[0].pcb == p.pcb then 1 else 0..] == Of(q[1..], p.pcb);
    }
  }

  lemma InsertOfOthers(q: seq<Packet>, p: Packet)
    ensures forall j: nat | j != p.pcb :: Of(Insert(q, p), j) == Of(q, j)
  {
    forall j: nat | j != p.pcb
      ensures Of(Insert(q, p), j) == Of(q, j)
    {
      InsertOf(q, p, j);
    }
  }

  lemma OfReplace(q: seq<Packet>, k: nat, p: Packet, j: nat)
    requires k < |q| && p.pcb == q[k].pcb
    ensures q[k].pcb != j ==> Of(q[k := p], j) == Of(q, j)
    ensures q[k].pcb == j ==> Of(q, j) == Of(q[..k], j) + [q[k]] + Of(q[k + 1..], j)
    ensures q[k].pcb == j ==> Of(q[k := p], j) == Of(q[..k], j) + [p] + Of(q[k + 1..], j)
  {
    OfSplit(q, k, j);
    OfSplit(q[k := p], k, j);
    assert q[k := p][..k] == q[..k] && q[k := p][k + 1..] == q[k + 1..];
  }

  lemma OfSplit(q: seq<Packet>, k: nat, j: nat)
    requires k < |q|
    ensures Of(q, j) == Of(q[..k], j) + (if q[k].pcb == j then [q[k]] else []) + Of(q[k + 1..], j)
  {
    assert q == q[..k] + [q[k]] + q[k + 1..];
    OfConcat(q[..k] + [q[k]], q[k + 1..], j);
    OfConcat(q[..k], [q[k]], j);
    assert Of([q[k]], j) == if q[k].pcb == j then [q[k]] else [];
  }

  /** The first packet of a PCB changes. */
  lemma FirstReplaced(q: seq<Packet>, k: nat, p: Packet, i: nat)
    requires k < |q| && q[k].pcb == i == p.pcb && Of(q[..k], i) == []
    ensures Of(q, i) != [] && Of(q, i)[0] == q[k]
    ensures Of(q[k := p], i) == Of(q, i)[0 := p]
  {
    OfReplace(q, k, p, i);
  }

  /** A queued packet may change its contents, but not its address, its PCB, its mark or the time it is due. */
  lemma ReplaceInQueue(q: seq<Packet>, k: nat, p: Packet, e: Setting)
    requires QueueOk(q, e) && k < |q|
    requires p.id == q[k].id && p.pcb == q[k].pcb && p.sendAt == q[k].sendAt
    requires PacketFits(p, e) && (e.orderly ==> p.queued == q[k].queued)
    ensures QueueOk(q[k := p], e)
    ensures forall j: nat | j != p.pcb :: Of(q[k := p], j) == Of(q, j)
  {
    forall x | x in q[k := p]
      ensures x in q || x == p
    {
    }
    if e.orderly {
      PromisedSame(q, q[k := p], e.actions);
    }
    forall j: nat | j != p.pcb
      ensures Of(q[k := p], j) == Of(q, j)
    {
      OfReplace(q, k, p, j);
    }
  }

  lemma OthersStayFine(i: nat, q: seq<Packet>, q': seq<Packet>, ps: seq<Pcb>, ps': seq<Pcb>, h: seq<Event>,
                       h': seq<Event>, services: seq<Service>, hostnameSet: bool, clean: bool)
    requires i < |ps| && OnlyPcb(i, q, q', ps, ps', h, h')
    ensures forall j: nat | j != i ::
              Fine(j, q', ps', services, hostnameSet, clean, h') == Fine(j, q, ps, services, hostnameSet, clean, h)
  {
    forall j: nat | j != i
      ensures Fine(j, q', ps', services, hostnameSet, clean, h') == Fine(j, q, ps, services, hostnameSet, clean, h)
    {
      if j < |ps| {
        assert ps'[j] == ps[j];
      }
    }
  }

  /** What probing all PCBs has to find: the packets of those that are up need not be in order. */
  ghost predicate AboutToProbe(j: nat, queue: seq<Packet>, pcbs: seq<Pcb>, services: seq<Service>, hostnameSet: bool,
                               clean: bool, h: seq<Event>)
    requires j < |pcbs|
  {
    if pcbs[j].ready then Restartable(pcbs[j], services, hostnameSet, clean, PhaseOf(h, j)) && !Leftover(pcbs[j])
    else Fine(j, queue, pcbs, services, hostnameSet, clean, h)
  }

  /** The first i PCBs have been dealt with; before, was: PCBs and packets at the beginning. */
  ghost predicate ProbedUpTo(i: nat, q: seq<Packet>, ps: seq<Pcb>, h: seq<Event>, services: seq<Service>, clean: bool,
                             before: seq<Pcb>, was: seq<Packet>, now: nat, o: Order)
  {
    && i <= |ps| == |before|
    && (forall j: nat :: WellPaced(h, j))
    && (forall j: nat | j < i :: Fine(j, q, ps, services, o.hostnameSet, clean, h))
    && (forall j: nat | j < i :: Probed(before[j], ps[j], Of(was, j), Of(q, j), now, o))
    && (forall j: nat | i <= j < |ps| ::
          ps[j] == before[j] && Of(q, j) == Of(was, j)
          && AboutToProbe(j, q, ps, services, o.hostnameSet, clean, h))
  }

  lemma OneMoreProbed(i: nat, q: seq<Packet>, q': seq<Packet>, ps: seq<Pcb>, ps': seq<Pcb>, h: seq<Event>,
                      h': seq<Event>, services: seq<Service>, clean: bool, before: seq<Pcb>, was: seq<Packet>,
                      now: nat, o: Order)
    requires i < |ps| && ProbedUpTo(i, q, ps, h, services, clean, before, was, now, o)
    requires OnlyPcb(i, q, q', ps, ps', h, h') && Fine(i, q', ps', services, o.hostnameSet, clean, h')
    requires Probed(ps[i], ps'[i], Of(q, i), Of(q', i), now, o)
    ensures ProbedUpTo(i + 1, q', ps', h', services, clean, before, was, now, o)
  {
    OthersStayFine(i, q, q', ps, ps', h, h', services, o.hostnameSet, clean);
    forall j: nat | j < i + 1
      ensures Probed(before[j], ps'[j], Of(was, j), Of(q', j), now, o)
    {
      assert j < i ==> Probed(before[j], ps[j], Of(was, j), Of(q, j), now, o) && ps'[j] == ps[j];
    }
    forall j: nat | i + 1 <= j < |ps'|
      ensures ps'[j] == before[j] && Of(q', j) == Of(was, j)
      ensures AboutToProbe(j, q', ps', services, o.hostnameSet, clean, h')
    {
      assert ps'[j] == ps[j] && AboutToProbe(j, q, ps, services, o.hostnameSet, clean, h);
    }
  }

  /** The services not being probed yet. */
  method NotAlreadyIn(svcs: seq<Service>, probed: seq<Service>) returns (r: seq<Service>)
    requires NoDuplicates(svcs)
    ensures NoDuplicates(r) && forall s :: s in r <==> s in svcs && s !in probed
  {
    r := [];
    for j := 0 to |svcs|
      invariant NoDuplicates(r) && forall s :: s in r <==> s in svcs[..j] && s !in probed
    {
      assert svcs[j] !in svcs[..j];
      var found := false;
      for i := 0 to |probed|
        invariant found <==> svcs[j] in probed[..i]
      {
        if probed[i] == svcs[j] {
          found := true;
        }
      }
      if !found {
        r := r + [svcs[j]];
      }
    }
  }

  lemma ClearQueue(q: seq<Packet>, e: Setting, i: nat)
    requires QueueOk(q, e)
    ensures QueueOk(NotOf(q, i), e) && Of(NotOf(q, i), i) == []
    ensures forall j: nat | j != i :: Of(NotOf(q, i), j) == Of(q, j)
  {
    NotOfSorted(q, i);
    NotOfIds(q, i);
    NotOfMembers(q, i);
    if e.orderly {
      PromisedNotOf(q, e.actions, i);
    }
    OfNotOf(q, i, i);
    forall j: nat | j != i
      ensures Of(NotOf(q, i), j) == Of(q, j)
    {
      OfNotOf(q, i, j);
    }
  }

  lemma {:induction false} PurgedListRefers(q: seq<Packet>, s: Service, pcbs: seq<Pcb>)
    ensures forall p | p in PurgedList(q, s, pcbs) :: NoReference(p, s)
    decreases |q|
  {
    if q != [] {
      var n := |q| - 1;
      var asked := q[n].pcb < |pcbs| && ProbesHere(pcbs[q[n].pcb], s);
      PurgedListRefers(q[..n], s, pcbs);
      forall p | p in PurgedList(q, s, pcbs)
        ensures NoReference(p, s)
      {
        if p !in PurgedList(q[..n], s, pcbs) {
          assert p == PurgedPacket(q[n], s, asked);
          PurgedRefers(q[n], s, asked, []);
        }
      }
    }
  }

  lemma OfPrefix(q: seq<Packet>, m: nat, j: nat)
    requires m < |q|
    ensures Of(q[..m + 1], j) == Of(q[..m], j) + if q[m].pcb == j then [q[m]] else []
  {
    assert q[..m + 1] == q[..m] + [q[m]];
    OfConcat(q[..m], [q[m]], j);
    assert Of([q[m]], j) == if q[m].pcb == j then [q[m]] else [];
  }

  /** One turn of the loop that purges the queue, seen from the PCBs and from the queue. */
  lemma OneMorePurged(k: nat, m: nat, s: Service, was: seq<Packet>, before: seq<Pcb>, q: seq<Packet>, ps: seq<Pcb>,
                      ps': seq<Pcb>, q': seq<Packet>)
    requires m < |was| && was[m].pcb < |before| == |ps| == |ps'|
    requires q == PurgedList(was[..m], s, before) + was[m..] && k == |PurgedList(was[..m], s, before)|
    requires forall j: nat | j < |before| :: PartlyPurged(before[j], ps[j], Of(was[..m], j), s)
    requires forall j: nat | j < |before| && before[j].ready && InProbe(before[j].state) :: |Of(was, j)| == 1
    requires forall j: nat | j < |before| && j != was[m].pcb :: ps'[j] == ps[j]
    requires PurgedOn(ps[was[m].pcb], ps'[was[m].pcb], [was[m]], s)
    requires var p := PurgedPacket(was[m], s, ProbesHere(ps[was[m].pcb], s));
             q' == q[..k] + (if HasNothing(p) then [] else [p]) + q[k + 1..]
    ensures forall j: nat | j < |before| :: PartlyPurged(before[j], ps'[j], Of(was[..m + 1], j), s)
    ensures q' == PurgedList(was[..m + 1], s, before) + was[m + 1..]
  {
    var i := was[m].pcb;
    OfSplit(was, m, i);
    assert PartlyPurged(before[i], ps[i], Of(was[..m], i), s);
    PurgedMore(before[i], ps[i], ps'[i], Of(was[..m], i), was[m], s);
    forall j: nat | j < |before|
      ensures PartlyPurged(before[j], ps'[j], Of(was[..m + 1], j), s)
    {
      OfPrefix(was, m, j);
      assert PartlyPurged(before[j], ps[j], Of(was[..m], j), s);
    }
    PurgedListNext(was, m, s, before);
    assert q[..k] == PurgedList(was[..m], s, before) && q[k + 1..] == was[m + 1..];
  }

  class Responder {
    var now: nat
    var queue: seq<Packet>
    var pcbs: seq<Pcb>
    var services: seq<Service>
    var hostnameSet: bool
    var actions: seq<nat>                   // pending transmissions, by packet address
    const otherPcb: seq<Option<nat>>        // same protocol on the interface that may be a duplicate
    ghost var history: seq<Event>
    ghost var clean: bool                   // every conflict so far was noticed on a PCB that was up
    ghost var orderly: bool                 // the action queue has never refused one and taken a later one

    ghost function Around(): Setting
      reads this
    {
      Setting(|pcbs|, services, now, actions, clean, orderly)
    }

    ghost predicate Valid()
      reads this
    {
      && QueueOk(queue, Around())
      && NoDuplicates(services)
      && OthersOk(otherPcb, |pcbs|)
      && (clean ==> NoOverrun(history))
      && (forall j: nat :: Fine(j, queue, pcbs, services, hostnameSet, clean, history) && WellPaced(history, j))
    }

    constructor (otherPcb: seq<Option<nat>>)
      requires OthersOk(otherPcb, |otherPcb|)
      ensures Valid() && queue == [] && services == [] && !hostnameSet && history == [] && now == 0 && actions == []
      ensures clean && orderly && pcbs == seq(|otherPcb|, _ => OFF_PCB)
      ensures this.otherPcb == otherPcb
    {
      this.otherPcb := otherPcb;
      now, queue, services, hostnameSet, actions, history := 0, [], [], false, [], [];
      pcbs := seq(|otherPcb|, _ => OFF_PCB);
      clean, orderly := true, true;
    }

    /** malloc of a packet: any address that no queued packet has. */
    method Malloc() returns (addr: nat)
      ensures forall p | p in queue :: p.id != addr
    {
      addr := 0;
      for i := 0 to |queue|
        invariant forall k | 0 <= k < i :: queue[k].id < addr
      {
        if queue[i].id >= addr {
          addr := queue[i].id + 1;
        }
      }
    }

    /** Into the queue, due ms from now. */
    method Schedule(packet: Packet, ms: nat) returns (p: Packet)
      requires QueueOk(queue, Around()) && PacketFits(packet, Around()) && !packet.queued
      requires forall x | x in queue :: x.id != packet.id
      modifies this`queue
      ensures p == packet.(sendAt := now + ms) && queue == Insert(old(queue), p)
      ensures QueueOk(queue, Around())
      ensures forall j: nat | j != p.pcb :: Of(queue, j) == Of(old(queue), j)
      ensures Of(old(queue), p.pcb) == [] ==> Of(queue, p.pcb) == [p]
    {
      queue, p := ScheduleTxPacket(queue, packet, now, ms);
      InsertQueue(old(queue), Around(), p);
      InsertOfOthers(old(queue), p);
      InsertOf(old(queue), p, p.pcb);
    }

    /** A new record for the one PCB whose packets and history have changed. */
    method SetPcb(i: nat, p: Pcb, ghost before: seq<Packet>, ghost h: seq<Event>)
      requires i < |pcbs| && QueueOk(queue, Around()) && forall j: nat | j != i :: Of(queue, j) == Of(before, j)
      requires forall j: nat | j != i :: PhaseOf(history, j) == PhaseOf(h, j)
      requires forall j: nat :: WellPaced(h, j) ==> WellPaced(history, j)
      requires PcbOk(p, Of(queue, i), services, hostnameSet, clean, PhaseOf(history, i))
      modifies this`pcbs
      ensures pcbs == old(pcbs)[i := p] && QueueOk(queue, Around())
      ensures OnlyPcb(i, before, queue, old(pcbs), pcbs, h, history)
      ensures Fine(i, queue, pcbs, services, hostnameSet, clean, history)
    {
      pcbs := pcbs[i := p];
    }

    /** A probe packet for all of these, as the only packet of the PCB. */
    method QueueProbe(i: nat, all: seq<Service>, ip: bool, failedProbes: nat, rnd: nat) returns (packet: Packet)
      requires i < |pcbs| && QueueOk(queue, Around()) && Of(queue, i) == []
      requires NoDuplicates(all) && (clean ==> forall s | s in all :: s in services)
      modifies this`queue
      ensures QueueOk(queue, Around()) && Of(queue, i) == [packet]
      ensures forall j: nat | j != i :: Of(queue, j) == Of(old(queue), j)
      ensures AsksFor(packet, all, ip, true) && HasServers(packet, all)
      ensures AwaitsProbe(failedProbes, Of(queue, i), now)
    {
      var addr := Malloc();
      packet := CreateProbePacket(addr, i, all, true, ip);
      if clean {
        RefersToMore(packet, all, services);
      }
      packet := Schedule(packet, (if failedProbes > 5 then 1000 else 120) + rnd % 128);
    }

    ghost method NoteRestart(i: nat, overrun: bool)
      modifies this`history
      ensures forall j: nat | j != i :: PhaseOf(history, j) == PhaseOf(old(history), j)
      ensures forall j: nat :: WellPaced(old(history), j) ==> WellPaced(history, j)
      ensures PhaseOf(history, i) == Probing([])
      ensures Marks(history) == Marks(old(history)) + if overrun then [Overrun(i)] else []
    {
      RestartEvents(history, i, overrun);
      history := history + Restarting(i, overrun);
    }

    /** The end of _mdns_init_pcb_probe_new_service: the packet is queued, and the PCB is in state PROBE_1. */
    method StartProbe(i: nat, all: seq<Service>, ip: bool, rnd: nat, ghost overrun: bool)
      requires i < |pcbs| && QueueOk(queue, Around()) && Of(queue, i) == [] && hostnameSet
      requires NoDuplicates(all) && (all != [] || ip)
      requires clean ==> pcbs[i].ready && forall s | s in all :: s in services
      modifies this`queue, this`pcbs, this`history
      ensures QueueOk(queue, Around()) && Fine(i, queue, pcbs, services, hostnameSet, clean, history)
      ensures OnlyPcb(i, old(queue), queue, old(pcbs), pcbs, old(history), history)
      ensures pcbs[i] == old(pcbs[i]).(state := Probe1, probeServices := all, probeIp := ip, probeRunning := true)
      ensures AwaitsProbe(pcbs[i].failedProbes, Of(queue, i), now)
      ensures Marks(history) == Marks(old(history)) + if overrun then [Overrun(i)] else []
    {
      var packet := QueueProbe(i, all, ip, pcbs[i].failedProbes, rnd);
      NoteRestart(i, overrun);
      var p := pcbs[i].(state := Probe1, probeServices := all, probeIp := ip, probeRunning := true);
      ProbeStarted(p, packet, services, clean);
      SetPcb(i, p, old(queue), old(history));
    }

    /**
      _mdns_init_pcb_probe_new_service: probe what is new together with what was
      being probed. The array made has room for the old list only if the PCB is
      probing; the old list is copied whenever there is a new one.
     */
    method InitPcbProbeNewService(i: nat, newOnes: seq<Service>, probeIp: bool, rnd: nat)
      requires i < |pcbs| && QueueOk(queue, Around()) && Of(queue, i) == [] && hostnameSet
      requires Restartable(pcbs[i], services, true, clean, PhaseOf(history, i))
      requires NoDuplicates(newOnes)
      requires forall s | s in newOnes :: s !in pcbs[i].probeServices || !IsProbing(pcbs[i].state)
      requires clean ==> forall s | s in newOnes :: s in services
      requires newOnes != [] || probeIp || (IsProbing(pcbs[i].state) && pcbs[i].probeServices != [])
      modifies this`queue, this`pcbs, this`history
      ensures QueueOk(queue, Around()) && Fine(i, queue, pcbs, services, hostnameSet, clean, history)
      ensures OnlyPcb(i, old(queue), queue, old(pcbs), pcbs, old(history), history)
      ensures pcbs[i] == old(pcbs[i]).(state := Probe1, probeServices := pcbs[i].probeServices,
                                       probeIp := old(pcbs[i].probeIp) || probeIp, probeRunning := true)
      ensures pcbs[i].probeServices ==
                newOnes + if IsProbing(old(pcbs[i].state)) then old(pcbs[i].probeServices) else []
      ensures AwaitsProbe(pcbs[i].failedProbes, Of(queue, i), now)
      ensures Marks(history) ==
                Marks(old(history)) + if newOnes != [] && Leftover(old(pcbs[i])) then [Overrun(i)] else []
    {
      var kept := if IsProbing(pcbs[i].state) then pcbs[i].probeServices else [];
      NoDuplicatesConcat(newOnes, kept);
      StartProbe(i, newOnes + kept, pcbs[i].probeIp || probeIp, rnd, newOnes != [] && Leftover(pcbs[i]));
    }

    /** _mdns_init_pcb_probe: drop the PCB's packets and probe the union of old and new services. */
    method InitPcbProbe(i: nat, svcs: seq<Service>, probeIp: bool, rnd: nat)
      requires i < |pcbs| && QueueOk(queue, Around())
      requires Restartable(pcbs[i], services, hostnameSet, clean, PhaseOf(history, i))
      requires NoDuplicates(svcs) && (clean ==> forall s | s in svcs :: s in services)
      requires svcs != [] || probeIp
      modifies this`queue, this`pcbs, this`history
      ensures QueueOk(queue, Around()) && Fine(i, queue, pcbs, services, hostnameSet, clean, history)
      ensures OnlyPcb(i, old(queue), queue, old(pcbs), pcbs, old(history), history)
      ensures Started(old(pcbs[i]), pcbs[i], Of(queue, i), now, Order(hostnameSet, svcs, probeIp, false))
      ensures Marks(history) ==
                Marks(old(history)) + if hostnameSet && svcs != [] && Leftover(old(pcbs[i])) then [Overrun(i)] else []
    {
      queue := ClearPcbTxQueue(queue, i);
      ClearQueue(old(queue), Around(), i);
      if !hostnameSet {
        SetPcb(i, pcbs[i].(state := Running), old(queue), history);
      } else if IsProbing(pcbs[i].state) {
        ProbeUnion(i, svcs, probeIp, rnd, old(queue));
      } else {
        ghost var q, ps, h := queue, pcbs, history;
        InitPcbProbeNewService(i, svcs, probeIp, rnd);
        OnlyPcbSince(i, old(queue), q, queue, ps, pcbs, h, history);
      }
    }

    /** Services that are not probed yet join those that are. */
    method ProbeUnion(i: nat, svcs: seq<Service>, probeIp: bool, rnd: nat, ghost before: seq<Packet>)
      requires i < |pcbs| && QueueOk(queue, Around()) && Of(queue, i) == [] && hostnameSet
      requires Restartable(pcbs[i], services, true, clean, PhaseOf(history, i)) && IsProbing(pcbs[i].state)
      requires NoDuplicates(svcs) && (clean ==> forall s | s in svcs :: s in services)
      requires svcs != [] || probeIp
      requires forall j: nat | j != i :: Of(queue, j) == Of(before, j)
      modifies this`queue, this`pcbs, this`history
      ensures QueueOk(queue, Around()) && Fine(i, queue, pcbs, services, hostnameSet, clean, history)
      ensures OnlyPcb(i, before, queue, old(pcbs), pcbs, old(history), history)
      ensures Started(old(pcbs[i]), pcbs[i], Of(queue, i), now, Order(true, svcs, probeIp, false))
      ensures Marks(history) == Marks(old(history))
    {
      ghost var q, ps, h := queue, pcbs, history;
      var newOnes := NotAlreadyIn(svcs, pcbs[i].probeServices);
      assert svcs != [] ==> svcs[0] in newOnes || svcs[0] in pcbs[i].probeServices;
      InitPcbProbeNewService(i, newOnes, probeIp, rnd);
      OnlyPcbSince(i, before, q, queue, ps, pcbs, h, history);
    }

    /** _mdns_restart_pcb: probe everything registered, and the address. */
    method RestartPcb(i: nat, rnd: nat)
      requires i < |pcbs| && QueueOk(queue, Around()) && NoDuplicates(services)
      requires Restartable(pcbs[i], services, hostnameSet, clean, PhaseOf(history, i))
      modifies this`queue, this`pcbs, this`history
      ensures QueueOk(queue, Around()) && Fine(i, queue, pcbs, services, hostnameSet, clean, history)
      ensures OnlyPcb(i, old(queue), queue, old(pcbs), pcbs, old(history), history)
      ensures Started(old(pcbs[i]), pcbs[i], Of(queue, i), now, Order(hostnameSet, services, true, false))
      ensures Marks(history) ==
                Marks(old(history)) +
                if hostnameSet && services != [] && Leftover(old(pcbs[i])) then [Overrun(i)] else []
    {
      InitPcbProbe(i, services, true, rnd);
    }

    /** One turn of _mdns_probe_all_pcbs. */
    method ProbeOne(i: nat, svcs: seq<Service>, probeIp: bool, clearOld: bool, rnd: nat)
      requires i < |pcbs| && QueueOk(queue, Around())
      requires AboutToProbe(i, queue, pcbs, services, hostnameSet, clean, history)
      requires NoDuplicates(svcs) && (clean ==> forall s | s in svcs :: s in services) && (svcs != [] || probeIp)
      modifies this`queue, this`pcbs, this`history
      ensures QueueOk(queue, Around()) && Fine(i, queue, pcbs, services, hostnameSet, clean, history)
      ensures OnlyPcb(i, old(queue), queue, old(pcbs), pcbs, old(history), history)
      ensures Probed(old(pcbs[i]), pcbs[i], Of(old(queue), i), Of(queue, i), now,
                     Order(hostnameSet, svcs, probeIp, clearOld))
      ensures Marks(history) == Marks(old(history))
    {
      if pcbs[i].ready {
        if clearOld {
          pcbs := pcbs[i := pcbs[i].(probeServices := [], probeRunning := false)];
        }
        InitPcbProbe(i, svcs, probeIp, rnd);
      }
    }

    /** _mdns_probe_all_pcbs */
    method ProbeAllPcbs(svcs: seq<Service>, probeIp: bool, clearOld: bool, rnd: nat)
      requires QueueOk(queue, Around())
      requires forall j: nat | j < |pcbs| :: AboutToProbe(j, queue, pcbs, services, hostnameSet, clean, history)
      requires forall j: nat :: WellPaced(history, j)
      requires NoDuplicates(svcs) && (clean ==> forall s | s in svcs :: s in services) && (svcs != [] || probeIp)
      modifies this`queue, this`pcbs, this`history
      ensures QueueOk(queue, Around()) && |pcbs| == |old(pcbs)| && Marks(history) == Marks(old(history))
      ensures forall j: nat :: Fine(j, queue, pcbs, services, hostnameSet, clean, history) && WellPaced(history, j)
      ensures AllProbed(old(pcbs), pcbs, old(queue), queue, now, Order(hostnameSet, svcs, probeIp, clearOld))
    {
      for i := 0 to |pcbs|
        invariant QueueOk(queue, Around()) && Marks(history) == Marks(old(history))
        invariant ProbedUpTo(i, queue, pcbs, history, services, clean, old(pcbs), old(queue), now,
                             Order(hostnameSet, svcs, probeIp, clearOld))
      {
        ProbeNext(i, svcs, probeIp, clearOld, rnd, old(pcbs), old(queue));
      }
    }

    method ProbeNext(i: nat, svcs: seq<Service>, probeIp: bool, clearOld: bool, rnd: nat, ghost before: seq<Pcb>,
                     ghost was: seq<Packet>)
      requires i < |pcbs| && QueueOk(queue, Around())
      requires ProbedUpTo(i, queue, pcbs, history, services, clean, before, was, now,
                          Order(hostnameSet, svcs, probeIp, clearOld))
      requires NoDuplicates(svcs) && (clean ==> forall s | s in svcs :: s in services) && (svcs != [] || probeIp)
      modifies this`queue, this`pcbs, this`history
      ensures QueueOk(queue, Around()) && Marks(history) == Marks(old(history))
      ensures ProbedUpTo(i + 1, queue, pcbs, history, services, clean, before, was, now,
                         Order(hostnameSet, svcs, probeIp, clearOld))
    {
      ghost var q, ps, h := queue, pcbs, history;
      ProbeOne(i, svcs, probeIp, clearOld, rnd);
      OneMoreProbed(i, q, queue, ps, pcbs, h, history, services, clean, before, was, now,
                    Order(hostnameSet, svcs, probeIp, clearOld));
    }

    /** The one PCB a step concerned is fine again, so all are. */
    lemma AllFine(i: nat, q: seq<Packet>, ps: seq<Pcb>, h: seq<Event>)
      requires i < |ps| && OnlyPcb(i, q, queue, ps, pcbs, h, history)
      requires forall j: nat :: Fine(j, q, ps, services, hostnameSet, clean, h) && WellPaced(h, j)
      requires Fine(i, queue, pcbs, services, hostnameSet, clean, history)
      ensures forall j: nat :: Fine(j, queue, pcbs, services, hostnameSet, clean, history) && WellPaced(history, j)
    {
      OthersStayFine(i, q, queue, ps, pcbs, h, history, services, hostnameSet, clean);
    }

    /** From rest, every PCB may be probed again. */
    lemma AllAboutToProbe()
      requires Valid()
      ensures forall j: nat | j < |pcbs| :: AboutToProbe(j, queue, pcbs, services, hostnameSet, clean, history)
    {
      forall j: nat | j < |pcbs|
        ensures AboutToProbe(j, queue, pcbs, services, hostnameSet, clean, history)
      {
        assert Fine(j, queue, pcbs, services, hostnameSet, clean, history);
        MayRestart(pcbs[j], Of(queue, j), services, hostnameSet, clean, PhaseOf(history, j));
      }
    }

    /** ACTION_HOSTNAME_SET: the whole queue is dropped and everything is probed again. */
    method HostnameSet(rnd: nat)
      requires Valid()
      modifies this`queue, this`pcbs, this`history, this`hostnameSet
      ensures Valid() && hostnameSet && |pcbs| == |old(pcbs)| && Marks(history) == Marks(old(history))
      ensures AllProbed(old(pcbs), pcbs, [], queue, now, Order(true, services, true, true))
    {
      ghost var before := hostnameSet;
      hostnameSet := true;
      RestartAllPcbs(rnd, before);
    }

    /** _mdns_restart_all_pcbs, also after the host name was changed by a conflict. */
    method RestartAllPcbs(rnd: nat, ghost before: bool)
      requires QueueOk(queue, Around()) && NoDuplicates(services) && hostnameSet && OthersOk(otherPcb, |pcbs|)
      requires forall j: nat :: Fine(j, queue, pcbs, services, before, clean, history) && WellPaced(history, j)
      requires clean ==> NoOverrun(history)
      modifies this`queue, this`pcbs, this`history
      ensures Valid() && |pcbs| == |old(pcbs)| && Marks(history) == Marks(old(history))
      ensures AllProbed(old(pcbs), pcbs, [], queue, now, Order(true, services, true, true))
    {
      queue := [];
      forall j: nat | j < |pcbs|
        ensures AboutToProbe(j, queue, pcbs, services, hostnameSet, clean, history)
      {
        assert Fine(j, old(queue), pcbs, services, before, clean, history);
        MayRestart(pcbs[j], Of(old(queue), j), services, before, clean, PhaseOf(history, j));
      }
      ProbeAllPcbs(services, true, true, rnd);
    }

    /** A host name lost in a conflict that was noticed while probing. */
    method LoseHostname(pcb: nat, rnd: nat)
      requires Valid() && pcb < |pcbs| && hostnameSet
      modifies this`queue, this`pcbs, this`history
      ensures Valid() && |pcbs| == |old(pcbs)| && Marks(history) == Marks(old(history))
      ensures AllProbed(Counted(old(pcbs), pcb), pcbs, [], queue, now, Order(true, services, true, true))
    {
      CountFailure(pcb);
      RestartAllPcbs(rnd, true);
    }

    method CountFailure(pcb: nat)
      requires Valid() && pcb < |pcbs|
      modifies this`pcbs
      ensures Valid() && pcbs == Counted(old(pcbs), pcb)
      ensures pcbs[pcb].failedProbes == old(pcbs)[pcb].failedProbes + 1
    {
      pcbs := pcbs[pcb := pcbs[pcb].(failedProbes := pcbs[pcb].failedProbes + 1)];
      forall j: nat
        ensures Fine(j, queue, pcbs, services, hostnameSet, clean, history)
      {
        assert Fine(j, queue, old(pcbs), services, hostnameSet, clean, history);
      }
    }

    /** _mdns_restart_all_pcbs_no_instance: only the services without a name of their own. */
    method RestartNoInstance(unnamed: seq<Service>, rnd: nat)
      requires Valid() && NoDuplicates(unnamed) && forall s | s in unnamed :: s in services
      modifies this`queue, this`pcbs, this`history
      ensures Valid() && |pcbs| == |old(pcbs)| && Marks(history) == Marks(old(history))
      ensures unnamed == [] ==> pcbs == old(pcbs) && queue == old(queue) && history == old(history)
      ensures unnamed != [] ==>
                AllProbed(old(pcbs), pcbs, old(queue), queue, now, Order(hostnameSet, unnamed, false, true))
    {
      if unnamed != [] {
        AllAboutToProbe();
        ProbeAllPcbs(unnamed, false, true, rnd);
      }
    }

    /** mdns_service_add_for_host: register, and probe the newcomer beside whatever is being probed. */
    method AddService(s: Service, rnd: nat)
      requires Valid() && s !in services
      modifies this`queue, this`pcbs, this`history, this`services
      ensures Valid() && services == [s] + old(services) && |pcbs| == |old(pcbs)|
      ensures Marks(history) == Marks(old(history))
      ensures AllProbed(old(pcbs), pcbs, old(queue), queue, now, Order(hostnameSet, [s], false, false))
    {
      services := [s] + services;
      MoreServices(old(services), s);
      AllAboutToProbe();
      ProbeAllPcbs([s], false, false, rnd);
    }

    lemma MoreServices(before: seq<Service>, s: Service)
      requires services == [s] + before && NoDuplicates(before) && s !in before
      requires QueueOk(queue, Around().(services := before))
      requires forall j: nat :: Fine(j, queue, pcbs, before, hostnameSet, clean, history)
      ensures NoDuplicates(services) && QueueOk(queue, Around())
      ensures forall j: nat :: Fine(j, queue, pcbs, services, hostnameSet, clean, history)
    {
      NoDuplicatesConcat([s], before);
      forall p | p in queue
        ensures PacketFits(p, Around())
      {
        assert PacketFits(p, Around().(services := before));
        if clean {
          RefersToMore(p, before, services);
        }
      }
      forall j: nat
        ensures Fine(j, queue, pcbs, services, hostnameSet, clean, history)
      {
        assert Fine(j, queue, pcbs, before, hostnameSet, clean, history);
      }
    }

    /** A service under a new name is probed again, beside whatever is being probed. */
    method ProbeService(s: Service, rnd: nat)
      requires Valid() && s in services
      modifies this`queue, this`pcbs, this`history
      ensures Valid() && |pcbs| == |old(pcbs)| && Marks(history) == Marks(old(history))
      ensures AllProbed(old(pcbs), pcbs, old(queue), queue, now, Order(hostnameSet, [s], false, false))
    {
      AllAboutToProbe();
      ProbeAllPcbs([s], false, false, rnd);
    }

    /** A service name lost in a conflict that was noticed while probing; the failed probe is counted. */
    method ProbeAgain(pcb: nat, s: Service, rnd: nat)
      requires Valid() && pcb < |pcbs| && s in services
      modifies this`queue, this`pcbs, this`history
      ensures Valid() && |pcbs| == |old(pcbs)| && Marks(history) == Marks(old(history))
      ensures AllProbed(Counted(old(pcbs), pcb), pcbs, old(queue), queue, now, Order(hostnameSet, [s], false, false))
    {
      CountFailure(pcb);
      ProbeService(s, rnd);
    }

    /** Without the claim to be clean. */
    lemma Loosened(before: bool)
      requires QueueOk(queue, Around().(clean := before)) && (clean ==> before)
      requires forall j: nat :: Fine(j, queue, pcbs, services, hostnameSet, before, history)
      ensures QueueOk(queue, Around()) && forall j: nat :: Fine(j, queue, pcbs, services, hostnameSet, clean, history)
    {
      forall p | p in queue
        ensures PacketFits(p, Around())
      {
        assert PacketFits(p, Around().(clean := before));
      }
      forall j: nat
        ensures Fine(j, queue, pcbs, services, hostnameSet, clean, history)
      {
        assert Fine(j, queue, pcbs, services, hostnameSet, before, history);
      }
    }

    /**
      A conflict noticed on a PCB that was not probing: start probing there. The
      source does not ask whether the PCB is up.
     */
    method ProbeOnPcb(i: nat, svcs: seq<Service>, probeIp: bool, rnd: nat)
      requires Valid() && i < |pcbs| && !pcbs[i].probeRunning
      requires NoDuplicates(svcs) && (forall s | s in svcs :: s in services) && (svcs != [] || probeIp)
      modifies this`queue, this`pcbs, this`history, this`clean
      ensures Valid() && clean == (old(clean) && old(pcbs[i].ready))
      ensures OnlyPcb(i, old(queue), queue, old(pcbs), pcbs, old(history), history)
      ensures Started(old(pcbs[i]), pcbs[i], Of(queue, i), now, Order(hostnameSet, svcs, probeIp, false))
      ensures Marks(history) == Marks(old(history))
    {
      clean := clean && pcbs[i].ready;
      Loosened(old(clean));
      assert Fine(i, queue, pcbs, services, hostnameSet, clean, history);
      InitPcbProbe(i, svcs, probeIp, rnd);
      AllFine(i, old(queue), old(pcbs), old(history));
    }

    /** _mdns_announce_pcb while announcing: join the packet that is next to go. */
    method AnnounceWithNext(i: nat, svcs: seq<Service>, includeIp: bool)
      requires i < |pcbs| && QueueOk(queue, Around()) && IsAnnouncing(pcbs[i].state)
      requires Fine(i, queue, pcbs, services, hostnameSet, clean, history) && forall s | s in svcs :: s in services
      modifies this`queue, this`pcbs
      ensures QueueOk(queue, Around()) && Fine(i, queue, pcbs, services, hostnameSet, clean, history)
      ensures OnlyPcb(i, old(queue), queue, old(pcbs), pcbs, history, history)
      ensures if Of(old(queue), i) == [] then pcbs == old(pcbs) && queue == old(queue)
              else
                && pcbs[i] == old(pcbs[i]).(state := Announce1) && Of(queue, i) != []
                && Of(queue, i) == Of(old(queue), i)[0 := Of(queue, i)[0]]
                && Joined(Of(old(queue), i)[0], Of(queue, i)[0], svcs, includeIp)
    {
      var k := NextPcbPacket(queue, i);
      if k < |queue| {
        var p := AddAnnouncement(queue[k], svcs, includeIp);
        assert queue[k] in queue && PacketFits(queue[k], Around());
        if clean {
          JoinedRefers(queue[k], p, svcs, includeIp, services);
        }
        ReplaceInQueue(queue, k, p, Around());
        FirstReplaced(queue, k, p, i);
        queue := queue[k := p];
        AnnouncedAnew(pcbs[i], Of(old(queue), i), Of(queue, i), services, hostnameSet, clean, PhaseOf(history, i));
        SetPcb(i, pcbs[i].(state := Announce1), old(queue), history);
      }
    }

    method QueueAnnouncement(i: nat, svcs: seq<Service>, includeIp: bool)
      requires i < |pcbs| && QueueOk(queue, Around()) && forall s | s in svcs :: s in services
      modifies this`queue
      ensures QueueOk(queue, Around()) && forall j: nat | j != i :: Of(queue, j) == Of(old(queue), j)
      ensures AnnouncedNow(Of(old(queue), i), Of(queue, i), now, svcs, includeIp)
    {
      var addr := Malloc();
      var p := CreateAnnouncePacket(addr, i, svcs, includeIp);
      if clean {
        AnnouncementRefers(p, svcs, includeIp, services);
      }
      p := Schedule(p, 0);
      InsertOfMine(old(queue), p);
      assert IsAnnouncement(p, svcs, includeIp);
    }

    /** _mdns_announce_pcb at rest: a packet of its own. */
    method AnnounceAnew(i: nat, svcs: seq<Service>, includeIp: bool)
      requires i < |pcbs| && QueueOk(queue, Around()) && pcbs[i].state == Running && hostnameSet
      requires Fine(i, queue, pcbs, services, hostnameSet, clean, history) && forall s | s in svcs :: s in services
      modifies this`queue, this`pcbs
      ensures QueueOk(queue, Around()) && Fine(i, queue, pcbs, services, hostnameSet, clean, history)
      ensures OnlyPcb(i, old(queue), queue, old(pcbs), pcbs, history, history)
      ensures pcbs[i] == old(pcbs[i]).(state := Announce1)
      ensures AnnouncedNow(Of(old(queue), i), Of(queue, i), now, svcs, includeIp)
    {
      QueueAnnouncement(i, svcs, includeIp);
      AnnouncedAnew(pcbs[i], Of(old(queue), i), Of(queue, i), services, hostnameSet, clean, PhaseOf(history, i));
      SetPcb(i, pcbs[i].(state := Announce1), old(queue), history);
    }

    /** _mdns_announce_pcb */
    method AnnouncePcb(i: nat, svcs: seq<Service>, includeIp: bool, rnd: nat)
      requires Valid() && i < |pcbs|
      requires NoDuplicates(svcs) && (forall s | s in svcs :: s in services) && (svcs != [] || includeIp)
      modifies this`queue, this`pcbs, this`history
      ensures Valid() && Marks(history) == Marks(old(history))
      ensures OnlyPcb(i, old(queue), queue, old(pcbs), pcbs, old(history), history)
      ensures AnnouncedOn(old(pcbs[i]), pcbs[i], Of(old(queue), i), Of(queue, i), now, hostnameSet, svcs, includeIp)
    {
      if pcbs[i].ready {
        AnnounceReady(i, svcs, includeIp, rnd);
        AllFine(i, old(queue), old(pcbs), old(history));
      }
    }

    /** The same on a PCB that is up. */
    method AnnounceReady(i: nat, svcs: seq<Service>, includeIp: bool, rnd: nat)
      requires Valid() && i < |pcbs| && pcbs[i].ready
      requires NoDuplicates(svcs) && (forall s | s in svcs :: s in services) && (svcs != [] || includeIp)
      modifies this`queue, this`pcbs, this`history
      ensures QueueOk(queue, Around()) && Fine(i, queue, pcbs, services, hostnameSet, clean, history)
      ensures OnlyPcb(i, old(queue), queue, old(pcbs), pcbs, old(history), history)
      ensures AnnouncedOn(old(pcbs[i]), pcbs[i], Of(old(queue), i), Of(queue, i), now, hostnameSet, svcs, includeIp)
      ensures Marks(history) == Marks(old(history))
    {
      assert Fine(i, queue, pcbs, services, hostnameSet, clean, history);
      if IsProbing(pcbs[i].state) {
        InitPcbProbe(i, svcs, includeIp, rnd);
      } else if IsAnnouncing(pcbs[i].state) {
        AnnounceWithNext(i, svcs, includeIp);
      } else if pcbs[i].state == Running && hostnameSet {
        AnnounceAnew(i, svcs, includeIp);
      }
    }

    /** _mdns_announce_all_pcbs */
    method AnnounceAllPcbs(svcs: seq<Service>, includeIp: bool, rnd: nat)
      requires Valid() && NoDuplicates(svcs) && (forall s | s in svcs :: s in services) && (svcs != [] || includeIp)
      modifies this`queue, this`pcbs, this`history
      ensures Valid() && |pcbs| == |old(pcbs)| && Marks(history) == Marks(old(history))
      ensures forall j: nat | j < |pcbs| ::
                AnnouncedOn(old(pcbs[j]), pcbs[j], Of(old(queue), j), Of(queue, j), now, hostnameSet, svcs,
                            includeIp)
    {
      for i := 0 to |pcbs|
        invariant Valid() && |pcbs| == |old(pcbs)| && Marks(history) == Marks(old(history))
        invariant forall j: nat | j < i ::
                    AnnouncedOn(old(pcbs[j]), pcbs[j], Of(old(queue), j), Of(queue, j), now, hostnameSet, svcs,
                            includeIp)
        invariant forall j: nat | i <= j < |pcbs| :: pcbs[j] == old(pcbs[j]) && Of(queue, j) == Of(old(queue), j)
      {
        AnnouncePcb(i, svcs, includeIp, rnd);
      }
    }

    /** mdns_pcb_deinit_local, with the packets dropped: nothing is left of the PCB. */
    method DropPcb(i: nat)
      requires i < |pcbs| && QueueOk(queue, Around())
      modifies this`queue, this`pcbs, this`history
      ensures QueueOk(queue, Around()) && Fine(i, queue, pcbs, services, hostnameSet, clean, history)
      ensures OnlyPcb(i, old(queue), queue, old(pcbs), pcbs, old(history), history)
      ensures pcbs == old(pcbs)[i := Pcb(Off, [], false, false, 0, false)] && Of(queue, i) == []
      ensures Marks(history) == Marks(old(history))
      ensures forall j: nat | j != i :: Of(queue, j) == Of(old(queue), j)
    {
      queue := ClearPcbTxQueue(queue, i);
      ClearQueue(old(queue), Around(), i);
      history := history + [Abandon(i)];
      EventOnPcb(old(history), Abandon(i));
      SetPcb(i, OFF_PCB, old(queue), old(history));
    }

    /** _mdns_enable_pcb; initOk: whether the network side could be set up. */
    method EnablePcb(i: nat, initOk: bool, rnd: nat)
      requires Valid() && i < |pcbs|
      modifies this`queue, this`pcbs, this`history
      ensures Valid() && OnlyPcb(i, old(queue), queue, old(pcbs), pcbs, old(history), history)
      ensures EnabledOn(old(pcbs[i]), pcbs[i], Of(old(queue), i), Of(queue, i), now, initOk, hostnameSet, services)
      ensures Marks(history) == Marks(old(history)) + EnableMarks(i, old(pcbs[i]), initOk, hostnameSet, services)
    {
      if !pcbs[i].ready && !initOk {
        NotEnabled(i);
      } else {
        RestartUp(i, rnd);
        CleanMarks(old(pcbs[i]), initOk, i);
        AllFine(i, old(queue), old(pcbs), old(history));
      }
    }

    /** The network side could not be set up. */
    method NotEnabled(i: nat)
      requires Valid() && i < |pcbs| && !pcbs[i].ready
      modifies this`pcbs
      ensures Valid() && OnlyPcb(i, queue, queue, old(pcbs), pcbs, history, history)
      ensures pcbs == old(pcbs)[i := old(pcbs[i]).(failedProbes := 0)]
    {
      assert Fine(i, queue, pcbs, services, hostnameSet, clean, history);
      pcbs := pcbs[i := pcbs[i].(failedProbes := 0)];
      AllFine(i, queue, old(pcbs), history);
    }

    /** The PCB is up now, if it was not, and starts anew. */
    method RestartUp(i: nat, rnd: nat)
      requires Valid() && i < |pcbs|
      modifies this`queue, this`pcbs, this`history
      ensures QueueOk(queue, Around()) && Fine(i, queue, pcbs, services, hostnameSet, clean, history)
      ensures OnlyPcb(i, old(queue), queue, old(pcbs), pcbs, old(history), history)
      ensures Started(old(pcbs[i]).(ready := true), pcbs[i], Of(queue, i), now,
                      Order(hostnameSet, services, true, false))
      ensures Marks(history) == Marks(old(history)) + EnableMarks(i, old(pcbs[i]), true, hostnameSet, services)
      ensures !old(pcbs[i]).ready && clean ==> IsDown(old(pcbs[i]).state) && old(pcbs[i]).probeServices == []
      ensures old(pcbs[i]).ready ==> !Leftover(old(pcbs[i]))
    {
      assert Fine(i, queue, pcbs, services, hostnameSet, clean, history);
      MayBeEnabled(pcbs[i], Of(queue, i), services, hostnameSet, clean, PhaseOf(history, i));
      if !pcbs[i].ready {
        pcbs := pcbs[i := pcbs[i].(ready := true)];
      }
      RestartPcb(i, rnd);
    }

    /** While all is clean there is no old list that could be copied too far. */
    lemma CleanMarks(p: Pcb, initOk: bool, i: nat)
      requires !p.ready && clean ==> IsDown(p.state) && p.probeServices == []
      requires p.ready ==> !Leftover(p)
      ensures clean ==> EnableMarks(i, p, initOk, hostnameSet, services) == []
    {
    }

    /** _mdns_disable_pcb; a duplicate of this PCB takes over. */
    method DisablePcb(i: nat, initOk: bool, rnd: nat)
      requires Valid() && i < |pcbs|
      modifies this`queue, this`pcbs, this`history
      ensures Valid() && |pcbs| == |old(pcbs)|
      ensures DisabledOn(i, otherPcb[i], old(pcbs), pcbs, old(queue), queue, now, initOk, hostnameSet, services)
      ensures Marks(history) ==
                Marks(old(history)) + DisableMarks(i, otherPcb[i], old(pcbs), initOk, hostnameSet, services)
    {
      if pcbs[i].ready {
        StopAndPassOn(i, initOk, rnd);
      }
      SetDown(i, Off);
    }

    /** A PCB that is up stops; its duplicate takes over. */
    method StopAndPassOn(i: nat, initOk: bool, rnd: nat)
      requires Valid() && i < |pcbs| && pcbs[i].ready
      modifies this`queue, this`pcbs, this`history
      ensures Valid() && |pcbs| == |old(pcbs)|
      ensures DisabledOn(i, otherPcb[i], old(pcbs), pcbs, old(queue), queue, now, initOk, hostnameSet, services)
      ensures Marks(history) ==
                Marks(old(history)) + DisableMarks(i, otherPcb[i], old(pcbs), initOk, hostnameSet, services)
    {
      StopPcb(i);
      var o := otherPcb[i];
      if o.Some? && pcbs[o.value].state == Dup {
        TakeOver(o.value, initOk, rnd);
      }
    }

    /** A duplicate is enabled. */
    method TakeOver(i: nat, initOk: bool, rnd: nat)
      requires Valid() && i < |pcbs| && pcbs[i].state == Dup
      modifies this`queue, this`pcbs, this`history
      ensures Valid() && |pcbs| == |old(pcbs)|
      ensures forall j: nat | j < |pcbs| && j != i :: pcbs[j] == old(pcbs)[j] && Of(queue, j) == Of(old(queue), j)
      ensures EnabledOn(old(pcbs[i]).(state := Off), pcbs[i], Of(old(queue), i), Of(queue, i), now, initOk,
                        hostnameSet, services)
      ensures Marks(history) ==
                Marks(old(history)) + EnableMarks(i, old(pcbs[i]).(state := Off), initOk, hostnameSet, services)
    {
      assert Fine(i, queue, pcbs, services, hostnameSet, clean, history);
      SetDown(i, Off);
      EnablePcb(i, initOk, rnd);
    }

    method StopPcb(i: nat)
      requires Valid() && i < |pcbs|
      modifies this`queue, this`pcbs, this`history
      ensures Valid() && pcbs == old(pcbs)[i := OFF_PCB] && Of(queue, i) == []
      ensures Marks(history) == Marks(old(history))
      ensures forall j: nat | j != i :: Of(queue, j) == Of(old(queue), j)
    {
      DropPcb(i);
      AllFine(i, old(queue), old(pcbs), old(history));
    }

    /** Marks a PCB that is not up as off or as a duplicate; whatever it has left stays. */
    method SetDown(i: nat, state: PcbState)
      requires Valid() && i < |pcbs| && !pcbs[i].ready && IsDown(state)
      modifies this`pcbs
      ensures Valid() && pcbs == old(pcbs)[i := old(pcbs[i]).(state := state)]
    {
      assert Fine(i, queue, pcbs, services, hostnameSet, clean, history);
      SetPcb(i, pcbs[i].(state := state), queue, history);
      AllFine(i, queue, old(pcbs), history);
    }

    /** _mdns_dup_interface, for one protocol: step aside for the other interface. */
    method DupPcb(i: nat, rnd: nat)
      requires Valid() && i < |pcbs| && otherPcb[i].Some?
      modifies this`queue, this`pcbs, this`history
      ensures Valid() && |pcbs| == |old(pcbs)| && Marks(history) == Marks(old(history))
      ensures DuplicatedOn(i, otherPcb[i].value, old(pcbs), pcbs, old(queue), queue, now, hostnameSet)
    {
      var o := otherPcb[i].value;
      if pcbs[o].ready {
        if pcbs[i].ready {
          StopPcb(i);
        }
        SetDown(i, Dup);
        AnnouncePcb(o, [], true, rnd);
      }
    }

    /** Time passes. */
    method Tick(ms: nat)
      requires Valid()
      modifies this`now
      ensures Valid() && now == old(now) + ms
    {
      now := now + ms;
      forall p | p in queue
        ensures PacketFits(p, Around())
      {
        assert PacketFits(p, Around().(now := old(now)));
      }
      forall j: nat
        ensures Fine(j, queue, pcbs, services, hostnameSet, clean, history)
      {
        assert Fine(j, queue, pcbs, services, hostnameSet, clean, history);
      }
    }

    /** A query is answered by a scheduled packet, but only once probing is over. */
    method AnswerQuery(packet: Packet, delay: nat)
      requires Valid() && packet.pcb < |pcbs| && PacketRefersOnlyTo(packet, services)
      modifies this`queue
      ensures Valid()
      ensures if IsAnnouncing(pcbs[packet.pcb].state) || pcbs[packet.pcb].state == Running
              then Replied(old(queue), queue, packet, now + delay) else queue == old(queue)
    {
      var i := packet.pcb;
      assert Fine(i, queue, pcbs, services, hostnameSet, clean, history);
      if pcbs[i].state in {Announce1, Announce2, Announce3, Running} {
        QueueReply(packet, delay);
        RestingOk(pcbs[i], Of(old(queue), i), Of(queue, i), services, hostnameSet, clean, PhaseOf(history, i));
        AllFine(i, old(queue), pcbs, history);
      }
    }

    method QueueReply(packet: Packet, delay: nat)
      requires QueueOk(queue, Around()) && packet.pcb < |pcbs| && PacketRefersOnlyTo(packet, services)
      modifies this`queue
      ensures QueueOk(queue, Around()) && forall j: nat | j != packet.pcb :: Of(queue, j) == Of(old(queue), j)
      ensures Replied(old(queue), queue, packet, now + delay)
    {
      var addr := Malloc();
      var p := packet.(id := addr, queued := false);
      p := Schedule(p, delay);
      assert queue == Insert(old(queue), packet.(id := addr, queued := false, sendAt := now + delay));
    }

    /** PROBE_1 and PROBE_2: the same packet again in 250 ms, without the unicast bit. */
    method SendProbeAgain(p: Packet, ghost phase: Phase) returns (next: Packet)
      requires PacketFits(p, Around()) && !p.queued && QueueOk(queue, Around())
      requires (forall x | x in queue :: x.id != p.id) && Of(queue, p.pcb) == []
      requires PcbOk(pcbs[p.pcb], [p], services, hostnameSet, clean, phase) && pcbs[p.pcb].state in {Probe1, Probe2}
      requires PhaseOf(history, p.pcb) == Probing(phase.sent + [Transmission(now, Flags(p.questions))])
      requires Paced(PhaseOf(history, p.pcb).sent)
      modifies this`queue, this`pcbs
      ensures QueueOk(queue, Around()) && Fine(p.pcb, queue, pcbs, services, hostnameSet, clean, history)
      ensures OnlyPcb(p.pcb, old(queue), queue, old(pcbs), pcbs, history, history)
      ensures Follower(old(pcbs[p.pcb].state), p, Some(next), now) && queue == Insert(old(queue), next)
      ensures pcbs == old(pcbs)[p.pcb := Handled(old(pcbs)[p.pcb])]
    {
      var i := p.pcb;
      assert AllUnicast(p.questions, pcbs[i].state == Probe1);
      var questions := QuestionsAgain(p.questions, pcbs[i].state == Probe1);
      next := Schedule(p.(questions := questions), 250);
      ProbeResent(pcbs[i], p, next, services, hostnameSet, clean, phase, PhaseOf(history, i), now);
      SetPcb(i, Handled(pcbs[i]), old(queue), history);
    }

    /** ANNOUNCE_1 and ANNOUNCE_2: the same packet again in a second. */
    method SendAgainLater(p: Packet, ghost phase: Phase) returns (next: Packet)
      requires PacketFits(p, Around()) && !p.queued && QueueOk(queue, Around())
      requires (forall x | x in queue :: x.id != p.id) && pcbs[p.pcb].state in {Announce1, Announce2}
      requires PcbOk(pcbs[p.pcb], [p] + Of(queue, p.pcb), services, hostnameSet, clean, phase)
      requires AtRest(PhaseOf(history, p.pcb))
      modifies this`queue, this`pcbs
      ensures QueueOk(queue, Around()) && Fine(p.pcb, queue, pcbs, services, hostnameSet, clean, history)
      ensures OnlyPcb(p.pcb, old(queue), queue, old(pcbs), pcbs, history, history)
      ensures Follower(old(pcbs[p.pcb].state), p, Some(next), now) && queue == Insert(old(queue), next)
      ensures pcbs == old(pcbs)[p.pcb := Handled(old(pcbs)[p.pcb])]
    {
      next := Schedule(p, 1000);
      AnnouncedAgain(pcbs[p.pcb], [p] + Of(old(queue), p.pcb), Of(queue, p.pcb), services, hostnameSet, clean, phase,
                     PhaseOf(history, p.pcb));
      SetPcb(p.pcb, Handled(pcbs[p.pcb]), old(queue), history);
    }

    method QueueAnnounceFromProbe(p: Packet) returns (next: Packet)
      requires PacketFits(p, Around()) && QueueOk(queue, Around()) && Of(queue, p.pcb) == []
      requires forall x | x in p.servers && x.kind == SRV :: x.service.Some?
      modifies this`queue
      ensures QueueOk(queue, Around()) && forall j: nat | j != p.pcb :: Of(queue, j) == Of(old(queue), j)
      ensures Follower(Probe3, p, Some(next), now) && queue == Insert(old(queue), next) && Of(queue, p.pcb) == [next]
    {
      var addr := Malloc();
      var a := CreateAnnounceFromProbe(addr, p);
      if clean {
        AnnouncementStaysAlive(p.servers, a.answers, services);
      }
      next := Schedule(a, 250);
    }

    /** PROBE_3: the probe turns into the announcement of what it had server records for. */
    method SendAnnouncement(p: Packet) returns (next: Packet)
      requires PacketFits(p, Around()) && QueueOk(queue, Around())
      requires Of(queue, p.pcb) == [] && pcbs[p.pcb].state == Probe3 && hostnameSet && (clean ==> pcbs[p.pcb].ready)
      requires AtRest(PhaseOf(history, p.pcb)) && ProbeRecords(p.servers, pcbs[p.pcb].probeIp)
      modifies this`queue, this`pcbs
      ensures QueueOk(queue, Around()) && Fine(p.pcb, queue, pcbs, services, hostnameSet, clean, history)
      ensures OnlyPcb(p.pcb, old(queue), queue, old(pcbs), pcbs, history, history)
      ensures Follower(Probe3, p, Some(next), now) && queue == Insert(old(queue), next)
      ensures pcbs == old(pcbs)[p.pcb := Handled(old(pcbs)[p.pcb])] && Of(queue, p.pcb) == [next]
    {
      var i := p.pcb;
      next := QueueAnnounceFromProbe(p);
      AnnouncingOk(Announcing(pcbs[i]), Of(queue, i), services, clean, PhaseOf(history, i));
      SetPcb(i, Handled(pcbs[i]), old(queue), history);
    }

    /** The switch in _mdns_tx_handle_packet, after the transmission has been recorded. */
    method NextPacket(p: Packet, ghost phase: Phase) returns (ghost next: Option<Packet>)
      requires PacketFits(p, Around()) && !p.queued && QueueOk(queue, Around()) && forall x | x in queue :: x.id != p.id
      requires PcbOk(pcbs[p.pcb], [p] + Of(queue, p.pcb), services, hostnameSet, clean, phase)
      requires PhaseAfter(pcbs[p.pcb].state, Of(queue, p.pcb), phase, PhaseOf(history, p.pcb), now, Flags(p.questions))
      modifies this`queue, this`pcbs
      ensures QueueOk(queue, Around()) && Fine(p.pcb, queue, pcbs, services, hostnameSet, clean, history)
      ensures OnlyPcb(p.pcb, old(queue), queue, old(pcbs), pcbs, history, history)
      ensures HandledPacket(p, old(pcbs), pcbs, old(queue), queue, next, now)
    {
      var i := p.pcb;
      next := None;
      if pcbs[i].state in {Probe1, Probe2} {
        assert [p] + Of(queue, i) == [p];
        var n := SendProbeAgain(p, phase);
        next := Some(n);
      } else if pcbs[i].state == Probe3 {
        assert [p] + Of(queue, i) == [p];
        var n := SendAnnouncement(p);
        next := Some(n);
      } else if pcbs[i].state in {Announce1, Announce2} {
        var n := SendAgainLater(p, phase);
        next := Some(n);
      } else {
        Finished(pcbs[i], p, Of(queue, i), services, hostnameSet, clean, phase, PhaseOf(history, i));
        SetPcb(i, Handled(pcbs[i]), queue, history);
      }
    }

    /** The transmission of one packet just taken from the head of the queue. A PCB that is off sends nothing. */
    method TxHandlePacket(p: Packet) returns (ghost next: Option<Packet>)
      requires PacketFits(p, Around()) && !p.queued && p.sendAt < now && QueueOk(queue, Around())
      requires forall x | x in queue :: x.id != p.id
      requires PcbOk(pcbs[p.pcb], [p] + Of(queue, p.pcb), services, hostnameSet, clean, PhaseOf(history, p.pcb))
      requires WellPaced(history, p.pcb)
      modifies this`queue, this`pcbs, this`history
      ensures QueueOk(queue, Around()) && Fine(p.pcb, queue, pcbs, services, hostnameSet, clean, history)
      ensures OnlyPcb(p.pcb, old(queue), queue, old(pcbs), pcbs, old(history), history)
      ensures HandledPacket(p, old(pcbs), pcbs, old(queue), queue, next, now)
      ensures Marks(history) == Marks(old(history)) + SentMarks(p, old(pcbs[p.pcb].state), now)
    {
      if pcbs[p.pcb].state == Off {
        Finished(pcbs[p.pcb], p, Of(queue, p.pcb), services, hostnameSet, clean, PhaseOf(history, p.pcb),
                 PhaseOf(history, p.pcb));
        next := None;
      } else {
        next := SendPacket(p);
      }
    }

    /** The packet is sent, and the next one prepared. */
    method SendPacket(p: Packet) returns (ghost next: Option<Packet>)
      requires PacketFits(p, Around()) && !p.queued && p.sendAt < now && QueueOk(queue, Around())
      requires forall x | x in queue :: x.id != p.id
      requires PcbOk(pcbs[p.pcb], [p] + Of(queue, p.pcb), services, hostnameSet, clean, PhaseOf(history, p.pcb))
      requires WellPaced(history, p.pcb) && pcbs[p.pcb].state != Off
      modifies this`queue, this`pcbs, this`history
      ensures QueueOk(queue, Around()) && Fine(p.pcb, queue, pcbs, services, hostnameSet, clean, history)
      ensures OnlyPcb(p.pcb, old(queue), queue, old(pcbs), pcbs, old(history), history)
      ensures HandledPacket(p, old(pcbs), pcbs, old(queue), queue, next, now)
      ensures Marks(history) == Marks(old(history)) + SentMarks(p, old(pcbs[p.pcb].state), now)
    {
      ghost var h, phase := history, PhaseOf(history, p.pcb);
      RecordSent(p);
      next := NextPacket(p, phase);
      OnlyPcbBefore(p.pcb, old(queue), queue, old(pcbs), pcbs, h, history);
    }

    ghost method RecordSent(p: Packet)
      requires p.pcb < |pcbs| && p.sendAt < now && WellPaced(history, p.pcb)
      requires Consistent(pcbs[p.pcb], [p] + Of(queue, p.pcb), hostnameSet, PhaseOf(history, p.pcb))
      modifies this`history
      ensures PhaseAfter(pcbs[p.pcb].state, Of(queue, p.pcb), PhaseOf(old(history), p.pcb), PhaseOf(history, p.pcb),
                         now, Flags(p.questions))
      ensures forall j: nat | j != p.pcb :: PhaseOf(history, j) == PhaseOf(old(history), j)
      ensures forall j: nat :: WellPaced(old(history), j) ==> WellPaced(history, j)
      ensures Marks(history) == Marks(old(history)) + [Sent(p.pcb, now, pcbs[p.pcb].state, Flags(p.questions))]
    {
      var e := Sent(p.pcb, now, pcbs[p.pcb].state, Flags(p.questions));
      history := history + [e];
      SentEvent(old(history), p.pcb, pcbs[p.pcb], Of(queue, p.pcb), hostnameSet, now, p);
      OneMoreMark(old(history), e);
    }

    /** ACTION_TX_HANDLE: only the head of the queue, only if it is the packet meant, only if it was due. */
    method ExecuteTxHandle() returns (ghost next: Option<Packet>)
      requires Valid() && actions != []
      modifies this`queue, this`pcbs, this`history, this`actions
      ensures Valid() && actions == old(actions)[1..]
      ensures if |old(queue)| > 0 && old(queue)[0].queued && old(queue)[0].id == old(actions)[0]
              then HeadSent(old(queue), queue, old(pcbs), pcbs, old(history), history, next, now)
              else queue == old(queue) && pcbs == old(pcbs) && history == old(history)
    {
      if queue != [] && queue[0].id == actions[0] && queue[0].queued {
        next := TransmitHead();
      } else {
        next := None;
        SkipAction();
      }
    }

    method SkipAction()
      requires Valid() && actions != []
      requires !(queue != [] && queue[0].id == actions[0] && queue[0].queued)
      modifies this`actions
      ensures Valid() && actions == old(actions)[1..]
    {
      if orderly {
        PromisedNext(queue, actions);
      }
      actions := actions[1..];
      forall p | p in queue
        ensures PacketFits(p, Around())
      {
        assert PacketFits(p, Around().(actions := old(actions)));
      }
    }

    /** The head of the queue is detached. */
    method TakeFirst() returns (p: Packet)
      requires Valid() && queue != [] && queue[0].queued && actions != [] && actions[0] == queue[0].id
      modifies this`queue, this`actions
      ensures p == old(queue)[0].(queued := false) && queue == old(queue)[1..] && actions == old(actions)[1..]
      ensures QueueOk(queue, Around()) && forall x | x in queue :: x.id != p.id
      ensures PacketFits(p, Around()) && p.sendAt < now
      ensures PcbOk(pcbs[p.pcb], [p] + Of(queue, p.pcb), services, hostnameSet, clean, PhaseOf(history, p.pcb))
      ensures forall j: nat | j != p.pcb :: Of(queue, j) == Of(old(queue), j)
    {
      ghost var head := queue[0];
      assert head in queue && PacketFits(head, Around());
      TakeHead(queue, Around());
      OfTail(queue);
      p := queue[0].(queued := false);
      assert Fine(p.pcb, queue, pcbs, services, hostnameSet, clean, history);
      queue, actions := queue[1..], actions[1..];
      FlagFine(pcbs[p.pcb], head, p, Of(queue, p.pcb), services, hostnameSet, clean, PhaseOf(history, p.pcb));
    }

    /** The head of the queue is taken out and transmitted. */
    method TransmitHead() returns (ghost next: Option<Packet>)
      requires Valid() && queue != [] && queue[0].queued && actions != [] && actions[0] == queue[0].id
      modifies this`queue, this`pcbs, this`history, this`actions
      ensures Valid() && actions == old(actions)[1..]
      ensures HeadSent(old(queue), queue, old(pcbs), pcbs, old(history), history, next, now)
    {
      var p := TakeFirst();
      ghost var q := queue;
      next := TxHandlePacket(p);
      OnlyPcbSince(p.pcb, old(queue), q, queue, old(pcbs), pcbs, old(history), history);
      AllFine(p.pcb, old(queue), old(pcbs), old(history));
      if clean {
        SendingIsNoOverrun(old(history), history, p, old(pcbs)[p.pcb].state, now);
      }
    }

    /** _mdns_scheduler_run; accepts: whether the action queue takes each action offered. */
    method SchedulerRun(accepts: nat -> bool)
      requires Valid()
      modifies this`queue, this`actions, this`orderly
      ensures Valid()
      ensures var lo := FirstUnmarked(old(queue), 0);
              var hi := DueEnd(old(queue), lo, now);
              && queue == Offered(old(queue), lo, hi, accepts)
              && actions == old(actions) + Taken(old(queue), lo, hi, accepts)
              && orderly == (old(orderly) && InOrder(lo, hi, accepts))
    {
      ghost var was, before, promised := queue, actions, orderly;
      var i := FindUnmarked();
      Unpromised();
      ghost var hi := OfferFrom(i, accepts);
      if promised && InOrder(i, hi, accepts) {
        PassKeepsPromise(was, before, i, hi, accepts);
        PromisedAgain();
      }
    }

    /** The first loop. */
    method FindUnmarked() returns (i: nat)
      ensures i == FirstUnmarked(queue, 0)
    {
      i := 0;
      while i < |queue| && queue[i].queued
        invariant i <= |queue| && FirstUnmarked(queue, 0) == FirstUnmarked(queue, i)
      {
        i := i + 1;
      }
    }

    /** The second loop. */
    method OfferFrom(lo: nat, accepts: nat -> bool) returns (ghost hi: nat)
      requires Valid() && !orderly && lo <= |queue|
      modifies this`queue, this`actions
      ensures hi == DueEnd(old(queue), lo, now)
      ensures Passing(old(queue), old(actions), lo, hi, accepts)
    {
      ghost var was, before := queue, actions;
      var i: nat := lo;
      OfferedNone(was, lo, accepts);
      assert before + [] == before;
      while i < |queue| && queue[i].sendAt < now
        invariant Passing(was, before, lo, i, accepts)
        decreases |was| - i
      {
        Offer(was, before, lo, i, accepts);
        i := i + 1;
      }
      hi := i;
      assert i < |was| ==> was[i].sendAt == queue[i].sendAt;
    }

    /** The pass over the queue that began at lo has come to packet i. */
    ghost predicate Passing(was: seq<Packet>, before: seq<nat>, lo: nat, i: nat, accepts: nat -> bool)
      reads this
    {
      && lo <= i <= |was| == |queue| && Valid() && !orderly
      && queue == Offered(was, lo, i, accepts) && actions == before + Taken(was, lo, i, accepts)
      && DueEnd(was, lo, now) == DueEnd(was, i, now)
    }

    /** One packet is offered to the action queue. */
    method Offer(ghost was: seq<Packet>, ghost before: seq<nat>, ghost lo: nat, i: nat, accepts: nat -> bool)
      requires Passing(was, before, lo, i, accepts) && i < |queue| && queue[i].sendAt < now
      modifies this`queue, this`actions
      ensures Passing(was, before, lo, i + 1, accepts)
    {
      OfferedOneMore(was, lo, i, accepts);
      ChangePacket(i, queue[i].(queued := accepts(i)));
      if accepts(i) {
        Pend(queue[i].id);
      }
      assert before + Taken(was, lo, i + 1, accepts) ==
             before + Taken(was, lo, i, accepts) + if accepts(i) then [was[i].id] else [];
    }

    /** Nothing is claimed about marks and pending transmissions for a while. */
    ghost method Unpromised()
      requires Valid()
      modifies this`orderly
      ensures Valid() && !orderly
    {
      orderly := false;
      assert forall p | p in queue :: PacketFits(p, Around().(orderly := old(orderly))) ==> PacketFits(p, Around());
    }

    ghost method PromisedAgain()
      requires Valid() && Promised(queue, actions)
      modifies this`orderly
      ensures Valid() && orderly
    {
      orderly := true;
      assert forall p | p in queue :: PacketFits(p, Around().(orderly := old(orderly))) ==> PacketFits(p, Around());
    }

    method Pend(id: nat)
      requires Valid() && !orderly
      modifies this`actions
      ensures Valid() && actions == old(actions) + [id]
    {
      actions := actions + [id];
      assert forall p | p in queue :: PacketFits(p, Around().(actions := old(actions))) ==> PacketFits(p, Around());
    }

    /** Marking a packet as handed over, or taking answers from it, changes nothing else. */
    method ChangePacket(k: nat, p: Packet)
      requires Valid() && k < |queue| && p == queue[k].(queued := p.queued, answers := p.answers)
      requires (p.queued ==> p.sendAt < now) && (orderly ==> p.queued == queue[k].queued)
      requires forall x | x in p.answers :: x in queue[k].answers
      modifies this`queue
      ensures Valid() && queue == old(queue)[k := p]
    {
      ghost var i := p.pcb;
      assert queue[k] in queue && PacketFits(queue[k], Around());
      ReplaceInQueue(queue, k, p, Around());
      OfReplace(queue, k, p, i);
      assert Fine(i, queue, pcbs, services, hostnameSet, clean, history);
      FlagFineAt(pcbs[i], Of(queue[..k], i), queue[k], p, Of(queue[k + 1..], i), services, hostnameSet, clean,
                 PhaseOf(history, i));
      queue := queue[k := p];
      AllFine(i, old(queue), pcbs, history);
    }

    /** _mdns_remove_scheduled_answer: somebody else has answered; one answer goes from each shared reply. */
    method RemoveScheduledAnswer(pcb: nat, answer: Answer)
      requires Valid()
      modifies this`queue
      ensures Valid() && queue == Suppressed(old(queue), pcb, answer)
    {
      for i := 0 to |queue|
        invariant Valid() && |queue| == |old(queue)|
        invariant forall k | i <= k < |queue| :: queue[k] == old(queue)[k]
        invariant forall k | 0 <= k < i :: queue[k] == SuppressedOne(old(queue)[k], pcb, answer)
      {
        if queue[i].pcb == pcb && queue[i].distributed {
          assert queue[i] in queue && PacketFits(queue[i], Around());
          ChangePacket(i, queue[i].(answers := RemoveAnswer(queue[i].answers, answer)));
        }
      }
    }

    /** While a PCB is probing, its only packet is the probe for exactly what is being probed. */
    lemma OnlyTheProbe(j: nat)
      requires Valid() && clean && j < |pcbs| && InProbe(pcbs[j].state)
      ensures |Of(queue, j)| == 1 && pcbs[j].ready
      ensures AsksFor(Of(queue, j)[0], pcbs[j].probeServices, pcbs[j].probeIp, pcbs[j].state == Probe1)
      ensures HasServers(Of(queue, j)[0], pcbs[j].probeServices)
      ensures pcbs[j].probeRunning && NoDuplicates(pcbs[j].probeServices)
    {
      assert Fine(j, queue, pcbs, services, hostnameSet, clean, history);
    }

    /** Outside PROBE_1..PROBE_3 nothing is being probed. */
    lemma NothingProbed(j: nat)
      requires Valid() && clean && j < |pcbs| && !InProbe(pcbs[j].state)
      ensures !pcbs[j].probeRunning && pcbs[j].probeServices == []
    {
      assert Fine(j, queue, pcbs, services, hostnameSet, clean, history);
    }

    /** One turn of _mdns_remove_scheduled_service_packets, on the packet at position k. */
    method PurgeAt(k: nat, s: Service) returns (kept: bool)
      requires QueueOk(queue, Around()) && k < |queue|
      requires Fine(queue[k].pcb, queue, pcbs, services, hostnameSet, clean, history)
      modifies this`queue, this`pcbs, this`history
      ensures QueueOk(queue, Around()) && old(queue)[k].pcb < |old(pcbs)|
      ensures Fine(old(queue)[k].pcb, queue, pcbs, services, hostnameSet, clean, history)
      ensures OnlyPcb(old(queue)[k].pcb, old(queue), queue, old(pcbs), pcbs, old(history), history)
      ensures var q := old(queue)[k];
              var q' := PurgedPacket(q, s, ProbesHere(old(pcbs)[q.pcb], s));
              && (kept <==> !HasNothing(q'))
              && queue == old(queue)[..k] + (if kept then [q'] else []) + old(queue)[k + 1..]
              && PurgedOn(old(pcbs)[q.pcb], pcbs[q.pcb], [q], s)
      ensures Marks(history) == Marks(old(history))
    {
      var i := queue[k].pcb;
      var p';
      kept, p' := PurgeInQueue(k, s);
      SetAfterPurge(i, p', old(queue));
    }

    /** The same without the new record of the PCB. */
    method PurgeInQueue(k: nat, s: Service) returns (kept: bool, p': Pcb)
      requires QueueOk(queue, Around()) && k < |queue|
      requires Fine(queue[k].pcb, queue, pcbs, services, hostnameSet, clean, history)
      modifies this`queue
      ensures QueueOk(queue, Around()) && old(queue)[k].pcb < |pcbs|
      ensures forall j: nat | j != old(queue)[k].pcb :: Of(queue, j) == Of(old(queue), j)
      ensures var q := old(queue)[k];
              var p, q' := pcbs[q.pcb], PurgedPacket(q, s, ProbesHere(pcbs[q.pcb], s));
              && (kept <==> !HasNothing(q'))
              && queue == old(queue)[..k] + (if kept then [q'] else []) + old(queue)[k + 1..]
              && PurgedOn(p, p', [q], s)
              && PcbOk(p', Of(queue, q.pcb), services, hostnameSet, clean,
                       if InProbe(p.state) && !InProbe(p'.state) then Quiet else PhaseOf(history, q.pcb))
    {
      var q := queue[k];
      assert q in queue && PacketFits(q, Around());
      var i := q.pcb;
      OfSplit(queue, k, i);
      ghost var a, b := Of(queue[..k], i), Of(queue[k + 1..], i);
      var q';
      kept, q', p' := PurgeOne(q, pcbs[i], s, a, b, services, hostnameSet, clean, PhaseOf(history, i));
      PutBack(k, q', kept);
    }

    /** The new record of a PCB; probing may have come to nothing. */
    method SetAfterPurge(i: nat, p': Pcb, ghost before: seq<Packet>)
      requires i < |pcbs| && QueueOk(queue, Around()) && forall j: nat | j != i :: Of(queue, j) == Of(before, j)
      requires PcbOk(p', Of(queue, i), services, hostnameSet, clean,
                     if InProbe(pcbs[i].state) && !InProbe(p'.state) then Quiet else PhaseOf(history, i))
      modifies this`pcbs, this`history
      ensures pcbs == old(pcbs)[i := p'] && QueueOk(queue, Around()) && Marks(history) == Marks(old(history))
      ensures OnlyPcb(i, before, queue, old(pcbs), pcbs, old(history), history)
      ensures Fine(i, queue, pcbs, services, hostnameSet, clean, history)
    {
      if InProbe(pcbs[i].state) && !InProbe(p'.state) {
        history := history + [Abandon(i)];
        EventOnPcb(old(history), Abandon(i));
      }
      SetPcb(i, p', before, old(history));
    }

    /** The changed packet stays where it was, or is detached. */
    method PutBack(k: nat, q': Packet, kept: bool)
      requires QueueOk(queue, Around()) && k < |queue|
      requires q'.id == queue[k].id && q'.pcb == queue[k].pcb && q'.sendAt == queue[k].sendAt
      requires q'.queued == queue[k].queued && PacketFits(q', Around())
      modifies this`queue
      ensures QueueOk(queue, Around())
      ensures queue == old(queue)[..k] + (if kept then [q'] else []) + old(queue)[k + 1..]
      ensures Of(queue, q'.pcb) == if kept then Of(old(queue)[..k], q'.pcb) + [q'] + Of(old(queue)[k + 1..], q'.pcb)
                                   else Of(old(queue)[..k], q'.pcb) + Of(old(queue)[k + 1..], q'.pcb)
      ensures forall j: nat | j != q'.pcb :: Of(queue, j) == Of(old(queue), j)
    {
      if kept {
        ReplaceInQueue(queue, k, q', Around());
        OfReplace(queue, k, q', q'.pcb);
        queue := queue[k := q'];
      } else {
        DetachFromQueue(queue, k, Around());
        queue := queue[..k] + queue[k + 1..];
      }
    }

    /** The loop has dealt with the first m packets of those that there were, and so come to position k. */
    ghost predicate Purging(k: nat, m: nat, s: Service, was: seq<Packet>, before: seq<Pcb>)
      reads this
    {
      && m <= |was| && Valid() && |pcbs| == |before|
      && (forall p | p in was :: p.pcb < |before|)
      && queue == PurgedList(was[..m], s, before) + was[m..] && k == |PurgedList(was[..m], s, before)|
      && (forall j: nat | j < |before| :: PartlyPurged(before[j], pcbs[j], Of(was[..m], j), s))
      && (forall j: nat | j < |before| && before[j].ready && InProbe(before[j].state) :: |Of(was, j)| == 1)
    }

    method PurgeTurn(k: nat, s: Service) returns (kept: bool)
      requires Valid() && k < |queue|
      modifies this`queue, this`pcbs, this`history
      ensures Valid() && |pcbs| == |old(pcbs)| && Marks(history) == Marks(old(history))
      ensures var q := old(queue)[k];
              && q.pcb < |pcbs|
              && var q' := PurgedPacket(q, s, ProbesHere(old(pcbs)[q.pcb], s));
                 && (kept <==> !HasNothing(q'))
                 && queue == old(queue)[..k] + (if HasNothing(q') then [] else [q']) + old(queue)[k + 1..]
                 && PurgedOn(old(pcbs)[q.pcb], pcbs[q.pcb], [q], s)
                 && forall j: nat | j < |pcbs| && j != q.pcb :: pcbs[j] == old(pcbs)[j]
    {
      assert Fine(queue[k].pcb, queue, pcbs, services, hostnameSet, clean, history);
      kept := PurgeAt(k, s);
      AllFine(old(queue)[k].pcb, old(queue), old(pcbs), old(history));
    }

    /** One turn of the loop. */
    method PurgeNext(k: nat, ghost m: nat, s: Service, ghost was: seq<Packet>, ghost before: seq<Pcb>)
      returns (next: nat)
      requires Purging(k, m, s, was, before) && m < |was|
      modifies this`queue, this`pcbs, this`history
      ensures Purging(next, m + 1, s, was, before) && Marks(history) == Marks(old(history))
    {
      ghost var q, ps := queue, pcbs;
      assert was[m..][0] == was[m] && queue[k] == was[m] && was[m] in was;
      var kept := PurgeTurn(k, s);
      next := if kept then k + 1 else k;
      OneMorePurged(k, m, s, was, before, q, ps, pcbs, queue);
    }

    /**
      _mdns_remove_scheduled_service_packets: no record of any packet is about the
      service any more. It leaves the probe lists of the PCBs that are up.
     */
    method RemoveScheduledServicePackets(s: Service)
      requires Valid()
      modifies this`queue, this`pcbs, this`history
      ensures Valid() && |pcbs| == |old(pcbs)| && Marks(history) == Marks(old(history))
      ensures queue == PurgedList(old(queue), s, old(pcbs)) && forall p | p in queue :: NoReference(p, s)
      ensures forall j: nat | j < |pcbs| :: PurgedOn(old(pcbs)[j], pcbs[j], Of(old(queue), j), s)
    {
      ghost var m: nat, was := 0, queue;
      var k: nat := 0;
      BeginPurging(s);
      while k < |queue|
        invariant Purging(k, m, s, was, old(pcbs)) && Marks(history) == Marks(old(history))
        decreases |was| - m
      {
        k := PurgeNext(k, m, s, was, old(pcbs));
        m := m + 1;
      }
      PurgedAll(k, s, was, old(pcbs));
    }

    lemma BeginPurging(s: Service)
      requires Valid()
      ensures Purging(0, 0, s, queue, pcbs)
    {
      forall p | p in queue
        ensures p.pcb < |pcbs|
      {
        assert PacketFits(p, Around());
      }
      forall j: nat | j < |pcbs| && pcbs[j].ready && InProbe(pcbs[j].state)
        ensures |Of(queue, j)| == 1
      {
        assert Fine(j, queue, pcbs, services, hostnameSet, clean, history);
      }
    }

    lemma PurgedAll(k: nat, s: Service, was: seq<Packet>, before: seq<Pcb>)
      requires Purging(k, |was|, s, was, before)
      ensures queue == PurgedList(was, s, before) && forall p | p in queue :: NoReference(p, s)
      ensures forall j: nat | j < |pcbs| :: PurgedOn(before[j], pcbs[j], Of(was, j), s)
    {
      assert was[..|was|] == was && was[|was|..] == [];
      PurgedListRefers(was, s, before);
      forall j: nat | j < |pcbs|
        ensures PurgedOn(before[j], pcbs[j], Of(was, j), s)
      {
        AllPurged(before[j], pcbs[j], Of(was, j), s);
      }
    }

    /**
      mdns_service_remove_for_host, once the service has been found. Nothing
      refers to the service any more exactly if no PCB that is not up is probing it.
     */
    method RemoveService(i: nat)
      requires Valid() && i < |services|
      modifies this`queue, this`pcbs, this`history, this`services
      ensures Valid() && services == old(services)[..i] + old(services)[i + 1..] && |pcbs| == |old(pcbs)|
      ensures Marks(history) == Marks(old(history))
      ensures queue == PurgedList(old(queue), old(services)[i], old(pcbs))
      ensures forall p | p in queue :: NoReference(p, old(services)[i])
      ensures forall j: nat | j < |pcbs| :: PurgedOn(old(pcbs)[j], pcbs[j], Of(old(queue), j), old(services)[i])
      ensures (forall j: nat | j < |pcbs| :: old(services)[i] !in pcbs[j].probeServices) <==>
                forall j: nat | j < |pcbs| && !old(pcbs)[j].ready :: old(services)[i] !in old(pcbs)[j].probeServices
      ensures clean ==> forall j: nat | j < |pcbs| :: old(services)[i] !in pcbs[j].probeServices
    {
      var s := services[i];
      ghost var was, before := queue, pcbs;
      WhoProbes(s);
      RemoveScheduledServicePackets(s);
      forall j: nat | j < |pcbs|
        ensures if before[j].ready then s !in pcbs[j].probeServices else pcbs[j] == before[j]
      {
        assert PurgedOn(before[j], pcbs[j], Of(was, j), s);
      }
      ghost var all := services;
      services := services[..i] + services[i + 1..];
      FewerServices(all, i);
    }

    /** A PCB that is up has a probe list only while it is in PROBE_1..PROBE_3; in a clean run no other PCB has one. */
    lemma WhoProbes(s: Service)
      requires Valid()
      ensures forall j: nat | j < |pcbs| && pcbs[j].ready && s in pcbs[j].probeServices :: ProbesHere(pcbs[j], s)
      ensures clean ==> forall j: nat | j < |pcbs| && !pcbs[j].ready :: pcbs[j].probeServices == []
    {
      forall j: nat | j < |pcbs|
        ensures pcbs[j].ready && s in pcbs[j].probeServices ==> ProbesHere(pcbs[j], s)
        ensures clean && !pcbs[j].ready ==> pcbs[j].probeServices == []
      {
        assert Fine(j, queue, pcbs, services, hostnameSet, clean, history);
      }
    }

    lemma FewerServices(before: seq<Service>, i: nat)
      requires i < |before| && NoDuplicates(before) && services == before[..i] + before[i + 1..]
      requires QueueOk(queue, Around().(services := before))
      requires forall j: nat :: Fine(j, queue, pcbs, before, hostnameSet, clean, history)
      requires forall p | p in queue :: NoReference(p, before[i])
      requires clean ==> forall j: nat | j < |pcbs| :: before[i] !in pcbs[j].probeServices
      ensures NoDuplicates(services) && QueueOk(queue, Around())
      ensures forall j: nat :: Fine(j, queue, pcbs, services, hostnameSet, clean, history)
    {
      WithoutOneMembers(before, i);
      forall p | p in queue
        ensures PacketFits(p, Around())
      {
        assert PacketFits(p, Around().(services := before));
      }
      forall j: nat
        ensures Fine(j, queue, pcbs, services, hostnameSet, clean, history)
      {
        assert Fine(j, queue, pcbs, before, hostnameSet, clean, history);
      }
    }

    /** mdns_service_remove_all */
    method RemoveAllServices()
      requires Valid()
      modifies this`queue, this`pcbs, this`history, this`services
      ensures Valid() && services == [] && |pcbs| == |old(pcbs)| && Marks(history) == Marks(old(history))
      ensures forall j: nat | j < |pcbs| :: ReducedTo(old(pcbs)[j], pcbs[j], old(services), [])
      ensures clean ==> NothingRemembered(queue, pcbs)
    {
      ghost var before, all := pcbs, services;
      NothingReduced();
      while services != []
        invariant Valid() && |pcbs| == |before| && Marks(history) == Marks(old(history))
        invariant forall s | s in services :: s in all
        invariant forall j: nat | j < |pcbs| :: ReducedTo(before[j], pcbs[j], all, services)
        decreases |services|
      {
        RemoveFirst(before, all);
      }
      if clean {
        NothingLeft();
      }
    }

    lemma NothingReduced()
      requires Valid()
      ensures forall j: nat | j < |pcbs| :: ReducedTo(pcbs[j], pcbs[j], services, services)
    {
      forall j: nat | j < |pcbs|
        ensures ReducedTo(pcbs[j], pcbs[j], services, services)
      {
        assert Fine(j, queue, pcbs, services, hostnameSet, clean, history);
      }
    }

    method RemoveFirst(ghost before: seq<Pcb>, ghost all: seq<Service>)
      requires Valid() && services != [] && |pcbs| == |before| && forall s | s in services :: s in all
      requires forall j: nat | j < |pcbs| :: ReducedTo(before[j], pcbs[j], all, services)
      modifies this`queue, this`pcbs, this`history, this`services
      ensures Valid() && services == old(services)[1..] && |pcbs| == |before| && Marks(history) == Marks(old(history))
      ensures forall j: nat | j < |pcbs| :: ReducedTo(before[j], pcbs[j], all, services)
    {
      ghost var q, ps, left := queue, pcbs, services;
      forall j: nat | j < |pcbs|
        ensures NoDuplicates(pcbs[j].probeServices)
      {
        assert Fine(j, queue, pcbs, services, hostnameSet, clean, history);
      }
      RemoveService(0);
      assert services == left[1..];
      forall j: nat | j < |pcbs|
        ensures ReducedTo(before[j], pcbs[j], all, services)
      {
        assert ReducedTo(before[j], ps[j], all, left) && PurgedOn(ps[j], pcbs[j], Of(q, j), left[0]);
        ReducedByOne(before[j], ps[j], pcbs[j], Of(q, j), all, left);
      }
    }

    lemma NothingLeft()
      requires Valid() && clean && services == []
      ensures NothingRemembered(queue, pcbs)
    {
      forall p, x | p in queue && x in p.answers + p.servers + p.additional
        ensures x.service == None
      {
        assert PacketFits(p, Around());
      }
      forall j | 0 <= j < |pcbs|
        ensures pcbs[j].probeServices == []
      {
        assert Fine(j, queue, pcbs, services, hostnameSet, clean, history);
        assert forall x | x in pcbs[j].probeServices :: x in services;
        MembersNeedPool(pcbs[j].probeServices, services);
      }
    }
  }
}
