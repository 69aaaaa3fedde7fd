/**
  Whole runs of the mDNS responder: any sequence of actions, what each of them
  does to the state, and what holds of every state on the way.
 */
module MdnsRuns {
  import opened Bytes
  import opened MdnsTxQueue
  import opened MdnsProbe
  import opened MdnsPurge
  import opened MdnsRecords
  import opened MdnsSchedule
  import opened MdnsResponder

  /** One action of the service task, of the timer or of the application, or the passing of time. */
  datatype Step =
    | SetHostname(rnd: nat)
    | LostHostname(pcb: nat, rnd: nat)
    | RestartUnnamed(unnamed: seq<Service>, rnd: nat)
    | Add(service: Service, rnd: nat)
    | Rename(service: Service, rnd: nat)
    | LostService(pcb: nat, service: Service, rnd: nat)
    | Remove(index: nat)
    | RemoveAll
    | Conflict(pcb: nat, svcs: seq<Service>, ip: bool, rnd: nat)
    | Announce(pcb: nat, svcs: seq<Service>, ip: bool, rnd: nat)
    | AnnounceAll(svcs: seq<Service>, ip: bool, rnd: nat)
    | Enable(pcb: nat, initOk: bool, rnd: nat)
    | Disable(pcb: nat, initOk: bool, rnd: nat)
    | Duplicate(pcb: nat, rnd: nat)
    | Wait(ms: nat)
    | Reply(packet: Packet, delay: nat)
    | Suppress(pcb: nat, answer: Answer)
    | RunScheduler(accepts: nat -> bool)
    | Transmit

  datatype State = State(
    now: nat, queue: seq<Packet>, pcbs: seq<Pcb>, services: seq<Service>, hostnameSet: bool, actions: seq<nat>,
    history: seq<Event>)

  ghost function StateOf(r: Responder): State
    reads r
  {
    State(r.now, r.queue, r.pcbs, r.services, r.hostnameSet, r.actions, r.history)
  }

  function Initial(n: nat): State {
    State(0, [], seq(n, _ => OFF_PCB), [], false, [], [])
  }

  predicate AreSome(svcs: seq<Service>, services: seq<Service>) {
    NoDuplicates(svcs) && forall s | s in svcs :: s in services
  }

  // ---- What a step does -----------------------------------------------------

  /** There is such a PCB or service, and the guards of the source let the step happen. */
  predicate Possible(a: State, step: Step, otherPcb: seq<Option<nat>>) {
    match step
    case LostHostname(pcb, _) => pcb < |a.pcbs| && a.hostnameSet && a.pcbs[pcb].probeRunning
    case RestartUnnamed(unnamed, _) => AreSome(unnamed, a.services) && unnamed != []
    case Add(s, _) => s !in a.services
    case Rename(s, _) => s in a.services
    case LostService(pcb, s, _) => pcb < |a.pcbs| && s in a.services && a.pcbs[pcb].probeRunning
    case Remove(i) => i < |a.services|
    case Conflict(i, svcs, ip, _) =>
      i < |a.pcbs| && !a.pcbs[i].probeRunning && AreSome(svcs, a.services) && (svcs != [] || ip)
    case Announce(i, svcs, ip, _) => i < |a.pcbs| && AreSome(svcs, a.services) && (svcs != [] || ip)
    case AnnounceAll(svcs, ip, _) => AreSome(svcs, a.services) && (svcs != [] || ip)
    case Enable(i, _, _) => i < |a.pcbs|
    case Disable(i, _, _) => i < |a.pcbs|
    case Duplicate(i, _) => i < |a.pcbs| == |otherPcb| && otherPcb[i].Some?
    case Reply(packet, _) => packet.pcb < |a.pcbs| && PacketRefersOnlyTo(packet, a.services)
    case Transmit => a.actions != []
    case _ => true
  }

  /** Only packets, records of PCBs and the history have changed, and nothing was transmitted. */
  predicate Quietly(a: State, b: State) {
    && b == a.(queue := b.queue, pcbs := b.pcbs, history := b.history)
    && |b.pcbs| == |a.pcbs| && Marks(b.history) == Marks(a.history)
  }

  /** The steps that concern the host name or services. */
  ghost predicate ServicesFollow(a: State, step: Step, b: State, otherPcb: seq<Option<nat>>)
    requires Possible(a, step, otherPcb)
  {
    match step
    case SetHostname(_) =>
      && Quietly(a.(hostnameSet := true), b)
      && AllProbed(a.pcbs, b.pcbs, [], b.queue, a.now, Order(true, a.services, true, true))
    case LostHostname(pcb, _) =>
      && Quietly(a, b)
      && AllProbed(Counted(a.pcbs, pcb), b.pcbs, [], b.queue, a.now, Order(true, a.services, true, true))
    case RestartUnnamed(unnamed, _) =>
      && Quietly(a, b)
      && AllProbed(a.pcbs, b.pcbs, a.queue, b.queue, a.now, Order(a.hostnameSet, unnamed, false, true))
    case Add(s, _) =>
      && Quietly(a.(services := [s] + a.services), b)
      && AllProbed(a.pcbs, b.pcbs, a.queue, b.queue, a.now, Order(a.hostnameSet, [s], false, false))
    case Rename(s, _) =>
      && Quietly(a, b)
      && AllProbed(a.pcbs, b.pcbs, a.queue, b.queue, a.now, Order(a.hostnameSet, [s], false, false))
    case LostService(pcb, s, _) =>
      && Quietly(a, b)
      && AllProbed(Counted(a.pcbs, pcb), b.pcbs, a.queue, b.queue, a.now, Order(a.hostnameSet, [s], false, false))
    case Remove(i) =>
      && Quietly(a.(services := a.services[..i] + a.services[i + 1..]), b)
      && b.queue == PurgedList(a.queue, a.services[i], a.pcbs)
      && (forall p | p in b.queue :: NoReference(p, a.services[i]))
      && forall j: nat | j < |a.pcbs| :: PurgedOn(a.pcbs[j], b.pcbs[j], Of(a.queue, j), a.services[i])
    case RemoveAll =>
      && Quietly(a.(services := []), b)
      && forall j: nat | j < |a.pcbs| :: ReducedTo(a.pcbs[j], b.pcbs[j], a.services, [])
    case _ => true
  }

  /** Nothing but one PCB, its packets and the history. */
  ghost predicate OnlyOne(i: nat, a: State, b: State) {
    && b == a.(queue := b.queue, pcbs := b.pcbs, history := b.history)
    && OnlyPcb(i, a.queue, b.queue, a.pcbs, b.pcbs, a.history, b.history)
  }

  /** The steps that concern single PCBs, or announce. */
  ghost predicate PcbsFollow(a: State, step: Step, b: State, otherPcb: seq<Option<nat>>)
    requires Possible(a, step, otherPcb) && OthersOk(otherPcb, |a.pcbs|)
  {
    match step
    case Conflict(i, svcs, ip, _) =>
      && Quietly(a, b) && OnlyOne(i, a, b)
      && Started(a.pcbs[i], b.pcbs[i], Of(b.queue, i), a.now, Order(a.hostnameSet, svcs, ip, false))
    case Announce(i, svcs, ip, _) =>
      && Quietly(a, b) && OnlyOne(i, a, b)
      && AnnouncedOn(a.pcbs[i], b.pcbs[i], Of(a.queue, i), Of(b.queue, i), a.now, a.hostnameSet, svcs, ip)
    case AnnounceAll(svcs, ip, _) =>
      && Quietly(a, b)
      && forall j: nat | j < |a.pcbs| ::
           AnnouncedOn(a.pcbs[j], b.pcbs[j], Of(a.queue, j), Of(b.queue, j), a.now, a.hostnameSet, svcs, ip)
    case Enable(i, initOk, _) =>
      && OnlyOne(i, a, b)
      && EnabledOn(a.pcbs[i], b.pcbs[i], Of(a.queue, i), Of(b.queue, i), a.now, initOk, a.hostnameSet, a.services)
      && Marks(b.history) == Marks(a.history) + EnableMarks(i, a.pcbs[i], initOk, a.hostnameSet, a.services)
    case Disable(i, initOk, _) =>
      && b == a.(queue := b.queue, pcbs := b.pcbs, history := b.history) && |b.pcbs| == |a.pcbs|
      && DisabledOn(i, otherPcb[i], a.pcbs, b.pcbs, a.queue, b.queue, a.now, initOk, a.hostnameSet, a.services)
      && Marks(b.history) ==
           Marks(a.history) + DisableMarks(i, otherPcb[i], a.pcbs, initOk, a.hostnameSet, a.services)
    case Duplicate(i, _) =>
      && Quietly(a, b)
      && DuplicatedOn(i, otherPcb[i].value, a.pcbs, b.pcbs, a.queue, b.queue, a.now, a.hostnameSet)
    case _ => true
  }

  ghost predicate Transmitted(a: State, b: State) {
    a.queue != [] && exists next :: HeadSent(a.queue, b.queue, a.pcbs, b.pcbs, a.history, b.history, next, a.now)
  }

  predicate HeadIsMeant(a: State) {
    a.queue != [] && a.actions != [] && a.queue[0].queued && a.queue[0].id == a.actions[0]
  }

  predicate MayReply(s: PcbState) {
    IsAnnouncing(s) || s == Running
  }

  /** The steps of the timer, the transmissions and the replies, and the passing of time. */
  ghost predicate TrafficFollows(a: State, step: Step, b: State, otherPcb: seq<Option<nat>>)
    requires Possible(a, step, otherPcb)
  {
    match step
    case Wait(ms) => b == a.(now := a.now + ms)
    case Reply(packet, delay) =>
      if MayReply(a.pcbs[packet.pcb].state) then
        b == a.(queue := b.queue) && Replied(a.queue, b.queue, packet, a.now + delay)
      else b == a
    case Suppress(pcb, answer) => b == a.(queue := Suppressed(a.queue, pcb, answer))
    case RunScheduler(accepts) =>
      var lo := FirstUnmarked(a.queue, 0);
      var hi := DueEnd(a.queue, lo, a.now);
      b == a.(queue := Offered(a.queue, lo, hi, accepts), actions := a.actions + Taken(a.queue, lo, hi, accepts))
    case Transmit => TransmitFollows(a, b)
    case _ => true
  }

  ghost predicate TransmitFollows(a: State, b: State)
    requires a.actions != []
  {
    if HeadIsMeant(a) then
      && b == a.(queue := b.queue, pcbs := b.pcbs, history := b.history, actions := a.actions[1..])
      && Transmitted(a, b)
    else b == a.(actions := a.actions[1..])
  }

  /** What a step does to the state. */
  ghost predicate Follows(a: State, step: Step, b: State, otherPcb: seq<Option<nat>>)
    requires OthersOk(otherPcb, |a.pcbs|)
  {
    if !Possible(a, step, otherPcb) then b == a
    else
      ServicesFollow(a, step, b, otherPcb) && PcbsFollow(a, step, b, otherPcb) && TrafficFollows(a, step, b, otherPcb)
  }

  /** A conflict noticed while not probing concerns a PCB that is up. */
  predicate HeardWhereUp(a: State, step: Step, otherPcb: seq<Option<nat>>) {
    step.Conflict? && Possible(a, step, otherPcb) ==> a.pcbs[step.pcb].ready
  }

  /** The action queue takes no packet behind one that it has refused in the same pass. */
  predicate TakenInOrder(a: State, step: Step) {
    step.RunScheduler? ==>
      var lo := FirstUnmarked(a.queue, 0);
      InOrder(lo, DueEnd(a.queue, lo, a.now), step.accepts)
  }

  // ---- Carrying out a step --------------------------------------------------

  predicate IsTraffic(step: Step) {
    step.Wait? || step.Reply? || step.Suppress? || step.RunScheduler? || step.Transmit?
  }

  predicate IsOnPcbs(step: Step) {
    step.Conflict? || step.Announce? || step.AnnounceAll? || step.Enable? || step.Disable? || step.Duplicate?
  }

  /** A step that the source would not take changes nothing. */
  method Perform(r: Responder, step: Step)
    requires r.Valid()
    modifies r
    ensures r.Valid() && |r.pcbs| == |old(r.pcbs)|
    ensures Follows(old(StateOf(r)), step, StateOf(r), r.otherPcb)
    ensures r.clean == (old(r.clean) && HeardWhereUp(old(StateOf(r)), step, r.otherPcb))
    ensures r.orderly == (old(r.orderly) && TakenInOrder(old(StateOf(r)), step))
  {
    if IsTraffic(step) {
      PerformOnQueue(r, step);
    } else if IsOnPcbs(step) {
      PerformOnSome(r, step);
    } else {
      PerformOnAll(r, step);
    }
  }

  method PerformOnQueue(r: Responder, step: Step)
    requires r.Valid() && IsTraffic(step)
    modifies r
    ensures r.Valid() && |r.pcbs| == |old(r.pcbs)|
    ensures Follows(old(StateOf(r)), step, StateOf(r), r.otherPcb)
    ensures r.clean == (old(r.clean) && HeardWhereUp(old(StateOf(r)), step, r.otherPcb))
    ensures r.orderly == (old(r.orderly) && TakenInOrder(old(StateOf(r)), step))
  {
    if step.RunScheduler? {
      PerformScheduler(r, step.accepts);
    } else if step.Transmit? {
      PerformTransmit(r);
    } else {
      PerformTraffic(r, step);
    }
  }

  method PerformOnSome(r: Responder, step: Step)
    requires r.Valid() && IsOnPcbs(step)
    modifies r
    ensures r.Valid() && |r.pcbs| == |old(r.pcbs)|
    ensures Follows(old(StateOf(r)), step, StateOf(r), r.otherPcb)
    ensures r.clean == (old(r.clean) && HeardWhereUp(old(StateOf(r)), step, r.otherPcb))
    ensures r.orderly == (old(r.orderly) && TakenInOrder(old(StateOf(r)), step))
  {
    if step.Conflict? {
      PerformConflict(r, step);
    } else if step.Announce? || step.AnnounceAll? {
      PerformAnnouncement(r, step);
    } else {
      PerformOnInterfaces(r, step);
    }
  }

  method PerformOnAll(r: Responder, step: Step)
    requires r.Valid() && !IsTraffic(step) && !IsOnPcbs(step)
    modifies r
    ensures r.Valid() && |r.pcbs| == |old(r.pcbs)|
    ensures Follows(old(StateOf(r)), step, StateOf(r), r.otherPcb)
    ensures r.clean == (old(r.clean) && HeardWhereUp(old(StateOf(r)), step, r.otherPcb))
    ensures r.orderly == (old(r.orderly) && TakenInOrder(old(StateOf(r)), step))
  {
    if step.Add? || step.Remove? || step.RemoveAll? {
      PerformOnServices(r, step);
    } else {
      PerformRestart(r, step);
    }
  }

  method PerformTraffic(r: Responder, step: Step)
    requires r.Valid()
    requires step.Wait? || step.Reply? || step.Suppress?
    modifies r
    ensures r.Valid() && |r.pcbs| == |old(r.pcbs)| && r.clean == old(r.clean) && r.orderly == old(r.orderly)
    ensures if Possible(old(StateOf(r)), step, r.otherPcb)
            then TrafficFollows(old(StateOf(r)), step, StateOf(r), r.otherPcb)
            else StateOf(r) == old(StateOf(r))
  {
    match step
    case Wait(ms) => r.Tick(ms);
    case Reply(packet, delay) =>
      if packet.pcb < |r.pcbs| && PacketRefersOnlyTo(packet, r.services) {
        r.AnswerQuery(packet, delay);
      }
    case Suppress(pcb, answer) => r.RemoveScheduledAnswer(pcb, answer);
  }

  method PerformScheduler(r: Responder, accepts: nat -> bool)
    requires r.Valid()
    modifies r
    ensures r.Valid() && |r.pcbs| == |old(r.pcbs)| && r.clean == old(r.clean)
    ensures TrafficFollows(old(StateOf(r)), RunScheduler(accepts), StateOf(r), r.otherPcb)
    ensures r.orderly == (old(r.orderly) && TakenInOrder(old(StateOf(r)), RunScheduler(accepts)))
  {
    r.SchedulerRun(accepts);
  }

  method PerformTransmit(r: Responder)
    requires r.Valid()
    modifies r
    ensures r.Valid() && |r.pcbs| == |old(r.pcbs)| && r.clean == old(r.clean) && r.orderly == old(r.orderly)
    ensures if old(r.actions) != [] then TransmitFollows(old(StateOf(r)), StateOf(r)) else StateOf(r) == old(StateOf(r))
  {
    if r.actions != [] {
      ghost var a := StateOf(r);
      var next := r.ExecuteTxHandle();
      ghost var b := StateOf(r);
      if HeadIsMeant(a) {
        HeadWasSent(a, b, next);
      }
    }
  }

  lemma HeadWasSent(a: State, b: State, next: Option<Packet>)
    requires a.queue != [] && HeadSent(a.queue, b.queue, a.pcbs, b.pcbs, a.history, b.history, next, a.now)
    ensures Transmitted(a, b)
  {
  }

  method PerformConflict(r: Responder, step: Step)
    requires r.Valid() && step.Conflict?
    modifies r
    ensures r.Valid() && |r.pcbs| == |old(r.pcbs)| && r.orderly == old(r.orderly)
    ensures r.clean == (old(r.clean) && HeardWhereUp(old(StateOf(r)), step, r.otherPcb))
    ensures if Possible(old(StateOf(r)), step, r.otherPcb)
            then PcbsFollow(old(StateOf(r)), step, StateOf(r), r.otherPcb)
            else StateOf(r) == old(StateOf(r))
  {
    match step
    case Conflict(i, svcs, ip, rnd) =>
      if i < |r.pcbs| && !r.pcbs[i].probeRunning && AreSome(svcs, r.services) && (svcs != [] || ip) {
        r.ProbeOnPcb(i, svcs, ip, rnd);
      }
  }

  method PerformAnnouncement(r: Responder, step: Step)
    requires r.Valid()
    requires step.Announce? || step.AnnounceAll?
    modifies r
    ensures r.Valid() && |r.pcbs| == |old(r.pcbs)| && r.clean == old(r.clean) && r.orderly == old(r.orderly)
    ensures if Possible(old(StateOf(r)), step, r.otherPcb)
            then PcbsFollow(old(StateOf(r)), step, StateOf(r), r.otherPcb)
            else StateOf(r) == old(StateOf(r))
  {
    match step
    case Announce(i, svcs, ip, rnd) =>
      if i < |r.pcbs| && AreSome(svcs, r.services) && (svcs != [] || ip) {
        r.AnnouncePcb(i, svcs, ip, rnd);
      }
    case AnnounceAll(svcs, ip, rnd) =>
      if AreSome(svcs, r.services) && (svcs != [] || ip) {
        r.AnnounceAllPcbs(svcs, ip, rnd);
      }
  }

  method PerformOnInterfaces(r: Responder, step: Step)
    requires r.Valid()
    requires step.Enable? || step.Disable? || step.Duplicate?
    modifies r
    ensures r.Valid() && |r.pcbs| == |old(r.pcbs)| && r.clean == old(r.clean) && r.orderly == old(r.orderly)
    ensures if Possible(old(StateOf(r)), step, r.otherPcb)
            then PcbsFollow(old(StateOf(r)), step, StateOf(r), r.otherPcb)
            else StateOf(r) == old(StateOf(r))
  {
    match step
    case Enable(i, initOk, rnd) =>
      if i < |r.pcbs| {
        r.EnablePcb(i, initOk, rnd);
      }
    case Disable(i, initOk, rnd) =>
      if i < |r.pcbs| {
        r.DisablePcb(i, initOk, rnd);
      }
    case Duplicate(i, rnd) =>
      if i < |r.pcbs| && r.otherPcb[i].Some? {
        r.DupPcb(i, rnd);
      }
  }

  method PerformOnServices(r: Responder, step: Step)
    requires r.Valid()
    requires step.Add? || step.Remove? || step.RemoveAll?
    modifies r
    ensures r.Valid() && |r.pcbs| == |old(r.pcbs)| && r.clean == old(r.clean) && r.orderly == old(r.orderly)
    ensures if Possible(old(StateOf(r)), step, r.otherPcb)
            then ServicesFollow(old(StateOf(r)), step, StateOf(r), r.otherPcb)
            else StateOf(r) == old(StateOf(r))
  {
    match step
    case Add(s, rnd) =>
      if s !in r.services {
        r.AddService(s, rnd);
      }
    case Remove(i) =>
      if i < |r.services| {
        r.RemoveService(i);
      }
    case RemoveAll => r.RemoveAllServices();
  }

  method PerformRestart(r: Responder, step: Step)
    requires r.Valid()
    requires step.SetHostname? || step.LostHostname? || step.RestartUnnamed? || step.Rename? || step.LostService?
    modifies r
    ensures r.Valid() && |r.pcbs| == |old(r.pcbs)| && r.clean == old(r.clean) && r.orderly == old(r.orderly)
    ensures if Possible(old(StateOf(r)), step, r.otherPcb)
            then ServicesFollow(old(StateOf(r)), step, StateOf(r), r.otherPcb)
            else StateOf(r) == old(StateOf(r))
  {
    match step
    case SetHostname(rnd) => r.HostnameSet(rnd);
    case LostHostname(pcb, rnd) =>
      if pcb < |r.pcbs| && r.hostnameSet && r.pcbs[pcb].probeRunning {
        r.LoseHostname(pcb, rnd);
      }
    case RestartUnnamed(unnamed, rnd) =>
      if AreSome(unnamed, r.services) {
        r.RestartNoInstance(unnamed, rnd);
      }
    case Rename(s, rnd) =>
      if s in r.services {
        r.ProbeService(s, rnd);
      }
    case LostService(pcb, s, rnd) =>
      if pcb < |r.pcbs| && s in r.services && r.pcbs[pcb].probeRunning {
        r.ProbeAgain(pcb, s, rnd);
      }
  }

  // ---- Runs -----------------------------------------------------------------

  /** The first announcement after a (re)start follows exactly three probes, well apart. */
  ghost predicate ProbesThreeTimes(h: seq<Event>, pcb: nat) {
    forall k | 0 <= k < |h| && h[k].pcb == pcb && h[k].Sent? && IsAnnouncing(h[k].state)
      && PhaseOf(h[..k], pcb).Probing? ::
      |PhaseOf(h[..k], pcb).sent| == 3 && Paced(PhaseOf(h[..k], pcb).sent)
  }

  /** While a PCB is probing it has no packet but the probe, which has not been sent more often than its state says. */
  ghost predicate ProbesAlone(p: Pcb, mine: seq<Packet>, phase: Phase) {
    && NoDuplicates(p.probeServices)
    && (InProbe(p.state) ==>
          && (p.probeServices != [] || p.probeIp)
          && |mine| <= 1 && PhaseFits(p.state, phase, mine)
          && (p.ready ==> |mine| == 1 && HasServers(mine[0], p.probeServices))
          && (mine != [] ==> AsksFor(mine[0], p.probeServices, p.probeIp, p.state == Probe1)))
  }

  /** What holds of every state, whatever happens. */
  ghost predicate Always(s: State) {
    && Sorted(s.queue)
    && (forall p | p in s.queue :: p.pcb < |s.pcbs| && (p.queued ==> p.sendAt < s.now))
    && (forall j: nat :: ProbesThreeTimes(s.history, j))
    && (forall j: nat | j < |s.pcbs| :: ProbesAlone(s.pcbs[j], Of(s.queue, j), PhaseOf(s.history, j)))
  }

  /** Only a PCB that is up probes, and only what is registered; nothing is probed in any other state. */
  predicate ProbesAsRecorded(p: Pcb, services: seq<Service>) {
    if InProbe(p.state) then
      && p.ready && p.probeRunning && forall s | s in p.probeServices :: s in services
    else
      !p.probeRunning && p.probeServices == []
  }

  /** What holds besides while every conflict was noticed on a PCB that was up. */
  ghost predicate NothingLeftBehind(s: State) {
    && NoOverrun(s.history)
    && (forall p | p in s.queue :: PacketRefersOnlyTo(p, s.services))
    && forall j: nat | j < |s.pcbs| :: ProbesAsRecorded(s.pcbs[j], s.services)
  }

  /** The states are those of the first n steps. */
  ghost predicate IsRun(states: seq<State>, steps: seq<Step>, n: nat, otherPcb: seq<Option<nat>>)
    requires OthersOk(otherPcb, |otherPcb|)
  {
    && n <= |steps| && |states| == n + 1 && states[0] == Initial(|otherPcb|)
    && (forall k | 0 <= k <= n :: |states[k].pcbs| == |otherPcb|)
    && forall k | 0 <= k < n :: Follows(states[k], steps[k], states[k + 1], otherPcb)
  }

  predicate AllHeardWhereUp(states: seq<State>, steps: seq<Step>, n: nat, otherPcb: seq<Option<nat>>)
    requires n <= |steps| && n <= |states|
  {
    forall k | 0 <= k < n :: HeardWhereUp(states[k], steps[k], otherPcb)
  }

  predicate AllTakenInOrder(states: seq<State>, steps: seq<Step>, n: nat)
    requires n <= |steps| && n <= |states|
  {
    forall k | 0 <= k < n :: TakenInOrder(states[k], steps[k])
  }

  /** What holds after n steps. */
  ghost predicate HoldsAfter(states: seq<State>, steps: seq<Step>, n: nat, otherPcb: seq<Option<nat>>)
    requires n <= |steps| && n < |states|
  {
    && Always(states[n])
    && (AllHeardWhereUp(states, steps, n, otherPcb) ==> NothingLeftBehind(states[n]))
    && (AllTakenInOrder(states, steps, n) ==> Promised(states[n].queue, states[n].actions))
  }

  lemma PacedThreeTimes(h: seq<Event>, pcb: nat)
    requires WellPaced(h, pcb)
    ensures ProbesThreeTimes(h, pcb)
  {
    forall k: nat | k < |h| && h[k].pcb == pcb && h[k].Sent? && IsAnnouncing(h[k].state)
      && PhaseOf(h[..k], pcb).Probing?
      ensures |PhaseOf(h[..k], pcb).sent| == 3 && Paced(PhaseOf(h[..k], pcb).sent)
    {
      ThreeProbesBeforeAnnouncing(h, pcb, k);
    }
  }

  lemma ValidIsAlways(r: Responder)
    requires r.Valid()
    ensures Always(StateOf(r))
  {
    forall p | p in r.queue
      ensures p.pcb < |r.pcbs| && (p.queued ==> p.sendAt < r.now)
    {
      assert PacketFits(p, r.Around());
    }
    forall j: nat
      ensures ProbesThreeTimes(r.history, j)
    {
      PacedThreeTimes(r.history, j);
    }
    forall j: nat | j < |r.pcbs|
      ensures ProbesAlone(r.pcbs[j], Of(r.queue, j), PhaseOf(r.history, j))
    {
      assert Fine(j, r.queue, r.pcbs, r.services, r.hostnameSet, r.clean, r.history);
    }
  }

  lemma ValidIsClean(r: Responder)
    requires r.Valid() && r.clean
    ensures NothingLeftBehind(StateOf(r))
  {
    forall p | p in r.queue
      ensures PacketRefersOnlyTo(p, r.services)
    {
      assert PacketFits(p, r.Around());
    }
    forall j: nat | j < |r.pcbs|
      ensures ProbesAsRecorded(r.pcbs[j], r.services)
    {
      assert Fine(j, r.queue, r.pcbs, r.services, r.hostnameSet, r.clean, r.history);
    }
  }

  /** The run so far, and the two facts about it. */
  ghost predicate UnderWay(r: Responder, states: seq<State>, steps: seq<Step>, n: nat, otherPcb: seq<Option<nat>>)
    requires OthersOk(otherPcb, |otherPcb|)
    reads r
  {
    && r.Valid() && r.otherPcb == otherPcb
    && IsRun(states, steps, n, otherPcb) && states[n] == StateOf(r)
    && r.clean == AllHeardWhereUp(states, steps, n, otherPcb)
    && r.orderly == AllTakenInOrder(states, steps, n)
  }

  lemma HoldsNow(r: Responder, states: seq<State>, steps: seq<Step>, n: nat, otherPcb: seq<Option<nat>>)
    requires OthersOk(otherPcb, |otherPcb|) && UnderWay(r, states, steps, n, otherPcb)
    ensures HoldsAfter(states, steps, n, otherPcb)
  {
    ValidIsAlways(r);
    if r.clean {
      ValidIsClean(r);
    }
  }

  lemma OneMoreState(states: seq<State>, steps: seq<Step>, n: nat, otherPcb: seq<Option<nat>>, b: State)
    requires OthersOk(otherPcb, |otherPcb|) && IsRun(states, steps, n, otherPcb) && n < |steps|
    requires |b.pcbs| == |otherPcb| && Follows(states[n], steps[n], b, otherPcb)
    ensures IsRun(states + [b], steps, n + 1, otherPcb)
  {
    var more := states + [b];
    assert forall k | 0 <= k <= n :: more[k] == states[k];
    assert more[n + 1] == b;
  }

  lemma OneMoreHeard(states: seq<State>, steps: seq<Step>, n: nat, otherPcb: seq<Option<nat>>, b: State)
    requires |states| == n + 1 <= |steps|
    ensures AllHeardWhereUp(states + [b], steps, n + 1, otherPcb) ==
            (AllHeardWhereUp(states, steps, n, otherPcb) && HeardWhereUp(states[n], steps[n], otherPcb))
  {
    var more := states + [b];
    assert forall k | 0 <= k <= n :: more[k] == states[k];
  }

  lemma OneMoreTaken(states: seq<State>, steps: seq<Step>, n: nat, b: State)
    requires |states| == n + 1 <= |steps|
    ensures AllTakenInOrder(states + [b], steps, n + 1) ==
            (AllTakenInOrder(states, steps, n) && TakenInOrder(states[n], steps[n]))
  {
    var more := states + [b];
    assert forall k | 0 <= k <= n :: more[k] == states[k];
  }

  /** What holds after k steps does not depend on what comes later. */
  lemma HoldsStill(states: seq<State>, steps: seq<Step>, k: nat, otherPcb: seq<Option<nat>>, b: State)
    requires k <= |steps| && k < |states|
    ensures HoldsAfter(states + [b], steps, k, otherPcb) == HoldsAfter(states, steps, k, otherPcb)
  {
    var more := states + [b];
    assert forall i | 0 <= i <= k :: more[i] == states[i];
    assert AllHeardWhereUp(more, steps, k, otherPcb) == AllHeardWhereUp(states, steps, k, otherPcb);
    assert AllTakenInOrder(more, steps, k) == AllTakenInOrder(states, steps, k);
  }

  /** What holds after each of the first n steps. */
  ghost predicate HoldsThroughout(states: seq<State>, steps: seq<Step>, n: nat, otherPcb: seq<Option<nat>>)
    requires n <= |steps| && n < |states|
  {
    forall k | 0 <= k <= n :: HoldsAfter(states, steps, k, otherPcb)
  }

  lemma HoldsOneMore(states: seq<State>, steps: seq<Step>, n: nat, otherPcb: seq<Option<nat>>, b: State)
    requires |states| == n + 1 <= |steps| && HoldsThroughout(states, steps, n, otherPcb)
    requires HoldsAfter(states + [b], steps, n + 1, otherPcb)
    ensures HoldsThroughout(states + [b], steps, n + 1, otherPcb)
  {
    forall k | 0 <= k <= n
      ensures HoldsAfter(states + [b], steps, k, otherPcb)
    {
      HoldsStill(states, steps, k, otherPcb, b);
    }
  }

  /** What one more step adds to a run. */
  method Advance(r: Responder, ghost states: seq<State>, steps: seq<Step>, n: nat, ghost otherPcb: seq<Option<nat>>)
    returns (ghost more: seq<State>)
    requires OthersOk(otherPcb, |otherPcb|) && UnderWay(r, states, steps, n, otherPcb) && n < |steps|
    modifies r
    ensures more == states + [StateOf(r)] && UnderWay(r, more, steps, n + 1, otherPcb)
  {
    Perform(r, steps[n]);
    more := states + [StateOf(r)];
    OneMoreState(states, steps, n, otherPcb, StateOf(r));
    OneMoreHeard(states, steps, n, otherPcb, StateOf(r));
    OneMoreTaken(states, steps, n, StateOf(r));
  }

  /** A run under way, and what has held on the way. */
  ghost predicate Going(r: Responder, states: seq<State>, steps: seq<Step>, n: nat, otherPcb: seq<Option<nat>>)
    requires OthersOk(otherPcb, |otherPcb|)
    reads r
  {
    UnderWay(r, states, steps, n, otherPcb) && HoldsThroughout(states, steps, n, otherPcb)
  }

  /** The responder as it is set up. */
  method Begin(otherPcb: seq<Option<nat>>, ghost steps: seq<Step>) returns (r: Responder, ghost states: seq<State>)
    requires OthersOk(otherPcb, |otherPcb|)
    ensures fresh(r) && Going(r, states, steps, 0, otherPcb)
  {
    r := new Responder(otherPcb);
    states := [StateOf(r)];
    HoldsNow(r, states, steps, 0, otherPcb);
  }

  /** One more step of a run. */
  method Continue(r: Responder, ghost states: seq<State>, steps: seq<Step>, n: nat, ghost otherPcb: seq<Option<nat>>)
    returns (ghost more: seq<State>)
    requires OthersOk(otherPcb, |otherPcb|) && n < |steps| && Going(r, states, steps, n, otherPcb)
    modifies r
    ensures Going(r, more, steps, n + 1, otherPcb)
  {
    more := Advance(r, states, steps, n, otherPcb);
    HoldsNow(r, more, steps, n + 1, otherPcb);
    HoldsOneMore(states, steps, n, otherPcb, StateOf(r));
  }

  /** All steps, one after the other. */
  method PerformAll(r: Responder, ghost begin: seq<State>, steps: seq<Step>, ghost otherPcb: seq<Option<nat>>)
    returns (ghost states: seq<State>)
    requires OthersOk(otherPcb, |otherPcb|) && Going(r, begin, steps, 0, otherPcb)
    modifies r
    ensures Going(r, states, steps, |steps|, otherPcb)
  {
    states := begin;
    for n := 0 to |steps|
      invariant Going(r, states, steps, n, otherPcb)
    {
      states := Continue(r, states, steps, n, otherPcb);
    }
  }

  /**
    Any steps in any order, from the moment the responder is set up: what each
    of them does, and what holds after each.
   */
  method RunSteps(otherPcb: seq<Option<nat>>, steps: seq<Step>)
    returns (queue: seq<Packet>, pcbs: seq<Pcb>, services: seq<Service>, ghost states: seq<State>)
    requires OthersOk(otherPcb, |otherPcb|)
    ensures IsRun(states, steps, |steps|, otherPcb)
    ensures var last := states[|steps|];
            queue == last.queue && pcbs == last.pcbs && services == last.services
    ensures HoldsThroughout(states, steps, |steps|, otherPcb)
  {
    var r, begin := Begin(otherPcb, steps);
    states := PerformAll(r, begin, steps, otherPcb);
    queue, pcbs, services := r.queue, r.pcbs, r.services;
  }

  // ---- From probing to announcing -------------------------------------------

  /** A packet of this PCB announces these services and the address, and nothing else. */
  ghost predicate AnnouncementQueued(q: seq<Packet>, pcb: nat, services: seq<Service>, at: nat) {
    exists p :: p in q && p.pcb == pcb && p.sendAt == at && AnnouncesAll(p.answers, services, true)
  }

  /**
    The third probe of a PCB that is up has been sent, in any run: exactly what
    was probed is announced 250 ms later, and the address with it.
   */
  lemma ProbedIsAnnounced(a: State, b: State, otherPcb: seq<Option<nat>>)
    requires OthersOk(otherPcb, |a.pcbs|) && Always(a) && Follows(a, Transmit, b, otherPcb) && HeadIsMeant(a)
    requires a.queue[0].pcb < |a.pcbs| && a.pcbs[a.queue[0].pcb].state == Probe3 && a.pcbs[a.queue[0].pcb].ready
    ensures var i := a.queue[0].pcb;
            && |b.pcbs| == |a.pcbs| && b.pcbs[i] == Pcb(Announce1, [], false, false, 0, true)
            && AnnouncementQueued(b.queue, i, a.pcbs[i].probeServices, a.now + 250)
  {
    var i := a.queue[0].pcb;
    var p := a.pcbs[i];
    var next :| HeadSent(a.queue, b.queue, a.pcbs, b.pcbs, a.history, b.history, next, a.now);
    assert ProbesAlone(p, Of(a.queue, i), PhaseOf(a.history, i));
    OfTail(a.queue);
    assert Of(a.queue, i)[0] == a.queue[0];
    WhatIsAnnounced(a.queue[0], p.probeServices, p.probeIp, next.value.answers);
    InsertMembers(a.queue[1..], next.value);
  }
}
