/**
  Where the responder does not do what it is meant to do: runs that show it, and
  what holds from there on.
 */
module MdnsLimits {
  import opened Bytes
  import opened MdnsTxQueue
  import opened MdnsProbe
  import opened MdnsPurge
  import opened MdnsRecords
  import opened MdnsSchedule
  import opened MdnsResponder
  import opened MdnsRuns

  // ---- A conflict noticed on a PCB that is not up ---------------------------

  /** A responder with a host name, and one PCB, which is off. */
  method OneDown() returns (r: Responder)
    ensures fresh(r) && r.Valid() && r.services == [] && r.hostnameSet && r.pcbs == [OFF_PCB] && r.otherPcb == [None]
    ensures Marks(r.history) == [] && r.clean
  {
    r := new Responder([None]);
    assert r.pcbs[0] == OFF_PCB;
    r.HostnameSet(0);
    assert Probed(OFF_PCB, r.pcbs[0], Of([], 0), Of(r.queue, 0), r.now, Order(true, r.services, true, true));
  }

  /** A service is registered, and a conflict for it is noticed on the PCB. */
  method ConflictWhereDown(s: Service) returns (r: Responder)
    ensures fresh(r) && r.Valid() && !r.clean && r.services == [s] && r.hostnameSet && |r.pcbs| == 1
    ensures !r.pcbs[0].ready && r.pcbs[0].state == Probe1 && r.pcbs[0].probeServices == [s] && r.otherPcb == [None]
  {
    r := OneDown();
    ghost var q := r.queue;
    r.AddService(s, 0);
    assert Probed(OFF_PCB, r.pcbs[0], Of(q, 0), Of(r.queue, 0), r.now, Order(true, [s], false, false));
    r.ProbeOnPcb(0, [s], false, 0);
    assert Fine(0, r.queue, r.pcbs, r.services, r.hostnameSet, r.clean, r.history);
    OnlyElement(r.pcbs[0].probeServices, s);
  }

  /** The service is removed, but the PCB goes on probing it. */
  method RemovedButProbed(s: Service) returns (pcbs: seq<Pcb>, services: seq<Service>)
    ensures services == [] && |pcbs| == 1 && !pcbs[0].ready && s in pcbs[0].probeServices
  {
    var r := ConflictWhereDown(s);
    r.RemoveService(0);
    pcbs, services := r.pcbs, r.services;
  }

  /**
    Disabled and enabled again, the PCB copies the old list behind the end of an
    array that was made for the new one.
   */
  method CopiedTooFar(s: Service) returns (pcbs: seq<Pcb>, ghost history: seq<Event>)
    ensures |pcbs| == 1 && pcbs[0].ready && pcbs[0].state == Probe1 && Overrun(0) in Marks(history)
  {
    var r := ConflictWhereDown(s);
    r.DisablePcb(0, true, 0);
    r.EnablePcb(0, true, 0);
    pcbs, history := r.pcbs, r.history;
  }

  /** Enabling a PCB copies a list too far exactly if the PCB is off, has a list left and there are services. */
  lemma WhenCopiedTooFar(i: nat, p: Pcb, initOk: bool, hostnameSet: bool, services: seq<Service>, mine: seq<Packet>,
                         phase: Phase)
    requires Consistent(p, mine, hostnameSet, phase)
    ensures EnableMarks(i, p, initOk, hostnameSet, services) != [] <==>
              p.state == Off && p.probeServices != [] && initOk && services != []
  {
  }

  // ---- A restart of the services without a name -----------------------------

  /** A PCB that is up, with two services being probed. */
  method TwoServices(named: Service, unnamed: Service) returns (r: Responder)
    requires named != unnamed
    ensures fresh(r) && r.Valid() && r.services == [unnamed, named] && r.hostnameSet && |r.pcbs| == 1 && r.pcbs[0].ready
    ensures named in r.pcbs[0].probeServices
  {
    r := OneDown();
    r.EnablePcb(0, true, 0);
    r.AddService(named, 0);
    ghost var ps, q := r.pcbs, r.queue;
    r.AddService(unnamed, 0);
    assert Probed(ps[0], r.pcbs[0], Of(q, 0), Of(r.queue, 0), r.now, Order(true, [unnamed], false, false));
  }

  /**
    A service with a name is being probed when the services without one are
    restarted: it stays registered, but is not probed any more.
   */
  method NamedServiceDropped(named: Service, unnamed: Service) returns (pcbs: seq<Pcb>, services: seq<Service>)
    requires named != unnamed
    ensures named in services && |pcbs| == 1 && pcbs[0].state == Probe1 && pcbs[0].probeServices == [unnamed]
  {
    var r := TwoServices(named, unnamed);
    ghost var ps, q := r.pcbs, r.queue;
    r.RestartNoInstance([unnamed], 0);
    assert Probed(ps[0], r.pcbs[0], Of(q, 0), Of(r.queue, 0), r.now, Order(true, [unnamed], false, true));
    assert Fine(0, r.queue, r.pcbs, r.services, r.hostnameSet, r.clean, r.history);
    OnlyElement(r.pcbs[0].probeServices, unnamed);
    pcbs, services := r.pcbs, r.services;
  }

  /** Exactly the services that were being probed and have a name of their own are dropped. */
  lemma DroppedByRestart(before: Pcb, after: Pcb, was: seq<Packet>, mine: seq<Packet>, now: nat,
                         unnamed: seq<Service>, s: Service)
    requires Probed(before, after, was, mine, now, Order(true, unnamed, false, true))
    requires before.ready && s in before.probeServices
    ensures s !in after.probeServices <==> s !in unnamed
  {
  }

  // ---- A packet that is marked but will not be sent -------------------------

  /** The head of the queue is marked, but no transmission is pending for it. */
  ghost predicate Blocked(a: State) {
    && a.queue != [] && IdsDistinct(a.queue)
    && a.queue[0].queued && a.queue[0].sendAt < a.now && a.queue[0].id !in a.actions
  }

  lemma {:induction false} TakenElsewhere(q: seq<Packet>, lo: nat, hi: nat, accepts: nat -> bool, id: nat)
    requires lo <= hi <= |q| && forall k | lo <= k < hi :: q[k].id != id
    ensures id !in Taken(q, lo, hi, accepts)
    decreases hi
  {
    if lo < hi {
      TakenElsewhere(q, lo, hi - 1, accepts, id);
    }
  }

  lemma BlockedByScheduler(a: State, b: State, accepts: nat -> bool, otherPcb: seq<Option<nat>>)
    requires Blocked(a) && TrafficFollows(a, RunScheduler(accepts), b, otherPcb)
    ensures Blocked(b)
  {
    var lo := FirstUnmarked(a.queue, 0);
    var hi := DueEnd(a.queue, lo, a.now);
    assert lo > 0;
    TakenElsewhere(a.queue, lo, hi, accepts, a.queue[0].id);
  }

  lemma BlockedByReply(a: State, b: State, packet: Packet, at: nat)
    requires Blocked(a) && Replied(a.queue, b.queue, packet, at) && at >= a.now && b == a.(queue := b.queue)
    ensures Blocked(b)
  {
    var id: nat :|
      && b.queue == Insert(a.queue, packet.(id := id, queued := false, sendAt := at))
      && forall x | x in a.queue :: x.id != id;
    InsertIds(a.queue, packet.(id := id, queued := false, sendAt := at));
  }

  lemma BlockedBySuppression(a: State, b: State, pcb: nat, answer: Answer, otherPcb: seq<Option<nat>>)
    requires Blocked(a) && TrafficFollows(a, Suppress(pcb, answer), b, otherPcb)
    ensures Blocked(b)
  {
    assert forall k | 0 <= k < |a.queue| :: b.queue[k] == SuppressedOne(a.queue[k], pcb, answer);
  }

  /** The transmission that is next is for another packet. */
  lemma BlockedByTransmission(a: State, b: State, otherPcb: seq<Option<nat>>)
    requires Blocked(a) && Possible(a, Transmit, otherPcb) && TrafficFollows(a, Transmit, b, otherPcb)
    ensures Blocked(b) && b == a.(actions := a.actions[1..])
  {
    assert a.actions[0] in a.actions;
  }

  /** No run of the timer, no transmission, no reply and no time that passes changes that. */
  lemma StaysBlocked(a: State, step: Step, b: State, otherPcb: seq<Option<nat>>)
    requires OthersOk(otherPcb, |a.pcbs|) && Follows(a, step, b, otherPcb) && Blocked(a) && IsTraffic(step)
    ensures Blocked(b) && Marks(b.history) == Marks(a.history) && |b.pcbs| == |a.pcbs|
  {
    if Possible(a, step, otherPcb) {
      match step
      case RunScheduler(accepts) => BlockedByScheduler(a, b, accepts, otherPcb);
      case Reply(packet, delay) =>
        if MayReply(a.pcbs[packet.pcb].state) {
          BlockedByReply(a, b, packet, a.now + delay);
        }
      case Suppress(pcb, answer) => BlockedBySuppression(a, b, pcb, answer, otherPcb);
      case Transmit => BlockedByTransmission(a, b, otherPcb);
      case Wait(_) =>
    }
  }

  /** However long it goes on like this, nothing is transmitted on any PCB. */
  lemma {:induction false} BlockedForGood(states: seq<State>, steps: seq<Step>, otherPcb: seq<Option<nat>>)
    requires |states| == |steps| + 1 && OthersOk(otherPcb, |states[0].pcbs|) && Blocked(states[0])
    requires forall k | 0 <= k <= |steps| :: |states[k].pcbs| == |states[0].pcbs|
    requires forall k | 0 <= k < |steps| :: IsTraffic(steps[k]) && Follows(states[k], steps[k], states[k + 1], otherPcb)
    ensures Blocked(states[|steps|]) && Marks(states[|steps|].history) == Marks(states[0].history)
    decreases |steps|
  {
    if steps != [] {
      var n := |steps| - 1;
      BlockedForGood(states[..n + 1], steps[..n], otherPcb);
      StaysBlocked(states[n], steps[n], states[n + 1], otherPcb);
    }
  }

  /** Two PCBs that have just started to probe: two packets are queued, none of them marked. */
  method TwoProbing() returns (r: Responder)
    ensures fresh(r) && r.Valid() && |r.pcbs| == 2 && r.otherPcb == [None, None] && r.actions == [] && |r.queue| == 2
    ensures r.queue[0].pcb != r.queue[1].pcb && r.queue[0].pcb < 2 && NoneMarked(r.queue)
    ensures r.pcbs[0].ready && r.pcbs[1].ready
  {
    r := new Responder([None, None]);
    r.HostnameSet(0);
    r.EnablePcb(0, true, 0);
    r.EnablePcb(1, true, 0);
    assert Fine(0, r.queue, r.pcbs, r.services, r.hostnameSet, r.clean, r.history);
    assert Fine(1, r.queue, r.pcbs, r.services, r.hostnameSet, r.clean, r.history);
    TwoPackets(r.queue, r.Around());
  }

  lemma {:induction false} AllOfTwo(q: seq<Packet>)
    requires forall p | p in q :: p.pcb < 2
    ensures |q| == |Of(q, 0)| + |Of(q, 1)|
  {
    if q != [] {
      AllOfTwo(q[1..]);
      assert q[0] in q;
    }
  }

  lemma TwoPackets(q: seq<Packet>, e: Setting)
    requires QueueOk(q, e) && e.pcbs == 2 && |Of(q, 0)| == |Of(q, 1)| == 1 && e.orderly && e.actions == []
    ensures |q| == 2 && q[0].pcb != q[1].pcb && q[0].pcb < 2 && NoneMarked(q)
  {
    assert forall p | p in q :: PacketFits(p, e);
    AllOfTwo(q);
    assert PacketFits(q[0], e) && PacketFits(q[1], e);
    var t := q[1..];
    assert t == [q[1]];
    assert Of(t, q[1].pcb) == [q[1]] + Of(t[1..], q[1].pcb);
    assert forall j: nat :: Of(q, j) == (if q[0].pcb == j then [q[0]] else []) + Of(t, j);
  }

  lemma PassOverTwo(q: seq<Packet>, now: nat, accepts: nat -> bool)
    requires |q| == 2 && NoneMarked(q) && q[0].sendAt < now && q[1].sendAt < now && !accepts(0) && accepts(1)
    ensures FirstUnmarked(q, 0) == 0 && DueEnd(q, 0, now) == 2 && !InOrder(0, 2, accepts)
    ensures Offered(q, 0, 2, accepts) == [q[0], q[1].(queued := true)] && Taken(q, 0, 2, accepts) == [q[1].id]
  {
    assert q[0] in q && q[1] in q;
    assert DueEnd(q, 1, now) == DueEnd(q, 2, now) == 2;
    assert Taken(q, 0, 1, accepts) == Taken(q, 0, 0, accepts) + [] == [];
    assert Taken(q, 0, 2, accepts) == Taken(q, 0, 1, accepts) + [q[1].id];
  }

  /** The action queue refuses the first packet and takes the second. */
  method SecondTaken() returns (r: Responder)
    ensures fresh(r) && r.Valid() && !r.orderly && |r.pcbs| == 2 && r.otherPcb == [None, None]
    ensures |r.queue| == 2 && !r.queue[0].queued && r.queue[1].queued && r.actions == [r.queue[1].id]
    ensures r.queue[0].pcb != r.queue[1].pcb && r.queue[0].pcb < 2 && r.pcbs[0].ready && r.pcbs[1].ready
  {
    r := TwoProbing();
    r.Tick(r.queue[0].sendAt + r.queue[1].sendAt + 1);
    assert r.queue[0] in r.queue;
    PassOverTwo(r.queue, r.now, k => k == 1);
    r.SchedulerRun(k => k == 1);
  }

  lemma OneLeft(q: seq<Packet>, r: seq<Packet>, e: Setting)
    requires QueueOk(q, e) && e.pcbs == 2 && |q| == 2 && q[0].pcb != q[1].pcb && q[0].pcb < 2
    requires QueueOk(r, e) && Of(r, q[0].pcb) == [] && Of(r, q[1].pcb) == Of(q, q[1].pcb)
    ensures r == [q[1]]
  {
    assert forall p | p in r :: PacketFits(p, e);
    assert PacketFits(q[1], e);
    var t := q[1..];
    assert t == [q[1]] && t[1..] == [];
    assert Of(t, q[1].pcb) == [q[1]] + Of([], q[1].pcb) == [q[1]];
    assert Of(q, q[1].pcb) == [] + Of(t, q[1].pcb);
    AllOfTwo(r);
    assert |r| == 1 && r == [r[0]];
    assert PacketFits(r[0], e);
    OfMembers(r, q[0].pcb);
    OfMembers(r, q[1].pcb);
    assert r[0] in r && r[0] in Of(r, r[0].pcb);
  }

  /**
    The transmission of the second packet is skipped, as it is not the first;
    then the PCB of the first is disabled.
   */
  method RefusedThenTaken() returns (r: Responder)
    ensures fresh(r) && r.Valid() && !r.orderly && Blocked(StateOf(r))
  {
    r := SecondTaken();
    var next := r.ExecuteTxHandle();
    ghost var q, second := r.queue, r.queue[1];
    assert second in q && PacketFits(second, r.Around());
    r.DisablePcb(r.queue[0].pcb, true, 0);
    OneLeft(q, r.queue, r.Around());
  }
}
