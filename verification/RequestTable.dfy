/** The table of requests to the inverter: adding, sending with retries, acknowledging, removing. */
module RequestTable {
  import opened Bytes

  const INT32_MAX: int := 0x7FFF_FFFF
  const EXP_RSP_INVALID: nat := 0xFFFF
  const RESPONSE_DELAY_MS: nat := 100

  /** An allocated payload. */
  datatype Block = Block(id: nat, bytes: seq<uint8>)

  datatype Slot = Slot(
    payload: Option<Block>, rqId: nat, timeout: nat, sinceLastSent: int, retries: nat,
    maxRetries: nat, payloadLen: nat, active: bool, periodic: bool)

  const EMPTY_SLOT := Slot(None, 0, 0, 0, 0, 0, 0, false, false)

  /** What a slot looks like at all times; widths are those of the C struct. */
  predicate SlotOk(s: Slot) {
    && (s.active <==> s.payload.Some?)
    && (s.active ==> s.payloadLen == |s.payload.value.bytes| % 0x100 > 0)
    && s.timeout < U16 && s.retries < 0x100 && s.maxRetries < 0x100
    && (s.active ==> s.retries <= if s.periodic then 2 else s.maxRetries)
    && (s.periodic ==> s.maxRetries == 0)
  }

  /** What became of a request: its retry limit, if it is sent once, and how often it was sent. */
  datatype Job = Job(limit: Option<nat>, sent: nat)

  predicate WithinLimit(j: Job) {
    j.limit.Some? && j.limit.value < 255 ==> j.sent <= j.limit.value + 1
  }

  predicate JobOf(s: Slot, jobs: map<nat, Job>) {
    s.payload.Some? ==>
      && s.payload.value.id in jobs
      && jobs[s.payload.value.id].limit == (if s.periodic then None else Some(s.maxRetries))
      && (!s.periodic && s.maxRetries < 255 ==> jobs[s.payload.value.id].sent == s.retries)
  }

  /** The payloads that are allocated are exactly those in the table, each in one slot. */
  ghost predicate Owned(slots: seq<Slot>, live: set<nat>) {
    && (forall i | 0 <= i < |slots| && slots[i].payload.Some? :: slots[i].payload.value.id in live)
    && (forall i, j | 0 <= i < j < |slots| && slots[i].payload.Some? && slots[j].payload.Some? ::
          slots[i].payload.value.id != slots[j].payload.value.id)
    && (forall id | id in live ::
          exists i :: 0 <= i < |slots| && slots[i].payload.Some? && slots[i].payload.value.id == id)
  }

  ghost predicate TableOk(slots: seq<Slot>, live: set<nat>, jobs: map<nat, Job>, nextId: nat) {
    && (forall i | 0 <= i < |slots| :: SlotOk(slots[i]))
    && (forall i | 0 <= i < |slots| :: JobOf(slots[i], jobs))
    && Owned(slots, live)
    && (forall id | id in jobs :: id < nextId && WithinLimit(jobs[id]))
    && (forall id | id in live :: id in jobs)
  }

  // ---- Changing one slot ----------------------------------------------------

  lemma OwnedAfterKeep(slots: seq<Slot>, live: set<nat>, i: nat, s: Slot)
    requires Owned(slots, live) && i < |slots| && s.payload == slots[i].payload
    ensures Owned(slots[i := s], live)
  {
    var now := slots[i := s];
    assert forall k | 0 <= k < |slots| :: now[k].payload == slots[k].payload;
    forall id | id in live
      ensures exists k :: 0 <= k < |now| && now[k].payload.Some? && now[k].payload.value.id == id
    {
      var k :| 0 <= k < |slots| && slots[k].payload.Some? && slots[k].payload.value.id == id;
      assert now[k].payload == slots[k].payload;
    }
  }

  lemma OwnedAfterFree(slots: seq<Slot>, live: set<nat>, i: nat, s: Slot)
    requires Owned(slots, live) && i < |slots| && slots[i].payload.Some? && s.payload.None?
    ensures Owned(slots[i := s], live - {slots[i].payload.value.id})
  {
    var now := slots[i := s];
    assert forall k | 0 <= k < |slots| && k != i :: now[k].payload == slots[k].payload;
    forall id | id in live - {slots[i].payload.value.id}
      ensures exists k :: 0 <= k < |now| && now[k].payload.Some? && now[k].payload.value.id == id
    {
      var k :| 0 <= k < |slots| && slots[k].payload.Some? && slots[k].payload.value.id == id;
      assert now[k].payload == slots[k].payload;
    }
  }

  lemma OwnedAfterAlloc(slots: seq<Slot>, live: set<nat>, i: nat, s: Slot, id: nat)
    requires Owned(slots, live) && i < |slots| && slots[i].payload.None?
    requires s.payload.Some? && s.payload.value.id == id && id !in live
    ensures Owned(slots[i := s], live + {id})
  {
    var now := slots[i := s];
    assert forall k | 0 <= k < |slots| && k != i :: now[k].payload == slots[k].payload;
    forall d | d in live + {id}
      ensures exists k :: 0 <= k < |now| && now[k].payload.Some? && now[k].payload.value.id == d
    {
      if d == id {
        assert now[i].payload == s.payload;
      } else {
        var k :| 0 <= k < |slots| && slots[k].payload.Some? && slots[k].payload.value.id == d;
        assert now[k].payload == slots[k].payload;
      }
    }
  }

  /** A slot that is rewritten without touching its payload. */
  lemma TableAfterKeep(slots: seq<Slot>, live: set<nat>, jobs: map<nat, Job>, nextId: nat, i: nat, s: Slot)
    requires TableOk(slots, live, jobs, nextId) && i < |slots|
    requires s.payload == slots[i].payload && SlotOk(s) && JobOf(s, jobs)
    ensures TableOk(slots[i := s], live, jobs, nextId)
  {
    OwnedAfterKeep(slots, live, i, s);
  }

  /** A slot that gives up its payload. */
  lemma TableAfterFree(slots: seq<Slot>, live: set<nat>, jobs: map<nat, Job>, nextId: nat, i: nat, s: Slot)
    requires TableOk(slots, live, jobs, nextId) && i < |slots|
    requires slots[i].payload.Some? && s.payload.None? && SlotOk(s)
    ensures TableOk(slots[i := s], live - {slots[i].payload.value.id}, jobs, nextId)
  {
    OwnedAfterFree(slots, live, i, s);
  }

  /** A slot that gets a new payload. */
  lemma TableAfterAlloc(slots: seq<Slot>, live: set<nat>, jobs: map<nat, Job>, nextId: nat, i: nat, s: Slot)
    requires TableOk(slots, live, jobs, nextId) && i < |slots|
    requires slots[i].payload.None? && s.payload.Some? && s.payload.value.id == nextId && SlotOk(s) && s.retries == 0
    ensures var job := Job(if s.periodic then None else Some(s.maxRetries), 0);
            TableOk(slots[i := s], live + {nextId}, jobs[nextId := job], nextId + 1)
  {
    var job := Job(if s.periodic then None else Some(s.maxRetries), 0);
    assert nextId !in jobs;
    OwnedAfterAlloc(slots, live, i, s, nextId);
    var now, later := slots[i := s], jobs[nextId := job];
    forall k | 0 <= k < |now|
      ensures SlotOk(now[k]) && JobOf(now[k], later)
    {
      if k != i {
        assert now[k] == slots[k] && JobOf(slots[k], jobs);
      }
    }
  }

  function CountSend(jobs: map<nat, Job>, id: nat): map<nat, Job>
    requires id in jobs
  {
    jobs[id := jobs[id].(sent := jobs[id].sent + 1)]
  }

  lemma OtherJobsKept(slots: seq<Slot>, live: set<nat>, jobs: map<nat, Job>, i: nat, k: nat)
    requires Owned(slots, live) && i < |slots| && slots[i].payload.Some? && slots[i].payload.value.id in jobs
    requires k < |slots| && k != i && JobOf(slots[k], jobs)
    ensures JobOf(slots[k], CountSend(jobs, slots[i].payload.value.id))
  {
  }

  /** The payload in slot i is sent once more and kept. */
  lemma TableAfterSend(slots: seq<Slot>, live: set<nat>, jobs: map<nat, Job>, nextId: nat, i: nat, s: Slot)
    requires TableOk(slots, live, jobs, nextId) && i < |slots| && slots[i].payload.Some?
    requires SlotOk(s) && s.payload == slots[i].payload && s.periodic == slots[i].periodic
             && s.maxRetries == slots[i].maxRetries
    requires !s.periodic && s.maxRetries < 255 ==> s.retries == slots[i].retries + 1
    ensures slots[i].payload.value.id in jobs
    ensures TableOk(slots[i := s], live, CountSend(jobs, slots[i].payload.value.id), nextId)
  {
    assert JobOf(slots[i], jobs);
    var id := slots[i].payload.value.id;
    var now, later := slots[i := s], CountSend(jobs, id);
    OwnedAfterKeep(slots, live, i, s);
    forall k | 0 <= k < |now|
      ensures SlotOk(now[k]) && JobOf(now[k], later)
    {
      if k != i {
        assert SlotOk(slots[k]) && JobOf(slots[k], jobs);
        OtherJobsKept(slots, live, jobs, i, k);
      }
    }
  }

  /** The payload in slot i is sent once more and then given up. */
  lemma TableAfterLastSend(slots: seq<Slot>, live: set<nat>, jobs: map<nat, Job>, nextId: nat, i: nat, s: Slot)
    requires TableOk(slots, live, jobs, nextId) && i < |slots| && slots[i].payload.Some? && !slots[i].periodic
    requires SlotOk(s) && s.payload.None?
    ensures slots[i].payload.value.id in jobs
    ensures TableOk(slots[i := s], live - {slots[i].payload.value.id}, CountSend(jobs, slots[i].payload.value.id),
                    nextId)
  {
    assert JobOf(slots[i], jobs) && SlotOk(slots[i]);
    var id := slots[i].payload.value.id;
    var now, later := slots[i := s], CountSend(jobs, id);
    OwnedAfterFree(slots, live, i, s);
    forall k | 0 <= k < |now|
      ensures SlotOk(now[k]) && JobOf(now[k], later)
    {
      if k != i {
        assert SlotOk(slots[k]) && JobOf(slots[k], jobs);
        OtherJobsKept(slots, live, jobs, i, k);
      }
    }
  }

  // ---- What the operations do to slots --------------------------------------

  /** uint32_t arithmetic stored in an int32_t. */
  function ToInt32(x: int): (r: int)
    requires -0x8000_0000 <= x < U32
    ensures -0x8000_0000 <= r <= INT32_MAX && (r == x || r == x - U32)
  {
    if x > INT32_MAX then x - U32 else x
  }

  function NewSlot(b: Block, rqId: nat, timeout: nat, offset: nat, retries: nat, periodic: bool): Slot
    requires timeout < U32 && offset <= 0x8000_0000
  {
    Slot(Some(b), rqId, timeout % U16, ToInt32(timeout - offset), 0, retries, |b.bytes| % 0x100, true, periodic)
  }

  function Deactivated(s: Slot): Slot {
    s.(active := false, payload := None)
  }

  /** How long a request may still wait. */
  function Delay(s: Slot): int {
    s.timeout - s.sinceLastSent
  }

  /** The smallest delay of the first n slots, INT32_MAX if there is none. */
  function Earliest(slots: seq<Slot>, n: nat): int
    requires n <= |slots|
  {
    if n == 0 then INT32_MAX
    else
      var e := Earliest(slots, n - 1);
      if slots[n - 1].active && Delay(slots[n - 1]) < e then Delay(slots[n - 1]) else e
  }

  lemma {:induction false} EarliestIsLeast(slots: seq<Slot>, n: nat, k: nat)
    requires k < n <= |slots| && slots[k].active
    ensures Earliest(slots, n) <= Delay(slots[k])
  {
    if k < n - 1 {
      EarliestIsLeast(slots, n - 1, k);
    }
  }

  predicate WaitsFor(s: Slot, delay: int) {
    s.active && Delay(s) == delay
  }

  /** The first of the requests that may wait so long. */
  function FirstAt(slots: seq<Slot>, delay: int): (i: nat)
    ensures i <= |slots| && (i < |slots| ==> WaitsFor(slots[i], delay))
    ensures forall k | 0 <= k < i :: !WaitsFor(slots[k], delay)
  {
    if slots == [] || WaitsFor(slots[0], delay) then 0 else 1 + FirstAt(slots[1..], delay)
  }

  /** The first of the requests that may wait least. */
  function FirstDue(slots: seq<Slot>): (i: nat)
    ensures i <= |slots|
  {
    FirstAt(slots, Earliest(slots, |slots|))
  }

  lemma FirstDueIs(slots: seq<Slot>, i: nat)
    requires i < |slots| && slots[i].active && Delay(slots[i]) == Earliest(slots, |slots|)
    requires forall k | 0 <= k < i && slots[k].active :: Delay(slots[k]) > Delay(slots[i])
    ensures FirstDue(slots) == i
  {
    assert WaitsFor(slots[i], Earliest(slots, |slots|));
  }

  /** A slot after its payload has been sent. */
  function AfterSend(s: Slot): Slot {
    var retries := (s.retries + 1) % 0x100;
    if !s.periodic then
      if retries > s.maxRetries then Deactivated(s.(sinceLastSent := 0, retries := 0))
      else s.(sinceLastSent := 0, retries := retries)
    else if retries > 2 then s.(sinceLastSent := 0, retries := 0)
    else s.(sinceLastSent := s.sinceLastSent - RESPONSE_DELAY_MS, retries := retries)
  }

  function Wait(s: Slot, delay: int): Slot {
    if s.active then s.(sinceLastSent := s.sinceLastSent + delay) else s
  }

  /** A slot after a response to its request. */
  function Acked(s: Slot): Slot {
    var t := s.(sinceLastSent := 0, retries := 0);
    if s.maxRetries > 0 then Deactivated(t) else t
  }

  predicate Awaits(s: Slot, rqId: nat) {
    s.active && s.rqId == rqId
  }

  function FirstAwaiting(slots: seq<Slot>, rqId: nat): (i: nat)
    ensures i <= |slots| && (i < |slots| ==> Awaits(slots[i], rqId))
    ensures forall k | 0 <= k < i :: !Awaits(slots[k], rqId)
  {
    if slots == [] || Awaits(slots[0], rqId) then 0 else 1 + FirstAwaiting(slots[1..], rqId)
  }

  /** The slots after a response to a request of this kind. */
  function Settled(slots: seq<Slot>, rqId: nat): (r: seq<Slot>)
    ensures |r| == |slots|
  {
    var i := FirstAwaiting(slots, rqId);
    if i == |slots| then slots else slots[i := Acked(slots[i])]
  }

  /** Comparing with an unsigned delay: negative values count as large ones. */
  function NextTimer(next: int): int {
    if 0 <= next < RESPONSE_DELAY_MS then RESPONSE_DELAY_MS else next
  }

  /** Whether payloads of up to n bytes become messages whose length does not show as zero in a byte. */
  ghost predicate LengthsFit(serialize: seq<uint8> -> seq<uint8>, n: nat) {
    forall payload | |payload| <= n :: |serialize(payload)| % 0x100 > 0
  }

  class Client {
    const slots: array<Slot>
    const serialize: seq<uint8> -> seq<uint8>
    const maxPacketLen: nat
    var lastRqId: nat
    var timer: Option<int>
    var nextId: nat
    ghost var live: set<nat>
    ghost var jobs: map<nat, Job>

    ghost predicate Valid()
      reads this, slots
    {
      slots.Length < 0x100 && TableOk(slots[..], live, jobs, nextId)
    }

    constructor (maxRqs: nat, maxPacketLen: nat, serialize: seq<uint8> -> seq<uint8>)
      requires maxRqs < 0x100
      ensures Valid() && lastRqId == EXP_RSP_INVALID && jobs == map[] && slots.Length == maxRqs && fresh(slots)
      ensures this.serialize == serialize && this.maxPacketLen == maxPacketLen
      ensures forall k | 0 <= k < slots.Length :: slots[k] == EMPTY_SLOT
    {
      slots := new Slot[maxRqs](i => EMPTY_SLOT);
      this.serialize, this.maxPacketLen := serialize, maxPacketLen;
      lastRqId, timer := EXP_RSP_INVALID, None;
      live, jobs, nextId := {}, map[], 0;
      new;
    }

    /** free: the precondition is that the block is still allocated. */
    ghost method Free(b: Block)
      requires b.id in live
      modifies this`live
      ensures live == old(live) - {b.id}
    {
      live := live - {b.id};
    }

    method FindFree() returns (idx: nat)
      ensures idx <= slots.Length
      ensures forall k | 0 <= k < idx :: slots[k].active
      ensures idx < slots.Length ==> !slots[idx].active
    {
      idx := 0;
      while idx < slots.Length && slots[idx].active
        invariant idx <= slots.Length
        invariant forall k | 0 <= k < idx :: slots[k].active
      {
        idx := idx + 1;
      }
    }

    method StartTimer(duration: int, err: int)
      modifies this`timer
      ensures timer == if err == 0 then Some(duration) else old(timer)
    {
      if err == 0 {
        timer := Some(duration);
      }
    }

    /** The assignments that add_rq and add_periodic_rq share. */
    method Fill(idx: nat, rqId: nat, payload: seq<uint8>, timeout: nat, offset: nat, retries: nat, periodic: bool)
      requires Valid() && idx < slots.Length && !slots[idx].active
      requires timeout < U32 && offset <= 0x8000_0000 && retries < 0x100 && |serialize(payload)| % 0x100 > 0
      modifies this`live, this`jobs, this`nextId, slots
      requires periodic ==> retries == 0
      ensures Valid() && nextId == old(nextId) + 1
      ensures slots[..] == old(slots[..])[idx := NewSlot(Block(old(nextId), serialize(payload)), rqId, timeout,
                                                         offset, retries, periodic)]
      ensures jobs == old(jobs)[old(nextId) := Job(if periodic then None else Some(retries), 0)]
    {
      ghost var was := slots[..];
      assert SlotOk(was[idx]);
      assert slots[idx].payload == None;
      var bytes := serialize(payload);
      var s := slots[idx].(payload := Some(Block(nextId, bytes)));
      s := s.(rqId := rqId, payloadLen := |bytes| % 0x100, timeout := timeout % U16);
      s := s.(sinceLastSent := ToInt32(timeout - offset), active := true, retries := 0);
      s := s.(maxRetries := retries, periodic := periodic);
      slots[idx] := s;
      TableAfterAlloc(was, live, jobs, nextId, idx, s);
      live := live + {nextId};
      jobs := jobs[nextId := Job(if periodic then None else Some(retries), 0)];
      nextId := nextId + 1;
      assert slots[..] == was[idx := s];
    }

    /** add_rq; -1: no free slot, -2: no memory, -3: no timer. */
    method AddRq(rqId: nat, payload: seq<uint8>, timeout: nat, retries: nat, gotMemory: bool, timerErr: int)
      returns (r: int)
      requires Valid() && LengthsFit(serialize, maxPacketLen) && |payload| <= maxPacketLen
      requires timeout < U32 && retries < 0x100
      modifies this`live, this`jobs, this`nextId, this`timer, slots
      ensures Valid()
      ensures r == -1 <==> forall k | 0 <= k < slots.Length :: old(slots[k]).active
      ensures r == -2 <==> r != -1 && !gotMemory
      ensures r in {-1, -2} ==> slots[..] == old(slots[..]) && jobs == old(jobs) && timer == old(timer)
      ensures nextId == old(nextId) + if r in {-1, -2} then 0 else 1
      ensures r !in {-1, -2} ==> exists idx: nat | idx < slots.Length ::
                && !old(slots[idx]).active && (forall k | 0 <= k < idx :: old(slots[k]).active)
                && slots[..] == old(slots[..])[idx := slots[idx]]
                && slots[idx] == Slot(Some(Block(old(nextId), serialize(payload))), rqId, timeout % 0x1_0000,
                                      ToInt32(timeout - idx * 100), 0, retries, |serialize(payload)| % 0x100, true,
                                      false)
                && jobs == old(jobs)[old(nextId) := Job(Some(retries), 0)]
                && timer == (if timerErr == 0 then Some(2000) else old(timer))
                && r == if timerErr == 0 then idx else -3
    {
      var idx := FindFree();
      if idx >= slots.Length {
        return -1;
      }
      assert !old(slots[idx]).active;
      if !gotMemory {
        return -2;
      }
      Fill(idx, rqId, payload, timeout, idx * 100, retries, false);
      StartTimer(2000, timerErr);
      r := if timerErr == 0 then idx else -3;
    }

    /** add_periodic_rq */
    method AddPeriodicRq(rqId: nat, payload: seq<uint8>, period: nat, gotMemory: bool, timerErr: int) returns (r: int)
      requires Valid() && LengthsFit(serialize, maxPacketLen) && |payload| <= maxPacketLen
      requires 1 < period < U32
      modifies this`live, this`jobs, this`nextId, this`timer, slots
      ensures Valid()
      ensures r == -1 <==> forall k | 0 <= k < slots.Length :: old(slots[k]).active
      ensures r == -2 <==> r != -1 && !gotMemory
      ensures r in {-1, -2} ==> slots[..] == old(slots[..]) && jobs == old(jobs) && timer == old(timer)
      ensures nextId == old(nextId) + if r in {-1, -2} then 0 else 1
      ensures r !in {-1, -2} ==> exists idx: nat | idx < slots.Length ::
                && !old(slots[idx]).active && (forall k | 0 <= k < idx :: old(slots[k]).active)
                && slots[..] == old(slots[..])[idx := slots[idx]]
                && slots[idx] == Slot(Some(Block(old(nextId), serialize(payload))), rqId, period % 0x1_0000,
                                      ToInt32(period - (idx + 1) * 500), 0, 0, |serialize(payload)| % 0x100, true,
                                      true)
                && jobs == old(jobs)[old(nextId) := Job(None, 0)]
                && timer == (if timerErr == 0 then Some(2000) else old(timer))
                && r == if timerErr == 0 then idx else -3
    {
      var idx := FindFree();
      if idx >= slots.Length {
        return -1;
      }
      assert !old(slots[idx]).active;
      if !gotMemory {
        return -2;
      }
      Fill(idx, rqId, payload, period, (idx + 1) * 500, 0, true);
      StartTimer(2000, timerErr);
      r := if timerErr == 0 then idx else -3;
    }

    /** deactivate_rq: a payload that is held is freed, once. */
    method DeactivateRq(idx: nat)
      requires Valid() && idx < slots.Length
      modifies this`live, slots
      ensures Valid() && slots[..] == old(slots[..])[idx := old(slots[idx]).(active := false, payload := None)]
      ensures live == old(live) - if old(slots[idx]).payload.Some? then {old(slots[idx]).payload.value.id} else {}
    {
      ghost var was := slots[..];
      assert SlotOk(was[idx]) && JobOf(was[idx], jobs);
      ghost var s := Deactivated(was[idx]);
      slots[idx] := slots[idx].(active := false);
      if slots[idx].payload.Some? {
        TableAfterFree(was, live, jobs, nextId, idx, s);
        Free(slots[idx].payload.value);
        slots[idx] := slots[idx].(payload := None);
      } else {
        TableAfterKeep(was, live, jobs, nextId, idx, s);
      }
      assert slots[..] == was[idx := s];
    }

    /** remove_periodic_rq: the first slot that was last used for a periodic request of this kind. */
    method RemovePeriodicRq(rqId: nat) returns (r: int)
      requires Valid()
      modifies this`live, this`timer, slots
      ensures Valid()
      ensures r == -1 ==> slots[..] == old(slots[..]) && timer == old(timer)
      ensures r == -1 ==> forall k | 0 <= k < slots.Length :: !IsPeriodic(slots[k], rqId)
      ensures r != -1 ==> r == 0 && exists i: nat | i < slots.Length ::
                && IsPeriodic(old(slots[i]), rqId) && (forall k | 0 <= k < i :: !IsPeriodic(old(slots[k]), rqId))
                && slots[..] == old(slots[..])[i := old(slots[i]).(active := false, payload := None)]
                && timer == if exists k :: 0 <= k < slots.Length && slots[k].active then old(timer) else None
    {
      for i := 0 to slots.Length
        invariant Valid() && slots[..] == old(slots[..])
        invariant forall k | 0 <= k < i :: !IsPeriodic(slots[k], rqId)
      {
        if slots[i].periodic && slots[i].rqId == rqId {
          assert IsPeriodic(old(slots[i]), rqId);
          DeactivateRq(i);
          var any := AnyActive();
          if !any {
            timer := None;
          }
          return 0;
        }
      }
      return -1;
    }

    method AnyActive() returns (any: bool)
      ensures any <==> exists k :: 0 <= k < slots.Length && slots[k].active
    {
      for i := 0 to slots.Length
        invariant forall k | 0 <= k < i :: !slots[k].active
      {
        if slots[i].active {
          return true;
        }
      }
      return false;
    }

    /**
      ack_rsp: the first active request of this kind starts to wait anew; if it is
      one with retries it is given up, and its payload freed.
     */
    method AckRsp(rqId: nat)
      requires Valid()
      modifies this`live, this`lastRqId, slots
      ensures Valid() && lastRqId == if old(lastRqId) == rqId then EXP_RSP_INVALID else old(lastRqId)
      ensures (forall k | 0 <= k < slots.Length :: !Awaits(old(slots[k]), rqId)) ==> slots[..] == old(slots[..])
      ensures forall i | 0 <= i < slots.Length && Awaits(old(slots[i]), rqId)
              && (forall k | 0 <= k < i :: !Awaits(old(slots[k]), rqId)) ::
                var s := old(slots[i]).(sinceLastSent := 0, retries := 0);
                if s.maxRetries == 0 then slots[..] == old(slots[..])[i := s] && live == old(live)
                else
                  && slots[..] == old(slots[..])[i := s.(active := false, payload := None)]
                  && s.payload.Some? && live == old(live) - {s.payload.value.id}
      ensures slots[..] == Settled(old(slots[..]), rqId)
    {
      ghost var was := slots[..];
      ghost var first := FirstAwaiting(was, rqId);
      assert first < |was| ==> Awaits(was[first], rqId);
      if lastRqId == rqId {
        lastRqId := EXP_RSP_INVALID;
      }
      for i := 0 to slots.Length
        invariant Valid() && slots[..] == old(slots[..]) && live == old(live)
        invariant lastRqId == if old(lastRqId) == rqId then EXP_RSP_INVALID else old(lastRqId)
        invariant forall k | 0 <= k < i :: !Awaits(slots[k], rqId)
      {
        if slots[i].active && slots[i].rqId == rqId {
          assert Awaits(old(slots[i]), rqId);
          Settle(i);
          break;
        }
      }
    }

    method Settle(i: nat)
      requires Valid() && i < slots.Length && slots[i].active
      modifies this`live, slots
      ensures Valid() && slots[..] == old(slots[..])[i := Acked(old(slots[i]))]
      ensures old(slots[i]).payload.Some?
      ensures live == old(live) - if old(slots[i]).maxRetries > 0 then {old(slots[i]).payload.value.id} else {}
    {
      ghost var was := slots[..];
      assert SlotOk(was[i]) && JobOf(was[i], jobs);
      if slots[i].maxRetries > 0 {
        DeactivateRq(i);
        ghost var t := slots[..];
        slots[i] := slots[i].(sinceLastSent := 0, retries := 0);
        assert SlotOk(t[i]) && JobOf(t[i], jobs);
        TableAfterKeep(t, live, jobs, nextId, i, slots[i]);
        assert slots[..] == t[i := slots[i]];
      } else {
        slots[i] := slots[i].(sinceLastSent := 0, retries := 0);
        TableAfterKeep(was, live, jobs, nextId, i, slots[i]);
        assert slots[..] == was[i := slots[i]];
      }
    }

    /** schedule_next_timer_evt: the waiting time is booked in advance. */
    method ScheduleNextTimerEvt(delay: int, timerErr: int)
      requires Valid()
      modifies this`timer, slots
      ensures Valid() && slots[..] == Waited(old(slots[..]), delay)
      ensures forall k | 0 <= k < slots.Length ::
                slots[k] == if old(slots[k]).active && delay != INT32_MAX
                            then old(slots[k]).(sinceLastSent := old(slots[k]).sinceLastSent + delay)
                            else old(slots[k])
      ensures timer == if delay != INT32_MAX && timerErr == 0 then Some(delay) else old(timer)
    {
      WaitedAt(slots[..], delay);
      if delay != INT32_MAX {
        StartTimer(delay, timerErr);
        BookWait(delay);
      }
    }

    method BookWait(delay: int)
      requires Valid() && delay != INT32_MAX
      modifies slots
      ensures Valid() && slots[..] == Waited(old(slots[..]), delay)
    {
      ghost var was := slots[..];
      for i := 0 to slots.Length
        invariant Valid() && slots[..] == Waited(was[..i], delay) + was[i..]
      {
        WaitedStep(was, i, delay);
        assert slots[i] == was[i];
        if slots[i].active {
          AddWait(i, delay);
        }
      }
      assert was[..|was|] == was;
    }

    method AddWait(i: nat, delay: int)
      requires Valid() && i < slots.Length && slots[i].active
      modifies slots
      ensures Valid() && slots[..] == old(slots[..])[i := Wait(old(slots[i]), delay)]
    {
      ghost var t := slots[..];
      assert SlotOk(t[i]) && JobOf(t[i], jobs);
      slots[i] := slots[i].(sinceLastSent := slots[i].sinceLastSent + delay);
      TableAfterKeep(t, live, jobs, nextId, i, slots[i]);
      assert slots[..] == t[i := slots[i]];
    }

    /** The first of the requests that are due earliest. */
    method FindEarliest() returns (earliest: int, idx: nat)
      ensures earliest == Earliest(slots[..], slots.Length)
      ensures earliest != INT32_MAX ==> idx < slots.Length && slots[idx].active && Delay(slots[idx]) == earliest
      ensures earliest != INT32_MAX ==> forall k | 0 <= k < idx && slots[k].active :: Delay(slots[k]) > earliest
    {
      earliest, idx := INT32_MAX, U32 - 1;
      ghost var all := slots[..];
      for i := 0 to slots.Length
        invariant earliest == Earliest(all, i)
        invariant earliest != INT32_MAX ==> idx < i && slots[idx].active && Delay(slots[idx]) == earliest
        invariant earliest != INT32_MAX ==> forall k | 0 <= k < idx && slots[k].active :: Delay(slots[k]) > earliest
        invariant forall k | 0 <= k < i && slots[k].active :: Delay(slots[k]) >= earliest
      {
        if slots[i].active {
          if slots[i].timeout - slots[i].sinceLastSent < earliest {
            earliest := slots[i].timeout - slots[i].sinceLastSent;
            idx := i;
          }
        }
      }
    }

    /** The part of send_rq that updates the slot whose payload has been sent. */
    method UpdateSent(idx: nat)
      requires Valid() && idx < slots.Length && slots[idx].active
      modifies this`live, this`jobs, slots
      ensures old(slots[idx]).payload.Some? && old(slots[idx]).payload.value.id in old(jobs)
      ensures Valid() && slots[..] == old(slots[..])[idx := AfterSend(old(slots[idx]))]
      ensures jobs == CountSend(old(jobs), old(slots[idx]).payload.value.id)
    {
      ghost var was := slots[..];
      assert SlotOk(was[idx]) && JobOf(was[idx], jobs);
      ghost var id := was[idx].payload.value.id;
      slots[idx] := slots[idx].(retries := (slots[idx].retries + 1) % 0x100);
      if !slots[idx].periodic {
        slots[idx] := slots[idx].(sinceLastSent := 0);
        if slots[idx].retries > slots[idx].maxRetries {
          slots[idx] := slots[idx].(retries := 0, active := false);
          TableAfterLastSend(was, live, jobs, nextId, idx, Deactivated(slots[idx]));
          Free(slots[idx].payload.value);
          slots[idx] := slots[idx].(payload := None);
        } else {
          TableAfterSend(was, live, jobs, nextId, idx, slots[idx]);
        }
      } else {
        if slots[idx].retries > 2 {
          slots[idx] := slots[idx].(sinceLastSent := 0, retries := 0);
        } else {
          slots[idx] := slots[idx].(sinceLastSent := slots[idx].sinceLastSent - RESPONSE_DELAY_MS);
        }
        TableAfterSend(was, live, jobs, nextId, idx, slots[idx]);
      }
      jobs := CountSend(jobs, id);
      assert slots[..] == was[idx := slots[idx]];
    }

    /**
      send_rq: at most one request is sent, the earliest one, and only if it is
      due within 50 ms. The assertions of the source are proved here.
     */
    method SendRq(uartErr: int, timerErr: int) returns (sent: bool, ghost idx: nat)
      requires Valid()
      modifies this`live, this`jobs, this`lastRqId, this`timer, slots
      ensures Valid()
      ensures sent <==> old(Earliest(slots[..], slots.Length)) <= 50 && uartErr == 0
      ensures !sent ==> jobs == old(jobs)
      ensures old(Earliest(slots[..], slots.Length)) > 50 ==>
                var wait := old(Earliest(slots[..], slots.Length));
                && lastRqId == old(lastRqId) && slots[..] == Waited(old(slots[..]), wait)
                && timer == if wait != INT32_MAX && timerErr == 0 then Some(wait) else old(timer)
      ensures old(Earliest(slots[..], slots.Length)) <= 50 ==>
                && idx == old(FirstDue(slots[..])) && idx < slots.Length && old(slots[idx]).active
                && lastRqId == old(slots[idx]).rqId
                && (!sent ==> slots[..] == Waited(old(slots[..]), 500)
                              && timer == if timerErr == 0 then Some(500) else old(timer))
      ensures sent ==>
                var mid := old(slots[..])[idx := AfterSend(old(slots[idx]))];
                var next := NextTimer(Earliest(mid, |mid|));
                && old(slots[idx]).payload.Some? && old(slots[idx]).payload.value.id in old(jobs)
                && jobs == CountSend(old(jobs), old(slots[idx]).payload.value.id)
                && slots[..] == Waited(mid, next)
                && timer == (if next != INT32_MAX && timerErr == 0 then Some(next) else old(timer))
                && (next >= RESPONSE_DELAY_MS <==> NoneOverdue(old(slots[..]), idx))
    {
      var earliest, sendIdx := FindEarliest();
      sent, idx := false, sendIdx;
      if earliest > 50 {
        ScheduleNextTimerEvt(earliest, timerErr);
        return;
      }
      assert sendIdx < slots.Length;
      ghost var all := slots[..];
      FirstDueIs(all, sendIdx);
      assert SlotOk(all[sendIdx]);
      assert slots[sendIdx].payloadLen > 0;
      lastRqId := slots[sendIdx].rqId;
      if uartErr != 0 {
        ScheduleNextTimerEvt(500, timerErr);
        return;
      }
      PauseAfterRequest(all, sendIdx);
      UpdateSent(sendIdx);
      var next, _ := FindEarliest();
      if 0 <= next < RESPONSE_DELAY_MS {
        next := RESPONSE_DELAY_MS;
      }
      ScheduleNextTimerEvt(next, timerErr);
      sent := true;
    }
  }

  function Waited(slots: seq<Slot>, delay: int): (r: seq<Slot>)
    ensures |r| == |slots|
  {
    if delay == INT32_MAX || slots == [] then slots
    else Waited(slots[..|slots| - 1], delay) + [Wait(slots[|slots| - 1], delay)]
  }

  lemma WaitedStep(was: seq<Slot>, i: nat, delay: int)
    requires i < |was| && delay != INT32_MAX
    ensures var now := Waited(was[..i], delay) + was[i..];
            Waited(was[..i + 1], delay) + was[i + 1..] == now[i := Wait(was[i], delay)]
  {
    assert was[..i + 1][..i] == was[..i];
  }

  lemma {:induction false} WaitedAt(slots: seq<Slot>, delay: int)
    ensures forall k | 0 <= k < |slots| ::
            Waited(slots, delay)[k] == if delay == INT32_MAX then slots[k] else Wait(slots[k], delay)
    decreases |slots|
  {
    if delay != INT32_MAX && slots != [] {
      WaitedAt(slots[..|slots| - 1], delay);
    }
  }

  predicate IsPeriodic(s: Slot, rqId: nat) {
    s.periodic && s.rqId == rqId
  }

  // ---- Consequences ---------------------------------------------------------

  lemma {:induction false} EarliestIsAttained(slots: seq<Slot>, n: nat)
    requires n <= |slots| && Earliest(slots, n) != INT32_MAX
    ensures exists k :: 0 <= k < n && slots[k].active && Delay(slots[k]) == Earliest(slots, n)
  {
    if Earliest(slots, n) == Earliest(slots, n - 1) {
      EarliestIsAttained(slots, n - 1);
      var k :| 0 <= k < n - 1 && slots[k].active && Delay(slots[k]) == Earliest(slots, n - 1);
      assert 0 <= k < n;
    } else {
      assert slots[n - 1].active;
    }
  }

  lemma NextTimerWaits(slots: seq<Slot>)
    ensures NextTimer(Earliest(slots, |slots|)) >= RESPONSE_DELAY_MS <==>
              forall k | 0 <= k < |slots| && slots[k].active :: Delay(slots[k]) >= 0
  {
    var e := Earliest(slots, |slots|);
    if e < 0 {
      EarliestIsAttained(slots, |slots|);
    } else {
      forall k | 0 <= k < |slots| && slots[k].active
        ensures Delay(slots[k]) >= 0
      {
        EarliestIsLeast(slots, |slots|, k);
      }
    }
  }

  /**
    Before slot i is sent: no other request is overdue, nor, by more than the pause, a periodic one that is repeated.
   */
  predicate NoneOverdue(slots: seq<Slot>, i: nat)
    requires i < |slots|
  {
    && (forall k | 0 <= k < |slots| && k != i && slots[k].active :: Delay(slots[k]) >= 0)
    && (slots[i].periodic && slots[i].retries < 2 ==> Delay(slots[i]) + RESPONSE_DELAY_MS >= 0)
  }

  /**
    After a request the next one is meant to wait for 100 ms. The comparison is
    unsigned, so that holds exactly if no other request is overdue when one is
    sent: otherwise the timer is given a negative period.
   */
  lemma PauseAfterRequest(slots: seq<Slot>, i: nat)
    requires i < |slots| && slots[i].active && SlotOk(slots[i])
    ensures var mid := slots[i := AfterSend(slots[i])];
            && (NextTimer(Earliest(mid, |mid|)) >= RESPONSE_DELAY_MS <==> NoneOverdue(slots, i))
            && NextTimer(Earliest(mid, |mid|)) ==
                 if NoneOverdue(slots, i) && Earliest(mid, |mid|) < 100 then 100 else Earliest(mid, |mid|)
  {
    var mid := slots[i := AfterSend(slots[i])];
    NextTimerWaits(mid);
    assert forall k | 0 <= k < |slots| && k != i :: mid[k] == slots[k];
    assert mid[i].active ==> (Delay(mid[i]) >= 0 <==>
        (slots[i].periodic && slots[i].retries < 2 ==> Delay(slots[i]) + RESPONSE_DELAY_MS >= 0));
    assert !mid[i].active ==> !slots[i].periodic;
  }

  /** A slot after n transmissions without a response; an inactive slot is not sent. */
  function AfterSends(s: Slot, n: nat): Slot
    decreases n
  {
    if n == 0 || !s.active then s else AfterSends(AfterSend(s), n - 1)
  }

  lemma OneMoreSend(s: Slot)
    requires SlotOk(s) && s.active && !s.periodic
    ensures SlotOk(AfterSend(s)) && AfterSend(s).maxRetries == s.maxRetries && !AfterSend(s).periodic
    ensures if s.maxRetries == 255 then AfterSend(s).active
            else if s.retries < s.maxRetries then AfterSend(s).active && AfterSend(s).retries == s.retries + 1
            else !AfterSend(s).active
  {
  }

  /** Without a response a request is given up after r + 1 transmissions, unless r is 255: then the counter wraps. */
  lemma {:induction false} GivenUpAfter(s: Slot, n: nat)
    requires SlotOk(s) && s.active && !s.periodic
    ensures AfterSends(s, n).active <==> s.maxRetries == 255 || n <= s.maxRetries - s.retries
    decreases n
  {
    if n > 0 {
      OneMoreSend(s);
      if AfterSend(s).active {
        GivenUpAfter(AfterSend(s), n - 1);
      }
    }
  }

  /** Until it is given up, a request that is sent once waits for a whole timeout after each transmission. */
  lemma {:induction false} WaitsForTimeout(s: Slot, n: nat)
    requires SlotOk(s) && s.active && !s.periodic && s.maxRetries < 255 && n <= s.maxRetries - s.retries
    ensures AfterSends(s, n) == s.(retries := s.retries + n, sinceLastSent := if n == 0 then s.sinceLastSent else 0)
    decreases n
  {
    if n > 0 {
      OneMoreSend(s);
      assert AfterSend(s) == s.(retries := s.retries + 1, sinceLastSent := 0);
      WaitsForTimeout(AfterSend(s), n - 1);
    }
  }

  /** A periodic request is sent three times, 100 ms apart, and then waits for a whole period. */
  lemma PeriodicCycle(s: Slot)
    requires SlotOk(s) && s.active && s.periodic && s.retries == 0
    ensures forall n | 0 <= n < 3 :: AfterSends(s, n).active && Delay(AfterSends(s, n)) == Delay(s) + n * 100
    ensures AfterSends(s, 3) == s.(sinceLastSent := 0)
  {
    var t := AfterSend(s);
    var u := AfterSend(t);
    assert t.retries == 1 && u.retries == 2 && AfterSend(u).retries == 0;
    assert AfterSends(s, 1) == AfterSends(t, 0) && AfterSends(s, 2) == AfterSends(t, 1) == AfterSends(u, 0);
    assert AfterSends(s, 3) == AfterSends(t, 2) == AfterSends(u, 1) == AfterSends(AfterSend(u), 0);
  }

  predicate SendsPeriodically(s: Slot, rqId: nat) {
    s.active && IsPeriodic(s, rqId)
  }

  /**
    Removing a periodic request stops it exactly if only the first matching
    slot is in use; that slot may be a stale one.
   */
  lemma RemovalStopsRequest(slots: seq<Slot>, rqId: nat, i: nat)
    requires i < |slots| && IsPeriodic(slots[i], rqId) && forall k | 0 <= k < i :: !IsPeriodic(slots[k], rqId)
    ensures var now := slots[i := Deactivated(slots[i])];
            (forall k | 0 <= k < |now| :: !SendsPeriodically(now[k], rqId)) <==>
            (forall k | i < k < |slots| :: !SendsPeriodically(slots[k], rqId))
  {
    var now := slots[i := Deactivated(slots[i])];
    assert forall k | i < k < |slots| :: now[k] == slots[k];
    assert forall k | 0 <= k < i :: now[k] == slots[k];
    assert !SendsPeriodically(now[i], rqId);
  }

  datatype Command =
    | CmdAddRq(rqId: nat, payload: seq<uint8>, timeout: nat, retries: nat, gotMemory: bool, timerErr: int)
    | CmdAddRqPeriodic(rqId: nat, payload: seq<uint8>, period: nat, gotMemory: bool, timerErr: int)
    | CmdRmPeriodicRq(rqId: nat)
    | CmdResponse(rqId: nat)
    | CmdTimer(uartErr: int, timerErr: int)

  predicate Legal(c: Command, maxPacketLen: nat) {
    match c
    case CmdAddRq(_, payload, timeout, retries, _, _) =>
      |payload| <= maxPacketLen && timeout < U32 && retries < 0x100
    case CmdAddRqPeriodic(_, payload, period, _, _) =>
      |payload| <= maxPacketLen && 1 < period < U32
    case _ => true
  }

  /** What the client remembers: the slots, the request outstanding, the timer, and what became of requests. */
  datatype Table = Table(slots: seq<Slot>, lastRqId: nat, timer: Option<int>, jobs: map<nat, Job>, nextId: nat)

  ghost function TableOf(client: Client): Table
    reads client, client.slots
  {
    Table(client.slots[..], client.lastRqId, client.timer, client.jobs, client.nextId)
  }

  function FirstFree(slots: seq<Slot>): (i: nat)
    ensures i <= |slots| && (i < |slots| ==> !slots[i].active)
    ensures forall k | 0 <= k < i :: slots[k].active
  {
    if slots == [] || !slots[0].active then 0 else 1 + FirstFree(slots[1..])
  }

  function FirstPeriodic(slots: seq<Slot>, rqId: nat): (i: nat)
    ensures i <= |slots| && (i < |slots| ==> IsPeriodic(slots[i], rqId))
    ensures forall k | 0 <= k < i :: !IsPeriodic(slots[k], rqId)
  {
    if slots == [] || IsPeriodic(slots[0], rqId) then 0 else 1 + FirstPeriodic(slots[1..], rqId)
  }

  function SetTimer(timer: Option<int>, ms: int, err: int): Option<int> {
    if ms != INT32_MAX && err == 0 then Some(ms) else timer
  }

  /** A new request goes into the first free slot, if there is one and memory for the payload. */
  function Added(t: Table, s: Slot, job: Job, gotMemory: bool, timerErr: int): Table {
    var i := FirstFree(t.slots);
    if i == |t.slots| || !gotMemory then t
    else
      t.(slots := t.slots[i := s], jobs := t.jobs[t.nextId := job], nextId := t.nextId + 1,
         timer := SetTimer(t.timer, 2000, timerErr))
  }

  function Removed(t: Table, rqId: nat): Table {
    var i := FirstPeriodic(t.slots, rqId);
    if i == |t.slots| then t
    else
      var slots := t.slots[i := Deactivated(t.slots[i])];
      t.(slots := slots, timer := if exists k | 0 <= k < |slots| :: slots[k].active then t.timer else None)
  }

  function Answered(t: Table, rqId: nat): Table {
    t.(lastRqId := if t.lastRqId == rqId then EXP_RSP_INVALID else t.lastRqId,
       slots := Settled(t.slots, rqId))
  }

  /** The timer has fired. */
  function Fired(t: Table, uartErr: int, timerErr: int): Table {
    var wait := Earliest(t.slots, |t.slots|);
    var i := FirstDue(t.slots);
    if wait > 50 || i == |t.slots| then
      t.(slots := Waited(t.slots, wait), timer := SetTimer(t.timer, wait, timerErr))
    else if uartErr != 0 then
      t.(lastRqId := t.slots[i].rqId, slots := Waited(t.slots, 500), timer := SetTimer(t.timer, 500, timerErr))
    else
      var mid := t.slots[i := AfterSend(t.slots[i])];
      var next := NextTimer(Earliest(mid, |mid|));
      t.(lastRqId := t.slots[i].rqId, slots := Waited(mid, next), timer := SetTimer(t.timer, next, timerErr),
         jobs := if t.slots[i].payload.None? || t.slots[i].payload.value.id !in t.jobs then t.jobs
                 else CountSend(t.jobs, t.slots[i].payload.value.id))
  }

  /** What a command does to the table. */
  function Next(t: Table, c: Command, serialize: seq<uint8> -> seq<uint8>): Table {
    match c
    case CmdAddRq(rqId, payload, timeout, retries, gotMemory, timerErr) =>
      var i := FirstFree(t.slots);
      if timeout >= U32 || i >= 0x100 then t
      else
        var s := NewSlot(Block(t.nextId, serialize(payload)), rqId, timeout, i * 100, retries, false);
        Added(t, s, Job(Some(retries), 0), gotMemory, timerErr)
    case CmdAddRqPeriodic(rqId, payload, period, gotMemory, timerErr) =>
      var i := FirstFree(t.slots);
      if period >= U32 || i >= 0x100 then t
      else
        var s := NewSlot(Block(t.nextId, serialize(payload)), rqId, period, (i + 1) * 500, 0, true);
        Added(t, s, Job(None, 0), gotMemory, timerErr)
    case CmdRmPeriodicRq(rqId) => Removed(t, rqId)
    case CmdResponse(rqId) => Answered(t, rqId)
    case CmdTimer(uartErr, timerErr) => Fired(t, uartErr, timerErr)
  }

  ghost predicate Follows(t: Table, c: Command, u: Table, serialize: seq<uint8> -> seq<uint8>) {
    u == Next(t, c, serialize)
  }

  /** The request in a slot is in no other, and it is one of those accepted so far. */
  predicate OnlyHere(t: Table, k: nat)
    requires k < |t.slots|
  {
    t.slots[k].payload.Some? ==>
      && t.slots[k].payload.value.id in t.jobs
      && forall j | 0 <= j < |t.slots| && j != k && t.slots[j].payload.Some? ::
           t.slots[j].payload.value.id != t.slots[k].payload.value.id
  }

  /**
    A slot is active exactly when it holds a payload, no payload is in two
    slots, and no request with less than 255 retries has been sent more often
    than it may be.
   */
  ghost predicate InOrder(t: Table) {
    && (forall k | 0 <= k < |t.slots| :: SlotOk(t.slots[k]))
    && (forall k | 0 <= k < |t.slots| :: OnlyHere(t, k))
    && (forall id | id in t.jobs :: id < t.nextId && WithinLimit(t.jobs[id]))
  }

  lemma ValidInOrder(client: Client)
    requires client.Valid()
    ensures InOrder(TableOf(client))
  {
    var t := TableOf(client);
    forall k | 0 <= k < |t.slots|
      ensures OnlyHere(t, k)
    {
      assert JobOf(t.slots[k], t.jobs);
    }
  }

  /** One turn of the command loop. */
  method Execute(client: Client, c: Command)
    requires client.Valid() && LengthsFit(client.serialize, client.maxPacketLen) && Legal(c, client.maxPacketLen)
    modifies client, client.slots
    ensures client.Valid() && TableOf(client) == Next(old(TableOf(client)), c, client.serialize)
  {
    match c
    case CmdAddRq(rqId, payload, timeout, retries, gotMemory, timerErr) =>
      ExecuteAdd(client, rqId, payload, timeout, retries, gotMemory, timerErr);
    case CmdAddRqPeriodic(rqId, payload, period, gotMemory, timerErr) =>
      ExecuteAddPeriodic(client, rqId, payload, period, gotMemory, timerErr);
    case CmdRmPeriodicRq(rqId) => ExecuteRemove(client, rqId);
    case CmdResponse(rqId) => ExecuteResponse(client, rqId);
    case CmdTimer(uartErr, timerErr) => ExecuteTimer(client, uartErr, timerErr);
  }

  method ExecuteAdd(client: Client, rqId: nat, payload: seq<uint8>, timeout: nat, retries: nat, gotMemory: bool,
                    timerErr: int)
    requires client.Valid() && LengthsFit(client.serialize, client.maxPacketLen)
    requires |payload| <= client.maxPacketLen && timeout < U32 && retries < 0x100
    modifies client, client.slots
    ensures client.Valid()
    ensures var c := CmdAddRq(rqId, payload, timeout, retries, gotMemory, timerErr);
            TableOf(client) == Next(old(TableOf(client)), c, client.serialize)
  {
    ghost var was := client.slots[..];
    var r := client.AddRq(rqId, payload, timeout, retries, gotMemory, timerErr);
    assert r == -1 <==> FirstFree(was) == |was|;
  }

  method ExecuteAddPeriodic(client: Client, rqId: nat, payload: seq<uint8>, period: nat, gotMemory: bool, timerErr: int)
    requires client.Valid() && LengthsFit(client.serialize, client.maxPacketLen)
    requires |payload| <= client.maxPacketLen && 1 < period < U32
    modifies client, client.slots
    ensures client.Valid()
    ensures var c := CmdAddRqPeriodic(rqId, payload, period, gotMemory, timerErr);
            TableOf(client) == Next(old(TableOf(client)), c, client.serialize)
  {
    ghost var was := client.slots[..];
    var r := client.AddPeriodicRq(rqId, payload, period, gotMemory, timerErr);
    assert r == -1 <==> FirstFree(was) == |was|;
  }

  method ExecuteRemove(client: Client, rqId: nat)
    requires client.Valid()
    modifies client, client.slots
    ensures client.Valid() && TableOf(client) == Removed(old(TableOf(client)), rqId)
  {
    ghost var was := client.slots[..];
    ghost var i := FirstPeriodic(was, rqId);
    assert i < |was| ==> IsPeriodic(was[i], rqId);
    var r := client.RemovePeriodicRq(rqId);
  }

  method ExecuteResponse(client: Client, rqId: nat)
    requires client.Valid()
    modifies client, client.slots
    ensures client.Valid() && TableOf(client) == Answered(old(TableOf(client)), rqId)
  {
    client.AckRsp(rqId);
  }

  method ExecuteTimer(client: Client, uartErr: int, timerErr: int)
    requires client.Valid()
    modifies client, client.slots
    ensures client.Valid() && TableOf(client) == Fired(old(TableOf(client)), uartErr, timerErr)
  {
    ghost var was := client.slots[..];
    var sent, idx := client.SendRq(uartErr, timerErr);
  }

  /** What the first n commands make of a table, one after the other; every table on the way is in order. */
  ghost predicate IsRun(tables: seq<Table>, commands: seq<Command>, n: nat, serialize: seq<uint8> -> seq<uint8>) {
    && n <= |commands| && |tables| == n + 1
    && (forall k | 0 <= k <= n :: InOrder(tables[k]))
    && (forall k | 0 <= k < n :: Follows(tables[k], commands[k], tables[k + 1], serialize))
  }

  /** The first n commands have been executed. */
  ghost predicate Executed(client: Client, tables: seq<Table>, commands: seq<Command>, n: nat)
    reads client, client.slots
  {
    client.Valid() && IsRun(tables, commands, n, client.serialize) && tables[n] == TableOf(client)
  }

  lemma OneMoreTable(tables: seq<Table>, commands: seq<Command>, n: nat, serialize: seq<uint8> -> seq<uint8>, t: Table)
    requires IsRun(tables, commands, n, serialize) && n < |commands|
    requires InOrder(t) && Follows(tables[n], commands[n], t, serialize)
    ensures IsRun(tables + [t], commands, n + 1, serialize)
  {
    var more := tables + [t];
    assert forall k | 0 <= k <= n :: more[k] == tables[k];
    assert more[n + 1] == t;
  }

  method ExecuteNext(client: Client, ghost tables: seq<Table>, commands: seq<Command>, n: nat)
    requires Executed(client, tables, commands, n) && n < |commands|
    requires LengthsFit(client.serialize, client.maxPacketLen) && Legal(commands[n], client.maxPacketLen)
    modifies client, client.slots
    ensures Executed(client, tables + [TableOf(client)], commands, n + 1)
  {
    Execute(client, commands[n]);
    ValidInOrder(client);
    OneMoreTable(tables, commands, n, client.serialize, TableOf(client));
  }

  /**
    Any sequence of commands: the table becomes what the commands make of it one
    after the other, it is in order after each of them, and at the end the
    payloads still allocated are those in the table.
   */
  method RunCommands(client: Client, commands: seq<Command>) returns (ghost tables: seq<Table>)
    requires client.Valid() && LengthsFit(client.serialize, client.maxPacketLen)
    requires forall i | 0 <= i < |commands| :: Legal(commands[i], client.maxPacketLen)
    modifies client, client.slots
    ensures IsRun(tables, commands, |commands|, client.serialize)
    ensures tables[0] == old(TableOf(client)) && tables[|commands|] == TableOf(client)
    ensures client.Valid() && Owned(client.slots[..], client.live)
  {
    tables := [TableOf(client)];
    ValidInOrder(client);
    for i := 0 to |commands|
      invariant Executed(client, tables, commands, i) && tables[0] == old(TableOf(client))
    {
      ExecuteNext(client, tables, commands, i);
      tables := tables + [TableOf(client)];
    }
  }

  // ---- What becomes of a request --------------------------------------------

  predicate SameRequest(s: Slot, t: Slot) {
    && t.active == s.active && t.payload == s.payload && t.rqId == s.rqId && t.timeout == s.timeout
    && t.periodic == s.periodic && t.maxRetries == s.maxRetries
  }

  lemma WaitedSame(slots: seq<Slot>, delay: int, i: nat)
    requires i < |slots|
    ensures SameRequest(slots[i], Waited(slots, delay)[i])
  {
    WaitedAt(slots, delay);
  }

  /** One command does not end a periodic request, unless it removes it. */
  lemma PeriodicKept(t: Table, c: Command, serialize: seq<uint8> -> seq<uint8>, rqId: nat, i: nat)
    requires InOrder(t) && i < |t.slots| && SendsPeriodically(t.slots[i], rqId) && c != CmdRmPeriodicRq(rqId)
    ensures var slots := Next(t, c, serialize).slots;
            |slots| == |t.slots| && SameRequest(t.slots[i], slots[i])
  {
    assert SlotOk(t.slots[i]);
    match c
    case CmdTimer(uartErr, timerErr) =>
      var d := FirstDue(t.slots);
      WaitedSame(t.slots, Earliest(t.slots, |t.slots|), i);
      WaitedSame(t.slots, 500, i);
      if d < |t.slots| {
        var mid := t.slots[d := AfterSend(t.slots[d])];
        WaitedSame(mid, NextTimer(Earliest(mid, |mid|)), i);
      }
    case _ =>
  }

  /** A periodic request, whatever happens, ends only by being removed. */
  lemma {:induction false} PeriodicGoesOn(tables: seq<Table>, commands: seq<Command>,
                                          serialize: seq<uint8> -> seq<uint8>, n: nat, m: nat, rqId: nat, i: nat)
    requires n <= m <= |commands| && IsRun(tables, commands, |commands|, serialize)
    requires forall k | n <= k < m :: commands[k] != CmdRmPeriodicRq(rqId)
    requires i < |tables[n].slots| && SendsPeriodically(tables[n].slots[i], rqId)
    ensures i < |tables[m].slots| && SameRequest(tables[n].slots[i], tables[m].slots[i])
    decreases m
  {
    if n < m {
      PeriodicGoesOn(tables, commands, serialize, n, m - 1, rqId, i);
      assert Follows(tables[m - 1], commands[m - 1], tables[m], serialize);
      PeriodicKept(tables[m - 1], commands[m - 1], serialize, rqId, i);
    }
  }

  /** A payload that is in no slot. */
  predicate Gone(slots: seq<Slot>, id: nat) {
    forall k | 0 <= k < |slots| && slots[k].payload.Some? :: slots[k].payload.value.id != id
  }

  lemma WaitedGone(slots: seq<Slot>, delay: int, id: nat)
    requires Gone(slots, id)
    ensures Gone(Waited(slots, delay), id)
  {
    WaitedAt(slots, delay);
  }

  lemma GoneAfterChange(slots: seq<Slot>, k: nat, s: Slot, id: nat)
    requires Gone(slots, id) && k < |slots| && (s.payload.Some? ==> s.payload.value.id != id)
    ensures Gone(slots[k := s], id)
  {
  }

  lemma GoneAfterTimer(t: Table, uartErr: int, timerErr: int, id: nat)
    requires Gone(t.slots, id) && id in t.jobs
    ensures var u := Fired(t, uartErr, timerErr);
            Gone(u.slots, id) && id in u.jobs && u.jobs[id] == t.jobs[id]
  {
    var d := FirstDue(t.slots);
    WaitedGone(t.slots, Earliest(t.slots, |t.slots|), id);
    WaitedGone(t.slots, 500, id);
    if d < |t.slots| {
      var mid := t.slots[d := AfterSend(t.slots[d])];
      GoneAfterChange(t.slots, d, AfterSend(t.slots[d]), id);
      WaitedGone(mid, NextTimer(Earliest(mid, |mid|)), id);
    }
  }

  lemma GoneStaysGone(t: Table, c: Command, serialize: seq<uint8> -> seq<uint8>, id: nat)
    requires InOrder(t) && Gone(t.slots, id) && id in t.jobs
    ensures var u := Next(t, c, serialize);
            Gone(u.slots, id) && id in u.jobs && u.jobs[id] == t.jobs[id]
  {
    match c
    case CmdTimer(uartErr, timerErr) => GoneAfterTimer(t, uartErr, timerErr, id);
    case _ =>
  }

  lemma {:induction false} NeverSentAgain(tables: seq<Table>, commands: seq<Command>,
                                          serialize: seq<uint8> -> seq<uint8>, n: nat, m: nat, id: nat)
    requires n <= m <= |commands| && IsRun(tables, commands, |commands|, serialize)
    requires Gone(tables[n].slots, id) && id in tables[n].jobs
    ensures Gone(tables[m].slots, id) && id in tables[m].jobs && tables[m].jobs[id] == tables[n].jobs[id]
    decreases m
  {
    if n < m {
      NeverSentAgain(tables, commands, serialize, n, m - 1, id);
      assert Follows(tables[m - 1], commands[m - 1], tables[m], serialize);
      GoneStaysGone(tables[m - 1], commands[m - 1], serialize, id);
    }
  }

  lemma GoneAfterAnswer(t: Table, rqId: nat, i: nat)
    requires InOrder(t) && i == FirstAwaiting(t.slots, rqId) < |t.slots| && t.slots[i].maxRetries > 0
    ensures t.slots[i].payload.Some? && t.slots[i].payload.value.id in t.jobs
    ensures Gone(Answered(t, rqId).slots, t.slots[i].payload.value.id) && Answered(t, rqId).jobs == t.jobs
  {
    assert SlotOk(t.slots[i]) && OnlyHere(t, i);
  }

  /** An answer settles a request with retries for good: whatever happens, it is not sent again. */
  lemma AnswerSettles(tables: seq<Table>, commands: seq<Command>, serialize: seq<uint8> -> seq<uint8>, n: nat, m: nat,
                      rqId: nat)
    requires n < m <= |commands| && IsRun(tables, commands, |commands|, serialize)
    requires commands[n] == CmdResponse(rqId)
    ensures var i := FirstAwaiting(tables[n].slots, rqId);
            i < |tables[n].slots| && tables[n].slots[i].maxRetries > 0 ==>
              var b := tables[n].slots[i].payload;
              && b.Some? && b.value.id in tables[n].jobs
              && Gone(tables[m].slots, b.value.id)
              && b.value.id in tables[m].jobs && tables[m].jobs[b.value.id] == tables[n].jobs[b.value.id]
  {
    var i := FirstAwaiting(tables[n].slots, rqId);
    if i < |tables[n].slots| && tables[n].slots[i].maxRetries > 0 {
      GoneAfterAnswer(tables[n], rqId, i);
      assert Follows(tables[n], commands[n], tables[n + 1], serialize);
      NeverSentAgain(tables, commands, serialize, n + 1, m, tables[n].slots[i].payload.value.id);
    }
  }

  // ---- Runs that show what can go wrong -------------------------------------

  /** Three one-shot requests that are all waiting for an answer, with the given delays. */
  ghost predicate ThreeWaiting(slots: seq<Slot>, d0: int, d1: int, d2: int, retries: nat) {
    && |slots| == 3 && Delay(slots[0]) == d0 && Delay(slots[1]) == d1 && Delay(slots[2]) == d2
    && forall k | 0 <= k < 3 ::
         slots[k].active && !slots[k].periodic && slots[k].timeout == 60 && slots[k].maxRetries == 9
           && slots[k].retries <= retries
  }

  lemma EarliestOfThree(slots: seq<Slot>, d0: int, d1: int, d2: int, retries: nat)
    requires ThreeWaiting(slots, d0, d1, d2, retries) && d0 < INT32_MAX && d1 < INT32_MAX && d2 < INT32_MAX
    ensures Earliest(slots, 3) == Min(d0, Min(d1, d2))
  {
    assert Earliest(slots, 1) == d0;
    assert Earliest(slots, 2) == Min(d0, d1);
  }

  /** The timer fires: the request with the smallest delay is sent, and the next wait is booked. */
  method Fire(client: Client, ghost d0: int, ghost d1: int, ghost d2: int, ghost retries: nat) returns (ghost idx: nat)
    requires client.Valid() && ThreeWaiting(client.slots[..], d0, d1, d2, retries) && retries < 9
    requires Min(d0, Min(d1, d2)) <= 50 && d0 < INT32_MAX && d1 < INT32_MAX && d2 < INT32_MAX
    modifies client, client.slots
    ensures client.Valid() && idx < 3 && Min(d0, Min(d1, d2)) == if idx == 0 then d0 else if idx == 1 then d1 else d2
    ensures var e0, e1, e2 := if idx == 0 then 60 else d0, if idx == 1 then 60 else d1, if idx == 2 then 60 else d2;
            var next := NextTimer(Min(e0, Min(e1, e2)));
            client.timer == Some(next) && ThreeWaiting(client.slots[..], e0 - next, e1 - next, e2 - next, retries + 1)
  {
    ghost var was := client.slots[..];
    EarliestOfThree(was, d0, d1, d2, retries);
    var sent;
    sent, idx := client.SendRq(0, 0);
    ThreeAfterSend(was, d0, d1, d2, retries, idx);
  }

  lemma ThreeAfterSend(was: seq<Slot>, d0: int, d1: int, d2: int, retries: nat, idx: nat)
    requires ThreeWaiting(was, d0, d1, d2, retries) && idx < 3 && retries < 9
    requires d0 < INT32_MAX && d1 < INT32_MAX && d2 < INT32_MAX
    ensures var mid := was[idx := AfterSend(was[idx])];
            var e0, e1, e2 := if idx == 0 then 60 else d0, if idx == 1 then 60 else d1, if idx == 2 then 60 else d2;
            var next := NextTimer(Min(e0, Min(e1, e2)));
            && Earliest(mid, 3) == Min(e0, Min(e1, e2)) && next != INT32_MAX
            && ThreeWaiting(Waited(mid, next), e0 - next, e1 - next, e2 - next, retries + 1)
  {
    var mid := was[idx := AfterSend(was[idx])];
    var e0, e1, e2 := if idx == 0 then 60 else d0, if idx == 1 then 60 else d1, if idx == 2 then 60 else d2;
    assert ThreeWaiting(mid, e0, e1, e2, retries + 1) by {
      assert forall k | 0 <= k < 3 && k != idx :: mid[k] == was[k];
    }
    EarliestOfThree(mid, e0, e1, e2, retries + 1);
    WaitedAt(mid, NextTimer(Min(e0, Min(e1, e2))));
  }

  /** One more request, which goes into slot k. */
  method AddWaiting(client: Client, k: nat)
    requires client.Valid() && client.slots.Length == 3 && k < 3
    requires forall j | 0 <= j < 3 :: client.slots[j].active <==> j < k
    requires LengthsFit(client.serialize, client.maxPacketLen)
    modifies client, client.slots
    ensures client.Valid() && forall j | 0 <= j < 3 :: client.slots[j].active <==> j < k + 1
    ensures var s := client.slots[k];
            && client.slots[..] == old(client.slots[..])[k := s] && s.active && !s.periodic
            && s.timeout == 60 && s.maxRetries == 9 && s.retries == 0 && Delay(s) == k * 100
  {
    ghost var was := client.slots[..];
    var r := client.AddRq(k, [], 60, 9, true, 0);
    assert !was[k].active;
  }

  method AddThree(serialize: seq<uint8> -> seq<uint8>) returns (client: Client)
    requires LengthsFit(serialize, 0)
    ensures client.Valid() && ThreeWaiting(client.slots[..], 0, 100, 200, 0) && fresh(client) && fresh(client.slots)
  {
    client := new Client(3, 0, serialize);
    AddWaiting(client, 0);
    AddWaiting(client, 1);
    AddWaiting(client, 2);
  }

  /** Three requests with a timeout of 60 ms that get no answer: the third transmission gives the timer -40 ms. */
  method OverdueRun(serialize: seq<uint8> -> seq<uint8>) returns (client: Client)
    requires LengthsFit(serialize, 0)
    ensures client.Valid() && client.timer == Some(-40)
  {
    client := AddThree(serialize);
    ghost var idx := Fire(client, 0, 100, 200, 0);
    idx := Fire(client, -40, 0, 100, 1);
    idx := Fire(client, -40, -100, 0, 2);
  }

  /** The same periodic request twice, removed twice: the second removal hits the stale slot, the request goes on. */
  method StaleSlotRun(serialize: seq<uint8> -> seq<uint8>) returns (client: Client, first: int, second: int)
    requires LengthsFit(serialize, 0)
    ensures client.Valid() && client.slots.Length == 2 && SendsPeriodically(client.slots[1], 7)
    ensures first == second == 0
  {
    client := new Client(2, 0, serialize);
    var r := client.AddPeriodicRq(7, [], 1000, true, 0);
    assert client.slots[0].active && !client.slots[1].active;
    r := client.AddPeriodicRq(7, [], 1000, true, 0);
    assert SendsPeriodically(client.slots[1], 7) && IsPeriodic(client.slots[0], 7);
    first := client.RemovePeriodicRq(7);
    assert IsPeriodic(client.slots[0], 7) && !client.slots[0].active && SendsPeriodically(client.slots[1], 7);
    second := client.RemovePeriodicRq(7);
  }
}
