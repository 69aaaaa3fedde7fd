/**
  Handing packets that are due to the action queue: which packets are marked as
  handed over, and which transmissions are pending for them.
 */
module MdnsSchedule {
  import opened Bytes
  import opened MdnsTxQueue

  /** The first packet from position i on that is not marked. */
  function FirstUnmarked(q: seq<Packet>, i: nat): (r: nat)
    requires i <= |q|
    ensures i <= r <= |q|
    ensures r < |q| ==> !q[r].queued
    ensures forall k | i <= k < r :: q[k].queued
    decreases |q| - i
  {
    if i < |q| && q[i].queued then FirstUnmarked(q, i + 1) else i
  }

  /** The first packet from position i on that is not yet due. */
  function DueEnd(q: seq<Packet>, i: nat, now: nat): (r: nat)
    requires i <= |q|
    ensures i <= r <= |q|
    ensures r < |q| ==> q[r].sendAt >= now
    ensures forall k | i <= k < r :: q[k].sendAt < now
    decreases |q| - i
  {
    if i < |q| && q[i].sendAt < now then DueEnd(q, i + 1, now) else i
  }

  /** The queue after the packets from lo to hi have been offered to the action queue. */
  function Offered(q: seq<Packet>, lo: nat, hi: nat, accepts: nat -> bool): (r: seq<Packet>)
    requires lo <= hi <= |q|
    ensures |r| == |q|
    ensures forall k | 0 <= k < |q| :: r[k] == if lo <= k < hi then q[k].(queued := accepts(k)) else q[k]
  {
    seq(|q|, k requires 0 <= k < |q| => if lo <= k < hi then q[k].(queued := accepts(k)) else q[k])
  }

  /** The transmissions that were accepted, in order. */
  function Taken(q: seq<Packet>, lo: nat, hi: nat, accepts: nat -> bool): seq<nat>
    requires lo <= hi <= |q|
    decreases hi
  {
    if lo == hi then []
    else Taken(q, lo, hi - 1, accepts) + if accepts(hi - 1) then [q[hi - 1].id] else []
  }

  /** Each packet accepted is taken once, and no other. */
  lemma {:induction false} TakenExactly(q: seq<Packet>, lo: nat, hi: nat, accepts: nat -> bool)
    requires lo <= hi <= |q| && IdsDistinct(q)
    ensures forall id :: id in Taken(q, lo, hi, accepts) <==> exists k :: lo <= k < hi && accepts(k) && q[k].id == id
    ensures forall i, j | 0 <= i < j < |Taken(q, lo, hi, accepts)| ::
              Taken(q, lo, hi, accepts)[i] != Taken(q, lo, hi, accepts)[j]
    decreases hi
  {
    if lo < hi {
      var n := hi - 1;
      TakenExactly(q, lo, n, accepts);
      var before, all := Taken(q, lo, n, accepts), Taken(q, lo, hi, accepts);
      assert all == before + if accepts(n) then [q[n].id] else [];
      assert q[n].id !in before;
      forall id
        ensures id in all <==> exists k :: lo <= k < hi && accepts(k) && q[k].id == id
      {
        assert id in all <==> id in before || (accepts(n) && q[n].id == id);
      }
    }
  }

  /** Nothing is accepted behind something that was refused. */
  predicate InOrder(lo: nat, hi: nat, accepts: nat -> bool) {
    forall k, l | lo <= k < l < hi && accepts(l) :: accepts(k)
  }

  predicate NoneMarked(q: seq<Packet>) {
    forall p | p in q :: !p.queued
  }

  /**
    The marked packets come first, and the pending transmissions are for them in
    this order, possibly with others between.
   */
  predicate Promised(q: seq<Packet>, actions: seq<nat>)
    decreases |actions|
  {
    if q == [] || !q[0].queued then NoneMarked(q)
    else
      && actions != []
      && if actions[0] == q[0].id then Promised(q[1..], actions[1..]) else Promised(q, actions[1..])
  }

  // ---- What keeps the promise -----------------------------------------------

  lemma NoneMarkedTail(q: seq<Packet>)
    requires NoneMarked(q) && q != []
    ensures NoneMarked(q[1..])
  {
  }

  /** The head may go. */
  lemma PromisedTail(q: seq<Packet>, actions: seq<nat>)
    requires Promised(q, actions) && q != []
    ensures Promised(q[1..], actions)
  {
    if q[0].queued {
      TailNow(q, actions);
    } else {
      NoneMarkedTail(q);
    }
  }

  /** A pending transmission more does no harm. */
  lemma {:induction false} OneMoreAction(q: seq<Packet>, id: nat, actions: seq<nat>)
    requires Promised(q, actions)
    ensures Promised(q, [id] + actions)
    decreases |actions|, 1
  {
    var more := [id] + actions;
    assert more[1..] == actions;
    if q != [] && q[0].queued && id == q[0].id {
      TailNow(q, actions);
    }
  }

  lemma {:induction false} TailNow(q: seq<Packet>, actions: seq<nat>)
    requires Promised(q, actions) && q != [] && q[0].queued
    ensures Promised(q[1..], actions)
    decreases |actions|, 0
  {
    assert [actions[0]] + actions[1..] == actions;
    if actions[0] == q[0].id {
      OneMoreAction(q[1..], actions[0], actions[1..]);
    } else {
      TailNow(q, actions[1..]);
      OneMoreAction(q[1..], actions[0], actions[1..]);
    }
  }

  lemma {:induction false} PromisedInsert(q: seq<Packet>, actions: seq<nat>, p: Packet)
    requires Promised(q, actions) && !p.queued && forall x | x in q && x.queued :: x.sendAt <= p.sendAt
    ensures Promised(Insert(q, p), actions)
    decreases |actions|
  {
    InsertMembers(q, p);
    if q != [] && q[0].queued {
      assert Insert(q, p)[1..] == Insert(q[1..], p);
      if actions[0] == q[0].id {
        PromisedInsert(q[1..], actions[1..], p);
      } else {
        PromisedInsert(q, actions[1..], p);
      }
    }
  }

  lemma {:induction false} PromisedNotOf(q: seq<Packet>, actions: seq<nat>, pcb: nat)
    requires Promised(q, actions)
    ensures Promised(NotOf(q, pcb), actions)
    decreases |actions|
  {
    if q == [] || !q[0].queued {
      NotOfMembers(q, pcb);
    } else {
      assert [actions[0]] + actions[1..] == actions;
      if actions[0] != q[0].id {
        PromisedNotOf(q, actions[1..], pcb);
        OneMoreAction(NotOf(q, pcb), actions[0], actions[1..]);
      } else {
        PromisedNotOf(q[1..], actions[1..], pcb);
        if q[0].pcb == pcb {
          OneMoreAction(NotOf(q[1..], pcb), actions[0], actions[1..]);
          assert NotOf(q, pcb) == NotOf(q[1..], pcb);
        } else {
          assert NotOf(q, pcb)[1..] == NotOf(q[1..], pcb);
        }
      }
    }
  }

  lemma {:induction false} PromisedWithout(q: seq<Packet>, actions: seq<nat>, k: nat)
    requires Promised(q, actions) && k < |q|
    ensures Promised(q[..k] + q[k + 1..], actions)
    decreases |actions|
  {
    var r := q[..k] + q[k + 1..];
    if !q[0].queued {
      assert forall i | 0 <= i < |r| :: r[i] == q[if i < k then i else i + 1];
    } else if k == 0 {
      assert r == q[1..];
      PromisedTail(q, actions);
    } else if actions[0] == q[0].id {
      assert r[1..] == q[1..][..k - 1] + q[1..][k..];
      PromisedWithout(q[1..], actions[1..], k - 1);
    } else {
      PromisedWithout(q, actions[1..], k);
    }
  }

  /** Only addresses and marks matter. */
  lemma {:induction false} PromisedSame(q: seq<Packet>, r: seq<Packet>, actions: seq<nat>)
    requires Promised(q, actions) && |q| == |r|
    requires forall i | 0 <= i < |q| :: q[i].id == r[i].id && q[i].queued == r[i].queued
    ensures Promised(r, actions)
    decreases |actions|
  {
    if q != [] && q[0].queued {
      if actions[0] == q[0].id {
        var s, t := q[1..], r[1..];
        assert forall i | 0 <= i < |s| :: s[i] == q[i + 1] && t[i] == r[i + 1];
        PromisedSame(s, t, actions[1..]);
      } else {
        PromisedSame(q, r, actions[1..]);
      }
    } else {
      assert forall i | 0 <= i < |q| :: q[i] in q;
    }
  }

  lemma {:induction false} MarksComeFirst(q: seq<Packet>, actions: seq<nat>, i: nat, j: nat)
    requires Promised(q, actions) && i < j < |q| && q[j].queued
    ensures q[i].queued
    decreases |actions|
  {
    assert q[j] in q;
    if i > 0 && q[0].queued {
      if actions[0] == q[0].id {
        assert q[1..][j - 1] == q[j] && q[1..][i - 1] == q[i];
        MarksComeFirst(q[1..], actions[1..], i - 1, j - 1);
      } else {
        MarksComeFirst(q, actions[1..], i, j);
      }
    }
  }

  /** A marked packet has a transmission pending. */
  lemma {:induction false} MarkedIsPending(q: seq<Packet>, actions: seq<nat>, i: nat)
    requires Promised(q, actions) && i < |q| && q[i].queued
    ensures q[i].id in actions
    decreases |actions|
  {
    assert q[i] in q;
    if actions[0] != q[0].id {
      MarkedIsPending(q, actions[1..], i);
    } else if i > 0 {
      assert q[1..][i - 1] == q[i];
      MarkedIsPending(q[1..], actions[1..], i - 1);
    }
  }

  /** One more packet is marked, the first that was not, and its transmission is put behind all others. */
  lemma {:induction false} PromisedMark(q: seq<Packet>, actions: seq<nat>, k: nat, p: Packet)
    requires Promised(q, actions) && k < |q| && !q[k].queued && forall i | 0 <= i < k :: q[i].queued
    requires p == q[k].(queued := true)
    ensures Promised(q[k := p], actions + [p.id])
    decreases |actions|
  {
    var r, more := q[k := p], actions + [p.id];
    if k == 0 && actions == [] {
      assert r[1..] == q[1..];
      NoneMarkedTail(q);
      assert NoneMarked(r[1..]) && more[1..] == [];
    } else {
      assert more[0] == actions[0] && more[1..] == actions[1..] + [p.id];
      if k == 0 {
        assert r[1..] == q[1..];
        if actions[0] == p.id {
          NoneMarkedTail(q);
        } else {
          PromisedMark(q, actions[1..], k, p);
        }
      } else if actions[0] == q[0].id {
        assert r[1..] == q[1..][k - 1 := p];
        PromisedMark(q[1..], actions[1..], k - 1, p);
      } else {
        PromisedMark(q, actions[1..], k, p);
      }
    }
  }

  /** The transmission that is next is carried out or skipped. */
  lemma PromisedNext(q: seq<Packet>, actions: seq<nat>)
    requires Promised(q, actions) && actions != []
    ensures if q != [] && q[0].queued && q[0].id == actions[0] then Promised(q[1..], actions[1..])
            else Promised(q, actions[1..])
  {
  }

  // ---- One pass of the scheduler --------------------------------------------

  lemma OfferedNone(q: seq<Packet>, lo: nat, accepts: nat -> bool)
    requires lo <= |q|
    ensures Offered(q, lo, lo, accepts) == q && Taken(q, lo, lo, accepts) == []
  {
  }

  lemma OfferedOneMore(q: seq<Packet>, lo: nat, hi: nat, accepts: nat -> bool)
    requires lo <= hi < |q|
    ensures Offered(q, lo, hi + 1, accepts) ==
            Offered(q, lo, hi, accepts)[hi := q[hi].(queued := accepts(hi))]
  {
  }

  /** One packet is offered, when all before it were accepted unless something was refused. */
  lemma OfferOne(q: seq<Packet>, actions: seq<nat>, n: nat, taken: bool, p: Packet)
    requires Promised(q, actions) && n < |q| && !q[n].queued && p == q[n].(queued := taken)
    requires taken ==> forall i | 0 <= i < n :: q[i].queued
    ensures Promised(q[n := p], if taken then actions + [p.id] else actions)
  {
    if taken {
      PromisedMark(q, actions, n, p);
    } else {
      assert q[n := p] == q;
    }
  }

  lemma NothingMarkedBehind(q: seq<Packet>, actions: seq<nat>, n: nat)
    requires Promised(q, actions) && FirstUnmarked(q, 0) <= n < |q|
    ensures !q[n].queued
  {
    if FirstUnmarked(q, 0) < n && q[n].queued {
      MarksComeFirst(q, actions, FirstUnmarked(q, 0), n);
    }
  }

  /** As long as nothing is accepted behind something refused the promise is kept. */
  lemma {:induction false} PassKeepsPromise(q: seq<Packet>, actions: seq<nat>, lo: nat, hi: nat, accepts: nat -> bool)
    requires Promised(q, actions) && lo == FirstUnmarked(q, 0) && lo <= hi <= |q| && InOrder(lo, hi, accepts)
    ensures Promised(Offered(q, lo, hi, accepts), actions + Taken(q, lo, hi, accepts))
    decreases hi
  {
    if lo == hi {
      OfferedNone(q, lo, accepts);
      assert actions + [] == actions;
    } else {
      var n := hi - 1;
      var r, more := Offered(q, lo, n, accepts), actions + Taken(q, lo, n, accepts);
      PassKeepsPromise(q, actions, lo, n, accepts);
      NothingMarkedBehind(q, actions, n);
      OfferOne(r, more, n, accepts(n), q[n].(queued := accepts(n)));
      OfferedOneMore(q, lo, n, accepts);
      assert actions + Taken(q, lo, hi, accepts) == if accepts(n) then more + [q[n].id] else more;
    }
  }

  /**
    After a pass of the scheduler every marked packet has its transmission
    pending, in order, exactly if nothing was accepted behind something refused.
   */
  lemma PassPromises(q: seq<Packet>, actions: seq<nat>, now: nat, accepts: nat -> bool)
    requires Promised(q, actions)
    ensures var lo := FirstUnmarked(q, 0);
            var hi := DueEnd(q, lo, now);
            Promised(Offered(q, lo, hi, accepts), actions + Taken(q, lo, hi, accepts)) <==> InOrder(lo, hi, accepts)
  {
    var lo := FirstUnmarked(q, 0);
    var hi := DueEnd(q, lo, now);
    var r, more := Offered(q, lo, hi, accepts), actions + Taken(q, lo, hi, accepts);
    if InOrder(lo, hi, accepts) {
      PassKeepsPromise(q, actions, lo, hi, accepts);
    } else {
      var k, l :| lo <= k < l < hi && accepts(l) && !accepts(k);
      if Promised(r, more) {
        MarksComeFirst(r, more, k, l);
        assert false;
      }
    }
  }
}
