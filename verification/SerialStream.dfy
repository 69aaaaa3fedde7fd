/** When an answer that arrives in pieces is recognised, and what that does to its request. */
module SerialStream {
  import opened Bytes
  import opened Rs232Frame
  import opened Rs232Protocol
  import opened SerialRx
  import RB = RingBuffer
  import RT = RequestTable

  // ---- Data without an answer -----------------------------------------------

  /** From position n on there is no answer yet: one may have begun at w, or nowhere if w is the length. */
  predicate Waiting(d: seq<uint8>, n: nat, w: nat) {
    && n <= w <= |d| && (w < |d| ==> d[w] == OPEN)
    && (forall i | n <= i < w :: d[i] != OPEN)
    && (forall i | w < i < |d| :: d[i] != OPEN && d[i] != RETURN)
  }

  lemma WaitingFind(d: seq<uint8>, n: nat, w: nat)
    requires Waiting(d, n, w)
    ensures Find(d[n..]).1 == NoPacket && n + Find(d[n..]).0 <= w
  {
    var e := d[n..];
    assert forall i | 0 <= i < |e| :: e[i] == d[n + i];
    WaitingHere(e, w - n);
  }

  lemma WaitingHere(e: seq<uint8>, w: nat)
    requires Waiting(e, 0, w)
    ensures Find(e).1 == NoPacket && Find(e).0 <= w
  {
    var start := LastOpen(e);
    if start >= 0 {
      assert start == w;
      assert FirstReturn(e, start) == |e|;
    }
  }

  lemma WaitingRound(find: Finder, decode: Decoder, rqId: nat, d: seq<uint8>, w: nat, p: Parsed)
    requires IsFind(find) && Sound(find) && Waiting(d, p.n, w)
    ensures var q := AfterRound(find, decode, rqId, d, p);
            q.texts == p.texts && p.n <= q.n <= w && q.status == PARSE_STATUS_NO_PACKET
  {
    WaitingFind(d, p.n, w);
    assert find(d[p.n..]) == Find(d[p.n..]);
    assert p.texts + [] == p.texts;
  }

  lemma {:induction false} WaitingParse(find: Finder, decode: Decoder, rqId: nat, d: seq<uint8>, w: nat, p: Parsed,
                                        x: nat)
    requires IsFind(find) && Sound(find) && Waiting(d, p.n, w)
    ensures var r := Parse(find, decode, rqId, d, p, x);
            r.texts == p.texts && r.n <= w && (r.status == p.status || r.status == PARSE_STATUS_NO_PACKET)
    decreases x
  {
    if p.n < |d| && x > 0 {
      WaitingRound(find, decode, rqId, d, w, p);
      WaitingParse(find, decode, rqId, d, w, AfterRound(find, decode, rqId, d, p), x - 1);
    }
  }

  lemma WaitingParseOnce(find: Finder, decode: Decoder, d: seq<uint8>, w: nat, p: Processed)
    requires IsFind(find) && Sound(find) && Waiting(d, p.n, w)
    ensures var q := AfterParse(p, ParseOnce(find, decode, p.lastRqId, d, p.n));
            q.texts == p.texts && q.lastRqId == p.lastRqId && p.n <= q.n <= w
  {
    WaitingParse(find, decode, p.lastRqId, d, w, Parsed(p.n, PARSE_STATUS_NO_PACKET, []), ROUNDS);
    assert p.texts + [] == p.texts;
  }

  /** While nothing is there nothing is recognised, the request stays outstanding and the beginning is kept. */
  lemma {:induction false} WaitingProcess(find: Finder, decode: Decoder, d: seq<uint8>, w: nat, p: Processed, x: nat)
    requires IsFind(find) && Sound(find) && Waiting(d, p.n, w)
    ensures var r := Process(find, decode, d, p, x);
            r.texts == p.texts && r.lastRqId == p.lastRqId && r.n <= w
    decreases x
  {
    if p.n < |d| && x > 0 {
      WaitingParseOnce(find, decode, d, w, p);
      WaitingProcess(find, decode, d, w, AfterParse(p, ParseOnce(find, decode, p.lastRqId, d, p.n)), x - 1);
    }
  }

  // ---- Data with an answer --------------------------------------------------

  /** Whether an answer settles its request: a rejection does, and one that its decoder accepts with PARSE_STATUS_OK. */
  predicate SettledBy(decode: Decoder, rqId: nat, text: seq<uint8>) {
    IsNak(text) || Settles(decode(rqId, text))
  }

  /** An answer behind noise and before more noise. */
  datatype Arrival = Arrival(noise: seq<uint8>, text: seq<uint8>, rest: seq<uint8>)

  function Stream(a: Arrival): seq<uint8> {
    a.noise + Answer(a.text) + a.rest
  }

  /** Where the answer ends. */
  function EndOf(a: Arrival): nat {
    |a.noise| + |Answer(a.text)|
  }

  /** Some text; no second "(" anywhere, and no carriage return inside. */
  predicate Clean(a: Arrival) {
    && a.text != [] && OPEN !in a.noise && OPEN !in a.rest
    && OPEN !in Answer(a.text)[1..] && RETURN !in Answer(a.text)[..|a.text| + 3]
  }

  /** From the middle of the noise to the end. */
  lemma CleanFrom(a: Arrival, j: nat)
    requires Clean(a) && j <= |a.noise|
    ensures var b := a.(noise := a.noise[j..]);
            Clean(b) && Stream(b) == Stream(a)[j..] && EndsWithAnswer(Stream(b), b.noise, b.text, b.rest)
  {
    var b := a.(noise := a.noise[j..]);
    assert Stream(b) == Stream(a)[j..];
  }

  lemma RestIsWaiting(a: Arrival, n: nat)
    requires Clean(a) && EndOf(a) <= n <= |Stream(a)|
    ensures Waiting(Stream(a), n, |Stream(a)|)
  {
    var d := Stream(a);
    assert forall i | EndOf(a) <= i < |d| :: d[i] == a.rest[i - EndOf(a)];
  }

  lemma PartIsWaiting(a: Arrival, j: nat, k: nat)
    requires Clean(a) && j <= |a.noise| && j <= k < EndOf(a)
    ensures Waiting(Stream(a)[j..k], 0, Min(|a.noise|, k) - j)
  {
    var p, m := |a.noise|, Answer(a.text);
    var d := Stream(a);
    assert forall i | 0 <= i < p :: d[i] == a.noise[i];
    assert forall i | p <= i < EndOf(a) :: d[i] == m[i - p];
    var tail, front := m[1..], m[..|a.text| + 3];
    assert forall i | 0 < i < |m| :: m[i] == tail[i - 1];
    assert forall i | 0 <= i < |m| - 1 :: m[i] == front[i];
    assert m[0] == OPEN;
    var e := d[j..k];
    assert forall i | 0 <= i < |e| :: e[i] == d[j + i];
  }

  lemma AnswerRound(find: Finder, decode: Decoder, a: Arrival, last: nat)
    requires IsFind(find) && Clean(a)
    ensures var q := AfterRound(find, decode, last, Stream(a), Parsed(0, PARSE_STATUS_NO_PACKET, []));
            && q.n == EndOf(a) && q.texts == [a.text]
            && q.status == if IsNak(a.text) then PARSE_STATUS_RQ_REJECTED else decode(last, a.text)
  {
    var d := Stream(a);
    AnswerIsPacket(d, a.noise, a.text, a.rest);
    assert d[0..] == d && find(d) == Find(d);
  }

  lemma AnswerParse(find: Finder, decode: Decoder, a: Arrival, last: nat)
    requires IsFind(find) && Sound(find) && Clean(a) && last != RT.EXP_RSP_INVALID
    ensures var r := ParseOnce(find, decode, last, Stream(a), 0);
            r.texts == [a.text] && EndOf(a) <= r.n && (Settles(r.status) <==> SettledBy(decode, last, a.text))
  {
    var d, p := Stream(a), Parsed(0, PARSE_STATUS_NO_PACKET, []);
    AnswerRound(find, decode, a, last);
    var q := AfterRound(find, decode, last, d, p);
    RestIsWaiting(a, q.n);
    WaitingParse(find, decode, last, d, |d|, q, ROUNDS - 1);
    assert Parse(find, decode, last, d, p, ROUNDS) ==
        if EndsParsing(q.status) then q else Parse(find, decode, last, d, q, ROUNDS - 1);
  }

  /** An answer that is there is recognised, once, and settles the request or not. */
  lemma AnswerProcess(find: Finder, decode: Decoder, a: Arrival, last: nat)
    requires IsFind(find) && Sound(find) && Clean(a) && last != RT.EXP_RSP_INVALID
    ensures var r := ProcessAll(find, decode, Stream(a), last);
            && r.texts == [a.text] && EndOf(a) <= r.n
            && r.lastRqId == if SettledBy(decode, last, a.text) then RT.EXP_RSP_INVALID else last
  {
    var d, p := Stream(a), Processed(0, last, []);
    AnswerParse(find, decode, a, last);
    var q := AfterParse(p, ParseOnce(find, decode, last, d, 0));
    assert q.texts == [] + [a.text] == [a.text];
    RestIsWaiting(a, q.n);
    WaitingProcess(find, decode, d, |d|, q, ROUNDS - 1);
    assert Process(find, decode, d, p, ROUNDS) == Process(find, decode, d, q, ROUNDS - 1);
  }

  // ---- Arriving in pieces ---------------------------------------------------

  /** What the ring holds of a stream after its first k bytes: everything from j on, and j is not past the noise. */
  ghost predicate Holds(contents: seq<uint8>, a: Arrival, k: nat, j: nat) {
    j <= |a.noise| && j <= k <= |Stream(a)| && contents == Stream(a)[j..k]
  }

  /** process_data while everything in the ring fits into one packet. */
  method ProcessShort(rx: Receiver, chunk: seq<uint8>, ghost d: seq<uint8>) returns (ghost r: Processed)
    requires rx.Valid() && chunk != [] && rx.ring.Contents() + chunk == d && |d| <= rx.maxPacketLen
    modifies rx.ring, rx.ring.buffer, rx.protocol, rx.client`live, rx.client`lastRqId, rx.client.slots
    ensures rx.Valid() && r == ProcessAll(rx.protocol.find, rx.protocol.decode, d, old(rx.client.lastRqId))
    ensures rx.ring.Contents() == d[r.n..] && rx.client.lastRqId == r.lastRqId
    ensures rx.protocol.recognised == old(rx.protocol.recognised) + r.texts
    ensures r.texts == [] ==> rx.protocol.recognised == old(rx.protocol.recognised)
    ensures rx.client.lastRqId == old(rx.client.lastRqId) ==> rx.client.slots[..] == old(rx.client.slots[..])
  {
    assert RB.Newest(d, rx.ring.buffer.Length) == d && d[..Min(rx.maxPacketLen, |d|)] == d;
    r := ProcessAll(rx.protocol.find, rx.protocol.decode, d, rx.client.lastRqId);
    rx.ProcessData(chunk);
  }

  lemma PartProcessed(find: Finder, decode: Decoder, a: Arrival, j: nat, k: nat, last: nat)
    requires IsFind(find) && Sound(find) && Clean(a) && j <= |a.noise| && j <= k < EndOf(a)
    ensures var d := Stream(a)[j..k];
            var r := ProcessAll(find, decode, d, last);
            r.texts == [] && r.lastRqId == last && Holds(d[r.n..], a, k, j + r.n)
  {
    var d := Stream(a)[j..k];
    PartIsWaiting(a, j, k);
    WaitingProcess(find, decode, d, Min(|a.noise|, k) - j, Processed(0, last, []), ROUNDS);
    var n := ProcessAll(find, decode, d, last).n;
    assert d[n..] == Stream(a)[j + n..k];
  }

  /** A chunk that does not complete the answer: nothing is recognised, nothing of the answer is lost. */
  method ReceivePart(rx: Receiver, chunk: seq<uint8>, ghost a: Arrival, ghost j: nat, ghost k: nat, ghost m: nat)
    returns (ghost j': nat)
    requires rx.Valid() && Clean(a) && |Stream(a)| <= rx.maxPacketLen
    requires k < m < EndOf(a) && chunk == Stream(a)[k..m] && Holds(rx.ring.Contents(), a, k, j)
    modifies rx.ring, rx.ring.buffer, rx.protocol, rx.client`live, rx.client`lastRqId, rx.client.slots
    ensures rx.Valid() && rx.client.lastRqId == old(rx.client.lastRqId)
    ensures rx.protocol.recognised == old(rx.protocol.recognised)
    ensures Holds(rx.ring.Contents(), a, m, j')
  {
    ghost var d := Stream(a)[j..m];
    assert rx.ring.Contents() + chunk == d;
    PartProcessed(rx.protocol.find, rx.protocol.decode, a, j, m, rx.client.lastRqId);
    ghost var r := ProcessShort(rx, chunk, d);
    j' := j + r.n;
  }

  /** The chunk that completes the answer. */
  method ReceiveEnd(rx: Receiver, chunk: seq<uint8>, ghost a: Arrival, ghost j: nat, ghost k: nat)
    requires rx.Valid() && Clean(a) && chunk != [] && |Stream(a)| <= rx.maxPacketLen
    requires rx.client.lastRqId != RT.EXP_RSP_INVALID
    requires k <= |Stream(a)| && chunk == Stream(a)[k..] && Holds(rx.ring.Contents(), a, k, j)
    modifies rx.ring, rx.ring.buffer, rx.protocol, rx.client`live, rx.client`lastRqId, rx.client.slots
    ensures rx.Valid() && rx.protocol.recognised == old(rx.protocol.recognised) + [a.text]
    ensures rx.client.lastRqId ==
              if SettledBy(rx.protocol.decode, old(rx.client.lastRqId), a.text) then RT.EXP_RSP_INVALID
              else old(rx.client.lastRqId)
  {
    ghost var d := Stream(a)[j..];
    assert rx.ring.Contents() + chunk == d;
    CleanFrom(a, j);
    AnswerProcess(rx.protocol.find, rx.protocol.decode, a.(noise := a.noise[j..]), rx.client.lastRqId);
    ghost var r := ProcessShort(rx, chunk, d);
  }

  /** The receiver after a chunk: what it has recognised, and what the ring holds, from where in the stream. */
  datatype Snapshot = Snapshot(recognised: seq<seq<uint8>>, held: seq<uint8>, from: nat)

  /** Nothing more than before is recognised after k bytes, and the ring holds all of the answer that has arrived. */
  ghost predicate NotYet(s: Snapshot, before: seq<seq<uint8>>, a: Arrival, k: nat) {
    s.recognised == before && Holds(s.held, a, k, s.from)
  }

  /** How many bytes have arrived after each chunk. */
  function Ends(chunks: seq<seq<uint8>>): (r: seq<nat>)
    ensures |r| == |chunks|
  {
    if chunks == [] then [] else Ends(chunks[..|chunks| - 1]) + [|Flatten(chunks)|]
  }

  lemma {:induction false} EndsAt(chunks: seq<seq<uint8>>, i: nat)
    requires i < |chunks|
    ensures Ends(chunks)[i] == |Flatten(chunks[..i + 1])|
    decreases |chunks|
  {
    if i == |chunks| - 1 {
      assert chunks[..i + 1] == chunks;
    } else {
      EndsAt(chunks[..|chunks| - 1], i);
      assert chunks[..|chunks| - 1][..i + 1] == chunks[..i + 1];
    }
  }

  /** What was the case after each chunk so far. */
  ghost predicate Traced(trace: seq<Snapshot>, before: seq<seq<uint8>>, a: Arrival, ends: seq<nat>)
    requires |trace| <= |ends|
  {
    forall i | 0 <= i < |trace| :: NotYet(trace[i], before, a, ends[i])
  }

  lemma TraceGrows(trace: seq<Snapshot>, before: seq<seq<uint8>>, a: Arrival, ends: seq<nat>, s: Snapshot)
    requires |trace| < |ends| && Traced(trace, before, a, ends) && NotYet(s, before, a, ends[|trace|])
    ensures Traced(trace + [s], before, a, ends)
  {
  }

  /** The receiver has had k bytes in some chunks, and the answer was not complete; j is where its ring starts. */
  ghost predicate Receiving(rx: Receiver, a: Arrival, k: nat, j: nat, before: seq<seq<uint8>>, last: nat)
    reads rx, rx.ring, rx.ring.buffer, rx.protocol, rx.client, rx.client.slots
  {
    && rx.Valid() && rx.client.lastRqId == last && rx.protocol.recognised == before
       && Holds(rx.ring.Contents(), a, k, j)
  }

  /** One more chunk, not the last. */
  method ReceiveNext(rx: Receiver, chunk: seq<uint8>, ghost a: Arrival, ghost j: nat, ghost k: nat, ghost m: nat,
                     ghost before: seq<seq<uint8>>, ghost last: nat)
    returns (ghost s: Snapshot)
    requires Receiving(rx, a, k, j, before, last) && Clean(a) && |Stream(a)| <= rx.maxPacketLen
    requires k < m < EndOf(a) && chunk == Stream(a)[k..m]
    modifies rx.ring, rx.ring.buffer, rx.protocol, rx.client`live, rx.client`lastRqId, rx.client.slots
    ensures NotYet(s, before, a, m) && Receiving(rx, a, m, s.from, before, last)
  {
    ghost var j' := ReceivePart(rx, chunk, a, j, k, m);
    s := Snapshot(before, rx.ring.Contents(), j');
  }

  /** Where a chunk begins. */
  function Begin(ends: seq<nat>, i: nat): nat
    requires i <= |ends|
  {
    if i == 0 then 0 else ends[i - 1]
  }

  /** A chunk that is not the last: it ends before the answer does. */
  predicate Early(chunk: seq<uint8>, a: Arrival, k: nat, m: nat) {
    k < m < EndOf(a) && m <= |Stream(a)| && chunk == Stream(a)[k..m]
  }

  lemma EarlyChunks(chunks: seq<seq<uint8>>, a: Arrival, i: nat)
    requires i + 1 < |chunks| && Flatten(chunks) == Stream(a) && chunks[i] != []
    requires |Flatten(chunks[..|chunks| - 1])| < EndOf(a)
    ensures Early(chunks[i], a, Begin(Ends(chunks), i), Ends(chunks)[i])
  {
    ChunkPlace(chunks, i, |chunks| - 1, Stream(a));
    EndsAt(chunks, i);
    if i > 0 {
      EndsAt(chunks, i - 1);
    }
  }

  /** All chunks but the last. */
  method ReceiveParts(rx: Receiver, chunks: seq<seq<uint8>>, n: nat, ghost a: Arrival, ghost ends: seq<nat>)
    returns (ghost trace: seq<Snapshot>, ghost j: nat)
    requires n <= |chunks| == |ends| && Clean(a) && |Stream(a)| <= rx.maxPacketLen
    requires rx.Valid() && rx.ring.Contents() == []
    requires forall i | 0 <= i < n :: Early(chunks[i], a, Begin(ends, i), ends[i])
    modifies rx.ring, rx.ring.buffer, rx.protocol, rx.client`live, rx.client`lastRqId, rx.client.slots
    ensures |trace| == n && Traced(trace, old(rx.protocol.recognised), a, ends)
    ensures Receiving(rx, a, Begin(ends, n), j, old(rx.protocol.recognised), old(rx.client.lastRqId))
  {
    ghost var before, last := rx.protocol.recognised, rx.client.lastRqId;
    trace, j := [], 0;
    for i := 0 to n
      invariant |trace| == i && Traced(trace, before, a, ends)
      invariant Receiving(rx, a, Begin(ends, i), j, before, last)
    {
      ghost var s := ReceiveNext(rx, chunks[i], a, j, Begin(ends, i), ends[i], before, last);
      TraceGrows(trace, before, a, ends, s);
      j, trace := s.from, trace + [s];
    }
  }

  /**
    An answer that arrives in pieces, behind noise and before more noise: it is
    recognised at the chunk with its carriage return and not before, and until
    then the ring holds all of it that has arrived.
   */
  method ReceiveAnswer(rx: Receiver, chunks: seq<seq<uint8>>, ghost a: Arrival) returns (ghost trace: seq<Snapshot>)
    requires rx.Valid() && rx.ring.Contents() == [] && rx.client.lastRqId != RT.EXP_RSP_INVALID
    requires Clean(a) && |Stream(a)| <= rx.maxPacketLen
    requires |chunks| > 0 && Flatten(chunks) == Stream(a) && forall i | 0 <= i < |chunks| :: chunks[i] != []
    requires |Flatten(chunks[..|chunks| - 1])| < EndOf(a)
    modifies rx.ring, rx.ring.buffer, rx.protocol, rx.client`live, rx.client`lastRqId, rx.client.slots
    ensures rx.Valid() && rx.protocol.recognised == old(rx.protocol.recognised) + [a.text]
    ensures rx.client.lastRqId ==
              if SettledBy(rx.protocol.decode, old(rx.client.lastRqId), a.text) then RT.EXP_RSP_INVALID
              else old(rx.client.lastRqId)
    ensures |trace| == |chunks| - 1 && Traced(trace, old(rx.protocol.recognised), a, Ends(chunks))
  {
    var n := |chunks| - 1;
    ghost var ends, j := Ends(chunks), 0;
    forall i | 0 <= i < n
      ensures Early(chunks[i], a, Begin(ends, i), ends[i])
    {
      EarlyChunks(chunks, a, i);
    }
    trace, j := ReceiveParts(rx, chunks, n, a, ends);
    LastChunk(chunks, a);
    ReceiveEnd(rx, chunks[n], a, j, Begin(ends, n));
  }

  lemma LastChunk(chunks: seq<seq<uint8>>, a: Arrival)
    requires chunks != [] && Flatten(chunks) == Stream(a)
    ensures var n := |chunks| - 1;
            Begin(Ends(chunks), n) <= |Stream(a)| && chunks[n] == Stream(a)[Begin(Ends(chunks), n)..]
  {
    var n := |chunks| - 1;
    FlattenPrefix(chunks, n);
    assert chunks[..n + 1] == chunks;
    if n > 0 {
      EndsAt(chunks, n - 1);
    }
  }

  /** Where chunk i lies in the stream; it ends no later than chunk n begins. */
  lemma ChunkPlace(chunks: seq<seq<uint8>>, i: nat, n: nat, stream: seq<uint8>)
    requires i < n <= |chunks| && Flatten(chunks) == stream
    ensures var k := |Flatten(chunks[..i])|;
            && k + |chunks[i]| == |Flatten(chunks[..i + 1])| <= |Flatten(chunks[..n])|
            && k + |chunks[i]| <= |stream| && chunks[i] == stream[k..k + |chunks[i]|]
  {
    FlattenPrefix(chunks, i);
    LaterPrefix(chunks, i + 1, n);
  }

  lemma {:induction false} LaterPrefix<T>(chunks: seq<seq<T>>, i: nat, n: nat)
    requires i <= n <= |chunks|
    ensures |Flatten(chunks[..i])| <= |Flatten(chunks[..n])|
    decreases n - i
  {
    if i < n {
      FlattenPrefix(chunks, i);
      LaterPrefix(chunks, i + 1, n);
    }
  }

  // ---- Answers that do not count --------------------------------------------

  /** Decoders as they are written: zero for success, something negative for failure. */
  ghost predicate NeverOk(decode: Decoder) {
    forall rqId, text :: !Settles(decode(rqId, text))
  }

  predicate SomeNak(texts: seq<seq<uint8>>) {
    exists t | t in texts :: IsNak(t)
  }

  lemma SomeNakGrows(a: seq<seq<uint8>>, b: seq<seq<uint8>>)
    ensures SomeNak(a + b) <==> SomeNak(a) || SomeNak(b)
  {
    if SomeNak(a) {
      var t :| t in a && IsNak(t);
      assert t in a + b;
    } else if SomeNak(b) {
      var t :| t in b && IsNak(t);
      assert t in a + b;
    }
  }

  lemma NeverOkRound(find: Finder, decode: Decoder, rqId: nat, d: seq<uint8>, p: Parsed)
    requires NeverOk(decode) && p.n <= |d|
    ensures var q := AfterRound(find, decode, rqId, d, p);
            && (Settles(q.status) ==> SomeNak(q.texts)) && (SomeNak(p.texts) ==> SomeNak(q.texts))
  {
    var f := find(d[p.n..]).1;
    SomeNakGrows(p.texts, TextsOf(f));
    if f.Packet? && IsNak(f.text) {
      assert f.text in TextsOf(f);
    }
  }

  lemma {:induction false} NeverOkParse(find: Finder, decode: Decoder, rqId: nat, d: seq<uint8>, p: Parsed, x: nat)
    requires Sound(find) && NeverOk(decode) && p.n <= |d| && (Settles(p.status) ==> SomeNak(p.texts))
    ensures var r := Parse(find, decode, rqId, d, p, x);
            && (Settles(r.status) ==> SomeNak(r.texts)) && (SomeNak(p.texts) ==> SomeNak(r.texts))
    decreases x
  {
    if p.n < |d| && x > 0 {
      NeverOkRound(find, decode, rqId, d, p);
      NeverOkParse(find, decode, rqId, d, AfterRound(find, decode, rqId, d, p), x - 1);
    }
  }

  lemma NeverOkOnce(find: Finder, decode: Decoder, d: seq<uint8>, p: Processed, q: Processed)
    requires Sound(find) && NeverOk(decode) && p.n <= |d|
    requires q == AfterParse(p, ParseOnce(find, decode, p.lastRqId, d, p.n))
    ensures q.lastRqId == p.lastRqId || SomeNak(q.texts)
    ensures SomeNak(p.texts) ==> SomeNak(q.texts)
  {
    var start := Parsed(p.n, PARSE_STATUS_NO_PACKET, []);
    NeverOkParse(find, decode, p.lastRqId, d, start, ROUNDS);
    SomeNakGrows(p.texts, ParseOnce(find, decode, p.lastRqId, d, p.n).texts);
  }

  /** With such decoders only a rejection settles a request, whatever is received. */
  lemma {:induction false} OnlyNakSettles(find: Finder, decode: Decoder, d: seq<uint8>, p: Processed, x: nat)
    requires Sound(find) && NeverOk(decode) && p.n <= |d|
    ensures var r := Process(find, decode, d, p, x);
            && (r.lastRqId == p.lastRqId || SomeNak(r.texts)) && (SomeNak(p.texts) ==> SomeNak(r.texts))
    decreases x
  {
    if p.n < |d| && x > 0 {
      var q := AfterParse(p, ParseOnce(find, decode, p.lastRqId, d, p.n));
      NeverOkOnce(find, decode, d, p, q);
      OnlyNakSettles(find, decode, d, q, x - 1);
    }
  }

  /** Messages of the inverter fit the length byte of the request table exactly up to 252 bytes. */
  lemma SerializedLengthsFit(n: nat)
    ensures RT.LengthsFit(Serialized, n) <==> n < 253
  {
    if n < 253 {
      forall payload: seq<uint8> | |payload| <= n
        ensures |Serialized(payload)| % 0x100 > 0
      {
      }
    } else {
      var payload := seq(253, _ => 0 as uint8);
      assert |Serialized(payload)| == 256;
    }
  }

  // ---- Answered, and sent again ---------------------------------------------

  /** A one-shot request that has been sent n times without being settled, and is due. */
  predicate Due(s: RT.Slot, id: nat, r: nat, n: nat) {
    && s.active && s.payload.Some? && s.payload.value.id == id && !s.periodic && s.maxRetries == r
    && s.retries == n && RT.Delay(s) <= 50 && s.rqId < RT.EXP_RSP_INVALID && s.timeout < U16
  }

  predicate OnlyActive(slots: seq<RT.Slot>, i: nat) {
    i < |slots| && forall k | 0 <= k < |slots| && k != i :: !slots[k].active
  }

  /** The table has one request, and that has been sent n times. */
  ghost predicate Unsettled(client: RT.Client, i: nat, id: nat, r: nat, n: nat)
    reads client, client.slots
  {
    && client.Valid() && OnlyActive(client.slots[..], i) && Due(client.slots[i], id, r, n)
    && id in client.jobs && client.jobs[id].sent == n
  }

  lemma {:induction false} EarliestOfOne(slots: seq<RT.Slot>, i: nat, n: nat)
    requires OnlyActive(slots, i) && n <= |slots| && RT.Delay(slots[i]) < RT.INT32_MAX
    ensures RT.Earliest(slots, n) == if i < n && slots[i].active then RT.Delay(slots[i]) else RT.INT32_MAX
  {
    if n > 0 {
      EarliestOfOne(slots, i, n - 1);
    }
  }

  lemma AfterOneMoreSend(slots: seq<RT.Slot>, i: nat, id: nat, r: nat, n: nat)
    requires OnlyActive(slots, i) && Due(slots[i], id, r, n) && n <= r < 255
    ensures var mid := slots[i := RT.AfterSend(slots[i])];
            var later := RT.Waited(mid, RT.NextTimer(RT.Earliest(mid, |mid|)));
            OnlyActive(later, i) && if n < r then Due(later[i], id, r, n + 1) else !later[i].active
  {
    var mid := slots[i := RT.AfterSend(slots[i])];
    assert forall k | 0 <= k < |slots| && k != i :: mid[k] == slots[k];
    EarliestOfOne(mid, i, |mid|);
    RT.WaitedAt(mid, RT.NextTimer(RT.Earliest(mid, |mid|)));
  }

  /** The timer fires: the request is sent once more. */
  method SendAgain(client: RT.Client, i: nat, ghost id: nat, ghost r: nat, ghost n: nat)
    requires Unsettled(client, i, id, r, n) && n <= r < 255
    modifies client, client.slots
    ensures client.Valid() && client.lastRqId != RT.EXP_RSP_INVALID
    ensures id in client.jobs && client.jobs[id].sent == n + 1
    ensures if n < r then Unsettled(client, i, id, r, n + 1) else client.slots[i].active == false
  {
    ghost var was := client.slots[..];
    EarliestOfOne(was, i, |was|);
    AfterOneMoreSend(was, i, id, r, n);
    var sent, idx := client.SendRq(0, 0);
    assert idx == i;
  }

  /** A whole answer in one piece, other than a rejection. */
  method HearAnswer(rx: Receiver, text: seq<uint8>)
    requires rx.Valid() && rx.ring.Contents() == [] && rx.client.lastRqId != RT.EXP_RSP_INVALID
    requires Clean(Arrival([], text, [])) && |Answer(text)| <= rx.maxPacketLen && !IsNak(text)
             && NeverOk(rx.protocol.decode)
    modifies rx.ring, rx.ring.buffer, rx.protocol, rx.client`live, rx.client`lastRqId, rx.client.slots
    ensures rx.Valid() && rx.ring.Contents() == [] && rx.protocol.recognised == old(rx.protocol.recognised) + [text]
    ensures rx.client.slots[..] == old(rx.client.slots[..])
  {
    ghost var a := Arrival([], text, []);
    assert Stream(a) == Answer(text) && rx.ring.Contents() + Answer(text) == Answer(text);
    AnswerProcess(rx.protocol.find, rx.protocol.decode, a, rx.client.lastRqId);
    ghost var r := ProcessShort(rx, Answer(text), Answer(text));
  }

  /** After n transmissions and n answers: all answers have been recognised, and what became of the request. */
  ghost predicate InVain(rx: Receiver, i: nat, id: nat, r: nat, n: nat, recognised: seq<seq<uint8>>)
    reads rx, rx.ring, rx.ring.buffer, rx.protocol, rx.client, rx.client.slots
  {
    && rx.Valid() && rx.ring.Contents() == [] && rx.protocol.recognised == recognised
    && id in rx.client.jobs && rx.client.jobs[id].sent == n
    && if n <= r then Unsettled(rx.client, i, id, r, n) else i < rx.client.slots.Length && !rx.client.slots[i].active
  }

  lemma OneMore<T>(a: seq<T>, b: seq<T>, n: nat)
    requires n < |b|
    ensures a + b[..n + 1] == a + b[..n] + [b[n]] && b[n] in b
  {
  }

  method SendAndHear(rx: Receiver, i: nat, ghost id: nat, r: nat, n: nat, text: seq<uint8>,
                     ghost recognised: seq<seq<uint8>>)
    requires InVain(rx, i, id, r, n, recognised) && n <= r < 255
    requires Clean(Arrival([], text, [])) && |Answer(text)| <= rx.maxPacketLen && !IsNak(text)
             && NeverOk(rx.protocol.decode)
    modifies rx.ring, rx.ring.buffer, rx.protocol, rx.client, rx.client.slots
    ensures InVain(rx, i, id, r, n + 1, recognised + [text])
  {
    SendAgain(rx.client, i, id, r, n);
    HearAnswer(rx, text);
  }

  /**
    A request that is answered correctly every time it is sent is nevertheless
    sent r + 1 times and then given up: no decoder reports PARSE_STATUS_OK.
   */
  method AnsweredInVain(rx: Receiver, i: nat, ghost id: nat, r: nat, texts: seq<seq<uint8>>)
    requires rx.Valid() && rx.ring.Contents() == [] && NeverOk(rx.protocol.decode)
    requires Unsettled(rx.client, i, id, r, 0) && r < 255 && |texts| == r + 1
    requires forall t | t in texts :: Clean(Arrival([], t, [])) && |Answer(t)| <= rx.maxPacketLen && !IsNak(t)
    modifies rx.ring, rx.ring.buffer, rx.protocol, rx.client, rx.client.slots
    ensures rx.Valid() && rx.protocol.recognised == old(rx.protocol.recognised) + texts
    ensures id in rx.client.jobs && rx.client.jobs[id].sent == r + 1
    ensures i < rx.client.slots.Length && !rx.client.slots[i].active
  {
    ghost var recognised, before := rx.protocol.recognised, rx.protocol.recognised;
    assert before == before + texts[..0];
    for n := 0 to r + 1
      invariant InVain(rx, i, id, r, n, recognised) && recognised == before + texts[..n]
    {
      OneMore(before, texts, n);
      SendAndHear(rx, i, id, r, n, texts[n], recognised);
      recognised := before + texts[..n + 1];
    }
    assert texts[..r + 1] == texts;
  }
}
