/**
  What a pre-encrypted OTA image means, without buffers: a 512-byte header
  followed by AES-GCM ciphertext, and the answer to each call that feeds one
  more piece of the stream.
 */
module OtaImage {
  import opened Bytes

  const MAGIC_SIZE: nat := 4
  const ENC_GCM_KEY_SIZE: nat := 384
  const IV_SIZE: nat := 16
  const BIN_SIZE_DATA: nat := 4
  const AUTH_SIZE: nat := 16
  const RESERVED_HEADER: nat := 88
  const HEADER_SIZE: nat := 512
  const MAGIC: nat := 0x0788b6cf

  datatype Status = Ok | NotFinished | Fail | NoMem

  /**
    The parts outside this model, left uninterpreted: the RSA or ECIES step
    that turns the 384 header bytes into the AES key, whether GCM accepts the
    key and IV, the keystream (one byte of plaintext from the byte of
    ciphertext at an absolute position), the tag over all ciphertext, and
    whether realloc to zero bytes gives a usable pointer.
   */
  datatype Platform = Platform(
    unwrap: seq<uint8> -> Option<seq<uint8>>,
    starts: (seq<uint8>, seq<uint8>) -> bool,
    unmask: (seq<uint8>, seq<uint8>, nat, uint8) -> uint8,
    tag: (seq<uint8>, seq<uint8>, seq<uint8>) -> seq<uint8>,
    zeroAllocOk: bool)

  /** GCM as a stream cipher: byte i of the data is decrypted at position pos + i. */
  function Plain(c: Platform, key: seq<uint8>, iv: seq<uint8>, pos: nat, data: seq<uint8>): (r: seq<uint8>)
    ensures |r| == |data|
  {
    if data == [] then []
    else
      var n := |data| - 1;
      Plain(c, key, iv, pos, data[..n]) + [c.unmask(key, iv, pos + n, data[n])]
  }

  lemma {:induction false} PlainConcat(c: Platform, key: seq<uint8>, iv: seq<uint8>, pos: nat, a: seq<uint8>,
                                       b: seq<uint8>)
    ensures Plain(c, key, iv, pos, a + b) == Plain(c, key, iv, pos, a) + Plain(c, key, iv, pos + |a|, b)
    decreases |b|
  {
    if b == [] {
      assert a + b == a;
    } else {
      var n := |b| - 1;
      PlainConcat(c, key, iv, pos, a, b[..n]);
      assert (a + b)[..|a| + n] == a + b[..n];
    }
  }

  /** Position by position: the cut into blocks plays no part. */
  lemma {:induction false} PlainAt(c: Platform, key: seq<uint8>, iv: seq<uint8>, pos: nat, data: seq<uint8>, i: nat)
    requires i < |data|
    ensures Plain(c, key, iv, pos, data)[i] == c.unmask(key, iv, pos + i, data[i])
  {
    if i < |data| - 1 {
      PlainAt(c, key, iv, pos, data[..|data| - 1], i);
    }
  }

  /** What the first 512 bytes say, once they are there. */
  datatype Header = Pending | Bad | Good(key: seq<uint8>, iv: seq<uint8>, len: nat, tag: seq<uint8>)

  /** The header fields are fixed slices; each is judged as soon as it is complete. */
  function ReadHeader(c: Platform, s: seq<uint8>): (h: Header)
    ensures h.Good? ==> |s| >= HEADER_SIZE && h.len < U32
    ensures h.Pending? ==> |s| < HEADER_SIZE
  {
    if |s| < 4 then Pending
    else if Le32(s[0..4]) != MAGIC then Bad
    else if |s| < 388 then Pending
    else if c.unwrap(s[4..388]).None? then Bad
    else if |s| < 404 then Pending
    else if !c.starts(c.unwrap(s[4..388]).value, s[388..404]) then Bad
    else if |s| < HEADER_SIZE then Pending
    else Good(c.unwrap(s[4..388]).value, s[388..404], Le32(s[404..408]), s[408..424])
  }

  /** Number of payload bytes in the first bytes of a stream. */
  function PayloadLen(s: seq<uint8>): nat {
    if |s| < HEADER_SIZE then 0 else |s| - HEADER_SIZE
  }

  /** The plaintext of payload bytes f..g. */
  function PlainSlice(c: Platform, h: Header, s: seq<uint8>, f: nat, g: nat): (r: seq<uint8>)
    requires h.Good? && f <= g <= PayloadLen(s)
    ensures |r| == g - f
  {
    Plain(c, h.key, h.iv, f, if f == g then [] else s[HEADER_SIZE + f..HEADER_SIZE + g])
  }

  /** One-shot decryption of a whole image: the reference for every cutting. */
  function OneShot(c: Platform, s: seq<uint8>): seq<uint8>
    requires ReadHeader(c, s).Good?
  {
    PlainSlice(c, ReadHeader(c, s), s, 0, PayloadLen(s))
  }

  /** All bytes fed so far, and how many payload bytes have gone through GCM. */
  datatype Progress = Progress(fed: seq<uint8>, flushed: nat)

  datatype Outcome = Outcome(status: Status, out: seq<uint8>, next: Progress)

  predicate Reachable(c: Platform, p: Progress) {
    var h := ReadHeader(c, p.fed);
    var k := PayloadLen(p.fed);
    && !h.Bad?
    && p.flushed <= k < p.flushed + 16
    && (h.Good? && Wrap(k) == h.len ==> p.flushed == k)
  }

  /** The part of k bytes that fills whole 16-byte blocks. */
  function Blocks(k: nat): (r: nat)
    ensures r <= k < r + 16
  {
    if k < 16 then 0 else 16 + Blocks(k - 16)
  }

  lemma {:induction false} BlocksIsRounding(k: nat)
    ensures Blocks(k) == k - k % 16
  {
    if k >= 16 {
      BlocksIsRounding(k - 16);
    }
  }

  /** How far the payload has been flushed after k bytes of it, if f were flushed before. */
  function FlushTo(k: nat, f: nat): (r: nat)
    requires f <= k
    ensures f <= r <= k < r + 16
  {
    f + Blocks(k - f)
  }

  /** The answer to one call: status, plaintext produced, new progress. */
  function Feed(c: Platform, p: Progress, chunk: seq<uint8>): (r: Outcome)
    requires Reachable(c, p)
    ensures r.status in {Ok, NotFinished} ==> Reachable(c, r.next)
  {
    var s := p.fed + chunk;
    match ReadHeader(c, s)
    case Pending => Outcome(NotFinished, [], Progress(s, 0))
    case Bad => Outcome(Fail, [], Progress(s, 0))
    case Good(_, _, len, _) => FeedPayload(c, ReadHeader(c, s), s, p.flushed)
  }

  function FeedPayload(c: Platform, h: Header, s: seq<uint8>, f: nat): (r: Outcome)
    requires h.Good? && f <= PayloadLen(s)
  {
    var k := PayloadLen(s);
    if Wrap(k) == h.len then
      if k == f && !c.zeroAllocOk then Outcome(NoMem, [], Progress(s, k))
      else Outcome(Ok, PlainSlice(c, h, s, f, k), Progress(s, k))
    else
      Outcome(NotFinished, PlainSlice(c, h, s, f, FlushTo(k, f)), Progress(s, FlushTo(k, f)))
  }

  /** esp_encrypted_img_decrypt_end on a handle that has not failed. */
  predicate EndOk(c: Platform, s: seq<uint8>) {
    var h := ReadHeader(c, s);
    && h.Good?
    && Wrap(PayloadLen(s)) == h.len
    && c.tag(h.key, h.iv, s[HEADER_SIZE..]) == h.tag
  }

  datatype Trace = Trace(at: Progress, out: seq<uint8>, statuses: seq<Status>, stopped: bool)

  const START := Progress([], 0)

  /** A caller that feeds chunk after chunk and stops at the first error. */
  function Run(c: Platform, chunks: seq<seq<uint8>>): (t: Trace)
    ensures !t.stopped ==> Reachable(c, t.at)
  {
    if chunks == [] then Trace(START, [], [], false)
    else RunOn(c, Run(c, chunks[..|chunks| - 1]), chunks[|chunks| - 1])
  }

  function RunOn(c: Platform, t: Trace, chunk: seq<uint8>): (r: Trace)
    requires !t.stopped ==> Reachable(c, t.at)
    ensures !r.stopped ==> Reachable(c, r.at)
  {
    if t.stopped then t
    else
      var o := Feed(c, t.at, chunk);
      Trace(o.next, t.out + o.out, t.statuses + [o.status], o.status in {Fail, NoMem})
  }

  // ---- Theorems ------------------------------------------------------------

  /** What a prefix b of s already says about the header of s. */
  lemma HeaderOfPrefix(c: Platform, b: seq<uint8>, s: seq<uint8>)
    requires b <= s
    ensures ReadHeader(c, b).Bad? ==> ReadHeader(c, s).Bad?
    ensures |b| >= HEADER_SIZE ==> ReadHeader(c, b) == ReadHeader(c, s)
    ensures |b| < HEADER_SIZE && ReadHeader(c, s).Good? ==> ReadHeader(c, b) == Pending
  {
    assert |b| >= 4 ==> b[0..4] == s[0..4];
    assert |b| >= 388 ==> b[4..388] == s[4..388];
    assert |b| >= 404 ==> b[388..404] == s[388..404];
    assert |b| >= 408 ==> b[404..408] == s[404..408];
    assert |b| >= 424 ==> b[408..424] == s[408..424];
  }

  lemma SliceOfPrefix(c: Platform, h: Header, b: seq<uint8>, s: seq<uint8>, f: nat, g: nat)
    requires b <= s && h.Good? && f <= g <= PayloadLen(b)
    ensures PlainSlice(c, h, b, f, g) == PlainSlice(c, h, s, f, g)
  {
    if f < g {
      assert b[HEADER_SIZE + f..HEADER_SIZE + g] == s[HEADER_SIZE + f..HEADER_SIZE + g];
    }
  }

  lemma SlicesJoin(c: Platform, h: Header, s: seq<uint8>, f: nat, g: nat)
    requires h.Good? && f <= g <= PayloadLen(s)
    ensures PlainSlice(c, h, s, 0, f) + PlainSlice(c, h, s, f, g) == PlainSlice(c, h, s, 0, g)
  {
    if 0 < f < g {
      PlainConcat(c, h.key, h.iv, 0, s[HEADER_SIZE..HEADER_SIZE + f], s[HEADER_SIZE + f..HEADER_SIZE + g]);
      assert s[HEADER_SIZE..HEADER_SIZE + f] + s[HEADER_SIZE + f..HEADER_SIZE + g] == s[HEADER_SIZE..HEADER_SIZE + g];
    }
  }

  /** An image: good header, and as many payload bytes as it announces. */
  predicate IsImage(c: Platform, s: seq<uint8>) {
    var h := ReadHeader(c, s);
    h.Good? && PayloadLen(s) == h.len
  }

  /** Whole 16-byte blocks are flushed and the rest of the payload is held back. */
  function ProgressAfter(a: seq<uint8>): Progress {
    Progress(a, Blocks(PayloadLen(a)))
  }

  lemma {:induction false} FlushToBlocks(j: nat, k: nat)
    requires j <= k
    ensures Blocks(j) <= Blocks(k) && FlushTo(k, Blocks(j)) == Blocks(k)
  {
    if j >= 16 {
      FlushToBlocks(j - 16, k - 16);
    }
  }

  lemma ReachableShortOfEnd(c: Platform, a: seq<uint8>, s: seq<uint8>)
    requires IsImage(c, s) && a < s
    ensures Reachable(c, ProgressAfter(a))
    ensures ReadHeader(c, a) == if |a| < HEADER_SIZE then Pending else ReadHeader(c, s)
    ensures PayloadLen(a) <= PayloadLen(s) < U32
    ensures |a| >= HEADER_SIZE ==> PayloadLen(a) < PayloadLen(s)
  {
    HeaderOfPrefix(c, a, s);
  }

  lemma FeedInHeader(c: Platform, a: seq<uint8>, last: seq<uint8>)
    requires Reachable(c, ProgressAfter(a)) && ReadHeader(c, a + last).Pending?
    ensures Feed(c, ProgressAfter(a), last) == Outcome(NotFinished, [], ProgressAfter(a + last))
  {
  }

  lemma FeedInPayload(c: Platform, a: seq<uint8>, last: seq<uint8>, h: Header)
    requires Reachable(c, ProgressAfter(a)) && h.Good? && ReadHeader(c, a + last) == h
    ensures Blocks(PayloadLen(a)) <= PayloadLen(a + last)
    ensures Feed(c, ProgressAfter(a), last) == FeedPayload(c, h, a + last, Blocks(PayloadLen(a)))
  {
  }

  lemma FeedShortOfEnd(c: Platform, a: seq<uint8>, last: seq<uint8>, s: seq<uint8>)
    requires IsImage(c, s) && a + last < s
    ensures Reachable(c, ProgressAfter(a))
    ensures ProgressAfter(a).flushed <= ProgressAfter(a + last).flushed <= PayloadLen(s)
    ensures Feed(c, ProgressAfter(a), last) ==
            Outcome(NotFinished,
                    PlainSlice(c, ReadHeader(c, s), s, ProgressAfter(a).flushed, ProgressAfter(a + last).flushed),
                    ProgressAfter(a + last))
  {
    var b := a + last;
    assert a <= b;
    ReachableShortOfEnd(c, a, s);
    ReachableShortOfEnd(c, b, s);
    FlushToBlocks(PayloadLen(a), PayloadLen(b));
    if |b| >= HEADER_SIZE {
      FlushShortOfEnd(c, ReadHeader(c, s), b, s, Blocks(PayloadLen(a)));
      FeedInPayload(c, a, last, ReadHeader(c, s));
    } else {
      FeedInHeader(c, a, last);
    }
  }

  lemma FlushShortOfEnd(c: Platform, h: Header, b: seq<uint8>, s: seq<uint8>, f: nat)
    requires h.Good? && b <= s && f <= PayloadLen(b) && Wrap(PayloadLen(b)) != h.len
    ensures FeedPayload(c, h, b, f) ==
            Outcome(NotFinished, PlainSlice(c, h, s, f, FlushTo(PayloadLen(b), f)),
                    Progress(b, FlushTo(PayloadLen(b), f)))
  {
    SliceOfPrefix(c, h, b, s, f, FlushTo(PayloadLen(b), f));
  }

  lemma FeedToTheEnd(c: Platform, a: seq<uint8>, last: seq<uint8>, s: seq<uint8>)
    requires IsImage(c, s) && a + last == s && last != [] && PayloadLen(s) > 0
    ensures Reachable(c, ProgressAfter(a))
    ensures Feed(c, ProgressAfter(a), last) ==
            Outcome(Ok, PlainSlice(c, ReadHeader(c, s), s, ProgressAfter(a).flushed, PayloadLen(s)),
                    Progress(s, PayloadLen(s)))
  {
    ReachableShortOfEnd(c, a, s);
    FeedInPayload(c, a, last, ReadHeader(c, s));
  }

  /**
    However the beginning of an image is cut, the calls all answer
    NotFinished, the plaintext so far is the one-shot plaintext of the whole
    16-byte blocks, and k % 16 bytes are still held back after k payload bytes.
   */
  lemma {:induction false} PrefixRun(c: Platform, chunks: seq<seq<uint8>>, s: seq<uint8>)
    requires IsImage(c, s) && Flatten(chunks) < s
    ensures var t := Run(c, chunks);
            && t.at == ProgressAfter(Flatten(chunks))
            && t.out == PlainSlice(c, ReadHeader(c, s), s, 0, t.at.flushed)
            && !t.stopped
            && |t.statuses| == |chunks|
            && forall i | 0 <= i < |chunks| :: t.statuses[i] == NotFinished
  {
    if chunks != [] {
      var a := Flatten(chunks[..|chunks| - 1]);
      var last := chunks[|chunks| - 1];
      assert a <= Flatten(chunks);
      PrefixRun(c, chunks[..|chunks| - 1], s);
      FeedShortOfEnd(c, a, last, s);
      SlicesJoin(c, ReadHeader(c, s), s, ProgressAfter(a).flushed, ProgressAfter(a + last).flushed);
    }
  }

  /**
    Refinement: for every cutting of an image into chunks (the last one not
    empty) the concatenated outputs are the one-shot decryption, and only the
    call that takes the last byte answers Ok.
   */
  lemma CuttingDoesNotMatter(c: Platform, chunks: seq<seq<uint8>>, s: seq<uint8>)
    requires IsImage(c, s) && PayloadLen(s) > 0
    requires Flatten(chunks) == s && chunks[|chunks| - 1] != []
    ensures var t := Run(c, chunks);
            && t.out == OneShot(c, s)
            && t.at == Progress(s, PayloadLen(s))
            && !t.stopped
            && |t.statuses| == |chunks|
            && forall i | 0 <= i < |chunks| :: t.statuses[i] == if i == |chunks| - 1 then Ok else NotFinished
  {
    var a := Flatten(chunks[..|chunks| - 1]);
    var last := chunks[|chunks| - 1];
    PrefixRun(c, chunks[..|chunks| - 1], s);
    FeedToTheEnd(c, a, last, s);
    SlicesJoin(c, ReadHeader(c, s), s, ProgressAfter(a).flushed, PayloadLen(s));
  }

  // ---- The format, byte by byte ---------------------------------------------

  /** The payload size that the header announces: four bytes, the least significant first. */
  function AnnouncedSize(s: seq<uint8>): nat
    requires |s| >= 408
  {
    s[404] as nat + 0x100 * s[405] as nat + 0x1_0000 * s[406] as nat + 0x100_0000 * s[407] as nat
  }

  predicate HasMagic(s: seq<uint8>) {
    |s| >= 4 && s[..4] == [0xCF, 0xB6, 0x88, 0x07]
  }

  /** The key in bytes 4..388 can be unwrapped, and GCM accepts it with the IV in bytes 388..404. */
  predicate KeyAndIvAccepted(c: Platform, s: seq<uint8>)
    requires |s| >= 404
  {
    c.unwrap(s[4..388]).Some? && c.starts(c.unwrap(s[4..388]).value, s[388..404])
  }

  /** An image as it is written: header of 512 bytes, and as many bytes behind it as it announces. */
  predicate IsImageFile(c: Platform, s: seq<uint8>) {
    HasMagic(s) && |s| >= 512 && KeyAndIvAccepted(c, s) && |s| == 512 + AnnouncedSize(s)
  }

  lemma MagicBytes(s: seq<uint8>)
    requires |s| >= 4
    ensures Le32(s[0..4]) == MAGIC <==> HasMagic(s)
  {
    assert s[0..4] == s[..4] == [s[0], s[1], s[2], s[3]];
    Le32Value(s[0], s[1], s[2], s[3]);
  }

  lemma SizeBytes(s: seq<uint8>)
    requires |s| >= 408
    ensures Le32(s[404..408]) == AnnouncedSize(s)
  {
    assert s[404..408] == [s[404], s[405], s[406], s[407]];
    Le32Value(s[404], s[405], s[406], s[407]);
  }

  /** A header is refused at the first of its fields that is not accepted, as soon as that field is complete. */
  lemma BadHeaderBytes(c: Platform, s: seq<uint8>)
    ensures ReadHeader(c, s).Bad? <==>
              || (|s| >= 4 && !HasMagic(s))
              || (|s| >= 388 && c.unwrap(s[4..388]).None?)
              || (|s| >= 404 && !KeyAndIvAccepted(c, s))
  {
    if |s| >= 4 {
      MagicBytes(s);
    }
  }

  lemma GoodHeaderBytes(c: Platform, s: seq<uint8>)
    ensures ReadHeader(c, s).Good? <==> |s| >= 512 && HasMagic(s) && KeyAndIvAccepted(c, s)
    ensures ReadHeader(c, s).Good? ==>
              ReadHeader(c, s) == Good(c.unwrap(s[4..388]).value, s[388..404], AnnouncedSize(s), s[408..424])
  {
    BadHeaderBytes(c, s);
    if |s| >= 408 {
      SizeBytes(s);
    }
  }

  lemma ImageBytes(c: Platform, s: seq<uint8>)
    ensures IsImage(c, s) <==> IsImageFile(c, s)
  {
    GoodHeaderBytes(c, s);
  }

  /** Ending succeeds on images of the announced size, modulo 2^32, whose tag is right, and on nothing else. */
  lemma EndOkBytes(c: Platform, s: seq<uint8>)
    ensures EndOk(c, s) <==>
              && |s| >= 512 && HasMagic(s) && KeyAndIvAccepted(c, s)
              && (|s| - 512) % 0x1_0000_0000 == AnnouncedSize(s)
              && c.tag(c.unwrap(s[4..388]).value, s[388..404], s[512..]) == s[408..424]
  {
    GoodHeaderBytes(c, s);
    if |s| >= 512 {
      WrapIsModulo(|s| - 512);
    }
  }

  /** Every byte is decrypted at its position in the payload. */
  ghost predicate IsPlaintext(c: Platform, s: seq<uint8>, out: seq<uint8>)
    requires ReadHeader(c, s).Good?
  {
    var h := ReadHeader(c, s);
    && |out| == PayloadLen(s)
    && forall i | 0 <= i < |out| :: out[i] == c.unmask(h.key, h.iv, i, s[HEADER_SIZE + i])
  }

  lemma OneShotIsPlaintext(c: Platform, s: seq<uint8>)
    requires ReadHeader(c, s).Good?
    ensures IsPlaintext(c, s, OneShot(c, s))
  {
    var h := ReadHeader(c, s);
    var out, data := OneShot(c, s), s[HEADER_SIZE..];
    assert data == s[HEADER_SIZE..HEADER_SIZE + PayloadLen(s)];
    forall i | 0 <= i < |out|
      ensures out[i] == c.unmask(h.key, h.iv, i, s[HEADER_SIZE + i])
    {
      PlainAt(c, h.key, h.iv, 0, data, i);
    }
  }

  /**
    An image without payload: the call that completes the header answers Ok
    exactly if a reallocation to zero bytes gives a usable pointer.
   */
  lemma NoPayload(c: Platform, chunks: seq<seq<uint8>>, s: seq<uint8>)
    requires IsImage(c, s) && PayloadLen(s) == 0
    requires Flatten(chunks) == s && chunks[|chunks| - 1] != []
    ensures var t := Run(c, chunks);
            && t.out == [] && |t.statuses| == |chunks|
            && (forall i | 0 <= i < |chunks| - 1 :: t.statuses[i] == NotFinished)
            && t.statuses[|chunks| - 1] == if c.zeroAllocOk then Ok else NoMem
  {
    var a := Flatten(chunks[..|chunks| - 1]);
    var last := chunks[|chunks| - 1];
    PrefixRun(c, chunks[..|chunks| - 1], s);
    ReachableShortOfEnd(c, a, s);
    FeedInPayload(c, a, last, ReadHeader(c, s));
  }

  /** A run that never failed has been fed exactly the bytes of its chunks. */
  lemma {:induction false} RunFed(c: Platform, chunks: seq<seq<uint8>>)
    requires !Run(c, chunks).stopped
    ensures Run(c, chunks).at.fed == Flatten(chunks)
  {
    if chunks != [] {
      RunFed(c, chunks[..|chunks| - 1]);
    }
  }

  /** While the header is not complete, or not yet bad, every call answers NotFinished. */
  lemma {:induction false} PendingRun(c: Platform, chunks: seq<seq<uint8>>, s: seq<uint8>)
    requires Flatten(chunks) <= s && ReadHeader(c, Flatten(chunks)).Pending?
    ensures var t := Run(c, chunks);
            && !t.stopped && t.out == [] && t.at == Progress(Flatten(chunks), 0)
            && forall i | 0 <= i < |t.statuses| :: t.statuses[i] == NotFinished
  {
    if chunks != [] {
      var front := chunks[..|chunks| - 1];
      HeaderOfPrefix(c, Flatten(front), Flatten(chunks));
      PendingRun(c, front, s);
    }
  }

  /**
    Whatever the cutting, a bad magic, wrapped key or IV is reported by the
    call that completes the bad field; no plaintext has been given out.
   */
  lemma {:induction false} BadHeaderIsReported(c: Platform, chunks: seq<seq<uint8>>)
    requires ReadHeader(c, Flatten(chunks)).Bad?
    ensures var t := Run(c, chunks);
            && t.stopped && t.out == [] && t.statuses != []
            && t.statuses[|t.statuses| - 1] == Fail
            && forall i | 0 <= i < |t.statuses| - 1 :: t.statuses[i] == NotFinished
  {
    var front := chunks[..|chunks| - 1];
    HeaderOfPrefix(c, Flatten(front), Flatten(chunks));
    if ReadHeader(c, Flatten(front)).Bad? {
      BadHeaderIsReported(c, front);
    } else {
      PendingRun(c, front, Flatten(chunks));
    }
  }
}
