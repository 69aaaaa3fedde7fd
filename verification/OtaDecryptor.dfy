/**
  The resumable decryptor itself: a handle with fixed buffers, updated in
  place by every call. Each call is proved to give the answer of
  OtaImage.Feed on all bytes fed so far.
 */
module OtaDecryptor {
  import opened Bytes
  import opened OtaImage

  datatype State = ReadMagic | ReadGcm | ReadIv | ReadBinSize | ReadAuth | ReadExtraHeader | DecodeData

  /** The embedded GCM context: its key and IV, all ciphertext given to it, and the size of every update. */
  datatype Gcm = Gcm(key: seq<uint8>, iv: seq<uint8>, fed: seq<uint8>, updates: seq<nat>)

  /** What a stage of the fall-through switch does next. */
  datatype Flow = Continue | Return(status: Status)

  predicate Aligned(updates: seq<nat>) {
    forall i | 0 <= i < |updates| :: updates[i] % 16 == 0
  }

  /** Every update but the last has a multiple of 16 bytes, as GCM asks. */
  predicate AlignedButLast(updates: seq<nat>) {
    updates == [] || Aligned(updates[..|updates| - 1])
  }

  /** Taking in more bytes leaves the header fields already complete as they were. */
  lemma HeaderKept(a: seq<uint8>, b: seq<uint8>)
    requires a <= b
    ensures |a| >= 4 ==> b[0..4] == a[0..4]
    ensures |a| >= 388 ==> b[4..388] == a[4..388]
    ensures |a| >= 404 ==> b[388..404] == a[388..404]
    ensures |a| >= 408 ==> b[404..408] == a[404..408]
    ensures |a| >= 424 ==> b[408..424] == a[408..424]
  {
  }

  /** The payload so far is what GCM has had, up to flushed, and then what the cache holds back. */
  predicate Split(fed: seq<uint8>, flushed: nat, gcmFed: seq<uint8>, held: seq<uint8>) {
    && |fed| >= HEADER_SIZE
    && flushed <= PayloadLen(fed) < flushed + 16
    && gcmFed == fed[HEADER_SIZE..HEADER_SIZE + flushed]
    && held == fed[HEADER_SIZE + flushed..]
  }

  /** Flushing n bytes after more data has come keeps the split. */
  lemma SplitStep(c: Platform, h: Header, fed: seq<uint8>, f: nat, gcmFed: seq<uint8>, held: seq<uint8>,
                  data: seq<uint8>, pending: seq<uint8>, n: nat)
    requires Split(fed, f, gcmFed, held) && h.Good?
    requires pending == held + data && n <= |pending| < n + 16
    ensures PayloadLen(fed + data) == f + |pending|
    ensures Split(fed + data, f + n, gcmFed + pending[..n], pending[n..])
    ensures Plain(c, h.key, h.iv, |gcmFed|, pending[..n]) == PlainSlice(c, h, fed + data, f, f + n)
  {
    MoreToSplit(fed, f, gcmFed, held, data, pending, n);
  }

  lemma MoreToSplit(fed: seq<uint8>, f: nat, gcmFed: seq<uint8>, held: seq<uint8>, data: seq<uint8>,
                    pending: seq<uint8>, n: nat)
    requires Split(fed, f, gcmFed, held)
    requires pending == held + data && n <= |pending| < n + 16
    ensures PayloadLen(fed + data) == f + |pending| && |gcmFed| == f
    ensures Split(fed + data, f + n, gcmFed + pending[..n], pending[n..])
    ensures pending[..n] == (fed + data)[HEADER_SIZE + f..HEADER_SIZE + f + n]
    ensures n == 0 ==> pending[..n] == []
  {
    var s := fed + data;
    var b := HEADER_SIZE + f;
    assert pending == s[b..];
    SliceAfter(s, b, n);
    assert gcmFed == s[HEADER_SIZE..b];
    SliceAround(s, HEADER_SIZE, b, b + n);
  }

  lemma SliceAfter<T>(s: seq<T>, b: nat, n: nat)
    requires b + n <= |s|
    ensures s[b..][..n] == s[b..b + n] && s[b..][n..] == s[b + n..]
  {
  }

  lemma SliceAround<T>(s: seq<T>, a: nat, b: nat, e: nat)
    requires a <= b <= e <= |s|
    ensures s[a..b] + s[b..e] == s[a..e]
  {
  }

  /** Two updates in a row are one update on the concatenation. */
  lemma JoinTwo(c: Platform, key: seq<uint8>, iv: seq<uint8>, before: seq<uint8>, a: seq<uint8>, b: seq<uint8>,
                both: seq<uint8>, pos: nat)
    requires both == a + b && pos == |before| + |a|
    ensures before + a + b == before + both
    ensures Plain(c, key, iv, |before|, a) + Plain(c, key, iv, pos, b) == Plain(c, key, iv, |before|, both)
  {
    Regroup(before, a, b);
    PlainConcat(c, key, iv, |before|, a, b);
  }

  lemma JoinRest(c: Platform, pending: seq<uint8>, n: nat, key: seq<uint8>, iv: seq<uint8>, before: seq<uint8>)
    requires n <= |pending|
    ensures before + pending[..n] + pending[n..] == before + pending
    ensures Plain(c, key, iv, |before|, pending[..n]) + Plain(c, key, iv, |before| + n, pending[n..])
            == Plain(c, key, iv, |before|, pending)
  {
    JoinTwo(c, key, iv, before, pending[..n], pending[n..], pending, |before| + n);
  }

  lemma BlocksAfterBlock(k: nat, decLen: nat)
    requires decLen in {0, 16} && decLen <= k
    ensures Blocks(k) == decLen + Blocks(k - decLen)
  {
  }

  lemma SliceOfRest(s: seq<uint8>, a: nat, rest: seq<uint8>, n: nat)
    requires a + n <= |s| && rest == s[a..]
    ensures s[..a] + rest[..n] == s[..a + n] && rest[n..] == s[a + n..]
  {
  }

  lemma JoinBlocks(c: Platform, pending: seq<uint8>, decLen: nat, rest: seq<uint8>, key: seq<uint8>, iv: seq<uint8>,
                   before: seq<uint8>)
    requires decLen <= |pending| && decLen in {0, 16} && rest == pending[decLen..]
    ensures var n := Blocks(|rest|);
            && Blocks(|pending|) == decLen + n && rest[n..] == pending[decLen + n..]
            && before + pending[..decLen] + rest[..n] == before + pending[..decLen + n]
            && Plain(c, key, iv, |before|, pending[..decLen]) + Plain(c, key, iv, |before| + decLen, rest[..n])
               == Plain(c, key, iv, |before|, pending[..decLen + n])
  {
    var n := Blocks(|rest|);
    BlocksAfterBlock(|pending|, decLen);
    SliceOfRest(pending, decLen, rest, n);
    JoinTwo(c, key, iv, before, pending[..decLen], rest[..n], pending[..decLen + n], |before| + decLen);
  }

  predicate HeaderIs(c: Platform, fed: seq<uint8>, h: Header) {
    h.Good? && |fed| >= 424 && Le32(fed[0..4]) == MAGIC
    && c.unwrap(fed[4..388]) == Some(h.key) && h.iv == fed[388..404] && c.starts(h.key, h.iv)
    && h.len == Le32(fed[404..408]) && h.tag == fed[408..424]
  }

  lemma HeaderStays(c: Platform, a: seq<uint8>, b: seq<uint8>, h: Header)
    requires a <= b && HeaderIs(c, a, h)
    ensures HeaderIs(c, b, h)
  {
    HeaderKept(a, b);
  }

  /** pre_enc_decrypt_arg_t: the caller's output fields. */
  class Args {
    var dataOut: array<uint8>
    var dataOutLen: nat

    constructor ()
      ensures Output() == [] && fresh(dataOut) && Valid()
    {
      dataOut := new uint8[0];
      dataOutLen := 0;
    }

    ghost predicate Valid()
      reads this
    {
      dataOutLen <= dataOut.Length
    }

    ghost function Output(): seq<uint8>
      reads this, dataOut
    {
      if dataOutLen <= dataOut.Length then dataOut[..dataOutLen] else []
    }
  }

  class Handle {
    const platform: Platform
    var state: State
    var binaryFileLen: nat
    var binaryFileRead: nat
    var gcmKey: seq<uint8>
    const iv: array<uint8>
    const authTag: array<uint8>
    var cacheBuf: array<uint8>
    var cacheBufLen: nat
    var gcm: Gcm
    ghost var fed: seq<uint8>       // every byte taken in so far
    ghost var flushed: nat          // payload bytes that have gone through GCM
    ghost var ended: bool           // some call has answered Ok

    ghost predicate Buffers()
      reads this
    {
      && iv.Length == IV_SIZE && authTag.Length == AUTH_SIZE
      && iv != authTag && cacheBuf != iv && cacheBuf != authTag
      && (cacheBuf.Length == if state.ReadMagic? || state.ReadGcm? then ENC_GCM_KEY_SIZE else 16)
    }

    /** A header field that starts at offset lo is being collected in buf. */
    ghost predicate Collecting(buf: array<uint8>, lo: nat, size: nat)
      reads this, buf
    {
      && lo <= |fed| < lo + size <= lo + buf.Length
      && binaryFileRead == cacheBufLen == |fed| - lo
      && buf[..cacheBufLen] == fed[lo..]
    }

    ghost predicate MagicKnown()
      reads this
    {
      |fed| >= 4 && Le32(fed[0..4]) == MAGIC
    }

    ghost predicate KeyKnown()
      reads this
    {
      MagicKnown() && |fed| >= 388 && platform.unwrap(fed[4..388]) == Some(gcmKey)
    }

    /** Key and IV recovered and handed to GCM. */
    ghost predicate IvKnown()
      reads this
    {
      && KeyKnown() && |fed| >= 404 && platform.starts(gcmKey, fed[388..404])
      && gcm.key == gcmKey && gcm.iv == fed[388..404]
    }

    ghost predicate LenKnown()
      reads this
    {
      IvKnown() && |fed| >= 408 && binaryFileLen == Le32(fed[404..408])
    }

    ghost predicate TagKnown()
      reads this, authTag
    {
      HeaderIs(platform, fed, Good(gcm.key, gcm.iv, binaryFileLen, authTag[..])) && gcm.key == gcmKey
    }

    ghost predicate PayloadLinked()
      reads this, cacheBuf
    {
      && |fed| >= HEADER_SIZE
      && binaryFileRead == Wrap(PayloadLen(fed))
      && cacheBufLen < 16 == cacheBuf.Length
      && Split(fed, flushed, gcm.fed, cacheBuf[..cacheBufLen])
      && (binaryFileRead == binaryFileLen ==> cacheBufLen == 0)
    }

    ghost predicate GcmIdle()
      reads this
    {
      gcm.fed == [] && gcm.updates == []
    }

    ghost predicate Valid()
      reads this, iv, authTag, cacheBuf
    {
      && Buffers()
      && (!state.DecodeData? ==> flushed == 0 && !ended)
      && (|fed| < 408 ==> binaryFileLen == 0)
      && match state
         case ReadMagic => Collecting(cacheBuf, 0, MAGIC_SIZE)
         case ReadGcm => MagicKnown() && Collecting(cacheBuf, 4, ENC_GCM_KEY_SIZE)
         case ReadIv => KeyKnown() && Collecting(iv, 388, IV_SIZE)
         case ReadBinSize => IvKnown() && GcmIdle() && Collecting(cacheBuf, 404, BIN_SIZE_DATA)
         case ReadAuth => LenKnown() && GcmIdle() && Collecting(authTag, 408, AUTH_SIZE)
         case ReadExtraHeader => TagKnown() && GcmIdle() && |fed| < HEADER_SIZE && binaryFileRead == |fed| - 424
           && cacheBufLen == 0
         case DecodeData => Decoding()
    }

    /** The header has been read and the payload is being decrypted. */
    ghost predicate Decoding()
      reads this, iv, authTag, cacheBuf
    {
      Buffers() && state.DecodeData? && TagKnown() && PayloadLinked() && (!ended ==> Aligned(gcm.updates))
    }

    /** The wrapped key, IV, size and tag recovered are the fixed slices of the stream. */
    lemma HeaderRecovered()
      requires Valid()
      ensures ReadHeader(platform, fed) ==
              if state.DecodeData? then Good(gcmKey, gcm.iv, binaryFileLen, authTag[..]) else Pending
      ensures Reachable(platform, OtaImage.Progress(fed, flushed))
    {
    }

    /** esp_encrypted_img_decrypt_start */
    constructor (platform: Platform)
      ensures Valid() && OtaImage.Progress(fed, flushed) == START && this.platform == platform
      ensures state == ReadMagic
      ensures fresh(iv) && fresh(authTag) && fresh(cacheBuf)
    {
      this.platform := platform;
      state := ReadMagic;
      binaryFileLen, binaryFileRead, cacheBufLen := 0, 0, 0;
      gcmKey := [];
      iv := new uint8[IV_SIZE];
      authTag := new uint8[AUTH_SIZE];
      cacheBuf := new uint8[ENC_GCM_KEY_SIZE];
      gcm := Gcm([], [], [], []);
      fed, flushed, ended := [], 0, false;
    }

    /** read_and_cache_data: as much of a header field as this chunk has. */
    method ReadAndCache(buf: array<uint8>, dataIn: seq<uint8>, curr: nat, ghost lo: nat, size: nat) returns (next: nat)
      requires buf == if state.ReadIv? then iv else if state.ReadAuth? then authTag else cacheBuf
      requires Buffers() && Collecting(buf, lo, size) && curr <= |dataIn|
      modifies this`cacheBufLen, this`binaryFileRead, this`fed, buf
      ensures curr <= next <= |dataIn|
      ensures fed == old(fed) + dataIn[curr..next]
      ensures binaryFileRead == cacheBufLen == |fed| - lo <= size
      ensures buf[..cacheBufLen] == fed[lo..]
      ensures cacheBufLen < size ==> next == |dataIn|
    {
      var n := Min(|dataIn| - curr, size - binaryFileRead);
      CopyInto(buf, cacheBufLen, dataIn[curr..curr + n]);
      cacheBufLen := cacheBufLen + n;
      next := curr + n;
      binaryFileRead := binaryFileRead + n;
      fed := fed + dataIn[curr..next];
    }

    method StageMagic(dataIn: seq<uint8>, curr: nat) returns (next: nat, flow: Flow)
      requires Valid() && state.ReadMagic? && curr <= |dataIn|
      modifies this, cacheBuf
      ensures ended == old(ended)
      ensures curr <= next <= |dataIn| && fed == old(fed) + dataIn[curr..next] && cacheBuf == old(cacheBuf)
      ensures flow.Continue? ==> Valid() && state == ReadGcm
      ensures flow.Return? ==> if flow.status == NotFinished then Valid() && next == |dataIn| && state == old(state)
                               else flow.status == Fail && ReadHeader(platform, fed).Bad?
    {
      if cacheBufLen == 0 && |dataIn| - curr >= MAGIC_SIZE {
        next := curr + MAGIC_SIZE;
        fed := fed + dataIn[curr..next];
        assert fed[0..4] == dataIn[curr..next];
        if Le32(dataIn[curr..curr + MAGIC_SIZE]) != MAGIC {
          return next, Return(Fail);
        }
      } else {
        next := ReadAndCache(cacheBuf, dataIn, curr, 0, MAGIC_SIZE);
        if binaryFileRead != MAGIC_SIZE {
          return next, Return(NotFinished);
        }
        assert fed[0..4] == cacheBuf[..4];
        if Le32(cacheBuf[..4]) != MAGIC {
          return next, Return(Fail);
        }
        binaryFileRead := 0;
        cacheBufLen := 0;
      }
      state := ReadGcm;
      flow := Continue;
    }

    /** process_gcm_key: unwraps the key; the 384-byte cache shrinks to 16 bytes. */
    method ProcessGcmKey(wrapped: seq<uint8>) returns (ok: bool)
      modifies this`gcmKey, this`cacheBuf, this`state, this`binaryFileRead, this`cacheBufLen
      ensures ok == platform.unwrap(wrapped).Some?
      ensures ok ==> platform.unwrap(wrapped) == Some(gcmKey) && fresh(cacheBuf) && cacheBuf.Length == 16
      ensures ok ==> state == ReadIv && binaryFileRead == cacheBufLen == 0
      ensures !ok ==> cacheBuf == old(cacheBuf)
    {
      var key := platform.unwrap(wrapped);
      ok := key.Some?;
      if ok {
        gcmKey := key.value;
        cacheBuf := new uint8[16];
        state := ReadIv;
        binaryFileRead := 0;
        cacheBufLen := 0;
      }
    }

    method StageGcm(dataIn: seq<uint8>, curr: nat) returns (next: nat, flow: Flow)
      requires Valid() && state.ReadGcm? && curr <= |dataIn|
      modifies this, cacheBuf
      ensures ended == old(ended)
      ensures curr <= next <= |dataIn| && fed == old(fed) + dataIn[curr..next]
      ensures cacheBuf == old(cacheBuf) || fresh(cacheBuf)
      ensures flow.Continue? ==> Valid() && state == ReadIv
      ensures flow.Return? ==> if flow.status == NotFinished then Valid() && next == |dataIn| && state == old(state)
                               else flow.status == Fail && ReadHeader(platform, fed).Bad?
    {
      var ok;
      if cacheBufLen == 0 && |dataIn| - curr >= ENC_GCM_KEY_SIZE {
        next := curr + ENC_GCM_KEY_SIZE;
        fed := fed + dataIn[curr..next];
        assert fed[4..388] == dataIn[curr..next];
        ok := ProcessGcmKey(dataIn[curr..next]);
      } else {
        next := ReadAndCache(cacheBuf, dataIn, curr, 4, ENC_GCM_KEY_SIZE);
        if cacheBufLen != ENC_GCM_KEY_SIZE {
          HeaderKept(old(fed), fed);
          return next, Return(NotFinished);
        }
        assert fed[4..388] == cacheBuf[..384];
        ok := ProcessGcmKey(cacheBuf[..384]);
      }
      HeaderKept(old(fed), fed);
      flow := if ok then Continue else Return(Fail);
    }

    /** The IV straight from the chunk, or piece by piece. */
    method CollectIv(dataIn: seq<uint8>, curr: nat) returns (next: nat)
      requires Buffers() && state.ReadIv? && Collecting(iv, 388, IV_SIZE) && curr <= |dataIn|
      modifies this`cacheBufLen, this`binaryFileRead, this`fed, iv
      ensures curr <= next <= |dataIn| && fed == old(fed) + dataIn[curr..next]
      ensures binaryFileRead == |fed| - 388 <= IV_SIZE && iv[..binaryFileRead] == fed[388..]
      ensures binaryFileRead < IV_SIZE ==> cacheBufLen == binaryFileRead && next == |dataIn|
    {
      if cacheBufLen == 0 && |dataIn| - curr >= IV_SIZE {
        next := curr + IV_SIZE;
        CopyInto(iv, 0, dataIn[curr..next]);
        binaryFileRead := IV_SIZE;
        fed := fed + dataIn[curr..next];
        assert fed[388..] == dataIn[curr..next] == iv[..IV_SIZE];
      } else {
        next := ReadAndCache(iv, dataIn, curr, 388, IV_SIZE);
      }
    }

    method StageIv(dataIn: seq<uint8>, curr: nat) returns (next: nat, flow: Flow)
      requires Valid() && state.ReadIv? && curr <= |dataIn|
      modifies this, iv
      ensures ended == old(ended)
      ensures curr <= next <= |dataIn| && fed == old(fed) + dataIn[curr..next] && cacheBuf == old(cacheBuf)
      ensures flow.Continue? ==> Valid() && state == ReadBinSize
      ensures flow.Return? ==> if flow.status == NotFinished then Valid() && next == |dataIn| && state == old(state)
                               else flow.status == Fail && ReadHeader(platform, fed).Bad?
    {
      next := CollectIv(dataIn, curr);
      HeaderKept(old(fed), fed);
      if binaryFileRead != IV_SIZE {
        return next, Return(NotFinished);
      }
      assert fed[388..404] == iv[..];
      state := ReadBinSize;
      binaryFileRead := 0;
      cacheBufLen := 0;
      gcm := Gcm(gcmKey, iv[..], [], []);
      flow := if platform.starts(gcmKey, iv[..]) then Continue else Return(Fail);
    }

    method StageBinSize(dataIn: seq<uint8>, curr: nat) returns (next: nat, flow: Flow)
      requires Valid() && state.ReadBinSize? && curr <= |dataIn|
      modifies this, cacheBuf
      ensures ended == old(ended)
      ensures curr <= next <= |dataIn| && fed == old(fed) + dataIn[curr..next] && cacheBuf == old(cacheBuf)
      ensures Valid()
      ensures flow.Continue? ==> state == ReadAuth
      ensures flow.Return? ==> flow.status == NotFinished && next == |dataIn| && state == old(state)
    {
      if cacheBufLen == 0 && |dataIn| - curr >= BIN_SIZE_DATA {
        next := curr + BIN_SIZE_DATA;
        binaryFileLen := Le32(dataIn[curr..next]);
        fed := fed + dataIn[curr..next];
        assert fed[404..408] == dataIn[curr..next];
      } else {
        next := ReadAndCache(cacheBuf, dataIn, curr, 404, BIN_SIZE_DATA);
        if binaryFileRead != BIN_SIZE_DATA {
          HeaderKept(old(fed), fed);
          return next, Return(NotFinished);
        }
        binaryFileLen := Le32(cacheBuf[..4]);
        assert fed[404..408] == cacheBuf[..4];
      }
      HeaderKept(old(fed), fed);
      state := ReadAuth;
      binaryFileRead := 0;
      cacheBufLen := 0;
      flow := Continue;
    }

    method StageAuth(dataIn: seq<uint8>, curr: nat) returns (next: nat, flow: Flow)
      requires Valid() && state.ReadAuth? && curr <= |dataIn|
      modifies this, authTag
      ensures ended == old(ended)
      ensures curr <= next <= |dataIn| && fed == old(fed) + dataIn[curr..next] && cacheBuf == old(cacheBuf)
      ensures Valid()
      ensures flow.Continue? ==> state == ReadExtraHeader
      ensures flow.Return? ==> flow.status == NotFinished && next == |dataIn| && state == old(state)
    {
      if cacheBufLen == 0 && |dataIn| - curr >= AUTH_SIZE {
        CopyInto(authTag, 0, dataIn[curr..curr + AUTH_SIZE]);
        binaryFileRead := AUTH_SIZE;
        next := curr + AUTH_SIZE;
        fed := fed + dataIn[curr..next];
        assert fed[408..424] == dataIn[curr..next] == authTag[..];
      } else {
        next := ReadAndCache(authTag, dataIn, curr, 408, AUTH_SIZE);
      }
      HeaderKept(old(fed), fed);
      if binaryFileRead != AUTH_SIZE {
        return next, Return(NotFinished);
      }
      assert fed[408..424] == authTag[..];
      state := ReadExtraHeader;
      binaryFileRead := 0;
      cacheBufLen := 0;
      flow := Continue;
    }

    method StageExtraHeader(dataIn: seq<uint8>, curr: nat) returns (next: nat, flow: Flow)
      requires Valid() && state.ReadExtraHeader? && curr <= |dataIn|
      modifies this
      ensures ended == old(ended)
      ensures curr <= next <= |dataIn| && fed == old(fed) + dataIn[curr..next] && cacheBuf == old(cacheBuf)
      ensures Valid() && flushed == 0
      ensures flow.Continue? ==> state == DecodeData && |fed| == HEADER_SIZE
      ensures flow.Return? ==> flow.status == NotFinished && next == |dataIn| && state == old(state)
    {
      var n := Min(|dataIn| - curr, RESERVED_HEADER - binaryFileRead);
      next := curr + n;
      binaryFileRead := binaryFileRead + n;
      fed := fed + dataIn[curr..next];
      HeaderKept(old(fed), fed);
      if binaryFileRead != RESERVED_HEADER {
        return next, Return(NotFinished);
      }
      state := DecodeData;
      binaryFileRead := 0;
      cacheBufLen := 0;
      flow := Continue;
    }

    /** mbedtls_gcm_update, writing its output at out + at. */
    method GcmUpdate(data: seq<uint8>, out: array<uint8>, at: nat)
      requires at + |data| <= out.Length
      modifies this`gcm, out
      ensures gcm == old(gcm).(fed := old(gcm.fed) + data, updates := old(gcm.updates) + [|data|])
      ensures out[..at + |data|] == old(out[..at]) + Plain(platform, gcm.key, gcm.iv, |old(gcm.fed)|, data)
    {
      CopyInto(out, at, Plain(platform, gcm.key, gcm.iv, |gcm.fed|, data));
      gcm := gcm.(fed := gcm.fed + data, updates := gcm.updates + [|data|]);
    }

    /** Top up the held-back bytes, if any, to one block and decrypt it; or hold back more. */
    method TopUpCache(data: seq<uint8>, args: Args) returns (copyLen: nat, decLen: nat, goOn: bool)
      requires cacheBufLen < 16 == cacheBuf.Length && args.dataOut != cacheBuf
      requires cacheBufLen + |data| >= 16 ==> args.dataOut.Length >= 16
      modifies this`gcm, this`cacheBufLen, cacheBuf, args`dataOutLen, args.dataOut
      ensures goOn <==> old(cacheBufLen) == 0 || old(cacheBufLen) + |data| >= 16
      ensures var pending := old(cacheBuf[..cacheBufLen]) + data;
              if !goOn then
                && gcm == old(gcm) && args.dataOutLen == 0
                && cacheBufLen == |pending| && cacheBuf[..cacheBufLen] == pending
              else
                && decLen == (if old(cacheBufLen) == 0 then 0 else 16) <= |pending|
                && copyLen <= |data| && pending[decLen..] == data[copyLen..]
                && gcm.(updates := []) == old(gcm).(fed := old(gcm.fed) + pending[..decLen], updates := [])
                && decLen <= args.dataOut.Length
                && args.dataOut[..decLen] == Plain(platform, gcm.key, gcm.iv, |old(gcm.fed)|, pending[..decLen])
      ensures old(Aligned(gcm.updates)) ==> Aligned(gcm.updates)
    {
      ghost var pending := cacheBuf[..cacheBufLen] + data;
      copyLen, decLen, goOn := 0, 0, true;
      if cacheBufLen != 0 {
        copyLen := Min(16 - cacheBufLen, |data|);
        CopyInto(cacheBuf, cacheBufLen, data[..copyLen]);
        cacheBufLen := cacheBufLen + copyLen;
        assert cacheBuf[..cacheBufLen] == pending[..cacheBufLen];
        goOn := cacheBufLen == 16;
        if goOn {
          GcmUpdate(cacheBuf[..16], args.dataOut, 0);
          decLen := 16;
        } else {
          args.dataOutLen := 0;
        }
      }
    }

    /** Decrypt the whole blocks of the rest behind the decLen bytes already out; hold back what is left. */
    method WholeBlocks(rest: seq<uint8>, args: Args, decLen: nat)
      requires cacheBuf.Length == 16 && args.dataOut != cacheBuf
      requires decLen + Blocks(|rest|) <= args.dataOut.Length
      modifies this`gcm, this`cacheBufLen, cacheBuf, args`dataOutLen, args.dataOut
      ensures var n := Blocks(|rest|);
              && cacheBufLen == |rest| - n && cacheBuf[..cacheBufLen] == rest[n..]
              && gcm.(updates := []) == old(gcm).(fed := old(gcm.fed) + rest[..n], updates := [])
              && args.dataOutLen == decLen + n
              && args.dataOut[..decLen + n] ==
                 old(args.dataOut[..decLen]) + Plain(platform, gcm.key, gcm.iv, |old(gcm.fed)|, rest[..n])
      ensures old(Aligned(gcm.updates)) ==> Aligned(gcm.updates)
    {
      BlocksIsRounding(|rest|);
      var n := |rest|;
      cacheBufLen := |rest| % 16;
      if cacheBufLen != 0 {
        n := n - cacheBufLen;
        CopyInto(cacheBuf, 0, rest[n..]);
      }
      if n > 0 {
        GcmUpdate(rest[..n], args.dataOut, decLen);
      }
      args.dataOutLen := decLen + n;
    }

    /** realloc of the output to the whole blocks among total bytes, unless there are none. */
    method MakeRoom(args: Args, total: nat)
      modifies args`dataOut
      ensures args.dataOut.Length >= Blocks(total)
      ensures args.dataOut == old(args.dataOut) || fresh(args.dataOut)
    {
      BlocksIsRounding(total);
      if total - total % 16 > 0 {
        args.dataOut := new uint8[total - total % 16];
      }
    }

    method BlocksBehind(rest: seq<uint8>, args: Args, decLen: nat, ghost pending: seq<uint8>, ghost before: seq<uint8>)
      requires cacheBuf.Length == 16 && args.dataOut != cacheBuf && Blocks(|pending|) <= args.dataOut.Length
      requires decLen in {0, 16} && decLen <= |pending| && decLen <= args.dataOut.Length && rest == pending[decLen..]
      requires gcm.fed == before + pending[..decLen]
      requires args.dataOut[..decLen] == Plain(platform, gcm.key, gcm.iv, |before|, pending[..decLen])
      modifies this`gcm, this`cacheBufLen, cacheBuf, args`dataOutLen, args.dataOut
      ensures var n := Blocks(|pending|);
              && cacheBufLen == |pending| - n && cacheBuf[..cacheBufLen] == pending[n..]
              && gcm.(updates := []) == old(gcm).(fed := before + pending[..n], updates := [])
              && args.dataOutLen == n
              && args.dataOut[..n] == Plain(platform, gcm.key, gcm.iv, |before|, pending[..n])
      ensures old(Aligned(gcm.updates)) ==> Aligned(gcm.updates)
    {
      JoinBlocks(platform, pending, decLen, rest, gcm.key, gcm.iv, before);
      WholeBlocks(rest, args, decLen);
    }

    /** process_bin when the payload does not end with this call: whole blocks out, the rest into the cache. */
    method ProcessMiddle(data: seq<uint8>, args: Args)
      requires cacheBufLen < 16 == cacheBuf.Length && args.dataOut != cacheBuf
      modifies this`gcm, this`cacheBufLen, cacheBuf, args, args.dataOut
      ensures var pending := old(cacheBuf[..cacheBufLen]) + data;
              var n := Blocks(|pending|);
              && cacheBufLen == |pending| - n && cacheBuf[..cacheBufLen] == pending[n..]
              && gcm.(updates := []) == old(gcm).(fed := old(gcm.fed) + pending[..n], updates := [])
              && args.Valid() && args.Output() == Plain(platform, gcm.key, gcm.iv, |old(gcm.fed)|, pending[..n])
      ensures old(Aligned(gcm.updates)) ==> Aligned(gcm.updates)
      ensures args.dataOut == old(args.dataOut) || fresh(args.dataOut)
    {
      ghost var pending := cacheBuf[..cacheBufLen] + data;
      MakeRoom(args, cacheBufLen + |data|);
      var copyLen, decLen, goOn := TopUpCache(data, args);
      if goOn {
        BlocksBehind(data[copyLen..], args, decLen, pending, old(gcm.fed));
      } else {
        assert pending[..0] == [] && pending[0..] == pending && old(gcm.fed) + [] == old(gcm.fed);
      }
    }

    /** The cache is topped up as far as possible and goes through GCM. */
    method FirstBlock(data: seq<uint8>, args: Args) returns (copyLen: nat)
      requires cacheBufLen < 16 == cacheBuf.Length && args.dataOut != cacheBuf
               && cacheBufLen + |data| <= args.dataOut.Length
      modifies this`gcm, this`cacheBufLen, cacheBuf, args.dataOut
      ensures var pending := old(cacheBuf[..cacheBufLen]) + data;
              && cacheBufLen == old(cacheBufLen) + copyLen == Min(16, |pending|) && copyLen <= |data|
              && pending[cacheBufLen..] == data[copyLen..]
              && gcm == old(gcm).(fed := old(gcm.fed) + pending[..cacheBufLen],
                                  updates := old(gcm.updates) + [cacheBufLen])
              && args.dataOut[..cacheBufLen] == Plain(platform, gcm.key, gcm.iv, |old(gcm.fed)|, pending[..cacheBufLen])
    {
      ghost var pending := cacheBuf[..cacheBufLen] + data;
      copyLen := Min(16 - cacheBufLen, |data|);
      CopyInto(cacheBuf, cacheBufLen, data[..copyLen]);
      cacheBufLen := cacheBufLen + copyLen;
      assert cacheBuf[..cacheBufLen] == pending[..cacheBufLen];
      GcmUpdate(cacheBuf[..cacheBufLen], args.dataOut, 0);
      assert old(args.dataOut[..0]) == [];
    }

    /** process_bin when this call ends the payload: everything goes through GCM. */
    method ProcessLast(data: seq<uint8>, args: Args) returns (status: Status)
      requires cacheBufLen < 16 == cacheBuf.Length
      modifies this`gcm, this`cacheBufLen, cacheBuf, args
      ensures var pending := old(cacheBuf[..cacheBufLen]) + data;
              if pending == [] && !platform.zeroAllocOk then status == NoMem
              else
                && status == Ok && cacheBufLen == 0
                && gcm.(updates := []) == old(gcm).(fed := old(gcm.fed) + pending, updates := [])
                && args.dataOutLen == |pending| <= args.dataOut.Length
                && args.dataOut[..|pending|] == Plain(platform, gcm.key, gcm.iv, |old(gcm.fed)|, pending)
      ensures status == Ok && old(Aligned(gcm.updates)) ==> AlignedButLast(gcm.updates)
      ensures args.dataOut == old(args.dataOut) || fresh(args.dataOut)
    {
      ghost var pending := cacheBuf[..cacheBufLen] + data;
      var size := cacheBufLen + |data|;
      if size == 0 && !platform.zeroAllocOk {
        return NoMem;
      }
      args.dataOut := new uint8[size];
      var copyLen := FirstBlock(data, args);
      if |data| - copyLen > 0 {
        JoinRest(platform, pending, 16, gcm.key, gcm.iv, old(gcm.fed));
        GcmUpdate(data[copyLen..], args.dataOut, 16);
      } else {
        assert pending[..cacheBufLen] == pending;
      }
      args.dataOutLen := cacheBufLen + |data| - copyLen;
      cacheBufLen := 0;
      status := Ok;
    }

    ghost predicate Owns(a: array<uint8>)
      reads this
    {
      a == iv || a == authTag || a == cacheBuf
    }

    /** The middle way, in terms of the stream. */
    method DecodeMiddle(data: seq<uint8>, args: Args, ghost h: Header)
      requires cacheBufLen < 16 == cacheBuf.Length && Split(fed, flushed, gcm.fed, cacheBuf[..cacheBufLen])
      requires h.Good? && h.key == gcm.key && h.iv == gcm.iv && args.dataOut != cacheBuf
      modifies this`gcm, this`cacheBufLen, this`fed, this`flushed, cacheBuf, args, args.dataOut
      ensures fed == old(fed) + data && flushed == FlushTo(PayloadLen(fed), old(flushed))
      ensures cacheBufLen < 16 && Split(fed, flushed, gcm.fed, cacheBuf[..cacheBufLen])
      ensures gcm.key == old(gcm.key) && gcm.iv == old(gcm.iv)
      ensures args.Valid() && args.Output() == PlainSlice(platform, h, fed, old(flushed), flushed)
      ensures old(Aligned(gcm.updates)) ==> Aligned(gcm.updates)
      ensures args.dataOut == old(args.dataOut) || fresh(args.dataOut)
    {
      ghost var held := cacheBuf[..cacheBufLen];
      ghost var pending := held + data;
      ghost var n := Blocks(|pending|);
      SplitStep(platform, h, fed, flushed, gcm.fed, held, data, pending, n);
      ProcessMiddle(data, args);
      fed, flushed := fed + data, flushed + n;
    }

    /** The last way, in terms of the stream. */
    method DecodeLast(data: seq<uint8>, args: Args, ghost h: Header) returns (status: Status)
      requires cacheBufLen < 16 == cacheBuf.Length && Split(fed, flushed, gcm.fed, cacheBuf[..cacheBufLen])
      requires h.Good? && h.key == gcm.key && h.iv == gcm.iv && args.dataOut != cacheBuf
      modifies this`gcm, this`cacheBufLen, this`fed, this`flushed, cacheBuf, args, args.dataOut
      ensures fed == old(fed) + data && flushed == PayloadLen(fed)
      ensures status == if flushed == old(flushed) && !platform.zeroAllocOk then NoMem else Ok
      ensures status == Ok ==> cacheBufLen == 0 && Split(fed, flushed, gcm.fed, [])
      ensures status == Ok ==> gcm.key == old(gcm.key) && gcm.iv == old(gcm.iv)
      ensures status == Ok ==> args.Valid() && args.Output() == PlainSlice(platform, h, fed, old(flushed), flushed)
      ensures status == Ok && old(Aligned(gcm.updates)) ==> AlignedButLast(gcm.updates)
      ensures args.dataOut == old(args.dataOut) || fresh(args.dataOut)
    {
      ghost var held := cacheBuf[..cacheBufLen];
      ghost var pending := held + data;
      SplitStep(platform, h, fed, flushed, gcm.fed, held, data, pending, |pending|);
      assert pending[..|pending|] == pending && pending[|pending|..] == [];
      status := ProcessLast(data, args);
      fed, flushed := fed + data, flushed + |pending|;
    }

    /** The branch of process_bin: does this call end the payload? */
    method Decode(data: seq<uint8>, args: Args, last: bool, ghost h: Header) returns (status: Status)
      requires cacheBufLen < 16 == cacheBuf.Length && Split(fed, flushed, gcm.fed, cacheBuf[..cacheBufLen])
      requires h.Good? && h.key == gcm.key && h.iv == gcm.iv && args.dataOut != cacheBuf
      requires last <==> Wrap(PayloadLen(fed + data)) == h.len
      requires !ended ==> Aligned(gcm.updates)
      modifies this`gcm, this`cacheBufLen, this`fed, this`flushed, this`ended, cacheBuf, args, args.dataOut
      ensures fed == old(fed) + data && old(flushed) <= PayloadLen(fed)
      ensures var o := FeedPayload(platform, h, fed, old(flushed));
              && status == o.status && (status == NotFinished <==> !last)
              && (status != NoMem ==> flushed == o.next.flushed && args.Valid() && args.Output() == o.out)
      ensures status != NoMem ==> cacheBufLen < 16 && Split(fed, flushed, gcm.fed, cacheBuf[..cacheBufLen])
      ensures status == Ok ==> cacheBufLen == 0
      ensures status != NoMem ==> gcm.key == old(gcm.key) && gcm.iv == old(gcm.iv)
      ensures ended == (old(ended) || status == Ok) && (!ended ==> status == NoMem || Aligned(gcm.updates))
      ensures status == Ok && !old(ended) ==> AlignedButLast(gcm.updates)
      ensures args.dataOut == old(args.dataOut) || fresh(args.dataOut)
    {
      if !last {
        DecodeMiddle(data, args, h);
        status := NotFinished;
      } else {
        status := DecodeLast(data, args, h);
        ended := ended || status == Ok;
      }
    }

    /** process_bin: counts the bytes of this call and sends them down one of the two ways. */
    method ProcessBin(data: seq<uint8>, args: Args, ghost h: Header) returns (status: Status)
      requires Decoding() && !Owns(args.dataOut)
      requires h == Good(gcmKey, gcm.iv, binaryFileLen, authTag[..])
      modifies this, cacheBuf, args, args.dataOut
      ensures cacheBuf == old(cacheBuf) && fed == old(fed) + data
      ensures args.dataOut == old(args.dataOut) || fresh(args.dataOut)
      ensures status != NoMem ==> Decoding() && args.Valid()
      ensures old(flushed) <= PayloadLen(fed)
      ensures var o := FeedPayload(platform, h, fed, old(flushed));
              status == o.status && (status != NoMem ==> flushed == o.next.flushed && args.Output() == o.out)
      ensures ended == (old(ended) || status == Ok)
      ensures status == Ok && !old(ended) ==> AlignedButLast(gcm.updates)
    {
      HeaderStays(platform, fed, fed + data, h);
      WrapAdd(PayloadLen(fed), |data|);
      var read := Wrap(binaryFileRead + |data|);
      assert read == Wrap(PayloadLen(fed + data));
      binaryFileRead := read;
      status := Decode(data, args, binaryFileRead == binaryFileLen, h);
      assert authTag[..] == h.tag;
    }

    /** The first three cases of the switch: each falls through to the next once its field is complete. */
    method ReadKeyFields(dataIn: seq<uint8>) returns (curr: nat, flow: Flow)
      requires Valid()
      modifies this, iv, cacheBuf
      ensures ended == old(ended)
      ensures curr <= |dataIn| && fed == old(fed) + dataIn[..curr]
      ensures cacheBuf == old(cacheBuf) || fresh(cacheBuf)
      ensures flow.Continue? ==> Valid() && !state.ReadMagic? && !state.ReadGcm? && !state.ReadIv?
      ensures flow.Continue? && old(state.DecodeData?) ==> curr == 0 && flushed == old(flushed)
      ensures flow.Continue? && !old(state.DecodeData?) ==> !state.DecodeData?
      ensures flow.Return? ==>
                if flow.status == NotFinished then Valid() && state != DecodeData && curr == |dataIn|
                else flow.status == Fail && ReadHeader(platform, fed).Bad?
    {
      curr, flow := 0, Continue;
      if state.ReadMagic? {
        curr, flow := StageMagic(dataIn, curr);
        if flow.Return? { return; }
      }
      ghost var at := curr;
      if state.ReadGcm? {
        curr, flow := StageGcm(dataIn, curr);
        TakeMore(old(fed), dataIn, at, curr);
        if flow.Return? { return; }
      }
      at := curr;
      if state.ReadIv? {
        curr, flow := StageIv(dataIn, curr);
        TakeMore(old(fed), dataIn, at, curr);
      }
    }

    /** The next three cases. */
    method ReadSizeFields(dataIn: seq<uint8>, start: nat) returns (curr: nat, flow: Flow)
      requires Valid() && start <= |dataIn| && !state.ReadMagic? && !state.ReadGcm? && !state.ReadIv?
      modifies this, authTag, cacheBuf
      ensures ended == old(ended)
      ensures start <= curr <= |dataIn| && fed == old(fed) + dataIn[start..curr]
      ensures cacheBuf == old(cacheBuf) && Valid()
      ensures if flow.Continue? then state == DecodeData
              else flow.status == NotFinished && state != DecodeData && curr == |dataIn|
      ensures if old(state.DecodeData?) then curr == start && flushed == old(flushed)
              else flow.Continue? ==> flushed == 0
    {
      curr, flow := start, Continue;
      if state.ReadBinSize? {
        curr, flow := StageBinSize(dataIn, curr);
        if flow.Return? { return; }
      }
      ghost var at := curr;
      if state.ReadAuth? {
        curr, flow := StageAuth(dataIn, curr);
        TakeMoreFrom(old(fed), dataIn, start, at, curr);
        if flow.Return? { return; }
      }
      at := curr;
      if state.ReadExtraHeader? {
        curr, flow := StageExtraHeader(dataIn, curr);
        TakeMoreFrom(old(fed), dataIn, start, at, curr);
      }
    }

    lemma TakeMoreFrom(before: seq<uint8>, dataIn: seq<uint8>, start: nat, a: nat, b: nat)
      requires start <= a <= b <= |dataIn|
      ensures before + dataIn[start..a] + dataIn[a..b] == before + dataIn[start..b]
    {
    }

    method ReadHeaderFields(dataIn: seq<uint8>) returns (curr: nat, flow: Flow)
      requires Valid()
      modifies this, iv, authTag, cacheBuf
      ensures ended == old(ended)
      ensures curr <= |dataIn| && fed == old(fed) + dataIn[..curr]
      ensures cacheBuf == old(cacheBuf) || fresh(cacheBuf)
      ensures flow.Continue? ==> Valid() && state == DecodeData
      ensures flow.Continue? ==>
                if old(state.DecodeData?) then curr == 0 && flushed == old(flushed) else flushed == 0
      ensures flow.Return? ==>
                if flow.status == NotFinished then Valid() && state != DecodeData && curr == |dataIn|
                else flow.status == Fail && ReadHeader(platform, fed).Bad?
    {
      curr, flow := ReadKeyFields(dataIn);
      if flow.Continue? {
        ghost var at := curr;
        curr, flow := ReadSizeFields(dataIn, curr);
        TakeMore(old(fed), dataIn, at, curr);
      }
    }

    lemma DecodingIsValid()
      requires Decoding()
      ensures Valid() && Reachable(platform, OtaImage.Progress(fed, flushed))
    {
      HeaderRecovered();
    }

    /** The header part of a call, in terms of Feed: either that is the whole call, or the payload part is left. */
    method ReadHeaderPart(dataIn: seq<uint8>) returns (curr: nat, flow: Flow)
      requires Valid()
      modifies this, iv, authTag, cacheBuf
      ensures ended == old(ended)
      ensures curr <= |dataIn| && fed == old(fed) + dataIn[..curr]
      ensures cacheBuf == old(cacheBuf) || fresh(cacheBuf)
      ensures Reachable(platform, OtaImage.Progress(old(fed), old(flushed)))
      ensures var o := Feed(platform, OtaImage.Progress(old(fed), old(flushed)), dataIn);
              if flow.Return? then
                && o.status == flow.status && flow.status in {NotFinished, Fail}
                && (o.status == NotFinished ==>
                    Valid() && !state.DecodeData? && o.out == [] && o.next == OtaImage.Progress(fed, flushed))
              else
                var h := Good(gcmKey, gcm.iv, binaryFileLen, authTag[..]);
                && Decoding() && Reachable(platform, OtaImage.Progress(fed, flushed))
                && o == FeedPayload(platform, h, old(fed) + dataIn, flushed)
    {
      HeaderRecovered();
      ghost var p, s := OtaImage.Progress(fed, flushed), fed + dataIn;
      curr, flow := ReadHeaderFields(dataIn);
      TakeMore(p.fed, dataIn, curr, |dataIn|);
      HeaderOfPrefix(platform, fed, s);
      if flow.Continue? || flow.status == NotFinished {
        HeaderRecovered();
      }
      FeedCases(platform, p, dataIn, ReadHeader(platform, s));
    }

    lemma TakeMore(before: seq<uint8>, dataIn: seq<uint8>, a: nat, b: nat)
      requires a <= b <= |dataIn|
      ensures before + dataIn[..a] + dataIn[a..b] == before + dataIn[..b]
      ensures before + dataIn[..a] + dataIn[a..] == before + dataIn
    {
    }

    /** The payload part of a call, whose answer is o. */
    method DecodeRest(data: seq<uint8>, args: Args, ghost o: Outcome) returns (status: Status)
      requires Decoding() && !Owns(args.dataOut) && flushed <= PayloadLen(fed + data)
      requires o == FeedPayload(platform, Good(gcmKey, gcm.iv, binaryFileLen, authTag[..]), fed + data, flushed)
      modifies this, cacheBuf, args, args.dataOut
      ensures status == o.status
      ensures status != NoMem ==> Valid() && state.DecodeData? && o.next == OtaImage.Progress(fed, flushed)
      ensures status != NoMem ==> args.Valid() && args.Output() == o.out
      ensures cacheBuf == old(cacheBuf) && !Owns(args.dataOut)
      ensures args.dataOut == old(args.dataOut) || fresh(args.dataOut)
      ensures ended == (old(ended) || status == Ok)
      ensures status == Ok && !old(ended) ==> AlignedButLast(gcm.updates)
    {
      status := ProcessBin(data, args, Good(gcmKey, gcm.iv, binaryFileLen, authTag[..]));
      if status != NoMem {
        DecodingIsValid();
      }
    }

    /** esp_encrypted_img_decrypt_data: refines OtaImage.Feed. */
    method DecryptData(dataIn: seq<uint8>, args: Args) returns (status: Status)
      requires Valid() && !Owns(args.dataOut)
      modifies this, iv, authTag, cacheBuf, args, args.dataOut
      ensures Reachable(platform, OtaImage.Progress(old(fed), old(flushed)))
      ensures var o := Feed(platform, OtaImage.Progress(old(fed), old(flushed)), dataIn);
              && status == o.status
              && (status in {Ok, NotFinished} ==> Valid() && OtaImage.Progress(fed, flushed) == o.next)
              && (status in {Ok, NotFinished} ==>
                    if state == DecodeData then args.Output() == o.out
                    else o.out == [] && args.Output() == old(args.Output()))
      ensures status in {Ok, NotFinished} && old(args.Valid()) ==> args.Valid()
      ensures cacheBuf == old(cacheBuf) || fresh(cacheBuf)
      ensures args.dataOut == old(args.dataOut) || fresh(args.dataOut)
      ensures status in {Ok, NotFinished} ==> !Owns(args.dataOut)
      ensures ended == (old(ended) || status == Ok)
      ensures status == Ok && !old(ended) ==> AlignedButLast(gcm.updates)
    {
      var curr, flow := ReadHeaderPart(dataIn);
      if flow.Return? {
        return flow.status;
      }
      TakeMore(old(fed), dataIn, curr, |dataIn|);
      status := DecodeRest(dataIn[curr..], args, Feed(platform, OtaImage.Progress(old(fed), old(flushed)), dataIn));
    }

    /** esp_encrypted_img_decrypt_end: success exactly for a complete image with the right tag. */
    method DecryptEnd() returns (ok: bool)
      requires Valid()
      ensures ok <==> EndOk(platform, fed)
    {
      HeaderRecovered();
      if state != DecodeData {
        return false;
      }
      if cacheBufLen != 0 || binaryFileRead != binaryFileLen {
        return false;
      }
      ok := platform.tag(gcm.key, gcm.iv, gcm.fed) == authTag[..];
      assert gcm.fed == fed[HEADER_SIZE..];
    }

    /** esp_encrypted_img_is_complete_data_received */
    method IsCompleteDataReceived() returns (r: bool)
      requires Valid()
      ensures r <==> SaysComplete(fed)
    {
      r := binaryFileLen == binaryFileRead;
    }
  }

  /**
    The completeness answer after the bytes s: it compares the announced size
    (zero until it is known) with the bytes of whatever field is being read.
   */
  predicate SaysComplete(s: seq<uint8>) {
    if |s| < 408 then |s| in {0, 4, 388, 404}
    else if |s| < 424 then |s| - 408 == Le32(s[404..408])
    else if |s| < HEADER_SIZE then |s| - 424 == Le32(s[404..408])
    else Wrap(PayloadLen(s)) == Le32(s[404..408])
  }

  /** The lengths at which that answer is given although the image is not complete. */
  predicate TooSoon(s: seq<uint8>) {
    || |s| in {0, 4, 388, 404}
    || (408 <= |s| < 424 && |s| - 408 == Le32(s[404..408]))
    || (424 <= |s| < HEADER_SIZE && |s| - 424 == Le32(s[404..408]))
  }

  /** The answer is right from the end of the header on, and before that exactly outside these lengths. */
  lemma AnswerIsRight(s: seq<uint8>)
    ensures (SaysComplete(s) <==> |s| >= HEADER_SIZE && Wrap(PayloadLen(s)) == Le32(s[404..408])) <==>
              |s| >= HEADER_SIZE || !TooSoon(s)
  {
  }

  /** A handle to which nothing has been fed says that all data has been received. */
  method FreshSaysComplete(platform: Platform) returns (r: bool)
    ensures r
  {
    var handle := new Handle(platform);
    r := handle.IsCompleteDataReceived();
  }

  lemma FeedCases(c: Platform, p: OtaImage.Progress, chunk: seq<uint8>, h: Header)
    requires Reachable(c, p) && h == ReadHeader(c, p.fed + chunk)
    ensures p.flushed <= PayloadLen(p.fed + chunk)
    ensures Feed(c, p, chunk) ==
            match h
            case Pending => Outcome(NotFinished, [], OtaImage.Progress(p.fed + chunk, 0))
            case Bad => Outcome(Fail, [], OtaImage.Progress(p.fed + chunk, 0))
            case Good(_, _, _, _) => FeedPayload(c, h, p.fed + chunk, p.flushed)
  {
  }

  /**
    A caller that feeds the chunks one by one, stops at the first error, and
    ends the decryption if there was none.
   */
  method DecryptStream(platform: Platform, chunks: seq<seq<uint8>>)
    returns (out: seq<uint8>, statuses: seq<Status>, ok: bool)
    ensures var t := Run(platform, chunks);
            out == t.out && statuses == t.statuses && (ok <==> !t.stopped && EndOk(platform, Flatten(chunks)))
  {
    var handle := new Handle(platform);
    out, statuses := [], [];
    var i := 0;
    while i < |chunks|
      invariant 0 <= i <= |chunks|
      invariant handle.Valid() && handle.platform == platform
      invariant fresh(handle) && fresh(handle.iv) && fresh(handle.authTag) && fresh(handle.cacheBuf)
      invariant Run(platform, chunks[..i]) == Trace(OtaImage.Progress(handle.fed, handle.flushed), out, statuses, false)
    {
      RunNext(platform, chunks, i);
      var plain, status := FeedOne(handle, chunks[i],
                                   Trace(OtaImage.Progress(handle.fed, handle.flushed), out, statuses, false));
      out, statuses := out + plain, statuses + [status];
      i := i + 1;
      if status !in {Ok, NotFinished} {
        StoppedRun(platform, chunks, i);
        return out, statuses, false;
      }
    }
    assert chunks[..|chunks|] == chunks;
    RunFed(platform, chunks);
    ok := handle.DecryptEnd();
  }

  lemma RunNext(c: Platform, chunks: seq<seq<uint8>>, i: nat)
    requires i < |chunks|
    ensures Run(c, chunks[..i + 1]) == RunOn(c, Run(c, chunks[..i]), chunks[i])
  {
    assert chunks[..i + 1][..i] == chunks[..i];
  }

  /** One call with fresh output fields, as a step of the run t. */
  method FeedOne(handle: Handle, chunk: seq<uint8>, ghost t: Trace) returns (plain: seq<uint8>, status: Status)
    requires handle.Valid() && t.at == OtaImage.Progress(handle.fed, handle.flushed) && !t.stopped
    modifies handle, handle.iv, handle.authTag, handle.cacheBuf
    ensures Reachable(handle.platform, t.at)
    ensures var r := RunOn(handle.platform, t, chunk);
            && r.out == t.out + plain && r.statuses == t.statuses + [status]
            && (r.stopped <==> status !in {Ok, NotFinished})
            && (!r.stopped ==> handle.Valid() && r.at == OtaImage.Progress(handle.fed, handle.flushed))
    ensures handle.cacheBuf == old(handle.cacheBuf) || fresh(handle.cacheBuf)
  {
    var args := new Args();
    status := handle.DecryptData(chunk, args);
    plain := [];
    if status in {Ok, NotFinished} {
      plain := args.dataOut[..args.dataOutLen];
    }
  }

  /** Nothing changes once a run has stopped. */
  lemma {:induction false} StoppedRun(c: Platform, chunks: seq<seq<uint8>>, i: nat)
    requires i <= |chunks| && Run(c, chunks[..i]).stopped
    ensures Run(c, chunks) == Run(c, chunks[..i])
  {
    if i < |chunks| {
      var n := |chunks| - 1;
      assert chunks[..n][..i] == chunks[..i];
      StoppedRun(c, chunks[..n], i);
    } else {
      assert chunks[..i] == chunks;
    }
  }

  /**
    The decryptor on a whole image, however cut: all of the plaintext comes
    out, byte by byte from its position in the payload, and the end succeeds
    exactly when the tag over the whole ciphertext is the one in the header.
   */
  method DecryptImage(platform: Platform, chunks: seq<seq<uint8>>) returns (out: seq<uint8>, ok: bool)
    requires IsImageFile(platform, Flatten(chunks)) && |Flatten(chunks)| > 512
    requires chunks[|chunks| - 1] != []
    ensures var s := Flatten(chunks);
            var key, iv := platform.unwrap(s[4..388]).value, s[388..404];
            && |out| == |s| - 512
            && (forall i | 0 <= i < |out| :: out[i] == platform.unmask(key, iv, i, s[512 + i]))
            && (ok <==> platform.tag(key, iv, s[512..]) == s[408..424])
  {
    var statuses;
    out, statuses, ok := DecryptStream(platform, chunks);
    ImageBytes(platform, Flatten(chunks));
    GoodHeaderBytes(platform, Flatten(chunks));
    CuttingDoesNotMatter(platform, chunks, Flatten(chunks));
    OneShotIsPlaintext(platform, Flatten(chunks));
  }
}
