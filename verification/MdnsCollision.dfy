/**
  Simultaneous probe tie-breaking (section 8.2 of RFC 6762): which of two
  hosts that claim the same name keeps it, by SRV and by TXT record data.
 */
module MdnsCollision {
  import opened Bytes
  import opened MdnsTxt

  /** "local" */
  const DEFAULT_DOMAIN: seq<uint8> := [0x6C, 0x6F, 0x63, 0x61, 0x6C]

  /** What one host claims about a service. */
  datatype Claim = Claim(priority: nat, weight: nat, port: nat, host: seq<uint8>)

  predicate IsClaim(c: Claim) {
    c.priority < U16 && c.weight < U16 && c.port < U16 && c.host != []
  }

  /** memcmp on buffers of the same length: negative, zero or positive. */
  function MemCmp(a: seq<uint8>, b: seq<uint8>): int
    requires |a| == |b|
  {
    if a == [] then 0
    else if a[0] < b[0] then -1
    else if a[0] > b[0] then 1
    else MemCmp(a[1..], b[1..])
  }

  lemma {:induction false} MemCmpAntisymmetric(a: seq<uint8>, b: seq<uint8>)
    requires |a| == |b|
    ensures MemCmp(a, b) == -MemCmp(b, a)
    ensures MemCmp(a, b) in {-1, 0, 1}
    ensures MemCmp(a, b) == 0 <==> a == b
  {
    if a != [] {
      MemCmpAntisymmetric(a[1..], b[1..]);
      assert a == [a[0]] + a[1..] && b == [b[0]] + b[1..];
    }
  }

  lemma {:induction false} MemCmpTransitive(a: seq<uint8>, b: seq<uint8>, c: seq<uint8>)
    requires |a| == |b| == |c| && MemCmp(a, b) < 0 && MemCmp(b, c) < 0
    ensures MemCmp(a, c) < 0
  {
    if a[0] == b[0] == c[0] {
      MemCmpTransitive(a[1..], b[1..], c[1..]);
    }
  }

  /** At the first difference the second has the greater byte. */
  predicate LaterAt(a: seq<uint8>, b: seq<uint8>, k: nat)
    requires |a| == |b|
  {
    k < |a| && a[..k] == b[..k] && a[k] < b[k]
  }

  lemma {:induction false} MemCmpMeaning(a: seq<uint8>, b: seq<uint8>)
    requires |a| == |b|
    ensures MemCmp(a, b) < 0 <==> exists k: nat :: LaterAt(a, b, k)
  {
    if a != [] {
      var s, t := a[1..], b[1..];
      MemCmpMeaning(s, t);
      assert a == [a[0]] + s && b == [b[0]] + t;
      if a[0] < b[0] {
        assert LaterAt(a, b, 0);
      } else if a[0] == b[0] && MemCmp(s, t) < 0 {
        var k: nat :| LaterAt(s, t, k);
        assert a[..k + 1] == [a[0]] + s[..k] && b[..k + 1] == [b[0]] + t[..k];
        assert LaterAt(a, b, k + 1);
      } else if exists k: nat :: LaterAt(a, b, k) {
        var k: nat :| LaterAt(a, b, k);
        assert k > 0 ==> a[0] == a[..k][0] == b[..k][0] == b[0];
        assert k > 0 ==> s[..k - 1] == a[..k][1..] && t[..k - 1] == b[..k][1..];
        assert k > 0 ==> LaterAt(s, t, k - 1);
      }
    }
  }

  lemma {:induction false} MemCmpConcat(a: seq<uint8>, b: seq<uint8>, c: seq<uint8>, d: seq<uint8>)
    requires |a| == |c| && |b| == |d|
    ensures MemCmp(a + b, c + d) == if a == c then MemCmp(b, d) else MemCmp(a, c)
  {
    if a == [] {
      assert a + b == b && c + d == d;
    } else {
      assert (a + b)[1..] == a[1..] + b && (c + d)[1..] == c[1..] + d;
      assert a == [a[0]] + a[1..] && c == [c[0]] + c[1..];
      MemCmpConcat(a[1..], b, c[1..], d);
    }
  }

  function U16Bytes(v: nat): seq<uint8>
    requires v < U16
  {
    [(v / 0x100) as uint8, (v % 0x100) as uint8]
  }

  lemma U16BytesInjective(v: nat, w: nat)
    requires v < U16 && w < U16 && U16Bytes(v) == U16Bytes(w)
    ensures v == w
  {
    assert U16Bytes(v)[0] == U16Bytes(w)[0] && U16Bytes(v)[1] == U16Bytes(w)[1];
  }

  /** The most significant byte comes first, so the greater number is the later data. */
  lemma U16BytesOrder(v: nat, w: nat)
    requires v < U16 && w < U16
    ensures MemCmp(U16Bytes(v), U16Bytes(w)) == if v < w then -1 else if v > w then 1 else 0
  {
    var a, b := U16Bytes(v), U16Bytes(w);
    assert a[1..] == [(v % 0x100) as uint8] && b[1..] == [(w % 0x100) as uint8];
    assert MemCmp(a[1..], b[1..]) == if v % 0x100 < w % 0x100 then -1 else if v % 0x100 > w % 0x100 then 1 else 0 by {
      assert MemCmp(a[1..][1..], b[1..][1..]) == 0;
    }
    assert v == 0x100 * (v / 0x100) + v % 0x100 && w == 0x100 * (w / 0x100) + w % 0x100;
  }

  function Fields(c: Claim): (r: seq<uint8>)
    requires c.priority < U16 && c.weight < U16 && c.port < U16
    ensures |r| == 6
  {
    U16Bytes(c.priority) + U16Bytes(c.weight) + U16Bytes(c.port)
  }

  function Label(s: seq<uint8>): (r: seq<uint8>)
    ensures |r| == |s| + 1
  {
    [(|s| % 0x100) as uint8] + s
  }

  /** SRV record data. */
  function SrvData(c: Claim, domain: seq<uint8>): (r: seq<uint8>)
    requires c.priority < U16 && c.weight < U16 && c.port < U16
    ensures |r| == 9 + |c.host| + |domain|
  {
    Fields(c) + Label(c.host) + Label(domain) + [0]
  }

  /** The rule: more data wins, then the lexicographically later data. 1: they win, -1: we win. */
  function Verdict(ours: seq<uint8>, theirs: seq<uint8>): int {
    if |theirs| > |ours| then 1
    else if |theirs| < |ours| then -1
    else -MemCmp(ours, theirs)
  }

  function SrvVerdict(us: Claim, them: Claim): int
    requires IsClaim(us) && IsClaim(them)
  {
    Verdict(SrvData(us, DEFAULT_DOMAIN), SrvData(them, DEFAULT_DOMAIN))
  }

  method AppendLabel(data: array<uint8>, index: nat, name: seq<uint8>) returns (next: nat)
    requires index + 1 + |name| <= data.Length
    modifies data
    ensures next == index + 1 + |name|
    ensures data[..next] == old(data[..index]) + Label(name)
  {
    ghost var before := data[..index];
    next := Append(data, index, [(|name| % 0x100) as uint8]);
    next := Append(data, next, name);
    assert before + [(|name| % 0x100) as uint8] + name == before + Label(name);
  }

  method FillSrvData(data: array<uint8>, priority: nat, weight: nat, port: nat, host: seq<uint8>, domain: seq<uint8>)
    requires priority < U16 && weight < U16 && port < U16
    requires data.Length == 9 + |host| + |domain|
    modifies data
    ensures data[..] == SrvData(Claim(priority, weight, port, host), domain)
  {
    var index := Append(data, 0, U16Bytes(priority));
    index := Append(data, index, U16Bytes(weight));
    index := Append(data, index, U16Bytes(port));
    assert data[..6] == Fields(Claim(priority, weight, port, host));
    index := AppendLabel(data, index, host);
    index := AppendLabel(data, index, domain);
    index := Append(data, index, [0]);
    assert data[..index] == data[..];
  }

  /** _mdns_check_srv_collision */
  method CheckSrvCollision(hostname: seq<uint8>, ours: Claim, priority: nat, weight: nat, port: nat,
                           host: seq<uint8>, domain: seq<uint8>) returns (r: int)
    requires ours.priority < U16 && ours.weight < U16 && ours.port < U16 && ours.host == hostname
    requires priority < U16 && weight < U16 && port < U16
    ensures hostname == [] ==> r == 0
    ensures hostname != [] ==>
              r == Verdict(SrvData(ours, DEFAULT_DOMAIN), SrvData(Claim(priority, weight, port, host), domain))
  {
    if hostname == [] {
      return 0;
    }
    var ourLen := 14 + |hostname|;
    var theirLen := 9 + |host| + |domain|;
    if theirLen > ourLen {
      return 1;
    } else if theirLen < ourLen {
      return -1;
    }
    var ourData := new uint8[ourLen];
    FillSrvData(ourData, ours.priority, ours.weight, ours.port, hostname, DEFAULT_DOMAIN);
    var theirData := new uint8[theirLen];
    FillSrvData(theirData, priority, weight, port, host, domain);
    var c := MemCmp(ourData[..], theirData[..]);
    MemCmpAntisymmetric(ourData[..], theirData[..]);
    r := if c > 0 then -1 else if c < 0 then 1 else 0;
  }

  /** The first loop of _mdns_check_txt_collision. */
  method TxtDataLen(txt: seq<Entry>) returns (dataLen: nat)
    ensures dataLen == |Entries(txt)|
  {
    dataLen := 0;
    for i := 0 to |txt|
      invariant dataLen == |Entries(txt[..i])|
    {
      EntriesStep(txt, i);
      dataLen := dataLen + 1 + |txt[i].key| + (if txt[i].value.Some? then |txt[i].value.value| + 1 else 0);
    }
    assert txt[..|txt|] == txt;
  }

  /** The second loop; what append_one_txt_record_entry cannot fit leaves the buffer as it was. */
  method BuildTxtData(txt: seq<Entry>, dataLen: nat) returns (ours: array<uint8>)
    requires dataLen == |Entries(txt)|
    ensures fresh(ours) && ours.Length == dataLen
    ensures dataLen < MDNS_MAX_PACKET_SIZE ==> ours[..] == Entries(txt)
  {
    ours := new uint8[dataLen];
    var index: nat := 0;
    for i := 0 to |txt|
      invariant index <= |Entries(txt[..i])| <= dataLen
      invariant dataLen < MDNS_MAX_PACKET_SIZE ==>
                  index == |Entries(txt[..i])| && ours[..index] == Entries(txt[..i])
    {
      EntriesStep(txt, i);
      var added;
      added, index := AppendOneTxtRecordEntry(ours, index, txt[i]);
    }
    assert txt[..|txt|] == txt;
    assert ours[..] == ours[..dataLen];
  }

  /** _mdns_check_txt_collision */
  method CheckTxtCollision(txt: seq<Entry>, data: seq<uint8>) returns (r: int)
    ensures |data| <= 1 ==> r == if txt == [] then 0 else -1
    ensures |data| > 1 && txt == [] ==> r == 1
    ensures |data| > 1 && txt != [] && (|Entries(txt)| < MDNS_MAX_PACKET_SIZE || |Entries(txt)| != |data|) ==>
              r == Verdict(Entries(txt), data)
  {
    if |data| <= 1 {
      return if txt == [] then 0 else -1;
    } else if txt == [] {
      return 1;
    }
    var dataLen := TxtDataLen(txt);
    if |data| > dataLen {
      return 1;
    } else if |data| < dataLen {
      return -1;
    }
    var ours := BuildTxtData(txt, dataLen);
    var c := MemCmp(ours[..], data);
    MemCmpAntisymmetric(ours[..], data);
    r := if c > 0 then -1 else if c < 0 then 1 else 0;
  }

  // ---- What the rule gives --------------------------------------------------

  lemma VerdictAntisymmetric(a: seq<uint8>, b: seq<uint8>)
    ensures Verdict(a, b) == -Verdict(b, a)
    ensures Verdict(a, b) == 0 <==> a == b
  {
    if |a| == |b| {
      MemCmpAntisymmetric(a, b);
    }
  }

  /** They win exactly with more data, or with as much and the greater byte at the first difference. */
  lemma LaterDataWins(ours: seq<uint8>, theirs: seq<uint8>)
    ensures Verdict(ours, theirs) == 1 <==>
              |theirs| > |ours| || (|theirs| == |ours| && exists k: nat :: LaterAt(ours, theirs, k))
    ensures Verdict(ours, theirs) == -1 <==>
              |ours| > |theirs| || (|ours| == |theirs| && exists k: nat :: LaterAt(theirs, ours, k))
  {
    if |ours| == |theirs| {
      MemCmpMeaning(ours, theirs);
      MemCmpMeaning(theirs, ours);
      MemCmpAntisymmetric(ours, theirs);
    }
  }

  /** The first of the numbers that differs decides, and only then the host names. */
  predicate Outranks(c: Claim, d: Claim)
    requires |c.host| == |d.host|
  {
    if c.priority != d.priority then c.priority > d.priority
    else if c.weight != d.weight then c.weight > d.weight
    else if c.port != d.port then c.port > d.port
    else MemCmp(d.host, c.host) < 0
  }

  lemma FieldsOrder(c: Claim, d: Claim)
    requires IsClaim(c) && IsClaim(d) && Fields(c) != Fields(d)
    ensures MemCmp(Fields(c), Fields(d)) ==
            if c.priority != d.priority then MemCmp(U16Bytes(c.priority), U16Bytes(d.priority))
            else if c.weight != d.weight then MemCmp(U16Bytes(c.weight), U16Bytes(d.weight))
            else MemCmp(U16Bytes(c.port), U16Bytes(d.port))
  {
    MemCmpConcat(U16Bytes(c.priority) + U16Bytes(c.weight), U16Bytes(c.port),
                 U16Bytes(d.priority) + U16Bytes(d.weight), U16Bytes(d.port));
    MemCmpConcat(U16Bytes(c.priority), U16Bytes(c.weight), U16Bytes(d.priority), U16Bytes(d.weight));
    if c.priority != d.priority && U16Bytes(c.priority) == U16Bytes(d.priority) {
      U16BytesInjective(c.priority, d.priority);
    }
    if c.weight != d.weight && U16Bytes(c.weight) == U16Bytes(d.weight) {
      U16BytesInjective(c.weight, d.weight);
    }
    if U16Bytes(c.priority) + U16Bytes(c.weight) == U16Bytes(d.priority) + U16Bytes(d.weight) {
      assert (U16Bytes(c.priority) + U16Bytes(c.weight))[..2] == U16Bytes(c.priority);
      assert (U16Bytes(d.priority) + U16Bytes(d.weight))[..2] == U16Bytes(d.priority);
      assert (U16Bytes(c.priority) + U16Bytes(c.weight))[2..] == U16Bytes(c.weight);
      assert (U16Bytes(d.priority) + U16Bytes(d.weight))[2..] == U16Bytes(d.weight);
    }
  }

  lemma SrvDataOrder(c: Claim, d: Claim)
    requires IsClaim(c) && IsClaim(d) && |c.host| == |d.host|
    ensures MemCmp(SrvData(c, DEFAULT_DOMAIN), SrvData(d, DEFAULT_DOMAIN)) ==
            if Fields(c) != Fields(d) then MemCmp(Fields(c), Fields(d)) else MemCmp(c.host, d.host)
  {
    var x, y, tail := Label(c.host), Label(d.host), Label(DEFAULT_DOMAIN) + [0];
    assert SrvData(c, DEFAULT_DOMAIN) == Fields(c) + (x + tail);
    assert SrvData(d, DEFAULT_DOMAIN) == Fields(d) + (y + tail);
    MemCmpConcat(Fields(c), x + tail, Fields(d), y + tail);
    MemCmpConcat(x, tail, y, tail);
    MemCmpAntisymmetric(tail, tail);
    MemCmpConcat([x[0]], c.host, [x[0]], d.host);
    assert x == [x[0]] + c.host && y == [x[0]] + d.host;
    MemCmpAntisymmetric(c.host, d.host);
  }

  /** Between hosts with names of the same length: priority, then weight, then port, then the name. */
  lemma SrvByFields(us: Claim, them: Claim)
    requires IsClaim(us) && IsClaim(them) && |us.host| == |them.host|
    ensures SrvVerdict(us, them) == 1 <==> Outranks(them, us)
  {
    SrvDataOrder(us, them);
    U16BytesOrder(us.priority, them.priority);
    U16BytesOrder(us.weight, them.weight);
    U16BytesOrder(us.port, them.port);
    MemCmpAntisymmetric(us.host, them.host);
    if Fields(us) != Fields(them) {
      FieldsOrder(us, them);
    } else {
      FieldsInjective(us, them);
    }
  }

  lemma VerdictTransitive(a: seq<uint8>, b: seq<uint8>, c: seq<uint8>)
    requires Verdict(a, b) < 0 && Verdict(b, c) < 0
    ensures Verdict(a, c) < 0
  {
    if |a| == |b| == |c| {
      MemCmpAntisymmetric(a, b);
      MemCmpAntisymmetric(b, c);
      MemCmpAntisymmetric(a, c);
      MemCmpTransitive(c, b, a);
    }
  }

  lemma FieldsInjective(c: Claim, d: Claim)
    requires IsClaim(c) && IsClaim(d) && Fields(c) == Fields(d)
    ensures c.priority == d.priority && c.weight == d.weight && c.port == d.port
  {
    assert Fields(c)[0..2] == U16Bytes(c.priority) && Fields(d)[0..2] == U16Bytes(d.priority);
    assert Fields(c)[2..4] == U16Bytes(c.weight) && Fields(d)[2..4] == U16Bytes(d.weight);
    assert Fields(c)[4..6] == U16Bytes(c.port) && Fields(d)[4..6] == U16Bytes(d.port);
    U16BytesInjective(c.priority, d.priority);
    U16BytesInjective(c.weight, d.weight);
    U16BytesInjective(c.port, d.port);
  }

  lemma SrvDataInjective(c: Claim, d: Claim)
    requires IsClaim(c) && IsClaim(d) && SrvData(c, DEFAULT_DOMAIN) == SrvData(d, DEFAULT_DOMAIN)
    ensures c == d
  {
    var x, y := SrvData(c, DEFAULT_DOMAIN), SrvData(d, DEFAULT_DOMAIN);
    assert |c.host| == |d.host|;
    assert x[..6] == Fields(c) && y[..6] == Fields(d);
    FieldsInjective(c, d);
    assert x[7..7 + |c.host|] == c.host && y[7..7 + |d.host|] == d.host;
  }

  /** Two hosts never both think they won, and think they are the same only if they claim the same. */
  lemma SrvAntisymmetric(a: Claim, b: Claim)
    requires IsClaim(a) && IsClaim(b)
    ensures SrvVerdict(a, b) == -SrvVerdict(b, a)
    ensures SrvVerdict(a, b) == 0 <==> a == b
  {
    VerdictAntisymmetric(SrvData(a, DEFAULT_DOMAIN), SrvData(b, DEFAULT_DOMAIN));
    if SrvVerdict(a, b) == 0 {
      SrvDataInjective(a, b);
    }
  }

  lemma SrvTransitive(a: Claim, b: Claim, c: Claim)
    requires IsClaim(a) && IsClaim(b) && IsClaim(c)
    requires SrvVerdict(a, b) < 0 && SrvVerdict(b, c) < 0
    ensures SrvVerdict(a, c) < 0
  {
    VerdictTransitive(SrvData(a, DEFAULT_DOMAIN), SrvData(b, DEFAULT_DOMAIN), SrvData(c, DEFAULT_DOMAIN));
  }

  ghost predicate BeatsAllOthers(w: Claim, contenders: set<Claim>)
    requires forall c | c in contenders :: IsClaim(c)
  {
    w in contenders && forall c | c in contenders && c != w :: SrvVerdict(w, c) < 0
  }

  /** Among any contenders with different claims one beats all others. */
  lemma {:induction false} SomebodyWins(contenders: set<Claim>) returns (w: Claim)
    requires contenders != {} && forall c | c in contenders :: IsClaim(c)
    ensures BeatsAllOthers(w, contenders)
    decreases contenders
  {
    var c :| c in contenders;
    var others := contenders - {c};
    if others == {} {
      assert contenders == {c};
      return c;
    }
    var v := SomebodyWins(others);
    SrvAntisymmetric(c, v);
    if SrvVerdict(c, v) < 0 {
      w := c;
      forall d | d in contenders && d != w
        ensures SrvVerdict(w, d) < 0
      {
        if d != v {
          SrvTransitive(c, v, d);
        }
      }
    } else {
      w := v;
    }
  }

  /** Exactly one contender wins. */
  lemma ExactlyOneWinner(contenders: set<Claim>, w: Claim, v: Claim)
    requires contenders != {} && forall c | c in contenders :: IsClaim(c)
    ensures exists x :: BeatsAllOthers(x, contenders)
    ensures BeatsAllOthers(w, contenders) && BeatsAllOthers(v, contenders) ==> w == v
  {
    var x := SomebodyWins(contenders);
    if BeatsAllOthers(w, contenders) && BeatsAllOthers(v, contenders) && w != v {
      SrvAntisymmetric(w, v);
    }
  }

  /** What _mdns_check_txt_collision answers to record data made by the encoder. */
  function TxtVerdict(txt: seq<Entry>, data: seq<uint8>): int {
    if |data| <= 1 then (if txt == [] then 0 else -1)
    else if txt == [] then 1
    else Verdict(Entries(txt), data)
  }

  lemma EntriesLong(txt: seq<Entry>)
    requires txt != [] && txt[0].key != []
    ensures |Entries(txt)| > 1
  {
    assert |EntryBytes(txt[0])| >= 2;
  }

  /** Two hosts never both think their TXT record won, and agree that it is the same only if it is. */
  lemma TxtAntisymmetric(a: seq<Entry>, b: seq<Entry>)
    requires (a != [] ==> a[0].key != []) && (b != [] ==> b[0].key != [])
    ensures TxtVerdict(a, Wire(b)) == -TxtVerdict(b, Wire(a))
    ensures TxtVerdict(a, Wire(b)) == 0 <==> Wire(a) == Wire(b)
  {
    if a != [] {
      EntriesLong(a);
    }
    if b != [] {
      EntriesLong(b);
    }
    VerdictAntisymmetric(Entries(a), Entries(b));
  }

  /** The comparison as run by one host on the data sent by another. */
  method TxtTieBreak(ours: seq<Entry>, theirs: seq<Entry>) returns (we: int, they: int)
    requires (ours != [] ==> ours[0].key != []) && (theirs != [] ==> theirs[0].key != [])
    requires |Wire(ours)| < MDNS_MAX_PACKET_SIZE && |Wire(theirs)| < MDNS_MAX_PACKET_SIZE
    ensures we == -they && (we == 0 <==> Wire(ours) == Wire(theirs))
  {
    we := CheckTxtCollision(ours, Wire(theirs));
    they := CheckTxtCollision(theirs, Wire(ours));
    TxtAntisymmetric(ours, theirs);
  }
}
