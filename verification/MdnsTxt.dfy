/**
  TXT records: the "key=value" strings a responder writes into a packet, and
  the two-pass parser that reads them back (sections 6.1 to 6.5 of RFC 6763).
 */
module MdnsTxt {
  import opened Bytes

  const MDNS_MAX_PACKET_SIZE: nat := 1460
  const EQ: uint8 := 0x3D

  /** One attribute; a missing value is a null pointer, not an empty string. */
  datatype Entry = Entry(key: seq<uint8>, value: Option<seq<uint8>>)

  function ValueBytes(e: Entry): seq<uint8> {
    if e.value.Some? then [EQ] + e.value.value else []
  }

  function EntryLen(e: Entry): nat {
    |e.key| + |ValueBytes(e)|
  }

  /** The length byte holds the low eight bits of the length. */
  function EntryBytes(e: Entry): (r: seq<uint8>)
    ensures |r| == EntryLen(e) + 1
  {
    [(EntryLen(e) % 0x100) as uint8] + e.key + ValueBytes(e)
  }

  function Entries(txt: seq<Entry>): seq<uint8> {
    if txt == [] then [] else EntryBytes(txt[0]) + Entries(txt[1..])
  }

  /** The record data: at least one byte, a zero, when there are no attributes. */
  function Wire(txt: seq<Entry>): seq<uint8> {
    if txt == [] then [0] else Entries(txt)
  }

  lemma {:induction false} EntriesConcat(a: seq<Entry>, b: seq<Entry>)
    ensures Entries(a + b) == Entries(a) + Entries(b)
  {
    if a == [] {
      assert a + b == b;
    } else {
      assert (a + b)[1..] == a[1..] + b;
      EntriesConcat(a[1..], b);
    }
  }

  /** append_one_txt_record_entry: 0 when it does not fit. */
  method AppendOneTxtRecordEntry(packet: array<uint8>, index: nat, txt: Entry) returns (added: nat, next: nat)
    requires index + |EntryBytes(txt)| < MDNS_MAX_PACKET_SIZE ==> index + |EntryBytes(txt)| <= packet.Length
    modifies packet
    ensures added == 0 <==> index + |EntryBytes(txt)| >= MDNS_MAX_PACKET_SIZE
    ensures added == 0 ==> next == index && packet[..] == old(packet[..])
    ensures added > 0 ==> added == |EntryBytes(txt)| && next == index + added <= packet.Length
    ensures added > 0 ==> packet[..next] == old(packet[..index]) + EntryBytes(txt)
    ensures EntryBytes(txt) ==
              [(EntryLen(txt) % 0x100) as uint8] + txt.key +
              if txt.value.Some? then [0x3D] + txt.value.value else []
  {
    var keyLen := |txt.key|;
    var len := keyLen + (if txt.value.Some? then 1 + |txt.value.value| else 0);
    if index + len + 1 >= MDNS_MAX_PACKET_SIZE {
      return 0, index;
    }
    next := WriteEntry(packet, index, txt, len);
    added := len + 1;
  }

  method WriteEntry(packet: array<uint8>, index: nat, txt: Entry, len: nat) returns (next: nat)
    requires len == EntryLen(txt) && index + 1 + len <= packet.Length
    modifies packet
    ensures next == index + 1 + len && packet[..next] == old(packet[..index]) + EntryBytes(txt)
  {
    ghost var before := packet[..index];
    next := Append(packet, index, [(len % 0x100) as uint8]);
    next := Append(packet, next, txt.key);
    if txt.value.Some? {
      next := Append(packet, next, [EQ]);
      next := Append(packet, next, txt.value.value);
    }
    BytesInOrder(before, txt);
  }

  lemma BytesInOrder(before: seq<uint8>, txt: Entry)
    ensures var head := before + [(EntryLen(txt) % 0x100) as uint8] + txt.key;
            before + EntryBytes(txt) == if txt.value.Some? then head + [EQ] + txt.value.value else head
  {
  }

  /** The data part of _mdns_append_txt_record: all attributes or nothing. */
  method AppendTxtData(packet: array<uint8>, index: nat, txt: seq<Entry>) returns (dataLen: nat, next: nat)
    requires packet.Length == MDNS_MAX_PACKET_SIZE && index < MDNS_MAX_PACKET_SIZE
    modifies packet
    ensures dataLen > 0 <==> txt == [] || index + |Wire(txt)| < MDNS_MAX_PACKET_SIZE
    ensures dataLen > 0 ==> dataLen == |Wire(txt)| && next == index + dataLen
    ensures dataLen > 0 ==> packet[..next] == old(packet[..index]) + Wire(txt)
  {
    dataLen, next := 0, index;
    ghost var before, done := packet[..index], [];
    for i := 0 to |txt|
      invariant done == Entries(txt[..i]) && dataLen == |done| && next == index + dataLen < MDNS_MAX_PACKET_SIZE
      invariant packet[..next] == before + done
      invariant i > 0 ==> dataLen > 0
    {
      EntriesStep(txt, i);
      Regroup(before, done, EntryBytes(txt[i]));
      var added;
      added, next := AppendOneTxtRecordEntry(packet, next, txt[i]);
      if added == 0 {
        return 0, next;
      }
      dataLen := dataLen + added;
      done := done + EntryBytes(txt[i]);
    }
    assert txt[..|txt|] == txt;
    if dataLen == 0 {
      packet[next] := 0;
      dataLen, next := 1, next + 1;
    }
  }

  lemma EntriesStep(txt: seq<Entry>, i: nat)
    requires i < |txt|
    ensures Entries(txt[..i + 1]) == Entries(txt[..i]) + EntryBytes(txt[i])
    ensures |Entries(txt)| >= |Entries(txt[..i + 1])|
  {
    assert txt[..i + 1] == txt[..i] + [txt[i]];
    EntriesConcat(txt[..i], [txt[i]]);
    assert Entries([txt[i]]) == EntryBytes(txt[i]) + Entries([]);
    assert txt == txt[..i + 1] + txt[i + 1..];
    EntriesConcat(txt[..i + 1], txt[i + 1..]);
  }

  // ---- Reading --------------------------------------------------------------

  /** What the parser hands out: an empty value comes back as a missing one. */
  datatype Item = Item(key: seq<uint8>, value: Option<seq<uint8>>, valueLen: nat)

  const NO_ITEM := Item([], None, 0)

  function ToItem(e: Entry): Item {
    if e.value.Some? && e.value.value != [] then Item(e.key, e.value, |e.value.value|) else Item(e.key, None, 0)
  }

  function ToItems(txt: seq<Entry>): seq<Item> {
    if txt == [] then [] else [ToItem(txt[0])] + ToItems(txt[1..])
  }

  /** Number of length-prefixed strings, or None if one runs past the end. */
  function Count(data: seq<uint8>): Option<nat> {
    if data == [] || data[0] == 0 then Some(0)
    else if 1 + data[0] as nat > |data| then None
    else
      var rest := Count(data[1 + data[0] as nat..]);
      if rest.None? then None else Some(rest.value + 1)
  }

  /** Strings as they are packed: each with its length in front. */
  function Packed(strings: seq<seq<uint8>>): seq<uint8>
    requires forall s | s in strings :: |s| < 0x100
  {
    if strings == [] then [] else [|strings[0]| as uint8] + strings[0] + Packed(strings[1..])
  }

  /**
    Strings with something in them are counted up to an empty one or the end of
    the data; one that would reach beyond the data makes it malformed.
   */
  lemma {:induction false} CountOfPacked(strings: seq<seq<uint8>>, tail: seq<uint8>)
    requires forall s | s in strings :: 0 < |s| < 0x100
    requires tail == [] || tail[0] == 0 || tail[0] as nat >= |tail|
    ensures Count(Packed(strings) + tail) == if tail == [] || tail[0] == 0 then Some(|strings|) else None
  {
    if strings == [] {
      assert Packed(strings) + tail == tail;
    } else {
      var head := [|strings[0]| as uint8] + strings[0];
      Regroup(head, Packed(strings[1..]), tail);
      CountOfPacked(strings[1..], tail);
      CountOne(strings[0], Packed(strings[1..]) + tail);
    }
  }

  lemma CountOne(s: seq<uint8>, rest: seq<uint8>)
    requires 0 < |s| < 0x100
    ensures Count([|s| as uint8] + s + rest) == if Count(rest).None? then None else Some(Count(rest).value + 1)
  {
    var data := [|s| as uint8] + s + rest;
    assert data[0] == |s| as uint8 && data[1 + |s|..] == rest;
  }

  /** Position of the first "=", or the length if there is none. */
  function FirstEq(s: seq<uint8>): (r: nat)
    ensures r <= |s| && (r < |s| ==> s[r] == EQ) && forall i | 0 <= i < r :: s[i] != EQ
  {
    if s == [] || s[0] == EQ then 0 else 1 + FirstEq(s[1..])
  }

  function ParsedItem(part: seq<uint8>): Item {
    var n := FirstEq(part);
    if n + 1 < |part| then Item(part[..n], Some(part[n + 1..]), |part| - n - 1) else Item(part[..n], None, 0)
  }

  /** How far the parser moves over one item: one byte too far when there is no "=". */
  function Advance(part: seq<uint8>): nat {
    if FirstEq(part) < |part| then 1 + |part| else 2 + |part|
  }

  function Then(a: seq<Item>, rest: Option<seq<Item>>): Option<seq<Item>> {
    if rest.None? then None else Some(a + rest.value)
  }

  lemma ThenOne(a: seq<Item>, x: Item, rest: Option<seq<Item>>)
    ensures Then(a + [x], rest) == Then(a, Then([x], rest))
    ensures Then(a, Some([])) == Some(a)
    ensures Then([], rest) == rest
  {
    if rest.Some? {
      assert a + [x] + rest.value == a + ([x] + rest.value);
    }
    assert a + [] == a && (rest.Some? ==> [] + rest.value == rest.value);
  }

  /** The length-prefixed string at position i. */
  function Part(data: seq<uint8>, i: nat): seq<uint8>
    requires i < |data| && i + 1 + data[i] as nat <= |data|
  {
    data[i + 1..i + 1 + data[i] as nat]
  }

  /** The second pass from position i on, with room for that many items; None is the error exit. */
  function Parse(data: seq<uint8>, i: nat, room: nat): Option<seq<Item>>
    decreases |data| - i
  {
    if i >= |data| || data[i] == 0 then Some([])
    else if i + 1 + data[i] as nat > |data| then None
    else if Part(data, i)[0] == EQ || room == 0 then Parse(data, i + 1 + data[i] as nat, room)
    else Then([ParsedItem(Part(data, i))], Parse(data, i + Advance(Part(data, i)), room - 1))
  }

  /** The parser as a whole; no result for no items as for malformed data. */
  function Read(data: seq<uint8>): Option<seq<Item>> {
    if |data| == 1 || Count(data).None? || Count(data).value == 0 then None
    else Parse(data, 0, Count(data).value)
  }

  /** _mdns_txt_items_count_get */
  method TxtItemsCountGet(data: seq<uint8>) returns (n: int)
    ensures if |data| == 1 then n == 0
            else if Count(data).None? then n == -1 else n == Count(data).value
  {
    if |data| == 1 {
      return 0;
    }
    n := 0;
    var i := 0;
    while i < |data|
      invariant 0 <= i <= |data| && 0 <= n
      invariant Count(data).None? <==> Count(data[i..]).None?
      invariant Count(data).Some? ==> Count(data).value == n + Count(data[i..]).value
      decreases |data| - i
    {
      var partLen := data[i] as nat;
      if partLen == 0 {
        return;
      }
      if i + 1 + partLen > |data| {
        return -1;
      }
      assert data[i..][1 + partLen..] == data[i + 1 + partLen..];
      i := i + 1 + partLen;
      n := n + 1;
    }
  }

  /** _mdns_txt_item_name_get_len: -1 when the name is missing. */
  method TxtItemNameGetLen(part: seq<uint8>) returns (n: int)
    requires part != []
    ensures if part[0] == EQ then n == -1 else n == FirstEq(part) > 0
  {
    if part[0] == EQ {
      return -1;
    }
    var i := 0;
    while i < |part|
      invariant 0 <= i <= |part|
      invariant FirstEq(part) == i + FirstEq(part[i..])
    {
      if part[i] == EQ {
        return i;
      }
      assert part[i..][1..] == part[i + 1..];
      i := i + 1;
    }
    return |part|;
  }

  /** _mdns_result_txt_create: fills an array of as many items as the first pass counted. */
  method ResultTxtCreate(data: seq<uint8>) returns (items: Option<seq<Item>>)
    ensures items == Read(data)
  {
    var numItems := TxtItemsCountGet(data);
    if numItems <= 0 {
      return None;
    }
    var txt := new Item[numItems](_ => NO_ITEM);
    var ok, txtNum := SecondPass(data, txt);
    items := if ok then Some(txt[..txtNum]) else None;
  }

  lemma ParseSkips(data: seq<uint8>, i: nat, room: nat)
    requires i < |data| && data[i] != 0 && i + 1 + data[i] as nat <= |data|
    requires Part(data, i)[0] == EQ || room == 0
    ensures Parse(data, i, room) == Parse(data, i + 1 + data[i] as nat, room)
  {
  }

  /** Nothing comes after the end or an empty string, and one that would reach beyond the data is an error. */
  lemma ParseEnds(data: seq<uint8>, i: nat, room: nat)
    ensures i >= |data| || data[i] == 0 ==> Parse(data, i, room) == Some([])
    ensures i < |data| && data[i] as nat >= |data| - i ==> Parse(data, i, room) == None
  {
  }

  lemma ParseTakes(data: seq<uint8>, i: nat, room: nat, done: seq<Item>)
    requires i < |data| && data[i] != 0 && i + 1 + data[i] as nat <= |data|
    requires Part(data, i)[0] != EQ && room > 0
    ensures var item, rest := ParsedItem(Part(data, i)), Parse(data, i + Advance(Part(data, i)), room - 1);
            Then(done, Parse(data, i, room)) == Then(done + [item], rest)
  {
    ThenOne(done, ParsedItem(Part(data, i)), Parse(data, i + Advance(Part(data, i)), room - 1));
  }

  /** The loop of _mdns_result_txt_create over the strings. */
  method SecondPass(data: seq<uint8>, txt: array<Item>) returns (ok: bool, txtNum: nat)
    modifies txt
    ensures txtNum <= txt.Length
    ensures Parse(data, 0, txt.Length) == if ok then Some(txt[..txtNum]) else None
  {
    ok, txtNum := true, 0;
    var i: nat := 0;
    ghost var done, goal := [], Parse(data, 0, txt.Length);
    ThenOne([], NO_ITEM, goal);
    while i < |data| && data[i] != 0
      invariant Taken(data, txt, i, txtNum, done, goal)
      decreases |data| - i
    {
      if i + 1 + data[i] as nat > |data| {
        return false, 0;
      }
      i, txtNum, done := OneString(data, i, txt, txtNum, done, goal);
    }
    ThenOne(done, NO_ITEM, None);
  }

  /** Behind a string the array has what the specification takes, and the rest of the data comes to the same. */
  ghost predicate Taken(data: seq<uint8>, txt: array<Item>, next: nat, num: nat, more: seq<Item>,
                        goal: Option<seq<Item>>)
    reads txt
  {
    num <= txt.Length && txt[..num] == more && goal == Then(more, Parse(data, next, txt.Length - num))
  }

  /** The body of that loop. */
  method OneString(data: seq<uint8>, i: nat, txt: array<Item>, txtNum: nat, ghost done: seq<Item>,
                   ghost goal: Option<seq<Item>>)
    returns (next: nat, num: nat, ghost more: seq<Item>)
    requires i < |data| && data[i] != 0 && i + 1 + data[i] as nat <= |data| && Taken(data, txt, i, txtNum, done, goal)
    modifies txt
    ensures i < next && Taken(data, txt, next, num, more, goal)
  {
    var partLen := data[i] as nat;
    var part := data[i + 1..i + 1 + partLen];
    assert part == Part(data, i);
    var nameLen := TxtItemNameGetLen(part);
    if nameLen < 0 || txtNum >= txt.Length {
      ParseSkips(data, i, txt.Length - txtNum);
      next, num, more := i + 1 + partLen, txtNum, done;
    } else {
      next, more := TakeString(data, i, part, nameLen, txt, txtNum, done, goal);
      num := txtNum + 1;
    }
  }

  method TakeString(data: seq<uint8>, i: nat, part: seq<uint8>, nameLen: nat, txt: array<Item>, txtNum: nat,
                    ghost done: seq<Item>, ghost goal: Option<seq<Item>>)
    returns (next: nat, ghost more: seq<Item>)
    requires i < |data| && data[i] != 0 && i + 1 + data[i] as nat <= |data| && part == Part(data, i)
    requires part[0] != EQ && nameLen == FirstEq(part) && txtNum < txt.Length
    requires Taken(data, txt, i, txtNum, done, goal)
    modifies txt
    ensures i < next && Taken(data, txt, next, txtNum + 1, more, goal)
  {
    ParseTakes(data, i, txt.Length - txtNum, done);
    var moved;
    moved, more := TakeItem(part, nameLen, txt, txtNum, done);
    next := i + moved;
  }

  /** One more item in the array. */
  method TakeItem(part: seq<uint8>, nameLen: nat, txt: array<Item>, txtNum: nat, ghost done: seq<Item>)
    returns (moved: nat, ghost more: seq<Item>)
    requires part != [] && nameLen == FirstEq(part) && txtNum < txt.Length && txt[..txtNum] == done
    modifies txt
    ensures moved == Advance(part) && more == done + [ParsedItem(part)] && txt[..txtNum + 1] == more
  {
    var item;
    item, moved := ReadItem(part, nameLen);
    txt[txtNum] := item;
    more := done + [item];
  }

  /** The body of the loop: copies key and value and moves over them. */
  method ReadItem(part: seq<uint8>, nameLen: nat) returns (item: Item, moved: nat)
    requires part != [] && nameLen == FirstEq(part)
    ensures item == ParsedItem(part) && moved == Advance(part)
  {
    var newValueLen := |part| - nameLen - 1;
    if newValueLen > 0 {
      item := Item(part[..nameLen], Some(part[nameLen + 1..]), newValueLen);
    } else {
      item := Item(part[..nameLen], None, 0);
    }
    moved := 1 + nameLen + 1 + (if newValueLen > 0 then newValueLen else 0);
  }

  // ---- Round trip -----------------------------------------------------------

  /** An attribute as section 6.4 of RFC 6763 wants it, in at most 255 bytes. */
  predicate WellFormed(e: Entry) {
    e.key != [] && EQ !in e.key && EntryLen(e) <= 255
  }

  predicate AllWellFormed(txt: seq<Entry>) {
    forall e | e in txt :: WellFormed(e)
  }

  predicate AllButLastHaveValue(txt: seq<Entry>) {
    forall i | 0 <= i < |txt| - 1 :: txt[i].value.Some?
  }

  lemma FirstEqBehindKey(key: seq<uint8>, tail: seq<uint8>)
    requires EQ !in key && (tail != [] ==> tail[0] == EQ)
    ensures FirstEq(key + tail) == |key|
    decreases |key|
  {
    if key != [] {
      assert (key + tail)[1..] == key[1..] + tail;
      assert (key + tail)[0] == key[0] && key[0] in key;
      FirstEqBehindKey(key[1..], tail);
    }
  }

  /** The bytes of one entry, read back on their own. */
  lemma EntryReadBack(e: Entry)
    requires WellFormed(e)
    ensures EntryBytes(e)[0] as nat == EntryLen(e) >= 1
    ensures var part := EntryBytes(e)[1..];
            && part[0] != EQ && ParsedItem(part) == ToItem(e)
            && Advance(part) == |EntryBytes(e)| + if e.value.Some? then 0 else 1
  {
    var part := EntryBytes(e)[1..];
    assert part == e.key + ValueBytes(e);
    assert part[0] == e.key[0] && e.key[0] in e.key;
    FirstEqBehindKey(e.key, ValueBytes(e));
    var n := |e.key|;
    assert part[..n] == e.key;
    if e.value.Some? {
      assert part[n + 1..] == e.value.value;
    }
  }

  /** The attributes txt stand in the data from position i to the end. */
  predicate Holds(data: seq<uint8>, i: nat, txt: seq<Entry>) {
    i <= |data| && data[i..] == Entries(txt)
  }

  /** The same bytes in the middle of the data. */
  lemma EntryInside(data: seq<uint8>, i: nat, txt: seq<Entry>)
    requires Holds(data, i, txt) && txt != [] && WellFormed(txt[0])
    ensures i < |data| && data[i] as nat == EntryLen(txt[0]) && data[i] != 0
    ensures i + 1 + EntryLen(txt[0]) <= |data|
    ensures Part(data, i) == EntryBytes(txt[0])[1..]
    ensures Holds(data, i + |EntryBytes(txt[0])|, txt[1..])
  {
    var e, rest := txt[0], Entries(txt[1..]);
    EntryReadBack(e);
    var n := |EntryBytes(e)|;
    assert data[i..][..n] == EntryBytes(e) && data[i..][n..] == rest;
    assert data[i] == data[i..][0];
    assert data[i + 1..i + n] == data[i..][..n][1..];
    assert data[i + n..] == data[i..][n..];
  }

  lemma {:induction false} CountOfEntries(txt: seq<Entry>)
    requires AllWellFormed(txt)
    ensures Count(Entries(txt)) == Some(|txt|)
  {
    if txt != [] {
      var data := Entries(txt);
      assert data[0..] == data;
      EntryInside(data, 0, txt);
      CountOfEntries(txt[1..]);
    }
  }

  /** Where the parser stands after the first attribute: one byte too far if it is a bare key. */
  function Behind(i: nat, e: Entry): nat {
    i + |EntryBytes(e)| + if e.value.Some? then 0 else 1
  }

  lemma ParseEntry(data: seq<uint8>, i: nat, txt: seq<Entry>, room: nat)
    requires Holds(data, i, txt) && AllWellFormed(txt) && txt != [] && room > 0
    ensures Parse(data, i, room) == Then([ToItem(txt[0])], Parse(data, Behind(i, txt[0]), room - 1))
    ensures Holds(data, i + |EntryBytes(txt[0])|, txt[1..])
  {
    EntryReadBack(txt[0]);
    EntryInside(data, i, txt);
    ParseTakesTo(data, i, room, EntryBytes(txt[0])[1..], ToItem(txt[0]), Behind(i, txt[0]));
  }

  lemma ParseTakesTo(data: seq<uint8>, i: nat, room: nat, part: seq<uint8>, item: Item, next: nat)
    requires i < |data| && data[i] != 0 && i + 1 + data[i] as nat <= |data| && part == Part(data, i)
    requires part[0] != EQ && room > 0 && item == ParsedItem(part) && next == i + Advance(part)
    ensures Parse(data, i, room) == Then([item], Parse(data, next, room - 1))
  {
  }

  lemma {:induction false} ParseEntries(data: seq<uint8>, i: nat, txt: seq<Entry>)
    requires Holds(data, i, txt) && AllWellFormed(txt) && AllButLastHaveValue(txt)
    ensures Parse(data, i, |txt|) == Some(ToItems(txt))
    decreases |txt|
  {
    if txt == [] {
      PastTheEnd(data, i, 0);
    } else {
      var rest := txt[1..];
      ParseEntry(data, i, txt, |txt|);
      if rest == [] {
        PastTheEnd(data, Behind(i, txt[0]), 0);
      } else {
        assert txt[0].value.Some?;
        WellFormedTail(txt);
        assert AllButLastHaveValue(rest);
        ParseEntries(data, Behind(i, txt[0]), rest);
      }
      ThenInjective(ToItem(txt[0]), Parse(data, Behind(i, txt[0]), |rest|), ToItems(rest));
    }
  }

  lemma PastTheEnd(data: seq<uint8>, i: nat, room: nat)
    requires i >= |data|
    ensures Parse(data, i, room) == Some([])
  {
  }

  lemma ThenInjective(x: Item, rest: Option<seq<Item>>, items: seq<Item>)
    ensures Then([x], rest) == Some([x] + items) <==> rest == Some(items)
  {
    if rest.Some? {
      assert ([x] + rest.value)[1..] == rest.value && ([x] + items)[1..] == items;
    }
  }

  function Need(items: seq<Item>): nat {
    if items == [] then 0
    else |items[0].key| + 2 + (if items[0].value.Some? then |items[0].value.value| else 0) + Need(items[1..])
  }

  function Nulls(txt: seq<Entry>): nat {
    if txt == [] then 0 else (if txt[0].value.None? then 1 else 0) + Nulls(txt[1..])
  }

  lemma {:induction false} NeedOfItems(txt: seq<Entry>)
    ensures Need(ToItems(txt)) == |Entries(txt)| + Nulls(txt)
    ensures |ToItems(txt)| == |txt|
    ensures txt != [] ==> ToItems(txt)[|txt| - 1] == ToItem(txt[|txt| - 1])
  {
    if txt != [] {
      NeedOfItems(txt[1..]);
      assert ToItems(txt)[1..] == ToItems(txt[1..]);
    }
  }

  /** The last item was read to the very end of the data, without an "=". */
  predicate EndsWithBareKey(data: seq<uint8>, items: seq<Item>) {
    && items != []
    && var k := items[|items| - 1].key;
       EQ !in k && items[|items| - 1].value.None? && |k| <= |data| && data[|data| - |k|..] == k
  }

  /** Items cannot need more bytes than there are, but for the one byte that a bare key at the end skips too far. */
  lemma {:induction false} ParseNeedsBytes(data: seq<uint8>, i: nat, room: nat)
    requires i <= |data| && Parse(data, i, room).Some?
    ensures var r := Parse(data, i, room).value;
            Need(r) <= |data| - i || (Need(r) == |data| - i + 1 && EndsWithBareKey(data, r))
    decreases |data| - i
  {
    if i < |data| && data[i] != 0 {
      var part := Part(data, i);
      if part[0] == EQ || room == 0 {
        ParseNeedsBytes(data, i + 1 + data[i] as nat, room);
      } else {
        var next := i + Advance(part);
        var item := ParsedItem(part);
        var r := Parse(data, next, room - 1).value;
        assert Parse(data, i, room).value == [item] + r;
        assert ([item] + r)[1..] == r;
        if next <= |data| {
          ParseNeedsBytes(data, next, room - 1);
          assert r != [] ==> ([item] + r)[|r|] == r[|r| - 1];
        } else {
          assert r == [] && FirstEq(part) == |part| && part[..|part|] == part;
          assert data[|data| - |part|..] == part;
        }
      }
    }
  }

  /** Data that ends with an attribute whose value is present but empty ends with "=". */
  lemma {:induction false} EntriesEnd(txt: seq<Entry>)
    requires txt != [] && txt[|txt| - 1].value == Some([])
    ensures Entries(txt) != [] && Entries(txt)[|Entries(txt)| - 1] == EQ
    decreases |txt|
  {
    if |txt| > 1 {
      EntriesEnd(txt[1..]);
    } else {
      assert Entries(txt) == EntryBytes(txt[0]);
    }
  }

  /** After a bare key that is not the last, what is read is never the rest of the list. */
  lemma RestIsLost(data: seq<uint8>, i: nat, rest: seq<Entry>, room: nat)
    requires Holds(data, i, rest) && AllWellFormed(rest) && rest != []
    ensures Parse(data, i + 1, room) != Some(ToItems(rest))
  {
    assert |Entries(rest)| >= |EntryBytes(rest[0])| > 0;
    if Parse(data, i + 1, room) == Some(ToItems(rest)) {
      ParseNeedsBytes(data, i + 1, room);
      NeedOfItems(rest);
      var last := rest[|rest| - 1];
      assert ToItems(rest)[|rest| - 1] == ToItem(last) && WellFormed(last);
      assert EndsWithBareKey(data, ToItems(rest)) && Nulls(rest) == 0;
      NoNulls(rest, |rest| - 1);
      EntriesEnd(rest);
    }
  }

  lemma {:induction false} NoNulls(txt: seq<Entry>, i: nat)
    requires Nulls(txt) == 0 && i < |txt|
    ensures txt[i].value.Some?
  {
    if i > 0 {
      NoNulls(txt[1..], i - 1);
    }
  }

  lemma {:induction false} ParseLosesRest(data: seq<uint8>, i: nat, txt: seq<Entry>)
    requires Holds(data, i, txt) && AllWellFormed(txt) && !AllButLastHaveValue(txt)
    ensures Parse(data, i, |txt|) != Some(ToItems(txt))
    decreases |txt|, 1
  {
    ParseEntry(data, i, txt, |txt|);
    RestDiffersAt(data, i, txt);
    ThenInjective(ToItem(txt[0]), Parse(data, Behind(i, txt[0]), |txt| - 1), ToItems(txt[1..]));
  }

  lemma {:induction false} RestDiffersAt(data: seq<uint8>, i: nat, txt: seq<Entry>)
    requires txt != [] && Holds(data, i + |EntryBytes(txt[0])|, txt[1..]) && AllWellFormed(txt)
             && !AllButLastHaveValue(txt)
    ensures Parse(data, Behind(i, txt[0]), |txt| - 1) != Some(ToItems(txt[1..]))
    decreases |txt|, 0
  {
    TailFacts(txt);
    RestDiffers(data, i + |EntryBytes(txt[0])|, Behind(i, txt[0]), txt[0], txt[1..]);
  }

  lemma {:induction false} RestDiffers(data: seq<uint8>, next: nat, from: nat, first: Entry, rest: seq<Entry>)
    requires Holds(data, next, rest) && AllWellFormed(rest) && from == next + (if first.value.Some? then 0 else 1)
    requires if first.value.Some? then !AllButLastHaveValue(rest) else rest != []
    ensures Parse(data, from, |rest|) != Some(ToItems(rest))
    decreases |rest|, 2
  {
    if first.value.Some? {
      ParseLosesRest(data, next, rest);
    } else {
      RestIsLost(data, next, rest, |rest|);
    }
  }

  lemma TailFacts(txt: seq<Entry>)
    requires txt != [] && AllWellFormed(txt) && !AllButLastHaveValue(txt)
    ensures AllWellFormed(txt[1..])
    ensures if txt[0].value.Some? then !AllButLastHaveValue(txt[1..]) else txt[1..] != []
  {
    WellFormedTail(txt);
    if txt[0].value.Some? {
      BareKeyInRest(txt);
    }
  }

  lemma WellFormedTail(txt: seq<Entry>)
    requires txt != [] && AllWellFormed(txt)
    ensures AllWellFormed(txt[1..])
  {
  }

  lemma BareKeyInRest(txt: seq<Entry>)
    requires txt != [] && txt[0].value.Some? && !AllButLastHaveValue(txt)
    ensures !AllButLastHaveValue(txt[1..])
  {
    var k :| 0 <= k < |txt| - 1 && txt[k].value.None?;
    assert txt[1..][k - 1].value.None?;
  }

  /**
    Round trip: well-formed attributes are read back as they were written, in
    order, exactly when none but possibly the last is a bare key. A bare key
    before another attribute makes the parser skip that one's length byte.
   */
  lemma RoundTrip(txt: seq<Entry>)
    requires AllWellFormed(txt) && txt != []
    ensures Read(Wire(txt)) == Some(ToItems(txt)) <==> AllButLastHaveValue(txt)
  {
    CountOfEntries(txt);
    EntryReadBack(txt[0]);
    var data := Entries(txt);
    assert data[0..] == data && |data| > 1;
    if AllButLastHaveValue(txt) {
      ParseEntries(data, 0, txt);
    } else {
      ParseLosesRest(data, 0, txt);
    }
  }

  /** No attributes are read back as no result. */
  lemma EmptyRoundTrip()
    ensures Wire([]) == [0] && Read(Wire([])) == None
  {
  }
}
