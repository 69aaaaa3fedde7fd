/** Renaming after a lost conflict: "host" becomes "host-2", then "host-3" and so on. */
module MdnsRename {

  /** INT_MAX, and LONG_MAX on a 32-bit core. */
  const INT_MAX: int := 0x7FFF_FFFF

  // ---- Decimal numbers ------------------------------------------------------

  predicate IsDigit(c: char) {
    '0' <= c <= '9'
  }

  predicate AllDigits(s: string) {
    forall i | 0 <= i < |s| :: IsDigit(s[i])
  }

  function DigitValue(c: char): (r: int)
    requires IsDigit(c)
    ensures 0 <= r < 10
  {
    c as int - '0' as int
  }

  function DigitChar(d: nat): (r: char)
    requires d < 10
    ensures IsDigit(r) && DigitValue(r) == d
  {
    ('0' as int + d) as char
  }

  /** The number a string of digits stands for. */
  function Number(s: string): nat
    requires AllDigits(s)
  {
    if s == [] then 0 else 10 * Number(s[..|s| - 1]) + DigitValue(s[|s| - 1])
  }

  /** What printf writes for "%d". */
  function Decimal(n: nat): (r: string)
    ensures r != [] && AllDigits(r)
  {
    if n < 10 then [DigitChar(n)] else Decimal(n / 10) + [DigitChar(n % 10)]
  }

  lemma {:induction false} NumberOfDecimal(n: nat)
    ensures Number(Decimal(n)) == n
  {
    var s := Decimal(n);
    if n < 10 {
      assert s[..0] == [];
    } else {
      NumberOfDecimal(n / 10);
      assert s[..|s| - 1] == Decimal(n / 10);
    }
  }

  function Pow10(k: nat): (r: nat)
    ensures r >= 1
  {
    if k == 0 then 1 else 10 * Pow10(k - 1)
  }

  lemma {:induction false} NumberBound(s: string)
    requires AllDigits(s)
    ensures Number(s) < Pow10(|s|)
  {
    if s != [] {
      NumberBound(s[..|s| - 1]);
    }
  }

  lemma {:induction false} DigitCount(n: nat, k: nat)
    requires k >= 1 && n < Pow10(k)
    ensures |Decimal(n)| <= k
  {
    if n >= 10 {
      assert Pow10(1) == 10 * Pow10(0);
      DigitCount(n / 10, k - 1);
    }
  }

  // ---- The C library --------------------------------------------------------

  predicate IsSpace(c: char) {
    c == ' ' || '\t' <= c <= '\r'
  }

  function SkipSpaces(s: string, i: nat): (r: nat)
    requires i <= |s|
    ensures i <= r <= |s|
    decreases |s| - i
  {
    if i < |s| && IsSpace(s[i]) then SkipSpaces(s, i + 1) else i
  }

  function SkipDigits(s: string, i: nat): (r: nat)
    requires i <= |s|
    ensures i <= r <= |s| && AllDigits(s[i..r])
    decreases |s| - i
  {
    if i < |s| && IsDigit(s[i]) then
      var r := SkipDigits(s, i + 1);
      assert forall k | 0 < k < r - i :: s[i..r][k] == s[i + 1..r][k - 1];
      r
    else i
  }

  function Clamp(v: int): int {
    if v > INT_MAX then INT_MAX else if v < -INT_MAX - 1 then -INT_MAX - 1 else v
  }

  /** strtol with base 10: the value and where reading stopped. */
  function StrToL(s: string): (r: (int, nat))
    ensures r.1 <= |s|
  {
    var start := SkipSpaces(s, 0);
    var from: nat := if start < |s| && (s[start] == '+' || s[start] == '-') then start + 1 else start;
    var end := SkipDigits(s, from);
    var value: int := Number(s[from..end]);
    if end == from then (0, 0)
    else (Clamp(if start < from && s[start] == '-' then -value else value), end)
  }

  /** Where the last dash is, or -1. */
  function LastDash(s: string): (r: int)
    ensures r < |s|
    ensures -1 <= r
    ensures r >= 0 ==> s[r] == '-'
    ensures forall i | r < i < |s| :: s[i] != '-'
  {
    if s == [] then -1
    else if s[|s| - 1] == '-' then |s| - 1
    else LastDash(s[..|s| - 1])
  }

  // ---- The specification ----------------------------------------------------

  /** Whether a name already ends in a dash and something strtol reads completely. */
  predicate Numbered(name: string) {
    var p := LastDash(name);
    p >= 0 && StrToL(name[p + 1..]).1 == |name| - p - 1
  }

  /** The part a renaming keeps. */
  function Base(name: string): string {
    if Numbered(name) then name[..LastDash(name)] else name
  }

  /** The number a name carries; a name without one counts as the first. */
  function Rank(name: string): int {
    if Numbered(name) then StrToL(name[LastDash(name) + 1..]).0 else 1
  }

  function Numbering(base: string, n: nat): string {
    base + "-" + Decimal(n)
  }

  /** A name after being renamed k times. */
  function Renamed(name: string, k: nat): string
    requires Rank(name) >= 0
  {
    if k == 0 then name else Numbering(Base(name), Rank(name) + k)
  }

  /** A sign in front of the digits is impossible: the last dash comes before them. */
  lemma RankIsNatural(name: string)
    ensures 0 <= Rank(name) <= INT_MAX
  {
  }

  lemma {:induction false} SkipAllDigits(s: string, i: nat)
    requires i <= |s| && AllDigits(s)
    ensures SkipDigits(s, i) == |s|
    decreases |s| - i
  {
    if i < |s| {
      SkipAllDigits(s, i + 1);
    }
  }

  /** strtol reads back what printf wrote. */
  lemma ReadBack(n: nat)
    requires n <= INT_MAX
    ensures StrToL(Decimal(n)) == (n, |Decimal(n)|)
  {
    var s := Decimal(n);
    assert IsDigit(s[0]);
    SkipAllDigits(s, 0);
    assert s[0..|s|] == s;
    NumberOfDecimal(n);
  }

  lemma {:induction false} LastDashOfDigits(base: string, d: string)
    requires AllDigits(d)
    ensures LastDash(base + "-" + d) == |base|
  {
    var s := base + "-" + d;
    if d == [] {
    } else {
      assert s[..|s| - 1] == base + "-" + d[..|d| - 1];
      LastDashOfDigits(base, d[..|d| - 1]);
      assert IsDigit(d[|d| - 1]);
    }
  }

  /** A number printed into a name is the number found in it. */
  lemma NumberingReadBack(base: string, n: nat)
    requires n <= INT_MAX
    ensures Numbered(Numbering(base, n)) && Base(Numbering(base, n)) == base && Rank(Numbering(base, n)) == n
  {
    var s := Numbering(base, n);
    LastDashOfDigits(base, Decimal(n));
    assert s[|base| + 1..] == Decimal(n);
    ReadBack(n);
  }

  /** Renaming step by step: the base stays, the number goes up by one each time. */
  lemma RenamedStep(name: string, k: nat)
    requires 0 <= Rank(name) && Rank(name) + k <= INT_MAX
    ensures Base(Renamed(name, k)) == Base(name) && Rank(Renamed(name, k)) == Rank(name) + k
    ensures Renamed(Renamed(name, k), 1) == Renamed(name, k + 1)
  {
    if k > 0 {
      NumberingReadBack(Base(name), Rank(name) + k);
    }
  }

  /** However often a name is renamed it never becomes a name it had before. */
  lemma NamesNeverRepeat(name: string, i: nat, j: nat)
    requires i < j && 0 <= Rank(name) && Rank(name) + j <= INT_MAX
    ensures Renamed(name, i) != Renamed(name, j)
  {
    RenamedStep(name, i);
    RenamedStep(name, j);
  }

  /** The number read from text is short enough that the next one needs at most one more digit. */
  lemma NextFits(name: string)
    requires Numbered(name) && 0 <= Rank(name) < INT_MAX
    ensures |Decimal(Rank(name) + 1)| <= |name| - LastDash(name)
  {
    var s := name[LastDash(name) + 1..];
    var start := SkipSpaces(s, 0);
    var from := if start < |s| && (s[start] == '+' || s[start] == '-') then start + 1 else start;
    var end := SkipDigits(s, from);
    NumberBound(s[from..end]);
    PowMonotone(end - from, |s|);
    assert Pow10(|s| + 1) == 10 * Pow10(|s|);
    DigitCount(Rank(name) + 1, |s| + 1);
  }

  lemma {:induction false} PowMonotone(a: nat, b: nat)
    requires a <= b
    ensures Pow10(a) <= Pow10(b)
  {
    if a < b {
      PowMonotone(a, b - 1);
    }
  }

  // ---- The operation --------------------------------------------------------

  method StrRChr(s: string) returns (p: int)
    ensures p == LastDash(s)
  {
    p := -1;
    for i := 0 to |s|
      invariant p == LastDash(s[..i])
    {
      assert s[..i + 1][..i] == s[..i];
      if s[i] == '-' {
        p := i;
      }
    }
    assert s[..|s|] == s;
  }

  /** sprintf: the text and its terminator have to fit. */
  method Sprintf(dst: array<char>, at: nat, text: string)
    requires at + |text| + 1 <= dst.Length
    modifies dst
    ensures dst[..at + |text| + 1] == old(dst[..at]) + text + ['\0']
  {
    forall i | 0 <= i < |text| {
      dst[at + i] := text[i];
    }
    dst[at + |text|] := '\0';
  }

  method AppendTwo(name: string) returns (ret: array<char>)
    ensures fresh(ret) && ret.Length == |name| + 3
    ensures ret[..] == name + "-2" + ['\0']
  {
    ret := new char[|name| + 3];
    Sprintf(ret, 0, name + "-2");
    assert ret[..0] == [];
    assert ret[..|name| + 3] == ret[..];
  }

  method ReplaceSuffix(name: string, p: nat, suffix: nat) returns (ret: array<char>)
    requires p < |name| && |Decimal(suffix)| <= |name| - p
    ensures fresh(ret) && ret.Length == |name| + 2
    ensures ret[..p + 1 + |Decimal(suffix)| + 1] == name[..p] + ("-" + Decimal(suffix)) + ['\0']
  {
    ret := new char[|name| + 2];
    forall i | 0 <= i < |name| {
      ret[i] := name[i];
    }
    assert ret[..p] == name[..p];
    Sprintf(ret, p, "-" + Decimal(suffix));
  }

  /** Where the suffix of a name starts, -1 if it has none, and its value. */
  method FindSuffix(name: string) returns (p: int, suffix: int)
    ensures Numbered(name) ==> p == LastDash(name) && suffix == Rank(name)
    ensures !Numbered(name) ==> p == -1
  {
    p := StrRChr(name);
    suffix := 2;
    if p >= 0 {
      var (value, end) := StrToL(name[p + 1..]);
      suffix := value;
      if end != |name| - p - 1 {
        suffix := 2;
        p := -1;
      }
    }
  }

  lemma RenamedOnce(name: string)
    requires 0 <= Rank(name)
    ensures Numbered(name) ==> Renamed(name, 1) == name[..LastDash(name)] + ("-" + Decimal(Rank(name) + 1))
    ensures !Numbered(name) ==> Renamed(name, 1) == name + "-2"
  {
    if Numbered(name) {
      assert Base(name) + "-" + Decimal(Rank(name) + 1) == Base(name) + ("-" + Decimal(Rank(name) + 1));
    } else {
      assert Decimal(2) == "2";
      assert Base(name) + "-" + Decimal(2) == name + "-2";
    }
  }

  /** _mdns_mangle_name: the writes stay inside the allocation, which has room for one more digit. */
  method MangleName(name: string) returns (ret: array<char>)
    requires Rank(name) < INT_MAX
    ensures fresh(ret) && Rank(name) >= 0
    ensures |Renamed(name, 1)| + 1 <= ret.Length <= |name| + 3
    ensures ret[..|Renamed(name, 1)| + 1] == Renamed(name, 1) + ['\0']
  {
    RankIsNatural(name);
    RenamedOnce(name);
    var p, suffix := FindSuffix(name);
    if p < 0 {
      ret := AppendTwo(name);
      assert ret[..|name| + 3] == ret[..];
    } else {
      NextFits(name);
      ret := ReplaceSuffix(name, p, suffix + 1);
    }
  }

  method StrLen(s: array<char>, ghost text: string) returns (len: nat)
    requires |text| < s.Length && s[..|text| + 1] == text + ['\0'] && CString(text)
    ensures len == |text|
  {
    len := 0;
    while s[len] != '\0'
      invariant len <= |text|
      decreases |text| - len
    {
      assert s[..|text| + 1][len] == s[len];
      len := len + 1;
    }
    assert s[..|text| + 1][len] == s[len];
  }

  method TextOf(s: array<char>, ghost text: string) returns (r: string)
    requires |text| < s.Length && s[..|text| + 1] == text + ['\0'] && CString(text)
    ensures r == text
  {
    var len := StrLen(s, text);
    r := s[..len];
    assert r == s[..len + 1][..len];
  }

  predicate CString(s: string) {
    forall i | 0 <= i < |s| :: s[i] != '\0'
  }

  lemma BaseIsPrefix(name: string)
    ensures Base(name) <= name
  {
  }

  lemma NumberingIsCString(name: string, base: string, digits: string)
    requires CString(name) && base <= name && AllDigits(digits)
    ensures CString(base + "-" + digits)
  {
    var s := base + "-" + digits;
    forall i | 0 <= i < |s|
      ensures s[i] != '\0'
    {
      assert i < |base| ==> base[i] == name[i];
      assert i > |base| ==> IsDigit(digits[i - |base| - 1]);
    }
  }

  /** A conflict lost: the name the responder claims next. */
  method LoseConflict(name: string) returns (next: string)
    requires CString(name) && Rank(name) < INT_MAX
    ensures Rank(name) >= 0 && next == Renamed(name, 1)
    ensures CString(next)
  {
    RankIsNatural(name);
    var ret := MangleName(name);
    ghost var base, digits := Base(name), Decimal(Rank(name) + 1);
    assert Renamed(name, 1) == base + "-" + digits;
    BaseIsPrefix(name);
    NumberingIsCString(name, base, digits);
    next := TextOf(ret, base + "-" + digits);
  }

  /** The names a device has had after n renamings, oldest first. */
  function History(name: string, n: nat): (r: seq<string>)
    requires Rank(name) >= 0
    ensures |r| == n + 1
  {
    if n == 0 then [name] else History(name, n - 1) + [Renamed(name, n)]
  }

  lemma {:induction false} HistoryAt(name: string, n: nat, i: nat)
    requires Rank(name) >= 0 && i <= n
    ensures History(name, n)[i] == Renamed(name, i)
  {
    if i < n {
      HistoryAt(name, n - 1, i);
    }
  }

  lemma HistoryHasNoRepeats(name: string, n: nat, i: nat, j: nat)
    requires 0 <= Rank(name) && Rank(name) + n <= INT_MAX && i < j <= n
    ensures History(name, n)[i] != History(name, n)[j]
  {
    HistoryAt(name, n, i);
    HistoryAt(name, n, j);
    NamesNeverRepeat(name, i, j);
  }

  /** Conflicts lost one after the other: all names claimed are different. */
  method LoseConflicts(name: string, n: nat) returns (names: seq<string>)
    requires CString(name) && Rank(name) + n <= INT_MAX
    ensures |names| == n + 1 && names[0] == name
    ensures forall i, j | 0 <= i < j <= n :: names[i] != names[j]
  {
    RankIsNatural(name);
    names := [name];
    var current := name;
    for k := 0 to n
      invariant CString(current) && current == Renamed(name, k)
      invariant names == History(name, k)
    {
      RenamedStep(name, k);
      current := LoseConflict(current);
      names := names + [current];
    }
    HistoryAt(name, n, 0);
    forall i, j | 0 <= i < j <= n
      ensures names[i] != names[j]
    {
      HistoryHasNoRepeats(name, n, i, j);
    }
  }
}
