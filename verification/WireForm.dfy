/** Texts that become bytes on the line: addresses, data and protocol numbers. */
module WireForm {
  import opened Wrappers
  import opened Bytes
  import UserData

  function HexDigit(c: char): (d: Option<nat>)
    ensures d.Some? ==> d.value < 16
  {
    if '0' <= c <= '9' then Some(c as nat - '0' as nat)
    else if 'a' <= c <= 'f' then Some(c as nat - 'a' as nat + 10)
    else if 'A' <= c <= 'F' then Some(c as nat - 'A' as nat + 10)
    else None
  }

  /** Pairs of hexadecimal digits, in either letter case. */
  predicate IsHex(s: string) {
    |s| % 2 == 0 && forall i :: 0 <= i < |s| ==> HexDigit(s[i]).Some?
  }

  function HexByte(hi: char, lo: char): (b: byte)
    requires HexDigit(hi).Some? && HexDigit(lo).Some?
    ensures b as nat == 16 * HexDigit(hi).value + HexDigit(lo).value
  {
    ToByte(16 * HexDigit(hi).value + HexDigit(lo).value)
  }

  /** The six bytes of an address text; without them the program panics. */
  function Wire(addr: string): Option<UserData.Address> {
    if |addr| == 12 && IsHex(addr) then
      Some([HexByte(addr[0], addr[1]), HexByte(addr[2], addr[3]), HexByte(addr[4], addr[5]),
            HexByte(addr[6], addr[7]), HexByte(addr[8], addr[9]), HexByte(addr[10], addr[11])])
    else None
  }

  function DecimalFrom(s: string, n: nat): Option<nat> {
    if s == "" then Some(n)
    else if '0' <= s[0] <= '9' then DecimalFrom(s[1..], 10 * n + (s[0] as nat - '0' as nat))
    else None
  }

  /** A protocol number of eight bits, in decimal digits behind an optional plus sign. */
  function Protocol8(s: string): Option<nat> {
    var digits := if |s| > 1 && s[0] == '+' then s[1..] else s;
    var n := DecimalFrom(digits, 0);
    if digits != "" && n.Some? && n.value < 256 then n else None
  }

  /** No two of the texts are the same address on the line. */
  ghost predicate OneTextEach(texts: set<string>) {
    forall a, b :: a in texts && b in texts && Wire(a).Some? && Wire(a) == Wire(b) ==> a == b
  }

  // ---- when two texts are one address ----

  function Lower(c: char): char {
    if 'A' <= c <= 'Z' then (c as int + 32) as char else c
  }

  lemma HexFolds(c: char, d: char)
    requires HexDigit(c).Some? && HexDigit(d).Some?
    ensures HexDigit(c) == HexDigit(d) <==> Lower(c) == Lower(d)
  {
  }

  lemma ByteFolds(hi: char, lo: char, hi': char, lo': char)
    requires HexDigit(hi).Some? && HexDigit(lo).Some? && HexDigit(hi').Some? && HexDigit(lo').Some?
    ensures HexByte(hi, lo) == HexByte(hi', lo') <==> Lower(hi) == Lower(hi') && Lower(lo) == Lower(lo')
  {
    hide HexDigit, Lower, HexByte;
    HexFolds(hi, hi');
    HexFolds(lo, lo');
    if HexDigit(hi) == HexDigit(hi') && HexDigit(lo) == HexDigit(lo') {
      SameByte(HexByte(hi, lo), HexByte(hi', lo'));
    }
  }

  lemma SixEqual(x: seq<byte>, y: seq<byte>)
    requires |x| == 6 && |y| == 6
    ensures x == y <==> x[0] == y[0] && x[1] == y[1] && x[2] == y[2] && x[3] == y[3] && x[4] == y[4] && x[5] == y[5]
  {
  }

  predicate SamePair(a: string, b: string, i: nat)
    requires i + 1 < |a| && i + 1 < |b|
  {
    Lower(a[i]) == Lower(b[i]) && Lower(a[i + 1]) == Lower(b[i + 1])
  }

  lemma PairFolds(a: string, b: string, i: nat)
    requires Wire(a).Some? && Wire(b).Some? && i + 1 < 12
    ensures HexByte(a[i], a[i + 1]) == HexByte(b[i], b[i + 1]) <==> SamePair(a, b, i)
  {
    ByteFolds(a[i], a[i + 1], b[i], b[i + 1]);
  }

  /** Two address texts are one address exactly when they differ in letter case only. */
  lemma WireFolds(a: string, b: string)
    requires Wire(a).Some? && Wire(b).Some?
    ensures Wire(a) == Wire(b) <==> forall i :: 0 <= i < 12 ==> Lower(a[i]) == Lower(b[i])
  {
    hide HexByte, HexDigit, Lower;
    SixEqual(Wire(a).value, Wire(b).value);
    PairFolds(a, b, 0);
    PairFolds(a, b, 2);
    PairFolds(a, b, 4);
    PairFolds(a, b, 6);
    PairFolds(a, b, 8);
    PairFolds(a, b, 10);
  }

  // ---- what the texts say ----

  const SMALL := "0123456789abcdef"
  const CAPITAL := "0123456789ABCDEF"

  /** A digit stands for its place among the sixteen. */
  lemma HexPlaces(c: char)
    ensures HexDigit(c).Some? <==> c in SMALL || c in CAPITAL
    ensures HexDigit(c).Some? ==> SMALL[HexDigit(c).value] == c || CAPITAL[HexDigit(c).value] == c
  {
  }

  /** Each byte of an address is two digits of its text, in the order of the text. */
  lemma WirePlaces(addr: string, k: nat)
    requires Wire(addr).Some? && k < 6
    ensures HexDigit(addr[2 * k]).Some? && HexDigit(addr[2 * k + 1]).Some?
    ensures Wire(addr).value[k] as nat == 16 * HexDigit(addr[2 * k]).value + HexDigit(addr[2 * k + 1]).value
  {
    hide HexDigit, HexByte;
    assert IsHex(addr);
    assert Wire(addr).value[k] == HexByte(addr[2 * k], addr[2 * k + 1]);
  }

  /** An address text is twelve digits, and nothing else is. */
  lemma WireExists(addr: string)
    ensures Wire(addr).Some? <==> |addr| == 12 && forall i :: 0 <= i < 12 ==> addr[i] in SMALL || addr[i] in CAPITAL
  {
    forall c ensures HexDigit(c).Some? <==> c in SMALL || c in CAPITAL {
      HexPlaces(c);
    }
  }

  /** The number that decimal digits write. */
  function Decimal(s: string): nat
    requires forall i :: 0 <= i < |s| ==> '0' <= s[i] <= '9'
  {
    if s == "" then 0 else 10 * Decimal(s[..|s| - 1]) + (s[|s| - 1] as nat - '0' as nat)
  }

  predicate AllDecimal(s: string) {
    forall i :: 0 <= i < |s| ==> '0' <= s[i] <= '9'
  }

  lemma {:induction false} DecimalFromLast(s: string, c: char, n: nat)
    requires AllDecimal(s)
    ensures DecimalFrom(s, n).Some?
    ensures DecimalFrom(s + [c], n) ==
            if '0' <= c <= '9' then Some(10 * DecimalFrom(s, n).value + (c as nat - '0' as nat)) else None
    decreases s
  {
    var all := s + [c];
    if s == "" {
      assert all[1..] == "";
      assert all[0] == c;
    } else {
      assert all[0] == s[0] && all[1..] == s[1..] + [c];
      DecimalFromLast(s[1..], c, 10 * n + (s[0] as nat - '0' as nat));
    }
  }

  lemma {:induction false} DecimalFromBad(s: string, n: nat)
    requires !AllDecimal(s)
    ensures DecimalFrom(s, n) == None
    decreases s
  {
    var i :| 0 <= i < |s| && !('0' <= s[i] <= '9');
    if '0' <= s[0] <= '9' {
      assert s[1..][i - 1] == s[i];
      DecimalFromBad(s[1..], 10 * n + (s[0] as nat - '0' as nat));
    }
  }

  lemma {:induction false} DecimalFromIs(s: string)
    requires AllDecimal(s)
    ensures DecimalFrom(s, 0) == Some(Decimal(s))
    decreases s
  {
    if s == "" {
    } else {
      var init, last := s[..|s| - 1], s[|s| - 1];
      DecimalFromIs(init);
      DecimalFromLast(init, last, 0);
      assert s == init + [last];
    }
  }

  /** A protocol text is decimal digits behind an optional plus sign, and writes a number of
      eight bits. */
  lemma ProtocolIs(s: string)
    ensures var digits := if |s| > 1 && s[0] == '+' then s[1..] else s;
            Protocol8(s) ==
              if digits != "" && AllDecimal(digits) && Decimal(digits) < 256 then Some(Decimal(digits)) else None
  {
    var digits := if |s| > 1 && s[0] == '+' then s[1..] else s;
    if AllDecimal(digits) {
      DecimalFromIs(digits);
    } else {
      DecimalFromBad(digits, 0);
    }
  }
}
