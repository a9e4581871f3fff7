/** Multilink fragment headers and 24-bit sequence numbers (RFC 1990, section 3; drivers/isdn/isdn_ppp.c). */
module MpWire {
  import opened Bits

  const MODULUS := 0x100_0000
  const HALF := 0x80_0000

  /** A fragment as it is queued: its 24-bit number, its two flags, and what it carries. */
  datatype Frag = Frag(seqno: nat, begin: bool, end: bool, data: seq<Byte>)

  /** The 24-bit number on the wire of the fragment whose true number is n. */
  function Wire(n: int): nat { n % MODULUS }

  /** MP_LT: bit 23 of the 32-bit difference. */
  predicate MpLt(a: int, b: int) {
    (a - b) % 0x1_0000_0000 / HALF % 2 == 1
  }

  predicate MpLe(a: int, b: int) {
    !MpLt(b, a)
  }

  /** Modular comparison is the comparison of the true numbers as long as these are less than 2^23 apart. */
  lemma ComparesTrueNumbers(x: int, y: int, a: int, b: int)
    requires -HALF < x - y < HALF && a % MODULUS == Wire(x) && b % MODULUS == Wire(y)
    ensures MpLt(a, b) <==> x < y
    ensures MpLe(a, b) <==> x <= y
    ensures Wire(x) == Wire(y) <==> x == y
  {
    OneComparison(x, y, a, b);
    OneComparison(y, x, b, a);
  }

  lemma OneComparison(x: int, y: int, a: int, b: int)
    requires -HALF < x - y < HALF && a % MODULUS == Wire(x) && b % MODULUS == Wire(y)
    ensures MpLt(a, b) <==> x < y
    ensures Wire(x) == Wire(y) <==> x == y
  {
    var d := (a - b) % 0x1_0000_0000;
    var k := a / MODULUS - x / MODULUS - (b / MODULUS - y / MODULUS) - (a - b) / 0x1_0000_0000 * 0x100;
    assert d == x - y + k * MODULUS;
    HalfBit(d, x - y, k);
    if Wire(x) == Wire(y) {
      assert x - y == (x / MODULUS - y / MODULUS) * MODULUS;
    }
  }

  lemma HalfBit(d: int, e: int, k: int)
    requires d == e + k * MODULUS && -HALF < e < HALF && d >= 0
    ensures d / HALF % 2 == 1 <==> e < 0
  {
    assert d / HALF == if e < 0 then 2 * k - 1 else 2 * k;
  }

  /** The header isdn_ppp_xmit writes, with either flag: 12 bits of the number in two bytes, or 24 bits in four. */
  function Header(short: bool, begin: bool, end: bool, n: nat): seq<Byte> {
    var flags := (if begin then 0x80 else 0) + (if end then 0x40 else 0);
    if short then [flags + n % 0x1000 / 0x100, n % 0x100]
    else [flags, n / 0x1_0000 % 0x100, n / 0x100 % 0x100, n % 0x100]
  }

  /** isdn_ppp_mp_get_seq: a 12-bit number is completed from the link's last number. */
  function GetSeq(short: bool, skb: seq<Byte>, lastSeq: nat): nat
    requires |skb| >= if short then 2 else 4
  {
    if !short then (skb[1] as nat * 0x1_0000 + skb[2] as nat * 0x100 + skb[3] as nat) % MODULUS
    else
      var s := skb[0] as nat % 0x10 * 0x100 + skb[1] as nat;
      if s < 0x800 && lastSeq / 0x800 % 2 == 1 && lastSeq < MODULUS
      then s + (lastSeq + 0x1000) % MODULUS / 0x1000 * 0x1000
      else s + lastSeq % MODULUS / 0x1000 * 0x1000
  }

  /** The queued form of a received fragment. */
  function Parse(short: bool, skb: seq<Byte>, lastSeq: nat): Frag
    requires |skb| >= if short then 2 else 4
  {
    Frag(GetSeq(short, skb, lastSeq), skb[0] as nat / 0x80 % 2 == 1, skb[0] as nat / 0x40 % 2 == 1,
      skb[if short then 2 else 4..])
  }

  /**
   * A number within 2048 ahead of the link's last one survives the short header, across every wrap; any survives the
   * long one.
   */
  lemma HeaderRoundTrip(short: bool, begin: bool, end: bool, n: nat, last: nat, data: seq<Byte>)
    requires short ==> last <= n <= last + 0x800
    ensures Parse(short, Header(short, begin, end, n) + data, Wire(last)) == Frag(Wire(n), begin, end, data)
  {
    var skb := Header(short, begin, end, n) + data;
    assert skb[if short then 2 else 4..] == data;
    HeaderFlags(short, begin, end, n);
    NumberRoundTrip(short, begin, end, n, last, data);
    hide GetSeq;
  }

  lemma NumberRoundTrip(short: bool, begin: bool, end: bool, n: nat, last: nat, data: seq<Byte>)
    requires short ==> last <= n <= last + 0x800
    ensures GetSeq(short, Header(short, begin, end, n) + data, Wire(last)) == Wire(n)
  {
    var skb := Header(short, begin, end, n) + data;
    HeaderFlags(short, begin, end, n);
    if short {
      assert skb[0] as nat % 0x10 * 0x100 + skb[1] as nat == n % 0x1000;
      ShortNumber(n, last);
      WireRange(last);
    } else {
      assert skb[1] == n / 0x1_0000 % 0x100 && skb[2] == n / 0x100 % 0x100 && skb[3] == n % 0x100;
      LongNumber(n);
      WireRange(n);
    }
    hide Wire;
  }

  lemma WireRange(n: nat)
    ensures Wire(n) % MODULUS == Wire(n) < MODULUS
  {
  }

  lemma HeaderFlags(short: bool, begin: bool, end: bool, n: nat)
    ensures var b := Header(short, begin, end, n)[0] as nat;
      (b / 0x80 % 2 == 1 <==> begin) && (b / 0x40 % 2 == 1 <==> end) &&
      b % 0x10 == if short then n % 0x1000 / 0x100 else 0
    ensures short ==> n % 0x1000 / 0x100 * 0x100 + n % 0x100 == n % 0x1000
  {
    FlagBits(begin, end, if short then n % 0x1000 / 0x100 else 0);
    LowBits(n);
  }

  lemma LowBits(n: nat)
    ensures n % 0x1000 / 0x100 * 0x100 + n % 0x100 == n % 0x1000 && n % 0x1000 / 0x100 < 0x10
  {
    assert n % 0x1000 == n % 0x1000 / 0x100 * 0x100 + n % 0x1000 % 0x100;
  }

  lemma FlagBits(begin: bool, end: bool, high: nat)
    requires high < 0x10
    ensures var b := (if begin then 0x80 else 0) + (if end then 0x40 else 0) + high;
      (b / 0x80 % 2 == 1 <==> begin) && (b / 0x40 % 2 == 1 <==> end) && b % 0x10 == high
  {
  }

  lemma LongNumber(n: nat)
    ensures n / 0x1_0000 % 0x100 * 0x1_0000 + n / 0x100 % 0x100 * 0x100 + n % 0x100 == Wire(n)
  {
    var a := n / 0x100;
    var b := a / 0x100;
    assert n / 0x1_0000 == b;
    Remainder(n, b / 0x100, b % 0x100 * 0x1_0000 + a % 0x100 * 0x100 + n % 0x100);
  }

  lemma Remainder(n: nat, q: nat, r: nat)
    requires n == q * MODULUS + r && r < MODULUS
    ensures n % MODULUS == r
  {
  }

  lemma ShortNumber(n: nat, last: nat)
    requires last <= n <= last + 0x800
    ensures var s, l := n % 0x1000, Wire(last);
      Wire(n) == if s < 0x800 && l / 0x800 % 2 == 1 then s + (l + 0x1000) % MODULUS / 0x1000 * 0x1000
        else s + l / 0x1000 * 0x1000
  {
    var low, block, ahead := last % 0x1000, last / 0x1000, n - last;
    var next := if low + ahead >= 0x1000 then 1 else 0;
    assert n == (block + next) * 0x1000 + (low + ahead - next * 0x1000);
    Blocks(n, block + next, low + ahead - next * 0x1000);
    Blocks(last, block, low);
    Blocks(Wire(last), block % 0x1000, low);
    Blocks(Wire(last) + 0x1000, block % 0x1000 + 1, low);
    NextBlock(block);
    assert next == 1 ==> low >= 0x800 && n % 0x1000 < 0x800;
    assert next == 0 && low >= 0x800 ==> n % 0x1000 >= 0x800;
  }

  lemma NextBlock(block: nat)
    ensures (block + 1) % 0x1000 == (block % 0x1000 + 1) % 0x1000 && block % 0x1000 % 0x1000 == block % 0x1000
  {
  }

  /** A number in blocks of 2^12: its low 12 bits, its bit 11, and its 24-bit truncation. */
  lemma Blocks(n: nat, block: nat, low: nat)
    requires n == block * 0x1000 + low && low < 0x1000
    ensures n % 0x1000 == low && n / 0x800 % 2 == low / 0x800
    ensures n % MODULUS == block % 0x1000 * 0x1000 + low && n % MODULUS / 0x1000 == block % 0x1000 &&
      n % MODULUS / 0x800 % 2 == low / 0x800
  {
    var r := block % 0x1000;
    Remainder(n, block / 0x1000, r * 0x1000 + low);
    Block(n, block, low);
    Block(r * 0x1000 + low, r, low);
  }

  lemma Block(n: nat, block: nat, low: nat)
    requires n == block * 0x1000 + low && low < 0x1000
    ensures n % 0x1000 == low && n / 0x1000 == block && n / 0x800 % 2 == low / 0x800
  {
    assert n / 0x800 == 2 * block + low / 0x800;
  }

  // ----- the format of RFC 1990, section 3 -----

  lemma {:induction false} BytesAre(s: seq<Byte>, b: Byte)
    ensures BytesToBits(s + [b]) == BytesToBits(s) + OfNat(b, 8)
  {
    assert (s + [b])[..|s|] == s;
  }

  lemma FlagByte(begin: bool, end: bool, high: nat)
    requires high < 0x10
    ensures var b := (if begin then 0x80 else 0) + (if end then 0x40 else 0) + high;
      OfNat(b, 8) == [begin, end] + Zeros(2) + OfNat(high, 4)
  {
    var b := (if begin then 0x80 else 0) + (if end then 0x40 else 0) + high;
    SplitBits(b, 4, 4);
    assert Pow2(4) == 0x10;
    FieldBits(b, high, 4);
    ShiftByte(b);
    hide OfNat, Pow2, Shr;
    var top := (if begin then 8 else 0) + if end then 4 else 0;
    assert b / 0x10 == top;
    TopNibble(begin, end);
  }

  lemma TopNibble(begin: bool, end: bool)
    ensures OfNat((if begin then 8 else 0) + (if end then 4 else 0), 4) == [begin, end] + Zeros(2)
  {
    assert OfNat(0, 4) == [false, false, false, false] && OfNat(4, 4) == [false, true, false, false];
    assert OfNat(8, 4) == [true, false, false, false] && OfNat(12, 4) == [true, true, false, false];
  }

  /**
   * The header on the wire, bit for bit: the two flags, reserved bits that are zero, and the number from its highest
   * bit, in 24 bits or in 12.
   */
  lemma HeaderFormat(short: bool, begin: bool, end: bool, n: nat)
    ensures BytesToBits(Header(short, begin, end, n)) ==
      [begin, end] + if short then Zeros(2) + OfNat(n, 12) else Zeros(6) + OfNat(n, 24)
  {
    if short {
      ShortFormat(begin, end, n);
    } else {
      LongFormat(begin, end, n);
    }
  }

  lemma ShortFormat(begin: bool, end: bool, n: nat)
    ensures BytesToBits(Header(true, begin, end, n)) == [begin, end] + (Zeros(2) + OfNat(n, 12))
  {
    hide OfNat, BytesToBits, Pow2, Shr;
    var h := Header(true, begin, end, n);
    var high := n % 0x1000 / 0x100;
    FlagByte(begin, end, high);
    HighNibble(n);
    NoBytes();
    BytesAre([], h[0]);
    BytesAre([h[0]], h[1]);
    assert [] + [h[0]] == [h[0]] && [h[0]] + [h[1]] == h;
    LowByte(n);
    SplitBits(n, 4, 8);
    ShiftByte(n);
    var bits: seq<bool> := [begin, end];
    assert bits + Zeros(2) + OfNat(n / 0x100, 4) + OfNat(n, 8)
      == bits + (Zeros(2) + (OfNat(n / 0x100, 4) + OfNat(n, 8)));
  }

  lemma NoBytes()
    ensures BytesToBits([]) == []
  {
  }

  lemma NibbleOf(n: nat)
    ensures n % 0x1000 / 0x100 < 0x10 && n % 0x1000 / 0x100 % 0x10 == n / 0x100 % 0x10
  {
    var q, r := n / 0x1000, n % 0x1000;
    assert n == 0x1000 * q + r;
    assert n / 0x100 == 0x10 * q + r / 0x100;
    Residue(n / 0x100, 0x10, q, r / 0x100);
  }

  lemma HighNibble(n: nat)
    ensures n % 0x1000 / 0x100 < 0x10 && OfNat(n % 0x1000 / 0x100, 4) == OfNat(n / 0x100, 4)
  {
    assert Pow2(4) == 0x10;
    hide OfNat, Pow2;
    NibbleOf(n);
    FieldBits(n % 0x1000 / 0x100, n / 0x100, 4);
  }

  lemma LongFormat(begin: bool, end: bool, n: nat)
    ensures BytesToBits(Header(false, begin, end, n)) == [begin, end] + (Zeros(6) + OfNat(n, 24))
  {
    hide OfNat, BytesToBits, Pow2, Shr;
    var h := Header(false, begin, end, n);
    FlagByte(begin, end, 0);
    NoBytes();
    BytesAre([], h[0]);
    BytesAre([h[0]], h[1]);
    BytesAre([h[0], h[1]], h[2]);
    BytesAre([h[0], h[1], h[2]], h[3]);
    assert [] + [h[0]] == [h[0]] && [h[0]] + [h[1]] == [h[0], h[1]] && [h[0], h[1]] + [h[2]] == [h[0], h[1], h[2]];
    assert [h[0], h[1], h[2]] + [h[3]] == h;
    LowByte(n);
    LowByte(n / 0x100);
    LowByte(n / 0x1_0000);
    SplitBits(n, 16, 8);
    SplitBits(n / 0x100, 8, 8);
    ShiftByte(n);
    ShiftByte(n / 0x100);
    assert n / 0x100 / 0x100 == n / 0x1_0000;
    ZeroNibble();
    var bits: seq<bool> := [begin, end];
    var a, b, c := OfNat(n / 0x1_0000, 8), OfNat(n / 0x100, 8), OfNat(n, 8);
    assert bits + Zeros(2) + Zeros(4) + a + b + c == bits + (Zeros(6) + (a + b + c));
  }

  lemma ZeroNibble()
    ensures OfNat(0, 4) == Zeros(4)
  {
  }
}
