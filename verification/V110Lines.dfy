/** The matrix of a byte string, and the start/stop decoder that reads a matrix back (drivers/isdn/isdn_v110.c). */
module V110Lines {
  import opened V110Frames

  // ----- the bits that a byte string is sent as -----

  /** Bit r of the eleven bits of a byte: two ones, a zero, and the byte from its lowest bit. */
  predicate FrameBit(c: bv8, r: nat) {
    r < 2 || (r > 2 && r < 11 && Has(c, Mask(10 - r)))
  }

  /** Bit p of a byte string, which is followed by ones. */
  predicate BitAt(data: seq<bv8>, p: nat) {
    p / 11 < |data| ==> FrameBit(data[p / 11], p % 11)
  }

  function BitsUpTo(data: seq<bv8>, n: nat): (s: seq<bool>)
    ensures |s| == n
  {
    seq(n, p requires 0 <= p => BitAt(data, p))
  }

  // ----- lines: 1dddddd0, except that line 0 of each frame is zero and line 5 carries the E bits -----

  predicate Special(line: nat) { line % 10 == 0 || line % 10 == 5 }

  /** The number of data lines before a line. */
  function Slot(line: nat): nat {
    8 * (line / 10) + if line % 10 == 0 then 0 else if line % 10 <= 5 then line % 10 - 1 else line % 10 - 2
  }

  lemma SlotNext(line: nat)
    ensures Slot(line + 1) == Slot(line) + if Special(line) then 0 else 1
  {
  }

  /** A line with the first k of its six bits filled in. */
  function PackPart(data: seq<bv8>, first: nat, k: nat): bv8 {
    if k == 0 then 128 else PackPart(data, first, k - 1) | (if BitAt(data, first + k - 1) then Mask(k) else 0)
  }

  function LineAt(data: seq<bv8>, line: nat): bv8 {
    if line % 10 == 0 then 0 else if line % 10 == 5 then 0xbf else PackPart(data, 6 * Slot(line), 6)
  }

  /** Whole frames of ten lines, 48 bits each. */
  function LinesFor(n: nat): nat {
    if n == 0 then 0 else 10 * ((11 * n - 1) / 48 + 1)
  }

  function Matrix(data: seq<bv8>): (m: seq<bv8>)
    ensures |m| == LinesFor(|data|)
  {
    seq(LinesFor(|data|), line requires 0 <= line => LineAt(data, line))
  }

  function LineBits(c: bv8): (s: seq<bool>)
    ensures |s| == 6
  {
    [Has(c, 64), Has(c, 32), Has(c, 16), Has(c, 8), Has(c, 4), Has(c, 2)]
  }

  /** The data bits of a matrix. */
  function DataBits(lines: seq<bv8>): (s: seq<bool>)
    ensures |s| == 6 * Slot(|lines|)
  {
    if lines == [] then []
    else
      SlotNext(|lines| - 1);
      DataBits(lines[..|lines| - 1]) + if Special(|lines| - 1) then [] else LineBits(lines[|lines| - 1])
  }

  lemma {:induction false} DataBitsConcat(a: seq<bv8>, b: seq<bv8>)
    requires |a| % 10 == 0
    ensures DataBits(a + b) == DataBits(a) + DataBits(b)
    decreases |b|
  {
    hide DataBits, LineBits, Slot;
    if b == [] {
      assert a + b == a;
      NoLines();
    } else {
      var n := |b| - 1;
      DataBitsConcat(a, b[..n]);
      assert a + b == (a + b[..n]) + [b[n]] && b == b[..n] + [b[n]];
      assert Special(|a + b[..n]|) == Special(n);
      DataBitsNext(a + b[..n], b[n]);
      DataBitsNext(b[..n], b[n]);
    }
  }

  lemma NoLines()
    ensures DataBits([]) == []
  {
  }

  lemma DataBitsNext(lines: seq<bv8>, x: bv8)
    ensures DataBits(lines + [x]) == DataBits(lines) + if Special(|lines|) then [] else LineBits(x)
  {
    hide LineBits, Slot, Special;
    assert (lines + [x])[..|lines|] == lines;
  }

  /** Reading the bits of a line gives what was put into it. */
  lemma PackedBits(data: seq<bv8>, first: nat)
    ensures LineBits(PackPart(data, first, 6)) == seq(6, k requires 0 <= k => BitAt(data, first + k))
  {
    hide PackPart, BitAt, Has, Mask;
    PackedBit(data, first, 1, 6);
    PackedBit(data, first, 2, 6);
    PackedBit(data, first, 3, 6);
    PackedBit(data, first, 4, 6);
    PackedBit(data, first, 5, 6);
    PackedBit(data, first, 6, 6);
    LineBitsMasks(PackPart(data, first, 6));
    hide LineBits;
  }

  lemma LineBitsMasks(c: bv8)
    ensures LineBits(c)
      == [Has(c, Mask(1)), Has(c, Mask(2)), Has(c, Mask(3)), Has(c, Mask(4)), Has(c, Mask(5)), Has(c, Mask(6))]
  {
  }

  lemma {:induction false} PackedBit(data: seq<bv8>, first: nat, k: nat, n: nat)
    requires 0 < k <= 6 && n <= 6
    ensures Has(PackPart(data, first, n), Mask(k)) <==> k <= n && BitAt(data, first + k - 1)
  {
    hide BitAt;
    if n > 0 {
      PackedBit(data, first, k, n - 1);
      OrMask(PackPart(data, first, n - 1), n, k);
    }
  }

  lemma OrMask(c: bv8, n: nat, k: nat)
    requires 0 < k <= 6 && 0 < n <= 6
    ensures Has(c | Mask(n), Mask(k)) <==> k == n || Has(c, Mask(k))
    ensures c | 0 == c
  {
  }

  /** When only ones follow, they are filled in at once. */
  lemma {:induction false} FillOnes(data: seq<bv8>, first: nat, k: nat)
    requires 0 < k <= 6 && forall p: nat :: first + k <= p ==> BitAt(data, p)
    ensures PackPart(data, first, k) | ((Mask(k) - 1) & 0xfe) == PackPart(data, first, 6)
    decreases 6 - k
  {
    hide BitAt;
    if k < 6 {
      FillOnes(data, first, k + 1);
      assert BitAt(data, first + k);
      FillOne(PackPart(data, first, k), k);
    }
  }

  lemma FillOne(c: bv8, k: nat)
    requires 0 < k < 6
    ensures c | ((Mask(k) - 1) & 0xfe) == (c | Mask(k + 1)) | ((Mask(k + 1) - 1) & 0xfe)
  {
  }

  /** The data bits of a matrix are the bits of the byte string, filled up with ones. */
  lemma {:induction false} MatrixBits(data: seq<bv8>, n: nat)
    requires n <= LinesFor(|data|)
    ensures DataBits(Matrix(data)[..n]) == BitsUpTo(data, 6 * Slot(n))
  {
    hide BitAt, PackPart, LineBits;
    if n > 0 {
      MatrixBits(data, n - 1);
      assert Matrix(data)[..n][..n - 1] == Matrix(data)[..n - 1];
      assert Matrix(data)[..n][n - 1] == LineAt(data, n - 1);
      SlotNext(n - 1);
      PackedBits(data, 6 * Slot(n - 1));
      NextSix(data, 6 * Slot(n - 1));
    }
    hide Matrix, Slot;
  }

  lemma NextSix(data: seq<bv8>, p: nat)
    ensures BitsUpTo(data, p + 6) == BitsUpTo(data, p) + seq(6, k requires 0 <= k => BitAt(data, p + k))
    ensures BitsUpTo(data, p) + [] == BitsUpTo(data, p)
  {
    hide BitAt;
  }

  // ----- the start/stop decoder -----

  /** introducer: a start bit was seen; place: which data bit comes next, from the lowest; b: the byte so far. */
  datatype Uart = Uart(introducer: bool, place: nat, b: bv8)

  const IDLE := Uart(false, 0, 0)

  /** b with the data bit at a place, and nothing above it. */
  function Put(b: bv8, place: nat, bit: bool): bv8
    requires place < 8
  {
    if bit then b | Mask(7 - place) else b & (Mask(7 - place) - 1)
  }

  function Feed(u: Uart, bit: bool): (r: (Uart, seq<bv8>)) {
    if !u.introducer then (u.(introducer := !bit), [])
    else if u.place < 7 then (Uart(true, u.place + 1, Put(u.b, u.place, bit)), [])
    else (IDLE, [Put(u.b, 7, bit)])
  }

  function FeedAll(u: Uart, bits: seq<bool>): (r: (Uart, seq<bv8>)) {
    if bits == [] then (u, [])
    else
      var r := FeedAll(u, bits[..|bits| - 1]);
      var t := Feed(r.0, bits[|bits| - 1]);
      (t.0, r.1 + t.1)
  }

  lemma {:induction false} FeedConcat(u: Uart, a: seq<bool>, b: seq<bool>)
    ensures var r := FeedAll(u, a);
      var t := FeedAll(r.0, b);
      FeedAll(u, a + b) == (t.0, r.1 + t.1)
    decreases |b|
  {
    hide Feed;
    if b == [] {
      assert a + b == a;
      var r := FeedAll(u, a);
      assert r.1 + [] == r.1;
    } else {
      assert (a + b)[..|a + b| - 1] == a + b[..|b| - 1];
      FeedConcat(u, a, b[..|b| - 1]);
      var r := FeedAll(u, a);
      var t := FeedAll(r.0, b[..|b| - 1]);
      var x := Feed(t.0, b[|b| - 1]);
      assert (r.1 + t.1) + x.1 == r.1 + (t.1 + x.1);
    }
  }

  lemma {:induction false} FeedOnes(bits: seq<bool>)
    requires forall i :: 0 <= i < |bits| ==> bits[i]
    ensures FeedAll(IDLE, bits) == (IDLE, [])
  {
    if bits != [] {
      FeedOnes(bits[..|bits| - 1]);
      assert bits[|bits| - 1] && Feed(IDLE, true).0 == IDLE && Feed(IDLE, true).1 == [];
      var none: seq<bv8> := [];
      assert none + none == none;
    }
  }

  /** The eleven bits of a byte. */
  function ByteBits(c: bv8): (s: seq<bool>)
    ensures |s| == 11
  {
    seq(11, r requires 0 <= r => FrameBit(c, r))
  }

  /** The lowest d bits of a byte. */
  function LowBits(c: bv8, d: nat): bv8 {
    if d < 8 then c & (Mask(7 - d) - 1) else c
  }

  /** The decoder after r of the bits of a byte. */
  function UartAt(c: bv8, r: nat): Uart {
    if r < 3 || r > 10 then IDLE else Uart(true, r - 3, LowBits(c, r - 3))
  }

  lemma {:induction false} FeedPart(c: bv8, r: nat)
    requires r <= 11
    ensures FeedAll(IDLE, ByteBits(c)[..r]) == (UartAt(c, r), if r == 11 then [c] else [])
  {
    if r > 0 {
      FeedPart(c, r - 1);
      assert ByteBits(c)[..r][..r - 1] == ByteBits(c)[..r - 1];
      FeedBit(c, r - 1);
      hide UartAt, Feed, FrameBit;
      assert ByteBits(c)[..r][r - 1] == FrameBit(c, r - 1);
      var t := Feed(UartAt(c, r - 1), FrameBit(c, r - 1));
      assert [] + t.1 == t.1;
    }
  }

  lemma FeedBit(c: bv8, r: nat)
    requires r < 11
    ensures Feed(UartAt(c, r), FrameBit(c, r)) == (UartAt(c, r + 1), if r == 10 then [c] else [])
  {
    PutNone(c);
    if r > 2 {
      PutNext(c, r - 3);
    }
    hide Put, LowBits, Has;
  }

  lemma PutNone(c: bv8)
    ensures LowBits(c, 0) == 0 && LowBits(c, 8) == c
  {
    assert c & 0 == 0;
  }

  lemma PutNext(c: bv8, d: nat)
    requires d < 8
    ensures Put(LowBits(c, d), d, Has(c, Mask(7 - d))) == LowBits(c, d + 1)
  {
  }

  lemma {:induction false} FeedBytes(data: seq<bv8>, i: nat)
    requires i <= |data|
    ensures FeedAll(IDLE, BitsUpTo(data, 11 * i)) == (IDLE, data[..i])
  {
    hide FeedAll, Feed, BitsUpTo, ByteBits;
    if i == 0 {
      FeedNone(BitsUpTo(data, 0));
    } else {
      var c := data[i - 1];
      FeedBytes(data, i - 1);
      FeedPart(c, 11);
      ByteOf(data, i - 1);
      assert ByteBits(c)[..11] == ByteBits(c);
      FeedConcat(IDLE, BitsUpTo(data, 11 * (i - 1)), ByteBits(c));
      assert data[..i] == data[..i - 1] + [c];
    }
  }

  lemma FeedNone(bits: seq<bool>)
    requires |bits| == 0
    ensures FeedAll(IDLE, bits) == (IDLE, [])
  {
  }

  lemma ByteOf(data: seq<bv8>, i: nat)
    requires i < |data|
    ensures BitsUpTo(data, 11 * (i + 1)) == BitsUpTo(data, 11 * i) + ByteBits(data[i])
  {
    hide FrameBit;
    forall r | 0 <= r < 11
      ensures BitAt(data, 11 * i + r) == ByteBits(data[i])[r]
    {
      assert (11 * i + r) / 11 == i && (11 * i + r) % 11 == r;
    }
    hide BitAt;
  }

  /** Decoding the matrix of a byte string returns it and leaves the decoder idle. */
  lemma MatrixDecodes(data: seq<bv8>)
    ensures FeedAll(IDLE, DataBits(Matrix(data))) == (IDLE, data)
  {
    hide FeedAll, DataBits, Matrix, BitAt, Feed;
    var n := LinesFor(|data|);
    MatrixBits(data, n);
    assert Matrix(data)[..n] == Matrix(data);
    FeedBytes(data, |data|);
    assert data[..|data|] == data;
    FilledUp(data, 6 * Slot(n));
  }

  /** The ones that fill up the last frame give no byte. */
  lemma FilledUp(data: seq<bv8>, q: nat)
    requires FeedAll(IDLE, BitsUpTo(data, 11 * |data|)) == (IDLE, data) && q >= 11 * |data|
    ensures FeedAll(IDLE, BitsUpTo(data, q)) == (IDLE, data)
  {
    hide FeedAll, Feed;
    var p := 11 * |data|;
    OnesFollow(data);
    var rest := seq(q - p, k requires 0 <= k => BitAt(data, p + k));
    hide BitAt;
    FeedOnes(rest);
    assert BitsUpTo(data, q) == BitsUpTo(data, p) + rest;
    FeedConcat(IDLE, BitsUpTo(data, p), rest);
    assert data + [] == data;
  }

  lemma OnesFollow(data: seq<bv8>)
    ensures forall p: nat :: 11 * |data| <= p ==> BitAt(data, p)
  {
  }
}
