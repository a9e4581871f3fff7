/**
 * V.110 frames: lines of six data bits, their hunks on the wire, and the start/stop bit strings they carry
 * (drivers/isdn/isdn_v110.c).
 */
module V110Frames {

  // ----- octets -----

  /** The bit at place p, counted from the left. */
  function Mask(p: nat): bv8 {
    if p == 0 then 128 else if p == 1 then 64 else if p == 2 then 32 else if p == 3 then 16
    else if p == 4 then 8 else if p == 5 then 4 else if p == 6 then 2 else if p == 7 then 1 else 0
  }

  predicate Has(c: bv8, m: bv8) { c & m != 0 }

  /** c >> n */
  function Right(c: bv8, n: nat): bv8
    decreases n
  {
    if n == 0 then c else Right(c >> 1, n - 1)
  }

  /** c << n */
  function Left(c: bv8, n: nat): bv8
    decreases n
  {
    if n == 0 then c else Left(c << 1, n - 1)
  }

  lemma {:induction false} RightOfMask(p: nat, n: nat)
    requires p <= 8
    ensures Right(Mask(p), n) == Mask(p + n)
    decreases n
  {
    if n > 0 {
      assert Mask(p) >> 1 == Mask(p + 1);
      if p < 8 {
        RightOfMask(p + 1, n - 1);
      } else {
        RightOfZero(n);
      }
    }
  }

  lemma {:induction false} RightOfZero(n: nat)
    ensures Right(0, n) == 0
  {
    if n > 0 {
      RightOfZero(n - 1);
    }
  }

  // ----- keys: 2, 4 or 8 bits of each stream octet are used -----

  predicate IsKey(key: bv8) { key == 3 || key == 15 || key == 255 }

  function NBits(key: bv8): nat { if key == 3 then 2 else if key == 15 then 4 else 8 }

  function NBytes(key: bv8): nat { if key == 3 then 4 else if key == 15 then 2 else 1 }

  /** n lines take so many octets of the stream. */
  function Size(key: bv8, n: nat): nat { if key == 3 then 4 * n else if key == 15 then 2 * n else n }

  /** Where place p goes when the order within its hunk is reversed. */
  function Mirror(keylen: nat, p: nat): nat
    requires p < 8
  {
    if keylen == 2 then p / 2 * 2 + 1 - p % 2 else if keylen == 4 then p / 4 * 4 + 3 - p % 4 else 7 - p
  }

  function Moved(c: bv8, keylen: nat, p: nat): bv8
    requires p < 8
  {
    if Has(c, Mask(p)) then Mask(Mirror(keylen, p)) else 0
  }

  /** The first n places moved. */
  function FlipPart(c: bv8, keylen: nat, n: nat): bv8
    requires n <= 8
  {
    if n == 0 then 0 else FlipPart(c, keylen, n - 1) | Moved(c, keylen, n - 1)
  }

  function Flip(c: bv8, keylen: nat): bv8 { FlipPart(c, keylen, 8) }

  /** Reversing the order within hunks exchanges mirrored places. */
  lemma FlipClosed(c: bv8)
    ensures Flip(c, 2) == ((c & 0x55) << 1) | ((c >> 1) & 0x55)
    ensures Flip(c, 4) == ((c & 0x11) << 3) | ((c & 0x22) << 1) | ((c & 0x44) >> 1) | ((c & 0x88) >> 3)
    ensures Flip(c, 8) == ((c & 0x01) << 7) | ((c & 0x02) << 5) | ((c & 0x04) << 3) | ((c & 0x08) << 1)
                        | ((c & 0x10) >> 1) | ((c & 0x20) >> 3) | ((c & 0x40) >> 5) | ((c & 0x80) >> 7)
  {
    FlipPairs(c);
    FlipNibbles(c);
    FlipOctet(c);
  }

  lemma FlipPairs(c: bv8)
    ensures Flip(c, 2) == ((c & 0x55) << 1) | ((c >> 1) & 0x55)
  {
    assert FlipPart(c, 2, 1) == (c & 0x80) >> 1;
    assert FlipPart(c, 2, 2) == ((c & 0x40) << 1) | ((c >> 1) & 0x40);
    assert FlipPart(c, 2, 4) == ((c & 0x50) << 1) | ((c >> 1) & 0x50);
    assert FlipPart(c, 2, 6) == ((c & 0x54) << 1) | ((c >> 1) & 0x54);
    assert FlipPart(c, 2, 8) == ((c & 0x55) << 1) | ((c >> 1) & 0x55);
  }

  lemma FlipNibbles(c: bv8)
    ensures Flip(c, 4) == ((c & 0x11) << 3) | ((c & 0x22) << 1) | ((c & 0x44) >> 1) | ((c & 0x88) >> 3)
  {
    assert FlipPart(c, 4, 1) == (c & 0x80) >> 3;
    assert FlipPart(c, 4, 2) == ((c & 0x40) >> 1) | ((c & 0x80) >> 3);
    assert FlipPart(c, 4, 4) == ((c & 0x10) << 3) | ((c & 0x20) << 1) | ((c & 0x40) >> 1) | ((c & 0x80) >> 3);
    assert FlipPart(c, 4, 6) == ((c & 0x10) << 3) | ((c & 0x20) << 1) | ((c & 0x44) >> 1) | ((c & 0x88) >> 3);
    assert FlipPart(c, 4, 8) == ((c & 0x11) << 3) | ((c & 0x22) << 1) | ((c & 0x44) >> 1) | ((c & 0x88) >> 3);
  }

  lemma FlipOctet(c: bv8)
    ensures Flip(c, 8) == ((c & 0x01) << 7) | ((c & 0x02) << 5) | ((c & 0x04) << 3) | ((c & 0x08) << 1)
                        | ((c & 0x10) >> 1) | ((c & 0x20) >> 3) | ((c & 0x40) >> 5) | ((c & 0x80) >> 7)
  {
    assert FlipPart(c, 8, 1) == (c & 0x80) >> 7;
    assert FlipPart(c, 8, 2) == ((c & 0x40) >> 5) | ((c & 0x80) >> 7);
    assert FlipPart(c, 8, 4) == ((c & 0x10) >> 1) | ((c & 0x20) >> 3) | ((c & 0x40) >> 5) | ((c & 0x80) >> 7);
    assert FlipPart(c, 8, 6) == ((c & 0x04) << 3) | ((c & 0x08) << 1)
                              | ((c & 0x10) >> 1) | ((c & 0x20) >> 3) | ((c & 0x40) >> 5) | ((c & 0x80) >> 7);
    assert FlipPart(c, 8, 8) == ((c & 0x01) << 7) | ((c & 0x02) << 5) | ((c & 0x04) << 3) | ((c & 0x08) << 1)
                              | ((c & 0x10) >> 1) | ((c & 0x20) >> 3) | ((c & 0x40) >> 5) | ((c & 0x80) >> 7);
  }

  /** The j-th stream octet of a line: one hunk in the key bits, all other bits set. */
  function Hunk(key: bv8, line: bv8, j: nat): bv8
    requires NBits(key) <= 8
  {
    !key | Right(Left(Flip(line, NBits(key)), j * NBits(key)) & Left(key, 8 - NBits(key)), 8 - NBits(key))
  }

  function Hunks(key: bv8, line: bv8): (s: seq<bv8>)
    ensures |s| == NBytes(key)
  {
    seq(NBytes(key), j requires 0 <= j => Hunk(key, line, j))
  }

  /** The line that the first n of its octets give so far, before its hunks are flipped back. */
  function JoinPart(key: bv8, s: seq<bv8>, n: nat): bv8
    requires n <= |s| && n * NBits(key) <= 8
  {
    if n == 0 then 0 else JoinPart(key, s, n - 1) | Left(s[n - 1] & key, 8 - n * NBits(key))
  }

  lemma PlaceFits(key: bv8, n: nat)
    requires n <= NBytes(key)
    ensures n * NBits(key) <= 8
  {
  }

  function Join(key: bv8, s: seq<bv8>): bv8
    requires |s| == NBytes(key)
  {
    PlaceFits(key, NBytes(key));
    Flip(JoinPart(key, s, NBytes(key)), NBits(key))
  }

  /** What the receiver joins is what the sender has cut into hunks. */
  lemma JoinHunks(key: bv8, line: bv8)
    requires IsKey(key)
    ensures Join(key, Hunks(key, line)) == line
  {
    FlipClosed(line);
    FlipClosed(Flip(line, NBits(key)));
    JoinPartHunks(key, line);
  }

  lemma JoinPartHunks(key: bv8, line: bv8)
    requires IsKey(key)
    ensures NBytes(key) * NBits(key) <= 8 && JoinPart(key, Hunks(key, line), NBytes(key)) == Flip(line, NBits(key))
  {
    hide Flip, Hunk, JoinPart;
    var s := Hunks(key, line);
    if key == 3 {
      HunkPairs(line);
      JoinPairs(s, Flip(line, 2));
    } else if key == 15 {
      HunkNibbles(line);
      JoinNibbles(s, Flip(line, 4));
    } else {
      HunkOctet(line);
      JoinStep(key, s, 1, 0);
      assert s[0] & 255 == Flip(line, 8);
    }
  }

  lemma HunkPairs(line: bv8)
    ensures var f := Flip(line, 2);
      Hunk(3, line, 0) & 3 == f >> 6 && Hunk(3, line, 1) & 3 == (f >> 4) & 3 && Hunk(3, line, 2) & 3 == (f >> 2) & 3 &&
      Hunk(3, line, 3) & 3 == f & 3
  {
    hide Flip, Hunk, Left, Right;
    var f := Flip(line, 2);
    LeftClosed(f);
    LeftClosed(3);
    HunkShape(3, line, 0, 0, 0xc0, 6);
    HunkShape(3, line, 1, 2, 0xc0, 6);
    HunkShape(3, line, 2, 4, 0xc0, 6);
    HunkShape(3, line, 3, 6, 0xc0, 6);
    RightClosed(f & 0xc0);
    RightClosed((f << 2) & 0xc0);
    RightClosed((f << 4) & 0xc0);
    RightClosed((f << 6) & 0xc0);
    PairBits(f);
  }

  lemma HunkShape(key: bv8, line: bv8, j: nat, shift: nat, mask: bv8, down: nat)
    requires shift == j * NBits(key) && down == 8 - NBits(key) && mask == Left(key, down)
    ensures Hunk(key, line, j) == !key | Right(Left(Flip(line, NBits(key)), shift) & mask, down)
  {
    hide Left, Right, Flip;
  }

  lemma PairBits(f: bv8)
    ensures (!3 | ((f & 0xc0) >> 6)) & 3 == f >> 6 && (!3 | (((f << 2) & 0xc0) >> 6)) & 3 == (f >> 4) & 3
    ensures (!3 | (((f << 4) & 0xc0) >> 6)) & 3 == (f >> 2) & 3 && (!3 | (((f << 6) & 0xc0) >> 6)) & 3 == f & 3
  {
  }

  lemma HunkNibbles(line: bv8)
    ensures var f := Flip(line, 4);
      Hunk(15, line, 0) & 15 == f >> 4 && Hunk(15, line, 1) & 15 == f & 15
  {
    hide Flip;
    var f := Flip(line, 4);
    LeftClosed(f);
    LeftClosed(15);
    RightClosed(f & 0xf0);
    RightClosed((f << 4) & 0xf0);
    hide Left, Right;
  }

  lemma HunkOctet(line: bv8)
    ensures Hunk(255, line, 0) == Flip(line, 8)
  {
    hide Flip;
  }

  lemma RightClosed(c: bv8)
    ensures Right(c, 4) == c >> 4 && Right(c, 6) == c >> 6
  {
    assert Right(c >> 4, 2) == c >> 6;
  }

  lemma JoinPairs(s: seq<bv8>, f: bv8)
    requires |s| == 4 && s[0] & 3 == f >> 6 && s[1] & 3 == (f >> 4) & 3 && s[2] & 3 == (f >> 2) & 3 && s[3] & 3 == f & 3
    ensures JoinPart(3, s, 4) == f
  {
    JoinStep(3, s, 1, 6);
    JoinStep(3, s, 2, 4);
    JoinStep(3, s, 3, 2);
    JoinStep(3, s, 4, 0);
    LeftClosed(s[0] & 3);
    LeftClosed(s[1] & 3);
    LeftClosed(s[2] & 3);
    hide JoinPart, Left;
    assert JoinPart(3, s, 2) == f & 0xf0;
  }

  lemma JoinNibbles(s: seq<bv8>, f: bv8)
    requires |s| == 2 && s[0] & 15 == f >> 4 && s[1] & 15 == f & 15
    ensures JoinPart(15, s, 2) == f
  {
    JoinStep(15, s, 1, 4);
    JoinStep(15, s, 2, 0);
    LeftClosed(s[0] & 15);
    hide JoinPart, Left;
  }

  lemma JoinStep(key: bv8, s: seq<bv8>, n: nat, shift: nat)
    requires 0 < n <= |s| && n * NBits(key) + shift == 8
    ensures (n - 1) * NBits(key) <= 8
    ensures JoinPart(key, s, n) == JoinPart(key, s, n - 1) | Left(s[n - 1] & key, shift)
    ensures JoinPart(key, s, 0) == 0
  {
  }

  lemma LeftClosed(c: bv8)
    ensures Left(c, 0) == c && Left(c, 2) == c << 2 && Left(c, 4) == c << 4 && Left(c, 6) == c << 6
  {
    assert Left(c << 4, 2) == c << 6;
  }
}
