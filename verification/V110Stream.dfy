/** The V.110 encoder and the streaming decoder (drivers/isdn/isdn_v110.c). */
module V110Stream {
  import opened V110Frames
  import opened V110Lines

  const BUFSIZE := 1024

  // ----- lines and stream octets -----

  /** Lines cut into hunks. */
  function Spread(key: bv8, lines: seq<bv8>): (s: seq<bv8>)
    ensures |s| == Size(key, |lines|)
  {
    if lines == [] then [] else Spread(key, lines[..|lines| - 1]) + Hunks(key, lines[|lines| - 1])
  }

  /** How many whole lines so many octets are. */
  function Count(key: bv8, n: nat): nat { if key == 3 then n / 4 else if key == 15 then n / 2 else n }

  /** The whole lines of a stream. */
  function JoinAll(key: bv8, s: seq<bv8>): (lines: seq<bv8>)
    ensures |lines| == Count(key, |s|)
    decreases |s|
  {
    if |s| < NBytes(key) then []
    else
      var n := |s| - NBytes(key);
      JoinAll(key, s[..n]) + [Join(key, s[n..])]
  }

  // ----- frames without data -----

  const IDLE_LINES: seq<bv8> := [0, 0xfe, 0xfe, 0xfe, 0xfe, 0xbf, 0xfe, 0xfe, 0xfe, 0xfe]
  const SYNC_LINES: seq<bv8> := [0, 0xff, 0xff, 0xff, 0xff, 0xbf, 0xff, 0xff, 0xff, 0xff]

  /** A frame of the two special lines and one kind of data line, each given by its stream octets. */
  function Plain(zero: seq<bv8>, ebits: seq<bv8>, other: seq<bv8>): seq<bv8> {
    zero + other + other + other + other + (ebits + other + other + other + other)
  }

  function OnlineFrame(key: bv8): seq<bv8> {
    if key == 255 then Plain([0x00], [0xfd], [0x7f])
    else if key == 15 then Plain([0xf0, 0xf0], [0xfd, 0xff], [0xff, 0xf7])
    else Plain([0xfc, 0xfc, 0xfc, 0xfc], [0xfd, 0xff, 0xff, 0xff], [0xff, 0xff, 0xff, 0xfd])
  }

  function OfflineFrame(key: bv8): seq<bv8> {
    if key == 255 then Plain([0x00], [0xfd], [0xff])
    else if key == 15 then Plain([0xf0, 0xf0], [0xfd, 0xff], [0xff, 0xff])
    else Plain([0xfc, 0xfc, 0xfc, 0xfc], [0xfd, 0xff, 0xff, 0xff], [0xff, 0xff, 0xff, 0xff])
  }

  /** One line after another. */
  lemma {:induction false} SpreadConcat(key: bv8, a: seq<bv8>, b: seq<bv8>)
    ensures Spread(key, a + b) == Spread(key, a) + Spread(key, b)
    decreases |b|
  {
    hide Hunks;
    if b == [] {
      assert a + b == a;
    } else {
      assert (a + b)[..|a + b| - 1] == a + b[..|b| - 1];
      SpreadConcat(key, a, b[..|b| - 1]);
    }
  }

  /** The lines of these frames, cut into hunks: header, E bits, and all ones with or without the last bit. */
  lemma LineHunks(key: bv8)
    requires IsKey(key)
    ensures Hunks(key, 0) == if key == 3 then [0xfc, 0xfc, 0xfc, 0xfc] else if key == 15 then [0xf0, 0xf0] else [0x00]
    ensures Hunks(key, 0xff) == if key == 3 then [0xff, 0xff, 0xff, 0xff] else if key == 15 then [0xff, 0xff]
      else [0xff]
    ensures Hunks(key, 0xfe) == if key == 3 then [0xff, 0xff, 0xff, 0xfd] else if key == 15 then [0xff, 0xf7]
      else [0x7f]
    ensures Hunks(key, 0xbf) == if key == 3 then [0xfd, 0xff, 0xff, 0xff] else if key == 15 then [0xfd, 0xff]
      else [0xfd]
  {
    ConstHunks(key, 0);
    ConstHunks(key, 0xff);
    ConstHunks(key, 0xfe);
    ConstHunks(key, 0xbf);
  }

  lemma ConstHunks(key: bv8, line: bv8)
    requires IsKey(key)
    ensures key == 3 ==>
      var f := Flip(line, 2);
      Hunks(key, line) == [0xfc | (f >> 6), 0xfc | ((f >> 4) & 3), 0xfc | ((f >> 2) & 3), 0xfc | (f & 3)]
    ensures key == 15 ==> var f := Flip(line, 4); Hunks(key, line) == [0xf0 | (f >> 4), 0xf0 | (f & 15)]
    ensures key == 255 ==> Hunks(key, line) == [Flip(line, 8)]
    ensures Flip(line, 2) == ((line & 0x55) << 1) | ((line >> 1) & 0x55)
    ensures Flip(line, 4) == ((line & 0x11) << 3) | ((line & 0x22) << 1) | ((line & 0x44) >> 1) | ((line & 0x88) >> 3)
    ensures Flip(line, 8) == ((line & 0x01) << 7) | ((line & 0x02) << 5) | ((line & 0x04) << 3) | ((line & 0x08) << 1)
                           | ((line & 0x10) >> 1) | ((line & 0x20) >> 3) | ((line & 0x40) >> 5) | ((line & 0x80) >> 7)
  {
    FlipClosed(line);
    hide Flip;
    if key == 3 {
      HunkPairs(line);
    } else if key == 15 {
      HunkNibbles(line);
    } else {
      HunkOctet(line);
    }
  }

  /** The precoded frames are whole frames without data. */
  lemma PrecodedFrames(key: bv8)
    requires IsKey(key)
    ensures OnlineFrame(key) == Spread(key, IDLE_LINES) && OfflineFrame(key) == Spread(key, SYNC_LINES)
  {
    hide Hunks, Spread, Plain;
    LineHunks(key);
    PlainFrame(key, 0xfe, IDLE_LINES);
    PlainFrame(key, 0xff, SYNC_LINES);
  }

  lemma PlainFrame(key: bv8, other: bv8, lines: seq<bv8>)
    requires lines == [0, other, other, other, other, 0xbf, other, other, other, other]
    ensures Spread(key, lines) == Plain(Hunks(key, 0), Hunks(key, 0xbf), Hunks(key, other))
  {
    hide Hunks, Spread;
    SpreadConcat(key, [0, other, other, other, other], [0xbf, other, other, other, other]);
    FiveLines(key, 0, other);
    FiveLines(key, 0xbf, other);
    assert lines == [0, other, other, other, other] + [0xbf, other, other, other, other];
  }

  lemma FiveLines(key: bv8, first: bv8, other: bv8)
    ensures var h, o := Hunks(key, first), Hunks(key, other);
      Spread(key, [first, other, other, other, other]) == h + o + o + o + o
  {
    hide Hunks, Spread;
    var f, o := [first], [other];
    assert [first, other, other, other, other] == f + o + o + o + o;
    OneLine(key, first);
    OneLine(key, other);
    SpreadConcat(key, f, o);
    SpreadConcat(key, f + o, o);
    SpreadConcat(key, f + o + o, o);
    SpreadConcat(key, f + o + o + o, o);
  }

  lemma OneLine(key: bv8, line: bv8)
    ensures Spread(key, [line]) == Hunks(key, line)
  {
    hide Hunks;
    assert [line][..0] == [] && Spread(key, []) == [];
  }

  /** What was spread is joined again. */
  lemma {:induction false} JoinSpread(key: bv8, lines: seq<bv8>)
    requires IsKey(key)
    ensures JoinAll(key, Spread(key, lines)) == lines
  {
    hide Hunks, Join, JoinAll;
    if lines == [] {
      JoinNone(key);
    } else {
      var m := |lines| - 1;
      assert Spread(key, lines) == Spread(key, lines[..m]) + Hunks(key, lines[m]);
      assert lines == lines[..m] + [lines[m]];
      JoinSpread(key, lines[..m]);
      JoinHunks(key, lines[m]);
      JoinNext(key, Spread(key, lines[..m]), Hunks(key, lines[m]));
    }
  }

  lemma JoinNone(key: bv8)
    ensures JoinAll(key, []) == []
  {
  }

  lemma JoinNext(key: bv8, s: seq<bv8>, t: seq<bv8>)
    requires |t| == NBytes(key)
    ensures JoinAll(key, s + t) == JoinAll(key, s) + [Join(key, t)]
  {
    hide Join;
    assert (s + t)[..|s|] == s && (s + t)[|s|..] == t;
  }

  // ----- the encoder -----

  /** Reverse the order of the bits in every group of keylen bits. */
  method FlipBits(c0: bv8, keylen: nat) returns (c: bv8)
    requires keylen == 2 || keylen == 4 || keylen == 8
    ensures c == Flip(c0, keylen)
  {
    hide Mask, Has, FlipPart, Right, Mirror;
    var bit: bv8, hunks := 128, 8 / keylen;
    c := 0;
    ghost var p: nat := 0;
    FlipNone(c0, keylen);
    for i := 0 to hunks
      invariant p == (if keylen == 2 then 2 * i else if keylen == 4 then 4 * i else 8 * i) <= 8
      invariant bit == Mask(p) && c == FlipPart(c0, keylen, p)
    {
      for j := 0 to keylen
        invariant c == FlipPart(c0, keylen, p + j)
      {
        FlipNext(c0, keylen, p + j);
        RightOfMask(p, j);
        RightOfMask(p, keylen - j - 1);
        MirrorInHunk(keylen, i, p, j);
        if Has(c0, Right(bit, j)) {
          c := c | Right(bit, keylen - j - 1);
        }
      }
      RightOfMask(p, keylen);
      bit := Right(bit, keylen);
      p := p + keylen;
    }
  }

  lemma MirrorInHunk(keylen: nat, i: nat, p: nat, j: nat)
    requires (keylen == 2 && p == 2 * i) || (keylen == 4 && p == 4 * i) || (keylen == 8 && p == 8 * i)
    requires j < keylen && p + j < 8
    ensures Mirror(keylen, p + j) == p + keylen - j - 1
  {
  }

  lemma FlipNone(c: bv8, keylen: nat)
    ensures FlipPart(c, keylen, 0) == 0 && Mask(0) == 128
  {
  }

  lemma FlipNext(c: bv8, keylen: nat, n: nat)
    requires n < 8
    ensures FlipPart(c, keylen, n + 1) == if Has(c, Mask(n)) then FlipPart(c, keylen, n) | Mask(Mirror(keylen, n))
      else FlipPart(c, keylen, n)
  {
  }

  /** What EncodeMatrix has written up to the start of a data line or to its k-th bit. */
  ghost predicate Written(data: seq<bv8>, m: seq<bv8>, line: nat) {
    line <= |m| && forall l :: 0 <= l < line ==> m[l] == LineAt(data, l)
  }

  /** Which bit of byte i is written next: three introducer bits, counted down, and the data bits. */
  ghost predicate AtBit(i: nat, introducer: nat, dbit: bv8, d: nat, q: nat) {
    introducer <= 3 && d < 8 && dbit == Mask(7 - d) && (introducer > 0 ==> d == 0) &&
    q == 11 * i + if introducer > 0 then 3 - introducer else 3 + d
  }

  /** What the next bit is, and where it leaves the counters. */
  lemma NextIntroducer(data: seq<bv8>, i: nat, introducer: nat, dbit: bv8, d: nat, q: nat)
    requires AtBit(i, introducer, dbit, d, q) && introducer > 0 && i < |data|
    ensures BitAt(data, q) <==> introducer > 1
    ensures AtBit(i, introducer - 1, dbit, d, q + 1)
  {
    assert q / 11 == i && q % 11 == 3 - introducer;
  }

  lemma NextDataBit(data: seq<bv8>, i: nat, dbit: bv8, d: nat, q: nat)
    requires AtBit(i, 0, dbit, d, q) && i < |data|
    ensures BitAt(data, q) <==> Has(data[i], dbit)
    ensures d < 8 && (dbit == 128 <==> d == 7)
    ensures d < 7 ==> AtBit(i, 0, Left(dbit, 1), d + 1, q + 1)
    ensures d == 7 ==> AtBit(i + 1, 3, 1, 0, q + 1) && q + 1 == 11 * (i + 1)
  {
    assert q / 11 == i && q % 11 == 3 + d;
  }

  /**
   * The bits of one line, from the second place on: the source's next_bit loop until the line is full or the data ends.
   */
  method FillLine(buf: seq<bv8>, m: array<bv8>, line: nat, i0: nat, introducer0: nat, dbit0: bv8, ghost d0: nat,
                  ghost q0: nat)
    returns (i: nat, introducer: nat, dbit: bv8, done: bool, ghost d: nat)
    requires line < m.Length && m[line] == 128 && i0 < |buf| && AtBit(i0, introducer0, dbit0, d0, q0)
    modifies m
    ensures m[line] == PackPart(buf, q0, 6) && forall l :: 0 <= l < m.Length && l != line ==> m[l] == old(m[l])
    ensures if done then q0 < 11 * |buf| <= q0 + 6 else i < |buf| && AtBit(i, introducer, dbit, d, q0 + 6)
  {
    hide BitAt, AtBit, Has, Mask, PackPart, Or, Below, Left, Right;
    i, introducer, dbit, done, d := i0, introducer0, dbit0, false, d0;
    var mbit: bv8 := 64;
    ghost var k: nat := 0;
    StartOfLine(buf, q0);
    while mbit != 1
      invariant k <= 6 && mbit == Mask(k + 1) && i < |buf| && AtBit(i, introducer, dbit, d, q0 + k)
      invariant m[line] == PackPart(buf, q0, k) && forall l :: 0 <= l < m.Length && l != line ==> m[l] == old(m[l])
      decreases 6 - k
    {
      LineMask(k);
      AddBit(buf, q0, k);
      BitsLeft(buf, i, introducer, dbit, d, q0 + k);
      if introducer > 0 {
        NextIntroducer(buf, i, introducer, dbit, d, q0 + k);
      } else {
        NextDataBit(buf, i, dbit, d, q0 + k);
      }
      // the introducer is sent from its end: one, one, zero
      if if introducer > 0 then introducer - 1 > 0 else Has(buf[i], dbit) {
        m[line] := Or(m[line], mbit);
      }
      if introducer > 0 {
        introducer := introducer - 1;
      } else if dbit == 128 {
        dbit, d, i := 1, 0, i + 1;
        if i == |buf| {
          FillRest(buf, q0, k + 1);
          m[line] := Or(m[line], Below(mbit));
          done := true;
          return;
        }
        introducer := 3;
      } else {
        dbit, d := Left(dbit, 1), d + 1;
      }
      mbit := Right(mbit, 1);
      k := k + 1;
    }
    LineFull(k);
  }

  function Or(a: bv8, b: bv8): bv8 { a | b }

  /** The places of a line after that of m. */
  function Below(m: bv8): bv8 { (m - 1) & 0xfe }

  lemma FillRest(data: seq<bv8>, q: nat, k: nat)
    requires 0 < k <= 6 && 11 * |data| <= q + k
    ensures Or(PackPart(data, q, k), Below(Mask(k))) == PackPart(data, q, 6)
  {
    OnesFollow(data);
    FillOnes(data, q, k);
  }

  lemma StartOfLine(data: seq<bv8>, q: nat)
    ensures PackPart(data, q, 0) == 128 && Mask(1) == 64
  {
  }

  lemma LineMask(k: nat)
    requires k <= 6
    ensures Mask(k + 1) != 1 ==> k < 6 && Right(Mask(k + 1), 1) == Mask(k + 2)
  {
    RightOfMask(k + 1, 1);
  }

  lemma LineFull(k: nat)
    requires k <= 6 && Mask(k + 1) == 1
    ensures k == 6
  {
  }

  lemma AddBit(data: seq<bv8>, q: nat, k: nat)
    ensures PackPart(data, q, k + 1) == if BitAt(data, q + k) then Or(PackPart(data, q, k), Mask(k + 1))
      else PackPart(data, q, k)
  {
    hide BitAt, Mask;
    NoBits(PackPart(data, q, k));
  }

  lemma NoBits(c: bv8)
    ensures c | 0 == c
  {
  }

  lemma BitsLeft(data: seq<bv8>, i: nat, introducer: nat, dbit: bv8, d: nat, q: nat)
    requires AtBit(i, introducer, dbit, d, q) && i < |data|
    ensures 11 * i <= q < 11 * (i + 1) <= 11 * |data|
  {
  }

  /**
   * EncodeMatrix: the lines of the bytes of buf, as far as they fit into mlen lines. Where the source jumps back to the
   * head of its loop with a line just begun, the next pass does not look at the conditions again.
   */
  method EncodeMatrix(buf: seq<bv8>, m: array<bv8>, mlen: nat) returns (line: nat)
    requires mlen <= m.Length
    modifies m
    ensures line <= mlen && Written(buf, m[..], line)
    ensures buf == [] ==> line == 0
    ensures LinesFor(|buf|) + 10 <= mlen ==> line == LinesFor(|buf|)
  {
    hide PackPart, BitAt, AtBit, Has, Slot, LineAt, Written, LinesFor;
    line := 0;
    var i: nat, introducer: nat, dbit: bv8, done := 0, 3, 1, false;
    ghost var d: nat := 0;
    FirstBit(buf, m[..]);
    while i < |buf| && line < mlen
      invariant i <= |buf| && line <= mlen && Written(buf, m[..], line)
      invariant buf != [] ==> i < |buf| && AtBit(i, introducer, dbit, d, 6 * Slot(line))
      invariant (buf == [] ==> line == 0) && (0 < line < mlen ==> m[line] == 128)
      decreases mlen - line
    {
      BitsLeft(buf, i, introducer, dbit, d, 6 * Slot(line));
      LineBelow(|buf|, line);
      ghost var was := m[..];
      if line % 10 == 0 || line % 10 == 5 {
        SpecialLine(buf, line);
        m[line] := if line % 10 == 0 then 0 else 0xbf;
        WrittenNext(buf, was, m[..], line);
        line := line + 1;
        LineBelow(|buf|, line);
        if line >= mlen {
          return;
        }
        was := m[..];
        m[line] := 128;
        WrittenSame(buf, was, m[..], line);
        was := m[..];
      }
      i, introducer, dbit, done, d := FillLine(buf, m, line, i, introducer, dbit, d, 6 * Slot(line));
      DataLine(buf, line);
      WrittenNext(buf, was, m[..], line);
      if done {
        break;
      }
      line := line + 1;
      BitsLeft(buf, i, introducer, dbit, d, 6 * Slot(line));
      LineBelow(|buf|, line);
      if line >= mlen {
        return;
      }
      was := m[..];
      m[line] := 128;
      WrittenSame(buf, was, m[..], line);
    }
    if !done && buf != [] {
      BitsLeft(buf, i, introducer, dbit, d, 6 * Slot(line));
      LineBelow(|buf|, line);
    }
    if line > 0 && line + 10 < mlen {
      LastLine(|buf|, line);
      line := FillFrame(buf, m, line + 1, line / 10);
    }
  }

  /** The lines that are left of the last frame. */
  method FillFrame(buf: seq<bv8>, m: array<bv8>, first: nat, ghost frame: nat) returns (line: nat)
    requires Written(buf, m[..], first) && LinesFor(|buf|) == 10 * frame + 10 <= m.Length &&
      10 * frame < first <= 10 * frame + 10
    requires 11 * |buf| <= 6 * Slot(first)
    modifies m
    ensures line == LinesFor(|buf|) && Written(buf, m[..], line)
  {
    hide Slot, LineAt, Written, LinesFor;
    line := first;
    while line % 10 != 0
      invariant 10 * frame < line <= 10 * frame + 10 && Written(buf, m[..], line) && 11 * |buf| <= 6 * Slot(line)
      decreases 10 * frame + 10 - line
    {
      FillerLine(buf, line);
      SlotNext(line);
      ghost var was := m[..];
      m[line] := if line % 10 == 5 then 0xbf else 0xfe;
      WrittenNext(buf, was, m[..], line);
      line := line + 1;
    }
  }

  lemma WrittenNext(data: seq<bv8>, m: seq<bv8>, m': seq<bv8>, line: nat)
    requires Written(data, m, line) && |m'| == |m| && line < |m| && m'[line] == LineAt(data, line)
    requires forall l :: 0 <= l < |m| && l != line ==> m'[l] == m[l]
    ensures Written(data, m', line + 1) && Written(data, m', line)
  {
    hide LineAt;
  }

  lemma WrittenSame(data: seq<bv8>, m: seq<bv8>, m': seq<bv8>, line: nat)
    requires Written(data, m, line) && |m'| == |m| && forall l :: 0 <= l < line ==> m'[l] == m[l]
    ensures Written(data, m', line)
  {
    hide LineAt;
  }

  /** As long as bits are left the line belongs to the frames that the data need. */
  lemma LineBelow(n: nat, line: nat)
    ensures 6 * Slot(line) < 11 * n ==> line < LinesFor(n)
  {
  }

  /** The line in which the data end is in the last frame. */
  lemma LastLine(n: nat, line: nat)
    requires 6 * Slot(line) < 11 * n <= 6 * Slot(line) + 6 && !Special(line)
    ensures LinesFor(n) == 10 * (line / 10) + 10 && 10 * (line / 10) < line + 1 <= 10 * (line / 10) + 10
    ensures 11 * n <= 6 * Slot(line + 1)
  {
    var a, r := line / 10, line % 10;
    assert line == 10 * a + r;
    SlotNext(line);
    assert 8 * a <= Slot(line) <= 8 * a + 7;
    FrameOf(11 * n - 1, a);
  }

  lemma FrameOf(q: nat, a: nat)
    requires 48 * a <= q < 48 * a + 48
    ensures q / 48 == a
  {
  }

  lemma FillerLine(data: seq<bv8>, line: nat)
    requires 11 * |data| <= 6 * Slot(line) && line % 10 != 0
    ensures LineAt(data, line) == if line % 10 == 5 then 0xbf else 0xfe
  {
    OnesFollow(data);
    StartOfLine(data, 6 * Slot(line));
    AddBit(data, 6 * Slot(line), 0);
    FillOnes(data, 6 * Slot(line), 1);
    hide PackPart, BitAt;
  }

  lemma FirstBit(data: seq<bv8>, m: seq<bv8>)
    ensures AtBit(0, 3, 1, 0, 6 * Slot(0)) && Written(data, m, 0)
    ensures data == [] ==> LinesFor(|data|) == 0
  {
  }

  lemma SpecialLine(data: seq<bv8>, line: nat)
    requires line % 10 == 0 || line % 10 == 5
    ensures LineAt(data, line) == (if line % 10 == 0 then 0 else 0xbf) && Slot(line + 1) == Slot(line)
    ensures (line + 1) % 10 != 0 && (line + 1) % 10 != 5
  {
  }

  lemma DataLine(data: seq<bv8>, line: nat)
    requires line % 10 != 0 && line % 10 != 5
    ensures LineAt(data, line) == PackPart(data, 6 * Slot(line), 6) && 6 * Slot(line + 1) == 6 * Slot(line) + 6
  {
  }
}
