/**
 * What a V.110 stream looks like on the line, and what the decoder skips, without the functions that build and read it.
 */
module V110Format {
  import opened V110Frames
  import opened V110Lines
  import opened V110Stream
  import opened V110Codec

  // ----- lines and frames -----

  /**
   * The first line of a frame is zero, the sixth has the E bits, and all others have a leading one and a trailing zero.
   */
  lemma LineShape(data: seq<bv8>, line: nat)
    requires line < LinesFor(|data|)
    ensures var m := Matrix(data)[line];
      if line % 10 == 0 then m == 0x00 else if line % 10 == 5 then m == 0xbf else m & 0x81 == 0x80
  {
    PartShape(data, 6 * Slot(line), 6);
    hide Slot, PackPart;
  }

  lemma {:induction false} PartShape(data: seq<bv8>, first: nat, k: nat)
    requires k <= 6
    ensures PackPart(data, first, k) & 0x81 == 0x80
  {
    hide BitAt;
    if k > 0 {
      PartShape(data, first, k - 1);
      KeepsEnds(PackPart(data, first, k - 1), k);
    }
  }

  lemma KeepsEnds(c: bv8, k: nat)
    requires 0 < k <= 6 && c & 0x81 == 0x80
    ensures (c | Mask(k)) & 0x81 == 0x80 && (c | 0) & 0x81 == 0x80
  {
  }

  /** So many frames of 48 bits as the bytes need at eleven bits each, and no more. */
  lemma FewestFrames(n: nat)
    ensures LinesFor(n) % 10 == 0 && 48 * (LinesFor(n) / 10) >= 11 * n
    ensures n > 0 ==> 48 * (LinesFor(n) / 10 - 1) < 11 * n
    ensures n == 0 ==> LinesFor(n) == 0
  {
  }

  /** Two stop bits, a start bit, and the byte from its lowest bit. */
  lemma ByteOnLine(c: bv8)
    ensures ByteBits(c) ==
      [true, true, false, Has(c, 1), Has(c, 2), Has(c, 4), Has(c, 8), Has(c, 16), Has(c, 32), Has(c, 64), Has(c, 128)]
  {
    hide Has;
  }

  /** What goes out without data is ones; the last bit of each line is the status bit, on when idle and off for sync. */
  lemma WithoutData(key: bv8)
    requires IsKey(key)
    ensures JoinAll(key, OnlineFrame(key)) == [0x00, 0xfe, 0xfe, 0xfe, 0xfe, 0xbf, 0xfe, 0xfe, 0xfe, 0xfe]
    ensures JoinAll(key, OfflineFrame(key)) == [0x00, 0xff, 0xff, 0xff, 0xff, 0xbf, 0xff, 0xff, 0xff, 0xff]
  {
    hide JoinAll, Spread, OnlineFrame, OfflineFrame;
    PrecodedFrames(key);
    JoinSpread(key, IDLE_LINES);
    JoinSpread(key, SYNC_LINES);
  }

  // ----- resynchronisation -----

  /** An octet may begin a header if none of the 2, 4 or 8 bits that carry the stream is set. */
  lemma CleanIs(key: bv8, b: bv8)
    requires IsKey(key)
    ensures Clean(key, b) <==>
      !Has(b, 1) && !Has(b, 2) && (key != 3 ==> !Has(b, 4) && !Has(b, 8)) &&
      (key == 255 ==> !Has(b, 16) && !Has(b, 32) && !Has(b, 64) && !Has(b, 128))
  {
  }

  /** What Skip leaves is the end of what there was, and begins with the first octet that may begin a header. */
  lemma {:induction false} SkipsToClean(key: bv8, s: seq<bv8>) returns (i: nat)
    ensures i <= |s| && Skip(key, s) == s[i..] && (i < |s| ==> Clean(key, s[i]))
    ensures forall j :: 0 <= j < i ==> !Clean(key, s[j])
  {
    if s == [] || Clean(key, s[0]) {
      i := 0;
      assert s[0..] == s;
    } else {
      var k := SkipsToClean(key, s[1..]);
      i := k + 1;
      assert s[1..][k..] == s[i..];
      assert forall j :: 0 < j < i ==> s[j] == s[1..][j - 1];
    }
  }

  /** An octet that cannot begin a header begins none. */
  lemma DirtyStart(key: bv8, s: seq<bv8>)
    requires IsKey(key) && s != [] && !Clean(key, s[0])
    ensures !Header(key, s)
  {
  }

  /**
   * Resynchronisation finds the first header: what it leaves begins with one or is too short for one, and it has
   * skipped none. Having skipped something, it stops only where a header may begin, or at the end.
   */
  lemma {:induction false} FirstHeader(key: bv8, s: seq<bv8>) returns (i: nat)
    requires IsKey(key)
    ensures i <= |s| && Resync(key, s) == s[i..] && (|s[i..]| < NBytes(key) || Header(key, s[i..]))
    ensures forall j :: 0 <= j < i ==> !Header(key, s[j..])
    ensures i == 0 || i == |s| || Clean(key, s[i])
    decreases |s|
  {
    hide Header, Clean;
    i := 0;
    assert s[0..] == s;
    if !(|s| < NBytes(key) || Header(key, s)) {
      var k := SkipsToClean(key, s[1..]);
      var rest := s[k + 1..];
      assert s[1..][k..] == rest;
      var n := FirstHeader(key, rest);
      i := k + 1 + n;
      assert rest[n..] == s[i..];
      forall j | 0 <= j < i
        ensures !Header(key, s[j..])
      {
        if 0 < j <= k {
          assert s[j..][0] == s[1..][j - 1];
          DirtyStart(key, s[j..]);
        } else if k < j {
          assert s[j..] == rest[j - k - 1..];
        }
      }
    }
  }

  lemma {:induction false} SkipsNoise(key: bv8, noise: seq<bv8>, s: seq<bv8>)
    requires forall i :: 0 <= i < |noise| ==> !Clean(key, noise[i])
    ensures Skip(key, noise + s) == Skip(key, s)
  {
    hide Clean;
    if noise == [] {
      assert noise + s == s;
    } else {
      assert (noise + s)[0] == noise[0] && (noise + s)[1..] == noise[1..] + s;
      SkipsNoise(key, noise[1..], s);
    }
  }

  /** A decoder that holds nothing is as good as one that has not heard what does not look like a header. */
  lemma NoiseIsSkipped(key: bv8, u: Uart, noise: seq<bv8>, chunk: seq<bv8>)
    requires IsKey(key) && forall i :: 0 <= i < |noise| ==> !Clean(key, noise[i])
    ensures Decoded(key, Rx([], u), noise + chunk) == Decoded(key, Rx([], u), chunk)
    ensures Decoded(key, Rx([], u), noise) == (Rx([], u), [])
  {
    SkipsNoise(key, noise, chunk);
    SkipsNoise(key, noise, []);
    assert noise + [] == noise;
    hide Resync, Consume, Clean;
  }
}
