/**
 * V.110 end to end: what the encoder and the idle and sync frames put on the line, and what the decoder makes of it.
 */
module V110Link {
  import opened V110Frames
  import opened V110Lines
  import opened V110Stream
  import opened V110Codec

  /** What is sent: the bytes one call of the encoder takes, or a frame that fills a gap. */
  datatype Segment = User(data: seq<bv8>) | Idle | Sync

  function Octets(key: bv8, s: Segment): seq<bv8> {
    match s
    case User(data) => Spread(key, Matrix(data))
    case Idle => OnlineFrame(key)
    case Sync => OfflineFrame(key)
  }

  function SegmentLines(s: Segment): seq<bv8> {
    match s
    case User(data) => Matrix(data)
    case Idle => IDLE_LINES
    case Sync => SYNC_LINES
  }

  function Wire(key: bv8, segments: seq<Segment>): seq<bv8> {
    if segments == [] then [] else Wire(key, segments[..|segments| - 1]) + Octets(key, segments[|segments| - 1])
  }

  function AllLines(segments: seq<Segment>): seq<bv8> {
    if segments == [] then [] else AllLines(segments[..|segments| - 1]) + SegmentLines(segments[|segments| - 1])
  }

  /** The bytes of the users, in order. */
  function Bytes(segments: seq<Segment>): seq<bv8> {
    if segments == [] then []
    else
      var s := segments[|segments| - 1];
      Bytes(segments[..|segments| - 1]) + if s.User? then s.data else []
  }

  // ----- what is sent decodes to what was given -----

  /** Whole frames, each of which begins with a line of zeros. */
  predicate Aligned(lines: seq<bv8>) {
    |lines| % 10 == 0 && forall l :: 0 <= l < |lines| && l % 10 == 0 ==> lines[l] == 0
  }

  lemma MatrixAligned(data: seq<bv8>)
    ensures Aligned(Matrix(data))
  {
    hide PackPart;
  }

  lemma PlainAligned(s: Segment)
    ensures Aligned(SegmentLines(s))
  {
    if s.User? {
      MatrixAligned(s.data);
    }
  }

  lemma AlignedConcat(a: seq<bv8>, b: seq<bv8>)
    requires Aligned(a) && Aligned(b)
    ensures Aligned(a + b)
  {
    forall l | 0 <= l < |a + b| && l % 10 == 0
      ensures (a + b)[l] == 0
    {
      if l >= |a| {
        assert (a + b)[l] == b[l - |a|] && (l - |a|) % 10 == 0;
      }
    }
  }

  /** Lines that are all ones carry ones only. */
  lemma {:induction false} OnesLines(lines: seq<bv8>)
    requires forall l :: 0 <= l < |lines| && !Special(l) ==> lines[l] == 0xfe || lines[l] == 0xff
    ensures forall p :: 0 <= p < |DataBits(lines)| ==> DataBits(lines)[p]
  {
    hide DataBits, LineBits, Special;
    if lines == [] {
      NoLines();
    } else {
      var m := |lines| - 1;
      OnesLines(lines[..m]);
      OnesLine(lines[m]);
      assert lines == lines[..m] + [lines[m]];
      DataBitsNext(lines[..m], lines[m]);
    }
  }

  lemma OnesLine(x: bv8)
    ensures x == 0xfe || x == 0xff ==> LineBits(x) == [true, true, true, true, true, true]
  {
  }

  lemma SegmentDecodes(s: Segment)
    ensures FeedAll(IDLE, DataBits(SegmentLines(s))) == (IDLE, if s.User? then s.data else [])
  {
    hide FeedAll, DataBits, Matrix;
    if s.User? {
      MatrixDecodes(s.data);
    } else {
      OnesLines(SegmentLines(s));
      FeedOnes(DataBits(SegmentLines(s)));
    }
  }

  lemma {:induction false} LinesDecode(segments: seq<Segment>)
    ensures Aligned(AllLines(segments)) && FeedAll(IDLE, DataBits(AllLines(segments))) == (IDLE, Bytes(segments))
  {
    hide FeedAll, DataBits, SegmentLines, Aligned;
    if segments == [] {
      NothingDecodes();
    } else {
      var n := |segments| - 1;
      var a, b := AllLines(segments[..n]), SegmentLines(segments[n]);
      LinesDecode(segments[..n]);
      PlainAligned(segments[n]);
      SegmentDecodes(segments[n]);
      AlignedConcat(a, b);
      WholeFrames(a);
      DataBitsConcat(a, b);
      FeedConcat(IDLE, DataBits(a), DataBits(b));
    }
  }

  lemma WholeFrames(lines: seq<bv8>)
    requires Aligned(lines)
    ensures |lines| % 10 == 0
  {
  }

  lemma NothingDecodes()
    ensures Aligned([]) && DataBits([]) == [] && FeedAll(IDLE, []) == (IDLE, [])
  {
  }

  /** The octets on the line are the hunks of the lines. */
  lemma {:induction false} WireIsSpread(key: bv8, segments: seq<Segment>)
    requires IsKey(key)
    ensures Wire(key, segments) == Spread(key, AllLines(segments))
  {
    hide Spread, Octets, SegmentLines;
    if segments == [] {
      SpreadNone(key);
    } else {
      var n := |segments| - 1;
      WireIsSpread(key, segments[..n]);
      OctetsAreSpread(key, segments[n]);
      SpreadConcat(key, AllLines(segments[..n]), SegmentLines(segments[n]));
    }
  }

  lemma OctetsAreSpread(key: bv8, s: Segment)
    requires IsKey(key)
    ensures Octets(key, s) == Spread(key, SegmentLines(s))
  {
    hide OnlineFrame, OfflineFrame, Matrix, Spread;
    PrecodedFrames(key);
  }

  // ----- the decoder over a run of packets -----

  /** The stream so far in packets, and everything that was decoded. */
  function Run(key: bv8, chunks: seq<seq<bv8>>): (r: (Rx, seq<bv8>)) {
    if chunks == [] then (Rx([], IDLE), [])
    else
      var r := Run(key, chunks[..|chunks| - 1]);
      var t := Decoded(key, r.0, chunks[|chunks| - 1]);
      (t.0, r.1 + t.1)
  }

  function Joined(chunks: seq<seq<bv8>>): seq<bv8> {
    if chunks == [] then [] else Joined(chunks[..|chunks| - 1]) + chunks[|chunks| - 1]
  }

  /** What a decoder has done with a prefix of a stream of frames: the whole frames are decoded, the rest is kept. */
  function After(key: bv8, lines: seq<bv8>, s: seq<bv8>): (r: (Rx, seq<bv8>))
    requires Count(key, Frames(key, |s|)) <= |lines|
  {
    var n := Frames(key, |s|);
    var f := FeedAll(IDLE, DataBits(lines[..Count(key, n)]));
    (Rx(s[n..], f.0), f.1)
  }

  /** The number of whole frames in n octets. */
  function HowMany(key: bv8, n: nat): nat { if key == 3 then n / 40 else if key == 15 then n / 20 else n / 10 }

  lemma FramesAre(key: bv8, n: nat)
    requires IsKey(key)
    ensures var c := Frames(key, n);
      Size(key, Count(key, c)) == c && Count(key, c) == 10 * HowMany(key, n) && n - c < Size(key, 10) &&
      10 <= Size(key, 10) == 10 * NBytes(key)
  {
    FramesOf(key, n, HowMany(key, n));
  }

  lemma FramesOf(key: bv8, n: nat, f: nat)
    requires IsKey(key) && Size(key, 10 * f) <= n < Size(key, 10 * f) + Size(key, 10)
    ensures Frames(key, n) == Size(key, 10 * f) && Count(key, Frames(key, n)) == 10 * f && HowMany(key, n) == f
  {
    if key == 3 {
      Divide40(n, f);
    } else if key == 15 {
      Divide20(n, f);
    } else {
      Divide10(n, f);
    }
  }

  lemma Divide40(n: nat, f: nat)
    requires 40 * f <= n < 40 * f + 40
    ensures n / 40 == f && n % 40 == n - 40 * f && 40 * f / 4 == 10 * f
  {
  }

  lemma Divide20(n: nat, f: nat)
    requires 20 * f <= n < 20 * f + 20
    ensures n / 20 == f && n % 20 == n - 20 * f && 20 * f / 2 == 10 * f
  {
  }

  lemma Divide10(n: nat, f: nat)
    requires 10 * f <= n < 10 * f + 10
    ensures n / 10 == f && n % 10 == n - 10 * f
  {
  }

  lemma FramesAdd(key: bv8, c: nat, n: nat)
    requires IsKey(key) && Frames(key, c) == c
    ensures Frames(key, c + n) == c + Frames(key, n) &&
      Count(key, c + Frames(key, n)) == Count(key, c) + Count(key, Frames(key, n))
    ensures n < Size(key, 10) ==> Frames(key, n) == 0
  {
    FramesAre(key, c);
    FramesAre(key, n);
    SizeAdds(key, HowMany(key, c), HowMany(key, n));
    hide Frames, Count, HowMany, Size;
    FramesOf(key, c + n, HowMany(key, c) + HowMany(key, n));
    if n < Size(key, 10) {
      FramesOf(key, n, 0);
    }
  }

  lemma SizeAdds(key: bv8, f: nat, g: nat)
    ensures Size(key, 10 * (f + g)) == Size(key, 10 * f) + Size(key, 10 * g) && Size(key, 10 * 0) == 0
  {
  }

  lemma SpreadSlice(key: bv8, lines: seq<bv8>, a: nat, b: nat)
    requires a <= b <= |lines|
    ensures Size(key, a) <= Size(key, b) <= |Spread(key, lines)|
    ensures Spread(key, lines)[Size(key, a)..Size(key, b)] == Spread(key, lines[a..b])
  {
    assert lines == lines[..b] + lines[b..] && lines[..b] == lines[..a] + lines[a..b];
    SpreadConcat(key, lines[..b], lines[b..]);
    SpreadConcat(key, lines[..a], lines[a..b]);
    hide Spread;
  }

  predicate CleanStart(key: bv8, t: seq<bv8>) {
    forall p :: 0 <= p < NBytes(key) && p < |t| ==> Clean(key, t[p])
  }

  /** A frame on the line begins with a header, of which every octet is clean. */
  lemma HeaderAt(key: bv8, lines: seq<bv8>, s: seq<bv8>, l: nat)
    requires IsKey(key) && Aligned(lines) && s <= Spread(key, lines) && l % 10 == 0 && Size(key, l) <= |s|
    ensures CleanStart(key, s[Size(key, l)..])
  {
    hide Spread, Hunks, Clean;
    var t := s[Size(key, l)..];
    if t != [] {
      assert l < |lines| && lines[l] == 0;
      SpreadSlice(key, lines, l, l + 1);
      assert lines[l..l + 1] == [0];
      SpreadSingle(key, 0);
      CleanHunks(key);
      forall p | 0 <= p < NBytes(key) && p < |t|
        ensures Clean(key, t[p])
      {
        assert t[p] == Spread(key, lines)[Size(key, l)..Size(key, l + 1)][p];
      }
    }
  }

  lemma CleanHunks(key: bv8)
    requires IsKey(key)
    ensures forall p :: 0 <= p < NBytes(key) ==> Clean(key, Hunks(key, 0)[p])
  {
    LineHunks(key);
    hide Hunks;
  }

  lemma SpreadSingle(key: bv8, line: bv8)
    ensures Spread(key, [line]) == Hunks(key, line)
  {
    OneLine(key, line);
  }

  /** Nothing of an aligned stream is skipped. */
  lemma NoResync(key: bv8, t: seq<bv8>)
    requires IsKey(key) && CleanStart(key, t)
    ensures Skip(key, t) == t && Resync(key, t) == t
  {
    assert t != [] ==> Clean(key, t[0]);
    assert |t| >= NBytes(key) ==> Header(key, t);
  }

  lemma CountFits(key: bv8, lines: seq<bv8>, n: nat)
    requires IsKey(key) && n <= Size(key, |lines|)
    ensures Count(key, Frames(key, n)) <= |lines|
  {
    FramesAre(key, n);
  }

  /** One packet of an aligned stream. */
  lemma OneChunk(key: bv8, lines: seq<bv8>, s: seq<bv8>, chunk: seq<bv8>)
    requires IsKey(key) && Aligned(lines) && s + chunk <= Spread(key, lines)
    ensures Count(key, Frames(key, |s|)) <= |lines| && Count(key, Frames(key, |s + chunk|)) <= |lines|
    ensures var r := After(key, lines, s);
      var t := Decoded(key, r.0, chunk);
      After(key, lines, s + chunk) == (t.0, r.1 + t.1)
  {
    hide Spread, Frames, Count, FeedAll, DataBits, JoinAll, Consume, NBytes, Decoded, Aligned, Size, CleanStart;
    CountFits(key, lines, |s|);
    CountFits(key, lines, |s + chunk|);
    if chunk == [] {
      assert s + chunk == s;
      var r := After(key, lines, s);
      assert r.1 + [] == r.1;
      NoChunk(key, r.0);
    } else {
      NonemptyChunk(key, lines, s, chunk);
    }
  }

  lemma NonemptyChunk(key: bv8, lines: seq<bv8>, s: seq<bv8>, chunk: seq<bv8>)
    requires IsKey(key) && Aligned(lines) && s + chunk <= Spread(key, lines) && chunk != []
    requires Count(key, Frames(key, |s|)) <= |lines| && Count(key, Frames(key, |s + chunk|)) <= |lines|
    ensures var r := After(key, lines, s);
      var t := Decoded(key, r.0, chunk);
      After(key, lines, s + chunk) == (t.0, r.1 + t.1)
  {
    hide Spread, Frames, Count, FeedAll, DataBits, JoinAll, Consume, NBytes, Decoded, Aligned, Size, CleanStart;
    FramesAre(key, |s|);
    var c := Frames(key, |s|);
    var r := After(key, lines, s);
    Continues(s, chunk, c);
    HeaderAt(key, lines, s + chunk, Count(key, c));
    DecodedAligned(key, r.0, chunk);
    if |s[c..] + chunk| >= NBytes(key) {
      WholeFramesOnly(key, |s|);
      ConsumeNext(key, lines, s + chunk, c);
    } else {
      StillShort(key, |s|, |chunk|);
      assert r.1 + [] == r.1;
    }
  }

  lemma Continues(s: seq<bv8>, chunk: seq<bv8>, c: nat)
    requires c <= |s|
    ensures s[c..] + chunk == (s + chunk)[c..]
  {
  }

  lemma StillShort(key: bv8, n: nat, m: nat)
    requires IsKey(key) && n - Frames(key, n) + m < NBytes(key)
    ensures Frames(key, n + m) == Frames(key, n)
  {
    FramesAre(key, n);
    FramesOf(key, n + m, HowMany(key, n));
  }

  lemma NoChunk(key: bv8, rx: Rx)
    ensures Decoded(key, rx, []) == (rx, [])
  {
  }

  /** A packet that continues an aligned stream. */
  lemma DecodedAligned(key: bv8, rx: Rx, chunk: seq<bv8>)
    requires IsKey(key) && chunk != [] && CleanStart(key, rx.buf + chunk)
    ensures var t := rx.buf + chunk;
      Decoded(key, rx, chunk) == if |t| < NBytes(key) then (Rx(t, rx.u), []) else Consume(key, t, rx.u)
  {
    hide Skip, Resync, Consume;
    if rx.buf == [] {
      assert rx.buf + chunk == chunk;
    }
    NoResync(key, rx.buf + chunk);
  }

  lemma WholeFramesOnly(key: bv8, n: nat)
    requires IsKey(key)
    ensures Frames(key, Frames(key, n)) == Frames(key, n)
  {
    FramesAre(key, n);
    FramesOf(key, Frames(key, n), HowMany(key, n));
  }

  /** The whole frames after c octets. */
  lemma ConsumeNext(key: bv8, lines: seq<bv8>, s: seq<bv8>, c: nat)
    requires IsKey(key) && Aligned(lines) && s <= Spread(key, lines) && c <= |s| && Frames(key, c) == c
    requires Count(key, c) <= |lines| && Count(key, Frames(key, |s|)) <= |lines|
    ensures var f := FeedAll(IDLE, DataBits(lines[..Count(key, c)]));
      var t := Consume(key, s[c..], f.0);
      After(key, lines, s) == (t.0, f.1 + t.1)
  {
    hide Spread, Frames, Count, FeedAll, DataBits, JoinAll, Aligned, Size;
    var t := s[c..];
    var n := Frames(key, |t|);
    FramesAdd(key, c, |t|);
    PrefixSlice(s, Spread(key, lines), c, n);
    NextLines(key, lines, c, n, |s|);
    var a, b := Count(key, c), Count(key, c + n);
    FeedConcat(IDLE, DataBits(lines[..a]), DataBits(lines[a..b]));
  }

  /** The lines of n octets after c octets. */
  lemma NextLines(key: bv8, lines: seq<bv8>, c: nat, n: nat, m: nat)
    requires IsKey(key) && Frames(key, c) == c && c + n == Frames(key, m) && Count(key, c + n) <= |lines| &&
      c + n <= |Spread(key, lines)|
    ensures Count(key, c) <= Count(key, c + n) &&
      JoinAll(key, Spread(key, lines)[c..c + n]) == lines[Count(key, c)..Count(key, c + n)]
    ensures DataBits(lines[..Count(key, c + n)])
      == DataBits(lines[..Count(key, c)]) + DataBits(lines[Count(key, c)..Count(key, c + n)])
  {
    CountGrows(key, c, n);
    hide Spread, Frames, Count, DataBits, JoinAll, Size;
    FramesAre(key, c);
    FramesAre(key, m);
    var a, b := Count(key, c), Count(key, c + n);
    SpreadSlice(key, lines, a, b);
    JoinSpread(key, lines[a..b]);
    MoreDataBits(lines, a, b);
  }

  lemma MoreDataBits(lines: seq<bv8>, a: nat, b: nat)
    requires a <= b <= |lines| && a % 10 == 0
    ensures DataBits(lines[..b]) == DataBits(lines[..a]) + DataBits(lines[a..b])
  {
    hide DataBits;
    assert lines[..b] == lines[..a] + lines[a..b];
    DataBitsConcat(lines[..a], lines[a..b]);
  }

  lemma CountGrows(key: bv8, c: nat, n: nat)
    ensures Count(key, c) <= Count(key, c + n)
  {
  }

  lemma PrefixSlice(s: seq<bv8>, w: seq<bv8>, c: nat, n: nat)
    requires s <= w && c + n <= |s|
    ensures s[c..][..n] == w[c..c + n] && s[c..][n..] == s[c + n..]
  {
  }

  /** Whatever the cuts, the decoder has decoded the whole frames so far. */
  lemma {:induction false} RunIsAfter(key: bv8, lines: seq<bv8>, chunks: seq<seq<bv8>>)
    requires IsKey(key) && Aligned(lines) && Joined(chunks) <= Spread(key, lines)
    ensures Count(key, Frames(key, |Joined(chunks)|)) <= |lines| &&
      Run(key, chunks) == After(key, lines, Joined(chunks))
    decreases |chunks|
  {
    hide Spread, After, Decoded;
    if chunks == [] {
      AfterNothing(key, lines);
    } else {
      var n := |chunks| - 1;
      RunIsAfter(key, lines, chunks[..n]);
      OneChunk(key, lines, Joined(chunks[..n]), chunks[n]);
    }
  }

  lemma AfterNothing(key: bv8, lines: seq<bv8>)
    ensures Count(key, Frames(key, 0)) == 0 && After(key, lines, []) == (Rx([], IDLE), [])
  {
    assert lines[..0] == [];
  }

  /**
   * End to end: however the stream is cut into packets, what is decoded is what the users gave, and nothing is left
   * over.
   */
  lemma EndToEnd(key: bv8, segments: seq<Segment>, chunks: seq<seq<bv8>>)
    requires IsKey(key) && Joined(chunks) == Wire(key, segments)
    ensures Run(key, chunks) == (Rx([], IDLE), Bytes(segments))
  {
    hide Run, FeedAll, DataBits, Wire, Joined, AllLines;
    var lines := AllLines(segments);
    WireIsSpread(key, segments);
    LinesDecode(segments);
    RunIsAfter(key, lines, chunks);
    WholeFrames(lines);
    AllWhole(key, |lines|);
    assert lines[..|lines|] == lines;
    assert Joined(chunks)[Size(key, |lines|)..] == [];
  }

  lemma AllWhole(key: bv8, n: nat)
    requires IsKey(key) && n % 10 == 0
    ensures Frames(key, Size(key, n)) == Size(key, n) && Count(key, Size(key, n)) == n
  {
    assert n == n / 10 * 10;
  }

  /** While frames are still under way, what is decoded is a prefix of what the users gave. */
  lemma SoFar(key: bv8, segments: seq<Segment>, chunks: seq<seq<bv8>>)
    requires IsKey(key) && Joined(chunks) <= Wire(key, segments)
    ensures Run(key, chunks).1 <= Bytes(segments)
  {
    hide Run, FeedAll, DataBits, Wire, Joined, AllLines, Frames, Count, HowMany, Size, NBytes, Spread, Bytes, Aligned;
    var lines := AllLines(segments);
    WireIsSpread(key, segments);
    LinesDecode(segments);
    RunIsAfter(key, lines, chunks);
    var c := Count(key, Frames(key, |Joined(chunks)|));
    FramesAre(key, |Joined(chunks)|);
    assert lines == lines[..c] + lines[c..];
    DataBitsConcat(lines[..c], lines[c..]);
    FeedConcat(IDLE, DataBits(lines[..c]), DataBits(lines[c..]));
  }
}
