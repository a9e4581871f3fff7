/**
 * What the decoder hands up. It decodes into the packet that came in and cuts the packet to the number of bytes
 * decoded, so that a packet which completes more bytes than it has octets loses some.
 */
module V110Loss {
  import opened V110Frames
  import opened V110Lines
  import opened V110Stream
  import opened V110Codec
  import opened V110Link

  /** The packets handed up, one after the other: none is longer than the packet that came in. */
  function Handed(key: bv8, chunks: seq<seq<bv8>>): (s: seq<bv8>) {
    if chunks == [] then []
    else
      var n := |chunks| - 1;
      Handed(key, chunks[..n]) + Trimmed(chunks[n], Decoded(key, Run(key, chunks[..n]).0, chunks[n]).1)
  }

  /** No packet gives more bytes than it is long. */
  predicate Fits(key: bv8, chunks: seq<seq<bv8>>) {
    forall i :: 0 <= i < |chunks| ==> |Decoded(key, Run(key, chunks[..i]).0, chunks[i]).1| <= |chunks[i]|
  }

  /** Everything that was decoded is handed up exactly if no packet is too short for what it completes. */
  lemma {:induction false} HandedIffFits(key: bv8, chunks: seq<seq<bv8>>)
    ensures |Handed(key, chunks)| <= |Run(key, chunks).1|
    ensures Handed(key, chunks) == Run(key, chunks).1 <==> Fits(key, chunks)
    decreases |chunks|
  {
    hide Decoded, Trimmed, Fits;
    if chunks == [] {
      FitsNone(key);
    } else {
      var n := |chunks| - 1;
      var front := chunks[..n];
      HandedIffFits(key, front);
      FitsNext(key, chunks);
      var d := Decoded(key, Run(key, front).0, chunks[n]).1;
      TrimmedIff(chunks[n], d);
      BothEqual(Handed(key, front), Trimmed(chunks[n], d), Run(key, front).1, d);
    }
  }

  lemma FitsNone(key: bv8)
    ensures Fits(key, [])
  {
  }

  lemma FitsNext(key: bv8, chunks: seq<seq<bv8>>)
    requires chunks != []
    ensures var n := |chunks| - 1;
      Fits(key, chunks) <==>
        Fits(key, chunks[..n]) &&
        |Decoded(key, Run(key, chunks[..n]).0, chunks[n]).1| <= |chunks[n]|
  {
    hide Decoded, Run;
    var front := chunks[..|chunks| - 1];
    assert forall i :: 0 <= i < |front| ==> front[..i] == chunks[..i] && front[i] == chunks[i];
  }

  lemma TrimmedIff(chunk: seq<bv8>, d: seq<bv8>)
    ensures |Trimmed(chunk, d)| <= |d| && (Trimmed(chunk, d) == d <==> |d| <= |chunk|)
  {
  }

  lemma BothEqual(h: seq<bv8>, t: seq<bv8>, r: seq<bv8>, d: seq<bv8>)
    requires |h| <= |r| && |t| <= |d|
    ensures h + t == r + d <==> h == r && t == d
  {
    if h + t == r + d {
      assert |h + t| == |r + d|;
      assert h == (h + t)[..|h|] && r == (r + d)[..|h|];
      assert t == (h + t)[|h|..] && d == (r + d)[|h|..];
    }
  }

  /** A packet of six octets or more is never too short. */
  lemma LongPacketFits(key: bv8, rx: Rx, chunk: seq<bv8>)
    requires IsKey(key) && Sound(rx.u) && |rx.buf| < Size(key, 10) && |chunk| >= 6
    ensures |Decoded(key, rx, chunk).1| <= |chunk|
  {
    var s := if rx.buf == [] then Skip(key, chunk) else chunk;
    if s != [] {
      var t := Resync(key, rx.buf + s);
      ResyncShorter(key, rx.buf + s);
      var lines := JoinAll(key, t[..Frames(key, |t|)]);
      DecodedCount(rx.u, DataBits(lines));
      FrameBits(key, |rx.buf|, |chunk|, |t|);
    }
    hide FeedAll, DataBits, Resync, Skip, JoinAll;
  }

  /** Less than a frame is ever kept back. */
  lemma DecodedShort(key: bv8, rx: Rx, chunk: seq<bv8>)
    requires IsKey(key) && Sound(rx.u) && |rx.buf| < Size(key, 10)
    ensures var r := Decoded(key, rx, chunk).0; Sound(r.u) && |r.buf| < Size(key, 10)
  {
    hide FeedAll, DataBits, Resync, Skip, JoinAll;
    FramesAre(key, 0);
    var s := if rx.buf == [] then Skip(key, chunk) else chunk;
    if s != [] {
      var t := Resync(key, rx.buf + s);
      FramesAre(key, |t|);
      DecodedCount(rx.u, DataBits(JoinAll(key, t[..Frames(key, |t|)])));
    }
  }

  lemma {:induction false} RunShort(key: bv8, chunks: seq<seq<bv8>>)
    requires IsKey(key)
    ensures var r := Run(key, chunks).0; Sound(r.u) && |r.buf| < Size(key, 10)
  {
    hide Decoded;
    if chunks != [] {
      RunShort(key, chunks[..|chunks| - 1]);
      DecodedShort(key, Run(key, chunks[..|chunks| - 1]).0, chunks[|chunks| - 1]);
    }
  }

  /** Packets of six octets or more, whatever they carry, lose nothing of what was decoded. */
  lemma LongPacketsLoseNothing(key: bv8, chunks: seq<seq<bv8>>)
    requires IsKey(key) && forall i :: 0 <= i < |chunks| ==> |chunks[i]| >= 6
    ensures Handed(key, chunks) == Run(key, chunks).1
  {
    hide Run, Handed, Decoded, Sound, Size;
    forall i | 0 <= i < |chunks|
      ensures |Decoded(key, Run(key, chunks[..i]).0, chunks[i]).1| <= |chunks[i]|
    {
      RunShort(key, chunks[..i]);
      LongPacketFits(key, Run(key, chunks[..i]).0, chunks[i]);
    }
    HandedIffFits(key, chunks);
  }

  lemma {:induction false} ResyncShorter(key: bv8, s: seq<bv8>)
    ensures |Resync(key, s)| <= |s|
    decreases |s|
  {
    if !(|s| < NBytes(key) || Header(key, s)) {
      ResyncShorter(key, Skip(key, s[1..]));
    }
  }

  /**
   * So few bits that at nine a byte, and eight left over from before, they are no more bytes than the packet has
   * octets.
   */
  lemma FrameBits(key: bv8, buf: nat, chunk: nat, t: nat)
    requires IsKey(key) && buf < Size(key, 10) && 6 <= chunk && t <= buf + chunk
    ensures 6 * Slot(Count(key, Frames(key, t))) + 8 < 9 * chunk + 9
  {
    FramesAre(key, t);
    var lines := Count(key, Frames(key, t));
    var f := lines / 10;
    assert lines == 10 * f && Slot(lines) == 8 * f;
    assert key == 3 ==> 40 * f <= 39 + chunk;
    assert key == 15 ==> 20 * f <= 19 + chunk;
    assert key == 255 ==> 10 * f <= 9 + chunk;
    assert 10 * f <= 9 + chunk;
    if chunk <= 10 {
      assert f <= 1;
    }
  }

  // ----- how many bytes a number of frames completes -----

  /** The frames of a segment. */
  function SegmentFrames(s: Segment): nat { if s.User? then LinesFor(|s.data|) / 10 else 1 }

  /** The bytes that the first f frames of a segment complete: eleven of 48 bits a byte. */
  function SegmentDone(s: Segment, f: nat): nat {
    if s.User? then (if 48 * f / 11 < |s.data| then 48 * f / 11 else |s.data|) else 0
  }

  function FrameCount(segments: seq<Segment>): nat {
    if segments == [] then 0 else FrameCount(segments[..|segments| - 1]) + SegmentFrames(segments[|segments| - 1])
  }

  /** The bytes of the users that the first f frames of a stream complete. */
  function Done(segments: seq<Segment>, f: nat): nat {
    if segments == [] then 0
    else
      var front := segments[..|segments| - 1];
      if f <= FrameCount(front) then Done(front, f)
      else |Bytes(front)| + SegmentDone(segments[|segments| - 1], f - FrameCount(front))
  }

  lemma {:induction false} PartDecodes(data: seq<bv8>, q: nat)
    ensures |FeedAll(IDLE, BitsUpTo(data, q)).1| == if q / 11 < |data| then q / 11 else |data|
  {
    hide FeedAll, Feed, BitAt;
    var i := q / 11;
    if i < |data| {
      FeedBytes(data, i);
      FeedPart(data[i], q % 11);
      PartOfByte(data, i, q % 11);
      FeedConcat(IDLE, BitsUpTo(data, 11 * i), ByteBits(data[i])[..q % 11]);
    } else {
      FeedBytes(data, |data|);
      assert data[..|data|] == data;
      FilledUp(data, q);
    }
  }

  lemma PartOfByte(data: seq<bv8>, i: nat, r: nat)
    requires i < |data| && r < 11
    ensures BitsUpTo(data, 11 * i + r) == BitsUpTo(data, 11 * i) + ByteBits(data[i])[..r]
  {
    hide BitAt, FrameBit;
    ByteOf(data, i);
    assert BitsUpTo(data, 11 * i + r) == BitsUpTo(data, 11 * (i + 1))[..11 * i + r];
  }

  lemma SegmentPrefix(s: Segment, g: nat)
    requires g <= SegmentFrames(s)
    ensures |SegmentLines(s)| == 10 * SegmentFrames(s)
    ensures |FeedAll(IDLE, DataBits(SegmentLines(s)[..10 * g])).1| == SegmentDone(s, g)
  {
    if s.User? {
      UserPrefix(s.data, g);
    } else {
      PlainPrefix(SegmentLines(s), g);
    }
    hide FeedAll, DataBits, Matrix, LinesFor;
  }

  lemma UserPrefix(data: seq<bv8>, g: nat)
    requires 10 * g <= LinesFor(|data|)
    ensures LinesFor(|data|) % 10 == 0
    ensures |FeedAll(IDLE, DataBits(Matrix(data)[..10 * g])).1| == if 48 * g / 11 < |data| then 48 * g / 11 else |data|
  {
    hide FeedAll, DataBits, Matrix, Slot, BitsUpTo;
    MatrixBits(data, 10 * g);
    PartDecodes(data, 48 * g);
    SlotOfFrames(g);
  }

  lemma PlainPrefix(lines: seq<bv8>, g: nat)
    requires (lines == IDLE_LINES || lines == SYNC_LINES) && g <= 1
    ensures |FeedAll(IDLE, DataBits(lines[..10 * g])).1| == 0
  {
    hide FeedAll, DataBits;
    OnesLines(lines[..10 * g]);
    FeedOnes(DataBits(lines[..10 * g]));
  }

  lemma SlotOfFrames(g: nat)
    ensures 6 * Slot(10 * g) == 48 * g
  {
    assert 10 * g / 10 == g && 10 * g % 10 == 0;
  }

  lemma {:induction false} LineCount(segments: seq<Segment>)
    ensures |AllLines(segments)| == 10 * FrameCount(segments)
  {
    hide SegmentLines, SegmentFrames;
    if segments != [] {
      var n := |segments| - 1;
      LineCount(segments[..n]);
      SegmentPrefix(segments[n], 0);
    }
  }

  /** The first f frames of a stream decode to as many bytes as they complete. */
  lemma {:induction false} FramesDecode(segments: seq<Segment>, f: nat)
    requires f <= FrameCount(segments)
    ensures 10 * f <= |AllLines(segments)|
    ensures |FeedAll(IDLE, DataBits(AllLines(segments)[..10 * f])).1| == Done(segments, f)
    decreases |segments|
  {
    LineCount(segments);
    hide FeedAll, DataBits, SegmentLines, SegmentDone, SegmentFrames, Aligned;
    if segments == [] {
      NothingDecodes();
      assert AllLines(segments)[..10 * f] == [];
    } else {
      var n := |segments| - 1;
      var front, last := segments[..n], segments[n];
      var a, b := AllLines(front), SegmentLines(last);
      LineCount(front);
      if f <= FrameCount(front) {
        FramesDecode(front, f);
        assert AllLines(segments)[..10 * f] == a[..10 * f];
      } else {
        var g := f - FrameCount(front);
        LinesDecode(front);
        SegmentPrefix(last, g);
        assert AllLines(segments)[..10 * f] == a + b[..10 * g];
        DataBitsConcat(a, b[..10 * g]);
        FeedConcat(IDLE, DataBits(a), DataBits(b[..10 * g]));
      }
    }
  }

  // ----- exactly when bytes are lost -----

  /** The bytes that are complete once n octets of the stream are here. */
  function DoneAt(key: bv8, segments: seq<Segment>, n: nat): nat { Done(segments, HowMany(key, n)) }

  /** No packet completes more bytes than it has octets: a matter of what is sent and where the stream is cut. */
  predicate Roomy(key: bv8, segments: seq<Segment>, chunks: seq<seq<bv8>>) {
    forall i :: 0 <= i < |chunks| ==>
      DoneAt(key, segments, |Joined(chunks[..i + 1])|) <= DoneAt(key, segments, |Joined(chunks[..i])|) + |chunks[i]|
  }

  lemma DecodedSoFar(key: bv8, segments: seq<Segment>, chunks: seq<seq<bv8>>)
    requires IsKey(key) && Joined(chunks) <= Wire(key, segments)
    ensures |Run(key, chunks).1| == DoneAt(key, segments, |Joined(chunks)|)
  {
    hide Run, FeedAll, DataBits, Wire, Joined, AllLines, Frames, Count, HowMany, Done, Spread;
    var lines, n := AllLines(segments), |Joined(chunks)|;
    WireIsSpread(key, segments);
    LinesDecode(segments);
    LineCount(segments);
    RunIsAfter(key, lines, chunks);
    FramesAre(key, n);
    FramesDecode(segments, HowMany(key, n));
  }

  lemma {:induction false} JoinedPrefix(chunks: seq<seq<bv8>>, i: nat)
    requires i <= |chunks|
    ensures Joined(chunks[..i]) <= Joined(chunks)
    decreases |chunks|
  {
    if i < |chunks| {
      JoinedPrefix(chunks[..|chunks| - 1], i);
      assert chunks[..|chunks| - 1][..i] == chunks[..i];
    } else {
      assert chunks[..i] == chunks;
    }
  }

  lemma OneMore(key: bv8, segments: seq<Segment>, chunks: seq<seq<bv8>>, i: nat)
    requires IsKey(key) && Joined(chunks) <= Wire(key, segments) && i < |chunks|
    ensures DoneAt(key, segments, |Joined(chunks[..i + 1])|)
         == DoneAt(key, segments, |Joined(chunks[..i])|) + |Decoded(key, Run(key, chunks[..i]).0, chunks[i]).1|
  {
    hide DoneAt, Joined, Wire, Decoded;
    JoinedPrefix(chunks, i);
    JoinedPrefix(chunks, i + 1);
    DecodedSoFar(key, segments, chunks[..i]);
    DecodedSoFar(key, segments, chunks[..i + 1]);
    assert chunks[..i + 1][..i] == chunks[..i] && chunks[..i + 1][i] == chunks[i];
  }

  lemma RoomyIffFits(key: bv8, segments: seq<Segment>, chunks: seq<seq<bv8>>)
    requires IsKey(key) && Joined(chunks) <= Wire(key, segments)
    ensures Fits(key, chunks) <==> Roomy(key, segments, chunks)
  {
    hide Run, Decoded, DoneAt, Joined, Wire;
    forall i | 0 <= i < |chunks|
      ensures DoneAt(key, segments, |Joined(chunks[..i + 1])|)
           == DoneAt(key, segments, |Joined(chunks[..i])|) + |Decoded(key, Run(key, chunks[..i]).0, chunks[i]).1|
    {
      OneMore(key, segments, chunks, i);
    }
    if Fits(key, chunks) {
      forall i | 0 <= i < |chunks|
        ensures DoneAt(key, segments, |Joined(chunks[..i + 1])|) <= DoneAt(key, segments, |Joined(chunks[..i])|) +
          |chunks[i]|
      {
        assert |Decoded(key, Run(key, chunks[..i]).0, chunks[i]).1| <= |chunks[i]|;
      }
    }
    if Roomy(key, segments, chunks) {
      forall i | 0 <= i < |chunks|
        ensures |Decoded(key, Run(key, chunks[..i]).0, chunks[i]).1| <= |chunks[i]|
      {
        assert DoneAt(key, segments, |Joined(chunks[..i + 1])|) <= DoneAt(key, segments, |Joined(chunks[..i])|) +
          |chunks[i]|;
      }
    }
  }

  /**
   * Everything is handed up if and only if no packet completes more bytes than it has octets, which can be told from
   * the segments and the cuts alone.
   */
  lemma HandedIffRoomy(key: bv8, segments: seq<Segment>, chunks: seq<seq<bv8>>)
    requires IsKey(key) && Joined(chunks) <= Wire(key, segments)
    ensures Handed(key, chunks) == Run(key, chunks).1 <==> Roomy(key, segments, chunks)
    ensures Joined(chunks) == Wire(key, segments) ==>
      (Handed(key, chunks) == Bytes(segments) <==> Roomy(key, segments, chunks))
  {
    hide Handed, Run, Decoded, DoneAt, Joined, Wire, Bytes;
    HandedIffFits(key, chunks);
    RoomyIffFits(key, segments, chunks);
    hide Fits, Roomy;
    if Joined(chunks) == Wire(key, segments) {
      EndToEnd(key, segments, chunks);
    }
  }

  // ----- the shortest packets that are safe -----

  /** A frame completes five bytes at most. */
  lemma {:induction false} FiveAtMost(segments: seq<Segment>, f: nat)
    requires f < FrameCount(segments)
    ensures Done(segments, f) <= Done(segments, f + 1) <= Done(segments, f) + 5
    decreases |segments|
  {
    var front, last := segments[..|segments| - 1], segments[|segments| - 1];
    if f < FrameCount(front) {
      FiveAtMost(front, f);
    } else {
      if f == FrameCount(front) {
        AllDone(front);
      }
      SegmentFive(last, f - FrameCount(front));
    }
  }

  lemma SegmentFive(s: Segment, g: nat)
    ensures SegmentDone(s, g) <= SegmentDone(s, g + 1) <= SegmentDone(s, g) + 5
    ensures SegmentDone(s, 0) == 0 && SegmentDone(s, SegmentFrames(s)) == if s.User? then |s.data| else 0
  {
    Elevenths(g);
    if s.User? {
      AllFrames(|s.data|);
    }
    hide LinesFor;
  }

  lemma Elevenths(g: nat)
    ensures 48 * g / 11 <= 48 * (g + 1) / 11 <= 48 * g / 11 + 5
  {
    var q, r := 48 * g / 11, 48 * g % 11;
    assert 48 * (g + 1) == 11 * (q + 4) + (r + 4);
  }

  lemma AllFrames(n: nat)
    ensures 48 * (LinesFor(n) / 10) / 11 >= n
  {
    var f := LinesFor(n) / 10;
    assert n > 0 ==> f == (11 * n - 1) / 48 + 1;
    assert 48 * f >= 11 * n;
  }

  lemma LastBytes(segments: seq<Segment>)
    ensures |Bytes(segments)| ==
      if segments == [] then 0
      else
        var s := segments[|segments| - 1];
        |Bytes(segments[..|segments| - 1])| + if s.User? then |s.data| else 0
  {
  }

  lemma {:induction false} AllDone(segments: seq<Segment>)
    ensures Done(segments, FrameCount(segments)) == |Bytes(segments)|
  {
    hide SegmentDone, SegmentFrames, Bytes;
    LastBytes(segments);
    if segments != [] {
      var n := |segments| - 1;
      AllDone(segments[..n]);
      SegmentFive(segments[n], 0);
    }
  }

  lemma {:induction false} ManyFrames(segments: seq<Segment>, f: nat, g: nat)
    requires f + g <= FrameCount(segments)
    ensures Done(segments, f) <= Done(segments, f + g) <= Done(segments, f) + 5 * g
  {
    if g > 0 {
      ManyFrames(segments, f, g - 1);
      FiveAtMost(segments, f + g - 1);
    }
  }

  /** So many octets complete g frames at most: the first one ends at once, all others take ten octets or more. */
  lemma FramesEnded(key: bv8, n: nat, c: nat)
    requires IsKey(key)
    ensures HowMany(key, n) <= HowMany(key, n + c)
    ensures HowMany(key, n + c) > HowMany(key, n) ==> 10 * (HowMany(key, n + c) - HowMany(key, n)) <= c + 9
  {
  }

  lemma StepOf(chunks: seq<seq<bv8>>, i: nat)
    requires i < |chunks|
    ensures |Joined(chunks[..i + 1])| == |Joined(chunks[..i])| + |chunks[i]|
  {
    assert chunks[..i + 1][..i] == chunks[..i] && chunks[..i + 1][i] == chunks[i];
  }

  /** Packets of five octets or more of what an encoder sends lose nothing. */
  lemma FiveOctetsSuffice(key: bv8, segments: seq<Segment>, chunks: seq<seq<bv8>>)
    requires IsKey(key) && Joined(chunks) <= Wire(key, segments) && forall i :: 0 <= i < |chunks| ==> |chunks[i]| >= 5
    ensures Roomy(key, segments, chunks)
  {
    hide Joined, Wire, Done, HowMany, FrameCount;
    forall i | 0 <= i < |chunks|
      ensures DoneAt(key, segments, |Joined(chunks[..i + 1])|) <= DoneAt(key, segments, |Joined(chunks[..i])|) +
        |chunks[i]|
    {
      JoinedPrefix(chunks, i + 1);
      StepOf(chunks, i);
      var n, c := |Joined(chunks[..i])|, |chunks[i]|;
      FramesEnded(key, n, c);
      FramesSent(key, segments, n + c);
      ManyFrames(segments, HowMany(key, n), HowMany(key, n + c) - HowMany(key, n));
    }
  }

  lemma FramesSent(key: bv8, segments: seq<Segment>, n: nat)
    requires IsKey(key) && n <= |Wire(key, segments)|
    ensures HowMany(key, n) <= FrameCount(segments)
  {
    hide Wire, Spread, AllLines, FrameCount;
    WireIsSpread(key, segments);
    LineCount(segments);
  }

  /** The bytes that the last frame of n bytes completes. */
  function InLastFrame(n: nat): int
    requires n > 0
  {
    n - 48 * (LinesFor(n) / 10 - 1) / 11
  }

  lemma TwoChunks(a: seq<bv8>, b: seq<bv8>)
    ensures Joined([]) == [] && Joined([a]) == a && Joined([a, b]) == a + b
  {
    var one, two := [a], [a, b];
    assert one[..0] == [] && two[..1] == one;
    assert Joined(one) == Joined(one[..0]) + one[0] == [] + a == a;
    assert Joined(two) == Joined(two[..1]) + two[1];
  }

  lemma OneUser(key: bv8, data: seq<bv8>)
    requires IsKey(key) && data != []
    ensures var segments, f := [User(data)], LinesFor(|data|) / 10;
      && f > 0 && |Wire(key, segments)| == Size(key, 10 * f) && Bytes(segments) == data
      && Done(segments, 0) == 0 && Done(segments, f) == |data| && Done(segments, f - 1) == |data| - InLastFrame(|data|)
  {
    var segments, f := [User(data)], LinesFor(|data|) / 10;
    hide Matrix, Spread, LinesFor;
    assert segments[..0] == [];
    assert [] + Spread(key, Matrix(data)) == Spread(key, Matrix(data)) && [] + data == data;
    LastFrame(|data|);
    SegmentFive(segments[0], 0);
  }

  lemma LastFrame(n: nat)
    requires n > 0
    ensures var f := LinesFor(n) / 10; f > 0 && LinesFor(n) == 10 * f && 48 * (f - 1) / 11 < n
  {
  }

  /** The last octets of f frames, fewer than a frame, are in the last one. */
  lemma FrameEnds(key: bv8, f: nat, alone: nat)
    requires IsKey(key) && f > 0 && 0 < alone < Size(key, 10)
    ensures 0 < alone <= Size(key, 10 * f) && HowMany(key, 0) == 0
    ensures HowMany(key, Size(key, 10 * f)) == f && HowMany(key, Size(key, 10 * f) - alone) == f - 1
    ensures 10 * (f - 1) <= Size(key, 10 * f) - alone
  {
    FramesOf(key, Size(key, 10 * f), f);
    FramesOf(key, Size(key, 10 * f) - alone, f - 1);
  }

  /**
   * When the last few octets of a user's frames come alone, bytes are lost exactly if the last frame has more than
   * that.
   */
  lemma LastOctetsAlone(key: bv8, data: seq<bv8>, alone: nat)
    requires IsKey(key) && data != [] && 0 < alone < Size(key, 10)
    ensures var s := Wire(key, [User(data)]);
      alone <= |s| && (Handed(key, [s[..|s| - alone], s[|s| - alone..]]) == data <==> InLastFrame(|data|) <= alone)
  {
    var segments := [User(data)];
    var s := Wire(key, segments);
    hide Wire, Run, Handed, Bytes, Joined, HowMany, Done, LinesFor, Size;
    FramesAre(key, 0);
    OneUser(key, data);
    var f := LinesFor(|data|) / 10;
    FrameEnds(key, f, alone);
    var a, b := s[..|s| - alone], s[|s| - alone..];
    assert s == a + b;
    TwoChunks(a, b);
    HandedIffRoomy(key, segments, [a, b]);
    assert [a, b][..0] == [] && [a, b][..1] == [a] && [a, b][..2] == [a, b];
  }

  /** However a stream is cut into packets of at least k octets, all of it is handed up. */
  ghost predicate Safe(key: bv8, k: nat) {
    forall segments, chunks :: Joined(chunks) == Wire(key, segments) && (forall c :: c in chunks ==> |c| >= k) ==>
      Handed(key, chunks) == Bytes(segments)
  }

  /** Five octets is the length from which on packets are safe: shorter ones may lose bytes. */
  lemma FiveIsLeast(key: bv8, k: nat)
    requires IsKey(key)
    ensures Safe(key, k) <==> k >= 5
  {
    hide Handed, Joined, Wire, Bytes, Roomy, LinesFor;
    if k >= 5 {
      forall segments, chunks | Joined(chunks) == Wire(key, segments) && forall c :: c in chunks ==> |c| >= k
        ensures Handed(key, chunks) == Bytes(segments)
      {
        FiveOctetsSuffice(key, segments, chunks);
        HandedIffRoomy(key, segments, chunks);
      }
    } else {
      var a, b := FourLose(key, if k == 0 then 1 else k);
      assert forall c :: c in [a, b] ==> |c| >= k;
    }
  }

  /** Thirteen bytes whose last few octets come alone. */
  lemma FourLose(key: bv8, alone: nat) returns (a: seq<bv8>, b: seq<bv8>)
    requires IsKey(key) && 0 < alone <= 4
    ensures |a| >= 4 && |b| == alone && Joined([a, b]) == Wire(key, [User(Thirteen())])
    ensures Handed(key, [a, b]) != Bytes([User(Thirteen())])
  {
    hide Handed, Joined, Wire, Bytes, LinesFor;
    var data := Thirteen();
    LastOctetsAlone(key, data, alone);
    OneUser(key, data);
    var s := Wire(key, [User(data)]);
    a, b := s[..|s| - alone], s[|s| - alone..];
    TwoChunks(a, b);
    assert s == a + b;
  }

  /** Thirteen bytes take three frames, of which the last completes five. */
  function Thirteen(): (data: seq<bv8>)
    ensures |data| == 13 && LinesFor(|data|) == 30 && InLastFrame(|data|) == 5
  {
    [0, 1, 2, 3, 4, 5, 6, 7, 8, 9, 10, 11, 12]
  }

  // ----- octets of any kind -----

  function Falses(n: nat): (s: seq<bool>)
    ensures |s| == n
  {
    seq(n, _ => false)
  }

  /** In a row of zeros every nine are a byte: a start bit and eight data bits. */
  lemma {:induction false} EveryNinth(n: nat)
    ensures var r := FeedAll(IDLE, Falses(n));
      |r.1| == n / 9 && r.0.introducer == (n % 9 > 0) && r.0.place == if n % 9 > 0 then n % 9 - 1 else 0
  {
    hide Put;
    if n > 0 {
      EveryNinth(n - 1);
      assert Falses(n)[..n - 1] == Falses(n - 1);
    }
  }

  /** Lines of zeros, in which even the bits of the special lines are zero. */
  function ZeroLines(n: nat): (s: seq<bv8>)
    ensures |s| == n
  {
    seq(n, _ => 0)
  }

  lemma {:induction false} ZeroBits(n: nat)
    ensures DataBits(ZeroLines(n)) == Falses(6 * Slot(n))
  {
    hide Slot;
    if n > 0 {
      ZeroBits(n - 1);
      SlotNext(n - 1);
      assert ZeroLines(n) == ZeroLines(n - 1) + [0];
      DataBitsNext(ZeroLines(n - 1), 0);
      NoBitSet();
    } else {
      NoSlot();
    }
  }

  lemma NoSlot()
    ensures Slot(0) == 0
  {
  }

  lemma NoBitSet()
    ensures LineBits(0) == Falses(6)
  {
  }

  /** So many frames of zeros have been decoded after n octets of them. */
  lemma ZerosDecoded(key: bv8, chunks: seq<seq<bv8>>, f: nat)
    requires IsKey(key) && f <= 3 && Joined(chunks) <= Spread(key, ZeroLines(30)) && HowMany(key, |Joined(chunks)|) == f
    ensures |Run(key, chunks).1| == 48 * f / 9
  {
    hide Run, FeedAll, DataBits, Joined, Frames, Count, HowMany, Spread, Slot;
    var lines := ZeroLines(30);
    RunIsAfter(key, lines, chunks);
    FramesAre(key, |Joined(chunks)|);
    assert lines[..10 * f] == ZeroLines(10 * f);
    ZeroBits(10 * f);
    SlotOfFrames(f);
    EveryNinth(48 * f);
  }

  /** Whatever the octets, packets of at least k octets lose nothing of what is decoded. */
  ghost predicate SafeForAny(key: bv8, k: nat) {
    forall chunks: seq<seq<bv8>> :: (forall c :: c in chunks ==> |c| >= k) ==> Handed(key, chunks) == Run(key, chunks).1
  }

  /** For octets of any kind six is the length from which on packets are safe. */
  lemma SixIsLeast(key: bv8, k: nat)
    requires IsKey(key)
    ensures SafeForAny(key, k) <==> k >= 6
  {
    hide Handed, Run;
    if k >= 6 {
      forall chunks: seq<seq<bv8>> | forall c :: c in chunks ==> |c| >= k
        ensures Handed(key, chunks) == Run(key, chunks).1
      {
        LongPacketsLoseNothing(key, chunks);
      }
    } else {
      var a, b := FiveLose(key);
      assert forall c :: c in [a, b] ==> |c| >= k;
    }
  }

  /** Three frames of zeros, of which the last completes six bytes, and its last five octets come alone. */
  lemma FiveLose(key: bv8) returns (a: seq<bv8>, b: seq<bv8>)
    requires IsKey(key)
    ensures |a| >= 5 && |b| == 5 && Handed(key, [a, b]) != Run(key, [a, b]).1
  {
    hide Handed, Run, Joined, Decoded, Spread, HowMany, Fits;
    var s := Spread(key, ZeroLines(30));
    FramesAre(key, 0);
    FrameEnds(key, 3, 5);
    a, b := s[..|s| - 5], s[|s| - 5..];
    assert s == a + b;
    TwoChunks(a, b);
    ZerosDecoded(key, [a], 2);
    ZerosDecoded(key, [a, b], 3);
    NextPacket(key, a, b);
    HandedIffFits(key, [a, b]);
  }

  lemma NextPacket(key: bv8, a: seq<bv8>, b: seq<bv8>)
    ensures Fits(key, [a, b]) ==> |Run(key, [a, b]).1| <= |Run(key, [a]).1| + |b|
  {
    hide Decoded;
    var chunks := [a, b];
    assert chunks[..1] == [a] && chunks[1] == b;
  }
}
