/** A V.110 stream: the encoder and the decoder with their buffers (drivers/isdn/isdn_v110.c). */
module V110Codec {
  import opened V110Frames
  import opened V110Lines
  import opened V110Stream

  // ----- what one call of the decoder does, on values -----

  /** A stream octet whose used bits are all zero: part of the first line of a frame. */
  predicate Clean(key: bv8, b: bv8) { b & key == 0 }

  /** From the first octet on that may begin a header. */
  function Skip(key: bv8, s: seq<bv8>): (t: seq<bv8>)
    ensures |t| <= |s|
  {
    if s == [] || Clean(key, s[0]) then s else Skip(key, s[1..])
  }

  predicate Header(key: bv8, s: seq<bv8>) {
    |s| >= NBytes(key) && forall i :: 0 <= i < NBytes(key) ==> Clean(key, s[i])
  }

  /** From the first complete header on, or what may still become one. */
  function Resync(key: bv8, s: seq<bv8>): (t: seq<bv8>)
    decreases |s|
  {
    if |s| < NBytes(key) || Header(key, s) then s else Resync(key, Skip(key, s[1..]))
  }

  /** So many of n octets are whole frames. */
  function Frames(key: bv8, n: nat): (c: nat)
    ensures c <= n
  {
    if key == 3 then n - n % 40 else if key == 15 then n - n % 20 else n - n % 10
  }

  /** The decoder: the octets of an incomplete frame, and the start/stop decoder. */
  datatype Rx = Rx(buf: seq<bv8>, u: Uart)

  /** Whole frames are decoded, the rest is kept. */
  function Consume(key: bv8, t: seq<bv8>, u: Uart): (r: (Rx, seq<bv8>)) {
    var n := Frames(key, |t|);
    var f := FeedAll(u, DataBits(JoinAll(key, t[..n])));
    (Rx(t[n..], f.0), f.1)
  }

  /** The new state, and the bytes that were decoded. */
  function Decoded(key: bv8, rx: Rx, chunk: seq<bv8>): (r: (Rx, seq<bv8>)) {
    var s := if rx.buf == [] then Skip(key, chunk) else chunk;
    if s == [] then (rx, [])
    else
      var t := Resync(key, rx.buf + s);
      if |t| < NBytes(key) then (Rx(t, rx.u), []) else Consume(key, t, rx.u)
  }

  /** The packet handed up is as long as what was decoded, but never longer than the one that came in. */
  function Trimmed(chunk: seq<bv8>, decoded: seq<bv8>): seq<bv8> {
    if |decoded| < |chunk| then decoded else decoded[..|chunk|]
  }

  // ----- how much fits -----

  /** How many of n bytes one call of the encoder takes. */
  function Taken(n: nat, maxsize: nat): (r: nat)
    ensures r <= n
  {
    if (n + 3) / 4 * 40 > maxsize then maxsize / 40 else n
  }

  function Room(n: nat, maxsize: nat): nat {
    if (n + 3) / 4 * 40 > maxsize then maxsize else (n + 3) / 4 * 40
  }

  /** The matrix of the bytes taken, and its stream octets, fit with a frame to spare: no buffer is ever full. */
  lemma NeverFull(key: bv8, n: nat, maxsize: nat)
    requires IsKey(key) && n > 0
    ensures var lines := LinesFor(Taken(n, maxsize));
      && (Taken(n, maxsize) == 0 ==> lines == 0)
      && (Taken(n, maxsize) > 0 ==> lines + 10 <= Room(n, maxsize)) && Size(key, lines) <= Room(n, maxsize)
  {
    var r := Taken(n, maxsize);
    FewFrames(r);
    assert 40 * ((r + 3) / 4) <= Room(n, maxsize) || r == 0;
  }

  lemma FewFrames(r: nat)
    ensures r > 0 ==> LinesFor(r) + 10 <= 40 * ((r + 3) / 4) && 4 * LinesFor(r) <= 40 * ((r + 3) / 4)
  {
    if r > 0 {
      var a, b := (11 * r - 1) / 48, (r - 1) / 4;
      assert 48 * a <= 11 * r - 1 && r - 1 < 4 * b + 4;
      assert a <= b && (r + 3) / 4 == b + 1;
    }
  }

  /** A byte takes at least nine bits. */
  lemma {:induction false} DecodedCount(u: Uart, bits: seq<bool>)
    requires Sound(u)
    ensures var r := FeedAll(u, bits); Sound(r.0) && 9 * |r.1| + Pending(r.0) <= |bits| + Pending(u)
  {
    if bits != [] {
      DecodedCount(u, bits[..|bits| - 1]);
      hide Put;
    }
  }

  predicate Sound(u: Uart) { u.place < 8 && (!u.introducer ==> u.place == 0) }

  function Pending(u: Uart): nat { if u.introducer then 1 + u.place else 0 }

  // ----- the stream -----

  class Stream {
    const key: bv8
    const nbits: nat
    const nbytes: nat
    const maxsize: nat
    const encodebuf: array<bv8>
    const decodebuf: array<bv8>
    var decodelen: nat
    var introducer: bool
    var dbit: bv8
    var b: bv8
    ghost var place: nat

    ghost predicate Valid()
      reads this
    {
      IsKey(key) && nbits == NBits(key) && nbytes == NBytes(key) && maxsize <= encodebuf.Length &&
      encodebuf != decodebuf &&
      decodebuf.Length == BUFSIZE && decodelen <= BUFSIZE && Sound(Uart(introducer, place, b)) &&
      dbit == Mask(7 - place)
    }

    ghost function State(): Rx
      requires Valid()
      reads this, decodebuf
    {
      Rx(decodebuf[..decodelen], Uart(introducer, place, b))
    }

    constructor (key: bv8, hdrlen: nat, maxsize: nat)
      requires IsKey(key) && hdrlen <= maxsize
      ensures Valid() && this.key == key && this.maxsize == maxsize - hdrlen && State() == Rx([], IDLE)
      ensures fresh(encodebuf) && fresh(decodebuf)
    {
      this.key := key;
      var i: nat := 0;
      while LowBit(key, i)
        invariant i <= 8 && forall p :: 0 <= p < i ==> LowBit(key, p)
        decreases 8 - i
      {
        i := i + 1;
      }
      KeyBits(key, i);
      nbits, nbytes := i, 8 / i;
      this.maxsize := maxsize - hdrlen;
      encodebuf, decodebuf := new bv8[maxsize], new bv8[BUFSIZE];
      decodelen, introducer, dbit, b, place := 0, false, 1, 0, 0;
    }

    /** isdn_v110_encode: how many bytes were taken, and their frames. */
    method Encode(skb: seq<bv8>) returns (rlen: nat, data: seq<bv8>)
      requires Valid()
      modifies encodebuf
      ensures skb == [] ==> rlen == 0 && data == OnlineFrame(key)
      ensures skb != [] ==> rlen == Taken(|skb|, maxsize) && data == Spread(key, Matrix(skb[..rlen]))
      ensures State() == old(State())
    {
      hide LineAt, Matrix, OnlineFrame, Spread, Hunk, Hunks, Left, Right, Flip, LinesFor, Size;
      rlen := |skb|;
      var nframes := (rlen + 3) / 4;
      var size: nat;
      if nframes * 40 > maxsize {
        size := maxsize;
        rlen := maxsize / 40;
      } else {
        size := nframes * 40;
      }
      if skb == [] {
        rlen, data := 0, OnlineFrame(key);
        return;
      }
      NeverFull(key, |skb|, maxsize);
      var mlen := EncodeMatrix(skb[..rlen], encodebuf, size);
      MatrixWritten(skb[..rlen], encodebuf[..], mlen);
      data := Distribute(mlen, size);
    }

    /** The hunks of the lines in the encode buffer, as many octets as there is room for. */
    method Distribute(mlen: nat, size0: nat) returns (data: seq<bv8>)
      requires Valid() && mlen <= encodebuf.Length && Size(key, mlen) <= size0
      modifies encodebuf
      ensures data == Spread(key, old(encodebuf[..mlen]))
    {
      hide Spread, Hunk, Left, Right, Flip, Mask, Has;
      ghost var lines := encodebuf[..mlen];
      var nskb := new bv8[size0];
      var size, olen: nat := size0, 0;
      SpreadNone(key);
      for i := 0 to mlen
        invariant size + olen == size0 && olen == Size(key, i) && nskb[..olen] == Spread(key, lines[..i])
        invariant forall l :: i <= l < mlen ==> encodebuf[l] == lines[l]
      {
        encodebuf[i] := FlipBits(encodebuf[i], nbits);
        LineFits(key, i, mlen);
        size, olen := PutHunks(encodebuf[i], nskb, size, olen, lines[i]);
        SpreadNext(key, lines, i);
      }
      assert lines[..mlen] == lines;
      data := nskb[..olen];
    }

    /** One flipped line as stream octets. */
    method PutHunks(flipped: bv8, nskb: array<bv8>, size0: nat, olen0: nat, ghost line: bv8)
      returns (size: nat, olen: nat)
      requires Valid() && flipped == Flip(line, nbits) && size0 + olen0 == nskb.Length && NBytes(key) <= size0
      modifies nskb
      ensures size + olen == nskb.Length && olen == olen0 + NBytes(key)
      ensures nskb[..olen] == old(nskb[..olen0]) + Hunks(key, line)
    {
      hide Hunk, Hunks, Left, Right, Flip, Mask, Has, Cut;
      size, olen := size0, olen0;
      var sval1: nat := 8 - nbits;
      var sval2 := Left(key, sval1);
      for j := 0 to nbytes
        invariant size + olen == nskb.Length && olen == olen0 + j
        invariant nskb[..olen] == old(nskb[..olen0]) + Hunks(key, line)[..j]
      {
        ghost var was := nskb[..olen];
        if size > 0 {
          size := size - 1;
          nskb[olen] := Cut(key, flipped, j * nbits, sval2, sval1);
        } else {
          assert false;
        }
        HunkIs(key, line, j);
        HunksNext(key, line, j);
        assert nskb[..olen + 1] == was + [nskb[olen]];
        olen := olen + 1;
      }
    }

    /** One bit of the matrix: a start bit is looked for, or a data bit is set or cleared; a byte may be complete. */
    method TakeBit(bit: bool, ghost u: Uart) returns (done: bool, byte: bv8)
      requires Valid() && u == Uart(introducer, place, b)
      modifies this`introducer, this`dbit, this`b, this`place
      ensures Valid() && Feed(u, bit) == (Uart(introducer, place, b), if done then [byte] else [])
    {
      hide Put, Or, Clear, Mask, Has, Left, IsKey, NBits, NBytes;
      done, byte := false, 0;
      if !introducer {
        introducer := !bit;
      } else {
        DataPlace(place, dbit, b, bit);
        b := if bit then Or(b, dbit) else Clear(b, dbit);
        if dbit < 128 {
          dbit, place := Left(dbit, 1), place + 1;
        } else {
          done, byte := true, b;
          introducer, b, dbit, place := false, 0, 1, 0;
        }
      }
    }

    /**
     * DecodeMatrix: the bytes of the first len lines of m; the state of the start/stop decoder is kept in the stream.
     */
    method DecodeMatrix(m: array<bv8>, len: nat, buf: array<bv8>) returns (buflen: nat)
      requires Valid() && len <= m.Length && len <= buf.Length && m != buf
      modifies this`introducer, this`dbit, this`b, this`place, buf
      ensures Valid() && buflen <= buf.Length
      ensures (Uart(introducer, place, b), buf[..buflen])
        == FeedAll(old(Uart(introducer, place, b)), DataBits(m[..len]))
    {
      hide Put, Mask, Has, Left, Right, IsKey, NBits, NBytes, Feed, FeedAll, DataBits, LineBits, Slot, Sound;
      ghost var u, lines := Uart(introducer, place, b), m[..len];
      var line, mbit: bv8 := 0, 64;
      ghost var k: nat, bits := 0, [];
      buflen := 0;
      FeedStart(u);
      while line < len
        invariant line <= len && k < 6 && (Special(line) ==> k == 0) && mbit == Mask(k + 1) &&
          bits == BitsRead(lines, line, k)
        invariant Valid() && buflen <= buf.Length && (Uart(introducer, place, b), buf[..buflen]) == FeedAll(u, bits)
        decreases len - line, 6 - k
      {
        if line % 10 == 0 || line % 10 == 5 {
          // the source only logs a header or a fifth line that is not as it should be
          SkipLine(lines, line);
          line := line + 1;
        } else {
          RoomForByte(u, lines, line, k);
          ReadBit(lines, line, k);
          NextPlace(k);
          var bit := Has(m[line], mbit);
          FeedNextBit(u, bits, bit);
          ghost var was := buf[..buflen];
          var done, byte := TakeBit(bit, Uart(introducer, place, b));
          if done {
            buf[buflen] := byte;
            buflen := buflen + 1;
          }
          assert buf[..buflen] == was + if done then [byte] else [];
          bits := bits + [bit];
          if mbit > 2 {
            mbit, k := Right(mbit, 1), k + 1;
          } else {
            mbit, k, line := 64, 0, line + 1;
          }
        }
      }
      assert lines[..len] == lines;
    }

    /** How many of the first octets in the buffer, up to a whole line, may be part of a header. */
    method ValidHeaderBytes() returns (i: nat)
      requires Valid()
      ensures i <= nbytes && i <= decodelen && forall p :: 0 <= p < i ==> Clean(key, decodebuf[p])
      ensures i < nbytes && i < decodelen ==> !Clean(key, decodebuf[i])
      ensures i == nbytes <==> Header(key, decodebuf[..decodelen])
    {
      hide Clean;
      i := 0;
      while i < decodelen && i < nbytes
        invariant i <= nbytes && i <= decodelen && forall p :: 0 <= p < i ==> Clean(key, decodebuf[p])
      {
        if !Clean(key, decodebuf[i]) {
          break;
        }
        i := i + 1;
      }
    }

    /** Drop the first octet and all after it that cannot begin a header. */
    method SyncHeader()
      requires Valid()
      modifies decodebuf, this`decodelen
      ensures Valid() && (old(decodelen) > 0 ==> decodelen < old(decodelen))
      ensures decodebuf[..decodelen] == if old(decodelen) == 0 then [] else Skip(key, old(decodebuf[..decodelen])[1..])
    {
      hide Clean, Mask;
      if decodelen == 0 {
        return;
      }
      ghost var was := decodebuf[..decodelen];
      var rbuf, len := 1, decodelen - 1;
      while len > 0 && !Clean(key, decodebuf[rbuf])
        invariant rbuf + len == decodelen && len >= 0 && rbuf >= 1 && Skip(key, was[1..]) == Skip(key, was[rbuf..])
      {
        assert was[rbuf..][1..] == was[rbuf + 1..];
        rbuf, len := rbuf + 1, len - 1;
      }
      assert was[rbuf..] == decodebuf[rbuf..decodelen];
      MoveDown(rbuf, len);
    }

    /** The last len octets in the buffer, from a place on, are kept. */
    method MoveDown(from: nat, len: nat)
      requires Valid() && from + len == decodelen
      modifies decodebuf, this`decodelen
      ensures Valid() && decodelen == len && decodebuf[..len] == old(decodebuf[from..decodelen])
    {
      hide Mask;
      forall p | 0 <= p < len {
        decodebuf[p] := decodebuf[from + p];
      }
      decodelen := len;
    }

    /** The lines of the first n * nbytes octets in the buffer. */
    method JoinLines(n: nat) returns (v110buf: array<bv8>)
      requires Valid() && Size(key, n) <= decodelen
      ensures fresh(v110buf) && v110buf.Length == n && v110buf[..n] == JoinAll(key, decodebuf[..Size(key, n)])
    {
      hide Left, Join, Mask, Flip, JoinAll, Or, Bits;
      v110buf := new bv8[n];
      var at: nat := 0;
      JoinNone(key);
      for i := 0 to n
        invariant at == Size(key, i) && v110buf[..i] == JoinAll(key, decodebuf[..at])
      {
        LineFits(key, i, n);
        ghost var was, t := v110buf[..i], decodebuf[at..at + nbytes];
        v110buf[i] := JoinLine(at);
        assert decodebuf[..at + nbytes] == decodebuf[..at] + t;
        JoinNext(key, decodebuf[..at], t);
        assert v110buf[..i + 1] == was + [v110buf[i]];
        at := at + nbytes;
      }
    }

    /** One line from its octets. */
    method JoinLine(at: nat) returns (line: bv8)
      requires Valid() && at + nbytes <= decodelen
      ensures line == Join(key, decodebuf[at..at + nbytes])
    {
      hide Left, Mask, Flip, JoinPart, Or, Bits;
      line := 0;
      ghost var t := decodebuf[at..at + nbytes];
      JoinStart(key, t);
      for j := 0 to nbytes
        invariant j * NBits(key) <= 8 && line == JoinPart(key, t, j)
      {
        PlaceFits(key, j + 1);
        JoinPartNext(key, t, j);
        line := Or(line, Left(Bits(decodebuf[at + j], key), 8 - (j + 1) * nbits));
      }
      line := FlipBits(line, nbits);
    }

    /** isdn_v110_decode. The output is a buffer of its own; a packet that would be empty is not handed up. */
    method Decode(chunk: seq<bv8>) returns (out: seq<bv8>)
      requires Valid() && decodelen + |chunk| <= BUFSIZE
      modifies decodebuf, this`decodelen, this`introducer, this`dbit, this`b, this`place
      ensures Valid() && State() == Decoded(key, old(State()), chunk).0
      ensures out == Trimmed(chunk, Decoded(key, old(State()), chunk).1)
    {
      hide Clean, Mask, Resync, Skip, Frames, Consume;
      out := [];
      var rbuf, len := 0, |chunk|;
      if decodelen == 0 {
        len := Scan(chunk);
        rbuf := |chunk| - len;
      }
      if len == 0 {
        return;
      }
      ghost var was := decodebuf[..decodelen];
      forall p | 0 <= p < len {
        decodebuf[decodelen + p] := chunk[rbuf + p];
      }
      decodelen := decodelen + len;
      assert decodebuf[..decodelen] == was + chunk[rbuf..];
      var found := FindHeader();
      if found {
        out := Extract(chunk);
      }
    }

    /** From where on the packet may begin a header. */
    method Scan(chunk: seq<bv8>) returns (len: nat)
      ensures len <= |chunk| && chunk[|chunk| - len..] == Skip(key, chunk)
    {
      hide Clean;
      len := |chunk|;
      while len > 0 && !Clean(key, chunk[|chunk| - len])
        invariant len <= |chunk| && Skip(key, chunk) == Skip(key, chunk[|chunk| - len..])
      {
        assert chunk[|chunk| - len..][1..] == chunk[|chunk| - len + 1..];
        len := len - 1;
      }
    }

    /** The source's ReSync: drop octets until the buffer begins with a header, or is too short for one. */
    method FindHeader() returns (found: bool)
      requires Valid()
      modifies decodebuf, this`decodelen
      ensures Valid() && decodebuf[..decodelen] == Resync(key, old(decodebuf[..decodelen])) &&
        found == (decodelen >= nbytes)
    {
      hide Skip, Mask, Header;
      found := false;
      while true
        invariant Valid() && Resync(key, decodebuf[..decodelen]) == Resync(key, old(decodebuf[..decodelen]))
        decreases decodelen
      {
        if decodelen < nbytes {
          return;
        }
        var i := ValidHeaderBytes();
        if i == nbytes {
          found := true;
          return;
        }
        SyncHeader();
      }
    }

    /** Decode the whole frames in the buffer and keep the rest. */
    method Extract(chunk: seq<bv8>) returns (out: seq<bv8>)
      requires Valid()
      modifies decodebuf, this`decodelen, this`introducer, this`dbit, this`b, this`place
      ensures Valid() && State() == Consume(key, old(decodebuf[..decodelen]), old(State().u)).0
      ensures out == Trimmed(chunk, Consume(key, old(decodebuf[..decodelen]), old(State().u)).1)
    {
      hide Mask, FeedAll, DataBits, JoinAll, Sound;
      ghost var was := decodebuf[..decodelen];
      var frame := 10 * nbytes;
      WholeLines(key, nbytes, frame, decodelen);
      var len := (decodelen - decodelen % frame) / nbytes;
      var v110buf := JoinLines(len);
      var rest := decodelen % frame;
      var from := decodelen - rest;
      assert decodebuf[..Size(key, len)] == was[..from] && was[from..] == decodebuf[from..decodelen];
      ghost var lines := v110buf[..len];
      MoveDown(from, rest);
      var data := new bv8[len];
      var buflen := DecodeMatrix(v110buf, len, data);
      assert v110buf[..len] == lines;
      out := data[..if |chunk| > buflen then buflen else |chunk|];
    }
  }

  lemma DataPlace(place: nat, dbit: bv8, b: bv8, bit: bool)
    requires place < 8 && dbit == Mask(7 - place)
    ensures dbit < 128 <==> place < 7
    ensures place < 7 ==> Left(dbit, 1) == Mask(7 - (place + 1))
    ensures Put(b, place, bit) == if bit then Or(b, dbit) else Clear(b, dbit)
    ensures Mask(7) == 1
  {
  }

  /** b &= dbit - 1 */
  function Clear(b: bv8, dbit: bv8): bv8 { b & (dbit - 1) }

  /** The data bits before the k-th bit of a line. */
  ghost function BitsRead(lines: seq<bv8>, line: nat, k: nat): seq<bool>
    requires line <= |lines| && k < 6
  {
    if k == 0 || |lines| <= line || Special(line) then DataBits(lines[..line])
      else DataBits(lines[..line]) + LineBits(lines[line])[..k]
  }

  lemma FeedStart(u: Uart)
    ensures FeedAll(u, []) == (u, []) && BitsRead([], 0, 0) == [] && Mask(1) == 64
  {
  }

  lemma FeedNextBit(u: Uart, bits: seq<bool>, bit: bool)
    ensures FeedAll(u, bits + [bit])
      == (Feed(FeedAll(u, bits).0, bit).0, FeedAll(u, bits).1 + Feed(FeedAll(u, bits).0, bit).1)
  {
    hide Feed;
    assert (bits + [bit])[..|bits|] == bits;
  }

  /** A special line carries no data. */
  lemma SkipLine(lines: seq<bv8>, line: nat)
    requires line < |lines| && Special(line)
    ensures BitsRead(lines, line + 1, 0) == BitsRead(lines, line, 0)
  {
    assert lines[..line + 1] == lines[..line] + [lines[line]];
    DataBitsNext(lines[..line], lines[line]);
    hide DataBits, LineBits;
  }

  lemma ReadBit(lines: seq<bv8>, line: nat, k: nat)
    requires line < |lines| && !Special(line) && k < 6
    ensures BitsRead(lines, line, k) + [Has(lines[line], Mask(k + 1))]
      == if k < 5 then BitsRead(lines, line, k + 1) else BitsRead(lines, line + 1, 0)
  {
    hide DataBits, LineBits, Special, Has, Mask;
    var x := lines[line];
    LineBit(x, k);
    assert lines[..line + 1] == lines[..line] + [x];
    DataBitsNext(lines[..line], x);
    assert LineBits(x)[..k] + [Has(x, Mask(k + 1))] == LineBits(x)[..k + 1] && LineBits(x)[..6] == LineBits(x) &&
      LineBits(x)[..0] == [];
    var d := DataBits(lines[..line]);
    assert d + LineBits(x)[..k] + [Has(x, Mask(k + 1))] == d + LineBits(x)[..k + 1] && d + LineBits(x)[..0] == d;
  }

  lemma LineBit(x: bv8, k: nat)
    requires k < 6
    ensures LineBits(x)[k] == Has(x, Mask(k + 1))
  {
    LineBitsMasks(x);
    hide LineBits, Has, Mask;
  }

  lemma NextPlace(k: nat)
    requires k < 6
    ensures (Mask(k + 1) > 2 <==> k < 5) && Mask(1) == 64
    ensures k < 5 ==> Right(Mask(k + 1), 1) == Mask(k + 2)
  {
    RightOfMask(k + 1, 1);
  }

  lemma RoomForByte(u: Uart, lines: seq<bv8>, line: nat, k: nat)
    requires Sound(u) && line < |lines| && !Special(line) && k < 6
    ensures |FeedAll(u, BitsRead(lines, line, k)).1| < |lines|
  {
    DecodedCount(u, BitsRead(lines, line, k));
    hide FeedAll, DataBits, LineBits;
    assert Slot(line) < line;
  }

  lemma MatrixWritten(data: seq<bv8>, m: seq<bv8>, n: nat)
    requires Written(data, m, n) && n == LinesFor(|data|)
    ensures m[..n] == Matrix(data)
  {
    hide LineAt, LinesFor;
  }

  lemma SpreadNone(key: bv8)
    ensures Spread(key, []) == [] && Size(key, 0) == 0
  {
  }

  lemma SpreadNext(key: bv8, lines: seq<bv8>, i: nat)
    requires i < |lines|
    ensures Spread(key, lines[..i + 1]) == Spread(key, lines[..i]) + Hunks(key, lines[i])
    ensures Size(key, i + 1) == Size(key, i) + NBytes(key)
  {
    hide Hunks;
    assert lines[..i + 1][..i] == lines[..i];
  }

  lemma LineFits(key: bv8, i: nat, n: nat)
    requires i < n
    ensures Size(key, i) + NBytes(key) <= Size(key, n)
  {
  }

  /** ~key | (((flipped << shift) & sval2) >> sval1) */
  function Cut(key: bv8, flipped: bv8, shift: nat, sval2: bv8, sval1: nat): bv8 {
    !key | Right(Left(flipped, shift) & sval2, sval1)
  }

  lemma HunkIs(key: bv8, line: bv8, j: nat)
    ensures Hunk(key, line, j)
      == Cut(key, Flip(line, NBits(key)), j * NBits(key), Left(key, 8 - NBits(key)), 8 - NBits(key))
  {
    hide Left, Right, Flip;
  }

  lemma HunksNext(key: bv8, line: bv8, j: nat)
    requires j < NBytes(key)
    ensures Hunks(key, line)[..j + 1] == Hunks(key, line)[..j] + [Hunk(key, line, j)]
    ensures Hunks(key, line)[..NBytes(key)] == Hunks(key, line)
  {
    hide Hunk;
  }

  /** b & key */
  function Bits(b: bv8, key: bv8): bv8 { b & key }

  lemma JoinStart(key: bv8, t: seq<bv8>)
    ensures JoinPart(key, t, 0) == 0
  {
  }

  lemma JoinPartNext(key: bv8, t: seq<bv8>, j: nat)
    requires j < |t| && (j + 1) * NBits(key) <= 8
    ensures j * NBits(key) <= 8 && JoinPart(key, t, j + 1)
      == Or(JoinPart(key, t, j), Left(Bits(t[j], key), 8 - (j + 1) * NBits(key)))
  {
    hide Left;
  }

  lemma WholeLines(key: bv8, nbytes: nat, frame: nat, n: nat)
    requires IsKey(key) && nbytes == NBytes(key) && frame == 10 * nbytes
    ensures n - n % frame == Frames(key, n) && Size(key, (n - n % frame) / nbytes) == Frames(key, n)
    ensures Count(key, Frames(key, n)) == (n - n % frame) / nbytes <= n
  {
    if key == 3 {
      Quarters(n);
      assert frame == 40 && n % frame == n % 40 && (n - n % frame) / nbytes == (n - n % 40) / 4;
    } else if key == 15 {
      Halves(n);
      assert frame == 20 && n % frame == n % 20 && (n - n % frame) / nbytes == (n - n % 20) / 2;
    } else {
      assert frame == 10 && n % frame == n % 10 && (n - n % frame) / nbytes == (n - n % 10) / 1 == n - n % 10;
    }
  }

  lemma Quarters(n: nat)
    ensures 4 * ((n - n % 40) / 4) == n - n % 40
  {
    assert n - n % 40 == 4 * (n / 40 * 10);
  }

  lemma Halves(n: nat)
    ensures 2 * ((n - n % 20) / 2) == n - n % 20
  {
    assert n - n % 20 == 2 * (n / 20 * 10);
  }

  predicate LowBit(c: bv8, p: nat) { p < 8 && Has(c, Mask(7 - p)) }

  lemma KeyBits(key: bv8, i: nat)
    requires IsKey(key) && i <= 8 && (forall p :: 0 <= p < i ==> LowBit(key, p)) && (i < 8 ==> !LowBit(key, i))
    ensures i == NBits(key) && i > 0 && 8 / i == NBytes(key)
  {
    assert LowBit(3, 0) && LowBit(3, 1) && !LowBit(3, 2);
    assert LowBit(15, 0) && LowBit(15, 1) && LowBit(15, 2) && LowBit(15, 3) && !LowBit(15, 4);
    assert LowBit(255, 0) && LowBit(255, 1) && LowBit(255, 2) && LowBit(255, 3);
    assert LowBit(255, 4) && LowBit(255, 5) && LowBit(255, 6) && LowBit(255, 7);
  }
}
