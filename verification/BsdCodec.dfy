/**
 * bsd_compress, bsd_incomp, bsd_decompress and bsd_check over their mutable state, against the functions of
 * BsdLockstep.
 */
module BsdCodec {
  import opened Bits
  import opened BsdTables
  import opened BsdProbing
  import opened BsdLockstep

  const CHECK_GAP := 10000
  const RATIO_MAX := 0x7fffff
  const U32 := 0x1_0000_0000

  /** A socket buffer: bytes in use and room for more. */
  class Skb {
    var data: seq<Byte>
    const capacity: nat

    constructor (capacity: nat)
      ensures data == [] && this.capacity == capacity
    {
      this.data := [];
      this.capacity := capacity;
    }

    /** The guarded skb_put of one byte: without tail room the byte is lost. */
    method PutIfRoom(b: Byte, ghost stream: seq<Byte>)
      requires data == Clip(stream, capacity)
      modifies this
      ensures data == Clip(stream + [b], capacity)
    {
      if |data| < capacity {
        data := data + [b];
      } else {
        assert (stream + [b])[..capacity] == stream[..capacity];
      }
    }
  }

  /** What is left of a byte stream written into a buffer of the given capacity. */
  function Clip(s: seq<Byte>, n: nat): (r: seq<Byte>)
    ensures |r| < n ==> r == s
  {
    if |s| <= n then s else s[..n]
  }

  /** The counters that decide when a full dictionary is cleared. */
  datatype Counters = Counters(inCount: nat, bytesOut: nat, ratio: nat, checkpoint: nat)

  const CLEARED_COUNTERS := Counters(0, 0, 0, CHECK_GAP)

  /** The receiver's counters before bsd_check: it counts neither the header of a packet nor a byte of a cleared one. */
  function ReceivedCounts(c: Counters, bytes: nat, codedBytes: nat, cleared: bool): Counters {
    if cleared then CLEARED_COUNTERS
    else c.(inCount := (c.inCount + bytes) % U32, bytesOut := (c.bytesOut + codedBytes) % U32)
  }

  /** Every counter is a 32-bit word. */
  predicate Words(c: Counters) {
    c.inCount < U32 && c.bytesOut < U32 && c.ratio < U32 && c.checkpoint < U32
  }

  function Aged(n: nat): nat { n - n / 4 }

  /** Fixed-point ratio with 8 fractional bits, computed in 32 bits. */
  function NewRatio(inCount: nat, bytesOut: nat): nat {
    var scaled := (inCount * 256) % U32;
    if bytesOut != 0 then scaled / bytesOut else scaled
  }

  /** bsd_check: the new counters, and whether the dictionary is cleared. */
  function CheckRatio(c: Counters, full: bool): (Counters, bool) {
    if c.inCount < c.checkpoint then (c, false)
    else
      var d := if c.inCount >= RATIO_MAX || c.bytesOut >= RATIO_MAX
               then c.(inCount := Aged(c.inCount), bytesOut := Aged(c.bytesOut)) else c;
      var d := d.(checkpoint := (d.inCount + CHECK_GAP) % U32);
      var newRatio := NewRatio(d.inCount, d.bytesOut);
      if !full then (d, false)
      else if newRatio < d.ratio || newRatio < 256 then (CLEARED_COUNTERS, true)
      else (d.(ratio := newRatio), false)
  }

  lemma CheckedWords(c: Counters, full: bool)
    requires Words(c)
    ensures Words(CheckRatio(c, full).0)
  {
    var d := if c.inCount >= RATIO_MAX || c.bytesOut >= RATIO_MAX
             then c.(inCount := Aged(c.inCount), bytesOut := Aged(c.bytesOut)) else c;
    RatioWord(d.inCount, d.bytesOut);
  }

  lemma RatioWord(inCount: nat, bytesOut: nat)
    ensures NewRatio(inCount, bytesOut) < U32
  {
    var scaled := (inCount * 256) % U32;
    if bytesOut != 0 {
      QuotientAtMost(scaled, bytesOut);
    }
  }

  lemma QuotientAtMost(n: nat, d: nat)
    requires d > 0
    ensures n / d <= n
  {
    MulMonotone(1, d, n / d);
    assert n == d * (n / d) + n % d;
  }

  predicate CompressibleProto(proto: int) {
    0x21 <= proto <= 0xf9 && proto % 2 == 1
  }

  /** A shift register of 32 bits with some bits in use at its top. */
  ghost predicate Register(accm: nat, bitno: nat, inUse: seq<bool>) {
    |inUse| + bitno == 32 && accm == ToNat(inUse + Zeros(bitno))
  }

  /** One byte out of the top of the register. */
  lemma TopByte(accm: nat, bitno: nat, inUse: seq<bool>)
    requires Register(accm, bitno, inUse) && |inUse| >= 8
    ensures Shr(accm, 24) < 256 && ByteBits(Shr(accm, 24)) == inUse[..8]
    ensures Register(Low(Shl(accm, 8), 32), bitno + 8, inUse[8..])
  {
    var w := inUse + Zeros(bitno);
    ShrToNat(w, 24);
    assert w[..8] == inUse[..8];
    ToNatBound(w[..8]);
    OfNatToNat(w[..8]);
    assert Pow2(8) == 256;
    ShiftLeft(w, 8);
    assert w[8..] + Zeros(8) == inUse[8..] + Zeros(bitno + 8);
  }

  /** A code or a byte into the free low end of the register. */
  lemma AddField(accm: nat, bitno: nat, inUse: seq<bool>, n: nat, width: nat)
    requires Register(accm, bitno, inUse) && width <= bitno && n < Pow2(width)
    ensures Register(accm + Shl(n, bitno - width), bitno - width, inUse + OfNat(n, width))
  {
    ToNatOfNat(n, width);
    OrField(inUse, OfNat(n, width), bitno);
  }

  /** A code off the top of the register. */
  lemma TakeCode(accm: nat, bitno: nat, inUse: seq<bool>, width: nat)
    requires Register(accm, bitno, inUse) && width <= |inUse|
    ensures Shr(accm, 32 - width) == ToNat(inUse[..width])
    ensures Register(Low(Shl(accm, width), 32), bitno + width, inUse[width..])
  {
    var w := inUse + Zeros(bitno);
    ShrToNat(w, 32 - width);
    assert w[..width] == inUse[..width];
    ShiftLeft(w, width);
    assert w[width..] + Zeros(width) == inUse[width..] + Zeros(bitno + width);
  }

  /** What has been sent: whole bytes and the bits still in the register. */
  ghost function Sent(bytes: seq<Byte>, inUse: seq<bool>): seq<bool> { BytesToBits(bytes) + inUse }

  lemma SentByte(bytes: seq<Byte>, inUse: seq<bool>, b: Byte)
    requires |inUse| >= 8 && ByteBits(b) == inUse[..8]
    ensures Sent(bytes + [b], inUse[8..]) == Sent(bytes, inUse)
  {
    BytesToBitsConcat(bytes, [b]);
    assert BytesToBits([b]) == ByteBits(b);
    assert inUse[..8] + inUse[8..] == inUse;
  }

  /** The OUTPUT macro. The ghost bytes are those sent so far, whether or not the buffer had room for them. */
  method Output(code: nat, nBits: nat, bitno: nat, accm: nat, out: Skb?, ghost header: seq<Byte>,
                ghost bytes: seq<Byte>, ghost inUse: seq<bool>)
    returns (bitno': nat, accm': nat, ghost bytes': seq<Byte>, ghost inUse': seq<bool>)
    requires Register(accm, bitno, inUse) && |inUse| < 8 && 9 <= nBits <= 15 && code < Pow2(nBits)
    requires out != null ==> out.data == Clip(header + bytes, out.capacity)
    modifies out
    ensures Register(accm', bitno', inUse') && |inUse'| < 8
    ensures out != null ==> out.data == Clip(header + bytes', out.capacity)
    ensures Sent(bytes', inUse') == Sent(bytes, inUse) + OfNat(code, nBits)
  {
    hide ToNat, OfNat, Shl, Shr, Low, BytesToBits, Clip;
    bitno' := bitno - nBits;
    accm' := accm + Shl(code, bitno');
    AddField(accm, bitno, inUse, code, nBits);
    bytes', inUse' := bytes, inUse + OfNat(code, nBits);
    assert Sent(bytes', inUse') == Sent(bytes, inUse) + OfNat(code, nBits);
    var more := true;
    while more
      invariant Register(accm', bitno', inUse') && (more <==> |inUse'| >= 8)
      invariant out != null ==> out.data == Clip(header + bytes', out.capacity)
      invariant Sent(bytes', inUse') == Sent(bytes, inUse) + OfNat(code, nBits)
      decreases |inUse'|
    {
      TopByte(accm', bitno', inUse');
      var b: Byte := Shr(accm', 24);
      SentByte(bytes', inUse', b);
      if out != null {
        out.PutIfRoom(b, header + bytes');
      }
      accm' := Low(Shl(accm', 8), 32);
      bitno' := bitno' + 8;
      bytes', inUse' := bytes' + [b], inUse'[8..];
      assert header + bytes' == header + bytes'[..|bytes'| - 1] + [b] && bytes'[..|bytes'| - 1] + [b] == bytes';
      more := bitno' <= 24;
    }
  }

  /** What bsd_decompress returns: a length, or one of its three errors. */
  datatype Verdict = Length(n: nat) | Refused | FatalError | NoMemory

  /** There is a header and it carries the expected sequence number. */
  predicate InSequence(input: seq<Byte>, seqno: nat) {
    |input| >= 2 && input[0] as int * 256 + input[1] as int == seqno
  }

  class BsdDb {
    const cfg: Config
    const dict: array<Slot>
    const lens: array?<nat>
    const withAbc: bool
    var nBits: nat
    var maxEnt: nat
    var seqno: nat
    var inCount: nat
    var bytesOut: nat
    var ratio: nat
    var checkpoint: nat

    ghost function T(): Tables
      reads this, dict
    {
      Tables(dict[..], maxEnt, nBits)
    }

    ghost function Counts(): Counters
      reads this
    {
      Counters(inCount, bytesOut, ratio, checkpoint)
    }

    ghost predicate Valid()
      reads this, dict, lens
    {
      Steady(cfg, T()) && seqno < 0x1_0000 && Words(Counts()) && (lens != null ==> lens.Length > 0) &&
      LensFrame(cfg, Lengths())
    }

    ghost function Lengths(): seq<nat>
      reads this, lens
    {
      if lens == null then [] else lens[..]
    }

    /** bsd_alloc and bsd_init. */
    constructor (cfg: Config, xmit: bool, withAbc: bool)
      requires ValidConfig(cfg)
      ensures Valid() && T() == Fresh(cfg) && seqno == 0 && Counts() == CLEARED_COUNTERS
      ensures this.cfg == cfg && this.withAbc == withAbc && (lens == null <==> xmit)
      ensures LensOk(Lengths(), T())
      ensures fresh(dict) && (lens != null ==> fresh(lens))
    {
      ConfigFacts(cfg);
      this.cfg := cfg;
      this.withAbc := withAbc;
      this.dict := new Slot[cfg.hsize](_ => Slot(0, BAD_CODEM1, 0));
      if xmit {
        this.lens := null;
      } else {
        this.lens := new nat[cfg.MaxMaxCode() + 1];
      }
      nBits, maxEnt, seqno := MIN_BITS, CLEAR, 0;
      inCount, bytesOut, ratio, checkpoint := 0, 0, 0, CHECK_GAP;
      new;
      if lens != null {
        for indx := 256 downto 0
          modifies lens
          invariant forall c :: indx <= c < 256 ==> lens[c] == 1
        {
          lens[indx] := 1;
        }
      }
      assert dict[..] == Fresh(cfg).dict;
      FreshConsistent(cfg);
      ClearedSettled(cfg, Fresh(cfg));
    }

    /** bsd_clear. */
    method Clear()
      modifies this`nBits, this`maxEnt, this`inCount, this`bytesOut, this`ratio, this`checkpoint
      ensures T() == Cleared(old(T())) && Counts() == CLEARED_COUNTERS
    {
      maxEnt, nBits := CLEAR, MIN_BITS;
      bytesOut, inCount, ratio, checkpoint := 0, 0, 0, CHECK_GAP;
    }

    method Check() returns (cleared: bool)
      modifies this`nBits, this`maxEnt, this`inCount, this`bytesOut, this`ratio, this`checkpoint
      ensures (Counts(), cleared) == CheckRatio(old(Counts()), old(maxEnt) >= cfg.MaxMaxCode())
      ensures T() == if cleared then Cleared(old(T())) else old(T())
      ensures cleared ==> old(maxEnt) >= cfg.MaxMaxCode()
    {
      hide Sound, Widen, NewRatio, Aged, MaxCode;
      cleared := false;
      if inCount >= checkpoint {
        if inCount >= RATIO_MAX || bytesOut >= RATIO_MAX {
          inCount := Aged(inCount);
          bytesOut := Aged(bytesOut);
        }
        checkpoint := (inCount + CHECK_GAP) % U32;
        if maxEnt >= cfg.MaxMaxCode() {
          var newRatio := NewRatio(inCount, bytesOut);
          if newRatio < ratio || newRatio < 256 {
            Clear();
            cleared := true;
          } else {
            ratio := newRatio;
          }
        }
      }
    }

    /** The probe loop of the compressor. */
    method Find(prefix: nat, suffix: Byte) returns (hit: Hit)
      requires Sound(cfg, T()) && IsCode(T(), prefix)
      ensures Hash(cfg, prefix, suffix) < dict.Length && 1 < dict.Length
      ensures hit == Search(T(), Hash(cfg, prefix, suffix), Key(prefix, suffix), 0)
    {
      hide Sound, SlotOk;
      SearchSound(cfg, T(), prefix, suffix);
      var key := Key(prefix, suffix);
      var hval := Hash(cfg, prefix, suffix);
      if dict[hval].codem1 >= maxEnt {
        return Vacant(hval);
      }
      if dict[hval].fcode == key {
        return Found(dict[hval].codem1 + 1);
      }
      var disp := if hval == 0 then 1 else hval;
      ghost var j := 0;
      while true
        invariant j < |T().dict| && hval == ProbeAt(Hash(cfg, prefix, suffix), j, dict.Length)
        invariant Live(T(), hval) && dict[hval].fcode != key
        invariant Search(T(), Hash(cfg, prefix, suffix), key, 0) == Search(T(), Hash(cfg, prefix, suffix), key, j)
        decreases dict.Length - j
      {
        hval := hval + disp;
        if hval >= dict.Length {
          hval := hval - dict.Length;
        }
        j := j + 1;
        if dict[hval].codem1 >= maxEnt {
          return Vacant(hval);
        }
        if dict[hval].fcode == key {
          return Found(dict[hval].codem1 + 1);
        }
      }
    }

    /** The probe loop of the decompressor. */
    method FindFree(prefix: nat, suffix: Byte) returns (hval: nat)
      requires Sound(cfg, T()) && prefix <= cfg.MaxMaxCode()
      ensures Hash(cfg, prefix, suffix) < dict.Length && 1 < dict.Length
      ensures FirstDead(T(), Hash(cfg, prefix, suffix), 0) == Some(hval)
      ensures hval < dict.Length && !Live(T(), hval)
    {
      hide Hash, SlotOk;
      HashInRange(cfg, prefix, suffix);
      ConfigFacts(cfg);
      ghost var h := Hash(cfg, prefix, suffix);
      FirstDeadFound(cfg, T(), h, 0);
      hval := Hash(cfg, prefix, suffix);
      if dict[hval].codem1 < maxEnt {
        var disp := if hval == 0 then 1 else hval;
        ghost var j := 0;
        while dict[hval].codem1 < maxEnt
          invariant j < |T().dict| && hval == ProbeAt(h, j, dict.Length)
          invariant FirstDead(T(), h, 0) == FirstDead(T(), h, j)
          decreases dict.Length - j
        {
          hval := hval + disp;
          if hval >= dict.Length {
            hval := hval - dict.Length;
          }
          j := j + 1;
        }
      }
    }

    /** Invalidate the slot that had the next code, and enter the key under that code. */
    method Enter(slot: nat, key: nat)
      requires Sound(cfg, T()) && Room(cfg, T()) && slot < dict.Length && !Live(T(), slot)
      modifies dict, this`maxEnt
      ensures T() == Install(old(T()), slot, key) && maxEnt == old(maxEnt) + 1
    {
      var indx := dict[maxEnt + 1].cptr;
      if indx >= dict.Length {
        indx := 0;
      }
      if dict[indx].codem1 == maxEnt {
        dict[indx] := dict[indx].(codem1 := BAD_CODEM1);
      }
      dict[maxEnt + 1] := dict[maxEnt + 1].(cptr := slot);
      dict[slot] := dict[slot].(codem1 := maxEnt, fcode := key);
      maxEnt := maxEnt + 1;
      assert dict[..] == Install(old(T()), slot, key).dict;
    }

    /** The string of a code is one longer than that of its prefix. */
    method NoteLength(code: nat, prefix: nat)
      requires lens != null ==> code < lens.Length && prefix < lens.Length
      modifies lens
      ensures Lengths() == NotedLength(old(Lengths()), code, prefix)
    {
      if lens != null {
        lens[code] := (lens[prefix] + 1) % 0x1_0000;
      }
    }

    /**
     * The new dictionary entry of the compressor, with its length where lengths are kept; mxcode is the largest code of
     * the width.
     */
    method AddEntry(slot: nat, prefix: nat, suffix: Byte, mxcode: nat) returns (mxcode': nat)
      requires Sound(cfg, T()) && slot < dict.Length && !Live(T(), slot) && IsCode(T(), prefix) &&
        mxcode == MaxCode(nBits)
      requires LensFrame(cfg, Lengths()) && (lens != null ==> lens.Length > 0)
      modifies dict, lens, this`maxEnt, this`nBits
      ensures T() == Grow(cfg, old(T()), slot, Key(prefix, suffix)) && Sound(cfg, T()) && mxcode' == MaxCode(nBits)
      ensures maxEnt == if old(maxEnt) < cfg.MaxMaxCode() then old(maxEnt) + 1 else old(maxEnt)
      ensures LensFrame(cfg, Lengths())
      ensures old(LensOk(Lengths(), T())) ==> LensOk(Lengths(), T())
    {
      hide Sound, Chained, LensOk, Install, InstalledSlot, SlotOk;
      ghost var t := T();
      mxcode' := mxcode;
      GrowSound(cfg, t, slot, Key(prefix, suffix));
      LensGrow(cfg, t, slot, prefix, suffix, Lengths());
      ConfigFacts(cfg);
      WidenSound(cfg, t);
      if maxEnt < cfg.MaxMaxCode() {
        if maxEnt >= mxcode {
          nBits := nBits + 1;
          mxcode' := MaxCode(nBits);
        }
        assert T() == Widen(cfg, t);
        Enter(slot, Key(prefix, suffix));
        assert lens != null ==> maxEnt < lens.Length && prefix < lens.Length;
        hide LensFrame, Grow;
        NoteLength(maxEnt, prefix);
      }
    }

    /** The coding loop of bsd_compress, up to and including the last code. */
    method EmitCodes(input: seq<Byte>, out: Skb?, proto: Byte, ghost header: seq<Byte>)
      returns (bitno: nat, accm: nat, mxcode: nat, ghost bytes: seq<Byte>, ghost inUse: seq<bool>)
      requires Sound(cfg, T()) && LensFrame(cfg, Lengths()) && (lens != null ==> lens.Length > 0)
      requires out != null ==> out.data == Clip(header, out.capacity)
      modifies dict, lens, this`maxEnt, this`nBits, out
      ensures Sound(cfg, T()) && LensFrame(cfg, Lengths()) && mxcode == MaxCode(nBits)
      ensures Register(accm, bitno, inUse) && |inUse| < 8
      ensures Encode(cfg, old(T()), proto, input) == Encoded(Sent(bytes, inUse), T())
      ensures out != null ==> out.data == Clip(header + bytes, out.capacity)
      ensures old(LensOk(Lengths(), T())) ==> LensOk(Lengths(), T())
    {
      hide Sound, Sent, Clip, LensOk, LensFrame, Register, Grow, Coding, MaxCode, Pow2, Search, Live, Hash, Encode;
      ghost var t0 := T();
      var ent: nat := proto;
      bitno, accm, mxcode := 32, 0, MaxCode(nBits);
      bytes, inUse := [], [];
      EmptyRegister();
      CodeFits(cfg, T(), ent);
      CodingStart(cfg, t0, proto, input);
      assert header + [] == header;
      assert input[0..] == input;
      for i := 0 to |input|
        invariant Sound(cfg, T()) && IsCode(T(), ent) && mxcode == MaxCode(nBits)
        invariant LensFrame(cfg, Lengths())
        invariant Register(accm, bitno, inUse) && |inUse| < 8
        invariant out != null ==> out.data == Clip(header + bytes, out.capacity)
        invariant Coding(cfg, Encode(cfg, t0, proto, input), T(), Sent(bytes, inUse), ent, input[i..])
        invariant old(LensOk(Lengths(), T())) ==> LensOk(Lengths(), T())
      {
        var c := input[i];
        assert input[i..][0] == c && input[i..][1..] == input[i + 1..];
        SearchSound(cfg, T(), ent, c);
        CodeFits(cfg, T(), ent);
        ghost var t, was := T(), Sent(bytes, inUse);
        var hit := Find(ent, c);
        if hit.Found? {
          CodingMatch(cfg, Encode(cfg, t0, proto, input), t, was, ent, input[i..]);
          ent := hit.code;
        } else {
          CodingMiss(cfg, Encode(cfg, t0, proto, input), t, was, ent, input[i..]);
          bitno, accm, bytes, inUse := Output(ent, nBits, bitno, accm, out, header, bytes, inUse);
          mxcode := AddEntry(hit.slot, ent, c, mxcode);
          ent := c;
        }
      }
      assert input[|input|..] == [];
      CodeFits(cfg, T(), ent);
      CodingEnd(cfg, Encode(cfg, t0, proto, input), T(), Sent(bytes, inUse), ent);
      bitno, accm, bytes, inUse := Output(ent, nBits, bitno, accm, out, header, bytes, inUse);
    }

    method PutHeader(out: Skb?)
      requires out != null ==> out.data == []
      requires seqno < 0x1_0000
      modifies out
      ensures out != null ==> out.data == Clip(Header(seqno, out.capacity), out.capacity)
    {
      if out != null && out.capacity - |out.data| >= 2 {
        out.data := out.data + [seqno / 256, seqno % 256];
      }
    }

    /** The counters and the sequence number after the codes of a packet. */
    method Bill(bytesIn: nat, bytesSoFar: nat, bitno: nat)
      requires Words(Counts())
      modifies this`inCount, this`bytesOut, this`seqno
      ensures Words(Counts()) && seqno == (old(seqno) + 1) % 0x1_0000
      ensures Counts() == BilledBytes(old(Counts()), bytesIn, bytesSoFar, bitno < 32)
    {
      bytesOut := (bytesOut + bytesSoFar) % U32;
      inCount := (inCount + bytesIn) % U32;
      seqno := (seqno + 1) % 0x1_0000;
      if bitno < 32 {
        bytesOut := (bytesOut + 1) % U32;
      }
    }

    /**
     * CLEAR if the dictionary is full and no longer pays, the dribble bits, and the width the decompressor will expect.
     */
    method EndPacket(out: Skb?, mxcode: nat, bitno: nat, accm: nat, ghost header: seq<Byte>, ghost bytes: seq<Byte>,
                     ghost inUse: seq<bool>)
      returns (cleared: bool)
      requires Sound(cfg, T()) && mxcode == MaxCode(nBits) && Words(Counts())
      requires Register(accm, bitno, inUse) && |inUse| < 8
      requires out != null ==> out.data == Clip(header + bytes, out.capacity)
      modifies this`nBits, this`maxEnt, this`inCount, this`bytesOut, this`ratio, this`checkpoint, out
      ensures (Counts(), cleared) == CheckRatio(old(Counts()), old(maxEnt) >= cfg.MaxMaxCode()) && Words(Counts())
      ensures cleared ==> old(maxEnt) >= cfg.MaxMaxCode()
      ensures T() == if cleared then Cleared(old(T())) else Widen(cfg, old(T()))
      ensures var bits := Sent(bytes, inUse) + (if cleared then OfNat(CLEAR, old(nBits)) else []);
        out != null ==> out.data == Clip(header + Pack(Padded(bits)), out.capacity)
    {
      hide Sound, Sent, Register, Clip, Pack;
      var lastEnt, width := maxEnt, nBits;
      CodeFits(cfg, T(), 0);
      CheckedWords(Counts(), maxEnt >= cfg.MaxMaxCode());
      ghost var bits := Sent(bytes, inUse);
      assert bits + [] == bits;
      cleared := Check();
      if cleared {
        assert Pow2(9) == 512;
        Pow2Monotone(9, width);
        var bitno', accm';
        ghost var bytes', inUse';
        bitno', accm', bytes', inUse' := Output(CLEAR, width, bitno, accm, out, header, bytes, inUse);
        PutDribble(out, bitno', accm', header, bytes', inUse');
      } else {
        PutDribble(out, bitno, accm, header, bytes, inUse);
      }
      if lastEnt >= mxcode && lastEnt < cfg.MaxMaxCode() {
        nBits := nBits + 1;
      }
    }

    /**
     * bsd_compress; with no output buffer it is bsd_incomp. The second result says whether the dictionary was cleared.
     * A buffer that runs full loses bytes, and then the packet counts as incompressible.
     */
    method Compress(input: seq<Byte>, out: Skb?, proto: int) returns (ret: nat, cleared: bool)
      requires Valid() && (out != null ==> out.data == [])
      modifies this, dict, lens, out
      ensures Valid()
      ensures !CompressibleProto(proto) ==>
        && ret == 0 && !cleared && T() == old(T()) && seqno == old(seqno) && Counts() == old(Counts())
        && Lengths() == old(Lengths()) && (out != null ==> out.data == [])
      ensures CompressibleProto(proto) ==>
        && T() == EncodePacket(cfg, old(T()), proto, input, cleared).t
        && (cleared ==> Encode(cfg, old(T()), proto, input).t.maxEnt >= cfg.MaxMaxCode())
        && seqno == (old(seqno) + 1) % 0x1_0000
        && (out != null ==>
          out.data == Clip(Frame(cfg, old(T()), old(seqno), proto, input, cleared, out.capacity), out.capacity))
        && ret == (if out == null || |out.data| >= |input| then 0 else |out.data|)
        && (Counts(), cleared) == CheckRatio(
             Billed(cfg, old(T()), old(seqno), old(Counts()), proto, input, if out == null then 0 else out.capacity),
             Encode(cfg, old(T()), proto, input).t.maxEnt >= cfg.MaxMaxCode())
      ensures old(LensOk(Lengths(), T())) ==> LensOk(Lengths(), T())
    {
      hide Sound, Sent, LensOk, LensFrame, Register, Encode, CheckRatio, Clip, Pack, Header, Words;
      ret, cleared := 0, false;
      if !CompressibleProto(proto) {
        return;
      }
      ghost var t0 := T();
      ghost var room := if out == null then 0 else out.capacity;
      ghost var header := Header(seqno, room);
      PutHeader(out);
      var bitno, accm, mxcode;
      ghost var bytes, inUse;
      bitno, accm, mxcode, bytes, inUse := EmitCodes(input, out, proto, header);
      WholeBytesSent(bytes, inUse, bitno, accm);
      ghost var t1 := T();
      Bill(|input| + 1, if out == null then 0 else |out.data|, bitno);
      assert out == null ==> Clip(header + bytes, room) == [] by {
        ClipNone(header + bytes);
      }
      assert Counts() == Billed(cfg, t0, old(seqno), old(Counts()), proto, input, room);
      EndedSteady(cfg, t1);
      ghost var sent := Sent(bytes, inUse);
      assert sent + [] == sent;
      cleared := EndPacket(out, mxcode, bitno, accm, header, bytes, inUse);
      assert EncodePacket(cfg, t0, proto, input, cleared).bits == sent + if cleared then OfNat(CLEAR, t1.nBits) else [];
      if out == null || |out.data| >= |input| {
        return;
      }
      ret := |out.data|;
    }

    /**
     * Lay the string of a code out from its end. On tables that are in order this writes exactly that string; on any
     * tables it stops within codelen bytes.
     */
    method ExpandCode(out: Skb, code: nat, codelen: nat) returns (ok: bool, first: Byte)
      requires dict.Length > 0 && code < dict.Length && (code < 256 ==> codelen == 1)
      requires |out.data| + codelen <= out.capacity
      modifies out
      ensures ok ==> |out.data| == |old(out.data)| + codelen
      ensures Chained(T()) && IsCode(T(), code) && codelen == |Str(T(), code)| ==>
        ok && out.data == old(out.data) + Str(T(), code) && first == Str(T(), code)[0]
    {
      hide Chained, Str;
      var base := |out.data|;
      ghost var good := Chained(T()) && IsCode(T(), code) && codelen == |Str(T(), code)|;
      assert |seq<Byte>(codelen, _ => 0)| == codelen;
      var junk: seq<Byte> :| |junk| == codelen;
      out.data := out.data + junk;
      var p, left := base + codelen, codelen;
      var finchar: nat := code;
      ok, first := true, 0;
      while finchar > 255
        invariant p == base + left && |out.data| == base + codelen && left <= codelen && (finchar < 256 ==> left >= 1)
        invariant out.data[..base] == old(out.data)
        invariant good ==>
          IsCode(T(), finchar) && left == |Str(T(), finchar)| &&
          Str(T(), code) == Str(T(), finchar) + out.data[p..]
        decreases left
      {
        var at := if finchar < dict.Length then dict[finchar].cptr else dict[0].cptr;
        var e := if at < dict.Length then dict[at] else dict[0];
        left := left - 1;
        if good {
          StrUnfold(T(), finchar);
        }
        if left <= 0 || e.codem1 != finchar - 1 {
          return false, 0;
        }
        p := p - 1;
        ghost var was := out.data;
        out.data := out.data[p := Suffix(e.fcode)];
        assert out.data[p..] == [Suffix(e.fcode)] + was[p + 1..];
        finchar := Prefix(e.fcode);
      }
      p := p - 1;
      ghost var was := out.data;
      out.data := out.data[p := finchar];
      first := finchar;
      assert out.data[p..] == [finchar] + was[p + 1..];
      if good {
        assert p == base;
        assert out.data == out.data[..base] + out.data[base..];
      }
    }

    /** The entry for the previous code and the first byte of this string, with its length and the new code width. */
    method AddReceived(prev: nat, first: Byte, tgtbitno: nat) returns (tgtbitno': nat)
      requires Steady(cfg, T()) && prev <= cfg.MaxMaxCode() && maxEnt < cfg.MaxMaxCode() && tgtbitno == 32 - nBits
      requires LensFrame(cfg, Lengths()) && (lens != null ==> lens.Length > 0)
      modifies dict, lens, this`maxEnt, this`nBits
      ensures T() == Widen(cfg, Advance(cfg, old(T()), Some(prev), first)) && Steady(cfg, T())
      ensures tgtbitno' == 32 - nBits
      ensures LensFrame(cfg, Lengths())
      ensures old(LensOk(Lengths(), T()) && IsCode(T(), prev)) ==> LensOk(Lengths(), T())
    {
      hide Sound, Chained, LensOk, Install, InstalledSlot, SlotOk, Hash, Pow2;
      ghost var t := T();
      tgtbitno' := tgtbitno;
      SteadySound(cfg, t);
      SteadyRoom(cfg, t);
      ReceivedLens(cfg, t, prev, first, Lengths());
      HashInRange(cfg, prev, first);
      var hval := FindFree(prev, first);
      Enter(hval, Key(prev, first));
      assert T() == Advance(cfg, t, Some(prev), first);
      assert lens != null ==> maxEnt < lens.Length && prev < lens.Length;
      hide LensFrame, Advance;
      NoteLength(maxEnt, prev);
      if maxEnt >= MaxCode(nBits) && maxEnt < cfg.MaxMaxCode() {
        nBits := nBits + 1;
        tgtbitno' := 32 - nBits;
      }
      assert T() == Widen(cfg, Advance(cfg, t, Some(prev), first));
      assert Lengths() == NotedLength(old(Lengths()), t.maxEnt + 1, prev);
      CodeFits(cfg, T(), 0);
    }

    method Received(n: nat)
      requires Words(Counts())
      modifies this`bytesOut
      ensures Words(Counts()) && Counts() == old(Counts()).(bytesOut := (old(bytesOut) + n) % U32)
    {
      bytesOut := (bytesOut + n) % U32;
    }

    method CountDecoded(n: nat)
      requires Words(Counts())
      modifies this`inCount
      ensures Words(Counts()) && Counts() == old(Counts()).(inCount := (old(inCount) + n) % U32)
    {
      inCount := (inCount + n) % U32;
    }

    /** Lay out one string, KwKwK or not, and make the entry for the string before it. */
    method TakeString(out: Skb, code: nat, prev: nat, tgtbitno: nat) returns (ok: bool, tgtbitno': nat)
      requires Steady(cfg, T()) && lens != null && lens.Length > 0 && LensFrame(cfg, Lengths()) &&
        tgtbitno == 32 - nBits
      requires code <= cfg.MaxMaxCode() && prev <= cfg.MaxMaxCode() && code != CLEAR &&
        (code > maxEnt ==> prev != CLEAR)
      requires |out.data| <= out.capacity
      modifies dict, lens, this`maxEnt, this`nBits, out
      ensures Steady(cfg, T()) && LensFrame(cfg, Lengths()) && tgtbitno' == 32 - nBits
      ensures ok ==> |old(out.data)| <= |out.data| <= out.capacity
      ensures old(LensOk(Lengths(), T()) && (prev != CLEAR ==> IsCode(T(), prev)) &&
        (IsCode(T(), code) || code == maxEnt + 1)) ==>
        var s := Meaning(old(T()), PrevOf(prev), code);
        if |s| > out.capacity - |old(out.data)| then !ok
        else
          ok && out.data == old(out.data) + s && T() == Widen(cfg, Advance(cfg, old(T()), PrevOf(prev), s[0])) &&
          LensOk(Lengths(), T())
    {
      hide Sound, Chained, LensOk, Advance, Str, Pow2;
      ghost var t := T();
      ghost var good := LensOk(Lengths(), t) && (prev != CLEAR ==> IsCode(t, prev)) &&
        (IsCode(t, code) || code == maxEnt + 1);
      SoundSizes(cfg, t);
      var finchar, extra := code, 0;
      if code > maxEnt {
        finchar, extra := prev, 1;
      }
      tgtbitno' := tgtbitno;
      LensAt(Lengths(), t, finchar);
      var codelen := lens[finchar];
      assert codelen == Lengths()[finchar];
      ghost var s := if good then Meaning(t, PrevOf(prev), code) else [0];
      if good {
        assert IsCode(t, finchar) && codelen == |Str(t, finchar)|;
        assert s == if extra == 1 then Str(t, finchar) + [Str(t, finchar)[0]] else Str(t, finchar);
      }
      ghost var before := out.data;
      if out.capacity - |out.data| < codelen + extra {
        return false, tgtbitno;
      }
      var first;
      ok, first := ExpandCode(out, finchar, codelen);
      if !ok {
        return;
      }
      if extra == 1 {
        out.data := out.data + [first];
      }
      assert good ==> out.data == before + s && first == s[0];
      NoAdvance(cfg, t, PrevOf(prev), first);
      if prev != CLEAR && maxEnt < cfg.MaxMaxCode() {
        tgtbitno' := AddReceived(prev, first, tgtbitno);
      }
    }

    /** The decoding loop of bsd_decompress. */
    method DecodeCodes(input: seq<Byte>, out: Skb) returns (ok: bool)
      requires Valid() && lens != null && |input| >= 2 && out.data == [0] && out.capacity >= 1
      modifies this`nBits, this`maxEnt, this`inCount, this`bytesOut, this`ratio, this`checkpoint, dict, lens, out
      ensures Valid()
      ensures old(LensOk(Lengths(), T())) ==>
        match Decode(cfg, old(T()), None, BytesToBits(input[2..]), out.capacity - 1)
        case Ok(s, t, cleared) => ok && out.data == [0] + s && LensOk(Lengths(), T()) && T() == t
          && Counts() == (if cleared then CLEARED_COUNTERS else old(Counts()).(inCount := (old(inCount) + |s|) % U32))
        case Fatal => !ok
        case Malformed => true
    {
      hide Sound, Chained, LensOk, LensFrame, Register, Decoding, Decode, Meaning, Words, Advance, Steady, Low, Shr,
        Shl, ToNat, BytesToBits, ByteBits, Widen, Str, MaxCode;
      ghost var t0, good0 := T(), LensOk(Lengths(), T());
      LensChained(Lengths(), t0);
      SteadySound(cfg, t0);
      ghost var whole := if good0 then Decode(cfg, t0, None, BytesToBits(input[2..]), out.capacity - 1) else Fatal;
      ghost var good, inUse := good0, [];
      var pos, prev: nat := 2, CLEAR;
      var bitno: nat, accm: nat, tgtbitno := 32, 0, 32 - nBits;
      EmptyRegister();
      if good {
        DecodingStart(cfg, t0, BytesToBits(input[2..]), out.capacity - 1);
        assert [] + BytesToBits(input[2..]) == BytesToBits(input[2..]);
        assert out.data[1..] == [];
      }
      while true
        invariant Valid() && 9 <= nBits <= 15 && 256 < cfg.MaxMaxCode() && Counts() == old(Counts())
        invariant Register(accm, bitno, inUse) && |inUse| < nBits && |inUse| == 32 - bitno && tgtbitno == 32 - nBits
        invariant 2 <= pos <= |input| && prev <= cfg.MaxMaxCode() && 1 <= |out.data| <= out.capacity
        invariant good ==> LensOk(Lengths(), T()) && out.data[0] == 0 && Decoding(cfg, whole, T(), PrevOf(prev),
                             inUse + BytesToBits(input[pos..]), out.capacity - |out.data|, out.data[1..])
        invariant good0 && !good ==> whole == Malformed
        decreases |input| - pos
      {
        ghost var t, room, sofar := T(), out.capacity - |out.data|, out.data[1..];
        SteadySound(cfg, t);
        if pos == |input| {
          if good {
            assert inUse + BytesToBits(input[pos..]) == inUse by { NoBytes(input[pos..]); }
            DecodingEnd(cfg, whole, t, PrevOf(prev), inUse, room, sofar);
          }
          CountDecoded(|out.data| - 1);
          ok := true;
          break;
        }
        AddByte(accm, bitno, inUse, input[pos..]);
        bitno := bitno - 8;
        accm := accm + Shl(input[pos], bitno);
        inUse := inUse + ByteBits(input[pos]);
        pos := pos + 1;
        if tgtbitno < bitno {
          continue;
        }
        TakeCode(accm, bitno, inUse, nBits);
        TakeBits(inUse, BytesToBits(input[pos..]), nBits);
        ghost var bits := inUse + BytesToBits(input[pos..]);
        var incode := Shr(accm, tgtbitno);
        accm := Low(Shl(accm, nBits), 32);
        bitno := bitno + nBits;
        inUse := inUse[nBits..];
        if good {
          DecodingCode(cfg, whole, t, PrevOf(prev), bits, room, sofar);
        }
        if incode == CLEAR {
          if pos < |input| {
            return false;
          }
          ClearInBand();
          ok := true;
          break;
        }
        if incode > maxEnt + 2 || incode > cfg.MaxMaxCode() || (incode > maxEnt && prev == CLEAR) {
          return false;
        }
        if incode == maxEnt + 2 {
          good := false;
        }
        if good {
          DecodingFacts(cfg, whole, t, PrevOf(prev), bits, room, sofar);
          DecodingString(cfg, whole, t, PrevOf(prev), bits, room, sofar);
        }
        ok, tgtbitno := TakeString(out, incode, prev, tgtbitno);
        SteadySound(cfg, T());
        if !ok {
          return;
        }
        if good {
          assert out.data[1..] == sofar + Meaning(t, PrevOf(prev), incode);
        }
        prev := incode;
      }
    }

    /** An in-band CLEAR: the dictionary is emptied and the strings of the literals stay. */
    method ClearInBand()
      requires Valid()
      modifies this`nBits, this`maxEnt, this`inCount, this`bytesOut, this`ratio, this`checkpoint
      ensures Valid() && T() == Cleared(old(T())) && Lengths() == old(Lengths()) && Counts() == CLEARED_COUNTERS
      ensures old(LensOk(Lengths(), T())) ==> LensOk(Lengths(), T())
    {
      EndedSteady(cfg, T());
      Clear();
    }

    /**
     * bsd_decompress. On tables in order it does what Decode says: the string of every code, tables one string behind,
     * and an error exactly where Decode finds one. What it does after a code that no compressor sends is only bounded.
     */
    method Decompress(input: seq<Byte>, out: Skb) returns (ret: Verdict, selfCleared: bool)
      requires Valid() && lens != null && out.data == []
      modifies this, dict, lens, out
      ensures Valid()
      ensures !InSequence(input, old(seqno)) ==>
        ret == Refused && !selfCleared && T() == old(T()) && seqno == old(seqno) && out.data == []
      ensures InSequence(input, old(seqno)) ==> seqno == (old(seqno) + 1) % 0x1_0000
      ensures InSequence(input, old(seqno)) && out.capacity == 0 ==> ret == NoMemory && !selfCleared && T() == old(T())
      ensures InSequence(input, old(seqno)) && out.capacity > 0 && old(LensOk(Lengths(), T())) ==>
        match Decode(cfg, old(T()), None, BytesToBits(input[2..]), out.capacity - 1)
        case Ok(s, t, cleared) => ret == Length(1 + |s|) && out.data == [0] + s && LensOk(Lengths(), T())
          && T() == (if selfCleared then Cleared(t) else t)
          && (selfCleared ==> !withAbc && t.maxEnt >= cfg.MaxMaxCode())
          && (Counts(), selfCleared) == (var c := ReceivedCounts(old(Counts()), |s|, |input| - 2, cleared);
               if withAbc then (c, false) else CheckRatio(c, t.maxEnt >= cfg.MaxMaxCode()))
        case Fatal => ret == FatalError
        case Malformed => true
    {
      hide Sound, Chained, LensOk, LensFrame, Decode, Words, CheckRatio, Steady;
      ret, selfCleared := Refused, false;
      if |input| < 2 || input[0] as int * 256 + input[1] as int != seqno {
        return;
      }
      seqno := (seqno + 1) % 0x1_0000;
      Received(|input| - 2);
      if out.capacity == 0 {
        return NoMemory, false;
      }
      out.data := [0];
      var ok := DecodeCodes(input, out);
      if !ok {
        return FatalError, false;
      }
      if !withAbc {
        SteadySound(cfg, T());
        EndedSteady(cfg, T());
        CheckedWords(Counts(), maxEnt >= cfg.MaxMaxCode());
        selfCleared := Check();
      }
      ret := Length(|out.data|);
    }
  }

  method PutDribble(out: Skb?, bitno: nat, accm: nat, ghost header: seq<Byte>, ghost bytes: seq<Byte>,
                    ghost inUse: seq<bool>)
    requires Register(accm, bitno, inUse) && |inUse| < 8
    requires out != null ==> out.data == Clip(header + bytes, out.capacity)
    modifies out
    ensures var bits := Sent(bytes, inUse);
      out != null ==> out.data == Clip(header + Pack(Padded(bits)), out.capacity)
  {
    hide Clip, Pack, Shr, Shl, Sent;
    FinalBytes(accm, bitno, bytes, inUse);
    if bitno < 32 && out != null {
      var b: Byte := Shr(accm + Shl(255, bitno - 8), 24);
      out.PutIfRoom(b, header + bytes);
      assert header + bytes + [b] == header + (bytes + [b]);
    }

  }

  lemma ClipNone(s: seq<Byte>)
    ensures Clip(s, 0) == []
  {
  }

  /** The whole bytes of what has been sent, and how its dribble bits show in the register. */
  lemma WholeBytesSent(bytes: seq<Byte>, inUse: seq<bool>, bitno: nat, accm: nat)
    requires Register(accm, bitno, inUse) && |inUse| < 8
    ensures Pack(WholeBytes(Sent(bytes, inUse))) == bytes
    ensures |Sent(bytes, inUse)| % 8 != 0 <==> bitno < 32
  {
    assert WholeBytes(Sent(bytes, inUse)) == BytesToBits(bytes);
    PackUnique(bytes);
  }

  /** The last byte: the dribble bits and ones. */
  lemma FinalBytes(accm: nat, bitno: nat, bytes: seq<Byte>, inUse: seq<bool>)
    requires Register(accm, bitno, inUse) && |inUse| < 8 && bitno == 32 - |inUse|
    ensures var bits := Sent(bytes, inUse);
      if bitno < 32 then
        && Shr(accm + Shl(255, bitno - 8), 24) < 256
        && Pack(Padded(bits)) == bytes + [Shr(accm + Shl(255, bitno - 8), 24)]
      else Pack(Padded(bits)) == bytes
  {
    hide Register, Pack, ToNat, Shr, Shl;
    PackUnique(bytes);
    PaddingOf(|bytes|, |inUse|);
    if inUse != [] {
      PadByte(accm, bitno, inUse);
      var b: Byte := Shr(accm + Shl(255, bitno - 8), 24);
      LastByte(BytesToBits(bytes), b);
      assert Sent(bytes, inUse) + Ones(8 - |inUse|) == BytesToBits(bytes) + (inUse + Ones(8 - |inUse|));
    } else {
      assert Sent(bytes, inUse) + [] == BytesToBits(bytes);
    }
  }

  lemma PaddingOf(bytes: nat, dribble: nat)
    requires dribble < 8
    ensures Padding(8 * bytes + dribble) == if dribble == 0 then [] else Ones(8 - dribble)
  {
  }

  lemma {:induction false} AllOnes(w: nat)
    ensures OfNat(Pow2(w) - 1, w) == Ones(w)
  {
    if w > 0 {
      AllOnes(w - 1);
    }
  }

  lemma PadByte(accm: nat, bitno: nat, inUse: seq<bool>)
    requires Register(accm, bitno, inUse) && 0 < |inUse| < 8
    ensures bitno >= 8
    ensures var b := Shr(accm + Shl(255, bitno - 8), 24);
      b < 256 && ByteBits(b) == inUse + Ones(8 - |inUse|)
  {
    AllOnes(8);
    assert Pow2(8) == 256;
    hide ToNat, OfNat, Shl, Shr;
    AddField(accm, bitno, inUse, 255, 8);
    TopByte(accm + Shl(255, bitno - 8), bitno - 8, inUse + Ones(8));
    assert (inUse + Ones(8))[..8] == inUse + Ones(8 - |inUse|);
  }

  /** One link of a code chain. */
  lemma StrUnfold(t: Tables, c: nat)
    requires Chained(t) && IsCode(t, c) && c > 255
    ensures c < |t.dict| && SlotOf(t, c) < |t.dict|
    ensures var e := t.dict[SlotOf(t, c)];
      && e.codem1 == c - 1 && IsCode(t, Prefix(e.fcode))
      && Str(t, c) == Str(t, Prefix(e.fcode)) + [Suffix(e.fcode)] && |Str(t, c)| >= 2
  {
    assert LinkOk(t, c);
  }

  lemma SteadyRoom(cfg: Config, t: Tables)
    requires Steady(cfg, t) && t.maxEnt < cfg.MaxMaxCode()
    ensures Room(cfg, t)
  {
    WidenSound(cfg, t);
  }

  lemma ReceivedLens(cfg: Config, t: Tables, prev: nat, c: Byte, l: seq<nat>)
    requires Steady(cfg, t) && prev <= cfg.MaxMaxCode() && t.maxEnt < cfg.MaxMaxCode() && LensFrame(cfg, l)
    ensures var u := Advance(cfg, t, Some(prev), c);
      var l' := NotedLength(l, t.maxEnt + 1, prev);
      && Sound(cfg, u) && Steady(cfg, Widen(cfg, u)) && LensFrame(cfg, l')
      && (LensOk(l, t) && IsCode(t, prev) ==> LensOk(l', Widen(cfg, u)))
  {
    hide InstalledSlot, SlotOk, LinkOk, Str, Key, Search, Live;
    var h := Hash(cfg, prev, c);
    HashInRange(cfg, prev, c);
    ConfigFacts(cfg);
    FirstDeadFound(cfg, t, h, 0);
    SteadyRoom(cfg, t);
    var slot := FirstDead(t, h, 0).value;
    InstallSound(cfg, t, slot, Key(prev, c));
    var u := Install(t, slot, Key(prev, c));
    WidenSound(cfg, u);
    assert u == Advance(cfg, t, Some(prev), c);
    if LensOk(l, t) && IsCode(t, prev) {
      LensGrow(cfg, t, slot, prev, c, l);
      GrowIsInstall(cfg, t, slot, Key(prev, c));
      ChainedWidened(cfg, u);
      hide Install, Sound, Chained, Advance;
    }
  }

  lemma GrowIsInstall(cfg: Config, t: Tables, slot: nat, key: nat)
    requires Steady(cfg, t) && Room(cfg, t) && slot < |t.dict|
    ensures Grow(cfg, t, slot, key) == Install(t, slot, key)
  {
  }

  function PrevOf(prev: nat): Option<nat> {
    if prev == CLEAR then None else Some(prev)
  }

  lemma SoundSizes(cfg: Config, t: Tables)
    requires Sound(cfg, t)
    ensures 256 < cfg.MaxMaxCode() < cfg.hsize == |t.dict| && 256 <= t.maxEnt <= cfg.MaxMaxCode()
  {
    ConfigFacts(cfg);
  }

  lemma SteadySound(cfg: Config, t: Tables)
    requires Steady(cfg, t)
    ensures Sound(cfg, t) && ValidConfig(cfg) && 9 <= t.nBits <= 15 && 256 < cfg.MaxMaxCode() && 256 <= t.maxEnt
  {
    ConfigFacts(cfg);
  }

  lemma NoBytes(s: seq<Byte>)
    requires s == []
    ensures BytesToBits(s) == []
  {
  }

  lemma TakeBits(a: seq<bool>, b: seq<bool>, n: nat)
    requires n <= |a|
    ensures (a + b)[..n] == a[..n] && (a + b)[n..] == a[n..] + b
  {
  }

  lemma LensChained(l: seq<nat>, t: Tables)
    ensures LensOk(l, t) ==> Chained(t)
  {
  }

  lemma LensAt(l: seq<nat>, t: Tables, c: nat)
    ensures LensOk(l, t) ==> Chained(t) && (c < |l| && IsCode(t, c) ==> l[c] == |Str(t, c)|)
  {
  }

  lemma NoAdvance(cfg: Config, t: Tables, prev: Option<nat>, c: Byte)
    requires Steady(cfg, t) && (prev.Some? ==> prev.value <= cfg.MaxMaxCode())
    ensures prev.None? || t.maxEnt >= cfg.MaxMaxCode() ==> Widen(cfg, Advance(cfg, t, prev, c)) == t
  {
  }

  lemma AddByte(accm: nat, bitno: nat, inUse: seq<bool>, rest: seq<Byte>)
    requires Register(accm, bitno, inUse) && bitno >= 8 && rest != []
    ensures Register(accm + Shl(rest[0], bitno - 8), bitno - 8, inUse + ByteBits(rest[0]))
    ensures inUse + BytesToBits(rest) == inUse + ByteBits(rest[0]) + BytesToBits(rest[1..])
  {
    assert Pow2(8) == 256;
    AddField(accm, bitno, inUse, rest[0], 8);
    assert [rest[0]] + rest[1..] == rest;
    BytesToBitsConcat([rest[0]], rest[1..]);
    assert BytesToBits([rest[0]]) == ByteBits(rest[0]);
  }

  // ----- a packet half decoded -----

  /** What has been decoded, and what the remaining bits will be decoded to, make up the whole. */
  ghost predicate Decoding(cfg: Config, whole: Decoded, t: Tables, prev: Option<nat>, bits: seq<bool>, room: nat,
                           sofar: seq<Byte>)
  {
    Steady(cfg, t) && Chained(t) && (prev.Some? ==> IsCode(t, prev.value)) &&
    whole == Decode(cfg, t, prev, bits, room).Prepend(sofar)
  }

  lemma DecodingFacts(cfg: Config, whole: Decoded, t: Tables, prev: Option<nat>, bits: seq<bool>, room: nat,
                      sofar: seq<Byte>)
    requires Decoding(cfg, whole, t, prev, bits, room, sofar)
    ensures Chained(t) && (prev.Some? ==> IsCode(t, prev.value))
  {
  }

  lemma DecodingStart(cfg: Config, t: Tables, bits: seq<bool>, room: nat)
    requires Steady(cfg, t) && Chained(t)
    ensures Decoding(cfg, Decode(cfg, t, None, bits, room), t, None, bits, room, [])
  {
    match Decode(cfg, t, None, bits, room)
    case Ok(s, _, _) => assert [] + s == s;
    case _ =>
  }

  lemma DecodingEnd(cfg: Config, whole: Decoded, t: Tables, prev: Option<nat>, bits: seq<bool>, room: nat,
                    sofar: seq<Byte>)
    requires Decoding(cfg, whole, t, prev, bits, room, sofar) && |bits| < t.nBits
    ensures whole == Ok(sofar, t, false)
  {
    assert sofar + [] == sofar;
  }

  /** The tests on a code before its string is laid out. */
  lemma DecodingCode(cfg: Config, whole: Decoded, t: Tables, prev: Option<nat>, bits: seq<bool>, room: nat,
                     sofar: seq<Byte>)
    requires Decoding(cfg, whole, t, prev, bits, room, sofar) && |bits| >= t.nBits
    ensures var code, rest := ToNat(bits[..t.nBits]), bits[t.nBits..];
      && (code == CLEAR ==> whole == if |rest| >= 8 then Fatal else Ok(sofar, Cleared(t), true))
      && (code != CLEAR && Rejected(cfg, t, prev, code) ==> whole == Fatal)
      && (code != CLEAR && !Rejected(cfg, t, prev, code) && code == t.maxEnt + 2 ==> whole == Malformed)
  {
    assert sofar + [] == sofar;
  }

  predicate Rejected(cfg: Config, t: Tables, prev: Option<nat>, code: nat) {
    code > t.maxEnt + 2 || code > cfg.MaxMaxCode() || (code > t.maxEnt && prev.None?)
  }

  /** A code that is known, or is the one after the newest. */
  lemma DecodingString(cfg: Config, whole: Decoded, t: Tables, prev: Option<nat>, bits: seq<bool>, room: nat,
                       sofar: seq<Byte>)
    requires Decoding(cfg, whole, t, prev, bits, room, sofar) && |bits| >= t.nBits
    requires var code := ToNat(bits[..t.nBits]); code != CLEAR && !Rejected(cfg, t, prev, code) && code != t.maxEnt + 2
    ensures var code, rest := ToNat(bits[..t.nBits]), bits[t.nBits..];
      && (IsCode(t, code) || prev.Some?)
      && var s := Meaning(t, prev, code);
      && (|s| > room ==> whole == Fatal)
      && (|s| <= room ==>
        Decoding(cfg, whole, Widen(cfg, Advance(cfg, t, prev, s[0])), Some(code), rest, room - |s|, sofar + s))
  {
    hide Str, Install, FirstDead, Hash, SlotOk, LinkOk, ToNat, Advance;
    var code, rest := ToNat(bits[..t.nBits]), bits[t.nBits..];
    var s := Meaning(t, prev, code);
    AdvanceKeeps(cfg, t, prev, s[0]);
    if |s| <= room {
      match Decode(cfg, Widen(cfg, Advance(cfg, t, prev, s[0])), Some(code), rest, room - |s|)
      case Ok(o, _, _) => assert sofar + (s + o) == sofar + s + o;
      case _ =>
    }
  }

  lemma EndedSteady(cfg: Config, t: Tables)
    requires Sound(cfg, t)
    ensures Steady(cfg, Cleared(t)) && Steady(cfg, Widen(cfg, t))
    ensures forall l: seq<nat> :: LensFrame(cfg, l) && LensOk(l, t) ==>
      LensOk(l, Cleared(t)) && LensOk(l, Widen(cfg, t))
  {
    ClearedSettled(cfg, t);
    WidenSound(cfg, t);
    if Chained(t) {
      ChainedWidened(cfg, t);
    }
  }

  /** A packet half coded: what has been sent, and what the rest will be coded to, make up the whole. */
  ghost predicate Coding(cfg: Config, whole: Encoded, t: Tables, sent: seq<bool>, ent: nat, rest: seq<Byte>)
    requires Sound(cfg, t) && IsCode(t, ent)
  {
    whole == Encoded(sent + Encode(cfg, t, ent, rest).bits, Encode(cfg, t, ent, rest).t)
  }

  lemma CodingStart(cfg: Config, t: Tables, ent: nat, data: seq<Byte>)
    requires Sound(cfg, t) && IsCode(t, ent)
    ensures Coding(cfg, Encode(cfg, t, ent, data), t, [], ent, data)
  {
    assert [] + Encode(cfg, t, ent, data).bits == Encode(cfg, t, ent, data).bits;
  }

  lemma CodingMatch(cfg: Config, whole: Encoded, t: Tables, sent: seq<bool>, ent: nat, rest: seq<Byte>)
    requires Sound(cfg, t) && IsCode(t, ent) && rest != [] && Hash(cfg, ent, rest[0]) < |t.dict| && 1 < |t.dict|
    requires Coding(cfg, whole, t, sent, ent, rest) && Search(t, Hash(cfg, ent, rest[0]), Key(ent, rest[0]), 0).Found?
    ensures var code := Search(t, Hash(cfg, ent, rest[0]), Key(ent, rest[0]), 0).code;
      IsCode(t, code) && Coding(cfg, whole, t, sent, code, rest[1..])
  {
    EncodeMatch(cfg, t, ent, rest);
  }

  lemma CodingMiss(cfg: Config, whole: Encoded, t: Tables, sent: seq<bool>, ent: nat, rest: seq<Byte>)
    requires Sound(cfg, t) && IsCode(t, ent) && rest != [] && Hash(cfg, ent, rest[0]) < |t.dict| && 1 < |t.dict|
    requires Coding(cfg, whole, t, sent, ent, rest) && Search(t, Hash(cfg, ent, rest[0]), Key(ent, rest[0]), 0).Vacant?
    ensures var slot := Search(t, Hash(cfg, ent, rest[0]), Key(ent, rest[0]), 0).slot;
      && slot < |t.dict| && !Live(t, slot) && Sound(cfg, Grow(cfg, t, slot, Key(ent, rest[0])))
      && Coding(cfg, whole, Grow(cfg, t, slot, Key(ent, rest[0])), sent + OfNat(ent, t.nBits), rest[0], rest[1..])
  {
    SearchSound(cfg, t, ent, rest[0]);
    EncodeMiss(cfg, t, ent, rest);
    var slot := Search(t, Hash(cfg, ent, rest[0]), Key(ent, rest[0]), 0).slot;
    var e := Encode(cfg, Grow(cfg, t, slot, Key(ent, rest[0])), rest[0], rest[1..]);
    assert sent + (OfNat(ent, t.nBits) + e.bits) == sent + OfNat(ent, t.nBits) + e.bits;
  }

  lemma CodingEnd(cfg: Config, whole: Encoded, t: Tables, sent: seq<bool>, ent: nat)
    requires Sound(cfg, t) && IsCode(t, ent) && Coding(cfg, whole, t, sent, ent, [])
    ensures whole == Encoded(sent + OfNat(ent, t.nBits), t)
  {
  }

  lemma EmptyRegister()
    ensures Register(0, 32, []) && Sent([], []) == []
  {
    ToNatZeros(32);
    assert [] + Zeros(32) == Zeros(32);
  }

  /** A code in use can be sent in the current width. */
  lemma CodeFits(cfg: Config, t: Tables, ent: nat)
    requires Sound(cfg, t) && IsCode(t, ent)
    ensures 9 <= t.nBits <= 15 && ent < Pow2(t.nBits)
  {
  }

  /** The sequence number in front of the codes, if the buffer has room for it. */
  ghost function Header(seqno: nat, room: nat): seq<Byte>
    requires seqno < 0x1_0000
  {
    if room >= 2 then [seqno / 256, seqno % 256] else []
  }

  /**
   * A compressed packet: header, codes, CLEAR if the dictionary is full and no longer pays, and dribble bits of one.
   */
  ghost function Frame(cfg: Config, t: Tables, seqno: nat, proto: Byte, data: seq<Byte>, clear: bool,
                       room: nat): seq<Byte>
    requires Sound(cfg, t) && seqno < 0x1_0000
  {
    var bits := EncodePacket(cfg, t, proto, data, clear).bits;
    Header(seqno, room) + Pack(Padded(bits))
  }

  function WholeBytes(b: seq<bool>): (r: seq<bool>)
    ensures |r| % 8 == 0
  {
    b[..|b| / 8 * 8]
  }

  /** The counters before bsd_check; the bytes of a missing buffer are not counted, and CLEAR never is. */
  ghost function Billed(cfg: Config, t: Tables, seqno: nat, c: Counters, proto: Byte, data: seq<Byte>,
                        room: nat): Counters
    requires Sound(cfg, t) && seqno < 0x1_0000
  {
    var bits := Encode(cfg, t, proto, data).bits;
    var whole := Clip(Header(seqno, room) + Pack(WholeBytes(bits)), room);
    BilledBytes(c, |data| + 1, |whole|, |bits| % 8 != 0)
  }

  function BilledBytes(c: Counters, bytesIn: nat, bytesSoFar: nat, dribble: bool): Counters {
    var bytesOut := (c.bytesOut + bytesSoFar) % U32;
    c.(inCount := (c.inCount + bytesIn) % U32, bytesOut := if dribble then (bytesOut + 1) % U32 else bytesOut)
  }

  /** There is a length for every code, and literals have length one. */
  ghost predicate LensFrame(cfg: Config, l: seq<nat>) {
    l != [] ==> |l| == cfg.MaxMaxCode() + 1 && 256 <= |l| && forall c :: 0 <= c < 256 ==> l[c] == 1
  }

  /** The lengths kept are those of the strings. */
  ghost predicate LensOk(l: seq<nat>, t: Tables) {
    Chained(t) && forall c :: 0 <= c < |l| && IsCode(t, c) ==> l[c] == |Str(t, c)|
  }

  function NotedLength(l: seq<nat>, code: nat, prefix: nat): seq<nat> {
    if code < |l| && prefix < |l| then l[code := (l[prefix] + 1) % 0x1_0000] else l
  }

  function GrownLengths(cfg: Config, l: seq<nat>, t: Tables, p: nat): seq<nat> {
    if t.maxEnt < cfg.MaxMaxCode() then NotedLength(l, t.maxEnt + 1, p) else l
  }

  /** A new entry adds one string and keeps the others. */
  lemma GrowStrings(cfg: Config, t: Tables, slot: nat, p: nat, c: Byte)
    requires Sound(cfg, t) && Chained(t) && slot < |t.dict| && !Live(t, slot) && IsCode(t, p)
    ensures var t' := Grow(cfg, t, slot, Key(p, c));
      && Chained(t')
      && (forall x :: 0 <= x && IsCode(t, x) ==> IsCode(t', x) && Str(t', x) == Str(t, x))
      && (if t.maxEnt < cfg.MaxMaxCode() then t'.maxEnt == t.maxEnt + 1 && Str(t', t'.maxEnt) == Str(t, p) + [c]
        else t' == t)
  {
    if t.maxEnt < cfg.MaxMaxCode() {
      WidenSound(cfg, t);
      ChainedWidened(cfg, t);
      InstallChained(cfg, Widen(cfg, t), slot, p, c);
    }
  }

  lemma LensGrow(cfg: Config, t: Tables, slot: nat, p: nat, c: Byte, l: seq<nat>)
    requires Sound(cfg, t) && slot < |t.dict| && !Live(t, slot) && IsCode(t, p) && LensFrame(cfg, l)
    ensures LensFrame(cfg, GrownLengths(cfg, l, t, p))
    ensures LensOk(l, t) ==> LensOk(GrownLengths(cfg, l, t, p), Grow(cfg, t, slot, Key(p, c)))
  {
    hide MaxCode, SlotOk, Str, Grow;
    if LensOk(l, t) {
      GrowStrings(cfg, t, slot, p, c);
      StrShort(cfg, t, p);
      hide Sound, Chained;
      var t', l' := Grow(cfg, t, slot, Key(p, c)), GrownLengths(cfg, l, t, p);
      forall x | 0 <= x < |l'| && IsCode(t', x)
        ensures l'[x] == |Str(t', x)|
      {
        if x != t.maxEnt + 1 {
          assert IsCode(t, x);
        }
      }
    }
  }

  lemma StrShort(cfg: Config, t: Tables, p: nat)
    requires Sound(cfg, t) && Chained(t) && IsCode(t, p)
    ensures |Str(t, p)| + 1 < 0x1_0000
  {
    LengthBound(cfg);
  }

  lemma LengthBound(cfg: Config)
    requires ValidConfig(cfg)
    ensures cfg.MaxMaxCode() < 0x1_0000 - 1
  {
    Pow2Monotone(cfg.maxBits, 15);
    assert Pow2(15) == 32768;
  }

  lemma ChainedWidened(cfg: Config, t: Tables)
    requires Chained(t)
    ensures Chained(Widen(cfg, t)) && forall x :: 0 <= x && IsCode(t, x) ==> Str(Widen(cfg, t), x) == Str(t, x)
  {
    var u := Widen(cfg, t);
    forall c | 256 < c <= u.maxEnt
      ensures LinkOk(u, c)
    {
      assert LinkOk(t, c);
    }
    forall x | 0 <= x && IsCode(t, x)
      ensures Str(u, x) == Str(t, x)
    {
      SameStr(t, u.nBits, x);
    }
  }
}