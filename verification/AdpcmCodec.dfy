/** Packing of ADPCM codes into bytes and back, and the two loops around the predictor (drivers/isdn/isdn_audio.c). */
module AdpcmCodec {
  import opened Bits
  import opened AdpcmPredictor

  /** The bits of codes, one after the other. */
  function CodeBits(nbits: nat, codes: seq<nat>): (b: seq<bool>)
    ensures nbits == 2 ==> |b| == 2 * |codes|
    ensures nbits == 3 ==> |b| == 3 * |codes|
    ensures nbits == 4 ==> |b| == 4 * |codes|
  {
    if codes == [] then [] else CodeBits(nbits, codes[..|codes| - 1]) + OfNat(codes[|codes| - 1], nbits)
  }

  /** How many codes of nbits bits there are in n bits. */
  function Whole(nbits: nat, n: nat): nat { if nbits == 2 then n / 2 else if nbits == 3 then n / 3 else n / 4 }

  function Width(nbits: nat, k: nat): nat { if nbits == 2 then 2 * k else if nbits == 3 then 3 * k else 4 * k }

  /** The samples of a packet: a table gives 16 bits for each byte, of which the upper 14 are used. */
  predicate IsTable(table: seq<int>) { |table| == 256 && forall i :: 0 <= i < 256 ==> -0x8000 <= table[i] < 0x8000 }

  function Samples(table: seq<int>, data: seq<Byte>): (s: seq<int>)
    requires IsTable(table)
    ensures |s| == |data| && forall i :: 0 <= i < |s| ==> IsSample(s[i])
  {
    seq(|data|, i requires 0 <= i < |data| => table[data[i]] / 4)
  }

  function Outputs(compress: int -> Byte, values: seq<int>): seq<Byte> {
    seq(|values|, i requires 0 <= i < |values| => compress(values[i]))
  }

  class State {
    const nbits: nat
    var a: int
    var d: int
    var word: nat
    var nleft: nat
    ghost var reg: seq<bool>

    /** word is a register of 32 bits, of which the last nleft are pending. */
    ghost predicate Valid()
      reads this
    {
      IsMode(nbits) && |reg| == 32 && word == ToNat(reg) && nleft < 8
    }

    ghost function Pending(): seq<bool>
      requires Valid()
      reads this
    {
      reg[32 - nleft..]
    }

    /** isdn_audio_adpcm_init */
    constructor (nbits: nat)
      requires IsMode(nbits)
      ensures Valid() && this.nbits == nbits && Pending() == [] && Pred(a, d) == START && a == 0 && d == 5
    {
      this.nbits := nbits;
      a, d, word, nleft := 0, 5, 0, 0;
      reg := Zeros(32);
      ToNatZeros(32);
    }

    /** isdn_audio_put_bits, which appends n bits to the pending ones and gives up whole bytes. */
    method PutBits(data: nat, n: nat) returns (out: seq<Byte>)
      requires Valid() && n <= 8 && data < Pow2(n)
      modifies this`word, this`nleft, this`reg
      ensures Valid() && BytesToBits(out) + Pending() == old(Pending()) + OfNat(data, n)
    {
      hide ToNat, OfNat, Shl, Shr, Low, Pow2;
      ShiftIn(reg, data, n);
      word := Low(Shl(word, n), 32) + Low(data, n);
      reg := reg[n..] + OfNat(data, n);
      nleft := nleft + n;
      out := [];
      ghost var all := old(Pending()) + OfNat(data, n);
      assert reg[32 - nleft..] == all;
      while nleft >= 8
        invariant nleft < 16 && |reg| == 32 && word == ToNat(reg) && BytesToBits(out) + reg[32 - nleft..] == all
        decreases nleft
      {
        TopByte(reg, nleft);
        var x := Low(Shr(word, nleft - 8), 8);
        ByteOut(out, x, reg, nleft);
        out := out + [x];
        nleft := nleft - 8;
      }
    }

    /** isdn_audio_2adpcm_flush: the pending bits are filled up with zeros. */
    method Flush() returns (out: seq<Byte>)
      requires Valid()
      modifies this`word, this`nleft, this`reg
      ensures Valid() && Pending() == []
      ensures BytesToBits(out) == old(Pending()) + Zeros(if old(nleft) > 0 then 8 - old(nleft) else 0)
    {
      out := [];
      if nleft > 0 {
        FlushZeros(8 - nleft);
        ghost var n := 8 - nleft;
        out := PutBits(0, 8 - nleft);
        WholeByte(out, Pending(), old(Pending()) + OfNat(0, n));
      }
    }

    /** isdn_audio_xlaw2adpcm; the table is the one that fmt selects. */
    method Encode(table: seq<int>, data: seq<Byte>) returns (out: seq<Byte>, ghost codes: seq<nat>)
      requires Valid() && IsTable(table)
      modifies this
      ensures Valid()
      ensures (Pred(a, d), codes) == Encoded(nbits, old(Pred(a, d)), Samples(table, data))
      ensures BytesToBits(out) + Pending() == old(Pending()) + CodeBits(nbits, codes)
    {
      hide Encoded, Next, Code, CodeBits, OfNat, ToNat, BytesToBits;
      out, codes := [], [];
      ghost var p, samples := Pred(a, d), Samples(table, data);
      EncodeStart(nbits, p, Pending());
      for i := 0 to |data|
        invariant Valid() && (Pred(a, d), codes) == Encoded(nbits, p, samples[..i])
        invariant BytesToBits(out) + Pending() == old(Pending()) + CodeBits(nbits, codes)
      {
        var e := Quantise(nbits, Pred(a, d), table[data[i]] / 4);
        CodeInRange(nbits, Pred(a, d), table[data[i]] / 4);
        CodeFits(nbits, e);
        EncodeNext(nbits, p, samples, i);
        ghost var pending := Pending();
        var bytes := PutBits(e, nbits);
        Appended(out, pending, old(Pending()), nbits, codes, e, bytes, Pending());
        out := out + bytes;
        codes := codes + [e];
        Update(e);
      }
      assert samples[..|data|] == samples;
    }

    /** isdn_audio_get_bits: the next code; a byte is read when too few bits are pending. */
    method GetBits(data: seq<Byte>, pos0: nat) returns (e: nat, pos: nat)
      requires Valid() && pos0 <= |data| && (nleft >= nbits || pos0 < |data|)
      modifies this`word, this`nleft, this`reg
      ensures Valid() && pos == (if old(nleft) >= nbits then pos0 else pos0 + 1) &&
        nleft == old(nleft) + 8 * (pos - pos0) - nbits
      ensures e < Pow2(nbits) && OfNat(e, nbits) + Pending() == old(Pending()) + BytesToBits(data[pos0..pos])
    {
      hide ToNat, OfNat, Shl, Shr, Low, Pow2, BytesToBits, ByteBits;
      pos := pos0;
      NoBytes(data, pos0, reg[32 - nleft..]);
      while nleft < nbits
        invariant pos == (if nleft < nbits then pos0 else if old(nleft) >= nbits then pos0 else pos0 + 1)
        invariant nleft == old(nleft) + 8 * (pos - pos0) < nbits + 8 && |reg| == 32 && word == ToNat(reg)
        invariant reg[32 - nleft..] == old(Pending()) + BytesToBits(data[pos0..pos])
        decreases nbits - nleft
      {
        ByteIn(reg, nleft, data, pos0, pos);
        word := Low(Shl(word, 8), 32) + data[pos];
        reg := reg[8..] + ByteBits(data[pos]);
        nleft, pos := nleft + 8, pos + 1;
      }
      nleft := nleft - nbits;
      FieldOut(reg, nleft, nbits);
      e := Low(Shr(word, nleft), nbits);
    }

    /** isdn_audio_adpcm2xlaw: the codes that the bytes complete, up to the one for which the last byte is read. */
    method Decode(compress: int -> Byte, data: seq<Byte>) returns (out: seq<Byte>, ghost codes: seq<nat>)
      requires Valid()
      modifies this
      ensures Valid() && InRange(nbits, codes)
      ensures |codes| == if data == [] then 0 else Whole(nbits, old(nleft) + 8 * (|data| - 1)) + 1
      ensures CodeBits(nbits, codes) + Pending() == old(Pending()) + BytesToBits(data)
      ensures Pred(a, d) == Decoded(nbits, old(Pred(a, d)), codes).0
      ensures out == Outputs(compress, Decoded(nbits, old(Pred(a, d)), codes).1)
    {
      hide Decoded, Next, CodeBits, OfNat, ToNat, BytesToBits, Pow2, Outputs, Whole, Read, Mx, SignBit;
      out, codes := [], [];
      ghost var p := Pred(a, d);
      DecodeStart(nbits, p, Pending(), compress);
      var pos: nat := 0;
      ReadNothing(nbits, nleft, |data|);
      while pos < |data|
        invariant Valid() && InRange(nbits, codes) && pos <= |data| &&
          Read(nbits, old(nleft), |codes|, pos, |data|, nleft)
        invariant CodeBits(nbits, codes) + Pending() == old(Pending()) + BytesToBits(data[..pos])
        invariant Pred(a, d) == Decoded(nbits, p, codes).0 && out == Outputs(compress, Decoded(nbits, p, codes).1)
        decreases |data| - pos, nleft
      {
        ghost var pending, was := Pending(), pos;
        var e;
        e, pos := GetBits(data, pos);
        Fetched(nbits, codes, e, pending, data, was, pos, Pending(), old(Pending()));
        DecodeNext(nbits, p, codes, e, compress);
        ReadNext(nbits, old(nleft), |codes|, was, |data|, |pending|, pos);
        if nbits == 4 && e == 0 {
          d := 4;
        }
        Update(e);
        out := out + [compress(a)];
        codes := codes + [e];
      }
      assert data[..|data|] == data;
      LastFetch(nbits, |codes|, old(nleft), |data|, nleft);
    }

    /** The value and the step after a code. */
    method Update(e: nat)
      requires IsMode(nbits)
      modifies this`a, this`d
      ensures Pred(a, d) == Next(nbits, old(Pred(a, d)), e)
    {
      var sign := if e / SignBit(nbits) > 0 then -1 else 1;
      var m := e % SignBit(nbits);
      SignedMove(sign, m, d);
      a := a + sign * (2 * m + 1) * d / 2;
      if d % 2 == 1 {
        a := a + 1;
      }
      d := (d * Mx(nbits, m) + 0x2000) / 0x4000;
      if d < 5 {
        d := 5;
      }
    }
  }

  lemma SignedMove(sign: int, m: nat, d: int)
    requires sign == 1 || sign == -1
    ensures sign * (2 * m + 1) * d == if sign < 0 then -((2 * m + 1) * d) else (2 * m + 1) * d
  {
  }

  // ----- the register -----

  lemma ShiftIn(reg: seq<bool>, data: nat, n: nat)
    requires |reg| == 32 && n <= 8 && data < Pow2(n)
    ensures Low(Shl(ToNat(reg), n), 32) + Low(data, n) == ToNat(reg[n..] + OfNat(data, n))
  {
    hide Pow2;
    var field := OfNat(data, n);
    ShiftLeft(reg, n);
    ToNatOfNat(data, n);
    LowToNat(field, n);
    ToNatConcat(reg[n..], field);
    ToNatConcat(reg[n..], Zeros(n));
    ToNatZeros(n);
    assert field[|field| - n..] == field;
    hide Low, Shl, ToNat, OfNat;
  }

  lemma TopByte(reg: seq<bool>, nleft: nat)
    requires |reg| == 32 && 8 <= nleft <= 32
    ensures Low(Shr(ToNat(reg), nleft - 8), 8) == ToNat(reg[32 - nleft..40 - nleft]) < 256
  {
    FieldIs(reg, nleft - 8, 8);
    ToNatBound(reg[32 - nleft..40 - nleft]);
    assert Pow2(8) == 256;
  }

  lemma FieldIs(reg: seq<bool>, low: nat, n: nat)
    requires |reg| == 32 && low + n <= 32
    ensures Low(Shr(ToNat(reg), low), n) == ToNat(reg[32 - low - n..32 - low])
  {
    hide Low, Shr, ToNat;
    ShrToNat(reg, low);
    var w := reg[..32 - low];
    LowToNat(w, n);
    assert w[|w| - n..] == reg[32 - low - n..32 - low];
  }

  lemma FieldOut(reg: seq<bool>, low: nat, n: nat)
    requires |reg| == 32 && low + n <= 32
    ensures var e := Low(Shr(ToNat(reg), low), n);
      e < Pow2(n) && OfNat(e, n) + reg[32 - low..] == reg[32 - (low + n)..]
  {
    hide Low, Shr, ToNat, OfNat, Pow2;
    FieldIs(reg, low, n);
    var f := reg[32 - low - n..32 - low];
    ToNatBound(f);
    OfNatToNat(f);
  }

  lemma ByteOut(out: seq<Byte>, x: Byte, reg: seq<bool>, nleft: nat)
    requires |reg| == 32 && 8 <= nleft <= 32 && x == ToNat(reg[32 - nleft..40 - nleft])
    ensures BytesToBits(out + [x]) + reg[40 - nleft..] == BytesToBits(out) + reg[32 - nleft..]
  {
    hide ToNat, OfNat;
    var f := reg[32 - nleft..40 - nleft];
    OfNatToNat(f);
    AppendByte(out, x);
    assert reg[32 - nleft..] == f + reg[40 - nleft..];
  }

  lemma AppendByte(s: seq<Byte>, x: Byte)
    ensures BytesToBits(s + [x]) == BytesToBits(s) + ByteBits(x)
  {
    hide ByteBits;
    assert (s + [x])[..|s|] == s;
  }

  lemma ByteIn(reg: seq<bool>, nleft: nat, data: seq<Byte>, pos0: nat, pos: nat)
    requires |reg| == 32 && nleft <= 24 && pos0 <= pos < |data|
    ensures Low(Shl(ToNat(reg), 8), 32) + data[pos] == ToNat(reg[8..] + ByteBits(data[pos]))
    ensures (reg[8..] + ByteBits(data[pos]))[32 - (nleft + 8)..] == reg[32 - nleft..] + ByteBits(data[pos])
    ensures BytesToBits(data[pos0..pos + 1]) == BytesToBits(data[pos0..pos]) + ByteBits(data[pos])
  {
    hide Low, Shl, ToNat, BytesToBits, ByteBits;
    ShiftByte(reg, data[pos]);
    NextByte(data, pos0, pos);
  }

  lemma ShiftByte(reg: seq<bool>, x: Byte)
    requires |reg| == 32
    ensures Low(Shl(ToNat(reg), 8), 32) + x == ToNat(reg[8..] + ByteBits(x))
  {
    hide Low, Shl, ToNat, OfNat, Pow2, ByteBits;
    LowByte(x);
    ShiftIn(reg, x, 8);
  }

  lemma NextByte(data: seq<Byte>, pos0: nat, pos: nat)
    requires pos0 <= pos < |data|
    ensures BytesToBits(data[pos0..pos + 1]) == BytesToBits(data[pos0..pos]) + ByteBits(data[pos])
  {
    hide BytesToBits, ByteBits;
    AppendByte(data[pos0..pos], data[pos]);
    assert data[pos0..pos + 1] == data[pos0..pos] + [data[pos]];
  }

  lemma LowByte(x: Byte)
    ensures Low(x, 8) == x && ByteBits(x) == OfNat(x, 8) && x < Pow2(8)
  {
    assert Pow2(8) == 256;
    ToNatOfNat(x, 8);
    var f := OfNat(x, 8);
    LowToNat(f, 8);
    assert f[|f| - 8..] == f;
    hide ToNat, OfNat, Low;
  }

  lemma NoBytes(data: seq<Byte>, pos: nat, pending: seq<bool>)
    requires pos <= |data|
    ensures pending == pending + BytesToBits(data[pos..pos])
  {
  }

  lemma {:induction false} FlushZeros(n: nat)
    ensures OfNat(0, n) == Zeros(n) && 0 < Pow2(n)
  {
    if n > 0 {
      FlushZeros(n - 1);
    }
  }

  lemma WholeByte(out: seq<Byte>, pending: seq<bool>, all: seq<bool>)
    requires BytesToBits(out) + pending == all && |all| == 8 && |pending| < 8
    ensures pending == [] && BytesToBits(out) == all
  {
    assert |BytesToBits(out) + pending| == 8 * |out| + |pending|;
  }

  // ----- the two loops -----

  predicate InRange(nbits: nat, codes: seq<nat>) { forall i :: 0 <= i < |codes| ==> codes[i] < Pow2(nbits) }

  lemma EncodeStart(nbits: nat, p: Pred, pending: seq<bool>)
    ensures Encoded(nbits, p, []) == (p, []) && BytesToBits([]) + pending == pending + CodeBits(nbits, [])
  {
  }

  lemma EncodeNext(nbits: nat, p: Pred, samples: seq<int>, i: nat)
    requires i < |samples|
    ensures var r := Encoded(nbits, p, samples[..i]);
      var e := Code(nbits, r.0, samples[i]);
      Encoded(nbits, p, samples[..i + 1]) == (Next(nbits, r.0, e), r.1 + [e])
  {
    hide Next, Code;
    assert samples[..i + 1][..i] == samples[..i];
  }

  lemma CodeFits(nbits: nat, e: nat)
    requires IsMode(nbits) && e < 2 * SignBit(nbits)
    ensures e < Pow2(nbits)
  {
    assert Pow2(2) == 4 && Pow2(3) == 8 && Pow2(4) == 16;
  }

  lemma CodeBitsNext(nbits: nat, codes: seq<nat>, e: nat)
    ensures CodeBits(nbits, codes + [e]) == CodeBits(nbits, codes) + OfNat(e, nbits)
  {
    hide OfNat;
    assert (codes + [e])[..|codes|] == codes;
  }

  lemma Appended(out: seq<Byte>, pending: seq<bool>, start: seq<bool>, nbits: nat, codes: seq<nat>, e: nat,
                 bytes: seq<Byte>, pending': seq<bool>)
    requires BytesToBits(out) + pending == start + CodeBits(nbits, codes) &&
      BytesToBits(bytes) + pending' == pending + OfNat(e, nbits)
    ensures BytesToBits(out + bytes) + pending' == start + CodeBits(nbits, codes + [e])
  {
    hide BytesToBits, CodeBits, OfNat;
    BytesToBitsConcat(out, bytes);
    CodeBitsNext(nbits, codes, e);
    var x, y, c, f := BytesToBits(out), BytesToBits(bytes), CodeBits(nbits, codes), OfNat(e, nbits);
    assert (x + y) + pending' == x + (y + pending') == (x + pending) + f == start + (c + f);
  }

  lemma DecodeStart(nbits: nat, p: Pred, pending: seq<bool>, compress: int -> Byte)
    ensures Decoded(nbits, p, []) == (p, []) && CodeBits(nbits, []) + pending == pending + BytesToBits([]) &&
      Outputs(compress, []) == []
  {
  }

  lemma DecodeNext(nbits: nat, p: Pred, codes: seq<nat>, e: nat, compress: int -> Byte)
    ensures var r := Decoded(nbits, p, codes);
      var q := AdpcmPredictor.Decode(nbits, r.0, e);
      Decoded(nbits, p, codes + [e]) == (q, r.1 + [q.a]) &&
      Outputs(compress, r.1 + [q.a]) == Outputs(compress, r.1) + [compress(q.a)]
  {
    hide Next;
    assert (codes + [e])[..|codes|] == codes;
  }

  /** A code leaves the stream of bits. */
  lemma Fetched(nbits: nat, codes: seq<nat>, e: nat, pending: seq<bool>, data: seq<Byte>, pos: nat, pos': nat,
                pending': seq<bool>, start: seq<bool>)
    requires pos <= pos' <= |data| && CodeBits(nbits, codes) + pending == start + BytesToBits(data[..pos])
    requires OfNat(e, nbits) + pending' == pending + BytesToBits(data[pos..pos'])
    ensures CodeBits(nbits, codes + [e]) + pending' == start + BytesToBits(data[..pos'])
  {
    hide BytesToBits, CodeBits, OfNat;
    CodeBitsNext(nbits, codes, e);
    BytesToBitsConcat(data[..pos], data[pos..pos']);
    assert data[..pos'] == data[..pos] + data[pos..pos'];
    var c, f, x, y := CodeBits(nbits, codes), OfNat(e, nbits), BytesToBits(data[..pos]), BytesToBits(data[pos..pos']);
    assert (c + f) + pending' == c + (f + pending') == (c + pending) + y == start + (x + y);
  }

  /**
   * k codes and pos of n bytes were read, left0 bits were pending, left are; the last byte was read for the last code.
   */
  ghost predicate Read(nbits: nat, left0: nat, k: nat, pos: nat, n: nat, left: nat) {
    left == left0 + 8 * pos - Width(nbits, k) && (n == 0 ==> k == 0) &&
    (0 < pos == n ==> k > 0 && Width(nbits, k - 1) <= left0 + 8 * (pos - 1) < Width(nbits, k))
  }

  lemma ReadNothing(nbits: nat, left: nat, n: nat)
    ensures Read(nbits, left, 0, 0, n, left)
  {
  }

  lemma ReadNext(nbits: nat, left0: nat, k: nat, pos: nat, n: nat, left: nat, pos': nat)
    requires IsMode(nbits) && Read(nbits, left0, k, pos, n, left) && pos < n && left < 8 &&
      pos' == if left >= nbits then pos else pos + 1
    ensures Read(nbits, left0, k + 1, pos', n, left + 8 * (pos' - pos) - nbits)
  {
  }

  lemma LastFetch(nbits: nat, k: nat, left0: nat, n: nat, left: nat)
    requires IsMode(nbits) && Read(nbits, left0, k, n, n, left)
    ensures k == if n == 0 then 0 else Whole(nbits, left0 + 8 * (n - 1)) + 1
  {
  }

  // ----- what the decoder has after any number of calls -----

  /** So many codes are decoded of n bytes. */
  function CodesOf(nbits: nat, n: nat): nat { if n == 0 then 0 else Whole(nbits, 8 * (n - 1)) + 1 }

  /** A decoder that has been given some bytes since its start: its state, and the values it has handed on. */
  ghost predicate After(nbits: nat, given: seq<Byte>, p: Pred, pending: seq<bool>, codes: seq<nat>, values: seq<int>) {
    InRange(nbits, codes) && |codes| == CodesOf(nbits, |given|) &&
    CodeBits(nbits, codes) + pending == BytesToBits(given) &&
    (p, values) == Decoded(nbits, START, codes)
  }

  /** One more call, as Decode describes it: how the bytes are split into calls does not matter. */
  lemma AnyNumberOfCalls(nbits: nat, given: seq<Byte>, p: Pred, pending: seq<bool>, codes: seq<nat>, values: seq<int>,
                         data: seq<Byte>, more: seq<nat>, pending': seq<bool>)
    requires IsMode(nbits) && After(nbits, given, p, pending, codes, values) && InRange(nbits, more)
    requires |more| == if data == [] then 0 else Whole(nbits, |pending| + 8 * (|data| - 1)) + 1
    requires CodeBits(nbits, more) + pending' == pending + BytesToBits(data)
    ensures var r := Decoded(nbits, p, more);
      After(nbits, given + data, r.0, pending', codes + more, values + r.1)
  {
    hide CodeBits, BytesToBits, Decoded, Pow2;
    CodeBitsConcat(nbits, codes, more);
    DecodedConcat(nbits, START, codes, more);
    BytesToBitsConcat(given, data);
    CodesLength(nbits, codes, pending, given);
    CodesAdd(nbits, |given|, |codes|, |pending|, |data|);
    Regroup(CodeBits(nbits, codes), pending, BytesToBits(given), CodeBits(nbits, more), pending', BytesToBits(data));
    hide Whole, Width;
  }

  lemma Regroup(c: seq<bool>, pending: seq<bool>, g: seq<bool>, m: seq<bool>, pending': seq<bool>, d: seq<bool>)
    requires c + pending == g && m + pending' == pending + d
    ensures (c + m) + pending' == g + d
  {
    assert (c + m) + pending' == c + (m + pending') == (c + pending) + d;
  }

  lemma CodesLength(nbits: nat, codes: seq<nat>, rest: seq<bool>, bytes: seq<Byte>)
    requires IsMode(nbits) && CodeBits(nbits, codes) + rest == BytesToBits(bytes)
    ensures Width(nbits, |codes|) + |rest| == 8 * |bytes|
  {
    assert |CodeBits(nbits, codes) + rest| == |BytesToBits(bytes)|;
  }

  lemma CodesAdd(nbits: nat, given: nat, k: nat, left: nat, n: nat)
    requires IsMode(nbits) && k == CodesOf(nbits, given) && Width(nbits, k) + left == 8 * given
    ensures k + (if n == 0 then 0 else Whole(nbits, left + 8 * (n - 1)) + 1) == CodesOf(nbits, given + n)
  {
    if n > 0 {
      var x := left + 8 * (n - 1);
      assert x + Width(nbits, k) == 8 * (given + n - 1);
      WholeAdds(nbits, k, x);
    }
  }

  lemma WholeAdds(nbits: nat, k: nat, x: nat)
    requires IsMode(nbits)
    ensures Whole(nbits, x + Width(nbits, k)) == Whole(nbits, x) + k
  {
  }

  lemma {:induction false} CodeBitsConcat(nbits: nat, a: seq<nat>, b: seq<nat>)
    ensures CodeBits(nbits, a + b) == CodeBits(nbits, a) + CodeBits(nbits, b)
    decreases |b|
  {
    hide CodeBits, OfNat;
    if b == [] {
      assert a + b == a;
      NoCodes(nbits);
    } else {
      var n := |b| - 1;
      CodeBitsConcat(nbits, a, b[..n]);
      assert a + b == (a + b[..n]) + [b[n]] && b == b[..n] + [b[n]];
      CodeBitsNext(nbits, a + b[..n], b[n]);
      CodeBitsNext(nbits, b[..n], b[n]);
    }
  }

  lemma NoCodes(nbits: nat)
    ensures CodeBits(nbits, []) == []
  {
  }

  lemma {:induction false} DecodedConcat(nbits: nat, p: Pred, a: seq<nat>, b: seq<nat>)
    ensures var r := Decoded(nbits, p, a);
      var t := Decoded(nbits, r.0, b);
      Decoded(nbits, p, a + b) == (t.0, r.1 + t.1)
    decreases |b|
  {
    hide Next;
    if b == [] {
      assert a + b == a;
      var r := Decoded(nbits, p, a);
      assert r.1 + [] == r.1;
    } else {
      var n := |b| - 1;
      DecodedConcat(nbits, p, a, b[..n]);
      assert (a + b)[..|a + b| - 1] == a + b[..n];
      var r := Decoded(nbits, p, a);
      var t := Decoded(nbits, r.0, b[..n]);
      var q := AdpcmPredictor.Decode(nbits, t.0, b[n]);
      assert (r.1 + t.1) + [q.a] == r.1 + (t.1 + [q.a]);
    }
  }

  /** Codes can be read off their bits. */
  lemma {:induction false} CodesUnique(nbits: nat, a: seq<nat>, b: seq<nat>, x: seq<bool>, y: seq<bool>)
    requires IsMode(nbits) && InRange(nbits, a) && InRange(nbits, b) && |a| <= |b| &&
      CodeBits(nbits, a) + x == CodeBits(nbits, b) + y
    ensures a == b[..|a|]
    decreases |a|
  {
    hide Pow2, OfNat, CodeBits;
    if a != [] {
      var n := |a| - 1;
      FrontBits(nbits, a, x);
      CodesUnique(nbits, a[..n], b, OfNat(a[n], nbits) + x, y);
      assert a[..n] == b[..n];
      LastCodeUnique(nbits, a, b, x, y);
      assert b[..n + 1] == b[..n] + [b[n]];
    }
  }

  lemma FrontBits(nbits: nat, a: seq<nat>, x: seq<bool>)
    requires a != []
    ensures var n := |a| - 1; CodeBits(nbits, a) + x == CodeBits(nbits, a[..n]) + (OfNat(a[n], nbits) + x)
  {
    hide OfNat;
    var n := |a| - 1;
    var c, f := CodeBits(nbits, a[..n]), OfNat(a[n], nbits);
    assert (c + f) + x == c + (f + x);
  }

  lemma LastCodeUnique(nbits: nat, a: seq<nat>, b: seq<nat>, x: seq<bool>, y: seq<bool>)
    requires IsMode(nbits) && InRange(nbits, a) && InRange(nbits, b) && 0 < |a| <= |b| &&
      CodeBits(nbits, a) + x == CodeBits(nbits, b) + y
    requires a[..|a| - 1] == b[..|a| - 1]
    ensures a[|a| - 1] == b[|a| - 1]
  {
    hide Pow2, OfNat, ToNat, CodeBits;
    var n := |a| - 1;
    var c := CodeBits(nbits, a[..n]);
    CodeAt(nbits, a, n, x);
    CodeAt(nbits, b, n, y);
    var s := CodeBits(nbits, a) + x;
    assert s[|c|..|c| + nbits] == OfNat(a[n], nbits) == OfNat(b[n], nbits);
    ToNatOfNat(a[n], nbits);
    ToNatOfNat(b[n], nbits);
  }

  lemma CodeAt(nbits: nat, a: seq<nat>, n: nat, x: seq<bool>)
    requires n < |a|
    ensures var c, s := CodeBits(nbits, a[..n]), CodeBits(nbits, a) + x;
      |c| + nbits <= |s| && s[|c|..|c| + nbits] == OfNat(a[n], nbits)
  {
    hide OfNat, CodeBits;
    assert a == a[..n + 1] + a[n + 1..] && a[..n + 1] == a[..n] + [a[n]];
    CodeBitsConcat(nbits, a[..n + 1], a[n + 1..]);
    CodeBitsNext(nbits, a[..n], a[n]);
    var c, f, r := CodeBits(nbits, a[..n]), OfNat(a[n], nbits), CodeBits(nbits, a[n + 1..]);
    assert CodeBits(nbits, a) + x == c + (f + (r + x));
  }

  /**
   * The first k codes were received, and the decoder is where the encoder was after k samples; its values are the
   * encoder's.
   */
  ghost predicate Exact(nbits: nat, samples: seq<int>, k: nat, p: Pred, codes: seq<nat>, values: seq<int>) {
    k <= |samples| && codes == Encoded(nbits, START, samples).1[..k] && p == Encoded(nbits, START, samples[..k]).0 &&
    |values| == k && forall i :: 0 <= i < k ==> values[i] == Encoded(nbits, START, samples[..i + 1]).0.a
  }

  /**
   * End to end: what the encoder packs, flushed at the end, is decoded to the encoder's own values, whatever the split
   * into calls. All codes but those that only the last byte completes are decoded, and none of the padding is.
   */
  lemma EndToEnd(nbits: nat, samples: seq<int>, stream: seq<Byte>, padding: nat, p: Pred, pending: seq<bool>,
                 codes: seq<nat>, values: seq<int>)
    requires IsMode(nbits) && padding < 8 && BytesToBits(stream)
      == CodeBits(nbits, Encoded(nbits, START, samples).1) + Zeros(padding)
    requires After(nbits, stream, p, pending, codes, values)
    ensures var k := CodesOf(nbits, |stream|);
      Exact(nbits, samples, k, p, codes, values) && (samples != [] ==> k > 0) &&
      8 * |stream| < Width(nbits, k) + nbits + 8
  {
    hide Encoded, Decoded, CodeBits, BytesToBits, Pow2, InRange, Zeros, Exact;
    var k, sent := CodesOf(nbits, |stream|), Encoded(nbits, START, samples).1;
    StreamLength(nbits, sent, stream, padding);
    NoPadding(nbits, |sent|, |stream|, padding);
    SentInRange(nbits, START, samples);
    CodesUnique(nbits, codes, sent, pending, Zeros(padding));
    FirstCodes(nbits, samples, k, p, codes, values);
  }

  lemma FirstCodes(nbits: nat, samples: seq<int>, k: nat, p: Pred, codes: seq<nat>, values: seq<int>)
    requires IsMode(nbits) && k <= |samples| && codes == Encoded(nbits, START, samples).1[..k] &&
      (p, values) == Decoded(nbits, START, codes)
    ensures Exact(nbits, samples, k, p, codes, values)
  {
    hide Encoded, Decoded;
    Lockstep(nbits, START, samples, k);
  }

  lemma StreamLength(nbits: nat, sent: seq<nat>, stream: seq<Byte>, padding: nat)
    requires IsMode(nbits) && BytesToBits(stream) == CodeBits(nbits, sent) + Zeros(padding)
    ensures 8 * |stream| == Width(nbits, |sent|) + padding
  {
    hide CodeBits, BytesToBits, Zeros;
    CodesLength(nbits, sent, Zeros(padding), stream);
  }

  lemma NoPadding(nbits: nat, k: nat, n: nat, padding: nat)
    requires IsMode(nbits) && padding < 8 && 8 * n == Width(nbits, k) + padding
    ensures CodesOf(nbits, n) <= k && (k > 0 ==> CodesOf(nbits, n) > 0) &&
      8 * n < Width(nbits, CodesOf(nbits, n)) + nbits + 8
  {
  }

  lemma {:induction false} SentInRange(nbits: nat, p: Pred, samples: seq<int>)
    requires IsMode(nbits)
    ensures InRange(nbits, Encoded(nbits, p, samples).1)
  {
    hide Next, Code, Pow2;
    if samples != [] {
      var n := |samples| - 1;
      SentInRange(nbits, p, samples[..n]);
      var e := Code(nbits, Encoded(nbits, p, samples[..n]).0, samples[n]);
      CodeInRange(nbits, Encoded(nbits, p, samples[..n]).0, samples[n]);
      CodeFits(nbits, e);
    }
  }
}
