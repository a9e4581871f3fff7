/**
 * BSD-Compress is LZW: what the two ends do with hash tables and code widths is what the plain algorithm does with a
 * list of strings. The sender sends the longest strings it has, and the receiver reads the frames that are legal and no
 * others.
 */
module BsdLzw {
  import opened Bits
  import opened BsdTables
  import opened BsdProbing
  import opened BsdLockstep
  import opened BsdCodec
  import opened BsdWidths

  // ----- plain LZW -----

  /** The strings of codes 0, 1, and so on; a code without a meaning has the empty string. */
  type Book = seq<seq<Byte>>

  /** A new string, as long as there are codes left up to the topmost. */
  function Entered(top: nat, book: Book, s: seq<Byte>): Book { if |book| <= top then book + [s] else book }

  /**
   * What a code stands for when the string before it was prev, if there was one; nothing for a code that is not legal.
   */
  function StringOf(top: nat, book: Book, prev: seq<Byte>, code: nat): seq<Byte> {
    if code < |book| then book[code]
    else if code == |book| <= top && prev != [] then prev + prev[..1]
    else []
  }

  datatype Reading = Reading(out: seq<Byte>, book: Book)

  /**
   * The receiver: every string but the first of a packet makes an entry of the string before and its own first byte.
   */
  function Read(top: nat, book: Book, prev: seq<Byte>, codes: seq<nat>): Option<Reading>
    decreases |codes|
  {
    if codes == [] then Some(Reading([], book))
    else
      var s := StringOf(top, book, prev, codes[0]);
      if s == [] then None
      else
        match Read(top, if prev == [] then book else Entered(top, book, prev + s[..1]), s, codes[1..])
        case None => None
        case Some(r) => Some(Reading(s + r.out, r.book))
  }

  function CodeOf(book: Book, s: seq<Byte>): (c: nat)
    requires s in book
    ensures c < |book| && book[c] == s
  {
    if book[0] == s then 0 else 1 + CodeOf(book[1..], s)
  }

  datatype Sending = Sending(codes: seq<nat>, book: Book)

  /** The sender: the string so far is made longer as long as it is in the book. */
  function Greedy(top: nat, book: Book, s: seq<Byte>, data: seq<Byte>): Sending
    requires s in book && forall b: Byte :: [b] in book
    decreases |data|
  {
    if data == [] then Sending([CodeOf(book, s)], book)
    else
      var longer := s + data[..1];
      if longer in book then Greedy(top, book, longer, data[1..])
      else
        assert data[..1] == [data[0]];
        var r := Greedy(top, Entered(top, book, longer), data[..1], data[1..]);
        Sending([CodeOf(book, s)] + r.codes, r.book)
  }

  // ----- the strings of the tables -----

  ghost function Strings(t: Tables): (book: Book)
    requires Chained(t)
    ensures |book| == t.maxEnt + 1
  {
    seq(t.maxEnt + 1, c requires 0 <= c <= t.maxEnt => if IsCode(t, c) then Str(t, c) else [])
  }

  lemma StringsHold(t: Tables)
    requires Chained(t) && t.maxEnt >= 256
    ensures forall b: Byte :: [b] in Strings(t)
    ensures forall c: nat :: IsCode(t, c) ==> Str(t, c) in Strings(t)
  {
    hide Chained, Str;
    forall c: nat | IsCode(t, c)
      ensures Str(t, c) in Strings(t)
    {
      assert Strings(t)[c] == Str(t, c);
    }
    forall b: Byte
      ensures [b] in Strings(t)
    {
      assert IsCode(t, b) && Str(t, b) == [b];
    }
  }

  /** Different codes have different strings. */
  lemma {:induction false} StrInjective(t: Tables, x: nat, y: nat)
    requires Chained(t) && Distinct(t) && IsCode(t, x) && IsCode(t, y) && Str(t, x) == Str(t, y)
    ensures x == y
    decreases x
  {
    if x > 256 && y > 256 {
      assert LinkOk(t, x) && LinkOk(t, y);
      var f, g := t.dict[SlotOf(t, x)].fcode, t.dict[SlotOf(t, y)].fcode;
      LastEqual(Str(t, Prefix(f)), Suffix(f), Str(t, Prefix(g)), Suffix(g));
      StrInjective(t, Prefix(f), Prefix(g));
      assert Live(t, SlotOf(t, x)) && Live(t, SlotOf(t, y));
    } else if x > 256 {
      LongString(t, x);
    } else if y > 256 {
      LongString(t, y);
    }
  }

  lemma LongString(t: Tables, x: nat)
    requires Chained(t) && IsCode(t, x) && x > 256
    ensures |Str(t, x)| > 1
  {
    assert LinkOk(t, x);
  }

  lemma LastEqual(a: seq<Byte>, b: Byte, c: seq<Byte>, d: Byte)
    requires a + [b] == c + [d]
    ensures a == c && b == d
  {
    assert |a| == |c| && (a + [b])[..|a|] == a && (c + [d])[..|c|] == c;
    assert (a + [b])[|a|] == b && (c + [d])[|c|] == d;
  }

  lemma CodeOfStr(t: Tables, c: nat)
    requires Chained(t) && Distinct(t) && IsCode(t, c) && t.maxEnt >= 256 && Str(t, c) in Strings(t)
    ensures CodeOf(Strings(t), Str(t, c)) == c
  {
    var x := CodeOf(Strings(t), Str(t, c));
    assert Strings(t)[x] == Str(t, c) && IsCode(t, x);
    StrInjective(t, x, c);
  }

  lemma PairOf(t: Tables, x: nat, p: nat, c: Byte)
    requires Chained(t) && Distinct(t) && IsCode(t, x) && IsCode(t, p) && Str(t, x) == Str(t, p) + [c]
    ensures Present(t, p, c)
  {
    assert x > 256 && LinkOk(t, x);
    var s := SlotOf(t, x);
    var f := t.dict[s].fcode;
    LastEqual(Str(t, Prefix(f)), Suffix(f), Str(t, p), c);
    StrInjective(t, Prefix(f), p);
    assert Live(t, s) && f == Key(p, c);
  }

  /** A pair that is not in the hash table makes a string that is not in the book. */
  lemma AbsentString(t: Tables, p: nat, c: Byte)
    requires Chained(t) && Distinct(t) && IsCode(t, p) && !Present(t, p, c)
    ensures Str(t, p) + [c] !in Strings(t)
  {
    if Str(t, p) + [c] in Strings(t) {
      var x: nat :| x < |Strings(t)| && Strings(t)[x] == Str(t, p) + [c];
      PairOf(t, x, p, c);
    }
  }

  lemma BooksEqual(t: Tables, u: Tables, book: Book)
    requires Chained(t) && Chained(u) && t.maxEnt >= 256 && |book| == u.maxEnt + 1 && u.maxEnt >= t.maxEnt
    requires forall x: nat :: IsCode(t, x) ==> IsCode(u, x) && Str(u, x) == Str(t, x)
    requires book[..t.maxEnt + 1] == Strings(t)
    requires forall x: nat :: t.maxEnt < x <= u.maxEnt ==> book[x] == Str(u, x)
    ensures Strings(u) == book
  {
    hide Chained, Str;
    forall x: nat | x < |book|
      ensures Strings(u)[x] == book[x]
    {
      if x <= t.maxEnt {
        assert book[..t.maxEnt + 1][x] == Strings(t)[x];
      }
    }
  }

  lemma WidenStrings(cfg: Config, t: Tables)
    requires Sound(cfg, t) && Chained(t)
    ensures Chained(Widen(cfg, t)) && Strings(Widen(cfg, t)) == Strings(t)
  {
    var u := Widen(cfg, t);
    forall x | 256 < x <= u.maxEnt
      ensures LinkOk(u, x)
    {
      assert LinkOk(t, x);
    }
    forall x: nat | IsCode(t, x)
      ensures Str(u, x) == Str(t, x)
    {
      SameStr(t, u.nBits, x);
    }
    assert Strings(t)[..t.maxEnt + 1] == Strings(t);
    BooksEqual(t, u, Strings(t));
  }

  lemma InstallStrings(cfg: Config, t: Tables, slot: nat, p: nat, c: Byte)
    requires Sound(cfg, t) && Chained(t) && Room(cfg, t) && slot < |t.dict| && !Live(t, slot) && IsCode(t, p)
    ensures var u := Install(t, slot, Key(p, c));
      Chained(u) && Strings(u) == Strings(t) + [Str(t, p) + [c]]
  {
    InstallChained(cfg, t, slot, p, c);
    BooksEqual(t, Install(t, slot, Key(p, c)), Strings(t) + [Str(t, p) + [c]]);
  }

  // ----- the sender -----

  /** Entering the missed pair is entering the longer string. */
  lemma GrowStrings(cfg: Config, t: Tables, slot: nat, p: nat, c: Byte)
    requires Consistent(cfg, t) && IsCode(t, p) && slot < |t.dict| && !Live(t, slot)
    ensures var u := Grow(cfg, t, slot, Key(p, c));
      Chained(u) && Strings(u) == Entered(cfg.MaxMaxCode(), Strings(t), Str(t, p) + [c])
  {
    if t.maxEnt < cfg.MaxMaxCode() {
      WidenSound(cfg, t);
      WidenStrings(cfg, t);
      var w := Widen(cfg, t);
      assert Strings(w)[p] == Strings(t)[p];
      InstallStrings(cfg, w, slot, p, c);
    }
  }

  /** The codes that are sent are those of the plain algorithm: each stands for the longest string there is. */
  lemma {:induction false} EncodeIsLzw(cfg: Config, t: Tables, ent: nat, data: seq<Byte>)
    requires Consistent(cfg, t) && IsCode(t, ent)
    requires Str(t, ent) in Strings(t) && forall b: Byte :: [b] in Strings(t)
    ensures var e := Encode(cfg, t, ent, data);
      Chained(e.t) &&
      Greedy(cfg.MaxMaxCode(), Strings(t), Str(t, ent), data) == Sending(Codes(cfg, t, ent, data), Strings(e.t))
    decreases |data|
  {
    assert t.maxEnt >= 256;
    hide Sound, Chained, Distinct, Reachable, Search, Str, Strings, Grow, CodeOf, Hash, Key;
    var top, book, s := cfg.MaxMaxCode(), Strings(t), Str(t, ent);
    CodeOfStr(t, ent);
    if data != [] {
      var c, rest := data[0], data[1..];
      assert data[..1] == [c];
      SearchSound(cfg, t, ent, c);
      SearchRefinesMap(cfg, t, ent, c);
      var hit := Search(t, Hash(cfg, ent, c), Key(ent, c), 0);
      StringsHold(t);
      if hit.Found? {
        MatchExtends(cfg, t, ent, c);
        EncodeIsLzw(cfg, t, hit.code, rest);
      } else {
        AbsentString(t, ent, c);
        GrowConsistent(cfg, t, ent, c);
        GrowSound(cfg, t, hit.slot, Key(ent, c));
        GrowStrings(cfg, t, hit.slot, ent, c);
        var u := Grow(cfg, t, hit.slot, Key(ent, c));
        StringsHold(u);
        assert Str(u, c) == [c];
        EncodeIsLzw(cfg, u, c, rest);
      }
    }
  }

  /** A packet, from its protocol byte on. */
  lemma PacketIsLzw(cfg: Config, t: Tables, proto: Byte, data: seq<Byte>)
    requires Consistent(cfg, t)
    ensures forall b: Byte :: [b] in Strings(t)
    ensures var e := Encode(cfg, t, proto, data);
      Chained(e.t) &&
      Greedy(cfg.MaxMaxCode(), Strings(t), [proto], data) == Sending(Codes(cfg, t, proto, data), Strings(e.t))
  {
    StringsHold(t);
    EncodeIsLzw(cfg, t, proto, data);
  }

  /** A new or cleared dictionary: the single bytes. */
  lemma FirstStrings(cfg: Config, t: Tables)
    requires ValidConfig(cfg)
    ensures Chained(Fresh(cfg)) && Strings(Fresh(cfg))
      == seq(257, c requires 0 <= c < 257 => if c < 256 then [c] else [])
    ensures Sound(cfg, t) ==>
      Chained(Cleared(t)) && Strings(Cleared(t)) == seq(257, c requires 0 <= c < 257 => if c < 256 then [c] else [])
  {
    FreshConsistent(cfg);
    if Sound(cfg, t) {
      ClearedConsistent(cfg, t);
    }
  }

  // ----- the receiver -----

  /** The string before, if there was one. */
  ghost function Before(t: Tables, prev: Option<nat>): (s: seq<Byte>)
    requires Chained(t) && (prev.Some? ==> IsCode(t, prev.value))
    ensures s == [] <==> prev.None?
  {
    if prev.None? then [] else Str(t, prev.value)
  }

  /** Tables that are met when code k of a packet that began with m as the largest code is about to be read. */
  ghost predicate Reads(cfg: Config, t: Tables, prev: Option<nat>, m: nat, k: nat) {
    Steady(cfg, t) && Chained(t) && Between(cfg, t) && m <= cfg.MaxMaxCode() &&
    (prev.Some? ==> IsCode(t, prev.value)) &&
    (prev.None? <==> k == 0) && t.maxEnt == if k == 0 then m else Largest(cfg, m, k - 1)
  }

  lemma ReadWidth(cfg: Config, t: Tables, prev: Option<nat>, m: nat, k: nat)
    requires Reads(cfg, t, prev, m, k)
    ensures t.nBits == WidthAt(cfg, m, k) && t.nBits >= 9
  {
    hide WidthOf, MaxCode;
  }

  /** A legal code and its string are those of plain LZW. */
  lemma MeaningIs(cfg: Config, t: Tables, prev: Option<nat>, code: nat)
    requires Steady(cfg, t) && Chained(t) && (prev.Some? ==> IsCode(t, prev.value))
    ensures var s := StringOf(cfg.MaxMaxCode(), Strings(t), Before(t, prev), code);
      var legal := IsCode(t, code) || (prev.Some? && code == t.maxEnt + 1 <= cfg.MaxMaxCode());
      (s != [] <==> legal) && (legal ==> s == Meaning(t, prev, code))
  {
    hide Chained, Str;
    if code <= t.maxEnt {
      assert Strings(t)[code] == if IsCode(t, code) then Str(t, code) else [];
    } else if prev.Some? {
      assert Str(t, prev.value)[..1] == [Str(t, prev.value)[0]];
    }
  }

  /** Reading a string makes the entry of plain LZW. */
  lemma AdvanceIs(cfg: Config, t: Tables, prev: Option<nat>, code: nat, m: nat, k: nat)
    requires Reads(cfg, t, prev, m, k)
    requires IsCode(t, code) || (prev.Some? && code == t.maxEnt + 1 <= cfg.MaxMaxCode())
    ensures var top, s := cfg.MaxMaxCode(), Meaning(t, prev, code);
      var u := Widen(cfg, Advance(cfg, t, prev, s[0]));
      && Reads(cfg, u, Some(code), m, k + 1) && Before(u, Some(code)) == s
      && Strings(u) ==
        if prev.None? then Strings(t) else Entered(top, Strings(t), Before(t, prev) + s[..1])
  {
    hide Advance, Str, Strings, SlotOk, LinkOk, WidthOf, Meaning;
    var s := Meaning(t, prev, code);
    AdvanceKeeps(cfg, t, prev, s[0]);
    AdvanceBetween(cfg, t, prev, s[0]);
    AdvanceStrings(cfg, t, prev, code);
  }

  lemma AdvanceStrings(cfg: Config, t: Tables, prev: Option<nat>, code: nat)
    requires Steady(cfg, t) && Chained(t) && (prev.Some? ==> IsCode(t, prev.value))
    requires IsCode(t, code) || (prev.Some? && code == t.maxEnt + 1 <= cfg.MaxMaxCode())
    ensures var s := Meaning(t, prev, code);
      var u := Widen(cfg, Advance(cfg, t, prev, s[0]));
      Chained(u) && IsCode(u, code) && Str(u, code) == s &&
      Strings(u) == if prev.None? then Strings(t) else Entered(cfg.MaxMaxCode(), Strings(t), Before(t, prev) + s[..1])
  {
    var s := Meaning(t, prev, code);
    assert s[..1] == [s[0]];
    var a := Advance(cfg, t, prev, s[0]);
    AdvanceKeeps(cfg, t, prev, s[0]);
    AdvanceString(cfg, t, prev, s[0]);
    WidenStrings(cfg, a);
    hide Advance, Sound, Chained, Str, WidthOf;
    var book := if prev.None? then Strings(t) else Entered(cfg.MaxMaxCode(), Strings(t), Before(t, prev) + s[..1]);
    BooksEqual(t, a, book);
    var u := Widen(cfg, a);
    assert Strings(u)[code] == Strings(a)[code];
  }

  lemma AdvanceBetween(cfg: Config, t: Tables, prev: Option<nat>, c: Byte)
    requires Steady(cfg, t) && Chained(t) && Between(cfg, t) && (prev.Some? ==> IsCode(t, prev.value))
    ensures Between(cfg, Widen(cfg, Advance(cfg, t, prev, c)))
  {
    hide WidthOf;
    AdvanceKeeps(cfg, t, prev, c);
    AdvanceString(cfg, t, prev, c);
    WidenBetween(cfg, Advance(cfg, t, prev, c));
  }

  /** Nothing legal, or more than there is room for. */
  predicate TooFar(r: Option<Reading>, room: nat) { r.None? || |r.value.out| > room }

  /**
   * What a decoder is to make of a packet. These are the legal codes that it begins with, as many as there is room for,
   * and this is the rest, in which the next code would have w bits. Only less than a code may be left, or code 256 and
   * less than a byte after it, which clears the dictionary; anything else is an error. Of a code two above the newest
   * that is not the first, nothing is said but that it is not read.
   */
  ghost predicate Verdict(cfg: Config, d: Decoded, book: Book, prev: seq<Byte>, codes: seq<nat>, tail: seq<bool>,
                          w: nat, room: nat)
  {
    var top := cfg.MaxMaxCode();
    var read := Read(top, book, prev, codes);
    !TooFar(read, room) &&
    var Reading(out, after) := read.value;
    if |tail| < w then d.Ok? && d.out == out && !d.cleared && Chained(d.t) && Strings(d.t) == after
    else
      var next := ToNat(tail[..w]);
      if next == 256 then
        if |tail| < w + 8 then d.Ok? && d.out == out && d.cleared && d.t.maxEnt == 256 && d.t.nBits == 9
        else d.Fatal?
      else
        TooFar(Read(top, book, prev, codes + [next]), room) &&
        if next == |after| + 1 <= top && (prev != [] || codes != []) then d.Malformed? else d.Fatal?
  }

  /** The decoder stops before the first code. */
  lemma StopsHere(cfg: Config, t: Tables, prev: Option<nat>, bits: seq<bool>, room: nat)
    requires Steady(cfg, t) && Chained(t) && (prev.Some? ==> IsCode(t, prev.value))
    requires |bits| >= t.nBits ==>
      var code := ToNat(bits[..t.nBits]);
      code == 256 || TooFar(Read(cfg.MaxMaxCode(), Strings(t), Before(t, prev), [code]), room)
    ensures Verdict(cfg, Decode(cfg, t, prev, bits, room), Strings(t), Before(t, prev), [], bits, t.nBits, room)
  {
    hide Sound, Chained, Str, Advance;
    if |bits| >= t.nBits {
      var code := ToNat(bits[..t.nBits]);
      MeaningIs(cfg, t, prev, code);
      OneCode(cfg.MaxMaxCode(), Strings(t), Before(t, prev), code);
      assert [] + [code] == [code];
    }
  }

  /** Reading a single code. */
  lemma OneCode(top: nat, book: Book, prev: seq<Byte>, code: nat)
    ensures var s, r := StringOf(top, book, prev, code), Read(top, book, prev, [code]);
      if s == [] then r.None? else r.Some? && r.value.out == s
  {
    var s := StringOf(top, book, prev, code);
    if s != [] {
      var book' := if prev == [] then book else Entered(top, book, prev + s[..1]);
      assert Read(top, book', s, []) == Some(Reading([], book'));
      assert [code][1..] == [] && s + [] == s;
    }
  }

  /** The first code is read, and the verdict on what follows is the verdict on all. */
  lemma ReadsOn(cfg: Config, d: Decoded, book: Book, prev: seq<Byte>, code: nat, codes: seq<nat>, tail: seq<bool>,
                w: nat, room: nat)
    requires var s := StringOf(cfg.MaxMaxCode(), book, prev, code);
      s != [] && |s| <= room &&
      Verdict(cfg, d, if prev == [] then book else Entered(cfg.MaxMaxCode(), book, prev + s[..1]), s, codes, tail, w,
        room - |s|)
    ensures Verdict(cfg, d.Prepend(StringOf(cfg.MaxMaxCode(), book, prev, code)), book, prev, [code] + codes, tail, w,
      room)
  {
    hide StringOf, Entered, Chained, Strings, MaxCode;
    var s := StringOf(cfg.MaxMaxCode(), book, prev, code);
    assert ([code] + codes)[1..] == codes;
    if |tail| >= w {
      var next := ToNat(tail[..w]);
      assert ([code] + codes) + [next] == [code] + (codes + [next]);
      assert ([code] + (codes + [next]))[1..] == codes + [next];
    }
  }

  lemma DecodesOn(cfg: Config, t: Tables, prev: Option<nat>, bits: seq<bool>, room: nat)
    requires Steady(cfg, t) && Chained(t) && (prev.Some? ==> IsCode(t, prev.value)) && |bits| >= t.nBits
    requires var code := ToNat(bits[..t.nBits]);
      (IsCode(t, code) || (prev.Some? && code == t.maxEnt + 1 <= cfg.MaxMaxCode())) && |Meaning(t, prev, code)| <= room
    ensures var code, rest := ToNat(bits[..t.nBits]), bits[t.nBits..];
      var s := Meaning(t, prev, code);
      var u := Widen(cfg, Advance(cfg, t, prev, s[0]));
      && bits == OfNat(code, t.nBits) + rest && Steady(cfg, u) && Chained(u) && IsCode(u, code)
      && Decode(cfg, t, prev, bits, room) == Decode(cfg, u, Some(code), rest, room - |s|).Prepend(s)
  {
    hide Decode, Str, Advance, SlotOk, LinkOk, ToNat, OfNat;
    var w, rest := bits[..t.nBits], bits[t.nBits..];
    OfNatToNat(w);
    ToNatBound(w);
    assert bits == w + rest;
    DecodeKnown(cfg, t, prev, ToNat(w), rest, room);
  }

  /** A legal code with room for its string is read, and leaves tables u. */
  lemma OneMore(cfg: Config, t: Tables, prev: Option<nat>, bits: seq<bool>, room: nat, m: nat, k: nat)
    returns (code: nat, u: Tables)
    requires Reads(cfg, t, prev, m, k) && |bits| >= t.nBits && ToNat(bits[..t.nBits]) != 256
    requires !TooFar(Read(cfg.MaxMaxCode(), Strings(t), Before(t, prev), [ToNat(bits[..t.nBits])]), room)
    ensures code == ToNat(bits[..t.nBits]) && bits == OfNat(code, WidthAt(cfg, m, k)) + bits[t.nBits..]
    ensures Reads(cfg, u, Some(code), m, k + 1)
    ensures var top, book, p := cfg.MaxMaxCode(), Strings(t), Before(t, prev);
      var s := StringOf(top, book, p, code);
      && s != [] && |s| <= room && Before(u, Some(code)) == s
      && Strings(u) == (if p == [] then book else Entered(top, book, p + s[..1]))
      && Decode(cfg, t, prev, bits, room) == Decode(cfg, u, Some(code), bits[t.nBits..], room - |s|).Prepend(s)
  {
    hide Decode, Read, Strings, Before, Str, StringOf, Entered, ToNat, OfNat, WidthAt, Meaning, SlotOk, LinkOk, Between,
      Advance;
    ReadWidth(cfg, t, prev, m, k);
    code := ToNat(bits[..t.nBits]);
    MeaningIs(cfg, t, prev, code);
    OneCode(cfg.MaxMaxCode(), Strings(t), Before(t, prev), code);
    DecodesOn(cfg, t, prev, bits, room);
    AdvanceIs(cfg, t, prev, code, m, k);
    u := Widen(cfg, Advance(cfg, t, prev, Meaning(t, prev, code)[0]));
    hide Sound, Chained, MaxCode, Widen;
  }

  /** The codes of a frame are found in just the widths in which they are sent, and mean what they mean in plain LZW. */
  lemma {:induction false} DecodeIsLzw(cfg: Config, t: Tables, prev: Option<nat>, bits: seq<bool>, room: nat, m: nat,
                                       k: nat)
    returns (codes: seq<nat>, tail: seq<bool>)
    requires Reads(cfg, t, prev, m, k)
    ensures bits == Written(cfg, codes, m, k) + tail
    ensures Verdict(cfg, Decode(cfg, t, prev, bits, room), Strings(t), Before(t, prev), codes, tail,
              WidthAt(cfg, m, k + |codes|), room)
    decreases |bits|
  {
    hide Decode, Verdict, Read, Strings, Before, Sound, Chained, Str, StringOf, WidthAt, Entered, MaxCode, Between;
    ReadWidth(cfg, t, prev, m, k);
    var p := Before(t, prev);
    codes, tail := [], bits;
    if |bits| < t.nBits || ToNat(bits[..t.nBits]) == 256 ||
      TooFar(Read(cfg.MaxMaxCode(), Strings(t), p, [ToNat(bits[..t.nBits])]), room)
    {
      StopsHere(cfg, t, prev, bits, room);
    } else {
      var rest := bits[t.nBits..];
      var code, u := OneMore(cfg, t, prev, bits, room, m, k);
      var s := StringOf(cfg.MaxMaxCode(), Strings(t), p, code);
      codes, tail := DecodeIsLzw(cfg, u, Some(code), rest, room - |s|, m, k + 1);
      ReadsOn(cfg, Decode(cfg, u, Some(code), rest, room - |s|), Strings(t), p, code, codes, tail,
        WidthAt(cfg, m, k + 1 + |codes|), room);
      assert ([code] + codes)[1..] == codes;
      codes := [code] + codes;
    }
  }

  /** A packet, after whatever a link has carried before. */
  lemma PacketReads(cfg: Config, t: Tables, bits: seq<bool>, room: nat) returns (codes: seq<nat>, tail: seq<bool>)
    requires Settled(cfg, t) && Between(cfg, t)
    ensures bits == Written(cfg, codes, t.maxEnt, 0) + tail
    ensures Verdict(cfg, Decode(cfg, t, None, bits, room), Strings(t), [], codes, tail, WidthAt(cfg, t.maxEnt, |codes|),
              room)
  {
    hide Verdict, Decode, Strings, Written, WidthAt, SlotOk, LinkOk, Between, Distinct, Reachable;
    codes, tail := DecodeIsLzw(cfg, t, None, bits, room, t.maxEnt, 0);
  }
}
