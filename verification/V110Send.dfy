/** A sender that gives the encoder what is left of its data again and again, until everything has been taken. */
module V110Send {
  import opened V110Frames
  import opened V110Lines
  import opened V110Stream
  import opened V110Codec
  import opened V110Link

  /** n / 4, rounded up. */
  function Fours(n: nat): nat { if n == 0 then 0 else if n < 4 then 1 else 1 + Fours(n - 4) }

  lemma {:induction false} FoursIs(n: nat)
    ensures Fours(n) == (n + 3) / 4 && Fours(n) <= n
  {
    if n >= 4 {
      FoursIs(n - 4);
    }
  }

  /**
   * How many of n bytes one call takes: all of them if and only if the buffer has forty octets for every four of them,
   * and otherwise the largest number for which it has forty octets each.
   */
  lemma TakenLaw(n: nat, maxsize: nat)
    ensures Taken(n, maxsize) == n <==> 40 * Fours(n) <= maxsize
    ensures 40 * Fours(n) > maxsize ==> 40 * Taken(n, maxsize) <= maxsize < 40 * (Taken(n, maxsize) + 1)
  {
    FoursIs(n);
  }

  /** Nothing is taken of what there is if and only if the buffer has less than forty octets. */
  lemma TakesSomething(n: nat, maxsize: nat)
    requires n > 0
    ensures Taken(n, maxsize) > 0 <==> maxsize >= 40
  {
    FoursIs(n);
    TakenLaw(n, maxsize);
  }

  /** What the calls take, one after the other. */
  function Calls(data: seq<bv8>, maxsize: nat): (parts: seq<seq<bv8>>)
    requires maxsize >= 40
    decreases |data|
  {
    if data == [] then []
    else
      var n := Taken(|data|, maxsize);
      TakesSomething(|data|, maxsize);
      [data[..n]] + Calls(data[n..], maxsize)
  }

  /** The frames of each call. */
  function Users(parts: seq<seq<bv8>>): (segments: seq<Segment>)
    ensures |segments| == |parts| && forall i :: 0 <= i < |parts| ==> segments[i] == User(parts[i])
  {
    seq(|parts|, i requires 0 <= i < |parts| => User(parts[i]))
  }

  function All(parts: seq<seq<bv8>>): seq<bv8> { if parts == [] then [] else parts[0] + All(parts[1..]) }

  lemma {:induction false} CallsTakeAll(data: seq<bv8>, maxsize: nat)
    requires maxsize >= 40
    ensures All(Calls(data, maxsize)) == data
    decreases |data|
  {
    if data != [] {
      var n := Taken(|data|, maxsize);
      TakesSomething(|data|, maxsize);
      CallsTakeAll(data[n..], maxsize);
      assert data == data[..n] + data[n..];
      assert ([data[..n]] + Calls(data[n..], maxsize))[1..] == Calls(data[n..], maxsize);
    }
  }

  /** Every call but the last takes a byte for every forty octets of the buffer, so there are not many. */
  lemma {:induction false} CallsAreFew(data: seq<bv8>, maxsize: nat)
    requires maxsize >= 40
    ensures data != [] ==> (|Calls(data, maxsize)| - 1) * (maxsize / 40) < |data|
    ensures data == [] ==> Calls(data, maxsize) == []
    decreases |data|
  {
    if data != [] {
      var n, k := Taken(|data|, maxsize), maxsize / 40;
      TakesSomething(|data|, maxsize);
      TakenLaw(|data|, maxsize);
      CallsAreFew(data[n..], maxsize);
      var rest := |Calls(data[n..], maxsize)|;
      if data[n..] != [] {
        assert n == k;
        assert rest * k == (rest - 1) * k + k;
      }
    }
  }

  lemma {:induction false} BytesOfAll(parts: seq<seq<bv8>>)
    ensures Bytes(Users(parts)) == All(parts)
    decreases |parts|
  {
    if parts != [] {
      var m := |parts| - 1;
      BytesOfAll(parts[..m]);
      assert Users(parts)[..m] == Users(parts[..m]);
      AllEndsWith(parts);
    }
  }

  lemma {:induction false} AllEndsWith(parts: seq<seq<bv8>>)
    requires parts != []
    ensures All(parts) == All(parts[..|parts| - 1]) + parts[|parts| - 1]
  {
    var m := |parts| - 1;
    if m > 0 {
      AllEndsWith(parts[1..]);
      assert parts[1..][..m - 1] == parts[..m][1..];
    }
  }

  /**
   * Whatever is to be sent: the calls come to an end, and what they give, cut in any way, decodes to all of it with
   * nothing left over.
   */
  lemma AllIsSent(key: bv8, data: seq<bv8>, maxsize: nat, chunks: seq<seq<bv8>>)
    requires IsKey(key) && maxsize >= 40 && Joined(chunks) == Wire(key, Users(Calls(data, maxsize)))
    ensures Run(key, chunks) == (Rx([], IDLE), data)
  {
    hide Run, Joined, Wire, Bytes;
    CallsTakeAll(data, maxsize);
    BytesOfAll(Calls(data, maxsize));
    EndToEnd(key, Users(Calls(data, maxsize)), chunks);
  }
}
