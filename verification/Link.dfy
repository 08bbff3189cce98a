/** The frame link over SOCK_SEQPACKET: a send loop against short writes, and a
    receive loop that puts a frame together from the fragments of its record. */
module Link {
  import opened Common

  const MAX_FRAME := 0x10_0000

  datatype Frame = Frame(kind: Byte, payload: seq<Byte>)

  // ---------------------------------------------------------------- the frame

  /** Four bytes, most significant first; longer values lose their upper bits. */
  function BigEndian(n: nat): (r: seq<Byte>)
    ensures |r| == 4
  {
    [n / 0x100_0000 % 256, n / 0x1_0000 % 256, n / 0x100 % 256, n % 256]
  }

  function FromBigEndian(b: seq<Byte>): nat
    requires |b| == 4
  {
    var b0: nat, b1: nat, b2: nat, b3: nat := b[0], b[1], b[2], b[3];
    b0 * 0x100_0000 + b1 * 0x1_0000 + b2 * 0x100 + b3
  }

  lemma {:induction false} BigEndianReadBack(n: nat)
    ensures FromBigEndian(BigEndian(n)) == n % 0x1_0000_0000
  {
    var a, b, c := n / 0x100, n / 0x1_0000, n / 0x100_0000;
    Digits(n);
    Remainder(c, (b % 256) * 0x1_0000 + (a % 256) * 0x100 + n % 256);
  }

  lemma {:induction false} Digits(n: nat)
    ensures n == n / 0x100_0000 * 0x100_0000 + (n / 0x1_0000 % 256) * 0x1_0000 + (n / 0x100 % 256) * 0x100 + n % 256
  {
    var a, b := n / 0x100, n / 0x1_0000;
    assert n == a * 0x100 + n % 256;
    assert b == a / 0x100;
    assert a == b * 0x100 + a % 256;
    assert n / 0x100_0000 == b / 0x100;
  }

  lemma {:induction false} Remainder(c: nat, low: nat)
    requires low < 0x100_0000
    ensures (c * 0x100_0000 + low) % 0x1_0000_0000 == (c % 256) * 0x100_0000 + low
  {
    var q := c / 256;
    assert c == q * 256 + c % 256;
    assert c * 0x100_0000 + low == q * 0x1_0000_0000 + ((c % 256) * 0x100_0000 + low);
  }

  function Encode(f: Frame): (r: seq<Byte>)
    ensures |r| == 5 + |f.payload|
  {
    [f.kind] + BigEndian(|f.payload|) + f.payload
  }

  /** A whole message is a frame when its header states its exact length. */
  function DecodeOne(b: seq<Byte>): Option<Frame> {
    if |b| < 5 then None
    else
      var len := FromBigEndian(b[1..5]);
      if len > MAX_FRAME || |b| != 5 + len then None else Some(Frame(b[0], b[5..]))
  }

  /** Encoding and decoding are inverse, both ways, on all messages. */
  lemma {:induction false} EncodeThenDecode(f: Frame)
    ensures DecodeOne(Encode(f)) == if |f.payload| <= MAX_FRAME then Some(f) else None
  {
    var e := Encode(f);
    assert e[1..5] == BigEndian(|f.payload|) && e[5..] == f.payload;
    BigEndianReadBack(|f.payload|);
  }

  lemma {:induction false} DecodeThenEncode(b: seq<Byte>)
    requires DecodeOne(b).Some?
    ensures Encode(DecodeOne(b).value) == b
  {
    var h := b[1..5];
    var n := FromBigEndian(h);
    var b0: nat, b1: nat, b2: nat := h[0], h[1], h[2];
    assert n / 0x100_0000 == b0 && n / 0x1_0000 == b0 * 256 + b1 && n / 0x100 == b0 * 0x1_0000 + b1 * 256 + b2;
    assert BigEndian(n) == h;
    assert b == [b[0]] + h + b[5..];
  }

  // ------------------------------------------------------------------ sending

  datatype SendResult = Sent | WriteZero

  /** The send loop. `take(i)` is how many bytes the kernel is willing to take on
      the i-th call: any pattern of short writes. */
  method Send(f: Frame, take: nat -> nat) returns (r: SendResult, written: seq<Byte>, calls: nat)
    ensures r.Sent? ==> written == Encode(f)
    ensures r.WriteZero? ==> written < Encode(f) && calls > 0 && take(calls - 1) == 0
    ensures r.Sent? ==> forall i :: 0 <= i < calls ==> take(i) > 0
  {
    var wire := Encode(f);
    var sent := 0;
    calls := 0;
    while sent < |wire|
      invariant sent <= |wire| && forall i :: 0 <= i < calls ==> take(i) > 0
      decreases |wire| - sent
    {
      var n := Min(take(calls), |wire| - sent);
      calls := calls + 1;
      if n == 0 { return WriteZero, wire[..sent], calls; }
      sent := sent + n;
    }
    assert wire[..|wire|] == wire;
    return Sent, wire, calls;
  }

  // ---------------------------------------------------------------- receiving

  datatype Received = Got(f: Frame) | Eof | Truncated | TooLong | Spanned | Invalid | WouldBlock

  /** What a receive makes of the bytes so far and the fragments still to come. */
  function Reassemble(acc: seq<Byte>, incoming: seq<seq<Byte>>): (Received, seq<seq<Byte>>)
    decreases |incoming|
  {
    if incoming == [] then (WouldBlock, [])
    else
      var frag, rest := incoming[0], incoming[1..];
      if frag == [] then (Eof, rest)
      else if |frag| > MAX_FRAME + 5 then (Truncated, rest)
      else
        var all := acc + frag;
        if |all| < 5 then Reassemble(all, rest)
        else
          var len := FromBigEndian(all[1..5]);
          if len > MAX_FRAME then (TooLong, rest)
          else if |all| < 5 + len then Reassemble(all, rest)
          else if |all| > 5 + len then (Spanned, rest)
          else (match DecodeOne(all) case Some(f) => Got(f) case None => Invalid, rest)
  }

  /** The receiving end: all fragments that the kernel will ever hand out, in order. */
  class Receiver {
    var incoming: seq<seq<Byte>>

    constructor (incoming: seq<seq<Byte>>)
      ensures this.incoming == incoming
    {
      this.incoming := incoming;
    }

    /** Collect fragments until the length in the header is reached. */
    method Recv() returns (r: Received)
      modifies this
      ensures (r, incoming) == Reassemble([], old(incoming))
    {
      var acc: seq<Byte> := [];
      while true
        invariant Reassemble(acc, incoming) == Reassemble([], old(incoming))
        decreases |incoming|
      {
        if incoming == [] { return WouldBlock; }
        var frag := incoming[0];
        incoming := incoming[1..];
        if |frag| == 0 { return Eof; }
        if |frag| > MAX_FRAME + 5 { return Truncated; }
        acc := acc + frag;
        if |acc| >= 5 {
          var len := FromBigEndian(acc[1..5]);
          if len > MAX_FRAME { return TooLong; }
          if |acc| >= 5 + len {
            if |acc| > 5 + len { return Spanned; }
            var f := DecodeOne(acc);
            return if f.Some? then Got(f.value) else Invalid;
          }
        }
      }
    }
  }

  function Concat(frags: seq<seq<Byte>>): seq<Byte> {
    if frags == [] then [] else frags[0] + Concat(frags[1..])
  }

  predicate NonEmpty(frags: seq<seq<Byte>>) {
    forall k :: 0 <= k < |frags| ==> frags[k] != []
  }

  /** However a record is split, receiving it gives the frame and takes exactly
      its fragments. */
  lemma {:induction false} FragmentsReassemble(acc: seq<Byte>, frags: seq<seq<Byte>>, rest: seq<seq<Byte>>, f: Frame)
    requires |f.payload| <= MAX_FRAME && NonEmpty(frags) && acc + Concat(frags) == Encode(f) && frags != []
    ensures Reassemble(acc, frags + rest) == (Got(f), rest)
    decreases |frags|
  {
    var e, all := Encode(f), acc + frags[0];
    var more := Concat(frags[1..]);
    assert all + more == e;
    assert (frags + rest)[0] == frags[0] && (frags + rest)[1..] == frags[1..] + rest;
    assert |frags[0]| <= |e|;
    if |all| >= 5 {
      assert all[1..5] == e[1..5] == BigEndian(|f.payload|);
      BigEndianReadBack(|f.payload|);
    }
    if more == [] {
      NothingLeft(frags[1..]);
      EncodeThenDecode(f);
      assert all == e;
      assert frags[1..] + rest == rest;
    } else {
      FragmentsReassemble(all, frags[1..], rest, f);
    }
  }

  lemma {:induction false} NothingLeft(frags: seq<seq<Byte>>)
    requires NonEmpty(frags) && Concat(frags) == []
    ensures frags == []
  {
  }

  function Flatten(records: seq<seq<seq<Byte>>>): seq<seq<Byte>> {
    if records == [] then [] else records[0] + Flatten(records[1..])
  }

  /** What `n` receives in a row deliver. */
  function ReceiveAll(incoming: seq<seq<Byte>>, n: nat): seq<Received>
    decreases n
  {
    if n == 0 then []
    else
      var (r, rest) := Reassemble([], incoming);
      [r] + ReceiveAll(rest, n - 1)
  }

  /** Any list of frames, each record split in any way: the same frames arrive, in order. */
  lemma {:induction false} FramesArrive(frames: seq<Frame>, records: seq<seq<seq<Byte>>>)
    requires |records| == |frames|
    requires forall i :: 0 <= i < |frames| ==>
               |frames[i].payload| <= MAX_FRAME && NonEmpty(records[i]) && Concat(records[i]) == Encode(frames[i])
    ensures |ReceiveAll(Flatten(records), |frames|)| == |frames|
    ensures forall i :: 0 <= i < |frames| ==> ReceiveAll(Flatten(records), |frames|)[i] == Got(frames[i])
  {
    if frames != [] {
      assert [] + Concat(records[0]) == Encode(frames[0]);
      FragmentsReassemble([], records[0], Flatten(records[1..]), frames[0]);
      FramesArrive(frames[1..], records[1..]);
      var all := ReceiveAll(Flatten(records), |frames|);
      assert all == [Got(frames[0])] + ReceiveAll(Flatten(records[1..]), |frames| - 1);
    }
  }

  /** A frame over the limit is refused as soon as its header is complete. */
  lemma {:induction false} OversizeRefused(acc: seq<Byte>, frags: seq<seq<Byte>>, rest: seq<seq<Byte>>, f: Frame)
    requires MAX_FRAME < |f.payload| < 0x1_0000_0000 && |acc| < 5
    requires NonEmpty(frags) && acc + Concat(frags) == Encode(f)
    ensures Reassemble(acc, frags + rest).0 in {TooLong, Truncated}
    decreases |frags|
  {
    var e := Encode(f);
    assert frags != [];
    var all, more := acc + frags[0], Concat(frags[1..]);
    assert all + more == e;
    TailOfSum(frags, rest);
    if |all| >= 5 {
      assert all[..5] == (all + more)[..5] == e[..5];
      HeaderLength(all, f);
    } else {
      OversizeRefused(all, frags[1..], rest, f);
    }
  }

  // ---------------------------------------------------------------- the wire

  /** The wire form: one byte of kind, the payload's length in four bytes with the most
      significant first, and the payload. */
  lemma {:induction false} EncodedShape(f: Frame)
    requires |f.payload| < 0x1_0000_0000
    ensures var e := Encode(f);
            var b1: nat, b2: nat, b3: nat, b4: nat := e[1], e[2], e[3], e[4];
            && e[0] == f.kind && e[5..] == f.payload
            && b1 * 16777216 + b2 * 65536 + b3 * 256 + b4 == |f.payload|
  {
    var e := Encode(f);
    assert e[5..] == f.payload && e[1..5] == BigEndian(|f.payload|);
    assert e[1..5][0] == e[1] && e[1..5][1] == e[2] && e[1..5][2] == e[3] && e[1..5][3] == e[4];
    BigEndianReadBack(|f.payload|);
  }

  lemma {:induction false} HeaderLength(all: seq<Byte>, f: Frame)
    requires |f.payload| < 0x1_0000_0000 && |all| >= 5 && all[..5] == Encode(f)[..5]
    ensures FromBigEndian(all[1..5]) == |f.payload|
  {
    assert all[1..5] == all[..5][1..5] == Encode(f)[1..5] == BigEndian(|f.payload|);
    BigEndianReadBack(|f.payload|);
  }

  /** One more fragment that does not complete it. */
  lemma {:induction false} OneCollected(acc: seq<Byte>, frag: seq<Byte>, rest: seq<seq<Byte>>, f: Frame)
    requires |f.payload| <= MAX_FRAME && frag != [] && acc + frag < Encode(f)
    ensures Reassemble(acc, [frag] + rest) == Reassemble(acc + frag, rest)
  {
    var all, incoming := acc + frag, [frag] + rest;
    assert incoming[0] == frag && incoming[1..] == rest;
    if |all| >= 5 {
      assert all[..5] == Encode(f)[..5];
      HeaderLength(all, f);
    }
  }

  /** Fragments that do not complete a frame are only collected. */
  lemma {:induction false} Collected(acc: seq<Byte>, frags: seq<seq<Byte>>, rest: seq<seq<Byte>>, f: Frame)
    requires |f.payload| <= MAX_FRAME && NonEmpty(frags) && acc + Concat(frags) < Encode(f)
    ensures Reassemble(acc, frags + rest) == Reassemble(acc + Concat(frags), rest)
    decreases |frags|
  {
    if frags == [] {
      assert frags + rest == rest && acc + Concat(frags) == acc;
    } else {
      var all, more := acc + frags[0], Concat(frags[1..]);
      assert acc + Concat(frags) == all + more;
      assert frags + rest == [frags[0]] + (frags[1..] + rest);
      OneCollected(acc, frags[0], frags[1..] + rest, f);
      Collected(all, frags[1..], rest, f);
    }
  }

  /** A part of a record, and then nothing: the receive waits for more. */
  lemma {:induction false} PartWaits(frags: seq<seq<Byte>>, f: Frame)
    requires |f.payload| <= MAX_FRAME && NonEmpty(frags) && Concat(frags) < Encode(f)
    ensures Reassemble([], frags) == (WouldBlock, [])
  {
    assert [] + Concat(frags) == Concat(frags) && frags + [] == frags;
    Collected([], frags, [], f);
  }

  /** A part of a record, and then the other side is gone: the end of the file, whatever
      is left, and never a frame. */
  lemma {:induction false} PartEnds(frags: seq<seq<Byte>>, rest: seq<seq<Byte>>, f: Frame)
    requires |f.payload| <= MAX_FRAME && NonEmpty(frags) && Concat(frags) < Encode(f)
    ensures Reassemble([], frags + ([[]] + rest)) == (Eof, rest)
  {
    assert [] + Concat(frags) == Concat(frags) && ([[]] + rest)[1..] == rest;
    Collected([], frags, [[]] + rest, f);
  }

  /** A fragment that goes past the end of its record is refused, and so is one longer
      than any record. */
  lemma {:induction false} PastRefused(frags: seq<seq<Byte>>, frag: seq<Byte>, rest: seq<seq<Byte>>, f: Frame)
    requires |f.payload| <= MAX_FRAME && NonEmpty(frags) && Concat(frags) < Encode(f)
    requires Encode(f) < Concat(frags) + frag
    ensures Reassemble([], frags + ([frag] + rest)) == (if |frag| > MAX_FRAME + 5 then Truncated else Spanned, rest)
  {
    assert [] + Concat(frags) == Concat(frags);
    Collected([], frags, [frag] + rest, f);
    OnePast(Concat(frags), frag, rest, f);
  }

  lemma {:induction false} OnePast(acc: seq<Byte>, frag: seq<Byte>, rest: seq<seq<Byte>>, f: Frame)
    requires |f.payload| <= MAX_FRAME && frag != [] && Encode(f) < acc + frag
    ensures Reassemble(acc, [frag] + rest) == (if |frag| > MAX_FRAME + 5 then Truncated else Spanned, rest)
  {
    var all, incoming := acc + frag, [frag] + rest;
    assert incoming[0] == frag && incoming[1..] == rest;
    assert all[..5] == Encode(f)[..5];
    HeaderLength(all, f);
  }
}
