/**
 Frames over USB bulk packets. A packet shorter than the maximum ends a frame
 (section 5.8.3 of the USB 2.0 specification); a frame that is a whole number
 of maximum packets is ended by an empty one. The sender may be cancelled at
 any write and repairs the stream before its next frame.
 */
module UsbFraming {
  import opened Wrappers
  import opened Sequences
  import opened Cobs

  type Packet = seq<byte>

  // ------------------------------------------------------------------------
  // What is on the wire
  // ------------------------------------------------------------------------

  /** The packets of one frame, ending with a short or an empty one. */
  function FramePackets(out: seq<byte>, max: nat): (r: seq<Packet>)
    requires max > 0
    ensures r != []
    decreases |out|
  {
    if |out| < max then [out] else [out[..max]] + FramePackets(out[max..], max)
  }

  /** All the writes of a send: an empty packet first if a frame was left unended. */
  function Script(pending: bool, out: seq<byte>, max: nat): seq<Packet>
    requires max > 0
  {
    (if pending then [[]] else []) + FramePackets(out, max)
  }

  /** What a script puts on the wire when only `done` writes complete; the
      interrupted one may have gone out all the same. */
  function Emitted(script: seq<Packet>, done: nat, leak: bool): seq<Packet> {
    if done >= |script| then script
    else script[..done] + (if leak then [script[done]] else [])
  }

  // ------------------------------------------------------------------------
  // The sender
  // ------------------------------------------------------------------------

  /** An IN endpoint, with an oracle for the timer: how many writes complete
      before it fires, and whether the interrupted one was already under way. */
  class EndpointIn {
    var wire: seq<Packet>
    var budget: nat
    var leak: bool

    constructor (budget: nat, leak: bool)
      ensures wire == [] && this.budget == budget && this.leak == leak
    {
      wire, this.budget, this.leak := [], budget, leak;
    }

    method Write(p: Packet) returns (done: bool)
      modifies this`wire, this`budget
      ensures done <==> old(budget) > 0
      ensures budget == if done then old(budget) - 1 else 0
      ensures wire == if done || leak then old(wire) + [p] else old(wire)
    {
      done := budget > 0;
      if done || leak {
        wire := wire + [p];
      }
      if done {
        budget := budget - 1;
      }
    }
  }

  class Sender {
    const max: nat
    var pending: bool

    constructor (max: nat)
      ensures this.max == max && !pending
    {
      this.max := max;
      pending := false;
    }

    /** Send one frame; false when the timer fired first. */
    method SendAll(ep: EndpointIn, out: seq<byte>) returns (sent: bool)
      requires max > 0
      modifies this`pending, ep`wire, ep`budget
      ensures var s := Send(out, old(ep.budget), ep.leak);
              && sent == Completes(old(pending), s, max)
              && pending == PendingAfter(old(pending), s, max)
              && ep.wire == old(ep.wire) + Writes(old(pending), s, max)
      ensures out == [] ==> sent && pending == old(pending) && ep.wire == old(ep.wire)
      ensures out != [] ==> pending == !sent
      ensures out != [] ==>
                (sent <==> old(ep.budget) >= |FramePackets(out, max)| + (if old(pending) then 1 else 0))
    {
      if out == [] {
        return true;
      }
      ScriptUnpacked(pending, out, max, ep.budget, ep.leak);
      if pending {
        var ok := ep.Write([]);
        if !ok {
          return false;
        }
      }
      pending := true;
      sent := WritePackets(ep, out);
      if sent {
        pending := false;
      }
    }

    /** Send frames one after the other, each with its own timer. */
    method TxWorker(ep: EndpointIn, sends: seq<Send>)
      requires max > 0
      modifies this`pending, ep
      ensures ep.wire == old(ep.wire) + Wire(old(pending), sends, max)
    {
      ghost var out: seq<Packet> := [];
      var i := 0;
      while i < |sends|
        invariant 0 <= i <= |sends|
        invariant ep.wire == old(ep.wire) + out
        invariant Wire(old(pending), sends, max) == out + Wire(pending, sends[i..], max)
      {
        WireStep(pending, sends, i, max, out);
        ghost var writes := Writes(pending, sends[i], max);
        SendTimed(ep, sends[i]);
        Regroup(old(ep.wire), out, writes);
        out, i := out + writes, i + 1;
      }
    }

    method SendTimed(ep: EndpointIn, s: Send)
      requires max > 0
      modifies this`pending, ep
      ensures pending == PendingAfter(old(pending), s, max)
      ensures ep.wire == old(ep.wire) + Writes(old(pending), s, max)
    {
      ep.budget, ep.leak := s.writes, s.leak;
      var _ := SendAll(ep, s.out);
      assert s == Send(s.out, s.writes, s.leak);
    }

    /** Whether a frame is a whole number of full packets. */
    method NeedsFlush(out: seq<byte>) returns (full: bool)
      requires max > 0
      ensures full == EndsFull(|out|, max)
    {
      EndsFullMeans(|out|, max);
      full := |out| % max == 0;
    }

    /** The chunks of a frame, then an empty packet if the last chunk was full. */
    method WritePackets(ep: EndpointIn, out: seq<byte>) returns (sent: bool)
      requires max > 0 && out != []
      modifies ep`wire, ep`budget
      ensures sent == (old(ep.budget) >= |FramePackets(out, max)|)
      ensures ep.wire == old(ep.wire) + Emitted(FramePackets(out, max), old(ep.budget), ep.leak)
    {
      ghost var packets, n := FramePackets(out, max), 0;
      var at := 0;
      assert out[0..] == out;
      while at < |out|
        invariant at <= |out| && n <= |packets|
        invariant if n == |packets| then at == |out| && !EndsFull(|out|, max)
                  else EndsFull(|out|, max) == EndsFull(|out| - at, max) && packets[n..] == FramePackets(out[at..], max)
        invariant ep.budget == old(ep.budget) - n
        invariant ep.wire == old(ep.wire) + packets[..n]
        decreases |out| - at
      {
        var end := if |out| - at < max then |out| else at + max;
        NextPacket(out, at, max, n);
        var ok := ep.Write(out[at..end]);
        if !ok {
          return false;
        }
        Regroup(old(ep.wire), packets[..n], [out[at..end]]);
        assert packets[..n + 1] == packets[..n] + [out[at..end]];
        n, at := n + 1, end;
      }
      var full := NeedsFlush(out);
      if full {
        assert packets[n..] == [[]];
        sent := ep.Write([]);
      } else {
        sent := true;
      }
    }
  }

  /** Whether the last packet of `n` bytes is a full one. */
  predicate EndsFull(n: nat, max: nat)
    requires max > 0
    decreases n
  {
    if n < max then n == 0 else EndsFull(n - max, max)
  }

  lemma {:induction false} EndsFullMeans(n: nat, max: nat)
    requires max > 0
    ensures EndsFull(n, max) <==> n % max == 0
    decreases n
  {
    if n >= max {
      EndsFullMeans(n - max, max);
      RemainderOf(n / max - 1, max, n % max);
      assert (n / max - 1) * max + n % max == n - max;
    }
  }

  /** With `n` packets out and the frame at `at`: its next packet, and what then remains. */
  lemma {:induction false} NextPacket(out: seq<byte>, at: nat, max: nat, n: nat)
    requires max > 0 && at < |out| && n < |FramePackets(out, max)|
    requires FramePackets(out, max)[n..] == FramePackets(out[at..], max)
    ensures var end := if |out| - at < max then |out| else at + max;
            var packets := FramePackets(out, max);
            && packets[n] == out[at..end]
            && packets[..n + 1] == packets[..n] + [out[at..end]]
            && if |out| - at < max then n + 1 == |packets|
               else n + 1 < |packets| && packets[n + 1..] == FramePackets(out[end..], max)
  {
    var packets := FramePackets(out, max);
    assert packets[n..][0] == packets[n] && packets[n..][1..] == packets[n + 1..];
    if |out| - at >= max {
      assert out[at..][..max] == out[at..at + max] && out[at..][max..] == out[at + max..];
    } else {
      assert out[at..] == out[at..|out|];
    }
  }

  /** The repairing empty packet takes up one write. */
  lemma {:induction false} ScriptUnpacked(pending: bool, out: seq<byte>, max: nat, done: nat, leak: bool)
    requires max > 0
    ensures var packets := FramePackets(out, max); var script := Script(pending, out, max);
            if !pending then script == packets
            else && |script| == |packets| + 1
                 && Emitted(script, done, leak)
                    == if done > 0 then [[]] + Emitted(packets, done - 1, leak) else if leak then [[]] else []
  {
    var packets := FramePackets(out, max);
    if pending && 0 < done < |packets| + 1 {
      assert ([[]] + packets)[..done] == [[]] + packets[..done - 1];
    }
  }

  lemma {:induction false} RemainderOf(k: nat, m: nat, r: nat)
    requires r < m
    ensures (k * m + r) % m == r
  {
    var x := k * m + r;
    var q := x / m - k;
    assert x == (x / m) * m + x % m;
    assert r - x % m == q * m by { assert q * m == (x / m) * m - k * m; }
    assert q >= 1 ==> q * m >= m;
    assert q <= -1 ==> q * m <= -1 * m;
  }

  // ------------------------------------------------------------------------
  // The receiver
  // ------------------------------------------------------------------------

  datatype Received = Frame(bytes: seq<byte>) | TooLarge | ConnectionClosed

  datatype ReadResult = Read(n: nat) | BufferOverflow | Disabled

  /** An OUT endpoint: the packets still to come before the connection ends. */
  class EndpointOut {
    var wire: seq<Packet>

    constructor (wire: seq<Packet>)
      ensures this.wire == wire
    {
      this.wire := wire;
    }

    /** The next packet into `buf[from..]`, if it fits there. */
    method ReadInto(buf: array<byte>, from: nat) returns (r: ReadResult)
      requires from <= buf.Length
      modifies this`wire, buf
      ensures buf[..from] == old(buf[..from])
      ensures old(wire) == [] ==> r == Disabled && wire == [] && buf[..] == old(buf[..])
      ensures old(wire) != [] ==>
                var p := old(wire)[0];
                && wire == old(wire)[1..]
                && if |p| > buf.Length - from then r == BufferOverflow
                   else r == Read(|p|) && buf[..] == old(buf[..from]) + p + old(buf[from + |p|..])
    {
      if wire == [] {
        return Disabled;
      }
      var p := wire[0];
      wire := wire[1..];
      if |p| > buf.Length - from {
        return BufferOverflow;
      }
      ghost var was := buf[..];
      var i := 0;
      while i < |p|
        invariant 0 <= i <= |p|
        invariant wire == old(wire)[1..]
        invariant buf[..from] == was[..from]
        invariant buf[from..from + i] == p[..i]
        invariant buf[from + i..] == was[from + i..]
      {
        buf[from + i] := p[i];
        i := i + 1;
      }
      assert buf[..] == buf[..from] + buf[from..from + |p|] + buf[from + |p|..];
      r := Read(|p|);
    }
  }

  /** Frames cut from packets: the bytes up to and with each short packet. */
  function Pieces(acc: seq<byte>, wire: seq<Packet>, max: nat): seq<seq<byte>>
    decreases |wire|
  {
    if wire == [] then []
    else if |wire[0]| == max then Pieces(acc + wire[0], wire[1..], max)
    else [acc + wire[0]] + Pieces([], wire[1..], max)
  }

  /** The bytes after the last short packet. */
  function Unended(acc: seq<byte>, wire: seq<Packet>, max: nat): seq<byte>
    decreases |wire|
  {
    if wire == [] then acc
    else Unended(if |wire[0]| == max then acc + wire[0] else [], wire[1..], max)
  }

  /** The next frame, when all of it is there, with `acc` already read. */
  function NextPiece(acc: seq<byte>, wire: seq<Packet>, max: nat): (r: Option<seq<byte>>)
    ensures r.Some? ==> acc <= r.value
    ensures wire != [] && r.Some? ==> acc + wire[0] <= r.value
    decreases |wire|
  {
    if wire == [] then None
    else if |wire[0]| == max then NextPiece(acc + wire[0], wire[1..], max)
    else Some(acc + wire[0])
  }

  /** What the next frame leaves on the wire. */
  function AfterFrame(wire: seq<Packet>, max: nat): seq<Packet> {
    if wire == [] then []
    else if |wire[0]| == max then AfterFrame(wire[1..], max)
    else wire[1..]
  }

  predicate NoneOver(wire: seq<Packet>, max: nat) {
    forall i :: 0 <= i < |wire| ==> |wire[i]| <= max
  }

  /** A frame that fits the buffer, or notice of one that does not. */
  function Judge(piece: seq<byte>, size: nat): Received {
    if |piece| <= size then Frame(piece) else TooLarge
  }

  function JudgeAll(pieces: seq<seq<byte>>, size: nat): (r: seq<Received>)
    ensures |r| == |pieces|
  {
    seq(|pieces|, i requires 0 <= i < |pieces| => Judge(pieces[i], size))
  }

  // What a buffer of any size makes of the wire: the result, and the packets left.

  /** A frame with `acc` in the buffer, which takes `size` bytes in all. */
  function ReceiveOne(acc: seq<byte>, wire: seq<Packet>, size: nat, max: nat): (Received, seq<Packet>)
    decreases |wire|
  {
    if |acc| >= size then Overrun(acc, wire, size, max)
    else if wire == [] then (ConnectionClosed, [])
    else if |acc + wire[0]| > size then (TooLarge, wire[1..])
    else if |wire[0]| != max then (Frame(acc + wire[0]), wire[1..])
    else ReceiveOne(acc + wire[0], wire[1..], size, max)
  }

  /** The buffer is full: an empty packet ends the frame. */
  function Overrun(acc: seq<byte>, wire: seq<Packet>, size: nat, max: nat): (Received, seq<Packet>) {
    if wire == [] then (ConnectionClosed, [])
    else if wire[0] == [] then (Frame(acc), wire[1..])
    else if |wire[0]| > size || |wire[0]| != max then (TooLarge, wire[1..])
    else Drained(wire[1..], size, max)
  }

  function Drained(wire: seq<Packet>, size: nat, max: nat): (Received, seq<Packet>) {
    if wire == [] then (ConnectionClosed, [])
    else if |wire[0]| > size || |wire[0]| != max then (TooLarge, wire[1..])
    else Drained(wire[1..], size, max)
  }

  /** All results of a connection. */
  function ReceiveAll(wire: seq<Packet>, size: nat, max: nat): seq<Received>
    decreases |wire|
  {
    var (r, rest) := ReceiveOne([], wire, size, max);
    if r.ConnectionClosed? || |rest| >= |wire| then [] else [r] + ReceiveAll(rest, size, max)
  }

  class Receiver {
    const max: nat

    constructor (max: nat)
      ensures this.max == max
    {
      this.max := max;
    }

    /** Read one frame. */
    method OneFrame(ep: EndpointOut, frame: array<byte>) returns (r: Received)
      requires max > 0
      modifies ep`wire, frame
      ensures (r, ep.wire) == ReceiveOne([], old(ep.wire), frame.Length, max)
    {
      ghost var target := ReceiveOne([], ep.wire, frame.Length, max);
      var at := 0;
      while at < frame.Length
        invariant at <= frame.Length
        invariant target == ReceiveOne(frame[..at], ep.wire, frame.Length, max)
        decreases |ep.wire|
      {
        ghost var got, wire := frame[..at], ep.wire;
        var read := ep.ReadInto(frame, at);
        match read
        case Read(n) =>
          assert frame[..at + n] == got + wire[0];
          at := at + n;
          if n != max {
            return Frame(frame[..at]);
          }
        case BufferOverflow =>
          return TooLarge;
        case Disabled =>
          return ConnectionClosed;
      }
      assert frame[..at] == frame[..];
      r := Overfull(ep, frame);
    }

    /** The buffer is full of full packets: an empty one ends the frame, and
        anything else makes it too large. */
    method Overfull(ep: EndpointOut, frame: array<byte>) returns (r: Received)
      requires max > 0
      modifies ep`wire, frame
      ensures (r, ep.wire) == Overrun(old(frame[..]), old(ep.wire), frame.Length, max)
    {
      ghost var got := frame[..];
      var read := ep.ReadInto(frame, 0);
      match read {
        case Read(n) =>
          if n == 0 {
            assert frame[..] == got;
            return Frame(frame[..]);
          }
          if n != max {
            return TooLarge;
          }
        case BufferOverflow =>
          return TooLarge;
        case Disabled =>
          return ConnectionClosed;
      }
      ghost var target := Drained(ep.wire, frame.Length, max);
      while true
        invariant target == Drained(ep.wire, frame.Length, max)
        decreases |ep.wire|
      {
        read := ep.ReadInto(frame, 0);
        match read
        case Read(n) =>
          if n != max {
            return TooLarge;
          }
        case BufferOverflow =>
          return TooLarge;
        case Disabled =>
          return ConnectionClosed;
      }
    }

    /** Every result of one connection, in order. */
    method OneConn(ep: EndpointOut, frame: array<byte>) returns (results: seq<Received>)
      requires max > 0
      modifies ep`wire, frame
      ensures results == ReceiveAll(old(ep.wire), frame.Length, max)
    {
      results := [];
      while true
        invariant ReceiveAll(old(ep.wire), frame.Length, max) == results + ReceiveAll(ep.wire, frame.Length, max)
        decreases |ep.wire|
      {
        ReceiveOneAdvances([], ep.wire, frame.Length, max);
        var r := OneFrame(ep, frame);
        if r.ConnectionClosed? {
          return;
        }
        results := results + [r];
      }
    }
  }

  lemma {:induction false} ReceiveOneAdvances(acc: seq<byte>, wire: seq<Packet>, size: nat, max: nat)
    ensures var (r, rest) := ReceiveOne(acc, wire, size, max); !r.ConnectionClosed? ==> |rest| < |wire|
    decreases |wire|
  {
    if |acc| >= size {
      if wire != [] { DrainedAdvances(wire[1..], size, max); }
    } else if wire != [] {
      ReceiveOneAdvances(acc + wire[0], wire[1..], size, max);
    }
  }

  lemma {:induction false} DrainedAdvances(wire: seq<Packet>, size: nat, max: nat)
    ensures var (r, rest) := Drained(wire, size, max); !r.ConnectionClosed? ==> |rest| < |wire|
  {
    if wire != [] { DrainedAdvances(wire[1..], size, max); }
  }

  /** A buffer of at least one whole packet, and no packet over the maximum. */
  predicate Whole(size: nat, wire: seq<Packet>, max: nat)
    requires max > 0
  {
    size > 0 && EndsFull(size, max) && NoneOver(wire, max)
  }

  /** Draining never returns a frame, and with whole packets ends where the frame ends. */
  lemma {:induction false} DrainingIsSound(wire: seq<Packet>, size: nat, max: nat)
    ensures !Drained(wire, size, max).0.Frame?
    ensures size >= max && NoneOver(wire, max) ==> Drained(wire, size, max).1 == AfterFrame(wire, max)
    ensures forall acc :: NextPiece(acc, wire, max).Some? ==> Drained(wire, size, max).0.TooLarge?
    ensures size >= max && NoneOver(wire, max) ==>
              forall acc :: NextPiece(acc, wire, max).None? ==> Drained(wire, size, max).0.ConnectionClosed?
  {
    if wire != [] {
      DrainingIsSound(wire[1..], size, max);
      forall acc | NextPiece(acc, wire, max).Some? ensures Drained(wire, size, max).0.TooLarge? {
        if |wire[0]| == max { assert NextPiece(acc + wire[0], wire[1..], max).Some?; }
      }
      forall acc | size >= max && NoneOver(wire, max) && NextPiece(acc, wire, max).None?
        ensures Drained(wire, size, max).0.ConnectionClosed?
      {
        assert NextPiece(acc + wire[0], wire[1..], max).None?;
      }
    }
  }

  /** For a buffer of any size: what comes out is what the next frame deserves. */
  lemma {:induction false} ReceivedIsNext(acc: seq<byte>, wire: seq<Packet>, size: nat, max: nat)
    requires |acc| <= size && max > 0
    ensures var (r, rest) := ReceiveOne(acc, wire, size, max);
            match NextPiece(acc, wire, max)
            case None => !r.Frame?
            case Some(piece) => r == Judge(piece, size) && (r.Frame? ==> rest == AfterFrame(wire, max))
    decreases |wire|
  {
    if |acc| == size {
      if wire != [] {
        DrainingIsSound(wire[1..], size, max);
        if wire[0] == [] { assert acc + [] == acc; }
      }
    } else if wire != [] && |acc + wire[0]| <= size && |wire[0]| == max {
      ReceivedIsNext(acc + wire[0], wire[1..], size, max);
    }
  }

  /** A buffer of whole packets leaves the wire at the start of the next frame. */
  lemma {:induction false} WholeBufferStaysAligned(acc: seq<byte>, wire: seq<Packet>, size: nat, max: nat)
    requires max > 0 && size >= max && |acc| <= size && EndsFull(size - |acc|, max) && NoneOver(wire, max)
    ensures var (r, rest) := ReceiveOne(acc, wire, size, max);
            && rest == AfterFrame(wire, max)
            && (r.ConnectionClosed? <==> NextPiece(acc, wire, max).None?)
    decreases |wire|
  {
    if |acc| == size {
      if wire != [] { DrainingIsSound(wire[1..], size, max); }
    } else if wire != [] && |wire[0]| == max {
      WholeBufferStaysAligned(acc + wire[0], wire[1..], size, max);
    }
  }

  /** Full packets that reach just over the end of a buffer, and an empty one. */
  function Overlong(n: nat, max: nat): seq<Packet>
    requires max > 0
    decreases n
  {
    var full: Packet := seq(max, i => 0);
    if n < max then [full, []] else [full] + Overlong(n - max, max)
  }

  lemma {:induction false} OverlongLosesItsPlace(acc: seq<byte>, size: nat, max: nat)
    requires max > 0 && |acc| < size && !EndsFull(size - |acc|, max)
    ensures var wire := Overlong(size - |acc|, max);
            NoneOver(wire, max) && ReceiveOne(acc, wire, size, max) == (TooLarge, [[]]) && AfterFrame(wire, max) == []
    decreases size - |acc|
  {
    var wire := Overlong(size - |acc|, max);
    if size - |acc| >= max {
      OverlongLosesItsPlace(acc + wire[0], size, max);
    }
  }

  /** Only a buffer of whole packets does: any other takes the tail of some
      frame that is too large for a frame of its own. */
  lemma {:induction false} AlignedIff(size: nat, max: nat)
    requires max > 0 && size > 0
    ensures (forall wire :: NoneOver(wire, max) ==> ReceiveOne([], wire, size, max).1 == AfterFrame(wire, max))
            <==> EndsFull(size, max)
  {
    if EndsFull(size, max) {
      forall wire: seq<Packet> | NoneOver(wire, max)
        ensures ReceiveOne([], wire, size, max).1 == AfterFrame(wire, max)
      {
        WholeBufferStaysAligned([], wire, size, max);
      }
    } else {
      OverlongLosesItsPlace([], size, max);
    }
  }

  /** With such a buffer every piece of the wire gives its one result, in order. */
  lemma {:induction false} WholeBufferJudgesAll(wire: seq<Packet>, size: nat, max: nat)
    requires max > 0 && Whole(size, wire, max)
    ensures ReceiveAll(wire, size, max) == JudgeAll(Pieces([], wire, max), size)
    decreases |wire|
  {
    var (r, rest) := ReceiveOne([], wire, size, max);
    WholeBufferStaysAligned([], wire, size, max);
    ReceivedIsNext([], wire, size, max);
    PiecesByFrame([], wire, max);
    ReceiveOneAdvances([], wire, size, max);
    if !r.ConnectionClosed? {
      WholeBufferJudgesAll(rest, size, max);
    }
  }

  lemma {:induction false} PiecesByFrame(acc: seq<byte>, wire: seq<Packet>, max: nat)
    ensures match NextPiece(acc, wire, max)
            case None => Pieces(acc, wire, max) == [] && AfterFrame(wire, max) == []
            case Some(piece) =>
              && Pieces(acc, wire, max) == [piece] + Pieces([], AfterFrame(wire, max), max)
              && |AfterFrame(wire, max)| < |wire|
    ensures NoneOver(wire, max) ==> NoneOver(AfterFrame(wire, max), max)
    decreases |wire|
  {
    if wire != [] && |wire[0]| == max {
      PiecesByFrame(acc + wire[0], wire[1..], max);
    }
  }

  lemma {:induction false} PiecesConcat(acc: seq<byte>, a: seq<Packet>, b: seq<Packet>, max: nat)
    ensures Pieces(acc, a + b, max) == Pieces(acc, a, max) + Pieces(Unended(acc, a, max), b, max)
    ensures Unended(acc, a + b, max) == Unended(Unended(acc, a, max), b, max)
    decreases |a|
  {
    if a == [] {
      assert a + b == b;
    } else {
      assert (a + b)[1..] == a[1..] + b;
      PiecesConcat(if |a[0]| == max then acc + a[0] else [], a[1..], b, max);
    }
  }

  // ------------------------------------------------------------------------
  // Runs of a sender that may be cancelled
  // ------------------------------------------------------------------------

  lemma {:induction false} WireStep(pending: bool, sends: seq<Send>, i: nat, max: nat, out: seq<Packet>)
    requires max > 0 && i < |sends|
    ensures out + Wire(pending, sends[i..], max)
         == out + Writes(pending, sends[i], max) + Wire(PendingAfter(pending, sends[i], max), sends[i + 1..], max)
  {
    assert sends[i..][0] == sends[i] && sends[i..][1..] == sends[i + 1..];
  }

  /** A frame to send, and when its timer fires. */
  datatype Send = Send(out: seq<byte>, writes: nat, leak: bool)

  predicate Completes(pending: bool, s: Send, max: nat)
    requires max > 0
  {
    s.out == [] || s.writes >= |Script(pending, s.out, max)|
  }

  /** What `SendAll` puts on the wire, and the flag it leaves. */
  function Writes(pending: bool, s: Send, max: nat): seq<Packet>
    requires max > 0
  {
    if s.out == [] then [] else Emitted(Script(pending, s.out, max), s.writes, s.leak)
  }

  predicate PendingAfter(pending: bool, s: Send, max: nat)
    requires max > 0
  {
    if s.out == [] then pending else !Completes(pending, s, max)
  }

  function Wire(pending: bool, sends: seq<Send>, max: nat): seq<Packet>
    requires max > 0
    decreases |sends|
  {
    if sends == [] then [] else
    Writes(pending, sends[0], max) + Wire(PendingAfter(pending, sends[0], max), sends[1..], max)
  }

  /** The nonempty frames whose send ran to its end, in order; or, of `done` false, the cancelled ones. */
  function Outs(pending: bool, sends: seq<Send>, max: nat, done: bool): seq<seq<byte>>
    requires max > 0
    decreases |sends|
  {
    if sends == [] then [] else
    (if sends[0].out != [] && Completes(pending, sends[0], max) == done then [sends[0].out] else [])
    + Outs(PendingAfter(pending, sends[0], max), sends[1..], max, done)
  }

  /** A received piece: a frame sent in full, or the remains of a cancelled one. */
  datatype Piece = Sent(bytes: seq<byte>) | Remains(bytes: seq<byte>)

  function Bytes(pieces: seq<Piece>): (r: seq<seq<byte>>)
    ensures |r| == |pieces|
  {
    seq(|pieces|, i requires 0 <= i < |pieces| => pieces[i].bytes)
  }

  function SentOf(pieces: seq<Piece>): seq<seq<byte>> {
    if pieces == [] then [] else
    (if pieces[0].Sent? then [pieces[0].bytes] else []) + SentOf(pieces[1..])
  }

  /** Nothing, or the front of one of these frames. */
  predicate FrontOf(bytes: seq<byte>, frames: seq<seq<byte>>) {
    bytes == [] || exists i :: 0 <= i < |frames| && bytes <= frames[i]
  }

  /** The pieces of one send's writes, after `left` was left without an end. */
  function PiecesOfSend(pending: bool, left: seq<byte>, s: Send, max: nat): seq<Piece>
    requires max > 0
  {
    var gone := |Writes(pending, s, max)|;
    (if pending && gone > 0 then [Remains(left)] else [])
    + (if s.out == [] || gone < |Script(pending, s.out, max)| then []
       else if Completes(pending, s, max) then [Sent(s.out)] else [Remains(s.out)])
  }

  function PiecesOfRun(pending: bool, left: seq<byte>, sends: seq<Send>, max: nat): seq<Piece>
    requires max > 0
    decreases |sends|
  {
    if sends == [] then [] else
    PiecesOfSend(pending, left, sends[0], max)
    + PiecesOfRun(PendingAfter(pending, sends[0], max), Unended(left, Writes(pending, sends[0], max), max),
                  sends[1..], max)
  }

  /** The first packets of a frame end nothing, unless they are all of it. */
  lemma {:induction false} FrontOfFrame(acc: seq<byte>, out: seq<byte>, k: nat, max: nat)
    requires max > 0 && k <= |FramePackets(out, max)|
    ensures var front := FramePackets(out, max)[..k];
            if k == |FramePackets(out, max)| then
              Pieces(acc, front, max) == [acc + out] && Unended(acc, front, max) == []
            else
              && Pieces(acc, front, max) == []
              && exists n :: 0 <= n <= |out| && Unended(acc, front, max) == acc + out[..n]
    decreases k
  {
    var packets := FramePackets(out, max);
    if k == 0 {
      assert acc == acc + out[..0];
    } else if |out| < max {
      assert packets[..k] == [out];
    } else {
      var front := packets[..k];
      assert packets[1..] == FramePackets(out[max..], max);
      assert front[1..] == packets[1..][..k - 1];
      assert out == out[..max] + out[max..];
      FrontOfFrame(acc + out[..max], out[max..], k - 1, max);
      assert acc + out[..max] + out[max..] == acc + out;
      if k < |packets| {
        var n :| 0 <= n <= |out[max..]|
                 && Unended(acc + out[..max], front[1..], max) == acc + out[..max] + out[max..][..n];
        assert acc + out[..max] + out[max..][..n] == acc + out[..max + n];
      }
    }
  }

  /** One send: its pieces, and what it leaves without an end. */
  lemma {:induction false} SendIsReceived(pending: bool, left: seq<byte>, s: Send, max: nat)
    requires max > 0 && (left != [] ==> pending)
    ensures var writes := Writes(pending, s, max); var after := Unended(left, writes, max);
            && Pieces(left, writes, max) == Bytes(PiecesOfSend(pending, left, s, max))
            && (after != [] ==> PendingAfter(pending, s, max))
            && (after == left || (after <= s.out && (after != [] ==> !Completes(pending, s, max))))
  {
    if s.out != [] {
      var packets, script := FramePackets(s.out, max), Script(pending, s.out, max);
      var writes := Writes(pending, s, max);
      var k := if pending then |writes| - 1 else |writes|;
      assert writes == script[..|writes|];
      if k >= 0 {
        var frame := packets[..k];
        assert writes == (if pending then [[]] else []) + frame;
        PiecesConcat(left, if pending then [[]] else [], frame, max);
        assert left + [] == left;
        FrontOfFrame([], s.out, k, max);
        assert [] + s.out == s.out;
        assert forall n :: 0 <= n <= |s.out| ==> [] + s.out[..n] == s.out[..n];
      }
    }
  }

  /** What remains of cancelled sends: what was left before, or the front of a cancelled frame. */
  predicate Explained(pieces: seq<Piece>, left: seq<byte>, cancelled: seq<seq<byte>>) {
    forall i :: 0 <= i < |pieces| && pieces[i].Remains? ==>
                  pieces[i].bytes == left || FrontOf(pieces[i].bytes, cancelled)
  }

  lemma {:induction false} SentOfConcat(a: seq<Piece>, b: seq<Piece>)
    ensures SentOf(a + b) == SentOf(a) + SentOf(b)
  {
    if a == [] {
      assert a + b == b;
    } else {
      assert (a + b)[1..] == a[1..] + b;
      SentOfConcat(a[1..], b);
    }
  }

  /** The pieces of one send hold its frame, if it was sent, and explain the rest. */
  lemma {:induction false} SendIsExplained(pending: bool, left: seq<byte>, s: Send, max: nat)
    requires max > 0
    ensures var pieces := PiecesOfSend(pending, left, s, max);
            && SentOf(pieces) == (if s.out != [] && Completes(pending, s, max) then [s.out] else [])
            && Explained(pieces, left, if s.out != [] && !Completes(pending, s, max) then [s.out] else [])
  {
    var pieces := PiecesOfSend(pending, left, s, max);
    var repair := if pending && |Writes(pending, s, max)| > 0 then [Remains(left)] else [];
    var frame := pieces[|repair|..];
    assert pieces == repair + frame;
    SentOfConcat(repair, frame);
    assert SentOf(repair) == [];
    if s.out != [] && !Completes(pending, s, max) {
      assert FrontOf(s.out, [s.out]) by { assert s.out <= [s.out][0]; }
    }
  }

  lemma {:induction false} FrontOfMore(bytes: seq<byte>, a: seq<seq<byte>>, b: seq<seq<byte>>)
    ensures FrontOf(bytes, a) ==> FrontOf(bytes, a + b)
    ensures FrontOf(bytes, b) ==> FrontOf(bytes, a + b)
  {
    if bytes != [] && FrontOf(bytes, a) {
      var i :| 0 <= i < |a| && bytes <= a[i];
      assert bytes <= (a + b)[i];
    }
    if bytes != [] && FrontOf(bytes, b) {
      var i :| 0 <= i < |b| && bytes <= b[i];
      assert bytes <= (a + b)[|a| + i];
    }
  }

  lemma {:induction false} ExplainedConcat(a: seq<Piece>, left: seq<byte>, x: seq<seq<byte>>,
                                           b: seq<Piece>, after: seq<byte>, y: seq<seq<byte>>)
    requires Explained(a, left, x) && Explained(b, after, y)
    requires after == left || FrontOf(after, x)
    ensures Explained(a + b, left, x + y)
  {
    forall i | 0 <= i < |a + b| && (a + b)[i].Remains?
      ensures (a + b)[i].bytes == left || FrontOf((a + b)[i].bytes, x + y)
    {
      FrontOfMore((a + b)[i].bytes, x, y);
    }
  }

  /** What a receiver cuts from a whole run of sends, cancelled at any write. */
  lemma {:induction false} RunIsReceived(pending: bool, left: seq<byte>, sends: seq<Send>, max: nat)
    requires max > 0 && (left != [] ==> pending)
    ensures Pieces(left, Wire(pending, sends, max), max) == Bytes(PiecesOfRun(pending, left, sends, max))
    decreases |sends|
  {
    if sends != [] {
      var writes := Writes(pending, sends[0], max);
      var next, after := PendingAfter(pending, sends[0], max), Unended(left, writes, max);
      SendIsReceived(pending, left, sends[0], max);
      RunIsReceived(next, after, sends[1..], max);
      PiecesConcat(left, writes, Wire(next, sends[1..], max), max);
      BytesConcat(PiecesOfSend(pending, left, sends[0], max), PiecesOfRun(next, after, sends[1..], max));
    }
  }

  lemma {:induction false} BytesConcat(a: seq<Piece>, b: seq<Piece>)
    ensures Bytes(a + b) == Bytes(a) + Bytes(b)
  {}

  /** The pieces of a run: every frame sent in full, once and in order, and
      besides only empty pieces and fronts of frames whose send was cancelled. */
  lemma {:induction false} RunIsExplained(pending: bool, left: seq<byte>, sends: seq<Send>, max: nat)
    requires max > 0 && (left != [] ==> pending)
    ensures var pieces := PiecesOfRun(pending, left, sends, max);
            && SentOf(pieces) == Outs(pending, sends, max, true)
            && Explained(pieces, left, Outs(pending, sends, max, false))
    decreases |sends|
  {
    if sends != [] {
      var s := sends[0];
      var next, after := PendingAfter(pending, s, max), Unended(left, Writes(pending, s, max), max);
      SendIsReceived(pending, left, s, max);
      SendIsExplained(pending, left, s, max);
      RunIsExplained(next, after, sends[1..], max);
      var a, b := PiecesOfSend(pending, left, s, max), PiecesOfRun(next, after, sends[1..], max);
      var x := if s.out != [] && !Completes(pending, s, max) then [s.out] else [];
      SentOfConcat(a, b);
      assert after == left || FrontOf(after, x) by {
        if after != left && after != [] { assert after <= x[0]; }
      }
      ExplainedConcat(a, left, x, b, after, Outs(next, sends[1..], max, false));
    }
  }

  lemma {:induction false} FrameNoneOver(out: seq<byte>, max: nat)
    requires max > 0
    ensures NoneOver(FramePackets(out, max), max)
    decreases |out|
  {
    if |out| >= max {
      FrameNoneOver(out[max..], max);
    }
  }

  lemma {:induction false} WireNoneOver(pending: bool, sends: seq<Send>, max: nat)
    requires max > 0
    ensures NoneOver(Wire(pending, sends, max), max)
    decreases |sends|
  {
    if sends != [] {
      FrameNoneOver(sends[0].out, max);
      WireNoneOver(PendingAfter(pending, sends[0], max), sends[1..], max);
    }
  }

  /** From end to end: the results of a connection over which a fresh sender
      sends, each send cancelled at any write or not at all. Every piece gives
      one result, the frame or notice that it does not fit. */
  lemma {:induction false} FramesSurviveCancellation(sends: seq<Send>, size: nat, max: nat)
    requires max > 0 && size > 0 && EndsFull(size, max)
    ensures var wire, pieces := Wire(false, sends, max), PiecesOfRun(false, [], sends, max);
            && Whole(size, wire, max)
            && ReceiveAll(wire, size, max) == JudgeAll(Bytes(pieces), size)
            && SentOf(pieces) == Outs(false, sends, max, true)
            && forall i :: 0 <= i < |pieces| && pieces[i].Remains? ==>
                             FrontOf(pieces[i].bytes, Outs(false, sends, max, false))
  {
    WireNoneOver(false, sends, max);
    WholeBufferJudgesAll(Wire(false, sends, max), size, max);
    RunIsReceived(false, [], sends, max);
    RunIsExplained(false, [], sends, max);
    forall i | 0 <= i < |PiecesOfRun(false, [], sends, max)| && PiecesOfRun(false, [], sends, max)[i].Remains?
      ensures FrontOf(PiecesOfRun(false, [], sends, max)[i].bytes, Outs(false, sends, max, false))
    {}
  }

  /** With no cancellation, the frames come out as they are, and nothing else. */
  lemma {:induction false} UndisturbedFramesComeOut(sends: seq<Send>, max: nat)
    requires max > 0
    requires forall i :: 0 <= i < |sends| ==>
               sends[i].out != [] && sends[i].writes >= |Script(false, sends[i].out, max)|
    ensures Pieces([], Wire(false, sends, max), max) == seq(|sends|, i requires 0 <= i < |sends| => sends[i].out)
  {
    if sends != [] {
      SendIsReceived(false, [], sends[0], max);
      PiecesConcat([], Writes(false, sends[0], max), Wire(false, sends[1..], max), max);
      UndisturbedFramesComeOut(sends[1..], max);
    }
  }

  // ------------------------------------------------------------------------
  // How much a cancellation leaves behind
  // ------------------------------------------------------------------------

  /** The flag after a run of sends. */
  function PendingAfterAll(pending: bool, sends: seq<Send>, max: nat): bool
    requires max > 0
    decreases |sends|
  {
    if sends == [] then pending else PendingAfterAll(PendingAfter(pending, sends[0], max), sends[1..], max)
  }

  lemma {:induction false} OneMoreSend(pending: bool, sends: seq<Send>, y: Send, max: nat)
    requires max > 0
    ensures Wire(pending, sends + [y], max)
         == Wire(pending, sends, max) + Writes(PendingAfterAll(pending, sends, max), y, max)
    ensures PendingAfterAll(pending, sends + [y], max)
         == PendingAfter(PendingAfterAll(pending, sends, max), y, max)
    decreases |sends|
  {
    if sends == [] {
      assert [] + [y] == [y] && [y][1..] == [];
    } else {
      var next := PendingAfter(pending, sends[0], max);
      assert (sends + [y])[1..] == sends[1..] + [y];
      OneMoreSend(next, sends[1..], y, max);
      Regroup(Writes(pending, sends[0], max), Wire(next, sends[1..], max),
              Writes(PendingAfterAll(next, sends[1..], max), y, max));
    }
  }

  /** Bytes without an end are left only while the flag is set. */
  lemma {:induction false} LeftMeansPending(pending: bool, left: seq<byte>, sends: seq<Send>, max: nat)
    requires max > 0 && (left != [] ==> pending)
    ensures Unended(left, Wire(pending, sends, max), max) != [] ==> PendingAfterAll(pending, sends, max)
    decreases |sends|
  {
    if sends != [] {
      var writes := Writes(pending, sends[0], max);
      var next, after := PendingAfter(pending, sends[0], max), Unended(left, writes, max);
      SendIsReceived(pending, left, sends[0], max);
      PiecesConcat(left, writes, Wire(next, sends[1..], max), max);
      LeftMeansPending(next, after, sends[1..], max);
    }
  }

  /** Whatever was cancelled before: a frame sent right after another that was
      sent in full is received as itself, with nothing in between. */
  lemma {:induction false} FrameAfterFrame(sends: seq<Send>, x: Send, y: Send, max: nat)
    requires max > 0 && x.out != [] && y.out != []
    requires x.writes > |FramePackets(x.out, max)| && y.writes >= |FramePackets(y.out, max)|
    ensures Pieces([], Wire(false, sends + [x, y], max), max)
         == Pieces([], Wire(false, sends + [x], max), max) + [y.out]
  {
    var before := sends + [x];
    assert sends + [x, y] == before + [y];
    OneMoreSend(false, sends, x, max);
    OneMoreSend(false, before, y, max);
    LeftMeansPending(false, [], before, max);
    var wire, packets := Wire(false, before, max), FramePackets(y.out, max);
    assert !PendingAfterAll(false, before, max);
    assert Writes(false, y, max) == packets;
    PiecesConcat([], wire, packets, max);
    FrontOfFrame([], y.out, |packets|, max);
    assert packets[..|packets|] == packets && [] + y.out == y.out;
  }

  /** A cancelled send leaves at most two pieces behind: itself, if its last
      packet still went out, and what its repair ends. */
  lemma {:induction false} PiecesOfRunAreFew(pending: bool, left: seq<byte>, sends: seq<Send>, max: nat)
    requires max > 0
    ensures |PiecesOfRun(pending, left, sends, max)|
         <= (if pending then 1 else 0) + |Outs(pending, sends, max, true)| + 2 * |Outs(pending, sends, max, false)|
    decreases |sends|
  {
    if sends != [] {
      PiecesOfRunAreFew(PendingAfter(pending, sends[0], max), Unended(left, Writes(pending, sends[0], max), max),
                        sends[1..], max);
    }
  }

  lemma {:induction false} FewPiecesBesideFrames(sends: seq<Send>, max: nat)
    requires max > 0
    ensures |Pieces([], Wire(false, sends, max), max)|
         <= |Outs(false, sends, max, true)| + 2 * |Outs(false, sends, max, false)|
  {
    RunIsReceived(false, [], sends, max);
    PiecesOfRunAreFew(false, [], sends, max);
  }

  /** Two it can be: a one-byte frame whose interrupted write went out. */
  lemma {:induction false} TwoPiecesBesideFrames()
    ensures var sends := [Send([1], 0, true), Send([2], 9, true), Send([3], 9, true)];
            && Outs(false, sends, 64, false) == [[1]]
            && Pieces([], Wire(false, sends, 64), 64) == [[1], [], [2], [3]]
  {
    var a, b, c := Send([1], 0, true), Send([2], 9, true), Send([3], 9, true);
    var sends := [a, b, c];
    assert sends[1..] == [b, c] && [b, c][1..] == [c] && [c][1..] == [];
    TwoPiecesWire(a, b, c);
    ShortPiece([1], [[], [2], [3]], 64);
    ShortPiece([], [[2], [3]], 64);
    ShortPiece([2], [[3]], 64);
    ShortPiece([3], [], 64);
    assert [[1]] + [[], [2], [3]] == [[1], [], [2], [3]];
  }

  lemma {:induction false} TwoPiecesWire(a: Send, b: Send, c: Send)
    requires a == Send([1], 0, true) && b == Send([2], 9, true) && c == Send([3], 9, true)
    ensures Outs(false, [a, b, c], 64, false) == [[1]]
    ensures Wire(false, [a, b, c], 64) == [[1], [], [2], [3]]
  {
    assert [a, b, c][1..] == [b, c] && [b, c][1..] == [c] && [c][1..] == [];
    assert Writes(false, a, 64) == [[1]] && Writes(true, b, 64) == [[], [2]] && Writes(false, c, 64) == [[3]];
    assert Wire(false, [c], 64) == [[3]];
    assert Wire(true, [b, c], 64) == [[], [2]] + [[3]];
    assert Completes(true, b, 64) && Completes(false, c, 64);
    assert Outs(false, [c], 64, false) == [];
    assert Outs(true, [b, c], 64, false) == [];
  }

  lemma {:induction false} ShortPiece(p: Packet, rest: seq<Packet>, max: nat)
    requires |p| < max
    ensures Pieces([], [p] + rest, max) == [p] + Pieces([], rest, max)
  {
    assert ([p] + rest)[1..] == rest && [] + p == p;
  }
}
