/** From frames to a byte stream and back, whatever chunks the stream is read in. */
module CobsStream {
  import opened Wrappers
  import opened Sequences
  import opened Cobs
  import opened CobsAccumulators

  /** What the read loop gets out of a piece; lost pieces leave no outcome. */
  datatype Outcome = Got(frame: seq<byte>) | Bad

  function PieceOutcome(piece: seq<byte>): Outcome {
    match Decode(piece)
    case None => Bad
    case Some(frame) => Got(frame)
  }

  // ------------------------------------------------------------------------
  // The read loop
  // ------------------------------------------------------------------------

  /** Feed one chunk until it is consumed. */
  function Drain(cap: nat, st: Pending, chunk: seq<byte>): (r: (Pending, seq<Outcome>))
    decreases |chunk|
  {
    var (next, answer) := Feed(cap, st, chunk);
    match answer
    case Consumed => (next, [])
    case OverFull(rest) => Drain(cap, next, rest)
    case DecodeError(rest) =>
      var (end, outs) := Drain(cap, next, rest);
      (end, [Bad] + outs)
    case Success(frame, rest) =>
      var (end, outs) := Drain(cap, next, rest);
      (end, [Got(frame)] + outs)
  }

  function DrainAll(cap: nat, st: Pending, chunks: seq<seq<byte>>): (r: (Pending, seq<Outcome>))
    decreases |chunks|
  {
    if chunks == [] then (st, [])
    else
      var (next, outs) := Drain(cap, st, chunks[0]);
      var (end, more) := DrainAll(cap, next, chunks[1..]);
      (end, outs + more)
  }

  function OutcomeOf(answer: Answer): seq<Outcome> {
    match answer
    case Consumed => []
    case OverFull(_) => []
    case DecodeError(_) => [Bad]
    case Success(frame, _) => [Got(frame)]
  }

  lemma {:induction false} DrainStep(cap: nat, st: Pending, chunk: seq<byte>)
    requires !Feed(cap, st, chunk).1.Consumed?
    ensures var (next, answer) := Feed(cap, st, chunk);
            var (end, outs) := Drain(cap, next, answer.rest);
            Drain(cap, st, chunk) == (end, OutcomeOf(answer) + outs)
  {
    var (next, answer) := Feed(cap, st, chunk);
    assert [] + Drain(cap, next, answer.rest).1 == Drain(cap, next, answer.rest).1;
  }

  /** One call of the accumulator on scratch[lo..used], and what it yields. */
  method FeedOnce(acc: CobsAccumulator, scratch: array<byte>, lo: nat, used: nat)
    returns (more: bool, out: seq<Outcome>, next: nat)
    requires acc.Valid() && acc.buf != scratch && lo <= used <= scratch.Length
    modifies acc, acc.buf, scratch
    ensures acc.Valid() && lo <= next <= used
    ensures var (st, answer) := Feed(acc.buf.Length, old(acc.State()), old(scratch[lo..used]));
            && acc.State() == st && more == !answer.Consumed? && out == OutcomeOf(answer)
            && (more ==> answer.rest == scratch[next..used])
  {
    more, out, next := true, [], used;
    var r := acc.FeedRaw(scratch, lo, used);
    match r {
      case FedConsumed => more := false;
      case FedOverFull(rest) => next := rest;
      case FedDecodeError(rest) => out, next := [Bad], rest;
      case FedSuccess(len, rest) => out, next := [Got(acc.buf[..len])], rest;
      case FedSuccessInput(len, rest) => out, next := [Got(scratch[lo..lo + len])], rest;
    }
  }

  /** Drain scratch[..used] through the accumulator. */
  method DrainChunk(acc: CobsAccumulator, scratch: array<byte>, used: nat) returns (outs: seq<Outcome>)
    requires acc.Valid() && acc.buf != scratch && used <= scratch.Length
    modifies acc, acc.buf, scratch
    ensures acc.Valid()
    ensures (acc.State(), outs) == Drain(acc.buf.Length, old(acc.State()), old(scratch[..used]))
  {
    var lo, more := 0, true;
    outs := [];
    ghost var target := Drain(acc.buf.Length, acc.State(), scratch[..used]);
    assert scratch[0..used] == scratch[..used];
    assert [] + target.1 == target.1;
    while more
      invariant acc.Valid() && lo <= used
      invariant if more then target.0 == Drain(acc.buf.Length, acc.State(), scratch[lo..used]).0
                             && target.1 == outs + Drain(acc.buf.Length, acc.State(), scratch[lo..used]).1
                else target == (acc.State(), outs)
      decreases more, used - lo
    {
      var out, next;
      ghost var st, chunk := acc.State(), scratch[lo..used];
      more, out, next := FeedOnce(acc, scratch, lo, used);
      if more {
        DrainStep(acc.buf.Length, st, chunk);
        ghost var after := Drain(acc.buf.Length, acc.State(), scratch[next..used]).1;
        Regroup(outs, out, after);
        outs, lo := outs + out, next;
      } else {
        assert outs + [] == outs;
      }
    }
  }

  /** Reads up to the first empty one, which means end of stream. */
  function UntilEof(chunks: seq<seq<byte>>): seq<seq<byte>> {
    if chunks == [] || chunks[0] == [] then [] else [chunks[0]] + UntilEof(chunks[1..])
  }

  /** The receive loop: `chunks` are what the transport's successive reads return. */
  method RunInner(acc: CobsAccumulator, scratch: array<byte>, chunks: seq<seq<byte>>) returns (outs: seq<Outcome>)
    requires acc.Valid() && acc.buf != scratch
    requires forall c :: c in chunks ==> |c| <= scratch.Length
    modifies acc, acc.buf, scratch
    ensures acc.Valid()
    ensures (acc.State(), outs) == DrainAll(acc.buf.Length, old(acc.State()), UntilEof(chunks))
  {
    outs := [];
    ghost var target := DrainAll(acc.buf.Length, acc.State(), UntilEof(chunks));
    assert chunks[0..] == chunks && [] + target.1 == target.1;
    for i := 0 to |chunks|
      invariant acc.Valid()
      invariant var (end, more) := DrainAll(acc.buf.Length, acc.State(), UntilEof(chunks[i..]));
                target == (end, outs + more)
    {
      assert chunks[i..][0] == chunks[i] && chunks[i..][1..] == chunks[i + 1..];
      if chunks[i] == [] {
        assert outs + [] == outs;
        return;
      }
      var used := |chunks[i]|;
      ghost var st := acc.State();
      Receive(scratch, chunks[i]);
      ghost var todo := UntilEof(chunks[i..]);
      assert todo[0] == chunks[i] && todo[1..] == UntilEof(chunks[i + 1..]);
      var got := DrainChunk(acc, scratch, used);
      ghost var more := DrainAll(acc.buf.Length, acc.State(), todo[1..]).1;
      Regroup(outs, got, more);
      outs := outs + got;
    }
    assert outs + [] == outs;
  }

  /** A read of the transport fills the front of the scratch buffer. */
  method Receive(scratch: array<byte>, bytes: seq<byte>)
    requires |bytes| <= scratch.Length
    modifies scratch
    ensures scratch[..|bytes|] == bytes
  {
    for i := 0 to |bytes|
      invariant forall k :: 0 <= k < i ==> scratch[k] == bytes[k]
    {
      scratch[i] := bytes[i];
    }
  }

  // ------------------------------------------------------------------------
  // What the loop should produce
  // ------------------------------------------------------------------------

  /** Without buffer or overflow flag: `carried` is all of the current piece that
      came in earlier chunks. A piece counts when it began in this chunk, or
      fits the buffer together with its delimiter. */
  function Reassemble(cap: nat, carried: seq<byte>, chunk: seq<byte>): (r: (seq<byte>, seq<Outcome>))
    decreases |chunk|
  {
    var n := ZeroAt(chunk);
    if n == |chunk| then (carried + chunk, [])
    else
      var piece := carried + chunk[..n];
      var (left, outs) := Reassemble(cap, [], chunk[n + 1..]);
      (left, (if carried == [] || |piece| + 1 <= cap then [PieceOutcome(piece)] else []) + outs)
  }

  function ReassembleAll(cap: nat, carried: seq<byte>, chunks: seq<seq<byte>>): (r: (seq<byte>, seq<Outcome>))
    decreases |chunks|
  {
    if chunks == [] then (carried, [])
    else
      var (left, outs) := Reassemble(cap, carried, chunks[0]);
      var (end, more) := ReassembleAll(cap, left, chunks[1..]);
      (end, outs + more)
  }

  /** The accumulator state that stands for an unfinished piece. */
  function Kept(cap: nat, carried: seq<byte>): Pending {
    if |carried| <= cap then Partial(carried) else Overflow
  }

  lemma {:induction false} DrainReassembles(cap: nat, carried: seq<byte>, chunk: seq<byte>)
    ensures var (left, outs) := Reassemble(cap, carried, chunk);
            Drain(cap, Kept(cap, carried), chunk) == (Kept(cap, left), outs)
    decreases |chunk|
  {
    var n := ZeroAt(chunk);
    if n == |chunk| {
      assert carried + [] == carried;
    } else {
      DrainReassembles(cap, [], chunk[n + 1..]);
      assert [] + Reassemble(cap, [], chunk[n + 1..]).1 == Reassemble(cap, [], chunk[n + 1..]).1;
      if carried == [] { assert carried + chunk[..n] == chunk[..n]; }
    }
  }

  /** The accumulator's buffer, overflow flag and in-place fast path together do
      exactly what plain reassembly does, for every chunking. */
  lemma {:induction false} AccumulatorRefinesReassembly(cap: nat, carried: seq<byte>, chunks: seq<seq<byte>>)
    ensures var (left, outs) := ReassembleAll(cap, carried, chunks);
            DrainAll(cap, Kept(cap, carried), chunks) == (Kept(cap, left), outs)
    decreases |chunks|
  {
    if chunks != [] {
      DrainReassembles(cap, carried, chunks[0]);
      AccumulatorRefinesReassembly(cap, Reassemble(cap, carried, chunks[0]).0, chunks[1..]);
    }
  }

  // ------------------------------------------------------------------------
  // Independence of the chunking
  // ------------------------------------------------------------------------

  function Concat(chunks: seq<seq<byte>>): seq<byte> {
    if chunks == [] then [] else chunks[0] + Concat(chunks[1..])
  }

  /** The zero-terminated pieces of a stream. */
  function Pieces(s: seq<byte>): seq<seq<byte>>
    decreases |s|
  {
    var n := ZeroAt(s);
    if n == |s| then [] else [s[..n]] + Pieces(s[n + 1..])
  }

  /** What follows the last zero. */
  function Tail(s: seq<byte>): seq<byte>
    decreases |s|
  {
    var n := ZeroAt(s);
    if n == |s| then s else Tail(s[n + 1..])
  }

  /** Piece by piece: one that fits gives its own outcome, a longer one gives
      its own outcome or none. */
  ghost predicate Explained(cap: nat, pieces: seq<seq<byte>>, outs: seq<Outcome>)
    decreases |pieces|
  {
    if pieces == [] then outs == []
    else
      || (outs != [] && outs[0] == PieceOutcome(pieces[0]) && Explained(cap, pieces[1..], outs[1..]))
      || (|pieces[0]| + 1 > cap && Explained(cap, pieces[1..], outs))
  }

  lemma {:induction false} SplitAfterCarried(carried: seq<byte>, s: seq<byte>)
    requires 0 !in carried
    ensures var n := ZeroAt(s);
            if n == |s| then Pieces(carried + s) == [] && Tail(carried + s) == carried + s
            else Pieces(carried + s) == [carried + s[..n]] + Pieces(s[n + 1..]) && Tail(carried + s) == Tail(s[n + 1..])
  {
    var n, m := ZeroAt(s), ZeroAt(carried + s);
    forall i | 0 <= i < |carried| + n ensures (carried + s)[i] != 0 {
      if i < |carried| { assert carried[i] in carried; } else { assert (carried + s)[i] == s[i - |carried|]; }
    }
    assert n < |s| ==> (carried + s)[|carried| + n] == s[n];
    assert m == |carried| + n;
    if n < |s| {
      assert (carried + s)[..m] == carried + s[..n];
      assert (carried + s)[m + 1..] == s[n + 1..];
    }
  }

  /** Whatever the chunking, what comes out is explained piece by piece, and what
      is left is the bytes after the last delimiter: no piece touches the next. */
  lemma {:induction false} ReassemblyIsExplained(cap: nat, carried: seq<byte>, chunks: seq<seq<byte>>)
    requires 0 !in carried
    ensures var stream := carried + Concat(chunks);
            var (left, outs) := ReassembleAll(cap, carried, chunks);
            Explained(cap, Pieces(stream), outs) && left == Tail(stream) && 0 !in left
    decreases |Concat(chunks)| + |chunks|
  {
    if chunks == [] {
      SplitAfterCarried(carried, []);
    } else {
      var chunk, rest := chunks[0], chunks[1..];
      var n := ZeroAt(chunk);
      if n == |chunk| {
        assert carried + (chunk + Concat(rest)) == (carried + chunk) + Concat(rest);
        assert [] + ReassembleAll(cap, carried + chunk, rest).1 == ReassembleAll(cap, carried + chunk, rest).1;
        ReassemblyIsExplained(cap, carried + chunk, rest);
      } else {
        var next := [chunk[n + 1..]] + rest;
        assert next[1..] == rest;
        assert Concat(next) == chunk[n + 1..] + Concat(rest);
        assert [] + Concat(next) == Concat(next);
        ReassemblyIsExplained(cap, [], next);
        StreamSplits(carried, chunk, Concat(rest));
        LoopSplits(cap, carried, chunks);
        ExplainedCons(cap, carried, carried + chunk[..n], Pieces(Concat(next)), ReassembleAll(cap, [], next).1);
      }
    }
  }

  /** The outcomes of a piece: its own, unless it is lost for having grown too long. */
  function Outcomes(cap: nat, carried: seq<byte>, piece: seq<byte>): seq<Outcome> {
    if carried == [] || |piece| + 1 <= cap then [PieceOutcome(piece)] else []
  }

  /** The first delimiter splits the stream. */
  lemma {:induction false} StreamSplits(carried: seq<byte>, chunk: seq<byte>, rest: seq<byte>)
    requires 0 !in carried && ZeroAt(chunk) < |chunk|
    ensures var n := ZeroAt(chunk);
            && Pieces(carried + (chunk + rest)) == [carried + chunk[..n]] + Pieces(chunk[n + 1..] + rest)
            && Tail(carried + (chunk + rest)) == Tail(chunk[n + 1..] + rest)
  {
    ZeroInFront(chunk, rest);
    SplitAfterCarried(carried, chunk + rest);
  }

  lemma {:induction false} ZeroInFront(chunk: seq<byte>, rest: seq<byte>)
    requires ZeroAt(chunk) < |chunk|
    ensures var n, all := ZeroAt(chunk), chunk + rest;
            ZeroAt(all) == n && all[..n] == chunk[..n] && all[n + 1..] == chunk[n + 1..] + rest
  {
    var n, all := ZeroAt(chunk), chunk + rest;
    assert all[n] == 0 && forall i :: 0 <= i < n ==> all[i] == chunk[i];
  }

  /** The first delimiter splits the loop. */
  lemma {:induction false} LoopSplits(cap: nat, carried: seq<byte>, chunks: seq<seq<byte>>)
    requires chunks != [] && ZeroAt(chunks[0]) < |chunks[0]|
    ensures var n := ZeroAt(chunks[0]);
            var (left, outs) := ReassembleAll(cap, [], [chunks[0][n + 1..]] + chunks[1..]);
            ReassembleAll(cap, carried, chunks) == (left, Outcomes(cap, carried, carried + chunks[0][..n]) + outs)
  {
    var n, rest := ZeroAt(chunks[0]), chunks[1..];
    var next := [chunks[0][n + 1..]] + rest;
    assert next[1..] == rest;
    var (left, outs) := Reassemble(cap, [], chunks[0][n + 1..]);
    var o, more := Outcomes(cap, carried, carried + chunks[0][..n]), ReassembleAll(cap, left, rest).1;
    assert (o + outs) + more == o + (outs + more);
  }

  lemma {:induction false} ExplainedCons(cap: nat, carried: seq<byte>, piece: seq<byte>, pieces: seq<seq<byte>>,
                                         outs: seq<Outcome>)
    requires Explained(cap, pieces, outs)
    ensures Explained(cap, [piece] + pieces, Outcomes(cap, carried, piece) + outs)
  {
    assert ([piece] + pieces)[1..] == pieces;
    var all := Outcomes(cap, carried, piece) + outs;
    if carried == [] || |piece| + 1 <= cap { assert all[1..] == outs; } else { assert all == outs; }
  }

  lemma {:induction false} FittingPiecesAllComeOut(cap: nat, pieces: seq<seq<byte>>, outs: seq<Outcome>)
    requires Explained(cap, pieces, outs)
    requires forall p :: p in pieces ==> |p| + 1 <= cap
    ensures |outs| == |pieces| && forall i :: 0 <= i < |outs| ==> outs[i] == PieceOutcome(pieces[i])
    decreases |pieces|
  {
    if pieces != [] {
      assert pieces[0] in pieces;
      FittingPiecesAllComeOut(cap, pieces[1..], outs[1..]);
    }
  }

  // ------------------------------------------------------------------------
  // End to end
  // ------------------------------------------------------------------------

  /** What the sink puts on the wire for a list of frames. */
  function Wire(frames: seq<seq<byte>>): seq<byte> {
    if frames == [] then [] else Encode(frames[0]) + [0] + Wire(frames[1..])
  }

  function Encodings(frames: seq<seq<byte>>): (r: seq<seq<byte>>)
    ensures |r| == |frames| && forall i :: 0 <= i < |r| ==> r[i] == Encode(frames[i])
  {
    if frames == [] then [] else [Encode(frames[0])] + Encodings(frames[1..])
  }

  lemma {:induction false} PiecesOfWire(frames: seq<seq<byte>>)
    ensures Pieces(Wire(frames)) == Encodings(frames) && Tail(Wire(frames)) == []
  {
    if frames != [] {
      PiecesOfWire(frames[1..]);
      FirstOfWire(Encode(frames[0]), Wire(frames[1..]));
      EncodeHasNoZero(frames[0]);
    }
  }

  lemma {:induction false} FirstOfWire(enc: seq<byte>, rest: seq<byte>)
    ensures 0 !in enc ==> Pieces(enc + [0] + rest) == [enc] + Pieces(rest) && Tail(enc + [0] + rest) == Tail(rest)
  {
    if 0 !in enc {
      SplitAfterCarried(enc, [0] + rest);
      assert enc + [0] + rest == enc + ([0] + rest);
      assert ([0] + rest)[1..] == rest && enc + ([0] + rest)[..0] == enc;
    }
  }

  /** Any frames whose encoding fits the buffer come out of the receive loop
      exactly as they went into the sink, in order, however the stream is cut. */
  lemma {:induction false} FramesSurviveAnyChunking(cap: nat, frames: seq<seq<byte>>, chunks: seq<seq<byte>>)
    requires Concat(chunks) == Wire(frames)
    requires forall f :: f in frames ==> |Encode(f)| + 1 <= cap
    ensures var (end, outs) := DrainAll(cap, Partial([]), chunks);
            && end == Partial([]) && |outs| == |frames|
            && forall i :: 0 <= i < |frames| ==> outs[i] == Got(frames[i])
  {
    AccumulatorRefinesReassembly(cap, [], chunks);
    ReassemblyIsExplained(cap, [], chunks);
    assert [] + Concat(chunks) == Wire(frames);
    PiecesOfWire(frames);
    var outs := DrainAll(cap, Partial([]), chunks).1;
    forall p | p in Pieces(Wire(frames)) ensures |p| + 1 <= cap {
      var i :| 0 <= i < |frames| && Pieces(Wire(frames))[i] == p;
      assert frames[i] in frames;
    }
    FittingPiecesAllComeOut(cap, Pieces(Wire(frames)), outs);
    forall i | 0 <= i < |frames| ensures outs[i] == Got(frames[i]) {
      DecodeEncode(frames[i]);
    }
  }
}
