/** Reassembly of COBS frames from a byte stream that arrives in chunks. */
module CobsAccumulators {
  import opened Wrappers
  import opened Sequences
  import opened Cobs

  // ------------------------------------------------------------------------
  // What feeding means
  // ------------------------------------------------------------------------

  /** The bytes kept of an unfinished piece, or that it has outgrown the buffer. */
  datatype Pending = Partial(bytes: seq<byte>) | Overflow

  /** One call's answer; `rest` is the input it leaves for the next call. */
  datatype Answer =
    | Consumed
    | OverFull(rest: seq<byte>)
    | DecodeError(rest: seq<byte>)
    | Success(frame: seq<byte>, rest: seq<byte>)

  /** Position of the first zero, or the length. */
  function ZeroAt(s: seq<byte>, from: nat := 0): (n: nat)
    requires from <= |s|
    ensures from <= n <= |s|
    ensures forall i :: from <= i < n ==> s[i] != 0
    ensures n < |s| ==> s[n] == 0
    decreases |s| - from
  {
    if from == |s| || s[from] == 0 then from else ZeroAt(s, from + 1)
  }

  function Decoded(piece: seq<byte>, rest: seq<byte>): Answer {
    match Decode(piece)
    case None => DecodeError(rest)
    case Some(frame) => Success(frame, rest)
  }

  function Feed(cap: nat, st: Pending, input: seq<byte>): (r: (Pending, Answer))
    ensures r.1.Consumed? || |r.1.rest| < |input|
  {
    var n := ZeroAt(input);
    if input == [] then (st, Consumed)
    else if n == |input| then
      if st.Overflow? then (Overflow, OverFull([]))
      else if |st.bytes| + |input| <= cap then (Partial(st.bytes + input), Consumed)
      else (Overflow, OverFull([]))
    else
      var rest := input[n + 1..];
      if st.Overflow? then (Partial([]), OverFull(rest))
      else if st.bytes == [] then (Partial([]), Decoded(input[..n], rest))
      else if |st.bytes| + n + 1 <= cap then (Partial([]), Decoded(st.bytes + input[..n], rest))
      else (Partial([]), OverFull(rest))
  }

  /** The bytes in front of the first zero, with those kept from before. */
  function Joined(st: Pending, input: seq<byte>, n: nat): seq<byte>
    requires n <= |input|
  {
    if st.Overflow? then [] else st.bytes + input[..n]
  }

  /** Bytes that do not fit behind those kept. A zero counts, unless nothing was kept. */
  predicate Outgrown(cap: nat, st: Pending, input: seq<byte>, n: nat) {
    if st.Overflow? then input != []
    else if n < |input| then |st.bytes| > 0 && |st.bytes| + n + 1 > cap
    else |st.bytes| + |input| > cap
  }

  predicate FirstZero(input: seq<byte>, n: nat) {
    && n <= |input| && (n < |input| ==> input[n] == 0)
    && forall i :: 0 <= i < n ==> input[i] != 0
  }

  /** Outgrown bytes are reported at once, whether or not a zero ends them; a
      zero starts afresh; without either the input is kept and nothing is said. */
  lemma {:induction false} FeedAnswers(cap: nat, st: Pending, input: seq<byte>, n: nat)
    requires FirstZero(input, n) && (st.Partial? ==> |st.bytes| <= cap)
    ensures var (st', a) := Feed(cap, st, input);
            var rest := if n < |input| then input[n + 1..] else [];
            && (a.Consumed? <==> n == |input| && !Outgrown(cap, st, input, n))
            && (a.OverFull? <==> Outgrown(cap, st, input, n))
            && (a.OverFull? || a.DecodeError? || a.Success? ==> a.rest == rest)
            && (a.DecodeError? ==> Decode(Joined(st, input, n)) == None)
            && (a.Success? ==> Decode(Joined(st, input, n)) == Some(a.frame))
            && (n < |input| ==> st' == Partial([]))
            && (n == |input| && Outgrown(cap, st, input, n) ==> st' == Overflow)
            && (n == |input| && !Outgrown(cap, st, input, n) ==>
                  if st.Overflow? then st' == Overflow else st' == Partial(st.bytes + input))
  {
    assert ZeroAt(input) == n;
    assert st.Partial? && st.bytes == [] ==> Joined(st, input, n) == input[..n];
    assert st.Partial? && input == [] ==> st.bytes + input == st.bytes;
  }

  /** Chunks without a zero, fed one after the other. */
  function FeedAll(cap: nat, st: Pending, chunks: seq<seq<byte>>): (Pending, seq<Answer>) {
    if chunks == [] then (st, [])
    else
      var (st', answers) := FeedAll(cap, st, chunks[..|chunks| - 1]);
      var (st'', a) := Feed(cap, st', chunks[|chunks| - 1]);
      (st'', answers + [a])
  }

  function Total(chunks: seq<seq<byte>>): nat {
    if chunks == [] then 0 else Total(chunks[..|chunks| - 1]) + |chunks[|chunks| - 1]|
  }

  /** A piece that arrives without its end is told to be too long by the first
      chunk that makes it so and by every chunk from there on, and by none before. */
  lemma {:induction false} OverflowIsReported(cap: nat, chunks: seq<seq<byte>>)
    requires forall i :: 0 <= i < |chunks| ==> chunks[i] != [] && 0 !in chunks[i]
    ensures var (st, answers) := FeedAll(cap, Partial([]), chunks);
            && |answers| == |chunks|
            && (st.Overflow? <==> Total(chunks) > cap)
            && (st.Partial? ==> |st.bytes| == Total(chunks))
            && forall k :: 0 <= k < |chunks| ==>
                 answers[k] == if Total(chunks[..k + 1]) > cap then OverFull([]) else Consumed
    decreases |chunks|
  {
    if chunks != [] {
      var n := |chunks| - 1;
      var before := chunks[..n];
      var answers := FeedAll(cap, Partial([]), chunks).1;
      OverflowIsReported(cap, before);
      assert forall k {:trigger answers[k]} :: 0 <= k < n ==> chunks[..k + 1] == before[..k + 1];
      assert chunks[..n + 1] == chunks;
      FeedAnswers(cap, FeedAll(cap, Partial([]), before).0, chunks[n], |chunks[n]|);
    }
  }

  // ------------------------------------------------------------------------
  // The accumulator
  // ------------------------------------------------------------------------

  /** Where an answer's frame and remaining input are found. */
  datatype FeedResult =
    | FedConsumed
    | FedOverFull(rest: nat)
    | FedDecodeError(rest: nat)
    | FedSuccess(len: nat, rest: nat)        // frame in the accumulator's buffer
    | FedSuccessInput(len: nat, rest: nat)   // frame in the input itself

  /** Decode the bytes a[lo..hi] in place; on success the frame is a[lo..lo + len]. */
  method DecodeInPlace(a: array<byte>, lo: nat, hi: nat) returns (len: Option<nat>)
    requires lo <= hi <= a.Length
    modifies a
    ensures len.Some? ==> lo + len.value <= hi
    ensures Decode(old(a[lo..hi])) == if len.None? then None else Some(a[lo..lo + len.value])
    ensures a[..lo] == old(a[..lo]) && a[hi..] == old(a[hi..])
  {
    var src, dst := lo, lo;
    ghost var target := Decode(a[lo..hi]);
    PrependNothing(target);
    assert a[lo..dst] == [];
    while src < hi
      invariant lo <= dst <= src <= hi
      invariant target == Prepend(a[lo..dst], Decode(a[src..hi]))
      invariant a[..lo] == old(a[..lo]) && a[hi..] == old(a[hi..])
      decreases hi - src
    {
      var code: int := a[src];
      if code == 0 || src + code > hi {
        return None;
      }
      src, dst := DecodeBlockAt(a, lo, hi, src, dst, target);
    }
    assert a[lo..dst] + [] == a[lo..dst];
    return Some(dst - lo);
  }

  /** One block: its bytes join what was decoded, with the zero it stands for. */
  method DecodeBlockAt(a: array<byte>, lo: nat, hi: nat, src: nat, dst: nat, ghost target: Option<seq<byte>>)
    returns (next: nat, end: nat)
    requires lo <= dst <= src < hi <= a.Length && 0 < a[src] <= hi - src
    requires target == Prepend(a[lo..dst], Decode(a[src..hi]))
    modifies a
    ensures lo <= end <= next <= hi && src < next
    ensures target == Prepend(a[lo..end], Decode(a[next..hi]))
    ensures a[..lo] == old(a[..lo]) && a[hi..] == old(a[hi..])
  {
    var code: int := a[src];
    var zero := code != 255 && src + code < hi;
    next := src + code;
    ghost var was := a[..];
    end := MoveBlock(a, lo, hi, src + 1, next, dst, zero);
    assert a[next..hi] == was[next..hi];
    DecodeStep(was, src, hi, was[lo..dst], target);
  }

  /** One block of s[src..hi], after `done` was decoded. */
  lemma {:induction false} DecodeStep(s: seq<byte>, src: nat, hi: nat, done: seq<byte>, target: Option<seq<byte>>)
    requires src < hi <= |s| && 0 < s[src] <= hi - src
    requires target == Prepend(done, Decode(s[src..hi]))
    ensures var code: int := s[src];
            var block := s[src + 1..src + code];
            var out := if code != 255 && src + code < hi then block + [0] else block;
            target == Prepend(done + out, Decode(s[src + code..hi]))
  {
    var code: int := s[src];
    var block := s[src + 1..src + code];
    SliceOfSlice(s, src, hi, 1, code);
    SliceOfSlice(s, src, hi, code, hi - src);
    PrependTwice(done, if code != 255 && src + code < hi then block + [0] else block, Decode(s[src + code..hi]));
  }

  /** Move a[src..next] down to dst, and put a zero behind it if asked. */
  method MoveBlock(a: array<byte>, lo: nat, hi: nat, src: nat, next: nat, dst: nat, zero: bool) returns (end: nat)
    requires lo <= dst < src <= next <= hi <= a.Length
    modifies a
    ensures end == dst + (next - src) + (if zero then 1 else 0)
    ensures a[lo..end] == old(a[lo..dst]) + (if zero then old(a[src..next]) + [0] else old(a[src..next]))
    ensures a[next..hi] == old(a[next..hi])
    ensures a[..lo] == old(a[..lo]) && a[hi..] == old(a[hi..])
  {
    end := MoveDown(a, src, dst, next - src);
    assert a[lo..end] == old(a[lo..dst]) + old(a[src..next]);
    if zero {
      ghost var done := a[lo..end];
      a[end] := 0;
      end := end + 1;
      assert a[lo..end] == done + [0];
    }
  }

  /** Move n bytes down from src to dst, lowest first. */
  method MoveDown(a: array<byte>, src: nat, dst: nat, n: nat) returns (end: nat)
    requires dst < src && src + n <= a.Length
    modifies a
    ensures end == dst + n
    ensures a[dst..end] == old(a[src..src + n])
    ensures forall k :: 0 <= k < dst || end <= k < a.Length ==> a[k] == old(a[k])
  {
    for i := 0 to n
      invariant forall k :: 0 <= k < dst || dst + i <= k < a.Length ==> a[k] == old(a[k])
      invariant a[dst..dst + i] == old(a[src..src + i])
    {
      ghost var moved := a[dst..dst + i];
      a[dst + i] := a[src + i];
      assert a[dst..dst + i + 1] == moved + [old(a[src + i])];
      assert old(a[src..src + i + 1]) == old(a[src..src + i]) + [old(a[src + i])];
    }
    end := dst + n;
  }

  lemma {:induction false} PrependNothing(rest: Option<seq<byte>>)
    ensures Prepend([], rest) == rest
  {
    if rest.Some? { assert [] + rest.value == rest.value; }
  }

  lemma {:induction false} PrependTwice(a: seq<byte>, b: seq<byte>, rest: Option<seq<byte>>)
    ensures Prepend(a, Prepend(b, rest)) == Prepend(a + b, rest)
  {
    if rest.Some? { assert a + (b + rest.value) == (a + b) + rest.value; }
  }

  ghost predicate InRange(r: FeedResult, cap: nat, lo: nat, hi: nat) {
    match r
    case FedConsumed => true
    case FedOverFull(rest) => lo <= rest <= hi
    case FedDecodeError(rest) => lo <= rest <= hi
    case FedSuccess(len, rest) => len <= cap && lo <= rest <= hi
    case FedSuccessInput(len, rest) => lo + len <= hi && lo <= rest <= hi
  }

  /** The answer a result stands for, read off the two buffers. */
  ghost function AnswerOf(r: FeedResult, buf: seq<byte>, input: seq<byte>, lo: nat, hi: nat): Answer
    requires lo <= hi <= |input| && InRange(r, |buf|, lo, hi)
  {
    match r
    case FedConsumed => Consumed
    case FedOverFull(rest) => OverFull(input[rest..hi])
    case FedDecodeError(rest) => DecodeError(input[rest..hi])
    case FedSuccess(len, rest) => Success(buf[..len], input[rest..hi])
    case FedSuccessInput(len, rest) => Success(input[lo..lo + len], input[rest..hi])
  }

  class CobsAccumulator {
    const buf: array<byte>
    var idx: nat
    var inOverflow: bool

    ghost predicate Valid()
      reads this
    {
      idx <= buf.Length && (inOverflow ==> idx == 0)
    }

    ghost function State(): Pending
      requires Valid()
      reads this, buf
    {
      if inOverflow then Overflow else Partial(buf[..idx])
    }

    constructor (buf: array<byte>)
      ensures Valid() && this.buf == buf && State() == Partial([])
    {
      this.buf := buf;
      idx := 0;
      inOverflow := false;
    }

    method Reset()
      requires Valid()
      modifies this
      ensures Valid() && State() == Partial([])
    {
      idx := 0;
      inOverflow := false;
    }

    /** Copy input[lo..hi] behind the kept bytes, if it fits. */
    method CopyIn(input: array<byte>, lo: nat, hi: nat)
      requires Valid() && input != buf && lo <= hi <= input.Length && idx + (hi - lo) <= buf.Length
      modifies buf
      ensures buf[..idx + (hi - lo)] == old(buf[..idx]) + input[lo..hi]
    {
      for i := 0 to hi - lo
        invariant buf[..idx + i] == old(buf[..idx]) + input[lo..lo + i]
      {
        ghost var kept := buf[..idx + i];
        buf[idx + i] := input[lo + i];
        assert buf[..idx + i + 1] == kept + [input[lo + i]];
        assert input[lo..lo + i + 1] == input[lo..lo + i] + [input[lo + i]];
      }
    }

    /** Keep all of input[lo..hi], or drop everything kept so far. */
    method Push(input: array<byte>, lo: nat, hi: nat) returns (fits: bool)
      requires Valid() && !inOverflow && input != buf && lo <= hi <= input.Length
      modifies this`idx, buf
      ensures Valid()
      ensures fits == (old(idx) + (hi - lo) <= buf.Length)
      ensures if fits then buf[..idx] == old(buf[..idx]) + input[lo..hi] else idx == 0
    {
      if idx + (hi - lo) <= buf.Length {
        CopyIn(input, lo, hi);
        idx := idx + (hi - lo);
        return true;
      }
      idx := 0;
      return false;
    }

    /** Append input[lo..hi] if it fits and forget what was kept; `used` bytes are in the buffer. */
    method PushReset(input: array<byte>, lo: nat, hi: nat) returns (used: Option<nat>)
      requires Valid() && !inOverflow && input != buf && lo <= hi <= input.Length
      modifies this`idx, buf
      ensures Valid() && idx == 0
      ensures used.Some? <==> old(idx) + (hi - lo) <= buf.Length
      ensures used.Some? ==>
                used.value == old(idx) + (hi - lo) && buf[..used.value] == old(buf[..idx]) + input[lo..hi]
    {
      used := None;
      if idx + (hi - lo) <= buf.Length {
        CopyIn(input, lo, hi);
        used := Some(idx + (hi - lo));
      }
      idx := 0;
    }

    method FindZero(input: array<byte>, lo: nat, hi: nat) returns (at: nat)
      requires lo <= hi <= input.Length
      ensures at == lo + ZeroAt(input[lo..hi])
    {
      at := lo;
      while at < hi && input[at] != 0
        invariant lo <= at <= hi
        invariant forall k :: 0 <= k < at - lo ==> input[lo..hi][k] != 0
      {
        at := at + 1;
      }
    }

    /** Feed input[lo..hi], up to and including its first zero. */
    method FeedRaw(input: array<byte>, lo: nat, hi: nat) returns (r: FeedResult)
      requires Valid() && input != buf && lo <= hi <= input.Length
      modifies this, buf, input
      ensures Valid() && InRange(r, buf.Length, lo, hi)
      ensures input[..lo] == old(input[..lo]) && input[hi..] == old(input[hi..])
      ensures (State(), AnswerOf(r, buf[..], input[..], lo, hi))
           == Feed(buf.Length, old(State()), old(input[lo..hi]))
    {
      if lo == hi {
        return FedConsumed;
      }
      var n := FindZero(input, lo, hi);
      if n == hi {
        r := FeedUnterminated(input, lo, hi);
      } else {
        r := FeedTerminated(input, lo, n, hi);
      }
    }

    method FeedUnterminated(input: array<byte>, lo: nat, hi: nat) returns (r: FeedResult)
      requires Valid() && input != buf && lo < hi <= input.Length && ZeroAt(input[lo..hi]) == hi - lo
      modifies this, buf
      ensures Valid() && InRange(r, buf.Length, lo, hi)
      ensures (State(), AnswerOf(r, buf[..], input[..], lo, hi))
           == Feed(buf.Length, old(State()), input[lo..hi])
    {
      assert input[..][hi..hi] == [];
      if inOverflow {
        return FedOverFull(hi);
      }
      var fits := Push(input, lo, hi);
      if fits {
        return FedConsumed;
      }
      inOverflow := true;
      return FedOverFull(hi);
    }

    method FeedTerminated(input: array<byte>, lo: nat, n: nat, hi: nat) returns (r: FeedResult)
      requires Valid() && input != buf && lo <= n < hi <= input.Length && n == lo + ZeroAt(input[lo..hi])
      modifies this, buf, input
      ensures Valid() && InRange(r, buf.Length, lo, hi)
      ensures input[..lo] == old(input[..lo]) && input[hi..] == old(input[hi..])
      ensures (State(), AnswerOf(r, buf[..], input[..], lo, hi))
           == Feed(buf.Length, old(State()), old(input[lo..hi]))
    {
      SplitAtZero(input[..], lo, n, hi);
      if inOverflow {
        inOverflow := false;
        r := FedOverFull(n + 1);
      } else if idx == 0 {
        r := DecodeDirect(input, lo, n, hi);
      } else {
        r := DecodeStored(input, lo, n, hi);
      }
    }

    /** A piece that came in whole is decoded where it lies. */
    method DecodeDirect(input: array<byte>, lo: nat, n: nat, hi: nat) returns (r: FeedResult)
      requires lo <= n < hi <= input.Length
      modifies input
      ensures InRange(r, buf.Length, lo, hi)
      ensures input[..lo] == old(input[..lo]) && input[hi..] == old(input[hi..])
      ensures AnswerOf(r, buf[..], input[..], lo, hi) == Decoded(old(input[lo..n]), old(input[n + 1..hi]))
    {
      ghost var after := input[n..];
      assert after[hi - n..] == input[hi..];
      assert after[1..hi - n] == input[n + 1..hi];
      var len := DecodeInPlace(input, lo, n);
      assert input[n..] == after;
      assert input[..][n + 1..hi] == after[1..hi - n];
      assert input[hi..] == after[hi - n..];
      return if len.None? then FedDecodeError(n + 1) else FedSuccessInput(len.value, n + 1);
    }

    /** The end of a piece joins what was kept of it, and the whole is decoded in the buffer. */
    method DecodeStored(input: array<byte>, lo: nat, n: nat, hi: nat) returns (r: FeedResult)
      requires Valid() && !inOverflow && input != buf && lo <= n < hi <= input.Length
      modifies this`idx, buf
      ensures Valid() && idx == 0 && InRange(r, buf.Length, lo, hi)
      ensures AnswerOf(r, buf[..], input[..], lo, hi)
           == if old(idx) + (n - lo) + 1 <= buf.Length
              then Decoded(old(buf[..idx]) + input[lo..n], input[n + 1..hi])
              else OverFull(input[n + 1..hi])
    {
      ghost var kept := buf[..idx];
      var used := PushReset(input, lo, n + 1);
      if used.None? {
        return FedOverFull(n + 1);
      }
      assert buf[0..used.value - 1] == (kept + input[lo..n + 1])[..used.value - 1] == kept + input[lo..n];
      var len := DecodeInPlace(buf, 0, used.value - 1);
      return if len.None? then FedDecodeError(n + 1) else FedSuccess(len.value, n + 1);
    }
  }

  lemma {:induction false} SplitAtZero(s: seq<byte>, lo: nat, n: nat, hi: nat)
    requires lo <= n < hi <= |s|
    ensures s[lo..hi][..n - lo] == s[lo..n] && s[lo..hi][n - lo + 1..] == s[n + 1..hi]
  {
    SliceOfSlice(s, lo, hi, 0, n - lo);
    SliceOfSlice(s, lo, hi, n - lo + 1, hi - lo);
    assert s[lo..hi][..n - lo] == s[lo..hi][0..n - lo];
  }
}
