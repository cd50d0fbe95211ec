/**
 Consistent Overhead Byte Stuffing, as defined in section 3 of Cheshire and
 Baker: a logical zero is appended to the packet, which is then cut after each
 zero, or after 254 bytes without one, and every block is led by its length.
 */
module Cobs {
  import opened Wrappers

  type byte = x: int | 0 <= x < 256

  const FULL_RUN: nat := 254

  /** Length of the leading run without a zero, at most 254. */
  function Run(data: seq<byte>, from: nat := 0): (n: nat)
    requires from <= |data| && from <= FULL_RUN
    ensures from <= n <= |data| && n <= FULL_RUN
    ensures forall i :: from <= i < n ==> data[i] != 0
    ensures n < |data| && n < FULL_RUN ==> data[n] == 0
    decreases |data| - from
  {
    if from == |data| || from == FULL_RUN || data[from] == 0 then from else Run(data, from + 1)
  }

  function Encode(data: seq<byte>): (enc: seq<byte>)
    ensures |enc| > 0
    decreases |data|
  {
    var n := Run(data);
    if n == FULL_RUN then [255] + data[..n] + Encode(data[n..])
    else if n == |data| then [n + 1] + data
    else [n + 1] + data[..n] + Encode(data[n + 1..])
  }

  function Prepend(front: seq<byte>, rest: Option<seq<byte>>): Option<seq<byte>> {
    if rest.None? then None else Some(front + rest.value)
  }

  /** Decoding of the bytes before a frame delimiter; `None` when a block runs
      past the end. Nothing before the delimiter decodes to the empty frame. */
  function Decode(enc: seq<byte>): Option<seq<byte>>
    decreases |enc|
  {
    if enc == [] then Some([])
    else
      var code: int := enc[0];
      if code > |enc| || code == 0 then None
      else
        var block, rest := enc[1..code], enc[code..];
        Prepend(if code == 255 || rest == [] then block else block + [0], Decode(rest))
  }

  lemma {:induction false} DecodeBlock(code: byte, block: seq<byte>, rest: seq<byte>)
    requires code == |block| + 1
    ensures Decode([code] + block + rest)
         == Prepend(if code == 255 || rest == [] then block else block + [0], Decode(rest))
  {
    var enc := [code] + block + rest;
    assert enc[1..code] == block && enc[code..] == rest;
  }

  /** A block in front of something that decodes. */
  lemma {:induction false} DecodeFront(block: seq<byte>, rest: seq<byte>, data: seq<byte>)
    requires |block| <= FULL_RUN && rest != [] && Decode(rest) == Some(data)
    ensures var code: byte := |block| + 1;
            Decode([code] + block + rest) == Some(block + (if |block| == FULL_RUN then [] else [0]) + data)
  {
    DecodeBlock(|block| + 1, block, rest);
    assert block + [] == block;
  }

  lemma {:induction false} DecodeLast(block: seq<byte>)
    requires |block| < FULL_RUN
    ensures var code: byte := |block| + 1; Decode([code] + block) == Some(block)
  {
    var code: byte := |block| + 1;
    DecodeBlock(code, block, []);
    assert [code] + block + [] == [code] + block;
    assert block + [] == block;
  }

  lemma {:induction false} Rejoin(data: seq<byte>, n: nat)
    requires n <= |data|
    ensures data[..n] + [] + data[n..] == data
    ensures n < |data| && data[n] == 0 ==> data[..n] + [0] + data[n + 1..] == data
  {}

  /** Decoding inverts encoding. */
  lemma {:induction false} DecodeEncode(data: seq<byte>)
    ensures Decode(Encode(data)) == Some(data)
    decreases |data|
  {
    var n := Run(data);
    if n == |data| < FULL_RUN {
      DecodeLast(data);
    } else {
      var back := if n == FULL_RUN then data[n..] else data[n + 1..];
      var enc := Encode(back);
      DecodeEncode(back);
      DecodeFront(data[..n], enc, back);
      Rejoin(data, n);
    }
  }

  /** A zero, or the end, makes a block of what is in front of it, led by the
      length the zero counts in. */
  lemma {:induction false} ClosesBlock(block: seq<byte>, rest: seq<byte>)
    requires |block| < FULL_RUN && 0 !in block
    ensures var code: byte := |block| + 1; Encode(block + [0] + rest) == [code] + block + Encode(rest)
    ensures var code: byte := |block| + 1; Encode(block) == [code] + block
  {
    var data := block + [0] + rest;
    assert forall i :: 0 <= i < |block| ==> data[i] == block[i] && data[i] in block;
    assert data[|block|] == 0;
    assert Run(data) == |block| && data[..|block|] == block && data[|block| + 1..] == rest;
    assert Run(block) == |block|;
  }

  /** A run of 254 bytes is a block of its own, and stands for no zero. */
  lemma {:induction false} FullBlock(block: seq<byte>, rest: seq<byte>)
    requires |block| == FULL_RUN && 0 !in block
    ensures Encode(block + rest) == [255] + block + Encode(rest)
  {
    var data := block + rest;
    assert forall i :: 0 <= i < |block| ==> data[i] == block[i] && data[i] in block;
    assert Run(data) == FULL_RUN && data[..FULL_RUN] == block && data[FULL_RUN..] == rest;
  }

  /** An encoded frame holds no zero, so the delimiter is unambiguous. */
  lemma {:induction false} EncodeHasNoZero(data: seq<byte>)
    ensures 0 !in Encode(data)
    decreases |data|
  {
    var n := Run(data);
    if n == FULL_RUN {
      EncodeHasNoZero(data[n..]);
    } else if n < |data| {
      EncodeHasNoZero(data[n + 1..]);
    }
  }

  /** At most one byte of overhead, plus one for each whole 254 bytes before
      the last zero; all of them are spent when the data hold no zero. */
  lemma {:induction false} EncodedLength(data: seq<byte>)
    ensures |data| + 1 <= |Encode(data)|
    ensures 0 !in data ==> |Encode(data)| == |data| + 1 + |data| / FULL_RUN
    ensures 0 in data ==> |Encode(data)| <= |data| + 1 + (|data| - 1) / FULL_RUN
    decreases |data|
  {
    var n := Run(data);
    if n == FULL_RUN {
      EncodedLength(data[n..]);
    } else if n < |data| {
      EncodedLength(data[n + 1..]);
    }
  }

  /** The overhead a writer plans for: one byte for every 254 begun. */
  function MaxEncodingLength(n: nat): nat {
    n + (n + FULL_RUN - 1) / FULL_RUN
  }

  /** The plan holds every encoding but those of zero-free data whose length is a
      multiple of 254, which open one more block after the data end. */
  lemma {:induction false} EncodingFitsPlanIff(data: seq<byte>)
    ensures |Encode(data)| <= MaxEncodingLength(|data|) <==> !(|data| % FULL_RUN == 0 && 0 !in data)
    ensures |Encode(data)| <= MaxEncodingLength(|data|) + 1
  {
    EncodedLength(data);
  }
}
