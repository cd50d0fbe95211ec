/** The sink of a COBS stream interface, and the whole way from header to header. */
module CobsSinks {
  import opened Wrappers
  import opened Cobs
  import opened Headers
  import opened Ports
  import opened WireFrames
  import opened CobsAccumulators
  import opened CobsStream

  /** Space a forwarded frame asks of the queue: the planned encoding and the delimiter. */
  function RawGrant(bodyLen: nat): nat {
    MaxEncodingLength(MAX_HDR_ENCODED_SIZE + bodyLen) + 1
  }

  function Framed(f: Frame): seq<byte> {
    Encode(EncodeFrame(f)) + [0]
  }

  /** The one family of frames a grant of that size cannot hold. */
  predicate OverrunsGrant(h: Header, body: seq<byte>) {
    && |EncodeHeader(h)| == MAX_HDR_ENCODED_SIZE
    && (MAX_HDR_ENCODED_SIZE + |body|) % FULL_RUN == 0
    && 0 !in EncodeHeader(h) && 0 !in body
  }

  /** Data of exactly the planned size, all of it whole runs without a zero. */
  predicate OverrunsPlan(data: seq<byte>, planned: nat) {
    |data| == planned && planned % FULL_RUN == 0 && 0 !in data
  }

  lemma {:induction false} PlanFitsIff(data: seq<byte>, planned: nat)
    requires |data| <= planned
    ensures |Encode(data)| <= MaxEncodingLength(planned) <==> !OverrunsPlan(data, planned)
  {
    EncodingFitsPlanIff(data);
    if |data| < planned {
      assert MaxEncodingLength(|data|) + 1 <= MaxEncodingLength(planned);
    }
  }

  /** A forwarded frame fits its grant exactly when it is not of that family. */
  lemma {:induction false} RawFrameFitsGrantIff(h: Header, body: seq<byte>)
    ensures |Framed(Message(h, body))| <= RawGrant(|body|) <==> !OverrunsGrant(h, body)
  {
    HeaderFits(h);
    var data := EncodeHeader(h) + body;
    PlanFitsIff(data, MAX_HDR_ENCODED_SIZE + |body|);
    assert 0 in data <==> 0 in EncodeHeader(h) || 0 in body;
  }

  /** A broadcast from a node of net 0x1000 to its neighbour, as a port sends it. */
  function WideHeader(key: Key, nash: NameHash, port: u8): Header {
    Header(Address(0x1000, CENTRAL_NODE_ID, port), Address(0x1000, EDGE_NODE_ID, BROADCAST_PORT),
           Some(AnyAll(key, Some(nash))), 3, Background, 15)
  }

  /** Numbers from 2^28 on take five bytes, none of them zero. */
  lemma {:induction false} WideVarint(v: u32)
    requires v >= 0x1000_0000
    ensures |EncodeU32(v)| == 5 && 0 !in EncodeU32(v)
  {
    VarintTail(v, 5);
  }

  lemma {:induction false} VarintTail(v: nat, len: nat)
    requires 1 <= len <= 5
    requires var least := [1, 0x80, 0x4000, 0x20_0000, 0x1000_0000]; least[len - 1] <= v < least[len - 1] * 128
    ensures |EncodeVarint(v)| == len && 0 !in EncodeVarint(v)
  {
    if len > 1 { VarintTail(v / 128, len - 1); }
  }

  /** Such a header is 24 bytes without a zero, and a port numbered 0x1000 that
      checks the frame against its MTU passes it to its sink as it is. */
  lemma {:induction false} WideHeaderIsSent(key: Key, nash: NameHash, port: u8, bodyLen: nat, mtu: nat)
    requires 0 !in key && nash >= 0x1000_0000 && MAX_HDR_ENCODED_SIZE + bodyLen <= mtu
    ensures var h := WideHeader(key, nash, port);
            && |EncodeHeader(h)| == MAX_HDR_ENCODED_SIZE && 0 !in EncodeHeader(h)
            && NewController(Online(0x1000, CENTRAL_NODE_ID), mtu).SendRaw(h, bodyLen, true) == Ok(h)
  {
    var h := WideHeader(key, nash, port);
    WideVarint(AsU32(h.src));
    WideVarint(AsU32(h.dst));
    WideVarint(nash);
    assert PackMeta(3, Background, 15) == 255;
  }

  /** So the promise that a frame within the MTU fits fails for frames that ports
      do send: any such header with a body of 230 bytes that holds no zero. */
  lemma {:induction false} SentFrameOverrunsItsGrant(key: Key, nash: NameHash, port: u8, body: seq<byte>, mtu: nat)
    requires 0 !in key && nash >= 0x1000_0000 && 0 !in body && |body| == 230 && mtu >= 254
    ensures var h := WideHeader(key, nash, port);
            && h.kind != PROTOCOL_ERROR && WellFormed(Message(h, body))
            && NewController(Online(0x1000, CENTRAL_NODE_ID), mtu).SendRaw(h, |body|, true) == Ok(h)
            && |Framed(Message(h, body))| > RawGrant(|body|)
  {
    WideHeaderIsSent(key, nash, port, |body|, mtu);
    RawFrameFitsGrantIff(WideHeader(key, nash, port), body);
  }

  class CobsSink {
    const mtu: nat
    var stream: seq<byte>

    constructor (mtu: nat)
      ensures this.mtu == mtu && stream == []
    {
      this.mtu := mtu;
      stream := [];
    }

    /** Take a grant, encode into it, commit. `space` is what the queue can grant. */
    method Commit(f: Frame, grant: nat, space: nat) returns (ok: bool)
      modifies this
      ensures ok <==> grant <= space && |Framed(f)| <= grant
      ensures stream == if ok then old(stream) + Framed(f) else old(stream)
    {
      if grant > space {
        return false;
      }
      var bytes := Framed(f);
      if |bytes| > grant {
        return false;
      }
      stream := stream + bytes;
      return true;
    }

    method SendRaw(h: Header, body: seq<byte>, space: nat) returns (ok: bool)
      modifies this
      ensures ok <==> h.kind != PROTOCOL_ERROR && RawGrant(|body|) <= space && !OverrunsGrant(h, body)
      ensures stream == if ok then old(stream) + Framed(Message(h, body)) else old(stream)
    {
      if h.kind == PROTOCOL_ERROR {
        return false;
      }
      RawFrameFitsGrantIff(h, body);
      ok := Commit(Message(h, body), RawGrant(|body|), space);
    }

    /** A typed message is planned for the whole MTU; `body` is its serialization. */
    method SendTyped(h: Header, body: seq<byte>, space: nat) returns (ok: bool)
      modifies this
      ensures stream == if ok then old(stream) + Framed(Message(h, body)) else old(stream)
      ensures ok ==> h.kind != PROTOCOL_ERROR && MaxEncodingLength(mtu) + 1 <= space
      ensures h.kind != PROTOCOL_ERROR && MaxEncodingLength(mtu) + 1 <= space
              && |EncodeFrame(Message(h, body))| <= mtu ==>
                (ok <==> !OverrunsPlan(EncodeFrame(Message(h, body)), mtu))
    {
      if h.kind == PROTOCOL_ERROR {
        return false;
      }
      if |EncodeFrame(Message(h, body))| <= mtu {
        PlanFitsIff(EncodeFrame(Message(h, body)), mtu);
      }
      ok := Commit(Message(h, body), MaxEncodingLength(mtu) + 1, space);
    }

    method SendError(h: Header, e: ProtocolError, space: nat) returns (ok: bool)
      modifies this
      ensures stream == if ok then old(stream) + Framed(ErrorReport(h, e)) else old(stream)
      ensures ok ==> h.kind == PROTOCOL_ERROR && MaxEncodingLength(mtu) + 1 <= space
      ensures h.kind == PROTOCOL_ERROR && MaxEncodingLength(mtu) + 1 <= space
              && |EncodeFrame(ErrorReport(h, e))| <= mtu ==>
                (ok <==> !OverrunsPlan(EncodeFrame(ErrorReport(h, e)), mtu))
    {
      if h.kind != PROTOCOL_ERROR {
        return false;
      }
      if |EncodeFrame(ErrorReport(h, e))| <= mtu {
        PlanFitsIff(EncodeFrame(ErrorReport(h, e)), mtu);
      }
      ok := Commit(ErrorReport(h, e), MaxEncodingLength(mtu) + 1, space);
    }
  }

  // ------------------------------------------------------------------------
  // Header to header
  // ------------------------------------------------------------------------

  function Encoded(fs: seq<Frame>): (r: seq<seq<byte>>)
    ensures |r| == |fs| && forall i :: 0 <= i < |r| ==> r[i] == EncodeFrame(fs[i])
  {
    if fs == [] then [] else [EncodeFrame(fs[0])] + Encoded(fs[1..])
  }

  /** What a sink that accepted `fs` has committed. */
  function Committed(fs: seq<Frame>): seq<byte> {
    if fs == [] then [] else Framed(fs[0]) + Committed(fs[1..])
  }

  lemma {:induction false} CommittedIsWire(fs: seq<Frame>)
    ensures Committed(fs) == Wire(Encoded(fs))
  {
    if fs != [] { CommittedIsWire(fs[1..]); }
  }

  predicate WellFormed(f: Frame) {
    match f
    case Message(h, _) => h.kind != PROTOCOL_ERROR && (h.anyAll.Some? <==> AnyOrAll(h.dst.port))
    case ErrorReport(h, e) =>
      h.kind == PROTOCOL_ERROR && !AnyOrAll(h.dst.port) && h.anyAll.None?
      && (e.Plain? ==> e.code < ERROR_CODES && e.code != TOO_BIG_CODE)
  }

  function Received(f: Frame): Frame {
    match f
    case Message(h, body) => Message(OnWire(h), body)
    case ErrorReport(h, e) => ErrorReport(OnWire(h), e)
  }

  /** What one side commits the other side gets: the same headers and bodies, in
      the same order, through COBS framing and any chunking of the stream. */
  lemma {:induction false} HeadersSurviveTheLink(cap: nat, fs: seq<Frame>, chunks: seq<seq<byte>>)
    requires forall f :: f in fs ==> WellFormed(f) && |Framed(f)| <= cap
    requires Concat(chunks) == Committed(fs)
    ensures var (end, outs) := DrainAll(cap, Partial([]), chunks);
            && end == Partial([]) && |outs| == |fs|
            && forall i :: 0 <= i < |fs| ==> outs[i].Got? && DeFrame(outs[i].frame) == Some(Received(fs[i]))
  {
    CommittedIsWire(fs);
    EncodedSizes(cap, fs);
    FramesSurviveAnyChunking(cap, Encoded(fs), chunks);
    ReadBack(fs, DrainAll(cap, Partial([]), chunks).1);
  }

  lemma {:induction false} ReadBack(fs: seq<Frame>, outs: seq<Outcome>)
    requires |outs| == |fs| && forall i :: 0 <= i < |fs| ==> outs[i] == Got(Encoded(fs)[i])
    requires forall f :: f in fs ==> WellFormed(f)
    ensures forall i :: 0 <= i < |fs| ==> outs[i].Got? && DeFrame(outs[i].frame) == Some(Received(fs[i]))
  {
    forall i | 0 <= i < |fs| ensures outs[i].Got? && DeFrame(outs[i].frame) == Some(Received(fs[i])) {
      FrameRoundTrip(fs[i]);
    }
  }

  lemma {:induction false} EncodedSizes(cap: nat, fs: seq<Frame>)
    requires forall f :: f in fs ==> |Framed(f)| <= cap
    ensures forall b :: b in Encoded(fs) ==> |Encode(b)| + 1 <= cap
  {
    forall b | b in Encoded(fs) ensures |Encode(b)| + 1 <= cap {
      var i :| 0 <= i < |fs| && Encoded(fs)[i] == b;
      assert |Framed(fs[i])| <= cap;
    }
  }

  lemma {:induction false} FrameRoundTrip(f: Frame)
    requires WellFormed(f)
    ensures DeFrame(EncodeFrame(f)) == Some(Received(f))
  {
    match f {
      case Message(h, body) => MessageRoundTripIff(h, body);
      case ErrorReport(h, e) => ErrorRoundTrip(h, e);
    }
  }
}
