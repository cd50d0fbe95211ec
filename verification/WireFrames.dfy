/**
 The frame header on the wire. Integers wider than a byte are varints as the
 Postcard wire format has them: seven bits a byte, least significant first.
 */
module WireFrames {
  import opened Wrappers
  import opened Sequences
  import opened Cobs
  import opened Headers

  /** Errors without a payload by number, and the one that carries an MTU. */
  datatype ProtocolError = Plain(code: u8) | PacketTooBig(mtu: u16)

  const ERROR_CODES: nat := 19
  const TOO_BIG_CODE: u8 := 12

  datatype Frame = Message(hdr: Header, body: seq<byte>) | ErrorReport(hdr: Header, error: ProtocolError)

  // ------------------------------------------------------------------------
  // Varints
  // ------------------------------------------------------------------------

  function EncodeVarint(v: nat): (r: seq<byte>)
    ensures |r| > 0
  {
    if v < 128 then [v] else [v % 128 + 128] + EncodeVarint(v / 128)
  }

  /** Read at most `left` bytes, the last of which may be at most `lastMax`. */
  function DecodeVarint(s: seq<byte>, left: nat, lastMax: byte): Option<(nat, seq<byte>)> {
    if left == 0 || s == [] then None
    else if s[0] < 128 then
      if left == 1 && s[0] > lastMax then None else Some((s[0], s[1..]))
    else
      match DecodeVarint(s[1..], left - 1, lastMax)
      case None => None
      case Some((v, rest)) => Some((s[0] - 128 + 128 * v, rest))
  }

  /** The exclusive bound on what `left` bytes can carry. */
  function VarintBound(left: nat, lastMax: byte): nat {
    if left == 0 then 0 else if left == 1 then lastMax + 1 else 128 * VarintBound(left - 1, lastMax)
  }

  lemma {:induction false} VarintRoundTrip(v: nat, left: nat, lastMax: byte, rest: seq<byte>)
    requires lastMax < 128 && v < VarintBound(left, lastMax)
    ensures DecodeVarint(EncodeVarint(v) + rest, left, lastMax) == Some((v, rest))
    ensures |EncodeVarint(v)| <= left
    decreases v
  {
    var enc := EncodeVarint(v);
    if v < 128 {
      assert (enc + rest)[1..] == rest;
    } else {
      var tail := EncodeVarint(v / 128);
      VarintRoundTrip(v / 128, left - 1, lastMax, rest);
      assert (enc + rest)[1..] == tail + rest;
    }
  }

  /** Seven bits a byte, the lowest first. */
  function Sevens(s: seq<byte>): nat {
    if s == [] then 0 else s[0] % 128 + 128 * Sevens(s[1..])
  }

  /** A number is written in groups of seven bits, each marked as followed by
      another except the last, which is not a padding zero. */
  lemma {:induction false} VarintLayout(v: nat)
    ensures var s := EncodeVarint(v);
            && Sevens(s) == v
            && (forall i :: 0 <= i < |s| ==> (s[i] >= 128 <==> i < |s| - 1))
            && (v > 0 ==> s[|s| - 1] > 0) && (v == 0 ==> s == [0])
    decreases v
  {
    var s := EncodeVarint(v);
    if v < 128 {
      assert Sevens(s[1..]) == 0;
    } else {
      VarintLayout(v / 128);
      var tail := EncodeVarint(v / 128);
      assert s[1..] == tail;
      forall i | 0 <= i < |s| ensures s[i] >= 128 <==> i < |s| - 1 {
        assert i > 0 ==> s[i] == tail[i - 1];
      }
    }
  }

  function EncodeU32(v: u32): seq<byte> { EncodeVarint(v) }

  function DecodeU32(s: seq<byte>): (r: Option<(u32, seq<byte>)>) {
    U32Bound();
    DecodedFits(s, 5, 0x0F);
    DecodeVarint(s, 5, 0x0F)
  }

  function DecodeU16(s: seq<byte>): (r: Option<(u16, seq<byte>)>) {
    U16Bound();
    DecodedFits(s, 3, 0x03);
    DecodeVarint(s, 3, 0x03)
  }

  lemma {:induction false} U32Bound()
    ensures VarintBound(5, 0x0F) == 0x1_0000_0000
  {
    assert VarintBound(2, 0x0F) == 128 * VarintBound(1, 0x0F);
    assert VarintBound(3, 0x0F) == 128 * VarintBound(2, 0x0F);
    assert VarintBound(4, 0x0F) == 128 * VarintBound(3, 0x0F);
  }

  lemma {:induction false} U16Bound()
    ensures VarintBound(3, 0x03) == 0x1_0000
  {
    assert VarintBound(2, 0x03) == 128 * VarintBound(1, 0x03);
  }

  lemma {:induction false} U32RoundTrip(v: u32, rest: seq<byte>)
    ensures DecodeU32(EncodeU32(v) + rest) == Some((v, rest))
    ensures |EncodeU32(v)| <= 5
  {
    U32Bound();
    VarintRoundTrip(v, 5, 0x0F, rest);
  }

  lemma {:induction false} U16RoundTrip(v: u16, rest: seq<byte>)
    ensures DecodeU16(EncodeVarint(v) + rest) == Some((v, rest))
  {
    U16Bound();
    VarintRoundTrip(v, 3, 0x03, rest);
  }

  /** No reader gets more out of its bytes than the width it reads. */
  lemma {:induction false} DecodedFits(s: seq<byte>, left: nat, lastMax: byte)
    requires lastMax < 128
    ensures DecodeVarint(s, left, lastMax).Some? ==>
              DecodeVarint(s, left, lastMax).value.0 < VarintBound(left, lastMax)
  {
    if left > 0 && s != [] && s[0] >= 128 {
      DecodedFits(s[1..], left - 1, lastMax);
    } else if left > 1 {
      BoundGrows(left, lastMax);
    }
  }

  lemma {:induction false} BoundGrows(left: nat, lastMax: byte)
    requires left > 1
    ensures VarintBound(left, lastMax) >= 128
  {
    if left > 2 { BoundGrows(left - 1, lastMax); }
  }

  // ------------------------------------------------------------------------
  // Addresses and the meta byte
  // ------------------------------------------------------------------------

  function AsU32(a: Address): u32 {
    a.net * 0x1_0000 + a.node * 0x100 + a.port
  }

  function FromWord(w: u32): Address {
    Address(w / 0x1_0000, w / 0x100 % 0x100, w % 0x100)
  }

  lemma {:induction false} AddressRoundTrip(a: Address)
    ensures FromWord(AsU32(a)) == a
  {
    assert AsU32(a) / 0x100 == a.net * 0x100 + a.node;
  }

  /** net_id above node id above port. */
  lemma {:induction false} AddressLayout(a: Address)
    ensures AsU32(a) / 65536 == a.net && AsU32(a) / 256 % 256 == a.node && AsU32(a) % 256 == a.port
  {
    AddressRoundTrip(a);
  }

  function ClassBits(c: TrafficClass): u8 {
    match c case Control => 0 case Normal => 1 case Bulk => 2 case Background => 3
  }

  function ClassFromBits(b: u8): TrafficClass {
    var low := b % 4;
    if low == 0 then Control else if low == 1 then Normal else if low == 2 then Bulk else Background
  }

  function Clamp(ttl: u8): u8 {
    if ttl > MAX_TTL then MAX_TTL else ttl
  }

  /** kind in bits 7-6, class in bits 5-4, TTL in bits 3-0. */
  function PackMeta(kind: FrameKind, class_: TrafficClass, ttl: u8): u8 {
    kind * 64 + ClassBits(class_) * 16 + Clamp(ttl)
  }

  function UnpackMeta(meta: u8): (FrameKind, TrafficClass, u8) {
    (meta / 64 % 4, ClassFromBits(meta / 16), meta % 16)
  }

  /** Every header packs and unpacks to itself with its TTL clamped. */
  lemma {:induction false} MetaRoundTrip(kind: FrameKind, class_: TrafficClass, ttl: u8)
    ensures UnpackMeta(PackMeta(kind, class_, ttl)) == (kind, class_, Clamp(ttl))
  {
    var packed := PackMeta(kind, class_, ttl);
    assert packed / 16 == kind * 4 + ClassBits(class_);
  }

  /** The kind in the two highest bits, the class in the next two, the TTL in the rest. */
  lemma {:induction false} MetaLayout(kind: FrameKind, class_: TrafficClass, ttl: u8)
    ensures var meta := PackMeta(kind, class_, ttl);
            && meta / 64 == kind && meta % 16 == (if ttl > 15 then 15 else ttl)
            && (meta / 16 % 4 == 0 <==> class_.Control?) && (meta / 16 % 4 == 1 <==> class_.Normal?)
            && (meta / 16 % 4 == 2 <==> class_.Bulk?) && (meta / 16 % 4 == 3 <==> class_.Background?)
  {
    MetaRoundTrip(kind, class_, ttl);
    var meta := PackMeta(kind, class_, ttl);
    assert meta / 16 == kind * 4 + ClassBits(class_);
  }

  /** Every byte is the packing of exactly what it unpacks to. */
  lemma {:induction false} EveryMetaByteDecodes(meta: u8)
    ensures var (kind, class_, ttl) := UnpackMeta(meta); PackMeta(kind, class_, ttl) == meta
  {
    assert meta / 16 == meta / 64 * 4 + meta / 16 % 4;
  }

  // ------------------------------------------------------------------------
  // Frames
  // ------------------------------------------------------------------------

  predicate AnyOrAll(port: u8) {
    port == 0 || port == 255
  }

  function NashWord(nash: Option<NameHash>): u32 {
    if nash.None? then 0 else nash.value
  }

  function NashFromWord(w: u32): Option<NameHash> {
    if w == 0 then None else Some(w)
  }

  function EncodeCommon(h: Header): seq<byte> {
    EncodeU32(AsU32(h.src)) + (EncodeU32(AsU32(h.dst)) + [PackMeta(h.kind, h.class_, h.ttl)])
  }

  function EncodeAppendix(a: Option<AnyAll>): seq<byte> {
    match a
    case None => []
    case Some(app) => app.key + EncodeU32(NashWord(app.nash))
  }

  function EncodeHeader(h: Header): seq<byte> {
    EncodeCommon(h) + EncodeAppendix(h.anyAll)
  }

  /** The error path writes no appendix. */
  function EncodeError(e: ProtocolError): seq<byte> {
    match e
    case Plain(code) => EncodeU32(code)
    case PacketTooBig(mtu) => EncodeU32(TOO_BIG_CODE) + EncodeVarint(mtu)
  }

  function EncodeFrame(f: Frame): seq<byte> {
    match f
    case Message(h, body) => EncodeHeader(h) + body
    case ErrorReport(h, e) => EncodeCommon(h) + EncodeError(e)
  }

  /** Source, destination and meta byte, and what follows them. */
  function DecodeCommon(s: seq<byte>): Option<(Header, seq<byte>)> {
    match DecodeU32(s)
    case None => None
    case Some((src, s1)) =>
      match DecodeU32(s1)
      case None => None
      case Some((dst, s2)) =>
        if s2 == [] then None
        else
          var (kind, class_, ttl) := UnpackMeta(s2[0]);
          Some((Header(FromWord(src), FromWord(dst), None, kind, class_, ttl), s2[1..]))
  }

  function DecodeError(s: seq<byte>): Option<ProtocolError> {
    match DecodeU32(s)
    case None => None
    case Some((code, rest)) =>
      if code >= ERROR_CODES then None
      else if code == TOO_BIG_CODE then
        match DecodeU16(rest)
        case None => None
        case Some((mtu, rest')) => if rest' != [] then None else Some(PacketTooBig(mtu))
      else if rest != [] then None
      else Some(Plain(code))
  }

  function DecodeAppendix(s: seq<byte>): Option<(AnyAll, seq<byte>)> {
    if |s| < KEY_LEN then None
    else
      match DecodeU32(s[KEY_LEN..])
      case None => None
      case Some((nash, body)) =>
        Some((AnyAll(s[..KEY_LEN], NashFromWord(nash)), body))
  }

  function DeFrame(s: seq<byte>): Option<Frame> {
    match DecodeCommon(s)
    case None => None
    case Some((h, rest)) =>
      if h.kind == PROTOCOL_ERROR then
        if AnyOrAll(h.dst.port) then None
        else
          match DecodeError(rest)
          case None => None
          case Some(e) => Some(ErrorReport(h, e))
      else if AnyOrAll(h.dst.port) then
        match DecodeAppendix(rest)
        case None => None
        case Some((app, body)) => Some(Message(h.(anyAll := Some(app)), body))
      else Some(Message(h, rest))
  }

  lemma {:induction false} CommonRoundTrip(h: Header, rest: seq<byte>)
    ensures DecodeCommon(EncodeCommon(h) + rest) == Some((h.(ttl := Clamp(h.ttl), anyAll := None), rest))
    ensures |EncodeCommon(h)| <= 11
  {
    var meta := [PackMeta(h.kind, h.class_, h.ttl)];
    var src, dst := EncodeU32(AsU32(h.src)), EncodeU32(AsU32(h.dst));
    U32RoundTrip(AsU32(h.src), dst + (meta + rest));
    U32RoundTrip(AsU32(h.dst), meta + rest);
    Regroup(src, dst + meta, rest);
    Regroup(dst, meta, rest);
    AddressRoundTrip(h.src);
    AddressRoundTrip(h.dst);
    MetaRoundTrip(h.kind, h.class_, h.ttl);
    assert (meta + rest)[0] == PackMeta(h.kind, h.class_, h.ttl) && (meta + rest)[1..] == rest;
  }

  lemma {:induction false} AppendixRoundTrip(app: AnyAll, body: seq<byte>)
    ensures DecodeAppendix(EncodeAppendix(Some(app)) + body) == Some((app, body))
    ensures |EncodeAppendix(Some(app))| <= KEY_LEN + 5
  {
    var nash := EncodeU32(NashWord(app.nash));
    var s := EncodeAppendix(Some(app)) + body;
    U32RoundTrip(NashWord(app.nash), body);
    assert s[KEY_LEN..] == nash + body && s[..KEY_LEN] == app.key;
  }

  /** Clamping the TTL to four bits is the only thing encoding may change. */
  function OnWire(h: Header): Header { h.(ttl := Clamp(h.ttl)) }

  /** A message frame comes back as itself exactly when it carries an appendix
      for a wildcard or broadcast port and none for any other. */
  lemma {:induction false} MessageRoundTripIff(h: Header, body: seq<byte>)
    requires h.kind != PROTOCOL_ERROR
    ensures DeFrame(EncodeFrame(Message(h, body))) == Some(Message(OnWire(h), body))
            <==> (h.anyAll.Some? <==> AnyOrAll(h.dst.port))
  {
    CommonRoundTrip(h, EncodeAppendix(h.anyAll) + body);
    BodyAfterHeader(h, body);
    if h.anyAll.Some? { AppendixRoundTrip(h.anyAll.value, body); }
  }

  lemma {:induction false} BodyAfterHeader(h: Header, body: seq<byte>)
    ensures EncodeFrame(Message(h, body)) == EncodeCommon(h) + (EncodeAppendix(h.anyAll) + body)
    ensures h.anyAll.None? ==> EncodeAppendix(h.anyAll) + body == body
  {}

  /** An error report to a proper port comes back as itself, with nothing left over. */
  lemma {:induction false} ErrorRoundTrip(h: Header, e: ProtocolError)
    requires h.kind == PROTOCOL_ERROR && !AnyOrAll(h.dst.port) && h.anyAll.None?
    requires e.Plain? ==> e.code < ERROR_CODES && e.code != TOO_BIG_CODE
    ensures DeFrame(EncodeFrame(ErrorReport(h, e))) == Some(ErrorReport(OnWire(h), e))
  {
    CommonRoundTrip(h, EncodeError(e));
    match e {
      case Plain(code) =>
        U32RoundTrip(code, []);
        assert EncodeU32(code) + [] == EncodeU32(code);
      case PacketTooBig(mtu) =>
        U32RoundTrip(TOO_BIG_CODE, EncodeVarint(mtu));
        U16RoundTrip(mtu, []);
        assert EncodeVarint(mtu) + [] == EncodeVarint(mtu);
    }
  }

  /** Where everything is: two varints, the meta byte, then the key and a third
      varint for a port that may be anyone's. */
  lemma {:induction false} HeaderLayout(h: Header)
    ensures exists src: seq<byte>, dst: seq<byte>, nash: seq<byte> ::
              && EncodeHeader(h) == src + (dst + [PackMeta(h.kind, h.class_, h.ttl)])
                                    + (if h.anyAll.None? then [] else h.anyAll.value.key + nash)
              && Sevens(src) == h.src.net * 65536 + h.src.node * 256 + h.src.port
              && Sevens(dst) == h.dst.net * 65536 + h.dst.node * 256 + h.dst.port
              && (h.anyAll.Some? ==> Sevens(nash) == NashWord(h.anyAll.value.nash))
  {
    VarintLayout(AsU32(h.src));
    VarintLayout(AsU32(h.dst));
    var nash := if h.anyAll.None? then [] else EncodeU32(NashWord(h.anyAll.value.nash));
    if h.anyAll.Some? {
      VarintLayout(NashWord(h.anyAll.value.nash));
    }
    assert EncodeHeader(h) == EncodeU32(AsU32(h.src)) + (EncodeU32(AsU32(h.dst))
                                + [PackMeta(h.kind, h.class_, h.ttl)])
                              + (if h.anyAll.None? then [] else h.anyAll.value.key + nash);
  }

  /** No header needs more than 24 bytes, whatever it says. */
  lemma {:induction false} HeaderFits(h: Header)
    ensures |EncodeHeader(h)| <= MAX_HDR_ENCODED_SIZE
  {
    CommonRoundTrip(h, []);
    if h.anyAll.Some? { AppendixRoundTrip(h.anyAll.value, []); }
  }
}
