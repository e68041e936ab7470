/** The in-frame packet parser and the declarative grammar it recognises. */
module Packet {
  import opened Words
  import opened Contract

  const ETH_P_IP := 0x0800
  const ETH_P_8021Q := 0x8100
  const ETH_P_8021AD := 0x88a8

  datatype ParseResult = ParseOk | ParseMalformed | ParseNonIpv4

  /** struct packet_meta. Addresses hold the bytes as they lie in the frame. */
  datatype Meta = Meta(
    src: u32, dst: u32, srcPort: u16, dstPort: u16, proto: u8, tcpFlags: u8, length: u16,
    serviceId: u32, ruleId: u32, isFragment: bool, isMalformed: bool, action: u8, reason: u8)

  const EMPTY_META := Meta(0, 0, 0, 0, 0, 0, 0, 0, 0, false, false, 0, 0)

  function FrameLength(n: nat): (r: u16) {
    if n > 0xffff then 0xffff else n
  }

  predicate IsVlan(etherType: u16) {
    etherType == ETH_P_8021Q || etherType == ETH_P_8021AD
  }

  function Word(high: u8, low: u8): (r: u16) {
    (high as int) * 0x100 + low
  }

  /** A 16-bit field in network order. */
  function Be16(b: seq<u8>, i: nat): (r: u16)
    requires i + 2 <= |b|
  {
    Word(b[i], b[i + 1])
  }

  /** Four bytes loaded into a register of the little-endian host. */
  function Load32(b: seq<u8>, i: nat): (r: u32)
    requires i + 4 <= |b|
  {
    (b[i] as int) + 0x100 * (b[i + 1] as int) + 0x1_0000 * (b[i + 2] as int) + 0x100_0000 * (b[i + 3] as int)
  }

  function L4Proto(ipProtocol: u8): (r: u8) {
    if ipProtocol == 6 then L4_TCP
    else if ipProtocol == 17 then L4_UDP
    else if ipProtocol == 1 then L4_ICMP
    else L4_UNKNOWN
  }

  // ---------- the parser ----------

  function ParseL4(b: seq<u8>, l4: nat, payload: nat, meta: Meta): (r: (ParseResult, Meta)) {
    if meta.proto == L4_TCP then
      if payload < 20 || l4 + 20 > |b| then (ParseMalformed, meta)
      else
        var headerLen := b[l4 + 12] / 16 * 4;
        if headerLen < 20 || headerLen > payload then (ParseMalformed, meta)
        else (ParseOk, meta.(srcPort := Be16(b, l4), dstPort := Be16(b, l4 + 2), tcpFlags := b[l4 + 13]))
    else if meta.proto == L4_UDP then
      if payload < 8 || l4 + 8 > |b| then (ParseMalformed, meta)
      else
        var udpLen := Be16(b, l4 + 4);
        if udpLen < 8 || udpLen > payload then (ParseMalformed, meta)
        else (ParseOk, meta.(srcPort := Be16(b, l4), dstPort := Be16(b, l4 + 2)))
    else if meta.proto == L4_ICMP then
      if payload < 8 || l4 + 8 > |b| then (ParseMalformed, meta) else (ParseOk, meta)
    else (ParseOk, meta)
  }

  function ParseIp(b: seq<u8>, ip: nat, meta: Meta): (r: (ParseResult, Meta)) {
    if ip + 20 > |b| then (ParseMalformed, meta)
    else if b[ip] / 16 != 4 || b[ip] % 16 < 5 then (ParseMalformed, meta)
    else
      var headerLen := b[ip] % 16 * 4;
      if ip + headerLen > |b| then (ParseMalformed, meta)
      else
        var total := Be16(b, ip + 2);
        if total < headerLen || total > |b| - ip then (ParseMalformed, meta)
        else
          var addressed := meta.(src := Load32(b, ip + 12), dst := Load32(b, ip + 16), proto := L4Proto(b[ip + 9]));
          if Be16(b, ip + 6) % 0x4000 != 0 then (ParseOk, addressed.(isFragment := true))
          else ParseL4(b, ip + headerLen, total - headerLen, addressed)
  }

  /** Where the network header starts and its ethertype, past at most two VLAN tags. */
  function NetworkHeader(b: seq<u8>): (r: Option<(nat, u16)>)
    ensures r.Some? ==> r.value.0 <= |b|
  {
    if |b| < 14 then None
    else if !IsVlan(Be16(b, 12)) then Some((14, Be16(b, 12)))
    else if |b| < 18 then None
    else if !IsVlan(Be16(b, 16)) then Some((18, Be16(b, 16)))
    else if |b| < 22 then None
    else Some((22, Be16(b, 20)))
  }

  function Parse(b: seq<u8>): (r: (ParseResult, Meta)) {
    var meta := EMPTY_META.(length := FrameLength(|b|));
    match NetworkHeader(b)
    case None => (ParseMalformed, meta)
    case Some((ip, etherType)) =>
      if etherType != ETH_P_IP then (ParseNonIpv4, meta) else ParseIp(b, ip, meta)
  }

  // ---------- the program's form: fields of meta filled in step by step ----------

  method ParseL4InPlace(frame: array<u8>, l4: nat, payload: nat, meta0: Meta) returns (result: ParseResult, meta: Meta)
    ensures (result, meta) == ParseL4(frame[..], l4, payload, meta0)
  {
    meta := meta0;
    result := ParseMalformed;
    if meta.proto == L4_TCP {
      if payload < 20 || l4 + 20 > frame.Length {
        return;
      }
      var headerLen := frame[l4 + 12] / 16 * 4;
      if headerLen < 20 || headerLen > payload {
        return;
      }
      meta := meta.(srcPort := Word(frame[l4], frame[l4 + 1]));
      meta := meta.(dstPort := Word(frame[l4 + 2], frame[l4 + 3]));
      meta := meta.(tcpFlags := frame[l4 + 13]);
      return ParseOk, meta;
    }
    if meta.proto == L4_UDP {
      if payload < 8 || l4 + 8 > frame.Length {
        return;
      }
      var udpLen := Word(frame[l4 + 4], frame[l4 + 5]);
      if udpLen < 8 || udpLen > payload {
        return;
      }
      meta := meta.(srcPort := Word(frame[l4], frame[l4 + 1]));
      meta := meta.(dstPort := Word(frame[l4 + 2], frame[l4 + 3]));
      return ParseOk, meta;
    }
    if meta.proto == L4_ICMP && (payload < 8 || l4 + 8 > frame.Length) {
      return;
    }
    result := ParseOk;
  }

  method ParsePacket(frame: array<u8>) returns (result: ParseResult, meta: Meta)
    ensures (result, meta) == Parse(frame[..])
  {
    var n := frame.Length;
    meta := EMPTY_META.(length := FrameLength(n));
    result := ParseMalformed;
    if 14 > n {
      return;
    }
    var etherType := Word(frame[12], frame[13]);
    var nh := 14;
    if IsVlan(etherType) {
      if nh + 4 > n {
        return;
      }
      etherType := Word(frame[nh + 2], frame[nh + 3]);
      nh := nh + 4;
    }
    if IsVlan(etherType) {
      if nh + 4 > n {
        return;
      }
      etherType := Word(frame[nh + 2], frame[nh + 3]);
      nh := nh + 4;
    }
    assert NetworkHeader(frame[..]) == Some((nh, etherType));
    if etherType != ETH_P_IP {
      return ParseNonIpv4, meta;
    }
    if nh + 20 > n {
      return;
    }
    var version, ihl := frame[nh] / 16, frame[nh] % 16;
    if version != 4 || ihl < 5 {
      return;
    }
    var headerLen := ihl * 4;
    if nh + headerLen > n {
      return;
    }
    var total := Be16(frame[..], nh + 2);
    if total < headerLen || total > n - nh {
      return;
    }
    meta := meta.(src := Load32(frame[..], nh + 12));
    meta := meta.(dst := Load32(frame[..], nh + 16));
    meta := meta.(proto := L4Proto(frame[nh + 9]));
    if Be16(frame[..], nh + 6) % 0x4000 != 0 {
      meta := meta.(isFragment := true);
      return ParseOk, meta;
    }
    result, meta := ParseL4InPlace(frame, nh + headerLen, total - headerLen, meta);
  }

  // ---------- the grammar ----------

  ghost function Joined(tags: seq<seq<u8>>): (r: seq<u8>) {
    if tags == [] then [] else tags[0] + Joined(tags[1..])
  }

  /** Ethernet with at most two VLAN tags: addresses, tags, ethertype, rest. */
  ghost predicate IsEthernet(b: seq<u8>, macs: seq<u8>, tags: seq<seq<u8>>, etherType: seq<u8>, rest: seq<u8>) {
    && b == macs + Joined(tags) + etherType + rest
    && |macs| == 12 && |etherType| == 2
    && |tags| <= 2 && (forall i | 0 <= i < |tags| :: |tags[i]| == 4 && IsVlan(Be16(tags[i], 0)))
    && (|tags| < 2 ==> !IsVlan(Be16(etherType, 0)))
  }

  /** An IPv4 datagram (section 3.1 of RFC 791): header, payload, and padding of the frame. */
  ghost predicate IsDatagram(d: seq<u8>, header: seq<u8>, payload: seq<u8>, padding: seq<u8>) {
    && d == header + payload + padding
    && |header| >= 20 && header[0] / 16 == 4 && |header| == header[0] % 16 * 4
    && Be16(header, 2) == |header| + |payload|
  }

  ghost predicate IsFragment(header: seq<u8>)
    requires |header| >= 20
  {
    Be16(header, 6) % 0x4000 != 0
  }

  /** TCP (section 3.1 of RFC 9293), UDP (RFC 768), ICMP (RFC 792): the lengths that must hold. */
  ghost predicate IsTransport(proto: u8, payload: seq<u8>) {
    && (proto == L4_TCP ==> |payload| >= 20 && 20 <= payload[12] / 16 * 4 <= |payload|)
    && (proto == L4_UDP ==> |payload| >= 8 && 8 <= Be16(payload, 4) <= |payload|)
    && (proto == L4_ICMP ==> |payload| >= 8)
  }

  /** The metadata a well-formed datagram carries. */
  ghost function Described(header: seq<u8>, payload: seq<u8>, frameLen: nat): (r: Meta)
    requires |header| >= 20 && (IsFragment(header) || IsTransport(L4Proto(header[9]), payload))
  {
    var proto := L4Proto(header[9]);
    var ported := !IsFragment(header) && (proto == L4_TCP || proto == L4_UDP);
    EMPTY_META.(
      length := FrameLength(frameLen),
      src := Load32(header, 12), dst := Load32(header, 16), proto := proto,
      isFragment := IsFragment(header),
      srcPort := if ported then Be16(payload, 0) else 0,
      dstPort := if ported then Be16(payload, 2) else 0,
      tcpFlags := if ported && proto == L4_TCP then payload[13] else 0)
  }

  /** b is a frame the pipeline may look up, made of these parts. */
  ghost predicate IsWellFormed(
      b: seq<u8>, macs: seq<u8>, tags: seq<seq<u8>>, rest: seq<u8>, header: seq<u8>, payload: seq<u8>, padding: seq<u8>)
  {
    && IsEthernet(b, macs, tags, [0x08, 0x00], rest)
    && IsDatagram(rest, header, payload, padding)
    && (IsFragment(header) || IsTransport(L4Proto(header[9]), payload))
  }

  // ---------- the parser recognises exactly the grammar ----------

  /** The data_end checks of the transport headers are implied by the length checks. */
  lemma TransportInFrame(b: seq<u8>, l4: nat, payload: nat, meta: Meta)
    requires l4 + payload <= |b|
    ensures ParseL4(b, l4, payload, meta).0 == ParseOk <==>
      && (meta.proto == L4_TCP ==> payload >= 20 && 20 <= b[l4 + 12] / 16 * 4 <= payload)
      && (meta.proto == L4_UDP ==> payload >= 8 && 8 <= Be16(b, l4 + 4) <= payload)
      && (meta.proto == L4_ICMP ==> payload >= 8)
  {
  }

  lemma JoinedLength(tags: seq<seq<u8>>)
    requires |tags| <= 2 && forall i | 0 <= i < |tags| :: |tags[i]| == 4
    ensures Joined(tags) == (if |tags| == 0 then [] else if |tags| == 1 then tags[0] else tags[0] + tags[1])
  {
    if |tags| >= 1 {
      assert Joined(tags) == tags[0] + Joined(tags[1..]);
    }
    if |tags| == 2 {
      assert Joined(tags[1..]) == tags[1] + Joined(tags[2..]);
    }
  }

  lemma EthernetParsed(b: seq<u8>, macs: seq<u8>, tags: seq<seq<u8>>, etherType: seq<u8>, rest: seq<u8>)
    requires IsEthernet(b, macs, tags, etherType, rest)
    ensures NetworkHeader(b) == Some((14 + 4 * |tags|, Be16(etherType, 0)))
    ensures b[14 + 4 * |tags|..] == rest
  {
    JoinedLength(tags);
    var t := Joined(tags);
    assert b[12..12 + |t|] == t;
    assert b[12 + |t|] == etherType[0] && b[13 + |t|] == etherType[1];
    if |tags| >= 1 {
      assert t[0] == tags[0][0] && t[1] == tags[0][1];
      assert b[12] == t[0] && b[13] == t[1];
    }
    if |tags| == 2 {
      assert t[4] == tags[1][0] && t[5] == tags[1][1];
      assert b[16] == t[4] && b[17] == t[5];
    }
  }

  /** Conversely every frame with a network header splits into those parts. */
  lemma EthernetSplit(b: seq<u8>) returns (tags: seq<seq<u8>>)
    requires NetworkHeader(b).Some?
    ensures
      var ip := NetworkHeader(b).value.0;
      && ip == 14 + 4 * |tags|
      && IsEthernet(b, b[..12], tags, b[ip - 2..ip], b[ip..])
      && Be16(b[ip - 2..ip], 0) == NetworkHeader(b).value.1
  {
    var ip := NetworkHeader(b).value.0;
    tags := if ip == 14 then [] else if ip == 18 then [b[12..16]] else [b[12..16], b[16..20]];
    JoinedLength(tags);
    assert Joined(tags) == b[12..ip - 2];
    assert b == b[..12] + b[12..ip - 2] + b[ip - 2..ip] + b[ip..];
  }

  /** A header seen through the frame reads the same fields. */
  lemma HeaderFields(b: seq<u8>, ip: nat, header: seq<u8>)
    requires ip + |header| <= |b| && b[ip..ip + |header|] == header && |header| >= 20
    ensures b[ip] == header[0] && b[ip + 9] == header[9]
    ensures Be16(b, ip + 2) == Be16(header, 2) && Be16(b, ip + 6) == Be16(header, 6)
    ensures Load32(b, ip + 12) == Load32(header, 12) && Load32(b, ip + 16) == Load32(header, 16)
  {
    assert forall i | 0 <= i < |header| :: header[i] == b[ip + i];
  }

  lemma TransportParsed(b: seq<u8>, l4: nat, payload: seq<u8>, meta: Meta)
    requires l4 + |payload| <= |b| && b[l4..l4 + |payload|] == payload
    requires IsTransport(meta.proto, payload)
    ensures
      var ported := meta.proto == L4_TCP || meta.proto == L4_UDP;
      ParseL4(b, l4, |payload|, meta) == (ParseOk,
        if ported then
          meta.(srcPort := Be16(payload, 0), dstPort := Be16(payload, 2),
                tcpFlags := if meta.proto == L4_TCP then payload[13] else meta.tcpFlags)
        else meta)
  {
    assert forall i | 0 <= i < |payload| :: payload[i] == b[l4 + i];
  }

  lemma DatagramParsed(b: seq<u8>, ip: nat, header: seq<u8>, payload: seq<u8>, padding: seq<u8>, meta: Meta)
    requires ip <= |b| && IsDatagram(b[ip..], header, payload, padding)
    requires meta == EMPTY_META.(length := FrameLength(|b|))
    requires IsFragment(header) || IsTransport(L4Proto(header[9]), payload)
    ensures ParseIp(b, ip, meta) == (ParseOk, Described(header, payload, |b|))
  {
    var d, l4 := b[ip..], ip + |header|;
    assert d[..|header|] == header && d[|header|..|header| + |payload|] == payload;
    assert b[ip..l4] == header && b[l4..l4 + |payload|] == payload;
    HeaderFields(b, ip, header);
    var addressed := meta.(src := Load32(b, ip + 12), dst := Load32(b, ip + 16), proto := L4Proto(b[ip + 9]));
    if !IsFragment(header) {
      TransportParsed(b, l4, payload, addressed);
      assert ParseIp(b, ip, meta) == ParseL4(b, l4, |payload|, addressed);
    }
  }

  /** Every well-formed frame is accepted with exactly its metadata. */
  lemma ParseComplete(
    b: seq<u8>, macs: seq<u8>, tags: seq<seq<u8>>, rest: seq<u8>, header: seq<u8>, payload: seq<u8>, padding: seq<u8>)
    requires IsWellFormed(b, macs, tags, rest, header, payload, padding)
    ensures Parse(b) == (ParseOk, Described(header, payload, |b|))
  {
    EthernetParsed(b, macs, tags, [0x08, 0x00], rest);
    DatagramParsed(b, 14 + 4 * |tags|, header, payload, padding, EMPTY_META.(length := FrameLength(|b|)));
  }

  lemma DatagramSplit(b: seq<u8>, ip: nat, meta: Meta) returns (header: seq<u8>, payload: seq<u8>, padding: seq<u8>)
    requires ip <= |b| && ParseIp(b, ip, meta).0 == ParseOk
    ensures IsDatagram(b[ip..], header, payload, padding)
    ensures IsFragment(header) || IsTransport(L4Proto(header[9]), payload)
  {
    var d := b[ip..];
    var headerLen, total := b[ip] % 16 * 4, Be16(b, ip + 2);
    header, payload, padding := d[..headerLen], d[headerLen..total], d[total..];
    assert d == header + payload + padding;
    assert forall i | 0 <= i < |header| :: header[i] == b[ip + i];
    assert forall i | 0 <= i < |payload| :: payload[i] == b[ip + headerLen + i];
  }

  /** Every accepted frame is well-formed, with exactly the metadata the parser returned. */
  lemma ParseSound(
    b: seq<u8>) returns (tags: seq<seq<u8>>, rest: seq<u8>, header: seq<u8>, payload: seq<u8>, padding: seq<u8>)
    requires Parse(b).0 == ParseOk
    ensures IsWellFormed(b, b[..12], tags, rest, header, payload, padding)
    ensures Parse(b).1 == Described(header, payload, |b|)
  {
    var ip := NetworkHeader(b).value.0;
    tags := EthernetSplit(b);
    rest := b[ip..];
    assert b[ip - 2..ip] == [b[ip - 2], b[ip - 1]];
    assert b[ip - 2..ip] == [0x08, 0x00];
    header, payload, padding := DatagramSplit(b, ip, EMPTY_META.(length := FrameLength(|b|)));
    ParseComplete(b, b[..12], tags, rest, header, payload, padding);
  }

  /** Accepted iff well-formed. */
  lemma AcceptedExactly(b: seq<u8>)
    ensures Parse(b).0 == ParseOk <==>
      exists macs, tags, rest, header, payload, padding :: IsWellFormed(b, macs, tags, rest, header, payload, padding)
  {
    if Parse(b).0 == ParseOk {
      var tags, rest, header, payload, padding := ParseSound(b);
    }
    if macs, tags, rest, header, payload, padding :| IsWellFormed(b, macs, tags, rest, header, payload, padding) {
      ParseComplete(b, macs, tags, rest, header, payload, padding);
    }
  }

  /** Passed on iff a complete Ethernet header announces something other than IPv4; every other frame
      that is not accepted is malformed. */
  lemma PassedExactly(b: seq<u8>)
    ensures Parse(b).0 == ParseNonIpv4 <==>
      exists macs, tags, etherType, rest :: IsEthernet(b, macs, tags, etherType, rest) && Be16(etherType, 0) != ETH_P_IP
  {
    if Parse(b).0 == ParseNonIpv4 {
      var tags := EthernetSplit(b);
    }
    if macs, tags, etherType, rest :| IsEthernet(b, macs, tags, etherType, rest) && Be16(etherType, 0) != ETH_P_IP {
      EthernetParsed(b, macs, tags, etherType, rest);
    }
  }
}
