/**
 From captured packets back to the endpoint whose SYN they answer: TCP replies by acknowledgment,
 ICMP errors by the quoted headers.
 */
module Attribution {
  import opened Words
  import opened Bits
  import opened Endpoints
  import opened Shards
  import opened Packets
  import opened Results

  const EPHEMERAL_FIRST: u16 := 32768
  const EPHEMERAL_LAST: u16 := 60999

  /** What one run fixes: the source address, the configured port (0 for automatic), and the two keyed hashes. */
  datatype Run = Run(
    src: u32,
    configuredPort: u16,
    cookieHash: (u32, u16, u16) -> u32,
    portSample: (u32, u16) -> u16
  ) {
    /** `local_source_port`, with `ephemeral_source_port`. */
    function SourcePort(dst: u32, destPort: u16): u16 {
      if configuredPort == 0 then EPHEMERAL_FIRST + portSample(dst, destPort) % (EPHEMERAL_LAST - EPHEMERAL_FIRST + 1)
      else configuredPort
    }

    /** The sequence number a SYN to this address and port carries. */
    function Cookie(dst: u32, destPort: u16): u32 {
      cookieHash(dst, SourcePort(dst, destPort), destPort)
    }

    /** The packets `prepare_syn_batch` builds for an endpoint; the other fields are free. */
    predicate IsSynFor(e: Endpoint, p: SynPacket) {
      && p.src == src
      && p.dst == e.ip
      && p.destPort == e.service.port
      && p.sourcePort == SourcePort(e.ip, e.service.port)
      && p.sequence == Cookie(e.ip, e.service.port)
    }
  }

  function ValidAck(cookie: u32, ack: u32): bool {
    ack == WrappingAdd(cookie, 1)
  }

  /** Automatic source ports stay in the range the capture filter admits. */
  lemma SourcePortInRange(run: Run, dst: u32, destPort: u16)
    requires run.configuredPort == 0
    ensures 32768 <= run.SourcePort(dst, destPort) <= 60999
  {
  }

  /* ----- headers ----- */

  datatype Header = Header(offset: nat, ihl: nat, protocol: u8)

  const ETHERTYPE_IPV4: seq<u8> := [0x08, 0x00]

  /** `ipv4_header`: raw IP, Ethernet, or a two-byte longer link header. */
  function Ipv4Header(data: seq<u8>): (r: Option<Header>)
    ensures r.Some? ==> r.value.ihl >= 20 && |data| >= r.value.offset + r.value.ihl
  {
    if data != [] && data[0] / 16 == 4 then ParseIpv4Header(data, 0)
    else if |data| >= 14 && data[12..14] == ETHERTYPE_IPV4 then ParseIpv4Header(data, 14)
    else if |data| >= 16 && data[14..16] == ETHERTYPE_IPV4 then ParseIpv4Header(data, 16)
    else None
  }

  function ParseIpv4Header(data: seq<u8>, offset: nat): (r: Option<Header>)
    ensures r.Some? ==> r.value.ihl >= 20 && |data| >= r.value.offset + r.value.ihl
  {
    if |data| < offset + 20 || data[offset] / 16 != 4 then None else
    var ihl := data[offset] % 16 * 4;
    if ihl >= 20 && |data| >= offset + ihl then Some(Header(offset, ihl, data[offset + 9])) else None
  }

  function Ipv4At(data: seq<u8>, at: nat): u32
    requires at + 4 <= |data|
  {
    FromBe32(data[at..at + 4])
  }

  function PortAt(data: seq<u8>, at: nat): u16
    requires at + 2 <= |data|
  {
    FromBe16(data[at..at + 2])
  }

  /** An observation a packet amounts to. */
  datatype Seen = Seen(index: nat, state: TargetState)

  /* ----- TCP ----- */

  /** The endpoint a TCP packet acknowledges, as `handle_tcp_reply` decides before it looks at the flags. */
  function TcpTarget(run: Run, es: seq<Endpoint>, data: seq<u8>, h: Header): (r: Option<nat>)
    requires h.ihl >= 20 && |data| >= h.offset + h.ihl
    ensures r.Some? ==> r.value < |es| && |data| >= h.offset + h.ihl + 20
  {
    var tcp := h.offset + h.ihl;
    if |data| < tcp + 20 then None else
    var remote := Ipv4At(data, h.offset + 12);
    var remotePort := PortAt(data, tcp);
    match Lookup(es, remote, remotePort)
    case None => None
    case Some(index) =>
      if PortAt(data, tcp + 2) != run.SourcePort(remote, remotePort)
        || !ValidAck(run.Cookie(remote, remotePort), Ipv4At(data, tcp + 8))
      then None
      else Some(index)
  }

  const SYN_ACK: u8 := 0x12
  const RST: u8 := 0x04

  /** SYN is bit 1, RST bit 2 and ACK bit 4 of the flags (section 3.1 of RFC 793). */
  lemma FlagBits(flags: u8)
    ensures And(flags, SYN_ACK) == SYN_ACK <==> Bit(flags, 1) && Bit(flags, 4)
    ensures And(flags, RST) != 0 <==> Bit(flags, 2)
  {
    var x: nat := flags;
    HalvesOf(x);
    assert And(x / 2, 9) == 2 * And(x / 4, 4) + x / 2 % 2;
    assert And(x / 4, 4) == 2 * And(x / 8, 2);
    assert And(x / 8, 2) == 2 * And(x / 16, 1);
    assert And(x / 16, 1) == x / 16 % 2;
    assert And(x / 2, 2) == 2 * And(x / 4, 1);
    assert And(x / 4, 1) == x / 4 % 2;
  }

  lemma HalvesOf(x: nat)
    ensures x / 2 / 2 == x / 4 && x / 4 / 2 == x / 8 && x / 8 / 2 == x / 16 && x / 16 / 2 == x / 32
    ensures Pow2(1) == 2 && Pow2(2) == 4 && Pow2(4) == 16
  {
    assert Pow2(3) == 8;
  }

  function TcpSeen(run: Run, es: seq<Endpoint>, data: seq<u8>, h: Header): (r: Option<Seen>)
    requires h.ihl >= 20 && |data| >= h.offset + h.ihl
    ensures r.Some? ==> r.value.index < |es|
  {
    match TcpTarget(run, es, data, h)
    case None => None
    case Some(index) =>
      var flags := data[h.offset + h.ihl + 13];
      if And(flags, SYN_ACK) == SYN_ACK then Some(Seen(index, Open))
      else if And(flags, RST) != 0 then Some(Seen(index, Closed))
      else None
  }

  /** The packet swaps the SYN's addresses and ports and acknowledges its sequence number plus one. */
  predicate Acknowledges(data: seq<u8>, h: Header, p: SynPacket) {
    var tcp := h.offset + h.ihl;
    && h.ihl >= 20
    && |data| >= tcp + 20
    && Ipv4At(data, h.offset + 12) == p.dst
    && PortAt(data, tcp) == p.destPort
    && PortAt(data, tcp + 2) == p.sourcePort
    && Ipv4At(data, tcp + 8) == (p.sequence + 1) % 0x1_0000_0000
  }

  /** A TCP packet is attributed to an endpoint iff it acknowledges that endpoint's SYN. */
  lemma TcpAttributedIff(run: Run, es: seq<Endpoint>, data: seq<u8>, h: Header, k: nat, p: SynPacket)
    requires h.ihl >= 20 && |data| >= h.offset + h.ihl
    requires DistinctPorts(es) && k < |es| && run.IsSynFor(es[k], p)
    ensures TcpTarget(run, es, data, h) == Some(k) <==> Acknowledges(data, h, p)
  {
    if Acknowledges(data, h, p) { LookupUnique(es, k); }
  }

  lemma LookupUnique(es: seq<Endpoint>, k: nat)
    requires DistinctPorts(es) && k < |es|
    ensures Lookup(es, es[k].ip, es[k].service.port) == Some(k)
  {
    LookupFirst(es, es[k].ip, es[k].service.port, k);
  }

  /* ----- ICMP ----- */

  const PROTOCOL_ICMP: u8 := 1
  const ICMP_UNREACHABLE: u8 := 3
  const ICMP_TIME_EXCEEDED: u8 := 11

  datatype InnerTcpReply = InnerTcpReply(remote: u32, sourceIp: u32, sourcePort: u16, destPort: u16, sequence: u32)

  /** `inner_tcp_reply`: the headers quoted at `inner`. */
  function InnerReply(data: seq<u8>, inner: nat): Option<InnerTcpReply>
    requires inner < |data|
  {
    var ihl := data[inner] % 16 * 4;
    if data[inner] / 16 != 4 || ihl < 20 || |data| < inner + ihl + 8 || data[inner + 9] != PROTOCOL_TCP then None else
    var tcp := inner + ihl;
    Some(InnerTcpReply(
      Ipv4At(data, inner + 16),
      Ipv4At(data, inner + 12),
      PortAt(data, tcp),
      PortAt(data, tcp + 2),
      Ipv4At(data, tcp + 4)))
  }

  /** `valid_inner_reply`. */
  predicate ValidInner(run: Run, r: InnerTcpReply) {
    && r.sourceIp == run.src
    && r.sourcePort == run.SourcePort(r.remote, r.destPort)
    && r.sequence == run.Cookie(r.remote, r.destPort)
  }

  /** The endpoint an ICMP error is about, as `handle_icmp_reply` decides. */
  function IcmpTarget(run: Run, es: seq<Endpoint>, data: seq<u8>, h: Header): (r: Option<nat>)
    ensures r.Some? ==> r.value < |es|
  {
    var icmp := h.offset + h.ihl;
    if |data| < icmp + 28 || !(data[icmp] == ICMP_UNREACHABLE || data[icmp] == ICMP_TIME_EXCEEDED) then None else
    match InnerReply(data, icmp + 8)
    case None => None
    case Some(reply) =>
      if !ValidInner(run, reply) then None else Lookup(es, reply.remote, reply.destPort)
  }

  function IcmpSeen(run: Run, es: seq<Endpoint>, data: seq<u8>, h: Header): (r: Option<Seen>)
    ensures r.Some? ==> r.value.index < |es|
  {
    match IcmpTarget(run, es, data, h)
    case None => None
    case Some(index) => Some(Seen(index, Unreachable))
  }

  /** What the first 28 bytes of an encoded SYN say. */
  lemma QuotedHeaders(p: SynPacket)
    ensures var q := p.Encoded()[..28];
      && q[0] == 0x45 && q[9] == 6
      && q[12..16] == Be32(p.src) && q[16..20] == Be32(p.dst)
      && q[20..22] == Be16(p.sourcePort) && q[22..24] == Be16(p.destPort) && q[24..28] == Be32(p.sequence)
  {
    var header, segment := p.IpHeader(p.IpChecksum()), p.TcpSegment(p.TcpChecksum());
    assert p.Encoded() == header + segment;
    assert header[12..16] == Be32(p.src) && header[16..20] == Be32(p.dst);
    assert segment[0..2] == Be16(p.sourcePort) && segment[2..4] == Be16(p.destPort)
      && segment[4..8] == Be32(p.sequence);
    assert p.Encoded()[..28] == header + segment[..8];
  }

  function Quoted(p: SynPacket): InnerTcpReply {
    InnerTcpReply(p.dst, p.src, p.sourcePort, p.destPort, p.sequence)
  }

  predicate IsIcmpError(data: seq<u8>, h: Header) {
    var icmp := h.offset + h.ihl;
    |data| >= icmp + 28 && (data[icmp] == 3 || data[icmp] == 11)
  }

  /** An ICMP message is attributed to an endpoint iff it is one of the two errors and quotes that endpoint's SYN. */
  lemma IcmpAttributedIff(run: Run, es: seq<Endpoint>, data: seq<u8>, h: Header, k: nat, p: SynPacket)
    requires DistinctPorts(es) && k < |es| && run.IsSynFor(es[k], p)
    ensures IcmpTarget(run, es, data, h) == Some(k)
       <==> IsIcmpError(data, h) && InnerReply(data, h.offset + h.ihl + 8) == Some(Quoted(p))
  {
    LookupUnique(es, k);
  }

  /** Quoting the first 28 bytes is enough. */
  lemma QuotingIsEnough(data: seq<u8>, inner: nat, p: SynPacket)
    requires inner + 28 <= |data| && data[inner..inner + 28] == p.Encoded()[..28]
    ensures InnerReply(data, inner) == Some(Quoted(p))
  {
    QuotedHeaders(p);
    InnerOf(data, inner, data[inner..inner + 28]);
    Be32RoundTrip(p.src);
    Be32RoundTrip(p.dst);
    Be32RoundTrip(p.sequence);
    Be16RoundTrip(p.sourcePort);
    Be16RoundTrip(p.destPort);
  }

  lemma InnerOf(data: seq<u8>, inner: nat, q: seq<u8>)
    requires |q| == 28 && inner + 28 <= |data| && data[inner..inner + 28] == q
    requires q[0] == 0x45 && q[9] == 6
    ensures InnerReply(data, inner)
      == Some(InnerTcpReply(Ipv4At(q, 16), Ipv4At(q, 12), PortAt(q, 20), PortAt(q, 22), Ipv4At(q, 24)))
  {
    assert forall k | 0 <= k < 28 :: data[inner + k] == q[k];
    assert data[inner + 12..inner + 16] == q[12..16] && data[inner + 16..inner + 20] == q[16..20];
    assert data[inner + 20..inner + 22] == q[20..22] && data[inner + 22..inner + 24] == q[22..24];
    assert data[inner + 24..inner + 28] == q[24..28];
  }

  /** Behind a given header, an ICMP error quoting an encoded SYN's first 28 bytes is about the SYN's endpoint. */
  lemma QuotedSyn(run: Run, es: seq<Endpoint>, data: seq<u8>, h: Header, k: nat, p: SynPacket)
    requires DistinctPorts(es) && k < |es| && run.IsSynFor(es[k], p)
    requires IsIcmpError(data, h) && h.offset + h.ihl + 36 <= |data|
    requires data[h.offset + h.ihl + 8..h.offset + h.ihl + 36] == p.Encoded()[..28]
    ensures IcmpSeen(run, es, data, h) == Some(Seen(k, Unreachable))
  {
    QuotingIsEnough(data, h.offset + h.ihl + 8, p);
    IcmpAttributedIff(run, es, data, h, k, p);
  }

  /* ----- whole packets ----- */

  /** What `receive` makes of one captured packet. */
  function PacketSeen(run: Run, es: seq<Endpoint>, data: seq<u8>): (r: Option<Seen>)
    ensures r.Some? ==> r.value.index < |es|
  {
    match Ipv4Header(data)
    case None => None
    case Some(h) =>
      if h.protocol == PROTOCOL_TCP then TcpSeen(run, es, data, h)
      else if h.protocol == PROTOCOL_ICMP then IcmpSeen(run, es, data, h)
      else None
  }

  /** A reply to a SYN: addresses and ports swapped, the sequence number acknowledged, behind any IPv4 header. */
  function ReplyPacket(
      link: seq<u8>, front: seq<u8>, options: seq<u8>, p: SynPacket, sequence: u32, flags: u8, rest: seq<u8>): seq<u8>
    requires |front| == 12
  {
    link + front + Be32(p.dst) + Be32(p.src) + options
      + Be16(p.destPort) + Be16(p.sourcePort) + Be32(sequence) + Be32(WrappingAdd(p.sequence, 1)) + [0x50, flags] + rest
  }

  /** The replying host's header is well formed: 20 bytes and its options, carrying the protocol. */
  predicate IsFront(front: seq<u8>, options: seq<u8>, protocol: u8) {
    && |front| == 12 && |options| <= 40 && |options| % 4 == 0
    && front[0] == 0x45 + |options| / 4 && front[9] == protocol
  }

  /** An Ethernet header, or the two bytes longer one of a cooked capture. */
  predicate IsEthernet(link: seq<u8>) {
    |link| == 14 && link[12..14] == [0x08, 0x00]
  }

  predicate IsCooked(link: seq<u8>) {
    |link| == 16 && link[14..16] == [0x08, 0x00] && link[12..14] != [0x08, 0x00]
  }

  /** No link header, or one that does not begin like an IPv4 header. */
  predicate IsLink(link: seq<u8>) {
    link == [] || ((IsEthernet(link) || IsCooked(link)) && link[0] / 16 != 4)
  }

  lemma ReplyHeader(link: seq<u8>, front: seq<u8>, options: seq<u8>, protocol: u8, rest: seq<u8>)
    requires IsFront(front, options, protocol) && IsLink(link) && |rest| >= 8 + |options|
    ensures Ipv4Header(link + front + rest) == Some(Header(|link|, 20 + |options|, protocol))
  {
    var data := link + front + rest;
    assert data[|link|] == front[0] && data[|link| + 9] == front[9];
    if link != [] { LinkIn(link, front + rest); assert data == link + (front + rest); }
  }

  lemma LinkIn(link: seq<u8>, rest: seq<u8>)
    requires |link| >= 14
    ensures (link + rest)[0] == link[0] && (link + rest)[12..14] == link[12..14]
    ensures |link| >= 16 ==> (link + rest)[14..16] == link[14..16]
  {
  }

  /** A frame behind a link header is read as one iff its first byte does not start like an IPv4 header. */
  lemma LinkReadIff(link: seq<u8>, front: seq<u8>, options: seq<u8>, protocol: u8, rest: seq<u8>)
    requires (IsEthernet(link) || IsCooked(link)) && IsFront(front, options, protocol) && |rest| >= 8 + |options|
    ensures Ipv4Header(link + front + rest) == Some(Header(|link|, 20 + |options|, protocol)) <==> link[0] / 16 != 4
  {
    if link[0] / 16 != 4 {
      ReplyHeader(link, front, options, protocol, rest);
    } else {
      assert (link + front + rest)[0] == link[0];
    }
  }

  lemma ReplyAcknowledges(
      link: seq<u8>, front: seq<u8>, options: seq<u8>, p: SynPacket, sequence: u32, flags: u8, rest: seq<u8>)
    requires IsFront(front, options, 6) && |rest| >= 6
    ensures Acknowledges(ReplyPacket(link, front, options, p, sequence, flags, rest),
      Header(|link|, 20 + |options|, 6), p)
    ensures ReplyPacket(link, front, options, p, sequence, flags, rest)[|link| + 20 + |options| + 13] == flags
  {
    var data := ReplyPacket(link, front, options, p, sequence, flags, rest);
    var at, tcp := |link| + 12, |link| + 20 + |options|;
    assert data[at..at + 4] == Be32(p.dst);
    assert data[tcp..tcp + 2] == Be16(p.destPort) && data[tcp + 2..tcp + 4] == Be16(p.sourcePort);
    assert data[tcp + 8..tcp + 12] == Be32(WrappingAdd(p.sequence, 1));
    Be32RoundTrip(p.dst);
    Be32RoundTrip(WrappingAdd(p.sequence, 1));
    Be16RoundTrip(p.sourcePort);
    Be16RoundTrip(p.destPort);
  }

  /** The round trip over TCP: a SYN-ACK to a SYN opens its endpoint, a RST closes it, and nothing else of it counts. */
  lemma TcpRoundTrip(run: Run, es: seq<Endpoint>, k: nat, p: SynPacket,
      link: seq<u8>, front: seq<u8>, options: seq<u8>, sequence: u32, flags: u8, rest: seq<u8>)
    requires DistinctPorts(es) && k < |es| && run.IsSynFor(es[k], p)
    requires IsLink(link) && IsFront(front, options, 6) && |rest| >= 6
    ensures PacketSeen(run, es, ReplyPacket(link, front, options, p, sequence, flags, rest))
         == if Bit(flags, 1) && Bit(flags, 4) then Some(Seen(k, Open))
            else if Bit(flags, 2) then Some(Seen(k, Closed))
            else None
  {
    FlagBits(flags);
    var data := ReplyPacket(link, front, options, p, sequence, flags, rest);
    var h := Header(|link|, 20 + |options|, PROTOCOL_TCP);
    var tail := Be32(p.dst) + Be32(p.src) + options
      + Be16(p.destPort) + Be16(p.sourcePort) + Be32(sequence) + Be32(WrappingAdd(p.sequence, 1)) + [0x50, flags]
        + rest;
    assert data == link + front + tail;
    ReplyHeader(link, front, options, PROTOCOL_TCP, tail);
    ReplyAcknowledges(link, front, options, p, sequence, flags, rest);
    TcpAttributedIff(run, es, data, h, k, p);
  }

  /** An ICMP error: the sender's header, eight bytes of ICMP, and what it quotes. */
  function IcmpPacket(
      link: seq<u8>, front: seq<u8>, addresses: seq<u8>, options: seq<u8>, icmp: seq<u8>, quoted: seq<u8>,
      rest: seq<u8>): seq<u8>
  {
    link + front + (addresses + options + icmp + quoted + rest)
  }

  lemma IcmpQuotes(
      link: seq<u8>, front: seq<u8>, addresses: seq<u8>, options: seq<u8>, icmp: seq<u8>, quoted: seq<u8>,
      rest: seq<u8>)
    requires |front| == 12 && |addresses| == 8 && |icmp| == 8 && |quoted| == 28
    ensures
      var data, at := IcmpPacket(link, front, addresses, options, icmp, quoted, rest), |link| + 20 + |options|;
      && |data| >= at + 36 && data[at] == icmp[0] && data[at + 8..at + 36] == quoted
  {
  }

  /**
   The round trip over ICMP: an error quoting an encoded SYN's first 28 bytes, from whatever host, marks its
   endpoint unreachable.
   */
  lemma IcmpRoundTrip(run: Run, es: seq<Endpoint>, k: nat, p: SynPacket,
      link: seq<u8>, front: seq<u8>, addresses: seq<u8>, options: seq<u8>, icmp: seq<u8>, rest: seq<u8>)
    requires DistinctPorts(es) && k < |es| && run.IsSynFor(es[k], p)
    requires IsLink(link) && IsFront(front, options, 1) && |addresses| == 8
    requires |icmp| == 8 && (icmp[0] == 3 || icmp[0] == 11)
    ensures PacketSeen(run, es, IcmpPacket(link, front, addresses, options, icmp, p.Encoded()[..28], rest))
         == Some(Seen(k, Unreachable))
  {
    var quoted := p.Encoded()[..28];
    var data := IcmpPacket(link, front, addresses, options, icmp, quoted, rest);
    var h := Header(|link|, 20 + |options|, PROTOCOL_ICMP);
    ReplyHeader(link, front, options, PROTOCOL_ICMP, addresses + options + icmp + quoted + rest);
    IcmpQuotes(link, front, addresses, options, icmp, quoted, rest);
    QuotedSyn(run, es, data, h, k, p);
  }

  /** An Ethernet header to the address 40:00:00:00:00:00. */
  const MISREAD_LINK: seq<u8> := [0x40, 0, 0, 0, 0, 0, 0, 0, 0, 0, 0, 0, 0x08, 0x00]

  /** A SYN-ACK that would open its endpoint is not seen at all behind such a header. */
  lemma MisreadReply(run: Run, es: seq<Endpoint>, k: nat, p: SynPacket, front: seq<u8>, sequence: u32)
    requires DistinctPorts(es) && k < |es| && run.IsSynFor(es[k], p) && IsFront(front, [], 6)
    ensures PacketSeen(run, es, ReplyPacket([], front, [], p, sequence, SYN_ACK, seq(6, _ => 0))) == Some(Seen(k, Open))
    ensures PacketSeen(run, es, ReplyPacket(MISREAD_LINK, front, [], p, sequence, SYN_ACK, seq(6, _ => 0))) == None
  {
    assert And(SYN_ACK, SYN_ACK) == SYN_ACK;
    FlagBits(SYN_ACK);
    TcpRoundTrip(run, es, k, p, [], front, [], sequence, SYN_ACK, seq(6, _ => 0));
    var frame := ReplyPacket(MISREAD_LINK, front, [], p, sequence, SYN_ACK, seq(6, _ => 0));
    assert frame[0] == 0x40;
  }

  /* ----- the handlers over the mapped files ----- */

  /** One turn of `receive`, up to the observation it makes. */
  method Attribute(run: Run, targets: seq<u8>, ports: seq<u8>, data: seq<u8>, ghost es: seq<Endpoint>)
    returns (seen: Option<Seen>)
    requires targets == TargetBytes(es) && ports == PortBytes(es) && SortedByIp(es)
    ensures seen == PacketSeen(run, es, data)
  {
    var header := Ipv4Header(data);
    if header.None? { return None; }
    if header.value.protocol == PROTOCOL_TCP {
      seen := AttributeTcp(run, targets, ports, data, header.value, es);
    } else if header.value.protocol == PROTOCOL_ICMP {
      seen := AttributeIcmp(run, targets, ports, data, header.value, es);
    } else {
      seen := None;
    }
  }

  /** `handle_tcp_reply`. */
  method AttributeTcp(run: Run, targets: seq<u8>, ports: seq<u8>, data: seq<u8>, h: Header, ghost es: seq<Endpoint>)
    returns (seen: Option<Seen>)
    requires h.ihl >= 20 && |data| >= h.offset + h.ihl
    requires targets == TargetBytes(es) && ports == PortBytes(es) && SortedByIp(es)
    ensures seen == TcpSeen(run, es, data, h)
  {
    var tcp := h.offset + h.ihl;
    if |data| < tcp + 20 { return None; }
    var remote, remotePort, localPort := Ipv4At(data, h.offset + 12), PortAt(data, tcp), PortAt(data, tcp + 2);
    var index := FindIndex(targets, ports, remote, remotePort, es);
    if index.None? { return None; }
    if localPort != run.SourcePort(remote, remotePort)
      || !ValidAck(run.Cookie(remote, remotePort), Ipv4At(data, tcp + 8)) {
      return None;
    }
    var flags := data[tcp + 13];
    if And(flags, SYN_ACK) == SYN_ACK { return Some(Seen(index.value, Open)); }
    if And(flags, RST) != 0 { return Some(Seen(index.value, Closed)); }
    return None;
  }

  /** `handle_icmp_reply`. */
  method AttributeIcmp(run: Run, targets: seq<u8>, ports: seq<u8>, data: seq<u8>, h: Header, ghost es: seq<Endpoint>)
    returns (seen: Option<Seen>)
    requires targets == TargetBytes(es) && ports == PortBytes(es) && SortedByIp(es)
    ensures seen == IcmpSeen(run, es, data, h)
  {
    var icmp := h.offset + h.ihl;
    if |data| < icmp + 28 || !(data[icmp] == ICMP_UNREACHABLE || data[icmp] == ICMP_TIME_EXCEEDED) { return None; }
    var reply := InnerReply(data, icmp + 8);
    if reply.None? || !ValidInner(run, reply.value) { return None; }
    var index := FindIndex(targets, ports, reply.value.remote, reply.value.destPort, es);
    if index.None? { return None; }
    return Some(Seen(index.value, Unreachable));
  }
}
