/**
 The Internet checksum (section 1 of RFC 1071) and the SYN packet that carries two of them.
 */
module Packets {
  import opened Words
  import opened Bits

  /* ----- checksum ----- */

  /** The sum of the big-endian 16-bit words; an odd last byte counts as a high byte. */
  function WordSum(data: seq<u8>): nat {
    if data == [] then 0
    else if |data| == 1 then data[0] as int * 0x100
    else data[0] as int * 0x100 + data[1] + WordSum(data[2..])
  }

  /** Folding the carries back in until the sum fits 16 bits. */
  function Fold(sum: nat): (r: nat)
    ensures r < 0x1_0000
  {
    if sum / 0x1_0000 == 0 then sum else Fold(sum % 0x1_0000 + sum / 0x1_0000)
  }

  /** Folding yields the residue modulo 65535, with 65535 standing for it when a positive sum leaves none. */
  lemma {:induction false} FoldIsResidue(sum: nat)
    ensures Fold(sum) == if sum == 0 then 0 else (sum - 1) % 0xffff + 1
  {
    var high := sum / 0x1_0000;
    if high == 0 {
      assert sum > 0 ==> (sum - 1) % 0xffff == sum - 1;
    } else {
      var folded := sum % 0x1_0000 + high;
      assert sum == folded + high * 0xffff;
      FoldIsResidue(folded);
      SameResidue(folded - 1, high);
    }
  }

  lemma SameResidue(x: nat, k: nat)
    ensures (x + k * 0xffff) % 0xffff == x % 0xffff
  {
    ModUnique(x + k * 0xffff, 0xffff, x / 0xffff + k, x % 0xffff);
  }

  function Checksum(data: seq<u8>): (c: u16) {
    0xffff - Fold(WordSum(data))
  }

  lemma {:induction false} WordSumBound(data: seq<u8>)
    ensures 2 * WordSum(data) <= 0xffff * (|data| + 1)
    ensures |data| % 2 == 0 ==> 2 * WordSum(data) <= 0xffff * |data|
  {
    if |data| >= 2 { WordSumBound(data[2..]); }
  }

  lemma {:induction false} WordSumConcat(a: seq<u8>, b: seq<u8>)
    requires |a| % 2 == 0
    ensures WordSum(a + b) == WordSum(a) + WordSum(b)
  {
    if a == [] {
      assert a + b == b;
    } else {
      assert (a + b)[2..] == a[2..] + b;
      WordSumConcat(a[2..], b);
    }
  }

  /**
   `checksum`: the sum over the chunks, the remainder byte, and the folding loop.  Up to so many bytes the `u32`
   accumulator cannot overflow.
   */
  method ChecksumLoop(data: seq<u8>) returns (c: u16)
    requires |data| <= 131_074
    ensures c == Checksum(data)
  {
    var sum: u32 := 0;
    var i := 0;
    WordSumBound(data);
    while i + 2 <= |data|
      invariant 0 <= i <= |data|
      invariant sum + WordSum(data[i..]) == WordSum(data)
    {
      assert data[i..][2..] == data[i + 2..];
      sum := sum + FromBe16(data[i..i + 2]);
      i := i + 2;
    }
    if i < |data| {
      sum := sum + data[i] as int * 0x100;
    }
    assert sum == WordSum(data);
    while sum / 0x1_0000 != 0
      invariant Fold(sum) == Fold(WordSum(data))
      decreases sum
    {
      sum := sum % 0x1_0000 + sum / 0x1_0000;
    }
    return 0xffff - sum;
  }

  /** A checksum verifies iff the words sum to a positive multiple of 65535. */
  lemma ChecksumZeroIff(data: seq<u8>)
    ensures Checksum(data) == 0 <==> WordSum(data) > 0 && WordSum(data) % 0xffff == 0
  {
    var s := WordSum(data);
    FoldIsResidue(s);
    if s > 0 {
      if (s - 1) % 0xffff == 0xfffe {
        ModUnique(s, 0xffff, (s - 1) / 0xffff + 1, 0);
      } else {
        ModUnique(s, 0xffff, (s - 1) / 0xffff, (s - 1) % 0xffff + 1);
      }
    }
  }

  /** Inserting the checksum of the data into a zeroed field at an even offset makes the data verify. */
  lemma InsertedVerifies(before: seq<u8>, after: seq<u8>)
    requires |before| % 2 == 0
    ensures Checksum(before + Be16(Checksum(before + Be16(0) + after)) + after) == 0
  {
    var c := Checksum(before + Be16(0) + after);
    FieldSum(before, 0, after);
    FieldSum(before, c, after);
    var s := WordSum(before + Be16(0) + after);
    FoldIsResidue(s);
    if s > 0 {
      ModUnique(s + c, 0xffff, (s - 1) / 0xffff + 1, 0);
    }
    ChecksumZeroIff(before + Be16(c) + after);
  }

  lemma FieldSum(before: seq<u8>, field: u16, after: seq<u8>)
    requires |before| % 2 == 0
    ensures WordSum(before + Be16(field) + after) == WordSum(before) + field + WordSum(after)
  {
    WordSumConcat(before, Be16(field));
    WordSumConcat(before + Be16(field), after);
    assert WordSum(Be16(field)) == field + WordSum(Be16(field)[2..]);
  }

  /* ----- the SYN packet ----- */

  const PACKET_BYTES: nat := 60
  const PROTOCOL_TCP: u8 := 6

  datatype SynPacket = SynPacket(
    src: u32,
    dst: u32,
    sourcePort: u16,
    destPort: u16,
    sequence: u32,
    mss: u16,
    ttl: u8,
    windowSize: u16,
    windowScale: u8,
    timestamp: u32,
    ipId: u16
  ) {
    /** The IPv4 header up to its checksum field, and from there on. */
    function IpFront(): (b: seq<u8>)
      ensures |b| == 10
    {
      [0x45, 0] + Be16(PACKET_BYTES) + Be16(ipId) + Be16(0x4000) + [ttl, PROTOCOL_TCP]
    }

    function IpBack(): (b: seq<u8>)
      ensures |b| == 8
    {
      Be32(src) + Be32(dst)
    }

    /** The TCP header up to its checksum field, and from there on with the options. */
    function TcpFront(): (b: seq<u8>)
      ensures |b| == 16
    {
      TcpPorts() + [0, 0, 0, 0] + [0xa0, 2] + Be16(windowSize)
    }

    function TcpPorts(): (b: seq<u8>)
      ensures |b| == 8
    {
      Be16(sourcePort) + Be16(destPort) + Be32(sequence)
    }

    function TcpBack(): (b: seq<u8>)
      ensures |b| == 22
    {
      [0, 0] + Options()
    }

    /** MSS, SACK permitted, timestamps, padding, window scale. */
    function Options(): (b: seq<u8>)
      ensures |b| == 20
    {
      [2, 4] + Be16(mss) + [4, 2] + [8, 10] + Be32(timestamp) + [0, 0, 0, 0] + [1] + [3, 3, windowScale]
    }

    function IpHeader(checksum: u16): (b: seq<u8>)
      ensures |b| == 20
    {
      IpFront() + Be16(checksum) + IpBack()
    }

    function TcpSegment(checksum: u16): (b: seq<u8>)
      ensures |b| == 40
    {
      TcpFront() + Be16(checksum) + TcpBack()
    }

    /** The pseudo-header of section 3.1 of RFC 793. */
    function PseudoHeader(): (b: seq<u8>)
      ensures |b| == 12
    {
      Be32(src) + Be32(dst) + [0, PROTOCOL_TCP] + Be16(40)
    }

    function IpChecksum(): u16 { Checksum(IpHeader(0)) }
    function TcpChecksum(): u16 { Checksum(PseudoHeader() + TcpSegment(0)) }

    function Encoded(): (b: seq<u8>)
      ensures |b| == PACKET_BYTES
    {
      IpHeader(IpChecksum()) + TcpSegment(TcpChecksum())
    }
  }

  /** Both checksums of every encoded packet verify. */
  lemma EncodedVerifies(p: SynPacket)
    ensures Checksum(p.Encoded()[..20]) == 0
    ensures Checksum(p.PseudoHeader() + p.Encoded()[20..]) == 0
  {
    InsertedVerifies(p.IpFront(), p.IpBack());
    assert p.Encoded()[..20] == p.IpHeader(p.IpChecksum());
    SegmentVerifies(p.PseudoHeader(), p.TcpFront(), p.TcpBack());
    assert p.Encoded()[20..] == p.TcpSegment(p.TcpChecksum());
  }

  /** The IP header reads back field by field. */
  lemma IpFieldsReadBack(p: SynPacket)
    ensures var b := p.Encoded();
      && b[0] == 0x45 && b[1] == 0
      && FromBe16(b[2..4]) == |b|
      && FromBe16(b[4..6]) == p.ipId
      && FromBe16(b[6..8]) == 0x4000
      && b[8] == p.ttl && b[9] == 6
      && FromBe32(b[12..16]) == p.src && FromBe32(b[16..20]) == p.dst
  {
    var b := p.Encoded();
    assert b[2..4] == Be16(PACKET_BYTES) && b[4..6] == Be16(p.ipId) && b[6..8] == Be16(0x4000);
    assert b[12..16] == Be32(p.src) && b[16..20] == Be32(p.dst);
    Be16RoundTrip(PACKET_BYTES);
    Be16RoundTrip(p.ipId);
    Be16RoundTrip(0x4000);
    Be32RoundTrip(p.src);
    Be32RoundTrip(p.dst);
  }

  /** So does the TCP header: the flags are SYN alone, nothing is acknowledged, and the options fill ten words. */
  lemma TcpFieldsReadBack(p: SynPacket)
    ensures var t := p.Encoded()[20..];
      && FromBe16(t[0..2]) == p.sourcePort && FromBe16(t[2..4]) == p.destPort
      && FromBe32(t[4..8]) == p.sequence && FromBe32(t[8..12]) == 0
      && t[12] / 16 * 4 == |t| && t[12] % 16 == 0
      && t[13] == 0x02
      && FromBe16(t[14..16]) == p.windowSize && FromBe16(t[18..20]) == 0
  {
    var t := p.Encoded()[20..];
    assert t == p.TcpSegment(p.TcpChecksum());
    assert t[0..2] == Be16(p.sourcePort) && t[2..4] == Be16(p.destPort) && t[4..8] == Be32(p.sequence);
    assert t[8..12] == Be32(0) && t[14..16] == Be16(p.windowSize) && t[18..20] == Be16(0);
    Be16RoundTrip(p.sourcePort);
    Be16RoundTrip(p.destPort);
    Be16RoundTrip(p.windowSize);
    Be16RoundTrip(0);
    Be32RoundTrip(p.sequence);
    Be32RoundTrip(0);
  }

  /** And the options: kind and length of each, with maximum segment size, timestamp and window scale. */
  lemma OptionsReadBack(p: SynPacket)
    ensures var o := p.Encoded()[40..];
      && o[0] == 2 && o[1] == 4 && FromBe16(o[2..4]) == p.mss
      && o[4] == 4 && o[5] == 2
      && o[6] == 8 && o[7] == 10 && FromBe32(o[8..12]) == p.timestamp && FromBe32(o[12..16]) == 0
      && o[16] == 1
      && o[17] == 3 && o[18] == 3 && o[19] == p.windowScale
  {
    var o := p.Encoded()[40..];
    assert o == p.Options();
    assert o[2..4] == Be16(p.mss) && o[8..12] == Be32(p.timestamp) && o[12..16] == Be32(0);
    Be16RoundTrip(p.mss);
    Be32RoundTrip(p.timestamp);
    Be32RoundTrip(0);
  }

  lemma SegmentVerifies(pseudo: seq<u8>, front: seq<u8>, back: seq<u8>)
    requires |pseudo| % 2 == 0 && |front| % 2 == 0
    ensures Checksum(pseudo + (front + Be16(Checksum(pseudo + (front + Be16(0) + back))) + back)) == 0
  {
    var c := Checksum(pseudo + (front + Be16(0) + back));
    assert pseudo + (front + Be16(0) + back) == pseudo + front + Be16(0) + back;
    assert pseudo + (front + Be16(c) + back) == pseudo + front + Be16(c) + back;
    InsertedVerifies(pseudo + front, back);
  }

  /** `p[at..].copy_from_slice(bytes)`. */
  method CopyInto(p: array<u8>, at: nat, bytes: seq<u8>)
    requires at + |bytes| <= p.Length
    modifies p
    ensures p[..] == Overwrite(old(p[..]), at, bytes)
  {
    for i := 0 to |bytes|
      invariant p[..] == Overwrite(old(p[..]), at, bytes[..i])
    {
      OverwriteStep(old(p[..]), at, bytes, i);
      p[at + i] := bytes[i];
    }
    assert bytes[..|bytes|] == bytes;
  }

  lemma OverwriteStep(data: seq<u8>, at: nat, bytes: seq<u8>, i: nat)
    requires at + |bytes| <= |data| && i < |bytes|
    ensures Overwrite(data, at, bytes[..i + 1]) == Overwrite(data, at, bytes[..i])[at + i := bytes[i]]
  {
  }

  function Overwrite(data: seq<u8>, at: nat, bytes: seq<u8>): (r: seq<u8>)
    requires at + |bytes| <= |data|
    ensures |r| == |data|
  {
    data[..at] + bytes + data[at + |bytes|..]
  }

  /** The buffer once its first bytes are written. */
  function Padded(done: seq<u8>): (r: seq<u8>)
    requires |done| <= PACKET_BYTES
    ensures |r| == PACKET_BYTES
  {
    done + seq(PACKET_BYTES - |done|, _ => 0)
  }

  lemma PaddedZero(done: seq<u8>, gap: nat)
    requires |done| + gap <= PACKET_BYTES
    ensures Padded(done + seq(gap, _ => 0)) == Padded(done)
  {
  }

  lemma OverwritePadded(done: seq<u8>, bytes: seq<u8>)
    requires |done| + |bytes| <= PACKET_BYTES
    ensures Overwrite(Padded(done), |done|, bytes) == Padded(done + bytes)
  {
  }

  lemma OverwriteMiddle(front: seq<u8>, field: seq<u8>, back: seq<u8>, bytes: seq<u8>)
    requires |field| == |bytes| && |front| + |field| + |back| <= PACKET_BYTES
    ensures Overwrite(Padded(front + field + back), |front|, bytes) == Padded(front + bytes + back)
  {
  }

  /** One write past what is written; the bytes in between stay zero. */
  method WriteAt(p: array<u8>, at: nat, bytes: seq<u8>, ghost done: seq<u8>) returns (ghost done': seq<u8>)
    requires |done| <= at && at + |bytes| <= PACKET_BYTES
    requires p[..] == Padded(done)
    modifies p
    ensures done' == done + seq(at - |done|, _ => 0) + bytes && p[..] == Padded(done')
  {
    PaddedZero(done, at - |done|);
    done' := done + seq(at - |done|, _ => 0);
    OverwritePadded(done', bytes);
    CopyInto(p, at, bytes);
    done' := done' + bytes;
  }

  /** `encode`: a zeroed buffer, the IPv4 header and its checksum, the TCP segment and its checksum. */
  method Encode(s: SynPacket) returns (p: array<u8>)
    ensures fresh(p) && p[..] == s.Encoded()
  {
    p := new u8[PACKET_BYTES](_ => 0);
    assert p[..] == Padded([]);
    WriteIpHeader(s, p);
    WriteTcpFields(s, p, s.IpHeader(s.IpChecksum()));
    WriteTcpChecksum(s, p, s.IpHeader(s.IpChecksum()));
    assert p[..] == s.Encoded();
  }

  method WriteIpHeader(s: SynPacket, p: array<u8>)
    requires p[..] == Padded([])
    modifies p
    ensures p[..] == Padded(s.IpHeader(s.IpChecksum()))
  {
    WriteIpFields(s, p);
    assert p[..20] == p[..][..20] == s.IpHeader(0);
    var checksum := ChecksumLoop(p[..20]);
    OverwriteMiddle(s.IpFront(), Be16(0), s.IpBack(), Be16(checksum));
    CopyInto(p, 10, Be16(checksum));
  }

  method WriteIpFields(s: SynPacket, p: array<u8>)
    requires p[..] == Padded([])
    modifies p
    ensures p[..] == Padded(s.IpHeader(0))
  {
    WriteIpFront(s, p);
    ghost var done := WriteAt(p, 12, Be32(s.src), s.IpFront());
    done := WriteAt(p, 16, Be32(s.dst), done);
    assert done == s.IpHeader(0);
  }

  method WriteIpFront(s: SynPacket, p: array<u8>)
    requires p[..] == Padded([])
    modifies p
    ensures p[..] == Padded(s.IpFront())
  {
    ghost var done := WriteAt(p, 0, [0x45], []);
    done := WriteAt(p, 2, Be16(PACKET_BYTES), done);
    done := WriteAt(p, 4, Be16(s.ipId), done);
    done := WriteAt(p, 6, Be16(0x4000), done);
    done := WriteAt(p, 8, [s.ttl], done);
    done := WriteAt(p, 9, [PROTOCOL_TCP], done);
    assert done == s.IpFront();
  }

  method WriteTcpFields(s: SynPacket, p: array<u8>, ghost ip: seq<u8>)
    requires |ip| == 20 && p[..] == Padded(ip)
    modifies p
    ensures p[..] == Padded(ip + s.TcpSegment(0))
  {
    WriteTcpPorts(s, p, ip);
    WriteTcpFront(s, p, ip);
    ghost var done := WriteAt(p, 40, s.Options(), ip + s.TcpFront());
    assert done == ip + s.TcpSegment(0);
  }

  /** Ports and sequence number. */
  method WriteTcpPorts(s: SynPacket, p: array<u8>, ghost ip: seq<u8>)
    requires |ip| == 20 && p[..] == Padded(ip)
    modifies p
    ensures p[..] == Padded(ip + s.TcpPorts())
  {
    ghost var done := WriteAt(p, 20, Be16(s.sourcePort), ip);
    done := WriteAt(p, 22, Be16(s.destPort), done);
    done := WriteAt(p, 24, Be32(s.sequence), done);
    assert done == ip + s.TcpPorts();
  }

  /** Header length, flags and window. */
  method WriteTcpFront(s: SynPacket, p: array<u8>, ghost ip: seq<u8>)
    requires |ip| == 20 && p[..] == Padded(ip + s.TcpPorts())
    modifies p
    ensures p[..] == Padded(ip + s.TcpFront())
  {
    ghost var done := WriteAt(p, 32, [(20 + |s.Options()|) / 4 * 0x10], ip + s.TcpPorts());
    done := WriteAt(p, 33, [2], done);
    done := WriteAt(p, 34, Be16(s.windowSize), done);
    assert done == ip + s.TcpFront();
  }

  method WriteTcpChecksum(s: SynPacket, p: array<u8>, ghost ip: seq<u8>)
    requires |ip| == 20 && p[..] == Padded(ip + s.TcpSegment(0))
    modifies p
    ensures p[..] == Padded(ip + s.TcpSegment(s.TcpChecksum()))
  {
    var pseudo := Be32(s.src) + Be32(s.dst);
    pseudo := pseudo + [0, PROTOCOL_TCP];
    pseudo := pseudo + Be16(PACKET_BYTES - 20);
    assert p[20..] == p[..][20..] == s.TcpSegment(0);
    pseudo := pseudo + p[20..];
    var checksum := ChecksumLoop(pseudo);
    TcpField(s, ip, checksum);
    CopyInto(p, 36, Be16(checksum));
  }

  lemma TcpField(s: SynPacket, ip: seq<u8>, checksum: u16)
    requires |ip| == 20
    ensures Overwrite(Padded(ip + s.TcpSegment(0)), 36, Be16(checksum)) == Padded(ip + s.TcpSegment(checksum))
  {
    var front := ip + s.TcpFront();
    assert ip + s.TcpSegment(0) == front + Be16(0) + s.TcpBack();
    assert ip + s.TcpSegment(checksum) == front + Be16(checksum) + s.TcpBack();
    OverwriteMiddle(front, Be16(0), s.TcpBack(), Be16(checksum));
  }
}
