/** Building probes and recognising their quotes in ICMP errors: crates/packet/src/lib.rs.
    Addresses are byte strings of 4 or 16 octets. */
module Packet {
  import opened Checksum

  type Ipv4 = a: seq<byte> | |a| == 4 witness [0, 0, 0, 0]
  type Ipv6 = a: seq<byte> | |a| == 16 witness [0, 0, 0, 0, 0, 0, 0, 0, 0, 0, 0, 0, 0, 0, 0, 0]
  type u16 = x: nat | x <= 0xffff
  type u32 = x: nat | x <= 0xffff_ffff

  // ---------------------------------------------------------------------------------------
  // Builders
  // ---------------------------------------------------------------------------------------

  /** An echo request with a zero checksum field. */
  function Echo(kind: byte, identifier: u16, sequence: u16, payload: seq<byte>): seq<byte> {
    [kind, 0, 0, 0] + Be16(identifier) + Be16(sequence) + payload
  }

  function PseudoV4(source: Ipv4, destination: Ipv4, protocol: byte, length: nat): (r: seq<byte>)
    ensures |r| == 12
  {
    source + destination + [0, protocol] + Be16(length % 0x1_0000)
  }

  function PseudoV6(source: Ipv6, destination: Ipv6, protocol: byte, length: nat): (r: seq<byte>)
    ensures |r| == 40
  {
    source + destination + Be32(length % 0x1_0000_0000) + [0, 0, 0, protocol]
  }

  function TransportChecksumV4(source: Ipv4, destination: Ipv4, protocol: byte, segment: seq<byte>): (c: u16) {
    Of(PseudoV4(source, destination, protocol, |segment|) + segment)
  }

  function TransportChecksumV6(source: Ipv6, destination: Ipv6, protocol: byte, segment: seq<byte>): (c: u16) {
    Of(PseudoV6(source, destination, protocol, |segment|) + segment)
  }

  method BuildIcmpV4Echo(identifier: u16, sequence: u16, payload: seq<byte>) returns (packet: seq<byte>)
    ensures packet == Put16(Echo(8, identifier, sequence, payload), 2, Of(Echo(8, identifier, sequence, payload)))
    ensures |packet| == 8 + |payload|
    ensures packet[..2] == [8, 0] && packet[4..] == Be16(identifier) + Be16(sequence) + payload
    ensures Of(packet) == 0
  {
    packet := [8, 0, 0, 0];
    packet := packet + Be16(identifier);
    packet := packet + Be16(sequence);
    packet := packet + payload;
    ChecksumVerifies(packet, 2);
    var checksum := InternetChecksum(packet);
    packet := Put16(packet, 2, checksum);
  }

  method BuildIcmpV6Echo(source: Ipv6, destination: Ipv6, identifier: u16, sequence: u16, payload: seq<byte>)
    returns (packet: seq<byte>)
    ensures |packet| == 8 + |payload|
    ensures packet[..2] == [128, 0] && packet[4..] == Be16(identifier) + Be16(sequence) + payload
    ensures TransportChecksumV6(source, destination, 58, packet) == 0
  {
    packet := [128, 0, 0, 0];
    packet := packet + Be16(identifier);
    packet := packet + Be16(sequence);
    packet := packet + payload;
    var pseudo := PseudoV6(source, destination, 58, |packet|);
    var input := pseudo + packet;
    var checksum := InternetChecksum(input);
    ChecksumVerifies(input, 42);
    ghost var before := packet;
    packet := Put16(packet, 2, checksum);
    assert pseudo + packet == Put16(input, 42, checksum);
  }

  datatype SynSpec = SynSpec(
    sourcePort: u16, destinationPort: u16, sequence: u32, hopLimit: byte, trafficClass: byte, dontFragment: bool)

  /** The 20 bytes of a SYN segment; `checksum` is the content of its checksum field. */
  function SynSegment(s: SynSpec, checksum: u16): (r: seq<byte>)
    ensures |r| == 20
  {
    Be16(s.sourcePort) + Be16(s.destinationPort) + Be32(s.sequence) + [0, 0, 0, 0, 0x50, 0x02]
    + Be16(64240) + Be16(checksum) + [0, 0]
  }

  function Ipv4Header(source: Ipv4, destination: Ipv4, s: SynSpec, checksum: u16): (r: seq<byte>)
    ensures |r| == 20
  {
    Ipv4Fields(s, checksum) + source + destination
  }

  function Ipv6Header(source: Ipv6, destination: Ipv6, s: SynSpec): (r: seq<byte>)
    ensures |r| == 40
  {
    [0x60 + s.trafficClass / 16, s.trafficClass * 16 % 256, 0, 0] + Be16(20) + [6, s.hopLimit] + source + destination
  }

  /** A SYN as sent: header and segment each with the checksum of its zeroed form. */
  function SynV4(source: Ipv4, destination: Ipv4, s: SynSpec): (r: seq<byte>)
    ensures |r| == 40
  {
    Ipv4Header(source, destination, s, Of(Ipv4Header(source, destination, s, 0)))
    + SynSegment(s, TransportChecksumV4(source, destination, 6, SynSegment(s, 0)))
  }

  function SynV6(source: Ipv6, destination: Ipv6, s: SynSpec): (r: seq<byte>)
    ensures |r| == 60
  {
    Ipv6Header(source, destination, s) + SynSegment(s, TransportChecksumV6(source, destination, 6, SynSegment(s, 0)))
  }

  /** packet[at..at + |bytes|].copy_from_slice(bytes) */
  method CopyAt(packet: array<byte>, at: nat, bytes: seq<byte>)
    requires at + |bytes| <= packet.Length
    modifies packet
    ensures forall i :: 0 <= i < packet.Length ==>
              packet[i] == if at <= i < at + |bytes| then bytes[i - at] else old(packet[i])
  {
    for n := 0 to |bytes|
      invariant forall i :: 0 <= i < packet.Length ==>
                  packet[i] == if at <= i < at + n then bytes[i - at] else old(packet[i])
    {
      packet[at + n] := bytes[n];
    }
  }

  /** The TCP part both builders write into a zeroed buffer. */
  method WriteSegment(packet: array<byte>, at: nat, s: SynSpec)
    requires at + 20 == packet.Length && forall i :: at <= i < packet.Length ==> packet[i] == 0
    modifies packet
    ensures packet[at..] == SynSegment(s, 0) && packet[..at] == old(packet[..at])
  {
    CopyAt(packet, at, Be16(s.sourcePort));
    CopyAt(packet, at + 2, Be16(s.destinationPort));
    CopyAt(packet, at + 4, Be32(s.sequence));
    packet[at + 12] := 0x50;
    packet[at + 13] := 0x02;
    CopyAt(packet, at + 14, Be16(64240));
    assert packet[at..] == SynSegment(s, 0);
  }

  /** The first half of the IPv4 header: everything but the addresses. */
  function Ipv4Fields(s: SynSpec, checksum: u16): (r: seq<byte>)
    ensures |r| == 12
  {
    [0x45, s.trafficClass] + Be16(40) + Be16(s.sequence % 0x1_0000) + Be16(if s.dontFragment then 0x4000 else 0)
    + [s.hopLimit, 6] + Be16(checksum)
  }

  method WriteIpv4Fields(packet: array<byte>, s: SynSpec)
    requires packet.Length == 40 && forall i :: 0 <= i < 40 ==> packet[i] == 0
    modifies packet
    ensures packet[..12] == Ipv4Fields(s, 0)
    ensures forall i :: 12 <= i < 40 ==> packet[i] == 0
  {
    packet[0] := 0x45;
    packet[1] := s.trafficClass;
    CopyAt(packet, 2, Be16(40));
    CopyAt(packet, 4, Be16(s.sequence % 0x1_0000));
    if s.dontFragment {
      CopyAt(packet, 6, Be16(0x4000));
    }
    packet[8] := s.hopLimit;
    packet[9] := 6;
  }

  method WriteIpv4Header(packet: array<byte>, source: Ipv4, destination: Ipv4, s: SynSpec)
    requires packet.Length == 40 && forall i :: 0 <= i < 40 ==> packet[i] == 0
    modifies packet
    ensures packet[..20] == Ipv4Header(source, destination, s, 0)
    ensures forall i :: 20 <= i < 40 ==> packet[i] == 0
  {
    WriteIpv4Fields(packet, s);
    ghost var fields := packet[..12];
    CopyAt(packet, 12, source);
    assert packet[..12] == fields && packet[12..16] == source;
    CopyAt(packet, 16, destination);
    assert packet[..12] == fields && packet[12..16] == source && packet[16..20] == destination;
    assert packet[..20] == packet[..12] + packet[12..16] + packet[16..20];
  }

  /** packet[at..at + 2].copy_from_slice(&checksum.to_be_bytes()) */
  method WriteChecksum(packet: array<byte>, at: nat, checksum: u16)
    requires at + 2 <= packet.Length
    modifies packet
    ensures packet[..] == Put16(old(packet[..]), at, checksum)
  {
    ghost var before := packet[..];
    CopyAt(packet, at, Be16(checksum));
    assert packet[..at] == before[..at] && packet[at..at + 2] == Be16(checksum) && packet[at + 2..] == before[at + 2..];
    assert packet[..] == packet[..at] + packet[at..at + 2] + packet[at + 2..];
  }

  method BuildTcpSynV4(source: Ipv4, destination: Ipv4, s: SynSpec) returns (packet: array<byte>)
    ensures packet[..] == SynV4(source, destination, s)
  {
    packet := new byte[40](_ => 0);
    WriteIpv4Header(packet, source, destination, s);
    WriteSegment(packet, 20, s);
    ghost var header := Ipv4Header(source, destination, s, 0);
    var tcpChecksum := TransportChecksumV4(source, destination, 6, packet[20..]);
    assert packet[..] == header + SynSegment(s, 0);
    WriteChecksum(packet, 36, tcpChecksum);
    PutSegmentChecksum(s, header, tcpChecksum);
    ghost var segment := SynSegment(s, tcpChecksum);
    assert packet[..] == header + segment;
    assert packet[..20] == header;
    var ipChecksum := InternetChecksum(packet[..20]);
    WriteChecksum(packet, 10, ipChecksum);
    PutHeaderChecksum(source, destination, s, segment, ipChecksum);
  }

  lemma PutHeaderChecksum(source: Ipv4, destination: Ipv4, s: SynSpec, rest: seq<byte>, checksum: u16)
    ensures Put16(Ipv4Header(source, destination, s, 0) + rest, 10, checksum)
            == Ipv4Header(source, destination, s, checksum) + rest
  {
    var head := Ipv4Fields(s, 0)[..10];
    var tail := source + destination + rest;
    assert Ipv4Fields(s, 0) == head + Be16(0) && Ipv4Fields(s, checksum) == head + Be16(checksum);
    assert Ipv4Header(source, destination, s, 0) + rest == head + Be16(0) + tail;
    assert Ipv4Header(source, destination, s, checksum) + rest == head + Be16(checksum) + tail;
    PutBetween(head, tail, checksum);
  }

  lemma PutBetween(head: seq<byte>, tail: seq<byte>, x: u16)
    ensures Put16(head + Be16(0) + tail, |head|, x) == head + Be16(x) + tail
  {
    var bytes := head + Be16(0) + tail;
    assert bytes[..|head|] == head && bytes[|head| + 2..] == tail;
  }

  method BuildTcpSynV6(source: Ipv6, destination: Ipv6, s: SynSpec) returns (packet: array<byte>)
    ensures packet[..] == SynV6(source, destination, s)
  {
    packet := new byte[60](_ => 0);
    packet[0] := 0x60 + s.trafficClass / 16;
    packet[1] := s.trafficClass * 16 % 256;
    CopyAt(packet, 4, Be16(20));
    packet[6] := 6;
    packet[7] := s.hopLimit;
    CopyAt(packet, 8, source);
    CopyAt(packet, 24, destination);
    WriteSegment(packet, 40, s);
    assert packet[..40] == Ipv6Header(source, destination, s);
    var checksum := TransportChecksumV6(source, destination, 6, packet[40..]);
    assert packet[..] == Ipv6Header(source, destination, s) + SynSegment(s, 0);
    WriteChecksum(packet, 56, checksum);
    PutSegmentChecksum(s, Ipv6Header(source, destination, s), checksum);
  }

  // ---------------------------------------------------------------------------------------
  // A receiver's checks succeed
  // ---------------------------------------------------------------------------------------

  lemma PutSegmentChecksum(s: SynSpec, prefix: seq<byte>, checksum: u16)
    requires |prefix| % 2 == 0
    ensures var input := prefix + SynSegment(s, 0);
            && input[|prefix| + 16] == 0 == input[|prefix| + 17]
            && prefix + SynSegment(s, checksum) == Put16(input, |prefix| + 16, checksum)
  {
    var head, tail := prefix + SynSegment(s, 0)[..16], [0 as byte, 0];
    assert prefix + SynSegment(s, 0) == head + Be16(0) + tail;
    assert prefix + SynSegment(s, checksum) == head + Be16(checksum) + tail;
    PutBetween(head, tail, checksum);
  }

  /** Both checksums of a built IPv4 SYN verify. */
  lemma SynV4Verifies(source: Ipv4, destination: Ipv4, s: SynSpec)
    ensures var packet := SynV4(source, destination, s);
            Of(packet[..20]) == 0 && TransportChecksumV4(source, destination, 6, packet[20..]) == 0
  {
    var packet := SynV4(source, destination, s);
    var header, segment := Ipv4Header(source, destination, s, 0), SynSegment(s, 0);
    ChecksumVerifies(header, 10);
    var sent := Ipv4Header(source, destination, s, Of(header));
    assert header + [] == header && sent + [] == sent;
    PutHeaderChecksum(source, destination, s, [], Of(header));
    assert packet[..20] == sent;
    var pseudo := PseudoV4(source, destination, 6, 20);
    PutSegmentChecksum(s, pseudo, Of(pseudo + segment));
    ChecksumVerifies(pseudo + segment, 28);
    assert packet[20..] == SynSegment(s, Of(pseudo + segment));
  }

  /** The checksum of a built IPv6 SYN verifies. */
  lemma SynV6Verifies(source: Ipv6, destination: Ipv6, s: SynSpec)
    ensures TransportChecksumV6(source, destination, 6, SynV6(source, destination, s)[40..]) == 0
  {
    var packet, segment := SynV6(source, destination, s), SynSegment(s, 0);
    var pseudo := PseudoV6(source, destination, 6, 20);
    PutSegmentChecksum(s, pseudo, Of(pseudo + segment));
    ChecksumVerifies(pseudo + segment, 56);
    assert packet[40..] == SynSegment(s, Of(pseudo + segment));
  }

  // ---------------------------------------------------------------------------------------
  // The fields of what is sent
  // ---------------------------------------------------------------------------------------

  /** The fields of a SYN segment (section 3.1 of RFC 9293): ports, sequence and acknowledgement numbers, data
      offset, flags, window and urgent pointer. */
  predicate SegmentLayout(b: seq<byte>, s: SynSpec) {
    && |b| == 20
    && b[0..2] == Be16(s.sourcePort) && b[2..4] == Be16(s.destinationPort)
    && b[4..8] == Be32(s.sequence) && b[8..12] == Be32(0)
    && b[12] == 5 * 16 && b[13] == 2 && b[14..16] == Be16(64240)
    && b[18..20] == Be16(0)
  }

  lemma SegmentHasLayout(s: SynSpec, checksum: u16)
    ensures SegmentLayout(SynSegment(s, checksum), s)
  {
    assert Be32(0) == [0, 0, 0, 0] && Be16(0) == [0, 0];
  }

  /** The fields of an IPv4 header without options (section 3.1 of RFC 791), apart from its checksum. */
  predicate HeaderV4Layout(b: seq<byte>, source: Ipv4, destination: Ipv4, s: SynSpec) {
    && |b| == 20
    && b[0] == 4 * 16 + 5 && b[1] == s.trafficClass
    && b[2..4] == Be16(40) && b[4..6] == Be16(s.sequence % 65536)
    && b[6..8] == Be16(if s.dontFragment then 0x4000 else 0)
    && b[8] == s.hopLimit && b[9] == 6
    && b[12..16] == source && b[16..20] == destination
  }

  lemma HeaderV4HasLayout(source: Ipv4, destination: Ipv4, s: SynSpec, checksum: u16)
    ensures HeaderV4Layout(Ipv4Header(source, destination, s, checksum), source, destination, s)
  {
    var f, h := Ipv4Fields(s, checksum), Ipv4Header(source, destination, s, checksum);
    assert h[..12] == f;
    assert f[2..4] == h[2..4] && f[4..6] == h[4..6] && f[6..8] == h[6..8];
  }

  /** A built IPv4 SYN has these fields. */
  lemma SynV4Layout(source: Ipv4, destination: Ipv4, s: SynSpec)
    ensures var p := SynV4(source, destination, s);
            HeaderV4Layout(p[..20], source, destination, s) && SegmentLayout(p[20..], s)
  {
    var checksum := Of(Ipv4Header(source, destination, s, 0));
    var tcpChecksum := TransportChecksumV4(source, destination, 6, SynSegment(s, 0));
    HeaderV4HasLayout(source, destination, s, checksum);
    SegmentHasLayout(s, tcpChecksum);
    Halves(Ipv4Header(source, destination, s, checksum), SynSegment(s, tcpChecksum));
  }

  lemma Halves(a: seq<byte>, b: seq<byte>)
    ensures (a + b)[..|a|] == a && (a + b)[|a|..] == b
  {
  }

  /** The fields of an IPv6 header (section 3 of RFC 8200). */
  predicate HeaderV6Layout(b: seq<byte>, source: Ipv6, destination: Ipv6, s: SynSpec) {
    && |b| == 40
    && b[0] / 16 == 6 && b[0] % 16 * 16 + b[1] / 16 == s.trafficClass
    && b[1] % 16 == 0 && b[2] == 0 && b[3] == 0
    && b[4..6] == Be16(20) && b[6] == 6 && b[7] == s.hopLimit
    && b[8..24] == source && b[24..40] == destination
  }

  lemma HeaderV6HasLayout(source: Ipv6, destination: Ipv6, s: SynSpec)
    ensures HeaderV6Layout(Ipv6Header(source, destination, s), source, destination, s)
  {
    var h := Ipv6Header(source, destination, s);
    assert h[4..6] == Be16(20);
    assert h[8..24] == source && h[24..40] == destination;
    TrafficClass(s.trafficClass);
  }

  lemma TrafficClass(c: byte)
    ensures (0x60 + c / 16) / 16 == 6 && (0x60 + c / 16) % 16 == c / 16
    ensures c * 16 % 256 == c % 16 * 16
    ensures (0x60 + c / 16) % 16 * 16 + c * 16 % 256 / 16 == c && c * 16 % 256 % 16 == 0
  {
  }

  /** A built IPv6 SYN has these fields. */
  lemma SynV6Layout(source: Ipv6, destination: Ipv6, s: SynSpec)
    ensures var p := SynV6(source, destination, s);
            HeaderV6Layout(p[..40], source, destination, s) && SegmentLayout(p[40..], s)
  {
    var checksum := TransportChecksumV6(source, destination, 6, SynSegment(s, 0));
    HeaderV6HasLayout(source, destination, s);
    SegmentHasLayout(s, checksum);
    Halves(Ipv6Header(source, destination, s), SynSegment(s, checksum));
  }

  /** The pseudo-header of section 3.1 of RFC 9293. */
  lemma PseudoV4Layout(source: Ipv4, destination: Ipv4, protocol: byte, length: u16)
    ensures var p := PseudoV4(source, destination, protocol, length);
            && p[0..4] == source && p[4..8] == destination
            && p[8] == 0 && p[9] == protocol && p[10..12] == Be16(length)
  {
    assert length % 0x1_0000 == length;
  }

  /** The pseudo-header of section 8.1 of RFC 8200. */
  lemma PseudoV6Layout(source: Ipv6, destination: Ipv6, protocol: byte, length: u32)
    ensures var p := PseudoV6(source, destination, protocol, length);
            && p[0..16] == source && p[16..32] == destination && p[32..36] == Be32(length)
            && p[36..39] == [0, 0, 0] && p[39] == protocol
  {
    assert length % 0x1_0000_0000 == length;
  }
}
