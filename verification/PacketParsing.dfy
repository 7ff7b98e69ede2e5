/** Decoding ICMP responses and correlating them with probes: crates/packet/src/lib.rs. */
module PacketParsing {
  import opened Common
  import opened Checksum
  import opened Packet

  datatype Family = V4 | V6

  datatype Transport = Icmp | Udp | Tcp

  datatype ProbeKey = ProbeKey(
    family: Family, protocol: Transport, identifier: Option<nat>, sequence: Option<nat>,
    sourcePort: Option<nat>, destinationPort: Option<nat>, transportSequence: Option<nat>)

  datatype Kind = EchoReply | TimeExceeded | DestinationUnreachable | PacketTooBig | ParameterProblem | Other

  datatype Parsed = Parsed(
    family: Family, source: Option<seq<byte>>, kind: Kind, code: byte,
    echoedIdentifier: Option<nat>, echoedSequence: Option<nat>, quoted: Option<ProbeKey>, nextHopMtu: Option<nat>)

  datatype Error = Truncated(needed: nat) | UnsupportedVersion | NotIcmp | Malformed

  // ---------------------------------------------------------------------------------------
  // IPv6 extension headers
  // ---------------------------------------------------------------------------------------

  const MAX_EXTENSION_STEPS := 16

  predicate IsExtension(next: byte) {
    next == 0 || next == 43 || next == 60 || next == 44 || next == 51
  }

  /** The length of the extension header of type `next` at `offset`. */
  function ExtensionLength(bytes: seq<byte>, next: byte, offset: nat): Result<nat, Error>
    requires IsExtension(next)
  {
    if next == 44 then
      if |bytes| < offset + 8 then Err(Truncated(offset + 8))
      else if U16(bytes[offset + 2], bytes[offset + 3]) >= 8 then Err(Malformed)
      else Ok(8)
    else if |bytes| < offset + 2 then Err(Truncated(offset + 2))
    else if next == 51 then Ok((bytes[offset + 1] as nat + 2) * 4)
    else Ok((bytes[offset + 1] as nat + 1) * 8)
  }

  /** The traversal with `steps` loop iterations left: final protocol and transport offset. */
  function Walk(bytes: seq<byte>, next: byte, offset: nat, steps: nat): Result<(byte, nat), Error>
    decreases steps
  {
    if steps == 0 then Err(Malformed)
    else if !IsExtension(next) then Ok((next, offset))
    else
      match ExtensionLength(bytes, next, offset)
      case Err(e) => Err(e)
      case Ok(length) =>
        if |bytes| < offset + length then Err(Truncated(offset + length))
        else Walk(bytes, bytes[offset], offset + length, steps - 1)
  }

  function Ipv6Transport(bytes: seq<byte>): Result<(byte, nat), Error> {
    if |bytes| < 40 then Err(Truncated(40)) else Walk(bytes, bytes[6], 40, MAX_EXTENSION_STEPS)
  }

  /** The loop of ipv6_transport. */
  method WalkExtensions(bytes: seq<byte>) returns (r: Result<(byte, nat), Error>)
    ensures r == Ipv6Transport(bytes)
  {
    if |bytes| < 40 {
      return Err(Truncated(40));
    }
    var next := bytes[6];
    var offset: nat := 40;
    for i := 0 to MAX_EXTENSION_STEPS
      invariant Ipv6Transport(bytes) == Walk(bytes, next, offset, MAX_EXTENSION_STEPS - i)
    {
      if !IsExtension(next) {
        return Ok((next, offset));
      }
      var length := ExtensionLength(bytes, next, offset);
      if length.Err? {
        return Err(length.error);
      }
      if |bytes| < offset + length.value {
        return Err(Truncated(offset + length.value));
      }
      next := bytes[offset];
      offset := offset + length.value;
    }
    r := Err(Malformed);
  }

  /** An extension header as section 4 of RFC 8200 writes it, without its next-header byte. */
  datatype Extension = Extension(kind: byte, body: seq<byte>)

  predicate WellFormed(e: Extension) {
    && IsExtension(e.kind)
    && |e.body| >= 1
    && (e.kind == 44 ==> |e.body| == 7 && U16(e.body[1], e.body[2]) < 8)
    && (e.kind == 51 ==> |e.body| + 1 == (e.body[0] as nat + 2) * 4)
    && (e.kind != 44 && e.kind != 51 ==> |e.body| + 1 == (e.body[0] as nat + 1) * 8)
  }

  function FirstType(chain: seq<Extension>, final: byte): byte {
    if chain == [] then final else chain[0].kind
  }

  /** A chain of extension headers that ends in the transport protocol `final`. */
  function Encode(chain: seq<Extension>, final: byte): seq<byte> {
    if chain == [] then [] else [FirstType(chain[1..], final)] + chain[0].body + Encode(chain[1..], final)
  }

  /** One well-formed extension header is measured as written. */
  lemma HeaderLength(before: seq<byte>, e: Extension, next: byte, after: seq<byte>)
    requires WellFormed(e)
    ensures var bytes := before + ([next] + e.body) + after;
            && ExtensionLength(bytes, e.kind, |before|) == Ok(1 + |e.body|)
            && |before| + 1 + |e.body| <= |bytes| && bytes[|before|] == next
  {
    var header := [next] + e.body;
    var bytes := before + header + after;
    assert forall k :: 0 <= k < |header| ==> bytes[|before| + k] == header[k];
  }

  lemma Regroup(before: seq<byte>, header: seq<byte>, rest: seq<byte>, payload: seq<byte>)
    ensures before + (header + rest) + payload == (before + header) + rest + payload
    ensures (before + header) + rest + payload == before + header + (rest + payload)
  {
  }

  /** One step over an extension header. */
  lemma WalkStep(bytes: seq<byte>, kind: byte, offset: nat, steps: nat, length: nat, next: byte)
    requires steps > 0 && IsExtension(kind) && ExtensionLength(bytes, kind, offset) == Ok(length)
    requires offset < |bytes| && offset + length <= |bytes| && bytes[offset] == next
    ensures Walk(bytes, kind, offset, steps) == Walk(bytes, next, offset + length, steps - 1)
  {
  }

  lemma EncodedStep(
    before: seq<byte>, header: seq<byte>, chain: seq<Extension>, final: byte, payload: seq<byte>, steps: nat)
    requires chain != [] && steps > 0 && WellFormed(chain[0])
    requires header == [FirstType(chain[1..], final)] + chain[0].body
    ensures Walk(before + Encode(chain, final) + payload, FirstType(chain, final), |before|, steps)
            == Walk(before + header + Encode(chain[1..], final) + payload, FirstType(chain[1..], final),
                    |before + header|, steps - 1)
    ensures |before| + |Encode(chain, final)| == |before + header| + |Encode(chain[1..], final)|
  {
    var next, rest := FirstType(chain[1..], final), Encode(chain[1..], final);
    var bytes := before + header + (rest + payload);
    assert Encode(chain, final) == header + rest;
    assert before + Encode(chain, final) + payload == bytes && before + header + rest + payload == bytes by {
      Regroup(before, header, rest, payload);
    }
    HeaderLength(before, chain[0], next, rest + payload);
    WalkStep(bytes, chain[0].kind, |before|, steps, |header|, next);
  }

  predicate AllWellFormed(chain: seq<Extension>) {
    chain == [] || (WellFormed(chain[0]) && AllWellFormed(chain[1..]))
  }

  /** The traversal finds the transport behind every well-formed chain that its step limit admits, and
      refuses every longer one. */
  lemma {:induction false} WalkEncoded(
    before: seq<byte>, chain: seq<Extension>, final: byte, payload: seq<byte>, steps: nat)
    requires AllWellFormed(chain) && !IsExtension(final)
    ensures Walk(before + Encode(chain, final) + payload, FirstType(chain, final), |before|, steps)
            == if |chain| < steps then Ok((final, |before| + |Encode(chain, final)|)) else Err(Malformed)
    decreases |chain|
  {
    if chain != [] && steps > 0 {
      var header := [FirstType(chain[1..], final)] + chain[0].body;
      EncodedStep(before, header, chain, final, payload, steps);
      WalkEncoded(before + header, chain[1..], final, payload, steps - 1);
    }
  }

  /** Behind sixteen or more extension headers nothing is found. */
  lemma LongChainIsRefused(header: seq<byte>, chain: seq<Extension>, final: byte, payload: seq<byte>)
    requires |header| == 40 && header[6] == FirstType(chain, final)
    requires AllWellFormed(chain) && !IsExtension(final) && |chain| >= 16
    ensures Ipv6Transport(header + Encode(chain, final) + payload) == Err(Malformed)
  {
    WalkEncoded(header, chain, final, payload, MAX_EXTENSION_STEPS);
    assert (header + Encode(chain, final) + payload)[6] == header[6];
  }

  /** Nor behind a fragment header (section 4.5 of RFC 8200) of a fragment that is not the first. */
  lemma LaterFragmentIsRefused(bytes: seq<byte>, offset: nat, steps: nat)
    requires offset + 8 <= |bytes| && U16(bytes[offset + 2], bytes[offset + 3]) >= 8
    ensures Walk(bytes, 44, offset, steps) == Err(Malformed)
  {
  }

  // ---------------------------------------------------------------------------------------
  // Keys and responses
  // ---------------------------------------------------------------------------------------

  function IcmpKey(family: Family, identifier: nat, sequence: nat): ProbeKey {
    ProbeKey(family, Icmp, Some(identifier), Some(sequence), None, None, None)
  }

  function PortKey(family: Family, protocol: Transport, source: nat, destination: nat): ProbeKey {
    ProbeKey(family, protocol, None, None, Some(source), Some(destination), None)
  }

  function TcpKey(family: Family, source: nat, destination: nat, sequence: Option<nat>): ProbeKey {
    PortKey(family, Tcp, source, destination).(transportSequence := sequence)
  }

  function ParseTransport(family: Family, protocol: byte, bytes: seq<byte>, offset: nat): Result<ProbeKey, Error> {
    if |bytes| < offset + 8 then Err(Truncated(offset + 8))
    else if protocol == 1 || protocol == 58 then
      Ok(IcmpKey(family, U16(bytes[offset + 4], bytes[offset + 5]), U16(bytes[offset + 6], bytes[offset + 7])))
    else if protocol == 17 then
      Ok(PortKey(family, Udp, U16(bytes[offset], bytes[offset + 1]), U16(bytes[offset + 2], bytes[offset + 3])))
    else if protocol == 6 then
      Ok(TcpKey(family, U16(bytes[offset], bytes[offset + 1]), U16(bytes[offset + 2], bytes[offset + 3]),
                Some(U32(bytes[offset + 4], bytes[offset + 5], bytes[offset + 6], bytes[offset + 7]))))
    else Err(Malformed)
  }

  function ParseQuotedProbe(bytes: seq<byte>): Result<ProbeKey, Error> {
    if |bytes| < 1 then Err(Truncated(1))
    else if bytes[0] / 16 == 4 then
      var headerLength := bytes[0] as nat % 16 * 4;
      if |bytes| < 20 then Err(Truncated(20))
      else if headerLength < 20 then Err(Malformed)
      else ParseTransport(V4, bytes[9], bytes, headerLength)
    else if bytes[0] / 16 == 6 then
      match Ipv6Transport(bytes)
      case Err(e) => Err(e)
      case Ok((protocol, offset)) => ParseTransport(V6, protocol, bytes, offset)
    else Err(UnsupportedVersion)
  }

  /** The family, the source address if the outer header is present, and the ICMP message. */
  function StripOuterIp(bytes: seq<byte>, expected: Family): Result<(Family, Option<seq<byte>>, seq<byte>), Error> {
    if |bytes| < 1 then Err(Truncated(1))
    else if bytes[0] / 16 == 4 then
      var headerLength := bytes[0] as nat % 16 * 4;
      if |bytes| < 20 then Err(Truncated(20))
      else if headerLength < 20 then Err(Malformed)
      else if |bytes| < headerLength + 8 then Err(Truncated(headerLength + 8))
      else if bytes[9] != 1 then Err(NotIcmp)
      else Ok((V4, Some(bytes[12..16]), bytes[headerLength..]))
    else if bytes[0] / 16 == 6 then
      match Ipv6Transport(bytes)
      case Err(e) => Err(e)
      case Ok((protocol, offset)) =>
        if protocol != 58 then Err(NotIcmp)
        else if |bytes| < offset + 8 then Err(Truncated(offset + 8))
        else Ok((V6, Some(bytes[8..24]), bytes[offset..]))
    else if |bytes| >= 8 then Ok((expected, None, bytes))
    else Err(UnsupportedVersion)
  }

  function KindOf(family: Family, code: byte): Kind {
    match family
    case V4 =>
      if code == 0 then EchoReply else if code == 11 then TimeExceeded
      else if code == 3 then DestinationUnreachable else if code == 12 then ParameterProblem else Other
    case V6 =>
      if code == 129 then EchoReply else if code == 3 then TimeExceeded
      else if code == 1 then DestinationUnreachable else if code == 2 then PacketTooBig
      else if code == 4 then ParameterProblem else Other
  }

  function ParseIcmpResponse(bytes: seq<byte>, expected: Family): Result<Parsed, Error> {
    match StripOuterIp(bytes, expected)
    case Err(e) => Err(e)
    case Ok((family, source, icmp)) =>
      if |icmp| < 8 then Err(Truncated(8))
      else
        var kind := KindOf(family, icmp[0]);
        var mtu :=
          if family == V4 && icmp[0] == 3 && icmp[1] == 4 then Some(U16(icmp[6], icmp[7]))
          else if family == V6 && icmp[0] == 2 then Some(U32(icmp[4], icmp[5], icmp[6], icmp[7]))
          else None;
        var quotes :=
          kind.TimeExceeded? || kind.DestinationUnreachable? || kind.PacketTooBig? || kind.ParameterProblem?;
        var quoted := if quotes then ParseQuotedProbe(icmp[8..]) else Err(Malformed);
        Ok(Parsed(family, source, kind, icmp[1],
                  if kind.EchoReply? then Some(U16(icmp[4], icmp[5])) else None,
                  if kind.EchoReply? then Some(U16(icmp[6], icmp[7])) else None,
                  if quoted.Ok? then Some(quoted.value) else None, mtu))
  }

  predicate Correlates(p: Parsed, key: ProbeKey) {
    p.family == key.family &&
    match key.protocol
    case Icmp =>
      if p.quoted.None? then
        p.echoedIdentifier == key.identifier && p.echoedSequence == key.sequence && p.echoedIdentifier.Some?
      else p.quoted.value == key
    case Udp => p.quoted == Some(key)
    case Tcp =>
      && p.quoted.Some?
      && p.quoted.value.family == key.family
      && p.quoted.value.protocol == key.protocol
      && p.quoted.value.sourcePort == key.sourcePort
      && p.quoted.value.destinationPort == key.destinationPort
      && (key.transportSequence.Some? ==> p.quoted.value.transportSequence == key.transportSequence)
  }

  // ---------------------------------------------------------------------------------------
  // A quoted SYN is recognised
  // ---------------------------------------------------------------------------------------

  /** At least the IP header and 8 bytes of the SYN, unchanged except for the hop limit and the header
      checksum that routers rewrite; anything may follow. */
  predicate QuotesV4(quote: seq<byte>, packet: seq<byte>) {
    28 <= |quote| && 28 <= |packet| && forall i :: 0 <= i < 28 && i != 8 && i != 10 && i != 11 ==> quote[i] == packet[i]
  }

  predicate QuotesV6(quote: seq<byte>, packet: seq<byte>) {
    48 <= |quote| && 48 <= |packet| && forall i :: 0 <= i < 48 && i != 7 ==> quote[i] == packet[i]
  }

  /** Ports and sequence number survive their big-endian encoding. */
  lemma SegmentFields(s: SynSpec, checksum: nat)
    requires checksum <= 0xffff
    ensures var b := SynSegment(s, checksum);
            && U16(b[0], b[1]) == s.sourcePort && U16(b[2], b[3]) == s.destinationPort
            && U32(b[4], b[5], b[6], b[7]) == s.sequence
  {
    Be16RoundTrip(s.sourcePort);
    Be16RoundTrip(s.destinationPort);
    Be32RoundTrip(s.sequence);
  }

  lemma QuotedHeaderV4(quote: seq<byte>, header: seq<byte>, segment: seq<byte>)
    requires |header| == 20 && header[0] == 0x45 && header[9] == 6 && |segment| >= 8
    requires QuotesV4(quote, header + segment)
    ensures ParseQuotedProbe(quote) == ParseTransport(V4, 6, quote, 20)
    ensures forall i :: 20 <= i < 28 ==> quote[i] == (header + segment)[i]
  {
    assert quote[0] == header[0] && quote[9] == header[9];
  }

  lemma QuotedSynV4(quote: seq<byte>, source: Ipv4, destination: Ipv4, s: SynSpec)
    requires QuotesV4(quote, SynV4(source, destination, s))
    ensures ParseQuotedProbe(quote) == Ok(TcpKey(V4, s.sourcePort, s.destinationPort, Some(s.sequence)))
  {
    var header := Ipv4Header(source, destination, s, Of(Ipv4Header(source, destination, s, 0)));
    var checksum := TransportChecksumV4(source, destination, 6, SynSegment(s, 0));
    QuotedHeaderV4(quote, header, SynSegment(s, checksum));
    QuotedSegment(quote, header, SynSegment(s, checksum));
    SegmentFields(s, checksum);
  }

  /** What the transport parser reads of a quote is what the packet's segment starts with. */
  lemma QuotedSegment(quote: seq<byte>, header: seq<byte>, segment: seq<byte>)
    requires |segment| >= 8 && |quote| >= |header| + 8
    requires forall i :: |header| <= i < |header| + 8 ==> quote[i] == (header + segment)[i]
    ensures forall family :: ParseTransport(family, 6, quote, |header|)
              == Ok(TcpKey(family, U16(segment[0], segment[1]), U16(segment[2], segment[3]),
                           Some(U32(segment[4], segment[5], segment[6], segment[7]))))
  {
    var n := |header|;
    assert quote[n] == segment[0] && quote[n + 1] == segment[1];
    assert quote[n + 2] == segment[2] && quote[n + 3] == segment[3];
    assert quote[n + 4] == segment[4] && quote[n + 5] == segment[5];
    assert quote[n + 6] == segment[6] && quote[n + 7] == segment[7];
  }

  lemma QuotedHeaderV6(quote: seq<byte>, header: seq<byte>, segment: seq<byte>)
    requires |header| == 40 && header[0] / 16 == 6 && header[6] == 6 && |segment| >= 8
    requires QuotesV6(quote, header + segment)
    ensures ParseQuotedProbe(quote) == ParseTransport(V6, 6, quote, 40)
    ensures forall i :: 40 <= i < 48 ==> quote[i] == (header + segment)[i]
  {
    assert quote[0] == header[0] && quote[6] == header[6];
    assert Walk(quote, 6, 40, MAX_EXTENSION_STEPS) == Ok((6, 40));
  }

  lemma QuotedSynV6(quote: seq<byte>, source: Ipv6, destination: Ipv6, s: SynSpec)
    requires QuotesV6(quote, SynV6(source, destination, s))
    ensures ParseQuotedProbe(quote) == Ok(TcpKey(V6, s.sourcePort, s.destinationPort, Some(s.sequence)))
  {
    var header := Ipv6Header(source, destination, s);
    var checksum := TransportChecksumV6(source, destination, 6, SynSegment(s, 0));
    assert header[0] == 0x60 + s.trafficClass / 16;
    QuotedHeaderV6(quote, header, SynSegment(s, checksum));
    QuotedSegment(quote, header, SynSegment(s, checksum));
    SegmentFields(s, checksum);
  }

  /** A response that starts directly at the ICMP header, or behind an IPv4 header of any length, or
      behind an IPv6 header with any admissible chain of extension headers. */
  ghost predicate Carries(bytes: seq<byte>, expected: Family, family: Family, icmp: seq<byte>) {
    || (bytes == icmp && family == expected)
    || (family == V4 && exists header: seq<byte> :: OuterV4(header, 1) && bytes == header + icmp)
    || (family == V6 &&
        exists header: seq<byte>, chain: seq<Extension> ::
          OuterV6(header, chain, 58) && bytes == header + Encode(chain, 58) + icmp)
  }

  ghost predicate OuterV4(header: seq<byte>, protocol: byte) {
    |header| >= 20 && header[0] / 16 == 4 && header[0] as nat % 16 * 4 == |header| && header[9] == protocol
  }

  ghost predicate OuterV6(header: seq<byte>, chain: seq<Extension>, protocol: byte) {
    && |header| == 40 && header[0] / 16 == 6 && header[6] == FirstType(chain, protocol)
    && |chain| < 16 && AllWellFormed(chain)
  }

  lemma StripCarried(bytes: seq<byte>, expected: Family, family: Family, icmp: seq<byte>)
    requires |icmp| >= 8 && icmp[0] / 16 != 4 && icmp[0] / 16 != 6
    requires Carries(bytes, expected, family, icmp)
    ensures StripOuterIp(bytes, expected).Ok?
    ensures StripOuterIp(bytes, expected).value.0 == family && StripOuterIp(bytes, expected).value.2 == icmp
  {
    if bytes == icmp && family == expected {
    } else if header: seq<byte> :| family == V4 && OuterV4(header, 1) && bytes == header + icmp {
      assert bytes[|header|..] == icmp;
    } else {
      var header: seq<byte>, chain: seq<Extension> :|
        OuterV6(header, chain, 58) && bytes == header + Encode(chain, 58) + icmp;
      WalkEncoded(header, chain, 58, icmp, MAX_EXTENSION_STEPS);
      assert bytes[|header + Encode(chain, 58)|..] == icmp;
      assert bytes[0] == header[0] && bytes[6] == header[6];
    }
  }

  /** The response quotes a built SYN in a Time Exceeded message of its family. */
  ghost predicate TimeExceededFor(icmp: seq<byte>, family: Family, s: SynSpec) {
    |icmp| >= 8 &&
    match family
    case V4 =>
      icmp[0] == 11 && exists source: Ipv4, destination: Ipv4 :: QuotesV4(icmp[8..], SynV4(source, destination, s))
    case V6 =>
      icmp[0] == 3 && exists source: Ipv6, destination: Ipv6 :: QuotesV6(icmp[8..], SynV6(source, destination, s))
  }

  lemma QuoteParses(icmp: seq<byte>, family: Family, s: SynSpec)
    requires TimeExceededFor(icmp, family, s)
    ensures KindOf(family, icmp[0]) == TimeExceeded && icmp[0] / 16 == 0
    ensures ParseQuotedProbe(icmp[8..]) == Ok(TcpKey(family, s.sourcePort, s.destinationPort, Some(s.sequence)))
  {
    match family
    case V4 =>
      var source: Ipv4, destination: Ipv4 :| QuotesV4(icmp[8..], SynV4(source, destination, s));
      QuotedSynV4(icmp[8..], source, destination, s);
    case V6 =>
      var source: Ipv6, destination: Ipv6 :| QuotesV6(icmp[8..], SynV6(source, destination, s));
      QuotedSynV6(icmp[8..], source, destination, s);
  }

  predicate IsError(kind: Kind) {
    kind != EchoReply && kind != Other
  }

  lemma ParsesAs(bytes: seq<byte>, expected: Family, family: Family, icmp: seq<byte>, quoted: ProbeKey)
    requires |icmp| >= 8 && IsError(KindOf(family, icmp[0]))
    requires StripOuterIp(bytes, expected).Ok?
    requires StripOuterIp(bytes, expected).value.0 == family && StripOuterIp(bytes, expected).value.2 == icmp
    requires ParseQuotedProbe(icmp[8..]) == Ok(quoted)
    ensures var r := ParseIcmpResponse(bytes, expected);
            && r.Ok? && r.value.family == family
            && r.value.kind == KindOf(family, icmp[0]) && r.value.quoted == Some(quoted)
  {
  }

  lemma CorrelatesWithItsKeys(p: Parsed, source: nat, destination: nat, sequence: nat, key: ProbeKey)
    requires p.quoted == Some(TcpKey(p.family, source, destination, Some(sequence)))
    ensures Correlates(p, key) <==>
            && key.protocol == Tcp && key.family == p.family
            && key.sourcePort == Some(source) && key.destinationPort == Some(destination)
            && (key.transportSequence.None? || key.transportSequence == Some(sequence))
  {
  }

  /** Any Time Exceeded message that quotes a built SYN parses back to the probe's key and correlates
      with exactly the TCP keys of its family and ports that carry no sequence number or the probe's. */
  lemma QuotedSynIsRecognised(
    bytes: seq<byte>, expected: Family, family: Family, icmp: seq<byte>, s: SynSpec, key: ProbeKey)
    requires TimeExceededFor(icmp, family, s) && Carries(bytes, expected, family, icmp)
    ensures var r := ParseIcmpResponse(bytes, expected);
            && r.Ok?
            && r.value.kind == TimeExceeded
            && r.value.quoted == Some(TcpKey(family, s.sourcePort, s.destinationPort, Some(s.sequence)))
            && (Correlates(r.value, key) <==>
                  && key.protocol == Tcp && key.family == family
                  && key.sourcePort == Some(s.sourcePort) && key.destinationPort == Some(s.destinationPort)
                  && (key.transportSequence.None? || key.transportSequence == Some(s.sequence)))
  {
    var quoted := TcpKey(family, s.sourcePort, s.destinationPort, Some(s.sequence));
    assert |icmp| >= 8 && ParseQuotedProbe(icmp[8..]) == Ok(quoted) && icmp[0] / 16 == 0
        && KindOf(family, icmp[0]) == TimeExceeded by {
      QuoteParses(icmp, family, s);
    }
    StripCarried(bytes, expected, family, icmp);
    ParsesAs(bytes, expected, family, icmp, quoted);
    CorrelatesWithItsKeys(ParseIcmpResponse(bytes, expected).value, s.sourcePort, s.destinationPort, s.sequence, key);
  }

  // ---------------------------------------------------------------------------------------
  // Echo requests: their replies, and their quotes
  // ---------------------------------------------------------------------------------------

  /** The message has the identifier and sequence number of an echo request where they belong. */
  predicate CarriesEcho(message: seq<byte>, identifier: u16, sequence: u16) {
    |message| >= 8 && message[4..8] == Be16(identifier) + Be16(sequence)
  }

  lemma EchoFields(message: seq<byte>, identifier: u16, sequence: u16)
    requires CarriesEcho(message, identifier, sequence)
    ensures U16(message[4], message[5]) == identifier && U16(message[6], message[7]) == sequence
  {
    var fields := message[4..8];
    assert fields[0] == message[4] && fields[1] == message[5] && fields[2] == message[6] && fields[3] == message[7];
    Be16RoundTrip(identifier);
    Be16RoundTrip(sequence);
  }

  /** An echo reply, which returns the request's identifier and sequence number, correlates with exactly
      the ICMP keys of its family that have both. */
  lemma EchoReplyIsRecognised(
    bytes: seq<byte>, expected: Family, family: Family, icmp: seq<byte>, identifier: u16, sequence: u16, key: ProbeKey)
    requires CarriesEcho(icmp, identifier, sequence) && icmp[0] == match family case V4 => 0 case V6 => 129
    requires Carries(bytes, expected, family, icmp)
    ensures var r := ParseIcmpResponse(bytes, expected);
            && r.Ok?
            && r.value.kind == EchoReply
            && (Correlates(r.value, key) <==>
                  && key.protocol == Icmp && key.family == family
                  && key.identifier == Some(identifier) && key.sequence == Some(sequence))
  {
    EchoFields(icmp, identifier, sequence);
    StripCarried(bytes, expected, family, icmp);
  }

  /** The quoted packet is an echo request behind an IPv4 header of any length, or behind an IPv6 header
      with any admissible chain of extension headers; at least 8 bytes of it are quoted. */
  ghost predicate QuotesEcho(quote: seq<byte>, family: Family, identifier: u16, sequence: u16) {
    match family
    case V4 =>
      exists header: seq<byte>, message: seq<byte> ::
        OuterV4(header, 1) && CarriesEcho(message, identifier, sequence) && quote == header + message
    case V6 =>
      exists header: seq<byte>, chain: seq<Extension>, message: seq<byte> ::
        && OuterV6(header, chain, 58) && CarriesEcho(message, identifier, sequence)
        && quote == header + Encode(chain, 58) + message
  }

  lemma EchoTransport(
    family: Family, protocol: byte, prefix: seq<byte>, message: seq<byte>, identifier: u16, sequence: u16)
    requires CarriesEcho(message, identifier, sequence) && (protocol == 1 || protocol == 58)
    ensures ParseTransport(family, protocol, prefix + message, |prefix|) == Ok(IcmpKey(family, identifier, sequence))
  {
    EchoFields(message, identifier, sequence);
    var bytes, n := prefix + message, |prefix|;
    assert bytes[n + 4] == message[4] && bytes[n + 5] == message[5];
    assert bytes[n + 6] == message[6] && bytes[n + 7] == message[7];
  }

  lemma QuotedEchoParses(quote: seq<byte>, family: Family, identifier: u16, sequence: u16)
    requires QuotesEcho(quote, family, identifier, sequence)
    ensures ParseQuotedProbe(quote) == Ok(IcmpKey(family, identifier, sequence))
  {
    match family
    case V4 =>
      var header: seq<byte>, message: seq<byte> :|
        OuterV4(header, 1) && CarriesEcho(message, identifier, sequence) && quote == header + message;
      EchoTransport(V4, 1, header, message, identifier, sequence);
      assert quote[0] == header[0] && quote[9] == header[9];
    case V6 =>
      var header: seq<byte>, chain: seq<Extension>, message: seq<byte> :|
        && OuterV6(header, chain, 58) && CarriesEcho(message, identifier, sequence)
        && quote == header + Encode(chain, 58) + message;
      WalkEncoded(header, chain, 58, message, MAX_EXTENSION_STEPS);
      EchoTransport(V6, 58, header + Encode(chain, 58), message, identifier, sequence);
      assert quote[0] == header[0] && quote[6] == header[6];
  }

  /** The ICMP errors that quote a packet, by their numbers in RFC 792 and RFC 4443. */
  predicate IsErrorType(family: Family, code: byte) {
    match family
    case V4 => code == 3 || code == 11 || code == 12
    case V6 => code == 1 || code == 2 || code == 3 || code == 4
  }

  lemma ErrorTypes(family: Family, code: byte)
    ensures IsError(KindOf(family, code)) <==> IsErrorType(family, code)
    ensures KindOf(family, code) == TimeExceeded <==> code == match family case V4 => 11 case V6 => 3
    ensures KindOf(family, code) == DestinationUnreachable <==> code == match family case V4 => 3 case V6 => 1
    ensures KindOf(family, code) == PacketTooBig <==> family == V6 && code == 2
    ensures KindOf(family, code) == ParameterProblem <==> code == match family case V4 => 12 case V6 => 4
    ensures IsErrorType(family, code) ==> code / 16 == 0
  {
  }

  lemma QuoteCorrelates(p: Parsed, key: ProbeKey, quoted: ProbeKey)
    requires p.quoted == Some(quoted) && quoted.family == p.family && quoted.protocol != Tcp
    ensures Correlates(p, key) <==> key == quoted
  {
  }

  /** An error message whose quote parses to the key of an ICMP or UDP probe correlates with that key alone. */
  lemma QuoteIsRecognised(
    bytes: seq<byte>, expected: Family, family: Family, icmp: seq<byte>, quoted: ProbeKey, key: ProbeKey)
    requires |icmp| >= 8 && IsErrorType(family, icmp[0]) && Carries(bytes, expected, family, icmp)
    requires ParseQuotedProbe(icmp[8..]) == Ok(quoted) && quoted.family == family && quoted.protocol != Tcp
    ensures var r := ParseIcmpResponse(bytes, expected);
            && r.Ok? && r.value.kind == KindOf(family, icmp[0]) && r.value.quoted == Some(quoted)
            && (Correlates(r.value, key) <==> key == quoted)
  {
    ErrorTypes(family, icmp[0]);
    StripCarried(bytes, expected, family, icmp);
    ParsesAs(bytes, expected, family, icmp, quoted);
    QuoteCorrelates(ParseIcmpResponse(bytes, expected).value, key, quoted);
  }

  /** An error message that quotes an echo request, whichever kind of error it is, parses back to the
      request's key and correlates with that key alone. */
  lemma QuotedEchoIsRecognised(
    bytes: seq<byte>, expected: Family, family: Family, icmp: seq<byte>, identifier: u16, sequence: u16, key: ProbeKey)
    requires |icmp| >= 8 && IsErrorType(family, icmp[0])
    requires QuotesEcho(icmp[8..], family, identifier, sequence) && Carries(bytes, expected, family, icmp)
    ensures var r := ParseIcmpResponse(bytes, expected);
            && r.Ok?
            && r.value.kind == KindOf(family, icmp[0])
            && r.value.quoted == Some(IcmpKey(family, identifier, sequence))
            && (Correlates(r.value, key) <==> key == IcmpKey(family, identifier, sequence))
  {
    QuotedEchoParses(icmp[8..], family, identifier, sequence);
    QuoteIsRecognised(bytes, expected, family, icmp, IcmpKey(family, identifier, sequence), key);
  }

  // ---------------------------------------------------------------------------------------
  // UDP probes
  // ---------------------------------------------------------------------------------------

  /** A UDP header starts with the source and destination ports (RFC 768). */
  predicate CarriesPorts(message: seq<byte>, source: u16, destination: u16) {
    |message| >= 8 && message[0..4] == Be16(source) + Be16(destination)
  }

  /** The quoted packet is a UDP datagram behind an IPv4 header of any length, or behind an IPv6 header with
      any admissible chain of extension headers; at least 8 bytes of it are quoted. */
  ghost predicate QuotesUdp(quote: seq<byte>, family: Family, source: u16, destination: u16) {
    match family
    case V4 =>
      exists header: seq<byte>, message: seq<byte> ::
        OuterV4(header, 17) && CarriesPorts(message, source, destination) && quote == header + message
    case V6 =>
      exists header: seq<byte>, chain: seq<Extension>, message: seq<byte> ::
        && OuterV6(header, chain, 17) && CarriesPorts(message, source, destination)
        && quote == header + Encode(chain, 17) + message
  }

  lemma UdpTransport(family: Family, prefix: seq<byte>, message: seq<byte>, source: u16, destination: u16)
    requires CarriesPorts(message, source, destination)
    ensures ParseTransport(family, 17, prefix + message, |prefix|) == Ok(PortKey(family, Udp, source, destination))
  {
    var bytes, n, ports := prefix + message, |prefix|, message[0..4];
    Be16RoundTrip(source);
    Be16RoundTrip(destination);
    assert bytes[n] == message[0] == ports[0] && bytes[n + 1] == message[1] == ports[1];
    assert bytes[n + 2] == message[2] == ports[2] && bytes[n + 3] == message[3] == ports[3];
  }

  lemma QuotedUdpParses(quote: seq<byte>, family: Family, source: u16, destination: u16)
    requires QuotesUdp(quote, family, source, destination)
    ensures ParseQuotedProbe(quote) == Ok(PortKey(family, Udp, source, destination))
  {
    match family
    case V4 =>
      var header: seq<byte>, message: seq<byte> :|
        OuterV4(header, 17) && CarriesPorts(message, source, destination) && quote == header + message;
      UdpTransport(V4, header, message, source, destination);
      assert quote[0] == header[0] && quote[9] == header[9];
    case V6 =>
      var header: seq<byte>, chain: seq<Extension>, message: seq<byte> :|
        && OuterV6(header, chain, 17) && CarriesPorts(message, source, destination)
        && quote == header + Encode(chain, 17) + message;
      WalkEncoded(header, chain, 17, message, MAX_EXTENSION_STEPS);
      UdpTransport(V6, header + Encode(chain, 17), message, source, destination);
      assert quote[0] == header[0] && quote[6] == header[6];
  }

  /** An error message that quotes a UDP datagram correlates with exactly the UDP key of its family and ports. */
  lemma QuotedUdpIsRecognised(
    bytes: seq<byte>, expected: Family, family: Family, icmp: seq<byte>, source: u16, destination: u16, key: ProbeKey)
    requires |icmp| >= 8 && IsErrorType(family, icmp[0])
    requires QuotesUdp(icmp[8..], family, source, destination) && Carries(bytes, expected, family, icmp)
    ensures var r := ParseIcmpResponse(bytes, expected);
            && r.Ok?
            && r.value.quoted == Some(PortKey(family, Udp, source, destination))
            && (Correlates(r.value, key) <==> key == PortKey(family, Udp, source, destination))
  {
    QuotedUdpParses(icmp[8..], family, source, destination);
    QuoteIsRecognised(bytes, expected, family, icmp, PortKey(family, Udp, source, destination), key);
  }

  // ---------------------------------------------------------------------------------------
  // The other reported fields
  // ---------------------------------------------------------------------------------------

  /** The next-hop MTU is that of fragmentation-needed errors (RFC 1191) and of Packet Too Big (section 3.2
      of RFC 4443), and the source that of the outer header, if there is one. */
  lemma ReportedFields(bytes: seq<byte>, expected: Family, family: Family, icmp: seq<byte>)
    requires |icmp| >= 8 && icmp[0] / 16 != 4 && icmp[0] / 16 != 6 && Carries(bytes, expected, family, icmp)
    ensures var r := ParseIcmpResponse(bytes, expected);
            && r.Ok? && r.value.family == family && r.value.code == icmp[1]
            && r.value.nextHopMtu ==
               (if family == V4 && icmp[0] == 3 && icmp[1] == 4 then Some(U16(icmp[6], icmp[7]))
                else if family == V6 && icmp[0] == 2 then Some(U32(icmp[4], icmp[5], icmp[6], icmp[7]))
                else None)
            && r.value.source ==
               (if bytes[0] / 16 == 4 then Some(bytes[12..16])
                else if bytes[0] / 16 == 6 then Some(bytes[8..24])
                else None)
  {
    StripCarried(bytes, expected, family, icmp);
  }
}
