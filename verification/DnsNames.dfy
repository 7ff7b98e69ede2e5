/** DNS query building and name reading: build_query, read_name and skip_name of
    crates/path-trace/src/dns.rs (section 4.1.4 of RFC 1035).

    Text is its UTF-8 bytes. `decode` stands for String::from_utf8_lossy, which leaves valid UTF-8 alone. */
module DnsNames {
  import opened Common
  import opened Checksum

  type Text = seq<byte>

  datatype Error = InvalidLabel | PointerLoop | TruncatedName | TruncatedPointer | TruncatedLabel

  const DOT: byte := 46
  const MAX_DEPTH := 16

  // ---------------------------------------------------------------------------------------
  // Names and labels
  // ---------------------------------------------------------------------------------------

  /** name.split('.') */
  function Split(name: Text): (labels: seq<Text>)
    ensures labels != []
    ensures forall i :: 0 <= i < |labels| ==> DOT !in labels[i]
  {
    if name == [] then [[]]
    else
      var rest := Split(name[1..]);
      if name[0] == DOT then [[]] + rest else [[name[0]] + rest[0]] + rest[1..]
  }

  /** labels.join(".") */
  function Join(labels: seq<Text>): Text {
    if labels == [] then [] else if |labels| == 1 then labels[0] else labels[0] + [DOT] + Join(labels[1..])
  }

  lemma {:induction false} JoinSplit(name: Text)
    ensures Join(Split(name)) == name
  {
    if name != [] {
      var rest := Split(name[1..]);
      JoinSplit(name[1..]);
      if name[0] == DOT {
        assert Split(name)[1..] == rest;
      } else if |rest| > 1 {
        assert Split(name)[1..] == rest[1..];
      }
    }
  }

  // ---------------------------------------------------------------------------------------
  // Queries
  // ---------------------------------------------------------------------------------------

  predicate ValidLabel(text: Text) {
    1 <= |text| <= 63
  }

  /** The length byte is `len() as u8`. */
  function Prefixed(text: Text): (r: seq<byte>)
    ensures |r| == 1 + |text|
  {
    [|text| % 256] + text
  }

  function Encode(labels: seq<Text>): seq<byte> {
    if labels == [] then [] else Prefixed(labels[0]) + Encode(labels[1..])
  }

  lemma {:induction false} EncodeAppend(labels: seq<Text>, text: Text)
    ensures Encode(labels + [text]) == Encode(labels) + Prefixed(text)
  {
    if labels == [] {
      assert labels + [text] == [text];
    } else {
      EncodeAppend(labels[1..], text);
      assert (labels + [text])[1..] == labels[1..] + [text];
    }
  }

  function Header(transaction: nat): (r: seq<byte>)
    requires transaction <= 0xffff
    ensures |r| == 12
  {
    Be16(transaction) + [0x01, 0x00, 0, 1, 0, 0, 0, 0, 0, 0]
  }

  /** The layout of section 4.1 of RFC 1035, with one question. */
  function Query(transaction: nat, name: Text, queryType: nat): (r: seq<byte>)
    requires transaction <= 0xffff && queryType <= 0xffff
  {
    Header(transaction) + Encode(Split(name)) + [0] + Be16(queryType) + Be16(1)
  }

  method BuildQuery(transaction: nat, name: Text, queryType: nat) returns (r: Result<seq<byte>, Error>)
    requires transaction <= 0xffff && queryType <= 0xffff
    ensures r.Ok? <==> forall i :: 0 <= i < |Split(name)| ==> ValidLabel(Split(name)[i])
    ensures r.Ok? ==> r.value == Query(transaction, name, queryType)
  {
    var labels := Split(name);
    var packet := Header(transaction);
    for i := 0 to |labels|
      invariant forall j :: 0 <= j < i ==> ValidLabel(labels[j])
      invariant packet == Header(transaction) + Encode(labels[..i])
    {
      var text := labels[i];
      if text == [] || |text| > 63 {
        assert !ValidLabel(Split(name)[i]);
        return Err(InvalidLabel);
      }
      assert labels[..i + 1] == labels[..i] + [text];
      EncodeAppend(labels[..i], text);
      packet := packet + [|text| % 256];
      packet := packet + text;
    }
    assert labels[..|labels|] == labels;
    packet := packet + [0];
    packet := packet + Be16(queryType);
    packet := packet + Be16(1);
    r := Ok(packet);
  }

  // ---------------------------------------------------------------------------------------
  // Reading
  // ---------------------------------------------------------------------------------------

  predicate IsPointer(length: byte) {
    length >= 0xc0
  }

  function Target(high: byte, low: byte): nat
    requires IsPointer(high)
  {
    (high - 0xc0) * 256 + low
  }

  /** The labels from `offset` on, and the offset behind the name. */
  function ReadLabels(bytes: seq<byte>, offset: nat, depth: nat, decode: Text -> Text)
    : (r: Result<(nat, seq<Text>), Error>)
    requires depth <= MAX_DEPTH
    ensures r.Ok? ==> offset < r.value.0 <= |bytes|
    decreases MAX_DEPTH + 1 - depth, 0, |bytes| - offset
  {
    if offset >= |bytes| then Err(TruncatedName)
    else if IsPointer(bytes[offset]) then
      if offset + 1 >= |bytes| then Err(TruncatedPointer)
      else
        match ReadName(bytes, Target(bytes[offset], bytes[offset + 1]), depth + 1, decode)
        case Err(e) => Err(e)
        case Ok((_, suffix)) => Ok((offset + 2, if suffix == [] then [] else [suffix]))
    else if bytes[offset] == 0 then Ok((offset + 1, []))
    else
      var end := offset + 1 + bytes[offset];
      if end > |bytes| then Err(TruncatedLabel)
      else
        match ReadLabels(bytes, end, depth, decode)
        case Err(e) => Err(e)
        case Ok((next, labels)) => Ok((next, [decode(bytes[offset + 1..end])] + labels))
  }

  /** Pointers may be followed MAX_DEPTH deep; then the name is rejected, cycle or not. */
  function ReadName(bytes: seq<byte>, offset: nat, depth: nat, decode: Text -> Text): (r: Result<(nat, Text), Error>)
    ensures r.Ok? ==> offset < r.value.0 <= |bytes|
    decreases MAX_DEPTH + 1 - depth, 1
  {
    if depth > MAX_DEPTH then Err(PointerLoop)
    else
      match ReadLabels(bytes, offset, depth, decode)
      case Err(e) => Err(e)
      case Ok((next, labels)) => Ok((next, Join(labels)))
  }

  /** What a loop that has already collected `labels` still returns. */
  function Finished(labels: seq<Text>, rest: Result<(nat, seq<Text>), Error>): Result<(nat, Text), Error> {
    if rest.Err? then Err(rest.error) else Ok((rest.value.0, Join(labels + rest.value.1)))
  }

  /** Collecting one more label in the loop or in front of the rest comes to the same. */
  lemma FinishedStep(labels: seq<Text>, text: Text, rest: Result<(nat, seq<Text>), Error>)
    ensures Finished(labels, if rest.Err? then Err(rest.error) else Ok((rest.value.0, [text] + rest.value.1)))
            == Finished(labels + [text], rest)
    ensures labels + [] == labels == [] + labels
  {
    if rest.Ok? {
      assert labels + ([text] + rest.value.1) == (labels + [text]) + rest.value.1;
    }
  }

  lemma FinishedStart(rest: Result<(nat, seq<Text>), Error>)
    ensures Finished([], rest) == if rest.Err? then Err(rest.error) else Ok((rest.value.0, Join(rest.value.1)))
  {
    if rest.Ok? {
      assert [] + rest.value.1 == rest.value.1;
    }
  }

  /** The loop with its bounded recursion. */
  method ReadNameLoop(bytes: seq<byte>, start: nat, depth: nat, decode: Text -> Text)
    returns (r: Result<(nat, Text), Error>)
    ensures r == ReadName(bytes, start, depth, decode)
    decreases MAX_DEPTH + 1 - depth
  {
    if depth > MAX_DEPTH {
      return Err(PointerLoop);
    }
    var offset := start;
    var labels: seq<Text> := [];
    FinishedStart(ReadLabels(bytes, start, depth, decode));
    while true
      invariant start <= offset
      invariant ReadName(bytes, start, depth, decode) == Finished(labels, ReadLabels(bytes, offset, depth, decode))
      decreases |bytes| - offset
    {
      if offset >= |bytes| {
        return Err(TruncatedName);
      }
      var length := bytes[offset];
      if IsPointer(length) {
        if offset + 1 >= |bytes| {
          return Err(TruncatedPointer);
        }
        var suffix := ReadNameLoop(bytes, Target(length, bytes[offset + 1]), depth + 1, decode);
        if suffix.Err? {
          return Err(suffix.error);
        }
        FinishedStep(labels, suffix.value.1, Err(TruncatedName));
        if suffix.value.1 != [] {
          labels := labels + [suffix.value.1];
        }
        return Ok((offset + 2, Join(labels)));
      }
      if length == 0 {
        FinishedStep(labels, [], Err(TruncatedName));
        return Ok((offset + 1, Join(labels)));
      }
      var end := offset + 1 + length;
      if end > |bytes| {
        return Err(TruncatedLabel);
      }
      var text := decode(bytes[offset + 1..end]);
      FinishedStep(labels, text, ReadLabels(bytes, end, depth, decode));
      labels := labels + [text];
      offset := end;
    }
  }

  function SkipName(bytes: seq<byte>, offset: nat, decode: Text -> Text): Result<nat, Error> {
    match ReadName(bytes, offset, 0, decode)
    case Err(e) => Err(e)
    case Ok((next, _)) => Ok(next)
  }

  // ---------------------------------------------------------------------------------------
  // Round trip, compression and cycles
  // ---------------------------------------------------------------------------------------

  ghost predicate Readable(labels: seq<Text>, decode: Text -> Text) {
    forall i :: 0 <= i < |labels| ==> ValidLabel(labels[i]) && decode(labels[i]) == labels[i]
  }

  lemma ReadOne(bytes: seq<byte>, offset: nat, text: Text, depth: nat, decode: Text -> Text)
    requires ValidLabel(text) && decode(text) == text && depth <= MAX_DEPTH
    requires offset + 1 + |text| <= |bytes| && bytes[offset] == |text| && bytes[offset + 1..offset + 1 + |text|] == text
    ensures ReadLabels(bytes, offset, depth, decode)
            == Prepend([text], ReadLabels(bytes, offset + 1 + |text|, depth, decode))
  {
  }

  function Prepend(labels: seq<Text>, rest: Result<(nat, seq<Text>), Error>): Result<(nat, seq<Text>), Error> {
    if rest.Err? then rest else Ok((rest.value.0, labels + rest.value.1))
  }

  lemma PrependNothing(rest: Result<(nat, seq<Text>), Error>)
    ensures Prepend([], rest) == rest
  {
    if rest.Ok? {
      assert [] + rest.value.1 == rest.value.1;
    }
  }

  lemma PrependFirst(labels: seq<Text>, rest: Result<(nat, seq<Text>), Error>)
    requires labels != []
    ensures Prepend([labels[0]], Prepend(labels[1..], rest)) == Prepend(labels, rest)
  {
    if rest.Ok? {
      assert [labels[0]] + (labels[1..] + rest.value.1) == labels + rest.value.1;
    }
  }

  /** The first of some encoded labels stands right behind `before`. */
  lemma FirstEncoded(before: seq<byte>, text: Text, later: seq<byte>, after: seq<byte>)
    requires ValidLabel(text)
    ensures var bytes, end := before + (Prefixed(text) + later) + after, |before| + 1 + |text|;
            && end <= |bytes| && bytes[|before|] == |text| && bytes[|before| + 1..end] == text
            && bytes == (before + Prefixed(text)) + later + after
  {
    var bytes := before + (Prefixed(text) + later) + after;
    assert Prefixed(text)[0] == |text|;
    assert bytes[|before| + 1..|before| + 1 + |text|] == Prefixed(text)[1..];
  }

  lemma ReadFirst(
    bytes: seq<byte>, before: seq<byte>, text: Text, later: seq<byte>, after: seq<byte>, depth: nat,
    decode: Text -> Text)
    requires ValidLabel(text) && decode(text) == text && depth <= MAX_DEPTH
    requires bytes == before + (Prefixed(text) + later) + after
    ensures ReadLabels(bytes, |before|, depth, decode)
            == Prepend([text], ReadLabels(bytes, |before + Prefixed(text)|, depth, decode))
    ensures bytes == (before + Prefixed(text)) + later + after
  {
    FirstEncoded(before, text, later, after);
    ReadOne(bytes, |before|, text, depth, decode);
  }

  lemma ReadOneMore(
    bytes: seq<byte>, before: seq<byte>, labels: seq<Text>, after: seq<byte>, end: nat, depth: nat,
    decode: Text -> Text)
    requires labels != [] && Readable(labels, decode) && depth <= MAX_DEPTH
    requires bytes == before + (Prefixed(labels[0]) + Encode(labels[1..])) + after
    requires ReadLabels(bytes, |before + Prefixed(labels[0])|, depth, decode)
             == Prepend(labels[1..], ReadLabels(bytes, end, depth, decode))
    ensures ReadLabels(bytes, |before|, depth, decode) == Prepend(labels, ReadLabels(bytes, end, depth, decode))
  {
    assert ValidLabel(labels[0]) && decode(labels[0]) == labels[0];
    ReadFirst(bytes, before, labels[0], Encode(labels[1..]), after, depth, decode);
    PrependFirst(labels, ReadLabels(bytes, end, depth, decode));
  }

  /** Encoded labels read back as themselves, followed by whatever stands behind them. */
  lemma {:induction false} ReadEncoded(
    bytes: seq<byte>, before: seq<byte>, labels: seq<Text>, after: seq<byte>, end: nat, depth: nat,
    decode: Text -> Text)
    requires Readable(labels, decode) && depth <= MAX_DEPTH
    requires bytes == before + Encode(labels) + after && end == |before| + |Encode(labels)|
    ensures ReadLabels(bytes, |before|, depth, decode) == Prepend(labels, ReadLabels(bytes, end, depth, decode))
    decreases |labels|
  {
    if labels == [] {
      PrependNothing(ReadLabels(bytes, end, depth, decode));
    } else {
      var next := before + Prefixed(labels[0]);
      assert bytes == next + Encode(labels[1..]) + after;
      ReadEncoded(bytes, next, labels[1..], after, end, depth, decode);
      ReadOneMore(bytes, before, labels, after, end, depth, decode);
    }
  }

  lemma {:induction false} EncodedLength(labels: seq<Text>)
    requires labels != [] && forall i :: 0 <= i < |labels| ==> ValidLabel(labels[i])
    ensures |Encode(labels)| == |Join(labels)| + 1
  {
    assert ValidLabel(labels[0]);
    if |labels| > 1 {
      EncodedLength(labels[1..]);
    } else {
      assert labels[1..] == [];
    }
  }

  lemma EndsAtZero(bytes: seq<byte>, at: nat, depth: nat, decode: Text -> Text)
    requires depth <= MAX_DEPTH && at < |bytes| && bytes[at] == 0
    ensures ReadLabels(bytes, at, depth, decode) == Ok((at + 1, []))
  {
  }

  lemma TailAt(before: seq<byte>, middle: seq<byte>, tail: seq<byte>, k: nat)
    requires k < |tail|
    ensures (before + middle + tail)[|before| + |middle| + k] == tail[k]
  {
  }

  /** Labels and whatever reading `tail` gives. */
  lemma LabelsThen(
    bytes: seq<byte>, before: seq<byte>, labels: seq<Text>, tail: seq<byte>, end: nat,
    rest: Result<(nat, seq<Text>), Error>, depth: nat, decode: Text -> Text)
    requires Readable(labels, decode) && depth <= MAX_DEPTH
    requires bytes == before + Encode(labels) + tail && end == |before| + |Encode(labels)|
    requires ReadLabels(bytes, end, depth, decode) == rest
    ensures ReadName(bytes, |before|, depth, decode) == Finished(labels, rest)
  {
    ReadEncoded(bytes, before, labels, tail, end, depth, decode);
  }

  /** Encoded labels and a zero byte read back as the joined labels. */
  lemma ReadTerminated(before: seq<byte>, labels: seq<Text>, after: seq<byte>, depth: nat, decode: Text -> Text)
    requires Readable(labels, decode) && depth <= MAX_DEPTH
    ensures ReadName(before + Encode(labels) + ([0] + after), |before|, depth, decode)
            == Ok((|before| + |Encode(labels)| + 1, Join(labels)))
  {
    var tail := [0] + after;
    var bytes, end := before + Encode(labels) + tail, |before| + |Encode(labels)|;
    TailAt(before, Encode(labels), tail, 0);
    EndsAtZero(bytes, end, depth, decode);
    LabelsThen(bytes, before, labels, tail, end, Ok((end + 1, [])), depth, decode);
    assert labels + [] == labels;
  }

  lemma QueryBytes(transaction: nat, name: Text, queryType: nat)
    requires transaction <= 0xffff && queryType <= 0xffff
    ensures var packet, end := Query(transaction, name, queryType), 12 + |Encode(Split(name))|;
            && packet == Header(transaction) + Encode(Split(name)) + ([0] + (Be16(queryType) + Be16(1)))
            && |packet| == end + 5
            && packet[end + 1..end + 3] == Be16(queryType)
  {
  }

  /** Reading at offset 12 of a query returns the name it was built for and the offset of its type field. */
  lemma QueryRoundTrip(transaction: nat, name: Text, queryType: nat, decode: Text -> Text)
    requires transaction <= 0xffff && queryType <= 0xffff && Readable(Split(name), decode)
    ensures var packet, next := Query(transaction, name, queryType), 12 + |name| + 2;
            && ReadName(packet, 12, 0, decode) == Ok((next, name))
            && SkipName(packet, 12, decode) == Ok(next)
            && |packet| == next + 4
            && packet[next..next + 2] == Be16(queryType)
  {
    QueryBytes(transaction, name, queryType);
    ReadTerminated(Header(transaction), Split(name), Be16(queryType) + Be16(1), 0, decode);
    EncodedLength(Split(name));
    JoinSplit(name);
  }

  /** The fixed fields of a query (section 4.1 of RFC 1035): its transaction, recursion desired, one question
      and no records, and a question of class IN that ends the message. */
  lemma QueryLayout(transaction: nat, name: Text, queryType: nat)
    requires transaction <= 0xffff && queryType <= 0xffff
    ensures var packet := Query(transaction, name, queryType);
            && |packet| >= 17
            && packet[0..2] == Be16(transaction) && packet[2..4] == [1, 0]
            && packet[4..6] == Be16(1) && packet[6..12] == [0, 0, 0, 0, 0, 0]
            && packet[|packet| - 4..|packet| - 2] == Be16(queryType) && packet[|packet| - 2..] == Be16(1)
  {
    var packet, end := Query(transaction, name, queryType), 12 + |Encode(Split(name))|;
    QueryBytes(transaction, name, queryType);
    assert Be16(1) == [0, 1];
    assert packet[..12] == Header(transaction);
    assert packet[4..6] == Header(transaction)[4..6];
    assert packet[end + 3..] == Be16(1);
  }

  /** A compressed name is its own labels followed by the name its pointer leads to. */
  lemma CompressedName(bytes: seq<byte>, before: seq<byte>, labels: seq<Text>, high: byte, low: byte, after: seq<byte>,
                       depth: nat, decode: Text -> Text)
    requires Readable(labels, decode) && IsPointer(high) && depth <= MAX_DEPTH
    requires bytes == before + Encode(labels) + ([high, low] + after)
    ensures var target := ReadName(bytes, Target(high, low), depth + 1, decode);
            var next := |before| + |Encode(labels)| + 2;
            ReadName(bytes, |before|, depth, decode)
            == if target.Err? then Err(target.error)
               else if target.value.1 == [] then Ok((next, Join(labels)))
               else Ok((next, Join(labels + [target.value.1])))
  {
    var at, tail := |before| + |Encode(labels)|, [high, low] + after;
    TailAt(before, Encode(labels), tail, 0);
    TailAt(before, Encode(labels), tail, 1);
    EndsInPointer(bytes, at, depth, decode);
    LabelsThen(bytes, before, labels, tail, at, ReadLabels(bytes, at, depth, decode), depth, decode);
    assert labels + [] == labels;
  }

  lemma EndsInPointer(bytes: seq<byte>, at: nat, depth: nat, decode: Text -> Text)
    requires depth <= MAX_DEPTH && at + 1 < |bytes| && IsPointer(bytes[at])
    ensures ReadLabels(bytes, at, depth, decode)
            == match ReadName(bytes, Target(bytes[at], bytes[at + 1]), depth + 1, decode)
               case Err(e) => Err(e)
               case Ok((_, suffix)) => Ok((at + 2, if suffix == [] then [] else [suffix]))
  {
  }

  /** The pointers lead from each offset of the path to the next. */
  predicate Chain(bytes: seq<byte>, path: seq<nat>) {
    forall i {:trigger path[i]} :: 0 <= i < |path| - 1 ==> PointsTo(bytes, path[i], path[i + 1])
  }

  predicate PointsTo(bytes: seq<byte>, from: nat, target: nat) {
    from + 1 < |bytes| && bytes[from] >= 192 && (bytes[from] as int - 192) * 256 + bytes[from + 1] as int == target
  }

  lemma FollowOne(bytes: seq<byte>, from: nat, target: nat, depth: nat, decode: Text -> Text)
    requires PointsTo(bytes, from, target) && depth <= MAX_DEPTH
    ensures ReadName(bytes, from, depth, decode)
            == match ReadName(bytes, target, depth + 1, decode)
               case Err(e) => Err(e)
               case Ok((_, name)) => Ok((from + 2, name))
  {
    EndsInPointer(bytes, from, depth, decode);
    assert forall name: Text :: Join([name]) == name;
    assert Join([]) == [];
  }

  /** From position i of the path on, reached through i pointers. */
  lemma {:induction false} ReadAlong(
    bytes: seq<byte>, before: seq<byte>, labels: seq<Text>, after: seq<byte>, path: seq<nat>, i: nat,
    decode: Text -> Text)
    requires Readable(labels, decode) && labels != []
    requires bytes == before + Encode(labels) + ([0] + after)
    requires i < |path| && Chain(bytes, path) && path[|path| - 1] == |before|
    ensures var r, pointers := ReadName(bytes, path[i], i, decode), |path| - 1;
            if pointers <= 16 then r.Ok? && r.value.1 == Join(labels) else r == Err(PointerLoop)
    decreases |path| - i
  {
    if i <= MAX_DEPTH {
      if i == |path| - 1 {
        ReadTerminated(before, labels, after, i, decode);
      } else {
        assert PointsTo(bytes, path[i], path[i + 1]);
        FollowOne(bytes, path[i], path[i + 1], i, decode);
        ReadAlong(bytes, before, labels, after, path, i + 1, decode);
      }
    }
  }

  /** A chain of pointers to a name is followed if and only if it has at most 16 of them. */
  lemma ChainLimit(
    bytes: seq<byte>, before: seq<byte>, labels: seq<Text>, after: seq<byte>, path: seq<nat>, decode: Text -> Text)
    requires Readable(labels, decode) && labels != []
    requires bytes == before + Encode(labels) + ([0] + after)
    requires path != [] && Chain(bytes, path) && path[|path| - 1] == |before|
    ensures var r := ReadName(bytes, path[0], 0, decode);
            if |path| <= 17 then r.Ok? && r.value.1 == Join(labels) else r == Err(PointerLoop)
  {
    ReadAlong(bytes, before, labels, after, path, 0, decode);
  }

  /** Where the labels from `offset` on end in a pointer, if they do. */
  function PointerBehind(bytes: seq<byte>, offset: nat): (at: Option<nat>)
    ensures at.Some? ==> at.value + 1 < |bytes| && IsPointer(bytes[at.value])
    decreases |bytes| - offset
  {
    if offset >= |bytes| then None
    else if IsPointer(bytes[offset]) then (if offset + 1 < |bytes| then Some(offset) else None)
    else if bytes[offset] == 0 || offset + 1 + bytes[offset] > |bytes| then None
    else PointerBehind(bytes, offset + 1 + bytes[offset])
  }

  /** The name at `offset` is some labels, perhaps none, and a pointer to an offset of `cycle`. */
  ghost predicate Stays(bytes: seq<byte>, cycle: set<nat>, offset: nat) {
    var at := PointerBehind(bytes, offset);
    at.Some? && Target(bytes[at.value], bytes[at.value + 1]) in cycle
  }

  /** From every offset of `cycle` reading goes on at an offset of `cycle` again. */
  ghost predicate PointerCycle(bytes: seq<byte>, cycle: set<nat>) {
    forall offset {:trigger Stays(bytes, cycle, offset)} :: offset in cycle ==> Stays(bytes, cycle, offset)
  }

  /** Labels are read in front of an error without hiding it. */
  lemma LabelBeforeError(bytes: seq<byte>, offset: nat, depth: nat, decode: Text -> Text)
    requires depth <= MAX_DEPTH && offset < |bytes| && !IsPointer(bytes[offset]) && bytes[offset] != 0
    requires offset + 1 + bytes[offset] <= |bytes|
    requires ReadLabels(bytes, offset + 1 + bytes[offset], depth, decode) == Err(PointerLoop)
    ensures ReadLabels(bytes, offset, depth, decode) == Err(PointerLoop)
  {
  }

  lemma PointerToError(bytes: seq<byte>, offset: nat, depth: nat, decode: Text -> Text)
    requires depth <= MAX_DEPTH && offset + 1 < |bytes| && IsPointer(bytes[offset])
    requires ReadName(bytes, Target(bytes[offset], bytes[offset + 1]), depth + 1, decode) == Err(PointerLoop)
    ensures ReadLabels(bytes, offset, depth, decode) == Err(PointerLoop)
  {
  }

  /** A pointer loop behind the pointer is a pointer loop of the whole name. */
  lemma {:induction false} FollowsPointer(bytes: seq<byte>, offset: nat, at: nat, depth: nat, decode: Text -> Text)
    requires depth <= MAX_DEPTH && PointerBehind(bytes, offset) == Some(at)
    requires ReadLabels(bytes, at, depth, decode) == Err(PointerLoop)
    ensures ReadLabels(bytes, offset, depth, decode) == Err(PointerLoop)
    decreases |bytes| - offset
  {
    if offset != at {
      assert PointerBehind(bytes, offset + 1 + bytes[offset]) == Some(at);
      FollowsPointer(bytes, offset + 1 + bytes[offset], at, depth, decode);
      LabelBeforeError(bytes, offset, depth, decode);
    }
  }

  /** Names that lead into each other, through pointers and whatever labels stand before them, are
      refused as a loop, however many names there are. */
  lemma {:induction false} CyclesAreRefused(
    bytes: seq<byte>, cycle: set<nat>, offset: nat, depth: nat, decode: Text -> Text)
    requires PointerCycle(bytes, cycle) && offset in cycle
    ensures ReadName(bytes, offset, depth, decode) == Err(PointerLoop)
    decreases MAX_DEPTH + 1 - depth
  {
    if depth <= MAX_DEPTH {
      assert Stays(bytes, cycle, offset);
      var at := PointerBehind(bytes, offset).value;
      CyclesAreRefused(bytes, cycle, Target(bytes[at], bytes[at + 1]), depth + 1, decode);
      PointerToError(bytes, at, depth, decode);
      FollowsPointer(bytes, offset, at, depth, decode);
    }
  }

  /** The ordinary loop: a label, and a pointer back to it. */
  lemma LabelLoopIsRefused(decode: Text -> Text)
    ensures ReadName(Header(0) + [1, 97, 0xc0, 12], 12, 0, decode) == Err(PointerLoop)
  {
    var bytes := Header(0) + [1, 97, 0xc0, 12];
    assert PointerBehind(bytes, 14) == Some(14);
    assert Stays(bytes, {12}, 12);
    CyclesAreRefused(bytes, {12}, 12, 0, decode);
  }
}
