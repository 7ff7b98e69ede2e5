/** The RFC 1071 checksum of crates/packet/src/lib.rs. */
module Checksum {
  import opened Common

  type byte = b: int | 0 <= b < 256

  /** The sum of the big-endian 16-bit words; an odd last byte is padded with zero. */
  function WordTotal(bytes: seq<byte>): nat {
    if bytes == [] then 0
    else if |bytes| == 1 then bytes[0] * 256
    else bytes[0] * 256 + bytes[1] + WordTotal(bytes[2..])
  }

  /** The one's-complement sum of words whose plain sum is `total`: it depends only on the residue of
      the total modulo 65535 and on whether the total is zero. */
  function Folded(total: nat): (sum: nat)
    ensures sum <= 0xffff
    ensures sum == 0 <==> total == 0
  {
    if total == 0 then 0 else if total % 65535 == 0 then 65535 else total % 65535
  }

  /** The checksum of a byte string. */
  function Of(bytes: seq<byte>): (c: nat)
    ensures c <= 0xffff
  {
    0xffff - Folded(WordTotal(bytes))
  }

  /** Folding early or late gives the same sum. */
  lemma FoldedAdd(total: nat, word: nat)
    ensures Folded(Folded(total) + word) == Folded(total + word)
  {
    assert (Folded(total) - total) % 65535 == 0;
    var k := (total - Folded(total)) / 65535;
    assert total == Folded(total) + k * 65535;
    assert (Folded(total) + word + k * 65535) % 65535 == (Folded(total) + word) % 65535;
  }

  /** One end-around carry. */
  lemma CarryKeepsFold(sum: nat)
    requires sum > 0xffff
    ensures Folded(sum % 65536 + sum / 65536) == Folded(sum)
    ensures 0 < sum % 65536 + sum / 65536 < sum
  {
    var high, low := sum / 65536, sum % 65536;
    assert sum == low + high + high * 65535;
    assert (low + high + high * 65535) % 65535 == (low + high) % 65535;
  }

  lemma {:induction false} WordTotalAppend(prefix: seq<byte>, rest: seq<byte>)
    requires |prefix| % 2 == 0
    ensures WordTotal(prefix + rest) == WordTotal(prefix) + WordTotal(rest)
  {
    if prefix == [] {
      assert prefix + rest == rest;
    } else {
      WordTotalAppend(prefix[2..], rest);
      assert (prefix + rest)[2..] == prefix[2..] + rest;
    }
  }

  lemma NextWord(bytes: seq<byte>, i: nat, n: nat)
    requires i % 2 == 0 && i < n <= |bytes| && n - i <= 2 && (n - i == 1 ==> n == |bytes|)
    ensures WordTotal(bytes[..n]) == WordTotal(bytes[..i]) + U16(bytes[i], if n - i == 2 then bytes[i + 1] else 0)
  {
    var word := bytes[i..n];
    assert bytes[..n] == bytes[..i] + word;
    WordTotalAppend(bytes[..i], word);
    if n - i == 2 {
      assert word[2..] == [];
    }
  }

  /** The carry loop: `while sum > 0xffff`. */
  method Carry(start: nat) returns (sum: nat)
    ensures sum == Folded(start)
  {
    sum := start;
    while sum > 0xffff
      invariant Folded(sum) == Folded(start)
    {
      CarryKeepsFold(sum);
      sum := sum % 65536 + sum / 65536;
    }
    SmallFold(sum);
  }

  lemma SmallFold(sum: nat)
    requires sum <= 0xffff
    ensures Folded(sum) == sum
  {
  }

  /** The 32-bit accumulator never wraps around. */
  lemma NoWrap(x: nat)
    requires x < 0x1_0000_0000
    ensures x % 0x1_0000_0000 == x
  {
  }

  /** One round of the loop: a word is added to the 32-bit accumulator and the carry is folded in. */
  method AddWord(sum: nat, word: nat) returns (next: nat)
    requires sum <= 0xffff && word <= 0xffff
    ensures next == Folded(sum + word)
  {
    NoWrap(sum + word);
    next := Carry((sum + word) % 0x1_0000_0000);
  }

  function WordAt(bytes: seq<byte>, i: nat): (word: nat)
    requires i < |bytes|
    ensures word <= 0xffff
  {
    U16(bytes[i], if i + 1 < |bytes| then bytes[i + 1] else 0)
  }

  lemma NextFold(bytes: seq<byte>, i: nat, n: nat)
    requires i % 2 == 0 && i < |bytes| && n == Min(i + 2, |bytes|)
    ensures Folded(Folded(WordTotal(bytes[..i])) + WordAt(bytes, i)) == Folded(WordTotal(bytes[..n]))
  {
    NextWord(bytes, i, n);
    FoldedAdd(WordTotal(bytes[..i]), WordAt(bytes, i));
  }

  /** The loop of internet_checksum, carrying after every word. */
  method InternetChecksum(bytes: seq<byte>) returns (c: nat)
    ensures c == Of(bytes)
  {
    var sum: nat := 0;
    var i := 0;
    while i < |bytes|
      invariant i <= |bytes| && (i % 2 == 0 || i == |bytes|)
      invariant sum == Folded(WordTotal(bytes[..i]))
      decreases |bytes| - i
    {
      var n := Min(i + 2, |bytes|);
      NextFold(bytes, i, n);
      sum := AddWord(sum, WordAt(bytes, i));
      i := n;
    }
    assert bytes[..i] == bytes;
    c := 0xffff - sum;
  }

  // ---------------------------------------------------------------------------------------
  // Big-endian fields
  // ---------------------------------------------------------------------------------------

  function Be16(x: nat): (r: seq<byte>)
    requires x <= 0xffff
    ensures |r| == 2
  {
    [x / 256, x % 256]
  }

  function Be32(x: nat): (r: seq<byte>)
    requires x <= 0xffff_ffff
    ensures |r| == 4
  {
    Be16(x / 65536) + Be16(x % 65536)
  }

  function U16(hi: byte, lo: byte): nat {
    hi * 256 + lo
  }

  function U32(a: byte, b: byte, c: byte, d: byte): nat {
    U16(a, b) * 65536 + U16(c, d)
  }

  lemma Be16RoundTrip(x: nat)
    requires x <= 0xffff
    ensures U16(Be16(x)[0], Be16(x)[1]) == x
  {
  }

  lemma Be32RoundTrip(x: nat)
    requires x <= 0xffff_ffff
    ensures var r := Be32(x); U32(r[0], r[1], r[2], r[3]) == x
  {
    Be16RoundTrip(x / 65536);
    Be16RoundTrip(x % 65536);
  }

  // ---------------------------------------------------------------------------------------
  // Filling in a checksum field
  // ---------------------------------------------------------------------------------------

  function Put16(bytes: seq<byte>, at: nat, x: nat): (r: seq<byte>)
    requires at + 2 <= |bytes| && x <= 0xffff
    ensures |r| == |bytes|
  {
    bytes[..at] + Be16(x) + bytes[at + 2..]
  }

  lemma WordInside(head: seq<byte>, x: nat, tail: seq<byte>)
    requires |head| % 2 == 0 && x <= 0xffff
    ensures WordTotal(head + Be16(x) + tail) == WordTotal(head) + x + WordTotal(tail)
  {
    assert head + Be16(x) + tail == head + (Be16(x) + tail);
    WordTotalAppend(head, Be16(x) + tail);
    WordTotalAppend(Be16(x), tail);
    SingleWord(x);
  }

  lemma ZeroField(bytes: seq<byte>, at: nat)
    requires at + 2 <= |bytes| && bytes[at] == 0 == bytes[at + 1]
    ensures bytes[..at] + Be16(0) + bytes[at + 2..] == bytes
  {
    var zero: seq<byte> := [0, 0];
    assert Be16(0) == zero;
  }

  lemma PutWord(bytes: seq<byte>, at: nat, x: nat)
    requires at % 2 == 0 && at + 2 <= |bytes| && x <= 0xffff && bytes[at] == 0 == bytes[at + 1]
    ensures WordTotal(Put16(bytes, at, x)) == WordTotal(bytes) + x
  {
    WordInside(bytes[..at], x, bytes[at + 2..]);
    WordInside(bytes[..at], 0, bytes[at + 2..]);
    ZeroField(bytes, at);
  }

  lemma SingleWord(x: nat)
    requires x <= 0xffff
    ensures WordTotal(Be16(x)) == x
  {
    var w := Be16(x);
    assert w[2..] == [];
    assert WordTotal(w) == w[0] * 256 + w[1] + WordTotal(w[2..]);
  }

  /** A total and the complement of its fold add up to all ones. */
  lemma ComplementFolds(total: nat)
    ensures Folded(total + (0xffff - Folded(total))) == 0xffff
  {
    var sum := total + (0xffff - Folded(total));
    if total != 0 {
      var k := (total - Folded(total)) / 65535;
      assert total == Folded(total) + k * 65535;
      assert sum == (k + 1) * 65535;
    }
    assert sum % 65535 == 0;
  }

  /** Writing the checksum of a message into its zeroed, word-aligned checksum field makes the whole
      message sum to all ones, so a receiver's checksum over it is zero. */
  lemma ChecksumVerifies(bytes: seq<byte>, at: nat)
    requires at % 2 == 0 && at + 2 <= |bytes| && bytes[at] == 0 == bytes[at + 1]
    ensures Of(Put16(bytes, at, Of(bytes))) == 0
  {
    PutWord(bytes, at, Of(bytes));
    ComplementFolds(WordTotal(bytes));
  }
}
