/**
 The streaming front ends of SHA-1 and SHA-256: however a message is cut into
 updates, finishing yields the fold of the block function over the message
 padded as section 5.1.1 of FIPS 180-4 says. The block function is a parameter.
 */
module ShaStreaming {
  import opened Common

  type word = x: int | 0 <= x < 0x1_0000_0000

  // -------------------------------------------------------------- specification

  /** The state after the whole 64-octet blocks of m; what is left over is ignored. */
  function Fold<H>(f: (H, seq<byte>) -> H, h: H, m: seq<byte>): H
    decreases |m|
  {
    if |m| < 64 then h else Fold(f, f(h, m[..64]), m[64..])
  }

  function Zeros(n: nat): (z: seq<byte>)
    ensures |z| == n && forall i :: 0 <= i < n ==> z[i] == 0
  {
    seq(n, _ => 0)
  }

  /** The number of zero octets after the marker: the least that fills a block. */
  function ZeroCount(n: nat): (k: nat)
    ensures k < 64 && (n + 1 + k + 8) % 64 == 0
  {
    (119 - n % 64) % 64
  }

  function LengthOctets(n: nat): (r: seq<byte>)
    ensures |r| == 8
  {
    BigEndian(8 * n % TWO64, 8)
  }

  function Padded(m: seq<byte>): (p: seq<byte>)
    ensures |p| % 64 == 0
  {
    m + [0x80] + Zeros(ZeroCount(|m|)) + LengthOctets(|m|)
  }

  lemma EightOctets()
    ensures Pow256(8) == TWO64
  {
    assert Pow256(4) == 0x1_0000_0000;
    assert Pow256(6) == 0x1_0000_0000_0000;
  }

  /** The padding: the marker, the fewest zeros that fill a block, and the length of the message in bits, modulo 2^64. */
  lemma PaddingReads(m: seq<byte>)
    ensures var p := Padded(m);
      && |m| + 9 <= |p| < |m| + 73 && m <= p && p[|m|] == 0x80
      && (forall i :: |m| < i < |p| - 8 ==> p[i] == 0)
      && Octets(p[|p| - 8..]) == 8 * |m| % TWO64
  {
    hide BigEndian;
    var p := Padded(m);
    EightOctets();
    BigEndianReads(8 * |m| % TWO64, 8);
    assert p[|p| - 8..] == LengthOctets(|m|);
  }

  lemma {:induction false} FoldSplit<H>(f: (H, seq<byte>) -> H, h: H, a: seq<byte>, b: seq<byte>)
    requires |a| % 64 == 0
    ensures Fold(f, h, a + b) == Fold(f, Fold(f, h, a), b)
    decreases |a|
  {
    if |a| == 0 {
      assert a + b == b;
    } else {
      FoldSplit(f, f(h, a[..64]), a[64..], b);
      assert (a + b)[..64] == a[..64] && (a + b)[64..] == a[64..] + b;
    }
  }

  /** What is pending in a 64-octet buffer after the message so far. */
  ghost predicate Buffered(m: seq<byte>, buffer: seq<byte>, n: nat) {
    |buffer| == 64 && n < 64 && n <= |m| && (|m| - n) % 64 == 0 && buffer[..n] == m[|m| - n..]
  }

  /** Octets that do not fill the buffer leave the state alone, and octets that do fold it in. */
  lemma FoldMore<H>(f: (H, seq<byte>) -> H, h: H, m: seq<byte>, buffer: seq<byte>, n: nat, more: seq<byte>)
    requires Buffered(m, buffer, n) && n + |more| <= 64
    ensures n + |more| < 64 ==> Fold(f, h, m + more) == Fold(f, h, m)
    ensures n + |more| == 64 ==> Fold(f, h, m + more) == f(Fold(f, h, m), buffer[..n] + more)
  {
    var w := |m| - n;
    var tail := m[w..] + more;
    assert m == m[..w] + m[w..] && m + more == m[..w] + tail;
    FoldSplit(f, h, m[..w], m[w..]);
    FoldSplit(f, h, m[..w], tail);
    var g := Fold(f, h, m[..w]);
    assert Fold(f, g, m[w..]) == g;
    if |tail| == 64 {
      assert tail[..64] == tail && |tail[64..]| == 0;
      assert Fold(f, f(g, tail), tail[64..]) == f(g, tail);
    }
  }

  lemma BufferMore(m: seq<byte>, buffer: seq<byte>, n: nat, more: seq<byte>, now: seq<byte>)
    requires Buffered(m, buffer, n) && n + |more| <= 64
    requires |now| == 64 && now[..n + |more|] == buffer[..n] + more
    ensures n + |more| < 64 ==> Buffered(m + more, now, n + |more|)
    ensures n + |more| == 64 ==> Buffered(m + more, now, 0)
  {
  }

  /** Everything a hash object knows: the pending octets, the count and the state, for a message m. */
  ghost predicate Absorbed<H>(m: seq<byte>, f: (H, seq<byte>) -> H, init: H, buffer: seq<byte>, n: nat, state: H) {
    Buffered(m, buffer, n) && state == Fold(f, init, m)
  }

  lemma AbsorbMore<H>(m: seq<byte>, f: (H, seq<byte>) -> H, init: H, buffer: seq<byte>, n: nat, state: H,
                      more: seq<byte>, now: seq<byte>)
    requires Absorbed(m, f, init, buffer, n, state) && n + |more| <= 64
    requires |now| == 64 && now[..n + |more|] == buffer[..n] + more
    ensures n + |more| < 64 ==> Absorbed(m + more, f, init, now, n + |more|, state)
    ensures n + |more| == 64 ==> Absorbed(m + more, f, init, now, 0, f(state, now))
  {
    hide Buffered, Fold;
    assert n <= 64 by { BufferedRoom(m, buffer, n); }
    FoldMore(f, init, m, buffer, n, more);
    BufferMore(m, buffer, n, more, now);
    assert n + |more| == 64 ==> now[..n + |more|] == now;
  }

  lemma BufferedRoom(m: seq<byte>, buffer: seq<byte>, n: nat)
    requires Buffered(m, buffer, n)
    ensures n < 64 && |buffer| == 64 && n <= |m| && |m| % 64 == n
  {
  }

  lemma PaddingParts(m: seq<byte>, n: nat)
    requires |m| % 64 == n
    ensures n < 56 ==> Padded(m) == m + ([0x80] + Zeros(55 - n) + LengthOctets(|m|))
    ensures n >= 56 ==> Padded(m) == m + [0x80] + Zeros(119 - n) + LengthOctets(|m|)
  {
    hide LengthOctets, Zeros;
    assert n < 56 ==> ZeroCount(|m|) == 55 - n;
    assert n >= 56 ==> ZeroCount(|m|) == 119 - n;
  }

  /** The blocks of a padded message beyond its whole ones: one if fewer than 56 octets are left, or two. */
  lemma FoldPaddedOne<H>(f: (H, seq<byte>) -> H, h: H, m: seq<byte>, buffer: seq<byte>, n: nat)
    requires Buffered(m, buffer, n) && n < 56
    ensures var last := buffer[..n] + [0x80] + Zeros(55 - n) + LengthOctets(|m|);
      Fold(f, h, Padded(m)) == f(Fold(f, h, m), last)
  {
    hide Fold, Buffered, LengthOctets, Zeros, Padded;
    assert n < 64 && 64 == |buffer| by { BufferedRoom(m, buffer, n); }
    var more := [0x80] + Zeros(55 - n) + LengthOctets(|m|);
    assert Padded(m) == m + more by {
      BufferedRoom(m, buffer, n);
      PaddingParts(m, n);
    }
    FoldMore(f, h, m, buffer, n, more);
    assert buffer[..n] + more == buffer[..n] + [0x80] + Zeros(55 - n) + LengthOctets(|m|);
  }

  lemma FoldPaddedTwo<H>(f: (H, seq<byte>) -> H, h: H, m: seq<byte>, buffer: seq<byte>, n: nat)
    requires Buffered(m, buffer, n) && n >= 56
    ensures var first, last := buffer[..n] + [0x80] + Zeros(63 - n), Zeros(56) + LengthOctets(|m|);
      Fold(f, h, Padded(m)) == f(f(Fold(f, h, m), first), last)
  {
    hide Fold, Buffered, LengthOctets, Zeros, Padded;
    assert n < 64 && 64 == |buffer| by { BufferedRoom(m, buffer, n); }
    var more, last := [0x80] + Zeros(63 - n), Zeros(56) + LengthOctets(|m|);
    assert Padded(m) == (m + more) + last by {
      BufferedRoom(m, buffer, n);
      PaddingParts(m, n);
      ZerosSplit(63 - n, 56);
    }
    assert buffer[..n] + more == buffer[..n] + [0x80] + Zeros(63 - n);
    FoldMore(f, h, m, buffer, n, more);
    assert Fold(f, h, (m + more) + last) == f(Fold(f, h, m + more), last) by {
      WholeAfter(m, buffer, n, more);
      FoldWhole(f, h, m + more, last);
    }
  }

  lemma ZerosSplit(a: nat, b: nat)
    ensures Zeros(a + b) == Zeros(a) + Zeros(b)
  {
  }

  lemma WholeAfter(m: seq<byte>, buffer: seq<byte>, n: nat, more: seq<byte>)
    requires Buffered(m, buffer, n) && n + |more| == 64
    ensures |m + more| % 64 == 0
  {
  }

  lemma FoldWhole<H>(f: (H, seq<byte>) -> H, h: H, m: seq<byte>, last: seq<byte>)
    requires |m| % 64 == 0 && |last| == 64
    ensures Fold(f, h, m + last) == f(Fold(f, h, m), last)
  {
    FoldSplit(f, h, m, last);
    var g := Fold(f, h, m);
    assert last[..64] == last && |last[64..]| == 0;
    assert Fold(f, f(g, last), last[64..]) == f(g, last);
  }

  /** Big-endian octets of the state words. */
  function DigestOctets(h: seq<word>): (r: seq<byte>)
    ensures |r| == 4 * |h|
  {
    if h == [] then [] else DigestOctets(h[..|h| - 1]) + BigEndian(h[|h| - 1], 4)
  }

  /** Four octets a word, and each four spell their word. */
  lemma {:induction false} DigestReads(h: seq<word>, i: nat)
    requires i < |h|
    ensures Octets(DigestOctets(h)[4 * i..4 * i + 4]) == h[i]
  {
    hide BigEndian;
    var init, last := h[..|h| - 1], h[|h| - 1];
    assert Pow256(4) == 0x1_0000_0000;
    if i < |init| {
      DigestReads(init, i);
      assert DigestOctets(h)[4 * i..4 * i + 4] == DigestOctets(init)[4 * i..4 * i + 4];
    } else {
      BigEndianReads(last, 4);
      assert DigestOctets(h)[4 * i..4 * i + 4] == BigEndian(last, 4);
    }
  }

  // ---------------------------------------------------------------------- SHA-1

  type Words5 = s: seq<word> | |s| == 5 witness [0, 0, 0, 0, 0]

  const SHA1_INIT: Words5 := [0x67452301, 0xEFCDAB89, 0x98BADCFE, 0x10325476, 0xc3d2e1f0]

  /** A word of four octets from the low end, each by step more than the one before. */
  function Rising(low: int, step: int): int {
    low + 0x100 * (low + step) + 0x1_0000 * (low + 2 * step) + 0x100_0000 * (low + 3 * step)
  }

  /** The initial state, octet by octet from the low end: 01 23 .. ef, fe dc .. 10, f0 e1 d2 c3. */
  lemma Sha1Start()
    ensures SHA1_INIT[0] == Rising(0x01, 0x22) && SHA1_INIT[1] == Rising(0x89, 0x22)
    ensures SHA1_INIT[2] == Rising(0xfe, -0x22) && SHA1_INIT[3] == Rising(0x76, -0x22)
    ensures SHA1_INIT[4] == Rising(0xf0, -0x0f)
  {
  }

  class Sha1 {
    const transform: (Words5, seq<byte>) -> Words5
    const data: array<byte>
    var datalen: nat
    var bitlen: nat
    var state: Words5
    /** Every octet passed to Update so far. */
    ghost var message: seq<byte>

    ghost predicate Valid()
      reads this, data
    {
      && data.Length == 64
      && Absorbed(message, transform, SHA1_INIT, data[..], datalen, state)
      && datalen <= |message| && bitlen == 8 * (|message| - datalen) % TWO64
    }

    constructor (f: (Words5, seq<byte>) -> Words5)
      ensures Valid() && message == [] && transform == f && fresh(data)
    {
      transform := f;
      data := new byte[64](_ => 0);
      datalen, bitlen, state := 0, 0, SHA1_INIT;
      message := [];
    }

    method Update(input: seq<byte>)
      requires Valid()
      modifies this, data
      ensures Valid() && message == old(message) + input
    {
      hide Absorbed;
      for i := 0 to |input|
        invariant Valid() && message == old(message) + input[..i]
      {
        AbsorbedRoom(message, transform, SHA1_INIT, data[..], datalen, state);
        ghost var before, now := data[..], data[..][datalen := input[i]];
        assert now[..datalen + 1] == before[..datalen] + [input[i]];
        AbsorbMore(message, transform, SHA1_INIT, before, datalen, state, [input[i]], now);
        data[datalen] := input[i];
        assert data[..] == now;
        datalen := datalen + 1;
        message := message + [input[i]];
        if datalen == 64 {
          BlockBits(|message|);
          state := transform(state, data[..]);
          bitlen := (bitlen + 512) % TWO64;
          datalen := 0;
        }
      }
      assert input[..|input|] == input;
    }

    /** Writes the marker at datalen and zeros up to limit. */
    method Mark(limit: nat)
      requires data.Length == 64 && datalen < limit <= 64
      modifies data
      ensures data[..limit] == old(data[..datalen]) + [0x80] + Zeros(limit - datalen - 1)
    {
      var i := datalen;
      data[i] := 0x80;
      i := i + 1;
      while i < limit
        invariant datalen < i <= limit
        invariant data[..i] == old(data[..datalen]) + [0x80] + Zeros(i - datalen - 1)
      {
        data[i] := 0;
        i := i + 1;
      }
    }

    method ClearFront()
      requires data.Length == 64
      modifies data
      ensures data[..56] == Zeros(56)
    {
      for j := 0 to 56
        invariant data[..j] == Zeros(j)
      {
        data[j] := 0;
      }
    }

    method PutLength()
      requires data.Length == 64
      modifies data
      ensures data[..] == old(data[..56]) + BigEndian(bitlen, 8)
    {
      hide BigEndian;
      BigEndian8(bitlen);
      data[63] := bitlen % 0x100;
      data[62] := bitlen / 0x100 % 0x100;
      data[61] := bitlen / 0x1_0000 % 0x100;
      data[60] := bitlen / 0x100_0000 % 0x100;
      data[59] := bitlen / 0x1_0000_0000 % 0x100;
      data[58] := bitlen / 0x100_0000_0000 % 0x100;
      data[57] := bitlen / 0x1_0000_0000_0000 % 0x100;
      data[56] := bitlen / 0x100_0000_0000_0000 % 0x100;
    }

    /** Pads, folds in the last one or two blocks and writes the twenty octets of the digest. */
    method Final(hash: array<byte>)
      requires Valid() && hash.Length == 20 && hash != data
      modifies this, data, hash
      ensures hash[..] == DigestOctets(Fold(transform, SHA1_INIT, Padded(old(message))))
    {
      hide Fold, Absorbed, Padded, BigEndian, DigestOctets;
      AbsorbedRoom(message, transform, SHA1_INIT, data[..], datalen, state);
      AbsorbedParts(message, transform, SHA1_INIT, data[..], datalen, state);
      if datalen < 56 {
        FoldPaddedOne(transform, SHA1_INIT, message, data[..], datalen);
        Mark(56);
      } else {
        FoldPaddedTwo(transform, SHA1_INIT, message, data[..], datalen);
        Mark(64);
        assert data[..] == data[..64];
        state := transform(state, data[..]);
        ClearFront();
      }
      TotalBits(|message|, datalen);
      bitlen := (bitlen + datalen * 8) % TWO64;
      PutLength();
      state := transform(state, data[..]);
      WriteDigest(state, hash);
    }
  }

  /** Counting whole blocks as they go and the rest at the end, modulo 2^64, counts every bit. */
  lemma TotalBits(n: nat, rest: nat)
    requires rest <= n
    ensures (8 * (n - rest) % TWO64 + rest * 8) % TWO64 == 8 * n % TWO64
    ensures BigEndian((8 * (n - rest) % TWO64 + rest * 8) % TWO64, 8) == LengthOctets(n)
  {
    hide BigEndian;
    AddWraps(8 * (n - rest), rest * 8);
  }

  lemma AddWraps(x: nat, y: nat)
    ensures (x % TWO64 + y) % TWO64 == (x + y) % TWO64
  {
    var q := x / TWO64;
    assert x + y == q * TWO64 + (x % TWO64 + y);
  }

  /** The count after one more full block. */
  lemma BlockBits(n: nat)
    requires n >= 64
    ensures (8 * (n - 64) % TWO64 + 512) % TWO64 == 8 * n % TWO64
  {
    AddWraps(8 * (n - 64), 512);
  }

  lemma AbsorbedRoom<H>(m: seq<byte>, f: (H, seq<byte>) -> H, init: H, buffer: seq<byte>, n: nat, state: H)
    requires Absorbed(m, f, init, buffer, n, state)
    ensures n < 64 && n <= |m| && |m| % 64 == n
  {
    hide Fold, Buffered;
    BufferedRoom(m, buffer, n);
  }

  lemma AbsorbedParts<H>(m: seq<byte>, f: (H, seq<byte>) -> H, init: H, buffer: seq<byte>, n: nat, state: H)
    requires Absorbed(m, f, init, buffer, n, state)
    ensures Buffered(m, buffer, n) && state == Fold(f, init, m)
  {
  }

  lemma BigEndian4(n: nat)
    ensures BigEndian(n, 4) == [n / 0x100_0000 % 0x100, n / 0x1_0000 % 0x100, n / 0x100 % 0x100, n % 0x100]
  {
    var n1, n2, n3 := n / 0x100, n / 0x1_0000, n / 0x100_0000;
    assert n2 == n1 / 0x100 && n3 == n2 / 0x100;
    assert BigEndian(n3, 1) == [n3 % 0x100];
    assert BigEndian(n2, 2) == [n3 % 0x100, n2 % 0x100];
    assert BigEndian(n1, 3) == [n3 % 0x100, n2 % 0x100, n1 % 0x100];
  }

  /** The octet of weight 256^(3 - i) of a word. */
  function WordOctet(x: word, i: nat): byte
    requires i < 4
  {
    if i == 0 then x / 0x100_0000 % 0x100
    else if i == 1 then x / 0x1_0000 % 0x100
    else if i == 2 then x / 0x100 % 0x100
    else x % 0x100
  }

  lemma DigestAt(h: seq<word>, w: nat, i: nat)
    requires w < |h| && i < 4
    ensures DigestOctets(h)[4 * w + i] == WordOctet(h[w], i)
  {
    if w == |h| - 1 {
      BigEndian4(h[w]);
    } else {
      DigestAt(h[..|h| - 1], w, i);
    }
  }

  /** Octet i of all five words at a time. */
  method WriteDigest(state: Words5, hash: array<byte>)
    requires hash.Length == 20
    modifies hash
    ensures hash[..] == DigestOctets(state)
  {
    hide WordOctet, DigestOctets;
    for i := 0 to 4
      invariant forall w: nat, j: nat :: w < 5 && j < i ==> hash[4 * w + j] == WordOctet(state[w], j)
    {
      hash[i] := WordOctet(state[0], i);
      hash[i + 4] := WordOctet(state[1], i);
      hash[i + 8] := WordOctet(state[2], i);
      hash[i + 12] := WordOctet(state[3], i);
      hash[i + 16] := WordOctet(state[4], i);
    }
    forall k | 0 <= k < 20
      ensures hash[k] == DigestOctets(state)[k]
    {
      DigestAt(state, k / 4, k % 4);
      assert hash[4 * (k / 4) + k % 4] == WordOctet(state[k / 4], k % 4);
    }
  }

  // -------------------------------------------------------------------- SHA-256

  type Words8 = s: seq<word> | |s| == 8 witness [0, 0, 0, 0, 0, 0, 0, 0]

  const SHA256_INIT: Words8 :=
    [0x6a09e667, 0xbb67ae85, 0x3c6ef372, 0xa54ff53a, 0x510e527f, 0x9b05688c, 0x1f83d9ab, 0x5be0cd19]

  /** The k low-order hexadecimal digits of x. */
  function Hex(x: nat, k: nat): string {
    if k == 0 then "" else Hex(x / 16, k - 1) + ["0123456789abcdef"[x % 16]]
  }

  function HexText(h: seq<word>): string {
    if h == [] then "" else HexText(h[..|h| - 1]) + Hex(h[|h| - 1], 8)
  }

  /** w is the first 32 bits of the fraction of the square root of p, whose whole part is n. */
  predicate IsRootFraction(p: nat, n: nat, w: word) {
    var r := n * 0x1_0000_0000 + w;
    r * r <= p * TWO64 < (r + 1) * (r + 1)
  }

  /** The initial state: the fractions of the square roots of the first eight primes. */
  lemma Sha256Start()
    ensures IsRootFraction(2, 1, SHA256_INIT[0]) && IsRootFraction(3, 1, SHA256_INIT[1])
    ensures IsRootFraction(5, 2, SHA256_INIT[2]) && IsRootFraction(7, 2, SHA256_INIT[3])
    ensures IsRootFraction(11, 3, SHA256_INIT[4]) && IsRootFraction(13, 3, SHA256_INIT[5])
    ensures IsRootFraction(17, 4, SHA256_INIT[6]) && IsRootFraction(19, 4, SHA256_INIT[7])
  {
  }

  /** The value of a hexadecimal digit. */
  function DigitValue(c: char): Option<nat> {
    if '0' <= c <= '9' then Some(c as int - '0' as int)
    else if 'a' <= c <= 'f' then Some(c as int - 'a' as int + 10)
    else None
  }

  /** The number that hexadecimal digits spell. */
  function ReadHex(s: string): Option<nat> {
    if s == "" then Some(0)
    else
      match (ReadHex(s[..|s| - 1]), DigitValue(s[|s| - 1]))
      case (Some(high), Some(low)) => Some(16 * high + low)
      case _ => None
  }

  function Pow16(k: nat): nat {
    if k == 0 then 1 else 16 * Pow16(k - 1)
  }

  lemma DigitReads(d: nat)
    requires d < 16
    ensures DigitValue("0123456789abcdef"[d]) == Some(d)
  {
  }

  lemma {:induction false} HexReads(x: nat, k: nat)
    requires x < Pow16(k)
    ensures |Hex(x, k)| == k && ReadHex(Hex(x, k)) == Some(x)
  {
    if k > 0 {
      HexReads(x / 16, k - 1);
      DigitReads(x % 16);
      hide DigitValue;
      assert Hex(x, k)[..k - 1] == Hex(x / 16, k - 1);
    }
  }

  lemma EightDigits()
    ensures Pow16(8) == 0x1_0000_0000
  {
    assert Pow16(4) == 0x1_0000;
  }

  /** Eight digits a word, and each eight read back as their word. */
  lemma {:induction false} TextReads(h: seq<word>, i: nat)
    requires i < |h|
    ensures |HexText(h)| == 8 * |h| && ReadHex(HexText(h)[8 * i..8 * i + 8]) == Some(h[i])
  {
    hide Hex, ReadHex;
    var init, last := h[..|h| - 1], h[|h| - 1];
    EightDigits();
    HexReads(last, 8);
    TextLength(init);
    if i < |init| {
      TextReads(init, i);
      assert HexText(h)[8 * i..8 * i + 8] == HexText(init)[8 * i..8 * i + 8];
    } else {
      assert HexText(h)[8 * i..8 * i + 8] == Hex(last, 8);
    }
  }

  lemma {:induction false} TextLength(h: seq<word>)
    ensures |HexText(h)| == 8 * |h|
  {
    if h != [] {
      EightDigits();
      HexReads(h[|h| - 1], 8);
      TextLength(h[..|h| - 1]);
    }
  }

  class Sha256 {
    const compress: (Words8, seq<byte>) -> Words8
    const buf: array<byte>
    var s: Words8
    var len: nat
    var nbuf: nat
    /** Every octet passed to Update so far. */
    ghost var message: seq<byte>

    ghost predicate Valid()
      reads this, buf
    {
      && buf.Length == 64
      && Absorbed(message, compress, SHA256_INIT, buf[..], nbuf, s)
      && len == |message| % TWO64
    }

    constructor (f: (Words8, seq<byte>) -> Words8)
      ensures Valid() && message == [] && compress == f && fresh(buf)
    {
      compress := f;
      buf := new byte[64](_ => 0);
      s, len, nbuf := SHA256_INIT, 0, 0;
      message := [];
    }

    /** Copies as much as fits, folding the buffer in whenever it is full. */
    method Update(data: seq<byte>)
      requires Valid()
      modifies this, buf
      ensures Valid() && message == old(message) + data
    {
      hide Absorbed;
      AddWraps(|message|, |data|);
      len := (len + |data|) % TWO64;
      ghost var start := message;
      var i := 0;
      while i < |data|
        invariant i <= |data| && message == start + data[..i]
        invariant len == (|start| + |data|) % TWO64
        invariant Absorbed(message, compress, SHA256_INIT, buf[..], nbuf, s)
      {
        AbsorbedRoom(message, compress, SHA256_INIT, buf[..], nbuf, s);
        var take := if |data| - i <= 64 - nbuf then |data| - i else 64 - nbuf;
        ghost var before, more := buf[..], data[i..i + take];
        CopyIn(data, i, take);
        AbsorbMore(message, compress, SHA256_INIT, before, nbuf, s, more, buf[..]);
        assert start + data[..i] + more == start + data[..i + take];
        message := message + more;
        nbuf := nbuf + take;
        i := i + take;
        if nbuf == 64 {
          s := compress(s, buf[..]);
          nbuf := 0;
        }
      }
      assert data[..|data|] == data;
    }

    method CopyIn(data: seq<byte>, from: nat, take: nat)
      requires buf.Length == 64 && nbuf + take <= 64 && from + take <= |data|
      modifies buf
      ensures buf[..nbuf + take] == old(buf[..nbuf]) + data[from..from + take]
    {
      for k := 0 to take
        invariant buf[..nbuf + k] == old(buf[..nbuf]) + data[from..from + k]
      {
        buf[nbuf + k] := data[from + k];
      }
    }

    /** Feeds itself the padding and returns the digest in hexadecimal. */
    method Finish() returns (out: string)
      requires Valid()
      modifies this, buf
      ensures message == Padded(old(message))
      ensures out == HexText(Fold(compress, SHA256_INIT, Padded(old(message))))
    {
      hide Absorbed, Fold, BigEndian;
      ghost var m := message;
      var bits := len * 8 % TWO64;
      assert BigEndian(bits, 8) == LengthOctets(|m|) by { TotalLength(|m|); }
      Update([0x80]);
      ghost var k, zeros := 0, ZeroCount(|m|);
      assert message == m + [0x80] + Zeros(0);
      PadRoom(|m|, 0);
      AbsorbedRoom(message, compress, SHA256_INIT, buf[..], nbuf, s);
      while nbuf != 56
        invariant Valid() && k <= zeros && message == m + [0x80] + Zeros(k)
        invariant nbuf == 56 <==> k == zeros
        decreases zeros - k
      {
        Update([0]);
        assert m + [0x80] + Zeros(k) + [0] == m + [0x80] + Zeros(k + 1);
        k := k + 1;
        PadRoom(|m|, k);
        AbsorbedRoom(message, compress, SHA256_INIT, buf[..], nbuf, s);
      }
      Update(BigEndian(bits, 8));
      AbsorbedParts(message, compress, SHA256_INIT, buf[..], nbuf, s);
      out := "";
      for i := 0 to 8
        invariant out == HexText(s[..i])
      {
        out := out + Hex(s[i], 8);
        assert s[..i + 1][..i] == s[..i];
      }
      assert s[..8] == s;
    }
  }

  lemma TotalLength(n: nat)
    ensures BigEndian(n % TWO64 * 8 % TWO64, 8) == LengthOctets(n)
  {
    hide BigEndian;
    var q, r := n / TWO64, n % TWO64;
    assert 8 * n == 8 * q * TWO64 + r * 8;
    MultipleWraps(8 * q, r * 8);
  }

  lemma MultipleWraps(k: nat, y: nat)
    ensures (k * TWO64 + y) % TWO64 == y % TWO64
  {
    var q, r := y / TWO64, y % TWO64;
    assert k * TWO64 + y == (k + q) * TWO64 + r;
  }

  /** Zeros are written exactly until 56 octets are pending. */
  lemma PadRoom(n: nat, k: nat)
    requires k <= ZeroCount(n)
    ensures (n + 1 + k) % 64 == 56 <==> k == ZeroCount(n)
  {
  }

  /** Hashing a file read in any pieces, empty ones skipped, hashes the whole file. */
  method Sha256File(pieces: seq<seq<byte>>, f: (Words8, seq<byte>) -> Words8) returns (out: string)
    ensures out == HexText(Fold(f, SHA256_INIT, Padded(Concat(pieces))))
  {
    var h := new Sha256(f);
    for i := 0 to |pieces|
      invariant fresh(h) && fresh(h.buf) && h.Valid() && h.compress == f
      invariant h.message == Concat(pieces[..i])
    {
      assert pieces[..i + 1][..i] == pieces[..i];
      if |pieces[i]| > 0 {
        h.Update(pieces[i]);
      }
    }
    assert pieces[..|pieces|] == pieces;
    out := h.Finish();
  }
}
