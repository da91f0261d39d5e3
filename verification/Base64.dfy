/**
 Base64 as section 4 of RFC 4648 defines it, written into and read out of
 buffers; decoding may work in place, over its own input.
 */
module Base64 {
  import opened Common

  const NOT_BASE64 := 64
  const TERMINATOR := 65
  const EQUALS: byte := 61

  /** The character of a six-bit value. */
  function Digit(v: int): (c: byte)
    requires 0 <= v < 64
    ensures Value(c) == v
  {
    if v < 26 then v + 65 else if v < 52 then v + 71 else if v < 62 then v - 4 else if v == 62 then 43 else 47
  }

  /** The alphabet of table 1 of RFC 4648. */
  lemma Alphabet(v: int)
    requires 0 <= v < 64
    ensures Digit(v) as int == (
      if v < 26 then 'A' as int + v else if v < 52 then 'a' as int + v - 26 else if v < 62 then '0' as int + v - 52
      else if v == 62 then '+' as int else '/' as int)
  {
  }

  /** The six-bit value of a character, TERMINATOR for '=', NOT_BASE64 for any other. */
  function Value(c: byte): (v: int)
    ensures 0 <= v <= TERMINATOR
  {
    if 65 <= c <= 90 then c - 65
    else if 97 <= c <= 122 then c - 71
    else if 48 <= c <= 57 then c + 4
    else if c == 43 then 62
    else if c == 47 then 63
    else if c == EQUALS then TERMINATOR
    else NOT_BASE64
  }

  // The four digits of a block of three octets.
  function Get0(a: byte): byte { Digit(a / 4) }

  function Get1(a: byte, b: byte): byte { Digit(a % 4 * 16 + b / 16) }

  function Get2(b: byte, c: byte): byte { Digit(b % 16 * 4 + c / 64) }

  function Get3(c: byte): byte { Digit(c % 64) }

  function Encoded(s: seq<byte>): (t: seq<byte>)
    ensures |t| == 4 * ((|s| + 2) / 3)
  {
    if |s| == 0 then []
    else if |s| == 1 then [Get0(s[0]), Get1(s[0], 0), EQUALS, EQUALS]
    else if |s| == 2 then [Get0(s[0]), Get1(s[0], s[1]), Get2(s[1], 0), EQUALS]
    else [Get0(s[0]), Get1(s[0], s[1]), Get2(s[1], s[2]), Get3(s[2])] + Encoded(s[3..])
  }

  // Examples of section 10 of RFC 4648.

  lemma FoEncoded()
    ensures Encoded(Ascii("f")) == Ascii("Zg==") && Encoded(Ascii("fo")) == Ascii("Zm8=")
  {
  }

  lemma FoobarEncoded()
    ensures Encoded(Ascii("foobar")) == Ascii("Zm9vYmFy")
  {
    var s := Ascii("foobar");
    assert s[..3] == [102, 111, 111] && s[3..] == [98, 97, 114];
    BarEncoded(s[3..]);
    hide Digit;
    FooDigits();
  }

  lemma FooDigits()
    ensures Get0(102) == 90 && Get1(102, 111) == 109 && Get2(111, 111) == 57 && Get3(111) == 118
  {
  }

  lemma BarEncoded(s: seq<byte>)
    requires s == [98, 97, 114]
    ensures Encoded(s) == Ascii("YmFy")
  {
    assert s[3..] == [];
  }

  // The three octets of a block of four digits; the casts to char keep eight bits.
  function First(a: int, b: int): byte { (a * 4 + b / 16) % 256 }

  function Second(b: int, c: int): byte { (b * 16 + c / 4) % 256 }

  function Third(c: int, d: int): byte { (c * 64 + d) % 256 }

  /** A string ends with a NUL, which is no digit. */
  function At(t: seq<byte>, i: nat): int {
    if i < |t| then Value(t[i]) else NOT_BASE64
  }

  /** What the first four characters of t hold: octets, and whether t goes on, ends well or is malformed. */
  datatype Block = Block(bytes: seq<byte>, next: Next)
  datatype Next = More | End | Malformed

  function FirstBlock(t: seq<byte>): Block {
    var a, b, c, d := At(t, 0), At(t, 1), At(t, 2), At(t, 3);
    if a >= 64 then Block([], End)
    else if b >= 64 then Block([], Malformed)
    else if c == NOT_BASE64 || d == NOT_BASE64 then Block([First(a, b)], Malformed)
    else if c == TERMINATOR then Block([First(a, b)], if d == TERMINATOR then End else Malformed)
    else if d == TERMINATOR then Block([First(a, b), Second(b, c)], End)
    else Block([First(a, b), Second(b, c), Third(c, d)], More)
  }

  /** What decoding writes, and whether it accepts its input. */
  datatype Outcome = Outcome(bytes: seq<byte>, ok: bool) {
    function After(out: seq<byte>): Outcome { Outcome(out + bytes, ok) }
  }

  function Decoded(t: seq<byte>): Outcome {
    var block := FirstBlock(t);
    if block.next.More? then Decoded(t[4..]).After(block.bytes) else Outcome(block.bytes, block.next.End?)
  }

  // Three octets survive being written as four digits.
  lemma FirstSurvives(a: byte, b: byte)
    ensures 0 <= Value(Get0(a)) < 64 && 0 <= Value(Get1(a, b)) < 64
    ensures First(Value(Get0(a)), Value(Get1(a, b))) == a
  {
    hide Value, Digit;
    HighPart(a % 4, b / 16);
    assert a / 4 * 4 + a % 4 == a;
  }

  lemma HighPart(y: nat, z: nat)
    requires z < 16
    ensures (y * 16 + z) / 16 == y
  {
  }

  lemma SecondSurvives(a: byte, b: byte, c: byte)
    ensures 0 <= Value(Get2(b, c)) < 64
    ensures Second(Value(Get1(a, b)), Value(Get2(b, c))) == b
  {
    hide Value, Digit;
    var k, x, y := a % 4, b / 16, b % 16;
    LowPart(y, c / 64);
    assert (k * 16 + x) * 16 + y == k * 256 + b;
    Octet(k, b);
  }

  lemma LowPart(y: nat, z: nat)
    requires z < 4
    ensures (y * 4 + z) / 4 == y
  {
  }

  /** The cast to char drops what is above eight bits. */
  lemma Octet(k: nat, b: byte)
    ensures (k * 256 + b) % 256 == b
  {
  }

  lemma ThirdSurvives(b: byte, c: byte)
    ensures 0 <= Value(Get3(c)) < 64
    ensures Third(Value(Get2(b, c)), Value(Get3(c))) == c
  {
    hide Value, Digit;
    var k, x, y := b % 16, c / 64, c % 64;
    assert (k * 4 + x) * 64 + y == k * 256 + c;
    Octet(k, c);
  }

  lemma BlockOfOne(a: byte, tail: seq<byte>)
    ensures FirstBlock([Get0(a), Get1(a, 0), EQUALS, EQUALS] + tail) == Block([a], End)
  {
    hide Get0, Get1, First, Second, Third, Value, FirstBlock;
    EqualsEnds();
    FirstSurvives(a, 0);
    BlockOfDigits(Get0(a), Get1(a, 0), EQUALS, EQUALS, tail);
  }

  lemma BlockOfTwo(a: byte, b: byte, tail: seq<byte>)
    ensures FirstBlock([Get0(a), Get1(a, b), Get2(b, 0), EQUALS] + tail) == Block([a, b], End)
  {
    hide Get0, Get1, Get2, First, Second, Third, Value, FirstBlock;
    EqualsEnds();
    FirstSurvives(a, b);
    SecondSurvives(a, b, 0);
    BlockOfDigits(Get0(a), Get1(a, b), Get2(b, 0), EQUALS, tail);
  }

  lemma BlockOfThree(a: byte, b: byte, c: byte, tail: seq<byte>)
    ensures FirstBlock([Get0(a), Get1(a, b), Get2(b, c), Get3(c)] + tail) == Block([a, b, c], More)
  {
    hide Get0, Get1, Get2, Get3, First, Second, Third, Value, FirstBlock;
    FirstSurvives(a, b);
    SecondSurvives(a, b, c);
    ThirdSurvives(b, c);
    BlockOfDigits(Get0(a), Get1(a, b), Get2(b, c), Get3(c), tail);
  }

  /** The block of four characters the first two of which are digits, and the rest digits or '='. */
  lemma BlockOfDigits(x: byte, y: byte, z: byte, w: byte, tail: seq<byte>)
    requires Value(x) < 64 && Value(y) < 64 && Value(z) != NOT_BASE64 && Value(w) != NOT_BASE64
    ensures var a, b, c, d := Value(x), Value(y), Value(z), Value(w);
      FirstBlock([x, y, z, w] + tail) ==
        if c == TERMINATOR then Block([First(a, b)], if d == TERMINATOR then End else Malformed)
        else if d == TERMINATOR then Block([First(a, b), Second(b, c)], End)
        else Block([First(a, b), Second(b, c), Third(c, d)], More)
  {
    hide First, Second, Third, Value;
  }

  lemma EqualsEnds()
    ensures Value(EQUALS) == TERMINATOR
  {
  }

  /** Decoding undoes encoding, whatever non-digit follows the text. */
  lemma {:induction false} RoundTrip(data: seq<byte>, tail: seq<byte>)
    requires At(tail, 0) >= 64
    ensures Decoded(Encoded(data) + tail) == Outcome(data, true)
    decreases |data|
  {
    hide Get0, Get1, Get2, Get3, FirstBlock, Value;
    var t := Encoded(data) + tail;
    if |data| == 0 {
      assert t == tail;
      EmptyBlock(tail);
    } else if |data| == 1 {
      BlockOfOne(data[0], tail);
    } else if |data| == 2 {
      BlockOfTwo(data[0], data[1], tail);
    } else {
      var digits := [Get0(data[0]), Get1(data[0], data[1]), Get2(data[1], data[2]), Get3(data[2])];
      var rest := Encoded(data[3..]) + tail;
      assert t == digits + rest && t[4..] == rest;
      BlockOfThree(data[0], data[1], data[2], rest);
      RoundTrip(data[3..], tail);
      assert data == [data[0], data[1], data[2]] + data[3..];
    }
  }

  lemma EmptyBlock(t: seq<byte>)
    requires At(t, 0) >= 64
    ensures FirstBlock(t) == Block([], End)
  {
  }

  /** Decoding never writes more than it reads. */
  lemma {:induction false} DecodedShrinks(t: seq<byte>)
    ensures |Decoded(t).bytes| <= |t|
    decreases |t|
  {
    hide First, Second, Third, Value;
    if FirstBlock(t).next.More? {
      DecodedShrinks(t[4..]);
    }
  }

  // ------------------------------------------------------------- canonical texts

  /** The bits of the last digit that stand for no octet are zero. */
  predicate SpareBitsClear(t: seq<byte>) {
    var block := FirstBlock(t);
    if block.next.More? then SpareBitsClear(t[4..])
    else if |block.bytes| == 1 then At(t, 1) % 16 == 0
    else if |block.bytes| == 2 then At(t, 2) % 4 == 0
    else true
  }

  lemma DigitOfValue(c: byte)
    requires Value(c) < 64
    ensures Digit(Value(c)) == c
  {
  }

  // The digits of octets that were read off digits.
  lemma FirstDigits(a: nat, b: nat)
    requires a < 64 && b < 64
    ensures First(a, b) / 4 == a && First(a, b) % 4 == b / 16
  {
    var h := b / 16;
    assert a * 4 + h < 256;
  }

  lemma SecondDigits(b: nat, c: nat)
    requires b < 64 && c < 64
    ensures Second(b, c) / 16 == b % 16 && Second(b, c) % 16 == c / 4
  {
    var h, l := b / 16, b % 16;
    assert b * 16 + c / 4 == h * 256 + (l * 16 + c / 4);
    Octet(h, l * 16 + c / 4);
    HighPart(l, c / 4);
  }

  lemma ThirdDigits(c: nat, d: nat)
    requires c < 64 && d < 64
    ensures Third(c, d) / 64 == c % 4 && Third(c, d) % 64 == d
  {
    var h, l := c / 4, c % 4;
    assert c * 64 + d == h * 256 + (l * 64 + d);
    Octet(h, l * 64 + d);
  }

  /** The block that encodes what a block of digits holds, compared with it. */
  lemma ReEncodedBlock(x: byte, y: byte, z: byte, w: byte)
    requires Value(x) < 64 && Value(y) < 64
    ensures Get0(First(Value(x), Value(y))) == x
    ensures Get1(First(Value(x), Value(y)), 0) == y <==> Value(y) % 16 == 0
    ensures Value(z) < 64 ==>
      && Get1(First(Value(x), Value(y)), Second(Value(y), Value(z))) == y
      && (Get2(Second(Value(y), Value(z)), 0) == z <==> Value(z) % 4 == 0)
    ensures Value(z) < 64 && Value(w) < 64 ==>
      && Get2(Second(Value(y), Value(z)), Third(Value(z), Value(w))) == z
      && Get3(Third(Value(z), Value(w))) == w
  {
    hide Value, Digit, First, Second, Third;
    var a, b, c, d := Value(x), Value(y), Value(z), Value(w);
    FirstDigits(a, b);
    DigitOfValue(x);
    DigitOfValue(y);
    Regroup(b, 16);
    if c < 64 {
      SecondDigits(b, c);
      DigitOfValue(z);
      Regroup(c, 4);
      if d < 64 {
        ThirdDigits(c, d);
        DigitOfValue(w);
      }
    }
  }

  /** An accepted text starts with the encoding of what it decodes to exactly when its spare bits are clear. */
  lemma {:induction false} Canonical(t: seq<byte>)
    requires Decoded(t).ok
    ensures Encoded(Decoded(t).bytes) <= t <==> SpareBitsClear(t)
    decreases |t|
  {
    hide Get0, Get1, Get2, Get3, First, Second, Third, Value, Encoded;
    var block, bytes := FirstBlock(t), Decoded(t).bytes;
    EncodedBlock(bytes);
    if |t| >= 4 && At(t, 0) < 64 && At(t, 1) < 64 {
      ReEncodedBlock(t[0], t[1], t[2], t[3]);
      OnlyEquals(t[2]);
      OnlyEquals(t[3]);
      assert t == [t[0], t[1], t[2], t[3]] + t[4..];
      if block.next.More? {
        Canonical(t[4..]);
        assert bytes[3..] == Decoded(t[4..]).bytes;
        PrefixOfBlock(t, Encoded(bytes), Encoded(bytes[3..]));
      }
    }
  }

  lemma OnlyEquals(c: byte)
    ensures Value(c) == TERMINATOR <==> c == EQUALS
  {
  }

  lemma PrefixOfBlock(t: seq<byte>, e: seq<byte>, rest: seq<byte>)
    requires |t| >= 4 && e == t[..4] + rest
    ensures e <= t <==> rest <= t[4..]
  {
    if e <= t {
      assert forall i :: 0 <= i < |rest| ==> rest[i] == e[4 + i] == t[4 + i] == t[4..][i];
    }
    if rest <= t[4..] {
      assert forall i :: 4 <= i < |e| ==> e[i] == rest[i - 4] == t[4..][i - 4] == t[i];
    }
  }

  lemma Regroup(v: nat, m: nat)
    requires m > 0
    ensures v / m * m + v % m == v && (v / m * m + 0 / m == v <==> v % m == 0)
  {
  }

  // ---------------------------------------------------------------- the loops

  /** dest with t written at n. */
  method Put4(dest: array<byte>, n: nat, x: byte, y: byte, z: byte, w: byte)
    requires n + 4 <= dest.Length
    modifies dest
    ensures dest[..n + 4] == old(dest[..n]) + [x, y, z, w]
    ensures dest[n + 4..] == old(dest[n + 4..])
  {
    dest[n] := x;
    dest[n + 1] := y;
    dest[n + 2] := z;
    dest[n + 3] := w;
  }

  lemma EncodedBlock(s: seq<byte>)
    ensures |s| >= 3 ==>
      Encoded(s) == [Get0(s[0]), Get1(s[0], s[1]), Get2(s[1], s[2]), Get3(s[2])] + Encoded(s[3..])
    ensures |s| == 2 ==> Encoded(s) == [Get0(s[0]), Get1(s[0], s[1]), Get2(s[1], 0), EQUALS]
    ensures |s| == 1 ==> Encoded(s) == [Get0(s[0]), Get1(s[0], 0), EQUALS, EQUALS]
    ensures |s| == 0 ==> Encoded(s) == []
  {
  }

  method Encode(dest: array<byte>, src: seq<byte>) returns (n: nat)
    requires dest.Length > |Encoded(src)|
    modifies dest
    ensures n == |Encoded(src)| && dest[..n] == Encoded(src) && dest[n] == 0
    ensures dest[n + 1..] == old(dest[n + 1..])
  {
    hide Get0, Get1, Get2, Get3, Digit, Encoded;
    n := 0;
    var i := 0;
    assert src[0..] == src;
    while |src| - i >= 3
      invariant 0 <= i <= |src| && n <= dest.Length
      invariant n + |Encoded(src[i..])| == |Encoded(src)|
      invariant dest[..n] + Encoded(src[i..]) == Encoded(src)
      invariant dest[n..] == old(dest[n..])
    {
      EncodedBlock(src[i..]);
      assert src[i..][3..] == src[i + 3..];
      Put4(dest, n, Get0(src[i]), Get1(src[i], src[i + 1]), Get2(src[i + 1], src[i + 2]), Get3(src[i + 2]));
      i := i + 3;
      n := n + 4;
    }
    EncodedBlock(src[i..]);
    if |src| - i == 1 {
      Put4(dest, n, Get0(src[i]), Get1(src[i], 0), EQUALS, EQUALS);
      n := n + 4;
    } else if |src| - i == 2 {
      Put4(dest, n, Get0(src[i]), Get1(src[i], src[i + 1]), Get2(src[i + 1], 0), EQUALS);
      n := n + 4;
    }
    assert dest[..n] == Encoded(src);
    assert dest[n + 1..] == dest[n..][1..];
    assert old(dest[n + 1..]) == old(dest[n..])[1..];
    label Done:
    dest[n] := 0;
    assert dest[..n] == old@Done(dest[..n]) && dest[n + 1..] == old@Done(dest[n + 1..]);
  }

  /** dest starts with out and is as before beyond. */
  ghost predicate Begins(now: seq<byte>, out: seq<byte>, before: seq<byte>) {
    |out| <= |now| == |before| && now == out + before[|out|..]
  }

  /** One more octet written. */
  method Put(dest: array<byte>, p: nat, v: byte, ghost out: seq<byte>, ghost before: seq<byte>)
    requires p == |out| < dest.Length && Begins(dest[..], out, before)
    modifies dest
    ensures Begins(dest[..], out + [v], before)
    ensures forall k :: 0 <= k < dest.Length && k != p ==> dest[k] == old(dest[k])
  {
    dest[p] := v;
  }

  /** One turn of the decoding loop, on the block at s. */
  method DecodeBlock(dest: array<byte>, src: array<byte>, s: nat, p: nat,
                     ghost nul: nat, ghost text: seq<byte>, ghost out: seq<byte>, ghost before: seq<byte>)
    returns (end: nat, next: Next)
    requires p == |out| <= s <= nul < src.Length == |text| && text[nul] == 0
    requires forall k :: s <= k < src.Length ==> src[k] == text[k]
    requires Begins(dest[..], out, before)
    requires |out + FirstBlock(text[s..]).bytes| <= dest.Length
    modifies dest
    ensures Begins(dest[..], out + FirstBlock(text[s..]).bytes, before)
    ensures next == FirstBlock(text[s..]).next && end == |out + FirstBlock(text[s..]).bytes|
    ensures next.More? ==> s + 4 <= nul && end == p + 3
    ensures forall k :: s + 4 <= k < src.Length ==> src[k] == text[k]
  {
    hide Value, First, Second, Third, Begins, At;
    BlockReads(text, s, nul);
    assert out + [] == out;
    end := p;
    var a := Value(src[s]);
    if a == NOT_BASE64 || a == TERMINATOR {
      return end, End;
    }
    var b := Value(src[s + 1]);
    if b == NOT_BASE64 || b == TERMINATOR {
      return end, Malformed;
    }
    Put(dest, end, First(a, b), out, before);
    end := end + 1;
    var c := Value(src[s + 2]);
    if c == NOT_BASE64 {
      return end, Malformed;
    }
    var d := Value(src[s + 3]);
    if d == NOT_BASE64 {
      return end, Malformed;
    }
    if c == TERMINATOR {
      if d != TERMINATOR {
        return end, Malformed;
      }
      return end, End;
    }
    Put(dest, end, Second(b, c), out + [First(a, b)], before);
    assert out + [First(a, b)] + [Second(b, c)] == out + [First(a, b), Second(b, c)];
    end := end + 1;
    if d == TERMINATOR {
      return end, End;
    }
    Put(dest, end, Third(c, d), out + [First(a, b), Second(b, c)], before);
    assert out + [First(a, b), Second(b, c)] + [Third(c, d)] == out + [First(a, b), Second(b, c), Third(c, d)];
    end := end + 1;
    next := More;
  }

  /**
   src holds a NUL-terminated string and dest has room for what is written;
   the two may be the same buffer.
   */
  method Decode(dest: array<byte>, src: array<byte>, ghost nul: nat) returns (end: Option<nat>)
    requires nul < src.Length && src[nul] == 0
    requires dest.Length >= |Decoded(src[..]).bytes|
    modifies dest
    ensures end.Some? <==> old(Decoded(src[..]).ok)
    ensures end.Some? ==> end.value == |old(Decoded(src[..]).bytes)|
    ensures Begins(dest[..], old(Decoded(src[..]).bytes), old(dest[..]))
  {
    hide Decoded, Begins, FirstBlock;
    ghost var text, before, out := src[..], dest[..], [];
    ghost var whole := Decoded(text);
    var s, p, next := 0, 0, More;
    BeginsEmpty(before);
    assert text[0..] == text && whole.bytes == [] + whole.bytes;
    while next.More?
      invariant p == |out| && Begins(dest[..], out, before)
      invariant next.More? ==> p <= s <= nul && whole == Decoded(text[s..]).After(out)
      invariant next.More? ==> forall k :: s <= k < src.Length ==> src[k] == text[k]
      invariant !next.More? ==> whole == Outcome(out, next.End?)
      decreases if next.More? then 1 + nul - s else 0
    {
      ghost var block := FirstBlock(text[s..]);
      Unfold(text, s, out);
      p, next := DecodeBlock(dest, src, s, p, nul, text, out, before);
      out := out + block.bytes;
      s := s + 4;
    }
    return if next.End? then Some(p) else None;
  }

  /** A buffer that holds the text of data comes to hold data. */
  method DecodeInPlace(buf: array<byte>, ghost nul: nat) returns (end: Option<nat>)
    requires nul < buf.Length && buf[nul] == 0
    modifies buf
    ensures end.Some? <==> old(Decoded(buf[..]).ok)
    ensures forall data: seq<byte> :: Encoded(data) + [0] <= old(buf[..]) ==>
      end == Some(|data|) && |data| <= buf.Length && buf[..|data|] == data
  {
    hide Decoded, Encoded, At;
    ghost var text := buf[..];
    DecodedShrinks(text);
    end := Decode(buf, buf, nul);
    forall data: seq<byte> | Encoded(data) + [0] <= text
      ensures end == Some(|data|) && |data| <= buf.Length && buf[..|data|] == data
    {
      var tail := text[|Encoded(data)|..];
      assert text == Encoded(data) + tail && tail[0] == (Encoded(data) + [0])[|Encoded(data)|];
      NulEnds(tail);
      RoundTrip(data, tail);
    }
  }

  lemma NulEnds(t: seq<byte>)
    requires |t| > 0 && t[0] == 0
    ensures At(t, 0) >= 64
  {
  }

  /** Decoding from s is decoding the block at s and then the rest. */
  lemma Unfold(text: seq<byte>, s: nat, out: seq<byte>)
    requires s <= |text|
    ensures var block := FirstBlock(text[s..]);
      && |out + block.bytes| <= |Decoded(text[s..]).After(out).bytes|
      && (block.next.More? ==> s + 4 <= |text| && Decoded(text[s..]).After(out) == Decoded(text[s + 4..]).After(out + block.bytes))
      && (!block.next.More? ==> Decoded(text[s..]).After(out) == Outcome(out + block.bytes, block.next.End?))
  {
    hide Value, First, Second, Third;
    var block := FirstBlock(text[s..]);
    if block.next.More? {
      assert text[s..][4..] == text[s + 4..];
      var rest := Decoded(text[s + 4..]).bytes;
      assert out + (block.bytes + rest) == out + block.bytes + rest;
    }
  }

  /** Reading a block stays within the string. */
  lemma BlockReads(text: seq<byte>, s: nat, nul: nat)
    requires s <= nul < |text| && text[nul] == 0
    ensures At(text[s..], 0) == Value(text[s])
    ensures At(text[s..], 0) < 64 ==> s + 1 <= nul && At(text[s..], 1) == Value(text[s + 1])
    ensures At(text[s..], 0) < 64 && At(text[s..], 1) < 64 ==> s + 2 <= nul && At(text[s..], 2) == Value(text[s + 2])
    ensures At(text[s..], 0) < 64 && At(text[s..], 1) < 64 && At(text[s..], 2) != NOT_BASE64 ==>
      s + 3 <= nul && At(text[s..], 3) == Value(text[s + 3])
    ensures (At(text[s..], 0) < 64 && At(text[s..], 1) < 64 && At(text[s..], 2) != NOT_BASE64
      && At(text[s..], 3) != NOT_BASE64) ==> s + 4 <= nul
  {
    NulIsNoDigit();
  }

  lemma BeginsEmpty(before: seq<byte>)
    ensures Begins(before, [], before)
  {
  }

  lemma NulIsNoDigit()
    ensures Value(0) == NOT_BASE64
  {
  }
}
