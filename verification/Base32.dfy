/**
 The lower-case, unpadded base32 of section 6 of RFC 4648 in which pfs writes
 CIDs: the digits spell the number the octets spell, followed by zero bits up
 to a multiple of five.
 */
module Base32 {
  import opened Common

  // ------------------------------------------------------------- arithmetic

  lemma {:induction false} PowAdd(a: nat, b: nat)
    ensures Pow2(a + b) == Pow2(a) * Pow2(b)
  {
    if b > 0 {
      PowAdd(a, b - 1);
      assert Pow2(a + b) == 2 * Pow2(a + (b - 1));
    }
  }

  lemma FirstPowers()
    ensures Pow2(0) == 1 && Pow2(1) == 2 && Pow2(2) == 4
  {
  }

  lemma KnownPowers()
    ensures Pow2(0) == 1 && Pow2(2) == 4 && Pow2(5) == 32 && Pow2(8) == 256 && Pow2(64) == TWO64
  {
    hide Pow2;
    FirstPowers();
    PowAdd(2, 2);
    PowAdd(4, 1);
    PowAdd(4, 4);
    PowAdd(8, 8);
    PowAdd(16, 16);
    PowAdd(32, 32);
  }

  /** Quotient and remainder are determined by x == q * m + r. */
  lemma DivMod(x: nat, q: int, r: nat, m: nat)
    requires r < m && x == q * m + r
    ensures x / m == q && x % m == r
  {
    var d: int := x / m - q;
    assert x == x / m * m + x % m;
    assert d * m == r - x % m;
    assert d >= 1 ==> d * m >= m;
    assert d <= -1 ==> d * m + m <= 0;
  }

  lemma Parts(x: nat, m: nat)
    requires m > 0
    ensures x == x / m * m + x % m && x % m < m
  {
  }

  lemma Distribute(a: int, b: int, c: int)
    ensures (a + b) * c == a * c + b * c
  {
  }

  lemma Associate(a: int, b: int, c: int)
    ensures (a * b) * c == a * (b * c) == a * (c * b)
  {
  }

  lemma Below(d: nat, r: nat, p: nat, w: nat)
    requires d < w && r < p
    ensures d * p + r < w * p
  {
    assert (d + 1) * p <= w * p;
    Distribute(d, 1, p);
  }

  /** The k bits above the lowest c bits of x. */
  function Field(x: nat, c: nat, k: nat): nat {
    x / Pow2(c) % Pow2(k)
  }

  /** A (c + k)-bit remainder is k bits above a c-bit remainder. */
  lemma SplitField(x: nat, c: nat, k: nat)
    ensures Field(x, c, k) < Pow2(k)
    ensures x % Pow2(c + k) == Field(x, c, k) * Pow2(c) + x % Pow2(c)
  {
    hide Pow2;
    var p, w, d, r := Pow2(c), Pow2(k), Field(x, c, k), x % Pow2(c);
    PowAdd(c, k);
    var y := x / p;
    var e := y / w;
    SplitParts(x, y, r, e, d, p, w);
  }

  lemma SplitParts(x: nat, y: nat, r: nat, e: nat, d: nat, p: nat, w: nat)
    requires p > 0 && w > 0 && y == x / p && r == x % p && e == y / w && d == y % w
    ensures d < w && x % (p * w) == d * p + r
  {
    Parts(x, p);
    Parts(y, w);
    Distribute(e * w, d, p);
    Associate(e, w, p);
    Below(d, r, p, w);
    DivMod(x, e, d * p + r, p * w);
  }

  /** Shifting k bits in, modulo 2^64, keeps the c pending bits above them. */
  lemma ShiftIn(x: nat, c: nat, v: nat, k: nat)
    requires v < Pow2(k) && c + k <= 64
    ensures (x * Pow2(k) + v) % TWO64 % Pow2(c + k) == x % Pow2(c) * Pow2(k) + v
  {
    hide Pow2;
    KnownPowers();
    PowAdd(c, k);
    PowAdd(c + k, 64 - c - k);
    var z := x * Pow2(k) + v;
    ShiftParts(x, z / TWO64, z % TWO64, v, x / Pow2(c), x % Pow2(c), Pow2(c), Pow2(k), Pow2(64 - c - k));
  }

  lemma ShiftParts(x: nat, a: nat, s: nat, v: nat, y: nat, r: nat, p: nat, w: nat, t: nat)
    requires p > 0 && v < w && y == x / p && r == x % p
    requires x * w + v == a * (p * w * t) + s
    ensures s % (p * w) == r * w + v
  {
    var m := p * w;
    Parts(x, p);
    ShiftSum(x, v, y, r, p, w);
    assert a * (m * t) == (a * t) * m by { Associate(a, t, m); }
    Below(r, v, w, p);
    DifferenceOf(y, a * t, m);
    DivMod(s, y - a * t, r * w + v, m);
  }

  lemma ShiftSum(x: nat, v: nat, y: nat, r: nat, p: nat, w: nat)
    requires x == y * p + r
    ensures x * w + v == y * (p * w) + (r * w + v)
  {
    Distribute(y * p, r, w);
    Associate(y, p, w);
  }

  lemma DifferenceOf(y: int, z: int, m: int)
    ensures (y - z) * m == y * m - z * m
  {
  }

  /** Moving a k-bit field d from the pending bits to the emitted number n. */
  lemma Emit(n: nat, d: nat, r: nat, c: nat, k: nat)
    ensures n * Pow2(c + k) + (d * Pow2(c) + r) == (n * Pow2(k) + d) * Pow2(c) + r
  {
    hide Pow2;
    PowAdd(c, k);
    Distribute(n * Pow2(k), d, Pow2(c));
    Associate(n, Pow2(k), Pow2(c));
  }

  // ------------------------------------------------------------- specification

  type digit = x: int | 0 <= x < 32

  /** The number a string of base32 digits spells. */
  function Number(ds: seq<digit>): nat {
    if ds == [] then 0 else Number(ds[..|ds| - 1]) * 32 + ds[|ds| - 1]
  }

  lemma NumberAppend(ds: seq<digit>, d: digit)
    ensures Number(ds + [d]) == Number(ds) * 32 + d
  {
    assert (ds + [d])[..|ds|] == ds;
  }

  lemma {:induction false} OctetsUnique(a: seq<byte>, b: seq<byte>)
    requires |a| == |b| && Octets(a) == Octets(b)
    ensures a == b
  {
    if a != [] {
      OctetsUnique(a[..|a| - 1], b[..|b| - 1]);
      assert a == a[..|a| - 1] + [a[|a| - 1]];
      assert b == b[..|b| - 1] + [b[|b| - 1]];
    }
  }

  lemma {:induction false} NumberUnique(a: seq<digit>, b: seq<digit>)
    requires |a| == |b| && Number(a) == Number(b)
    ensures a == b
  {
    if a != [] {
      NumberUnique(a[..|a| - 1], b[..|b| - 1]);
      assert a == a[..|a| - 1] + [a[|a| - 1]];
      assert b == b[..|b| - 1] + [b[|b| - 1]];
    }
  }

  /** ds is the shortest digit string for data: its number, shifted by fewer than five zero bits. */
  ghost predicate Encodes(ds: seq<digit>, data: seq<byte>) {
    var fill := 5 * |ds| - 8 * |data|;
    0 <= fill < 5 && Number(ds) == Octets(data) * Pow2(fill)
  }

  /** data is what ds holds in whole octets; fewer than eight trailing bits are dropped. */
  ghost predicate Decodes(data: seq<byte>, ds: seq<digit>) {
    var spare := 5 * |ds| - 8 * |data|;
    0 <= spare < 8 && Octets(data) == Number(ds) / Pow2(spare)
  }

  lemma EncodedLength(ds: seq<digit>, data: seq<byte>)
    requires Encodes(ds, data)
    ensures |ds| == (8 * |data| + 4) / 5
  {
  }

  /** Each octet string has one digit string, */
  lemma EncodingUnique(a: seq<digit>, b: seq<digit>, data: seq<byte>)
    requires Encodes(a, data) && Encodes(b, data)
    ensures a == b
  {
    NumberUnique(a, b);
  }

  /** each digit string one octet string, */
  lemma DecodingUnique(a: seq<byte>, b: seq<byte>, ds: seq<digit>)
    requires Decodes(a, ds) && Decodes(b, ds)
    ensures a == b
  {
    OctetsUnique(a, b);
  }

  /** and the second undoes the first. */
  lemma RoundTrip(ds: seq<digit>, data: seq<byte>, out: seq<byte>)
    requires Encodes(ds, data) && Decodes(out, ds)
    ensures out == data
  {
    DivMod(Number(ds), Octets(data), 0, Pow2(5 * |ds| - 8 * |data|));
    DecodingUnique(data, out, ds);
  }

  // ---------------------------------------------------------------- characters

  const ALPHABET := "abcdefghijklmnopqrstuvwxyz234567"

  /** The value of a character, either case, or -1. */
  function CharValue(c: char): (v: int)
    ensures -1 <= v < 32
    ensures forall d: digit :: ALPHABET[d] == c ==> v == d
  {
    if 'a' <= c <= 'z' then c as int - 'a' as int
    else if '2' <= c <= '7' then c as int - '2' as int + 26
    else if 'A' <= c <= 'Z' then c as int - 'A' as int
    else -1
  }

  predicate Legal(s: string) {
    forall i :: 0 <= i < |s| ==> CharValue(s[i]) >= 0
  }

  predicate InAlphabet(s: string) {
    forall i :: 0 <= i < |s| ==> s[i] in ALPHABET
  }

  function DigitsOf(s: string): (ds: seq<digit>)
    requires Legal(s)
    ensures |ds| == |s| && forall i :: 0 <= i < |s| ==> ds[i] == CharValue(s[i])
  {
    seq(|s|, i requires 0 <= i < |s| => CharValue(s[i]))
  }

  lemma AlphabetIsLegal(s: string)
    requires InAlphabet(s)
    ensures Legal(s)
  {
    forall i | 0 <= i < |s|
      ensures CharValue(s[i]) >= 0
    {
      var d :| 0 <= d < |ALPHABET| && ALPHABET[d] == s[i];
      var e: digit := d;
      assert ALPHABET[e] == s[i];
    }
  }

  /** Strings over the alphabet are determined by their digits. */
  lemma AlphabetDetermined(s: string, t: string)
    requires InAlphabet(s) && InAlphabet(t) && Legal(s) && Legal(t) && DigitsOf(s) == DigitsOf(t)
    ensures s == t
  {
    assert |s| == |DigitsOf(s)| == |DigitsOf(t)| == |t|;
    forall i | 0 <= i < |s|
      ensures s[i] == t[i]
    {
      assert DigitsOf(s)[i] == DigitsOf(t)[i];
      var d: digit :| ALPHABET[d] == s[i];
      var e: digit :| ALPHABET[e] == t[i];
    }
  }

  /** An example of section 10 of RFC 4648: "foobar" is "mzxw6ytboi". */
  lemma FoobarEncoded()
    ensures Legal("mzxw6ytboi") && Encodes(DigitsOf("mzxw6ytboi"), Ascii("foobar"))
  {
    hide Number, Octets;
    var ds, data := DigitsOf("mzxw6ytboi"), Ascii("foobar");
    assert ds == [12, 25, 23, 22, 30, 24, 19, 1, 14, 8];
    assert data == [102, 111, 111, 98, 97, 114];
    FoobarNumber();
    FoobarOctets();
    FirstPowers();
  }

  lemma FoobarNumber()
    ensures Number([12, 25, 23, 22, 30, 24, 19, 1, 14, 8]) == 450515184485832
  {
    hide Number;
    NumberNone();
    NumberAppend([], 12);
    assert [] + [12] == [12];
    NumberAppend([12], 25);
    assert [12] + [25] == [12, 25];
    NumberAppend([12, 25], 23);
    assert [12, 25] + [23] == [12, 25, 23];
    NumberAppend([12, 25, 23], 22);
    assert [12, 25, 23] + [22] == [12, 25, 23, 22];
    NumberAppend([12, 25, 23, 22], 30);
    assert [12, 25, 23, 22] + [30] == [12, 25, 23, 22, 30];
    NumberAppend([12, 25, 23, 22, 30], 24);
    assert [12, 25, 23, 22, 30] + [24] == [12, 25, 23, 22, 30, 24];
    NumberAppend([12, 25, 23, 22, 30, 24], 19);
    assert [12, 25, 23, 22, 30, 24] + [19] == [12, 25, 23, 22, 30, 24, 19];
    NumberAppend([12, 25, 23, 22, 30, 24, 19], 1);
    assert [12, 25, 23, 22, 30, 24, 19] + [1] == [12, 25, 23, 22, 30, 24, 19, 1];
    NumberAppend([12, 25, 23, 22, 30, 24, 19, 1], 14);
    assert [12, 25, 23, 22, 30, 24, 19, 1] + [14] == [12, 25, 23, 22, 30, 24, 19, 1, 14];
    NumberAppend([12, 25, 23, 22, 30, 24, 19, 1, 14], 8);
    assert [12, 25, 23, 22, 30, 24, 19, 1, 14] + [8] == [12, 25, 23, 22, 30, 24, 19, 1, 14, 8];
  }

  lemma FoobarOctets()
    ensures Octets([102, 111, 111, 98, 97, 114]) == 112628796121458
  {
    hide Octets;
    NumberNone();
    OctetsAppend([], 102);
    assert [] + [102] == [102];
    OctetsAppend([102], 111);
    assert [102] + [111] == [102, 111];
    OctetsAppend([102, 111], 111);
    assert [102, 111] + [111] == [102, 111, 111];
    OctetsAppend([102, 111, 111], 98);
    assert [102, 111, 111] + [98] == [102, 111, 111, 98];
    OctetsAppend([102, 111, 111, 98], 97);
    assert [102, 111, 111, 98] + [97] == [102, 111, 111, 98, 97];
    OctetsAppend([102, 111, 111, 98, 97], 114);
    assert [102, 111, 111, 98, 97] + [114] == [102, 111, 111, 98, 97, 114];
  }

  // ------------------------------------------------------------------ the loops

  /** bits pending in buf below the digits already emitted for the number n. */
  ghost predicate Pending(n: nat, emitted: nat, buf: nat, bits: nat) {
    n == emitted * Pow2(bits) + buf % Pow2(bits)
  }

  lemma PendingShift(n: nat, emitted: nat, buf: nat, bits: nat, v: nat, k: nat)
    requires Pending(n, emitted, buf, bits) && v < Pow2(k) && bits + k <= 64
    ensures Pending(n * Pow2(k) + v, emitted, (buf * Pow2(k) + v) % TWO64, bits + k)
  {
    hide Pow2;
    ShiftIn(buf, bits, v, k);
    PowAdd(bits, k);
    Distribute(emitted * Pow2(bits), buf % Pow2(bits), Pow2(k));
    Associate(emitted, Pow2(bits), Pow2(k));
  }

  lemma PendingEmit(n: nat, emitted: nat, buf: nat, bits: nat, k: nat)
    requires Pending(n, emitted, buf, bits + k)
    ensures Field(buf, bits, k) < Pow2(k)
    ensures Pending(n, emitted * Pow2(k) + Field(buf, bits, k), buf, bits)
  {
    SplitField(buf, bits, k);
    Emit(emitted, Field(buf, bits, k), buf % Pow2(bits), bits, k);
  }

  lemma PendingNone(buf: nat)
    ensures Pending(0, 0, buf, 0)
  {
  }

  lemma PendingEmpty(n: nat, emitted: nat, buf: nat)
    requires Pending(n, emitted, buf, 0)
    ensures n == emitted
  {
  }

  lemma PendingPad(n: nat, emitted: nat, buf: nat, bits: nat)
    requires Pending(n, emitted, buf, bits) && bits < 5
    ensures (buf * Pow2(5 - bits)) % TWO64 % 32 < 32
    ensures emitted * 32 + (buf * Pow2(5 - bits)) % TWO64 % 32 == n * Pow2(5 - bits)
  {
    hide Pow2;
    KnownPowers();
    PendingShift(n, emitted, buf, bits, 0, 5 - bits);
  }

  method Encode(data: seq<byte>) returns (out: string)
    ensures InAlphabet(out) && Legal(out)
    ensures Encodes(DigitsOf(out), data)
  {
    hide Pow2, Number, Octets, Field, Pending;
    KnownPowers();
    ghost var ds: seq<digit> := [];
    out := "";
    var buf, bits := 0, 0;
    PendingNone(0);
    NumberNone();
    for i := 0 to |data|
      invariant 0 <= buf < TWO64 && 0 <= bits < 5
      invariant 8 * i == 5 * |ds| + bits
      invariant Pending(Octets(data[..i]), Number(ds), buf, bits)
      invariant Spells(out, ds)
    {
      var b := data[i];
      PendingShift(Octets(data[..i]), Number(ds), buf, bits, b, 8);
      OctetsAppend(data[..i], b);
      assert data[..i + 1] == data[..i] + [b];
      buf := (buf * 256 + b) % TWO64;
      bits := bits + 8;
      while bits >= 5
        invariant 0 <= buf < TWO64 && 0 <= bits < 13
        invariant 8 * (i + 1) == 5 * |ds| + bits
        invariant Pending(Octets(data[..i + 1]), Number(ds), buf, bits)
        invariant Spells(out, ds)
      {
        bits := bits - 5;
        PendingEmit(Octets(data[..i + 1]), Number(ds), buf, bits, 5);
        var d: digit := Field(buf, bits, 5);
        NumberAppend(ds, d);
        out := out + [ALPHABET[d]];
        ds := ds + [d];
      }
    }
    assert data[..|data|] == data;
    if bits > 0 {
      PendingPad(Octets(data), Number(ds), buf, bits);
      var d: digit := (buf * Pow2(5 - bits)) % TWO64 % 32;
      NumberAppend(ds, d);
      out := out + [ALPHABET[d]];
      ds := ds + [d];
    } else {
      PendingEmpty(Octets(data), Number(ds), buf);
    }
    SpelledDigits(out, ds);
  }

  lemma NumberNone()
    ensures Number([]) == 0 && Octets([]) == 0
  {
  }

  ghost predicate Spells(s: string, ds: seq<digit>) {
    |s| == |ds| && forall i :: 0 <= i < |s| ==> s[i] == ALPHABET[ds[i]]
  }

  lemma SpelledDigits(s: string, ds: seq<digit>)
    requires Spells(s, ds)
    ensures InAlphabet(s) && Legal(s) && DigitsOf(s) == ds
  {
    AlphabetIsLegal(s);
  }

  datatype Error = EmptyString | BadPrefix | InvalidCharacter | SizeMismatch

  method Decode(s: string) returns (r: Result<seq<byte>, Error>)
    ensures r == Err(InvalidCharacter) <==> !Legal(s)
    ensures r.Ok? <==> Legal(s)
    ensures r.Ok? ==> Decodes(r.value, DigitsOf(s))
  {
    hide Pow2, Number, Octets, Field, Pending;
    KnownPowers();
    var out: seq<byte> := [];
    var buf, bits := 0, 0;
    PendingNone(0);
    NumberNone();
    for i := 0 to |s|
      invariant 0 <= buf < TWO64 && 0 <= bits < 8
      invariant 5 * i == 8 * |out| + bits
      invariant Legal(s[..i])
      invariant Pending(Number(DigitsOf(s[..i])), Octets(out), buf, bits)
    {
      var v := CharValue(s[i]);
      if v < 0 {
        return Err(InvalidCharacter);
      }
      assert Legal(s[..i + 1]);
      PendingShift(Number(DigitsOf(s[..i])), Octets(out), buf, bits, v, 5);
      NumberAppend(DigitsOf(s[..i]), v);
      assert DigitsOf(s[..i + 1]) == DigitsOf(s[..i]) + [v];
      buf := (buf * 32 + v) % TWO64;
      bits := bits + 5;
      if bits >= 8 {
        bits := bits - 8;
        PendingEmit(Number(DigitsOf(s[..i + 1])), Octets(out), buf, bits, 8);
        var b: byte := Field(buf, bits, 8);
        OctetsAppend(out, b);
        out := out + [b];
      }
    }
    assert s[..|s|] == s;
    PendingQuotient(Number(DigitsOf(s)), Octets(out), buf, bits);
    return Ok(out);
  }

  lemma PendingQuotient(n: nat, emitted: nat, buf: nat, bits: nat)
    requires Pending(n, emitted, buf, bits)
    ensures emitted == n / Pow2(bits)
  {
    DivMod(n, emitted, buf % Pow2(bits), Pow2(bits));
  }

  // ------------------------------------------------------------------------ CIDs

  const CID_SIZE := 36

  type Cid = s: seq<byte> | |s| == CID_SIZE witness seq(CID_SIZE, _ => 0)

  /** s is the written form of c. */
  ghost predicate Written(s: string, c: Cid) {
    |s| > 0 && s[0] == 'b' && InAlphabet(s[1..]) && Legal(s[1..]) && Encodes(DigitsOf(s[1..]), c)
  }

  method ToString(c: Cid) returns (s: string)
    ensures Written(s, c) && |s| == 59
  {
    var digits := Encode(c);
    s := "b" + digits;
    assert s[1..] == digits;
  }

  /** What parsing a CID string yields. */
  ghost predicate Parses(s: string, r: Result<Cid, Error>) {
    if s == "" then r == Err(EmptyString)
    else if s[0] != 'b' && s[0] != 'B' then r == Err(BadPrefix)
    else if !Legal(s[1..]) then r == Err(InvalidCharacter)
    else if 5 * (|s| - 1) / 8 != CID_SIZE then r == Err(SizeMismatch)
    else r.Ok? && Decodes(r.value, DigitsOf(s[1..]))
  }

  method FromString(s: string) returns (r: Result<Cid, Error>)
    ensures Parses(s, r)
  {
    if |s| == 0 {
      return Err(EmptyString);
    }
    if s[0] != 'b' && s[0] != 'B' {
      return Err(BadPrefix);
    }
    var decoded := Decode(s[1..]);
    if decoded.Err? {
      return Err(decoded.error);
    }
    if |decoded.value| != CID_SIZE {
      return Err(SizeMismatch);
    }
    return Ok(decoded.value);
  }

  /** b is a with some letters possibly in the other case. */
  ghost predicate SameLetters(a: string, b: string) {
    |a| == |b| && forall i :: 0 <= i < |a| ==> CharValue(a[i]) == CharValue(b[i])
  }

  lemma SamePrefix(c: char)
    requires CharValue(c) == CharValue('b')
    ensures c == 'b' || c == 'B'
  {
  }

  /** The written form of a CID, in any mixture of cases, parses back to it. */
  lemma StringRoundTrip(c: Cid, s: string, t: string, r: Result<Cid, Error>)
    requires Written(s, c) && SameLetters(s, t) && Parses(t, r)
    ensures r == Ok(c)
  {
    hide CharValue, Encodes, Decodes, InAlphabet;
    assert |DigitsOf(s[1..])| == 58 by { EncodedLength(DigitsOf(s[1..]), c); }
    SamePrefix(t[0]);
    forall i | 0 <= i < |t| - 1
      ensures CharValue(t[1..][i]) == CharValue(s[1..][i])
    {
      assert CharValue(t[i + 1]) == CharValue(s[i + 1]);
    }
    assert Legal(t[1..]) && DigitsOf(t[1..]) == DigitsOf(s[1..]);
    RoundTrip(DigitsOf(s[1..]), c, r.value);
  }

  /**
   A parsed string is the one its CID is written as exactly when it is lower
   case throughout, has 59 characters, and ends in a digit with two low zero bits.
   */
  lemma Canonical(s: string, c: Cid, t: string)
    requires Parses(s, Ok(c)) && Written(t, c)
    ensures s == t <==> s[0] == 'b' && InAlphabet(s[1..]) && |s| == 59 && CharValue(s[58]) % 4 == 0
  {
    hide InAlphabet, Octets, Number, Pow2, CharValue, Legal;
    KnownPowers();
    assert |t| == 59;
    if |s| == 59 {
      var ds := DigitsOf(s[1..]);
      assert |ds| == 58 && ds[57] == CharValue(s[58]);
      LastDigit(ds);
      Quarter(Number(ds), Octets(c));
      if s[0] == 'b' && InAlphabet(s[1..]) && ds[57] % 4 == 0 {
        EncodingUnique(ds, DigitsOf(t[1..]), c);
        AlphabetDetermined(s[1..], t[1..]);
        assert s == [s[0]] + s[1..] && t == [t[0]] + t[1..];
      }
    }
  }

  lemma LastDigit(ds: seq<digit>)
    requires ds != []
    ensures Number(ds) % 4 == ds[|ds| - 1] % 4
  {
    assert Number(ds) == 4 * (8 * Number(ds[..|ds| - 1])) + ds[|ds| - 1];
  }

  lemma Quarter(n: nat, q: nat)
    requires q == n / 4
    ensures n == q * 4 <==> n % 4 == 0
  {
  }

}
