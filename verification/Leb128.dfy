/** Variable-length integers as section 5.2.2 of the WebAssembly Core Specification 2.0 defines them, for 32 bits. */
module Leb128 {
  import opened Common
  import Unixfs

  type int32 = x: int | -0x8000_0000 <= x < 0x8000_0000

  /** The unsigned form is the one dag-pb uses. */
  function Leb(n: nat): seq<byte> {
    Unixfs.Varint(n)
  }

  /** Zero after a clear sign bit, or minus one after a set one: nothing is left to write. */
  predicate Settled(rest: int, group: int) {
    (rest == 0 && group < 64) || (rest == -1 && group >= 64)
  }

  function SLeb(n: int): seq<byte>
    decreases if n < 0 then -n else n + 1
  {
    if Settled(n / 128, n % 128) then [n % 128] else [n % 128 + 128] + SLeb(n / 128)
  }

  /** The number at the start of s, of at most room groups, and what follows it. */
  function ReadU(s: seq<byte>, room: nat): Option<(nat, seq<byte>)> {
    if room == 0 || s == [] then None
    else if s[0] < 128 then Some((s[0], s[1..]))
    else match ReadU(s[1..], room - 1)
      case None => None
      case Some((v, rest)) => Some((s[0] - 128 + 128 * v, rest))
  }

  /** A last group, with its sign bit. */
  function Signed(group: int): int {
    if group < 64 then group else group - 128
  }

  function ReadS(s: seq<byte>, room: nat): Option<(int, seq<byte>)> {
    if room == 0 || s == [] then None
    else if s[0] < 128 then Some((Signed(s[0]), s[1..]))
    else match ReadS(s[1..], room - 1)
      case None => None
      case Some((v, rest)) => Some((s[0] - 128 + 128 * v, rest))
  }

  /** The low 32 bits of a number, as a two's complement one. */
  function Wrap32(v: int): int32 {
    (v + 0x8000_0000) % 0x1_0000_0000 - 0x8000_0000
  }

  /** A number that fits is unchanged, and numbers 2^32 apart are the same. */
  lemma WrapIs(v: int32, k: int)
    ensures Wrap32(v) == v && Wrap32(v + k * TWO32) == v
  {
    var x := v + 0x8000_0000;
    assert v + k * TWO32 + 0x8000_0000 == k * TWO32 + x && 0 <= x < TWO32;
    var q, r := (k * TWO32 + x) / TWO32, (k * TWO32 + x) % TWO32;
    assert k * TWO32 + x == q * TWO32 + r;
    assert (k - q) * TWO32 == r - x;
  }

  /** 128 to the power k. */
  function Groups(k: nat): (r: nat)
    ensures r > 0
  {
    if k == 0 then 1 else 128 * Groups(k - 1)
  }

  lemma {:induction false} ReadLeb(n: nat, x: seq<byte>, room: nat)
    requires 0 < room && n < Groups(room)
    ensures ReadU(Leb(n) + x, room) == Some((n, x))
  {
    var s := Leb(n) + x;
    if n < 128 {
      assert s[1..] == x;
    } else {
      assert s[1..] == Leb(n / 128) + x;
      ReadLeb(n / 128, x, room - 1);
    }
  }

  lemma {:induction false} ReadSLeb(n: int, x: seq<byte>, room: nat)
    requires 0 < room && 0 - Groups(room) <= 2 * n < Groups(room)
    ensures ReadS(SLeb(n) + x, room) == Some((n, x))
    decreases room
  {
    hide Groups;
    var s := SLeb(n) + x;
    if Settled(n / 128, n % 128) {
      assert s[1..] == x;
    } else {
      Narrower(n, room);
      ReadSLeb(n / 128, x, room - 1);
      assert s[1..] == SLeb(n / 128) + x;
    }
  }

  lemma Narrower(n: int, room: nat)
    requires 0 < room && 0 - Groups(room) <= 2 * n < Groups(room) && !Settled(n / 128, n % 128)
    ensures 1 < room && 0 - Groups(room - 1) <= 2 * (n / 128) < Groups(room - 1)
  {
    var g := Groups(room - 1);
    assert Groups(room) == 128 * g;
    assert room == 1 ==> g == 1;
    assert room > 1 ==> g == 128 * Groups(room - 2);
    hide Groups, Settled;
    OneGroup(n);
    if room > 1 {
      assert n == 128 * (n / 128) + n % 128;
      Quotient(n / 128, n % 128, Groups(room - 2));
    }
  }

  lemma Quotient(q: int, r: int, h: nat)
    requires 0 <= r < 128 && 0 - 8192 * h <= 128 * q + r < 8192 * h
    ensures 0 - 128 * h <= 2 * q < 128 * h
  {
    NotBelow(q + 64 * h, r);
    NotBelow(64 * h - q - 1, 127 - r);
  }

  lemma NotBelow(d: int, r: int)
    requires 0 <= r < 128 && 128 * d + r >= 0
    ensures d >= 0
  {
  }

  lemma OneGroup(n: int)
    ensures -64 <= n < 64 ==> Settled(n / 128, n % 128)
  {
  }

  lemma FiveGroups()
    ensures Groups(5) == 0x8_0000_0000
  {
    assert Groups(3) == 0x20_0000;
  }

  /** 624485 and -123456 in three octets each. */
  lemma Examples()
    ensures Leb(624485) == [0xe5, 0x8e, 0x26] && SLeb(-123456) == [0xc0, 0xbb, 0x78]
    ensures SLeb(63) == [0x3f] && SLeb(64) == [0xc0, 0x00] && SLeb(-64) == [0x40] && SLeb(-65) == [0xbf, 0x7f]
  {
    assert Leb(38) == [0x26];
    assert Leb(4878) == [0x8e, 0x26];
    assert SLeb(-8) == [0x78];
    assert SLeb(-965) == [0xbb, 0x78];
  }

  // ------------------------------------------------------------------- the loops

  method WriteLeb(value: nat) returns (out: seq<byte>)
    requires value < TWO32
    ensures out == Leb(value)
  {
    out := [];
    var n, more := value, true;
    while more
      invariant if more then out + Leb(n) == Leb(value) else out == Leb(value)
      decreases if more then n + 1 else 0
    {
      var b := n % 128;
      ghost var before := n;
      n := n / 128;
      if n != 0 {
        b := b + 128;
      }
      assert Leb(before) == if n == 0 then [b] else [b] + Leb(n);
      out := out + [b];
      more := n != 0;
    }
  }

  /** One more octet of what is left to write. */
  lemma SLebStep(out: seq<byte>, n: int, all: seq<byte>)
    requires out + SLeb(n) == all
    ensures if Settled(n / 128, n % 128) then out + [n % 128] == all else out + [n % 128 + 128] + SLeb(n / 128) == all
  {
  }

  lemma NearerZero(n: int)
    ensures !Settled(n / 128, n % 128) ==> if n < 0 then n < n / 128 < 0 else 0 <= n / 128 < n
  {
  }

  method WriteSLeb(value: int32) returns (out: seq<byte>)
    ensures out == SLeb(value)
  {
    out := [];
    var n: int := value;
    while true
      invariant out + SLeb(n) == SLeb(value)
      decreases if n < 0 then -n else n + 1
    {
      hide SLeb, Settled;
      var b := n % 128;
      SLebStep(out, n, SLeb(value));
      NearerZero(n);
      n := n / 128;
      if Settled(n, b) {
        out := out + [b];
        return;
      }
      out := out + [b + 128];
    }
  }

  /** acc and k groups already read, before the rest. */
  ghost function AfterU(acc: int, k: nat, r: Option<(nat, seq<byte>)>): Option<(int, seq<byte>)> {
    if r.None? then None else Some((acc + Groups(k) * r.value.0, r.value.1))
  }

  ghost function AfterS(acc: int, k: nat, r: Option<(int, seq<byte>)>): Option<(int, seq<byte>)> {
    if r.None? then None else Some((acc + Groups(k) * r.value.0, r.value.1))
  }

  /** The seven value bits of an octet. */
  function Group(b: byte): (g: nat)
    ensures g == if b < 128 then b else b - 128
  {
    b % 128
  }

  lemma OneMore(acc: int, k: nat, g: int, v: int)
    ensures acc + Groups(k) * (g + 128 * v) == (acc + g * Groups(k)) + Groups(k + 1) * v
  {
    assert Groups(k + 1) == 128 * Groups(k);
    assert Groups(k) * (g + 128 * v) == Groups(k) * g + Groups(k) * (128 * v);
    assert Groups(k) * (128 * v) == (128 * Groups(k)) * v;
  }

  lemma StepU(s: seq<byte>, acc: int, k: nat, room: nat)
    requires s != [] && s[0] >= 128
    ensures AfterU(acc, k, ReadU(s, room + 1)) == AfterU(acc + (s[0] - 128) * Groups(k), k + 1, ReadU(s[1..], room))
  {
    var r := ReadU(s[1..], room);
    if r.Some? {
      OneMore(acc, k, s[0] - 128, r.value.0);
    }
  }

  lemma StepS(s: seq<byte>, acc: int, k: nat, room: nat)
    requires s != [] && s[0] >= 128
    ensures AfterS(acc, k, ReadS(s, room + 1)) == AfterS(acc + (s[0] - 128) * Groups(k), k + 1, ReadS(s[1..], room))
  {
    var r := ReadS(s[1..], room);
    if r.Some? {
      OneMore(acc, k, s[0] - 128, r.value.0);
    }
  }

  lemma GroupValues(k: nat)
    requires k <= 5
    ensures Groups(k) == [1, 0x80, 0x4000, 0x20_0000, 0x1000_0000, 0x8_0000_0000][k]
  {
    assert Groups(3) == 0x20_0000;
    assert Groups(5) == 0x8_0000_0000;
  }

  lemma WholeU(r: Option<(nat, seq<byte>)>)
    ensures AfterU(0, 0, r) == r
  {
    assert Groups(0) == 1;
  }

  lemma LastU(s: seq<byte>, acc: int, k: nat, room: nat)
    requires s != [] && s[0] < 128
    ensures AfterU(acc, k, ReadU(s, room + 1)) == Some((acc + Groups(k) * s[0], s[1..]))
  {
  }

  lemma EndU(s: seq<byte>, acc: int, k: nat, room: nat)
    requires s == [] || room == 0
    ensures AfterU(acc, k, ReadU(s, room)) == None
  {
  }

  lemma WholeS(r: Option<(int, seq<byte>)>)
    ensures AfterS(0, 0, r) == r
  {
    assert Groups(0) == 1;
  }

  lemma LastS(s: seq<byte>, acc: int, k: nat, room: nat)
    requires s != [] && s[0] < 128
    ensures AfterS(acc, k, ReadS(s, room + 1)) == Some((acc + Groups(k) * Signed(s[0]), s[1..]))
  {
  }

  lemma EndS(s: seq<byte>, acc: int, k: nat, room: nat)
    requires s == [] || room == 0
    ensures AfterS(acc, k, ReadS(s, room)) == None
  {
  }

  lemma SumBound(acc: nat, k: nat, g: nat)
    requires acc < Groups(k) && g < 128
    ensures acc + g * Groups(k) < Groups(k + 1)
  {
    assert Groups(k + 1) == 128 * Groups(k);
    hide Groups;
    AtMost(g, Groups(k));
  }

  lemma AtMost(g: nat, m: nat)
    requires g < 128
    ensures g * m + m <= 128 * m
  {
    assert 128 * m - (g * m + m) == (127 - g) * m;
    NotNegative(127 - g, m);
  }

  lemma NotNegative(a: nat, b: nat)
    ensures a * b >= 0
  {
  }

  /** Nothing when the number runs past the buffer or past five groups, where the shift is undefined. */
  method ReadLeb128(buf: seq<byte>, start: nat) returns (r: Option<(nat, nat)>)
    requires start <= |buf|
    ensures r.None? <==> ReadU(buf[start..], 5).None?
    ensures r.Some? ==>
      && start < r.value.1 <= |buf|
      && ReadU(buf[start..], 5).value.0 % TWO32 == r.value.0
      && ReadU(buf[start..], 5).value.1 == buf[r.value.1..]
  {
    hide Groups, ReadU, AfterU, Group;
    WholeU(ReadU(buf[start..], 5));
    GroupValues(0);
    var p, acc, k := start, 0, 0;
    while k < 5 && p < |buf|
      invariant 0 <= k <= 5 && p == start + k <= |buf| && 0 <= acc < Groups(k)
      invariant AfterU(acc, k, ReadU(buf[p..], 5 - k)) == AfterU(0, 0, ReadU(buf[start..], 5))
      decreases 5 - k
    {
      var b := buf[p];
      SumBound(acc, k, Group(b));
      assert buf[p..][1..] == buf[p + 1..];
      var sum := acc + Group(b) * Groups(k);
      if b < 128 {
        LastU(buf[p..], acc, k, 4 - k);
        return Some((sum % TWO32, p + 1));
      }
      StepU(buf[p..], acc, k, 4 - k);
      p := p + 1;
      acc := sum;
      k := k + 1;
    }
    EndU(buf[p..], acc, k, 5 - k);
    return None;
  }

  method ReadSLeb128(buf: seq<byte>, start: nat) returns (r: Option<(int32, nat)>)
    requires start <= |buf|
    ensures r.None? <==> ReadS(buf[start..], 5).None?
    ensures r.Some? ==>
      && start < r.value.1 <= |buf|
      && Wrap32(ReadS(buf[start..], 5).value.0) == r.value.0
      && ReadS(buf[start..], 5).value.1 == buf[r.value.1..]
  {
    hide Groups, ReadS, AfterS, Wrap32, Group;
    WholeS(ReadS(buf[start..], 5));
    GroupValues(0);
    var p, acc, k := start, 0, 0;
    while k < 5 && p < |buf|
      invariant 0 <= k <= 5 && p == start + k <= |buf| && 0 <= acc < Groups(k)
      invariant AfterS(acc, k, ReadS(buf[p..], 5 - k)) == AfterS(0, 0, ReadS(buf[start..], 5))
      decreases 5 - k
    {
      var b := buf[p];
      SumBound(acc, k, Group(b));
      assert buf[p..][1..] == buf[p + 1..];
      var sum := acc + Group(b) * Groups(k);
      if b < 128 {
        LastS(buf[p..], acc, k, 4 - k);
        // Four groups or fewer leave sign bits to fill in; after five the shift has dropped the excess.
        if k < 4 && b >= 64 {
          sum := sum - Groups(k + 1);
        }
        SignedSum(acc, k, b);
        return Some((Wrap32(sum), p + 1));
      }
      StepS(buf[p..], acc, k, 4 - k);
      p := p + 1;
      acc := sum;
      k := k + 1;
    }
    EndS(buf[p..], acc, k, 5 - k);
    return None;
  }

  lemma SignedSum(acc: nat, k: nat, b: byte)
    requires k < 5 && b < 128
    ensures k < 4 && b >= 64 ==> acc + Groups(k) * Signed(b) == acc + b * Groups(k) - Groups(k + 1)
    ensures Wrap32(acc + Groups(k) * Signed(b))
         == Wrap32(acc + b * Groups(k) - (if k < 4 && b >= 64 then Groups(k + 1) else 0))
  {
    GroupValues(k);
    GroupValues(k + 1);
  }
}
