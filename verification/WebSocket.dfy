/**
 WebSocket framing, section 5.2 of RFC 6455: the frame grammar as an automaton
 over single bytes, the frame builder's byte layout, and their relation.
 */
module WebSocket {
  import opened Common

  datatype Phase = Start | Head | Length | Mask | Body

  /** What the parser carries from one byte to the next; on the wasm32 target a size_t has 32 bits. */
  datatype Parser = Parser(phase: Phase, op: nat, fin: bool, masked: bool, mask: seq<byte>, length: nat, require: nat) {
    /** Kept from the start on. */
    ghost predicate Ok() {
      && |mask| == 4 && op < 16 && length < TWO32
      && (phase.Start? || phase.Head? ==> require == 0)
      && (phase.Length? ==> 1 <= require <= 8)
      && (phase.Mask? ==> 1 <= require <= 4)
      && (phase.Body? ==> 1 <= require <= length)
    }
  }

  const Fresh := Parser(Start, 0, false, false, [0, 0, 0, 0], 0, 0)

  /** The callbacks, the body one byte at a time; a mask is reported only for a masked frame. */
  datatype Event =
    | FrameHeader(op: nat, fin: bool, mask: Option<seq<byte>>, length: nat)
    | BodyByte(b: byte)
    | FrameEnd

  function HeaderOf(q: Parser): Event {
    FrameHeader(q.op, q.fin, if q.masked then Some(q.mask) else None, q.length)
  }

  /** The header is complete: on to the body, or the frame is empty. */
  function Announce(q: Parser): (Parser, seq<Event>) {
    if q.length > 0 then (q.(phase := Body, require := q.length), [HeaderOf(q)])
    else (q.(phase := Start), [HeaderOf(q), FrameEnd])
  }

  function AfterLength(q: Parser): (Parser, seq<Event>) {
    if q.require > 0 then (q, [])
    else if q.masked then (q.(phase := Mask, require := 4), [])
    else Announce(q)
  }

  function AfterMask(q: Parser): (Parser, seq<Event>) {
    if q.require > 0 then (q, []) else Announce(q)
  }

  /** One more octet shifted in, in 32 bits. */
  function Shifted(length: nat, b: byte): (r: nat)
    ensures r < TWO32
  {
    (length * 256 + b) % TWO32
  }

  function LengthByte(q: Parser, b: byte): Parser
    requires q.require > 0
  {
    q.(length := Shifted(q.length, b), require := q.require - 1)
  }

  function MaskByte(q: Parser, b: byte): Parser
    requires |q.mask| == 4 && 0 < q.require <= 4
  {
    q.(mask := q.mask[4 - q.require := b], require := q.require - 1)
  }

  function HeadByte(q: Parser, b: byte): (Parser, seq<Event>) {
    var n := b % 128;
    var q1 := q.(masked := b >= 128);
    if n >= 126 then (q1.(phase := Length, require := if n == 127 then 8 else 2, length := 0), [])
    else if q1.masked then (q1.(phase := Mask, require := 4, length := n), [])
    else Announce(q1.(length := n))
  }

  /** One byte of input. */
  function Step(q: Parser, b: byte): (r: (Parser, seq<Event>))
    requires q.Ok()
    ensures r.0.Ok()
  {
    match q.phase
    case Start => (q.(phase := Head, op := b % 16, fin := b >= 128, masked := false, length := 0), [])
    case Head => HeadByte(q, b)
    case Length => AfterLength(LengthByte(q, b))
    case Mask => AfterMask(MaskByte(q, b))
    case Body =>
      if q.require > 1 then (q.(require := q.require - 1), [BodyByte(b)])
      else (q.(phase := Start, require := 0), [BodyByte(b), FrameEnd])
  }

  function Feed(q: Parser, data: seq<byte>): (r: (Parser, seq<Event>))
    requires q.Ok()
    ensures r.0.Ok()
    decreases data
  {
    if data == [] then (q, [])
    else
      var (q1, e1) := Step(q, data[0]);
      var (q2, e2) := Feed(q1, data[1..]);
      (q2, e1 + e2)
  }

  /** Feeding in two pieces is feeding the whole. */
  lemma {:induction false} FeedSplit(q: Parser, a: seq<byte>, b: seq<byte>)
    requires q.Ok()
    ensures Feed(q, a + b).0 == Feed(Feed(q, a).0, b).0
    ensures Feed(q, a + b).1 == Feed(q, a).1 + Feed(Feed(q, a).0, b).1
    decreases a
  {
    if a == [] {
      assert a + b == b;
    } else {
      assert (a + b)[0] == a[0] && (a + b)[1..] == a[1..] + b;
      FeedSplit(Step(q, a[0]).0, a[1..], b);
    }
  }

  lemma FeedOne(q: Parser, b: byte)
    requires q.Ok()
    ensures Feed(q, [b]) == Step(q, b)
  {
    assert [b][1..] == [];
    assert Step(q, b).1 + [] == Step(q, b).1;
  }

  /** Input that raises no event only moves the parser on. */
  lemma FeedQuiet(q: Parser, a: seq<byte>, b: seq<byte>)
    requires q.Ok() && Feed(q, a).1 == []
    ensures Feed(q, a + b) == Feed(Feed(q, a).0, b)
  {
    FeedSplit(q, a, b);
    assert [] + Feed(Feed(q, a).0, b).1 == Feed(Feed(q, a).0, b).1;
  }

  function BodyBytes(chunk: seq<byte>): seq<Event> {
    seq(|chunk|, i requires 0 <= i < |chunk| => BodyByte(chunk[i]))
  }

  /** A run of body bytes: part of the body, or all that is left of it. */
  lemma {:induction false} FeedBody(q: Parser, chunk: seq<byte>)
    requires q.Ok() && q.phase.Body? && 0 < |chunk| <= q.require
    ensures |chunk| < q.require ==> Feed(q, chunk) == (q.(require := q.require - |chunk|), BodyBytes(chunk))
    ensures |chunk| == q.require ==> Feed(q, chunk) == (q.(phase := Start, require := 0), BodyBytes(chunk) + [FrameEnd])
    decreases chunk
  {
    var tail := BodyBytes(chunk[1..]);
    assert BodyBytes(chunk) == [BodyByte(chunk[0])] + tail;
    if |chunk| == 1 {
      FeedOne(q, chunk[0]);
      assert chunk == [chunk[0]] && tail == [] && BodyBytes(chunk) == [BodyByte(chunk[0])];
      assert [BodyByte(chunk[0])] + [FrameEnd] == [BodyByte(chunk[0]), FrameEnd];
    } else {
      FeedBody(Step(q, chunk[0]).0, chunk[1..]);
      assert [BodyByte(chunk[0])] + (tail + [FrameEnd]) == BodyBytes(chunk) + [FrameEnd];
    }
  }

  // ----------------------------------------------------------------- masking

  /** Exclusive or of the k low-order bits. */
  function XorBits(a: nat, b: nat, k: nat): (r: nat)
    ensures r < Pow2(k)
  {
    if k == 0 then 0 else 2 * XorBits(a / 2, b / 2, k - 1) + (a + b) % 2
  }

  function Xor(a: byte, b: byte): byte {
    assert Pow2(8) == 256 by { assert Pow2(4) == 16; }
    XorBits(a, b, 8)
  }

  lemma {:induction false} XorBitsTwice(a: nat, b: nat, k: nat)
    requires a < Pow2(k)
    ensures XorBits(XorBits(a, b, k), b, k) == a
  {
    if k > 0 {
      hide XorBits;
      XorBitsTwice(a / 2, b / 2, k - 1);
      XorBitsStep(a, b, k);
      XorBitsStep(XorBits(a, b, k), b, k);
      BitTwice(a, b, XorBits(a, b, k));
    }
  }

  /** The half and the low bit of an exclusive or. */
  lemma XorBitsStep(a: nat, b: nat, k: nat)
    requires k > 0
    ensures XorBits(a, b, k) / 2 == XorBits(a / 2, b / 2, k - 1) && XorBits(a, b, k) % 2 == (a + b) % 2
  {
    LowBit(XorBits(a / 2, b / 2, k - 1), (a + b) % 2);
  }

  lemma LowBit(x: nat, d: nat)
    requires d < 2
    ensures (2 * x + d) / 2 == x && (2 * x + d) % 2 == d
  {
  }

  lemma BitTwice(a: nat, b: nat, y: nat)
    requires y % 2 == (a + b) % 2
    ensures (y + b) % 2 == a % 2
  {
  }

  function Bit(x: nat, k: nat): nat {
    x / Pow2(k) % 2
  }

  lemma {:induction false} XorBitsAt(a: nat, b: nat, n: nat, k: nat)
    requires k < n
    ensures Bit(XorBits(a, b, n), k) == (Bit(a, k) + Bit(b, k)) % 2
  {
    hide XorBits, Bit;
    var x := XorBits(a, b, n);
    XorBitsStep(a, b, n);
    if k == 0 {
      LowBits(a, b);
      LowBits(b, x);
      LowBits(x, a);
    } else {
      XorBitsAt(a / 2, b / 2, n - 1, k - 1);
      HigherBit(a, k);
      HigherBit(b, k);
      HigherBit(x, k);
    }
  }

  lemma LowBits(a: nat, b: nat)
    ensures Bit(a, 0) == a % 2 && (a % 2 + b % 2) % 2 == (a + b) % 2
  {
  }

  lemma HigherBit(x: nat, k: nat)
    requires k > 0
    ensures Bit(x, k) == Bit(x / 2, k - 1)
  {
    HalfThenDivide(x, Pow2(k - 1));
  }

  lemma HalfThenDivide(x: nat, d: nat)
    requires d > 0
    ensures x / (2 * d) == x / 2 / d
  {
    var h := x / 2;
    var q, r := h / d, h % d;
    assert x == 2 * d * q + (2 * r + x % 2) by { assert h == d * q + r; }
    Quotient(x, 2 * d, q, 2 * r + x % 2);
  }

  lemma Quotient(x: nat, d: nat, q: nat, r: nat)
    requires x == d * q + r && r < d
    ensures x / d == q
  {
    var p, e := x / d, x % d;
    assert x == d * p + e;
    SmallMultiple(q - p, d, e - r);
  }

  lemma SmallMultiple(m: int, d: int, e: int)
    requires d * m == e && -d < e < d
    ensures m == 0
  {
    assert m >= 1 ==> d * m >= d;
    assert m <= -1 ==> d * m <= -d;
  }

  /** Xor is exclusive or, bit by bit. */
  lemma XorBit(a: byte, b: byte, k: nat)
    requires k < 8
    ensures Bit(Xor(a, b), k) == (Bit(a, k) + Bit(b, k)) % 2
  {
    XorBitsAt(a, b, 8, k);
  }

  lemma XorTwice(a: byte, b: byte)
    ensures Xor(Xor(a, b), b) == a
  {
    assert Pow2(8) == 256 by { assert Pow2(4) == 16; }
    XorBitsTwice(a, b, 8);
  }

  /** Section 5.3 of RFC 6455: octet i is combined with mask octet (i + offset) mod 4. */
  function Unmask(data: seq<byte>, mask: seq<byte>, offset: nat): (r: seq<byte>)
    requires |mask| == 4
    ensures |r| == |data|
    ensures forall i :: 0 <= i < |data| ==> r[i] == Xor(data[i], mask[(i + offset) % 4])
  {
    seq(|data|, i requires 0 <= i < |data| => Xor(data[i], mask[(i + offset) % 4]))
  }

  lemma UnmaskTwice(data: seq<byte>, mask: seq<byte>, offset: nat)
    requires |mask| == 4
    ensures Unmask(Unmask(data, mask, offset), mask, offset) == data
  {
    hide Xor;
    forall i | 0 <= i < |data| ensures Unmask(Unmask(data, mask, offset), mask, offset)[i] == data[i] {
      XorTwice(data[i], mask[(i + offset) % 4]);
    }
  }

  /** Unmasking a piece and then the rest from where the piece left off. */
  lemma SameResidue(x: nat, i: nat)
    ensures (i + x) % 4 == (i + x % 4) % 4
  {
  }

  lemma UnmaskSplit(a: seq<byte>, b: seq<byte>, mask: seq<byte>, offset: nat)
    requires |mask| == 4
    ensures Unmask(a + b, mask, offset) == Unmask(a, mask, offset) + Unmask(b, mask, (|a| + offset) % 4)
  {
    hide Xor;
    var rest := (|a| + offset) % 4;
    forall i | 0 <= i < |b| ensures Unmask(a + b, mask, offset)[|a| + i] == Unmask(b, mask, rest)[i] {
      SameResidue(|a| + offset, i);
      assert |a| + i + offset == i + (|a| + offset);
    }
    assert forall i :: 0 <= i < |a| ==> (a + b)[i] == a[i];
  }

  /** The consumer's calls of the decoder, one per piece, carrying the offset along. */
  function UnmaskPieces(pieces: seq<seq<byte>>, mask: seq<byte>, offset: nat): seq<byte>
    requires |mask| == 4
    decreases pieces
  {
    if pieces == [] then []
    else Unmask(pieces[0], mask, offset) + UnmaskPieces(pieces[1..], mask, (|pieces[0]| + offset) % 4)
  }

  lemma UnmaskNothing(mask: seq<byte>, offset: nat)
    requires |mask| == 4
    ensures Concat([]) == [] && Unmask([], mask, offset) == []
  {
  }

  lemma {:induction false} UnmaskAnyPieces(pieces: seq<seq<byte>>, mask: seq<byte>, offset: nat)
    requires |mask| == 4
    ensures UnmaskPieces(pieces, mask, offset) == Unmask(Concat(pieces), mask, offset)
    decreases pieces
  {
    hide Unmask, Concat;
    if pieces == [] {
      UnmaskNothing(mask, offset);
    } else {
      ConcatFirst(pieces);
      UnmaskAnyPieces(pieces[1..], mask, (|pieces[0]| + offset) % 4);
      UnmaskSplit(pieces[0], Concat(pieces[1..]), mask, offset);
    }
  }

  // ------------------------------------------------------------------ frames

  /** A frame to send: opcode, FIN, an optional mask, and a payload shorter than 2^64. */
  datatype Frame = Frame(op: nat, fin: bool, mask: Option<seq<byte>>, payload: seq<byte>) {
    ghost predicate Ok() { op < 16 && (mask.Some? ==> |mask.value| == 4) && |payload| < TWO64 }
  }

  function LengthField(masked: bool, n: nat): seq<byte> {
    var m := if masked then 128 else 0;
    if n < 126 then [m + n]
    else if n <= 0xFFFF then [m + 126] + BigEndian(n, 2)
    else [m + 127] + BigEndian(n, 8)
  }

  function Header(f: Frame): seq<byte>
    requires f.Ok()
  {
    [(if f.fin then 128 else 0) + f.op] + LengthField(f.mask.Some?, |f.payload|)
  }

  function Bytes(f: Frame): seq<byte>
    requires f.Ok()
  {
    Header(f) + (if f.mask.Some? then f.mask.value + Unmask(f.payload, f.mask.value, 0) else f.payload)
  }

  /** The size a frame has. */
  function FrameSize(masked: bool, n: nat): nat {
    n + 2 + (if n >= 126 then (if n > 0xFFFF then 8 else 2) else 0) + (if masked then 4 else 0)
  }

  /** websocket_calc_frame_size, in 32-bit sums. */
  function CalcFrameSize(masked: bool, n: nat): nat {
    FrameSize(masked, n) % TWO32
  }

  /** The calculated size is the frame's exactly when the frame fits the address space. */
  lemma SizeIsCalculated(f: Frame)
    requires f.Ok()
    ensures |Bytes(f)| == FrameSize(f.mask.Some?, |f.payload|)
    ensures |Bytes(f)| == CalcFrameSize(f.mask.Some?, |f.payload|) <==> |Bytes(f)| < TWO32
  {
    hide BigEndian, Unmask;
    assert |Bytes(f)| == FrameSize(f.mask.Some?, |f.payload|);
  }

  /** What a receiver sees of a frame: its header, its payload octets as sent, its end. */
  function Seen(f: Frame): seq<Event>
    requires f.Ok()
  {
    [FrameHeader(f.op, f.fin, f.mask, |f.payload|)]
    + BodyBytes(if f.mask.Some? then Unmask(f.payload, f.mask.value, 0) else f.payload)
    + [FrameEnd]
  }

  lemma LengthByteStep(q: Parser, n: nat)
    requires q.Ok() && q.phase.Length? && q.length == n / 256 % TWO32
    ensures Step(q, n % 256) == AfterLength(q.(length := n % TWO32, require := q.require - 1))
  {
    LowWord(n);
  }

  /** Shifting eight bits in keeps the low word of what has been read so far. */
  lemma LowWord(n: nat)
    ensures (n / 256 % TWO32 * 256 + n % 256) % TWO32 == n % TWO32
  {
    var m := n / 256;
    var q, r := m / TWO32, m % TWO32;
    assert n == q * 256 * TWO32 + (r * 256 + n % 256);
    MultipleOfWord(q * 256, r * 256 + n % 256);
  }

  lemma MultipleOfWord(k: nat, y: nat)
    ensures (k * TWO32 + y) % TWO32 == y % TWO32
  {
    var q, r := y / TWO32, y % TWO32;
    assert k * TWO32 + y == (k + q) * TWO32 + r;
  }

  /** Some of the length octets accumulate to the low word of the number they spell. */
  lemma {:induction false} FeedLengthPart(q: Parser, n: nat, k: nat)
    requires q.Ok() && q.phase.Length? && k < q.require && q.length == 0 && n < Pow256(k)
    ensures Feed(q, BigEndian(n, k)) == (q.(length := n % TWO32, require := q.require - k), [])
    decreases k
  {
    if k > 0 {
      hide Feed, Step;
      FeedLengthPart(q, n / 256, k - 1);
      var w := q.(length := n / 256 % TWO32, require := q.require - k + 1);
      FeedQuiet(q, BigEndian(n / 256, k - 1), [n % 256]);
      FeedOne(w, n % 256);
      LengthByteStep(w, n);
    }
  }

  lemma FeedLength(q: Parser, n: nat)
    requires q.Ok() && q.phase.Length? && q.length == 0 && n < Pow256(q.require)
    ensures Feed(q, BigEndian(n, q.require)) == AfterLength(q.(length := n % TWO32, require := 0))
  {
    hide Feed, AfterLength, Step;
    var k := q.require;
    var w := q.(length := n / 256 % TWO32, require := 1);
    FeedLengthPart(q, n / 256, k - 1);
    FeedQuiet(q, BigEndian(n / 256, k - 1), [n % 256]);
    FeedOne(w, n % 256);
    LengthByteStep(w, n);
  }

  lemma FeedNone(q: Parser)
    requires q.Ok()
    ensures Feed(q, []) == (q, [])
  {
  }

  lemma MaskStep(q: Parser, b: byte)
    requires q.Ok() && q.phase.Mask? && q.require > 1
    ensures Step(q, b) == (q.(mask := q.mask[4 - q.require := b], require := q.require - 1), [])
  {
  }

  lemma {:induction false} FeedMaskPart(q: Parser, mask: seq<byte>, k: nat)
    requires q.Ok() && q.phase.Mask? && q.require == 4 && |mask| == 4 && k < 4
    ensures Feed(q, mask[..k]) == (q.(mask := mask[..k] + q.mask[k..], require := 4 - k), [])
    decreases k
  {
    hide Feed, Step;
    if k == 0 {
      FeedNone(q);
      assert mask[..0] == [] && mask[..0] + q.mask[0..] == q.mask;
    } else {
      FeedMaskPart(q, mask, k - 1);
      var w := q.(mask := mask[..k - 1] + q.mask[k - 1..], require := 5 - k);
      assert mask[..k] == mask[..k - 1] + [mask[k - 1]];
      FeedQuiet(q, mask[..k - 1], [mask[k - 1]]);
      FeedOne(w, mask[k - 1]);
      MaskStep(w, mask[k - 1]);
      assert w.mask[k - 1 := mask[k - 1]] == mask[..k] + q.mask[k..];
    }
  }

  lemma FeedMask(q: Parser, mask: seq<byte>)
    requires q.Ok() && q.phase.Mask? && q.require == 4 && |mask| == 4
    ensures Feed(q, mask) == Announce(q.(mask := mask, require := 0))
  {
    FeedMaskPart(q, mask, 3);
    var w := q.(mask := mask[..3] + q.mask[3..], require := 1);
    assert mask == mask[..3] + [mask[3]];
    FeedQuiet(q, mask[..3], [mask[3]]);
    FeedOne(w, mask[3]);
    hide Feed, Announce;
    assert w.mask[3 := mask[3]] == mask;
  }

  /** The parser once the first two to ten octets of a frame are in. */
  function PastLength(q: Parser, f: Frame): Parser {
    q.(op := f.op, fin := f.fin, masked := f.mask.Some?, length := |f.payload| % TWO32, require := 0)
  }

  /** What the fixed and extended length fields lead to. */
  function AfterHeader(q: Parser, f: Frame): (Parser, seq<Event>) {
    var w := PastLength(q, f);
    if f.mask.Some? then (w.(phase := Mask, require := 4), []) else Announce(w)
  }

  lemma FeedHeader(q: Parser, f: Frame)
    requires q.Ok() && q.phase.Start? && f.Ok()
    ensures Feed(q, Header(f)) == AfterHeader(q, f)
  {
    var n := |f.payload|;
    var b0 := (if f.fin then 128 else 0) + f.op;
    var q1 := q.(phase := Head, op := f.op, fin := f.fin, masked := false, length := 0);
    assert b0 % 16 == f.op && (b0 >= 128 <==> f.fin);
    FeedOne(q, b0);
    hide Feed, HeadByte, AfterHeader;
    FeedQuiet(q, [b0], LengthField(f.mask.Some?, n));
    if n < 126 { FeedShort(q1, f); } else { FeedLong(q1, f); }
  }

  lemma FeedShort(q: Parser, f: Frame)
    requires q.Ok() && q.phase.Head? && f.Ok() && q.op == f.op && q.fin == f.fin && |f.payload| < 126
    ensures Feed(q, LengthField(f.mask.Some?, |f.payload|)) == AfterHeader(q, f)
  {
    hide Feed, Step, Announce;
    var n, m := |f.payload|, if f.mask.Some? then 128 else 0;
    FeedOne(q, m + n);
    HeadStep(q, m + n);
    assert (m + n) % 128 == n;
  }

  lemma HeadStep(q: Parser, b: byte)
    requires q.Ok() && q.phase.Head?
    ensures Step(q, b) == HeadByte(q, b)
  {
  }

  lemma FeedLong(q: Parser, f: Frame)
    requires q.Ok() && q.phase.Head? && f.Ok() && q.op == f.op && q.fin == f.fin && |f.payload| >= 126
    ensures Feed(q, LengthField(f.mask.Some?, |f.payload|)) == AfterHeader(q, f)
  {
    hide Feed, BigEndian;
    var n, m := |f.payload|, if f.mask.Some? then 128 else 0;
    var k, c := if n <= 0xFFFF then 2 else 8, if n <= 0xFFFF then 126 else 127;
    PowersOf256();
    assert (m + c) % 128 == c;
    var q1 := q.(phase := Length, masked := f.mask.Some?, require := k, length := 0);
    FeedOne(q, m + c);
    FeedQuiet(q, [m + c], BigEndian(n, k));
    FeedLength(q1, n);
  }

  lemma PowersOf256()
    ensures Pow256(2) == 0x1_0000 && Pow256(8) == TWO64
  {
    assert Pow256(4) == 0x1_0000_0000;
    assert Pow256(6) == 0x1_0000_0000_0000;
  }

  /** The first thing reported of a frame: its header, with the low word of its length. */
  lemma FeedFirst(q: Parser, f: Frame)
    requires q.Ok() && q.phase.Start? && f.Ok()
    ensures Feed(q, Bytes(f)).1 != [] && Feed(q, Bytes(f)).1[0] == FrameHeader(f.op, f.fin, f.mask, |f.payload| % TWO32)
  {
    var body := if f.mask.Some? then Unmask(f.payload, f.mask.value, 0) else f.payload;
    var q1 := AfterHeader(q, f).0;
    FeedHeader(q, f);
    hide Feed;
    if f.mask.Some? {
      assert Bytes(f) == Header(f) + (f.mask.value + body);
      FeedQuiet(q, Header(f), f.mask.value + body);
      FeedMask(q1, f.mask.value);
      FeedSplit(q1, f.mask.value, body);
    } else {
      FeedSplit(q, Header(f), body);
    }
  }

  /** A frame whose length fits a word is parsed back: its header, its payload octets, its end, and the parser starts over. */
  lemma FeedSmallFrame(q: Parser, f: Frame)
    requires q.Ok() && q.phase.Start? && f.Ok() && |f.payload| < TWO32
    ensures Feed(q, Bytes(f)).0.phase.Start? && Feed(q, Bytes(f)).1 == Seen(f)
  {
    hide Feed, Unmask, BodyBytes, LengthField;
    var body := if f.mask.Some? then Unmask(f.payload, f.mask.value, 0) else f.payload;
    var q1 := AfterHeader(q, f).0;
    FeedHeader(q, f);
    if f.mask.Some? {
      assert Bytes(f) == Header(f) + (f.mask.value + body);
      FeedQuiet(q, Header(f), f.mask.value + body);
      FeedMask(q1, f.mask.value);
      FeedSplit(q1, f.mask.value, body);
      FeedPayload(PastLength(q, f).(mask := f.mask.value, phase := Mask), body);
    } else {
      FeedSplit(q, Header(f), body);
      FeedPayload(PastLength(q, f), body);
    }
  }

  /** A frame is parsed back exactly when its length fits a word. */
  lemma FeedFrame(q: Parser, f: Frame)
    requires q.Ok() && q.phase.Start? && f.Ok()
    ensures Feed(q, Bytes(f)).1 == Seen(f) <==> |f.payload| < TWO32
    ensures |f.payload| < TWO32 ==> Feed(q, Bytes(f)).0.phase.Start?
  {
    hide Feed, Bytes;
    if |f.payload| < TWO32 {
      FeedSmallFrame(q, f);
    } else {
      FeedFirst(q, f);
      assert Seen(f)[0] == FrameHeader(f.op, f.fin, f.mask, |f.payload|);
    }
  }

  /** A header that announces 2^32 octets is taken for an empty frame, and the octets for frames. */
  lemma LengthWraps()
    ensures Feed(Fresh, [0x82, 127, 0, 0, 0, 1, 0, 0, 0, 0]) == (Fresh.(op := 2, fin := true), [FrameHeader(2, true, None, 0), FrameEnd])
  {
    hide Feed, BigEndian;
    var q := Fresh.(phase := Head, op := 2, fin := true);
    var w := q.(phase := Length, require := 8);
    var spelled := [0, 0, 0, 1, 0, 0, 0, 0];
    BigEndian8(TWO32);
    PowersOf256();
    FeedOne(Fresh, 0x82);
    FeedOne(q, 127);
    FeedLength(w, TWO32);
    FeedQuiet(Fresh, [0x82], [127] + spelled);
    FeedQuiet(q, [127], spelled);
    assert [0x82] + ([127] + spelled) == [0x82, 127, 0, 0, 0, 1, 0, 0, 0, 0];
  }

  lemma NoBody()
    ensures BodyBytes([]) == []
  {
  }

  lemma FeedPayload(q: Parser, body: seq<byte>)
    requires |q.mask| == 4 && q.op < 16 && q.length == |body| < TWO32 && q.require == 0
    ensures var (w, e) := Announce(q);
            && w.Ok() && Feed(w, body).0.phase.Start?
            && e + Feed(w, body).1 == [HeaderOf(q)] + BodyBytes(body) + [FrameEnd]
  {
    hide Feed, BodyBytes, Step;
    if body == [] {
      NoBody();
      FeedNone(Announce(q).0);
      assert [HeaderOf(q), FrameEnd] + [] == [HeaderOf(q)] + [] + [FrameEnd];
    } else {
      var w := q.(phase := Body, require := q.length);
      FeedBody(w, body);
      assert Feed(w, body) == (w.(phase := Start, require := 0), BodyBytes(body) + [FrameEnd]);
      assert [HeaderOf(q)] + (BodyBytes(body) + [FrameEnd]) == [HeaderOf(q)] + BodyBytes(body) + [FrameEnd];
    }
  }

  function AllBytes(frames: seq<Frame>): seq<byte>
    requires forall f :: f in frames ==> f.Ok()
  {
    if frames == [] then [] else Bytes(frames[0]) + AllBytes(frames[1..])
  }

  function AllSeen(frames: seq<Frame>): seq<Event>
    requires forall f :: f in frames ==> f.Ok()
  {
    if frames == [] then [] else Seen(frames[0]) + AllSeen(frames[1..])
  }

  /** A concatenation of frames is parsed back frame by frame exactly when every length fits a word. */
  lemma {:induction false} FeedFrames(q: Parser, frames: seq<Frame>)
    requires q.Ok() && q.phase.Start? && forall f :: f in frames ==> f.Ok()
    ensures Feed(q, AllBytes(frames)).1 == AllSeen(frames) <==> forall f :: f in frames ==> |f.payload| < TWO32
    ensures (forall f :: f in frames ==> |f.payload| < TWO32) ==> Feed(q, AllBytes(frames)).0.phase.Start?
    decreases frames
  {
    hide Feed, Bytes, Seen;
    if frames == [] {
      FeedNone(q);
    } else {
      var first, rest := frames[0], frames[1..];
      assert frames == [first] + rest;
      FeedFrame(q, first);
      FeedSplit(q, Bytes(first), AllBytes(rest));
      if |first.payload| < TWO32 {
        FeedFrames(Feed(q, Bytes(first)).0, rest);
        SameTail(Seen(first), Feed(Feed(q, Bytes(first)).0, AllBytes(rest)).1, AllSeen(rest));
      } else {
        FeedFirst(q, first);
        SeenFirst(first);
        assert Feed(q, AllBytes(frames)).1[0] == Feed(q, Bytes(first)).1[0];
        assert AllSeen(frames)[0] == Seen(first)[0];
      }
    }
  }

  lemma SameTail(a: seq<Event>, x: seq<Event>, y: seq<Event>)
    ensures a + x == a + y <==> x == y
  {
    assert x == (a + x)[|a|..] && y == (a + y)[|a|..];
  }

  lemma SeenFirst(f: Frame)
    requires f.Ok()
    ensures Seen(f) != [] && Seen(f)[0] == FrameHeader(f.op, f.fin, f.mask, |f.payload|)
  {
  }

  // --------------------------------------------------------------- the consumer

  /** A consumer that decodes each slice of a body as it comes: the frame's mask, its payload so far, and the payloads of earlier frames. */
  datatype Inbox = Inbox(mask: Option<seq<byte>>, open: seq<byte>, done: seq<seq<byte>>) {
    ghost predicate Ok() { mask.Some? ==> |mask.value| == 4 }
  }

  const Empty := Inbox(None, [], [])

  function Deliver(box: Inbox, e: Event): (r: Inbox)
    requires box.Ok() && (e.FrameHeader? && e.mask.Some? ==> |e.mask.value| == 4)
    ensures r.Ok()
  {
    match e
    case FrameHeader(_, _, mask, _) => box.(mask := mask, open := [])
    case BodyByte(b) => box.(open := box.open + [if box.mask.Some? then Xor(b, box.mask.value[|box.open| % 4]) else b])
    case FrameEnd => box.(done := box.done + [box.open])
  }

  ghost predicate Sound(events: seq<Event>) {
    forall i :: 0 <= i < |events| && events[i].FrameHeader? && events[i].mask.Some? ==> |events[i].mask.value| == 4
  }

  lemma SoundSplit(a: seq<Event>, b: seq<Event>)
    ensures Sound(a + b) <==> Sound(a) && Sound(b)
  {
    assert forall i :: 0 <= i < |a| ==> (a + b)[i] == a[i];
    assert forall i :: 0 <= i < |b| ==> (a + b)[|a| + i] == b[i];
  }

  /** The parser reports masks of four octets only. */
  lemma {:induction false} FeedSound(q: Parser, data: seq<byte>)
    requires q.Ok()
    ensures Sound(Feed(q, data).1)
    decreases data
  {
    if data != [] {
      StepSound(q, data[0]);
      FeedSound(Step(q, data[0]).0, data[1..]);
      SoundSplit(Step(q, data[0]).1, Feed(Step(q, data[0]).0, data[1..]).1);
    }
  }

  lemma StepSound(q: Parser, b: byte)
    requires q.Ok()
    ensures Sound(Step(q, b).1)
  {
  }

  function Receive(box: Inbox, events: seq<Event>): (r: Inbox)
    requires box.Ok() && Sound(events)
    ensures r.Ok()
  {
    if events == [] then box
    else Deliver(Receive(box, events[..|events| - 1]), events[|events| - 1])
  }

  lemma {:induction false} ReceiveSplit(box: Inbox, a: seq<Event>, b: seq<Event>)
    requires box.Ok() && Sound(a) && Sound(b)
    ensures Sound(a + b) && Receive(box, a + b) == Receive(Receive(box, a), b)
    decreases |b|
  {
    assert forall i :: 0 <= i < |a + b| ==> (a + b)[i] == if i < |a| then a[i] else b[i - |a|];
    if b == [] {
      assert a + b == a;
    } else {
      ReceiveSplit(box, a, b[..|b| - 1]);
      assert (a + b)[..|a + b| - 1] == a + b[..|b| - 1];
    }
  }

  /** A slice of a body, decoded from where the payload stands. */
  lemma {:induction false} ReceiveBody(box: Inbox, chunk: seq<byte>)
    requires box.Ok()
    ensures Sound(BodyBytes(chunk))
    ensures Receive(box, BodyBytes(chunk)) ==
      box.(open := box.open + if box.mask.Some? then Unmask(chunk, box.mask.value, |box.open| % 4) else chunk)
    decreases chunk
  {
    hide Xor, Unmask, Receive, BodyBytes, Sound;
    if chunk == [] {
      BodyBytesNone();
      ReceiveNothing(box);
      assert box.open + [] == box.open;
      if box.mask.Some? { UnmaskNothing(box.mask.value, |box.open| % 4); }
    } else {
      var init, last := chunk[..|chunk| - 1], chunk[|chunk| - 1];
      assert chunk == init + [last];
      ReceiveBody(box, init);
      BodyBytesLast(init, last);
      ReceiveLast(box, BodyBytes(init), BodyByte(last));
      ReceiveMore(box, init, last);
    }
  }

  lemma BodyBytesNone()
    ensures BodyBytes([]) == [] && Sound([])
  {
  }

  lemma BodyBytesLast(init: seq<byte>, last: byte)
    ensures BodyBytes(init + [last]) == BodyBytes(init) + [BodyByte(last)]
  {
  }

  lemma ReceiveMore(box: Inbox, init: seq<byte>, last: byte)
    requires box.Ok()
    ensures var m := box.mask;
      Deliver(box.(open := box.open + if m.Some? then Unmask(init, m.value, |box.open| % 4) else init), BodyByte(last)) ==
      box.(open := box.open + if m.Some? then Unmask(init + [last], m.value, |box.open| % 4) else init + [last])
  {
    hide Xor, Unmask;
    if box.mask.Some? {
      ReceiveMasked(box, init, last);
    } else {
      assert box.open + (init + [last]) == box.open + init + [last];
    }
  }

  lemma ReceiveMasked(box: Inbox, init: seq<byte>, last: byte)
    requires box.Ok() && box.mask.Some?
    ensures var m, o := box.mask.value, |box.open| % 4;
      Deliver(box.(open := box.open + Unmask(init, m, o)), BodyByte(last)) == box.(open := box.open + Unmask(init + [last], m, o))
  {
    hide Xor, Unmask;
    var m, o := box.mask.value, |box.open|;
    UnmaskLast(init, last, m, o);
    var u := Unmask(init, m, o % 4);
    assert |box.open + u| == o + |init|;
    var x := Xor(last, m[(o + |init|) % 4]);
    assert box.open + (u + [x]) == box.open + u + [x];
  }

  lemma ReceiveLast(box: Inbox, events: seq<Event>, e: Event)
    requires box.Ok() && Sound(events) && e.BodyByte?
    ensures Sound(events + [e]) && Receive(box, events + [e]) == Deliver(Receive(box, events), e)
  {
    assert (events + [e])[..|events|] == events;
  }

  lemma UnmaskLast(init: seq<byte>, last: byte, mask: seq<byte>, offset: nat)
    requires |mask| == 4
    ensures Unmask(init + [last], mask, offset % 4) == Unmask(init, mask, offset % 4) + [Xor(last, mask[(offset + |init|) % 4])]
  {
    hide Xor;
    SameResidue(offset, |init|);
    assert (init + [last])[|init|] == last;
  }

  /** The consumer ends up with the payload of a frame it has seen. */
  lemma ReceiveFrame(box: Inbox, f: Frame)
    requires box.Ok() && f.Ok()
    ensures Sound(Seen(f)) && Receive(box, Seen(f)) == Inbox(f.mask, f.payload, box.done + [f.payload])
  {
    hide Unmask, Receive, BodyBytes;
    var body := if f.mask.Some? then Unmask(f.payload, f.mask.value, 0) else f.payload;
    var h := FrameHeader(f.op, f.fin, f.mask, |f.payload|);
    var begun := Inbox(f.mask, [], box.done);
    ReceiveOne(box, h);
    ReceiveBody(begun, body);
    if f.mask.Some? { UnmaskTwice(f.payload, f.mask.value, 0); }
    assert [] + f.payload == f.payload;
    ReceiveSplit(box, [h], BodyBytes(body));
    ReceiveOne(Inbox(f.mask, f.payload, box.done), FrameEnd);
    ReceiveSplit(box, [h] + BodyBytes(body), [FrameEnd]);
  }

  lemma ReceiveOne(box: Inbox, e: Event)
    requires box.Ok() && (e.FrameHeader? && e.mask.Some? ==> |e.mask.value| == 4)
    ensures Sound([e]) && Receive(box, [e]) == Deliver(box, e)
  {
    assert [e][..0] == [];
    assert Receive(box, []) == box;
  }

  function Payloads(frames: seq<Frame>): seq<seq<byte>> {
    seq(|frames|, i requires 0 <= i < |frames| => frames[i].payload)
  }

  /** Of any frames, the consumer ends up with the payloads in order. */
  lemma {:induction false} ReceiveFrames(box: Inbox, frames: seq<Frame>)
    requires box.Ok() && forall f :: f in frames ==> f.Ok()
    ensures Sound(AllSeen(frames)) && Receive(box, AllSeen(frames)).done == box.done + Payloads(frames)
    decreases frames
  {
    hide Seen, Receive;
    if frames == [] {
      assert Receive(box, []) == box by { ReceiveNothing(box); }
      assert box.done + Payloads(frames) == box.done;
    } else {
      ReceiveFrame(box, frames[0]);
      ReceiveFrames(Inbox(frames[0].mask, frames[0].payload, box.done + [frames[0].payload]), frames[1..]);
      ReceiveSplit(box, Seen(frames[0]), AllSeen(frames[1..]));
      assert Payloads(frames) == [frames[0].payload] + Payloads(frames[1..]);
    }
  }

  lemma ReceiveNothing(box: Inbox)
    requires box.Ok()
    ensures Sound([]) && Receive(box, []) == box
  {
  }

  /** Unmasking what the receiver saw gives the payload back. */
  lemma SeenUnmasks(f: Frame)
    requires f.Ok()
    ensures |Seen(f)| == |f.payload| + 2
    ensures var body := Seen(f)[1..|f.payload| + 1];
            && (forall i :: 0 <= i < |body| ==> body[i].BodyByte?)
            && f.payload == (var raw := seq(|body|, i requires 0 <= i < |body| && body[i].BodyByte? => body[i].b);
                             if f.mask.Some? then Unmask(raw, f.mask.value, 0) else raw)
  {
    var sent := if f.mask.Some? then Unmask(f.payload, f.mask.value, 0) else f.payload;
    if f.mask.Some? { UnmaskTwice(f.payload, f.mask.value, 0); }
    hide Unmask;
    var body := Seen(f)[1..|f.payload| + 1];
    assert body == BodyBytes(sent);
    var raw := seq(|body|, i requires 0 <= i < |body| && body[i].BodyByte? => body[i].b);
    assert raw == sent;
  }

  // ------------------------------------------------ the examples of section 5.7 of RFC 6455

  const HELLO: seq<byte> := [0x48, 0x65, 0x6c, 0x6c, 0x6f]

  /** The low four bits of an exclusive or and those above them. */
  lemma XorNibble(a: nat, b: nat, k: nat)
    requires k >= 4
    ensures XorBits(a, b, k) == 16 * XorBits(a / 16, b / 16, k - 4)
      + (8 * ((a / 8 + b / 8) % 2) + 4 * ((a / 4 + b / 4) % 2) + 2 * ((a / 2 + b / 2) % 2) + (a + b) % 2)
  {
    hide XorBits;
    XorBitsStep(a, b, k);
    XorBitsStep(a / 2, b / 2, k - 1);
    XorBitsStep(a / 4, b / 4, k - 2);
    XorBitsStep(a / 8, b / 8, k - 3);
    Halves(a);
    Halves(b);
  }

  lemma Halves(a: nat)
    ensures a / 2 / 2 == a / 4 && a / 4 / 2 == a / 8 && a / 8 / 2 == a / 16
  {
  }

  lemma XorNone(a: nat, b: nat)
    ensures XorBits(a, b, 0) == 0
  {
  }

  lemma XorIs(a: byte, b: byte, high: nat, low: nat)
    requires high == 8 * ((a / 128 + b / 128) % 2) + 4 * ((a / 64 + b / 64) % 2) + 2 * ((a / 32 + b / 32) % 2) + (a / 16 + b / 16) % 2
    requires low == 8 * ((a / 8 + b / 8) % 2) + 4 * ((a / 4 + b / 4) % 2) + 2 * ((a / 2 + b / 2) % 2) + (a + b) % 2
    ensures Xor(a, b) == 16 * high + low
  {
    hide XorBits;
    XorNibble(a, b, 8);
    XorNibble(a / 16, b / 16, 4);
    XorNone(a / 16 / 16, b / 16 / 16);
    Sixteenth(a);
    Sixteenth(b);
  }

  lemma Sixteenth(a: byte)
    ensures a / 16 / 8 == a / 128 && a / 16 / 4 == a / 64 && a / 16 / 2 == a / 32
  {
  }

  /** "Hello" under the mask 37 fa 21 3d. */
  lemma HelloMasked()
    ensures Unmask(HELLO, [0x37, 0xfa, 0x21, 0x3d], 0) == [0x7f, 0x9f, 0x4d, 0x51, 0x58]
  {
    hide Xor;
    XorIs(0x48, 0x37, 0x7, 0xf);
    XorIs(0x65, 0xfa, 0x9, 0xf);
    XorIs(0x6c, 0x21, 0x4, 0xd);
    XorIs(0x6c, 0x3d, 0x5, 0x1);
    XorIs(0x6f, 0x37, 0x5, 0x8);
  }

  /** The masked text message "Hello", as it lies on the wire. */
  const HelloFrame := Frame(1, true, Some([0x37, 0xfa, 0x21, 0x3d]), HELLO)

  lemma HelloBytes()
    ensures Bytes(HelloFrame) == [0x81, 0x85, 0x37, 0xfa, 0x21, 0x3d, 0x7f, 0x9f, 0x4d, 0x51, 0x58]
  {
    hide Unmask;
    HelloMasked();
  }

  /** The eleven octets of a masked "Hello" are parsed as a final text frame and decoded to "Hello". */
  lemma HelloReceived()
    ensures var (q, events) := Feed(Fresh, [0x81, 0x85, 0x37, 0xfa, 0x21, 0x3d, 0x7f, 0x9f, 0x4d, 0x51, 0x58]);
      && q.phase.Start? && Sound(events) && Receive(Empty, events).done == [HELLO]
      && events[..1] == [FrameHeader(1, true, Some([0x37, 0xfa, 0x21, 0x3d]), 5)]
  {
    hide Feed, Bytes, Receive, Unmask, BodyBytes;
    HelloBytes();
    FeedSmallFrame(Fresh, HelloFrame);
    ReceiveFrame(Empty, HelloFrame);
    assert [] + [HELLO] == [HELLO];
  }

  /** An unmasked "Hello" in two fragments, a ping, and the headers of 256 and of 65536 octets. */
  lemma OtherExamples(short: seq<byte>, long: seq<byte>)
    requires |short| == 256 && |long| == 65536
    ensures Bytes(Frame(1, false, None, HELLO[..3])) == [0x01, 0x03, 0x48, 0x65, 0x6c]
    ensures Bytes(Frame(0, true, None, HELLO[3..])) == [0x80, 0x02, 0x6c, 0x6f]
    ensures Bytes(Frame(9, true, None, HELLO)) == [0x89, 0x05, 0x48, 0x65, 0x6c, 0x6c, 0x6f]
    ensures Bytes(Frame(2, true, None, short)) == [0x82, 0x7e, 0x01, 0x00] + short
    ensures Bytes(Frame(2, true, None, long)) == [0x82, 0x7f, 0, 0, 0, 0, 0, 1, 0, 0] + long
  {
    hide BigEndian;
    BigEndian2(256);
    BigEndian8(65536);
  }
}
