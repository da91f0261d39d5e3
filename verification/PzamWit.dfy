/**
 Promoting WIT blobs out of the data section of a WebAssembly module: reading
 and writing the section (section 5.5.14 of the WebAssembly Core Specification
 2.0), finding the blobs, and cutting them out of the segments.
 */
module PzamWit {
  import opened Common
  import opened Leb128

  datatype Segment = Segment(flags: nat, memOffset: int32, bytes: seq<byte>)

  const I32_CONST: byte := 0x41
  const END: byte := 0x0b

  // ------------------------------------------------------------ the data section

  function EncodeSegment(seg: Segment): seq<byte> {
    Leb(seg.flags)
    + (if seg.flags == 0 then [I32_CONST] + SLeb(seg.memOffset) + [END] else [])
    + Leb(|seg.bytes|) + seg.bytes
  }

  function EncodeSegments(segs: seq<Segment>): seq<byte> {
    if segs == [] then [] else EncodeSegments(segs[..|segs| - 1]) + EncodeSegment(segs[|segs| - 1])
  }

  function EncodeSection(segs: seq<Segment>): seq<byte> {
    Leb(|segs|) + EncodeSegments(segs)
  }

  /** A segment and what follows it, or an offset expression that is not one i32.const, which ends the list. */
  datatype Next = Got(seg: Segment, rest: seq<byte>) | Stop

  /** The offset expression of an active segment, up to its end. */
  function ParseOffset(s: seq<byte>): Option<Option<(int32, seq<byte>)>> {
    if s == [] then None
    else if s[0] != I32_CONST then Some(None)
    else match ReadS(s[1..], 5)
      case None => None
      case Some((off, t)) =>
        if t == [] then None else if t[0] != END then Some(None) else Some(Some((Wrap32(off), t[1..])))
  }

  function ParseBytes(flags: nat, off: int32, s: seq<byte>): Option<Next> {
    match ReadU(s, 5)
    case None => None
    case Some((n, t)) =>
      if n % TWO32 > |t| then None else Some(Got(Segment(flags, off, t[..n % TWO32]), t[n % TWO32..]))
  }

  /** None where the source would read outside the section. */
  function ParseSegment(s: seq<byte>): Option<Next> {
    match ReadU(s, 5)
    case None => None
    case Some((v, t)) =>
      if v % TWO32 != 0 then ParseBytes(v % TWO32, 0, t)
      else match ParseOffset(t)
        case None => None
        case Some(None) => Some(Stop)
        case Some(Some((off, u))) => ParseBytes(0, off, u)
  }

  function ParseSegments(s: seq<byte>, count: nat): Option<seq<Segment>>
    decreases count
  {
    if count == 0 then Some([])
    else match ParseSegment(s)
      case None => None
      case Some(Stop) => Some([])
      case Some(Got(seg, rest)) =>
        match ParseSegments(rest, count - 1)
        case None => None
        case Some(more) => Some([seg] + more)
  }

  function ParseSection(s: seq<byte>): Option<seq<Segment>> {
    match ReadU(s, 5)
    case None => None
    case Some((n, t)) => ParseSegments(t, n % TWO32)
  }

  // ----------------------------------------------------------------- round trip

  /** What 32-bit counts can express; only an active segment has an offset. */
  predicate Encodable(seg: Segment) {
    seg.flags < TWO32 && |seg.bytes| < TWO32 && (seg.flags != 0 ==> seg.memOffset == 0)
  }

  lemma ReadLeb32(n: nat, x: seq<byte>)
    requires n < TWO32
    ensures ReadU(Leb(n) + x, 5) == Some((n, x))
  {
    FiveGroups();
    ReadLeb(n, x, 5);
  }

  lemma ParseEncodedOffset(off: int32, x: seq<byte>)
    ensures ParseOffset([I32_CONST] + SLeb(off) + [END] + x) == Some(Some((off, x)))
  {
    hide SLeb, ReadS;
    FiveGroups();
    ReadSLeb(off, [END] + x, 5);
    var s := [I32_CONST] + SLeb(off) + [END] + x;
    assert s[1..] == SLeb(off) + ([END] + x);
    assert ([END] + x)[1..] == x;
    assert Wrap32(off) == off;
  }

  lemma ParseEncodedBytes(flags: nat, off: int32, bytes: seq<byte>, x: seq<byte>)
    requires |bytes| < TWO32
    ensures ParseBytes(flags, off, Leb(|bytes|) + bytes + x) == Some(Got(Segment(flags, off, bytes), x))
  {
    hide Leb, ReadU;
    ReadLeb32(|bytes|, bytes + x);
    assert Leb(|bytes|) + bytes + x == Leb(|bytes|) + (bytes + x);
    assert (bytes + x)[..|bytes|] == bytes && (bytes + x)[|bytes|..] == x;
  }

  lemma ParseEncodedSegment(seg: Segment, x: seq<byte>)
    requires Encodable(seg)
    ensures ParseSegment(EncodeSegment(seg) + x) == Some(Got(seg, x))
  {
    hide Leb, SLeb, ReadU, ReadS, ParseOffset, ParseBytes;
    var tail := Leb(|seg.bytes|) + seg.bytes + x;
    ParseEncodedBytes(seg.flags, seg.memOffset, seg.bytes, x);
    if seg.flags == 0 {
      var t := [I32_CONST] + SLeb(seg.memOffset) + [END] + tail;
      assert EncodeSegment(seg) + x == Leb(0) + t;
      ReadLeb32(0, t);
      ParseEncodedOffset(seg.memOffset, tail);
    } else {
      assert EncodeSegment(seg) + x == Leb(seg.flags) + tail;
      ReadLeb32(seg.flags, tail);
    }
  }

  lemma {:induction false} EncodeFirst(segs: seq<Segment>)
    requires segs != []
    ensures EncodeSegments(segs) == EncodeSegment(segs[0]) + EncodeSegments(segs[1..])
  {
    hide EncodeSegment;
    if |segs| == 1 {
      assert segs[..0] == [] && segs[1..] == [];
    } else {
      var init := segs[..|segs| - 1];
      EncodeFirst(init);
      assert segs[1..][..|segs| - 2] == init[1..];
    }
  }

  lemma {:induction false} ParseEncodedSegments(segs: seq<Segment>, x: seq<byte>)
    requires forall i :: 0 <= i < |segs| ==> Encodable(segs[i])
    ensures ParseSegments(EncodeSegments(segs) + x, |segs|) == Some(segs)
  {
    hide EncodeSegment, ParseSegment, EncodeSegments;
    if segs != [] {
      EncodeFirst(segs);
      var rest := EncodeSegments(segs[1..]) + x;
      assert EncodeSegments(segs) + x == EncodeSegment(segs[0]) + rest;
      ParseEncodedSegment(segs[0], rest);
      ParseEncodedSegments(segs[1..], x);
      assert segs == [segs[0]] + segs[1..];
    }
  }

  /** Re-parsing an encoded data section returns its segments. */
  lemma SectionRoundTrip(segs: seq<Segment>, x: seq<byte>)
    requires |segs| < TWO32 && forall i :: 0 <= i < |segs| ==> Encodable(segs[i])
    ensures ParseSection(EncodeSection(segs) + x) == Some(segs)
  {
    hide Leb, ReadU, EncodeSegments, ParseSegments;
    ReadLeb32(|segs|, EncodeSegments(segs) + x);
    assert EncodeSection(segs) + x == Leb(|segs|) + (EncodeSegments(segs) + x);
    ParseEncodedSegments(segs, x);
  }

  method EncodeDataSection(segs: seq<Segment>) returns (payload: seq<byte>)
    requires |segs| < TWO32 && forall i :: 0 <= i < |segs| ==> segs[i].flags < TWO32 && |segs[i].bytes| < TWO32
    ensures payload == EncodeSection(segs)
  {
    hide Leb, SLeb;
    payload := WriteLeb(|segs|);
    for i := 0 to |segs|
      invariant payload == Leb(|segs|) + EncodeSegments(segs[..i])
    {
      var seg := segs[i];
      ghost var before := payload;
      var flags := WriteLeb(seg.flags);
      payload := payload + flags;
      if seg.flags == 0 {
        payload := payload + [I32_CONST];
        var off := WriteSLeb(seg.memOffset);
        payload := payload + off;
        payload := payload + [END];
      }
      var size := WriteLeb(|seg.bytes|);
      payload := payload + size;
      payload := payload + seg.bytes;
      assert payload == before + EncodeSegment(seg);
      assert segs[..i + 1][..i] == segs[..i];
    }
    assert segs[..|segs|] == segs;
  }

  /** What ParseSegment says of a position: reads outside, a stop, or a segment up to a later position. */
  ghost predicate ParsesAt(buf: seq<byte>, p: nat, r: Option<Option<(Segment, nat)>>) {
    p <= |buf| &&
    match ParseSegment(buf[p..])
    case None => r == None
    case Some(Stop) => r == Some(None)
    case Some(Got(seg, rest)) =>
      r.Some? && r.value.Some? && r.value.value.0 == seg && r.value.value.1 <= |buf| && buf[r.value.value.1..] == rest
  }

  method ReadOffset(buf: seq<byte>, start: nat) returns (r: Option<Option<(int32, nat)>>)
    requires start <= |buf|
    ensures match ParseOffset(buf[start..])
      case None => r == None
      case Some(None) => r == Some(None)
      case Some(Some((off, rest))) =>
        r.Some? && r.value.Some? && r.value.value.0 == off && r.value.value.1 <= |buf| && buf[r.value.value.1..] == rest
  {
    hide ReadS, Wrap32;
    if start == |buf| {
      return None;
    }
    if buf[start] != I32_CONST {
      return Some(None);
    }
    assert buf[start..][1..] == buf[start + 1..];
    var off := ReadSLeb128(buf, start + 1);
    if off.None? {
      return None;
    }
    var p := off.value.1;
    if p == |buf| {
      return None;
    }
    if buf[p] != END {
      return Some(None);
    }
    assert buf[p..][1..] == buf[p + 1..];
    return Some(Some((off.value.0, p + 1)));
  }

  method ReadSegment(buf: seq<byte>, start: nat) returns (r: Option<Option<(Segment, nat)>>)
    requires start <= |buf|
    ensures ParsesAt(buf, start, r)
  {
    hide ReadU, ParseOffset;
    var flags := ReadLeb128(buf, start);
    if flags.None? {
      return None;
    }
    var p, memOffset := flags.value.1, 0;
    if flags.value.0 == 0 {
      var off := ReadOffset(buf, p);
      if off.None? {
        return None;
      }
      if off.value.None? {
        return Some(None);
      }
      memOffset, p := off.value.value.0, off.value.value.1;
    }
    var size := ReadLeb128(buf, p);
    if size.None? {
      return None;
    }
    var q := size.value.1;
    if q + size.value.0 > |buf| {
      return None;
    }
    assert buf[q..][..size.value.0] == buf[q..q + size.value.0];
    assert buf[q..][size.value.0..] == buf[q + size.value.0..];
    return Some(Some((Segment(flags.value.0, memOffset, buf[q..q + size.value.0]), q + size.value.0)));
  }

  method ParseDataSegments(buf: seq<byte>) returns (r: Option<seq<Segment>>)
    ensures r == ParseSection(buf)
  {
    hide ReadU, ParseSegment;
    assert buf[0..] == buf;
    var count := ReadLeb128(buf, 0);
    if count.None? {
      return None;
    }
    var segs: seq<Segment>, p, i := [], count.value.1, 0;
    PrependNothing(ParseSection(buf));
    while i < count.value.0
      invariant 0 <= i <= count.value.0 && 0 <= p <= |buf|
      invariant ParseSection(buf) == Prepend(segs, ParseSegments(buf[p..], count.value.0 - i))
    {
      var next := ReadSegment(buf, p);
      PrependStep(segs, buf[p..], count.value.0 - i);
      if next.None? {
        return None;
      }
      if next.value.None? {
        break;
      }
      segs := segs + [next.value.value.0];
      p := next.value.value.1;
      i := i + 1;
    }
    assert segs + [] == segs;
    return Some(segs);
  }

  lemma PrependNothing(r: Option<seq<Segment>>)
    ensures Prepend([], r) == r
  {
    assert r.Some? ==> [] + r.value == r.value;
  }

  ghost function Prepend(segs: seq<Segment>, r: Option<seq<Segment>>): Option<seq<Segment>> {
    if r.None? then None else Some(segs + r.value)
  }

  lemma PrependStep(segs: seq<Segment>, s: seq<byte>, count: nat)
    requires count > 0
    ensures Prepend(segs, ParseSegments(s, count)) ==
      match ParseSegment(s)
      case None => None
      case Some(Stop) => Some(segs)
      case Some(Got(seg, rest)) => Prepend(segs + [seg], ParseSegments(rest, count - 1))
  {
    hide ParseSegment;
    assert segs + [] == segs;
    match ParseSegment(s)
    case None =>
    case Some(Stop) =>
    case Some(Got(seg, rest)) =>
      if ParseSegments(rest, count - 1).Some? {
        var more := ParseSegments(rest, count - 1).value;
        assert segs + ([seg] + more) == segs + [seg] + more;
      }
  }

  // ---------------------------------------------------- what a section declares

  const GLOBAL_GET: byte := 0x23

  /** An instruction of a constant expression of type i32; the operators are i32.add, i32.sub and i32.mul. */
  datatype Instr = Const(value: int32) | Global(index: nat) | Operator(code: byte)

  /** A segment of memory 0 as the module declares it, with any offset expression. */
  datatype Declared = Declared(offset: seq<Instr>, bytes: seq<byte>)

  /** The instructions up to the end of an expression, and what follows it. */
  function ReadExpr(s: seq<byte>): Option<(seq<Instr>, seq<byte>)>
    decreases |s|
  {
    if s == [] then None
    else if s[0] == END then Some(([], s[1..]))
    else if s[0] == I32_CONST then
      ReadShrinks(s[1..], 5);
      match ReadS(s[1..], 5)
      case None => None
      case Some((v, t)) => Led(Const(Wrap32(v)), ReadExpr(t))
    else if s[0] == GLOBAL_GET then
      ReadShrinks(s[1..], 5);
      match ReadU(s[1..], 5)
      case None => None
      case Some((v, t)) => Led(Global(v), ReadExpr(t))
    else if 0x6a <= s[0] <= 0x6c then Led(Operator(s[0]), ReadExpr(s[1..]))
    else None
  }

  function Led(first: Instr, r: Option<(seq<Instr>, seq<byte>)>): Option<(seq<Instr>, seq<byte>)> {
    if r.None? then None else Some(([first] + r.value.0, r.value.1))
  }

  /** The segment at the start of s if it is an active one of memory 0, and what follows it. */
  function ReadDeclared(s: seq<byte>): Option<(Declared, seq<byte>)> {
    match ReadU(s, 5)
    case None => None
    case Some((flags, t)) =>
      if flags % TWO32 != 0 then None
      else match ReadExpr(t)
        case None => None
        case Some((offset, u)) =>
          match ReadU(u, 5)
          case None => None
          case Some((n, w)) =>
            if n % TWO32 > |w| then None else Some((Declared(offset, w[..n % TWO32]), w[n % TWO32..]))
  }

  function ReadDeclareds(s: seq<byte>, count: nat): Option<seq<Declared>>
    decreases count
  {
    if count == 0 then Some([])
    else match ReadDeclared(s)
      case None => None
      case Some((d, rest)) =>
        match ReadDeclareds(rest, count - 1)
        case None => None
        case Some(more) => Some([d] + more)
  }

  /** All the segments a section declares, if they are active ones of memory 0. */
  function SectionOf(s: seq<byte>): Option<seq<Declared>> {
    match ReadU(s, 5)
    case None => None
    case Some((n, t)) => ReadDeclareds(t, n % TWO32)
  }

  /** The offset is one i32.const. */
  predicate Simple(d: Declared) {
    |d.offset| == 1 && d.offset[0].Const?
  }

  function Plain(d: Declared): Segment
    requires Simple(d)
  {
    Segment(0, d.offset[0].value, d.bytes)
  }

  function AsDeclared(seg: Segment): Declared {
    Declared([Const(seg.memOffset)], seg.bytes)
  }

  /** How many segments come before the first with another offset. */
  function Lead(ds: seq<Declared>): (n: nat)
    ensures n <= |ds| && (forall i :: 0 <= i < n ==> Simple(ds[i])) && (n < |ds| ==> !Simple(ds[n]))
  {
    if ds == [] || !Simple(ds[0]) then 0 else 1 + Lead(ds[1..])
  }

  function Plains(ds: seq<Declared>): (segs: seq<Segment>)
    ensures |segs| == Lead(ds) && forall i :: 0 <= i < |segs| ==> segs[i] == Plain(ds[i])
  {
    if ds == [] || !Simple(ds[0]) then [] else [Plain(ds[0])] + Plains(ds[1..])
  }

  /** The code reads all the segments, without a stop. */
  predicate AllRead(s: seq<byte>, count: nat)
    decreases count
  {
    count == 0 ||
    var next := ParseSegment(s);
    next.Some? && next.value.Got? && AllRead(next.value.rest, count - 1)
  }

  predicate ReadsWhole(s: seq<byte>) {
    var n := ReadU(s, 5);
    n.Some? && AllRead(n.value.1, n.value.0 % TWO32)
  }

  lemma ParseExpr(s: seq<byte>)
    requires ReadExpr(s).Some?
    ensures var (offset, rest) := ReadExpr(s).value;
      ParseOffset(s) == if |offset| == 1 && offset[0].Const? then Some(Some((offset[0].value, rest))) else Some(None)
  {
    hide ReadU, ReadS, Wrap32;
    if s[0] == I32_CONST {
      var t := ReadS(s[1..], 5).value.1;
      assert ReadExpr(t).Some?;
      assert ReadExpr(t).value.0 == [] <==> t[0] == END;
    }
  }

  /** The code reads a declared segment if its offset is one i32.const, and stops at any other. */
  lemma ParseDeclared(s: seq<byte>)
    requires ReadDeclared(s).Some?
    ensures var (d, rest) := ReadDeclared(s).value;
      ParseSegment(s) == Some(if Simple(d) then Got(Plain(d), rest) else Stop)
  {
    hide ReadU, ReadExpr, ParseOffset;
    ParseExpr(ReadU(s, 5).value.1);
  }

  lemma LeadNone()
    ensures Plains([]) == [] && Lead([]) == 0
  {
  }

  lemma LeadFirst(d: Declared, more: seq<Declared>)
    ensures Plains([d] + more) == if Simple(d) then [Plain(d)] + Plains(more) else []
    ensures Lead([d] + more) == if Simple(d) then 1 + Lead(more) else 0
  {
    assert ([d] + more)[1..] == more;
  }

  lemma {:induction false} ParseDeclareds(s: seq<byte>, count: nat)
    requires ReadDeclareds(s, count).Some?
    ensures var ds := ReadDeclareds(s, count).value;
      ParseSegments(s, count) == Some(Plains(ds)) && |ds| == count && (AllRead(s, count) <==> Lead(ds) == |ds|)
    decreases count
  {
    hide ReadDeclared, ParseSegment, Plains, Lead;
    if count > 0 {
      ParseDeclared(s);
      var (d, rest) := ReadDeclared(s).value;
      ParseDeclareds(rest, count - 1);
      LeadFirst(d, ReadDeclareds(rest, count - 1).value);
    } else {
      assert Plains([]) == [] && Lead([]) == 0 by { LeadNone(); }
    }
  }

  /** What the code reads of a section: the segments up to the first with another offset. */
  lemma ParseStopsAt(s: seq<byte>)
    requires SectionOf(s).Some?
    ensures var ds := SectionOf(s).value;
      ParseSection(s) == Some(Plains(ds)) && (ReadsWhole(s) <==> Lead(ds) == |ds|)
  {
    hide ReadU, ReadDeclareds, ParseSegments, AllRead;
    var (n, t) := ReadU(s, 5).value;
    ParseDeclareds(t, n % TWO32);
  }

  lemma ReadParsed(s: seq<byte>)
    requires ParseSegment(s).Some? && ParseSegment(s).value.Got? && ParseSegment(s).value.seg.flags == 0
    ensures ReadDeclared(s) == Some((AsDeclared(ParseSegment(s).value.seg), ParseSegment(s).value.rest))
  {
    hide ReadU, ReadS, Wrap32, ReadExpr;
    var t := ReadU(s, 5).value.1;
    ReadParsedOffset(t);
  }

  lemma ReadParsedOffset(s: seq<byte>)
    requires ParseOffset(s).Some? && ParseOffset(s).value.Some?
    ensures var (off, rest) := ParseOffset(s).value.value;
      ReadExpr(s) == Some(([Const(off)], rest))
  {
    hide ReadU, ReadS, Wrap32;
    var t := ReadS(s[1..], 5).value.1;
    assert ReadExpr(t) == Some(([], t[1..]));
    var off := ParseOffset(s).value.value.0;
    assert [Const(off)] + [] == [Const(off)];
  }

  lemma {:induction false} ReadParseds(s: seq<byte>, count: nat)
    requires ParseSegments(s, count).Some? && |ParseSegments(s, count).value| == count
    requires forall i :: 0 <= i < count ==> ParseSegments(s, count).value[i].flags == 0
    ensures ReadDeclareds(s, count) == Some(Declareds(ParseSegments(s, count).value))
    decreases count
  {
    hide ReadDeclared, ParseSegment, Declareds;
    var segs := ParseSegments(s, count).value;
    DeclaredsFirst(segs);
    if count > 0 {
      var rest := ParseSegment(s).value.rest;
      assert segs[0] == ParseSegment(s).value.seg && segs[1..] == ParseSegments(rest, count - 1).value;
      ReadParsed(s);
      ReadParseds(rest, count - 1);
      assert ReadDeclareds(s, count) == Some([AsDeclared(segs[0])] + Declareds(segs[1..]));
    }
  }

  function Declareds(segs: seq<Segment>): seq<Declared> {
    seq(|segs|, i requires 0 <= i < |segs| => AsDeclared(segs[i]))
  }

  lemma DeclaredsFirst(segs: seq<Segment>)
    ensures Declareds(segs) == if segs == [] then [] else [AsDeclared(segs[0])] + Declareds(segs[1..])
  {
  }

  /** An encoded section declares its segments. */
  lemma EncodedDeclares(segs: seq<Segment>)
    requires |segs| < TWO32 && forall i :: 0 <= i < |segs| ==> Encodable(segs[i]) && segs[i].flags == 0
    ensures SectionOf(EncodeSection(segs)) == Some(Declareds(segs))
  {
    hide Leb, ReadU, EncodeSegments, ParseSegments, ReadDeclareds;
    var x := EncodeSegments(segs);
    ReadLeb32(|segs|, x);
    ParseEncodedSegments(segs, []);
    assert x + [] == x;
    ReadParseds(x, |segs|);
  }

  // --------------------------------------------------------------------- blobs

  /** "PSIO1_WIT" and 1. */
  const MAGIC: seq<byte> := [80, 83, 73, 79, 49, 95, 87, 73, 84, 1]
  /** "interface ". */
  const INTERFACE: seq<byte> := [105, 110, 116, 101, 114, 102, 97, 99, 101, 32]

  lemma MagicText()
    ensures MAGIC == Ascii("PSIO1_WIT") + [1] && INTERFACE == Ascii("interface ")
  {
  }

  datatype Blob = Blob(name: seq<byte>, text: seq<byte>, seg: nat, offset: nat, size: nat)

  predicate OccursAt(s: seq<byte>, pat: seq<byte>, k: nat) {
    k + |pat| <= |s| && s[k..k + |pat|] == pat
  }

  /** The first place at or after i where a pattern occurs. */
  function IndexOf(s: seq<byte>, pat: seq<byte>, i: nat := 0): (r: Option<nat>)
    ensures r.Some? ==> i <= r.value && OccursAt(s, pat, r.value)
    ensures forall k: nat :: i <= k && (r.Some? ==> k < r.value) ==> !OccursAt(s, pat, k)
    decreases |s| - i
  {
    if i + |pat| > |s| then None
    else if OccursAt(s, pat, i) then Some(i)
    else IndexOf(s, pat, i + 1)
  }

  /** The first place of a space or an opening brace. */
  function NameEnd(s: seq<byte>, i: nat := 0): (r: Option<nat>)
    ensures r.Some? ==> i <= r.value < |s| && s[r.value] in {32, 123} && forall k :: i <= k < r.value ==> s[k] !in {32, 123}
    ensures r.None? ==> forall k :: i <= k < |s| ==> s[k] !in {32, 123}
    decreases |s| - i
  {
    if i >= |s| then None else if s[i] == 32 || s[i] == 123 then Some(i) else NameEnd(s, i + 1)
  }

  function InterfaceName(text: seq<byte>): Option<seq<byte>> {
    match IndexOf(text, INTERFACE)
    case None => None
    case Some(pos) =>
      var rest := text[pos + 10..];
      match NameEnd(rest)
      case None => None
      case Some(n) => Some(rest[..n])
  }

  function LittleEndian(a: byte, b: byte, c: byte, d: byte): nat {
    a + 0x100 * b + 0x1_0000 * c + 0x100_0000 * d
  }

  /** The interface name and text of the blob that starts at i, if one does. */
  function BlobAt(bytes: seq<byte>, i: nat): Option<(seq<byte>, seq<byte>)> {
    if i + 14 > |bytes| || bytes[i..i + 10] != MAGIC then None
    else
      var len := LittleEndian(bytes[i + 10], bytes[i + 11], bytes[i + 12], bytes[i + 13]);
      if i + 14 + len > |bytes| then None
      else
        var text := bytes[i + 14..i + 14 + len];
        match InterfaceName(text)
        case None => None
        case Some(name) => Some((name, text))
  }

  /** n in k octets, least significant first. */
  function LowFirst(n: nat, k: nat): (r: seq<byte>)
    ensures |r| == k
  {
    if k == 0 then [] else [n % 256] + LowFirst(n / 256, k - 1)
  }

  /** A text that names an interface: the word, the name, and a space or a brace after it; no such word stands before. */
  ghost predicate NamesAfter(text: seq<byte>, before: seq<byte>, name: seq<byte>, rest: seq<byte>) {
    && text == before + INTERFACE + name + rest && (forall k: nat :: k < |before| ==> !OccursAt(text, INTERFACE, k))
    && (forall k :: 0 <= k < |name| ==> name[k] !in {32, 123}) && rest != [] && rest[0] in {32, 123}
  }

  ghost predicate Names(text: seq<byte>, name: seq<byte>) {
    exists before: seq<byte>, rest: seq<byte> :: NamesAfter(text, before, name, rest)
  }

  /** The octets from i on spell a blob: the magic, the length of the text in four octets, and the text, which names an interface. */
  ghost predicate Spelled(bytes: seq<byte>, i: nat, name: seq<byte>, text: seq<byte>) {
    && |text| < TWO32 && OccursAt(bytes, MAGIC + LowFirst(|text|, 4) + text, i) && Names(text, name)
  }

  /** The name found is the one the text spells. */
  lemma NameIff(text: seq<byte>, name: seq<byte>)
    ensures InterfaceName(text) == Some(name) <==> Names(text, name)
  {
    hide NamesAfter;
    if InterfaceName(text) == Some(name) {
      var pos := IndexOf(text, INTERFACE).value;
      var after := text[pos + 10..];
      NameSpelled(text, pos, after, NameEnd(after).value);
    }
    hide InterfaceName;
    if Names(text, name) {
      var before: seq<byte>, rest: seq<byte> :| NamesAfter(text, before, name, rest);
      NameFound(text, before, name, rest);
    }
  }

  lemma NameSpelled(text: seq<byte>, pos: nat, after: seq<byte>, n: nat)
    requires OccursAt(text, INTERFACE, pos) && (forall k: nat :: k < pos ==> !OccursAt(text, INTERFACE, k))
    requires after == text[pos + 10..] && n < |after| && after[n] in {32, 123}
    requires forall k :: 0 <= k < n ==> after[k] !in {32, 123}
    ensures NamesAfter(text, text[..pos], after[..n], after[n..])
  {
    assert text == text[..pos] + text[pos..pos + 10] + after[..n] + after[n..];
    assert after[n..][0] == after[n];
    assert forall k :: 0 <= k < n ==> after[..n][k] == after[k];
  }

  lemma NameFound(text: seq<byte>, before: seq<byte>, name: seq<byte>, rest: seq<byte>)
    requires NamesAfter(text, before, name, rest)
    ensures InterfaceName(text) == Some(name)
  {
    var pos := |before|;
    assert text[pos..pos + 10] == INTERFACE;
    assert OccursAt(text, INTERFACE, pos);
    assert IndexOf(text, INTERFACE) == Some(pos);
    var after := text[pos + 10..];
    assert after == name + rest;
    var n := NameEnd(after);
    assert after[|name|] == rest[0];
    assert forall k :: 0 <= k < |name| ==> after[k] == name[k];
    assert n == Some(|name|);
    assert after[..|name|] == name;
  }

  lemma FourOctets(n: nat)
    requires n < TWO32
    ensures LowFirst(n, 4) == [n % 256, n / 0x100 % 256, n / 0x1_0000 % 256, n / 0x100_0000]
  {
    var n1, n2, n3 := n / 0x100, n / 0x1_0000, n / 0x100_0000;
    assert n1 / 256 == n2 && n2 / 256 == n3 && n3 < 256;
    assert LowFirst(n3, 1) == [n3 % 256];
    assert LowFirst(n2, 2) == [n2 % 256, n3 % 256];
    assert LowFirst(n1, 3) == [n1 % 256, n2 % 256, n3 % 256];
  }

  lemma LowFirstStep(a: byte, n: nat, k: nat)
    ensures LowFirst(a + 256 * n, k + 1) == [a] + LowFirst(n, k)
  {
    assert (a + 256 * n) % 256 == a && (a + 256 * n) / 256 == n;
  }

  /** Four octets are those of the number they are read as. */
  lemma LengthRead(a: byte, b: byte, c: byte, d: byte)
    ensures LittleEndian(a, b, c, d) < TWO32 && LowFirst(LittleEndian(a, b, c, d), 4) == [a, b, c, d]
  {
    hide LowFirst;
    var n3: nat := d;
    var n2: nat := c + 256 * n3;
    var n1: nat := b + 256 * n2;
    assert LittleEndian(a, b, c, d) == a + 256 * n1;
    LowFirstStep(a, n1, 3);
    LowFirstStep(b, n2, 2);
    LowFirstStep(c, n3, 1);
    LowFirstStep(d, 0, 0);
    assert LowFirst(0, 0) == [];
    assert d + 256 * 0 == d;
  }

  lemma LengthSpelled(n: nat)
    requires n < TWO32
    ensures var o := LowFirst(n, 4); LittleEndian(o[0], o[1], o[2], o[3]) == n
  {
    var n1, n2, n3 := n / 0x100, n / 0x1_0000, n / 0x100_0000;
    assert n == n % 256 + 256 * n1;
    assert n1 == n1 % 256 + 256 * n2;
    assert n2 == n2 % 256 + 256 * n3;
    hide LowFirst;
    FourOctets(n);
  }

  /** A blob is found where one is spelled, with the name and the text spelled, and nowhere else. */
  lemma BlobIff(bytes: seq<byte>, i: nat, name: seq<byte>, text: seq<byte>)
    ensures BlobAt(bytes, i) == Some((name, text)) <==> Spelled(bytes, i, name, text)
  {
    hide Names, InterfaceName, LittleEndian, LowFirst;
    NameIff(text, name);
    if BlobAt(bytes, i) == Some((name, text)) {
      LengthRead(bytes[i + 10], bytes[i + 11], bytes[i + 12], bytes[i + 13]);
      assert bytes[i..i + 14 + |text|] == bytes[i..i + 10] + bytes[i + 10..i + 14] + bytes[i + 14..i + 14 + |text|];
    }
    if Spelled(bytes, i, name, text) {
      LengthSpelled(|text|);
      SpelledParts(bytes, i, LowFirst(|text|, 4), text);
    }
  }

  lemma SpelledParts(bytes: seq<byte>, i: nat, len: seq<byte>, text: seq<byte>)
    requires |len| == 4 && OccursAt(bytes, MAGIC + len + text, i)
    ensures bytes[i..i + 10] == MAGIC && bytes[i + 14..i + 14 + |text|] == text && bytes[i + 10..i + 14] == len
    ensures bytes[i + 10] == len[0] && bytes[i + 11] == len[1] && bytes[i + 12] == len[2] && bytes[i + 13] == len[3]
  {
    var s := bytes[i..i + 14 + |text|];
    assert s == MAGIC + len + text;
    assert s[..10] == MAGIC && s[10..14] == len && s[14..] == text;
    assert s[10] == len[0] && s[11] == len[1] && s[12] == len[2] && s[13] == len[3];
  }

  /** b is a blob of its segment, spelled there. */
  ghost predicate IsBlob(segs: seq<Segment>, b: Blob) {
    && b.seg < |segs| && b.offset + b.size <= |segs[b.seg].bytes| && b.size == 14 + |b.text|
    && Spelled(segs[b.seg].bytes, b.offset, b.name, b.text)
  }

  /** Every blob spelled in a segment starts within a blob found. */
  ghost predicate AllFound(segs: seq<Segment>, blobs: seq<Blob>) {
    forall s: nat, k: nat, name: seq<byte>, text: seq<byte> ::
      s < |segs| && Spelled(segs[s].bytes, k, name, text) ==> Inside(blobs, s, k)
  }

  lemma SearchedFinds(segs: seq<Segment>, blobs: seq<Blob>)
    requires Searched(segs, blobs, |segs|, 0)
    ensures AllFound(segs, blobs)
  {
    hide BlobAt, Spelled, Inside;
    forall s: nat, k: nat, name: seq<byte>, text: seq<byte> | s < |segs| && Spelled(segs[s].bytes, k, name, text)
      ensures Inside(blobs, s, k)
    {
      BlobIff(segs[s].bytes, k, name, text);
    }
  }

  /** Blobs in the order of their places, none overlapping another. */
  ghost predicate Ordered(blobs: seq<Blob>) {
    forall i, j :: 0 <= i < j < |blobs| ==>
      blobs[i].seg < blobs[j].seg || (blobs[i].seg == blobs[j].seg && blobs[i].offset + blobs[i].size <= blobs[j].offset)
  }

  ghost predicate Inside(blobs: seq<Blob>, si: nat, k: nat) {
    exists b :: b in blobs && b.seg == si && b.offset <= k < b.offset + b.size
  }

  /** Up to position i of segment si every blob start lies in a blob found. */
  ghost predicate Searched(segs: seq<Segment>, blobs: seq<Blob>, si: nat, i: nat) {
    forall s: nat, k: nat :: s < |segs| && (s < si || (s == si && k < i)) && BlobAt(segs[s].bytes, k).Some? ==>
      Inside(blobs, s, k)
  }

  method FindBlobs(segs: seq<Segment>) returns (blobs: seq<Blob>)
    ensures forall j :: 0 <= j < |blobs| ==> IsBlob(segs, blobs[j])
    ensures Ordered(blobs)
    ensures AllFound(segs, blobs)
  {
    hide BlobAt, Spelled;
    blobs := [];
    for si := 0 to |segs|
      invariant forall j :: 0 <= j < |blobs| ==> IsBlob(segs, blobs[j]) && blobs[j].seg < si
      invariant Ordered(blobs) && Searched(segs, blobs, si, 0)
    {
      var bytes := segs[si].bytes;
      var i := 0;
      while i + 14 <= |bytes|
        invariant 0 <= i <= |bytes|
        invariant forall j :: 0 <= j < |blobs| ==> IsBlob(segs, blobs[j]) && Before(blobs[j], si, i)
        invariant Ordered(blobs) && Searched(segs, blobs, si, i)
        decreases |bytes| - i
      {
        var found := BlobAt(bytes, i);
        if found.Some? {
          BlobBound(bytes, i);
          BlobIff(bytes, i, found.value.0, found.value.1);
          var b := Blob(found.value.0, found.value.1, si, i, 14 + |found.value.1|);
          SearchedFound(segs, blobs, si, i, b);
          blobs := blobs + [b];
          i := i + b.size;
        } else {
          SearchedNot(segs, blobs, si, i);
          i := i + 1;
        }
      }
      SearchedAll(segs, blobs, si, i);
    }
    SearchedFinds(segs, blobs);
  }

  ghost predicate Before(b: Blob, si: nat, i: nat) {
    b.seg < si || (b.seg == si && b.offset + b.size <= i)
  }

  lemma BlobBound(bytes: seq<byte>, i: nat)
    ensures BlobAt(bytes, i).Some? ==> i + 14 + |BlobAt(bytes, i).value.1| <= |bytes|
  {
    hide InterfaceName;
  }

  lemma SearchedFound(segs: seq<Segment>, blobs: seq<Blob>, si: nat, i: nat, b: Blob)
    requires Searched(segs, blobs, si, i) && b.seg == si && b.offset == i
    ensures Searched(segs, blobs + [b], si, i + b.size)
  {
    hide BlobAt;
    forall s: nat, k: nat | s < |segs| && (s < si || (s == si && k < i + b.size)) && BlobAt(segs[s].bytes, k).Some?
      ensures Inside(blobs + [b], s, k)
    {
      if s < si || k < i {
        var c :| c in blobs && c.seg == s && c.offset <= k < c.offset + c.size;
        assert c in blobs + [b];
      } else {
        assert b in blobs + [b];
      }
    }
  }

  lemma SearchedNot(segs: seq<Segment>, blobs: seq<Blob>, si: nat, i: nat)
    requires si < |segs| && Searched(segs, blobs, si, i) && BlobAt(segs[si].bytes, i).None?
    ensures Searched(segs, blobs, si, i + 1)
  {
    hide BlobAt;
  }

  lemma SearchedAll(segs: seq<Segment>, blobs: seq<Blob>, si: nat, i: nat)
    requires si < |segs| && Searched(segs, blobs, si, i) && i + 14 > |segs[si].bytes|
    ensures Searched(segs, blobs, si + 1, 0)
  {
    hide InterfaceName, Inside;
    assert forall k: nat :: k >= i ==> BlobAt(segs[si].bytes, k).None?;
  }

  // -------------------------------------------------------------------- excision

  /** A store of one octet; linear memory is addressed modulo 2^32. */
  datatype Store = Store(address: nat, octet: byte)

  function StoreAt(seg: Segment, j: nat): Store
    requires j < |seg.bytes|
  {
    Store((seg.memOffset + j) % TWO32, seg.bytes[j])
  }

  predicate Covered(blobs: seq<Blob>, j: nat) {
    exists n :: 0 <= n < |blobs| && blobs[n].offset <= j < blobs[n].offset + blobs[n].size
  }

  /** The stores of a segment from octet j on, those of the given blobs left out. */
  ghost function Stores(seg: Segment, blobs: seq<Blob>, j: nat := 0): seq<Store>
    decreases |seg.bytes| - j
  {
    if j >= |seg.bytes| then []
    else (if Covered(blobs, j) then [] else [StoreAt(seg, j)]) + Stores(seg, blobs, j + 1)
  }

  /** All stores of some segments, in order. */
  ghost function AllStores(segs: seq<Segment>): seq<Store> {
    if segs == [] then [] else AllStores(segs[..|segs| - 1]) + Stores(segs[|segs| - 1], [])
  }

  /** The blobs of a segment. */
  function Of(blobs: seq<Blob>, si: nat): seq<Blob> {
    if blobs == [] then []
    else
      var last := blobs[|blobs| - 1];
      Of(blobs[..|blobs| - 1], si) + if last.seg == si then [last] else []
  }

  /** The stores of the first n segments, those of the blobs left out. */
  ghost function KeptStores(segs: seq<Segment>, blobs: seq<Blob>, n: nat): seq<Store>
    requires n <= |segs|
  {
    if n == 0 then [] else KeptStores(segs, blobs, n - 1) + Stores(segs[n - 1], Of(blobs, n - 1))
  }

  /** Blobs of one segment, in order and within it. */
  ghost predicate Fit(blobs: seq<Blob>, size: nat) {
    && (forall n :: 0 <= n < |blobs| ==> blobs[n].offset + blobs[n].size <= size)
    && (forall m, n :: 0 <= m < n < |blobs| ==> blobs[m].offset + blobs[m].size <= blobs[n].offset)
  }

  lemma {:induction false} SkipCovered(seg: Segment, blobs: seq<Blob>, a: nat, b: nat)
    requires a <= b <= |seg.bytes| && forall j :: a <= j < b ==> Covered(blobs, j)
    ensures Stores(seg, blobs, a) == Stores(seg, blobs, b)
    decreases b - a
  {
    hide Covered;
    if a < b {
      SkipCovered(seg, blobs, a + 1, b);
      assert [] + Stores(seg, blobs, a + 1) == Stores(seg, blobs, a + 1);
    }
  }

  /** The segment of octets a to b, at the address of the first. */
  function Cut(seg: Segment, a: nat, b: nat): Segment
    requires a <= b <= |seg.bytes|
  {
    Segment(seg.flags, Wrap32(seg.memOffset + a), seg.bytes[a..b])
  }

  /** A stretch clear of blobs is stored by the piece cut from it. */
  lemma {:induction false} KeepClear(seg: Segment, blobs: seq<Blob>, a: nat, b: nat, j: nat)
    requires a <= j <= b <= |seg.bytes| && forall k :: a <= k < b ==> !Covered(blobs, k)
    ensures Stores(Cut(seg, a, b), [], j - a) + Stores(seg, blobs, b) == Stores(seg, blobs, j)
    decreases b - j
  {
    hide Wrap32, Stores, Covered, StoreAt;
    var piece := Cut(seg, a, b);
    if j == b {
      NothingLeft(piece, []);
      assert [] + Stores(seg, blobs, b) == Stores(seg, blobs, b);
    } else {
      KeepClear(seg, blobs, a, b, j + 1);
      SameStore(seg, a, b, j);
      NoneCovered(j - a);
      StoresHere(piece, [], j - a);
      StoresHere(seg, blobs, j);
      var rest := Stores(piece, [], j - a + 1);
      assert [StoreAt(seg, j)] + (rest + Stores(seg, blobs, b)) == ([StoreAt(seg, j)] + rest) + Stores(seg, blobs, b);
    }
  }

  lemma StoresHere(seg: Segment, blobs: seq<Blob>, j: nat)
    requires j < |seg.bytes| && !Covered(blobs, j)
    ensures Stores(seg, blobs, j) == [StoreAt(seg, j)] + Stores(seg, blobs, j + 1)
  {
  }

  lemma NoneCovered(j: nat)
    ensures !Covered([], j)
  {
  }

  lemma SameStore(seg: Segment, a: nat, b: nat, j: nat)
    requires a <= j < b <= |seg.bytes|
    ensures StoreAt(Cut(seg, a, b), j - a) == StoreAt(seg, j)
  {
    hide Wrap32;
    SameAddress(seg.memOffset, a, j - a);
  }

  lemma SameAddress(m: int32, a: nat, d: nat)
    ensures (Wrap32(m + a) + d) % TWO32 == (m + (a + d)) % TWO32
  {
    var x := m + a + 0x8000_0000;
    var q, r := x / 0x1_0000_0000, x % 0x1_0000_0000;
    assert Wrap32(m + a) == m + a - q * 0x1_0000_0000;
  }

  lemma AllStoresPush(segs: seq<Segment>, seg: Segment)
    ensures AllStores(segs + [seg]) == AllStores(segs) + Stores(seg, [])
  {
    assert (segs + [seg])[..|segs|] == segs;
  }

  /** How many pieces a segment is cut into from a cursor on: the gaps between sorted blobs that are not empty. */
  function Pieces(size: nat, blobs: seq<Blob>, cursor: nat): nat {
    if blobs == [] then (if cursor < size then 1 else 0)
    else (if blobs[0].offset > cursor then 1 else 0) + Pieces(size, blobs[1..], blobs[0].offset + blobs[0].size)
  }

  lemma PiecesNext(size: nat, blobs: seq<Blob>, n: nat, cursor: nat)
    requires n < |blobs|
    ensures Pieces(size, blobs[n..], cursor) ==
      (if blobs[n].offset > cursor then 1 else 0) + Pieces(size, blobs[n + 1..], blobs[n].offset + blobs[n].size)
  {
    assert blobs[n..][1..] == blobs[n + 1..];
  }

  lemma PiecesEnd(size: nat, cursor: nat)
    ensures Pieces(size, [], cursor) == if cursor < size then 1 else 0
  {
  }

  /** The pieces of a segment between its blobs, appended to the result. */
  method SplitSegment(result: seq<Segment>, seg: Segment, blobs: seq<Blob>) returns (out: seq<Segment>)
    requires Fit(blobs, |seg.bytes|)
    ensures result <= out && AllStores(out) == AllStores(result) + Stores(seg, blobs)
    ensures forall i :: |result| <= i < |out| ==> out[i].flags == seg.flags && 0 < |out[i].bytes| <= |seg.bytes|
    ensures |out| == |result| + Pieces(|seg.bytes|, blobs, 0)
  {
    hide AllStores, Stores, Covered, Wrap32, Pieces;
    out := result;
    var cursor := 0;
    assert blobs[0..] == blobs;
    AppendNothing(AllStores(result), Stores(seg, blobs));
    for n := 0 to |blobs|
      invariant 0 <= cursor <= |seg.bytes| && (n < |blobs| ==> cursor <= blobs[n].offset)
      invariant forall m :: 0 <= m < n ==> blobs[m].offset + blobs[m].size <= cursor
      invariant result <= out && AllStores(out) + Stores(seg, blobs, cursor) == AllStores(result) + Stores(seg, blobs)
      invariant forall i :: |result| <= i < |out| ==> out[i].flags == seg.flags && 0 < |out[i].bytes| <= |seg.bytes|
      invariant |out| + Pieces(|seg.bytes|, blobs[n..], cursor) == |result| + Pieces(|seg.bytes|, blobs, 0)
    {
      var offset := blobs[n].offset;
      PiecesNext(|seg.bytes|, blobs, n, cursor);
      Clear(blobs, |seg.bytes|, n, cursor);
      if offset > cursor {
        var before := Segment(seg.flags, Wrap32(seg.memOffset + cursor), seg.bytes[cursor..offset]);
        PieceKept(out, seg, blobs, cursor, offset);
        out := out + [before];
      }
      Full(blobs, n);
      SkipCovered(seg, blobs, offset, offset + blobs[n].size);
      cursor := offset + blobs[n].size;
    }
    Clear(blobs, |seg.bytes|, |blobs|, cursor);
    PiecesEnd(|seg.bytes|, cursor);
    assert blobs[|blobs|..] == [];
    if cursor < |seg.bytes| {
      var after := Segment(seg.flags, Wrap32(seg.memOffset + cursor), seg.bytes[cursor..]);
      assert seg.bytes[cursor..] == seg.bytes[cursor..|seg.bytes|];
      PieceKept(out, seg, blobs, cursor, |seg.bytes|);
      out := out + [after];
    }
    NothingLeft(seg, blobs);
    assert AllStores(out) + [] == AllStores(out);
  }

  lemma AppendNothing(a: seq<Store>, b: seq<Store>)
    ensures a + b == a + b + [] && a + [] == a
  {
  }

  lemma NothingLeft(seg: Segment, blobs: seq<Blob>)
    ensures Stores(seg, blobs, |seg.bytes|) == []
  {
  }

  /** Nothing from the cursor to the next blob, or to the end after the last, is covered. */
  lemma Clear(blobs: seq<Blob>, size: nat, n: nat, cursor: nat)
    requires Fit(blobs, size) && n <= |blobs| && forall m :: 0 <= m < n ==> blobs[m].offset + blobs[m].size <= cursor
    ensures forall k: nat :: cursor <= k < (if n < |blobs| then blobs[n].offset else size) ==> !Covered(blobs, k)
  {
    forall k: nat | cursor <= k < (if n < |blobs| then blobs[n].offset else size)
      ensures !Covered(blobs, k)
    {
      forall m | 0 <= m < |blobs|
        ensures !(blobs[m].offset <= k < blobs[m].offset + blobs[m].size)
      {
        if n < m {
          assert blobs[n].offset + blobs[n].size <= blobs[m].offset;
        }
      }
    }
  }

  lemma Full(blobs: seq<Blob>, n: nat)
    requires n < |blobs|
    ensures forall k: nat :: blobs[n].offset <= k < blobs[n].offset + blobs[n].size ==> Covered(blobs, k)
  {
  }

  lemma PieceKept(out: seq<Segment>, seg: Segment, blobs: seq<Blob>, a: nat, b: nat)
    requires a <= b <= |seg.bytes| && forall k :: a <= k < b ==> !Covered(blobs, k)
    ensures AllStores(out + [Cut(seg, a, b)]) + Stores(seg, blobs, b) == AllStores(out) + Stores(seg, blobs, a)
  {
    hide Stores, AllStores, Covered;
    AllStoresPush(out, Cut(seg, a, b));
    KeepClear(seg, blobs, a, b, a);
    var kept := Stores(Cut(seg, a, b), []);
    assert AllStores(out) + kept + Stores(seg, blobs, b) == AllStores(out) + (kept + Stores(seg, blobs, b));
  }

  /** The blobs of each segment, in the order given. */
  method GroupBlobs(count: nat, blobs: seq<Blob>) returns (per: seq<seq<Blob>>)
    requires forall n :: 0 <= n < |blobs| ==> blobs[n].seg < count
    ensures |per| == count && forall si :: 0 <= si < count ==> per[si] == Of(blobs, si)
  {
    per := seq(count, _ => []);
    for n := 0 to |blobs|
      invariant |per| == count && forall si :: 0 <= si < count ==> per[si] == Of(blobs[..n], si)
    {
      var b := blobs[n];
      assert blobs[..n + 1][..n] == blobs[..n];
      assert forall si: nat :: Of(blobs[..n + 1], si) == Of(blobs[..n], si) + if b.seg == si then [b] else [];
      per := per[b.seg := per[b.seg] + [b]];
    }
    assert blobs[..|blobs|] == blobs;
  }

  predicate Apart(a: Blob, b: Blob) {
    a.offset + a.size <= b.offset || b.offset + b.size <= a.offset
  }

  /** No two blobs of a segment overlap; they may come in any order. */
  ghost predicate Disjoint(blobs: seq<Blob>) {
    forall i, j :: 0 <= i < j < |blobs| && blobs[i].seg == blobs[j].seg ==> Apart(blobs[i], blobs[j])
  }

  ghost predicate IsPlaced(segs: seq<Segment>, b: Blob) {
    b.seg < |segs| && 0 < b.size && b.offset + b.size <= |segs[b.seg].bytes|
  }

  /** A blob put before the first that does not start before it. */
  function Insert(b: Blob, sorted: seq<Blob>): (r: seq<Blob>)
    ensures forall x :: x in r <==> x == b || x in sorted
  {
    if sorted == [] || b.offset <= sorted[0].offset then [b] + sorted
    else
      assert sorted == [sorted[0]] + sorted[1..];
      [sorted[0]] + Insert(b, sorted[1..])
  }

  /** The blobs of a segment sorted by offset. */
  function ByOffset(blobs: seq<Blob>): (r: seq<Blob>)
    ensures forall x :: x in r <==> x in blobs
  {
    if blobs == [] then []
    else
      assert blobs == blobs[..|blobs| - 1] + [blobs[|blobs| - 1]];
      Insert(blobs[|blobs| - 1], ByOffset(blobs[..|blobs| - 1]))
  }

  lemma FitLed(first: Blob, rest: seq<Blob>, size: nat)
    requires first.offset + first.size <= size && Fit(rest, size)
    requires forall x :: x in rest ==> first.offset + first.size <= x.offset
    ensures Fit([first] + rest, size)
  {
  }

  lemma FitTail(blobs: seq<Blob>, size: nat)
    requires Fit(blobs, size) && blobs != []
    ensures Fit(blobs[1..], size)
    ensures forall x :: x in blobs[1..] ==> blobs[0].offset + blobs[0].size <= x.offset
  {
  }

  lemma {:induction false} InsertFit(b: Blob, sorted: seq<Blob>, size: nat)
    requires Fit(sorted, size) && 0 < b.size && b.offset + b.size <= size
    requires forall x :: x in sorted ==> Apart(b, x) && 0 < x.size
    ensures Fit(Insert(b, sorted), size)
  {
    hide Fit;
    if sorted == [] {
      FitLed(b, [], size);
    } else {
      FitTail(sorted, size);
      var first, more := sorted[0], sorted[1..];
      assert first in sorted && sorted == [first] + more;
      assert Apart(b, first) && first.offset + first.size <= size by { FitAt(sorted, size, 0); }
      if b.offset <= first.offset {
        FitLed(b, sorted, size);
      } else {
        InsertFit(b, more, size);
        FitLed(first, Insert(b, more), size);
      }
    }
  }

  lemma FitAt(blobs: seq<Blob>, size: nat, n: nat)
    requires Fit(blobs, size) && n < |blobs|
    ensures blobs[n].offset + blobs[n].size <= size
  {
  }

  lemma {:induction false} OfFit(segs: seq<Segment>, blobs: seq<Blob>, si: nat)
    requires si < |segs| && Disjoint(blobs) && forall n :: 0 <= n < |blobs| ==> IsPlaced(segs, blobs[n])
    ensures Fit(ByOffset(Of(blobs, si)), |segs[si].bytes|)
    ensures forall b :: b in Of(blobs, si) ==> b in blobs && b.seg == si
  {
    if blobs != [] {
      var init, last := blobs[..|blobs| - 1], blobs[|blobs| - 1];
      OfFit(segs, init, si);
      var of := Of(init, si);
      if last.seg == si {
        assert (of + [last])[..|of|] == of;
        forall b | b in ByOffset(of)
          ensures Apart(last, b) && 0 < b.size
        {
          var m :| 0 <= m < |init| && init[m] == b;
          assert blobs[m] == b;
        }
        InsertFit(last, ByOffset(of), |segs[si].bytes|);
      } else {
        assert of + [] == of;
      }
    }
  }

  /** What a segment keeps depends only on which blobs it has. */
  lemma {:induction false} SameKept(seg: Segment, blobs: seq<Blob>, others: seq<Blob>, j: nat)
    requires forall b :: b in blobs <==> b in others
    ensures Stores(seg, blobs, j) == Stores(seg, others, j)
    decreases |seg.bytes| - j
  {
    if j < |seg.bytes| {
      SameKept(seg, blobs, others, j + 1);
      SameCovered(blobs, others, j);
      SameCovered(others, blobs, j);
    }
  }

  lemma SameCovered(blobs: seq<Blob>, others: seq<Blob>, j: nat)
    requires forall b :: b in blobs ==> b in others
    ensures Covered(blobs, j) ==> Covered(others, j)
  {
    if Covered(blobs, j) {
      var n :| 0 <= n < |blobs| && blobs[n].offset <= j < blobs[n].offset + blobs[n].size;
      assert blobs[n] in others;
    }
  }

  /** No longer than, and of the kind of, some segment. */
  ghost predicate PieceOf(piece: Segment, segs: seq<Segment>) {
    exists i :: 0 <= i < |segs| && segs[i].flags == piece.flags && |piece.bytes| <= |segs[i].bytes|
  }

  method Excise(segs: seq<Segment>, blobs: seq<Blob>) returns (out: seq<Segment>)
    requires Disjoint(blobs) && forall n :: 0 <= n < |blobs| ==> IsPlaced(segs, blobs[n])
    ensures AllStores(out) == KeptStores(segs, blobs, |segs|)
    ensures forall i :: 0 <= i < |out| ==> |out[i].bytes| > 0
    ensures forall i :: 0 <= i < |out| ==> PieceOf(out[i], segs)
    ensures Indexed(segs, blobs, out, |segs|)
  {
    hide AllStores, Stores, Of, Disjoint, ByOffset, Fit, KeptStores, Indexed, NonEmpty;
    var per := GroupBlobs(|segs|, blobs);
    var result := [];
    NothingIndexed(segs, blobs);
    for si := 0 to |segs|
      invariant AllStores(result) == KeptStores(segs, blobs, si)
      invariant forall i :: 0 <= i < |result| ==> PieceOf(result[i], segs)
      invariant Indexed(segs, blobs, NonEmpty(result), si)
    {
      ghost var before := result;
      OfFit(segs, blobs, si);
      if per[si] == [] {
        result := result + [segs[si]];
        WholeIndexed(segs, blobs, before, si);
      } else {
        var sorted := ByOffset(per[si]);
        SameKept(segs[si], sorted, per[si], 0);
        result := SplitSegment(result, segs[si], sorted);
        KeptNext(segs, blobs, si);
        CutIndexed(segs, blobs, before, result, si);
      }
    }
    out := RemoveEmpty(result);
  }

  // Where segments end up.

  function NonEmpty(segs: seq<Segment>): seq<Segment> {
    if segs == [] then []
    else
      var last := segs[|segs| - 1];
      NonEmpty(segs[..|segs| - 1]) + if last.bytes != [] then [last] else []
  }

  /** How many segments the first n become: blobs cut a segment into any number of pieces, and empty segments go. */
  function Place(segs: seq<Segment>, blobs: seq<Blob>, n: nat): nat
    requires n <= |segs|
  {
    if n == 0 then 0
    else Place(segs, blobs, n - 1) + Pieces(|segs[n - 1].bytes|, ByOffset(Of(blobs, n - 1)), 0)
  }

  /** The first Place(i) segments store what the first i did, and a segment that is not touched is at its place. */
  ghost predicate Indexed(segs: seq<Segment>, blobs: seq<Blob>, out: seq<Segment>, n: nat)
    requires n <= |segs|
  {
    |out| == Place(segs, blobs, n) && forall i: nat :: i <= n ==> IndexedAt(segs, blobs, out, n, i)
  }

  ghost predicate IndexedAt(segs: seq<Segment>, blobs: seq<Blob>, out: seq<Segment>, n: nat, i: nat)
    requires i <= n <= |segs|
  {
    var at := Place(segs, blobs, i);
    && at <= |out| && AllStores(out[..at]) == KeptStores(segs, blobs, i)
    && (i < n && Of(blobs, i) == [] && segs[i].bytes != [] ==> at < |out| && out[at] == segs[i])
  }

  lemma KeptNext(segs: seq<Segment>, blobs: seq<Blob>, n: nat)
    requires n < |segs|
    ensures KeptStores(segs, blobs, n + 1) == KeptStores(segs, blobs, n) + Stores(segs[n], Of(blobs, n))
  {
  }

  lemma NothingIndexed(segs: seq<Segment>, blobs: seq<Blob>)
    ensures AllStores([]) == KeptStores(segs, blobs, 0) && Indexed(segs, blobs, NonEmpty([]), 0)
  {
    assert NonEmpty([]) == [] && NonEmpty([])[..0] == [];
  }

  lemma IndexedStep(segs: seq<Segment>, blobs: seq<Blob>, out: seq<Segment>, more: seq<Segment>, n: nat)
    requires n < |segs| && Indexed(segs, blobs, out, n) && AllStores(out + more) == KeptStores(segs, blobs, n + 1)
    requires |more| == Pieces(|segs[n].bytes|, ByOffset(Of(blobs, n)), 0)
    requires Of(blobs, n) == [] && segs[n].bytes != [] ==> more == [segs[n]]
    ensures Indexed(segs, blobs, out + more, n + 1)
  {
    hide AllStores, KeptStores, Of, ByOffset, Pieces, IndexedAt;
    var grown, m := out + more, n + 1;
    forall i: nat | i <= m
      ensures IndexedAt(segs, blobs, grown, m, i)
    {
      if i <= n {
        StillIndexed(segs, blobs, out, more, n, i);
      } else {
        LastIndexed(segs, blobs, out + more, n + 1);
      }
    }
  }

  lemma StillIndexed(segs: seq<Segment>, blobs: seq<Blob>, out: seq<Segment>, more: seq<Segment>, n: nat, i: nat)
    requires i <= n < |segs| && |out| == Place(segs, blobs, n) && IndexedAt(segs, blobs, out, n, i)
    requires Of(blobs, n) == [] && segs[n].bytes != [] ==> more == [segs[n]]
    ensures IndexedAt(segs, blobs, out + more, n + 1, i)
  {
    hide AllStores, KeptStores, Of, Place;
    var at := Place(segs, blobs, i);
    assert (out + more)[..at] == out[..at];
  }

  lemma LastIndexed(segs: seq<Segment>, blobs: seq<Blob>, out: seq<Segment>, n: nat)
    requires n <= |segs| && |out| == Place(segs, blobs, n) && AllStores(out) == KeptStores(segs, blobs, n)
    ensures IndexedAt(segs, blobs, out, n, n)
  {
    hide AllStores, KeptStores, Of, Place;
    assert out[..|out|] == out;
  }

  lemma NonEmptyLast(init: seq<Segment>, last: Segment)
    ensures NonEmpty(init + [last]) == NonEmpty(init) + if last.bytes == [] then [] else [last]
  {
    assert (init + [last])[..|init|] == init;
  }

  lemma NonEmptyNone()
    ensures NonEmpty([]) == []
  {
  }

  lemma {:induction false} NonEmptySum(a: seq<Segment>, b: seq<Segment>)
    ensures NonEmpty(a + b) == NonEmpty(a) + NonEmpty(b)
    decreases |b|
  {
    hide NonEmpty;
    if b == [] {
      NonEmptyNone();
      assert a + b == a && NonEmpty(a) + [] == NonEmpty(a);
    } else {
      var init, last := b[..|b| - 1], b[|b| - 1];
      var kept := if last.bytes == [] then [] else [last];
      NonEmptySum(a, init);
      NonEmptyLast(a + init, last);
      NonEmptyLast(init, last);
      assert a + b == a + init + [last] && b == init + [last];
      assert (NonEmpty(a) + NonEmpty(init)) + kept == NonEmpty(a) + (NonEmpty(init) + kept);
    }
  }

  lemma {:induction false} NonEmptyAll(segs: seq<Segment>)
    requires forall i :: 0 <= i < |segs| ==> segs[i].bytes != []
    ensures NonEmpty(segs) == segs
  {
    if segs != [] {
      var init, last := segs[..|segs| - 1], segs[|segs| - 1];
      NonEmptyAll(init);
      assert last.bytes != [] && segs == init + [last];
    }
  }

  lemma {:induction false} NonEmptyStores(segs: seq<Segment>)
    ensures AllStores(NonEmpty(segs)) == AllStores(segs)
  {
    if segs != [] {
      var init, last := segs[..|segs| - 1], segs[|segs| - 1];
      NonEmptyStores(init);
      assert segs == init + [last];
      AllStoresPush(init, last);
      if last.bytes != [] {
        AllStoresPush(NonEmpty(init), last);
      } else {
        NothingLeft(last, []);
        assert AllStores(init) + [] == AllStores(init) && NonEmpty(init) + [] == NonEmpty(init);
      }
    }
  }

  /** A segment without blobs goes over whole, or goes if it is empty. */
  lemma WholeIndexed(segs: seq<Segment>, blobs: seq<Blob>, before: seq<Segment>, n: nat)
    requires n < |segs| && Of(blobs, n) == [] && AllStores(before) == KeptStores(segs, blobs, n)
    requires Indexed(segs, blobs, NonEmpty(before), n)
    ensures AllStores(before + [segs[n]]) == KeptStores(segs, blobs, n + 1)
    ensures Indexed(segs, blobs, NonEmpty(before + [segs[n]]), n + 1)
  {
    hide AllStores, Stores, KeptStores, Of, ByOffset, Indexed, Place, NonEmpty, Pieces;
    var seg := segs[n];
    AllStoresPush(before, seg);
    KeptNext(segs, blobs, n);
    NonEmptySum(before, [seg]);
    NonEmptyStores(before + [seg]);
    NonEmptyOne(seg);
    ByOffsetNone();
    PiecesEnd(|seg.bytes|, 0);
    IndexedStep(segs, blobs, NonEmpty(before), NonEmpty([seg]), n);
  }

  lemma NonEmptyOne(seg: Segment)
    ensures NonEmpty([seg]) == if seg.bytes != [] then [seg] else []
  {
    assert [seg][..0] == [] && NonEmpty([]) == [];
  }

  lemma ByOffsetNone()
    ensures ByOffset([]) == []
  {
  }

  /** A segment with blobs goes over in its pieces, none of them empty. */
  lemma CutIndexed(segs: seq<Segment>, blobs: seq<Blob>, before: seq<Segment>, after: seq<Segment>, n: nat)
    requires n < |segs| && Of(blobs, n) != [] && before <= after && AllStores(after) == KeptStores(segs, blobs, n + 1)
    requires Indexed(segs, blobs, NonEmpty(before), n)
    requires |after| == |before| + Pieces(|segs[n].bytes|, ByOffset(Of(blobs, n)), 0)
    requires forall i :: |before| <= i < |after| ==> |after[i].bytes| > 0
    ensures Indexed(segs, blobs, NonEmpty(after), n + 1)
  {
    hide AllStores, KeptStores, Of, ByOffset, Indexed, Place, Pieces, NonEmpty;
    var more := after[|before|..];
    assert after == before + more;
    NonEmptySum(before, more);
    assert forall i :: 0 <= i < |more| ==> more[i] == after[|before| + i];
    NonEmptyAll(more);
    NonEmptyStores(after);
    IndexedStep(segs, blobs, NonEmpty(before), more, n);
  }

  /** Segments lost to emptiness, and pieces gained by cutting, among the first n. */
  function Gone(segs: seq<Segment>, blobs: seq<Blob>, n: nat): nat
    requires n <= |segs|
  {
    if n == 0 then 0
    else Gone(segs, blobs, n - 1) + if Pieces(|segs[n - 1].bytes|, ByOffset(Of(blobs, n - 1)), 0) == 0 then 1 else 0
  }

  function Extra(segs: seq<Segment>, blobs: seq<Blob>, n: nat): nat
    requires n <= |segs|
  {
    if n == 0 then 0
    else
      var pieces := Pieces(|segs[n - 1].bytes|, ByOffset(Of(blobs, n - 1)), 0);
      Extra(segs, blobs, n - 1) + if pieces == 0 then 0 else pieces - 1
  }

  /**
   The segment after the first n keeps its index exactly when as many of those are
   lost, being empty or all blob, as are gained by cutting; and the indices of all
   segments are kept exactly when each of those before becomes one.
   */
  lemma {:induction false} IndexKept(segs: seq<Segment>, blobs: seq<Blob>, n: nat)
    requires n <= |segs|
    ensures Place(segs, blobs, n) == n <==> Extra(segs, blobs, n) == Gone(segs, blobs, n)
    ensures (forall i: nat :: i <= n ==> Place(segs, blobs, i) == i) <==>
            forall j: nat :: j < n ==> Pieces(|segs[j].bytes|, ByOffset(Of(blobs, j)), 0) == 1
  {
    hide Pieces, ByOffset, Of;
    PlaceSum(segs, blobs, n);
    if n > 0 {
      IndexKept(segs, blobs, n - 1);
      if forall i: nat :: i <= n ==> Place(segs, blobs, i) == i {
        assert Place(segs, blobs, n) == n && Place(segs, blobs, n - 1) == n - 1;
      }
    }
  }

  lemma {:induction false} PlaceSum(segs: seq<Segment>, blobs: seq<Blob>, n: nat)
    requires n <= |segs|
    ensures Place(segs, blobs, n) + Gone(segs, blobs, n) == n + Extra(segs, blobs, n)
  {
    hide Pieces, ByOffset, Of;
    if n > 0 {
      PlaceSum(segs, blobs, n - 1);
    }
  }

  lemma NoStores()
    ensures AllStores([]) == []
  {
  }

  method RemoveEmpty(segs: seq<Segment>) returns (out: seq<Segment>)
    ensures AllStores(out) == AllStores(segs)
    ensures forall i :: 0 <= i < |out| ==> |out[i].bytes| > 0 && out[i] in segs
    ensures out == NonEmpty(segs)
  {
    hide AllStores;
    out := [];
    NoStores();
    for i := 0 to |segs|
      invariant out == NonEmpty(segs[..i])
      invariant AllStores(out) == AllStores(segs[..i])
      invariant forall k :: 0 <= k < |out| ==> |out[k].bytes| > 0 && out[k] in segs
    {
      AllStoresPush(segs[..i], segs[i]);
      assert segs[..i + 1] == segs[..i] + [segs[i]];
      assert segs[..i + 1][..i] == segs[..i];
      if |segs[i].bytes| > 0 {
        AllStoresPush(out, segs[i]);
        out := out + [segs[i]];
      } else {
        NothingLeft(segs[i], []);
      }
    }
    assert segs[..|segs|] == segs;
  }

  // ------------------------------------------------------ the effect of a section

  /** The store of one octet, at a known address or at one computed when the module is instantiated. */
  datatype Effect = At(store: Store) | Computed(offset: seq<Instr>, index: nat, octet: byte)

  ghost function Fixed(stores: seq<Store>): seq<Effect> {
    seq(|stores|, i requires 0 <= i < |stores| => At(stores[i]))
  }

  ghost function ComputedFrom(d: Declared, blobs: seq<Blob>, j: nat := 0): seq<Effect>
    decreases |d.bytes| - j
  {
    if j >= |d.bytes| then []
    else (if Covered(blobs, j) then [] else [Computed(d.offset, j, d.bytes[j])]) + ComputedFrom(d, blobs, j + 1)
  }

  ghost function EffectOf(d: Declared, blobs: seq<Blob>): seq<Effect> {
    if Simple(d) then Fixed(Stores(Plain(d), blobs)) else ComputedFrom(d, blobs)
  }

  /** The effect of the first n segments in order, the octets of the blobs left out. */
  ghost function Effects(ds: seq<Declared>, blobs: seq<Blob>, n: nat): seq<Effect>
    requires n <= |ds|
  {
    if n == 0 then [] else Effects(ds, blobs, n - 1) + EffectOf(ds[n - 1], Of(blobs, n - 1))
  }

  lemma FixedSum(a: seq<Store>, b: seq<Store>)
    ensures Fixed(a + b) == Fixed(a) + Fixed(b)
  {
  }

  /** Up to the first segment with another offset the effect is that of the segments read. */
  lemma {:induction false} LeadEffects(ds: seq<Declared>, blobs: seq<Blob>, n: nat)
    requires n <= Lead(ds)
    ensures Effects(ds, blobs, n) == Fixed(KeptStores(Plains(ds), blobs, n))
  {
    hide Stores, Of, Fixed, Lead, Plains;
    if n == 0 {
      assert Fixed([]) == [] by { FixedNone(); }
    } else {
      LeadEffects(ds, blobs, n - 1);
      FixedSum(KeptStores(Plains(ds), blobs, n - 1), Stores(Plains(ds)[n - 1], Of(blobs, n - 1)));
    }
  }

  lemma FixedNone()
    ensures Fixed([]) == []
  {
  }

  /** A segment that holds no blob has an effect for each of its octets. */
  lemma EffectSize(d: Declared)
    ensures |EffectOf(d, [])| == |d.bytes|
  {
    hide Stores, ComputedFrom;
    if Simple(d) {
      StoresBound(Plain(d), [], 0);
    } else {
      ComputedSize(d, 0);
    }
  }

  lemma {:induction false} ComputedSize(d: Declared, j: nat)
    requires j <= |d.bytes|
    ensures |ComputedFrom(d, [], j)| == |d.bytes| - j
    decreases |d.bytes| - j
  {
    if j < |d.bytes| {
      NoneCovered(j);
      ComputedSize(d, j + 1);
    }
  }

  lemma {:induction false} OfNone(blobs: seq<Blob>, si: nat)
    requires forall n :: 0 <= n < |blobs| ==> blobs[n].seg != si
    ensures Of(blobs, si) == []
  {
    if blobs != [] {
      OfNone(blobs[..|blobs| - 1], si);
    }
  }

  /** Segments that hold no blob add nothing exactly when they are empty. */
  lemma {:induction false} TailEffects(ds: seq<Declared>, blobs: seq<Blob>, lead: nat, n: nat)
    requires lead <= n <= |ds| && forall m :: 0 <= m < |blobs| ==> blobs[m].seg < lead
    ensures |Effects(ds, blobs, n)| >= |Effects(ds, blobs, lead)|
    ensures Effects(ds, blobs, n) == Effects(ds, blobs, lead) <==> forall i :: lead <= i < n ==> ds[i].bytes == []
    decreases n
  {
    hide EffectOf, Of;
    if n > lead {
      TailEffects(ds, blobs, lead, n - 1);
      OfNone(blobs, n - 1);
      EffectSize(ds[n - 1]);
      var added := EffectOf(ds[n - 1], []);
      assert Effects(ds, blobs, n) == Effects(ds, blobs, n - 1) + added;
      if added == [] {
        assert Effects(ds, blobs, n - 1) + added == Effects(ds, blobs, n - 1);
      }
    }
  }

  lemma {:induction false} PlainEffects(segs: seq<Segment>, n: nat)
    requires n <= |segs| && forall i :: 0 <= i < |segs| ==> segs[i].flags == 0
    ensures Effects(Declareds(segs), [], n) == Fixed(AllStores(segs[..n]))
  {
    hide Stores, Fixed;
    if n == 0 {
      FixedNone();
    } else {
      PlainEffects(segs, n - 1);
      assert Plain(Declareds(segs)[n - 1]) == segs[n - 1];
      assert segs[..n] == segs[..n - 1] + [segs[n - 1]];
      AllStoresPush(segs[..n - 1], segs[n - 1]);
      FixedSum(AllStores(segs[..n - 1]), Stores(segs[n - 1], []));
    }
  }

  lemma WrittenEffect(ds: seq<Declared>, blobs: seq<Blob>, out: seq<Segment>)
    requires AllStores(out) == KeptStores(Plains(ds), blobs, Lead(ds)) && forall i :: 0 <= i < |out| ==> out[i].flags == 0
    ensures |Declareds(out)| == |out| && Effects(Declareds(out), [], |out|) == Effects(ds, blobs, Lead(ds))
  {
    hide Effects, Fixed, AllStores, KeptStores, Plains, Lead;
    PlainEffects(out, |out|);
    assert out[..|out|] == out;
    LeadEffects(ds, blobs, Lead(ds));
  }

  /** Rewriting what the code read loses only the blobs exactly when what it did not read is empty. */
  lemma RewriteEffect(ds: seq<Declared>, blobs: seq<Blob>, out: seq<Segment>)
    requires forall m :: 0 <= m < |blobs| ==> blobs[m].seg < Lead(ds)
    requires AllStores(out) == KeptStores(Plains(ds), blobs, Lead(ds)) && forall i :: 0 <= i < |out| ==> out[i].flags == 0
    ensures |Declareds(out)| == |out|
    ensures Effects(Declareds(out), [], |out|) == Effects(ds, blobs, |ds|) <==>
      forall i :: Lead(ds) <= i < |ds| ==> ds[i].bytes == []
  {
    hide Effects, Fixed, AllStores, KeptStores, Plains, Lead, Declareds;
    WrittenEffect(ds, blobs, out);
    TailEffects(ds, blobs, Lead(ds), |ds|);
  }

  // ----------------------------------------------------------- the whole rewrite

  ghost function TotalBytes(segs: seq<Segment>): nat {
    if segs == [] then 0 else TotalBytes(segs[..|segs| - 1]) + |segs[|segs| - 1].bytes|
  }

  lemma {:induction false} StoresBound(seg: Segment, blobs: seq<Blob>, j: nat)
    requires j <= |seg.bytes|
    ensures |Stores(seg, blobs, j)| <= |seg.bytes| - j
    ensures blobs == [] ==> |Stores(seg, blobs, j)| == |seg.bytes| - j
    decreases |seg.bytes| - j
  {
    if j < |seg.bytes| {
      StoresBound(seg, blobs, j + 1);
    }
  }

  lemma {:induction false} AllStoresBound(segs: seq<Segment>)
    requires forall i :: 0 <= i < |segs| ==> |segs[i].bytes| > 0
    ensures |segs| <= |AllStores(segs)|
  {
    if segs != [] {
      AllStoresBound(segs[..|segs| - 1]);
      StoresBound(segs[|segs| - 1], [], 0);
    }
  }

  lemma {:induction false} KeptStoresBound(segs: seq<Segment>, blobs: seq<Blob>, n: nat)
    requires n <= |segs|
    ensures |KeptStores(segs, blobs, n)| <= TotalBytes(segs[..n])
  {
    hide Stores, Of;
    if n > 0 {
      KeptStoresBound(segs, blobs, n - 1);
      StoresBound(segs[n - 1], Of(blobs, n - 1), 0);
      assert segs[..n][..n - 1] == segs[..n - 1];
    }
  }

  lemma {:induction false} TotalBytesFirst(segs: seq<Segment>)
    requires segs != []
    ensures TotalBytes(segs) == |segs[0].bytes| + TotalBytes(segs[1..])
  {
    if |segs| > 1 {
      var init := segs[..|segs| - 1];
      TotalBytesFirst(init);
      assert segs[1..][..|segs| - 2] == init[1..];
    }
  }

  lemma {:induction false} ReadShrinks(s: seq<byte>, room: nat)
    ensures ReadU(s, room).Some? ==> |ReadU(s, room).value.1| < |s|
    ensures ReadS(s, room).Some? ==> |ReadS(s, room).value.1| < |s|
  {
    if room > 0 && s != [] {
      ReadShrinks(s[1..], room - 1);
    }
  }

  lemma ParseShrinks(s: seq<byte>)
    ensures ParseSegment(s).Some? && ParseSegment(s).value.Got? ==>
      |ParseSegment(s).value.rest| + |ParseSegment(s).value.seg.bytes| <= |s|
  {
    hide ReadU, ReadS, Wrap32;
    ReadShrinks(s, 5);
    if ReadU(s, 5).Some? {
      var t := ReadU(s, 5).value.1;
      ReadShrinks(t, 5);
      if t != [] {
        ReadShrinks(t[1..], 5);
        var off := ParseOffset(t);
        if off.Some? && off.value.Some? {
          ReadShrinks(off.value.value.1, 5);
        }
      }
    }
  }

  /** The octets of the segments are octets of the section. */
  lemma {:induction false} ParsedBytes(s: seq<byte>, count: nat)
    ensures ParseSegments(s, count).Some? ==> TotalBytes(ParseSegments(s, count).value) <= |s|
    decreases count
  {
    hide ParseSegment;
    if count > 0 {
      ParseShrinks(s);
      if ParseSegment(s).Some? && ParseSegment(s).value.Got? {
        var rest := ParseSegment(s).value.rest;
        ParsedBytes(rest, count - 1);
        if ParseSegments(rest, count - 1).Some? {
          var segs := ParseSegments(s, count).value;
          TotalBytesFirst(segs);
          assert segs[1..] == ParseSegments(rest, count - 1).value;
        }
      }
    }
  }

  lemma {:induction false} EachWithin(segs: seq<Segment>, i: nat)
    requires i < |segs|
    ensures |segs[i].bytes| <= TotalBytes(segs)
  {
    if i < |segs| - 1 {
      EachWithin(segs[..|segs| - 1], i);
    }
  }

  /**
   The data section without its blobs. For a section of active segments of
   memory 0 it has the effect of the old one less exactly the octets of the
   blobs if, and only if, no blob was found or there is nothing in the segments
   from the first on whose offset is not one i32.const: those are dropped.
   */
  method PromoteBlobs(payload: seq<byte>) returns (after: Option<seq<byte>>, blobs: seq<Blob>)
    requires |payload| < TWO32
    ensures after.None? <==> ParseSection(payload).None?
    ensures after.Some? ==>
      var segs := ParseSection(payload).value;
      && Ordered(blobs) && (forall n :: 0 <= n < |blobs| ==> IsBlob(segs, blobs[n]))
      && AllFound(segs, blobs)
      && (blobs == [] ==> after.value == payload)
      && ((forall i :: 0 <= i < |segs| ==> segs[i].flags == 0) ==>
            && ParseSection(after.value).Some?
            && AllStores(ParseSection(after.value).value) == KeptStores(segs, blobs, |segs|))
    ensures SectionOf(payload).Some? ==>
      var ds := SectionOf(payload).value;
      && after.Some? && SectionOf(after.value).Some?
      && var left := SectionOf(after.value).value;
      Effects(left, [], |left|) == Effects(ds, blobs, |ds|) <==>
        blobs == [] || forall i :: Lead(ds) <= i < |ds| ==> ds[i].bytes == []
  {
    hide ParseSegments, BlobAt, EncodeSegments, AllStores, Stores, Of, ReadU, Ordered, Disjoint, SectionOf, Effects, Inside,
         KeptStores, Indexed, EncodeSection, Declareds;
    var parsed := ParseDataSegments(payload);
    blobs := [];
    if SectionOf(payload).Some? {
      ParseStopsAt(payload);
    }
    if parsed.None? {
      return None, blobs;
    }
    var segs := parsed.value;
    SectionBytes(payload);
    blobs := FindBlobs(segs);
    if |blobs| == 0 {
      AllKept(segs, |segs|);
      assert segs[..|segs|] == segs;
      return Some(payload), blobs;
    }
    OrderedDisjoint(blobs);
    var out := Excise(segs, blobs);
    KeptStoresBound(segs, blobs, |segs|);
    assert segs[..|segs|] == segs;
    AllStoresBound(out);
    PiecesWithin(out, segs);
    var section := EncodeDataSection(out);
    if forall i :: 0 <= i < |segs| ==> segs[i].flags == 0 {
      PiecesEncodable(out, segs);
      SectionRoundTrip(out, []);
      assert section + [] == section;
      EncodedDeclares(out);
    }
    if SectionOf(payload).Some? {
      RewriteEffect(SectionOf(payload).value, blobs, out);
    }
    return Some(section), blobs;
  }

  /** A blob in the first segment, and a second segment whose offset is a global. */
  const TWO_SEGMENTS: seq<byte> :=
    [2, 0, 0x41, 0, 0x0b, 26] + BLOB + [0, 0x23, 0, 0x0b, 1, 9]

  const BLOB: seq<byte> := MAGIC + [12, 0, 0, 0] + INTERFACE + [97, 123]

  lemma BlobFound()
    ensures Spelled(BLOB, 0, [97], INTERFACE + [97, 123])
  {
    var text := INTERFACE + [97, 123];
    FourOctets(12);
    assert BLOB[0..26] == MAGIC + LowFirst(12, 4) + text;
    assert text == [] + INTERFACE + [97] + [123];
    assert NamesAfter(text, [], [97], [123]);
  }

  lemma ReadSmall(n: byte, x: seq<byte>)
    requires n < 64
    ensures ReadU([n] + x, 5) == Some((n, x)) && ReadS([n] + x, 5) == Some((n, x))
  {
    assert ([n] + x)[1..] == x;
  }

  /** The additions, subtractions and multiplications of constant expressions. */
  lemma Operators(code: byte, x: seq<byte>)
    requires code in {0x6a, 0x6b, 0x6c}
    ensures ReadExpr([0x41, 7, 0x23, 1, code, 0x0b] + x) == Some(([Const(7), Global(1), Operator(code)], x))
  {
    var e := [0x0b] + x;
    var d := [code] + e;
    var c := [1] + d;
    var b := [0x23] + c;
    var a := [7] + b;
    assert e[1..] == x && d[1..] == e && b[1..] == c;
    ReadSmall(1, d);
    ReadSmall(7, b);
    hide ReadU, ReadS;
    assert [Operator(code)] + [] == [Operator(code)];
    assert [Global(1)] + [Operator(code)] == [Global(1), Operator(code)];
    assert [Const(7)] + [Global(1), Operator(code)] == [Const(7), Global(1), Operator(code)];
    assert ReadExpr(e) == Some(([], x));
    assert ReadExpr(d) == Some(([Operator(code)], x));
    assert ReadExpr(b) == Some(([Global(1), Operator(code)], x));
    assert [0x41, 7, 0x23, 1, code, 0x0b] + x == [0x41] + a && ([0x41] + a)[1..] == a;
    assert ReadExpr([0x41] + a) == Some(([Const(7), Global(1), Operator(code)], x)) by { WrapIs(7, 0); }
  }

  lemma ReadOne(offset: seq<byte>, first: Instr, bytes: seq<byte>, x: seq<byte>)
    requires |bytes| < 64
    requires forall y: seq<byte> :: ReadExpr(offset + y) == Some(([first], y))
    ensures ReadDeclared([0] + offset + [|bytes|] + bytes + x) == Some((Declared([first], bytes), x))
  {
    hide ReadU, ReadExpr;
    var w := bytes + x;
    var u := [|bytes|] + w;
    var s := [0] + offset + [|bytes|] + bytes + x;
    assert s == [0] + (offset + u);
    ReadSmall(0, offset + u);
    ReadSmall(|bytes|, w);
    assert w[..|bytes|] == bytes && w[|bytes|..] == x;
  }

  lemma ReadOffsets(y: seq<byte>)
    ensures ReadExpr([0x41, 0, 0x0b] + y) == Some(([Const(0)], y))
    ensures ReadExpr([0x23, 0, 0x0b] + y) == Some(([Global(0)], y))
  {
    hide ReadU, ReadS;
    var t := [0x0b] + y;
    assert t[1..] == y && ReadExpr(t) == Some(([], y));
    var a, b := [0x41, 0, 0x0b] + y, [0x23, 0, 0x0b] + y;
    assert a[1..] == [0] + t && b[1..] == [0] + t;
    ReadSmall(0, t);
    assert Wrap32(0) == 0;
    assert [Const(0)] + [] == [Const(0)] && [Global(0)] + [] == [Global(0)];
  }

  lemma TwoSegments()
    ensures SectionOf(TWO_SEGMENTS) == Some([Declared([Const(0)], BLOB), Declared([Global(0)], [9])])
  {
    hide ReadU, ReadDeclared, ReadExpr;
    forall y: seq<byte>
      ensures ReadExpr([0x41, 0, 0x0b] + y) == Some(([Const(0)], y)) && ReadExpr([0x23, 0, 0x0b] + y) == Some(([Global(0)], y))
    {
      ReadOffsets(y);
    }
    var second := [0] + [0x23, 0, 0x0b] + [1] + [9] + [];
    ReadOne([0x23, 0, 0x0b], Global(0), [9], []);
    var first := [0] + [0x41, 0, 0x0b] + [26] + BLOB + second;
    ReadOne([0x41, 0, 0x0b], Const(0), BLOB, second);
    assert TWO_SEGMENTS == [2] + first;
    ReadSmall(2, first);
    var d, e := Declared([Const(0)], BLOB), Declared([Global(0)], [9]);
    assert ReadDeclareds([], 0) == Some([]) && [e] + [] == [e] && [d] + [e] == [d, e];
    assert ReadDeclareds(second, 1) == Some([e]);
    assert ReadDeclareds(first, 2) == Some([d, e]);
    assert 2 % TWO32 == 2;
  }

  /** Promoting the blob drops the second segment. */
  method SecondSegmentDropped() returns (after: Option<seq<byte>>, blobs: seq<Blob>)
    ensures SectionOf(TWO_SEGMENTS).Some? && after.Some? && SectionOf(after.value).Some?
    ensures var ds, left := SectionOf(TWO_SEGMENTS).value, SectionOf(after.value).value;
      Effects(left, [], |left|) != Effects(ds, blobs, |ds|)
  {
    hide Effects, BlobAt, Spelled, SectionOf;
    TwoSegments();
    BlobFound();
    ParseStopsAt(TWO_SEGMENTS);
    after, blobs := PromoteBlobs(TWO_SEGMENTS);
    assert Inside(blobs, 0, 0);
  }

  lemma OrderedDisjoint(blobs: seq<Blob>)
    requires Ordered(blobs)
    ensures Disjoint(blobs)
  {
  }

  lemma SectionBytes(s: seq<byte>)
    requires ParseSection(s).Some?
    ensures TotalBytes(ParseSection(s).value) <= |s|
    ensures forall i :: 0 <= i < |ParseSection(s).value| ==> ParseSection(s).value[i].flags < TWO32
  {
    hide ParseSegments, ReadU;
    ReadShrinks(s, 5);
    var t := ReadU(s, 5).value;
    ParsedBytes(t.1, t.0 % TWO32);
    ParsedFlags(t.1, t.0 % TWO32);
  }

  lemma {:induction false} ParsedFlags(s: seq<byte>, count: nat)
    ensures ParseSegments(s, count).Some? ==>
      forall i :: 0 <= i < |ParseSegments(s, count).value| ==> ParseSegments(s, count).value[i].flags < TWO32
    decreases count
  {
    hide ReadU, ReadS, Wrap32;
    if count > 0 && ParseSegment(s).Some? && ParseSegment(s).value.Got? {
      ParsedFlags(ParseSegment(s).value.rest, count - 1);
    }
  }

  lemma PiecesWithin(out: seq<Segment>, segs: seq<Segment>)
    requires forall i :: 0 <= i < |out| ==> PieceOf(out[i], segs)
    requires TotalBytes(segs) < TWO32 && forall i :: 0 <= i < |segs| ==> segs[i].flags < TWO32
    ensures forall i :: 0 <= i < |out| ==> out[i].flags < TWO32 && |out[i].bytes| < TWO32
  {
    forall i | 0 <= i < |out|
      ensures out[i].flags < TWO32 && |out[i].bytes| < TWO32
    {
      var j :| 0 <= j < |segs| && segs[j].flags == out[i].flags && |out[i].bytes| <= |segs[j].bytes|;
      EachWithin(segs, j);
    }
  }

  lemma PiecesEncodable(out: seq<Segment>, segs: seq<Segment>)
    requires forall i :: 0 <= i < |out| ==> PieceOf(out[i], segs) && out[i].flags < TWO32 && |out[i].bytes| < TWO32
    requires forall i :: 0 <= i < |segs| ==> segs[i].flags == 0
    ensures forall i :: 0 <= i < |out| ==> Encodable(out[i])
  {
  }

  /** Without blobs everything is kept. */
  lemma {:induction false} AllKept(segs: seq<Segment>, n: nat)
    requires n <= |segs|
    ensures KeptStores(segs, [], n) == AllStores(segs[..n])
  {
    if n > 0 {
      AllKept(segs, n - 1);
      assert segs[..n][..n - 1] == segs[..n - 1];
      assert Of([], n - 1) == [];
    }
  }
}
