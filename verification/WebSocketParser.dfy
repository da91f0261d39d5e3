/**
 The WebSocket parser, decoder and frame builder as they run: a resumable parser
 whose inner loops take several bytes at a time, and a builder that fills a
 buffer in place.
 */
module WebSocketParser {
  import opened Common
  import opened WebSocket

  /** The callbacks as made: the body in slices of the input. */
  datatype Callback = OnHeader(header: Event) | OnBody(slice: seq<byte>) | OnEnd

  function Events(c: Callback): seq<Event> {
    match c
    case OnHeader(h) => [h]
    case OnBody(slice) => BodyBytes(slice)
    case OnEnd => [FrameEnd]
  }

  /** The callbacks one byte at a time. */
  function Spread(calls: seq<Callback>): seq<Event> {
    if calls == [] then [] else Events(calls[0]) + Spread(calls[1..])
  }

  lemma SpreadNone()
    ensures Spread([]) == []
  {
  }

  lemma SpreadOne(c: Callback)
    ensures Spread([c]) == Events(c)
  {
    assert [c][1..] == [];
  }

  lemma SpreadTwo(c: Callback, d: Callback)
    ensures Spread([c, d]) == Events(c) + Events(d)
  {
    assert [c, d][1..] == [d];
    SpreadOne(d);
  }

  lemma {:induction false} SpreadAppend(a: seq<Callback>, b: seq<Callback>)
    ensures Spread(a + b) == Spread(a) + Spread(b)
  {
    if a == [] {
      assert a + b == b;
    } else {
      assert (a + b)[1..] == a[1..] + b;
      SpreadAppend(a[1..], b);
    }
  }

  lemma HeaderStep(q: Parser, b: byte)
    requires q.Ok()
    ensures q.phase.Length? ==> Step(q, b) == AfterLength(LengthByte(q, b))
    ensures q.phase.Length? && q.require > 1 ==> Step(q, b) == (LengthByte(q, b), [])
    ensures q.phase.Mask? ==> Step(q, b) == AfterMask(MaskByte(q, b))
    ensures q.phase.Mask? && q.require > 1 ==> Step(q, b) == (MaskByte(q, b), [])
  {
  }

  /** One more octet of the length. */
  lemma LengthFed(q: Parser, fed: seq<byte>, w: Parser, b: byte)
    requires q.Ok() && w.Ok() && Feed(q, fed) == (w, []) && w.phase.Length? && w.require > 0
    ensures Feed(q, fed + [b]) == AfterLength(LengthByte(w, b))
    ensures w.require > 1 ==> Feed(q, fed + [b]) == (LengthByte(w, b), [])
  {
    hide Feed, Step, AfterLength, AfterMask;
    FeedQuiet(q, fed, [b]);
    FeedOne(w, b);
    HeaderStep(w, b);
  }

  /** One more octet of the mask. */
  lemma MaskFed(q: Parser, fed: seq<byte>, w: Parser, b: byte)
    requires q.Ok() && w.Ok() && Feed(q, fed) == (w, []) && w.phase.Mask? && 0 < w.require <= 4
    ensures Feed(q, fed + [b]) == AfterMask(MaskByte(w, b))
    ensures w.require > 1 ==> Feed(q, fed + [b]) == (MaskByte(w, b), [])
  {
    hide Feed, Step, AfterLength, AfterMask;
    FeedQuiet(q, fed, [b]);
    FeedOne(w, b);
    HeaderStep(w, b);
  }

  class WsParser {
    var phase: Phase
    var op: nat
    var fin: bool
    var masked: bool
    var mask: seq<byte>
    var length: nat
    var require: nat
    /** Body bytes handed over so far, kept up to date while a body is incomplete. */
    var offset: int
    /** Where in the mask the next call of Decode starts. */
    var maskOffset: nat
    // The application data of the callbacks: the payload of the frame being read, and those of the frames before it.
    var message: seq<byte>
    var messages: seq<seq<byte>>
    /** The mask the last header was reported with. */
    ghost var current: Option<seq<byte>>

    ghost function View(): Parser
      reads this
    {
      Parser(phase, op, fin, masked, mask, length, require)
    }

    /** The consumer's state. */
    ghost function Box(): Inbox
      reads this
    {
      Inbox(current, message, messages)
    }

    /**
     In mid-body the offset is what has been handed over and decoded, and the mask
     is used from there on; while a header is incomplete both start at 0.
     */
    ghost predicate Valid()
      reads this
    {
      && View().Ok() && Box().Ok() && maskOffset < 4
      && (phase.Body? ==> offset == length - require == |message| && current == HeaderOf(View()).mask)
      && (phase.Body? && masked ==> maskOffset == |message| % 4)
      && (phase.Head? || phase.Length? || phase.Mask? ==> offset == 0 && maskOffset == 0)
    }

    constructor ()
      ensures Valid() && View() == Fresh && Box() == Empty
    {
      phase, op, fin, masked, mask, length, require := Start, 0, false, false, [0, 0, 0, 0], 0, 0;
      offset, maskOffset := 0, 0;
      message, messages, current := [], [], None;
    }

    // ------------------------------------------------------------- the callbacks

    /** frame_header: a payload begins. */
    method BeginMessage()
      modifies this`message, this`current
      ensures message == [] && current == HeaderOf(View()).mask
    {
      message := [];
      current := if masked then Some(mask) else None;
    }

    /** frame_body: a slice is decoded as it comes if the frame is masked. */
    method ExtendMessage(slice: seq<byte>)
      requires |mask| == 4 && maskOffset < 4
      requires current == HeaderOf(View()).mask && (masked ==> maskOffset == |message| % 4)
      modifies this`message, this`maskOffset
      ensures Box() == Receive(old(Box()), BodyBytes(slice)) && |message| == |old(message)| + |slice|
      ensures maskOffset < 4 && (masked ==> maskOffset == |message| % 4)
    {
      hide Receive, BodyBytes, Unmask, Sound;
      ReceiveBody(Box(), slice);
      var bytes := slice;
      if masked {
        bytes := Decode(slice);
        SameResidue(|message|, |slice|);
      }
      message := message + bytes;
    }

    /** frame_end: the payload is complete. */
    method EndMessage()
      modifies this`messages
      ensures messages == old(messages) + [message]
    {
      messages := messages + [message];
    }

    // --------------------------------------------------------------- the phases

    /** The end of the header: the callbacks, and on to the body or the next frame. */
    method AnnounceFrame() returns (calls: seq<Callback>)
      requires require == 0 && |mask| == 4 && Box().Ok()
      modifies this`phase, this`require, this`message, this`messages, this`current
      ensures (View(), Spread(calls)) == Announce(old(View()))
      ensures Sound(Spread(calls)) && Box() == Receive(old(Box()), Spread(calls))
      ensures phase.Body? ==> message == [] && current == HeaderOf(View()).mask
    {
      hide Receive, Sound;
      var header := OnHeader(FrameHeader(op, fin, if masked then Some(mask) else None, length));
      calls := [header];
      SpreadOne(header);
      SpreadTwo(header, OnEnd);
      ReceiveOne(Box(), header.header);
      ghost var start := Box();
      if length > 0 {
        phase := Body;
        require := length;
        BeginMessage();
      } else {
        phase := Start;
        BeginMessage();
        ReceiveOne(Box(), FrameEnd);
        EndMessage();
        ReceiveSplit(start, [header.header], [FrameEnd]);
        calls := [header, OnEnd];
        assert [HeaderOf(old(View()))] + [FrameEnd] == [HeaderOf(old(View())), FrameEnd];
      }
    }

    method TakeStart(b: byte)
      requires Valid() && phase.Start?
      modifies this
      ensures Valid() && (View(), []) == Step(old(View()), b) && Box() == old(Box())
    {
      offset, length, maskOffset := 0, 0, 0;
      op, fin, masked := b % 16, b >= 128, false;
      phase := Head;
    }

    method TakeHead(b: byte) returns (calls: seq<Callback>)
      requires Valid() && phase.Head?
      modifies this`masked, this`length, this`require, this`phase, this`message, this`messages, this`current
      ensures Valid() && (View(), Spread(calls)) == Step(old(View()), b)
      ensures Sound(Spread(calls)) && Box() == Receive(old(Box()), Spread(calls))
    {
      hide Receive;
      calls := [];
      SpreadNone();
      ReceiveNothing(Box());
      length, masked := b % 128, b >= 128;
      if length >= 126 {
        require := if length == 127 then 8 else 2;
        length := 0;
        phase := Length;
      } else if masked {
        phase := Mask;
        require := 4;
      } else {
        calls := AnnounceFrame();
      }
    }

    /** The loop over extended length bytes. */
    method TakeLength(data: seq<byte>, start: nat) returns (calls: seq<Callback>, p: nat)
      requires Valid() && phase.Length? && start < |data|
      modifies this`length, this`require, this`phase, this`message, this`messages, this`current
      ensures Valid() && start < p <= |data|
      ensures (View(), Spread(calls)) == Feed(old(View()), data[start..p])
      ensures Sound(Spread(calls)) && Box() == Receive(old(Box()), Spread(calls))
    {
      hide Feed, Step, Receive, Sound;
      calls := [];
      SpreadNone();
      ReceiveNothing(Box());
      p := TakeLengthOctets(data, start);
      if require == 0 {
        if masked {
          phase := Mask;
          require := 4;
        } else {
          calls := AnnounceFrame();
        }
      }
    }

    method TakeLengthOctets(data: seq<byte>, start: nat) returns (p: nat)
      requires Valid() && phase.Length? && start < |data|
      modifies this`length, this`require
      ensures start < p <= |data| && 0 <= length < TWO32
      ensures View() == old(View()).(length := length, require := require)
      ensures Feed(old(View()), data[start..p]) == if require > 0 then (View(), []) else AfterLength(View())
    {
      hide Feed, Step, Shifted;
      p := start;
      ghost var q := View();
      assert data[start..start] == [];
      FeedNone(q);
      while p < |data| && require > 0
        modifies this`length, this`require
        invariant start <= p <= |data| && phase.Length? && require == q.require - (p - start)
        invariant View() == q.(length := length, require := require) && 0 <= length < TWO32
        invariant require > 0 ==> Feed(q, data[start..p]) == (View(), [])
        invariant require == 0 ==> Feed(q, data[start..p]) == AfterLength(View())
      {
        hide AfterLength, AfterMask;
        assert data[start..p + 1] == data[start..p] + [data[p]];
        LengthFed(q, data[start..p], View(), data[p]);
        length := Shifted(length, data[p]);
        require := require - 1;
        p := p + 1;
      }
    }

    /** The loop over mask bytes. */
    method TakeMask(data: seq<byte>, start: nat) returns (calls: seq<Callback>, p: nat)
      requires Valid() && phase.Mask? && start < |data|
      modifies this`mask, this`require, this`phase, this`message, this`messages, this`current
      ensures Valid() && start < p <= |data|
      ensures (View(), Spread(calls)) == Feed(old(View()), data[start..p])
      ensures Sound(Spread(calls)) && Box() == Receive(old(Box()), Spread(calls))
    {
      hide Feed, Step, Receive, Sound;
      calls, p := [], start;
      SpreadNone();
      ReceiveNothing(Box());
      ghost var q := View();
      assert data[start..start] == [];
      FeedNone(q);
      while p < |data| && require > 0
        modifies this`mask, this`require
        invariant start <= p <= |data| && phase.Mask? && require == q.require - (p - start)
        invariant View() == q.(mask := mask, require := require) && |mask| == 4
        invariant require > 0 ==> Feed(q, data[start..p]) == (View(), [])
        invariant require == 0 ==> Feed(q, data[start..p]) == AfterMask(View())
      {
        hide AfterLength, AfterMask;
        assert data[start..p + 1] == data[start..p] + [data[p]];
        MaskFed(q, data[start..p], View(), data[p]);
        mask := mask[4 - require := data[p]];
        require := require - 1;
        p := p + 1;
      }
      if require == 0 {
        calls := AnnounceFrame();
      }
    }

    /** A slice of the body: the rest of it, or all the input there is. */
    method TakeBody(data: seq<byte>, start: nat, frameOffset: nat) returns (calls: seq<Callback>, p: nat)
      requires Valid() && phase.Body? && start < |data| && frameOffset == start
      modifies this`require, this`phase, this`offset, this`maskOffset, this`message, this`messages
      ensures Valid() && start < p <= |data|
      ensures (View(), Spread(calls)) == Feed(old(View()), data[start..p])
      ensures Sound(Spread(calls)) && Box() == Receive(old(Box()), Spread(calls))
    {
      hide Feed, Receive, BodyBytes, Sound;
      if start + require <= |data| {
        p := start + require;
        calls := EndBody(data[start..p]);
      } else {
        p := |data|;
        var slice := data[start..p];
        FeedBody(View(), slice);
        ReceiveBody(Box(), slice);
        calls := [OnBody(slice)];
        SpreadOne(calls[0]);
        ExtendMessage(slice);
        require := require - (|data| - start);
        offset := offset + p - frameOffset;
      }
    }

    /** The slice that completes a body. */
    method EndBody(slice: seq<byte>) returns (calls: seq<Callback>)
      requires Valid() && phase.Body? && require == |slice|
      modifies this`require, this`phase, this`maskOffset, this`message, this`messages
      ensures Valid()
      ensures (View(), Spread(calls)) == Feed(old(View()), slice)
      ensures Sound(Spread(calls)) && Box() == Receive(old(Box()), Spread(calls))
    {
      hide Feed, Receive, BodyBytes, Sound;
      ghost var box := Box();
      FeedBody(View(), slice);
      ReceiveBody(box, slice);
      calls := [OnBody(slice), OnEnd];
      SpreadTwo(calls[0], calls[1]);
      ExtendMessage(slice);
      require := 0;
      ReceiveOne(Box(), FrameEnd);
      ReceiveSplit(box, BodyBytes(slice), [FrameEnd]);
      EndMessage();
      phase := Start;
    }

    /** What the state makes of the input at start: one octet, or all it can take. */
    method TakeSome(data: seq<byte>, start: nat, frameOffset: nat) returns (calls: seq<Callback>, p: nat)
      requires Valid() && start < |data| && frameOffset == start
      modifies this
      ensures Valid() && start < p <= |data|
      ensures (View(), Spread(calls)) == Feed(old(View()), data[start..p])
      ensures Sound(Spread(calls)) && Box() == Receive(old(Box()), Spread(calls))
    {
      hide Feed, Spread, Step, Receive;
      calls, p := [], start + 1;
      SpreadNone();
      ReceiveNothing(Box());
      assert data[start..p] == [data[start]];
      FeedOne(View(), data[start]);
      match phase {
        case Start => TakeStart(data[start]);
        case Head => calls := TakeHead(data[start]);
        case Length => calls, p := TakeLength(data, start);
        case Mask => calls, p := TakeMask(data, start);
        case Body => calls, p := TakeBody(data, start, frameOffset);
      }
    }

    /**
     websocket_parser_execute, for callbacks that return 0: consumes all of data,
     and the callbacks and the state left behind are those of feeding the bytes
     one by one.
     */
    method Execute(data: seq<byte>) returns (calls: seq<Callback>, parsed: nat)
      requires Valid()
      modifies this
      ensures Valid() && parsed == |data|
      ensures (View(), Spread(calls)) == Feed(old(View()), data)
      ensures Sound(Spread(calls)) && Box() == Receive(old(Box()), Spread(calls))
    {
      hide Receive, Sound;
      calls := [];
      SpreadNone();
      ReceiveNothing(Box());
      var p := 0;
      var frameOffset := 0;
      ghost var q, box := View(), Box();
      assert data[..0] == [];
      while p < |data|
        invariant Valid() && 0 <= p <= |data|
        invariant p < |data| ==> frameOffset == p
        invariant (View(), Spread(calls)) == Feed(q, data[..p])
        invariant Sound(Spread(calls)) && Box() == Receive(box, Spread(calls))
      {
        ghost var before := p;
        hide Feed, Spread;
        var made;
        made, p := TakeSome(data, p, frameOffset);
        frameOffset := if p == |data| then 0 else p;
        assert data[..p] == data[..before] + data[before..p];
        FeedSplit(q, data[..before], data[before..p]);
        SpreadAppend(calls, made);
        ReceiveSplit(box, Spread(calls), Spread(made));
        calls := calls + made;
      }
      assert data[..p] == data;
      parsed := p;
    }

    /**
     Any number of calls, one per packet: the state, the callbacks and what the
     consumer has decoded are those of one call on the whole stream; and of a stream
     of frames the consumer holds the payloads, whatever the packets were.
     */
    method ReceiveStream(pieces: seq<seq<byte>>, ghost frames: seq<Frame>) returns (calls: seq<Callback>)
      requires Valid() && View() == Fresh && Box() == Empty
      requires forall f :: f in frames ==> f.Ok()
      modifies this
      ensures Valid() && (View(), Spread(calls)) == Feed(Fresh, Concat(pieces))
      ensures Sound(Spread(calls)) && Box() == Receive(Empty, Spread(calls))
      ensures Concat(pieces) == AllBytes(frames) && (forall f :: f in frames ==> |f.payload| < TWO32) ==>
        phase.Start? && messages == Payloads(frames)
    {
      hide Feed, Receive, Sound, Spread, Concat, AllBytes, AllSeen;
      calls := [];
      SpreadNone();
      ReceiveNothing(Empty);
      FeedNone(Fresh);
      ConcatNone();
      assert pieces[..0] == [];
      for i := 0 to |pieces|
        invariant Valid() && (View(), Spread(calls)) == Feed(Fresh, Concat(pieces[..i]))
        invariant Sound(Spread(calls)) && Box() == Receive(Empty, Spread(calls))
      {
        assert pieces[..i + 1] == pieces[..i] + [pieces[i]];
        ConcatPush(pieces[..i], pieces[i]);
        FeedSplit(Fresh, Concat(pieces[..i]), pieces[i]);
        var made, parsed := Execute(pieces[i]);
        SpreadAppend(calls, made);
        ReceiveSplit(Empty, Spread(calls), Spread(made));
        calls := calls + made;
      }
      assert pieces[..|pieces|] == pieces;
      if Concat(pieces) == AllBytes(frames) && forall f :: f in frames ==> |f.payload| < TWO32 {
        FeedFrames(Fresh, frames);
        ReceiveFrames(Empty, frames);
        assert [] + Payloads(frames) == Payloads(frames);
      }
    }

    /** websocket_parser_decode: unmasks the next piece of the body. */
    method Decode(src: seq<byte>) returns (dst: seq<byte>)
      requires |mask| == 4 && maskOffset < 4
      modifies this`maskOffset
      ensures dst == Unmask(src, mask, old(maskOffset))
      ensures maskOffset == (|src| + old(maskOffset)) % 4
    {
      dst := [];
      var i := 0;
      while i < |src|
        invariant 0 <= i <= |src| && |dst| == i
        invariant forall k :: 0 <= k < i ==> dst[k] == Xor(src[k], mask[(k + maskOffset) % 4])
      {
        dst := dst + [Xor(src[i], mask[(i + maskOffset) % 4])];
        i := i + 1;
      }
      maskOffset := (i + maskOffset) % 4;
    }
  }

  /** websocket_decode, into the buffer after the header. */
  method DecodeInto(frame: array<byte>, at: nat, src: seq<byte>, mask: seq<byte>, maskOffset: nat) returns (next: nat)
    requires |mask| == 4 && maskOffset < 256 && at + |src| <= frame.Length
    modifies frame
    ensures frame[..] == Splice(old(frame[..]), at, Unmask(src, mask, maskOffset))
    ensures next == (|src| + maskOffset) % 4
  {
    hide Xor;
    var i := 0;
    while i < |src|
      invariant 0 <= i <= |src|
      invariant forall k :: 0 <= k < i ==> frame[at + k] == Xor(src[k], mask[(k + maskOffset) % 4])
      invariant frame[..at] == old(frame[..at]) && frame[at + |src|..] == old(frame[at + |src|..])
    {
      frame[at + i] := Xor(src[i], mask[(i + maskOffset) % 4]);
      i := i + 1;
    }
    assert frame[at..at + |src|] == Unmask(src, mask, maskOffset);
    next := (i + maskOffset) % 4;
    assert frame[..] == frame[..at] + frame[at..at + |src|] + frame[at + |src|..];
  }

  /** s with src written over it at a position. */
  function Splice(s: seq<byte>, at: nat, src: seq<byte>): (r: seq<byte>)
    requires at + |src| <= |s|
    ensures |r| == |s|
  {
    s[..at] + src + s[at + |src|..]
  }

  /**
   The fixed and length fields of websocket_build_frame. Beyond 0xFFFF octets the
   length is shifted by more than the width of a size_t, and nothing is defined.
   */
  method BuildHeader(frame: array<byte>, op: nat, fin: bool, masked: bool, n: nat) returns (bodyOffset: Option<nat>)
    requires op < 16 && n < TWO32 && FrameSize(masked, n) <= frame.Length
    modifies frame
    ensures bodyOffset.None? <==> n > 0xFFFF
    ensures bodyOffset.Some? ==>
      && bodyOffset.value == FrameSize(false, n) - n
      && frame[..bodyOffset.value] == [(if fin then 128 else 0) + op] + LengthField(masked, n)
      && frame[bodyOffset.value..] == old(frame[bodyOffset.value..])
  {
    frame[0] := (if fin then 128 else 0) + op;
    var m := if masked then 128 else 0;
    if n < 126 {
      frame[1] := m + n;
      bodyOffset := Some(2);
    } else if n <= 0xFFFF {
      frame[1] := m + 126;
      frame[2], frame[3] := n / 0x100, n % 0x100;
      bodyOffset := Some(4);
      BigEndian2(n);
    } else {
      frame[1] := m + 127;
      bodyOffset := None;
    }
  }

  /**
   websocket_build_frame: fills the buffer with the frame and returns its size,
   where it is defined.  A masked frame without a mask argument takes whatever
   octets the buffer holds where the mask goes.
   */
  method BuildFrame(frame: array<byte>, op: nat, fin: bool, masked: bool, mask: Option<seq<byte>>, data: seq<byte>)
    returns (size: Option<nat>)
    requires op < 16 && |data| < TWO32 && (mask.Some? ==> |mask.value| == 4)
    requires FrameSize(masked, |data|) <= frame.Length
    modifies frame
    ensures size.None? <==> |data| > 0xFFFF
    ensures size.Some? ==>
      && size.value == CalcFrameSize(masked, |data|) <= frame.Length
      && frame[..size.value] == Bytes(Frame(op, fin, if masked then Some(MaskUsed(old(frame[..]), mask, |data|)) else None, data))
      && frame[size.value..] == old(frame[size.value..])
  {
    hide LengthField, Unmask, Splice;
    ghost var start := frame[..];
    var offset := BuildHeader(frame, op, fin, masked, |data|);
    if offset.None? {
      return None;
    }
    var at := offset.value;
    ghost var header := [(if fin then 128 else 0) + op] + LengthField(masked, |data|);
    HeaderSpliced(frame[..], start, header);
    if masked {
      if mask.Some? { CopyInto(frame, at, mask.value); }
      ghost var used := MaskUsed(start, mask, |data|);
      MaskInPlace(frame[..], start, header, used, mask.Some?);
      var given := frame[at..at + 4];
      size := Some(at + 4 + |data|);
      var next := DecodeInto(frame, at + 4, data, given, 0);
      MaskedFrame(start, header, used, Unmask(data, used, 0));
    } else {
      size := Some(at + |data|);
      CopyInto(frame, at, data);
      PlainFrame(start, header, data);
    }
  }

  lemma HeaderSpliced(now: seq<byte>, start: seq<byte>, header: seq<byte>)
    requires |header| <= |now| == |start| && now[..|header|] == header && now[|header|..] == start[|header|..]
    ensures now == Splice(start, 0, header)
  {
  }

  /** The mask is where it belongs, copied there or found there. */
  lemma MaskInPlace(now: seq<byte>, start: seq<byte>, header: seq<byte>, used: seq<byte>, copied: bool)
    requires |used| == 4 && |header| + 4 <= |start|
    requires now == if copied then Splice(Splice(start, 0, header), |header|, used) else Splice(start, 0, header)
    requires !copied ==> used == start[|header|..|header| + 4]
    ensures now == Splice(Splice(start, 0, header), |header|, used) && now[|header|..|header| + 4] == used
  {
  }

  lemma MaskedFrame(start: seq<byte>, header: seq<byte>, used: seq<byte>, body: seq<byte>)
    requires |header| + |used| + |body| <= |start|
    ensures var at, n := |header| + |used|, |header| + |used| + |body|;
      var s := Splice(Splice(Splice(start, 0, header), |header|, used), at, body);
      s[..n] == header + (used + body) && s[n..] == start[n..]
  {
  }

  lemma PlainFrame(start: seq<byte>, header: seq<byte>, body: seq<byte>)
    requires |header| + |body| <= |start|
    ensures var n, s := |header| + |body|, Splice(Splice(start, 0, header), |header|, body);
      s[..n] == header + body && s[n..] == start[n..]
  {
  }

  /** The mask given, or the octets found in the buffer in its place. */
  function MaskUsed(buffer: seq<byte>, mask: Option<seq<byte>>, n: nat): (r: seq<byte>)
    requires FrameSize(true, n) <= |buffer| && (mask.Some? ==> |mask.value| == 4)
    ensures |r| == 4
  {
    var at := FrameSize(false, n) - n;
    if mask.Some? then mask.value else buffer[at..at + 4]
  }

  /** memcpy. */
  method CopyInto(frame: array<byte>, at: nat, src: seq<byte>)
    requires at + |src| <= frame.Length
    modifies frame
    ensures frame[..] == Splice(old(frame[..]), at, src)
  {
    forall i | 0 <= i < |src| { frame[at + i] := src[i]; }
  }

  /**
   ws_send_frame: one buffer for short messages, header and payload separately for
   long ones; either way the octets written are those of the built frame.
   */
  method SendFrame(op: nat, data: seq<byte>) returns (written: seq<byte>)
    requires op < 16 && |data| < 0x8000_0000
    ensures written == Bytes(Frame(op, true, None, data))
  {
    hide Bytes, FrameSize, BigEndian;
    var len := |data|;
    SplitHeader(op, data);
    if len <= 4096 {
      var buf := new byte[4096 + 14];
      var total := BuildFrame(buf, op, true, false, None, data);
      written := buf[..total.value];
    } else {
      var hdr: seq<byte>;
      if len <= 0xFFFF {
        hdr := [0x80 + op, 126, len / 0x100, len % 0x100];
      } else {
        hdr := [0x80 + op, 127, 0, 0, 0, 0,
                len / 0x100_0000 % 0x100, len / 0x1_0000 % 0x100, len / 0x100 % 0x100, len % 0x100];
      }
      written := hdr + data;
    }
  }

  /** The octets of an unmasked final frame: in a 4110-octet buffer if short, after a four- or ten-octet header if long. */
  lemma SplitHeader(op: nat, data: seq<byte>)
    requires op < 16 && |data| < 0x8000_0000
    ensures |data| <= 4096 ==> FrameSize(false, |data|) <= 4110
    ensures 126 <= |data| <= 0xFFFF ==>
      Bytes(Frame(op, true, None, data)) == [0x80 + op, 126, |data| / 0x100, |data| % 0x100] + data
    ensures |data| > 0xFFFF ==>
      Bytes(Frame(op, true, None, data)) == [0x80 + op, 127, 0, 0, 0, 0, |data| / 0x100_0000 % 0x100,
        |data| / 0x1_0000 % 0x100, |data| / 0x100 % 0x100, |data| % 0x100] + data
  {
    hide BigEndian;
    if 126 <= |data| <= 0xFFFF {
      BigEndian2(|data|);
    } else if |data| > 0xFFFF {
      BigEndian8(|data|);
    }
  }
}
