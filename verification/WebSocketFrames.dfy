/** RFC 6455 frames as byte strings, and what a byte stream of them means to the receiving loop. */
module WebSocketFrames {
  import opened Bytes
  import opened Results

  const CONTINUATION: nat := 0
  const TEXT: nat := 1
  const BINARY: nat := 2
  const CLOSE: nat := 8
  const PING: nat := 9
  const PONG: nat := 10

  datatype Frame = Frame(fin: bool, opcode: nat, mask: Option<Bytes>, payload: Bytes)

  predicate ValidFrame(f: Frame) {
    f.opcode < 16 && |f.payload| < Power256(8) && (f.mask.Some? ==> |f.mask.value| == 4)
  }

  // ---- Sections 5.2 and 5.3: one frame -----------------------------------------------

  /** Applying the mask; doing it twice gives the payload back. */
  function Masked(payload: Bytes, mask: Bytes): (r: Bytes)
    ensures |r| == |payload|
  {
    if |mask| == 4 then seq(|payload|, i requires 0 <= i < |payload| => Xor(payload[i], mask[i % 4])) else payload
  }

  lemma MaskedTwice(payload: Bytes, mask: Bytes)
    ensures Masked(Masked(payload, mask), mask) == payload
  {
    hide Xor;
    if |mask| == 4 {
      forall i | 0 <= i < |payload| ensures Xor(Xor(payload[i], mask[i % 4]), mask[i % 4]) == payload[i] {
        XorUndoes(payload[i], mask[i % 4]);
      }
    }
  }

  function LengthCode(n: nat): nat { if n < 126 then n else if n < 65536 then 126 else 127 }

  function LengthExtension(n: nat): Bytes {
    if n < 126 then [] else if n < 65536 then BigEndian(n, 2) else BigEndian(n, 8)
  }

  function MaskBytes(f: Frame): Bytes { if f.mask.Some? then f.mask.value else [] }

  function Encode(f: Frame): (r: Bytes)
    requires ValidFrame(f)
    ensures |r| >= 2
  {
    var n := |f.payload|;
    [(if f.fin then 128 else 0) + f.opcode, (if f.mask.Some? then 128 else 0) + LengthCode(n)]
      + LengthExtension(n) + MaskBytes(f) + Masked(f.payload, MaskBytes(f))
  }

  function ExtensionBytes(n: nat): nat { if n < 126 then 0 else if n < 65536 then 2 else 8 }

  /** The payload byte under a mask byte: every bit is flipped exactly where the mask's bit is set. */
  ghost predicate Flipped(wire: byte, plain: byte, mask: byte) {
    forall k: nat :: k < 8 ==> (Bit(wire, k) != Bit(plain, k) <==> Bit(mask, k))
  }

  /** What the standard puts on the wire for a frame: the final bit and the opcode, the mask bit and the length, the
      shortest extended length with its most significant byte first, the masking key, and the payload, of which byte
      `i` is masked with byte `i % 4` of the key. */
  ghost predicate OnWire(wire: Bytes, f: Frame)
    requires ValidFrame(f)
  {
    var n := |f.payload|;
    var size := ExtensionBytes(n);
    var start := 2 + size + if f.mask.Some? then 4 else 0;
    && |wire| == start + n
    && (wire[0] >= 128 <==> f.fin) && wire[0] % 128 == f.opcode
    && (wire[1] >= 128 <==> f.mask.Some?) && wire[1] % 128 == (if n < 126 then n else if n < 65536 then 126 else 127)
    && (forall i: nat :: 2 <= i < 2 + size ==> wire[i] == n / Power256(size + 1 - i) % 256)
    && (f.mask.Some? ==> wire[start - 4..start] == f.mask.value)
    && forall i: nat :: i < n ==>
         if f.mask.Some? then Flipped(wire[start + i], f.payload[i], f.mask.value[i % 4])
         else wire[start + i] == f.payload[i]
  }

  lemma XorFlips(plain: byte, mask: byte)
    ensures Flipped(Xor(plain, mask), plain, mask)
  {
    assert Twos(4) == 16 && Twos(8) == 256;
    hide XorBits, Bit;
    forall k: nat | k < 8 ensures Bit(Xor(plain, mask), k) != Bit(plain, k) <==> Bit(mask, k) {
      XorBitsDiffer(plain, mask, 8, k);
    }
  }

  lemma MaskedFlips(payload: Bytes, mask: Bytes)
    requires |mask| == 4
    ensures forall i: nat :: i < |payload| ==> Flipped(Masked(payload, mask)[i], payload[i], mask[i % 4])
  {
    hide Flipped, Xor;
    forall i: nat | i < |payload| ensures Flipped(Masked(payload, mask)[i], payload[i], mask[i % 4]) {
      XorFlips(payload[i], mask[i % 4]);
    }
  }

  lemma ExtensionDigits(n: nat)
    ensures |LengthExtension(n)| == ExtensionBytes(n)
    ensures forall i: nat :: i < ExtensionBytes(n) ==>
      LengthExtension(n)[i] == n / Power256(ExtensionBytes(n) - 1 - i) % 256
  {
    hide BigEndian, Power256;
    forall i: nat | i < ExtensionBytes(n)
      ensures LengthExtension(n)[i] == n / Power256(ExtensionBytes(n) - 1 - i) % 256
    {
      BigEndianDigit(n, ExtensionBytes(n), i);
    }
  }

  lemma HeadOnWire(f: Frame, b0: byte, b1: byte)
    requires ValidFrame(f) && b0 == (if f.fin then 128 else 0) + f.opcode
    requires LengthCode(|f.payload|) < 128 && b1 == (if f.mask.Some? then 128 else 0) + LengthCode(|f.payload|)
    ensures (b0 >= 128 <==> f.fin) && b0 % 128 == f.opcode
    ensures (b1 >= 128 <==> f.mask.Some?) && b1 % 128 == LengthCode(|f.payload|)
  {
  }

  /** Every frame is encoded as the standard lays it out. */
  lemma EncodeIsOnWire(f: Frame)
    requires ValidFrame(f)
    ensures OnWire(Encode(f), f)
  {
    hide Masked, LengthExtension, BigEndian, Power256, Flipped;
    var n, mask := |f.payload|, MaskBytes(f);
    CodeSmall(n);
    ExtensionDigits(n);
    if f.mask.Some? {
      MaskedFlips(f.payload, mask);
    } else {
      UnmaskedIsPlain(f.payload);
    }
    var head: Bytes := [(if f.fin then 128 else 0) + f.opcode, (if f.mask.Some? then 128 else 0) + LengthCode(n)];
    HeadOnWire(f, head[0], head[1]);
    WirePieces(head, LengthExtension(n), mask, Masked(f.payload, mask), Encode(f));
  }

  lemma UnmaskedIsPlain(payload: Bytes)
    ensures Masked(payload, []) == payload
  {
  }

  lemma WirePieces(h: Bytes, x: Bytes, m: Bytes, b: Bytes, s: Bytes)
    requires |h| == 2 && s == h + x + m + b
    ensures var e := 2 + |x|; var p := e + |m|;
      && |s| == p + |b| && s[0] == h[0] && s[1] == h[1] && s[e..p] == m
      && (forall i: nat :: 2 <= i < e ==> s[i] == x[i - 2]) && forall i: nat :: i < |b| ==> s[p + i] == b[i]
  {
  }

  /** A frame as the receiver sees it. */
  datatype Parsed = Parsed(fin: bool, opcode: nat, payload: Bytes, rest: Bytes)

  function ExtensionSize(b1: byte): nat { if b1 % 128 == 126 then 2 else if b1 % 128 == 127 then 8 else 0 }

  function PayloadLength(b1: byte, extension: Bytes): nat {
    if extension == [] then b1 % 128 else FromBigEndian(extension)
  }

  function MaskSize(b1: byte): nat { if b1 >= 128 then 4 else 0 }

  /** The first frame of a stream, or None while it is incomplete. */
  function Parse(s: Bytes): (r: Option<Parsed>)
    ensures r.Some? ==> |r.value.rest| + 2 <= |s| && r.value.opcode < 16
  {
    if |s| < 2 || |s| < 2 + ExtensionSize(s[1]) then None
    else
      var e := 2 + ExtensionSize(s[1]);
      var n := PayloadLength(s[1], s[2..e]);
      var p := e + MaskSize(s[1]);
      if |s| < p + n then None
      else Some(Parsed(s[0] >= 128, s[0] % 16, Masked(s[p..p + n], s[e..p]), s[p + n..]))
  }

  lemma LengthRoundTrip(n: nat, b1: byte)
    requires n < Power256(8) && b1 % 128 == LengthCode(n)
    ensures |LengthExtension(n)| == ExtensionSize(b1) && PayloadLength(b1, LengthExtension(n)) == n
  {
    Power256Known();
    if 126 <= n < 65536 {
      BigEndianRoundTrip(n, 2);
    } else if n >= 65536 {
      BigEndianRoundTrip(n, 8);
    }
  }

  lemma Slices(h: Bytes, x: Bytes, m: Bytes, b: Bytes, rest: Bytes)
    ensures var s := h + x + m + b + rest; var e := |h| + |x|; var p := e + |m|;
      s[|h|..e] == x && s[e..p] == m && s[p..p + |b|] == b && s[p + |b|..] == rest
  {
  }

  lemma ParsePieces(h: Bytes, x: Bytes, m: Bytes, b: Bytes, rest: Bytes)
    requires |h| == 2 && |x| == ExtensionSize(h[1]) && PayloadLength(h[1], x) == |b| && |m| == MaskSize(h[1])
    ensures Parse(h + x + m + b + rest) == Some(Parsed(h[0] >= 128, h[0] % 16, Masked(b, m), rest))
  {
    hide Masked, PayloadLength, ExtensionSize, MaskSize;
    Slices(h, x, m, b, rest);
    var s := h + x + m + b + rest;
    assert s[0] == h[0] && s[1] == h[1];
  }

  /** Every frame parses back to itself, whatever follows it. */
  lemma ParseEncode(f: Frame, rest: Bytes)
    requires ValidFrame(f)
    ensures Parse(Encode(f) + rest) == Some(Parsed(f.fin, f.opcode, f.payload, rest))
  {
    hide Masked, LengthExtension, PayloadLength, LengthCode, Power256, Parse, ExtensionSize;
    var n := |f.payload|;
    CodeSmall(n);
    var head: Bytes := [(if f.fin then 128 else 0) + f.opcode, (if f.mask.Some? then 128 else 0) + LengthCode(n)];
    var mask := MaskBytes(f);
    LengthRoundTrip(n, head[1]);
    MaskedTwice(f.payload, mask);
    ParsePieces(head, LengthExtension(n), mask, Masked(f.payload, mask), rest);
  }

  lemma CodeSmall(n: nat)
    ensures LengthCode(n) < 128
  {
  }

  // ---- Sections 5.4 and 5.5: fragments and control frames ----------------------------

  datatype Fragment = NoFragment | Fragment(opcode: nat, data: Bytes)

  /** How one call to the receiving loop ends, and the payloads it answered with pongs. */
  datatype Received =
    | Message(opcode: nat, data: Bytes, rest: Bytes, pongs: seq<Bytes>)
    | Closed(rest: Bytes, pongs: seq<Bytes>)
    | EndOfStream(pongs: seq<Bytes>)

  function Before(pongs: seq<Bytes>, r: Received): Received { r.(pongs := pongs + r.pongs) }

  function Receive(s: Bytes, fragment: Fragment): (r: Received)
    ensures !r.EndOfStream? ==> |r.rest| < |s|
    decreases |s|
  {
    match Parse(s)
    case None => EndOfStream([])
    case Some(Parsed(fin, opcode, payload, rest)) =>
      if opcode == CLOSE then Closed(rest, [])
      else if opcode == PING then Before([payload], Receive(rest, fragment))
      else if opcode == TEXT || opcode == BINARY then
        if fin then Message(opcode, payload, rest, []) else Receive(rest, Fragment(opcode, payload))
      else if opcode == CONTINUATION && fragment.Fragment? then
        if fin then Message(fragment.opcode, fragment.data + payload, rest, [])
        else Receive(rest, Fragment(fragment.opcode, fragment.data + payload))
      else Receive(rest, fragment)
  }

  /** What a frame out of turn does: a pong, an unknown opcode and a continuation of nothing are skipped, a new
      message drops an unfinished one, and a close frame ends the exchange whatever is unfinished. */
  lemma OutOfTurn(f: Frame, rest: Bytes, fragment: Fragment)
    requires ValidFrame(f)
    ensures f.opcode !in {CONTINUATION, TEXT, BINARY, CLOSE, PING}
            || (f.opcode == CONTINUATION && fragment.NoFragment?) ==>
      Receive(Encode(f) + rest, fragment) == Receive(rest, fragment)
    ensures f.opcode == TEXT || f.opcode == BINARY ==>
      Receive(Encode(f) + rest, fragment) == Receive(Encode(f) + rest, NoFragment)
    ensures f.opcode == CLOSE ==> Receive(Encode(f) + rest, fragment) == Closed(rest, [])
  {
    hide Parse, Encode, ValidFrame;
    ParseEncode(f, rest);
  }

  /** All messages up to the close frame or the end of the stream, and all pongs. */
  datatype Session = Session(messages: seq<(nat, Bytes)>, pongs: seq<Bytes>)

  function Conversation(s: Bytes): Session
    decreases |s|
  {
    var r := Receive(s, NoFragment);
    if r.Message? then
      var after := Conversation(r.rest);
      Session([(r.opcode, r.data)] + after.messages, r.pongs + after.pongs)
    else Session([], r.pongs)
  }

  // ---- What a peer may send ----------------------------------------------------------

  function EncodeAll(frames: seq<Frame>): Bytes
    requires forall i :: 0 <= i < |frames| ==> ValidFrame(frames[i])
  {
    if frames == [] then [] else Encode(frames[0]) + EncodeAll(frames[1..])
  }

  predicate ValidFrames(frames: seq<Frame>) { forall i :: 0 <= i < |frames| ==> ValidFrame(frames[i]) }

  predicate Controls(frames: seq<Frame>) {
    ValidFrames(frames)
      && forall i :: 0 <= i < |frames| ==> frames[i].fin && (frames[i].opcode == PING || frames[i].opcode == PONG)
  }

  /** One piece of a message, after any pings and pongs that come in between. */
  datatype Part = Part(before: seq<Frame>, payload: Bytes, mask: Option<Bytes>)

  /** A text or binary message in one or more fragments. */
  datatype Script = Script(opcode: nat, parts: seq<Part>)

  predicate ValidPart(p: Part) { Controls(p.before) && ValidFrame(Frame(true, 0, p.mask, p.payload)) }

  predicate ValidScript(m: Script) {
    (m.opcode == TEXT || m.opcode == BINARY) && m.parts != []
      && forall i :: 0 <= i < |m.parts| ==> ValidPart(m.parts[i])
  }

  function DataFrame(m: Script, i: nat): (f: Frame)
    requires ValidScript(m) && i < |m.parts|
    ensures ValidFrame(f)
  {
    assert ValidPart(m.parts[i]);
    Frame(i == |m.parts| - 1, if i == 0 then m.opcode else CONTINUATION, m.parts[i].mask, m.parts[i].payload)
  }

  /** The frames of a message from its part `i` on. */
  function FramesFrom(m: Script, i: nat): (r: seq<Frame>)
    requires ValidScript(m) && i <= |m.parts|
    ensures ValidFrames(r)
    decreases |m.parts| - i
  {
    if i == |m.parts| then []
    else
      assert ValidPart(m.parts[i]);
      m.parts[i].before + [DataFrame(m, i)] + FramesFrom(m, i + 1)
  }

  function DataUpTo(m: Script, i: nat): Bytes
    requires i <= |m.parts|
  {
    if i == 0 then [] else DataUpTo(m, i - 1) + m.parts[i - 1].payload
  }

  function PingOf(f: Frame): seq<Bytes> { if f.opcode == PING then [f.payload] else [] }

  function Pings(frames: seq<Frame>): seq<Bytes> {
    if frames == [] then [] else PingOf(frames[0]) + Pings(frames[1..])
  }

  predicate ValidScripts(script: seq<Script>) { forall i :: 0 <= i < |script| ==> ValidScript(script[i]) }

  function AllFrames(script: seq<Script>): (r: seq<Frame>)
    requires ValidScripts(script)
    ensures ValidFrames(r)
  {
    if script == [] then []
    else
      assert ValidScript(script[0]);
      FramesFrom(script[0], 0) + AllFrames(script[1..])
  }

  function Messages(script: seq<Script>): seq<(nat, Bytes)> {
    if script == [] then [] else [(script[0].opcode, DataUpTo(script[0], |script[0].parts|))] + Messages(script[1..])
  }

  // ---- The round trip ----------------------------------------------------------------

  lemma {:induction false} EncodeAllJoins(a: seq<Frame>, b: seq<Frame>)
    requires ValidFrames(a) && ValidFrames(b)
    ensures ValidFrames(a + b) && EncodeAll(a + b) == EncodeAll(a) + EncodeAll(b)
  {
    hide Encode, ValidFrame;
    if a == [] {
      assert a + b == b;
    } else {
      EncodeAllJoins(a[1..], b);
      assert (a + b)[1..] == a[1..] + b;
    }
  }

  lemma {:induction false} PingsJoin(a: seq<Frame>, b: seq<Frame>)
    ensures Pings(a + b) == Pings(a) + Pings(b)
  {
    hide Pings, PingOf;
    if a == [] {
      assert a + b == b;
      NoPings();
      NothingBefore(Pings(b));
    } else {
      PingsJoin(a[1..], b);
      PingsStep(a);
      PingsStep(a + b);
      assert (a + b)[1..] == a[1..] + b;
      Associative(PingOf(a[0]), Pings(a[1..]), Pings(b));
    }
  }

  lemma NoPings()
    ensures Pings([]) == []
  {
  }

  lemma NothingBefore<T>(x: seq<T>)
    ensures [] + x == x == x + []
  {
  }

  lemma Associative<T>(x: seq<T>, y: seq<T>, z: seq<T>)
    ensures x + y + z == x + (y + z)
  {
  }

  lemma PingsStep(frames: seq<Frame>)
    requires frames != []
    ensures Pings(frames) == PingOf(frames[0]) + Pings(frames[1..])
  {
  }

  lemma ControlSkipped(f: Frame, after: Bytes, fragment: Fragment)
    requires ValidFrame(f) && (f.opcode == PING || f.opcode == PONG)
    ensures Receive(Encode(f) + after, fragment) == Before(PingOf(f), Receive(after, fragment))
  {
    hide Encode, ValidFrame, Parse;
    ParseEncode(f, after);
    NothingBefore(Receive(after, fragment).pongs);
  }

  /** Control frames leave the fragment alone; each ping is answered. */
  lemma {:induction false} ControlsSkipped(controls: seq<Frame>, tail: Bytes, fragment: Fragment)
    requires Controls(controls)
    ensures Receive(EncodeAll(controls) + tail, fragment) == Before(Pings(controls), Receive(tail, fragment))
  {
    hide Encode, ValidFrame, Receive, Pings, PingOf;
    var received := Receive(tail, fragment);
    if controls == [] {
      NoPings();
      NothingBefore(received.pongs);
      assert EncodeAll(controls) + tail == tail;
    } else {
      var f, after := controls[0], EncodeAll(controls[1..]) + tail;
      assert EncodeAll(controls) + tail == Encode(f) + after;
      ControlSkipped(f, after, fragment);
      ControlsSkipped(controls[1..], tail, fragment);
      PingsStep(controls);
      Associative(PingOf(f), Pings(controls[1..]), received.pongs);
    }
  }

  lemma EncodeOne(f: Frame, frames: seq<Frame>, tail: Bytes)
    requires ValidFrame(f) && ValidFrames(frames)
    ensures ValidFrames([f] + frames) && EncodeAll([f] + frames) + tail == Encode(f) + (EncodeAll(frames) + tail)
  {
    hide Encode, ValidFrame;
    assert ([f] + frames)[1..] == frames;
  }

  function FragmentAt(m: Script, i: nat): Fragment
    requires i <= |m.parts|
  {
    if i == 0 then NoFragment else Fragment(m.opcode, DataUpTo(m, i))
  }

  /** What the loop does with one data frame of a message. */
  lemma DataFrameReceived(m: Script, i: nat, after: Bytes)
    requires ValidScript(m) && i < |m.parts|
    ensures Receive(Encode(DataFrame(m, i)) + after, FragmentAt(m, i)) ==
      if i == |m.parts| - 1 then Message(m.opcode, DataUpTo(m, |m.parts|), after, [])
        else Receive(after, FragmentAt(m, i + 1))
  {
    hide Encode, ValidFrame, Parse, ValidPart;
    ParseEncode(DataFrame(m, i), after);
    assert DataUpTo(m, 1) == DataUpTo(m, 0) + m.parts[0].payload == m.parts[0].payload;
  }

  /** The rest of a message arrives whole, and leaves exactly what follows it. */
  lemma {:induction false} MessageReceived(m: Script, i: nat, tail: Bytes)
    requires ValidScript(m) && i < |m.parts|
    ensures Receive(EncodeAll(FramesFrom(m, i)) + tail, FragmentAt(m, i)) ==
      Message(m.opcode, DataUpTo(m, |m.parts|), tail, Pings(FramesFrom(m, i)))
    decreases |m.parts| - i
  {
    hide Encode, ValidFrame, Receive, DataUpTo, FragmentAt, EncodeAll, Pings;
    assert ValidPart(m.parts[i]);
    var before, f, rest := m.parts[i].before, DataFrame(m, i), FramesFrom(m, i + 1);
    var after := EncodeAll(rest) + tail;
    EncodeOne(f, rest, tail);
    EncodeAllJoins(before, [f] + rest);
    assert FramesFrom(m, i) == before + ([f] + rest);
    assert EncodeAll(FramesFrom(m, i)) + tail == EncodeAll(before) + (EncodeAll([f] + rest) + tail);
    ControlsSkipped(before, Encode(f) + after, FragmentAt(m, i));
    DataFrameReceived(m, i, after);
    PingsJoin(before, [f] + rest);
    DataFrameIsNoPing(m, i, rest);
    if i < |m.parts| - 1 {
      MessageReceived(m, i + 1, tail);
      assert Pings(before) + [] == Pings(before);
    } else {
      NothingFollows(tail);
    }
  }

  lemma DataFrameIsNoPing(m: Script, i: nat, rest: seq<Frame>)
    requires ValidScript(m) && i < |m.parts|
    ensures Pings([DataFrame(m, i)] + rest) == Pings(rest)
  {
    assert ([DataFrame(m, i)] + rest)[1..] == rest;
  }

  lemma NothingFollows(tail: Bytes)
    ensures EncodeAll([]) + tail == tail && Pings([]) == []
  {
    assert EncodeAll([]) == [];
  }

  /** A stream of messages, each fragmented and masked in any legal way with pings and pongs in between, is received as
      those messages in that order, with one pong for each ping and its payload, whether the peer then closes or
      the stream just ends. */
  lemma {:induction false} ConversationRoundTrip(script: seq<Script>, trailing: seq<Frame>, close: Bytes)
    requires ValidScripts(script) && Controls(trailing)
    requires Parse(close) == None || Parse(close).value.opcode == CLOSE
    ensures Conversation(EncodeAll(AllFrames(script)) + (EncodeAll(trailing) + close)) ==
      Session(Messages(script), Pings(AllFrames(script) + trailing))
    decreases |script|
  {
    hide Encode, ValidFrame, EncodeAll, Pings, ValidScript, Receive, Parse;
    var end := EncodeAll(trailing) + close;
    if script == [] {
      ConversationEnds(trailing, close);
      NothingFollows(end);
      assert AllFrames(script) + trailing == trailing;
    } else {
      assert ValidScript(script[0]);
      var first, others := FramesFrom(script[0], 0), AllFrames(script[1..]);
      var after := EncodeAll(others) + end;
      EncodeAllJoins(first, others);
      assert EncodeAll(first + others) + end == EncodeAll(first) + after;
      FirstMessage(script[0], after);
      ConversationRoundTrip(script[1..], trailing, close);
      PingsJoin(first, others + trailing);
      assert first + others + trailing == first + (others + trailing);
    }
  }

  lemma ConversationEnds(trailing: seq<Frame>, close: Bytes)
    requires Controls(trailing)
    requires Parse(close) == None || Parse(close).value.opcode == CLOSE
    ensures Conversation(EncodeAll(trailing) + close) == Session([], Pings(trailing))
  {
    hide Encode, ValidFrame, EncodeAll, Pings, Parse;
    ControlsSkipped(trailing, close, NoFragment);
    assert Pings(trailing) + [] == Pings(trailing);
  }

  lemma FirstMessage(m: Script, after: Bytes)
    requires ValidScript(m)
    ensures Receive(EncodeAll(FramesFrom(m, 0)) + after, NoFragment) ==
      Message(m.opcode, DataUpTo(m, |m.parts|), after, Pings(FramesFrom(m, 0)))
  {
    hide Encode, Receive, EncodeAll;
    MessageReceived(m, 0, after);
  }
}
