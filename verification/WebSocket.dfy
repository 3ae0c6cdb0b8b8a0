/** The minimal WebSocket client: a byte buffer refilled from the socket, and the receiving loop. */
module WebSocket {
  import opened Bytes
  import opened Results
  import opened Sequences
  import opened WebSocketFrames

  /** One pong for each payload, in order, each masked. */
  predicate Answers(frames: seq<Frame>, pongs: seq<Bytes>) {
    && |frames| == |pongs|
    && forall i :: 0 <= i < |frames| ==>
         frames[i] == Frame(true, PONG, frames[i].mask, pongs[i]) && frames[i].mask.Some?
  }

  class Client {
    var buf: Bytes
    var incoming: seq<Bytes>
    var outgoing: Bytes
    ghost var sent: seq<Frame>

    ghost predicate Valid()
      reads this
    {
      ValidFrames(sent) && outgoing == EncodeAll(sent) && forall i :: 0 <= i < |incoming| ==> incoming[i] != []
    }

    /** Every byte the peer sent that is not consumed yet: what is buffered, and what the socket will still
        deliver, one read at a time. */
    ghost function Stream(): Bytes
      reads this
    {
      buf + Flatten(incoming)
    }

    /** After the handshake: what came with the response header is already buffered. */
    constructor (rest: Bytes, chunks: seq<Bytes>)
      requires forall i :: 0 <= i < |chunks| ==> chunks[i] != []
      ensures Valid() && Stream() == rest + Flatten(chunks) && sent == []
    {
      buf, incoming, outgoing, sent := rest, chunks, [], [];
    }

    /** One read from the socket; nothing means the peer closed it. */
    method SocketRead() returns (d: Bytes)
      requires Valid()
      modifies `incoming
      ensures Valid() && (d == [] <==> old(incoming) == []) && d + Flatten(incoming) == old(Flatten(incoming))
      ensures |incoming| <= |old(incoming)| && (d != [] ==> |incoming| < |old(incoming)|)
    {
      if incoming == [] {
        d := [];
      } else {
        FlattenFirst(incoming);
        d := incoming[0];
        incoming := incoming[1..];
      }
    }

    method Read(n: nat) returns (out: Option<Bytes>)
      requires Valid()
      modifies `buf, `incoming
      ensures Valid()
      ensures |old(Stream())| >= n ==> out == Some(old(Stream())[..n]) && Stream() == old(Stream())[n..]
      ensures |old(Stream())| < n ==> out == None && Stream() == old(Stream()) && incoming == []
    {
      while |buf| < n
        invariant Valid() && Stream() == old(Stream())
        decreases |incoming|
      {
        var d := SocketRead();
        if d == [] {
          assert Stream() == buf;
          return None;
        }
        assert buf + (d + Flatten(incoming)) == (buf + d) + Flatten(incoming);
        buf := buf + d;
      }
      out := Some(buf[..n]);
      assert Stream()[..n] == buf[..n];
      assert Stream()[n..] == buf[n..] + Flatten(incoming);
      buf := buf[n..];
    }

    /** Sends one final frame under a fresh mask. */
    method Send(opcode: nat, payload: Bytes)
      requires Valid() && opcode < 16 && |payload| < Power256(8)
      modifies `outgoing, `sent
      ensures Valid() && |sent| == |old(sent)| + 1 && sent[..|old(sent)|] == old(sent)
      ensures sent[|old(sent)|] == Frame(true, opcode, sent[|old(sent)|].mask, payload) && sent[|old(sent)|].mask.Some?
      ensures old(outgoing) <= outgoing && OnWire(outgoing[|old(outgoing)|..], sent[|old(sent)|])
    {
      hide LengthCode, LengthExtension, Masked, Power256, OnWire;
      var mask := RandomMask();
      ghost var frame := Frame(true, opcode, Some(mask), payload);
      CodeSmall(|payload|);
      var b: Bytes := [128 + opcode, 128 + LengthCode(|payload|)];
      b := b + LengthExtension(|payload|);
      b := b + mask + Masked(payload, mask);
      assert b == Encode(frame);
      EncodeIsOnWire(frame);
      EncodeAllJoins(sent, [frame]);
      SingleFrame(frame);
      outgoing := outgoing + b;
      sent := sent + [frame];
    }

    /** The extended length, if the second header byte announces one. */
    method ReadExtension(b1: byte) returns (extension: Option<Bytes>)
      requires Valid()
      modifies `buf, `incoming
      ensures Valid()
      ensures var n := ExtensionSize(b1); var s := old(Stream());
        if |s| >= n then extension == Some(s[..n]) && Stream() == s[n..] else extension == None && incoming == []
    {
      if b1 % 128 == 126 {
        extension := Read(2);
      } else if b1 % 128 == 127 {
        extension := Read(8);
      } else {
        extension := Some([]);
        assert Stream()[..0] == [] && Stream()[0..] == Stream();
      }
    }

    method ReadMask(b1: byte) returns (mask: Option<Bytes>)
      requires Valid()
      modifies `buf, `incoming
      ensures Valid()
      ensures var n := MaskSize(b1); var s := old(Stream());
        if |s| >= n then mask == Some(s[..n]) && Stream() == s[n..] else mask == None && incoming == []
    {
      if b1 >= 128 {
        mask := Read(4);
      } else {
        mask := Some([]);
        assert Stream()[..0] == [] && Stream()[0..] == Stream();
      }
    }

    /** One frame, with its payload unmasked; None when the stream ends inside it. */
    method ReadFrame() returns (r: Option<(bool, nat, Bytes)>)
      requires Valid()
      modifies `buf, `incoming
      ensures Valid()
      ensures match Parse(old(Stream()))
        case None => r == None && incoming == []
        case Some(p) => r == Some((p.fin, p.opcode, p.payload)) && Stream() == p.rest && |p.payload| < Power256(8)
    {
      hide Masked, Power256, PayloadLength, ExtensionSize, MaskSize, Flatten, EncodeAll, ValidFrame, Parse;
      ghost var s := Stream();
      var header := Read(2);
      if header == None {
        ParseSteps(s);
        return None;
      }
      var b0, b1 := header.value[0], header.value[1];
      var extension := ReadExtension(b1);
      ParseSteps(s);
      if extension == None { return None; }
      ghost var e := 2 + ExtensionSize(b1);
      Advance(s, 2, ExtensionSize(b1));
      var length := PayloadLength(b1, extension.value);
      LengthBound(b1, extension.value);
      var mask := ReadMask(b1);
      if mask == None { return None; }
      Advance(s, e, MaskSize(b1));
      var payload := Read(length);
      if payload == None { return None; }
      Advance(s, e + MaskSize(b1), length);
      r := Some((b0 >= 128, b0 % 16, Masked(payload.value, mask.value)));
    }

    /** The next message, or None once the peer closes; pings are answered on the way.  The outcome depends only on
        the bytes still to come, not on how the socket cuts them up. */
    method Recv() returns (r: Option<(nat, Bytes)>)
      requires Valid()
      modifies this
      ensures Valid() && |sent| >= |old(sent)| && sent[..|old(sent)|] == old(sent)
      ensures var spec := Receive(old(Stream()), NoFragment);
        && Answers(sent[|old(sent)|..], spec.pongs)
        && match spec
           case Message(opcode, data, rest, _) => r == Some((opcode, data)) && Stream() == rest
           case Closed(rest, _) => r == None && Stream() == rest
           case EndOfStream(_) => r == None && incoming == []
    {
      hide Parse, Power256, ValidFrame, Flatten, EncodeAll;
      var fragment := NoFragment;
      ghost var start, pongs: seq<Bytes> := Receive(Stream(), NoFragment), [];
      BeforeNothing(start);
      while true
        invariant Valid() && |sent| >= |old(sent)| && sent[..|old(sent)|] == old(sent)
        invariant Answers(sent[|old(sent)|..], pongs)
        invariant start == Before(pongs, Receive(Stream(), fragment))
        decreases |Stream()|
      {
        ghost var s := Stream();
        var frame := ReadFrame();
        assert pongs + [] == pongs;
        if frame == None { return None; }
        var (fin, opcode, payload) := frame.value;
        if opcode == CLOSE { return None; }
        if opcode == PING {
          Send(PONG, payload);
          assert sent[|old(sent)|..] == sent[|old(sent)|..|sent| - 1] + [sent[|sent| - 1]];
          BeforePing(pongs, payload, Receive(Stream(), fragment));
          pongs := pongs + [payload];
        } else if opcode == TEXT || opcode == BINARY {
          if fin { return Some((opcode, payload)); }
          fragment := Fragment(opcode, payload);
        } else if opcode == CONTINUATION && fragment.Fragment? {
          if fin { return Some((fragment.opcode, fragment.data + payload)); }
          fragment := Fragment(fragment.opcode, fragment.data + payload);
        }
      }
    }

    /** Receives until the peer closes, as the streaming client does. */
    method ReceiveAll() returns (messages: seq<(nat, Bytes)>)
      requires Valid()
      modifies this
      ensures Valid() && |sent| >= |old(sent)| && sent[..|old(sent)|] == old(sent)
      ensures messages == Conversation(old(Stream())).messages
      ensures Answers(sent[|old(sent)|..], Conversation(old(Stream())).pongs)
    {
      hide Receive, Conversation, ValidFrame, Flatten, EncodeAll, Answers;
      messages := [];
      ghost var whole, pongs: seq<Bytes> := Conversation(Stream()), [];
      NoAnswers();
      NothingBefore(whole.messages);
      NothingBefore(whole.pongs);
      assert sent[|old(sent)|..] == [];
      while true
        invariant Valid() && |sent| >= |old(sent)| && sent[..|old(sent)|] == old(sent)
        invariant Answers(sent[|old(sent)|..], pongs)
        invariant whole.messages == messages + Conversation(Stream()).messages
        invariant whole.pongs == pongs + Conversation(Stream()).pongs
        decreases |Stream()|
      {
        ghost var s, n := Stream(), |sent|;
        ghost var before := sent[|old(sent)|..];
        var r := Recv();
        ghost var spec := Receive(s, NoFragment);
        assert sent[|old(sent)|..] == before + sent[n..];
        AnswersJoin(before, pongs, sent[n..], spec.pongs);
        ConversationStep(s, messages, pongs);
        if r == None {
          return;
        }
        messages := messages + [r.value];
        pongs := pongs + spec.pongs;
      }
    }
  }

  /** The operating system's random bytes. */
  method RandomMask() returns (mask: Bytes)
    ensures |mask| == 4
  {
    var a: byte, b: byte, c: byte, d: byte := *, *, *, *;
    mask := [a, b, c, d];
  }

  lemma SingleFrame(f: Frame)
    requires ValidFrame(f)
    ensures EncodeAll([f]) == Encode(f)
  {
    hide Encode;
    assert [f][1..] == [] && EncodeAll([]) == [];
  }

  lemma LengthBound(b1: byte, extension: Bytes)
    requires |extension| == ExtensionSize(b1)
    ensures PayloadLength(b1, extension) < Power256(8)
  {
    Power256Known();
    FromBigEndianBound(extension);
  }

  lemma BeforeNothing(r: Received)
    ensures Before([], r) == r
  {
    assert [] + r.pongs == r.pongs;
  }

  lemma BeforePing(pongs: seq<Bytes>, payload: Bytes, r: Received)
    ensures Before(pongs, Before([payload], r)) == Before(pongs + [payload], r)
  {
    assert pongs + ([payload] + r.pongs) == pongs + [payload] + r.pongs;
  }

  lemma Advance(s: Bytes, at: nat, n: nat)
    requires at <= |s|
    ensures |s[at..]| == |s| - at
    ensures at + n <= |s| ==> s[at..][..n] == s[at..at + n] && s[at..][n..] == s[at + n..]
  {
  }

  /** The reads that make up one frame. */
  lemma ParseSteps(s: Bytes)
    ensures |s| < 2 ==> Parse(s) == None
    ensures |s| >= 2 ==>
      && s[..2][0] == s[0] && s[..2][1] == s[1]
      && var e := 2 + ExtensionSize(s[1]); var p := e + MaskSize(s[1]);
         && (|s| < e ==> Parse(s) == None)
         && (|s| >= e ==>
               var n := PayloadLength(s[1], s[2..e]);
               && (|s| < p + n ==> Parse(s) == None)
               && (|s| >= p + n ==>
                   Parse(s) == Some(Parsed(s[0] >= 128, s[0] % 16, Masked(s[p..p + n], s[e..p]), s[p + n..]))))
  {
    hide Masked, PayloadLength;
  }

  /** One more received message, or the end of the conversation. */
  lemma ConversationStep(s: Bytes, messages: seq<(nat, Bytes)>, pongs: seq<Bytes>)
    ensures var r := Receive(s, NoFragment); var all := Conversation(s);
      if r.Message? then
        && messages + all.messages == messages + [(r.opcode, r.data)] + Conversation(r.rest).messages
        && pongs + all.pongs == pongs + r.pongs + Conversation(r.rest).pongs
      else messages + all.messages == messages && pongs + all.pongs == pongs + r.pongs
  {
    hide Receive;
    var r := Receive(s, NoFragment);
    if r.Message? {
      var after := Conversation(r.rest);
      Associative(messages, [(r.opcode, r.data)], after.messages);
      Associative(pongs, r.pongs, after.pongs);
    } else {
      NothingBefore(messages);
    }
  }

  lemma NoAnswers()
    ensures Answers([], [])
  {
  }

  lemma AnswersJoin(a: seq<Frame>, p: seq<Bytes>, b: seq<Frame>, q: seq<Bytes>)
    requires Answers(a, p) && Answers(b, q)
    ensures Answers(a + b, p + q)
  {
    forall i | 0 <= i < |a + b| ensures (a + b)[i] == Frame(true, PONG, (a + b)[i].mask, (p + q)[i])
      && (a + b)[i].mask.Some? {
      if i >= |a| { assert b[i - |a|].mask.Some?; }
    }
  }

  /** However the socket cuts up a legal exchange, the client receives its messages in order and answers each ping
      with one pong carrying the same payload. */
  method Exchange(rest: Bytes, chunks: seq<Bytes>, ghost script: seq<Script>, ghost trailing: seq<Frame>,
                  ghost close: Bytes)
    returns (messages: seq<(nat, Bytes)>, ghost pongs: seq<Frame>)
    requires forall i :: 0 <= i < |chunks| ==> chunks[i] != []
    requires ValidScripts(script) && Controls(trailing)
    requires Parse(close) == None || Parse(close).value.opcode == CLOSE
    requires rest + Flatten(chunks) == EncodeAll(AllFrames(script)) + (EncodeAll(trailing) + close)
    ensures messages == Messages(script)
    ensures Answers(pongs, Pings(AllFrames(script) + trailing))
  {
    hide Parse, Conversation, Answers, ValidFrame, EncodeAll, Pings;
    var client := new Client(rest, chunks);
    messages := client.ReceiveAll();
    pongs := client.sent;
    assert client.sent[0..] == client.sent;
    ConversationRoundTrip(script, trailing, close);
  }
}
