/** The receiving side of a session: bytes arrive in pieces, whole messages leave in order. */
module TcpSessions {
  import opened Modular
  import opened Sequences
  import opened Wire
  import opened Buffers
  import opened Messages
  import opened Parsers

  // With this much added to less than a whole message, the 32-bit size still does not wrap.
  const MAX_PIECE: nat := UINT32 - HEADER_LEN - 0xFFFF

  class TcpSession {
    const received: RingBuffer
    var parseHeadOk: bool
    var curHeader: seq<Byte>
    // What the messages handed to the queue carry, in the order of the hand-overs.
    var queue: seq<Frame>

    ghost predicate Valid()
      reads this, received, received.Repr
    {
      received.Valid() && this !in received.Repr && |curHeader| == HEADER_LEN
    }

    /** The saved header, if any, and the buffered bytes. */
    ghost function Model(): Parser
      requires Valid()
      reads this, received, received.Repr
    {
      Parser(if parseHeadOk then curHeader else [], received.Contents())
    }

    /** The bytes received and not yet part of a message. */
    ghost function Pending(): seq<Byte>
      requires Valid()
      reads this, received, received.Repr
    {
      Model().Pending()
    }

    /** The parser has done what it can with the bytes at hand. */
    ghost predicate Settled()
      requires Valid()
      reads this, received, received.Repr
    {
      !StartsWithFrame(Pending()) && (parseHeadOk <==> |Pending()| >= HEADER_LEN)
    }

    lemma SettledIsSmall()
      requires Valid() && Settled()
      ensures |received.Contents()| == Buffered(Pending()) < UINT32
    {
    }

    constructor ()
      ensures Valid() && Settled() && Pending() == [] && queue == []
    {
      hide RingBuffer.Valid, RingBuffer.Contents, CodeField, LengthField;
      received := new RingBuffer();
      parseHeadOk, curHeader, queue := false, [0, 0, 0, 0], [];
    }

    /** The first half of a round of the parser. */
    method ReadHead() returns (ok: bool)
      requires Valid() && !parseHeadOk
      modifies this`parseHeadOk, this`curHeader, received.Repr
      ensures Valid() && received.Repr == old(received.Repr)
      ensures Model() == old(Model()).ReadHead() && ok == parseHeadOk
    {
      hide RingBuffer.Valid, RingBuffer.Contents;
      var canReadSize := received.CanReadSize();
      if canReadSize < HEADER_LEN { return false; }
      var readed, head := received.Read(HEADER_LEN);
      if readed < HEADER_LEN { return false; }
      curHeader := head;
      parseHeadOk := true;
      ok := true;
    }

    /** The header goes in front of the body that was read, and the message says what it carries. */
    static method Complete(msg: Message, header: seq<Byte>) returns (frame: Frame)
      requires msg.Valid() && |header| == HEADER_LEN && |msg.Bytes()| == HEADER_LEN + LengthField(header)
      modifies msg.buf`data
      ensures frame == Frame(CodeField(header), old(msg.Bytes())[HEADER_LEN..])
    {
      ghost var body := msg.Bytes()[HEADER_LEN..];
      msg.SetHeader(header);
      HeaderThenBody(header, body, msg.Bytes());
      var code := msg.GetMsgCode();
      var read := msg.ReadBody();
      frame := Frame(code, read);
    }

    /** The body behind the saved header, as a message, as soon as the size check lets it through. */
    method ReadMessage() returns (ok: bool, frame: Frame)
      requires Valid() && parseHeadOk
      modifies received.Repr
      ensures Valid() && received.Repr == old(received.Repr)
      ensures ok == (|old(received.Contents())| % UINT32 >= LengthField(curHeader))
      ensures if ok then LengthField(curHeader) <= |old(received.Contents())|
                && received.Contents() == old(received.Contents())[LengthField(curHeader)..]
                && frame == Frame(CodeField(curHeader), old(received.Contents())[..LengthField(curHeader)])
              else received.Contents() == old(received.Contents())
    {
      frame := Frame(0, []);
      var msgLen := LengthField(curHeader);
      var canReadSize := received.CanReadSize();
      if canReadSize < msgLen { return false, frame; }
      var msg := new Message(msgLen);
      var readed := received.ReadTo(msg.buf, msgLen);
      if msgLen != readed { return false, frame; }
      frame := Complete(msg, curHeader);
      return true, frame;
    }

    /** The second half of a round: the message leaves for the queue. */
    method ReadBody() returns (ok: bool)
      requires Valid() && parseHeadOk
      modifies this`parseHeadOk, this`queue, received.Repr
      ensures Valid() && received.Repr == old(received.Repr)
      ensures var r := old(Model()).ReadBody();
        Model() == r.parser && ok == r.frame.Some? && queue == if ok then old(queue) + [r.frame.value] else old(queue)
    {
      var frame: Frame;
      ok, frame := ReadMessage();
      if ok {
        parseHeadOk := false;
        queue := queue + [frame];
      }
    }

    /** One round of the parser: a whole message leaves, or the size check holds it up. */
    method ParseRound() returns (ok: bool)
      requires Valid()
      modifies this`parseHeadOk, this`curHeader, this`queue, received.Repr
      ensures Valid() && received.Repr == old(received.Repr)
      ensures var r := old(Model()).ParseRound();
        Model() == r.parser && ok == r.frame.Some? && queue == if ok then old(queue) + [r.frame.value] else old(queue)
    {
      hide RingBuffer.Valid, RingBuffer.Contents, CodeField, LengthField;
      if !parseHeadOk {
        ok := ReadHead();
        if !ok { return; }
      }
      ok := ReadBody();
    }

    /** Takes whole messages off the front. The 32-bit size check lets it see all that is buffered exactly when
        fewer than 2^32 bytes are, and exactly then it leaves no whole message behind. */
    method ParseToMessage() returns (ghost frames: seq<Frame>)
      requires Valid()
      modifies this`parseHeadOk, this`curHeader, this`queue, received.Repr
      ensures Valid() && received.Repr == old(received.Repr)
      ensures queue == old(queue) + frames && Splits(old(Pending()), frames, Pending())
      ensures !StartsWithFrame(Pending()) <==> |old(received.Contents())| < UINT32
      ensures if |old(received.Contents())| < UINT32 then Settled() else |received.Contents()| >= UINT32
    {
      hide Splits, StartsWithFrame, FirstFrame, AfterFirstFrame, Parser.ParseRound, RingBuffer.Valid, RingBuffer.Contents;
      frames := [];
      ghost var was := Pending();
      NothingParsed(was);
      while true
        invariant Valid() && received.Repr == old(received.Repr)
        invariant queue == old(queue) + frames && Splits(was, frames, Pending())
        invariant |received.Contents()| < UINT32 <==> |old(received.Contents())| < UINT32
        decreases |Pending()|
      {
        ghost var before := Pending();
        RoundTakesFirstFrame(Model());
        var ok := ParseRound();
        if !ok { break; }
        OneMore(was, frames, before);
        frames := frames + [FirstFrame(before)];
      }
    }

    /** The parser run over pending bytes that have just grown to `stream`. Below 2^32 buffered bytes, the messages handed
        on and what is kept are those of the reference parser; otherwise a whole message is left behind. */
    method ParsePending(ghost stream: seq<Byte>) returns (ghost frames: seq<Frame>)
      requires Valid() && Pending() == stream
      modifies this`parseHeadOk, this`curHeader, this`queue, received.Repr
      ensures Valid() && received.Repr == old(received.Repr)
      ensures queue == old(queue) + frames && Splits(stream, frames, Pending())
      ensures if |old(received.Contents())| < UINT32
        then Parse(stream) == Parsed(frames, Pending()) && Settled()
        else |received.Contents()| >= UINT32 && StartsWithFrame(Pending())
    {
      frames := ParseToMessage();
      if !StartsWithFrame(Pending()) { ParseIsUnique(frames, Pending()); }
    }

    /** Bytes arriving in one piece. */
    method OnReceive(bytes: seq<Byte>) returns (ghost frames: seq<Frame>)
      requires Valid() && |bytes| < UINT32
      modifies this`parseHeadOk, this`curHeader, this`queue, received.Repr
      ensures Valid() && fresh(received.Repr - old(received.Repr))
      ensures queue == old(queue) + frames && Splits(old(Pending()) + bytes, frames, Pending())
      ensures if |old(received.Contents())| + |bytes| < UINT32
        then Parse(old(Pending()) + bytes) == Parsed(frames, Pending()) && Settled()
        else |received.Contents()| >= UINT32 && StartsWithFrame(Pending())
    {
      ghost var stream := Pending() + bytes;
      var _ := received.WriteData(bytes);
      frames := ParsePending(stream);
    }

    /** Bytes arriving in a buffer of the caller's. */
    method OnReceiveBuffer(b: BaseBuffer?) returns (ghost frames: seq<Frame>)
      requires Valid() && (b != null ==> b.Valid() && b !in received.Repr)
      modifies this`parseHeadOk, this`curHeader, this`queue, received.Repr, b
      ensures Valid() && received.Repr <= old(received.Repr) + {b}
      ensures var bytes := if b == null then [] else old(b.Readable());
        && queue == old(queue) + frames && Splits(old(Pending()) + bytes, frames, Pending())
        && if |old(received.Contents())| + |bytes| < UINT32
           then Parse(old(Pending()) + bytes) == Parsed(frames, Pending()) && Settled()
           else |received.Contents()| >= UINT32 && StartsWithFrame(Pending())
    {
      hide Splits, StartsWithFrame, Parse, Flatten, Settled;
      ghost var stream := Pending() + if b == null then [] else b.Readable();
      received.EmplaceBack(b);
      frames := ParsePending(stream);
    }

    /** Whatever the pieces, no byte is lost; and the same bytes in any pieces give the same messages and the same rest as
        in one exactly if no piece ever fills the buffer to 2^32 bytes. */
    method ReceiveAll(pieces: seq<seq<Byte>>) returns (ghost frames: seq<Frame>)
      requires Valid() && Settled() && forall p | p in pieces :: |p| < UINT32
      modifies this`parseHeadOk, this`curHeader, this`queue, received.Repr
      ensures Valid() && fresh(received.Repr - old(received.Repr))
      ensures queue == old(queue) + frames && Splits(old(Pending()) + Concat(pieces), frames, Pending())
      ensures Parse(old(Pending()) + Concat(pieces)) == Parsed(frames, Pending()) <==> NeverFull(old(Pending()), pieces)
    {
      hide StartsWithFrame, Parse, Concat;
      frames := [];
      ghost var start := Pending();
      NothingYet(start);
      SettledIsSmall();
      assert pieces[0..] == pieces && pieces[..0] == [];
      for i := 0 to |pieces|
        invariant Valid() && fresh(received.Repr - old(received.Repr))
        invariant queue == old(queue) + frames && Splits(start + Concat(pieces[..i]), frames, Pending())
        invariant if |received.Contents()| < UINT32
          then Settled() && (NeverFull(start, pieces) <==> NeverFull(Pending(), pieces[i..]))
          else StartsWithFrame(Pending()) && !NeverFull(start, pieces)
      {
        ghost var before := Pending();
        if |received.Contents()| < UINT32 { SettledIsSmall(); }
        var more := OnReceive(pieces[i]);
        assert pieces[i..][0] == pieces[i] && pieces[i..][1..] == pieces[i + 1..];
        OnePieceMore(start, pieces, i, frames, before, more, Pending());
        Behind(old(queue), frames, more);
        frames := frames + more;
      }
      assert pieces[..|pieces|] == pieces && pieces[|pieces|..] == [];
      if !StartsWithFrame(Pending()) { ParseIsUnique(frames, Pending()); }
      EncodeParsed(start + Concat(pieces));
    }

    /** What one side sends, the other hands on, however the bytes are cut on the way, exactly if no piece ever fills the
        buffer to 2^32 bytes. */
    method ReceiveEncoded(fs: seq<Frame>, pieces: seq<seq<Byte>>)
      requires Valid() && Settled() && Pending() == [] && AllSendable(fs) && Concat(pieces) == EncodeAll(fs)
      requires forall p | p in pieces :: |p| < UINT32
      modifies this`parseHeadOk, this`curHeader, this`queue, received.Repr
      ensures Valid() && (queue == old(queue) + fs && Pending() == [] <==> NeverFull([], pieces))
    {
      assert [] + Concat(pieces) == EncodeAll(fs) + [];
      ParseIsUnique(fs, []);
      var frames := ReceiveAll(pieces);
      SamePrefix(old(queue), frames, fs);
    }

    /** Messages written straight into the receive buffer come out of the parser as they went in, exactly if they take
        less than 2^32 bytes together. */
    method WriteAndParse(fs: seq<Frame>, room: nat)
      requires Valid() && Settled() && Pending() == [] && AllSendable(fs) && room + HEADER_LEN < UINT32
      modifies this`parseHeadOk, this`curHeader, this`queue, received.Repr
      ensures Valid() && (queue == old(queue) + fs && Pending() == [] <==> |EncodeAll(fs)| < UINT32)
    {
      WriteAll(received, fs, room);
      assert Pending() == [] + EncodeAll(fs) == EncodeAll(fs) + [];
      ParseIsUnique(fs, []);
      var frames := ParsePending(EncodeAll(fs));
      SamePrefix(old(queue), frames, fs);
    }
  }

  /** The bytes behind the saved header, of those that are left over. */
  function Buffered(rest: seq<Byte>): nat { if |rest| >= HEADER_LEN then |rest| - HEADER_LEN else |rest| }

  /** No piece, arriving behind what the ones before have left over, brings the buffered bytes to 2^32. */
  predicate NeverFull(rest: seq<Byte>, pieces: seq<seq<Byte>>)
    decreases |pieces|
  {
    pieces == [] || (Buffered(rest) + |pieces[0]| < UINT32 && NeverFull(Parse(rest + pieces[0]).rest, pieces[1..]))
  }

  /** Pieces that leave room for an unfinished message never do. */
  lemma {:induction false} SmallPiecesNeverFill(rest: seq<Byte>, pieces: seq<seq<Byte>>)
    requires !StartsWithFrame(rest) && forall p | p in pieces :: |p| <= MAX_PIECE
    ensures NeverFull(rest, pieces)
    decreases |pieces|
  {
    if pieces != [] {
      assert pieces[0] in pieces;
      EncodeParsed(rest + pieces[0]);
      SmallPiecesNeverFill(Parse(rest + pieces[0]).rest, pieces[1..]);
    }
  }

  /** Bytes that do: a message announced with the greatest length and one byte of it, and a piece as long as 32 bits can
      say. */
  lemma PiecesMayFill()
    ensures !NeverFull([], [[0, 0, 255, 255, 0], seq(UINT32 - 1, _ => 0)])
  {
    var first: seq<Byte> := [0, 0, 255, 255, 0];
    var more: seq<Byte> := seq(UINT32 - 1, _ => 0);
    assert [] + first == first && LengthField(first) == 0xFFFF;
    assert Parse(first) == Parsed([], first);
    assert [first, more][1..] == [more];
  }

  lemma NothingParsed(stream: seq<Byte>)
    ensures Splits(stream, [], stream)
  {
    assert [] + stream == stream;
  }

  lemma NothingYet(start: seq<Byte>)
    ensures Splits(start + Concat([]), [], start)
  {
    assert start + [] == start && [] + start == start;
  }

  lemma SamePrefix(a: seq<Frame>, b: seq<Frame>, c: seq<Frame>)
    ensures a + b == a + c <==> b == c
  {
    if a + b == a + c { assert b == (a + b)[|a|..] && c == (a + c)[|a|..]; }
  }

  lemma OnePieceMore(start: seq<Byte>, pieces: seq<seq<Byte>>, i: nat, frames: seq<Frame>, rest: seq<Byte>,
                     more: seq<Frame>, left: seq<Byte>)
    requires i < |pieces| && Splits(start + Concat(pieces[..i]), frames, rest) && Splits(rest + pieces[i], more, left)
    ensures Splits(start + Concat(pieces[..i + 1]), frames + more, left)
  {
    assert pieces[..i] + [pieces[i]] == pieces[..i + 1];
    ConcatSnoc(pieces[..i], pieces[i]);
    Behind(start, Concat(pieces[..i]), pieces[i]);
    Behind(EncodeAll(frames), rest, pieces[i]);
    EncodeAllAppend(frames, more);
    Behind(EncodeAll(frames), EncodeAll(more), left);
  }

  /** The stream is these frames followed by the rest. */
  ghost predicate Splits(stream: seq<Byte>, frames: seq<Frame>, rest: seq<Byte>) {
    AllSendable(frames) && EncodeAll(frames) + rest == stream
  }

  lemma OneMore(stream: seq<Byte>, frames: seq<Frame>, rest: seq<Byte>)
    requires Splits(stream, frames, rest) && StartsWithFrame(rest)
    ensures Splits(stream, frames + [FirstFrame(rest)], AfterFirstFrame(rest)) && |AfterFirstFrame(rest)| < |rest|
  {
    hide FirstFrame, AfterFirstFrame, StartsWithFrame, EncodeAll, AllSendable;
    OneFrameMore(frames, rest);
  }

  lemma HeaderThenBody(header: seq<Byte>, body: seq<Byte>, bytes: seq<Byte>)
    requires |header| == HEADER_LEN && |body| == LengthField(header) && bytes == header + body
    ensures CodeField(bytes) == CodeField(header) && LengthField(bytes) == |body|
    ensures |bytes| == HEADER_LEN + |body| && bytes[HEADER_LEN..HEADER_LEN + |body|] == body
  {
  }
}
