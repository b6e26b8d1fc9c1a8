/** The framed byte stream: a code and a body length, two bytes each with the low byte first, then the body. */
module Wire {
  import opened Modular
  import opened Sequences

  type Byte = x: nat | x < 256
  type Word16 = x: nat | x < 0x1_0000
  const HEADER_LEN: nat := 4

  datatype Frame = Frame(code: Word16, body: seq<Byte>)
  datatype Parsed = Parsed(frames: seq<Frame>, rest: seq<Byte>)

  function LowByte(w: Word16): Byte { w % 256 }
  function HighByte(w: Word16): Byte { w / 256 }
  function WordOf(low: Byte, high: Byte): Word16 { low + 256 * high }

  function WordBytes(w: Word16): seq<Byte> { [LowByte(w), HighByte(w)] }

  /** What fits a header: the length field has 16 bits. */
  predicate Sendable(f: Frame) { |f.body| < 0x1_0000 }

  predicate AllSendable(fs: seq<Frame>) { forall f | f in fs :: Sendable(f) }

  function Encode(f: Frame): seq<Byte>
    requires Sendable(f)
  {
    WordBytes(f.code) + WordBytes(|f.body|) + f.body
  }

  function EncodeAll(fs: seq<Frame>): seq<Byte>
    requires AllSendable(fs)
  {
    if fs == [] then [] else Encode(fs[0]) + EncodeAll(fs[1..])
  }

  function CodeField(bytes: seq<Byte>): Word16
    requires |bytes| >= HEADER_LEN
  {
    WordOf(bytes[0], bytes[1])
  }

  function LengthField(bytes: seq<Byte>): Word16
    requires |bytes| >= HEADER_LEN
  {
    WordOf(bytes[2], bytes[3])
  }

  /** The stream starts with a whole frame. */
  predicate StartsWithFrame(bytes: seq<Byte>) {
    |bytes| >= HEADER_LEN && |bytes| >= HEADER_LEN + LengthField(bytes)
  }

  function FirstFrame(bytes: seq<Byte>): Frame
    requires StartsWithFrame(bytes)
  {
    Frame(CodeField(bytes), bytes[HEADER_LEN..HEADER_LEN + LengthField(bytes)])
  }

  function AfterFirstFrame(bytes: seq<Byte>): seq<Byte>
    requires StartsWithFrame(bytes)
  {
    bytes[HEADER_LEN + LengthField(bytes)..]
  }

  /** The reference parser: whole frames off the front of the stream, as long as there are any. */
  function Parse(bytes: seq<Byte>): Parsed
    decreases |bytes|
  {
    if !StartsWithFrame(bytes) then Parsed([], bytes)
    else
      var p := Parse(AfterFirstFrame(bytes));
      Parsed([FirstFrame(bytes)] + p.frames, p.rest)
  }

  lemma WordRoundTrip(low: Byte, high: Byte)
    ensures WordBytes(WordOf(low, high)) == [low, high]
  {
  }

  lemma EncodeStartsWithFrame(f: Frame, tail: seq<Byte>)
    requires Sendable(f)
    ensures var bytes := Encode(f) + tail;
      StartsWithFrame(bytes) && FirstFrame(bytes) == f && AfterFirstFrame(bytes) == tail
  {
    var bytes := Encode(f) + tail;
    assert LengthField(bytes) == |f.body|;
    assert FirstFrame(bytes).body == f.body;
  }

  lemma FirstFrameEncodes(bytes: seq<Byte>)
    requires StartsWithFrame(bytes)
    ensures Sendable(FirstFrame(bytes)) && bytes == Encode(FirstFrame(bytes)) + AfterFirstFrame(bytes)
  {
    var f := FirstFrame(bytes);
    WordRoundTrip(bytes[0], bytes[1]);
    WordRoundTrip(bytes[2], bytes[3]);
    assert WordBytes(f.code) == bytes[..2] && WordBytes(|f.body|) == bytes[2..4];
    assert bytes == bytes[..2] + bytes[2..4] + bytes[4..4 + |f.body|] + bytes[4 + |f.body|..];
  }

  /** What goes onto the wire, byte by byte: the code and the length with the low byte first, then the body. */
  lemma EncodeLayout(f: Frame)
    requires Sendable(f)
    ensures var bytes := Encode(f);
      && |bytes| == 4 + |f.body| && bytes[4..] == f.body
      && bytes[0] == f.code % 256 && bytes[1] == f.code / 256
      && bytes[2] == |f.body| % 256 && bytes[3] == |f.body| / 256
  {
  }

  /** And what a message that comes in as these bytes is. */
  lemma ParseLayout(c0: Byte, c1: Byte, l0: Byte, l1: Byte, body: seq<Byte>, later: seq<Byte>)
    requires |body| == l0 + 256 * l1
    ensures Parse([c0, c1, l0, l1] + body + later)
         == Parsed([Frame(c0 + 256 * c1, body)] + Parse(later).frames, Parse(later).rest)
  {
    var bytes := [c0, c1, l0, l1] + body + later;
    assert LengthField(bytes) == |body| && FirstFrame(bytes) == Frame(c0 + 256 * c1, body);
    assert AfterFirstFrame(bytes) == later;
  }

  lemma ParseFront(f: Frame, following: seq<Byte>)
    requires Sendable(f)
    ensures Parse(Encode(f) + following) == Parsed([f] + Parse(following).frames, Parse(following).rest)
  {
    EncodeStartsWithFrame(f, following);
  }

  /** Parsing undoes encoding, whatever follows on the stream. */
  lemma {:induction false} ParseEncoded(fs: seq<Frame>, tail: seq<Byte>)
    requires AllSendable(fs)
    ensures Parse(EncodeAll(fs) + tail) == Parsed(fs + Parse(tail).frames, Parse(tail).rest)
    decreases |fs|
  {
    if fs == [] {
      assert EncodeAll(fs) + tail == tail;
      assert fs + Parse(tail).frames == Parse(tail).frames;
    } else {
      var following := EncodeAll(fs[1..]) + tail;
      calc {
        Parse(EncodeAll(fs) + tail);
        { Behind(Encode(fs[0]), EncodeAll(fs[1..]), tail); }
        Parse(Encode(fs[0]) + following);
        { ParseFront(fs[0], following); }
        Parsed([fs[0]] + Parse(following).frames, Parse(following).rest);
        { ParseEncoded(fs[1..], tail); }
        Parsed([fs[0]] + (fs[1..] + Parse(tail).frames), Parse(tail).rest);
        { assert [fs[0]] + (fs[1..] + Parse(tail).frames) == fs + Parse(tail).frames; }
        Parsed(fs + Parse(tail).frames, Parse(tail).rest);
      }
    }
  }

  /** Encoding undoes parsing: no byte is lost or made up, and what is left over starts with no whole frame. */
  lemma {:induction false} EncodeParsed(bytes: seq<Byte>)
    ensures var p := Parse(bytes);
      AllSendable(p.frames) && EncodeAll(p.frames) + p.rest == bytes && !StartsWithFrame(p.rest)
    decreases |bytes|
  {
    if StartsWithFrame(bytes) {
      var after := AfterFirstFrame(bytes);
      FirstFrameEncodes(bytes);
      EncodeParsed(after);
      var p, q := Parse(bytes), Parse(after);
      assert p.frames[1..] == q.frames;
      assert forall f | f in p.frames :: f == p.frames[0] || f in q.frames;
      Behind(Encode(FirstFrame(bytes)), EncodeAll(q.frames), q.rest);
    }
  }

  /** The parse is the only way to read the stream as frames followed by less than a frame. */
  lemma {:induction false} ParseIsUnique(fs: seq<Frame>, rest: seq<Byte>)
    requires AllSendable(fs) && !StartsWithFrame(rest)
    ensures Parse(EncodeAll(fs) + rest) == Parsed(fs, rest)
  {
    ParseEncoded(fs, rest);
    assert fs + [] == fs;
  }

  /** Cutting the stream anywhere and parsing the pieces in turn, each behind what the one before left over,
      gives the same frames and the same rest. */
  lemma ParseInPieces(a: seq<Byte>, b: seq<Byte>)
    ensures var p := Parse(a); var q := Parse(p.rest + b);
      Parse(a + b) == Parsed(p.frames + q.frames, q.rest)
  {
    EncodeParsed(a);
    var p := Parse(a);
    Behind(EncodeAll(p.frames), p.rest, b);
    ParseEncoded(p.frames, p.rest + b);
  }

  lemma {:induction false} EncodeAllAppend(fs: seq<Frame>, gs: seq<Frame>)
    requires AllSendable(fs) && AllSendable(gs)
    ensures AllSendable(fs + gs) && EncodeAll(fs + gs) == EncodeAll(fs) + EncodeAll(gs)
    decreases |fs|
  {
    if fs == [] {
      assert fs + gs == gs;
    } else {
      assert (fs + gs)[1..] == fs[1..] + gs;
      EncodeAllAppend(fs[1..], gs);
    }
  }

  lemma EncodeOne(f: Frame)
    requires Sendable(f)
    ensures EncodeAll([f]) == Encode(f)
  {
    assert [f][1..] == [];
  }

  /** The first frame of what is left over joins the frames read before. */
  lemma OneFrameMore(frames: seq<Frame>, rest: seq<Byte>)
    requires AllSendable(frames) && StartsWithFrame(rest)
    ensures AllSendable(frames + [FirstFrame(rest)]) && |AfterFirstFrame(rest)| < |rest|
    ensures EncodeAll(frames + [FirstFrame(rest)]) + AfterFirstFrame(rest) == EncodeAll(frames) + rest
  {
    FirstFrameEncodes(rest);
    var f, after := FirstFrame(rest), AfterFirstFrame(rest);
    assert |after| < |rest|;
    hide Encode, EncodeAll, FirstFrame, AfterFirstFrame, StartsWithFrame;
    EncodeOne(f);
    EncodeAllAppend(frames, [f]);
    Behind(EncodeAll(frames), Encode(f), after);
  }

  /** A saved header and the bytes behind it, when they hold its body. */
  lemma FrontOfPending(header: seq<Byte>, contents: seq<Byte>)
    requires |header| == HEADER_LEN && LengthField(header) <= |contents|
    ensures var pending, len := header + contents, LengthField(header);
      && StartsWithFrame(pending) && AfterFirstFrame(pending) == contents[len..]
      && FirstFrame(pending) == Frame(CodeField(header), contents[..len])
  {
  }

  /** A parser that compares a 32-bit size stops before a whole frame exactly when 2^32 bytes or more are buffered. */
  lemma StopsBeforeFrame(header: seq<Byte>, buffered: seq<Byte>)
    requires if |header| == HEADER_LEN then |buffered| % UINT32 < LengthField(header)
             else header == [] && |buffered| % UINT32 < HEADER_LEN
    ensures StartsWithFrame(header + buffered) <==> |buffered| >= UINT32
  {
    if |header| == HEADER_LEN {
      assert LengthField(header + buffered) == LengthField(header);
    } else {
      assert header + buffered == buffered;
    }
  }
}
