/** A message: a buffer whose first four bytes are the header and whose read offset starts at the body. */
module Messages {
  import opened Modular
  import opened Sequences
  import opened Wire
  import opened Buffers

  class Message {
    // The part inherited from the plain buffer.
    const buf: BaseBuffer

    ghost predicate Valid()
      reads this, buf
    {
      buf.Valid() && buf.rd == HEADER_LEN <= buf.wr
    }

    /** What goes onto the wire. */
    ghost function Bytes(): seq<Byte>
      requires Valid()
      reads this, buf
    {
      buf.Written()
    }

    ghost predicate Carries(f: Frame)
      reads this, buf
    {
      Valid() && Sendable(f) && Bytes() == Encode(f)
    }

    constructor (size: nat)
      requires size + HEADER_LEN < UINT32
      ensures Valid() && fresh(buf) && |buf.data| == size + HEADER_LEN && buf.wr == HEADER_LEN
    {
      buf := new BaseBuffer(size + HEADER_LEN);
      new;
      buf.ConsumeWr(HEADER_LEN);
      buf.ConsumeRd(HEADER_LEN);
    }

    method SetHeader(head: seq<Byte>)
      requires Valid() && |head| == HEADER_LEN
      modifies buf`data
      ensures Valid() && |buf.data| == old(|buf.data|) && Bytes() == head + old(Bytes())[HEADER_LEN..]
    {
      buf.SetData(head, 0);
    }

    method SetMsgCode(code: Word16)
      requires Valid()
      modifies buf`data
      ensures Valid() && |buf.data| == old(|buf.data|) && Bytes() == WordBytes(code) + old(Bytes())[2..]
      ensures Bytes()[0] == code % 256 && Bytes()[1] == code / 256
    {
      buf.SetData(WordBytes(code), 0);
    }

    method SetMsgLen(len: Word16)
      requires Valid()
      modifies buf`data
      ensures Valid() && |buf.data| == old(|buf.data|)
      ensures Bytes() == old(Bytes())[..2] + WordBytes(len) + old(Bytes())[4..]
      ensures Bytes()[2] == len % 256 && Bytes()[3] == len / 256
    {
      buf.SetData(WordBytes(len), 2);
    }

    method GetMsgCode() returns (code: Word16)
      requires Valid()
      ensures code == CodeField(Bytes()) && code as int == Bytes()[0] as int + 256 * Bytes()[1] as int
    {
      code := 0;
      var field := buf.GetData(2, 0);
      if |field| == 2 { code := WordOf(field[0], field[1]); }
    }

    method GetMsgLen() returns (len: Word16)
      requires Valid()
      ensures len == LengthField(Bytes()) && len as int == Bytes()[2] as int + 256 * Bytes()[3] as int
    {
      len := 0;
      var field := buf.GetData(2, 2);
      if |field| == 2 { len := WordOf(field[0], field[1]); }
    }

    /** New storage with what was written so far in it. */
    method Grow(len: nat)
      requires Valid() && buf.wr <= len < UINT32
      modifies buf`data
      ensures Valid() && Bytes() == old(Bytes()) && |buf.data| == len
    {
      var data := seq(len, _ => 0);
      buf.data := buf.data[..buf.wr] + data[buf.wr..];
    }

    /** Appends to the body, in grown storage when the room left is too small. Sizes are cut to 32 bits: of a longer string
        only so much is written; and if that together with what is there does not fit 32 bits, the code would copy more
        than the new storage holds. */
    method WriteBody(msg: seq<Byte>) returns (n: nat)
      requires Valid() && |msg| % UINT32 + buf.wr < UINT32
      modifies buf`data, buf`wr
      ensures Valid() && n == |msg| % UINT32 && Bytes() == old(Bytes()) + msg[..n]
      ensures |buf.data| == if |msg| <= old(buf.CanWrSize()) then old(|buf.data|) else old(buf.wr) + n
    {
      var curSize := buf.CanWrSize();
      var size := |msg| % UINT32;
      if |msg| > curSize {
        SumFits(|msg|, buf.wr, UINT32);
        Grow((|msg| + buf.wr) % UINT32);
      } else {
        SmallMod(|msg|, UINT32);
      }
      assert size <= buf.CanWrSize() && |msg[..size]| == size;
      n := buf.AppendData(msg[..size]);
      assert n == size && msg[..size][..size] == msg[..size];
    }

    /** The body, if as many bytes are there as the header says. */
    method ReadBody() returns (body: seq<Byte>)
      requires Valid()
      ensures var len: nat := Bytes()[2] as int + 256 * Bytes()[3] as int;
        body == if |Bytes()| < HEADER_LEN + len then [] else Bytes()[HEADER_LEN..HEADER_LEN + len]
    {
      var canRdSize := buf.CanRdSize();
      var bodyLen := GetMsgLen();
      if canRdSize < bodyLen { return []; }
      body := buf.data[buf.rd..buf.rd + bodyLen];
    }
  }

  /** The accessors give back what a message was built from. */
  method Unpack(m: Message, f: Frame) returns (code: Word16, len: Word16, body: seq<Byte>)
    requires m.Carries(f)
    ensures code == f.code && len == |f.body| && body == f.body
  {
    EncodeStartsWithFrame(f, []);
    assert m.Bytes() + [] == m.Bytes();
    code := m.GetMsgCode();
    len := m.GetMsgLen();
    body := m.ReadBody();
  }

  /** Building a message, whatever room it was given at first. */
  method Build(f: Frame, room: nat) returns (m: Message)
    requires Sendable(f) && room + HEADER_LEN < UINT32
    ensures m.Carries(f) && fresh(m) && fresh(m.buf)
    ensures m.Bytes() == [f.code % 256, f.code / 256, |f.body| % 256, |f.body| / 256] + f.body
  {
    m := new Message(room);
    m.SetMsgCode(f.code);
    m.SetMsgLen(|f.body|);
    assert m.Bytes() == WordBytes(f.code) + WordBytes(|f.body|);
    SmallMod(|f.body|, UINT32);
    var n := m.WriteBody(f.body);
    assert f.body[..n] == f.body;
    EncodeLayout(f);
    assert m.Bytes() == m.Bytes()[..4] + m.Bytes()[4..];
  }

  method WriteMessage(ring: RingBuffer, m: Message) returns (ok: bool)
    requires ring.Valid() && m.Valid() && m.buf !in ring.Repr
    modifies ring.Repr
    ensures ring.Valid() && fresh(ring.Repr - old(ring.Repr))
    ensures ok && ring.Contents() == old(ring.Contents()) + old(m.Bytes())
  {
    ok := ring.WriteString(m.buf.data[..m.buf.wr]);
  }

  method WriteOne(ring: RingBuffer, f: Frame, room: nat)
    requires ring.Valid() && Sendable(f) && room + HEADER_LEN < UINT32
    modifies ring.Repr
    ensures ring.Valid() && fresh(ring.Repr - old(ring.Repr))
    ensures ring.Contents() == old(ring.Contents()) + Encode(f)
  {
    var m := Build(f, room);
    var _ := WriteMessage(ring, m);
  }

  /** Every message of a list built and written in turn: the queue holds their encodings, one after the other. */
  method WriteAll(ring: RingBuffer, fs: seq<Frame>, room: nat)
    requires ring.Valid() && AllSendable(fs) && room + HEADER_LEN < UINT32
    modifies ring.Repr
    ensures ring.Valid() && fresh(ring.Repr - old(ring.Repr))
    ensures ring.Contents() == old(ring.Contents()) + EncodeAll(fs)
  {
    hide Encode, EncodeAll, RingBuffer.Valid, RingBuffer.Contents;
    ghost var all := ring.Contents() + EncodeAll(fs);
    assert fs[0..] == fs;
    NothingToEncode(fs);
    for i := 0 to |fs|
      invariant ring.Valid() && fresh(ring.Repr - old(ring.Repr))
      invariant ring.Contents() + EncodeAll(fs[i..]) == all
    {
      EncodeNext(fs, i);
      Behind(ring.Contents(), Encode(fs[i]), EncodeAll(fs[i + 1..]));
      WriteOne(ring, fs[i], room);
    }
  }

  lemma NothingToEncode(fs: seq<Frame>)
    ensures EncodeAll(fs[|fs|..]) == []
  {
  }

  lemma EncodeNext(fs: seq<Frame>, i: nat)
    requires AllSendable(fs) && i < |fs|
    ensures Sendable(fs[i]) && AllSendable(fs[i..]) && AllSendable(fs[i + 1..])
    ensures EncodeAll(fs[i..]) == Encode(fs[i]) + EncodeAll(fs[i + 1..])
  {
    assert fs[i..][0] == fs[i] && fs[i..][1..] == fs[i + 1..];
  }
}
