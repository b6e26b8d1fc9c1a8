/** One round of the session's parse loop, on values: what the session's code does and what the machine of the two
    threads steps through. */
module Parsers {
  import opened Modular
  import opened Wire
  import opened Wrappers

  datatype Round = Round(frame: Option<Frame>, parser: Parser)

  /** The header saved, if any, and the bytes in the receive buffer. */
  datatype Parser = Parser(header: seq<Byte>, buffered: seq<Byte>) {

    predicate Valid() { header == [] || |header| == HEADER_LEN }

    /** The bytes not yet part of a message. */
    function Pending(): seq<Byte> { header + buffered }

    /** The header is saved as soon as the 32-bit size of the buffer lets it through. */
    function ReadHead(): Parser {
      if header == [] && |buffered| % UINT32 >= HEADER_LEN
      then Parser(buffered[..HEADER_LEN], buffered[HEADER_LEN..]) else this
    }

    /** The body behind the saved header becomes a message as soon as the size check lets it through. */
    function ReadBody(): Round {
      if |header| == HEADER_LEN && |buffered| % UINT32 >= LengthField(header) then
        var len := LengthField(header);
        Round(Some(Frame(CodeField(header), buffered[..len])), Parser([], buffered[len..]))
      else Round(None, this)
    }

    function ParseRound(): Round { ReadHead().ReadBody() }
  }

  lemma ReadHeadKeeps(p: Parser)
    requires p.Valid()
    ensures var r := p.ReadHead();
      r.Valid() && r.Pending() == p.Pending() && (|r.buffered| < UINT32 <==> |p.buffered| < UINT32)
  {
    if |p.buffered| % UINT32 >= HEADER_LEN { TakeOff(|p.buffered|, HEADER_LEN, UINT32); }
  }

  lemma ReadBodyKeeps(p: Parser)
    requires p.Valid()
    ensures var r, pending := p.ReadBody(), p.Pending();
      && r.parser.Valid() && (|r.parser.buffered| < UINT32 <==> |p.buffered| < UINT32)
      && (r.frame.Some? ==>
            StartsWithFrame(pending) && r.frame.value == FirstFrame(pending)
            && r.parser.Pending() == AfterFirstFrame(pending))
      && (r.frame.None? ==> r.parser == p)
  {
    if p.ReadBody().frame.Some? {
      TakeOff(|p.buffered|, LengthField(p.header), UINT32);
      FrontOfPending(p.header, p.buffered);
    }
  }

  /** A round takes the first message off the pending bytes, or leaves these as they are. It stops in front of a whole
      message exactly when 2^32 bytes or more are buffered; below, a header is saved exactly if its bytes are there. */
  lemma RoundTakesFirstFrame(p: Parser)
    requires p.Valid()
    ensures var r, pending := p.ParseRound(), p.Pending();
      && r.parser.Valid() && (|r.parser.buffered| < UINT32 <==> |p.buffered| < UINT32)
      && match r.frame
         case Some(f) =>
           StartsWithFrame(pending) && f == FirstFrame(pending) && r.parser.Pending() == AfterFirstFrame(pending)
         case None =>
           && r.parser.Pending() == pending && (StartsWithFrame(pending) <==> |r.parser.buffered| >= UINT32)
           && (|r.parser.buffered| < UINT32 ==> (r.parser.header != [] <==> |pending| >= HEADER_LEN))
  {
    var h := p.ReadHead();
    ReadHeadKeeps(p);
    ReadBodyKeeps(h);
    if h.ReadBody().frame.None? { StopsBeforeFrame(h.header, h.buffered); }
  }
}
