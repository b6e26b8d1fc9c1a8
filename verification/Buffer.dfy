/** Byte buffers, their pool, and the list of buffers that serves as a byte queue. */
module Buffers {
  import opened Modular
  import opened Sequences
  import opened Wire

  const MAX_BUFFER_SIZE: nat := 100000
  const POOL_LIMIT: nat := 1000

  /** `data` is the storage of `len_` bytes that each buffer owns, `rd` and `wr` the two offsets into it. */
  class BaseBuffer {
    var data: seq<Byte>
    var rd: nat
    var wr: nat

    ghost predicate Valid()
      reads this
    {
      rd <= wr <= |data| < UINT32
    }

    function Readable(): seq<Byte>
      requires Valid()
      reads this
    {
      data[rd..wr]
    }

    /** Everything written so far, read or not. */
    ghost function Written(): seq<Byte>
      requires Valid()
      reads this
    {
      data[..wr]
    }

    constructor (size: nat)
      requires size < UINT32
      ensures Valid() && |data| == size && rd == wr == 0
    {
      data := seq(size, _ => 0);
      rd, wr := 0, 0;
    }

    method Reset()
      modifies this`rd, this`wr
      ensures rd == wr == 0
    {
      rd, wr := 0, 0;
    }

    predicate Available()
      reads this
    {
      rd < wr
    }

    function CanRdSize(): (n: nat)
      reads this
      ensures Valid() ==> n == |Readable()|
    {
      if rd >= wr then 0 else wr - rd
    }

    function CanWrSize(): nat
      reads this
    {
      if wr >= |data| then 0 else |data| - wr
    }

    method ConsumeRd(size: nat)
      requires Valid() && size <= CanRdSize()
      modifies this`rd
      ensures Valid() && Readable() == old(Readable())[size..]
    {
      rd := rd + size;
    }

    method ConsumeWr(size: nat)
      requires Valid() && size <= CanWrSize()
      modifies this`wr
      ensures Valid() && wr == old(wr) + size
    {
      wr := wr + size;
    }

    /** Copies as much as fits behind the bytes written so far. */
    method AppendData(src: seq<Byte>) returns (n: nat)
      requires Valid()
      modifies this`data, this`wr
      ensures Valid() && n == if |src| <= old(CanWrSize()) then |src| else old(CanWrSize())
      ensures |data| == old(|data|) && wr == old(wr) + n && Written() == old(Written()) + src[..n]
      ensures Readable() == old(Readable()) + src[..n]
    {
      if src == [] { return 0; }
      n := if |src| <= CanWrSize() then |src| else CanWrSize();
      if n > 0 {
        data := data[..wr] + src[..n] + data[wr + n..];
        wr := wr + n;
      }
    }

    method SetData(src: seq<Byte>, pos: nat)
      requires Valid() && pos + |src| <= |data|
      modifies this`data
      ensures Valid() && data == old(data)[..pos] + src + old(data)[pos + |src|..]
    {
      if src == [] { return; }
      data := data[..pos] + src + data[pos + |src|..];
    }

    /** The bytes asked for, or none when they reach past the storage. */
    method GetData(len: nat, pos: nat) returns (bytes: seq<Byte>)
      requires Valid()
      ensures bytes == if pos + len <= |data| then data[pos..pos + len] else []
    {
      if |data| < pos || |data| < pos + len { return []; }
      bytes := data[pos..pos + len];
    }
  }

  /** Buffers with room for at least a byte, no two of them the same. */
  ghost predicate Separate(bs: seq<BaseBuffer>)
    reads bs
  {
    && (forall b | b in bs :: b.Valid() && |b.data| > 0)
    && forall i, j | 0 <= i < j < |bs| :: bs[i] != bs[j]
  }

  lemma RestIsSeparate(bs: seq<BaseBuffer>)
    requires Separate(bs) && bs != []
    ensures Separate(bs[1..]) && bs[0] !in bs[1..]
  {
  }

  lemma SnocIsSeparate(bs: seq<BaseBuffer>, b: BaseBuffer)
    requires Separate(bs) && b.Valid() && |b.data| > 0 && b !in bs
    ensures Separate(bs + [b])
  {
  }

  lemma AllValid(bs: seq<BaseBuffer>)
    requires Separate(bs)
    ensures forall b | b in bs :: b.Valid()
  {
  }

  ghost function Flatten(bs: seq<BaseBuffer>): seq<Byte>
    requires forall b | b in bs :: b.Valid()
    reads bs
  {
    if bs == [] then [] else bs[0].Readable() + Flatten(bs[1..])
  }

  lemma {:induction false} FlattenSnoc(bs: seq<BaseBuffer>, b: BaseBuffer)
    requires b.Valid() && forall x | x in bs :: x.Valid()
    ensures Flatten(bs + [b]) == Flatten(bs) + b.Readable()
    decreases |bs|
  {
    if bs == [] {
      assert [b][1..] == [];
    } else {
      assert (bs + [b])[1..] == bs[1..] + [b];
      FlattenSnoc(bs[1..], b);
    }
  }

  /** 64-bit addition wraps once or every time, and its low 32 bits do not notice. */
  lemma SumWraps(a: nat, b: nat)
    ensures (a % UINT64 + b) % UINT64 == (a + b) % UINT64 && (a % UINT64) % UINT32 == a % UINT32
  {
    AddMod(a, b, UINT64);
    ModMod(a, UINT32, UINT32);
  }

  lemma TakeFromFirst(first: seq<Byte>, rest: seq<Byte>, n: nat)
    requires n <= |first|
    ensures (first + rest)[..n] == first[..n] && (first + rest)[n..] == first[n..] + rest
  {
  }

  /** A piece taken off what follows position `n` moves the position on. */
  lemma TakeMore(all: seq<Byte>, n: nat, more: nat)
    requires n + more <= |all|
    ensures all[..n] + all[n..][..more] == all[..n + more] && all[n..][more..] == all[n + more..]
  {
  }

  class BufferPool {
    var free: seq<BaseBuffer>

    constructor ()
      ensures free == []
    {
      free := [];
    }

    method GetBuffer() returns (b: BaseBuffer)
      requires Separate(free)
      modifies this, if free == [] then {} else {free[0]}
      ensures b.Valid() && b.rd == b.wr == 0 && |b.data| > 0
      ensures if old(free) == [] then fresh(b) && |b.data| == 100000 && free == [] else b == old(free)[0] && free == old(free)[1..]
    {
      if free == [] {
        b := new BaseBuffer(MAX_BUFFER_SIZE);
      } else {
        b := free[0];
        free := free[1..];
        b.Reset();
      }
    }

    method PutBuffer(b: BaseBuffer?)
      requires |free| <= POOL_LIMIT
      modifies this
      ensures |free| <= POOL_LIMIT
      ensures free == if b != null && |old(free)| < 1000 then old(free) + [b] else old(free)
    {
      if b == null { return; }
      if |free| >= POOL_LIMIT { return; }
      free := free + [b];
    }
  }

  /** The live buffers and the free ones belong to the queue, and no buffer is both. */
  ghost predicate Apart(repr: set<object>, live: seq<BaseBuffer>, free: seq<BaseBuffer>) {
    (forall b | b in live :: b in repr) && forall b | b in free :: b in repr && b !in live
  }

  lemma RecycledStaysApart(repr: set<object>, live: seq<BaseBuffer>, free: seq<BaseBuffer>)
    requires Apart(repr, live, free) && live != [] && live[0] !in live[1..]
    ensures Apart(repr, live[1..], free) && Apart(repr, live[1..], free + [live[0]])
  {
  }

  lemma TakenStaysApart(repr: set<object>, live: seq<BaseBuffer>, free: seq<BaseBuffer>)
    requires Apart(repr, live, free) && free != [] && free[0] !in free[1..]
    ensures free[0] in repr && free[0] !in live && Apart(repr - {free[0]}, live, free[1..])
  {
  }

  lemma TakenIsOut(repr: set<object>, live: seq<BaseBuffer>, free: seq<BaseBuffer>)
    requires free != [] && Apart(repr - {free[0]}, live, free[1..])
    ensures free[0] !in live && free[0] !in free[1..]
  {
  }

  lemma NewStaysApart(repr: set<object>, live: seq<BaseBuffer>, free: seq<BaseBuffer>, b: BaseBuffer)
    requires Apart(repr, live, free) && b !in repr
    ensures b !in live && b !in free && repr - {b} == repr
  {
  }

  class RingBuffer {
    var buffers: seq<BaseBuffer>
    const pool: BufferPool
    // Every object the byte queue lives in.
    ghost var Repr: set<object>

    /** No buffer is twice in the live list, twice in the pool, or in both, and the pool stays within its limit. */
    ghost predicate Valid()
      reads this, Repr
    {
      && this in Repr && pool in Repr
      && Apart(Repr, buffers, pool.free)
      && Separate(buffers) && Separate(pool.free)
      && |pool.free| <= POOL_LIMIT
    }

    /** The byte sequence the buffers stand for. */
    ghost function Contents(): seq<Byte>
      requires Valid()
      reads this, Repr
    {
      Flatten(buffers)
    }

    constructor ()
      ensures Valid() && Contents() == [] && fresh(Repr)
    {
      buffers := [];
      pool := new BufferPool();
      new;
      Repr := {this, pool};
    }

    method PushBack(b: BaseBuffer)
      requires Valid() && b.Valid() && |b.data| > 0 && b !in buffers && b !in pool.free
      modifies this`buffers, this`Repr
      ensures Valid() && buffers == old(buffers) + [b] && Contents() == old(Contents()) + b.Readable()
      ensures Repr == old(Repr) + {b}
    {
      FlattenSnoc(buffers, b);
      buffers := buffers + [b];
      Repr := Repr + {b};
    }

    /** A buffer filled by the caller joins the end, unless there is nothing to read in it. */
    method EmplaceBack(b: BaseBuffer?)
      requires Valid()
      requires b != null ==> b.Valid() && b !in Repr
      modifies this`buffers, this`Repr
      ensures Valid() && Contents() == old(Contents()) + if b == null then [] else b.Readable()
      ensures Repr == old(Repr) + if b == null || !b.Available() then {} else {b}
    {
      if b == null || !b.Available() { return; }
      PushBack(b);
    }

    /** The total of the readable sizes, added up in 64 bits and returned in 32. */
    method CanReadSize() returns (n: nat)
      requires Valid()
      ensures n == |Contents()| % UINT32
    {
      var size := 0;
      for i := 0 to |buffers|
        invariant size == |Flatten(buffers[..i])| % UINT64
      {
        ghost var total := |Flatten(buffers[..i])|;
        FlattenSnoc(buffers[..i], buffers[i]);
        assert buffers[..i] + [buffers[i]] == buffers[..i+1];
        SumWraps(total, buffers[i].CanRdSize());
        size := (size + buffers[i].CanRdSize()) % UINT64;
      }
      assert buffers[..|buffers|] == buffers;
      SumWraps(|Flatten(buffers)|, 0);
      n := size % UINT32;
    }

    /** What recycling the front buffer rests on. */
    lemma FrontIsSpent()
      requires Valid() && buffers != [] && !buffers[0].Available()
      ensures var rest := buffers[1..];
        && buffers[0] in Repr && Separate(rest) && Separate(pool.free + [buffers[0]])
        && Apart(Repr, rest, pool.free) && Apart(Repr, rest, pool.free + [buffers[0]])
      ensures (forall b | b in buffers[1..] :: b.Valid()) && Flatten(buffers) == Flatten(buffers[1..])
    {
      var b := buffers[0];
      assert b.Valid() && b.Readable() == [];
      assert Flatten(buffers) == [] + Flatten(buffers[1..]);
      hide Flatten;
      RestIsSeparate(buffers);
      SnocIsSeparate(pool.free, b);
      RecycledStaysApart(Repr, buffers, pool.free);
    }

    /** The front buffer, read to its end, goes back to the pool. */
    method RecycleFront()
      requires Valid() && buffers != [] && !buffers[0].Available()
      modifies this`buffers, pool
      ensures Valid() && Contents() == old(Contents()) && buffers == old(buffers)[1..]
      ensures pool.free == if |old(pool.free)| < 1000 then old(pool.free) + [old(buffers)[0]] else old(pool.free)
    {
      FrontIsSpent();
      hide Flatten, Separate, Apart;
      pool.PutBuffer(buffers[0]);
      buffers := buffers[1..];
      AllValid(buffers);
    }

    /** Takes `n` bytes that the front buffer can give. */
    method ConsumeFront(n: nat) returns (chunk: seq<Byte>)
      requires Valid() && buffers != [] && n <= buffers[0].CanRdSize()
      modifies buffers[0]
      ensures Valid() && n <= |old(Contents())|
      ensures chunk == old(Contents())[..n] && Contents() == old(Contents())[n..]
    {
      var b := buffers[0];
      ghost var others := buffers[1..];
      ghost var first, rest := b.Readable(), Flatten(others);
      assert forall i | 0 <= i < |others| :: others[i] == buffers[i + 1] && others[i] != b;
      TakeFromFirst(first, rest, n);
      chunk := b.data[b.rd..b.rd + n];
      assert chunk == first[..n];
      buffers[0].ConsumeRd(n);
      assert Flatten(others) == rest;
      assert b.Readable() == first[n..];
    }

    /** One round of the read loops: an exhausted front buffer is recycled, or some bytes are taken from it. */
    method ReadSome(limit: nat) returns (chunk: seq<Byte>)
      requires Valid() && buffers != [] && limit > 0
      modifies Repr
      ensures Valid() && Repr == old(Repr)
      ensures |chunk| <= limit && |chunk| <= |old(Contents())|
      ensures chunk == old(Contents())[..|chunk|] && Contents() == old(Contents())[|chunk|..]
      ensures |buffers| <= |old(buffers)| && (chunk == [] ==> |buffers| < |old(buffers)|)
    {
      chunk := [];
      var buf := buffers[0];
      if !buf.Available() {
        RecycleFront();
      } else {
        var willRead := if buf.CanRdSize() <= limit then buf.CanRdSize() else limit;
        chunk := ConsumeFront(willRead);
      }
    }

    /** Reads exactly `size` bytes off the front, or nothing when the size check refuses. */
    method Read(size: nat) returns (n: nat, bytes: seq<Byte>)
      requires Valid() && size < UINT32
      modifies Repr
      ensures Valid() && Repr == old(Repr)
      ensures n == (if |old(Contents())| % UINT32 < size then 0 else size) && n <= |old(Contents())|
      ensures bytes == old(Contents())[..n] && Contents() == old(Contents())[n..]
    {
      hide Valid, Contents;
      n, bytes := 0, [];
      var remain := CanReadSize();
      if remain < size { return; }
      ghost var all := Contents();
      while n < size
        invariant Valid() && Repr == old(Repr) && n <= size <= |all|
        invariant Contents() == all[n..] && bytes == all[..n]
        decreases size - n, |buffers|
      {
        if buffers == [] {
          NoBuffers();
          break;
        }
        var chunk := ReadSome(size - n);
        TakeMore(all, n, |chunk|);
        bytes := bytes + chunk;
        n := n + |chunk|;
      }
    }

    /** One round of the loop that reads into a buffer. */
    method MoveSome(toBuf: BaseBuffer, limit: nat) returns (n: nat)
      requires Valid() && buffers != [] && limit > 0
      requires toBuf.Valid() && toBuf !in Repr && limit <= toBuf.CanWrSize()
      modifies Repr, toBuf`data, toBuf`wr
      ensures Valid() && Repr == old(Repr) && toBuf.Valid()
      ensures n <= limit && n <= |old(Contents())| && Contents() == old(Contents())[n..]
      ensures |toBuf.data| == old(|toBuf.data|) && toBuf.wr == old(toBuf.wr) + n
      ensures toBuf.Written() == old(toBuf.Written()) + old(Contents())[..n]
      ensures |buffers| <= |old(buffers)| && (n == 0 ==> |buffers| < |old(buffers)|)
    {
      hide Valid, Contents;
      var chunk := ReadSome(limit);
      n := toBuf.AppendData(chunk);
      assert chunk[..n] == chunk;
    }

    /** The same, written behind what `toBuf` holds already, where there has to be room for it. */
    method ReadTo(toBuf: BaseBuffer, size: nat) returns (n: nat)
      requires Valid() && size < UINT32
      requires toBuf.Valid() && toBuf !in Repr && size <= toBuf.CanWrSize()
      modifies Repr, toBuf`data, toBuf`wr
      ensures Valid() && Repr == old(Repr) && toBuf.Valid()
      ensures n == (if |old(Contents())| % UINT32 < size then 0 else size) && n <= |old(Contents())|
      ensures Contents() == old(Contents())[n..]
      ensures |toBuf.data| == old(|toBuf.data|) && toBuf.wr == old(toBuf.wr) + n
      ensures toBuf.Written() == old(toBuf.Written()) + old(Contents())[..n]
    {
      hide Valid, Contents;
      n := 0;
      var remain := CanReadSize();
      if remain < size { return; }
      ghost var all, was := Contents(), toBuf.Written();
      while n < size
        invariant Valid() && Repr == old(Repr) && n <= size <= |all|
        invariant toBuf.Valid() && |toBuf.data| == old(|toBuf.data|) && toBuf.wr == old(toBuf.wr) + n
        invariant Contents() == all[n..] && toBuf.Written() == was + all[..n]
        decreases size - n, |buffers|
      {
        if buffers == [] {
          NoBuffers();
          break;
        }
        var more := MoveSome(toBuf, size - n);
        TakeMore(all, n, more);
        Behind(was, all[..n], all[n..][..more]);
        n := n + more;
      }
    }

    lemma NoBuffers()
      requires Valid() && buffers == []
      ensures Contents() == []
    {
    }

    lemma LastIsIn()
      requires Valid() && buffers != []
      ensures buffers[|buffers| - 1] in Repr
    {
    }

    /** An empty buffer with room, taken from the pool or new, that is no longer part of the queue. */
    method AllocBuff() returns (b: BaseBuffer)
      requires Valid()
      modifies Repr
      ensures Valid() && Contents() == old(Contents()) && buffers == old(buffers) && Repr <= old(Repr)
      ensures b !in Repr && b !in buffers && b !in pool.free && (fresh(b) || b in old(Repr))
      ensures b.Valid() && b.rd == b.wr == 0 && |b.data| > 0
    {
      ghost var repr, free := Repr, pool.free;
      if free != [] {
        RestIsSeparate(free);
        TakenStaysApart(repr, buffers, free);
      }
      AllValid(buffers);
      hide Flatten, Separate, Apart;
      b := pool.GetBuffer();
      if free == [] { NewStaysApart(repr, buffers, free, b); }
      Repr := Repr - {b};
      AllValid(buffers);
      if free != [] { TakenIsOut(repr, buffers, free); }
    }

    method WriteData(bytes: seq<Byte>) returns (ok: bool)
      requires Valid() && |bytes| < UINT32
      modifies Repr
      ensures Valid() && fresh(Repr - old(Repr))
      ensures ok == (bytes != []) && Contents() == old(Contents()) + bytes
    {
      if bytes == [] { return false; }
      Append(bytes);
      ok := true;
    }

    /** The size of a string is cut to 32 bits: what is beyond is not written. */
    method WriteString(str: seq<Byte>) returns (ok: bool)
      requires Valid()
      modifies Repr
      ensures Valid() && fresh(Repr - old(Repr))
      ensures ok == (|str| % UINT32 != 0) && Contents() == old(Contents()) + str[..|str| % UINT32]
    {
      if str == [] { return false; }
      var size := |str| % UINT32;
      Append(str[..size]);
      ok := size != 0;
    }

    /** The loop of both: appends to the last buffer while it has room, and to further buffers as they fill up. */
    method Append(bytes: seq<Byte>)
      requires Valid()
      modifies Repr
      ensures Valid() && fresh(Repr - old(Repr)) && Contents() == old(Contents()) + bytes
    {
      hide Valid, Contents;
      var writed := 0;
      ghost var all := Contents();
      while writed < |bytes|
        invariant Valid() && fresh(Repr - old(Repr)) && writed <= |bytes|
        invariant Contents() == all + bytes[..writed]
      {
        var n: nat;
        if buffers == [] || buffers[|buffers|-1].CanWrSize() == 0 {
          n := AppendNew(bytes[writed..]);
        } else {
          LastIsIn();
          n := AppendLast(bytes[writed..]);
        }
        TakeMore(bytes, writed, n);
        Behind(all, bytes[..writed], bytes[writed..][..n]);
        writed := writed + n;
      }
    }

    method AppendNew(bytes: seq<Byte>) returns (n: nat)
      requires Valid() && bytes != []
      modifies Repr
      ensures Valid() && fresh(Repr - old(Repr))
      ensures 0 < n <= |bytes| && Contents() == old(Contents()) + bytes[..n]
    {
      assert this in Repr;
      hide Valid, Contents;
      var b := AllocBuff();
      ghost var before := Contents();
      n := b.AppendData(bytes);
      assert b.Readable() == bytes[..n] && Contents() == before;
      PushBack(b);
    }

    method AppendLast(bytes: seq<Byte>) returns (n: nat)
      requires Valid() && buffers != [] && buffers[|buffers|-1].CanWrSize() > 0 && bytes != []
      modifies buffers[|buffers|-1]
      ensures Valid() && 0 < n <= |bytes| && Contents() == old(Contents()) + bytes[..n]
    {
      var front, last := buffers[..|buffers|-1], buffers[|buffers|-1];
      ghost var before, tail := Flatten(front), last.Readable();
      assert buffers == front + [last];
      assert last !in front;
      FlattenSnoc(front, last);
      n := last.AppendData(bytes);
      FlattenSnoc(front, last);
      Behind(before, tail, bytes[..n]);
    }
  }
}
