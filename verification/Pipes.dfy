/** pipe.c's ring buffer as it is changed in place: the copying loops of pipewrite and piperead. */
module Pipes {
  import opened Blocks
  import opened PipeModel

  class Pipe {
    const data: array<Byte>
    var nread: Word
    var nwrite: Word
    ghost var written: seq<Byte>
    ghost var read: seq<Byte>

    /** pipealloc */
    constructor ()
      ensures fresh(data) && Valid() && written == read == []
    {
      data := new Byte[PIPESIZE](_ => 0);
      nread, nwrite, written, read := 0, 0, [], [];
    }

    ghost function Value(): Ring
      reads this, data
    {
      Ring(data[..], nread, nwrite, written, read)
    }

    ghost predicate Valid()
      reads this, data
    {
      data.Length == PIPESIZE && RingOk(Value())
    }

    /** pipewrite's loop, from byte i of addr until the pipe is full or all is written. */
    method WriteSome(addr: seq<Byte>, from: nat) returns (i: nat)
      requires Valid() && from <= |addr|
      modifies this`nwrite, this`written, data
      ensures Valid() && from <= i <= |addr| && written == old(written) + addr[from..i]
      ensures i == from + Min(|addr| - from, Room(old(Value())))
    {
      hide RingOk;
      i := from;
      ghost var r := Value();
      ReadPrefix(r);
      RoomLeft(r);
      while i < |addr| && nwrite != (nread + PIPESIZE) % TWO32
        invariant Valid() && from <= i <= |addr| && written == r.written + addr[from..i] && read == r.read && nread == r.nread
        invariant |written| - |read| <= PIPESIZE
      {
        ghost var r1 := Value();
        Counters(r1);
        RoomLeft(r1);
        PutOk(r1, addr[i]);
        data[nwrite % PIPESIZE] := addr[i];
        nwrite := (nwrite + 1) % TWO32;
        written := written + [addr[i]];
        i := i + 1;
        assert addr[from..i] == addr[from..i - 1] + [addr[i - 1]];
        assert Value() == Put(r1, addr[i - 1]);
      }
      Counters(Value());
    }

    /** piperead's loop: at most n bytes, in the order they were written. */
    method ReadSome(n: nat) returns (addr: seq<Byte>)
      requires Valid()
      modifies this`nread, this`read
      ensures Valid() && read == old(read) + addr
      ensures |addr| == Min(n, |written| - |old(read)|) && addr == written[|old(read)|..|old(read)| + |addr|]
    {
      hide RingOk;
      addr := [];
      ghost var r := Value();
      ReadPrefix(r);
      while |addr| < n && nread != nwrite
        invariant Valid() && |addr| <= n && read == r.read + addr && |read| <= |written|
      {
        ghost var r1 := Value();
        Counters(r1);
        ReadPrefix(r1);
        TakeOk(r1);
        addr := addr + [data[nread % PIPESIZE]];
        read := read + [data[nread % PIPESIZE]];
        nread := (nread + 1) % TWO32;
        assert Value() == Take(r1);
        ReadPrefix(Value());
      }
      Counters(Value());
      ReadPrefix(Value());
      assert read[|r.read|..] == addr;
    }
  }

  lemma RoomLeft(r: Ring)
    requires RingOk(r)
    ensures |r.written| - |r.read| <= PIPESIZE
  {
  }
}
