/** The growable byte buffer of adns/general.c:147-216. */
module Vbufs {
  import opened Basics

  class Vbuf {
    var used: nat
    var avail: nat
    var buf: array<Byte>

    ghost predicate Valid()
      reads this
    {
      used <= avail == buf.Length
    }

    ghost function Contents(): seq<Byte>
      requires Valid()
      reads this, buf
    {
      buf[..used]
    }

    constructor ()
      ensures Valid() && fresh(buf) && Contents() == [] && avail == 0
    {
      used, avail := 0, 0;
      buf := new Byte[0];
    }

    /** MyRealloc to `size` bytes, which keeps the bytes in use. */
    method Realloc(size: nat)
      requires Valid() && used <= size
      modifies this
      ensures Valid() && fresh(buf) && avail == size && used == old(used)
      ensures Contents() == old(Contents())
    {
      var nb := new Byte[size];
      forall i | 0 <= i < used {
        nb[i] := buf[i];
      }
      buf, avail := nb, size;
    }

    method Ensure(want: nat)
      requires Valid()
      modifies this
      ensures Valid() && (buf == old(buf) || fresh(buf))
      ensures avail == Max(old(avail), want) && Contents() == old(Contents())
    {
      if avail < want {
        Realloc(want);
      }
    }

    /** Appends without growing: the caller has reserved the room. */
    method AppendQ(data: seq<Byte>)
      requires Valid() && used + |data| <= avail
      modifies this, buf
      ensures Valid() && buf == old(buf) && avail == old(avail)
      ensures Contents() == old(Contents()) + data
    {
      forall i | 0 <= i < |data| {
        buf[used + i] := data[i];
      }
      used := used + |data|;
    }

    /** Appends, at least doubling a buffer that is too small. */
    method Append(data: seq<Byte>)
      requires Valid()
      modifies this, buf
      ensures Valid() && (buf == old(buf) || fresh(buf))
      ensures Contents() == old(Contents()) + data
    {
      var newlen := used + |data|;
      if avail < newlen {
        newlen := 2 * Max(newlen, 20);
        Realloc(newlen);
      }
      AppendQ(data);
    }
  }
}
