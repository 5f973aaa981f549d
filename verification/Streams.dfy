/** TCP reception: datagrams behind two-byte lengths (RFC 1035 section 4.2.2), cut into reads in any way
    (adns/event.c:440-508). */
module Streams {
  import opened Basics
  import opened Vbufs

  // ---------- Frames ----------

  /** The length that the stream announces next. */
  predicate HasFrame(s: seq<Byte>) { |s| >= 2 && |s| >= 2 + GetW(s, 0) }

  /** The complete datagrams of a stream. */
  function Frames(s: seq<Byte>): seq<seq<Byte>>
    decreases |s|
  {
    if HasFrame(s) then [s[2..2 + GetW(s, 0)]] + Frames(s[2 + GetW(s, 0)..]) else []
  }

  /** What is left of the stream behind them. */
  function Leftover(s: seq<Byte>): (r: seq<Byte>)
    ensures !HasFrame(r)
    decreases |s|
  {
    if HasFrame(s) then Leftover(s[2 + GetW(s, 0)..]) else s
  }

  function Framed(d: seq<Byte>): seq<Byte> { PutW(|d|) + d }

  function AllFramed(ds: seq<seq<Byte>>): seq<Byte> { if ds == [] then [] else Framed(ds[0]) + AllFramed(ds[1..]) }

  /** Bytes that arrive later only complete what is left over. */
  lemma {:induction false} FramesAppend(a: seq<Byte>, b: seq<Byte>)
    ensures Frames(a + b) == Frames(a) + Frames(Leftover(a) + b) && Leftover(a + b) == Leftover(Leftover(a) + b)
    decreases |a|
  {
    if HasFrame(a) {
      var n := 2 + GetW(a, 0);
      assert GetW(a + b, 0) == GetW(a, 0);
      assert (a + b)[n..] == a[n..] + b && (a + b)[2..n] == a[2..n];
      FramesAppend(a[n..], b);
    }
  }

  lemma FrameFirst(d: seq<Byte>, rest: seq<Byte>)
    requires |d| < 0x1_0000
    ensures Frames(Framed(d) + rest) == [d] + Frames(rest) && Leftover(Framed(d) + rest) == Leftover(rest)
  {
    var s := Framed(d) + rest;
    assert s[0] == |d| / 256 && s[1] == |d| % 256;
    assert GetW(s, 0) == |d|;
    assert s[2..2 + |d|] == d;
    assert s[2 + |d|..] == rest;
  }

  /** A stream of framed datagrams, cut off anywhere in the next frame, is read back as those datagrams. */
  lemma {:induction false} FramesRoundTrip(ds: seq<seq<Byte>>, tail: seq<Byte>)
    requires (forall i :: 0 <= i < |ds| ==> |ds[i]| < 0x1_0000) && !HasFrame(tail)
    ensures Frames(AllFramed(ds) + tail) == ds && Leftover(AllFramed(ds) + tail) == tail
    decreases |ds|
  {
    if ds == [] {
      NoFrames(tail);
      assert AllFramed(ds) + tail == tail;
    } else {
      hide Frames;
      hide Leftover;
      hide Framed;
      hide HasFrame;
      var rest := AllFramed(ds[1..]) + tail;
      assert AllFramed(ds) + tail == Framed(ds[0]) + rest;
      FrameFirst(ds[0], rest);
      FramesRoundTrip(ds[1..], tail);
      assert ds == [ds[0]] + ds[1..];
    }
  }

  /** Everything that chunks read one by one have delivered, and what they have left. */
  function Fed(left: seq<Byte>, chunks: seq<seq<Byte>>): (seq<seq<Byte>>, seq<Byte>)
    decreases |chunks|
  {
    if chunks == [] then ([], left)
    else
      var s := left + chunks[0];
      var (more, end) := Fed(Leftover(s), chunks[1..]);
      (Frames(s) + more, end)
  }

  function Flat(chunks: seq<seq<Byte>>): seq<Byte> { if chunks == [] then [] else chunks[0] + Flat(chunks[1..]) }

  /** The way a stream is cut into chunks makes no difference. */
  lemma {:induction false} CutsDoNotMatter(left: seq<Byte>, chunks: seq<seq<Byte>>)
    requires !HasFrame(left)
    ensures Fed(left, chunks) == (Frames(left + Flat(chunks)), Leftover(left + Flat(chunks)))
    decreases |chunks|
  {
    hide Frames;
    hide Leftover;
    hide HasFrame;
    if chunks == [] {
      NoFrames(left);
      assert left + [] == left;
    } else {
      var s, rest := left + chunks[0], Flat(chunks[1..]);
      FlatStep(left, chunks);
      FedStep(left, chunks);
      hide Fed;
      hide Flat;
      CutsDoNotMatter(Leftover(s), chunks[1..]);
      FramesAppend(s, rest);
    }
  }

  lemma FlatStep(left: seq<Byte>, chunks: seq<seq<Byte>>)
    requires chunks != []
    ensures left + Flat(chunks) == (left + chunks[0]) + Flat(chunks[1..])
  {
  }

  lemma FedStep(left: seq<Byte>, chunks: seq<seq<Byte>>)
    requires chunks != []
    ensures var s := left + chunks[0];
            Fed(left, chunks) == (Frames(s) + Fed(Leftover(s), chunks[1..]).0, Fed(Leftover(s), chunks[1..]).1)
  {
  }

  lemma NoFrames(s: seq<Byte>)
    requires !HasFrame(s)
    ensures Frames(s) == [] && Leftover(s) == s
  {
  }

  // ---------- The socket ----------

  /** What read finds: bytes, or a reason for there being none. */
  datatype Arrival = Bytes(data: seq<Byte>) | WouldBlock | Interrupted | NoResources | Dead

  class Socket {
    var arrivals: seq<Arrival>

    constructor (arrivals: seq<Arrival>)
      ensures this.arrivals == arrivals
    {
      this.arrivals := arrivals;
    }

    /** read: at most `room` bytes of those that have arrived, in order. */
    method Read(room: nat) returns (r: Arrival)
      requires room > 0
      modifies this
      ensures r.Bytes? ==> 0 < |r.data| <= room
      ensures Incoming(old(arrivals)) == (if r.Bytes? then r.data else []) + Incoming(arrivals)
      ensures !r.WouldBlock? ==> Effort(arrivals) < Effort(old(arrivals))
    {
      while arrivals != [] && arrivals[0] == Bytes([])
        invariant Incoming(arrivals) == Incoming(old(arrivals)) && Effort(arrivals) <= Effort(old(arrivals))
        decreases |arrivals|
      {
        arrivals := arrivals[1..];
      }
      if arrivals == [] {
        return WouldBlock;
      }
      r := arrivals[0];
      if r.Bytes? && |r.data| > room {
        ghost var all, more := r.data, arrivals[1..];
        arrivals := [Bytes(r.data[room..])] + arrivals[1..];
        r := Bytes(r.data[..room]);
        assert arrivals[1..] == more && all == r.data + all[room..];
        assert r.data + (all[room..] + Incoming(more)) == all + Incoming(more);
      } else {
        arrivals := arrivals[1..];
      }
    }
  }

  /** All the bytes that will ever arrive. */
  ghost function Incoming(arrivals: seq<Arrival>): seq<Byte>
  {
    if arrivals == [] then []
    else (if arrivals[0].Bytes? then arrivals[0].data else []) + Incoming(arrivals[1..])
  }

  ghost function Effort(arrivals: seq<Arrival>): nat
  {
    if arrivals == [] then 0
    else (if arrivals[0].Bytes? then |arrivals[0].data| else 0) + 1 + Effort(arrivals[1..])
  }

  // ---------- Reception ----------

  datatype Ended = Drained | OutOfResources | ConnectionBroken

  class Receiver {
    var tcprecv: Vbuf
    var skip: nat                    // tcprecv_skip
    var delivered: seq<seq<Byte>>    // what adns__procdgram has been called with
    ghost var received: seq<Byte>    // what has been read

    /** Between calls nothing is skipped, everything complete has been delivered, and the rest is kept. */
    ghost predicate Valid()
      reads this, tcprecv
      reads tcprecv.buf
    {
      tcprecv.Valid() && skip == 0 && delivered == Frames(received) && tcprecv.Contents() == Leftover(received)
    }

    /** The same in the middle of the loop: the bytes behind `skip` are still to be looked at. */
    ghost predicate Receiving()
      reads this, tcprecv
      reads tcprecv.buf
    {
      tcprecv.Valid() && skip <= tcprecv.used &&
      delivered + Frames(tcprecv.buf[skip..tcprecv.used]) == Frames(received) &&
      Leftover(tcprecv.buf[skip..tcprecv.used]) == Leftover(received)
    }

    constructor ()
      ensures Valid() && received == [] && fresh(tcprecv) && fresh(tcprecv.buf)
    {
      tcprecv := new Vbuf();
      skip, delivered, received := 0, [], [];
    }

    /** Hands over the datagram at `skip`. */
    method HandOver(dgramlen: nat)
      requires Receiving() && HasFrame(tcprecv.buf[skip..tcprecv.used])
      requires dgramlen == GetW(tcprecv.buf[skip..tcprecv.used], 0)
      modifies this
      ensures Receiving() && tcprecv == old(tcprecv) && received == old(received) && skip > old(skip)
    {
      ghost var s := tcprecv.buf[skip..tcprecv.used];
      var oldSkip := skip;
      skip := skip + 2 + dgramlen;
      delivered := delivered + [tcprecv.buf[oldSkip + 2..oldSkip + 2 + dgramlen]];
      assert s[2..2 + dgramlen] == tcprecv.buf[oldSkip + 2..oldSkip + 2 + dgramlen];
      assert s[2 + dgramlen..] == tcprecv.buf[skip..tcprecv.used];
      assert delivered + Frames(s[2 + dgramlen..]) == old(delivered) + Frames(s);
    }

    /** Moves the bytes behind `skip` to the front, and makes room for `want`. */
    method Compact(want: nat)
      requires Receiving() && !HasFrame(tcprecv.buf[skip..tcprecv.used]) && want > tcprecv.used - skip
      modifies this, tcprecv, tcprecv.buf
      ensures Valid() && Receiving()
      ensures tcprecv == old(tcprecv) && received == old(received) && delivered == old(delivered)
      ensures tcprecv.buf == old(tcprecv.buf) || fresh(tcprecv.buf)
      ensures tcprecv.used < tcprecv.avail
    {
      ghost var s := tcprecv.buf[skip..tcprecv.used];
      var used := tcprecv.used - skip;
      tcprecv.used := used;
      forall i | 0 <= i < used {  // memmove
        tcprecv.buf[i] := tcprecv.buf[skip + i];
      }
      assert tcprecv.buf[..used] == s;
      skip := 0;
      tcprecv.Ensure(want);
      assert tcprecv.buf[0..used] == tcprecv.Contents() == s;
    }

    // adns_processreadable for the TCP socket.
    method ProcessReadable(socket: Socket) returns (r: Ended)
      requires Valid()
      modifies this, tcprecv, tcprecv.buf, socket
      ensures tcprecv == old(tcprecv) && (tcprecv.buf == old(tcprecv.buf) || fresh(tcprecv.buf))
      ensures r.ConnectionBroken? || Valid()
      ensures skip == 0 && delivered == Frames(received) && (r.ConnectionBroken? ==> tcprecv.used == 0)
      ensures received + Incoming(socket.arrivals) == old(received) + Incoming(old(socket.arrivals))
    {
      assert tcprecv.buf[skip..tcprecv.used] == tcprecv.Contents() && [] + Frames(received) == Frames(received);
      NoFrames(Leftover(received));
      assert delivered + [] == delivered;
      hide Frames;
      hide Leftover;
      hide Incoming;
      hide Effort;
      while true
        invariant Receiving() && tcprecv == old(tcprecv) && (tcprecv.buf == old(tcprecv.buf) || fresh(tcprecv.buf))
        invariant received + Incoming(socket.arrivals) == old(received) + Incoming(old(socket.arrivals))
        decreases Effort(socket.arrivals), tcprecv.used - skip
      {
        var want := 2;
        if tcprecv.used >= skip + 2 {
          var dgramlen := tcprecv.buf[skip] as int * 256 + tcprecv.buf[skip + 1] as int;
          if tcprecv.used >= skip + 2 + dgramlen {
            HandOver(dgramlen);
            continue;
          }
          want := 2 + dgramlen;
        }
        Compact(want);
        var end := ReadMore(socket);
        if end.Some? {
          return end.value;
        }
      }
    }

    // One read. The test for a full buffer before it in the source never succeeds.
    method ReadMore(socket: Socket) returns (end: Option<Ended>)
      requires Valid() && Receiving() && tcprecv.used < tcprecv.avail
      modifies this, tcprecv, tcprecv.buf, socket
      ensures tcprecv == old(tcprecv) && tcprecv.buf == old(tcprecv.buf) && tcprecv.Valid()
      ensures end == Some(ConnectionBroken) || (if end.Some? then Valid() else Receiving())
      ensures skip == 0
      ensures end.Some? ==> delivered == Frames(received) && (end.value.ConnectionBroken? ==> tcprecv.used == 0)
      ensures end.None? ==> Effort(socket.arrivals) < Effort(old(socket.arrivals))
      ensures received + Incoming(socket.arrivals) == old(received) + Incoming(old(socket.arrivals))
    {
      hide Frames;
      hide Leftover;
      hide Incoming;
      hide Effort;
      ghost var was := received;
      end := None;
      var got := socket.Read(tcprecv.avail - tcprecv.used);
      match got
      case Bytes(data) =>
        Take(data);
        assert was + data + Incoming(socket.arrivals) == was + (data + Incoming(socket.arrivals));
      case WouldBlock => end := Some(Drained);
      case Interrupted =>
      case NoResources => end := Some(OutOfResources);
      case Dead =>
        tcprecv.used := 0;  // adns__tcp_broken
        end := Some(ConnectionBroken);
    }

    /** The bytes that read has put behind those in use. */
    method Take(data: seq<Byte>)
      requires Valid() && tcprecv.used + |data| <= tcprecv.avail
      modifies this, tcprecv, tcprecv.buf
      ensures Receiving() && tcprecv == old(tcprecv) && tcprecv.buf == old(tcprecv.buf)
      ensures received == old(received) + data && skip == 0
    {
      FramesAppend(received, data);
      FramesAppend(Leftover(received), data);
      tcprecv.AppendQ(data);
      assert tcprecv.buf[0..tcprecv.used] == tcprecv.Contents();
      received := received + data;
    }
  }
}
