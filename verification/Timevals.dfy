/** Points in time and deadlines: timevaladd (adns/tvarith.h:33-41), the inter_ functions
    (adns/event.c:186-245), and how long the caller of adns_firsttimeout may wait (adns/event.c:247-371 with
    `act` clear). */
module Timevals {
  import opened Basics

  datatype Timeval = Timeval(sec: int, usec: int)

  const SECOND := 1_000_000

  predicate Normal(t: Timeval) { 0 <= t.usec < SECOND }

  /** The time in microseconds. */
  function Micros(t: Timeval): int { t.sec * SECOND + t.usec }

  function FromMicros(us: int): (t: Timeval)
    ensures Normal(t) && Micros(t) == us
  {
    Timeval(us / SECOND, us % SECOND)
  }

  /** A struct timeval that pointers point to. */
  class TvCell {
    var tv: Timeval

    constructor (tv: Timeval)
      ensures this.tv == tv
    {
      this.tv := tv;
    }
  }

  /** A struct timeval pointer that a `struct timeval **` points to. */
  class TvRef {
    var cell: TvCell?

    constructor (cell: TvCell?)
      ensures this.cell == cell
    {
      this.cell := cell;
    }
  }

  method TimevalAdd(tv: TvCell, ms: nat)
    requires Normal(tv.tv)
    modifies tv
    ensures Normal(tv.tv) && Micros(tv.tv) == old(Micros(tv.tv)) + ms * 1000
  {
    var tmp := tv.tv;
    tmp := tmp.(usec := tmp.usec + ms % 1000 * 1000);
    tmp := tmp.(sec := tmp.sec + ms / 1000);
    if tmp.usec >= SECOND {
      tmp := tmp.(sec := tmp.sec + 1, usec := tmp.usec - SECOND);
    }
    tv.tv := tmp;
  }

  // timercmp
  predicate Later(a: Timeval, b: Timeval) { a.sec > b.sec || (a.sec == b.sec && a.usec > b.usec) }

  /** Comparing normalised times field by field compares the times. */
  lemma LaterIsLater(a: Timeval, b: Timeval)
    requires Normal(a) && Normal(b)
    ensures Later(a, b) <==> Micros(a) > Micros(b)
    ensures Micros(a) == Micros(b) ==> a == b
  {
  }

  // ---------- The wait so far ----------

  /** A wait; None is for ever. */
  type Wait = Option<int>

  ghost function WaitOf(tv: TvRef?): Wait
    reads tv, if tv == null then {} else {tv.cell}
  {
    if tv == null || tv.cell == null then None else Some(Micros(tv.cell.tv))
  }

  ghost predicate NormalWait(tv: TvRef?)
    reads tv, if tv == null then {} else {tv.cell}
  {
    tv != null && tv.cell != null ==> Normal(tv.cell.tv)
  }

  function Shorter(w: Wait, v: Wait): Wait
  {
    if v.None? then w else if w.None? || v.value < w.value then v else w
  }

  /** Time from `now` until `deadline`, if that is still to come. */
  function Until(now: Timeval, deadline: Timeval): nat { Max(0, Micros(deadline) - Micros(now)) }

  method InterImmed(tv: TvRef?, tvbuf: TvCell)
    modifies tv, tvbuf, if tv == null then {} else {tv.cell}
    ensures NormalWait(tv) && (tv != null ==> WaitOf(tv) == Some(0))
    ensures tv != null ==> tv.cell == if old(tv.cell) == null then tvbuf else old(tv.cell)
  {
    if tv == null {
      return;
    }
    var rbuf := tv.cell;
    if rbuf == null {
      rbuf := tvbuf;
      tv.cell := rbuf;
    }
    rbuf.tv := Timeval(0, 0);
  }

  method InterMaxto(tv: TvRef?, tvbuf: TvCell, maxto: Timeval)
    requires NormalWait(tv) && Normal(maxto)
    modifies tv, tvbuf, if tv == null then {} else {tv.cell}
    ensures NormalWait(tv) && (tv != null ==> WaitOf(tv) == Shorter(old(WaitOf(tv)), Some(Micros(maxto))))
    ensures tv != null ==> tv.cell == if old(tv.cell) == null then tvbuf else old(tv.cell)
  {
    if tv == null {
      return;
    }
    var rbuf := tv.cell;
    if rbuf == null {
      tvbuf.tv := maxto;
      tv.cell := tvbuf;
    } else {
      LaterIsLater(rbuf.tv, maxto);
      if Later(rbuf.tv, maxto) {
        rbuf.tv := maxto;
      }
    }
  }

  // The detour over two extra seconds makes the dividend of ldiv positive, so that truncation is flooring.
  method InterMaxtoabs(tv: TvRef?, tvbuf: TvCell, now: Timeval, maxtime: Timeval)
    requires NormalWait(tv) && Normal(now) && Normal(maxtime)
    modifies tv, tvbuf, if tv == null then {} else {tv.cell}
    ensures NormalWait(tv) && (tv != null ==> WaitOf(tv) == Shorter(old(WaitOf(tv)), Some(Until(now, maxtime))))
    ensures tv != null ==> tv.cell == if old(tv.cell) == null then tvbuf else old(tv.cell)
  {
    if tv == null {
      return;
    }
    var m := Timeval(maxtime.sec - (now.sec + 2), maxtime.usec - (now.usec - 2000000));
    var quot := m.usec / SECOND;
    m := Timeval(m.sec + quot, m.usec - quot * SECOND);
    if m.sec < 0 {
      m := Timeval(0, 0);
    }
    assert Micros(m) == Until(now, maxtime);
    InterMaxto(tv, tvbuf, m);
  }

  // ---------- How long to wait ----------

  /** The shortest of a wait and the times until some deadlines. */
  function Shortest(w: Wait, now: Timeval, deadlines: seq<Timeval>): Wait
    decreases |deadlines|
  {
    if deadlines == [] then w else Shortest(Shorter(w, Some(Until(now, deadlines[0]))), now, deadlines[1..])
  }

  /** It is one of them, and none is shorter. */
  lemma {:induction false} ShortestIsLeast(w: Wait, now: Timeval, deadlines: seq<Timeval>)
    ensures var r := Shortest(w, now, deadlines);
            (r == w || exists i :: 0 <= i < |deadlines| && r == Some(Until(now, deadlines[i]))) &&
            (r.None? ==> w.None? && deadlines == []) &&
            (r.Some? ==> (w.None? || r.value <= w.value) &&
                         forall i :: 0 <= i < |deadlines| ==> r.value <= Until(now, deadlines[i]))
    decreases |deadlines|
  {
    if deadlines != [] {
      ShortestIsLeast(Shorter(w, Some(Until(now, deadlines[0]))), now, deadlines[1..]);
    }
  }

  /** No wait is shorter than none, so the loop may stop at the first expired query. */
  lemma {:induction false} NothingIsShorter(now: Timeval, deadlines: seq<Timeval>)
    ensures Shortest(Some(0), now, deadlines) == Some(0)
    decreases |deadlines|
  {
    if deadlines != [] {
      NothingIsShorter(now, deadlines[1..]);
    }
  }

  lemma {:induction false} ShortestAppend(w: Wait, now: Timeval, a: seq<Timeval>, b: seq<Timeval>)
    ensures Shortest(w, now, a + b) == Shortest(Shortest(w, now, a), now, b)
    decreases |a|
  {
    if a == [] {
      assert a + b == b;
    } else {
      assert (a + b)[0] == a[0] && (a + b)[1..] == a[1..] + b;
      ShortestAppend(Shorter(w, Some(Until(now, a[0]))), now, a[1..], b);
    }
  }

  ghost predicate AllNormal(ts: seq<Timeval>) { forall i :: 0 <= i < |ts| ==> Normal(ts[i]) }

  /** True of waits, which are never negative. */
  predicate NotNegative(w: Wait) { w.Some? ==> w.value >= 0 }

  // timeouts_queue with `act` clear; `queue` are the deadlines of its queries.
  method TimeoutsQueue(tv: TvRef?, tvbuf: TvCell, now: Timeval, queue: seq<Timeval>)
    requires NormalWait(tv) && Normal(now) && AllNormal(queue) && NotNegative(WaitOf(tv))
    modifies tv, tvbuf, if tv == null then {} else {tv.cell}
    ensures NormalWait(tv) && NotNegative(WaitOf(tv))
    ensures tv != null ==> WaitOf(tv) == Shortest(old(WaitOf(tv)), now, queue)
    ensures tv != null ==> tv.cell == old(tv.cell) || tv.cell == tvbuf
  {
    var i := 0;
    while i < |queue|
      invariant 0 <= i <= |queue| && NormalWait(tv) && NotNegative(WaitOf(tv))
      invariant tv != null ==> tv.cell == old(tv.cell) || tv.cell == tvbuf
      invariant tv != null ==> Shortest(WaitOf(tv), now, queue[i..]) == Shortest(old(WaitOf(tv)), now, queue)
    {
      LaterIsLater(now, queue[i]);
      assert queue[i..][0] == queue[i] && queue[i..][1..] == queue[i + 1..];
      ghost var w := WaitOf(tv);
      if !Later(now, queue[i]) {
        InterMaxtoabs(tv, tvbuf, now, queue[i]);
      } else {
        InterImmed(tv, tvbuf);
        if tv != null {
          assert Shorter(w, Some(Until(now, queue[i]))) == Some(0);
          NothingIsShorter(now, queue[i + 1..]);
        }
        return;
      }
      i := i + 1;
    }
  }

  // ---------- The TCP connection ----------

  datatype TcpState = Disconnected | Connecting | Connected | Broken

  /** What the connection waits for: action at once, a deadline, or nothing. */
  datatype TcpWait = AtOnce | By(deadline: Timeval) | NoMatter

  class Connection {
    var state: TcpState
    var timeout: Timeval

    constructor (state: TcpState, timeout: Timeval)
      ensures this.state == state && this.timeout == timeout
    {
      this.state, this.timeout := state, timeout;
    }

    /** An unset deadline is all zero. */
    ghost predicate Valid()
      reads this
    {
      Normal(timeout) && (timeout.sec == 0 ==> timeout.usec == 0)
    }

    // tcp_events with `act` clear. An idle connection is given a deadline here.
    method Events(tv: TvRef?, tvbuf: TvCell, now: Timeval, waiting: bool) returns (ghost w: TcpWait)
      requires Valid() && NormalWait(tv) && Normal(now) && NotNegative(WaitOf(tv)) && now.sec > 0
      modifies this, tv, tvbuf, if tv == null then {} else {tv.cell}
      ensures Valid() && NormalWait(tv) && state == old(state)
      ensures timeout == old(timeout) || (state.Connected? && !waiting && old(timeout) == Timeval(0, 0) &&
                                          Micros(timeout) == Micros(now) + TCPIDLEMS * 1000)
      ensures w == if state.Broken? || (state.Disconnected? && waiting) then AtOnce
                   else if state.Connecting? || (state.Connected? && !waiting) then By(timeout)
                   else NoMatter
      ensures tv != null ==> WaitOf(tv) == match w
                                           case AtOnce => Some(0)
                                           case By(d) => Shorter(old(WaitOf(tv)), Some(Until(now, d)))
                                           case NoMatter => old(WaitOf(tv))
    {
      match state
      case Broken =>
        w := AtOnce;
        InterImmed(tv, tvbuf);
      case Disconnected =>
        w := NoMatter;
        if waiting {
          w := AtOnce;
          InterImmed(tv, tvbuf);
        }
      case Connected =>
        w := NoMatter;
        if !waiting {
          if timeout.sec == 0 {
            var t := new TvCell(now);
            TimevalAdd(t, TCPIDLEMS);
            assert Micros(t.tv) == Micros(now) + 30000000;
            timeout := t.tv;
          }
          w := By(timeout);
          InterMaxtoabs(tv, tvbuf, now, timeout);
        }
      case Connecting =>
        w := By(timeout);
        InterMaxtoabs(tv, tvbuf, now, timeout);
    }

    // adns_firsttimeout: the caller's wait cut down to the first deadline of any query or of the connection.
    method FirstTimeout(tv: TvRef, tvbuf: TvCell, now: Timeval, udpw: seq<Timeval>, tcpw: seq<Timeval>)
      returns (ghost w: TcpWait)
      requires Valid() && NormalWait(tv) && Normal(now) && NotNegative(WaitOf(tv)) && now.sec > 0
      requires AllNormal(udpw) && AllNormal(tcpw)
      modifies this, tv, tvbuf, tv.cell
      ensures w == if state.Broken? || (state.Disconnected? && tcpw != []) then AtOnce
                   else if state.Connecting? || (state.Connected? && tcpw == []) then By(timeout)
                   else NoMatter
      ensures var deadlines := udpw + tcpw + if w.By? then [w.deadline] else [];
              WaitOf(tv) == if w.AtOnce? then Some(0) else Shortest(old(WaitOf(tv)), now, deadlines)
    {
      ghost var before := WaitOf(tv);
      TimeoutsQueue(tv, tvbuf, now, udpw);
      TimeoutsQueue(tv, tvbuf, now, tcpw);
      ShortestAppend(before, now, udpw, tcpw);
      w := Events(tv, tvbuf, now, tcpw != []);
      if w.By? {
        ShortestAppend(before, now, udpw + tcpw, [w.deadline]);
      } else {
        assert udpw + tcpw + [] == udpw + tcpw;
      }
    }
  }

  /** With an expired deadline there is no wait at all. */
  lemma ExpiredMeansNow(w: Wait, now: Timeval, deadlines: seq<Timeval>, i: nat)
    requires NotNegative(w) && i < |deadlines| && Normal(now) && Normal(deadlines[i]) && Later(now, deadlines[i])
    ensures Shortest(w, now, deadlines) == Some(0)
  {
    LaterIsLater(now, deadlines[i]);
    ShortestIsLeast(w, now, deadlines);
  }
}
