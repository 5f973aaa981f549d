/** Whole runs of the resolver: every sequence of submissions, timeouts, replies, collected answers
    and cancellations (adns/event.c, adns/query.c, adns/reply.c). */
module Runs {
  import opened Basics
  import opened Headers
  import opened Names
  import opened Texts
  import opened LifeCycle
  import opened Reverses
  import opened Steps
  import opened Submission

  datatype Event =
    | Submitted(owner: seq<Byte>, typ: nat, flags: Flags, now: int)
    | Expired(q: QId, now: int)
    | Replied(q: QId, verdict: Verdict, now: int)
    | Collected(q: QId)
    | Cancelled(q: QId)

  predicate Waiting(s: St, q: QId) { q in s.udpw || q in s.tcpw }

  ghost predicate Enabled(cfg: Config, s: St, e: Event)
  {
    match e
    // The scan of a name that ends inside an escape reads, and can write, where it must not (see Scans).
    case Submitted(owner, _, flags, _) =>
      flags.search && !Absolute(owner) ==> SealedNames(cfg, owner, flags.quoteokQuery)
    case Expired(q, now) => q in s.qs && Waiting(s, q) && s.qs[q].timeout < now
    case Replied(q, v, _) => q in s.qs && Waiting(s, q) && Possible(s.qs[q], v)
    case Collected(q) => q in s.qs && q in s.output
    case Cancelled(q) => q in s.qs && s.qs[q].parent.None?
  }

  /** One timed-out query (adns/event.c:268-276). */
  function Expire(cfg: Config, s: St, q: QId, now: int): (t: St)
    requires ValidConfig(cfg) && q in s.qs && ParentLives(s, q)
    ensures t.unused == s.unused
  {
    if s.qs[q].state.Tosend? then Send(cfg, Unqueue(s, q), q, now) else Fail(Unqueue(s, q), q, Timeout)
  }

  ghost function Apply(cfg: Config, s: St, e: Event): (t: St)
    requires ValidConfig(cfg) && Inv(cfg, s, {}) && Enabled(cfg, s, e)
    ensures t.unused >= s.unused + if e.Submitted? then 1 else 0
  {
    match e
    case Submitted(owner, typ, flags, now) => Submit(cfg, s, owner, typ, flags, now)
    case Expired(q, now) => InvParent(cfg, s, q); Expire(cfg, s, q, now)
    case Replied(q, v, now) => InvParent(cfg, s, q); Deliver(cfg, Unqueue(s, q), q, v, now)
    case Collected(q) => Drop(s, {q})
    case Cancelled(q) => Drop(s, {q} + Kids(s, q))
  }

  lemma InvParent(cfg: Config, s: St, q: QId)
    requires ValidConfig(cfg) && Inv(cfg, s, {}) && q in s.qs
    ensures ParentLives(s, q) && ParentLives(Unqueue(s, q), q) && Numbered(s)
  {
    InvAt(cfg, s, {}, q);
  }

  // ---------- Every event keeps the invariant ----------

  /** A query waiting for a reply, taken off its queue. */
  lemma PopWaiting(cfg: Config, s: St, q: QId)
    requires ValidConfig(cfg) && Inv(cfg, s, {}) && q in s.qs && Waiting(s, q)
    ensures Replying(cfg, Unqueue(s, q), q) && Unqueue(s, q).qs == s.qs
  {
    hide Inv;
    hide Unqueue;
    hide AskedName;
    hide ReadLabels;
    InvParent(cfg, s, q);
    UnqueueKeeps(cfg, s, {}, q);
    assert {} + {q} == {q};
    WaitingFacts(cfg, s, q);
    UnqueueQs(s, q);
  }

  lemma UnqueueQs(s: St, q: QId)
    ensures Unqueue(s, q).qs == s.qs && Unqueue(s, q).unused == s.unused
  {
  }

  lemma WaitingFacts(cfg: Config, s: St, q: QId)
    requires ValidConfig(cfg) && Inv(cfg, s, {}) && q in s.qs && Waiting(s, q)
    ensures var x := s.qs[q];
            (x.state.Tosend? || x.state.Tcpw?) && x.children == [] && Asking(x) && x.ptrAddr.None? &&
              0 <= x.id < 0x1_0000 && x.answer.status == Ok
  {
    InvAt(cfg, s, {}, q);
  }

  lemma ReadyWhenExpired(cfg: Config, x: Query, now: int)
    requires ValidConfig(cfg) && Fields(cfg, x, false) && x.state.Tosend? && x.timeout < now
    ensures Ready(x, now)
  {
  }

  lemma ExpireKeeps(cfg: Config, s: St, q: QId, now: int)
    requires ValidConfig(cfg) && Inv(cfg, s, {}) && q in s.qs && Waiting(s, q) && s.qs[q].timeout < now
    ensures ParentLives(s, q) && Inv(cfg, Expire(cfg, s, q, now), {})
  {
    InvParent(cfg, s, q);
    InvAt(cfg, s, {}, q);
    hide Inv;
    hide Fields;
    hide Links;
    hide Ready;
    hide Send;
    hide Fail;
    PopWaiting(cfg, s, q);
    var t := Unqueue(s, q);
    ReplyingFacts(cfg, t, q);
    if s.qs[q].state.Tosend? {
      ReadyWhenExpired(cfg, s.qs[q], now);
      SendKeeps(cfg, t, q, now);
    } else {
      FailKeeps(cfg, t, q, Timeout);
    }
  }

  lemma FamilyDroppable(s: St, q: QId)
    requires q in s.qs && s.qs[q].parent.None?
    requires forall c :: c in s.qs[q].children ==>
               c != q && c in s.qs && s.qs[c].parent == Some(q) && s.qs[c].children == []
    ensures Droppable(s, {}, {q} + Kids(s, q))
  {
  }

  lemma CancelKeeps(cfg: Config, s: St, q: QId)
    requires ValidConfig(cfg) && Inv(cfg, s, {}) && q in s.qs && s.qs[q].parent.None?
    ensures Inv(cfg, Drop(s, {q} + Kids(s, q)), {})
  {
    hide Inv;
    hide Drop;
    KidsAre(cfg, s, {}, q);
    var d := {q} + Kids(s, q);
    FamilyDroppable(s, q);
    hide Droppable;
    DropKeeps(cfg, s, {}, d);
    assert {} - d == {};
  }

  lemma DoneHasNoFamily(cfg: Config, s: St, q: QId)
    requires ValidConfig(cfg) && Inv(cfg, s, {}) && q in s.output
    ensures q in s.qs && s.qs[q].state.Done? && s.qs[q].parent.None? && s.qs[q].children == [] && Kids(s, q) == {} &&
            s.qs[q].allocations == 0 && s.qs[q].id == -1
  {
    InvAt(cfg, s, {}, q);
  }

  /** Every step of every operation keeps the invariant. */
  lemma ApplyKeeps(cfg: Config, s: St, e: Event)
    requires ValidConfig(cfg) && Inv(cfg, s, {}) && Enabled(cfg, s, e)
    ensures Inv(cfg, Apply(cfg, s, e), {})
  {
    hide Inv;
    hide Submit;
    hide Deliver;
    hide Expire;
    hide Drop;
    hide Possible;
    match e
    case Submitted(owner, typ, flags, now) => SubmitKeeps(cfg, s, owner, typ, flags, now);
    case Expired(q, now) => ExpireKeeps(cfg, s, q, now);
    case Replied(q, v, now) =>
      PopWaiting(cfg, s, q);
      DeliverKeeps(cfg, Unqueue(s, q), q, v, now);
    case Collected(q) =>
      DoneHasNoFamily(cfg, s, q);
      CancelKeeps(cfg, s, q);
      assert {q} + Kids(s, q) == {q};
    case Cancelled(q) => CancelKeeps(cfg, s, q);
  }

  /** The state a run of enabled events leads to. */
  ghost predicate Reaches(cfg: Config, s: St, events: seq<Event>, t: St)
    requires ValidConfig(cfg)
    decreases |events|
  {
    if events == [] then s == t
    else Inv(cfg, s, {}) && Enabled(cfg, s, events[0]) && Reaches(cfg, Apply(cfg, s, events[0]), events[1..], t)
  }

  lemma NoEvents(cfg: Config, s: St)
    requires ValidConfig(cfg)
    ensures Reaches(cfg, s, [], s)
  {
  }

  lemma {:induction false} ReachesOn(cfg: Config, s: St, a: seq<Event>, t: St, b: seq<Event>, u: St)
    requires ValidConfig(cfg) && Reaches(cfg, s, a, t) && Reaches(cfg, t, b, u)
    ensures Reaches(cfg, s, a + b, u)
    decreases |a|
  {
    hide Inv;
    hide Apply;
    hide Enabled;
    if a == [] {
      assert a + b == b;
    } else {
      assert (a + b)[0] == a[0] && (a + b)[1..] == a[1..] + b;
      ReachesOn(cfg, Apply(cfg, s, a[0]), a[1..], t, b, u);
    }
  }

  lemma ReachesNext(cfg: Config, s: St, events: seq<Event>, t: St, e: Event)
    requires ValidConfig(cfg) && Reaches(cfg, s, events, t) && Inv(cfg, t, {}) && Enabled(cfg, t, e)
    ensures Reaches(cfg, s, events + [e], Apply(cfg, t, e))
  {
    hide Inv;
    hide Apply;
    hide Enabled;
    var u := Apply(cfg, t, e);
    assert [e][1..] == [] && Reaches(cfg, u, [], u);
    assert Reaches(cfg, t, [e], u);
    ReachesOn(cfg, s, events, t, [e], u);
  }

  const INITIAL := St([], [], [], [], map[], 0x311f, 0)

  lemma InitialInv(cfg: Config)
    requires ValidConfig(cfg)
    ensures Inv(cfg, INITIAL, {})
  {
  }

  lemma {:induction false} RunKeeps(cfg: Config, s: St, events: seq<Event>, t: St)
    requires ValidConfig(cfg) && Inv(cfg, s, {}) && Reaches(cfg, s, events, t)
    ensures Inv(cfg, t, {})
    decreases |events|
  {
    hide Inv;
    hide Apply;
    hide Enabled;
    if events != [] {
      ApplyKeeps(cfg, s, events[0]);
      RunKeeps(cfg, Apply(cfg, s, events[0]), events[1..], t);
    }
  }

  /** In every state of every run each live query is on exactly the queue of its state; a query waiting
      for children has one that points back at it and itself waits; finished queries have no family and
      no allocations; the rest is spelled out in `Inv`. */
  lemma EveryRun(cfg: Config, events: seq<Event>, s: St)
    requires ValidConfig(cfg) && Reaches(cfg, INITIAL, events, s)
    ensures Inv(cfg, s, {})
    ensures forall q :: q in s.qs ==>
              (q in s.udpw <==> s.qs[q].state.Tosend?) && (q in s.tcpw <==> s.qs[q].state.Tcpw?) &&
              (q in s.childw <==> s.qs[q].state.Childw?) && (q in s.output <==> s.qs[q].state.Done?)
    ensures forall q :: q in s.childw ==> exists c :: c in s.qs[q].children && c in s.qs &&
                                                      s.qs[c].parent == Some(q) && Waiting(s, c)
    ensures forall q :: q in s.output ==> s.qs[q].parent.None? && s.qs[q].children == [] && s.qs[q].allocations == 0
  {
    InitialInv(cfg);
    RunKeeps(cfg, INITIAL, events, s);
    forall q | q in s.childw
      ensures exists c :: c in s.qs[q].children && c in s.qs && s.qs[c].parent == Some(q) && Waiting(s, c)
    {
      ChildwWaits(cfg, s, q);
    }
    forall q | q in s.output ensures s.qs[q].parent.None? && s.qs[q].children == [] && s.qs[q].allocations == 0 {
      DoneHasNoFamily(cfg, s, q);
    }
  }

  lemma ChildwWaits(cfg: Config, s: St, q: QId)
    requires ValidConfig(cfg) && Inv(cfg, s, {}) && q in s.childw
    ensures q in s.qs && exists c :: c in s.qs[q].children && c in s.qs && s.qs[c].parent == Some(q) && Waiting(s, c)
  {
    InvAt(cfg, s, {}, q);
    var c := s.qs[q].children[0];
    assert c in s.qs[q].children;
    InvAt(cfg, s, {}, c);
  }

  // ---------- Sending ----------

  /** The servers a query has been sent to, in order: `udpsent` is exactly their set, they are taken in turn, and
      at most UDPMAXRETRIES datagrams have gone out since the query last started again (`resetAt`). */
  lemma ServersInTurn(cfg: Config, s: St, q: QId)
    requires ValidConfig(cfg) && Inv(cfg, s, {}) && q in s.qs
    ensures var x := s.qs[q];
            (forall i :: 0 <= i < |x.sent| ==> x.sent[i].server == i % cfg.nservers) &&
            x.resetAt <= |x.sent| && x.retries == |x.sent| - x.resetAt <= UDPMAXRETRIES
    ensures forall v: nat :: v in s.qs[q].udpsent <==>
              exists i :: 0 <= i < |s.qs[q].sent| && s.qs[q].sent[i].server == v
  {
    InvAt(cfg, s, {}, q);
    hide Inv;
    Contacted(cfg, s.qs[q]);
  }

  lemma Contacted(cfg: Config, x: Query)
    requires ValidConfig(cfg) && RoundRobin(cfg, x)
    ensures forall v: nat :: v in x.udpsent <==> exists i :: 0 <= i < |x.sent| && x.sent[i].server == v
  {
    forall v: nat ensures v in x.udpsent <==> exists i :: 0 <= i < |x.sent| && x.sent[i].server == v {
      if v in x.udpsent {
        assert v % cfg.nservers == v && x.sent[v].server == v;
      }
      if i :| 0 <= i < |x.sent| && x.sent[i].server == v {
        NotBefore(i, cfg.nservers);
      }
    }
  }

  lemma NotBefore(i: nat, n: nat)
    requires n > 0
    ensures i % n <= i && i % n < n
  {
  }

  // ---------- Questions ----------

  /** In every run, what a waiting query has sent is a standard query with its identifier that wants recursion and holds
      one question, for its type in class IN, and nothing else. */
  lemma WaitingAsks(cfg: Config, events: seq<Event>, s: St, q: QId)
    requires ValidConfig(cfg) && Reaches(cfg, INITIAL, events, s) && Waiting(s, q)
    ensures q in s.qs
    ensures var x := s.qs[q];
            |x.dgram| >= DNS_HDRSIZE + 5 && x.id == GetW(x.dgram, 0) &&
            HeaderOf(x.dgram) == Header(GetW(x.dgram, 0), false, 0, false, false, 0, 1, 0, 0, 0) &&
            x.dgram[2] % 2 == 1 && GetW(x.dgram, |x.dgram| - 4) == x.typ % 0x1_0000 &&
            GetW(x.dgram, |x.dgram| - 2) == DNS_CLASS_IN &&
            NameAt(x.dgram, DNS_HDRSIZE, |x.dgram|) == Name(AskedName(x.dgram), |x.dgram| - 4)
  {
    InitialInv(cfg);
    RunKeeps(cfg, INITIAL, events, s);
    hide Reaches;
    WaitingFacts(cfg, s, q);
    hide Inv;
    hide HeaderOf;
  }

  /** In every run, a child asks for addresses; it has been submitted to ask about the host, or the name, in its record
      of the answer of its parent, and still does unless it has started again at a CNAME. That it may only where the
      parent takes aliases for hosts, or confirms a PTR record. */
  lemma ChildAsks(cfg: Config, events: seq<Event>, s: St, q: QId)
    requires ValidConfig(cfg) && Reaches(cfg, INITIAL, events, s) && q in s.qs && s.qs[q].parent.Some?
    ensures var x := s.qs[q];
            var p := x.parent.value;
            p in s.qs && Waiting(s, q) && p in s.childw && x.typ == ADDR && (!x.aliased ==> x.dgram == x.first) &&
            (x.flags.cnameForbid <==> s.qs[p].typ != PTR && !s.qs[p].flags.cnameLoose) &&
            x.slot < |s.qs[p].answer.rrs| &&
            var rr, text := s.qs[p].answer.rrs[x.slot], Printed(AskedName(x.first), s.qs[p].flags.quoteokAnshost, true);
            if s.qs[p].typ == PTR then rr == Domain(text) else rr.Host? && rr.host == text
  {
    InitialInv(cfg);
    RunKeeps(cfg, INITIAL, events, s);
    hide Reaches;
    InvAt(cfg, s, {}, q);
    ChildQueues(cfg, s, q);
    hide Inv;
    hide Asking;
    hide Owned;
    hide Told;
    hide Covered;
    hide AskedName;
  }

  lemma ChildQueues(cfg: Config, s: St, q: QId)
    requires ValidConfig(cfg) && Inv(cfg, s, {}) && q in s.qs && s.qs[q].parent.Some?
    ensures Waiting(s, q) && s.qs[q].parent.value in s.childw
  {
    InvAt(cfg, s, {}, q);
  }

  /** In every run, an owner is given with an answer only if it is wanted, and is the name that was asked for last,
      unless the query has started again at a CNAME. */
  lemma OwnerIsAsked(cfg: Config, events: seq<Event>, s: St, q: QId)
    requires ValidConfig(cfg) && Reaches(cfg, INITIAL, events, s) && q in s.output
    ensures q in s.qs
    ensures var x := s.qs[q];
            if !x.flags.owner then x.answer.owner.None?
            else
              x.asked != [] && !x.aliased ==>
                x.answer.owner.Some? &&
                ReadLabels(x.answer.owner.value, 0, x.flags.quoteokQuery, 0) == Success(AskedName(x.asked))
  {
    hide Inv;
    hide Reaches;
    hide Links;
    hide AskedName;
    hide ReadLabels;
    hide Told;
    hide Asking;
    hide Final;
    InitialInv(cfg);
    RunKeeps(cfg, INITIAL, events, s);
    DoneHasNoFamily(cfg, s, q);
    InvAt(cfg, s, {}, q);
  }

  // ---------- PTR queries ----------

  /** In every run, a PTR query that has ended well reports only names that a child was submitted to ask about, and
      whose addresses, as it found them, include the address that the question of the query itself spells. */
  lemma PtrIsConfirmed(cfg: Config, events: seq<Event>, s: St, q: QId)
    requires ValidConfig(cfg) && Reaches(cfg, INITIAL, events, s) && q in s.output
    ensures q in s.qs
    ensures var x := s.qs[q];
            x.typ == PTR && x.answer.status == Ok ==>
              forall i: nat :: i < |x.answer.rrs| ==>
                i in x.confirmed && Reverse(AskedName(x.asked)).Some? &&
                Address(Reverse(AskedName(x.asked)).value) in x.confirmed[i].found &&
                x.answer.rrs[i] == Domain(Printed(AskedName(x.confirmed[i].first), x.flags.quoteokAnshost, true))
  {
    InitialInv(cfg);
    RunKeeps(cfg, INITIAL, events, s);
    DoneHasNoFamily(cfg, s, q);
    InvAt(cfg, s, {}, q);
    hide Inv;
    hide Reaches;
  }

  // ---------- Answers ----------

  /** In every run, an answer that can be collected has records if and only if its status is Ok, and the hosts in it
      have addresses if and only if theirs is: without, the number of addresses tells a temporary failure from a
      permanent one (adns/adns.h:289-294, 377-379). */
  lemma AnswersAreConclusive(cfg: Config, events: seq<Event>, s: St, q: QId)
    requires ValidConfig(cfg) && Reaches(cfg, INITIAL, events, s) && q in s.output
    ensures q in s.qs
    ensures var a := s.qs[q].answer;
            (a.status == Ok <==> a.rrs != []) &&
            (s.qs[q].typ == NS || s.qs[q].typ == MX ==>
               forall i :: 0 <= i < |a.rrs| ==>
                 a.rrs[i].Host? &&
                 var h := a.rrs[i];
                 (h.astatus == Ok <==> h.naddrs > 0) && (TempFail(h.astatus) <==> h.naddrs == -1) &&
                 (h.astatus != Ok && !TempFail(h.astatus) <==> h.naddrs == 0) &&
                 (h.naddrs > 0 ==> h.naddrs == |h.addrs|))
  {
    hide Inv;
    hide Reaches;
    InitialInv(cfg);
    RunKeeps(cfg, INITIAL, events, s);
    DoneIsFinal(cfg, s, q);
  }

  lemma DoneIsFinal(cfg: Config, s: St, q: QId)
    requires ValidConfig(cfg) && Inv(cfg, s, {}) && q in s.output
    ensures q in s.qs && Final(s.qs[q])
  {
    DoneHasNoFamily(cfg, s, q);
    InvAt(cfg, s, {}, q);
    hide Inv;
    hide Links;
    hide Final;
    hide Asking;
    hide Owned;
    hide Told;
  }

  // ---------- adns_check ----------

  /** Nothing to collect and nothing to wait for means that nothing at all is outstanding, although
      the queue of queries waiting for children is never looked at (adns/event.c:884-897). */
  lemma NothingOutstanding(cfg: Config, s: St)
    requires ValidConfig(cfg) && Inv(cfg, s, {}) && s.output == [] && s.udpw == [] && s.tcpw == []
    ensures s.qs == map[] && s.childw == []
  {
    if s.childw != [] {
      ChildwWaits(cfg, s, s.childw[0]);
    }
    assert forall q :: q in s.qs ==> q in s.udpw || q in s.tcpw || q in s.childw || q in s.output;
    assert s.qs.Keys == {};
  }

  /** With a handle, the identifier tells exactly whether the query is on the output queue. */
  lemma FinishedById(cfg: Config, s: St, q: QId)
    requires ValidConfig(cfg) && Inv(cfg, s, {}) && q in s.qs
    ensures s.qs[q].id >= 0 <==> q !in s.output
  {
    InvAt(cfg, s, {}, q);
  }
}
