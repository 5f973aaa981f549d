/** The operations of adns as the source performs them, in place, verified against Steps, Submission,
    Runs and Replies (adns/query.c, adns/event.c, adns/transmit.c, adns/types.c, adns/reply.c). */
module Resolvers {
  import opened Basics
  import opened Headers
  import opened Names
  import opened Texts
  import opened Scans
  import opened Vbufs
  import opened Records
  import opened Queries
  import opened LifeCycle
  import opened Steps
  import opened Submission
  import opened Families
  import opened Dlists
  import opened Runs
  import opened Deadlines
  import opened Answers
  import opened Reverses
  import opened Mailboxes
  import opened Parsers
  import opened Replies
  import opened Deliveries
  import opened Rooms
  import opened Checks
  import opened Timevals

  datatype Errno = NoError | EAGAIN | ESRCH | ENOSYS

  class Resolver {
    const cfg: Config
    const queues: Lists<QState>    // udpw, tcpw, childw and output, through `next` and `back`
    const siblings: Lists<QId>     // the children of each query, through `siblings`
    var queries: map<QId, Query>
    var nextid: nat
    var unused: QId

    ghost function ListOf(st: QState): seq<QId>
      reads queues
    {
      if st in queues.lists then queues.lists[st] else []
    }

    ghost function Snap(): St
      reads this, queues
    {
      St(ListOf(Tosend), ListOf(Tcpw), ListOf(Childw), ListOf(Done), queries, nextid, unused)
    }

    /** The pointers form the four queues, and for each query the list of its children. */
    ghost predicate Wired()
      reads this`queries, queues, siblings
    {
      queues.Valid() && siblings.Valid() && queues.lists.Keys == {Tosend, Tcpw, Childw, Done} &&
      (forall q :: q in queries ==> q in siblings.lists && siblings.lists[q] == queries[q].children) &&
      (forall q :: q in siblings.lists && q !in queries ==> siblings.lists[q] == [])
    }

    /** The invariant with the queries in `off` being processed. */
    ghost predicate Valid(off: set<QId>)
      reads this, queues, siblings
    {
      ValidConfig(cfg) && Inv(cfg, Snap(), off) && Wired()
    }

    constructor (cfg: Config)
      requires ValidConfig(cfg)
      ensures this.cfg == cfg && Valid({}) && Snap() == INITIAL && fresh(queues) && fresh(siblings)
    {
      this.cfg := cfg;
      queues := new Lists<QState>({Tosend, Tcpw, Childw, Done});
      siblings := new Lists<QId>({});
      queries, nextid, unused := map[], 0x311f, 0;
      new;
      hide AllListed;
      hide Inv;
      InitialInv(cfg);
    }

    // ---------- The pointers ----------

    lemma QueueIs(st: QState)
      requires Wired()
      ensures queues.Valid() && st in queues.lists && queues.lists[st] == Queue(Snap(), st) && st in queues.ends
      ensures queues.ends[st].head == Nth(Queue(Snap(), st), 0)
    {
      queues.Walk(st, 0);
    }

    // LIST_UNLINK
    method UnlinkFrom(st: QState, q: QId)
      requires Wired() && q in Queue(Snap(), st)
      modifies queues
      ensures Wired() && Snap() == LeaveQueue(old(Snap()), st, q)
    {
      hide Listed;
      hide Apart;
      hide Without;
      hide NoDup;
      QueueIs(st);
      queues.Unlink(st, q);
    }

    // LIST_LINK_TAIL
    method LinkTo(st: QState, q: QId)
      requires Wired() && OnNoQueue(Snap(), q)
      modifies queues
      ensures Wired() && Snap() == JoinQueue(old(Snap()), st, q)
    {
      hide Listed;
      hide Apart;
      hide Without;
      hide NoDup;
      QueueIs(st);
      assert queues.Unlisted(q) by {
        assert q !in Queue(Snap(), Tosend) && q !in Queue(Snap(), Tcpw) && q !in Queue(Snap(), Childw) &&
               q !in Queue(Snap(), Done);
      }
      queues.LinkTail(st, q);
    }

    // LIST_UNLINK_PART(parent->children, qu, siblings.)
    method UnlinkChild(p: QId, c: QId)
      requires Wired() && p in queries && c in queries[p].children
      modifies this`queries, siblings
      ensures Wired() &&
              Snap() == Set(old(Snap()), p, old(queries[p]).(children := Without(old(queries[p].children), {c})))
    {
      hide Listed;
      hide Apart;
      hide Without;
      hide NoDup;
      siblings.Unlink(p, c);
      queries := queries[p := queries[p].(children := Without(queries[p].children, {c}))];
    }

    // LIST_LINK_TAIL_PART(parent->children, qu, siblings.)
    method LinkChild(p: QId, c: QId)
      requires Wired() && p in queries && forall q :: q in queries ==> c !in queries[q].children
      modifies this`queries, siblings
      ensures Wired() && Snap() == Set(old(Snap()), p, old(queries[p]).(children := old(queries[p].children) + [c]))
    {
      hide Listed;
      hide Apart;
      hide Without;
      hide NoDup;
      siblings.LinkTail(p, c);
      queries := queries[p := queries[p].(children := queries[p].children + [c])];
    }

    // Assigning to fields of a query other than its lists.
    method Store(q: QId, x: Query)
      requires Wired() && q in queries && x.children == queries[q].children
      modifies this`queries
      ensures Wired() && Snap() == Set(old(Snap()), q, x)
    {
      queries := queries[q := x];
    }

    // ADNS_LIST_INIT of the children of a new query.
    method Create(x: Query)
      requires Wired() && unused !in queries && x.children == []
      modifies this, siblings
      ensures Wired() && Snap() == Add(old(Snap()), x)
    {
      hide Listed;
      hide Apart;
      hide Without;
      hide NoDup;
      siblings.Init(unused);
      queries := queries[unused := x];
      unused := unused + 1;
    }

    // MyFree(qu)
    method Free(q: QId)
      requires Wired() && q in queries && queries[q].children == []
      modifies this`queries
      ensures Wired() && Snap() == old(Snap()).(qs := old(queries) - {q})
    {
      queries := queries - {q};
    }

    lemma ChildrenAre(q: QId)
      requires Wired() && q in queries
      ensures q in siblings.ends && siblings.ends[q].head == Nth(queries[q].children, 0)
      ensures var kids := queries[q].children;
              kids != [] ==> kids[0] in siblings.links && siblings.links[kids[0]].next == Nth(kids, 1)
    {
      siblings.Walk(q, 0);
    }

    // ---------- Cancelling ----------

    // cancel_children: every child of a query being processed.
    method CancelChildren(q: QId)
      requires Valid({q}) && q in queries
      modifies this, queues, siblings
      ensures Snap() == Drop(old(Snap()), Kids(old(Snap()), q)) && Valid({q})
      ensures q in queries && queries[q] == old(queries[q]).(children := [])
      decreases if queries[q].parent.None? then 1 else 0, 0
    {
      hide Inv;
      hide Drop;
      hide Wired;
      hide SetOf;
      hide Kids;
      hide Without;
      hide Nth;
      ghost var s, kids, i := Snap(), queries[q].children, 0;
      PrefixBounds(cfg, s, q);
      KidsOfParented(cfg, s, {q}, q);
      ChildrenAre(q);
      var cqu := siblings.ends[q].head;
      while cqu.Some?
        invariant i <= |kids| && cqu == Nth(kids, i) && Valid({q}) && Snap() == Drop(s, SetOf(kids[..i]))
        decreases |kids| - i
      {
        NthIs(kids, i);
        NextToCancel(cfg, s, q, i);
        ChildrenAre(q);
        NthIs(queries[q].children, 1);
        NthIs(kids, i + 1);
        var ncqu := siblings.links[cqu.value].next;
        Cancel(cqu.value, {q});
        cqu := ncqu;
        i := i + 1;
      }
      NthIs(kids, i);
    }

    // adns_cancel, of a child of the query being processed or of a query without parent.
    method Cancel(q: QId, ghost off: set<QId>)
      requires Valid(off) && q in queries && q !in off
      requires if queries[q].parent.Some? then off == {queries[q].parent.value} else off == {}
      modifies this, queues, siblings
      ensures Valid(off) && Snap() == Drop(old(Snap()), {q} + Kids(old(Snap()), q))
      decreases if queries[q].parent.None? then 1 else 0, 1
    {
      hide Inv;
      hide Drop;
      hide Wired;
      hide Without;
      hide LeaveQueue;
      hide Queue;
      ghost var s := Snap();
      LeaveQueueIs(cfg, s, off, q);
      KidsOfParented(cfg, s, off, q);
      var parent := queries[q].parent;
      if parent.Some? {
        FreeChildIs(cfg, s, off, parent.value, q);
        CancelChildKeeps(cfg, s, parent.value, q);
        assert {q} + Kids(s, q) == {q};
        ghost var y := queries[parent.value].(children := Without(queries[parent.value].children, {q}));
        LeaveAfterSet(s, parent.value, y, queries[q].state, q);
        UnlinkChild(parent.value, q);
      }
      UnlinkFrom(queries[q].state, q);
      if parent.None? {
        // Children have no children: for them the loop of cancel_children does nothing.
        UnqueueKeeps(cfg, s, {}, q);
        assert {} + {q} == {q};
        CancelChildren(q);
        FreeRootIs(cfg, s, q);
        CancelKeeps(cfg, s, q);
      }
      Free(q);
    }

    // ---------- Completion ----------

    // adns__query_done. A finished child is freed before its record is handed to the callback; the
    // source frees it right after.
    method QueryDone(q: QId)
      requires Valid({q}) && q in queries && ParentLives(Snap(), q)
      requires Conclusive(queries[q]) && (queries[q].parent.None? ==> Final(queries[q]))
      modifies this, queues, siblings
      ensures Snap() == Finish(old(Snap()), q) && Valid({})
      decreases if queries[q].parent.Some? then 1 else 0, 0
    {
      hide Inv;
      hide Drop;
      hide Wired;
      hide Leaving;
      hide RunCallback;
      hide Final;
      hide Conclusive;
      ghost var s := Snap();
      hide Kids;
      FinishKeeps(cfg, s, q);
      FinishIs(cfg, s, q);
      hide Finish;
      CancelChildren(q);
      var x := queries[q].(id := -1);
      if x.flags.owner && x.flags.search {
        x := x.(answer := x.answer.(owner := Some(x.searchVb)));
      }
      if x.parent.Some? {
        FinishChild(q, x.parent.value, x);
      } else {
        OffQueues(cfg, Snap(), {q}, q);
        x := x.(allocations := 0, asked := LastAsked(x), dgram := []);  // makefinal_query
        LinkTo(Done, q);
        Store(q, x.(state := Done));
      }
    }

    // The end of adns__query_done for a child.
    method FinishChild(q: QId, p: QId, x: Query)
      requires Valid({q}) && q in queries && queries[q].parent == Some(p) &&
               x == queries[q].(id := x.id, answer := x.answer)
      requires x.answer.status == queries[q].answer.status && x.answer.rrs == queries[q].answer.rrs
      requires Conclusive(queries[q])
      modifies this, queues, siblings
      ensures Snap() == Finish(old(Snap()), q) && Valid({})
      decreases 0, 4
    {
      hide Inv;
      hide Drop;
      hide Wired;
      hide Without;
      hide RunCallback;
      hide CoveredBut;
      hide SlotsOk;
      ghost var s := Snap();
      LeaveIs(cfg, s, q, p);
      LeaveFamily(cfg, s, q, p);
      LeavingAccount(cfg, s, q, p);
      CallbackReads(Drop(Unqueue(s, p), {q}), p, s.qs[q], x);
      UnlinkChild(p, q);
      UnlinkFrom(Childw, p);
      Free(q);
      assert Snap() == Drop(Unqueue(s, p), {q});
      Callback(p, x);
    }

    // child->ctx.callback
    method Callback(p: QId, child: Query)
      requires Valid({p}) && Leaving(Snap(), p, child)
      modifies this, queues, siblings
      ensures Snap() == RunCallback(old(Snap()), p, child) && Valid({})
      decreases 0, 3
    {
      hide Inv;
      hide Wired;
      hide RunCallback;
      hide Leaving;
      LeavingHas(Snap(), p, child);
      if child.callback.IcbHostaddr? {
        HostCallback(p, child);
      } else {
        PtrCallback(p, child);
      }
    }

    // icb_hostaddr
    method HostCallback(p: QId, child: Query)
      requires Valid({p}) && Leaving(Snap(), p, child) && child.callback.IcbHostaddr?
      modifies this, queues, siblings
      ensures Snap() == RunCallback(old(Snap()), p, child) && Valid({})
      decreases 0, 2
    {
      hide Inv;
      hide Wired;
      hide WaitOrComplete;
      hide CoveredBut;
      hide SlotsOk;
      hide Covered;
      hide Conclusive;
      hide HoldsName;
      FilledKeeps(cfg, Snap(), p, child);
      FilledAccount(Snap(), p, child);
      FilledSettles(queries[p], child);
      var x, st := queries[p], child.answer.status;
      var rrp := x.answer.rrs[child.slot].(astatus := st, addrs := child.answer.rrs);
      rrp := rrp.(naddrs := if TempFail(st) then -1 else |child.answer.rrs|);
      var n := if child.answer.rrs != [] then 1 else 0;  // adns__transfer_interim
      x := x.(allocations := x.allocations + n, answer := x.answer.(rrs := x.answer.rrs[child.slot := rrp]));
      assert x == Filled(queries[p], child);
      Store(p, x);
      WaitOrFinish(p);
    }

    // icb_ptr
    method PtrCallback(p: QId, child: Query)
      requires Valid({p}) && Leaving(Snap(), p, child) && child.callback.IcbPtr?
      modifies this, queues, siblings
      ensures Snap() == RunCallback(old(Snap()), p, child) && Valid({})
      decreases 0, 2
    {
      hide Inv;
      hide Wired;
      hide WaitOrComplete;
      hide CompleteRoot;
      hide CoveredBut;
      hide SlotsOk;
      hide Covered;
      hide Conclusive;
      hide HoldsName;
      ghost var s := Snap();
      var st := child.answer.status;
      if st == NxDomain || st == NoData {
        QueryFail(p, Inconsistent);
      } else if st != Ok {
        QueryFail(p, st);
      } else {
        var i, found := 0, false;
        while i < |child.answer.rrs| && !found
          invariant 0 <= i <= |child.answer.rrs| && Snap() == s && Wired()
          invariant found <==> queries[p].ptrAddr.Some? && Address(queries[p].ptrAddr.value) in child.answer.rrs[..i]
        {
          found := queries[p].ptrAddr.Some? && child.answer.rrs[i] == Address(queries[p].ptrAddr.value);
          i := i + 1;
        }
        assert !found ==> child.answer.rrs[..i] == child.answer.rrs;
        if found {
          ConfirmKeeps(cfg, s, p, child);
          ConfirmedAccount(s, p, child);
          Store(p, ConfirmedBy(queries[p], child));
          WaitOrFinish(p);
        } else {
          QueryFail(p, Inconsistent);
        }
      }
    }

    // What both callbacks end with.
    method WaitOrFinish(p: QId)
      requires Valid({p}) && p in queries && queries[p].parent.None? && queries[p].state.Childw?
      requires 0 <= queries[p].id < 0x1_0000 && SlotsOk(Snap(), p) && Covered(Snap(), p) && Hopeful(queries[p])
      modifies this, queues, siblings
      ensures Snap() == WaitOrComplete(old(Snap()), p) && Valid({})
      decreases 0, 1
    {
      hide Inv;
      hide Wired;
      hide CompleteRoot;
      ghost var s := Snap();
      WaitOrCompleteKeeps(cfg, s, p);
      OffQueues(cfg, s, {p}, p);
      ChildrenAre(p);
      if siblings.ends[p].head.Some? {
        LinkTo(Childw, p);
      } else {
        CoveredIsFinal(s, p);
        QueryDone(p);
      }
    }

    // adns__query_fail.
    method QueryFail(q: QId, st: Status)
      requires Valid({q}) && q in queries && ParentLives(Snap(), q) && st != Ok
      modifies this, queues, siblings
      ensures Snap() == Fail(old(Snap()), q, st) && Valid({})
      decreases if queries[q].parent.Some? then 1 else 0, 1
    {
      hide Inv;
      hide Wired;
      hide Drop;
      hide Finish;
      ghost var s := Snap();
      FailOrder(cfg, s, q, st);
      CancelChildren(q);
      StatusKeeps(cfg, Snap(), q, st);
      var ans := queries[q].answer.(rrs := []);  // adns__reset_preserved
      Store(q, queries[q].(answer := ans.(status := st)));
      QueryDone(q);
    }

    // ---------- Sending ----------

    // adns__query_send, over UDP. A child being submitted is sent while its parent is being
    // processed too; only a query that fails here has to be the only one.
    method QuerySend(q: QId, now: int)
      requires ValidConfig(cfg) && Wired() && q in queries && ParentLives(Snap(), q) && OnNoQueue(Snap(), q)
      requires |queries[q].dgram| > DNS_MAXUDP || queries[q].retries >= UDPMAXRETRIES ==> Valid({q})
      modifies this, queues, siblings
      ensures Snap() == Send(cfg, old(Snap()), q, now) && Wired()
      ensures old(CanSend(q, now)) ==> Valid({})
    {
      hide Inv;
      hide Wired;
      hide Fail;
      hide Asking;
      hide Ready;
      hide OnNoQueue;
      ghost var s := Snap();
      if CanSend(q, now) {
        SendKeeps(cfg, s, q, now);
      }
      var x := queries[q];
      if |x.dgram| > DNS_MAXUDP {
        QueryFail(q, SystemFail);
      } else if x.retries >= UDPMAXRETRIES {
        QueryFail(q, Timeout);
      } else {
        var serv := x.udpnextserver;
        x := x.(sent := x.sent + [Sending(serv, now)]);  // sendto
        x := x.(timeout := now + RETRY, udpsent := x.udpsent + {serv},
                udpnextserver := (serv + 1) % cfg.nservers, retries := x.retries + 1);
        LinkTo(Tosend, q);
        Store(q, x);
      }
    }

    /** A query being processed that may be sent. */
    ghost predicate CanSend(q: QId, now: int)
      reads this, queues, siblings
    {
      Valid({q}) && q in queries && Ready(queries[q], now) && queries[q].state.Tosend? && queries[q].children == [] &&
      0 <= queries[q].id < 0x1_0000 && Asking(queries[q]) && queries[q].ptrAddr.None?
    }

    // ---------- Searching and submitting ----------

    // query_simple: the name is the first `ol` bytes of what is at `owner`.
    method QuerySimple(q: QId, owner: seq<Byte>, ol: nat, now: int)
      requires ValidConfig(cfg) && Sendable(cfg, Snap(), q, now) && Wired() && SealedSearch(cfg, queries[q])
      requires StaysInside(owner, ol, queries[q].flags.quoteokQuery)
      requires GoesBy(queries[q], owner[..ol])
      modifies this, queues, siblings
      ensures Snap() == Submission.QuerySimple(cfg, old(Snap()), q, owner[..ol], now) && Valid({})
      decreases Remaining(cfg, queries[q]), 1
    {
      hide Inv;
      hide Wired;
      hide Fail;
      hide Send;
      hide Submission.SearchNext;
      hide ReadLabels;
      hide Message;
      hide Asking;
      hide Ready;
      hide OnNoQueue;
      hide SealedNames;
      hide Encode;
      hide StaysInside;
      hide Reserved;
      hide Sendable;
      ghost var s := Snap();
      SendableIs(cfg, s, q, now);
      InsideName(owner, ol, queries[q].flags.quoteokQuery);
      QuerySimpleKeeps(cfg, s, q, owner[..ol], now);
      NextIdSendable(cfg, s, q, now);
      var x := queries[q];
      var vb := new Vbuf();
      InsideIsReserved(owner, ol, x.flags.quoteokQuery, vb.avail);
      var st, id := Mkquery(vb, nextid, owner, ol, x.typ % 0x1_0000, x.flags.quoteokQuery);
      nextid := nextid + 1;
      if st != Ok {
        if st == QueryDomainTooLong && x.flags.search {
          SearchNext(q, now);
        } else {
          QueryFail(q, st);
        }
        return;
      }
      AskedIsAsking(x, id, owner[..ol]);
      QuerySubmit(q, vb, id, owner[..ol], now);
    }

    // query_submit.
    method QuerySubmit(q: QId, vb: Vbuf, id: nat, ghost owner: seq<Byte>, now: int)
      requires ValidConfig(cfg) && Sendable(cfg, Snap(), q, now) && Wired() && id < 0x1_0000
      requires vb.Valid() && Asking(Asked(queries[q], id, vb.Contents()))
      requires GoesBy(queries[q], owner) && AsksOwner(queries[q], vb.Contents(), owner)
      modifies this, queues, siblings
      ensures Snap() == Send(cfg, Set(old(Snap()), q, Asked(old(queries[q]), id, old(vb.Contents()))), q, now) &&
              Valid({})
    {
      hide Inv;
      hide Wired;
      hide Fail;
      hide Send;
      hide Asking;
      hide Ready;
      hide OnNoQueue;
      AskedSendable(cfg, Snap(), q, id, vb.Contents(), owner, now);
      Store(q, queries[q].(id := id, dgram := vb.buf[..vb.used], aliased := false));
      OffQueues(cfg, Snap(), {q}, q);
      QuerySend(q, now);
    }

    // adns__search_next.
    method SearchNext(q: QId, now: int)
      requires ValidConfig(cfg) && Sendable(cfg, Snap(), q, now) && queries[q].flags.search && Wired()
      requires SealedSearch(cfg, queries[q])
      modifies this, queues, siblings
      ensures Snap() == Submission.SearchNext(cfg, old(Snap()), q, now) && Valid({})
      decreases Remaining(cfg, queries[q]), 0
    {
      hide Inv;
      hide Wired;
      hide Fail;
      hide Ready;
      hide Submission.QuerySimple;
      hide SealedSearch;
      hide StaysInside;
      ghost var s := Snap();
      SearchNextKeeps(cfg, s, q, now);
      CandidateSendable(cfg, s, q, now);
      if NextCandidate(cfg, s.qs[q]).Some? {
        NextIsSealed(cfg, s.qs[q]);
      }
      var x := queries[q];
      var suffix: seq<Byte> := [];
      if x.searchDoneabs < 0 {
        x := x.(searchDoneabs := 1);
      } else if x.searchPos >= |cfg.searchlist| {
        if x.searchDoneabs != 0 {
          QueryFail(q, NxDomain);
          return;
        }
        x := x.(searchDoneabs := 1);
      } else {
        suffix := [DOT] + cfg.searchlist[x.searchPos];
        x := x.(searchPos := x.searchPos + 1);
      }
      x := x.(searchVb := x.searchName + suffix, dgram := []);
      assert x.searchName + [] == x.searchName;
      assert suffix != [] ==> x.searchName + suffix == x.searchName + [DOT] + suffix[1..];
      Store(q, x);
      assert x.searchVb[..|x.searchVb|] == x.searchVb;
      QuerySimple(q, x.searchVb, |x.searchVb|, now);
    }

    /** query_alloc: a query on no queue. */
    method AllocQuery(typ: nat, flags: Flags, ghost now: int) returns (q: QId)
      requires Valid({})
      modifies this, siblings
      ensures q == old(unused) && Snap() == Add(old(Snap()), Virgin(typ, flags)) && Wired()
      ensures Sendable(cfg, Snap(), q, now) && Fields(cfg, queries[q], true)
    {
      hide Inv;
      hide Wired;
      hide Fields;
      VirginFields(cfg, typ, flags);
      AddSendable(cfg, Snap(), Virgin(typ, flags), now);
      NotInUse(cfg, Snap(), {});
      q := unused;
      Create(Virgin(typ, flags));
    }

    // adns_submit, up to the system calls at its end. `owner` is a C string; its terminator stands behind it.
    method SubmitQuery(owner: seq<Byte>, typ: nat, flags: Flags, now: int) returns (e: Errno, q: QId)
      requires Valid({}) && (flags.search && !Absolute(owner) ==> SealedNames(cfg, owner, flags.quoteokQuery))
      modifies this, queues, siblings
      ensures Valid({})
      ensures if KnownType(typ) then
                e == NoError && q == old(unused) && Snap() == Submit(cfg, old(Snap()), owner, typ, flags, now)
              else e == ENOSYS && Snap() == old(Snap())
    {
      hide Inv;
      hide Wired;
      hide Fields;
      hide Fail;
      hide Ready;
      hide Submission.SubmitNamed;
      hide SealedNames;
      hide Absolute;
      hide Sendable;
      ghost var s := Snap();
      if !KnownType(typ) {
        return ENOSYS, 0;
      }
      e := NoError;
      q := AllocQuery(typ, flags, now);
      SendableIs(cfg, Snap(), q, now);
      if owner == [] {
        QueryFail(q, QueryDomainInvalid);
        return;
      }
      if |owner| > DNS_MAXDOMAIN + 1 {
        QueryFail(q, QueryDomainTooLong);
        return;
      }
      SubmitString(q, owner, now, s, typ, flags);
    }

    // adns_submit, from the look at the final dot on.
    method SubmitString(q: QId, owner: seq<Byte>, now: int, ghost s: St, ghost typ: nat, ghost flags: Flags)
      requires ValidConfig(cfg) && Inv(cfg, s, {}) && q == s.unused && Snap() == Add(s, Virgin(typ, flags)) && Wired()
      requires owner != [] && (flags.search && !Absolute(owner) ==> SealedNames(cfg, owner, flags.quoteokQuery))
      modifies this, queues, siblings
      ensures Valid({})
      ensures Snap() == if Absolute(owner) then
                          SubmitNamed(cfg, s, owner[..|owner| - 1], typ, flags.(search := false), now)
                        else SubmitNamed(cfg, s, owner, typ, flags, now)
    {
      hide Inv;
      hide Wired;
      hide Submission.SubmitNamed;
      hide SealedNames;
      hide StaysInside;
      hide Add;
      StringStays(owner, flags.quoteokQuery);
      var ol := |owner|;
      if owner[ol - 1] == DOT && (ol < 2 || owner[ol - 2] != BACKSLASH) {
        DontSearch(q, s, typ, flags);
        SubmitOwner(q, owner + [0], ol - 1, now, s, typ, flags.(search := false));
      } else {
        SubmitOwner(q, owner + [0], ol, now, s, typ, flags);
      }
    }

    /** A name that ends in a dot is not searched for. */
    method DontSearch(q: QId, ghost s: St, ghost typ: nat, ghost flags: Flags)
      requires q == s.unused && Snap() == Add(s, Virgin(typ, flags)) && Wired()
      modifies this
      ensures Snap() == Add(s, Virgin(typ, flags.(search := false))) && Wired()
    {
      hide Wired;
      var x := queries[q];
      Store(q, x.(flags := x.flags.(search := false)));
      assert Snap() == Add(s, Virgin(typ, flags.(search := false)));
    }

    // The rest of adns_submit: search, or ask for the name as given, the first `ol` bytes of the string at `owner`.
    method SubmitOwner(q: QId, owner: seq<Byte>, ol: nat, now: int, ghost s: St, ghost typ: nat, ghost flags: Flags)
      requires ValidConfig(cfg) && Inv(cfg, s, {}) && q == s.unused && Snap() == Add(s, Virgin(typ, flags)) && Wired()
      requires StaysInside(owner, ol, flags.quoteokQuery)
      requires flags.search ==> |owner| == ol + 1 && owner[ol] == 0 && SealedNames(cfg, owner[..ol], flags.quoteokQuery)
      modifies this, queues, siblings
      ensures Valid({}) && Snap() == SubmitNamed(cfg, s, owner[..ol], typ, flags, now)
    {
      hide Inv;
      hide Wired;
      hide Submission.QuerySimple;
      hide Submission.SearchNext;
      hide SealedNames;
      hide StaysInside;
      InsideName(owner, ol, flags.quoteokQuery);
      NamedSendable(cfg, s, owner[..ol], typ, flags, now);
      hide Sendable;
      var x, name := queries[q], owner[..ol];
      if x.flags.search {
        DotsOfString(owner, ol);
        var ndots := CountDots(owner);
        x := x.(searchName := name, searchVb := name, searchDoneabs := if ndots >= cfg.ndots then -1 else 0);
        Store(q, x);
        assert Snap() == Add(s, Named(cfg, name, typ, flags));
        SearchNext(q, now);
      } else {
        if x.flags.owner {
          x := x.(allocations := 1, answer := x.answer.(owner := Some(name)));  // save_owner
        }
        Store(q, x);
        assert Snap() == Add(s, Named(cfg, name, typ, flags));
        QuerySimple(q, owner, ol, now);
      }
    }

    // adns__mkquery_frdgram and adns__internal_submit, and linking the child to its parent
    // (adns/types.c:667-691, 1124-1141). `vb` is the buffer of the parent; the child takes it over.
    method SubmitChild(p: QId, slot: nat, vb: Vbuf, dgram: seq<Byte>, begin: nat, now: int)
      requires Valid({p}) && p in queries && queries[p].parent.None? && Derefs(queries[p].typ)
      requires ValidOwner(Owner(dgram, begin)) && vb.Valid() && Suffices(vb.avail, dgram, begin)
      modifies this, queues, siblings, vb, vb.buf
      ensures Valid({p}) && old(unused !in queries) && WithinLimits(OwnerLabels(Owner(dgram, begin)))
      ensures Snap() == SubmitKid(cfg, old(Snap()), p, Kid(OwnerLabels(Owner(dgram, begin)), slot), now)
    {
      hide Inv;
      hide Wired;
      hide Links;
      hide Fields;
      hide Message;
      hide Send;
      hide OnNoQueue;
      ghost var s, kid := Snap(), Kid(OwnerLabels(Owner(dgram, begin)), slot);
      NotInUse(cfg, s, {p});
      OffQueues(cfg, s, {p}, unused);
      NobodysChild(cfg, s, {p}, unused);
      DecodedWithinLimits(dgram, begin, |dgram|);
      hide WithinLimits;
      hide Suffices;
      SubmitKidKeeps(cfg, s, p, kid, now);
      KidWaits(cfg, s, s.qs[p], kid, s.nextid % 0x1_0000, now);
      var id := MkqueryFrDgram(vb, nextid, dgram, begin, ADDR);
      nextid := nextid + 1;
      var parent := queries[p];
      var fl := NO_FLAGS.(quoteokQuery := true);
      if parent.typ != PTR && !parent.flags.cnameLoose {
        fl := fl.(cnameForbid := true);
      }
      var x := Virgin(ADDR, fl).(callback := if parent.typ == PTR then IcbPtr else IcbHostaddr, slot := slot);
      x := x.(id := id, dgram := vb.buf[..vb.used], first := vb.buf[..vb.used]);
      assert x == NewKid(parent, id, kid);
      hide NewKid;
      hide SendKid;
      StillOnNoQueue(s, Snap(), unused);
      InternalSubmit(p, x, now);
    }

    // adns__internal_submit, and linking the new query to its parent.
    method InternalSubmit(p: QId, x: Query, now: int)
      requires ValidConfig(cfg) && Wired() && p in queries && unused !in queries && OnNoQueue(Snap(), unused)
      requires forall q :: q in queries ==> unused !in queries[q].children
      requires x.parent.None? && |x.dgram| <= DNS_MAXUDP && x.retries == 0 && x.children == []
      modifies this, queues, siblings
      ensures Snap() == SendKid(cfg, old(Snap()), p, x, now) && Wired()
    {
      hide Wired;
      hide Fail;
      hide OnNoQueue;
      ghost var s := Snap();
      var c := unused;
      Create(x);
      StillOnNoQueue(s, Snap(), c);
      QuerySend(c, now);
      Store(c, queries[c].(parent := Some(p)));
      LinkChild(p, c);
    }

    /** Walking along a queue. */
    lemma NextInQueue(st: QState, i: nat)
      requires Wired() && i < |Queue(Snap(), st)|
      ensures var q := Queue(Snap(), st)[i];
              q in queues.links && queues.links[q].next == Nth(Queue(Snap(), st), i + 1)
    {
      QueueIs(st);
      queues.Walk(st, i);
    }

    // ---------- Timeouts ----------

    // timeouts_queue with `act` set. `events` is what happened.
    method TimeoutsQueue(queue: QState, now: int) returns (ghost events: seq<Event>)
      requires Valid({}) && (queue.Tosend? || queue.Tcpw?)
      modifies this, queues, siblings
      ensures Valid({}) && Reaches(cfg, old(Snap()), events, Snap())
      ensures TimeoutsAt(events, now)
      ensures forall q :: q in Queue(Snap(), queue) ==> q in queries && queries[q].timeout >= now
      ensures ExpiredSet(Snap(), now) <= old(ExpiredSet(Snap(), now))
      ensures queue.Tcpw? ==> forall q :: q in Snap().udpw ==> q in old(Snap().udpw)
    {
      hide Inv;
      hide Wired;
      hide Reaches;
      hide ExpiredSet;
      hide TimeoutsAt;
      ghost var s, i := Snap(), 0;
      events := [];
      NoTimeouts(now);
      NoEvents(cfg, s);
      WalksOnStart(cfg, s, s, events, queue, now);
      hide WalksOn;
      QueueIs(queue);
      var qu := queues.ends[queue].head;
      while qu.Some?
        invariant Valid({}) && i <= |Queue(Snap(), queue)| && qu == Nth(Queue(Snap(), queue), i)
        invariant WalksOn(cfg, s, Snap(), events, queue, i, now)
        decreases ExpiredSet(Snap(), now), |Queue(Snap(), queue)| - i
      {
        ghost var t := Snap();
        var q := qu.value;
        NextInQueue(queue, i);
        QueuedIs(cfg, t, queue, q);
        if queries[q].timeout >= now {
          WalksOnNext(cfg, s, t, events, queue, i, now);
          i := i + 1;
          qu := queues.links[q].next;
        } else {
          WalksOnIs(cfg, s, t, events, queue, i, now);
          events := ExpireOne(queue, q, now, s, events);
          WalksOnAgain(cfg, s, t, Snap(), events, queue, i, now);
          i := 0;
          QueueIs(queue);
          qu := queues.ends[queue].head;
        }
      }
      WalksOnIs(cfg, s, Snap(), events, queue, i, now);
      InTimeAll(Snap(), queue, now);
      hide InTime;
    }

    // One turn that finds an expired query: one more event of the run, after which there are fewer of them.
    method ExpireOne(queue: QState, q: QId, now: int, ghost s: St, ghost events: seq<Event>)
      returns (ghost more: seq<Event>)
      requires Valid({}) && (queue.Tosend? || queue.Tcpw?) && q in Queue(Snap(), queue)
      requires q in queries && queries[q].timeout < now && Reaches(cfg, s, events, Snap()) && TimeoutsAt(events, now)
      modifies this, queues, siblings
      ensures Valid({}) && Reaches(cfg, s, more, Snap()) && TimeoutsAt(more, now)
      ensures ExpiredSet(Snap(), now) < old(ExpiredSet(Snap(), now))
      ensures queue.Tcpw? ==> forall r :: r in Snap().udpw ==> r in old(Snap().udpw)
    {
      hide Inv;
      hide Wired;
      hide Drop;
      hide Reaches;
      hide Enabled;
      hide Apply;
      hide Expire;
      hide ExpiredSet;
      hide TimeoutsAt;
      ghost var t := Snap();
      QueuedIs(cfg, t, queue, q);
      IsExpired(t, q, now);
      ExpireShrinks(cfg, t, q, now);
      ExpiredEvent(cfg, s, events, t, q, now);
      OneMoreTimeout(events, q, now);
      more := events + [Expired(q, now)];
      ActOnExpired(queue, q, now);
    }

    // One expired query (adns/event.c:268-276).
    method ActOnExpired(queue: QState, q: QId, now: int)
      requires Valid({}) && (queue.Tosend? || queue.Tcpw?) && q in Queue(Snap(), queue)
      requires q in queries && queries[q].timeout < now
      modifies this, queues, siblings
      ensures old(ParentLives(Snap(), q)) && Snap() == Expire(cfg, old(Snap()), q, now) && Valid({})
    {
      hide Inv;
      hide Wired;
      hide Drop;
      hide Send;
      hide Fail;
      hide Ready;
      hide Asking;
      hide LeaveQueue;
      ghost var s := Snap();
      QueuedIs(cfg, s, queue, q);
      LeaveQueueIs(cfg, s, {}, q);
      PopWaiting(cfg, s, q);
      ExpireKeeps(cfg, s, q, now);
      ExpiredReady(cfg, s, q, now);
      ExpiredAsks(cfg, s, q);
      ReplyingFacts(cfg, Unqueue(s, q), q);
      OffQueues(cfg, Unqueue(s, q), {q}, q);
      hide Replying;
      UnlinkFrom(queue, q);
      hide OnNoQueue;
      hide Unqueue;
      if !queries[q].state.Tosend? {
        QueryFail(q, Timeout);
      } else {
        QuerySend(q, now);
      }
    }

    // adns__timeouts with `act` set, up to the TCP connection: no deadline before `now` is left.
    method Timeouts(now: int) returns (ghost events: seq<Event>)
      requires Valid({})
      modifies this, queues, siblings
      ensures Valid({}) && Reaches(cfg, old(Snap()), events, Snap())
      ensures ExpiredSet(Snap(), now) == {}
    {
      hide Inv;
      hide Wired;
      hide Reaches;
      ghost var s := Snap();
      events := TimeoutsQueue(Tosend, now);
      ghost var t := Snap();
      var more := TimeoutsQueue(Tcpw, now);
      ReachesOn(cfg, s, events, t, more, Snap());
      events := events + more;
    }

    // The deadlines that timeouts_queue meets with `act` clear.
    method DeadlinesOn(st: QState) returns (ts: seq<Timeval>)
      requires Valid({}) && (st.Tosend? || st.Tcpw?)
      ensures DeadlinesOf(Snap(), Queue(Snap(), st), ts)
    {
      hide Inv;
      hide Wired;
      hide DeadlinesOf;
      hide Listed;
      hide Apart;
      hide AllNormal;
      ghost var s := Snap();
      ghost var on := Queue(s, st);
      NoDeadlines(s);
      ts := [];
      QueueIs(st);
      var qu := queues.ends[st].head;
      while qu.Some?
        invariant |ts| <= |on| && qu == Nth(on, |ts|) && DeadlinesOf(s, on[..|ts|], ts)
        decreases |on| - |ts|
      {
        NextInQueue(st, |ts|);
        QueuedIs(cfg, s, st, qu.value);
        OneMoreDeadline(s, on, ts);
        ts := ts + [FromMicros(queries[qu.value].timeout)];
        qu := queues.links[qu.value].next;
      }
      assert on[..|ts|] == on;
    }

    // adns_firsttimeout: the caller's wait cut down to the first deadline of any waiting query or of the connection.
    method FirstTimeout(tcp: Connection, tv: TvRef, tvbuf: TvCell, now: Timeval) returns (ghost w: TcpWait)
      requires Valid({}) && tcp.Valid() && NormalWait(tv) && Normal(now) && NotNegative(WaitOf(tv)) && now.sec > 0
      modifies tcp, tv, tvbuf, tv.cell
      ensures w == if tcp.state.Broken? || (tcp.state.Disconnected? && Snap().tcpw != []) then AtOnce
                   else if tcp.state.Connecting? || (tcp.state.Connected? && Snap().tcpw == []) then By(tcp.timeout)
                   else NoMatter
      ensures w.AtOnce? ==> WaitOf(tv) == Some(0)
      ensures !w.AtOnce? ==> NoLonger(Snap(), Micros(now), old(WaitOf(tv)), WaitOf(tv), w) &&
                             Attained(Snap(), Micros(now), old(WaitOf(tv)), WaitOf(tv), w)
    {
      hide Inv;
      hide Wired;
      hide Shortest;
      hide DeadlinesOf;
      hide NoLonger;
      hide Attained;
      DeadlinesNormal(Snap());
      var udpw := DeadlinesOn(Tosend);
      var tcpw := DeadlinesOn(Tcpw);
      w := tcp.FirstTimeout(tv, tvbuf, now, udpw, tcpw);
      if !w.AtOnce? {
        WaitIsLeast(Snap(), now, old(WaitOf(tv)), udpw, tcpw, w);
      }
    }

    // adns__internal_check.
    method InternalCheck(handle: Option<QId>) returns (e: Errno, q: QId, answer: Answer)
      requires Valid({}) && (handle.Some? ==> handle.value in queries)
      modifies this, queues, siblings
      ensures Valid({})
      ensures e == ESRCH <==> handle.None? && old(queries) == map[]
      ensures e == NoError <==> if handle.Some? then handle.value in old(Snap().output) else old(Snap().output) != []
      ensures e == NoError || e == EAGAIN || e == ESRCH
      ensures if e == NoError then
                q == (if handle.Some? then handle.value else old(Snap().output[0])) && q in old(queries) &&
                answer == old(queries)[q].answer && Snap() == Drop(old(Snap()), {q})
              else Snap() == old(Snap())
    {
      hide Inv;
      hide Wired;
      hide Drop;
      hide LeaveQueue;
      ghost var s := Snap();
      QueueIs(Done);
      QueueIs(Tosend);
      QueueIs(Tcpw);
      q, answer := 0, Answer(Ok, None, None, []);
      if handle.None? {
        if queues.ends[Done].head.Some? {
          q := queues.ends[Done].head.value;
        } else if queues.ends[Tosend].head.Some? || queues.ends[Tcpw].head.Some? {
          WaitingLives(cfg, s);
          return EAGAIN, q, answer;
        } else {
          NothingOutstanding(cfg, s);
          return ESRCH, q, answer;
        }
      } else {
        q := handle.value;
        FinishedById(cfg, s, q);
        if queries[q].id >= 0 {
          return EAGAIN, q, answer;
        }
      }
      CollectedIs(cfg, s, q);
      UnlinkFrom(Done, q);
      answer := queries[q].answer;
      Free(q);
      e := NoError;
    }

    // ---------- adns__consistency ----------

    // The walk over one queue (adns/check.c:129-195): none of its assertions fails, those about pointers included.
    method CheckQueue(st: QState) returns (seen: seq<QId>)
      requires Valid({}) && NoTcp(Snap())
      ensures seen == Queue(Snap(), st) && forall q :: q in seen ==> CheckedOn(cfg, Snap(), q, st)
    {
      hide Inv;
      hide Wired;
      hide NoTcp;
      hide CheckedOn;
      hide Listed;
      hide Apart;
      QueueIs(st);
      seen := queues.Check(st);
      var i := 0;
      while i < |seen|
        invariant 0 <= i <= |seen|
        invariant forall q :: q in seen[..i] ==> CheckedOn(cfg, Snap(), q, st)
      {
        CheckOne(st, seen[i]);
        assert seen[..i + 1] == seen[..i] + [seen[i]];
        i := i + 1;
      }
      assert seen[..i] == seen;
    }

    // checkc_query and what the queue asks of its queries.
    method CheckOne(st: QState, q: QId)
      requires Valid({}) && NoTcp(Snap()) && q in Queue(Snap(), st)
      ensures CheckedOn(cfg, Snap(), q, st)
    {
      hide Inv;
      hide Wired;
      hide NoTcp;
      OnQueueIs(cfg, Snap(), st, q);
      CheckHolds(cfg, Snap(), q);
      var x := queries[q];
      ChildrenAre(q);
      if st.Childw? {
        assert siblings.ends[q].head.Some?;
        KidsListed(q);
        var children := siblings.Check(q);
        assert forall c :: c in children ==> queries[c].parent == Some(q) && !queries[c].state.Done?;
      } else {
        assert siblings.ends[q].head.None?;
      }
      if x.parent.Some? {
        KidsListed(x.parent.value);
        var _ := siblings.AssertOn(x.parent.value, q);
      }
    }

    lemma KidsListed(q: QId)
      requires Wired() && q in queries
      ensures siblings.Valid() && q in siblings.lists && siblings.lists[q] == queries[q].children
    {
    }

    // adns__consistency, up to its global part: the walks meet every query there is, and the query of the handle is
    // found on the queue of its state.
    method CheckConsistency(handle: Option<QId>) returns (seen: seq<QId>, at: Option<nat>)
      requires Valid({}) && NoTcp(Snap()) && (handle.Some? ==> handle.value in queries)
      ensures forall q :: q in seen <==> q in queries
      ensures at.Some? <==> handle.Some?
      ensures at.Some? ==> var on := Queue(Snap(), queries[handle.value].state);
                           at.value < |on| && on[at.value] == handle.value
    {
      hide Inv;
      hide Wired;
      hide NoTcp;
      hide CheckedOn;
      var udpw := CheckQueue(Tosend);
      var tcpw := CheckQueue(Tcpw);
      var childw := CheckQueue(Childw);
      var output := CheckQueue(Done);
      EveryQueued(cfg, Snap());
      seen, at := udpw + tcpw + childw + output, None;
      if handle.Some? {
        var st := queries[handle.value].state;
        HandleIsOn(cfg, Snap(), handle.value);
        QueueIs(st);
        var i := queues.AssertOn(st, handle.value);
        at := Some(i);
      }
    }

    // ---------- Reading the records of an answer ----------

    // pap_hostaddr, and the length check of its callers.
    method ParseHostAddr(q: QId, slot: nat, dgram: seq<Byte>, pref: nat, dmstart: nat, max: nat, sec: Sections,
                         now: int)
      returns (st: Status, rrp: Stored)
      requires ValidConfig(cfg) && Absorbing(cfg, Snap(), q) && Wired() && queries[q].parent.None? &&
               Derefs(queries[q].typ)
      requires max <= |dgram| && ParseHost(queries[q], dgram, pref, dmstart, max, sec, queries[q].ptrAddr).Parsed?
      requires var r := ParseHost(queries[q], dgram, pref, dmstart, max, sec, queries[q].ptrAddr);
               r.kid.Some? ==> WithinLimits(r.kid.value) && Fits(r.kid.value, |dgram|)
      modifies this, queues, siblings
      ensures var r := old(ParseHost(queries[q], dgram, pref, dmstart, max, sec, queries[q].ptrAddr));
              st == r.status && rrp == r.data && AllWithinLimits(KidOf(r, slot)) &&
              Snap() == Absorb(cfg, old(Snap()), q, r, slot, now) && Wired()
    {
      hide Inv;
      hide Wired;
      hide RestText;
      hide ParseGlue;
      hide OwnerLabels;
      hide WithinLimits;
      hide AllWithinLimits;
      hide Absorb;
      hide Beside;
      hide KidOf;
      hide Fits;
      hide ValidOwner;
      ghost var s, x := Snap(), queries[q];
      ghost var r := ParseHost(x, dgram, pref, dmstart, max, sec, x.ptrAddr);
      if r.kid.None? {
        AbsorbAlone(cfg, s, q, r, slot, now);
      }
      rrp := Host(pref, [], Ok, -1, []);
      var vb := new Vbuf();
      var cbyte;
      st, cbyte := PapDomain(vb, queries[q].flags.quoteokAnshost, dgram, dmstart, max);
      if st != Ok {
        return;
      }
      FollowedIsValid(dgram, dmstart, max, x.flags.quoteokAnshost);
      Allocate(q, 1);
      TextBehind(vb);
      rrp := rrp.(host := vb.buf[..vb.used - 1]);
      if r.kid.Some? {
        KidOfGlue(dgram, sec, OwnerLabels(Owner(dgram, dmstart)), rrp, if cbyte == max then Ok else InvalidData,
                  x.ptrAddr);
        FitsSuffices(vb.avail, dgram, dmstart);
      }
      hide Suffices;
      st, rrp := FindGlueOrAsk(q, slot, vb, dgram, dmstart, sec, rrp, if cbyte == max then Ok else InvalidData, now, s);
    }

    // The rest of pap_hostaddr (adns/types.c:649-691). `length` is what the caller finds when it succeeds.
    method FindGlueOrAsk(q: QId, slot: nat, vb: Vbuf, dgram: seq<Byte>, dmstart: nat, sec: Sections, host: Stored,
                         length: Status, now: int, ghost s: St)
      returns (st: Status, rrp: Stored)
      requires ValidConfig(cfg) && Absorbing(cfg, s, q) && Wired() && s.qs[q].parent.None? && Derefs(s.qs[q].typ)
      requires vb.Valid() && ValidOwner(Owner(dgram, dmstart)) && Snap() == Beside(s, q, s.qs[q].ptrAddr, 1) &&
               host.Host?
      requires var r := ParseGlue(dgram, sec, OwnerLabels(Owner(dgram, dmstart)), host, length, s.qs[q].ptrAddr);
               r.Parsed? && (r.kid.Some? ==> WithinLimits(r.kid.value) && Suffices(vb.avail, dgram, dmstart))
      modifies this, queues, siblings, vb, vb.buf
      ensures var r := ParseGlue(dgram, sec, OwnerLabels(Owner(dgram, dmstart)), host, length, s.qs[q].ptrAddr);
              Numbered(s) && st == r.status && rrp == r.data && AllWithinLimits(KidOf(r, slot)) &&
              Snap() == Absorb(cfg, s, q, r, slot, now) && Wired()
    {
      hide Inv;
      hide Wired;
      hide FindGlue;
      hide OwnerLabels;
      hide WithinLimits;
      hide AllWithinLimits;
      hide Absorb;
      hide Beside;
      hide KidOf;
      hide Suffices;
      hide ValidOwner;
      ghost var r := ParseGlue(dgram, sec, OwnerLabels(Owner(dgram, dmstart)), host, length, s.qs[q].ptrAddr);
      if r.kid.None? {
        AbsorbAlone(cfg, s, q, r, slot, now);
      }
      rrp := host;
      var addrs;
      st, addrs := FindHost(dgram, sec, Owner(dgram, dmstart));
      if st != Ok {
        return;
      }
      if addrs != [] {
        rrp := rrp.(naddrs := |addrs|, addrs := addrs);
        BesideAgain(s, q, s.qs[q].ptrAddr, 1, 1);
        Allocate(q, 1);
      } else {
        AskForHost(q, slot, vb, dgram, dmstart, now, s, r);
      }
      st := length;
    }

    // Behind what the record itself needs, its child.
    method AskForHost(q: QId, slot: nat, vb: Vbuf, dgram: seq<Byte>, dmstart: nat, now: int, ghost s: St,
                      ghost r: Parsed)
      requires ValidConfig(cfg) && Absorbing(cfg, s, q) && Wired() && s.qs[q].parent.None? && Derefs(s.qs[q].typ)
      requires vb.Valid() && ValidOwner(Owner(dgram, dmstart)) && r.Parsed? &&
               r.kid == Some(OwnerLabels(Owner(dgram, dmstart)))
      requires WithinLimits(r.kid.value) && Suffices(vb.avail, dgram, dmstart) &&
               Snap() == Beside(s, q, r.ptrAddr, r.blocks)
      modifies this, queues, siblings, vb, vb.buf
      ensures Numbered(s) && AllWithinLimits(KidOf(r, slot)) && Snap() == Absorb(cfg, s, q, r, slot, now) && Wired()
    {
      hide Inv;
      hide Wired;
      hide OwnerLabels;
      hide ValidOwner;
      hide WithinLimits;
      hide AllWithinLimits;
      hide Absorb;
      hide SubmitKid;
      hide KidOf;
      hide Suffices;
      NotInUse(cfg, s, {q});
      BesideAbsorbing(cfg, s, q, r.ptrAddr, r.blocks);
      AbsorbKid(cfg, s, q, r, slot, now);
      SubmitChild(q, slot, vb, dgram, dmstart, now);
    }

    method Allocate(q: QId, blocks: nat)
      requires q in queries && Wired()
      modifies this`queries
      ensures Snap() == Beside(old(Snap()), q, old(queries[q].ptrAddr), blocks) && q in queries && Wired()
      ensures queries[q] == old(queries[q]).(allocations := old(queries[q].allocations) + blocks)
    {
      hide Wired;
      Store(q, queries[q].(allocations := queries[q].allocations + blocks));
    }

    // pa_ptr.
    method ParsePointer(q: QId, slot: nat, dgram: seq<Byte>, dmstart: nat, max: nat, ghost rr: Rr, now: int)
      returns (st: Status, rrp: Stored)
      requires ValidConfig(cfg) && Absorbing(cfg, Snap(), q) && Wired() && queries[q].parent.None? &&
               Derefs(queries[q].typ)
      requires rr.rdstart == dmstart && rr.rdstart + rr.rdlen == max <= |dgram|
      requires var r := ParsePtr(queries[q], dgram, rr, queries[q].ptrAddr);
               r.Parsed? && (r.kid.Some? ==> WithinLimits(r.kid.value) && Fits(r.kid.value, |dgram|))
      modifies this, queues, siblings
      ensures var r := old(ParsePtr(queries[q], dgram, rr, queries[q].ptrAddr));
              st == r.status && rrp == r.data && AllWithinLimits(KidOf(r, slot)) &&
              Snap() == Absorb(cfg, old(Snap()), q, r, slot, now) && Wired()
    {
      hide Inv;
      hide Wired;
      hide RestText;
      hide OwnerLabels;
      hide WithinLimits;
      hide AllWithinLimits;
      hide Absorb;
      hide SubmitKid;
      hide KidOf;
      hide Fits;
      hide Suffices;
      hide Reverse;
      hide Beside;
      hide AskedName;
      hide ValidOwner;
      hide Printed;
      hide Absorbing;
      AbsorbingLives(cfg, Snap(), q);
      ghost var s, x := Snap(), queries[q];
      ghost var r := ParsePtr(x, dgram, rr, x.ptrAddr);
      if r.kid.None? {
        AbsorbAlone(cfg, s, q, r, slot, now);
      }
      rrp := Domain([]);
      var vb := new Vbuf();
      var cbyte;
      st, cbyte := PapDomain(vb, queries[q].flags.quoteokAnshost, dgram, dmstart, max);
      if st != Ok {
        return;
      }
      FollowedIsValid(dgram, dmstart, max, x.flags.quoteokAnshost);
      Allocate(q, 1);
      TextBehind(vb);
      rrp := Domain(vb.buf[..vb.used - 1]);
      if cbyte != max {
        st := InvalidData;
        return;
      }
      assert queries[q].dgram == x.dgram && queries[q].ptrAddr == x.ptrAddr;
      var spelled := NoteAddress(q);
      if !spelled {
        st := QueryDomainWrong;
        return;
      }
      BesideAddress(s, q, x.ptrAddr, 1, r.ptrAddr);
      FitsSuffices(vb.avail, dgram, dmstart);
      hide Suffices;
      AskForHost(q, slot, vb, dgram, dmstart, now, s, r);
      st := Ok;
    }

    // The address that the question spells, read off it once (adns/types.c:1081-1122).
    method NoteAddress(q: QId) returns (spelled: bool)
      requires Wired() && q in queries && Question(queries[q].dgram)
      modifies this`queries
      ensures Wired()
      ensures var x := old(queries[q]);
              var addr := if x.ptrAddr.None? then Reverse(AskedName(x.dgram)) else x.ptrAddr;
              spelled == addr.Some? &&
                Snap() == if spelled then Set(old(Snap()), q, x.(ptrAddr := addr)) else old(Snap())
    {
      hide Wired;
      hide Reverse;
      ghost var s := Snap();
      spelled := true;
      if queries[q].ptrAddr.None? {
        QuestionLabels(queries[q].dgram);
        var addr := ReadReverse(queries[q].dgram);
        spelled := addr.Some?;
        if spelled {
          Store(q, queries[q].(ptrAddr := addr));
        }
      } else {
        assert s.qs[q := s.qs[q]] == s.qs;
      }
    }

    // typei->parse for one accepted record.
    method ParseRecord(q: QId, slot: nat, dgram: seq<Byte>, rr: Rr, sec: Sections, o: Stray, now: int)
      returns (st: Status, rrp: Stored)
      requires ValidConfig(cfg) && Absorbing(cfg, Snap(), q) && Wired() && rr.rdstart + rr.rdlen <= |dgram|
      requires var r := ParseRr(queries[q], dgram, rr, sec, queries[q].ptrAddr, o);
               r.Parsed? && (r.kid.Some? ==> WithinLimits(r.kid.value) && Fits(r.kid.value, |dgram|))
      requires InBounds(dgram, 0, o.lablen, o.labstart)
      modifies this, queues, siblings
      ensures var r := old(ParseRr(queries[q], dgram, rr, sec, queries[q].ptrAddr, o));
              st == r.status && (st == Ok ==> rrp == r.data) && AllWithinLimits(KidOf(r, slot)) &&
              Snap() == Absorb(cfg, old(Snap()), q, r, slot, now) && Wired()
    {
      hide Inv;
      hide Wired;
      hide ParseHost;
      hide ParsePtr;
      hide FlatAt;
      hide AllWithinLimits;
      hide WithinLimits;
      hide Fits;
      hide Absorb;
      hide KidOf;
      ghost var s := Snap();
      var x := queries[q];
      ghost var r := ParseRr(x, dgram, rr, sec, x.ptrAddr, o);
      AbsorbingRoot(cfg, s, q);
      if x.typ == PTR {
        st, rrp := ParsePointer(q, slot, dgram, rr.rdstart, rr.rdstart + rr.rdlen, rr, now);
        return;
      }
      if x.typ == NS {
        st, rrp := ParseHostAddr(q, slot, dgram, 0, rr.rdstart, rr.rdstart + rr.rdlen, sec, now);
        return;
      }
      if x.typ == MX && rr.rdlen >= 2 {
        var pref := GetW(dgram, rr.rdstart);
        st, rrp := ParseHostAddr(q, slot, dgram, pref, rr.rdstart + 2, rr.rdstart + rr.rdlen, sec, now);
        KidOfStoring(ParseHost(x, dgram, pref, rr.rdstart + 2, rr.rdstart + rr.rdlen, sec, x.ptrAddr), slot);
        AbsorbStoring(cfg, s, q, ParseHost(x, dgram, pref, rr.rdstart + 2, rr.rdstart + rr.rdlen, sec, x.ptrAddr),
          slot, now);
        return;
      }
      AbsorbAlone(cfg, s, q, r, slot, now);
      rrp := Address([]);
      if x.typ == MX {
        st := InvalidData;
      } else if x.typ % 0x1_0000 == 1 {
        st := if rr.rdlen == 4 then Ok else InvalidData;
        rrp := Address(Rdata(dgram, rr));
      } else {
        var blocks;
        st, blocks, rrp := ParseFlat(x.typ, x.flags.quoteokAnshost, dgram, rr.rdstart, rr.rdstart + rr.rdlen, o);
        Allocate(q, blocks);
      }
    }

    /** The second pass before the next record: `nrrs` records are stored in `data`, and their children are
        submitted. */
    ghost predicate Taking(s: St, q: QId, dgram: seq<Byte>, h: Header, p: Pass, os: seq<Stray>, now: int, nrrs: nat,
                           kids: seq<Kid>, data: seq<Stored>, blocks: nat)
      requires ValidConfig(cfg) && q in s.qs && Numbered(s)
      reads this, queues, siblings
    {
      Taken(s, q, now, kids, blocks) &&
      Along(s.qs[q], dgram, h, p, os, nrrs, kids, data, blocks, queries[q].ptrAddr)
    }

    ghost predicate Taken(s: St, q: QId, now: int, kids: seq<Kid>, blocks: nat)
      requires ValidConfig(cfg) && q in s.qs && Numbered(s)
      reads this, queues, siblings
    {
      Absorbing(cfg, Snap(), q) && Wired() && SameQuestion(s.qs[q], queries[q]) && AllWithinLimits(kids) &&
      Snap() == Beside(SubmitKids(cfg, s, q, kids, now), q, queries[q].ptrAddr, 1 + blocks)
    }

    // One accepted record of the second pass.
    method TakeRecord(q: QId, dgram: seq<Byte>, rr: Rr, p: Pass, h: Header, os: seq<Stray>, nrrs: nat, now: int,
                      ghost s: St, ghost kids: seq<Kid>, ghost data: seq<Stored>, ghost blocks: nat)
      returns (st: Status, rrp: Stored, ghost kids': seq<Kid>, ghost blocks': nat)
      requires ValidConfig(cfg) && q in s.qs && Numbered(s)
      requires Taking(s, q, dgram, h, p, os, now, nrrs, kids, data, blocks)
      requires nrrs < |Tried(s.qs[q], dgram, h, p)| && Tried(s.qs[q], dgram, h, p)[nrrs] == rr
      requires rr.rdstart + rr.rdlen <= |dgram| && StraysInBounds(dgram, os)
      requires var full := WholeSecond(s.qs[q], dgram, h, p, os);
               full.Second? && AllWithinLimits(full.kids) && KidsFit(full.kids, |dgram|)
      modifies this, queues, siblings
      ensures Taken(s, q, now, kids', blocks')
      ensures if st == Ok then
                Along(s.qs[q], dgram, h, p, os, nrrs + 1, kids', data + [rrp], blocks', queries[q].ptrAddr)
              else WholeSecond(s.qs[q], dgram, h, p, os) == Second(kids', Some(st), data, queries[q].ptrAddr, blocks')
    {
      hide Inv;
      hide Wired;
      hide SubmitKids;
      hide AllWithinLimits;
      hide WithinLimits;
      hide Fits;
      hide ParseRr;
      hide WholeSecond;
      hide Tried;
      hide Along;
      hide Absorbing;
      hide Absorb;
      hide KidOf;
      AbsorbingHas(cfg, Snap(), q);
      ghost var x, addr, sec, o := s.qs[q], queries[q].ptrAddr, SectionsBehind(h, p), StrayAt(os, nrrs);
      ghost var r := ParseRr(x, dgram, rr, sec, addr, o);
      AlongStep(x, dgram, h, p, os, nrrs, kids, data, blocks, addr);
      NextKidFits(x, dgram, h, p, os, nrrs, kids, data, blocks, addr);
      ParseRrAlike(x, queries[q], dgram, rr, sec, addr, o);
      ParseRrKid(x, dgram, rr, sec, addr, o);
      KidsOfParsed(r, nrrs);
      AbsorbKeeps(cfg, Snap(), q, r, nrrs, now);
      AbsorbNext(cfg, s, q, kids, addr, 1 + blocks, r, nrrs, now);
      st, rrp := ParseRecord(q, nrrs, dgram, rr, Sections(p.cbyte, h.nscount, h.arcount), StrayAt(os, nrrs), now);
      kids', blocks' := kids + KidOf(r, nrrs), blocks + r.blocks;
      BesideAddr(Snap(), SubmitKids(cfg, s, q, kids', now), q, r.ptrAddr, 1 + blocks');
    }

    /** In the middle of the loop: what has been taken, and what is still to be read. */
    ghost predicate Underway(s: St, q: QId, dgram: seq<Byte>, h: Header, p: Pass, os: seq<Stray>, now: int, nrrs: nat,
                             kids: seq<Kid>, data: seq<Stored>, blocks: nat, cbyte: nat, left: nat)
      requires ValidConfig(cfg) && q in s.qs && Numbered(s)
      reads this, queues, siblings
    {
      var x := s.qs[q];
      Taking(s, q, dgram, h, p, os, now, nrrs, kids, data, blocks) &&
      Left(dgram, WantedBy(x), CurrentOwner(WantedBy(x), p), Wants(x, dgram, h, p), nrrs, cbyte, left)
    }

    // One turn of the loop of the second pass (adns/reply.c:434-453).
    method TakeNext(q: QId, dgram: seq<Byte>, owner: Owner, p: Pass, h: Header, os: seq<Stray>, now: int, cbyte: nat,
                    nrrs: nat, data: seq<Stored>, ghost s: St, ghost kids: seq<Kid>, ghost blocks: nat, ghost left: nat)
      returns (st: Status, next: nat, nrrs': nat, data': seq<Stored>, ghost kids': seq<Kid>, ghost blocks': nat)
      requires ValidConfig(cfg) && q in s.qs && Numbered(s) && left > 0 && Takeable(s.qs[q], dgram, h, p, os)
      requires Underway(s, q, dgram, h, p, os, now, nrrs, kids, data, blocks, cbyte, left) && StraysInBounds(dgram, os)
      requires ValidOwner(owner) && OwnerLabels(owner) == CurrentOwner(WantedBy(s.qs[q]), p)
      requires var full := WholeSecond(s.qs[q], dgram, h, p, os);
               full.Second? && AllWithinLimits(full.kids) && KidsFit(full.kids, |dgram|)
      modifies this, queues, siblings
      ensures if st == Ok then Underway(s, q, dgram, h, p, os, now, nrrs', kids', data', blocks', next, left - 1)
              else Taken(s, q, now, kids', blocks') &&
                   WholeSecond(s.qs[q], dgram, h, p, os) == Second(kids', Some(st), data', queries[q].ptrAddr, blocks')
    {
      hide Inv;
      hide Wired;
      hide Taken;
      hide WholeSecond;
      hide Wants;
      hide Tried;
      hide Along;
      hide Left;
      hide RecordAt;
      hide Takeable;
      hide ValidOwner;
      hide OwnerLabels;
      hide CurrentOwner;
      hide AllWithinLimits;
      hide KidsFit;
      ghost var x := s.qs[q];
      st, nrrs', data', kids', blocks' := Ok, nrrs, data, kids, blocks;
      LeftStep(dgram, WantedBy(x), CurrentOwner(WantedBy(x), p), Wants(x, dgram, h, p), nrrs, cbyte, left);
      var r := FindRRAnychk(dgram, cbyte, Some(owner));
      assert r.Record?;  // the assertions at adns/reply.c:437-438
      next := r.next;
      TakenHas(s, q, now, kids, blocks);
      if r.rr.class_ == DNS_CLASS_IN && r.rr.typ == queries[q].typ % 0x1_0000 && r.matched {
        RoomForNext(x, dgram, h, p, os, nrrs, kids, data, blocks, queries[q].ptrAddr);
        var rrp;
        st, rrp, kids', blocks' := TakeRecord(q, dgram, r.rr, p, h, os, nrrs, now, s, kids, data, blocks);
        if st == Ok {
          data', nrrs' := data + [rrp], nrrs + 1;
        }
      }
    }

    lemma TakenHas(s: St, q: QId, now: int, kids: seq<Kid>, blocks: nat)
      requires ValidConfig(cfg) && q in s.qs && Numbered(s) && Taken(s, q, now, kids, blocks)
      ensures q in queries && queries[q].typ == s.qs[q].typ
    {
    }

    // The second pass, with the table for its records (adns/reply.c:408-454).
    method TakeAnswers(q: QId, dgram: seq<Byte>, p: Pass, h: Header, os: seq<Stray>, now: int)
      returns (st: Status, data: seq<Stored>)
      requires ValidConfig(cfg) && Absorbing(cfg, Snap(), q) && Wired() && Takeable(queries[q], dgram, h, p, os)
      requires RoomyVerdict(ReadPositive(queries[q], dgram, h, p, os).verdict, |dgram|) && StraysInBounds(dgram, os)
      modifies this, queues, siblings
      ensures var full := old(WholeSecond(queries[q], dgram, h, p, os));
              full.Second? && AllWithinLimits(full.kids) && Absorbing(cfg, Snap(), q) && Wired() &&
              Snap() == Beside(SubmitKids(cfg, old(Snap()), q, full.kids, now), q, full.ptrAddr, full.blocks + 1) &&
              if st == Ok then full.failed.None? && full.rrs == data else full.failed == Some(st)
    {
      hide Inv;
      hide Wired;
      hide SubmitKids;
      hide ReadPositive;
      hide WholeSecond;
      hide Underway;
      hide Taken;
      hide Absorbing;
      hide AllWithinLimits;
      hide KidsFit;
      hide Takeable;
      hide ValidOwner;
      hide OwnerLabels;
      hide CurrentOwner;
      hide Beside;
      AbsorbingFacts(cfg, Snap(), q);
      ghost var s, x := Snap(), queries[q];
      TakeableReads(x, dgram, h, p, os);
      TakeableOwner(x, dgram, h, p, os);
      var o := queries[q].cname;
      var owner := if o.Some? then o.value else Owner(queries[q].dgram, DNS_HDRSIZE);
      var cbyte: nat := |queries[q].dgram|;
      Allocate(q, 1);
      Starting(s, q, dgram, h, p, os, now);
      ghost var kids, blocks;
      st, data, kids, blocks := TakeAll(q, dgram, owner, cbyte, p, h, os, now, s);
      TakenFacts(s, q, now, kids, blocks);
    }

    // The loop of the second pass (adns/reply.c:432-454).
    method TakeAll(q: QId, dgram: seq<Byte>, owner: Owner, anstart: nat, p: Pass, h: Header, os: seq<Stray>, now: int,
                   ghost s: St)
      returns (st: Status, data: seq<Stored>, ghost kids: seq<Kid>, ghost blocks: nat)
      requires ValidConfig(cfg) && q in s.qs && Numbered(s) && Takeable(s.qs[q], dgram, h, p, os)
      requires Underway(s, q, dgram, h, p, os, now, 0, [], [], 0, anstart, h.ancount) && StraysInBounds(dgram, os)
      requires ValidOwner(owner) && OwnerLabels(owner) == CurrentOwner(WantedBy(s.qs[q]), p)
      requires var full := WholeSecond(s.qs[q], dgram, h, p, os);
               full.Second? && AllWithinLimits(full.kids) && KidsFit(full.kids, |dgram|)
      modifies this, queues, siblings
      ensures Taken(s, q, now, kids, blocks)
      ensures WholeSecond(s.qs[q], dgram, h, p, os) ==
              Second(kids, if st == Ok then None else Some(st), data, queries[q].ptrAddr, blocks)
    {
      hide Inv;
      hide Wired;
      hide WholeSecond;
      hide Underway;
      hide Taken;
      hide AllWithinLimits;
      hide KidsFit;
      hide Takeable;
      hide ValidOwner;
      hide OwnerLabels;
      hide CurrentOwner;
      st, data, kids, blocks := Ok, [], [], 0;
      var cbyte, rri, nrrs := anstart, 0, 0;
      while rri < h.ancount
        invariant 0 <= rri <= h.ancount && st == Ok
        invariant Underway(s, q, dgram, h, p, os, now, nrrs, kids, data, blocks, cbyte, h.ancount - rri)
      {
        ghost var left := h.ancount - rri;
        st, cbyte, nrrs, data, kids, blocks := TakeNext(q, dgram, owner, p, h, os, now, cbyte, nrrs, data, s, kids,
          blocks, left);
        if st != Ok {
          return;
        }
        rri := rri + 1;
      }
      AllUnderway(s, q, dgram, h, p, os, now, nrrs, kids, data, blocks, cbyte);
    }

    lemma Starting(s: St, q: QId, dgram: seq<Byte>, h: Header, p: Pass, os: seq<Stray>, now: int)
      requires ValidConfig(cfg) && Absorbing(cfg, s, q) && Takeable(s.qs[q], dgram, h, p, os)
      requires Wired() && Snap() == Beside(s, q, s.qs[q].ptrAddr, 1)
      ensures Numbered(s) && Underway(s, q, dgram, h, p, os, now, 0, [], [], 0, |s.qs[q].dgram|, h.ancount)
    {
      hide Inv;
      hide Wired;
      hide SubmitKids;
      hide ReadPositive;
      hide WholeSecond;
      hide Wants;
      hide Tried;
      hide Along;
      hide Left;
      AbsorbingFacts(cfg, s, q);
      TakeableReads(s.qs[q], dgram, h, p, os);
      AlongStarts(s.qs[q], dgram, h, p, os);
      FirstAllocation(cfg, s, q, now);
      TakeableLeft(s.qs[q], dgram, h, p, os);
      hide Absorbing;
      hide Takeable;
    }

    lemma TakenFacts(s: St, q: QId, now: int, kids: seq<Kid>, blocks: nat)
      requires ValidConfig(cfg) && q in s.qs && Numbered(s) && Taken(s, q, now, kids, blocks)
      ensures Numbered(s) && Absorbing(cfg, Snap(), q) && Wired() && AllWithinLimits(kids)
      ensures Snap() == Beside(SubmitKids(cfg, s, q, kids, now), q, queries[q].ptrAddr, blocks + 1)
    {
    }

    lemma AllUnderway(s: St, q: QId, dgram: seq<Byte>, h: Header, p: Pass, os: seq<Stray>, now: int, nrrs: nat,
                      kids: seq<Kid>, data: seq<Stored>, blocks: nat, cbyte: nat)
      requires ValidConfig(cfg) && q in s.qs && Numbered(s) && Takeable(s.qs[q], dgram, h, p, os)
      requires Underway(s, q, dgram, h, p, os, now, nrrs, kids, data, blocks, cbyte, 0)
      ensures Taken(s, q, now, kids, blocks)
      ensures WholeSecond(s.qs[q], dgram, h, p, os) == Second(kids, None, data, queries[q].ptrAddr, blocks)
    {
      hide WholeSecond;
      hide Wants;
      hide Along;
      hide Left;
      hide Takeable;
      TakenHas(s, q, now, kids, blocks);
      AllTaken(s.qs[q], dgram, h, p, os, nrrs, kids, data, blocks, queries[q].ptrAddr);
    }

    // The second pass and what follows it (adns/reply.c:408-466).
    method ReadPositives(q: QId, dgram: seq<Byte>, p: Pass, h: Header, os: seq<Stray>, now: int)
      requires ValidConfig(cfg) && Replying(cfg, Snap(), q) && Wired() && Takeable(queries[q], dgram, h, p, os)
      requires Possible(queries[q], ReadPositive(queries[q], dgram, h, p, os).verdict)
      requires RoomyVerdict(ReadPositive(queries[q], dgram, h, p, os).verdict, |dgram|) && StraysInBounds(dgram, os)
      modifies this, queues, siblings
      ensures Valid({})
      ensures Snap() == Act(cfg, old(Snap()), q, old(ReadPositive(queries[q], dgram, h, p, os)).verdict, now)
    {
      hide Inv;
      hide Wired;
      hide SubmitKids;
      hide Beside;
      hide AllWithinLimits;
      hide KidsFit;
      hide ReadPositive;
      hide WholeSecond;
      hide Conclude;
      hide Complete;
      hide Act;
      hide Possible;
      hide Accounted;
      hide Takeable;
      hide RoomyVerdict;
      hide Absorbing;
      hide Replying;
      ghost var s := Snap();
      ReplyingAbsorbs(cfg, s, q);
      ghost var x := queries[q];
      ghost var full := WholeSecond(x, dgram, h, p, os);
      TakeableReads(x, dgram, h, p, os);
      ActTakes(cfg, s, q, p, full, now);
      ReadingAccount(cfg, s, q, p, full, now);
      var st, data := TakeAnswers(q, dgram, p, h, os, now);
      ConcludeAnswer(q, st, data);
    }

    // The end of the second pass (adns/reply.c:445-466).
    method ConcludeAnswer(q: QId, st: Status, data: seq<Stored>)
      requires ValidConfig(cfg) && Absorbing(cfg, Snap(), q) && Wired() && (st == Ok ==> Accounted(Snap(), q, data))
      modifies this, queues, siblings
      ensures Valid({}) && (st == Ok || forall rrs :: Snap() == Conclude(old(Snap()), q, Some(st), rrs))
      ensures st == Ok ==> Snap() == Conclude(old(Snap()), q, None, data)
    {
      hide Inv;
      hide Wired;
      hide Fail;
      hide Finish;
      hide Accounted;
      ghost var s := Snap();
      AbsorbingFacts(cfg, s, q);
      AbsorbingParent(cfg, s, q);
      if st != Ok {
        QueryFail(q, st);
        return;
      }
      ConcludeKeeps(cfg, s, q, None, data);
      AnswerStored(cfg, s, q, data);
      AccountedDone(s, q, data);
      OffQueues(cfg, s, {q}, q);
      hide OnNoQueue;
      hide Absorbing;
      var y := queries[q];
      Store(q, y.(answer := y.answer.(rrs := data)));
      StillOnNoQueue(s, Snap(), q);
      ChildrenAre(q);
      if siblings.ends[q].head.Some? {
        LinkTo(Childw, q);
        Store(q, queries[q].(state := Childw));
      } else {
        QueryDone(q);
      }
    }

    // ---------- Replies ----------

    // x_restartquery (adns/reply.c:476-508), behind a truncation with `usevc` set.
    method RestartQuery(q: QId, usevc: bool, now: int)
      requires ValidConfig(cfg) && Replying(cfg, Snap(), q) && Wired()
      requires RoomyCname(queries[q].cname)
      modifies this, queues, siblings
      ensures Valid({}) && Snap() == Retry(cfg, old(Snap()), q, usevc, now)
    {
      hide Inv;
      hide Wired;
      hide Fields;
      hide Links;
      hide Message;
      hide Send;
      hide OwnerLabels;
      hide WithinLimits;
      hide Ready;
      hide Asking;
      hide Question;
      ghost var s := Snap();
      RetryKeeps(cfg, s, q, usevc, now);
      RetriedIsReady(cfg, s, q, usevc, now);
      OffQueues(cfg, Retried(s, q, usevc), {q}, q);
      hide OnNoQueue;
      CnameIsValid(cfg, s, q);
      hide Replying;
      var x := queries[q];
      if usevc {
        x := x.(flags := x.flags.(usevc := true));
      }
      if x.cname.Some? {
        var dgram := CnameQuestion(x.cname.value, nextid, x.typ % 0x1_0000);
        x := x.(id := nextid % 0x1_0000, dgram := dgram, aliased := true);
        nextid := nextid + 1;
      }
      x := x.(state := Tosend, retries := 0, resetAt := |x.sent|, answer := x.answer.(rrs := []));
      assert x == Restarted(s.qs[q], s.nextid, usevc);
      Store(q, x);
      assert Snap() == Retried(s, q, usevc);
      hide Restarted;
      QuerySend(q, now);
    }

    // x_truncated. With `redirect` the name that could not be read has already replaced cname_begin and cname_dglen.
    method TruncatedReply(q: QId, h: Header, p: Pass, n: nat, redirect: Option<nat>, now: int)
      requires ValidConfig(cfg) && Replying(cfg, Snap(), q) && Wired() && ValidPass(p) && queries[q].cname == p.cname
      requires Truncation(h, p, n, redirect).Read? && RoomyVerdict(Truncation(h, p, n, redirect).verdict, n)
      modifies this, queues, siblings
      ensures Valid({}) && var v, x := Truncation(h, p, n, redirect).verdict, old(queries[q]);
              Possible(x.(cname := v.pass.cname), v) &&
                ParentLives(Set(old(Snap()), q, x.(cname := v.pass.cname)), q) &&
              Numbered(Set(old(Snap()), q, x.(cname := v.pass.cname))) &&
              Snap() == Act(cfg, Set(old(Snap()), q, x.(cname := v.pass.cname)), q, v, now)
    {
      hide Inv;
      hide Wired;
      hide Fail;
      hide Retry;
      hide RoomyCname;
      hide ValidOwner;
      hide FoundThere;
      hide Redirected;
      ghost var s, v := Snap(), Truncation(h, p, n, redirect).verdict;
      if h.tc && redirect.Some? {
        FoundIsValid(p, n, redirect.value);
        RedirectedIs(p, n, redirect.value);
      }
      SameCname(s, q);
      NotedCname(cfg, s, q, v.pass.cname);
      ReplyingAbsorbs(cfg, Set(s, q, s.qs[q].(cname := v.pass.cname)), q);
      ReplyingAbsorbs(cfg, s, q);
      hide Replying;
      hide Absorbing;
      if !h.tc {
        QueryFail(q, InvalidResponse);
      } else {
        if redirect.Some? {
          var o := queries[q].cname.value;
          Store(q, queries[q].(cname := Some(Owner(TakenAs(o.dgram, n), redirect.value))));
        }
        RestartQuery(q, true, now);
      }
    }

    // No wanted records (adns/reply.c:317-406).
    method ReadNegatives(q: QId, dgram: seq<Byte>, p: Pass, h: Header, now: int)
      requires ValidConfig(cfg) && Replying(cfg, Snap(), q) && Wired() && ReadNegative(queries[q], dgram, h, p).Read?
      requires Possible(queries[q], ReadNegative(queries[q], dgram, h, p).verdict) && queries[q].cname == p.cname
      requires RoomyVerdict(ReadNegative(queries[q], dgram, h, p).verdict, |dgram|) && SealedSearch(cfg, queries[q])
      modifies this, queues, siblings
      ensures Valid({})
      ensures Snap() == Act(cfg, old(Snap()), q, old(ReadNegative(queries[q], dgram, h, p)).verdict, now)
    {
      hide Inv;
      hide Wired;
      hide Fail;
      hide Retry;
      hide Submission.SearchNext;
      hide AuthorityAt;
      hide RoomyCname;
      hide ValidOwner;
      ReplyingAbsorbs(cfg, Snap(), q);
      ReplyingSendable(cfg, Snap(), q, now);
      hide Absorbing;
      SameCname(Snap(), q);
      var authority := ReadAuthority(dgram, p.cbyte, h.nscount);
      match authority
      case AuthorityBad(st) => QueryFail(q, st);
      case AuthorityTruncated => TruncatedReply(q, h, p, |dgram|, None, now);
      case Authority(foundsoa, _, foundns) =>
        if h.rcode == 3 {
          if queries[q].flags.search {
            SearchNext(q, now);
          } else {
            QueryFail(q, NxDomain);
          }
        } else if foundsoa || !foundns {
          QueryFail(q, NoData);
        } else if p.cnameHere {
          RestartQuery(q, false, now);
        } else if !h.ra {
          QueryFail(q, NoRecurse);
        } else {
          QueryFail(q, InvalidResponse);
        }
    }

    // adns__procdgram, from the response code on (adns/reply.c:130-508).
    method ReadTheReply(q: QId, dgram: seq<Byte>, h: Header, os: seq<Stray>, now: int)
      requires ValidConfig(cfg) && Replying(cfg, Snap(), q) && Wired() && |dgram| >= DNS_HDRSIZE && h == HeaderOf(dgram)
      requires ReadReply(queries[q], dgram, os).Read? && Possible(queries[q], ReadReply(queries[q], dgram, os).verdict)
      requires RoomyVerdict(ReadReply(queries[q], dgram, os).verdict, |dgram|)
      requires StraysInBounds(dgram, os) && SealedSearch(cfg, queries[q])
      modifies this, queues, siblings
      ensures Valid({})
      ensures Snap() == Deliver(cfg, old(Snap()), q, old(ReadReply(queries[q], dgram, os)).verdict, now)
    {
      hide Inv;
      hide Wired;
      hide Fail;
      hide FirstPass;
      hide ReadPositive;
      hide ReadNegative;
      hide Truncation;
      hide RoomyVerdict;
      hide ValidOwner;
      hide Act;
      hide Possible;
      hide Deliver;
      hide ReadReply;
      hide Replying;
      hide Absorbing;
      ghost var s := Snap();
      ReplyingAbsorbs(cfg, s, q);
      var x := queries[q];
      if h.rcode != 0 && h.rcode != 3 {
        RefusedReply(cfg, s, q, dgram, os, now);
        QueryFail(q, RcodeStatus(h.rcode));
        return;
      }
      PassIsSound(cfg, s, q, dgram, os);
      var vb := new Vbuf();
      var r := ReadAnswers(dgram, WantedBy(x), FirstState(x), h.ancount, vb);
      Store(q, Noted(x, r.p));
      ActOnPass(q, dgram, h, r, os, now, s);
    }

    // Behind the first pass (adns/reply.c:308-508).
    method ActOnPass(q: QId, dgram: seq<Byte>, h: Header, r: PassEnd, os: seq<Stray>, now: int, ghost s: St)
      requires ValidConfig(cfg) && Wired() && |dgram| >= DNS_HDRSIZE && h == HeaderOf(dgram) && h.rcode in {0, 3}
      requires q in s.qs && ParentLives(s, q) && Numbered(s) && Replying(cfg, s, q)
      requires r == FirstPass(dgram, WantedBy(s.qs[q]), FirstState(s.qs[q]), h.ancount) && !r.PassDiverges?
      requires Snap() == Set(s, q, Noted(s.qs[q], r.p)) && ValidPass(r.p) && (r.p.cname.None? ==> s.qs[q].cname.None?)
      requires ReadReply(s.qs[q], dgram, os).Read? && Possible(s.qs[q], ReadReply(s.qs[q], dgram, os).verdict)
      requires RoomyVerdict(ReadReply(s.qs[q], dgram, os).verdict, |dgram|)
      requires StraysInBounds(dgram, os) && SealedSearch(cfg, s.qs[q])
      modifies this, queues, siblings
      ensures Valid({})
      ensures Snap() == Deliver(cfg, s, q, ReadReply(s.qs[q], dgram, os).verdict, now)
    {
      hide Inv;
      hide Wired;
      hide Fail;
      hide FirstPass;
      hide ReadPositive;
      hide ReadNegative;
      hide Truncation;
      hide RoomyVerdict;
      hide ValidOwner;
      hide Act;
      hide Possible;
      hide Replying;
      hide Absorbing;
      ghost var x, v := s.qs[q], ReadReply(s.qs[q], dgram, os).verdict;
      NotedReplying(cfg, s, q, r.p);
      ReadPass(x, dgram, os);
      ReadNoted(x, dgram, h, r.p, os);
      PossibleNoted(x, v);
      NotedBefore(s, q, r.p, v.pass);
      ReplyingAbsorbs(cfg, Snap(), q);
      QueryIsValid(cfg, s, q);
      match r
      case PassFail(p, st) =>
        FirstPassNotOk(dgram, WantedBy(x), FirstState(x), h.ancount);
        ActFails(cfg, Snap(), q, p, st, now);
        QueryFail(q, st);
      case PassTruncated(p, redirect) =>
        TruncatedReply(q, h, p, |dgram|, redirect, now);
      case PassDone(p) =>
        if h.tc {
          TruncatedReply(q, h, p, |dgram|, None, now);
        } else if p.wantedrrs == 0 {
          ReadNegatives(q, dgram, p, h, now);
        } else {
          FirstPassTakeable(x, dgram, h, p, os);
          ReadPositives(q, dgram, p, h, os, now);
        }
    }

    // The search at adns/reply.c:97-122.
    method FindQuery(dgram: seq<Byte>, serv: nat, viatcp: bool) returns (r: Option<QId>)
      requires |dgram| >= DNS_HDRSIZE && Wired()
      requires forall q :: q in Queue(Snap(), Over(viatcp)) ==> q in queries && |queries[q].dgram| >= DNS_HDRSIZE
      ensures r == FirstMatch(queries, Queue(Snap(), Over(viatcp)), dgram, serv, viatcp)
    {
      hide Wired;
      hide MatchFrom;
      hide FirstMatch;
      hide Matches;
      hide Nth;
      ghost var queue, i := Queue(Snap(), Over(viatcp)), 0;
      MatchFromBounds(queries, queue, dgram, serv, viatcp);
      QueueIs(Over(viatcp));
      var qu := queues.ends[Over(viatcp)].head;
      while qu.Some?
        invariant i <= |queue| && qu == Nth(queue, i)
        invariant MatchFrom(queries, queue, i, dgram, serv, viatcp) == FirstMatch(queries, queue, dgram, serv, viatcp)
        decreases |queue| - i
      {
        NthIs(queue, i);
        MatchFromStep(queries, queue, i, dgram, serv, viatcp);
        NextInQueue(Over(viatcp), i);
        var q := qu.value;
        var found := IsReply(queries[q], dgram, serv, viatcp);
        if found {
          return Some(q);
        }
        qu := queues.links[q].next;
        i := i + 1;
      }
      NthIs(queue, i);
      r := None;
    }

    /** The query that a datagram is processed for, and what it amounts to. */
    ghost function Whom(dgram: seq<Byte>, serv: nat, viatcp: bool): Option<QId>
      requires Valid({})
      reads this, queues, siblings
    {
      WaitingQuestions(cfg, Snap());
      Addressee(Snap(), dgram, serv, viatcp)
    }

    ghost function Outcome(dgram: seq<Byte>, serv: nat, viatcp: bool, now: int, os: seq<Stray>): (e: Option<Event>)
      requires Valid({})
      reads this, queues, siblings
      ensures e.Some? ==> Enabled(cfg, Snap(), e.value) && e.value.Replied?
    {
      WaitingQuestions(cfg, Snap());
      ReplyEventEnabled(cfg, Snap(), dgram, serv, viatcp, now, os);
      ReplyEvent(Snap(), dgram, serv, viatcp, now, os)
    }

    // adns__procdgram: nothing at all, or exactly the event that the datagram amounts to. Asked only of replies that
    // can be read to the end, from which the names asked for fit the room reserved for them (see Guards.ProperReply),
    // and in states that runs lead to (see Rooms.RunsStaySealed).
    method ProcDgram(dgram: seq<Byte>, serv: nat, viatcp: bool, now: int, os: seq<Stray>)
      requires Valid({})
      requires Whom(dgram, serv, viatcp).Some? ==>
                 var e := Outcome(dgram, serv, viatcp, now, os); e.Some? && RoomyVerdict(e.value.verdict, |dgram|)
      requires StraysInBounds(dgram, os) && SealedAll(cfg, Snap())
      modifies this, queues, siblings
      ensures Valid({})
      ensures match old(Outcome(dgram, serv, viatcp, now, os))
              case None => Snap() == old(Snap())
              case Some(e) => Snap() == Apply(cfg, old(Snap()), e)
    {
      hide Inv;
      hide Wired;
      hide Possible;
      hide ReadReply;
      hide Deliver;
      hide RoomyVerdict;
      hide FirstMatch;
      hide LeaveQueue;
      ghost var s := Snap();
      if |dgram| < DNS_HDRSIZE {
        return;
      }
      var h := HeaderOf(dgram);
      if !h.qr || h.opcode != 0 || h.qdcount != 1 {
        return;
      }
      WaitingQuestions(cfg, s);
      WaitingHere(s, viatcp);
      var found := FindQuery(dgram, serv, viatcp);
      if found.None? {
        return;
      }
      var q := found.value;
      QueuedIs(cfg, s, Over(viatcp), q);
      LeaveQueueIs(cfg, s, {}, q);
      PopWaiting(cfg, s, q);
      ReplyEventEnabled(cfg, s, dgram, serv, viatcp, now, os);
      UnlinkFrom(Over(viatcp), q);
      ReadTheReply(q, dgram, h, os, now);
    }
  }

  // The conditions at adns/reply.c:102-111.
  method IsReply(x: Query, dgram: seq<Byte>, serv: nat, viatcp: bool) returns (r: bool)
    requires |dgram| >= DNS_HDRSIZE && |x.dgram| >= DNS_HDRSIZE
    ensures r == Matches(x, dgram, serv, viatcp)
  {
    if x.id != GetW(dgram, 0) || |x.dgram| > |dgram| {
      return false;
    }
    if x.dgram[DNS_HDRSIZE..] != dgram[DNS_HDRSIZE..|x.dgram|] {
      return false;
    }
    r := viatcp || serv in x.udpsent;
  }

  lemma NthIs(s: seq<QId>, i: nat)
    ensures Nth(s, i) == if i < |s| then Some(s[i]) else None
  {
  }

  /** Where queries wait for replies. */
  function Over(viatcp: bool): QState { if viatcp then Tcpw else Tosend }

  lemma WaitingHere(s: St, viatcp: bool)
    ensures Queue(s, Over(viatcp)) == if viatcp then s.tcpw else s.udpw
    ensures forall q :: q in Queue(s, Over(viatcp)) ==> Waiting(s, q)
  {
  }

  // The message that a query restarts with (adns/reply.c:481-503).
  method CnameQuestion(o: Owner, nextid: nat, typ: nat) returns (dgram: seq<Byte>)
    requires ValidOwner(o) && Roomy(o.dgram, o.begin)
    ensures WireLabels(OwnerLabels(o)) && dgram == Message(nextid % 0x1_0000, OwnerLabels(o), typ)
  {
    hide Message;
    OwnerLabelsAre(o);
    RoomySuffices(0, o.dgram, o.begin);
    var vb := new Vbuf();
    var id := MkqueryFrDgram(vb, nextid, o.dgram, o.begin, typ);
    dgram := vb.buf[..vb.used];
  }

  /** Without children a query whose account is in order is done. */
  lemma AccountedDone(s: St, q: QId, rrs: seq<Stored>)
    requires q in s.qs && Accounted(s, q, rrs)
    requires s.qs[q].answer.status == Ok
    ensures s.qs[q].children == [] ==> Final(s.qs[q].(answer := s.qs[q].answer.(rrs := rrs)))
  {
    var t := Set(s, q, s.qs[q].(answer := s.qs[q].answer.(rrs := rrs)));
    if s.qs[q].children == [] {
      CoveredIsFinal(t, q);
    }
    hide Covered;
    hide Resolved;
  }

  lemma SameCname(s: St, q: QId)
    requires q in s.qs
    ensures Set(s, q, s.qs[q].(cname := s.qs[q].cname)) == s
  {
    assert Set(s, q, s.qs[q].(cname := s.qs[q].cname)).qs == s.qs;
  }

  /** A query is as ready to reply with another CNAME. */
  lemma NotedCname(cfg: Config, s: St, q: QId, cname: Option<Owner>)
    requires ValidConfig(cfg) && Replying(cfg, s, q) && (cname.Some? ==> ValidOwner(cname.value))
    requires cname.None? ==> s.qs[q].cname.None?
    ensures Replying(cfg, Set(s, q, s.qs[q].(cname := cname)), q)
  {
    hide Replying;
    hide ValidOwner;
    ReplyingAbsorbs(cfg, s, q);
    var x := s.qs[q];
    var p := FirstState(x).(cname := cname);
    NotedReplying(cfg, s, q, p);
    assert Noted(x, p) == x.(cname := cname);
    hide Absorbing;
  }

  lemma ReplyingSendable(cfg: Config, s: St, q: QId, now: int)
    requires ValidConfig(cfg) && Replying(cfg, s, q)
    ensures s.qs[q].flags.search && s.qs[q].state.Tosend? && s.qs[q].parent.None? ==> Sendable(cfg, s, q, now)
  {
    hide Inv;
  }

  lemma ActTakes(cfg: Config, s: St, q: QId, p: Pass, full: Second, now: int)
    requires ValidConfig(cfg) && q in s.qs && Numbered(s) && ParentLives(s, q) && full.Second?
    requires Possible(s.qs[q], Answered(p, full.kids, full.failed, full.rrs, full.ptrAddr, full.blocks + 1))
    ensures AllWithinLimits(full.kids)
    ensures var t := Beside(SubmitKids(cfg, s, q, full.kids, now), q, full.ptrAddr, full.blocks + 1);
            ParentLives(t, q) &&
            Act(cfg, s, q, Answered(p, full.kids, full.failed, full.rrs, full.ptrAddr, full.blocks + 1), now) ==
            Conclude(t, q, full.failed, full.rrs)
  {
    hide AllWithinLimits;
    hide Complete;
    TakenIs(cfg, s, q, full, now);
    hide SubmitKids;
    hide Conclude;
    hide TakeAnswer;
  }

  lemma ReadingAccount(cfg: Config, s: St, q: QId, p: Pass, full: Second, now: int)
    requires ValidConfig(cfg) && Replying(cfg, s, q) && full.Second?
    requires Possible(s.qs[q], Answered(p, full.kids, full.failed, full.rrs, full.ptrAddr, full.blocks + 1))
    ensures q in s.qs && Numbered(s) && AllWithinLimits(full.kids)
    ensures full.failed.None? ==>
              Accounted(Beside(SubmitKids(cfg, s, q, full.kids, now), q, full.ptrAddr, full.blocks + 1), q, full.rrs)
  {
    hide Replying;
    hide AllWithinLimits;
    hide Complete;
    hide SubmitKids;
    hide Accounted;
    hide Beside;
    ReplyingAbsorbs(cfg, s, q);
    hide Absorbing;
    if full.failed.None? {
      TakenAccount(cfg, s, q, full, now);
    }
  }

  lemma ActFails(cfg: Config, s: St, q: QId, p: Pass, st: Status, now: int)
    requires ValidConfig(cfg) && q in s.qs && Numbered(s) && ParentLives(s, q) && Possible(s.qs[q], Failed(p, st))
    ensures Act(cfg, s, q, Failed(p, st), now) == Fail(s, q, st)
  {
  }

  lemma PassIsSound(cfg: Config, s: St, q: QId, dg: seq<Byte>, os: seq<Stray>)
    requires ValidConfig(cfg) && Replying(cfg, s, q) && |dg| >= DNS_HDRSIZE
    requires HeaderOf(dg).rcode in {0, 3} && ReadReply(s.qs[q], dg, os).Read?
    ensures var x := s.qs[q];
            var r := FirstPass(dg, WantedBy(x), FirstState(x), HeaderOf(dg).ancount);
            ValidOwner(WantedBy(x).query) && ValidPass(FirstState(x)) && !r.PassDiverges? && ValidPass(r.p) &&
            (r.p.cname.None? ==> x.cname.None?)
  {
    hide Replying;
    hide ReadReply;
    hide FirstPass;
    hide ValidOwner;
    ReplyingAbsorbs(cfg, s, q);
    var x, n := s.qs[q], HeaderOf(dg).ancount;
    QueryIsValid(cfg, s, q);
    ReadPass(x, dg, os);
    FirstPassKeepsValid(dg, WantedBy(x), FirstState(x), n);
    CnameFromReply(dg, WantedBy(x), FirstState(x), n);
    hide Absorbing;
  }

  lemma RefusedReply(cfg: Config, s: St, q: QId, dg: seq<Byte>, os: seq<Stray>, now: int)
    requires ValidConfig(cfg) && q in s.qs && Numbered(s) && ParentLives(s, q) && |dg| >= DNS_HDRSIZE
    requires HeaderOf(dg).rcode !in {0, 3} && ReadReply(s.qs[q], dg, os).Read?
    requires Possible(s.qs[q], ReadReply(s.qs[q], dg, os).verdict)
    ensures Deliver(cfg, s, q, ReadReply(s.qs[q], dg, os).verdict, now) == Fail(s, q, RcodeStatus(HeaderOf(dg).rcode))
  {
    hide Fail;
    NotedNothing(s, q);
  }

  /** Delivering a verdict when the first pass has been noted already. */
  lemma NotedBefore(s: St, q: QId, p: Pass, pass: Pass)
    requires q in s.qs && pass == p.(cname := pass.cname)
    ensures var t := Set(s, q, Noted(s.qs[q], p));
            Set(t, q, t.qs[q].(cname := pass.cname)) == Set(s, q, Noted(s.qs[q], pass)) &&
            (pass == p ==> t == Set(s, q, Noted(s.qs[q], pass)))
  {
    var t := Set(s, q, Noted(s.qs[q], p));
    assert Set(t, q, t.qs[q].(cname := pass.cname)).qs == Set(s, q, Noted(s.qs[q], pass)).qs;
  }

  /** Apart from the CNAME of a truncated reply, a verdict has the state that the first pass has left. */
  lemma ReadPass(x: Query, dg: seq<Byte>, os: seq<Stray>)
    requires |dg| >= DNS_HDRSIZE && ReadReply(x, dg, os).Read? && HeaderOf(dg).rcode in {0, 3}
    ensures var r, v := FirstPass(dg, WantedBy(x), FirstState(x), HeaderOf(dg).ancount), ReadReply(x, dg, os).verdict;
            !r.PassDiverges? && v.pass == r.p.(cname := v.pass.cname) &&
            (r.PassFail? || (r.PassDone? && !HeaderOf(dg).tc) ==> v.pass == r.p)
  {
    hide FirstPass;
    hide ReadPositive;
    hide ReadNegative;
    hide Truncation;
    var h, r := HeaderOf(dg), FirstPass(dg, WantedBy(x), FirstState(x), HeaderOf(dg).ancount);
    if !r.PassDiverges? {
      ReadNoted(x, dg, h, r.p, os);
      TruncationPass(h, r.p, |dg|, None);
      if r.PassTruncated? {
        TruncationPass(h, r.p, |dg|, r.redirect);
      }
    }
  }

  lemma TruncationPass(h: Header, p: Pass, n: nat, redirect: Option<nat>)
    ensures Truncation(h, p, n, redirect).Read? ==>
              var v := Truncation(h, p, n, redirect).verdict; v.pass == p.(cname := v.pass.cname)
  {
  }

  lemma TextBehind(vb: Vbuf)
    requires vb.Valid() && vb.used > 0
    ensures vb.buf[..vb.used - 1] == vb.Contents()[..vb.used - 1]
  {
  }

  lemma QuestionLabels(dg: seq<Byte>)
    requires Question(dg)
    ensures NameAt(dg, DNS_HDRSIZE, |dg|).Name? && NameAt(dg, DNS_HDRSIZE, |dg|).labels == AskedName(dg)
  {
  }

  lemma KidOfStoring(r: Parsed, i: nat)
    requires r.Parsed?
    ensures KidOf(Storing(r), i) == KidOf(r, i)
  {
  }

  lemma AbsorbStoring(cfg: Config, s: St, q: QId, r: Parsed, i: nat, now: int)
    requires ValidConfig(cfg) && q in s.qs && Numbered(s) && r.Parsed? && AllWithinLimits(KidOf(r, i))
    ensures AllWithinLimits(KidOf(Storing(r), i)) &&
            Absorb(cfg, s, q, Storing(r), i, now) == Absorb(cfg, s, q, r, i, now)
  {
    hide SubmitKids;
    hide AllWithinLimits;
    KidOfStoring(r, i);
  }

  lemma WaitingLives(cfg: Config, s: St)
    requires ValidConfig(cfg) && Inv(cfg, s, {}) && (s.udpw != [] || s.tcpw != [])
    ensures s.qs != map[]
  {
    assert s.udpw != [] ==> s.udpw[0] in s.qs;
    assert s.tcpw != [] ==> s.tcpw[0] in s.qs;
  }

  lemma EveryQueued(cfg: Config, s: St)
    requires ValidConfig(cfg) && Inv(cfg, s, {})
    ensures forall q :: q in s.qs <==> q in s.udpw || q in s.tcpw || q in s.childw || q in s.output
  {
  }

  /** The deadlines of some queries, in order. */
  ghost predicate DeadlinesOf(s: St, qs: seq<QId>, ts: seq<Timeval>)
  {
    |ts| == |qs| && AllNormal(ts) && forall i :: 0 <= i < |ts| ==> qs[i] in s.qs && Micros(ts[i]) == s.qs[qs[i]].timeout
  }

  lemma NoDeadlines(s: St)
    ensures DeadlinesOf(s, [], [])
  {
  }

  lemma OneMoreDeadline(s: St, on: seq<QId>, ts: seq<Timeval>)
    requires |ts| < |on| && DeadlinesOf(s, on[..|ts|], ts) && on[|ts|] in s.qs
    ensures DeadlinesOf(s, on[..|ts| + 1], ts + [FromMicros(s.qs[on[|ts|]].timeout)])
  {
    assert forall i :: 0 <= i < |ts| ==> on[..|ts| + 1][i] == on[..|ts|][i];
  }

  lemma DeadlinesNormal(s: St)
    ensures forall qs, ts :: DeadlinesOf(s, qs, ts) ==> AllNormal(ts) && (ts == [] <==> qs == [])
  {
  }

  lemma DeadlinesAppend(s: St, qs: seq<QId>, ts: seq<Timeval>, rs: seq<QId>, us: seq<Timeval>)
    requires DeadlinesOf(s, qs, ts) && DeadlinesOf(s, rs, us)
    ensures DeadlinesOf(s, qs + rs, ts + us)
  {
  }

  /** No longer than the wait before, nor than the time until the deadline of any waiting query or the connection. */
  ghost predicate NoLonger(s: St, now: int, before: Wait, after: Wait, w: TcpWait)
  {
    (before.Some? ==> after.Some? && after.value <= before.value) &&
    (w.By? ==> after.Some? && after.value <= Max(0, Micros(w.deadline) - now)) &&
    forall q :: q in s.qs && Waiting(s, q) ==> after.Some? && after.value <= Max(0, s.qs[q].timeout - now)
  }

  /** One of these. */
  ghost predicate Attained(s: St, now: int, before: Wait, after: Wait, w: TcpWait)
  {
    after == before || (w.By? && after == Some(Max(0, Micros(w.deadline) - now))) ||
    exists q :: q in s.qs && Waiting(s, q) && after == Some(Max(0, s.qs[q].timeout - now))
  }

  lemma WaitIsLeast(s: St, now: Timeval, before: Wait, udpw: seq<Timeval>, tcpw: seq<Timeval>, w: TcpWait)
    requires DeadlinesOf(s, s.udpw, udpw) && DeadlinesOf(s, s.tcpw, tcpw)
    ensures var all := udpw + tcpw + if w.By? then [w.deadline] else [];
            var after := Shortest(before, now, all);
            NoLonger(s, Micros(now), before, after, w) && Attained(s, Micros(now), before, after, w)
  {
    DeadlinesAppend(s, s.udpw, udpw, s.tcpw, tcpw);
    NoLongerThanAny(s, s.udpw + s.tcpw, now, before, udpw + tcpw, w);
    AttainedByOne(s, s.udpw + s.tcpw, now, before, udpw + tcpw, w);
    hide DeadlinesOf;
    hide NoLonger;
    hide Attained;
    hide Shortest;
  }

  lemma NoLongerThanAny(s: St, qs: seq<QId>, now: Timeval, before: Wait, ts: seq<Timeval>, w: TcpWait)
    requires DeadlinesOf(s, qs, ts) && forall q :: q in qs <==> Waiting(s, q)
    ensures NoLonger(s, Micros(now), before, Shortest(before, now, ts + if w.By? then [w.deadline] else []), w)
  {
    var all := ts + if w.By? then [w.deadline] else [];
    var after := Shortest(before, now, all);
    ShortestIsLeast(before, now, all);
    hide Shortest;
    hide Waiting;
    if w.By? {
      assert all[|ts|] == w.deadline;
    }
    forall q | q in s.qs && Waiting(s, q) ensures after.Some? && after.value <= Max(0, s.qs[q].timeout - Micros(now)) {
      var i :| 0 <= i < |qs| && qs[i] == q;
      assert all[i] == ts[i];
    }
  }

  lemma AttainedByOne(s: St, qs: seq<QId>, now: Timeval, before: Wait, ts: seq<Timeval>, w: TcpWait)
    requires DeadlinesOf(s, qs, ts) && forall q :: q in qs <==> Waiting(s, q)
    ensures Attained(s, Micros(now), before, Shortest(before, now, ts + if w.By? then [w.deadline] else []), w)
  {
    var all := ts + if w.By? then [w.deadline] else [];
    var after := Shortest(before, now, all);
    ShortestIsLeast(before, now, all);
    hide Shortest;
    hide Waiting;
    if after != before {
      var i :| 0 <= i < |all| && after == Some(Until(now, all[i]));
      if i < |ts| {
        assert all[i] == ts[i] && qs[i] in qs;
      }
    }
  }

  lemma KidOfGlue(dg: seq<Byte>, sec: Sections, labels: seq<Label>, rrp: Stored, st: Status,
                  ptrAddr: Option<seq<Byte>>)
    requires rrp.Host?
    ensures var r := ParseGlue(dg, sec, labels, rrp, st, ptrAddr); r.Parsed? && r.kid.Some? ==> r.kid.value == labels
  {
    hide FindGlue;
  }

  lemma AbsorbingLives(cfg: Config, s: St, q: QId)
    requires ValidConfig(cfg) && Absorbing(cfg, s, q)
    ensures q in s.qs && Numbered(s) && Question(s.qs[q].dgram)
  {
    hide Inv;
  }

  lemma HandleIsOn(cfg: Config, s: St, q: QId)
    requires ValidConfig(cfg) && Inv(cfg, s, {}) && q in s.qs
    ensures q in Queue(s, s.qs[q].state)
  {
  }

  lemma OnQueueIs(cfg: Config, s: St, st: QState, q: QId)
    requires ValidConfig(cfg) && Inv(cfg, s, {}) && q in Queue(s, st)
    ensures q in s.qs && s.qs[q].state == st
  {
  }

  lemma QueuedIs(cfg: Config, s: St, st: QState, q: QId)
    requires ValidConfig(cfg) && Inv(cfg, s, {}) && (st.Tosend? || st.Tcpw?) && q in Queue(s, st)
    ensures q in s.qs && Waiting(s, q) && s.qs[q].state == st
  {
  }

  /** The deadlines of the first `i` queries of a queue are still to come. */
  /** What the walk through a queue keeps: what has happened is a run of timeouts, after which there are no more expired
      queries than before, nor, behind the walk, on this queue any. */
  ghost predicate WalksOn(cfg: Config, s: St, t: St, events: seq<Event>, queue: QState, i: nat, now: int)
    requires ValidConfig(cfg)
  {
    Reaches(cfg, s, events, t) && TimeoutsAt(events, now) && InTime(t, queue, i, now) &&
    ExpiredSet(t, now) <= ExpiredSet(s, now) && (queue.Tcpw? ==> forall q :: q in t.udpw ==> q in s.udpw)
  }

  lemma WalksOnStart(cfg: Config, s: St, t: St, events: seq<Event>, queue: QState, now: int)
    requires ValidConfig(cfg) && Reaches(cfg, s, events, t) && TimeoutsAt(events, now) && t.udpw == s.udpw
    requires ExpiredSet(t, now) <= ExpiredSet(s, now)
    ensures WalksOn(cfg, s, t, events, queue, 0, now)
  {
    hide Reaches;
    hide TimeoutsAt;
    hide ExpiredSet;
    InTimeStarts(t, queue, now);
    hide InTime;
  }

  lemma WalksOnNext(cfg: Config, s: St, t: St, events: seq<Event>, queue: QState, i: nat, now: int)
    requires ValidConfig(cfg) && WalksOn(cfg, s, t, events, queue, i, now) && i < |Queue(t, queue)|
    requires Queue(t, queue)[i] in t.qs && t.qs[Queue(t, queue)[i]].timeout >= now
    ensures WalksOn(cfg, s, t, events, queue, i + 1, now)
  {
    hide Reaches;
    hide TimeoutsAt;
    hide ExpiredSet;
    InTimeNext(t, queue, i, now);
    hide InTime;
  }

  lemma WalksOnAgain(cfg: Config, s: St, t: St, u: St, more: seq<Event>, queue: QState, i: nat, now: int)
    requires ValidConfig(cfg) && ExpiredSet(t, now) <= ExpiredSet(s, now)
    requires queue.Tcpw? ==> forall q :: q in t.udpw ==> q in s.udpw
    requires Reaches(cfg, s, more, u) && TimeoutsAt(more, now) && ExpiredSet(u, now) < ExpiredSet(t, now)
    requires queue.Tcpw? ==> forall q :: q in u.udpw ==> q in t.udpw
    ensures WalksOn(cfg, s, u, more, queue, 0, now)
  {
    hide Reaches;
    hide TimeoutsAt;
    hide ExpiredSet;
    InTimeStarts(u, queue, now);
    hide InTime;
  }

  lemma WalksOnIs(cfg: Config, s: St, t: St, events: seq<Event>, queue: QState, i: nat, now: int)
    requires ValidConfig(cfg) && WalksOn(cfg, s, t, events, queue, i, now)
    ensures Reaches(cfg, s, events, t) && TimeoutsAt(events, now) && InTime(t, queue, i, now)
    ensures ExpiredSet(t, now) <= ExpiredSet(s, now) && (queue.Tcpw? ==> forall q :: q in t.udpw ==> q in s.udpw)
  {
  }

  ghost predicate InTime(s: St, queue: QState, i: nat, now: int)
  {
    var qs := Queue(s, queue);
    i <= |qs| && forall j :: 0 <= j < i ==> qs[j] in s.qs && s.qs[qs[j]].timeout >= now
  }

  lemma InTimeStarts(s: St, queue: QState, now: int)
    ensures InTime(s, queue, 0, now)
  {
  }

  lemma InTimeNext(s: St, queue: QState, i: nat, now: int)
    requires InTime(s, queue, i, now) && i < |Queue(s, queue)|
    requires Queue(s, queue)[i] in s.qs && s.qs[Queue(s, queue)[i]].timeout >= now
    ensures InTime(s, queue, i + 1, now)
  {
  }

  lemma InTimeAll(s: St, queue: QState, now: int)
    requires InTime(s, queue, |Queue(s, queue)|, now)
    ensures forall q :: q in Queue(s, queue) ==> q in s.qs && s.qs[q].timeout >= now
  {
    forall q | q in Queue(s, queue) ensures q in s.qs && s.qs[q].timeout >= now {
      var j :| 0 <= j < |Queue(s, queue)| && Queue(s, queue)[j] == q;
    }
  }

  /** What happened are timeouts, at this time. */
  ghost predicate TimeoutsAt(events: seq<Event>, now: int) { forall e :: e in events ==> e.Expired? && e.now == now }

  lemma NoTimeouts(now: int)
    ensures TimeoutsAt([], now)
  {
  }

  lemma OneMoreTimeout(events: seq<Event>, q: QId, now: int)
    requires TimeoutsAt(events, now)
    ensures TimeoutsAt(events + [Expired(q, now)], now)
  {
  }

  lemma IsExpired(s: St, q: QId, now: int)
    requires q in s.qs && Waiting(s, q) && s.qs[q].timeout < now
    ensures q in ExpiredSet(s, now)
  {
  }

  lemma ExpiredReady(cfg: Config, s: St, q: QId, now: int)
    requires ValidConfig(cfg) && Inv(cfg, s, {}) && q in s.qs && Waiting(s, q) && s.qs[q].timeout < now
    ensures s.qs[q].state.Tosend? || s.qs[q].state.Tcpw?
    ensures s.qs[q].state.Tosend? ==> Ready(s.qs[q], now)
  {
    InvAt(cfg, s, {}, q);
    hide Inv;
    if s.qs[q].state.Tosend? {
      ReadyWhenExpired(cfg, s.qs[q], now);
    }
  }

  lemma ExpiredAsks(cfg: Config, s: St, q: QId)
    requires ValidConfig(cfg) && Inv(cfg, s, {}) && q in s.qs && Waiting(s, q)
    ensures Asking(s.qs[q])
  {
    InvAt(cfg, s, {}, q);
  }

  lemma ExpiredEvent(cfg: Config, s: St, events: seq<Event>, t: St, q: QId, now: int)
    requires ValidConfig(cfg) && Inv(cfg, t, {}) && Reaches(cfg, s, events, t)
    requires q in t.qs && Waiting(t, q) && t.qs[q].timeout < now
    ensures ParentLives(t, q) && Reaches(cfg, s, events + [Expired(q, now)], Expire(cfg, t, q, now))
  {
    hide Inv;
    hide SealedNames;
    hide Possible;
    hide Expire;
    hide Reaches;
    InvParent(cfg, t, q);
    ReachesNext(cfg, s, events, t, Expired(q, now));
  }

  /** Taking a finished query off the output queue and freeing it. */
  lemma CollectedIs(cfg: Config, s: St, q: QId)
    requires ValidConfig(cfg) && Inv(cfg, s, {}) && q in s.output
    ensures q in s.qs && s.qs[q].children == [] && LeaveQueue(s, Done, q).qs == s.qs && Inv(cfg, Drop(s, {q}), {})
    ensures LeaveQueue(s, Done, q).(qs := s.qs - {q}) == Drop(s, {q})
  {
    hide Inv;
    OnQueueIs(cfg, s, Done, q);
    DoneHasNoFamily(cfg, s, q);
    LeaveQueueIs(cfg, s, {}, q);
    FreeRootIs(cfg, s, q);
    CancelKeeps(cfg, s, q);
    DropNothing(Unqueue(s, q));
    assert {q} + Kids(s, q) == {q};
    hide Drop;
  }

  lemma SendableIs(cfg: Config, s: St, q: QId, now: int)
    requires ValidConfig(cfg) && Sendable(cfg, s, q, now)
    ensures Inv(cfg, s, {q}) && q in s.qs && ParentLives(s, q) && s.qs[q].parent.None?
    ensures s.qs[q].flags.search || s.qs[q].cname.None?
  {
    hide Inv;
    hide Ready;
  }

  lemma NextIdSendable(cfg: Config, s: St, q: QId, now: int)
    requires ValidConfig(cfg) && Sendable(cfg, s, q, now)
    ensures Sendable(cfg, s.(nextid := s.nextid + 1), q, now) && Inv(cfg, s.(nextid := s.nextid + 1), {q})
  {
    NextIdKeeps(cfg, s, {q}, s.nextid + 1);
    hide Inv;
    hide Ready;
  }

  lemma RedirectedIs(p: Pass, n: nat, begin: nat)
    requires p.cname.Some?
    ensures Redirected(p, n, begin) == Some(Owner(TakenAs(p.cname.value.dgram, n), begin))
  {
  }

  /** The name in a string, with or without the dot at its end, is read as it is meant. */
  lemma StringStays(owner: seq<Byte>, quoteok: bool)
    ensures (owner + [0])[..|owner|] == owner && StaysInside(owner + [0], |owner|, quoteok)
    ensures Absolute(owner) ==>
              (owner + [0])[..|owner| - 1] == owner[..|owner| - 1] && StaysInside(owner + [0], |owner| - 1, quoteok)
  {
    hide StaysInside;
    var mem, n := owner + [0], |owner|;
    assert mem[..n] == owner && mem[n..] == [0];
    TerminatedStays(mem, n, quoteok);
    if Absolute(owner) {
      assert mem[n - 1..][0] == DOT && mem[..n - 1] == owner[..n - 1];
      TerminatedStays(mem, n - 1, quoteok);
    }
  }

  lemma InsideName(mem: seq<Byte>, ol: nat, quoteok: bool)
    requires StaysInside(mem, ol, quoteok)
    ensures ol <= |mem|
  {
  }

  lemma {:induction false} DotsOfString(s: seq<Byte>, ol: nat)
    requires |s| == ol + 1 && s[ol] != DOT
    ensures Dots(s) == Dots(s[..ol])
    decreases |s|
  {
    if ol > 0 {
      assert s[1..][..ol - 1] == s[..ol][1..];
      DotsOfString(s[1..], ol - 1);
    } else {
      assert s[1..] == [];
    }
  }

  predicate KnownType(typ: nat)
  {
    typ in {1, ADDR, NS, PTR, MX} || IsFlat(typ)
  }

  // The loop at adns/query.c:301: strchr from one dot to the next.
  method CountDots(owner: seq<Byte>) returns (ndots: nat)
    ensures ndots == Dots(owner)
  {
    ndots := 0;
    var p := 0;
    while p < |owner|
      invariant 0 <= p <= |owner| && ndots + Dots(owner[p..]) == Dots(owner)
    {
      if owner[p] == DOT {
        ndots := ndots + 1;
      }
      p := p + 1;
    }
  }

  lemma NotInUse(cfg: Config, s: St, off: set<QId>)
    requires ValidConfig(cfg) && Inv(cfg, s, off)
    ensures s.unused !in s.qs && Numbered(s)
  {
    hide QueueOf;
    hide Links;
    hide Fields;
  }

  lemma LeavingHas(s: St, p: QId, child: Query)
    requires Leaving(s, p, child)
    ensures p in s.qs && !child.callback.NoCallback?
  {
  }

  lemma CallbackReads(s: St, p: QId, x: Query, y: Query)
    requires p in s.qs && y.callback == x.callback && y.slot == x.slot && y.first == x.first && y.flags == x.flags
    requires y.answer.status == x.answer.status && y.answer.rrs == x.answer.rrs
    ensures RunCallback(s, p, y) == RunCallback(s, p, x) && (Leaving(s, p, x) ==> Leaving(s, p, y))
  {
    hide WaitOrComplete;
    hide FailRoot;
    hide CoveredBut;
    hide SlotsOk;
    hide HoldsName;
    hide HoldsHost;
  }
}
