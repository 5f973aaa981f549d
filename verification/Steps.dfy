/** What each operation does to the state, and that it keeps the invariant: completion
    (adns/query.c:686-745, adns/types.c:606-629, 919-958), sending (adns/transmit.c:295-349),
    searching (adns/query.c:137-221) and submission (adns/query.c:115-135, 241-332). */
module Steps {
  import opened Basics
  import opened Texts
  import opened Records
  import opened LifeCycle

  // ---------- Completion ----------

  /** A parentless query is finished: its remaining children are cancelled, its allocations freed,
      and it goes to the tail of the output queue. */
  function CompleteRoot(s: St, q: QId): (t: St)
    requires q in s.qs
    ensures t.unused == s.unused
  {
    var u := Drop(s, Kids(s, q) - {q});
    Enqueue(Set(u, q, Completed(u.qs[q])), q)
  }

  function WithStatus(x: Query, st: Status): Query { x.(answer := x.answer.(status := st, rrs := [])) }

  function FailRoot(s: St, q: QId, st: Status): (t: St)
    requires q in s.qs
    ensures t.unused == s.unused
  {
    CompleteRoot(Set(s, q, WithStatus(s.qs[q], st)), q)
  }

  /** The parent goes back to waiting, or is finished if it has no more children. */
  function WaitOrComplete(s: St, p: QId): (t: St)
    requires p in s.qs
    ensures t.unused == s.unused
  {
    if s.qs[p].children != [] then s.(childw := s.childw + [p]) else CompleteRoot(s, p)
  }

  /** What a child has found, in its record of the parent's answer (adns/types.c:614-619). */
  function Filled(x: Query, child: Query): (y: Query)
    ensures |y.answer.rrs| == |x.answer.rrs|
  {
    var rrs :=
      if child.slot < |x.answer.rrs| && x.answer.rrs[child.slot].Host? && child.callback.IcbHostaddr? then
        x.answer.rrs[child.slot := x.answer.rrs[child.slot].(
          astatus := child.answer.status, addrs := child.answer.rrs,
          naddrs := if TempFail(child.answer.status) then -1 else |child.answer.rrs|)]
      else x.answer.rrs;
    x.(allocations := x.allocations + (if child.answer.rrs != [] then 1 else 0), answer := x.answer.(rrs := rrs))
  }

  /** The history of a query after a child has confirmed its record. */
  function ConfirmedBy(x: Query, child: Query): Query 
  {
    x.(confirmed := x.confirmed[child.slot := Confirmation(child.answer.rrs, child.first)])
  }

  /** The callbacks icb_hostaddr and icb_ptr; the child has been unlinked and the parent is on no queue. */
  function RunCallback(s: St, p: QId, child: Query): (t: St)
    requires p in s.qs
    ensures t.unused == s.unused
  {
    match child.callback
    case NoCallback => s
    case IcbHostaddr =>
      WaitOrComplete(Set(s, p, Filled(s.qs[p], child)), p)
    case IcbPtr =>
      var st := child.answer.status;
      if st == NxDomain || st == NoData then FailRoot(s, p, Inconsistent)
      else if st != Ok then FailRoot(s, p, st)
      else if s.qs[p].ptrAddr.Some? && Address(s.qs[p].ptrAddr.value) in child.answer.rrs then
        WaitOrComplete(Set(s, p, ConfirmedBy(s.qs[p], child)), p)
      else FailRoot(s, p, Inconsistent)
  }

  /** adns__query_done. */
  function Finish(s: St, q: QId): (t: St)
    requires q in s.qs && ParentLives(s, q)
    ensures t.unused == s.unused
  {
    var x := s.qs[q];
    if x.parent.None? then CompleteRoot(s, q)
    else RunCallback(Drop(Unqueue(s, x.parent.value), {q}), x.parent.value, x)
  }

  /** adns__query_fail. */
  function Fail(s: St, q: QId, st: Status): (t: St)
    requires q in s.qs && ParentLives(s, q)
    ensures t.unused == s.unused
  {
    Finish(Set(s, q, WithStatus(s.qs[q], st)), q)
  }

  /** The datagram that a query had before it was finished. */
  function LastAsked(x: Query): seq<Byte> { if x.state.Done? then x.asked else x.dgram }

  function Completed(x: Query): Query
  {
    x.(state := Done, id := -1, children := [], allocations := 0, dgram := [], asked := LastAsked(x),
       answer := x.answer.(owner := if x.flags.owner && x.flags.search then Some(x.searchVb) else x.answer.owner))
  }

  lemma CompletedFields(cfg: Config, x: Query)
    requires ValidConfig(cfg) && Fields(cfg, x, true) && x.parent.None? && Final(x)
    ensures Fields(cfg, Completed(x), true) && Fields(cfg, Completed(x), false)
  {
    hide HoldsName;
    hide Resolved;
    hide AskedName;
    hide ReadLabels;
    if x.typ == PTR && x.answer.status == Ok && x.answer.rrs != [] {
      assert 0 in x.confirmed;
    }
  }

  lemma FinalAlike(x: Query, y: Query)
    requires Final(x) && y == x.(children := y.children)
    ensures Final(y)
  {
    hide Resolved;
  }

  lemma CompleteRootKeeps(cfg: Config, s: St, q: QId)
    requires ValidConfig(cfg) && Inv(cfg, s, {q}) && q in s.qs && s.qs[q].parent.None? && Final(s.qs[q])
    ensures Inv(cfg, CompleteRoot(s, q), {})
  {
    hide Inv;
    hide Fields;
    hide Final;
    hide Drop;
    DropKids(cfg, s, q);
    var t := Drop(s, Kids(s, q));
    assert Kids(s, q) - {q} == Kids(s, q);
    InvAt(cfg, t, {q}, q);
    hide Kids;
    hide Links;
    FinalAlike(s.qs[q], t.qs[q]);
    CompletedFields(cfg, t.qs[q]);
    SetKeeps(cfg, t, {q}, q, Completed(t.qs[q]));
    EnqueueKeeps(cfg, Set(t, q, Completed(t.qs[q])), {q}, q);
    assert {q} - {q} == {};
  }

  lemma StatusFields(cfg: Config, x: Query, st: Status)
    requires ValidConfig(cfg) && Fields(cfg, x, true) && st != Ok
    ensures Fields(cfg, WithStatus(x, st), true)
  {
    hide AskedName;
    hide ReadLabels;
  }

  lemma StatusKeeps(cfg: Config, s: St, q: QId, st: Status)
    requires ValidConfig(cfg) && Inv(cfg, s, {q}) && q in s.qs && st != Ok
    ensures ParentLives(s, q) && Inv(cfg, Set(s, q, WithStatus(s.qs[q], st)), {q})
  {
    hide Inv;
    hide Fields;
    InvAt(cfg, s, {q}, q);
    StatusFields(cfg, s.qs[q], st);
    SetKeeps(cfg, s, {q}, q, WithStatus(s.qs[q], st));
  }

  lemma FailRootKeeps(cfg: Config, s: St, q: QId, st: Status)
    requires ValidConfig(cfg) && Inv(cfg, s, {q}) && q in s.qs && s.qs[q].parent.None? && st != Ok
    ensures Inv(cfg, FailRoot(s, q, st), {})
  {
    hide Inv;
    StatusKeeps(cfg, s, q, st);
    CompleteRootKeeps(cfg, Set(s, q, WithStatus(s.qs[q], st)), q);
  }

  lemma WaitOrCompleteKeeps(cfg: Config, s: St, p: QId)
    requires ValidConfig(cfg) && Inv(cfg, s, {p}) && p in s.qs && s.qs[p].parent.None? && s.qs[p].state.Childw?
    requires 0 <= s.qs[p].id < 0x1_0000 && SlotsOk(s, p) && Covered(s, p) && Hopeful(s.qs[p])
    ensures Inv(cfg, WaitOrComplete(s, p), {})
  {
    hide Inv;
    hide Covered;
    hide SlotsOk;
    hide Fields;
    hide Final;
    InvAt(cfg, s, {p}, p);
    hide Links;
    if s.qs[p].children != [] {
      WaitingFields(cfg, s.qs[p]);
      EnqueueKeeps(cfg, s, {p}, p);
      assert {p} - {p} == {};
    } else {
      CoveredIsFinal(s, p);
      CompleteRootKeeps(cfg, s, p);
    }
  }

  /** A query that is covered without children can be finished. */
  lemma CoveredIsFinal(s: St, p: QId)
    requires p in s.qs && s.qs[p].children == [] && s.qs[p].answer.status == Ok && s.qs[p].answer.rrs != []
    requires Covered(s, p)
    ensures Final(s.qs[p])
  {
    hide Resolved;
  }

  lemma WaitingFields(cfg: Config, x: Query)
    requires ValidConfig(cfg) && Fields(cfg, x, true) && x.state.Childw? && 0 <= x.id < 0x1_0000 && Hopeful(x)
    ensures Fields(cfg, x, false)
  {
  }

  /** The children of a query are still for the same records when it is changed itself. */
  lemma KidsForSame(s: St, p: QId, x: Query)
    requires p in s.qs && p !in s.qs[p].children && x.children == s.qs[p].children
    ensures forall i: nat :: KidFor(s, p, i) ==> KidFor(Set(s, p, x), p, i)
  {
    forall i: nat | KidFor(s, p, i) ensures KidFor(Set(s, p, x), p, i) {
      var c :| c in s.qs[p].children && c in s.qs && s.qs[c].slot == i;
      assert c in x.children && c in Set(s, p, x).qs && Set(s, p, x).qs[c].slot == i;
    }
  }

  /** What a child has found settles its record. */
  lemma FilledSettles(x: Query, child: Query)
    requires child.slot < |x.answer.rrs| && x.answer.rrs[child.slot].Host? && child.callback.IcbHostaddr? &&
             Conclusive(child)
    ensures Resolved(Filled(x, child).answer.rrs[child.slot])
    ensures forall i :: 0 <= i < |x.answer.rrs| && i != child.slot ==>
              Filled(x, child).answer.rrs[i] == x.answer.rrs[i]
    ensures Filled(x, child).answer.rrs[child.slot].Host?
  {
  }

  lemma FilledAccount(s: St, p: QId, child: Query)
    requires p in s.qs && SlotsOk(s, p) && CoveredBut(s, p, Some(child.slot)) && child.callback.IcbHostaddr? &&
             p !in s.qs[p].children
    requires s.qs[p].typ != PTR && SlotOk(child, s.qs[p]) && Conclusive(child)
    ensures var t := Set(s, p, Filled(s.qs[p], child)); SlotsOk(t, p) && Covered(t, p)
  {
    hide HoldsName;
    KidsForSame(s, p, Filled(s.qs[p], child));
    FilledSettles(s.qs[p], child);
    FilledText(s.qs[p], child);
    hide Filled;
    hide KidFor;
    hide Resolved;
  }

  lemma FilledText(x: Query, child: Query)
    requires child.slot < |x.answer.rrs| && x.answer.rrs[child.slot].Host?
    ensures var y := Filled(x, child);
            forall i, dg :: 0 <= i < |x.answer.rrs| ==>
              (HoldsName(x.answer.rrs[i], x.flags.quoteokAnshost, dg) ==>
                 HoldsName(y.answer.rrs[i], y.flags.quoteokAnshost, dg)) &&
              (HoldsHost(x.answer.rrs[i], x.flags.quoteokAnshost, dg) ==>
                 HoldsHost(y.answer.rrs[i], y.flags.quoteokAnshost, dg))
  {
  }

  lemma ConfirmedAccount(s: St, p: QId, child: Query)
    requires p in s.qs && SlotsOk(s, p) && CoveredBut(s, p, Some(child.slot)) && p !in s.qs[p].children
    requires s.qs[p].typ == PTR
    ensures var t := Set(s, p, ConfirmedBy(s.qs[p], child)); SlotsOk(t, p) && Covered(t, p)
  {
    hide HoldsName;
    KidsForSame(s, p, ConfirmedBy(s.qs[p], child));
    hide KidFor;
    hide Resolved;
  }

  /** What a callback finds: the parent waits for the child that has just left it. */
  ghost predicate Leaving(s: St, p: QId, child: Query)
  {
    p in s.qs && s.qs[p].parent.None? && s.qs[p].state.Childw? && 0 <= s.qs[p].id < 0x1_0000 &&
      p !in s.qs[p].children &&
    SlotsOk(s, p) && CoveredBut(s, p, Some(child.slot)) && RightChild(child, s.qs[p]) &&
      !child.callback.NoCallback? && Hopeful(s.qs[p]) && SlotOk(child, s.qs[p]) && Conclusive(child)
  }

  lemma FilledFields(cfg: Config, x: Query, child: Query)
    requires ValidConfig(cfg) && Fields(cfg, x, true) && x.state.Childw?
    ensures Fields(cfg, Filled(x, child), true)
  {
    hide AskedName;
    hide ReadLabels;
    hide Resolved;
  }

  lemma ConfirmedFields(cfg: Config, x: Query, child: Query)
    requires ValidConfig(cfg) && Fields(cfg, x, true) && x.state.Childw?
    requires x.ptrAddr.Some? && Address(x.ptrAddr.value) in child.answer.rrs
    requires child.slot < |x.answer.rrs| ==>
               HoldsName(x.answer.rrs[child.slot], x.flags.quoteokAnshost, child.first)
    ensures Fields(cfg, ConfirmedBy(x, child), true)
  {
    hide AskedName;
    hide ReadLabels;
    hide HoldsName;
    hide Resolved;
  }

  lemma FilledKeeps(cfg: Config, s: St, p: QId, child: Query)
    requires ValidConfig(cfg) && Inv(cfg, s, {p}) && p in s.qs && s.qs[p].parent.None? && s.qs[p].state.Childw?
    ensures Inv(cfg, Set(s, p, Filled(s.qs[p], child)), {p})
  {
    hide Inv;
    hide Fields;
    InvAt(cfg, s, {p}, p);
    FilledFields(cfg, s.qs[p], child);
    SetKeeps(cfg, s, {p}, p, Filled(s.qs[p], child));
  }

  lemma ConfirmKeeps(cfg: Config, s: St, p: QId, child: Query)
    requires ValidConfig(cfg) && Inv(cfg, s, {p}) && p in s.qs && s.qs[p].parent.None? && s.qs[p].state.Childw?
    requires s.qs[p].ptrAddr.Some? && Address(s.qs[p].ptrAddr.value) in child.answer.rrs
    requires SlotOk(child, s.qs[p]) && child.callback.IcbPtr?
    ensures Inv(cfg, Set(s, p, ConfirmedBy(s.qs[p], child)), {p})
  {
    hide Inv;
    hide Fields;
    hide HoldsName;
    InvAt(cfg, s, {p}, p);
    ConfirmedFields(cfg, s.qs[p], child);
    SetKeeps(cfg, s, {p}, p, ConfirmedBy(s.qs[p], child));
  }

  lemma RunCallbackKeeps(cfg: Config, s: St, p: QId, child: Query)
    requires ValidConfig(cfg) && Inv(cfg, s, {p}) && Leaving(s, p, child)
    ensures Inv(cfg, RunCallback(s, p, child), {})
  {
    hide WaitOrComplete;
    hide FailRoot;
    hide Inv;
    hide SlotsOk;
    hide Covered;
    hide CoveredBut;
    match child.callback
    case IcbHostaddr =>
      FilledKeeps(cfg, s, p, child);
      FilledAccount(s, p, child);
      WaitOrCompleteKeeps(cfg, Set(s, p, Filled(s.qs[p], child)), p);
    case IcbPtr =>
      hide Filled;
      if s.qs[p].ptrAddr.Some? && Address(s.qs[p].ptrAddr.value) in child.answer.rrs {
        ConfirmKeeps(cfg, s, p, child);
        ConfirmedAccount(s, p, child);
        WaitOrCompleteKeeps(cfg, Set(s, p, ConfirmedBy(s.qs[p], child)), p);
      }
      FailRootKeeps(cfg, s, p, Inconsistent);
      if child.answer.status != Ok {
        FailRootKeeps(cfg, s, p, child.answer.status);
      }
  }

  /** A child being processed, and its parent. */
  lemma ChildAndParent(cfg: Config, s: St, q: QId, p: QId)
    requires ValidConfig(cfg) && Inv(cfg, s, {q}) && q in s.qs && s.qs[q].parent == Some(p)
    ensures p in s.qs && p != q && !s.qs[q].callback.NoCallback? && s.qs[q].children == []
    ensures s.qs[p].parent.None? && s.qs[p].state.Childw? && 0 <= s.qs[p].id < 0x1_0000
  {
    InvAt(cfg, s, {q}, q);
    hide Inv;
    ParentId(cfg, s, {q}, p);
  }

  lemma ParentId(cfg: Config, s: St, off: set<QId>, p: QId)
    requires ValidConfig(cfg) && Inv(cfg, s, off) && p in s.qs && p !in off && !s.qs[p].state.Done?
    ensures 0 <= s.qs[p].id < 0x1_0000
  {
    InvAt(cfg, s, off, p);
  }

  /** The account of the parent when the child has left. */
  lemma LeavingAccount(cfg: Config, s: St, q: QId, p: QId)
    requires ValidConfig(cfg) && Inv(cfg, s, {q}) && q in s.qs && s.qs[q].parent == Some(p)
    requires Conclusive(s.qs[q])
    ensures p in s.qs && Leaving(Drop(Unqueue(s, p), {q}), p, s.qs[q])
    ensures SlotOk(s.qs[q], s.qs[p])
  {
    hide Inv;
    ChildAndParent(cfg, s, q, p);
    ChildFits(cfg, s, q, p);
    KidsAre(cfg, s, {q}, p);
    forall c | c in s.qs[p].children && c in s.qs ensures SlotOk(s.qs[c], s.qs[p]) {
      ChildFits(cfg, s, c, p);
    }
    ParentHopes(cfg, s, q, p);
    hide SlotOk;
    hide Covered;
    LeftAccount(s, q, p);
    hide CoveredBut;
    hide SlotsOk;
  }

  /** A child suits its parent, which it is waited for by. */
  lemma ChildFits(cfg: Config, s: St, c: QId, p: QId)
    requires ValidConfig(cfg) && p in s.qs && c in s.qs && s.qs[c].parent == Some(p)
    requires exists off :: Inv(cfg, s, off) && p !in off
    ensures SlotOk(s.qs[c], s.qs[p]) && RightChild(s.qs[c], s.qs[p]) && s.qs[p].state.Childw? && Covered(s, p)
  {
    var off :| Inv(cfg, s, off) && p !in off;
    InvAt(cfg, s, off, c);
    InvAt(cfg, s, off, p);
    hide Inv;
    hide Fields;
    hide SlotOk;
    hide RightChild;
    hide Covered;
  }

  lemma ParentHopes(cfg: Config, s: St, q: QId, p: QId)
    requires ValidConfig(cfg) && Inv(cfg, s, {q}) && p in s.qs && p != q && s.qs[p].state.Childw?
    ensures Hopeful(s.qs[p])
  {
    InvAt(cfg, s, {q}, p);
  }

  lemma LeftAccount(s: St, q: QId, p: QId)
    requires p in s.qs && p != q && q in s.qs && Covered(s, p) && p !in s.qs[p].children
    requires forall c :: c in s.qs[p].children && c in s.qs && c != q ==> SlotOk(s.qs[c], s.qs[p])
    ensures var t := Drop(Unqueue(s, p), {q});
            p in t.qs && SlotsOk(t, p) && CoveredBut(t, p, Some(s.qs[q].slot)) && p !in t.qs[p].children
  {
    hide HoldsName;
    var t := Drop(Unqueue(s, p), {q});
    forall i: nat | i != s.qs[q].slot && KidFor(s, p, i) ensures KidFor(t, p, i) {
      var c :| c in s.qs[p].children && c in s.qs && s.qs[c].slot == i;
      assert c in t.qs[p].children && c in t.qs && t.qs[c].slot == i;
    }
    hide KidFor;
    hide Resolved;
  }

  /** A child about to finish leaves its parent's family. */
  lemma LeaveFamily(cfg: Config, s: St, q: QId, p: QId)
    requires ValidConfig(cfg) && Inv(cfg, s, {q}) && q in s.qs && s.qs[q].parent == Some(p)
    ensures p in s.qs && p != q && !s.qs[q].callback.NoCallback?
    ensures var t := Drop(Unqueue(s, p), {q});
            Inv(cfg, t, {p}) && (Conclusive(s.qs[q]) ==> Leaving(t, p, s.qs[q])) && s.qs[p].parent.None? &&
            s.qs[p].state.Childw?
  {
    hide Inv;
    hide Leaving;
    ChildAndParent(cfg, s, q, p);
    if Conclusive(s.qs[q]) {
      LeavingAccount(cfg, s, q, p);
    }
    var t := Unqueue(s, p);
    UnqueueKeeps(cfg, s, {q}, p);
    assert Droppable(t, {q} + {p}, {q});
    hide Droppable;
    hide Drop;
    DropKeeps(cfg, t, {q} + {p}, {q});
    assert {q} + {p} - {q} == {p};
  }

  /** adns__query_done keeps the invariant, whatever the callback of a child decides. */
  lemma FinishKeeps(cfg: Config, s: St, q: QId)
    requires ValidConfig(cfg) && Inv(cfg, s, {q}) && q in s.qs && Conclusive(s.qs[q])
    requires s.qs[q].parent.None? ==> Final(s.qs[q])
    ensures ParentLives(s, q)
    ensures Inv(cfg, Finish(s, q), {})
  {
    hide Conclusive;
    hide Final;
    if s.qs[q].parent.None? {
      CompleteRootKeeps(cfg, s, q);
    } else {
      var p := s.qs[q].parent.value;
      LeaveFamily(cfg, s, q, p);
      hide Inv;
      hide RunCallback;
      RunCallbackKeeps(cfg, Drop(Unqueue(s, p), {q}), p, s.qs[q]);
    }
  }

  /** adns__query_fail keeps the invariant. */
  lemma FailKeeps(cfg: Config, s: St, q: QId, st: Status)
    requires ValidConfig(cfg) && Inv(cfg, s, {q}) && q in s.qs && st != Ok
    ensures ParentLives(s, q)
    ensures Inv(cfg, Fail(s, q, st), {})
  {
    hide Inv;
    hide Finish;
    StatusKeeps(cfg, s, q, st);
    FinishKeeps(cfg, Set(s, q, WithStatus(s.qs[q], st)), q);
  }

  // ---------- Sending ----------

  /** A query handed to sendto for the next server in turn. */
  function Dispatched(cfg: Config, x: Query, now: int): Query
    requires ValidConfig(cfg)
  {
    x.(timeout := now + RETRY, udpsent := x.udpsent + {x.udpnextserver},
       udpnextserver := (x.udpnextserver + 1) % cfg.nservers, retries := x.retries + 1,
       sent := x.sent + [Sending(x.udpnextserver, now)])
  }

  /** adns__query_send, over UDP. */
  function Send(cfg: Config, s: St, q: QId, now: int): (t: St)
    requires ValidConfig(cfg) && q in s.qs && ParentLives(s, q)
    ensures t.unused == s.unused
  {
    if |s.qs[q].dgram| > DNS_MAXUDP then Fail(s, q, SystemFail)
    else if s.qs[q].retries >= UDPMAXRETRIES then Fail(s, q, Timeout)
    else Set(s, q, Dispatched(cfg, s.qs[q], now)).(udpw := s.udpw + [q])
  }

  /** There has been no error, and nothing has been sent since the last reset, or the retry time of the last datagram is
      over. */
  ghost predicate Ready(x: Query, now: int)
  {
    x.answer.status == Ok &&
    (x.flags.search || x.retries == 0 || (|x.sent| > 0 && x.sent[|x.sent| - 1].time + RETRY < now))
  }

  lemma InTurn2(k: nat)
    ensures (k % 2 + 1) % 2 == (k + 1) % 2
  {
  }

  lemma InTurn3(k: nat)
    ensures (k % 3 + 1) % 3 == (k + 1) % 3
  {
  }

  lemma InTurn4(k: nat)
    ensures (k % 4 + 1) % 4 == (k + 1) % 4
  {
  }

  lemma InTurn5(k: nat)
    ensures (k % 5 + 1) % 5 == (k + 1) % 5
  {
  }

  lemma NextInTurn(k: nat, n: nat)
    requires 1 <= n <= MAXSERVERS
    ensures (k % n + 1) % n == (k + 1) % n
  {
    InTurn2(k);
    InTurn3(k);
    InTurn4(k);
    InTurn5(k);
    assert n == 1 || n == 2 || n == 3 || n == 4 || n == 5;
  }

  lemma DispatchedRoundRobin(cfg: Config, x: Query, now: int)
    requires ValidConfig(cfg) && RoundRobin(cfg, x)
    ensures RoundRobin(cfg, Dispatched(cfg, x, now))
  {
    NextInTurn(|x.sent|, cfg.nservers);
    var n, k := cfg.nservers, |x.sent|;
    assert k < n ==> k % n == k;
    assert k % n < n;
  }

  lemma DispatchedFields(cfg: Config, x: Query, now: int)
    requires ValidConfig(cfg) && Fields(cfg, x, true) && Ready(x, now) && x.state.Tosend?
    requires Asking(x) && x.ptrAddr.None? && |x.dgram| <= DNS_MAXUDP && x.retries < UDPMAXRETRIES &&
             0 <= x.id < 0x1_0000
    ensures Fields(cfg, Dispatched(cfg, x, now), true) && Fields(cfg, Dispatched(cfg, x, now), false)
  {
    DispatchedRoundRobin(cfg, x, now);
    hide RoundRobin;
    hide Question;
    hide AskedName;
    hide ReadLabels;
    hide OwnerLabels;
    hide ValidOwner;
  }

  lemma DispatchKeeps(cfg: Config, s: St, q: QId, now: int)
    requires ValidConfig(cfg) && Inv(cfg, s, {q}) && Ready(s.qs[q], now)
    requires s.qs[q].state.Tosend? && s.qs[q].children == [] && 0 <= s.qs[q].id < 0x1_0000
    requires Asking(s.qs[q]) && s.qs[q].ptrAddr.None?
    requires |s.qs[q].dgram| <= DNS_MAXUDP && s.qs[q].retries < UDPMAXRETRIES
    ensures Inv(cfg, Set(s, q, Dispatched(cfg, s.qs[q], now)).(udpw := s.udpw + [q]), {})
  {
    InvAt(cfg, s, {q}, q);
    hide Inv;
    DispatchedFields(cfg, s.qs[q], now);
    var y := Dispatched(cfg, s.qs[q], now);
    assert y.parent == s.qs[q].parent && y.children == [] && y.state.Tosend?;
    hide Fields;
    hide Links;
    hide Dispatched;
    SetKeeps(cfg, s, {q}, q, y);
    EnqueueKeeps(cfg, Set(s, q, y), {q}, q);
    assert {q} - {q} == {};
  }

  lemma SendKeeps(cfg: Config, s: St, q: QId, now: int)
    requires ValidConfig(cfg) && Inv(cfg, s, {q}) && q in s.qs && Ready(s.qs[q], now)
    requires s.qs[q].state.Tosend? && s.qs[q].children == [] && 0 <= s.qs[q].id < 0x1_0000
    requires Asking(s.qs[q]) && s.qs[q].ptrAddr.None?
    ensures ParentLives(s, q)
    ensures Inv(cfg, Send(cfg, s, q, now), {})
  {
    hide Inv;
    hide Fail;
    hide Dispatched;
    FailKeeps(cfg, s, q, SystemFail);
    FailKeeps(cfg, s, q, Timeout);
    if |s.qs[q].dgram| <= DNS_MAXUDP && s.qs[q].retries < UDPMAXRETRIES {
      DispatchKeeps(cfg, s, q, now);
    }
  }

  /** adns__query_send gives up exactly when the retries are used up, and then every server has been asked: also for
      a query that comes from a search and is on no queue. */
  lemma TimeoutAfterAllServers(cfg: Config, s: St, off: set<QId>, q: QId, now: int)
    requires ValidConfig(cfg) && Inv(cfg, s, off) && q in s.qs && ParentLives(s, q) && |s.qs[q].dgram| <= DNS_MAXUDP
    ensures if s.qs[q].retries >= UDPMAXRETRIES then Send(cfg, s, q, now) == Fail(s, q, Timeout)
            else Send(cfg, s, q, now).udpw == s.udpw + [q]
    ensures s.qs[q].retries >= UDPMAXRETRIES ==>
              |s.qs[q].sent| >= UDPMAXRETRIES && forall v: nat :: v in s.qs[q].udpsent <==> v < cfg.nservers
  {
    InvAt(cfg, s, off, q);
    hide Inv;
    hide Fail;
  }

  /** A query that waits out its last retry has used every server; unless it is searching, more than five times the
      retry time has passed since the first datagram after the last reset. */
  lemma TimeoutComesLate(cfg: Config, s: St, q: QId, now: int)
    requires ValidConfig(cfg) && Inv(cfg, s, {}) && q in s.udpw && s.qs[q].timeout < now
    requires s.qs[q].retries >= UDPMAXRETRIES
    ensures var x := s.qs[q];
            (forall v: nat :: v in x.udpsent <==> v < cfg.nservers) && |x.sent| >= UDPMAXRETRIES &&
            (!x.flags.search ==> x.sent[|x.sent| - UDPMAXRETRIES].time + UDPMAXRETRIES * RETRY < now)
  {
    InvAt(cfg, s, {}, q);
    hide Inv;
    var x := s.qs[q];
    var k := |x.sent|;
    if !x.flags.search {
      assert x.sent[k - 5].time + RETRY < x.sent[k - 4].time;
      assert x.sent[k - 4].time + RETRY < x.sent[k - 3].time;
      assert x.sent[k - 3].time + RETRY < x.sent[k - 2].time;
      assert x.sent[k - 2].time + RETRY < x.sent[k - 1].time;
    }
  }
}
