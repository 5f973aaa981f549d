/** How queries end: what the application, or the parent of a child, is told (adns/adns.h:289-294, 361-381,
    adns/types.c:606-629, 919-958). Nothing here names the functions that bring it about but in what it is said of. */
module Endings {
  import opened Basics
  import opened Texts
  import opened Queries
  import opened LifeCycle
  import opened Steps
  import opened Submission
  import opened Runs

  /** A child has found the address that its parent is to confirm. */
  predicate AddressFound(parent: Query, st: Status, rrs: seq<Stored>)
  {
    st == Ok && parent.ptrAddr.Some? && Address(parent.ptrAddr.value) in rrs
  }

  /** The number that tells why a host has no addresses, or how many it has (adns/adns.h:292). */
  function Naddrs(st: Status, rrs: seq<Stored>): int
  {
    if st == Ok then |rrs| else if TempFail(st) then -1 else 0
  }

  /** The record of a host in a slot says what its child has ended with; nothing else of the answer has changed. */
  predicate HostTold(before: Answer, after: Answer, slot: nat, st: Status, rrs: seq<Stored>)
  {
    slot < |before.rrs| && before.rrs[slot].Host? && after.status == before.status &&
    var h := before.rrs[slot];
    after.rrs == before.rrs[slot := Host(h.pref, h.host, st, Naddrs(st, rrs), rrs)]
  }

  /** Unless the child has found the address, a PTR query ends: with Inconsistent if and only if there is no such
      name, no such address, or the child ends so itself, and otherwise as the child does. */
  predicate PtrTold(before: Query, after: Query, st: Status, rrs: seq<Stored>)
  {
    if AddressFound(before, st, rrs) then
      after.answer.status == before.answer.status && after.answer.rrs == before.answer.rrs
    else
      after.state.Done? && after.answer.rrs == [] &&
      (after.answer.status == Inconsistent <==> st in {NxDomain, NoData, Ok, Inconsistent}) &&
      (st !in {NxDomain, NoData, Ok} ==> after.answer.status == st) &&
      (TempFail(after.answer.status) <==> TempFail(st))
  }

  /** The query has ended with this status and these records: it can be collected, or its parent has been told, and goes
      on waiting if it has other children and has not ended itself. */
  ghost predicate Reported(s: St, t: St, q: QId, st: Status, rrs: seq<Stored>)
    requires q in s.qs
  {
    match s.qs[q].parent
    case None => q in t.output && q in t.qs && t.qs[q].answer.status == st && t.qs[q].answer.rrs == rrs
    case Some(p) =>
      p in s.qs && p in t.qs && q !in t.qs &&
      var last := forall c :: c in s.qs[p].children ==> c == q;
      if s.qs[p].typ == PTR then
        PtrTold(s.qs[p], t.qs[p], st, rrs) &&
        if last || !AddressFound(s.qs[p], st, rrs) then p in t.output else p in t.childw
      else
        HostTold(s.qs[p].answer, t.qs[p].answer, s.qs[q].slot, st, rrs) && if last then p in t.output else p in t.childw
  }

  // ---------- Completion ----------

  lemma RootIsCollected(s: St, q: QId)
    requires q in s.qs
    ensures var t := CompleteRoot(s, q);
            q in t.output && q in t.qs && t.qs[q].state.Done? && t.qs[q].answer.status == s.qs[q].answer.status &&
            t.qs[q].answer.rrs == s.qs[q].answer.rrs
  {
    hide Without;
  }

  lemma RootFails(s: St, q: QId, st: Status)
    requires q in s.qs
    ensures var t := FailRoot(s, q, st);
            q in t.output && q in t.qs && t.qs[q].state.Done? && t.qs[q].answer.status == st && t.qs[q].answer.rrs == []
  {
    hide CompleteRoot;
    RootIsCollected(Set(s, q, WithStatus(s.qs[q], st)), q);
  }

  lemma RootDropsOthers(s: St, q: QId, c: QId)
    requires q in s.qs && c !in s.qs
    ensures c !in CompleteRoot(s, q).qs
  {
    hide Without;
  }

  /** What is left when a child has gone. */
  lemma WithoutChild(s: St, q: QId, p: QId)
    requires p in s.qs && q in s.qs && p != q
    ensures var t := Drop(Unqueue(s, p), {q});
            p in t.qs && q !in t.qs && t.qs[p] == s.qs[p].(children := t.qs[p].children) &&
            (t.qs[p].children == [] <==> forall c :: c in s.qs[p].children ==> c == q)
  {
    var t := Drop(Unqueue(s, p), {q});
    var cs := t.qs[p].children;
    if cs != [] {
      assert cs[0] in cs;
    }
    hide Without;
  }

  /** The end of a callback that does not fail. */
  lemma GoesOn(s: St, p: QId, q: QId)
    requires p in s.qs && q !in s.qs
    ensures var t := WaitOrComplete(s, p);
            p in t.qs && q !in t.qs && t.qs[p].answer.status == s.qs[p].answer.status &&
            t.qs[p].answer.rrs == s.qs[p].answer.rrs && (s.qs[p].children != [] ==> t.qs[p] == s.qs[p]) &&
            if s.qs[p].children == [] then p in t.output else p in t.childw
  {
    hide CompleteRoot;
    RootIsCollected(s, p);
    RootDropsOthers(s, p, q);
  }

  lemma HostCallbackTells(s: St, p: QId, q: QId, child: Query)
    requires p in s.qs && q !in s.qs && child.callback.IcbHostaddr? && Conclusive(child)
    requires child.slot < |s.qs[p].answer.rrs| && s.qs[p].answer.rrs[child.slot].Host?
    ensures var t, st, rrs := RunCallback(s, p, child), child.answer.status, child.answer.rrs;
            p in t.qs && q !in t.qs && HostTold(s.qs[p].answer, t.qs[p].answer, child.slot, st, rrs) &&
            if s.qs[p].children == [] then p in t.output else p in t.childw
  {
    hide WaitOrComplete;
    GoesOn(Set(s, p, Filled(s.qs[p], child)), p, q);
  }

  lemma PtrCallbackTells(s: St, p: QId, q: QId, child: Query)
    requires p in s.qs && q !in s.qs && child.callback.IcbPtr?
    ensures var t, st, rrs := RunCallback(s, p, child), child.answer.status, child.answer.rrs;
            p in t.qs && q !in t.qs && PtrTold(s.qs[p], t.qs[p], st, rrs) &&
            if s.qs[p].children == [] || !AddressFound(s.qs[p], st, rrs) then p in t.output else p in t.childw
  {
    hide WaitOrComplete;
    hide FailRoot;
    GoesOn(Set(s, p, ConfirmedBy(s.qs[p], child)), p, q);
    RootFails(s, p, Inconsistent);
    FailDropsOthers(s, p, q, Inconsistent);
    RootFails(s, p, child.answer.status);
    FailDropsOthers(s, p, q, child.answer.status);
  }

  lemma FailDropsOthers(s: St, q: QId, c: QId, st: Status)
    requires q in s.qs && c !in s.qs
    ensures c !in FailRoot(s, q, st).qs
  {
    RootDropsOthers(Set(s, q, WithStatus(s.qs[q], st)), q, c);
    hide CompleteRoot;
  }

  /** A query that is done is reported as it is. */
  lemma FinishReports(cfg: Config, s: St, q: QId)
    requires ValidConfig(cfg) && Inv(cfg, s, {q}) && q in s.qs && Conclusive(s.qs[q])
    ensures ParentLives(s, q)
    ensures Reported(s, Finish(s, q), q, s.qs[q].answer.status, s.qs[q].answer.rrs)
  {
    hide RunCallback;
    hide CompleteRoot;
    hide PtrTold;
    hide HostTold;
    hide AddressFound;
    var x := s.qs[q];
    if x.parent.None? {
      RootIsCollected(s, q);
    } else {
      var p := x.parent.value;
      ChildAndParent(cfg, s, q, p);
      LeavingAccount(cfg, s, q, p);
      WithoutChild(s, q, p);
      var u := Drop(Unqueue(s, p), {q});
      ToldAlike(s.qs[p], u.qs[p], Finish(s, q), x.answer.status, x.answer.rrs, p);
      LeavingTells(u, p, x);
      hide Inv;
      hide Leaving;
      hide Drop;
      if x.callback.IcbHostaddr? {
        HostCallbackTells(u, p, q, x);
      } else {
        PtrCallbackTells(u, p, q, x);
      }
    }
  }

  lemma LeavingTells(s: St, p: QId, child: Query)
    requires Leaving(s, p, child)
    ensures p in s.qs && (child.callback.IcbPtr? <==> s.qs[p].typ == PTR) && !child.callback.NoCallback?
    ensures child.callback.IcbHostaddr? ==>
              child.slot < |s.qs[p].answer.rrs| && s.qs[p].answer.rrs[child.slot].Host?
  {
    hide SlotsOk;
    hide CoveredBut;
  }

  lemma ToldAlike(x: Query, y: Query, t: St, st: Status, rrs: seq<Stored>, p: QId)
    requires y == x.(children := y.children)
    ensures AddressFound(y, st, rrs) == AddressFound(x, st, rrs)
    ensures p in t.qs ==> PtrTold(y, t.qs[p], st, rrs) == PtrTold(x, t.qs[p], st, rrs)
  {
  }

  /** A query that fails is reported with the status that it fails with, and without records. */
  lemma FailReports(cfg: Config, s: St, q: QId, st: Status)
    requires ValidConfig(cfg) && Inv(cfg, s, {q}) && q in s.qs && st != Ok
    ensures ParentLives(s, q) && Reported(s, Fail(s, q, st), q, st, [])
  {
    hide Inv;
    hide Finish;
    StatusKeeps(cfg, s, q, st);
    var u := Set(s, q, WithStatus(s.qs[q], st));
    FinishReports(cfg, u, q);
    hide PtrTold;
    hide HostTold;
    hide AddressFound;
    if s.qs[q].parent.Some? {
      ChildAndParent(cfg, s, q, s.qs[q].parent.value);
    }
  }

  /** The canonical name noted in an answer stays in it. */
  lemma FinishKeepsCname(s: St, q: QId)
    requires q in s.qs && s.qs[q].parent.None?
    ensures var t := Finish(s, q); q in t.qs && t.qs[q].answer.cname == s.qs[q].answer.cname
  {
    hide Without;
  }

  lemma FailKeepsCname(s: St, q: QId, st: Status)
    requires q in s.qs && s.qs[q].parent.None?
    ensures var t := Fail(s, q, st); q in t.qs && t.qs[q].answer.cname == s.qs[q].answer.cname
  {
    hide Finish;
    FinishKeepsCname(Set(s, q, WithStatus(s.qs[q], st)), q);
  }

  // ---------- Sending ----------

  /** A query waits for the reply to what it has just sent again, unchanged. */
  ghost predicate SentAgain(x: Query, t: St, q: QId, now: int)
  {
    q in t.udpw && q in t.qs &&
    var y := t.qs[q];
    y.dgram == x.dgram && y.id == x.id && y.typ == x.typ && y.flags == x.flags && y.cname == x.cname &&
    y.cnameCount == x.cnameCount &&
    y.aliased == x.aliased && y.answer == x.answer && y.searchVb == x.searchVb && y.parent == x.parent &&
    y.state.Tosend? && y.retries == x.retries + 1 && y.timeout == now + RETRY &&
    |y.sent| == |x.sent| + 1 && y.sent[..|x.sent|] == x.sent && y.sent[|x.sent|].time == now
  }

  /** Sending ends a query with Timeout when its retries are used up, and otherwise leaves it waiting. */
  lemma SendReports(cfg: Config, s: St, q: QId, now: int)
    requires ValidConfig(cfg) && Inv(cfg, s, {q}) && q in s.qs && |s.qs[q].dgram| <= DNS_MAXUDP && s.qs[q].state.Tosend?
    ensures ParentLives(s, q)
    ensures var t := Send(cfg, s, q, now);
            if s.qs[q].retries >= UDPMAXRETRIES then Reported(s, t, q, Timeout, [])
            else SentAgain(s.qs[q], t, q, now) && t.nextid == s.nextid
  {
    hide Inv;
    hide Fail;
    hide Reported;
    FailReports(cfg, s, q, Timeout);
  }

  /** In place of the state before, one that differs in what is not looked at. */
  lemma ReportedSince(s: St, u: St, t: St, q: QId, st: Status, rrs: seq<Stored>)
    requires q in s.qs && q in u.qs && Reported(u, t, q, st, rrs)
    requires s.qs[q].parent == u.qs[q].parent && s.qs[q].slot == u.qs[q].slot
    requires s.qs[q].parent.Some? ==>
               var p := s.qs[q].parent.value; (p in s.qs <==> p in u.qs) && (p in s.qs ==> s.qs[p] == u.qs[p])
    ensures Reported(s, t, q, st, rrs)
  {
    hide PtrTold;
    hide HostTold;
    hide AddressFound;
  }

  /** A query that has waited too long ends with Timeout, over UDP when its retries are used up, and otherwise is sent
      again. */
  lemma ExpiryReports(cfg: Config, s: St, q: QId, now: int)
    requires ValidConfig(cfg) && Inv(cfg, s, {}) && Enabled(cfg, s, Expired(q, now))
    ensures var t := Apply(cfg, s, Expired(q, now));
            if s.qs[q].state.Tcpw? || s.qs[q].retries >= UDPMAXRETRIES then Reported(s, t, q, Timeout, [])
            else SentAgain(s.qs[q], t, q, now)
  {
    PopWaiting(cfg, s, q);
    WaitingFacts(cfg, s, q);
    InvParent(cfg, s, q);
    if s.qs[q].state.Tosend? {
      WaitingIsShort(cfg, s, q);
    }
    var u := Unqueue(s, q);
    ReplyingFacts(cfg, u, q);
    hide Inv;
    hide Replying;
    hide Reported;
    hide Send;
    hide Fail;
    hide Unqueue;
    hide SentAgain;
    if s.qs[q].state.Tosend? {
      SendReports(cfg, u, q, now);
    } else {
      FailReports(cfg, u, q, Timeout);
    }
    if Reported(u, Apply(cfg, s, Expired(q, now)), q, Timeout, []) {
      ReportedSince(s, u, Apply(cfg, s, Expired(q, now)), q, Timeout, []);
    }
  }

  lemma WaitingIsShort(cfg: Config, s: St, q: QId)
    requires ValidConfig(cfg) && Inv(cfg, s, {}) && q in s.qs && s.qs[q].state.Tosend?
    ensures |s.qs[q].dgram| <= DNS_MAXUDP
  {
    InvAt(cfg, s, {}, q);
  }

  // ---------- Asking for a name ----------

  /** The query has an identifier that comes behind those given before, the first of which is `from`. */
  ghost predicate NewlyNumbered(from: nat, t: St, q: QId)
    requires q in t.qs
  {
    from < t.nextid && t.qs[q].id == (t.nextid - 1) % 0x1_0000
  }

  /** The query has been sent to ask for these labels, under a new identifier, and waits. */
  ghost predicate AsksNow(x: Query, from: nat, t: St, q: QId, ls: seq<Label>, now: int)
  {
    q in t.udpw && q in t.qs && NewlyNumbered(from, t, q) &&
    var y := t.qs[q];
    AskedName(y.dgram) == ls && y.typ == x.typ && y.flags == x.flags && y.parent == x.parent &&
    y.retries == x.retries + 1 && y.timeout == now + RETRY && y.sent != [] && y.sent[|y.sent| - 1].time == now
  }

  /** What comes of a name: the query asks for its labels, or ends because it has none; or because it has already been
      sent too often. */
  ghost predicate NameTried(s: St, t: St, q: QId, name: seq<Byte>, now: int)
    requires q in s.qs
  {
    match ReadLabels(name, 0, s.qs[q].flags.quoteokQuery, 0)
    case Failure(st) => Reported(s, t, q, st, [])
    case Success(ls) =>
      if s.qs[q].retries >= UDPMAXRETRIES then Reported(s, t, q, Timeout, [])
      else AsksNow(s.qs[q], s.nextid, t, q, ls, now)
  }

  lemma AskReports(cfg: Config, s: St, q: QId, owner: seq<Byte>, now: int)
    requires ValidConfig(cfg) && Sendable(cfg, s, q, now) && GoesBy(s.qs[q], owner)
    requires !(s.qs[q].flags.search && Overlong(s.qs[q], owner))
    ensures NameTried(s, QuerySimple(cfg, s, q, owner, now), q, owner, now)
  {
    hide Inv;
    hide Ready;
    hide Fail;
    hide Send;
    hide SearchNext;
    hide ReadLabels;
    hide Message;
    hide Asked;
    hide Reported;
    hide AskedName;
    var x, u := s.qs[q], s.(nextid := s.nextid + 1);
    NextIdKeeps(cfg, s, {q}, s.nextid + 1);
    match ReadLabels(owner, 0, x.flags.quoteokQuery, 0)
    case Failure(st) =>
      FailReports(cfg, u, q, st);
      ReportedSince(s, u, QuerySimple(cfg, s, q, owner, now), q, st, []);
    case Success(ls) =>
      AskedIsAsking(x, s.nextid % 0x1_0000, owner);
      AskedReports(cfg, u, q, s.nextid, ls, owner, now);
      if Reported(u, QuerySimple(cfg, s, q, owner, now), q, Timeout, []) {
        ReportedSince(s, u, QuerySimple(cfg, s, q, owner, now), q, Timeout, []);
      }
  }

  lemma AskedReports(cfg: Config, s: St, q: QId, from: nat, ls: seq<Label>, owner: seq<Byte>, now: int)
    requires ValidConfig(cfg) && Sendable(cfg, s, q, now) && GoesBy(s.qs[q], owner) && s.nextid == from + 1
    requires ReadLabels(owner, 0, s.qs[q].flags.quoteokQuery, 0) == Success(ls)
    ensures WireLabels(ls)
    ensures var id := from % 0x1_0000;
            var t := Send(cfg, Set(s, q, Asked(s.qs[q], id, Message(id, ls, s.qs[q].typ % 0x1_0000))), q, now);
            if s.qs[q].retries >= UDPMAXRETRIES then Reported(s, t, q, Timeout, [])
            else AsksNow(s.qs[q], from, t, q, ls, now)
  {
    hide Inv;
    hide Ready;
    hide Send;
    hide ReadLabels;
    hide Reported;
    hide AskedName;
    var x, id := s.qs[q], from % 0x1_0000;
    AskedIsAsking(x, id, owner);
    var m := Message(id, ls, x.typ % 0x1_0000);
    ShortMessage(id, ls, x.typ % 0x1_0000, owner, x.flags.quoteokQuery);
    hide Message;
    AskedSendable(cfg, s, q, id, m, owner, now);
    var u := Set(s, q, Asked(x, id, m));
    SendReports(cfg, u, q, now);
    if Reported(u, Send(cfg, u, q, now), q, Timeout, []) {
      ReportedSince(s, u, Send(cfg, u, q, now), q, Timeout, []);
    }
  }

  lemma ShortMessage(id: nat, ls: seq<Label>, typ: nat, owner: seq<Byte>, quoteok: bool)
    requires ReadLabels(owner, 0, quoteok, 0) == Success(ls)
    ensures WireLabels(ls) && |Message(id, ls, typ)| <= DNS_MAXUDP
  {
    ReadWithin(owner, 0, quoteok, 0);
    MessageIsQuestion(id, ls, typ);
    MessageAsksForName(id, ls, typ);
    hide Message;
    hide ReadLabels;
  }

  /** The first of some names that is not too long. */
  ghost predicate FirstUsable(quoteok: bool, names: seq<seq<Byte>>, k: nat)
  {
    k <= |names| && (forall i :: 0 <= i < k ==> TooLong(names[i], quoteok)) &&
    (k < |names| ==> !TooLong(names[k], quoteok))
  }

  predicate TooLong(name: seq<Byte>, quoteok: bool) { ReadLabels(name, 0, quoteok, 0) == Failure(QueryDomainTooLong) }

  /** A search tries the first of the names left that is not too long, and ends with NXDOMAIN if there is none. */
  lemma SearchReports(cfg: Config, s: St, q: QId, now: int) returns (k: nat)
    requires ValidConfig(cfg) && Sendable(cfg, s, q, now) && s.qs[q].flags.search
    ensures FirstUsable(s.qs[q].flags.quoteokQuery, Candidates(cfg, s.qs[q]), k)
    ensures var names, t := Candidates(cfg, s.qs[q]), SearchNext(cfg, s, q, now);
            if k == |names| then Reported(s, t, q, NxDomain, []) else NameTried(s, t, q, names[k], now)
  {
    hide Inv;
    hide Ready;
    hide Fail;
    hide QuerySimple;
    hide Overlong;
    hide ReadLabels;
    hide Reported;
    hide AsksNow;
    hide SearchNext;
    hide Settle;
    hide Candidates;
    var x, t, r := s.qs[q], SearchNext(cfg, s, q, now), Settle(cfg, s.qs[q]);
    SearchNextSettles(cfg, s, q, now);
    SettlesAtFirstUsable(cfg, x);
    SettledSendable(cfg, s, q, now, s.nextid + r.skipped);
    SettledIs(cfg, x);
    k := r.skipped;
    OverlongIs(x);
    var u := Set(s, q, r.x).(nextid := s.nextid + k);
    if r.exhausted {
      FailReports(cfg, u, q, NxDomain);
      ReportedSince(s, u, t, q, NxDomain, []);
    } else {
      OverlongIs(r.x);
      AskReports(cfg, u, q, r.x.searchVb, now);
      TriedSince(s, u, t, q, r.x.searchVb, now);
    }
  }

  lemma OverlongIs(x: Query)
    ensures forall name :: Overlong(x, name) == TooLong(name, x.flags.quoteokQuery)
  {
  }

  lemma TriedSince(s: St, u: St, t: St, q: QId, name: seq<Byte>, now: int)
    requires q in s.qs && q in u.qs && NameTried(u, t, q, name, now) && s.qs[q].parent.None? && u.qs[q].parent.None?
    requires s.qs[q].flags == u.qs[q].flags && s.qs[q].typ == u.qs[q].typ && s.qs[q].retries == u.qs[q].retries
    requires s.nextid <= u.nextid
    ensures NameTried(s, t, q, name, now)
  {
    hide ReadLabels;
    hide AskedName;
  }

  lemma {:induction false} SettledIs(cfg: Config, x: Query)
    ensures var y := Settle(cfg, x).x;
            y.flags == x.flags && y.parent == x.parent && y.slot == x.slot && y.typ == x.typ && y.retries == x.retries
    decreases Remaining(cfg, x)
  {
    hide Overlong;
    if NextCandidate(cfg, x).Some? {
      SettledIs(cfg, NextCandidate(cfg, x).value);
    }
  }

  lemma {:induction false} SettledSendable(cfg: Config, s: St, q: QId, now: int, nextid: nat)
    requires ValidConfig(cfg) && Sendable(cfg, s, q, now)
    ensures var t := Set(s, q, Settle(cfg, s.qs[q]).x).(nextid := nextid);
            Sendable(cfg, t, q, now) && Inv(cfg, t, {q})
    decreases Remaining(cfg, s.qs[q])
  {
    hide Inv;
    hide Ready;
    hide Overlong;
    var x := s.qs[q];
    if NextCandidate(cfg, x).None? {
      assert Set(s, q, x) == s;
      NextIdKeeps(cfg, s, {q}, nextid);
    } else {
      var y := NextCandidate(cfg, x).value;
      CandidateSendable(cfg, s, q, now);
      var u := Set(s, q, y);
      if Overlong(x, y.searchVb) {
        SettledSendable(cfg, u, q, now, nextid);
        var z := Settle(cfg, y).x;
        assert s.qs[q := y][q := z] == s.qs[q := z];
      } else {
        NextIdKeeps(cfg, u, {q}, nextid);
      }
    }
  }

  // ---------- Submission ----------

  /** The new query can be collected, with this status. */
  ghost predicate Refuses(t: St, q: QId, st: Status)
  {
    q in t.output && q in t.qs && t.qs[q].answer.status == st && t.qs[q].answer.rrs == []
  }

  /** The new query has been sent once, to ask for these labels, under a new identifier, and waits. */
  ghost predicate Asks(from: nat, t: St, q: QId, ls: seq<Label>, typ: nat, now: int)
  {
    q in t.udpw && q in t.qs && NewlyNumbered(from, t, q) &&
    var y := t.qs[q];
    AskedName(y.dgram) == ls && y.typ == typ && y.parent.None? && y.retries == 1 && y.timeout == now + RETRY
  }

  ghost predicate Submits(from: nat, t: St, q: QId, name: seq<Byte>, typ: nat, quoteok: bool, now: int)
  {
    match ReadLabels(name, 0, quoteok, 0)
    case Failure(st) => Refuses(t, q, st)
    case Success(ls) => Asks(from, t, q, ls, typ, now)
  }

  /** The names that a search for `name` tries, in order: itself first if it has enough dots, and last if not. */
  function SearchedFor(cfg: Config, name: seq<Byte>): seq<seq<Byte>>
  {
    if multiset(name)[DOT] >= cfg.ndots then [name] + Suffixed(name, cfg.searchlist)
    else Suffixed(name, cfg.searchlist) + [name]
  }

  lemma {:induction false} DotsCounted(s: seq<Byte>)
    ensures Dots(s) == multiset(s)[DOT]
  {
    if s != [] {
      DotsCounted(s[1..]);
      assert s == [s[0]] + s[1..];
    }
  }

  lemma NamedSearches(cfg: Config, name: seq<Byte>, typ: nat, flags: Flags)
    requires flags.search
    ensures Candidates(cfg, Named(cfg, name, typ, flags)) == SearchedFor(cfg, name)
  {
    DotsCounted(name);
    var x := Named(cfg, name, typ, flags);
    SearchOrder(cfg, x);
    hide Dots;
    hide Candidates;
    var all := Suffixed(name, cfg.searchlist);
    assert [name] + all + [] == [name] + all && [] + all + [name] == all + [name];
  }

  /** What comes of a name that is submitted. One that ends in a dot, unless that is escaped, is not searched for. */
  lemma SubmitReports(cfg: Config, s: St, owner: seq<Byte>, typ: nat, flags: Flags, now: int) returns (k: nat)
    requires ValidConfig(cfg) && Inv(cfg, s, {})
    ensures var t, q, n := Submit(cfg, s, owner, typ, flags, now), s.unused, |owner|;
            if n == 0 then Refuses(t, q, QueryDomainInvalid)
            else if n > DNS_MAXDOMAIN + 1 then Refuses(t, q, QueryDomainTooLong)
            else if owner[n - 1] == DOT && !(n > 1 && owner[n - 2] == BACKSLASH) then
              Submits(s.nextid, t, q, owner[..n - 1], typ, flags.quoteokQuery, now)
            else if !flags.search then Submits(s.nextid, t, q, owner, typ, flags.quoteokQuery, now)
            else
              var names := SearchedFor(cfg, owner);
              FirstUsable(flags.quoteokQuery, names, k) &&
              if k == |names| then Refuses(t, q, NxDomain)
              else Submits(s.nextid, t, q, names[k], typ, flags.quoteokQuery, now)
  {
    hide Inv;
    hide Fail;
    hide SubmitNamed;
    hide Submits;
    hide Refuses;
    hide FirstUsable;
    hide SearchedFor;
    k := 0;
    var n := |owner|;
    if n == 0 {
      Refused(cfg, s, typ, flags, QueryDomainInvalid);
    } else if n > DNS_MAXDOMAIN + 1 {
      Refused(cfg, s, typ, flags, QueryDomainTooLong);
    } else if Absolute(owner) {
      NameReports(cfg, s, owner[..n - 1], typ, flags.(search := false), now);
    } else if !flags.search {
      NameReports(cfg, s, owner, typ, flags, now);
    } else {
      k := SearchedReports(cfg, s, owner, typ, flags, now);
    }
  }

  lemma Refused(cfg: Config, s: St, typ: nat, flags: Flags, st: Status)
    requires ValidConfig(cfg) && Inv(cfg, s, {}) && st != Ok
    ensures Refuses(Fail(Add(s, Virgin(typ, flags)), s.unused, st), s.unused, st)
  {
    hide Inv;
    hide Fail;
    hide Fields;
    hide Reported;
    VirginFields(cfg, typ, flags);
    AddSendable(cfg, s, Virgin(typ, flags), 0);
    FailReports(cfg, Add(s, Virgin(typ, flags)), s.unused, st);
    RefusesNew(Add(s, Virgin(typ, flags)), Fail(Add(s, Virgin(typ, flags)), s.unused, st), s.unused, st);
  }

  lemma RefusesNew(s: St, t: St, q: QId, st: Status)
    requires q in s.qs && s.qs[q].parent.None? && Reported(s, t, q, st, [])
    ensures Refuses(t, q, st)
  {
  }

  lemma SubmitsNew(s: St, t: St, q: QId, name: seq<Byte>, now: int)
    requires q in s.qs && s.qs[q].parent.None? && s.qs[q].retries == 0 && NameTried(s, t, q, name, now)
    ensures Submits(s.nextid, t, q, name, s.qs[q].typ, s.qs[q].flags.quoteokQuery, now)
  {
    hide ReadLabels;
    hide AskedName;
  }

  lemma NameReports(cfg: Config, s: St, name: seq<Byte>, typ: nat, flags: Flags, now: int)
    requires ValidConfig(cfg) && Inv(cfg, s, {}) && !flags.search
    ensures var t := SubmitNamed(cfg, s, name, typ, flags, now);
            Submits(s.nextid, t, s.unused, name, typ, flags.quoteokQuery, now)
  {
    hide Inv;
    hide QuerySimple;
    hide Sendable;
    hide NameTried;
    hide Submits;
    var x := Named(cfg, name, typ, flags);
    NamedSendable(cfg, s, name, typ, flags, now);
    AskReports(cfg, Add(s, x), s.unused, name, now);
    SubmitsNew(Add(s, x), SubmitNamed(cfg, s, name, typ, flags, now), s.unused, name, now);
  }

  lemma SearchedReports(cfg: Config, s: St, name: seq<Byte>, typ: nat, flags: Flags, now: int) returns (k: nat)
    requires ValidConfig(cfg) && Inv(cfg, s, {}) && flags.search
    ensures var names, t := SearchedFor(cfg, name), SubmitNamed(cfg, s, name, typ, flags, now);
            FirstUsable(flags.quoteokQuery, names, k) &&
            if k == |names| then Refuses(t, s.unused, NxDomain)
            else Submits(s.nextid, t, s.unused, names[k], typ, flags.quoteokQuery, now)
  {
    hide Inv;
    hide SearchNext;
    hide Sendable;
    hide NameTried;
    hide Submits;
    hide Refuses;
    hide Reported;
    hide Candidates;
    hide Dots;
    hide Overlong;
    var x, t := Named(cfg, name, typ, flags), SubmitNamed(cfg, s, name, typ, flags, now);
    NamedSendable(cfg, s, name, typ, flags, now);
    NamedSearches(cfg, name, typ, flags);
    var u := Add(s, x);
    assert u.qs[s.unused] == x;
    k := SearchReports(cfg, u, s.unused, now);
    var names := SearchedFor(cfg, name);
    if k == |names| {
      RefusesNew(u, t, s.unused, NxDomain);
    } else {
      SubmitsNew(u, t, s.unused, names[k], now);
    }
  }

  // ---------- Children ----------

  ghost predicate HasNumber(t: St, c: QId, k: nat) { c in t.qs && t.qs[c].id == k % 0x1_0000 }

  /** The new children of the query have the identifiers that follow, in their order. */
  ghost predicate KidsCount(s: St, t: St, p: QId, kids: seq<Kid>)
    requires p in s.qs && p in t.qs
  {
    var n := |s.qs[p].children|;
    t.nextid == s.nextid + |kids| && |t.qs[p].children| == n + |kids| &&
    forall i :: n <= i < n + |kids| ==> HasNumber(t, t.qs[p].children[i], s.nextid + (i - n))
  }

  lemma {:induction false} KidsNumbered(cfg: Config, s: St, p: QId, kids: seq<Kid>, now: int)
    requires ValidConfig(cfg) && p in s.qs && Numbered(s) && AllWithinLimits(kids)
    ensures KidsCount(s, SubmitKids(cfg, s, p, kids, now), p, kids)
    decreases |kids|
  {
    hide WithinLimits;
    hide SubmitKid;
    if kids != [] {
      KidNumbered(cfg, s, p, kids[0], now);
      SubmitKidFor(cfg, s, p, kids[0], now);
      SubmitKidIs(cfg, s, p, kids[0], now);
      var u := SubmitKid(cfg, s, p, kids[0], now);
      KidsNumbered(cfg, u, p, kids[1..], now);
      SubmitKidsFor(cfg, u, p, kids[1..], now);
      hide IsKid;
      FirstNumbered(s, u, SubmitKids(cfg, u, p, kids[1..], now), p, kids);
      hide KidsCount;
      hide KidsFor;
    }
  }

  lemma KidNumbered(cfg: Config, s: St, p: QId, kid: Kid, now: int)
    requires ValidConfig(cfg) && p in s.qs && s.unused !in s.qs && WithinLimits(kid.labels)
    ensures var t := SubmitKid(cfg, s, p, kid, now); t.nextid == s.nextid + 1 && HasNumber(t, s.unused, s.nextid)
  {
    SubmitKidIs(cfg, s, p, kid, now);
    assert WireLabels(kid.labels);
    hide WithinLimits;
    hide Message;
  }

  lemma FirstNumbered(s: St, u: St, t: St, p: QId, kids: seq<Kid>)
    requires kids != [] && p in s.qs && p in u.qs && p in t.qs && s.unused in u.qs && s.unused != p
    requires u.qs[p].children == s.qs[p].children + [s.unused]
    requires u.nextid == s.nextid + 1 && HasNumber(u, s.unused, s.nextid) && OthersAlone(u, t, p)
    requires KidsFor(u, t, p, kids[1..]) && KidsCount(u, t, p, kids[1..])
    ensures KidsCount(s, t, p, kids)
  {
    hide AskedName;
    var n, cs := |s.qs[p].children|, t.qs[p].children;
    assert |u.qs[p].children| == n + 1;
    assert cs[n] == cs[..n + 1][n] == s.unused;
    forall i | n <= i < n + |kids| ensures HasNumber(t, cs[i], s.nextid + (i - n)) {
      if i > n {
        assert HasNumber(t, cs[i], u.nextid + (i - (n + 1)));
      }
    }
  }
}
