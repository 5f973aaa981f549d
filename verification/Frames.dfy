/** What an event leaves alone: all queries but the one that it is about and the family of that. */
module Frames {
  import opened Basics
  import opened Texts
  import opened Queries
  import opened LifeCycle
  import opened Steps
  import opened Submission
  import opened Runs
  import opened Endings
  import opened Outcomes

  /** All queries outside `d` are still there and have not changed. */
  ghost predicate Alone(s: St, t: St, d: set<QId>)
  {
    forall r :: r in s.qs && r !in d ==> r in t.qs && t.qs[r] == s.qs[r]
  }

  /** A query with its children, and its parent with all of its own. */
  ghost function Family(s: St, q: QId): set<QId>
    requires q in s.qs
  {
    var p := if s.qs[q].parent.Some? then s.qs[q].parent.value else q;
    {q, p} + (if p in s.qs then Kids(s, p) else {})
  }

  lemma AloneTrans(s: St, u: St, t: St, d: set<QId>, e: set<QId>)
    requires Alone(s, u, d) && Alone(u, t, e) && e <= d
    ensures Alone(s, t, d)
  {
  }

  lemma SetAlone(s: St, q: QId, x: Query)
    ensures Alone(s, Set(s, q, x), {q})
  {
  }

  /** Freeing queries leaves those alone that are not being processed. */
  lemma DropAlone(cfg: Config, s: St, off: set<QId>, d: set<QId>)
    requires ValidConfig(cfg) && Inv(cfg, s, off) && Droppable(s, off, d)
    ensures Alone(s, Drop(s, d), off + d)
  {
    hide Inv;
    hide Droppable;
    forall r | r in s.qs && r !in off + d ensures r in Drop(s, d).qs && Drop(s, d).qs[r] == s.qs[r] {
      DropLinks(cfg, s, off, d, r);
    }
    hide Drop;
  }

  // ---------- Completion ----------

  lemma CompleteRootAlone(cfg: Config, s: St, q: QId)
    requires ValidConfig(cfg) && Inv(cfg, s, {q}) && q in s.qs
    ensures Alone(s, CompleteRoot(s, q), {q} + Kids(s, q))
  {
    hide Inv;
    hide Drop;
    hide Droppable;
    KidsAre(cfg, s, {q}, q);
    KidsDroppable(s, q);
    var d := Kids(s, q);
    hide Kids;
    DropAlone(cfg, s, {q}, d);
    assert d - {q} == d;
    DropKids(cfg, s, q);
    CompletedAlone(s, Drop(s, d), q, {q} + d);
    hide Alone;
  }

  lemma CompletedAlone(s: St, u: St, q: QId, d: set<QId>)
    requires q in u.qs && q in d && Alone(s, u, d)
    ensures Alone(s, Enqueue(Set(u, q, Completed(u.qs[q])), q), d)
  {
  }

  lemma FailRootAlone(cfg: Config, s: St, q: QId, st: Status)
    requires ValidConfig(cfg) && Inv(cfg, s, {q}) && q in s.qs && st != Ok
    ensures Alone(s, FailRoot(s, q, st), {q} + Kids(s, q))
  {
    hide Inv;
    hide CompleteRoot;
    StatusKeeps(cfg, s, q, st);
    var u := Set(s, q, WithStatus(s.qs[q], st));
    CompleteRootAlone(cfg, u, q);
    assert Kids(u, q) == Kids(s, q);
    hide Kids;
    SetAlone(s, q, u.qs[q]);
    AloneTrans(s, u, FailRoot(s, q, st), {q} + Kids(s, q), {q} + Kids(s, q));
  }

  lemma WaitOrCompleteAlone(cfg: Config, s: St, p: QId)
    requires ValidConfig(cfg) && Inv(cfg, s, {p}) && p in s.qs
    ensures Alone(s, WaitOrComplete(s, p), {p} + Kids(s, p))
  {
    hide Inv;
    hide CompleteRoot;
    CompleteRootAlone(cfg, s, p);
  }

  lemma CallbackAlone(cfg: Config, s: St, p: QId, child: Query)
    requires ValidConfig(cfg) && Inv(cfg, s, {p}) && Leaving(s, p, child)
    ensures Alone(s, RunCallback(s, p, child), {p} + Kids(s, p))
  {
    hide Inv;
    hide WaitOrComplete;
    hide FailRoot;
    hide SlotsOk;
    hide CoveredBut;
    hide HoldsName;
    hide HoldsHost;
    var d := {p} + Kids(s, p);
    match child.callback
    case IcbHostaddr =>
      var u := Set(s, p, Filled(s.qs[p], child));
      FilledKeeps(cfg, s, p, child);
      WaitOrCompleteAlone(cfg, u, p);
      AloneTrans(s, u, WaitOrComplete(u, p), d, d);
    case IcbPtr =>
      if s.qs[p].ptrAddr.Some? && Address(s.qs[p].ptrAddr.value) in child.answer.rrs {
        var u := Set(s, p, ConfirmedBy(s.qs[p], child));
        ConfirmKeeps(cfg, s, p, child);
        WaitOrCompleteAlone(cfg, u, p);
        AloneTrans(s, u, WaitOrComplete(u, p), d, d);
      }
      FailRootAlone(cfg, s, p, Inconsistent);
      if child.answer.status != Ok {
        FailRootAlone(cfg, s, p, child.answer.status);
      }
  }

  lemma FinishAlone(cfg: Config, s: St, q: QId)
    requires ValidConfig(cfg) && Inv(cfg, s, {q}) && q in s.qs && Conclusive(s.qs[q])
    ensures ParentLives(s, q) && Alone(s, Finish(s, q), Family(s, q))
  {
    hide Conclusive;
    if s.qs[q].parent.None? {
      CompleteRootAlone(cfg, s, q);
      hide CompleteRoot;
    } else {
      var p := s.qs[q].parent.value;
      LeaveFamily(cfg, s, q, p);
      hide Inv;
      var u := Unqueue(s, p);
      var v := Drop(u, {q});
      LeavesAlone(cfg, s, q, p);
      CallbackAlone(cfg, v, p, s.qs[q]);
      FewerKids(s, v, q, p);
      hide RunCallback;
      hide Leaving;
      AloneTrans(s, v, Finish(s, q), Family(s, q), {p} + Kids(v, p));
    }
  }

  lemma LeavesAlone(cfg: Config, s: St, q: QId, p: QId)
    requires ValidConfig(cfg) && Inv(cfg, s, {q}) && q in s.qs && s.qs[q].parent == Some(p)
    ensures Alone(s, Drop(Unqueue(s, p), {q}), Family(s, q))
  {
    ChildAndParent(cfg, s, q, p);
    UnqueueKeeps(cfg, s, {q}, p);
    hide Inv;
    var u := Unqueue(s, p);
    assert Droppable(u, {q} + {p}, {q});
    DropAlone(cfg, u, {q} + {p}, {q});
    hide Drop;
    hide Droppable;
  }

  lemma FewerKids(s: St, v: St, q: QId, p: QId)
    requires p in s.qs && q in s.qs && p != q && v == Drop(Unqueue(s, p), {q}) && s.qs[q].parent == Some(p)
    ensures p in v.qs && {p} + Kids(v, p) <= Family(s, q)
  {
  }

  lemma FailAlone(cfg: Config, s: St, q: QId, st: Status)
    requires ValidConfig(cfg) && Inv(cfg, s, {q}) && q in s.qs && st != Ok
    ensures ParentLives(s, q) && Alone(s, Fail(s, q, st), Family(s, q))
  {
    hide Inv;
    hide Finish;
    StatusKeeps(cfg, s, q, st);
    var u := Set(s, q, WithStatus(s.qs[q], st));
    FinishAlone(cfg, u, q);
    SameFamily(s, u, q);
    hide Family;
  }

  lemma SameFamily(s: St, u: St, q: QId)
    requires q in s.qs && u.qs.Keys == s.qs.Keys && forall r :: r in s.qs ==>
               u.qs[r].parent == s.qs[r].parent && u.qs[r].children == s.qs[r].children
    ensures Family(u, q) == Family(s, q) && q in Family(s, q)
  {
  }

  lemma SendAlone(cfg: Config, s: St, q: QId, now: int)
    requires ValidConfig(cfg) && Inv(cfg, s, {q}) && q in s.qs
    ensures ParentLives(s, q) && Alone(s, Send(cfg, s, q, now), Family(s, q))
  {
    hide Inv;
    hide Fail;
    FailAlone(cfg, s, q, SystemFail);
    FailAlone(cfg, s, q, Timeout);
  }

  // ---------- Searching and submitting ----------

  lemma AskAlone(cfg: Config, s: St, q: QId, owner: seq<Byte>, now: int)
    requires ValidConfig(cfg) && Sendable(cfg, s, q, now) && GoesBy(s.qs[q], owner)
    requires !(s.qs[q].flags.search && Overlong(s.qs[q], owner))
    ensures Alone(s, QuerySimple(cfg, s, q, owner, now), Family(s, q))
  {
    hide Inv;
    hide Ready;
    hide Fail;
    hide Send;
    hide SearchNext;
    hide ReadLabels;
    hide Message;
    hide Asking;
    var x, u, t := s.qs[q], s.(nextid := s.nextid + 1), QuerySimple(cfg, s, q, owner, now);
    NextIdKeeps(cfg, s, {q}, s.nextid + 1);
    SameFamily(s, u, q);
    match ReadLabels(owner, 0, x.flags.quoteokQuery, 0)
    case Failure(st) =>
      FailAlone(cfg, u, q, st);
    case Success(ls) =>
      var id := s.nextid % 0x1_0000;
      AskedIsAsking(x, id, owner);
      var m := Message(id, ls, x.typ % 0x1_0000);
      AskedSendable(cfg, u, q, id, m, owner, now);
      var v := Set(u, q, Asked(x, id, m));
      SameFamily(s, v, q);
      SendAlone(cfg, v, q, now);
      AloneTrans(s, v, t, Family(s, q), Family(s, q));
  }

  lemma SearchAlone(cfg: Config, s: St, q: QId, now: int)
    requires ValidConfig(cfg) && Sendable(cfg, s, q, now) && s.qs[q].flags.search
    ensures Alone(s, SearchNext(cfg, s, q, now), Family(s, q))
  {
    hide Inv;
    hide Ready;
    hide Fail;
    hide QuerySimple;
    hide Overlong;
    hide SearchNext;
    hide Settle;
    hide Candidates;
    hide Family;
    var x, t, r := s.qs[q], SearchNext(cfg, s, q, now), Settle(cfg, s.qs[q]);
    SearchNextSettles(cfg, s, q, now);
    SettlesAtFirstUsable(cfg, x);
    SettledSendable(cfg, s, q, now, s.nextid + r.skipped);
    SettledIs(cfg, x);
    SettledKin(cfg, x);
    OverlongIs(x);
    OverlongIs(r.x);
    var u := Set(s, q, r.x).(nextid := s.nextid + r.skipped);
    SameFamily(s, u, q);
    if r.exhausted {
      FailAlone(cfg, u, q, NxDomain);
    } else {
      AskAlone(cfg, u, q, r.x.searchVb, now);
    }
    AloneTrans(s, u, t, Family(s, q), Family(s, q));
  }

  lemma {:induction false} SettledKin(cfg: Config, x: Query)
    ensures Settle(cfg, x).x.children == x.children
    decreases Remaining(cfg, x)
  {
    hide Overlong;
    if NextCandidate(cfg, x).Some? {
      SettledKin(cfg, NextCandidate(cfg, x).value);
    }
  }

  lemma NewAlone(s: St, x: Query, t: St)
    requires s.unused !in s.qs && x.parent.None? && x.children == []
    requires Alone(Add(s, x), t, Family(Add(s, x), s.unused))
    ensures Alone(s, t, {})
  {
  }

  lemma SubmitAlone(cfg: Config, s: St, owner: seq<Byte>, typ: nat, flags: Flags, now: int)
    requires ValidConfig(cfg) && Inv(cfg, s, {})
    ensures Alone(s, Submit(cfg, s, owner, typ, flags, now), {})
  {
    hide Inv;
    hide SubmitNamed;
    hide Fail;
    hide Absolute;
    RefusedAlone(cfg, s, typ, flags, QueryDomainInvalid);
    RefusedAlone(cfg, s, typ, flags, QueryDomainTooLong);
    if owner != [] && |owner| <= DNS_MAXDOMAIN + 1 {
      NamedAlone(cfg, s, owner, typ, flags, now);
      NamedAlone(cfg, s, owner[..|owner| - 1], typ, flags.(search := false), now);
    }
  }

  lemma UnusedIsNew(cfg: Config, s: St)
    requires ValidConfig(cfg) && Inv(cfg, s, {})
    ensures s.unused !in s.qs
  {
  }

  lemma RefusedAlone(cfg: Config, s: St, typ: nat, flags: Flags, st: Status)
    requires ValidConfig(cfg) && Inv(cfg, s, {}) && st != Ok
    ensures Alone(s, Fail(Add(s, Virgin(typ, flags)), s.unused, st), {})
  {
    UnusedIsNew(cfg, s);
    hide Inv;
    hide Fail;
    hide Fields;
    hide Family;
    var x := Virgin(typ, flags);
    VirginFields(cfg, typ, flags);
    AddSendable(cfg, s, x, 0);
    FailAlone(cfg, Add(s, x), s.unused, st);
    NewAlone(s, x, Fail(Add(s, x), s.unused, st));
  }

  lemma NamedAlone(cfg: Config, s: St, name: seq<Byte>, typ: nat, flags: Flags, now: int)
    requires ValidConfig(cfg) && Inv(cfg, s, {})
    ensures Alone(s, SubmitNamed(cfg, s, name, typ, flags, now), {})
  {
    UnusedIsNew(cfg, s);
    hide Inv;
    hide QuerySimple;
    hide SearchNext;
    hide Sendable;
    hide Family;
    hide Dots;
    var x := Named(cfg, name, typ, flags);
    NamedSendable(cfg, s, name, typ, flags, now);
    if flags.search {
      SearchAlone(cfg, Add(s, x), s.unused, now);
    } else {
      AskAlone(cfg, Add(s, x), s.unused, name, now);
    }
    NewAlone(s, x, SubmitNamed(cfg, s, name, typ, flags, now));
  }

  // ---------- Replies ----------

  lemma ConcludeAlone(cfg: Config, s: St, q: QId, failed: Option<Status>, rrs: seq<Stored>)
    requires ValidConfig(cfg) && Inv(cfg, s, {q}) && q in s.qs && (s.qs[q].state.Tosend? || s.qs[q].state.Tcpw?)
    requires 0 <= s.qs[q].id < 0x1_0000 && s.qs[q].answer.status == Ok && failed != Some(Ok)
    requires failed.None? ==> rrs != []
    ensures ParentLives(s, q) && Alone(s, Conclude(s, q, failed, rrs), Family(s, q))
  {
    hide Inv;
    hide Fail;
    hide Finish;
    hide Fields;
    InvAt(cfg, s, {q}, q);
    InvParents(cfg, s, q);
    var x := s.qs[q];
    SameFamily(s, s, q);
    if failed.Some? {
      FailAlone(cfg, s, q, failed.value);
    } else if x.children == [] {
      var y := x.(answer := x.answer.(rrs := rrs));
      AnswerFields(cfg, x, rrs);
      SetKeeps(cfg, s, {q}, q, y);
      FinishAlone(cfg, Set(s, q, y), q);
      SameFamily(s, Set(s, q, y), q);
      hide Family;
      AloneTrans(s, Set(s, q, y), Finish(Set(s, q, y), q), Family(s, q), Family(s, q));
    }
    hide Links;
  }

  /** Children that are submitted were not there before. */
  lemma KidsAreNew(cfg: Config, s: St, u: St, q: QId)
    requires ValidConfig(cfg) && Inv(cfg, s, {q}) && Inv(cfg, u, {q}) && q in s.qs && q in u.qs
    requires OthersAlone(s, u, q) && s.qs[q].children == [] && s.qs[q].parent == u.qs[q].parent
    ensures forall r :: r in s.qs && r in Family(u, q) ==> r in Family(s, q)
  {
    hide Inv;
    if s.qs[q].parent.Some? {
      ParentStays(cfg, s, u, q);
    } else {
      forall r | r in s.qs ensures r !in u.qs[q].children {
        KidIsNew(cfg, s, u, q, r);
      }
    }
  }

  lemma KidIsNew(cfg: Config, s: St, u: St, q: QId, r: QId)
    requires ValidConfig(cfg) && Inv(cfg, s, {q}) && Inv(cfg, u, {q}) && q in s.qs && q in u.qs
    requires OthersAlone(s, u, q) && s.qs[q].children == [] && r in s.qs
    ensures r !in u.qs[q].children
  {
    KidsAre(cfg, u, {q}, q);
    InvAt(cfg, s, {q}, r);
    hide Inv;
    hide Fields;
  }

  lemma ParentStays(cfg: Config, s: St, u: St, q: QId)
    requires ValidConfig(cfg) && Inv(cfg, s, {q}) && q in s.qs && q in u.qs && OthersAlone(s, u, q)
    requires s.qs[q].parent.Some? && s.qs[q].parent == u.qs[q].parent
    ensures Family(u, q) == Family(s, q)
  {
    InvParents(cfg, s, q);
    hide Inv;
  }

  lemma AloneBeyond(s: St, u: St, t: St, q: QId)
    requires q in s.qs && q in u.qs && OthersAlone(s, u, q) && Alone(u, t, Family(u, q))
    requires forall r :: r in s.qs && r in Family(u, q) ==> r in Family(s, q)
    ensures Alone(s, t, Family(s, q))
  {
    SameFamily(s, s, q);
    hide Family;
  }

  lemma TakeAnswerAlone(cfg: Config, s: St, q: QId, v: Verdict, now: int)
    requires ValidConfig(cfg) && Replying(cfg, s, q) && Possible(s.qs[q], v) && v.Answered?
    ensures Numbered(s) && ParentLives(s, q)
    ensures Alone(s, TakeAnswer(cfg, s, q, v.kids, v.failed, v.rrs, v.ptrAddr, v.blocks, now), Family(s, q))
  {
    hide Inv;
    hide Fields;
    hide Conclude;
    hide SubmitKids;
    hide AllWithinLimits;
    hide Derefs;
    hide KidsFor;
    hide Possible;
    hide Family;
    hide Alone;
    hide OthersAlone;
    hide Asking;
    hide Question;
    ReplyingFacts(cfg, s, q);
    DerefsAlone(cfg, s.qs[q]);
    PossibleHasRecords(s.qs[q], v);
    SubmitKidsKeep(cfg, s, q, v.kids, now);
    SubmitKidsFor(cfg, s, q, v.kids, now);
    var u := SubmitKids(cfg, s, q, v.kids, now);
    AnsweringKeeps(cfg, u, q, v.ptrAddr, u.qs[q].allocations + v.blocks);
    hide Replying;
    var z := Set(u, q, u.qs[q].(ptrAddr := v.ptrAddr, allocations := u.qs[q].allocations + v.blocks));
    ConcludeAlone(cfg, z, q, v.failed, v.rrs);
    OthersBeside(s, u, z, q);
    KidsAreNew(cfg, s, z, q);
    AloneBeyond(s, z, Conclude(z, q, v.failed, v.rrs), q);
  }

  lemma OthersBeside(s: St, u: St, z: St, q: QId)
    requires OthersAlone(s, u, q) && q in u.qs && exists y :: z == Set(u, q, y)
    ensures OthersAlone(s, z, q)
  {
  }

  lemma DeliverAlone(cfg: Config, s: St, q: QId, v: Verdict, now: int)
    requires ValidConfig(cfg) && Replying(cfg, s, q) && Possible(s.qs[q], v)
    ensures ParentLives(s, q) && Numbered(s) && Alone(s, Deliver(cfg, s, q, v, now), Family(s, q))
  {
    hide Inv;
    hide Fail;
    hide SearchNext;
    hide Retry;
    hide TakeAnswer;
    hide Replying;
    hide Possible;
    hide Fields;
    ReplyingFacts(cfg, s, q);
    PossiblePass(s.qs[q], v);
    PossibleNoted(s.qs[q], v);
    NotedIs(cfg, s, q, v.pass);
    var w := Set(s, q, Noted(s.qs[q], v.pass));
    SameFamily(s, w, q);
    hide Family;
    var t := Deliver(cfg, s, q, v, now);
    match v
    case Failed(p, st) =>
      NotOk(s.qs[q], v);
      FailAlone(cfg, w, q, st);
      AloneTrans(s, w, t, Family(s, q), Family(s, q));
    case NextName(p) =>
      SearchingAgain(cfg, s, q, p, now);
      Searches(s.qs[q], v);
      SearchAlone(cfg, w, q, now);
      AloneTrans(s, w, t, Family(s, q), Family(s, q));
    case Restart(p, usevc) =>
      RetryAlone(cfg, w, q, usevc, now);
      AloneTrans(s, w, t, Family(s, q), Family(s, q));
    case Answered(_, _, _, _, _, _) =>
      TakeAnswerAlone(cfg, w, q, v, now);
      AloneTrans(s, w, t, Family(s, q), Family(s, q));
  }

  lemma NotOk(x: Query, v: Verdict)
    requires Possible(x, v) && v.Failed?
    ensures v.status != Ok
  {
  }

  lemma Searches(x: Query, v: Verdict)
    requires Possible(x, v) && v.NextName?
    ensures x.flags.search
  {
  }

  lemma RetryAlone(cfg: Config, s: St, q: QId, usevc: bool, now: int)
    requires ValidConfig(cfg) && Replying(cfg, s, q)
    ensures Alone(s, Retry(cfg, s, q, usevc, now), Family(s, q))
  {
    hide Inv;
    hide Send;
    hide Asking;
    RetriedIsReady(cfg, s, q, usevc, now);
    var u := Retried(s, q, usevc);
    SendAlone(cfg, u, q, now);
    SameFamily(s, u, q);
    hide Family;
    hide Replying;
    AloneTrans(s, u, Send(cfg, u, q, now), Family(s, q), Family(s, q));
  }

  // ---------- Events ----------

  /** The query that an event is about, with its family. */
  ghost function About(s: St, e: Event): set<QId>
  {
    match e
    case Submitted(_, _, _, _) => {}
    case Expired(q, _) => if q in s.qs then Family(s, q) else {}
    case Replied(q, _, _) => if q in s.qs then Family(s, q) else {}
    case Collected(q) => {q}
    case Cancelled(q) => if q in s.qs then Family(s, q) else {}
  }

  /** An event leaves every other query as it is; a submission leaves all of them. */
  lemma OthersStay(cfg: Config, s: St, e: Event)
    requires ValidConfig(cfg) && Inv(cfg, s, {}) && Enabled(cfg, s, e)
    ensures Alone(s, Apply(cfg, s, e), About(s, e))
  {
    hide Inv;
    hide Submit;
    hide Deliver;
    hide Expire;
    hide Drop;
    hide Family;
    hide Possible;
    match e
    case Submitted(owner, typ, flags, now) => SubmitAlone(cfg, s, owner, typ, flags, now);
    case Expired(q, now) => ExpireAlone(cfg, s, q, now);
    case Replied(q, v, now) =>
      PopWaiting(cfg, s, q);
      var u := Unqueue(s, q);
      DeliverAlone(cfg, u, q, v, now);
      SameFamily(s, u, q);
    case Collected(q) =>
      DoneHasNoFamily(cfg, s, q);
      CancelAlone(cfg, s, q);
      assert {q} + Kids(s, q) == {q};
    case Cancelled(q) =>
      CancelAlone(cfg, s, q);
      RootFamily(s, q);
  }

  lemma RootFamily(s: St, q: QId)
    requires q in s.qs && s.qs[q].parent.None?
    ensures {q} + Kids(s, q) <= Family(s, q)
  {
  }

  lemma CancelAlone(cfg: Config, s: St, q: QId)
    requires ValidConfig(cfg) && Inv(cfg, s, {}) && q in s.qs && s.qs[q].parent.None?
    ensures Alone(s, Drop(s, {q} + Kids(s, q)), {q} + Kids(s, q))
  {
    hide Inv;
    hide Drop;
    KidsAre(cfg, s, {}, q);
    FamilyDroppable(s, q);
    hide Droppable;
    DropAlone(cfg, s, {}, {q} + Kids(s, q));
  }

  lemma ExpireAlone(cfg: Config, s: St, q: QId, now: int)
    requires ValidConfig(cfg) && Inv(cfg, s, {}) && q in s.qs && Waiting(s, q)
    ensures ParentLives(s, q) && Alone(s, Expire(cfg, s, q, now), Family(s, q))
  {
    hide Replying;
    hide Inv;
    hide Send;
    hide Fail;
    hide Unqueue;
    hide Fields;
    hide Family;
    hide Asking;
    InvParent(cfg, s, q);
    PopWaiting(cfg, s, q);
    var u := Unqueue(s, q);
    ReplyingFacts(cfg, u, q);
    SameFamily(s, u, q);
    SendAlone(cfg, u, q, now);
    FailAlone(cfg, u, q, Timeout);
  }
}
