/** Nothing is lost: over every run, the queries submitted are those still outstanding, those whose
    answer was collected and those cancelled. */
module Conservation {
  import opened Basics
  import opened Texts
  import opened Queries
  import opened LifeCycle
  import opened Steps
  import opened Submission
  import opened Runs

  /** The queries the application has a handle on. */
  predicate IsRoot(s: St, q: QId) { q in s.qs && s.qs[q].parent.None? }

  ghost predicate SameRoots(s: St, t: St) { forall q: QId :: IsRoot(t, q) <==> IsRoot(s, q) }

  lemma RootsTrans(s: St, t: St, u: St)
    requires SameRoots(s, t) && SameRoots(t, u)
    ensures SameRoots(s, u)
  {
  }

  lemma SameQueriesSameRoots(s: St, t: St)
    requires t.qs == s.qs
    ensures SameRoots(s, t)
  {
  }

  lemma SetRoots(s: St, q: QId, x: Query)
    requires q in s.qs && x.parent == s.qs[q].parent
    ensures SameRoots(s, Set(s, q, x))
  {
  }

  lemma DropRoots(s: St, d: set<QId>)
    requires forall q :: q in d && q in s.qs ==> s.qs[q].parent.Some?
    ensures SameRoots(s, Drop(s, d))
  {
  }

  /** The children of a query are no roots. */
  ghost predicate OwnKids(s: St, q: QId)
    requires q in s.qs
  {
    forall c :: c in s.qs[q].children && c in s.qs ==> s.qs[c].parent.Some?
  }

  lemma OwnKidsAre(cfg: Config, s: St, off: set<QId>, q: QId)
    requires ValidConfig(cfg) && Inv(cfg, s, off) && q in s.qs
    ensures OwnKids(s, q) && (s.qs[q].parent.Some? ==> s.qs[q].parent.value in s.qs && OwnKids(s, s.qs[q].parent.value))
  {
    KidsAre(cfg, s, off, q);
    InvAt(cfg, s, off, q);
    if s.qs[q].parent.Some? {
      KidsAre(cfg, s, off, s.qs[q].parent.value);
    }
    hide Inv;
  }

  lemma OwnKidsStay(s: St, q: QId, x: Query)
    requires q in s.qs && OwnKids(s, q) && x.children == s.qs[q].children && x.parent == s.qs[q].parent
    ensures OwnKids(Set(s, q, x), q) && SameRoots(s, Set(s, q, x))
  {
  }

  lemma CompleteRootRoots(s: St, q: QId)
    requires q in s.qs && OwnKids(s, q)
    ensures SameRoots(s, CompleteRoot(s, q))
  {
    var d := Kids(s, q) - {q};
    DropRoots(s, d);
    hide Kids;
    SetRoots(Drop(s, d), q, Completed(Drop(s, d).qs[q]));
    hide Drop;
  }

  lemma FailRootRoots(s: St, q: QId, st: Status)
    requires q in s.qs && OwnKids(s, q)
    ensures SameRoots(s, FailRoot(s, q, st))
  {
    hide CompleteRoot;
    hide SameRoots;
    hide OwnKids;
    var t := Set(s, q, WithStatus(s.qs[q], st));
    OwnKidsStay(s, q, t.qs[q]);
    CompleteRootRoots(t, q);
    RootsTrans(s, t, CompleteRoot(t, q));
  }

  lemma WaitOrCompleteRoots(s: St, p: QId)
    requires p in s.qs && OwnKids(s, p)
    ensures SameRoots(s, WaitOrComplete(s, p))
  {
    hide CompleteRoot;
    hide SameRoots;
    hide OwnKids;
    if s.qs[p].children != [] {
      SameQueriesSameRoots(s, WaitOrComplete(s, p));
    } else {
      CompleteRootRoots(s, p);
    }
  }

  lemma RunCallbackRoots(s: St, p: QId, child: Query)
    requires p in s.qs && OwnKids(s, p)
    ensures SameRoots(s, RunCallback(s, p, child))
  {
    hide WaitOrComplete;
    hide FailRoot;
    hide SameRoots;
    hide OwnKids;
    SameQueriesSameRoots(s, s);
    var t, u := Set(s, p, Filled(s.qs[p], child)), Set(s, p, ConfirmedBy(s.qs[p], child));
    OwnKidsStay(s, p, t.qs[p]);
    WaitOrCompleteRoots(t, p);
    RootsTrans(s, t, WaitOrComplete(t, p));
    OwnKidsStay(s, p, u.qs[p]);
    WaitOrCompleteRoots(u, p);
    RootsTrans(s, u, WaitOrComplete(u, p));
    FailRootRoots(s, p, Inconsistent);
    FailRootRoots(s, p, child.answer.status);
  }

  lemma FinishRoots(s: St, q: QId)
    requires q in s.qs && ParentLives(s, q) && OwnKids(s, q)
    requires s.qs[q].parent.Some? ==> OwnKids(s, s.qs[q].parent.value)
    ensures SameRoots(s, Finish(s, q))
  {
    hide CompleteRoot;
    hide RunCallback;
    if s.qs[q].parent.None? {
      CompleteRootRoots(s, q);
    } else {
      var p := s.qs[q].parent.value;
      var t := Drop(Unqueue(s, p), {q});
      assert p in t.qs && OwnKids(t, p);
      DropRoots(Unqueue(s, p), {q});
      SameQueriesSameRoots(s, Unqueue(s, p));
      hide SameRoots;
      RootsTrans(s, Unqueue(s, p), t);
      RunCallbackRoots(t, p, s.qs[q]);
      RootsTrans(s, t, RunCallback(t, p, s.qs[q]));
    }
  }

  lemma FailRoots(cfg: Config, s: St, q: QId, st: Status)
    requires ValidConfig(cfg) && Inv(cfg, s, {q}) && q in s.qs && ParentLives(s, q)
    ensures SameRoots(s, Fail(s, q, st))
  {
    hide Inv;
    hide Finish;
    hide SameRoots;
    OwnKidsAre(cfg, s, {q}, q);
    var t := Set(s, q, WithStatus(s.qs[q], st));
    SetRoots(s, q, t.qs[q]);
    FinishRoots(t, q);
    RootsTrans(s, t, Finish(t, q));
  }

  lemma SendRoots(cfg: Config, s: St, q: QId, now: int)
    requires ValidConfig(cfg) && Inv(cfg, s, {q}) && q in s.qs && ParentLives(s, q)
    ensures SameRoots(s, Send(cfg, s, q, now))
  {
    hide Inv;
    hide Fail;
    FailRoots(cfg, s, q, SystemFail);
    FailRoots(cfg, s, q, Timeout);
    SetRoots(s, q, Dispatched(cfg, s.qs[q], now));
  }

  lemma {:induction false} QuerySimpleRoots(cfg: Config, s: St, q: QId, owner: seq<Byte>, now: int)
    requires ValidConfig(cfg) && Sendable(cfg, s, q, now) && GoesBy(s.qs[q], owner)
    ensures SameRoots(s, QuerySimple(cfg, s, q, owner, now))
    decreases Remaining(cfg, s.qs[q]), 1
  {
    hide Inv;
    hide Ready;
    hide Fail;
    hide Send;
    hide SearchNext;
    hide ReadLabels;
    hide Message;
    hide SameRoots;
    var x, t := s.qs[q], s.(nextid := s.nextid + 1);
    NextIdKeeps(cfg, s, {q}, s.nextid + 1);
    SameQueriesSameRoots(s, t);
    assert SameRoots(t, QuerySimple(cfg, s, q, owner, now)) by {
      match ReadLabels(owner, 0, x.flags.quoteokQuery, 0)
      case Failure(st) =>
        if st == QueryDomainTooLong && x.flags.search {
          SearchNextRoots(cfg, t, q, now);
        } else {
          FailRoots(cfg, t, q, st);
        }
      case Success(ls) =>
        AskedIsAsking(x, s.nextid % 0x1_0000, owner);
        AskRoots(cfg, t, q, s.nextid % 0x1_0000, Message(s.nextid % 0x1_0000, ls, x.typ % 0x1_0000), owner, now);
    }
    RootsTrans(s, t, QuerySimple(cfg, s, q, owner, now));
  }

  lemma AskRoots(cfg: Config, s: St, q: QId, id: nat, dgram: seq<Byte>, owner: seq<Byte>, now: int)
    requires ValidConfig(cfg) && Sendable(cfg, s, q, now) && id < 0x1_0000
    requires GoesBy(s.qs[q], owner) && AsksOwner(s.qs[q], dgram, owner)
    ensures SameRoots(s, Send(cfg, Set(s, q, Asked(s.qs[q], id, dgram)), q, now))
  {
    var t := Set(s, q, Asked(s.qs[q], id, dgram));
    AskedSendable(cfg, s, q, id, dgram, owner, now);
    hide Inv;
    hide Ready;
    hide Send;
    hide SameRoots;
    SetRoots(s, q, t.qs[q]);
    SendRoots(cfg, t, q, now);
    RootsTrans(s, t, Send(cfg, t, q, now));
  }

  lemma {:induction false} SearchNextRoots(cfg: Config, s: St, q: QId, now: int)
    requires ValidConfig(cfg) && Sendable(cfg, s, q, now) && s.qs[q].flags.search
    ensures SameRoots(s, SearchNext(cfg, s, q, now))
    decreases Remaining(cfg, s.qs[q]), 0
  {
    hide Inv;
    hide Ready;
    hide Fail;
    hide QuerySimple;
    hide SameRoots;
    match NextCandidate(cfg, s.qs[q])
    case None => FailRoots(cfg, s, q, NxDomain);
    case Some(y) =>
      CandidateSendable(cfg, s, q, now);
      SetRoots(s, q, y);
      QuerySimpleRoots(cfg, Set(s, q, y), q, y.searchVb, now);
      RootsTrans(s, Set(s, q, y), QuerySimple(cfg, Set(s, q, y), q, y.searchVb, now));
  }

  /** The new query becomes a root, and nothing else changes. */
  ghost predicate OneMoreRoot(s: St, t: St)
  {
    forall q: QId :: IsRoot(t, q) <==> IsRoot(s, q) || q == s.unused
  }

  lemma AddRoots(s: St, x: Query, t: St)
    requires x.parent.None? && SameRoots(Add(s, x), t)
    ensures OneMoreRoot(s, t)
  {
    assert forall q: QId :: IsRoot(Add(s, x), q) <==> IsRoot(s, q) || q == s.unused;
  }

  lemma SubmitNamedRoots(cfg: Config, s: St, name: seq<Byte>, typ: nat, flags: Flags, now: int)
    requires ValidConfig(cfg) && Inv(cfg, s, {})
    ensures OneMoreRoot(s, SubmitNamed(cfg, s, name, typ, flags, now))
  {
    hide Inv;
    hide QuerySimple;
    hide SearchNext;
    hide SameRoots;
    hide OneMoreRoot;
    hide Dots;
    var x := Named(cfg, name, typ, flags);
    NamedSendable(cfg, s, name, typ, flags, now);
    if flags.search {
      SearchNextRoots(cfg, Add(s, x), s.unused, now);
    } else {
      QuerySimpleRoots(cfg, Add(s, x), s.unused, name, now);
    }
    AddRoots(s, x, SubmitNamed(cfg, s, name, typ, flags, now));
  }

  lemma SubmitFailedRoots(cfg: Config, s: St, typ: nat, flags: Flags, st: Status)
    requires ValidConfig(cfg) && Inv(cfg, s, {})
    ensures OneMoreRoot(s, Fail(Add(s, Virgin(typ, flags)), s.unused, st))
  {
    hide Inv;
    hide Fields;
    hide Fail;
    hide SameRoots;
    hide OneMoreRoot;
    var x := Virgin(typ, flags);
    VirginFields(cfg, typ, flags);
    AddSendable(cfg, s, x, 0);
    FailRoots(cfg, Add(s, x), s.unused, st);
    AddRoots(s, x, Fail(Add(s, x), s.unused, st));
  }

  lemma SubmitRoots(cfg: Config, s: St, owner: seq<Byte>, typ: nat, flags: Flags, now: int)
    requires ValidConfig(cfg) && Inv(cfg, s, {})
    ensures OneMoreRoot(s, Submit(cfg, s, owner, typ, flags, now))
  {
    hide Inv;
    hide Fail;
    hide SubmitNamed;
    hide Absolute;
    hide OneMoreRoot;
    SubmitFailedRoots(cfg, s, typ, flags, QueryDomainInvalid);
    SubmitFailedRoots(cfg, s, typ, flags, QueryDomainTooLong);
    if owner != [] && |owner| <= DNS_MAXDOMAIN + 1 {
      SubmitNamedRoots(cfg, s, owner, typ, flags, now);
      SubmitNamedRoots(cfg, s, owner[..|owner| - 1], typ, flags.(search := false), now);
    }
  }

  lemma SubmitKidRoots(cfg: Config, s: St, p: QId, kid: Kid, now: int)
    requires ValidConfig(cfg) && p in s.qs && s.unused !in s.qs && WithinLimits(kid.labels)
    ensures SameRoots(s, SubmitKid(cfg, s, p, kid, now))
  {
    assert WireLabels(kid.labels);
    hide NewKid;
    hide Dispatched;
    hide WithinLimits;
    SubmitKidIs(cfg, s, p, kid, now);
  }

  lemma {:induction false} SubmitKidsRoots(cfg: Config, s: St, p: QId, kids: seq<Kid>, now: int)
    requires ValidConfig(cfg) && p in s.qs && Numbered(s)
    requires AllWithinLimits(kids)
    ensures SameRoots(s, SubmitKids(cfg, s, p, kids, now))
    decreases |kids|
  {
    hide WithinLimits;
    if kids != [] {
      SubmitKidRoots(cfg, s, p, kids[0], now);
      SubmitKidIs(cfg, s, p, kids[0], now);
      SubmitKidsRoots(cfg, SubmitKid(cfg, s, p, kids[0], now), p, kids[1..], now);
    }
  }

  lemma ConcludeRoots(cfg: Config, s: St, q: QId, failed: Option<Status>, rrs: seq<Stored>)
    requires ValidConfig(cfg) && Inv(cfg, s, {q}) && q in s.qs && ParentLives(s, q)
    requires (s.qs[q].state.Tosend? || s.qs[q].state.Tcpw?) && 0 <= s.qs[q].id < 0x1_0000
    ensures SameRoots(s, Conclude(s, q, failed, rrs))
  {
    hide Inv;
    hide Fail;
    hide Finish;
    hide SameRoots;
    OwnKidsAre(cfg, s, {q}, q);
    if failed.Some? {
      FailRoots(cfg, s, q, failed.value);
    } else {
      var t := Set(s, q, s.qs[q].(answer := s.qs[q].answer.(rrs := rrs)));
      SetRoots(s, q, t.qs[q]);
      if s.qs[q].children != [] {
        var u := Set(t, q, t.qs[q].(state := Childw));
        SetRoots(t, q, u.qs[q]);
        RootsTrans(s, t, u);
        SameQueriesSameRoots(u, Enqueue(u, q));
        RootsTrans(s, u, Enqueue(u, q));
      } else {
        FinishRoots(t, q);
        RootsTrans(s, t, Finish(t, q));
      }
    }
  }

  lemma TakeAnswerRoots(cfg: Config, s: St, q: QId, kids: seq<Kid>, failed: Option<Status>,
                        rrs: seq<Stored>, ptrAddr: Option<seq<Byte>>, blocks: nat, now: int)
    requires ValidConfig(cfg) && Replying(cfg, s, q) && (kids != [] ==> Derefs(s.qs[q].typ))
    requires AllWithinLimits(kids)
    ensures SameRoots(s, TakeAnswer(cfg, s, q, kids, failed, rrs, ptrAddr, blocks, now))
  {
    hide Inv;
    hide Fields;
    hide Conclude;
    hide SubmitKids;
    hide WithinLimits;
    hide Derefs;
    hide SameRoots;
    ReplyingFacts(cfg, s, q);
    DerefsAlone(cfg, s.qs[q]);
    SubmitKidsKeep(cfg, s, q, kids, now);
    SubmitKidsRoots(cfg, s, q, kids, now);
    var u := SubmitKids(cfg, s, q, kids, now);
    AnsweringKeeps(cfg, u, q, ptrAddr, u.qs[q].allocations + blocks);
    var t := Set(u, q, u.qs[q].(ptrAddr := ptrAddr, allocations := u.qs[q].allocations + blocks));
    SetRoots(u, q, t.qs[q]);
    RootsTrans(s, u, t);
    ConcludeRoots(cfg, t, q, failed, rrs);
    RootsTrans(s, t, Conclude(t, q, failed, rrs));
  }

  lemma RetryRoots(cfg: Config, s: St, q: QId, usevc: bool, now: int)
    requires ValidConfig(cfg) && Replying(cfg, s, q)
    ensures SameRoots(s, Retry(cfg, s, q, usevc, now))
  {
    hide Inv;
    hide Fields;
    hide Replying;
    hide Send;
    hide Restarted;
    hide SameRoots;
    ReplyingFacts(cfg, s, q);
    RetriedIsReady(cfg, s, q, usevc, now);
    var y := Restarted(s.qs[q], s.nextid, usevc);
    RestartedFields(cfg, s.qs[q], s.nextid, usevc);
    SetRoots(s, q, y);
    var t := Retried(s, q, usevc);
    SameQueriesSameRoots(Set(s, q, y), t);
    RootsTrans(s, Set(s, q, y), t);
    SendRoots(cfg, t, q, now);
    RootsTrans(s, t, Send(cfg, t, q, now));
  }

  lemma DeliverRoots(cfg: Config, s: St, q: QId, v: Verdict, now: int)
    requires ValidConfig(cfg) && Replying(cfg, s, q) && Possible(s.qs[q], v)
    ensures SameRoots(s, Deliver(cfg, s, q, v, now))
  {
    hide Inv;
    hide Act;
    hide Possible;
    hide SameRoots;
    var t := Set(s, q, Noted(s.qs[q], v.pass));
    PossiblePass(s.qs[q], v);
    PossibleNoted(s.qs[q], v);
    NotedReplying(cfg, s, q, v.pass);
    SetRoots(s, q, t.qs[q]);
    ActRoots(cfg, t, q, v, now);
    RootsTrans(s, t, Act(cfg, t, q, v, now));
  }

  lemma ActRoots(cfg: Config, s: St, q: QId, v: Verdict, now: int)
    requires ValidConfig(cfg) && Replying(cfg, s, q) && Possible(s.qs[q], v)
    ensures SameRoots(s, Act(cfg, s, q, v, now))
  {
    InvAt(cfg, s, {q}, q);
    hide Inv;
    hide Fields;
    hide Links;
    hide Fail;
    hide SearchNext;
    hide Retry;
    hide TakeAnswer;
    hide WithinLimits;
    hide SameRoots;
    match v
    case Failed(_, st) => FailRoots(cfg, s, q, st);
    case NextName(_) => SearchNextRoots(cfg, s, q, now);
    case Restart(_, usevc) => RetryRoots(cfg, s, q, usevc, now);
    case Answered(_, kids, failed, rrs, ptrAddr, blocks) =>
      TakeAnswerRoots(cfg, s, q, kids, failed, rrs, ptrAddr, blocks, now);
  }

  lemma ExpireRoots(cfg: Config, s: St, q: QId, now: int)
    requires ValidConfig(cfg) && Inv(cfg, s, {}) && q in s.qs && Waiting(s, q) && ParentLives(s, q)
    ensures SameRoots(s, Expire(cfg, s, q, now))
  {
    hide Inv;
    hide Send;
    hide Fail;
    hide SameRoots;
    PopWaiting(cfg, s, q);
    var t := Unqueue(s, q);
    ReplyingFacts(cfg, t, q);
    SameQueriesSameRoots(s, t);
    SendRoots(cfg, t, q, now);
    FailRoots(cfg, t, q, Timeout);
    RootsTrans(s, t, Expire(cfg, s, q, now));
  }

  lemma DropRootRoots(cfg: Config, s: St, q: QId)
    requires ValidConfig(cfg) && Inv(cfg, s, {}) && q in s.qs
    ensures forall r: QId :: IsRoot(Drop(s, {q} + Kids(s, q)), r) <==> IsRoot(s, r) && r != q
  {
    hide Inv;
    hide Without;
    KidsAre(cfg, s, {}, q);
  }

  // ---------- The tally ----------

  /** What the application has seen: the handles it got, those whose answer it collected and those it
      cancelled. */
  datatype Tally = Tally(submitted: set<QId>, returned: set<QId>, cancelled: set<QId>)

  function Count(s: St, t: Tally, e: Event): Tally
  {
    match e
    case Submitted(_, _, _, _) => t.(submitted := t.submitted + {s.unused})
    case Collected(q) => t.(returned := t.returned + {q})
    case Cancelled(q) => t.(cancelled := t.cancelled + {q})
    case _ => t
  }

  /** Every handle is of exactly one kind: still live, collected or cancelled. */
  ghost predicate Balanced(s: St, t: Tally)
  {
    t.returned !! t.cancelled &&
    (forall q :: q in t.submitted <==> IsRoot(s, q) || q in t.returned || q in t.cancelled) &&
    (forall q :: IsRoot(s, q) ==> q !in t.returned && q !in t.cancelled) &&
    (forall q :: q in t.submitted ==> q < s.unused)
  }

  ghost predicate OneRootLess(s: St, q: QId, t: St)
  {
    IsRoot(s, q) && forall r: QId :: IsRoot(t, r) <==> IsRoot(s, r) && r != q
  }

  ghost predicate RootsChange(s: St, e: Event, t: St)
  {
    match e
    case Submitted(_, _, _, _) => OneMoreRoot(s, t)
    case Collected(q) => OneRootLess(s, q, t)
    case Cancelled(q) => OneRootLess(s, q, t)
    case _ => SameRoots(s, t)
  }

  lemma ApplyRoots(cfg: Config, s: St, e: Event)
    requires ValidConfig(cfg) && Inv(cfg, s, {}) && Enabled(cfg, s, e)
    ensures RootsChange(s, e, Apply(cfg, s, e))
  {
    hide Inv;
    hide Submit;
    hide Deliver;
    hide Expire;
    hide Drop;
    hide Possible;
    match e
    case Submitted(owner, typ, flags, now) => SubmitRoots(cfg, s, owner, typ, flags, now);
    case Expired(q, now) =>
      InvParent(cfg, s, q);
      ExpireRoots(cfg, s, q, now);
    case Replied(q, v, now) =>
      PopWaiting(cfg, s, q);
      DeliverRoots(cfg, Unqueue(s, q), q, v, now);
      SameQueriesSameRoots(s, Unqueue(s, q));
    case Collected(q) =>
      DoneHasNoFamily(cfg, s, q);
      DropRootRoots(cfg, s, q);
      assert {q} + Kids(s, q) == {q};
    case Cancelled(q) => DropRootRoots(cfg, s, q);
  }

  lemma RootsBalanced(s: St, t: Tally, e: Event, u: St)
    requires Balanced(s, t) && RootsChange(s, e, u) && u.unused >= s.unused + if e.Submitted? then 1 else 0
    requires forall q: QId :: IsRoot(s, q) ==> q < s.unused
    ensures Balanced(u, Count(s, t, e))
  {
  }

  lemma RootsNumbered(cfg: Config, s: St)
    requires ValidConfig(cfg) && Inv(cfg, s, {})
    ensures forall q: QId :: IsRoot(s, q) ==> q < s.unused
  {
  }

  lemma CountBalanced(cfg: Config, s: St, t: Tally, e: Event)
    requires ValidConfig(cfg) && Inv(cfg, s, {}) && Enabled(cfg, s, e) && Balanced(s, t)
    ensures Balanced(Apply(cfg, s, e), Count(s, t, e))
  {
    RootsNumbered(cfg, s);
    hide Inv;
    hide Apply;
    hide Enabled;
    hide Balanced;
    hide RootsChange;
    hide Count;
    ApplyRoots(cfg, s, e);
    RootsBalanced(s, t, e, Apply(cfg, s, e));
  }

  /** The tally of a whole run. */
  ghost function TallyOf(cfg: Config, s: St, t: Tally, events: seq<Event>, end: St): Tally
    requires ValidConfig(cfg) && Reaches(cfg, s, events, end)
    decreases |events|
  {
    if events == [] then t
    else TallyOf(cfg, Apply(cfg, s, events[0]), Count(s, t, events[0]), events[1..], end)
  }

  lemma {:induction false} RunBalanced(cfg: Config, s: St, t: Tally, events: seq<Event>, end: St)
    requires ValidConfig(cfg) && Reaches(cfg, s, events, end) && Balanced(s, t)
    ensures Balanced(end, TallyOf(cfg, s, t, events, end))
    decreases |events|
  {
    hide Inv;
    hide Apply;
    hide Enabled;
    hide Balanced;
    if events != [] {
      CountBalanced(cfg, s, t, events[0]);
      RunBalanced(cfg, Apply(cfg, s, events[0]), Count(s, t, events[0]), events[1..], end);
    }
  }

  /** Over every run, submitted = live + collected + cancelled, and the three do not overlap. */
  lemma NothingIsLost(cfg: Config, events: seq<Event>, s: St)
    requires ValidConfig(cfg) && Reaches(cfg, INITIAL, events, s)
    ensures var t := TallyOf(cfg, INITIAL, Tally({}, {}, {}), events, s);
            var live := set q | q in s.qs && s.qs[q].parent.None?;
            t.submitted == live + t.returned + t.cancelled &&
            |t.submitted| == |live| + |t.returned| + |t.cancelled|
  {
    var t0 := Tally({}, {}, {});
    assert Balanced(INITIAL, t0);
    RunBalanced(cfg, INITIAL, t0, events, s);
    var t := TallyOf(cfg, INITIAL, t0, events, s);
    var live := set q | q in s.qs && s.qs[q].parent.None?;
    hide TallyOf;
    assert forall q :: q in live <==> IsRoot(s, q);
    assert t.submitted == live + t.returned + t.cancelled;
    assert live !! t.returned && (live + t.returned) !! t.cancelled;
  }
}
