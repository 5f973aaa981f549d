/** The names that queries keep from CNAMEs they followed: over every run they fit the room that
    adns__mkquery_frdgram reserves (adns/transmit.c:179), if the names in the datagrams do. */
module Rooms {
  import opened Basics
  import opened Headers
  import opened Names
  import opened Texts
  import opened Records
  import opened Queries
  import opened Answers
  import opened LifeCycle
  import opened Steps
  import opened Parsers
  import opened Submission
  import opened Replies
  import opened Deliveries
  import opened Runs

  /** Every query has the property. */
  ghost predicate All(s: St, P: Query -> bool) { forall q :: q in s.qs ==> P(s.qs[q]) }

  /** The same CNAME, and the same search; and the query has not come to wait for TCP. */
  predicate Alike(x: Query, y: Query)
  {
    y.cname == x.cname && (y.state == x.state || !y.state.Tcpw?) && y.flags.search == x.flags.search &&
    y.flags.quoteokQuery == x.flags.quoteokQuery && y.searchName == x.searchName
  }

  /** A property of new queries without a search that only a CNAME, or waiting for TCP, can end. */
  ghost predicate Lasting(P: Query -> bool)
  {
    (forall x: Query, y: Query :: P(x) && Alike(x, y) ==> P(y)) &&
    (forall y: Query :: y.cname.None? && y.state.Tosend? && !y.flags.search ==> P(y))
  }

  lemma SetKept(s: St, q: QId, x: Query, P: Query -> bool)
    requires Lasting(P) && All(s, P) && q in s.qs
    requires Alike(s.qs[q], x)
    ensures All(Set(s, q, x), P)
  {
    assert P(s.qs[q]) && P(x);
  }

  lemma DropKept(s: St, d: set<QId>, P: Query -> bool)
    requires Lasting(P) && All(s, P)
    ensures All(Drop(s, d), P)
  {
    hide Without;
    forall q | q in Drop(s, d).qs ensures P(Drop(s, d).qs[q]) {
      assert P(s.qs[q]) && Alike(s.qs[q], Drop(s, d).qs[q]);
    }
  }

  lemma AddKept(s: St, x: Query, P: Query -> bool)
    requires Lasting(P) && All(s, P) && P(x)
    ensures All(Add(s, x), P)
  {
  }

  lemma CompleteRootKept(s: St, q: QId, P: Query -> bool)
    requires Lasting(P) && All(s, P) && q in s.qs
    ensures All(CompleteRoot(s, q), P)
  {
    hide Lasting;
    DropKept(s, Kids(s, q) - {q}, P);
    SetKept(Drop(s, Kids(s, q) - {q}), q, Completed(Drop(s, Kids(s, q) - {q}).qs[q]), P);
  }

  lemma FailRootKept(s: St, q: QId, st: Status, P: Query -> bool)
    requires Lasting(P) && All(s, P) && q in s.qs
    ensures All(FailRoot(s, q, st), P)
  {
    hide Lasting;
    hide CompleteRoot;
    SetKept(s, q, WithStatus(s.qs[q], st), P);
    CompleteRootKept(Set(s, q, WithStatus(s.qs[q], st)), q, P);
  }

  lemma WaitOrCompleteKept(s: St, p: QId, P: Query -> bool)
    requires Lasting(P) && All(s, P) && p in s.qs
    ensures All(WaitOrComplete(s, p), P)
  {
    hide Lasting;
    hide CompleteRoot;
    CompleteRootKept(s, p, P);
  }

  lemma RunCallbackKept(s: St, p: QId, child: Query, P: Query -> bool)
    requires Lasting(P) && All(s, P) && p in s.qs
    ensures All(RunCallback(s, p, child), P)
  {
    hide Lasting;
    hide WaitOrComplete;
    hide FailRoot;
    var x := s.qs[p];
    var y, z := Filled(x, child), ConfirmedBy(x, child);
    SetKept(s, p, y, P);
    SetKept(s, p, z, P);
    WaitOrCompleteKept(Set(s, p, y), p, P);
    WaitOrCompleteKept(Set(s, p, z), p, P);
    FailRootKept(s, p, Inconsistent, P);
    FailRootKept(s, p, child.answer.status, P);
    hide All;
  }

  lemma FinishKept(s: St, q: QId, P: Query -> bool)
    requires Lasting(P) && All(s, P) && q in s.qs && ParentLives(s, q)
    ensures All(Finish(s, q), P)
  {
    hide Lasting;
    hide CompleteRoot;
    hide RunCallback;
    CompleteRootKept(s, q, P);
    if s.qs[q].parent.Some? {
      var p := s.qs[q].parent.value;
      DropKept(Unqueue(s, p), {q}, P);
      assert p in Drop(Unqueue(s, p), {q}).qs;
      RunCallbackKept(Drop(Unqueue(s, p), {q}), p, s.qs[q], P);
    }
  }

  lemma FailKept(s: St, q: QId, st: Status, P: Query -> bool)
    requires Lasting(P) && All(s, P) && q in s.qs && ParentLives(s, q)
    ensures All(Fail(s, q, st), P)
  {
    hide Lasting;
    hide Finish;
    SetKept(s, q, WithStatus(s.qs[q], st), P);
    FinishKept(Set(s, q, WithStatus(s.qs[q], st)), q, P);
  }

  lemma SendKept(cfg: Config, s: St, q: QId, now: int, P: Query -> bool)
    requires ValidConfig(cfg) && Lasting(P) && All(s, P) && q in s.qs && ParentLives(s, q)
    ensures All(Send(cfg, s, q, now), P)
  {
    hide Lasting;
    hide Fail;
    FailKept(s, q, SystemFail, P);
    FailKept(s, q, Timeout, P);
    SetKept(s, q, Dispatched(cfg, s.qs[q], now), P);
  }

  lemma {:induction false} QuerySimpleKept(cfg: Config, s: St, q: QId, owner: seq<Byte>, now: int, P: Query -> bool)
    requires ValidConfig(cfg) && Lasting(P) && All(s, P) && q in s.qs && s.qs[q].parent.None?
    ensures All(QuerySimple(cfg, s, q, owner, now), P)
    decreases Remaining(cfg, s.qs[q]), 1
  {
    hide Lasting;
    hide Fail;
    hide Send;
    hide SearchNext;
    hide ReadLabels;
    hide Message;
    var x, u := s.qs[q], s.(nextid := s.nextid + 1);
    match ReadLabels(owner, 0, x.flags.quoteokQuery, 0)
    case Failure(st) =>
      SearchNextKept(cfg, u, q, now, P);
      FailKept(u, q, st, P);
    case Success(ls) =>
      ReadWithin(owner, 0, x.flags.quoteokQuery, 0);
      var id := s.nextid % 0x1_0000;
      var y := Asked(x, id, Message(id, ls, x.typ % 0x1_0000));
      SetKept(u, q, y, P);
      SendKept(cfg, Set(u, q, y), q, now, P);
  }

  lemma {:induction false} SearchNextKept(cfg: Config, s: St, q: QId, now: int, P: Query -> bool)
    requires ValidConfig(cfg) && Lasting(P) && All(s, P) && q in s.qs && s.qs[q].parent.None?
    ensures All(SearchNext(cfg, s, q, now), P)
    decreases Remaining(cfg, s.qs[q]), 0
  {
    hide Lasting;
    hide Fail;
    hide QuerySimple;
    match NextCandidate(cfg, s.qs[q])
    case None => FailKept(s, q, NxDomain, P);
    case Some(y) =>
      SetKept(s, q, y, P);
      QuerySimpleKept(cfg, Set(s, q, y), q, y.searchVb, now, P);
  }

  lemma SubmitNamedKept(cfg: Config, s: St, name: seq<Byte>, typ: nat, flags: Flags, now: int, P: Query -> bool)
    requires ValidConfig(cfg) && Lasting(P) && All(s, P) && P(Named(cfg, name, typ, flags))
    ensures All(SubmitNamed(cfg, s, name, typ, flags, now), P)
  {
    hide Lasting;
    hide QuerySimple;
    hide SearchNext;
    hide Dots;
    var x := Named(cfg, name, typ, flags);
    AddKept(s, x, P);
    SearchNextKept(cfg, Add(s, x), s.unused, now, P);
    QuerySimpleKept(cfg, Add(s, x), s.unused, name, now, P);
  }

  lemma PlainKept(cfg: Config, name: seq<Byte>, typ: nat, flags: Flags, P: Query -> bool)
    requires Lasting(P) && !flags.search
    ensures P(Named(cfg, name, typ, flags))
  {
  }

  lemma SubmitKept(cfg: Config, s: St, owner: seq<Byte>, typ: nat, flags: Flags, now: int, P: Query -> bool)
    requires ValidConfig(cfg) && Lasting(P) && All(s, P) && P(Virgin(typ, flags))
    requires !Absolute(owner) ==> P(Named(cfg, owner, typ, flags))
    ensures All(Submit(cfg, s, owner, typ, flags, now), P)
  {
    hide Lasting;
    hide Fail;
    hide SubmitNamed;
    AddKept(s, Virgin(typ, flags), P);
    FailKept(Add(s, Virgin(typ, flags)), s.unused, QueryDomainInvalid, P);
    FailKept(Add(s, Virgin(typ, flags)), s.unused, QueryDomainTooLong, P);
    if Absolute(owner) {
      PlainKept(cfg, owner[..|owner| - 1], typ, flags.(search := false), P);
      SubmitNamedKept(cfg, s, owner[..|owner| - 1], typ, flags.(search := false), now, P);
    } else {
      SubmitNamedKept(cfg, s, owner, typ, flags, now, P);
    }
  }

  lemma {:induction false} SubmitKidsKept(cfg: Config, s: St, p: QId, kids: seq<Kid>, now: int, P: Query -> bool)
    requires ValidConfig(cfg) && Lasting(P) && All(s, P) && p in s.qs && Numbered(s) && AllWithinLimits(kids)
    ensures All(SubmitKids(cfg, s, p, kids, now), P)
    decreases |kids|
  {
    hide WithinLimits;
    hide SubmitKid;
    if kids != [] {
      SubmitKidIs(cfg, s, p, kids[0], now);
      SubmitKidKept(cfg, s, p, kids[0], now, P);
      SubmitKidsKept(cfg, SubmitKid(cfg, s, p, kids[0], now), p, kids[1..], now, P);
    }
  }

  lemma SubmitKidKept(cfg: Config, s: St, p: QId, kid: Kid, now: int, P: Query -> bool)
    requires ValidConfig(cfg) && Lasting(P) && All(s, P) && p in s.qs && s.unused !in s.qs && WithinLimits(kid.labels)
    ensures All(SubmitKid(cfg, s, p, kid, now), P)
  {
    hide SubmitKid;
    SubmitKidIs(cfg, s, p, kid, now);
    KidIsPlain(cfg, s.qs[p], s.nextid % 0x1_0000, kid, now);
    hide WithinLimits;
    hide NewKid;
    hide Dispatched;
    var x, y := Dispatched(cfg, NewKid(s.qs[p], s.nextid % 0x1_0000, kid), now), s.qs[p];
    assert P(x.(parent := Some(p))) && P(y);
    assert Alike(y, y.(children := y.children + [s.unused]));
    assert P(y.(children := y.children + [s.unused]));
    hide Lasting;
  }

  lemma KidIsPlain(cfg: Config, parent: Query, id: nat, kid: Kid, now: int)
    requires ValidConfig(cfg) && WithinLimits(kid.labels)
    ensures var x := Dispatched(cfg, NewKid(parent, id, kid), now);
            x.cname.None? && x.state.Tosend? && !x.flags.search
  {
    hide Message;
  }

  lemma TakeAnswerKept(cfg: Config, s: St, q: QId, kids: seq<Kid>, failed: Option<Status>,
                        rrs: seq<Stored>, ptrAddr: Option<seq<Byte>>, blocks: nat, now: int, P: Query -> bool)
    requires ValidConfig(cfg) && Lasting(P) && All(s, P) && q in s.qs && ParentLives(s, q) && Numbered(s) &&
             AllWithinLimits(kids)
    ensures All(TakeAnswer(cfg, s, q, kids, failed, rrs, ptrAddr, blocks, now), P)
  {
    hide Lasting;
    hide SubmitKids;
    hide AllWithinLimits;
    hide Fail;
    hide Finish;
    SubmitKidsKept(cfg, s, q, kids, now, P);
    var u := SubmitKids(cfg, s, q, kids, now);
    var v := Set(u, q, u.qs[q].(ptrAddr := ptrAddr, allocations := u.qs[q].allocations + blocks));
    SetKept(u, q, v.qs[q], P);
    ConcludeKept(v, q, failed, rrs, P);
    hide Conclude;
  }

  lemma ConcludeKept(s: St, q: QId, failed: Option<Status>, rrs: seq<Stored>, P: Query -> bool)
    requires Lasting(P) && All(s, P) && q in s.qs && ParentLives(s, q)
    ensures All(Conclude(s, q, failed, rrs), P)
  {
    hide Lasting;
    hide Fail;
    hide Finish;
    if failed.Some? {
      FailKept(s, q, failed.value, P);
    } else {
      var u := Set(s, q, s.qs[q].(answer := s.qs[q].answer.(rrs := rrs)));
      SetKept(s, q, u.qs[q], P);
      SetKept(u, q, u.qs[q].(state := Childw), P);
      FinishKept(u, q, P);
    }
  }

  lemma RetryKept(cfg: Config, s: St, q: QId, usevc: bool, now: int, P: Query -> bool)
    requires ValidConfig(cfg) && Lasting(P) && All(s, P) && q in s.qs && ParentLives(s, q)
    ensures All(Retry(cfg, s, q, usevc, now), P)
  {
    var y := Restarted(s.qs[q], s.nextid, usevc);
    assert y.cname == s.qs[q].cname && y.parent == s.qs[q].parent;
    hide Restarted;
    hide Lasting;
    hide Send;
    SetKept(s, q, y, P);
    SendKept(cfg, Retried(s, q, usevc), q, now, P);
  }

  lemma DeliverKept(cfg: Config, s: St, q: QId, v: Verdict, now: int, P: Query -> bool)
    requires ValidConfig(cfg) && Lasting(P) && All(s, P) && q in s.qs && Possible(s.qs[q], v) && Numbered(s) &&
             ParentLives(s, q)
    requires P(Noted(s.qs[q], v.pass))
    ensures All(Deliver(cfg, s, q, v, now), P)
  {
    hide Lasting;
    hide AllWithinLimits;
    hide Fail;
    hide SearchNext;
    hide Retry;
    hide TakeAnswer;
    var t := Set(s, q, Noted(s.qs[q], v.pass));
    match v
    case Failed(_, st) => FailKept(t, q, st, P);
    case NextName(_) => SearchNextKept(cfg, t, q, now, P);
    case Restart(_, usevc) => RetryKept(cfg, t, q, usevc, now, P);
    case Answered(_, kids, failed, rrs, ptrAddr, blocks) =>
      TakeAnswerKept(cfg, t, q, kids, failed, rrs, ptrAddr, blocks, now, P);
  }

  /** The event leaves the query that it answers, or that it submits, with the property. */
  ghost predicate Brings(cfg: Config, s: St, e: Event, P: Query -> bool)
    requires e.Replied? ==> e.q in s.qs
  {
    match e
    case Replied(q, v, _) => P(Noted(s.qs[q], v.pass))
    case Submitted(owner, typ, flags, _) =>
      P(Virgin(typ, flags)) && (!Absolute(owner) ==> P(Named(cfg, owner, typ, flags)))
    case _ => true
  }

  lemma ApplyKept(cfg: Config, s: St, e: Event, P: Query -> bool)
    requires ValidConfig(cfg) && Inv(cfg, s, {}) && Enabled(cfg, s, e) && Lasting(P) && All(s, P) &&
             Brings(cfg, s, e, P)
    ensures All(Apply(cfg, s, e), P)
  {
    hide Inv;
    hide Submit;
    hide Deliver;
    hide Send;
    hide Fail;
    hide Drop;
    hide Possible;
    hide Lasting;
    hide All;
    match e
    case Submitted(owner, typ, flags, now) => SubmitKept(cfg, s, owner, typ, flags, now, P);
    case Expired(q, now) =>
      InvParent(cfg, s, q);
      UnqueueKept(s, q, P);
      SendKept(cfg, Unqueue(s, q), q, now, P);
      FailKept(Unqueue(s, q), q, Timeout, P);
    case Replied(q, v, now) =>
      InvParent(cfg, s, q);
      UnqueueKept(s, q, P);
      DeliverKept(cfg, Unqueue(s, q), q, v, now, P);
    case Collected(q) => DropKept(s, {q}, P);
    case Cancelled(q) => DropKept(s, {q} + Kids(s, q), P);
  }

  lemma UnqueueKept(s: St, q: QId, P: Query -> bool)
    requires All(s, P)
    ensures All(Unqueue(s, q), P)
  {
  }

  // ---------- Nobody waits for TCP ----------

  ghost predicate NoTcp(s: St) { All(s, (x: Query) => !x.state.Tcpw?) }

  lemma NoTcpKept(cfg: Config, s: St, e: Event)
    requires ValidConfig(cfg) && Inv(cfg, s, {}) && Enabled(cfg, s, e) && NoTcp(s)
    ensures NoTcp(Apply(cfg, s, e))
  {
    hide Inv;
    hide Apply;
    hide Possible;
    ApplyKept(cfg, s, e, (x: Query) => !x.state.Tcpw?);
  }

  /** Over every run no query comes to wait for TCP: the entry that the source compiles out was the only one. */
  lemma {:induction false} RunsWithoutTcp(cfg: Config, s: St, events: seq<Event>, t: St)
    requires ValidConfig(cfg) && Reaches(cfg, s, events, t) && NoTcp(s)
    ensures NoTcp(t)
    decreases |events|
  {
    hide Inv;
    hide Apply;
    hide Enabled;
    hide NoTcp;
    if events != [] {
      NoTcpKept(cfg, s, events[0]);
      RunsWithoutTcp(cfg, Apply(cfg, s, events[0]), events[1..], t);
    }
  }

  // ---------- Searches stay inside their names ----------

  ghost predicate SealedAll(cfg: Config, s: St) { All(s, (x: Query) => SealedSearch(cfg, x)) }

  lemma SealedKept(cfg: Config, s: St, e: Event)
    requires ValidConfig(cfg) && Inv(cfg, s, {}) && Enabled(cfg, s, e) && SealedAll(cfg, s)
    ensures SealedAll(cfg, Apply(cfg, s, e))
  {
    hide Inv;
    hide Apply;
    hide Possible;
    hide SealedNames;
    var P := (x: Query) => SealedSearch(cfg, x);
    if e.Submitted? {
      NothingIsSealed(cfg, e.flags.quoteokQuery);
    }
    if e.Replied? {
      assert P(s.qs[e.q]);
    }
    ApplyKept(cfg, s, e, P);
  }

  /** Over every run, no search comes to a name that ends inside an escape. */
  lemma {:induction false} RunsStaySealed(cfg: Config, s: St, events: seq<Event>, t: St)
    requires ValidConfig(cfg) && Reaches(cfg, s, events, t) && SealedAll(cfg, s)
    ensures SealedAll(cfg, t)
    decreases |events|
  {
    hide Inv;
    hide Apply;
    hide Enabled;
    hide SealedAll;
    if events != [] {
      SealedKept(cfg, s, events[0]);
      RunsStaySealed(cfg, Apply(cfg, s, events[0]), events[1..], t);
    }
  }

  // ---------- The names kept fit ----------

  ghost predicate RoomyAll(s: St) { All(s, (x: Query) => RoomyCname(x.cname)) }

  /** True of events that bring in no name without room. */
  ghost predicate RoomyEvent(e: Event) { e.Replied? ==> RoomyCname(e.verdict.pass.cname) }

  lemma RoomyKept(cfg: Config, s: St, e: Event)
    requires ValidConfig(cfg) && Inv(cfg, s, {}) && Enabled(cfg, s, e) && RoomyAll(s) && RoomyEvent(e)
    ensures RoomyAll(Apply(cfg, s, e))
  {
    hide Inv;
    hide Apply;
    hide Possible;
    hide Roomy;
    hide ValidOwner;
    ApplyKept(cfg, s, e, (x: Query) => RoomyCname(x.cname));
  }

  /** Over every run, the names kept fit if those that came in did. */
  lemma {:induction false} RunsStayRoomy(cfg: Config, s: St, events: seq<Event>, t: St)
    requires ValidConfig(cfg) && Reaches(cfg, s, events, t) && RoomyAll(s)
    requires forall i :: 0 <= i < |events| ==> RoomyEvent(events[i])
    ensures RoomyAll(t)
    decreases |events|
  {
    hide Inv;
    hide Apply;
    hide Enabled;
    hide RoomyAll;
    hide RoomyEvent;
    if events != [] {
      RoomyKept(cfg, s, events[0]);
      RunsStayRoomy(cfg, Apply(cfg, s, events[0]), events[1..], t);
    }
  }

  lemma EveryName(s: St, q: QId)
    requires q in s.qs
    ensures RoomyAll(s) ==> RoomyCname(s.qs[q].cname)
    ensures NoTcp(s) ==> !s.qs[q].state.Tcpw?
    ensures forall cfg :: SealedAll(cfg, s) ==> SealedSearch(cfg, s.qs[q])
  {
    forall cfg | SealedAll(cfg, s) ensures SealedSearch(cfg, s.qs[q]) {
      var P := (x: Query) => SealedSearch(cfg, x);
      assert P(s.qs[q]);
    }
    hide SealedSearch;
    if NoTcp(s) {
      var P := (x: Query) => !x.state.Tcpw?;
      assert P(s.qs[q]);
    }
    if RoomyAll(s) {
      var P := (x: Query) => RoomyCname(x.cname);
      assert P(s.qs[q]);
    }
  }

  // ---------- The names that a reply brings in ----------

  ghost predicate RoomyAt(dg: seq<Byte>, c: nat) { RoomyCname(Some(Owner(dg, c))) }

  /** The name in the data of a record fits, if the source looks for one there. */
  ghost predicate RoomyRecord(dg: seq<Byte>, rr: Rr)
  {
    (rr.typ in {2, 5, 12} ==> RoomyAt(dg, rr.rdstart)) && (rr.typ == 15 ==> RoomyAt(dg, rr.rdstart + 2))
  }

  /** So do the names in the data of the `n` records from `c` on. */
  ghost predicate RoomyRecords(dg: seq<Byte>, c: nat, n: nat)
    decreases n
  {
    n == 0 ||
    match RecordAt(dg, c, None)
    case Record(rr, next, _) => RoomyRecord(dg, rr) && RoomyRecords(dg, next, n - 1)
    case _ => true
  }

  lemma StepRoomy(dg: seq<Byte>, w: Wanted, p: Pass)
    requires RecordAt(dg, p.cbyte, None).Record? ==> RoomyRecord(dg, RecordAt(dg, p.cbyte, None).rr)
    requires RoomyCname(p.cname)
    ensures match Step(dg, w, p)
            case PassDone(q) => RoomyCname(q.cname)
            case PassFail(q, _) => RoomyCname(q.cname)
            case PassTruncated(q, _) => RoomyCname(q.cname)
            case PassDiverges => true
  {
    SameRecord(dg, p.cbyte, CurrentOwner(w, p));
    hide RecordAt;
    hide RestText;
    hide CurrentOwner;
    hide RoomyCname;
  }

  lemma {:induction false} FirstPassRoomy(dg: seq<Byte>, w: Wanted, p: Pass, n: nat)
    requires RoomyRecords(dg, p.cbyte, n) && RoomyCname(p.cname)
    ensures match FirstPass(dg, w, p, n)
            case PassDone(q) => RoomyCname(q.cname)
            case PassFail(q, _) => RoomyCname(q.cname)
            case PassTruncated(q, _) => RoomyCname(q.cname)
            case PassDiverges => true
    decreases n
  {
    hide Step;
    hide RecordAt;
    hide RoomyCname;
    hide RoomyRecord;
    if n > 0 {
      StepRoomy(dg, w, p);
      if Step(dg, w, p).PassDone? {
        RestDoneIsRead(dg, w, p);
        FirstPassRoomy(dg, w, Step(dg, w, p).p, n - 1);
      }
    }
  }

  lemma {:induction false} AcceptedRoomy(dg: seq<Byte>, w: Wanted, owner: seq<Label>, c: nat, n: nat)
    requires RoomyRecords(dg, c, n)
    ensures forall rr :: rr in Accepted(dg, w, owner, c, n) ==> RoomyRecord(dg, rr) && rr.typ == w.typ
    decreases n
  {
    hide RecordAt;
    hide RoomyRecord;
    if n > 0 {
      SameRecord(dg, c, owner);
      var r := RecordAt(dg, c, Some(owner));
      if r.Record? {
        AcceptedRoomy(dg, w, owner, r.next, n - 1);
      }
    }
  }

  /** The child of a record asks about the name in its data. */
  lemma KidIs(x: Query, dg: seq<Byte>, rr: Rr, sec: Sections, ptrAddr: Option<seq<Byte>>, o: Stray)
    ensures var r, c := ParseRr(x, dg, rr, sec, ptrAddr, o), if x.typ == MX then rr.rdstart + 2 else rr.rdstart;
            r.Parsed? && r.kid.Some? ==>
              Derefs(x.typ) && r.kid.value == OwnerLabels(Owner(dg, c)) &&
              RestText(dg, Start(c, rr.rdstart + rr.rdlen), x.flags.quoteokAnshost, true).Text?
  {
    hide RestText;
    hide FindGlue;
    hide AskedName;
    hide OwnerLabels;
  }

  lemma KidRoomy(x: Query, dg: seq<Byte>, rr: Rr, sec: Sections, ptrAddr: Option<seq<Byte>>, o: Stray)
    requires RoomyRecord(dg, rr) && rr.typ == x.typ % 0x1_0000 && rr.rdstart + rr.rdlen <= |dg|
    ensures var r := ParseRr(x, dg, rr, sec, ptrAddr, o);
            r.Parsed? && r.kid.Some? ==> WithinLimits(r.kid.value) && Fits(r.kid.value, |dg|)
  {
    hide ParseRr;
    hide RestText;
    hide RoomyAt;
    hide WithinLimits;
    hide Fits;
    hide OwnerLabels;
    hide ValidOwner;
    KidIs(x, dg, rr, sec, ptrAddr, o);
    var r, c := ParseRr(x, dg, rr, sec, ptrAddr, o), if x.typ == MX then rr.rdstart + 2 else rr.rdstart;
    if r.Parsed? && r.kid.Some? {
      FollowedIsValid(dg, c, rr.rdstart + rr.rdlen, x.flags.quoteokAnshost);
      ValidFits(dg, c);
    }
  }

  lemma ValidFits(dg: seq<Byte>, c: nat)
    requires ValidOwner(Owner(dg, c)) && RoomyAt(dg, c)
    ensures WithinLimits(OwnerLabels(Owner(dg, c))) && Fits(OwnerLabels(Owner(dg, c)), |dg|)
  {
    OwnerWithinLimits(Owner(dg, c));
  }

  lemma {:induction false} SecondPassFits(x: Query, dg: seq<Byte>, rrs: seq<Rr>, i: nat, sec: Sections,
                                          ptrAddr: Option<seq<Byte>>, os: seq<Stray>)
    requires i <= |rrs| && forall rr :: rr in rrs ==>
               RoomyRecord(dg, rr) && rr.typ == x.typ % 0x1_0000 && rr.rdstart + rr.rdlen <= |dg|
    ensures var r := SecondPass(x, dg, rrs, i, sec, ptrAddr, os);
            r.Second? ==> AllWithinLimits(r.kids) && KidsFit(r.kids, |dg|)
    decreases |rrs| - i
  {
    hide ParseRr;
    hide RoomyRecord;
    hide WithinLimits;
    hide Fits;
    if i < |rrs| {
      assert rrs[i] in rrs;
      KidRoomy(x, dg, rrs[i], sec, ptrAddr, StrayAt(os, i));
      var r := ParseRr(x, dg, rrs[i], sec, ptrAddr, StrayAt(os, i));
      if r.Parsed? && r.status == Ok {
        SecondPassFits(x, dg, rrs, i + 1, sec, r.ptrAddr, os);
      }
    }
  }

  lemma {:induction false} AcceptedInside(dg: seq<Byte>, w: Wanted, owner: seq<Label>, c: nat, n: nat)
    ensures forall rr :: rr in Accepted(dg, w, owner, c, n) ==> rr.rdstart + rr.rdlen <= |dg|
    decreases n
  {
    hide RecordAt;
    if n > 0 {
      var r := RecordAt(dg, c, Some(owner));
      if r.Record? {
        RecordAdvances(dg, c, owner);
        AcceptedInside(dg, w, owner, r.next, n - 1);
      }
    }
  }

  /** The query starts again at a name that the datagram at hand does not have there (see Answers.CnameErrors). */
  ghost predicate Dangling(x: Query, dg: seq<Byte>)
    requires |dg| >= DNS_HDRSIZE
  {
    var r := FirstPass(dg, WantedBy(x), FirstState(x), HeaderOf(dg).ancount);
    HeaderOf(dg).tc && HeaderOf(dg).rcode in {0, 3} && r.PassTruncated? && r.redirect.Some?
  }

  lemma TriedRoomy(x: Query, dg: seq<Byte>, h: Header, p: Pass, rr: Rr)
    requires RoomyRecords(dg, |x.dgram|, h.ancount) && rr in Tried(x, dg, h, p)
    ensures RoomyRecord(dg, rr) && rr.typ == x.typ % 0x1_0000 && rr.rdstart + rr.rdlen <= |dg|
  {
    hide Accepted;
    hide RoomyRecord;
    hide RoomyRecords;
    var w := WantedBy(x);
    AcceptedRoomy(dg, w, CurrentOwner(w, p), |x.dgram|, h.ancount);
    AcceptedInside(dg, w, CurrentOwner(w, p), |x.dgram|, h.ancount);
    assert rr in Wants(x, dg, h, p);
    assert rr in Accepted(dg, w, CurrentOwner(w, p), |x.dgram|, h.ancount);
  }

  lemma PositiveRoomy(x: Query, dg: seq<Byte>, h: Header, p: Pass, os: seq<Stray>)
    requires RoomyRecords(dg, |x.dgram|, h.ancount) && RoomyCname(p.cname)
    ensures ReadPositive(x, dg, h, p, os).Read? ==> RoomyVerdict(ReadPositive(x, dg, h, p, os).verdict, |dg|)
    ensures ReadPositive(x, dg, h, p, os).Read? ==> ReadPositive(x, dg, h, p, os).verdict.pass == p
  {
    hide SecondPass;
    hide Tried;
    hide RoomyRecord;
    hide RoomyRecords;
    hide Overruns;
    hide RoomyCname;
    hide WithinLimits;
    hide Fits;
    var rrs := Tried(x, dg, h, p);
    forall rr | rr in rrs ensures RoomyRecord(dg, rr) && rr.typ == x.typ % 0x1_0000 && rr.rdstart + rr.rdlen <= |dg| {
      TriedRoomy(x, dg, h, p, rr);
    }
    SecondPassFits(x, dg, rrs, 0, SectionsBehind(h, p), x.ptrAddr, os);
  }

  /** When the names in the data of its answers fit, only such names are kept and asked for. */
  lemma RepliesAreRoomy(x: Query, dg: seq<Byte>, os: seq<Stray>)
    requires |dg| >= DNS_HDRSIZE && RoomyCname(x.cname) && RoomyRecords(dg, |x.dgram|, HeaderOf(dg).ancount)
    requires !Dangling(x, dg)
    ensures match ReadReply(x, dg, os)
            case Read(v) => RoomyCname(v.pass.cname) && RoomyVerdict(v, |dg|)
            case _ => true
  {
    hide FirstPass;
    hide ReadPositive;
    hide AuthorityAt;
    hide RoomyCname;
    hide RoomyRecords;
    hide AllWithinLimits;
    var h, w, p := HeaderOf(dg), WantedBy(x), FirstState(x);
    FirstPassRoomy(dg, w, p, h.ancount);
    var r := FirstPass(dg, w, p, h.ancount);
    if r.PassDone? {
      PositiveRoomy(x, dg, h, r.p, os);
    }
  }
}
