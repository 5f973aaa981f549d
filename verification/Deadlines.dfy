/** Expired queries: acting on one leaves fewer of them, so timeout processing ends although it starts
    again from the head of the queue each time (adns/event.c:247-280). */
module Deadlines {
  import opened Basics
  import opened LifeCycle
  import opened Steps
  import opened Runs

  /** No query starts to wait, and none gets another deadline. */
  ghost predicate Narrows(s: St, t: St)
  {
    (forall q :: q in t.udpw ==> q in s.udpw) && (forall q :: q in t.tcpw ==> q in s.tcpw) &&
    (forall q :: q in t.qs ==> q in s.qs && t.qs[q].timeout == s.qs[q].timeout)
  }

  lemma NarrowsTrans(s: St, t: St, u: St)
    requires Narrows(s, t) && Narrows(t, u)
    ensures Narrows(s, u)
  {
  }

  lemma DropNarrows(s: St, d: set<QId>)
    ensures Narrows(s, Drop(s, d))
  {
  }

  lemma UnqueueNarrows(s: St, q: QId)
    ensures Narrows(s, Unqueue(s, q))
  {
  }

  lemma SetNarrows(s: St, q: QId, x: Query)
    requires q in s.qs && x.timeout == s.qs[q].timeout
    ensures Narrows(s, Set(s, q, x))
  {
  }

  lemma CompleteRootNarrows(s: St, q: QId)
    requires q in s.qs
    ensures Narrows(s, CompleteRoot(s, q))
  {
    var u := Drop(s, Kids(s, q) - {q});
    DropNarrows(s, Kids(s, q) - {q});
    assert q in u.qs;
    hide Drop;
    hide Kids;
    SetNarrows(u, q, Completed(u.qs[q]));
    NarrowsTrans(s, u, Set(u, q, Completed(u.qs[q])));
  }

  lemma FailRootNarrows(s: St, q: QId, st: Status)
    requires q in s.qs
    ensures Narrows(s, FailRoot(s, q, st))
  {
    hide CompleteRoot;
    var t := Set(s, q, WithStatus(s.qs[q], st));
    SetNarrows(s, q, WithStatus(s.qs[q], st));
    CompleteRootNarrows(t, q);
    NarrowsTrans(s, t, CompleteRoot(t, q));
  }

  lemma WaitOrCompleteNarrows(s: St, p: QId)
    requires p in s.qs
    ensures Narrows(s, WaitOrComplete(s, p))
  {
    hide CompleteRoot;
    CompleteRootNarrows(s, p);
  }

  lemma RunCallbackNarrows(s: St, p: QId, child: Query)
    requires p in s.qs
    ensures Narrows(s, RunCallback(s, p, child))
  {
    hide WaitOrComplete;
    hide FailRoot;
    var x := s.qs[p];
    var y, z := Filled(x, child), ConfirmedBy(x, child);
    SetNarrows(s, p, y);
    WaitOrCompleteNarrows(Set(s, p, y), p);
    NarrowsTrans(s, Set(s, p, y), WaitOrComplete(Set(s, p, y), p));
    SetNarrows(s, p, z);
    WaitOrCompleteNarrows(Set(s, p, z), p);
    NarrowsTrans(s, Set(s, p, z), WaitOrComplete(Set(s, p, z), p));
    FailRootNarrows(s, p, Inconsistent);
    FailRootNarrows(s, p, child.answer.status);
    hide Narrows;
  }

  lemma FinishNarrows(s: St, q: QId)
    requires q in s.qs && ParentLives(s, q)
    ensures Narrows(s, Finish(s, q))
  {
    CompleteRootNarrows(s, q);
    if s.qs[q].parent.Some? {
      var p := s.qs[q].parent.value;
      var t := Unqueue(s, p);
      UnqueueNarrows(s, p);
      DropNarrows(t, {q});
      NarrowsTrans(s, t, Drop(t, {q}));
      assert p in Drop(t, {q}).qs;
      RunCallbackNarrows(Drop(t, {q}), p, s.qs[q]);
      NarrowsTrans(s, Drop(t, {q}), Finish(s, q));
    }
  }

  /** Whatever a failing query and the callback of its parent do, nobody starts to wait. */
  lemma FailNarrows(s: St, q: QId, st: Status)
    requires q in s.qs && ParentLives(s, q)
    ensures Narrows(s, Fail(s, q, st))
  {
    hide Finish;
    var t := Set(s, q, WithStatus(s.qs[q], st));
    SetNarrows(s, q, WithStatus(s.qs[q], st));
    FinishNarrows(t, q);
    NarrowsTrans(s, t, Finish(t, q));
  }

  ghost function ExpiredSet(s: St, now: int): set<QId>
  {
    set q | q in s.qs && Waiting(s, q) && s.qs[q].timeout < now
  }

  /** `q` waits again, until `now` at least, and nothing else has changed that matters here. */
  ghost predicate Resent(s: St, t: St, q: QId, now: int)
  {
    t.udpw == s.udpw + [q] && t.tcpw == s.tcpw &&
    forall r :: r in t.qs ==> if r == q then t.qs[r].timeout >= now else r in s.qs && t.qs[r].timeout == s.qs[r].timeout
  }

  lemma SendEffect(cfg: Config, s: St, q: QId, now: int)
    requires ValidConfig(cfg) && q in s.qs && ParentLives(s, q) && q !in s.udpw && q !in s.tcpw
    ensures var t := Send(cfg, s, q, now); Narrows(s, t) || Resent(s, t, q, now)
  {
    hide Fail;
    FailNarrows(s, q, SystemFail);
    FailNarrows(s, q, Timeout);
  }

  lemma ExpireEffect(cfg: Config, s: St, q: QId, now: int)
    requires ValidConfig(cfg) && q in s.qs && ParentLives(s, q)
    ensures var t, u := Unqueue(s, q), Expire(cfg, s, q, now);
            Narrows(s, t) && q !in t.udpw && q !in t.tcpw &&
            (Narrows(t, u) || (s.qs[q].state.Tosend? && Resent(t, u, q, now)))
  {
    var t := Unqueue(s, q);
    assert ParentLives(t, q);
    hide Send;
    hide Fail;
    UnqueueNarrows(s, q);
    SendEffect(cfg, t, q, now);
    FailNarrows(t, q, Timeout);
    hide Narrows;
    hide Resent;
  }

  lemma Shrinks(s: St, t: St, u: St, q: QId, now: int)
    requires q in ExpiredSet(s, now) && Narrows(s, t) && q !in t.udpw && q !in t.tcpw
    requires Narrows(t, u) || Resent(t, u, q, now)
    ensures ExpiredSet(u, now) < ExpiredSet(s, now)
  {
    assert q !in ExpiredSet(u, now);
  }

  /** Acting on an expired query removes it from the expired ones and adds nobody to them. */
  lemma ExpireShrinks(cfg: Config, s: St, q: QId, now: int)
    requires ValidConfig(cfg) && Inv(cfg, s, {}) && q in ExpiredSet(s, now)
    ensures ParentLives(s, q)
    ensures ExpiredSet(Expire(cfg, s, q, now), now) < ExpiredSet(s, now)
    ensures s.qs[q].state.Tcpw? ==> forall r :: r in Expire(cfg, s, q, now).udpw ==> r in s.udpw
  {
    InvParent(cfg, s, q);
    hide Inv;
    ExpireEffect(cfg, s, q, now);
    hide Expire;
    Shrinks(s, Unqueue(s, q), Expire(cfg, s, q, now), q, now);
    hide ExpiredSet;
  }
}
