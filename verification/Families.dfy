/** How dropping a family decomposes into the unlinking steps that the source makes. */
module Families {
  import opened Basics
  import opened LifeCycle
  import opened Steps

  lemma {:induction false} WithoutTwice(s: seq<QId>, a: set<QId>, b: set<QId>)
    ensures Without(Without(s, a), b) == Without(s, a + b)
  {
    if s != [] {
      WithoutTwice(s[1..], a, b);
    }
  }

  lemma DropNothing(s: St)
    ensures Drop(s, {}) == s
  {
    WithoutNone(s.udpw, {});
    WithoutNone(s.tcpw, {});
    WithoutNone(s.childw, {});
    WithoutNone(s.output, {});
    forall q | q in s.qs ensures s.qs[q].(children := Without(s.qs[q].children, {})) == s.qs[q] {
      WithoutNone(s.qs[q].children, {});
    }
    assert Drop(s, {}).qs == s.qs;
  }

  lemma DropTwiceMap(s: St, a: set<QId>, b: set<QId>)
    ensures Drop(Drop(s, a), b).qs == Drop(s, a + b).qs
  {
    hide Without;
    var t, u := Drop(Drop(s, a), b).qs, Drop(s, a + b).qs;
    assert t.Keys == u.Keys;
    forall q | q in t ensures t[q] == u[q] {
      WithoutTwice(s.qs[q].children, a, b);
    }
  }

  lemma DropTwice(s: St, a: set<QId>, b: set<QId>)
    ensures Drop(Drop(s, a), b) == Drop(s, a + b)
  {
    hide Without;
    DropTwiceMap(s, a, b);
    WithoutTwice(s.udpw, a, b);
    WithoutTwice(s.tcpw, a, b);
    WithoutTwice(s.childw, a, b);
    WithoutTwice(s.output, a, b);
  }

  function Queue(s: St, st: QState): seq<QId>
  {
    match st
    case Tosend => s.udpw
    case Tcpw => s.tcpw
    case Childw => s.childw
    case Done => s.output
  }

  function WithQueue(s: St, st: QState, queue: seq<QId>): St
  {
    match st
    case Tosend => s.(udpw := queue)
    case Tcpw => s.(tcpw := queue)
    case Childw => s.(childw := queue)
    case Done => s.(output := queue)
  }

  function LeaveQueue(s: St, st: QState, q: QId): St { WithQueue(s, st, Without(Queue(s, st), {q})) }

  function JoinQueue(s: St, st: QState, q: QId): St { WithQueue(s, st, Queue(s, st) + [q]) }

  /** A query that is not being processed is on the queue of its state and on no other. */
  lemma LeaveQueueIs(cfg: Config, s: St, off: set<QId>, q: QId)
    requires ValidConfig(cfg) && Inv(cfg, s, off) && q in s.qs && q !in off
    ensures q in Queue(s, s.qs[q].state) && LeaveQueue(s, s.qs[q].state, q) == Unqueue(s, q)
  {
    if q !in s.udpw { WithoutNone(s.udpw, {q}); }
    if q !in s.tcpw { WithoutNone(s.tcpw, {q}); }
    if q !in s.childw { WithoutNone(s.childw, {q}); }
    if q !in s.output { WithoutNone(s.output, {q}); }
  }

  ghost predicate OnNoQueue(s: St, q: QId) { forall st :: q !in Queue(s, st) }

  /** A query that is being processed, and one that does not exist, is on no queue. */
  lemma OffQueues(cfg: Config, s: St, off: set<QId>, q: QId)
    requires ValidConfig(cfg) && Inv(cfg, s, off) && (q in off || q !in s.qs)
    ensures OnNoQueue(s, q)
  {
  }

  lemma LeaveAfterSet(s: St, q: QId, x: Query, st: QState, r: QId)
    ensures Queue(Set(s, q, x), st) == Queue(s, st) &&
            LeaveQueue(Set(s, q, x), st, r) == Set(LeaveQueue(s, st, r), q, x)
  {
  }

  /** Only linking puts a query on a queue. */
  lemma StillOnNoQueue(s: St, t: St, q: QId)
    requires OnNoQueue(s, q) && t.udpw == s.udpw && t.tcpw == s.tcpw && t.childw == s.childw && t.output == s.output
    ensures OnNoQueue(t, q)
  {
    forall st ensures q !in Queue(t, st) {
      assert Queue(t, st) == Queue(s, st);
    }
  }

  /** Unlinking a childless query from its parent and freeing it. */
  function FreeChild(s: St, p: QId, q: QId): St
    requires p in s.qs
  {
    s.(qs := s.qs[p := s.qs[p].(children := Without(s.qs[p].children, {q}))] - {q})
  }

  /** A query is in the list of children of its parent only. */
  lemma OnlyInParent(cfg: Config, s: St, off: set<QId>, q: QId)
    requires ValidConfig(cfg) && Inv(cfg, s, off) && q in s.qs
    ensures OnlyChildOf(s, s.qs[q].parent, q)
  {
    forall r | r in s.qs && s.qs[q].parent != Some(r)
      ensures Without(s.qs[r].children, {q}) == s.qs[r].children
    {
      InvAt(cfg, s, off, r);
      WithoutNone(s.qs[r].children, {q});
    }
  }

  lemma ParentIs(cfg: Config, s: St, off: set<QId>, q: QId, p: QId)
    requires ValidConfig(cfg) && Inv(cfg, s, off) && q in s.qs && s.qs[q].parent == Some(p)
    ensures p in s.qs && p != q && s.qs[q].children == [] && s.qs[p].parent.None?
  {
    InvAt(cfg, s, off, q);
  }

  /** No list of children but that of `p` holds `q`. */
  ghost predicate OnlyChildOf(s: St, p: Option<QId>, q: QId)
  {
    forall r :: r in s.qs && p != Some(r) ==> Without(s.qs[r].children, {q}) == s.qs[r].children
  }

  lemma FreeChildMap(s: St, p: QId, q: QId)
    requires p in s.qs && p != q && OnlyChildOf(s, Some(p), q)
    ensures FreeChild(s, p, q).qs == Drop(s, {q}).qs
  {
    hide Without;
    var t, u := FreeChild(s, p, q).qs, Drop(s, {q}).qs;
    assert t.Keys == u.Keys;
    forall r | r in u ensures t[r] == u[r] {}
  }

  lemma FreeChildIs(cfg: Config, s: St, off: set<QId>, p: QId, q: QId)
    requires ValidConfig(cfg) && Inv(cfg, s, off) && q in s.qs && s.qs[q].parent == Some(p)
    ensures p in s.qs && p != q && q in s.qs[p].children && FreeChild(Unqueue(s, q), p, q) == Drop(s, {q})
  {
    InvAt(cfg, s, off, q);
    hide Inv;
    ParentIs(cfg, s, off, q, p);
    OnlyInParent(cfg, s, off, q);
    FreeChildMap(s, p, q);
    hide Without;
  }

  lemma FreeRootMap(s: St, q: QId)
    requires OnlyChildOf(s, None, q)
    ensures s.qs - {q} == Drop(s, {q}).qs
  {
  }

  lemma DropMinus(s: St, q: QId, d: set<QId>)
    ensures Drop(s, d).qs - {q} == Drop(s.(qs := s.qs - {q}), d).qs
  {
  }

  /** Freeing a parentless query whose children are gone. */
  lemma FreeRootIs(cfg: Config, s: St, q: QId)
    requires ValidConfig(cfg) && Inv(cfg, s, {}) && q in s.qs && s.qs[q].parent.None?
    ensures var t := Drop(Unqueue(s, q), Kids(s, q));
            t.(qs := t.qs - {q}) == Drop(s, {q} + Kids(s, q))
  {
    hide Inv;
    OnlyInParent(cfg, s, {}, q);
    FreeRootMap(s, q);
    var d := Kids(s, q);
    DropMinus(Unqueue(s, q), q, d);
    DropTwice(s, {q}, d);
    hide Kids;
    hide Without;
    hide OnlyChildOf;
    var t := Drop(Unqueue(s, q), d);
    assert Unqueue(s, q).(qs := s.qs - {q}) == Drop(s, {q});
  }

  /** A child that finishes: its parent forgets it and stops waiting (adns/query.c:724-729). */
  lemma LeaveIs(cfg: Config, s: St, q: QId, p: QId)
    requires ValidConfig(cfg) && Inv(cfg, s, {q}) && q in s.qs && s.qs[q].parent == Some(p)
    ensures p in s.qs && p != q && s.qs[q].children == [] && p in s.childw && q in s.qs[p].children &&
            FreeChild(s.(childw := Without(s.childw, {p})), p, q) == Drop(Unqueue(s, p), {q})
  {
    OffQueues(cfg, s, {q}, q);
    assert q !in Queue(s, Tosend) && q !in Queue(s, Tcpw) && q !in Queue(s, Childw) && q !in Queue(s, Done);
    ParentQueue(cfg, s, q, p);
    hide Inv;
    ParentIs(cfg, s, {q}, q, p);
    OnlyInParent(cfg, s, {q}, q);
    var v := Unqueue(s, p);
    WithoutNone(v.udpw, {q});
    WithoutNone(v.tcpw, {q});
    WithoutNone(v.childw, {q});
    WithoutNone(v.output, {q});
    assert OnlyChildOf(v, Some(p), q);
    FreeChildMap(v, p, q);
    hide Without;
    hide OnlyChildOf;
  }

  lemma ParentQueue(cfg: Config, s: St, q: QId, p: QId)
    requires ValidConfig(cfg) && Inv(cfg, s, {q}) && q in s.qs && s.qs[q].parent == Some(p)
    ensures p in s.childw && p in s.qs && q in s.qs[p].children && s.(childw := Without(s.childw, {p})) == Unqueue(s, p)
  {
    InvAt(cfg, s, {q}, q);
    LeaveQueueIs(cfg, s, {q}, p);
  }

  lemma StatusAfterDrop(s: St, q: QId, d: set<QId>, st: Status)
    requires q in s.qs && q !in d
    ensures Drop(Set(s, q, WithStatus(s.qs[q], st)), d) == Set(Drop(s, d), q, WithStatus(Drop(s, d).qs[q], st))
  {
    hide Without;
    assert Drop(Set(s, q, WithStatus(s.qs[q], st)), d).qs == Set(Drop(s, d), q, WithStatus(Drop(s, d).qs[q], st)).qs;
  }

  /** Cancelling the children first makes no difference to failing (adns/query.c:740-745). */
  lemma FailOrder(cfg: Config, s: St, q: QId, st: Status)
    requires ValidConfig(cfg) && Inv(cfg, s, {q}) && q in s.qs && ParentLives(s, q)
    ensures var t := Drop(s, Kids(s, q));
            q in t.qs && ParentLives(t, q) && Finish(Set(t, q, WithStatus(t.qs[q], st)), q) == Fail(s, q, st)
  {
    hide Inv;
    hide Without;
    hide CompleteRoot;
    hide RunCallback;
    PrefixBounds(cfg, s, q);
    KidsOfParented(cfg, s, {q}, q);
    KidsAre(cfg, s, {q}, q);
    hide Drop;
    if s.qs[q].parent.Some? {
      DropNothing(s);
    } else {
      RootFailOrder(s, q, st);
    }
  }

  lemma RootFailOrder(s: St, q: QId, st: Status)
    requires q in s.qs && q !in Kids(s, q) && s.qs[q].parent.None?
    ensures var t := Drop(s, Kids(s, q));
            CompleteRoot(Set(t, q, WithStatus(t.qs[q], st)), q) == CompleteRoot(Set(s, q, WithStatus(s.qs[q], st)), q)
  {
    var d := Kids(s, q);
    var t := Drop(s, d);
    WithoutAll(s.qs[q].children, d);
    var x, y := Set(s, q, WithStatus(s.qs[q], st)), Set(t, q, WithStatus(t.qs[q], st));
    assert Kids(x, q) == d && Kids(y, q) == {} && d - {q} == d && {} - {q} == {};
    StatusAfterDrop(s, q, d, st);
    DropNothing(y);
    hide Drop;
    hide Kids;
    hide WithStatus;
  }

  // ---------- Cancelling the children one by one ----------

  function SetOf(s: seq<QId>): set<QId> { set q | q in s }

  lemma {:induction false} WithoutPrefix(s: seq<QId>, j: nat)
    requires NoDup(s) && j <= |s|
    ensures Without(s, SetOf(s[..j])) == s[j..]
  {
    if j == 0 {
      WithoutNone(s, SetOf(s[..0]));
    } else {
      var t := s[1..];
      WithoutPrefix(t, j - 1);
      assert forall q :: q in t ==> q !in {s[0]};
      hide NoDup;
      hide Without;
      SetOfPrefix(s, j);
      WithoutAlso(t, s[0], SetOf(t[..j - 1]));
      WithoutHead(s, SetOf(s[..j]));
      hide SetOf;
      assert s[j..] == t[j - 1..];
    }
  }

  lemma SetOfPrefix(s: seq<QId>, j: nat)
    requires 0 < j <= |s|
    ensures SetOf(s[..j]) == {s[0]} + SetOf(s[1..][..j - 1])
  {
    assert s[..j] == [s[0]] + s[1..][..j - 1];
  }

  lemma WithoutHead(s: seq<QId>, d: set<QId>)
    requires s != [] && s[0] in d
    ensures Without(s, d) == Without(s[1..], d)
  {
  }

  lemma {:induction false} WithoutAlso(s: seq<QId>, q: QId, d: set<QId>)
    requires q !in s
    ensures Without(s, {q} + d) == Without(s, d)
  {
    if s != [] {
      WithoutAlso(s[1..], q, d);
    }
  }

  lemma SomeKidsDroppable(cfg: Config, s: St, q: QId, d: set<QId>)
    requires ValidConfig(cfg) && Inv(cfg, s, {q}) && q in s.qs && d <= Kids(s, q)
    ensures q !in d && Droppable(s, {q}, d)
  {
    KidsAre(cfg, s, {q}, q);
  }

  lemma PrefixOfKids(cfg: Config, s: St, q: QId, j: nat)
    requires ValidConfig(cfg) && Inv(cfg, s, {q}) && q in s.qs && j <= |s.qs[q].children|
    ensures var kids := s.qs[q].children;
            SetOf(kids[..j]) <= Kids(s, q) && Without(kids, SetOf(kids[..j])) == kids[j..]
  {
    InvAt(cfg, s, {q}, q);
    hide Inv;
    hide Fields;
    WithoutPrefix(s.qs[q].children, j);
  }

  lemma DropSomeKids(cfg: Config, s: St, q: QId, d: set<QId>)
    requires ValidConfig(cfg) && Inv(cfg, s, {q}) && q in s.qs && d <= Kids(s, q)
    ensures Inv(cfg, Drop(s, d), {q}) && q !in d
  {
    hide Inv;
    SomeKidsDroppable(cfg, s, q, d);
    hide Droppable;
    hide Drop;
    hide Kids;
    DropKeeps(cfg, s, {q}, d);
    assert {q} - d == {q};
  }

  /** After the first `j` children of `q` have been cancelled. */
  lemma DropPrefix(cfg: Config, s: St, q: QId, j: nat)
    requires ValidConfig(cfg) && Inv(cfg, s, {q}) && q in s.qs && j <= |s.qs[q].children|
    ensures var kids, t := s.qs[q].children, Drop(s, SetOf(s.qs[q].children[..j]));
            Inv(cfg, t, {q}) && q in t.qs && t.qs[q] == s.qs[q].(children := kids[j..])
  {
    hide Inv;
    hide Kids;
    hide SetOf;
    hide Without;
    PrefixOfKids(cfg, s, q, j);
    DropSomeKids(cfg, s, q, SetOf(s.qs[q].children[..j]));
  }

  lemma SetOfNext(kids: seq<QId>, j: nat)
    requires j < |kids|
    ensures SetOf(kids[..j]) + {kids[j]} == SetOf(kids[..j + 1])
  {
    assert kids[..j + 1] == kids[..j] + [kids[j]];
  }

  lemma NextKid(cfg: Config, s: St, q: QId, j: nat)
    requires ValidConfig(cfg) && Inv(cfg, s, {q}) && q in s.qs && j < |s.qs[q].children|
    ensures var kids := s.qs[q].children;
            var k, t := kids[j], Drop(s, SetOf(kids[..j]));
            k != q && k in t.qs && t.qs[k].parent == Some(q) && Kids(t, k) == {} &&
            Drop(t, {k} + Kids(t, k)) == Drop(s, SetOf(kids[..j + 1]))
  {
    hide Inv;
    hide Drop;
    hide SetOf;
    var kids := s.qs[q].children;
    var k, d := kids[j], SetOf(kids[..j]);
    SetOfNext(kids, j);
    DropTwice(s, d, {k});
    DropPrefix(cfg, s, q, j);
    FirstKid(cfg, Drop(s, d), q);
    assert Drop(s, d).qs[q].children[0] == k;
  }

  lemma FirstKid(cfg: Config, s: St, q: QId)
    requires ValidConfig(cfg) && Inv(cfg, s, {q}) && q in s.qs && s.qs[q].children != []
    ensures var k := s.qs[q].children[0];
            k != q && k in s.qs && s.qs[k].parent == Some(q) && Kids(s, k) == {} && {k} + Kids(s, k) == {k}
  {
    KidsAre(cfg, s, {q}, q);
    assert s.qs[q].children[0] in s.qs[q].children;
  }

  /** Before the first child is cancelled, and behind the last one. */
  lemma PrefixBounds(cfg: Config, s: St, q: QId)
    requires ValidConfig(cfg) && Inv(cfg, s, {q}) && q in s.qs
    ensures var kids := s.qs[q].children;
            Drop(s, SetOf(kids[..0])) == s && Drop(s, SetOf(kids[..|kids|])) == Drop(s, Kids(s, q)) &&
            Inv(cfg, Drop(s, Kids(s, q)), {q}) && q in Drop(s, Kids(s, q)).qs &&
            Drop(s, Kids(s, q)).qs[q] == s.qs[q].(children := [])
  {
    hide Inv;
    hide Drop;
    hide Without;
    var kids := s.qs[q].children;
    assert kids[..0] == [] && kids[..|kids|] == kids && SetOf(kids) == Kids(s, q) && SetOf(kids[..0]) == {};
    assert kids[|kids|..] == [];
    DropNothing(s);
    DropPrefix(cfg, s, q, |kids|);
  }

  /** The next child to cancel is the first one left. */
  lemma NextToCancel(cfg: Config, s: St, q: QId, j: nat)
    requires ValidConfig(cfg) && Inv(cfg, s, {q}) && q in s.qs && j < |s.qs[q].children|
    ensures var kids := s.qs[q].children;
            var k, t := kids[j], Drop(s, SetOf(kids[..j]));
            q in t.qs && t.qs[q].children == kids[j..] && t.qs[q].children[0] == k && k != q && k in t.qs &&
            t.qs[k].parent == Some(q) && Drop(t, {k} + Kids(t, k)) == Drop(s, SetOf(kids[..j + 1])) &&
            (j + 1 < |kids| ==> t.qs[q].children[1] == kids[j + 1]) && |t.qs[q].children| == |kids| - j
  {
    hide Inv;
    hide Drop;
    hide SetOf;
    hide Kids;
    NextKid(cfg, s, q, j);
    DropPrefix(cfg, s, q, j);
  }

  lemma KidsOfParented(cfg: Config, s: St, off: set<QId>, q: QId)
    requires ValidConfig(cfg) && q in s.qs && Inv(cfg, s, off)
    ensures s.qs[q].parent.Some? ==> s.qs[q].children == [] && Kids(s, q) == {}
  {
    InvAt(cfg, s, off, q);
  }

  /** Completion behind cancel_children. */
  lemma FinishIs(cfg: Config, s: St, q: QId)
    requires ValidConfig(cfg) && Inv(cfg, s, {q}) && q in s.qs && ParentLives(s, q)
    ensures var t := Drop(s, Kids(s, q));
            if s.qs[q].parent.Some? then t == s
            else q in t.qs && Finish(s, q) == Enqueue(Set(t, q, Completed(t.qs[q])), q)
  {
    hide Inv;
    hide Drop;
    hide Completed;
    KidsOfParented(cfg, s, {q}, q);
    DropNothing(s);
    DropKids(cfg, s, q);
    PrefixBounds(cfg, s, q);
    assert Kids(s, q) - {q} == Kids(s, q);
  }

  lemma CancelChildKeeps(cfg: Config, s: St, p: QId, q: QId)
    requires ValidConfig(cfg) && Inv(cfg, s, {p}) && q in s.qs && q != p && s.qs[q].parent == Some(p)
    ensures Inv(cfg, Drop(s, {q}), {p})
  {
    hide Inv;
    hide Fields;
    InvAt(cfg, s, {p}, q);
    assert Droppable(s, {p}, {q});
    hide Links;
    hide Drop;
    DropKeeps(cfg, s, {p}, {q});
    assert {p} - {q} == {p};
  }

  /** A query that does not exist yet is nobody's child. */
  lemma NobodysChild(cfg: Config, s: St, off: set<QId>, c: QId)
    requires ValidConfig(cfg) && Inv(cfg, s, off) && c !in s.qs
    ensures forall q :: q in s.qs ==> c !in s.qs[q].children
  {
    forall q | q in s.qs ensures c !in s.qs[q].children {
      InvAt(cfg, s, off, q);
    }
  }
}
