/** What adns__consistency asserts of the queries (adns/check.c:75-195). That the pointers it walks along are well
    formed is shown where the lists are kept (Dlists, Resolvers). */
module Checks {
  import opened Basics
  import opened LifeCycle
  import opened Runs
  import opened Rooms

  /** checkc_query (adns/check.c:75-85). */
  ghost predicate CheckedQuery(cfg: Config, s: St, q: QId)
    requires q in s.qs
  {
    var x := s.qs[q];
    x.udpnextserver < cfg.nservers && (forall v: nat :: v in x.udpsent ==> v < cfg.nservers) &&
    x.searchPos <= |cfg.searchlist| &&
    (x.parent.Some? ==> x.parent.value in s.qs && q in s.qs[x.parent.value].children)
  }

  /** What adns__consistency asserts of the queries on one queue (adns/check.c:129-195). */
  ghost predicate CheckedOn(cfg: Config, s: St, q: QId, st: QState)
  {
    q in s.qs && s.qs[q].state == st && CheckedQuery(cfg, s, q) &&
    var x := s.qs[q];
    match st
    case Tosend => x.retries <= UDPMAXRETRIES && x.udpsent != {} && x.children == []
    case Tcpw => x.children == [] && x.retries <= cfg.nservers + 1
    case Childw =>
      x.children != [] && forall c :: c in x.children ==> c in s.qs && s.qs[c].parent == Some(q) && !s.qs[c].state.Done?
    case Done => x.children == [] && x.parent.None? && x.allocations == 0
  }

  lemma CheckHolds(cfg: Config, s: St, q: QId)
    requires ValidConfig(cfg) && Inv(cfg, s, {}) && NoTcp(s) && q in s.qs
    ensures CheckedOn(cfg, s, q, s.qs[q].state)
  {
    InvAt(cfg, s, {}, q);
    EveryName(s, q);
    var x := s.qs[q];
    assert x.udpnextserver < cfg.nservers by {
      assert |x.sent| % cfg.nservers < cfg.nservers;
    }
    if x.state.Tosend? {
      assert 0 in x.udpsent;
    }
    forall c | c in x.children ensures c in s.qs && s.qs[c].parent == Some(q) && !s.qs[c].state.Done? {
      InvAt(cfg, s, {}, c);
    }
  }

  /** None of the assertions about the queues fails in any state of any run. */
  lemma ConsistencyHolds(cfg: Config, events: seq<Event>, s: St)
    requires ValidConfig(cfg) && Reaches(cfg, INITIAL, events, s)
    ensures forall q :: q in s.udpw ==> CheckedOn(cfg, s, q, Tosend)
    ensures forall q :: q in s.tcpw ==> CheckedOn(cfg, s, q, Tcpw)
    ensures forall q :: q in s.childw ==> CheckedOn(cfg, s, q, Childw)
    ensures forall q :: q in s.output ==> CheckedOn(cfg, s, q, Done)
  {
    EveryRun(cfg, events, s);
    RunsWithoutTcp(cfg, INITIAL, events, s);
    QueuesHold(cfg, s);
    hide Inv;
    hide CheckedOn;
    forall q | q in s.qs ensures CheckedOn(cfg, s, q, s.qs[q].state) {
      CheckHolds(cfg, s, q);
    }
  }

  lemma QueuesHold(cfg: Config, s: St)
    requires ValidConfig(cfg) && Inv(cfg, s, {})
    ensures forall q :: q in s.udpw ==> q in s.qs && s.qs[q].state.Tosend?
    ensures forall q :: q in s.tcpw ==> q in s.qs && s.qs[q].state.Tcpw?
    ensures forall q :: q in s.childw ==> q in s.qs && s.qs[q].state.Childw?
    ensures forall q :: q in s.output ==> q in s.qs && s.qs[q].state.Done?
  {
  }
}
