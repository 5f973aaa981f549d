/** Queries, their queues and their family links: the state of adns (adns/internal.h:180-316), the
    invariant that adns/check.c:61-195 asserts, and the few changes everything else is made of. */
module LifeCycle {
  import opened Basics
  import opened Texts
  import opened Records
  import opened Queries
  import opened Reverses

  /** A query's address. Addresses are never reused. */
  type QId = nat

  datatype QState = Tosend | Tcpw | Childw | Done

  datatype Callback = NoCallback | IcbHostaddr | IcbPtr

  datatype Flags = Flags(search: bool, usevc: bool, owner: bool, quoteokQuery: bool, quoteokAnshost: bool,
                         quotefailCname: bool, cnameLoose: bool, cnameForbid: bool)

  /** A record of an answer: an address, a domain name, a host with its addresses, a name with a preference, strings,
      two names, or the start of a zone. */
  datatype Stored =
    | Address(addr: seq<Byte>)
    | Domain(text: seq<Byte>)
    | Host(pref: nat, host: seq<Byte>, astatus: Status, naddrs: int, addrs: seq<Stored>)
    | Preferred(pref: nat, text: seq<Byte>)
    | Strings(strs: seq<seq<Byte>>)
    | Pair(first: seq<Byte>, second: seq<Byte>)
    | Soa(mname: seq<Byte>, rname: seq<Byte>, numbers: seq<nat>)

  /** What confirmed the name in a record of a PTR answer: the addresses that a child found, and the datagram that it
      was submitted with. */
  datatype Confirmation = Confirmation(found: seq<Stored>, first: seq<Byte>)

  datatype Answer = Answer(status: Status, cname: Option<seq<Byte>>, owner: Option<seq<Byte>>, rrs: seq<Stored>)

  /** One datagram handed to sendto. */
  datatype Sending = Sending(server: nat, time: int)

  datatype Query = Query(
    state: QState,
    parent: Option<QId>,
    children: seq<QId>,
    callback: Callback,
    slot: nat,                     // ctx.info.hostaddr: the record of the parent's answer this child is for
    typ: nat,
    flags: Flags,
    id: int,
    retries: nat,
    udpnextserver: nat,
    udpsent: set<nat>,
    timeout: int,                  // microseconds
    dgram: seq<Byte>,              // query_dgram
    cname: Option<Owner>,          // cname_dgram and cname_begin
    cnameCount: nat,
    searchName: seq<Byte>,         // the first search_origlen bytes of search_vb
    searchVb: seq<Byte>,
    searchPos: nat,
    searchDoneabs: int,
    allocations: nat,              // length of the list
    ptrAddr: Option<seq<Byte>>,    // ctx.info.ptr_parent_addr
    answer: Answer,
    // The rest is history, which only the specification reads.
    sent: seq<Sending>,            // what the network has seen of this query
    resetAt: nat,                  // how much of that it had seen when `retries` was last reset
    aliased: bool,                 // since its name was last chosen it has started again at a CNAME
    confirmed: map<nat, Confirmation>,  // the records of a PTR query that children have confirmed
    asked: seq<Byte>,              // the datagram, when the query was finished
    first: seq<Byte>)              // the datagram that a child was submitted with

  datatype Config = Config(nservers: nat, searchlist: seq<seq<Byte>>, ndots: nat)

  predicate ValidConfig(cfg: Config) { 1 <= cfg.nservers <= MAXSERVERS }

  datatype St = St(udpw: seq<QId>, tcpw: seq<QId>, childw: seq<QId>, output: seq<QId>,
                   qs: map<QId, Query>, nextid: nat, unused: QId)

  const ADDR := 0x10001
  const NS := 0x10002
  const PTR := 0x1000c
  const MX := 0x1000f
  const SOA := 0x20006
  const RP := 0x20011

  /** Record types whose parsers submit child queries (adns/types.c:667-691, 1124-1141). */
  predicate Derefs(typ: nat) { typ == NS || typ == PTR || typ == MX }

  // ---------- The invariant ----------

  predicate NoDup(s: seq<QId>) { forall i, j :: 0 <= i < j < |s| ==> s[i] != s[j] }

  /** Exactly the queries that wait in state `st` are on `queue`, each once. */
  ghost predicate QueueOf(s: St, off: set<QId>, queue: seq<QId>, st: QState)
  {
    NoDup(queue) && forall q :: q in queue <==> q in s.qs && q !in off && s.qs[q].state == st
  }

  /** A child has the callback for the type of its parent; the name of a host must not be an alias, unless the parent
      does not mind (adns/types.c:667-691, 1124-1141). */
  predicate RightChild(x: Query, parent: Query)
  {
    (x.callback.IcbPtr? <==> parent.typ == PTR) &&
    (x.flags.cnameForbid <==> parent.typ != PTR && !parent.flags.cnameLoose)
  }

  /** The host is the name that the datagram asks about. */
  ghost predicate HoldsHost(rr: Stored, quoteok: bool, dgram: seq<Byte>)
  {
    rr.Host? && rr.host == Printed(AskedName(dgram), quoteok, true)
  }

  /** The record holds the name that the datagram asks about. */
  ghost predicate HoldsName(rr: Stored, quoteok: bool, dgram: seq<Byte>)
  {
    rr == Domain(Printed(AskedName(dgram), quoteok, true))
  }

  /** A child's place among the records of its parent: the host, or the name, that it was submitted to ask about. */
  ghost predicate SlotOk(x: Query, parent: Query)
  {
    x.slot < |parent.answer.rrs| &&
    (x.callback.IcbHostaddr? ==> HoldsHost(parent.answer.rrs[x.slot], parent.flags.quoteokAnshost, x.first)) &&
    (x.callback.IcbPtr? ==> HoldsName(parent.answer.rrs[x.slot], parent.flags.quoteokAnshost, x.first))
  }

  ghost predicate SlotsOk(s: St, q: QId)
    requires q in s.qs
  {
    forall c :: c in s.qs[q].children && c in s.qs ==> SlotOk(s.qs[c], s.qs[q])
  }

  /** A child is asking about the record. */
  predicate KidFor(s: St, q: QId, i: nat)
    requires q in s.qs
  {
    exists c :: c in s.qs[q].children && c in s.qs && s.qs[c].slot == i
  }

  /** Types whose records are hosts with their addresses. */
  predicate HasHosts(typ: nat) { typ == NS || typ == MX }

  /** The addresses of a host are known, or why there are none: the number of them is -1 after a temporary failure and
      0 after a permanent one (adns/adns.h:289-294). */
  predicate Resolved(rr: Stored)
  {
    rr.Host? && if rr.astatus == Ok then rr.naddrs == |rr.addrs| > 0
                else rr.naddrs == if TempFail(rr.astatus) then -1 else 0
  }

  /** Every name that a PTR query has found is confirmed, and every host that another has found is resolved, or a
      child is still asking for its addresses. */
  ghost predicate Covered(s: St, q: QId)
    requires q in s.qs
  {
    CoveredBut(s, q, None)
  }

  /** So it is for all records but perhaps this one. */
  ghost predicate CoveredBut(s: St, q: QId, slot: Option<nat>)
    requires q in s.qs
  {
    var rrs := s.qs[q].answer.rrs;
    (s.qs[q].typ == PTR ==>
       forall i: nat :: i < |rrs| && slot != Some(i) ==> i in s.qs[q].confirmed || KidFor(s, q, i)) &&
    (HasHosts(s.qs[q].typ) ==>
       forall i: nat :: i < |rrs| && slot != Some(i) ==> Resolved(rrs[i]) || (rrs[i].Host? && KidFor(s, q, i)))
  }

  ghost predicate Links(s: St, off: set<QId>, q: QId)
    requires q in s.qs
  {
    var x := s.qs[q];
    NoDup(x.children) &&
    (forall c :: c in x.children ==> c in s.qs && s.qs[c].parent == Some(q)) &&
    (x.parent.Some? ==>
       var p := x.parent.value;
       p in s.qs && q in s.qs[p].children && s.qs[p].parent.None? && (p in off || s.qs[p].state.Childw?) &&
       x.children == [] && !x.state.Childw? && !x.state.Done? && RightChild(x, s.qs[p]) &&
       (p in off || SlotOk(x, s.qs[p]))) &&
    (q !in off ==> (x.state.Childw? <==> x.children != [])) && (q !in off && x.state.Childw? ==> Covered(s, q))
  }

  const RETRY := UDPRETRYMS * 1000

  /** Servers are tried in turn, and `udpsent` is the set of those tried. */
  ghost predicate RoundRobin(cfg: Config, x: Query)
    requires ValidConfig(cfg)
  {
    x.udpnextserver == |x.sent| % cfg.nservers &&
    (forall i :: 0 <= i < |x.sent| ==> x.sent[i].server == i % cfg.nservers) &&
    (forall v: nat :: v in x.udpsent <==> v < cfg.nservers && v < |x.sent|)
  }

  /** Since the last reset of `retries`, a query that is not searching has waited for each
      datagram longer than the retry time before it sent the next. */
  ghost predicate Spaced(x: Query)
  {
    x.resetAt + x.retries == |x.sent| &&
    (!x.flags.search ==>
       forall i :: |x.sent| - x.retries <= i && 0 <= i < |x.sent| - 1 ==> x.sent[i].time + RETRY < x.sent[i + 1].time)
  }

  /** A datagram that asks about a name which can be decoded. */
  ghost predicate Question(dg: seq<Byte>) { DNS_HDRSIZE <= |dg| && ValidOwner(Owner(dg, DNS_HDRSIZE)) }

  /** The name that a message asks about. */
  ghost function AskedName(dg: seq<Byte>): seq<Label> { OwnerLabels(Owner(dg, DNS_HDRSIZE)) }

  /** What the datagram of a query asks about: the CNAME it has started again at, the candidate of its search, or
      the name given. */
  ghost predicate Asking(x: Query)
  {
    Question(x.dgram) && Poses(x.dgram, x.id, x.typ) &&
    if x.aliased then x.cname.Some? && AskedName(x.dgram) == OwnerLabels(x.cname.value)
    else if x.flags.search then ReadLabels(x.searchVb, 0, x.flags.quoteokQuery, 0) == Success(AskedName(x.dgram))
    else x.cname.None?
  }

  /** With adns_qf_owner, and only then, an owner is kept: it, or what a search has come to, is the name asked for. */
  ghost predicate Owned(x: Query)
  {
    var dg := if x.state.Done? then x.asked else x.dgram;
    var owner := if x.flags.search then Some(x.searchVb) else x.answer.owner;
    if !x.flags.owner then x.answer.owner.None?
    else
      (dg != [] && !x.aliased ==>
         owner.Some? && ReadLabels(owner.value, 0, x.flags.quoteokQuery, 0) == Success(AskedName(dg))) &&
      (x.state.Done? ==> x.answer.owner == owner)
  }

  /** Every record of a finished PTR answer has been confirmed. */
  predicate Confirmed(x: Query)
  {
    x.typ == PTR && x.answer.status == Ok ==> forall i: nat :: i < |x.answer.rrs| ==> i in x.confirmed
  }

  /** An answer has records if and only if its status is Ok (adns/adns.h:377-379). */
  predicate Conclusive(x: Query) { x.answer.status == Ok <==> x.answer.rrs != [] }

  predicate AllResolved(x: Query)
  {
    HasHosts(x.typ) ==> forall i: nat :: i < |x.answer.rrs| ==> Resolved(x.answer.rrs[i])
  }

  /** A query that can be finished. */
  predicate Final(x: Query) { Confirmed(x) && Conclusive(x) && AllResolved(x) }

  /** A query that waits has had no error yet, and one that waits for children has records. */
  predicate Hopeful(x: Query) { x.answer.status == Ok && (x.state.Childw? ==> x.answer.rrs != []) }

  /** A PTR query that waits for children knows the address that its question spells. */
  ghost predicate Spelled(x: Query)
  {
    x.state.Childw? && x.typ == PTR ==> x.ptrAddr.Some? && x.ptrAddr == Reverse(AskedName(x.dgram))
  }

  /** What confirmed a record held the address that the query is for, and had asked about the name in the record; none
      is confirmed before there are children. */
  ghost predicate Told(x: Query)
  {
    (forall i :: i in x.confirmed ==> x.ptrAddr.Some? && Address(x.ptrAddr.value) in x.confirmed[i].found) &&
    (forall i: nat :: i in x.confirmed && i < |x.answer.rrs| ==>
       HoldsName(x.answer.rrs[i], x.flags.quoteokAnshost, x.confirmed[i].first)) &&
    (x.state.Tosend? || x.state.Tcpw? ==> x.confirmed == map[])
  }

  /** The address of a finished PTR answer is the one that its question spelled. */
  ghost predicate SpelledOut(x: Query)
  {
    x.state.Done? && x.typ == PTR && x.answer.status == Ok && x.answer.rrs != [] ==>
      x.ptrAddr.Some? && x.ptrAddr == Reverse(AskedName(x.asked))
  }

  ghost predicate Fields(cfg: Config, x: Query, off: bool)
    requires ValidConfig(cfg)
  {
    (x.cname.Some? ==> ValidOwner(x.cname.value)) &&
    ((x.state.Tosend? || x.state.Tcpw?) && !off ==> Asking(x) && x.ptrAddr.None?) &&
    Spelled(x) && Told(x) && SpelledOut(x) && Owned(x) &&
    RoundRobin(cfg, x) && Spaced(x) && x.retries <= UDPMAXRETRIES &&
    x.searchPos <= |cfg.searchlist| &&
    (x.parent.Some? <==> !x.callback.NoCallback?) &&
    (x.parent.Some? ==> x.typ == ADDR && !x.flags.search && (!x.aliased ==> x.dgram == x.first)) &&
    (x.children != [] ==> Derefs(x.typ)) &&
    (x.state.Done? ==> x.id == -1 && x.allocations == 0 && x.parent.None? && Final(x)) &&
    (!x.state.Done? && !off ==> 0 <= x.id < 0x1_0000 && Hopeful(x)) &&
    (x.state.Tosend? && !off ==> x.retries > 0 && |x.dgram| <= DNS_MAXUDP &&
                                 x.timeout == x.sent[|x.sent| - 1].time + RETRY)
  }

  /** The invariant while the queries in `off` are being processed and on no queue. */
  ghost predicate Inv(cfg: Config, s: St, off: set<QId>)
    requires ValidConfig(cfg)
  {
    off <= s.qs.Keys &&
    QueueOf(s, off, s.udpw, Tosend) && QueueOf(s, off, s.tcpw, Tcpw) &&
    QueueOf(s, off, s.childw, Childw) && QueueOf(s, off, s.output, Done) &&
    (forall q :: q in s.qs ==> q < s.unused && Links(s, off, q) && Fields(cfg, s.qs[q], q in off))
  }

  // ---------- The changes ----------

  function Without(s: seq<QId>, d: set<QId>): (r: seq<QId>)
    ensures forall q :: q in r <==> q in s && q !in d
  {
    if s == [] then []
    else
      assert forall q :: q in s <==> q == s[0] || q in s[1..];
      if s[0] in d then Without(s[1..], d) else [s[0]] + Without(s[1..], d)
  }

  lemma {:induction false} WithoutNoDup(s: seq<QId>, d: set<QId>)
    requires NoDup(s)
    ensures NoDup(Without(s, d))
  {
    if s != [] {
      WithoutNoDup(s[1..], d);
      assert s[0] !in Without(s[1..], d);
    }
  }

  lemma {:induction false} WithoutNone(s: seq<QId>, d: set<QId>)
    requires forall q :: q in s ==> q !in d
    ensures Without(s, d) == s
  {
    if s != [] {
      WithoutNone(s[1..], d);
    }
  }

  lemma {:induction false} WithoutAll(s: seq<QId>, d: set<QId>)
    requires forall q :: q in s ==> q in d
    ensures Without(s, d) == []
  {
    if s != [] {
      WithoutAll(s[1..], d);
    }
  }

  /** Takes a query off its queue, to process it. */
  function Unqueue(s: St, q: QId): St
  {
    s.(udpw := Without(s.udpw, {q}), tcpw := Without(s.tcpw, {q}),
       childw := Without(s.childw, {q}), output := Without(s.output, {q}))
  }

  /** Puts a query on the tail of the queue of its state. */
  function Enqueue(s: St, q: QId): St
    requires q in s.qs
  {
    match s.qs[q].state
    case Tosend => s.(udpw := s.udpw + [q])
    case Tcpw => s.(tcpw := s.tcpw + [q])
    case Childw => s.(childw := s.childw + [q])
    case Done => s.(output := s.output + [q])
  }

  function Set(s: St, q: QId, x: Query): St { s.(qs := s.qs[q := x]) }

  /** Unlinks the queries in `d` from everything and frees them. */
  function Drop(s: St, d: set<QId>): St
  {
    s.(udpw := Without(s.udpw, d), tcpw := Without(s.tcpw, d),
       childw := Without(s.childw, d), output := Without(s.output, d),
       qs := map q | q in s.qs && q !in d :: s.qs[q].(children := Without(s.qs[q].children, d)))
  }

  /** The parent of a query, if any, is another live query. */
  predicate ParentLives(s: St, q: QId)
    requires q in s.qs
  {
    s.qs[q].parent.Some? ==> s.qs[q].parent.value in s.qs && s.qs[q].parent.value != q
  }

  function Kids(s: St, q: QId): set<QId>
    requires q in s.qs
  {
    set c | c in s.qs[q].children
  }

  /** With a query, `d` holds its children; the parents of those in `d` are in `d` or being processed. */
  ghost predicate Droppable(s: St, off: set<QId>, d: set<QId>)
  {
    forall q :: q in d && q in s.qs ==>
      (forall c :: c in s.qs[q].children ==> c in d) &&
      (s.qs[q].parent.Some? ==> s.qs[q].parent.value in d || s.qs[q].parent.value in off)
  }

  // ---------- What they keep ----------

  lemma UnqueueQueue(s: St, off: set<QId>, q: QId, queue: seq<QId>, st: QState)
    requires QueueOf(s, off, queue, st)
    ensures QueueOf(Unqueue(s, q), off + {q}, Without(queue, {q}), st)
  {
    WithoutNoDup(queue, {q});
  }

  /** A query is as well covered when its children are still for the same records. */
  lemma CoverAlike(s: St, t: St, q: QId)
    requires q in s.qs && q in t.qs && t.qs[q] == s.qs[q]
    requires forall c :: c in s.qs[q].children && c in s.qs ==> c in t.qs && t.qs[c].slot == s.qs[c].slot
    ensures Covered(s, q) ==> Covered(t, q)
  {
    forall i: nat | KidFor(s, q, i) ensures KidFor(t, q, i) {
      var c :| c in s.qs[q].children && c in s.qs && s.qs[c].slot == i;
      assert c in t.qs[q].children && c in t.qs && t.qs[c].slot == i;
    }
    hide Resolved;
  }

  lemma UnqueueLinks(s: St, off: set<QId>, q: QId, r: QId)
    requires r in s.qs && Links(s, off, r)
    ensures Links(Unqueue(s, q), off + {q}, r)
  {
    hide Covered;
    hide HoldsName;
    hide RightChild;
    CoverAlike(s, Unqueue(s, q), r);
  }

  lemma FieldsWhenOff(cfg: Config, x: Query)
    requires ValidConfig(cfg) && Fields(cfg, x, false)
    ensures Fields(cfg, x, true)
  {
  }

  lemma UnqueueKeeps(cfg: Config, s: St, off: set<QId>, q: QId)
    requires ValidConfig(cfg) && Inv(cfg, s, off) && q in s.qs
    ensures Inv(cfg, Unqueue(s, q), off + {q})
  {
    hide QueueOf;
    hide Links;
    hide Fields;
    hide Without;
    UnqueueQueue(s, off, q, s.udpw, Tosend);
    UnqueueQueue(s, off, q, s.tcpw, Tcpw);
    UnqueueQueue(s, off, q, s.childw, Childw);
    UnqueueQueue(s, off, q, s.output, Done);
    var t := Unqueue(s, q);
    forall r | r in t.qs ensures Links(t, off + {q}, r) && Fields(cfg, t.qs[r], r in off + {q}) {
      UnqueueLinks(s, off, q, r);
      if r == q && q !in off {
        FieldsWhenOff(cfg, s.qs[q]);
      }
    }
  }

  lemma EnqueueQueue(s: St, off: set<QId>, q: QId, queue: seq<QId>, st: QState)
    requires q in off && q in s.qs && QueueOf(s, off, queue, st)
    ensures QueueOf(Enqueue(s, q), off - {q}, if s.qs[q].state == st then queue + [q] else queue, st)
  {
  }

  lemma EnqueueQueues(s: St, off: set<QId>, q: QId)
    requires q in off && q in s.qs
    requires QueueOf(s, off, s.udpw, Tosend) && QueueOf(s, off, s.tcpw, Tcpw) &&
             QueueOf(s, off, s.childw, Childw) && QueueOf(s, off, s.output, Done)
    ensures var t, o := Enqueue(s, q), off - {q};
            QueueOf(t, o, t.udpw, Tosend) && QueueOf(t, o, t.tcpw, Tcpw) &&
            QueueOf(t, o, t.childw, Childw) && QueueOf(t, o, t.output, Done)
  {
    hide QueueOf;
    EnqueueQueue(s, off, q, s.udpw, Tosend);
    EnqueueQueue(s, off, q, s.tcpw, Tcpw);
    EnqueueQueue(s, off, q, s.childw, Childw);
    EnqueueQueue(s, off, q, s.output, Done);
  }

  lemma EnqueueLinks(s: St, off: set<QId>, q: QId, r: QId)
    requires q in off && q in s.qs && r in s.qs && Links(s, off, r)
    requires (s.qs[q].state.Childw? <==> s.qs[q].children != []) && SlotsOk(s, q)
    requires s.qs[q].state.Childw? ==> Covered(s, q)
    requires forall p :: p in s.qs ==> Links(s, off, p)
    ensures Links(Enqueue(s, q), off - {q}, r)
  {
    hide Covered;
    hide HoldsName;
    hide RightChild;
    var t := Enqueue(s, q);
    assert t.qs == s.qs;
    CoverAlike(s, t, r);
    if s.qs[r].parent == Some(q) {
      assert r in s.qs[q].children;
    }
  }

  lemma EnqueueKeeps(cfg: Config, s: St, off: set<QId>, q: QId)
    requires ValidConfig(cfg) && Inv(cfg, s, off) && q in off && Fields(cfg, s.qs[q], false)
    requires (s.qs[q].state.Childw? <==> s.qs[q].children != []) && SlotsOk(s, q)
    requires s.qs[q].state.Childw? ==> Covered(s, q)
    ensures Inv(cfg, Enqueue(s, q), off - {q})
  {
    hide QueueOf;
    hide Fields;
    hide Links;
    EnqueueQueues(s, off, q);
    var t, o := Enqueue(s, q), off - {q};
    forall r | r in t.qs ensures Links(t, o, r) && Fields(cfg, t.qs[r], r in o) {
      EnqueueLinks(s, off, q, r);
    }
  }

  /** The same place in the family. */
  predicate SameKin(x: Query, y: Query)
  {
    x.parent == y.parent && x.children == y.children && x.slot == y.slot && x.callback == y.callback &&
    x.typ == y.typ && x.first == y.first && x.flags.cnameForbid == y.flags.cnameForbid &&
    x.flags.cnameLoose == y.flags.cnameLoose
  }

  lemma SetQueue(s: St, off: set<QId>, q: QId, x: Query, queue: seq<QId>, st: QState)
    requires q in off && q in s.qs && QueueOf(s, off, queue, st)
    ensures QueueOf(Set(s, q, x), off, queue, st)
  {
  }

  lemma SetLinks(s: St, off: set<QId>, q: QId, x: Query, r: QId)
    requires q in off && q in s.qs && r in s.qs && Links(s, off, r) && Links(s, off, q)
    requires SameKin(x, s.qs[q])
    requires x.parent.Some? ==> x.state.Tosend? || x.state.Tcpw?
    ensures Links(Set(s, q, x), off, r)
  {
    hide Covered;
    hide HoldsName;
    var t := Set(s, q, x);
    assert forall c :: c in s.qs ==>
             c in t.qs && t.qs[c].parent == s.qs[c].parent && t.qs[c].children == s.qs[c].children;
    if r !in off {
      CoverAlike(s, t, r);
    }
  }

  lemma SetKeeps(cfg: Config, s: St, off: set<QId>, q: QId, x: Query)
    requires ValidConfig(cfg) && Inv(cfg, s, off) && q in off && Fields(cfg, x, true)
    requires SameKin(x, s.qs[q])
    requires x.parent.Some? ==> x.state.Tosend? || x.state.Tcpw?
    ensures Inv(cfg, Set(s, q, x), off)
  {
    hide QueueOf;
    hide Fields;
    hide Links;
    SetQueue(s, off, q, x, s.udpw, Tosend);
    SetQueue(s, off, q, x, s.tcpw, Tcpw);
    SetQueue(s, off, q, x, s.childw, Childw);
    SetQueue(s, off, q, x, s.output, Done);
    var t := Set(s, q, x);
    forall r | r in t.qs ensures Links(t, off, r) && Fields(cfg, t.qs[r], r in off) {
      SetLinks(s, off, q, x, r);
    }
  }

  lemma DropLinks(cfg: Config, s: St, off: set<QId>, d: set<QId>, r: QId)
    requires ValidConfig(cfg) && Inv(cfg, s, off) && r in s.qs && r !in d
    requires Droppable(s, off, d)
    ensures r in Drop(s, d).qs && Links(Drop(s, d), off - d, r)
    ensures r !in off ==> Drop(s, d).qs[r] == s.qs[r]
  {
    hide QueueOf;
    hide Fields;
    hide Without;
    hide Covered;
    hide HoldsName;
    hide HoldsHost;
    var x := s.qs[r];
    assert Links(s, off, r);
    WithoutNoDup(x.children, d);
    if x.parent.Some? {
      assert Links(s, off, x.parent.value) && r in s.qs[x.parent.value].children;
      WithoutNone(x.children, d);
    }
    if r !in off {
      assert forall c :: c in x.children ==> s.qs[c].parent == Some(r) && c !in d;
      WithoutNone(x.children, d);
      CoverAlike(s, Drop(s, d), r);
    }
  }

  lemma DropFields(cfg: Config, s: St, d: set<QId>, r: QId, off: bool)
    requires ValidConfig(cfg) && r in s.qs && r !in d && Fields(cfg, s.qs[r], off)
    ensures Fields(cfg, Drop(s, d).qs[r], off)
  {
    hide Fields;
    var x := s.qs[r];
    var y := Without(x.children, d);
    assert Drop(s, d).qs[r] == x.(children := y);
    if y != [] {
      assert y[0] in x.children;
    }
    hide Drop;
    hide Without;
    FewerChildrenFields(cfg, x, y, off);
  }

  lemma FewerChildrenFields(cfg: Config, x: Query, children: seq<QId>, off: bool)
    requires ValidConfig(cfg) && Fields(cfg, x, off) && (children != [] ==> x.children != [])
    ensures Fields(cfg, x.(children := children), off)
  {
    hide HoldsName;
    hide Resolved;
    hide Question;
    hide Poses;
    hide AskedName;
    hide ReadLabels;
    var y := x.(children := children);
    assert RoundRobin(cfg, y) && Spaced(y);
    hide RoundRobin;
    hide Spaced;
    assert Told(y) && Owned(y);
    hide Told;
    hide Owned;
    assert Final(x) ==> Final(y);
    hide Final;
  }

  lemma DropQueue(s: St, off: set<QId>, d: set<QId>, queue: seq<QId>, st: QState)
    requires QueueOf(s, off, queue, st)
    ensures QueueOf(Drop(s, d), off - d, Without(queue, d), st)
  {
    WithoutNoDup(queue, d);
  }

  /** Freeing whole families, or children of queries being processed, keeps the invariant. */
  lemma DropKeeps(cfg: Config, s: St, off: set<QId>, d: set<QId>)
    requires ValidConfig(cfg) && Inv(cfg, s, off)
    requires Droppable(s, off, d)
    ensures Inv(cfg, Drop(s, d), off - d)
  {
    hide Links;
    hide Fields;
    hide QueueOf;
    hide Without;
    DropQueue(s, off, d, s.udpw, Tosend);
    DropQueue(s, off, d, s.tcpw, Tcpw);
    DropQueue(s, off, d, s.childw, Childw);
    DropQueue(s, off, d, s.output, Done);
    var t, o := Drop(s, d), off - d;
    forall r | r in t.qs ensures r < t.unused && Links(t, o, r) && Fields(cfg, t.qs[r], r in o) {
      DropLinks(cfg, s, off, d, r);
      DropFields(cfg, s, d, r, r in off);
    }
  }

  // ---------- New queries ----------

  function Add(s: St, x: Query): St { s.(qs := s.qs[s.unused := x], unused := s.unused + 1) }

  /** A new child of `p`, already sent, so waiting on the UDP queue. */
  function AddKid(s: St, p: QId, x: Query): St
    requires p in s.qs
  {
    var c := s.unused;
    s.(qs := s.qs[p := s.qs[p].(children := s.qs[p].children + [c])][c := x.(parent := Some(p))],
       udpw := s.udpw + [c], unused := c + 1)
  }

  lemma AddQueue(s: St, off: set<QId>, x: Query, queue: seq<QId>, st: QState)
    requires QueueOf(s, off, queue, st) && s.unused !in s.qs
    ensures QueueOf(Add(s, x), off + {s.unused}, queue, st)
  {
  }

  lemma AddQueues(s: St, x: Query)
    requires s.unused !in s.qs
    requires QueueOf(s, {}, s.udpw, Tosend) && QueueOf(s, {}, s.tcpw, Tcpw) &&
             QueueOf(s, {}, s.childw, Childw) && QueueOf(s, {}, s.output, Done)
    ensures var t, off := Add(s, x), {s.unused};
            QueueOf(t, off, t.udpw, Tosend) && QueueOf(t, off, t.tcpw, Tcpw) &&
            QueueOf(t, off, t.childw, Childw) && QueueOf(t, off, t.output, Done)
  {
    AddQueue(s, {}, x, s.udpw, Tosend);
    AddQueue(s, {}, x, s.tcpw, Tcpw);
    AddQueue(s, {}, x, s.childw, Childw);
    AddQueue(s, {}, x, s.output, Done);
    assert {} + {s.unused} == {s.unused};
    hide QueueOf;
  }

  lemma AddLinks(s: St, x: Query, r: QId)
    requires s.unused !in s.qs && x.parent.None? && x.children == [] && r in Add(s, x).qs
    requires r in s.qs ==> Links(s, {}, r)
    ensures Links(Add(s, x), {s.unused}, r)
  {
  }

  lemma AddKeeps(cfg: Config, s: St, x: Query)
    requires ValidConfig(cfg) && Inv(cfg, s, {}) && x.parent.None? && x.children == [] && Fields(cfg, x, true)
    ensures Inv(cfg, Add(s, x), {s.unused})
  {
    hide QueueOf;
    hide Fields;
    hide Links;
    var q, t := s.unused, Add(s, x);
    AddQueues(s, x);
    forall r | r in t.qs ensures r < t.unused && Links(t, {q}, r) && Fields(cfg, t.qs[r], r in {q}) {
      AddLinks(s, x, r);
    }
  }

  lemma AddKidQueues(s: St, p: QId, x: Query)
    requires p in s.qs && s.unused !in s.qs && x.state.Tosend?
    requires QueueOf(s, {p}, s.udpw, Tosend) && QueueOf(s, {p}, s.tcpw, Tcpw) &&
             QueueOf(s, {p}, s.childw, Childw) && QueueOf(s, {p}, s.output, Done)
    ensures var t := AddKid(s, p, x);
            QueueOf(t, {p}, t.udpw, Tosend) && QueueOf(t, {p}, t.tcpw, Tcpw) &&
            QueueOf(t, {p}, t.childw, Childw) && QueueOf(t, {p}, t.output, Done)
  {
    var t := AddKid(s, p, x);
    assert forall q :: q in t.qs <==> q == s.unused || q in s.qs;
    assert forall q :: q in s.qs && q != p ==> t.qs[q] == s.qs[q];
  }

  lemma AddKidLinks(s: St, p: QId, x: Query, r: QId)
    requires p in s.qs && s.unused !in s.qs && x.state.Tosend? && x.children == []
    requires s.qs[p].parent.None? && (forall q :: q in s.qs ==> Links(s, {p}, q)) && r in AddKid(s, p, x).qs
    requires RightChild(x, s.qs[p])
    ensures Links(AddKid(s, p, x), {p}, r)
  {
    var t, c := AddKid(s, p, x), s.unused;
    assert c !in s.qs[p].children by {
      assert Links(s, {p}, p);
    }
    if r in s.qs {
      assert Links(s, {p}, r);
    }
  }

  lemma AddKidKeeps(cfg: Config, s: St, p: QId, x: Query)
    requires ValidConfig(cfg) && Inv(cfg, s, {p}) && p in s.qs && s.qs[p].parent.None? && Derefs(s.qs[p].typ)
    requires x.children == [] && x.state.Tosend? && Fields(cfg, x.(parent := Some(p)), false)
    requires RightChild(x, s.qs[p])
    ensures Inv(cfg, AddKid(s, p, x), {p})
  {
    hide Links;
    hide Fields;
    hide QueueOf;
    var t, c := AddKid(s, p, x), s.unused;
    AddKidQueues(s, p, x);
    forall r | r in t.qs ensures r < t.unused && Links(t, {p}, r) && Fields(cfg, t.qs[r], r in {p}) {
      AddKidLinks(s, p, x, r);
      if r == p {
        KidFields(cfg, s.qs[p], c);
      }
    }
  }

  lemma KidFields(cfg: Config, x: Query, c: QId)
    requires ValidConfig(cfg) && Fields(cfg, x, true) && Derefs(x.typ)
    ensures Fields(cfg, x.(children := x.children + [c]), true)
  {
  }

  // ---------- Families ----------

  lemma InvAt(cfg: Config, s: St, off: set<QId>, q: QId)
    requires ValidConfig(cfg) && Inv(cfg, s, off) && q in s.qs
    ensures q < s.unused && Links(s, off, q) && Fields(cfg, s.qs[q], q in off)
  {
  }

  /** A query's children: they point back at it and have no children themselves. */
  lemma KidsAre(cfg: Config, s: St, off: set<QId>, q: QId)
    requires ValidConfig(cfg) && Inv(cfg, s, off) && q in s.qs
    ensures forall c :: c in s.qs[q].children ==>
              c != q && c in s.qs && s.qs[c].parent == Some(q) && s.qs[c].children == []
  {
    InvAt(cfg, s, off, q);
    forall c | c in s.qs[q].children
      ensures c != q && c in s.qs && s.qs[c].parent == Some(q) && s.qs[c].children == []
    {
      InvAt(cfg, s, off, c);
    }
  }

  lemma KidsDroppable(s: St, q: QId)
    requires q in s.qs
    requires forall c :: c in s.qs[q].children ==>
               c != q && c in s.qs && s.qs[c].parent == Some(q) && s.qs[c].children == []
    ensures q !in Kids(s, q) && Droppable(s, {q}, Kids(s, q))
  {
  }

  lemma DropKids(cfg: Config, s: St, q: QId)
    requires ValidConfig(cfg) && Inv(cfg, s, {q}) && q in s.qs
    ensures q !in Kids(s, q) && Inv(cfg, Drop(s, Kids(s, q)), {q})
    ensures q in Drop(s, Kids(s, q)).qs && Drop(s, Kids(s, q)).qs[q] == s.qs[q].(children := [])
  {
    hide Inv;
    hide Without;
    KidsAre(cfg, s, {q}, q);
    var d := Kids(s, q);
    KidsDroppable(s, q);
    WithoutAll(s.qs[q].children, d);
    hide Droppable;
    hide Kids;
    DropKeeps(cfg, s, {q}, d);
    assert {q} - d == {q};
  }
}
