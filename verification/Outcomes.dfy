/** What a reply leads to, in terms of its header and the records that stand in it (adns/reply.c:35-508). */
module Outcomes {
  import opened Basics
  import opened Headers
  import opened Names
  import opened Texts
  import opened Records
  import opened Queries
  import opened Answers
  import opened LifeCycle
  import opened Parsers
  import opened Steps
  import opened Submission
  import opened Runs
  import opened Replies
  import opened Guards
  import opened Endings

  /** The datagram has reached this query, can be read, and has led to this state. */
  ghost predicate Processes(cfg: Config, s: St, dg: seq<Byte>, serv: nat, viatcp: bool, now: int, os: seq<Stray>,
                            q: QId, t: St)
    requires ValidConfig(cfg)
  {
    Inv(cfg, s, {}) && (forall r :: Waiting(s, r) ==> r in s.qs && |s.qs[r].dgram| >= DNS_HDRSIZE) &&
    Addressee(s, dg, serv, viatcp) == Some(q) &&
    var e := ReplyEvent(s, dg, serv, viatcp, now, os);
    e.Some? && Enabled(cfg, s, e.value) && t == Apply(cfg, s, e.value)
  }

  lemma ProcessedIs(cfg: Config, s: St, dg: seq<Byte>, serv: nat, viatcp: bool, now: int, os: seq<Stray>, q: QId, t: St)
    requires ValidConfig(cfg) && Processes(cfg, s, dg, serv, viatcp, now, os, q, t)
    ensures Inv(cfg, s, {}) && q in s.qs && Waiting(s, q) && |dg| >= DNS_HDRSIZE
    ensures var u, r := Unqueue(s, q), ReadReply(s.qs[q], dg, os);
            u.qs == s.qs && u.nextid == s.nextid && Replying(cfg, u, q) && r.Read? && Possible(s.qs[q], r.verdict) &&
            t == Deliver(cfg, u, q, r.verdict, now)
  {
    hide Inv;
    hide ReadReply;
    hide Possible;
    hide Deliver;
    hide Replying;
    hide FirstMatch;
    PopWaiting(cfg, s, q);
  }

  // ---------- Which query it reaches ----------

  /** The datagram has the identifier of the query, repeats its question, and over UDP comes from a server to which the
      query has been sent. */
  ghost predicate IsFor(x: Query, dg: seq<Byte>, serv: nat, viatcp: bool)
  {
    var n := |x.dgram|;
    DNS_HDRSIZE <= n <= |dg| && GetW(dg, 0) == x.id && dg[DNS_HDRSIZE..n] == x.dgram[DNS_HDRSIZE..] &&
    (viatcp || exists i :: 0 <= i < |x.sent| && x.sent[i].server == serv)
  }

  /** A reply to a standard query with one question. */
  predicate IsReply(dg: seq<Byte>)
  {
    |dg| >= DNS_HDRSIZE && var h := HeaderOf(dg); h.qr && h.opcode == 0 && h.qdcount == 1
  }

  /** The datagram is for the query in this place of the queue, and for none before it. */
  ghost predicate ReachedAt(s: St, queue: seq<QId>, dg: seq<Byte>, serv: nat, viatcp: bool, q: QId, i: nat)
    requires forall r :: r in queue ==> r in s.qs
  {
    i < |queue| && queue[i] == q && IsFor(s.qs[q], dg, serv, viatcp) &&
    forall j: nat :: j < i ==> !IsFor(s.qs[queue[j]], dg, serv, viatcp)
  }

  /** A datagram reaches a query if and only if it is a reply for it and for none before it on the queue; any other
      changes nothing. */
  lemma ReachesItsQuery(cfg: Config, s: St, dg: seq<Byte>, serv: nat, viatcp: bool, q: QId)
    requires ValidConfig(cfg) && Inv(cfg, s, {})
    ensures forall r :: Waiting(s, r) ==> r in s.qs && |s.qs[r].dgram| >= DNS_HDRSIZE
    ensures var queue := if viatcp then s.tcpw else s.udpw;
            Addressee(s, dg, serv, viatcp) == Some(q) <==>
            IsReply(dg) && exists i: nat :: ReachedAt(s, queue, dg, serv, viatcp, q, i)
  {
    hide Inv;
    WaitingQuestions(cfg, s);
    var queue := if viatcp then s.tcpw else s.udpw;
    assert forall r :: r in queue ==> Waiting(s, r);
    if IsReply(dg) {
      FirstMatchIs(s.qs, queue, dg, serv, viatcp, q);
      forall i: nat ensures FirstAt(s.qs, queue, dg, serv, viatcp, q, i) <==>
                            ReachedAt(s, queue, dg, serv, viatcp, q, i)
      {
        ReachedIsFirst(cfg, s, queue, dg, serv, viatcp, q, i);
      }
      hide FirstAt;
      hide ReachedAt;
      hide FirstMatch;
    }
    hide Waiting;
  }

  lemma ReachedIsFirst(cfg: Config, s: St, queue: seq<QId>, dg: seq<Byte>, serv: nat, viatcp: bool, q: QId, i: nat)
    requires ValidConfig(cfg) && Inv(cfg, s, {}) && |dg| >= DNS_HDRSIZE
    requires forall r :: r in queue ==> r in s.qs && |s.qs[r].dgram| >= DNS_HDRSIZE
    ensures FirstAt(s.qs, queue, dg, serv, viatcp, q, i) <==> ReachedAt(s, queue, dg, serv, viatcp, q, i)
  {
    hide Inv;
    forall r | r in queue ensures Matches(s.qs[r], dg, serv, viatcp) == IsFor(s.qs[r], dg, serv, viatcp) {
      ContactedByIndex(cfg, s, r);
    }
    hide IsFor;
    hide Matches;
  }

  lemma ContactedByIndex(cfg: Config, s: St, q: QId)
    requires ValidConfig(cfg) && Inv(cfg, s, {}) && q in s.qs
    ensures forall v: nat :: v in s.qs[q].udpsent <==>
              exists i :: 0 <= i < |s.qs[q].sent| && s.qs[q].sent[i].server == v
  {
    ServersInTurn(cfg, s, q);
  }

  ghost predicate FirstAt(qs: map<QId, Query>, queue: seq<QId>, dg: seq<Byte>, serv: nat, viatcp: bool, q: QId, i: nat)
    requires |dg| >= DNS_HDRSIZE && forall r :: r in queue ==> r in qs && |qs[r].dgram| >= DNS_HDRSIZE
  {
    i < |queue| && queue[i] == q && Matches(qs[q], dg, serv, viatcp) &&
    forall j: nat :: j < i ==> !Matches(qs[queue[j]], dg, serv, viatcp)
  }

  lemma FirstAtNext(qs: map<QId, Query>, queue: seq<QId>, dg: seq<Byte>, serv: nat, viatcp: bool, q: QId, i: nat)
    requires |dg| >= DNS_HDRSIZE && forall r :: r in queue ==> r in qs && |qs[r].dgram| >= DNS_HDRSIZE
    requires queue != [] && !Matches(qs[queue[0]], dg, serv, viatcp)
    ensures FirstAt(qs, queue, dg, serv, viatcp, q, i + 1) <==> FirstAt(qs, queue[1..], dg, serv, viatcp, q, i)
  {
    hide Matches;
    var rest := queue[1..];
    assert forall j: nat :: j < |rest| ==> rest[j] == queue[j + 1];
    if FirstAt(qs, queue, dg, serv, viatcp, q, i + 1) {
      forall j: nat | j < i ensures !Matches(qs[rest[j]], dg, serv, viatcp) {
        assert rest[j] == queue[j + 1];
      }
    }
    if FirstAt(qs, rest, dg, serv, viatcp, q, i) {
      forall j: nat | j < i + 1 ensures !Matches(qs[queue[j]], dg, serv, viatcp) {
        if j > 0 {
          assert rest[j - 1] == queue[j];
        }
      }
    }
  }

  lemma {:induction false} FirstMatchIs(qs: map<QId, Query>, queue: seq<QId>, dg: seq<Byte>, serv: nat, viatcp: bool,
                                        q: QId)
    requires |dg| >= DNS_HDRSIZE && forall r :: r in queue ==> r in qs && |qs[r].dgram| >= DNS_HDRSIZE
    ensures FirstMatch(qs, queue, dg, serv, viatcp) == Some(q) <==>
            exists i: nat :: FirstAt(qs, queue, dg, serv, viatcp, q, i)
    decreases |queue|
  {
    hide Matches;
    if queue != [] {
      if Matches(qs[queue[0]], dg, serv, viatcp) {
        assert queue[0] == q ==> FirstAt(qs, queue, dg, serv, viatcp, q, 0);
      } else {
        FirstMatchIs(qs, queue[1..], dg, serv, viatcp, q);
        hide FirstAt;
        if i: nat :| FirstAt(qs, queue, dg, serv, viatcp, q, i) {
          NotFirst(qs, queue, dg, serv, viatcp, q);
          FirstAtNext(qs, queue, dg, serv, viatcp, q, i - 1);
        }
        if i: nat :| FirstAt(qs, queue[1..], dg, serv, viatcp, q, i) {
          FirstAtNext(qs, queue, dg, serv, viatcp, q, i);
        }
      }
    }
  }

  lemma NotFirst(qs: map<QId, Query>, queue: seq<QId>, dg: seq<Byte>, serv: nat, viatcp: bool, q: QId)
    requires |dg| >= DNS_HDRSIZE && forall r :: r in queue ==> r in qs && |qs[r].dgram| >= DNS_HDRSIZE
    requires queue != [] && !Matches(qs[queue[0]], dg, serv, viatcp)
    ensures !FirstAt(qs, queue, dg, serv, viatcp, q, 0)
  {
    hide Matches;
  }

  // ---------- What becomes of the query ----------

  /** The query starts again: it asks for this name with no retries counted, for a CNAME under a new identifier,
      remembers how many aliases behind the first it has met, and waits. */
  ghost predicate StartsAgain(s: St, t: St, q: QId, name: seq<Label>, p: Pass, usevc: bool, now: int)
    requires q in s.qs
  {
    q in t.udpw && q in t.qs &&
    var x, y := s.qs[q], t.qs[q];
    y.cnameCount == p.cnameCount &&
    (if p.cname.Some? then NewlyNumbered(s.nextid, t, q) else y.id == x.id && y.dgram == x.dgram) &&
    AskedName(y.dgram) == name && y.typ == x.typ && y.flags == x.flags.(usevc := x.flags.usevc || usevc) &&
    y.parent == x.parent && y.retries == 1 && y.timeout == now + RETRY && y.answer.rrs == []
  }

  lemma StartsSince(s: St, u: St, t: St, q: QId, name: seq<Label>, p: Pass, r: Pass, usevc: bool, now: int)
    requires q in s.qs && u.qs == s.qs && u.nextid == s.nextid && StartsAgain(u, t, q, name, p, usevc, now)
    requires p.cnameCount == r.cnameCount && (p.cname.Some? <==> r.cname.Some?)
    ensures StartsAgain(s, t, q, name, r, usevc, now)
  {
    hide AskedName;
  }

  lemma NotedIs(cfg: Config, s: St, q: QId, p: Pass)
    requires ValidConfig(cfg) && Replying(cfg, s, q) && ValidPass(p) && (p.cname.None? ==> s.qs[q].cname.None?)
    ensures var u := Set(s, q, Noted(s.qs[q], p)); Replying(cfg, u, q) && Inv(cfg, u, {q})
  {
    NotedReplying(cfg, s, q, p);
    hide Inv;
    ReplyingFacts(cfg, Set(s, q, Noted(s.qs[q], p)), q);
  }

  lemma FailedEnds(cfg: Config, s: St, u: St, q: QId, p: Pass, st: Status, now: int)
    requires ValidConfig(cfg) && Replying(cfg, u, q) && u.qs == s.qs && Possible(u.qs[q], Failed(p, st))
    ensures Reported(s, Deliver(cfg, u, q, Failed(p, st), now), q, st, [])
  {
    hide Inv;
    hide Fail;
    hide Replying;
    hide Reported;
    NotedIs(cfg, u, q, p);
    ReplyingFacts(cfg, u, q);
    var w := Set(u, q, Noted(u.qs[q], p));
    FailReports(cfg, w, q, st);
    hide Fields;
    InvParents(cfg, u, q);
    ReportedSince(s, w, Fail(w, q, st), q, st, []);
  }

  lemma InvParents(cfg: Config, s: St, q: QId)
    requires ValidConfig(cfg) && Inv(cfg, s, {q}) && q in s.qs
    ensures s.qs[q].parent.Some? ==> s.qs[q].parent.value in s.qs && s.qs[q].parent.value != q
  {
    InvAt(cfg, s, {q}, q);
  }

  lemma RestartedAsks(x: Query, nextid: nat, usevc: bool)
    requires x.cname.None? ==> Asking(x)
    ensures var y := Restarted(x, nextid, usevc);
            |y.dgram| <= DNS_MAXUDP && y.retries == 0 && y.flags == x.flags.(usevc := x.flags.usevc || usevc) &&
            AskedName(y.dgram) == (if x.cname.Some? then OwnerLabels(x.cname.value) else AskedName(x.dgram)) &&
            y.answer.rrs == [] && y.typ == x.typ && y.parent == x.parent && y.state.Tosend? &&
            y.cnameCount == x.cnameCount &&
            if x.cname.Some? then y.id == nextid % 0x1_0000 else y.id == x.id && y.dgram == x.dgram
  {
    if x.cname.Some? {
      OwnerWithinLimits(x.cname.value);
      MessageAsksForName(nextid % 0x1_0000, OwnerLabels(x.cname.value), x.typ % 0x1_0000);
    }
    hide Message;
    hide NameAt;
  }

  lemma RestartEnds(cfg: Config, u: St, q: QId, p: Pass, usevc: bool, now: int)
    requires ValidConfig(cfg) && Replying(cfg, u, q) && Possible(u.qs[q], Restart(p, usevc))
    ensures var name := if p.cname.Some? then OwnerLabels(p.cname.value) else AskedName(u.qs[q].dgram);
            StartsAgain(u, Deliver(cfg, u, q, Restart(p, usevc), now), q, name, p, usevc, now)
  {
    hide Inv;
    hide Send;
    hide Reported;
    hide Asking;
    hide AskedName;
    hide OwnerLabels;
    NotedIs(cfg, u, q, p);
    var w := Set(u, q, Noted(u.qs[q], p));
    RestartedAsks(w.qs[q], w.nextid, usevc);
    hide Restarted;
    RetriedIsReady(cfg, w, q, usevc, now);
    hide Replying;
    hide Ready;
    SendReports(cfg, Retried(w, q, usevc), q, now);
  }

  // ---------- The authority section ----------

  /** The `k`th record from `c` on is of class IN and this type. */
  ghost predicate Stands(dg: seq<Byte>, c: nat, k: nat, typ: nat)
  {
    Readable(dg, c, k) &&
    match RecordAt(dg, Skip(dg, c, k), None)
    case Record(rr, _, _) => rr.class_ == DNS_CLASS_IN && rr.typ == typ
    case _ => false
  }

  ghost predicate HasRecord(dg: seq<Byte>, c: nat, n: nat, typ: nat) { exists k: nat :: k < n && Stands(dg, c, k, typ) }

  /** The records can be read, or all of them up to a SOA record can. */
  ghost predicate Legible(dg: seq<Byte>, c: nat, n: nat) { Readable(dg, c, n) || HasRecord(dg, c, n, RR_SOA) }

  /** The first record that cannot be read, and what is wrong with it. */
  ghost predicate BreaksOff(dg: seq<Byte>, c: nat, n: nat, r: Record)
  {
    !HasRecord(dg, c, n, RR_SOA) &&
    exists k: nat :: k < n && Readable(dg, c, k) && RecordAt(dg, Skip(dg, c, k), None) == r
  }

  lemma StandsNext(dg: seq<Byte>, c: nat, n: nat, typ: nat, rr: Rr, next: nat)
    requires n > 0 && RecordAt(dg, c, None) == Record(rr, next, false)
    ensures HasRecord(dg, c, n, typ) <==>
            (rr.class_ == DNS_CLASS_IN && rr.typ == typ) || HasRecord(dg, next, n - 1, typ)
  {
    hide RecordAt;
    if HasRecord(dg, c, n, typ) {
      var k: nat :| k < n && Stands(dg, c, k, typ);
      if k > 0 {
        assert Stands(dg, next, k - 1, typ);
      }
    }
    if rr.class_ == DNS_CLASS_IN && rr.typ == typ {
      assert Stands(dg, c, 0, typ);
    }
    if HasRecord(dg, next, n - 1, typ) {
      var k: nat :| k < n - 1 && Stands(dg, next, k, typ);
      assert Stands(dg, c, k + 1, typ);
    }
  }

  lemma BreaksOffNext(dg: seq<Byte>, c: nat, n: nat, r: Record, rr: Rr, next: nat)
    requires n > 0 && RecordAt(dg, c, None) == Record(rr, next, false) && BreaksOff(dg, next, n - 1, r)
    requires rr.class_ != DNS_CLASS_IN || rr.typ != RR_SOA
    ensures BreaksOff(dg, c, n, r)
  {
    StandsNext(dg, c, n, RR_SOA, rr, next);
    hide RecordAt;
    hide HasRecord;
    var k: nat :| k < n - 1 && Readable(dg, next, k) && RecordAt(dg, Skip(dg, next, k), None) == r;
    assert Readable(dg, c, k + 1) && Skip(dg, c, k + 1) == Skip(dg, next, k);
  }

  lemma BreaksOffHere(dg: seq<Byte>, c: nat, n: nat, r: Record)
    requires n > 0 && RecordAt(dg, c, None) == r && !r.Record?
    ensures BreaksOff(dg, c, n, r) && !Legible(dg, c, n)
  {
    hide RecordAt;
    assert Readable(dg, c, 0) && Skip(dg, c, 0) == c;
    forall k: nat | k < n ensures !Stands(dg, c, k, RR_SOA) {
    }
  }

  lemma UnmatchedRecord(dg: seq<Byte>, c: nat)
    ensures var r := RecordAt(dg, c, None); r.Record? ==> r == Record(r.rr, r.next, false)
  {
  }

  /** What is found in the authority section are its records. */
  lemma {:induction false} AuthorityIs(dg: seq<Byte>, c: nat, n: nat, foundns: bool)
    ensures match AuthorityAt(dg, c, n, foundns)
            case Authority(soa, _, ns) =>
              Legible(dg, c, n) && (soa <==> HasRecord(dg, c, n, RR_SOA)) &&
              (!soa ==> (ns <==> foundns || HasRecord(dg, c, n, RR_NS)))
            case AuthorityTruncated => BreaksOff(dg, c, n, RecordTruncated) && !Legible(dg, c, n)
            case AuthorityBad(st) => BreaksOff(dg, c, n, RecordBad(st)) && !Legible(dg, c, n)
            case AuthorityDiverges => !Legible(dg, c, n)
    decreases n
  {
    hide RecordAt;
    hide HasRecord;
    hide BreaksOff;
    if n == 0 {
      assert !HasRecord(dg, c, 0, RR_SOA) && !HasRecord(dg, c, 0, RR_NS) by {
        NoRecords(dg, c);
      }
    } else {
      var r := RecordAt(dg, c, None);
      if r.Record? {
        UnmatchedRecord(dg, c);
        StandsNext(dg, c, n, RR_SOA, r.rr, r.next);
        StandsNext(dg, c, n, RR_NS, r.rr, r.next);
        var found := r.rr.class_ == DNS_CLASS_IN && r.rr.typ == RR_NS;
        AuthorityIs(dg, r.next, n - 1, foundns || found);
        if BreaksOff(dg, r.next, n - 1, RecordTruncated) && (r.rr.class_ != DNS_CLASS_IN || r.rr.typ != RR_SOA) {
          BreaksOffNext(dg, c, n, RecordTruncated, r.rr, r.next);
        }
        var a := AuthorityAt(dg, r.next, n - 1, foundns || found);
        if a.AuthorityBad? && (r.rr.class_ != DNS_CLASS_IN || r.rr.typ != RR_SOA) {
          BreaksOffNext(dg, c, n, RecordBad(a.status), r.rr, r.next);
        }
      } else {
        BreaksOffHere(dg, c, n, r);
      }
    }
  }

  lemma NoRecords(dg: seq<Byte>, c: nat)
    ensures forall typ :: !HasRecord(dg, c, 0, typ)
  {
  }

  // ---------- Replies ----------

  /** The CNAME kept is one from this reply if and only if one is followed in it. */
  lemma {:induction false} FollowedHere(dg: seq<Byte>, w: Wanted, p: Pass, n: nat)
    requires FirstPass(dg, w, p, n).PassDone?
    ensures var q := FirstPass(dg, w, p, n).p;
            (q.cnameHere <==> p.cnameHere || UpToLastCname(dg, w, p, n) > 0) &&
            (UpToLastCname(dg, w, p, n) > 0 ==> q.cname.Some?) && (p.cname.Some? ==> q.cname.Some?)
    decreases n
  {
    if n > 0 {
      FollowedNow(dg, w, p);
      hide Step;
      FollowedHere(dg, w, Step(dg, w, p).p, n - 1);
    }
  }

  lemma FollowedNow(dg: seq<Byte>, w: Wanted, p: Pass)
    requires Step(dg, w, p).PassDone?
    ensures var q := Step(dg, w, p).p;
            (q.cnameHere <==> p.cnameHere || FollowsHere(dg, w, p)) && (FollowsHere(dg, w, p) ==> q.cname.Some?) &&
            (p.cname.Some? ==> q.cname.Some?)
  {
    hide RecordAt;
    hide RestText;
    hide CurrentOwner;
  }

  /** A CNAME is followed in the answer section. */
  ghost predicate Followed(x: Query, dg: seq<Byte>)
    requires |dg| >= DNS_HDRSIZE
  {
    UpToLastCname(dg, WantedBy(x), FirstState(x), HeaderOf(dg).ancount) > 0
  }

  /** Where the authority section starts. */
  ghost function Behind(x: Query, dg: seq<Byte>): nat
    requires |dg| >= DNS_HDRSIZE
  {
    Skip(dg, |x.dgram|, HeaderOf(dg).ancount)
  }

  /** The answer section has been read without finding a wanted record, and the reply is not cut off. */
  ghost predicate NoneWanted(x: Query, dg: seq<Byte>)
    requires |dg| >= DNS_HDRSIZE
  {
    Whole(x, dg) && FirstOver(x, dg).p.wantedrrs == 0
  }

  lemma NegativeIs(x: Query, dg: seq<Byte>, os: seq<Stray>)
    requires |dg| >= DNS_HDRSIZE && NoneWanted(x, dg)
    ensures var p := FirstOver(x, dg).p;
            ReadReply(x, dg, os) == ReadNegative(x, dg, HeaderOf(dg), p) && p.cbyte == Behind(x, dg) &&
            (p.cnameHere <==> Followed(x, dg)) && (p.cnameHere ==> p.cname.Some?)
  {
    hide AuthorityAt;
    hide FirstPass;
    hide ReadNegative;
    hide ReadPositive;
    hide UpToLastCname;
    hide Skip;
    var w, n := WantedBy(x), HeaderOf(dg).ancount;
    SecondPassReads(dg, w, FirstState(x), n);
    FollowedHere(dg, w, FirstState(x), n);
  }

  /** A reply without wanted records, by its response code and the records in its authority section (RFC 2308,
      adns/reply.c:317-406). NXDOMAIN ends a query that is not searching with NxDomain; without a referral it ends
      with NoData; a referral behind a CNAME makes it start again at that, and any other ends it. */
  lemma NegativeDecides(cfg: Config, s: St, dg: seq<Byte>, serv: nat, viatcp: bool, now: int, os: seq<Stray>, q: QId,
                        t: St)
    requires ValidConfig(cfg) && Processes(cfg, s, dg, serv, viatcp, now, os, q, t)
    requires q in s.qs && |dg| >= DNS_HDRSIZE && NoneWanted(s.qs[q], dg)
    ensures var x, h, p := s.qs[q], HeaderOf(dg), FirstOver(s.qs[q], dg).p;
            var c, n := Behind(x, dg), h.nscount;
            var soa, ns := HasRecord(dg, c, n, RR_SOA), HasRecord(dg, c, n, RR_NS);
            Legible(dg, c, n) ==>
              (h.rcode == 3 && !x.flags.search ==> Reported(s, t, q, NxDomain, [])) &&
              (h.rcode == 0 && (soa || !ns) ==> Reported(s, t, q, NoData, [])) &&
              (h.rcode == 0 && ns && !soa ==>
                 if Followed(x, dg) then
                   p.cname.Some? && StartsAgain(s, t, q, OwnerLabels(p.cname.value), p, false, now)
                 else Reported(s, t, q, if h.ra then InvalidResponse else NoRecurse, []))
  {
    hide Inv;
    hide Deliver;
    hide Replying;
    hide Possible;
    hide Reported;
    hide FirstPass;
    hide AuthorityAt;
    hide HasRecord;
    hide Followed;
    hide StartsAgain;
    hide OwnerLabels;
    ProcessedIs(cfg, s, dg, serv, viatcp, now, os, q, t);
    hide Processes;
    var x, h, u, p := s.qs[q], HeaderOf(dg), Unqueue(s, q), FirstOver(s.qs[q], dg).p;
    NegativeIs(x, dg, os);
    AuthorityIs(dg, p.cbyte, h.nscount, false);
    hide Legible;
    hide ReadReply;
    hide Behind;
    var v := ReadReply(x, dg, os).verdict;
    if v.Failed? {
      FailedEnds(cfg, s, u, q, v.pass, v.status, now);
    } else if v.Restart? {
      RestartEnds(cfg, u, q, v.pass, v.usevc, now);
      var name := if v.pass.cname.Some? then OwnerLabels(v.pass.cname.value) else AskedName(x.dgram);
      StartsSince(s, u, t, q, name, v.pass, p, v.usevc, now);
    }
  }

  lemma {:induction false} ReadableAt(dg: seq<Byte>, c: nat, k: nat, n: nat)
    requires k < n && Readable(dg, c, n)
    ensures Readable(dg, c, k) && RecordAt(dg, Skip(dg, c, k), None).Record?
    ensures Readable(dg, c, k + 1) && Skip(dg, c, k + 1) == RecordAt(dg, Skip(dg, c, k), None).next
    decreases k
  {
    hide RecordAt;
    if k > 0 {
      ReadableAt(dg, RecordAt(dg, c, None).next, k - 1, n - 1);
    }
  }

  lemma BreaksOffOnce(dg: seq<Byte>, c: nat, n: nat, a: Record, b: Record)
    requires BreaksOff(dg, c, n, a) && BreaksOff(dg, c, n, b) && !a.Record? && !b.Record?
    ensures a == b
  {
    hide RecordAt;
    hide HasRecord;
    var i: nat :| i < n && Readable(dg, c, i) && RecordAt(dg, Skip(dg, c, i), None) == a;
    var j: nat :| j < n && Readable(dg, c, j) && RecordAt(dg, Skip(dg, c, j), None) == b;
    if i < j {
      ReadableAt(dg, c, i, j);
    } else if j < i {
      ReadableAt(dg, c, j, i);
    }
  }

  /** When the authority section breaks off before any SOA record, the query ends: with the status of a bad name, or
      with InvalidResponse if the datagram ends too early although it is not said to be cut off. */
  lemma BreakDecides(cfg: Config, s: St, dg: seq<Byte>, serv: nat, viatcp: bool, now: int, os: seq<Stray>, q: QId,
                     t: St, r: Record)
    requires ValidConfig(cfg) && Processes(cfg, s, dg, serv, viatcp, now, os, q, t)
    requires q in s.qs && |dg| >= DNS_HDRSIZE && NoneWanted(s.qs[q], dg)
    requires BreaksOff(dg, Behind(s.qs[q], dg), HeaderOf(dg).nscount, r) && (r.RecordTruncated? || r.RecordBad?)
    ensures Reported(s, t, q, if r.RecordBad? then r.status else InvalidResponse, [])
  {
    hide Inv;
    hide Deliver;
    hide Replying;
    hide Possible;
    hide Reported;
    hide FirstPass;
    hide AuthorityAt;
    hide HasRecord;
    hide Followed;
    ProcessedIs(cfg, s, dg, serv, viatcp, now, os, q, t);
    hide Processes;
    var x, h, u, p := s.qs[q], HeaderOf(dg), Unqueue(s, q), FirstOver(s.qs[q], dg).p;
    NegativeIs(x, dg, os);
    AuthorityIs(dg, p.cbyte, h.nscount, false);
    var a := AuthorityAt(dg, p.cbyte, h.nscount, false);
    BreaksIllegible(dg, p.cbyte, h.nscount, r);
    if a.AuthorityBad? {
      BreaksOffOnce(dg, p.cbyte, h.nscount, RecordBad(a.status), r);
    } else if a.AuthorityTruncated? {
      BreaksOffOnce(dg, p.cbyte, h.nscount, RecordTruncated, r);
    }
    hide BreaksOff;
    hide Legible;
    hide ReadReply;
    hide Behind;
    var v := ReadReply(x, dg, os).verdict;
    FailedEnds(cfg, s, u, q, v.pass, v.status, now);
  }

  lemma BreaksIllegible(dg: seq<Byte>, c: nat, n: nat, r: Record)
    requires BreaksOff(dg, c, n, r) && !r.Record?
    ensures !Legible(dg, c, n)
  {
    hide RecordAt;
    hide HasRecord;
    var i: nat :| i < n && Readable(dg, c, i) && RecordAt(dg, Skip(dg, c, i), None) == r;
    if Readable(dg, c, n) {
      ReadableAt(dg, c, i, n);
    }
  }

  /** A response code other than those for success and NXDOMAIN ends the query (adns/reply.c:133-170). */
  lemma RcodeDecides(cfg: Config, s: St, dg: seq<Byte>, serv: nat, viatcp: bool, now: int, os: seq<Stray>, q: QId,
                     t: St)
    requires ValidConfig(cfg) && Processes(cfg, s, dg, serv, viatcp, now, os, q, t)
    requires q in s.qs && |dg| >= DNS_HDRSIZE
    ensures match HeaderOf(dg).rcode
            case 0 => true
            case 3 => true
            case 1 => Reported(s, t, q, RcodeFormatError, [])
            case 2 => Reported(s, t, q, RcodeServFail, [])
            case 4 => Reported(s, t, q, RcodeNotImplemented, [])
            case 5 => Reported(s, t, q, RcodeRefused, [])
            case _ => Reported(s, t, q, RcodeUnknown, [])
  {
    hide Inv;
    hide Deliver;
    hide Replying;
    hide Possible;
    hide Reported;
    hide FirstPass;
    ProcessedIs(cfg, s, dg, serv, viatcp, now, os, q, t);
    hide Processes;
    var x, u := s.qs[q], Unqueue(s, q);
    var h, v := HeaderOf(dg), ReadReply(x, dg, os).verdict;
    if h.rcode != 0 && h.rcode != 3 {
      FailedEnds(cfg, s, u, q, v.pass, v.status, now);
    }
  }

  /** Where a query starts again after a reply that is cut off: at the name it asked for, at the last CNAME followed, or
      at what stands where a later CNAME was to be read, in the datagram of that. */
  ghost function RestartName(x: Query, dg: seq<Byte>): seq<Label>
    requires |dg| >= DNS_HDRSIZE
  {
    match FirstOver(x, dg)
    case PassDone(p) => if p.cname.Some? then OwnerLabels(p.cname.value) else AskedName(x.dgram)
    case PassTruncated(p, redirect) =>
      if p.cname.None? then AskedName(x.dgram)
      else
        var was := p.cname.value.dgram;
        OwnerLabels(if redirect.None? then p.cname.value else Owner(was[..Min(|dg|, |was|)], redirect.value))
    case _ => []
  }

  /** An answer section with an error in it ends the query; one that is cut off, or leads to where no name is, ends it
      with InvalidResponse unless the reply says that it has been cut off. Then the query starts again over TCP. */
  lemma AnswerDecides(cfg: Config, s: St, dg: seq<Byte>, serv: nat, viatcp: bool, now: int, os: seq<Stray>, q: QId,
                      t: St)
    requires ValidConfig(cfg) && Processes(cfg, s, dg, serv, viatcp, now, os, q, t)
    requires q in s.qs && |dg| >= DNS_HDRSIZE && HeaderOf(dg).rcode in {0, 3}
    ensures var x, tc, r := s.qs[q], HeaderOf(dg).tc, FirstOver(s.qs[q], dg);
            (r.PassFail? ==> Reported(s, t, q, r.status, [])) &&
            (r.PassTruncated? && !tc ==> Reported(s, t, q, InvalidResponse, [])) &&
            (tc && (r.PassDone? || r.PassTruncated?) ==>
               StartsAgain(s, t, q, RestartName(x, dg), r.p, true, now))
  {
    hide Inv;
    hide Deliver;
    hide Replying;
    hide Possible;
    hide Reported;
    hide FirstPass;
    hide ReadNegative;
    hide ReadPositive;
    hide StartsAgain;
    hide OwnerLabels;
    hide AskedName;
    ProcessedIs(cfg, s, dg, serv, viatcp, now, os, q, t);
    hide Processes;
    var x, u, r := s.qs[q], Unqueue(s, q), FirstOver(s.qs[q], dg);
    var v := ReadReply(x, dg, os).verdict;
    if r.PassTruncated? && r.redirect.Some? && HeaderOf(dg).tc {
      FoundIsValid(r.p, |dg|, r.redirect.value);
    }
    hide FoundThere;
    hide Redirected;
    if v.Failed? {
      FailedEnds(cfg, s, u, q, v.pass, v.status, now);
    } else if v.Restart? && HeaderOf(dg).tc {
      RestartEnds(cfg, u, q, v.pass, v.usevc, now);
      var name := if v.pass.cname.Some? then OwnerLabels(v.pass.cname.value) else AskedName(x.dgram);
      StartsSince(s, u, t, q, name, v.pass, r.p, v.usevc, now);
    }
  }

  // ---------- Searches ----------

  lemma {:induction false} CandidatesAlike(cfg: Config, x: Query, y: Query)
    requires x.searchDoneabs == y.searchDoneabs && x.searchPos == y.searchPos && x.searchName == y.searchName
    ensures Candidates(cfg, x) == Candidates(cfg, y)
    decreases Remaining(cfg, x)
  {
    if NextCandidate(cfg, x).Some? {
      CandidatesAlike(cfg, NextCandidate(cfg, x).value, NextCandidate(cfg, y).value);
    }
  }

  /** NXDOMAIN makes a search over UDP try the first of the names left that is not too long; without one it ends. */
  lemma SearchDecides(cfg: Config, s: St, dg: seq<Byte>, serv: nat, viatcp: bool, now: int, os: seq<Stray>, q: QId,
                      t: St)
    returns (k: nat)
    requires ValidConfig(cfg) && Processes(cfg, s, dg, serv, viatcp, now, os, q, t)
    requires q in s.qs && |dg| >= DNS_HDRSIZE && NoneWanted(s.qs[q], dg) && HeaderOf(dg).rcode == 3
    requires s.qs[q].flags.search && Legible(dg, Behind(s.qs[q], dg), HeaderOf(dg).nscount)
    ensures var names := Candidates(cfg, s.qs[q]);
            FirstUsable(s.qs[q].flags.quoteokQuery, names, k) &&
            if k == |names| then Reported(s, t, q, NxDomain, []) else NameTried(s, t, q, names[k], now)
  {
    hide Inv;
    hide Act;
    hide Replying;
    hide Reported;
    hide FirstPass;
    hide AuthorityAt;
    hide Candidates;
    hide FirstUsable;
    hide NameTried;
    hide SearchNext;
    ProcessedIs(cfg, s, dg, serv, viatcp, now, os, q, t);
    hide Processes;
    var x, u, p := s.qs[q], Unqueue(s, q), FirstOver(s.qs[q], dg).p;
    NegativeIs(x, dg, os);
    AuthorityIs(dg, p.cbyte, HeaderOf(dg).nscount, false);
    hide Legible;
    hide ReadReply;
    hide Deliver;
    hide Possible;
    var v := ReadReply(x, dg, os).verdict;
    assert v == NextName(p);
    k := SearchContinues(cfg, s, u, q, p, now);
  }

  lemma SearchContinues(cfg: Config, s: St, u: St, q: QId, p: Pass, now: int) returns (k: nat)
    requires ValidConfig(cfg) && Replying(cfg, u, q) && Possible(u.qs[q], NextName(p))
    requires u.qs == s.qs && u.nextid == s.nextid
    ensures var names, t := Candidates(cfg, s.qs[q]), Deliver(cfg, u, q, NextName(p), now);
            FirstUsable(s.qs[q].flags.quoteokQuery, names, k) &&
            if k == |names| then Reported(s, t, q, NxDomain, []) else NameTried(s, t, q, names[k], now)
  {
    hide Inv;
    hide Reported;
    hide Candidates;
    hide NameTried;
    hide SearchNext;
    hide Deliver;
    hide TooLong;
    var x, t := s.qs[q], Deliver(cfg, u, q, NextName(p), now);
    SearchingAgain(cfg, u, q, p, now);
    var w := Set(u, q, Noted(x, p));
    k := SearchReports(cfg, w, q, now);
    CandidatesAlike(cfg, x, Noted(x, p));
    SearchIsRoot(cfg, u, q, p);
    if k == |Candidates(cfg, x)| {
      ReportedSince(s, w, t, q, NxDomain, []);
    } else {
      TriedSince(s, w, t, q, Candidates(cfg, x)[k], now);
    }
  }

  lemma SearchIsRoot(cfg: Config, u: St, q: QId, p: Pass)
    requires ValidConfig(cfg) && q in u.qs && Possible(u.qs[q], NextName(p))
    ensures u.qs[q].parent.None? && u.qs[q].flags.search
  {
  }

  lemma SearchingAgain(cfg: Config, u: St, q: QId, p: Pass, now: int)
    requires ValidConfig(cfg) && Replying(cfg, u, q) && Possible(u.qs[q], NextName(p))
    ensures var w := Set(u, q, Noted(u.qs[q], p));
            Sendable(cfg, w, q, now) && Deliver(cfg, u, q, NextName(p), now) == SearchNext(cfg, w, q, now)
  {
    hide Inv;
    hide SearchNext;
    NotedIs(cfg, u, q, p);
  }

  // ---------- Answers ----------

  /** The query waits for its children with these records. */
  ghost predicate WaitsWith(t: St, q: QId, rrs: seq<Stored>)
  {
    q in t.childw && q in t.qs && t.qs[q].answer.rrs == rrs && t.qs[q].answer.status == Ok && t.qs[q].children != []
  }

  /** What becomes of the records read: an error ends the query, and records that need no child end it with them. */
  lemma ConcludeReports(cfg: Config, s: St, q: QId, failed: Option<Status>, rrs: seq<Stored>)
    requires ValidConfig(cfg) && Inv(cfg, s, {q}) && q in s.qs && (s.qs[q].state.Tosend? || s.qs[q].state.Tcpw?)
    requires 0 <= s.qs[q].id < 0x1_0000 && s.qs[q].answer.status == Ok && failed != Some(Ok)
    requires failed.None? ==> rrs != []
    ensures ParentLives(s, q)
    ensures var t := Conclude(s, q, failed, rrs);
            if failed.Some? then Reported(s, t, q, failed.value, [])
            else if s.qs[q].children == [] then Reported(s, t, q, Ok, rrs)
            else WaitsWith(t, q, rrs)
  {
    hide Inv;
    hide Fail;
    hide Finish;
    hide Fields;
    hide Reported;
    InvAt(cfg, s, {q}, q);
    InvParents(cfg, s, q);
    var x := s.qs[q];
    if failed.Some? {
      FailReports(cfg, s, q, failed.value);
    } else if x.children == [] {
      var y := x.(answer := x.answer.(rrs := rrs));
      AnswerFields(cfg, x, rrs);
      SetKeeps(cfg, s, {q}, q, y);
      FinishReports(cfg, Set(s, q, y), q);
      ReportedSince(s, Set(s, q, y), Conclude(s, q, failed, rrs), q, Ok, rrs);
    }
    hide Links;
  }

  lemma AnsweredEnds(cfg: Config, s: St, u: St, q: QId, v: Verdict, now: int)
    requires ValidConfig(cfg) && Replying(cfg, u, q) && u.qs == s.qs && Possible(u.qs[q], v) && v.Answered?
    ensures var t := Deliver(cfg, u, q, v, now);
            if v.failed.Some? then Reported(s, t, q, v.failed.value, [])
            else if v.kids == [] then Reported(s, t, q, Ok, v.rrs)
            else WaitsWith(t, q, v.rrs)
  {
    hide Inv;
    hide Replying;
    hide Reported;
    hide WaitsWith;
    hide Fields;
    hide Possible;
    hide AskedName;
    ReplyingFacts(cfg, u, q);
    PossiblePass(u.qs[q], v);
    NotedIs(cfg, u, q, v.pass);
    var w := Set(u, q, Noted(u.qs[q], v.pass));
    PossibleNoted(u.qs[q], v);
    TakeAnswerReports(cfg, w, q, v, now);
    hide TakeAnswer;
    InvParents(cfg, u, q);
    var t := Deliver(cfg, u, q, v, now);
    if v.failed.Some? {
      ReportedSince(s, w, t, q, v.failed.value, []);
    } else if v.kids == [] {
      ReportedSince(s, w, t, q, Ok, v.rrs);
    }
  }

  lemma TakeAnswerReports(cfg: Config, s: St, q: QId, v: Verdict, now: int)
    requires ValidConfig(cfg) && Replying(cfg, s, q) && Possible(s.qs[q], v) && v.Answered?
    ensures Numbered(s) && ParentLives(s, q)
    ensures var t := TakeAnswer(cfg, s, q, v.kids, v.failed, v.rrs, v.ptrAddr, v.blocks, now);
            if v.failed.Some? then Reported(s, t, q, v.failed.value, [])
            else if v.kids == [] then Reported(s, t, q, Ok, v.rrs)
            else WaitsWith(t, q, v.rrs)
  {
    hide Inv;
    hide Fields;
    hide Conclude;
    hide SubmitKids;
    hide AllWithinLimits;
    hide Derefs;
    hide Complete;
    hide Reported;
    hide WaitsWith;
    ReplyingFacts(cfg, s, q);
    DerefsAlone(cfg, s.qs[q]);
    PossibleHasRecords(s.qs[q], v);
    SubmitKidsKeep(cfg, s, q, v.kids, now);
    var u := SubmitKids(cfg, s, q, v.kids, now);
    AnsweringKeeps(cfg, u, q, v.ptrAddr, u.qs[q].allocations + v.blocks);
    var z := Set(u, q, u.qs[q].(ptrAddr := v.ptrAddr, allocations := u.qs[q].allocations + v.blocks));
    ConcludeReports(cfg, z, q, v.failed, v.rrs);
    NoKidsSame(cfg, s, q, now);
    InvParents(cfg, s, q);
    hide Replying;
    var t := Conclude(z, q, v.failed, v.rrs);
    if v.failed.Some? {
      ReportedSince(s, z, t, q, v.failed.value, []);
    } else if v.kids == [] {
      ReportedSince(s, z, t, q, Ok, v.rrs);
    }
  }

  lemma NoKidsSame(cfg: Config, s: St, q: QId, now: int)
    requires ValidConfig(cfg) && q in s.qs && Numbered(s)
    ensures SubmitKids(cfg, s, q, [], now) == s
  {
  }

  lemma PossibleHasRecords(x: Query, v: Verdict)
    requires Possible(x, v) && v.Answered?
    ensures v.failed.None? ==> v.rrs != []
    ensures AllWithinLimits(v.kids) && (v.kids != [] ==> Derefs(x.typ)) && v.failed != Some(Ok)
  {
  }

  // ---------- The name that records are wanted for ----------

  /** Records are wanted for the name that the last CNAME followed leads to, in this reply or before, and otherwise for
      the one that the query asks for. */
  lemma WantedName(x: Query, dg: seq<Byte>)
    requires |dg| >= DNS_HDRSIZE && FirstOver(x, dg).PassDone?
    ensures var p, owner := FirstOver(x, dg).p, CurrentOwner(WantedBy(x), FirstOver(x, dg).p);
            if Followed(x, dg) then p.cname.Some? && p.cname.value.dgram == dg && owner == OwnerLabels(p.cname.value)
            else owner == if x.cname.Some? then OwnerLabels(x.cname.value) else AskedName(x.dgram)
  {
    hide OwnerLabels;
    var w, n := WantedBy(x), HeaderOf(dg).ancount;
    CnameSource(dg, w, FirstState(x), n);
    hide FirstPass;
    hide UpToLastCname;
  }

  lemma {:induction false} CnameSource(dg: seq<Byte>, w: Wanted, p: Pass, n: nat)
    requires FirstPass(dg, w, p, n).PassDone?
    ensures var q := FirstPass(dg, w, p, n).p;
            if UpToLastCname(dg, w, p, n) > 0 then q.cname.Some? && q.cname.value.dgram == dg else q.cname == p.cname
    decreases n
  {
    if n > 0 {
      StepEffect(dg, w, p);
      hide Step;
      CnameSource(dg, w, Step(dg, w, p).p, n - 1);
    }
  }

  // ---------- The canonical name ----------

  lemma ConcludeKeepsCname(s: St, q: QId, failed: Option<Status>, rrs: seq<Stored>)
    requires q in s.qs && s.qs[q].parent.None?
    ensures var t := Conclude(s, q, failed, rrs); q in t.qs && t.qs[q].answer.cname == s.qs[q].answer.cname
  {
    hide Finish;
    hide Fail;
    if failed.Some? {
      FailKeepsCname(s, q, failed.value);
    } else {
      FinishKeepsCname(Set(s, q, s.qs[q].(answer := s.qs[q].answer.(rrs := rrs))), q);
    }
  }

  lemma AnsweredKeepsCname(cfg: Config, u: St, q: QId, v: Verdict, now: int)
    requires ValidConfig(cfg) && Replying(cfg, u, q) && Possible(u.qs[q], v) && u.qs[q].parent.None?
    requires v.Answered? || v.Failed?
    ensures var t := Deliver(cfg, u, q, v, now); q in t.qs && t.qs[q].answer.cname == v.pass.cnameText
  {
    hide Inv;
    hide Possible;
    hide Fail;
    hide TakeAnswer;
    hide Replying;
    hide Fields;
    ReplyingFacts(cfg, u, q);
    PossiblePass(u.qs[q], v);
    NotedIs(cfg, u, q, v.pass);
    PossibleNoted(u.qs[q], v);
    var w := Set(u, q, Noted(u.qs[q], v.pass));
    if v.Failed? {
      FailKeepsCname(w, q, v.status);
    } else {
      TakeAnswerKeepsCname(cfg, w, q, v, now);
    }
  }

  lemma TakeAnswerKeepsCname(cfg: Config, s: St, q: QId, v: Verdict, now: int)
    requires ValidConfig(cfg) && Replying(cfg, s, q) && Possible(s.qs[q], v) && s.qs[q].parent.None? && v.Answered?
    ensures Numbered(s)
    ensures var t := TakeAnswer(cfg, s, q, v.kids, v.failed, v.rrs, v.ptrAddr, v.blocks, now);
            q in t.qs && t.qs[q].answer.cname == s.qs[q].answer.cname
  {
    hide Inv;
    hide Possible;
    hide SubmitKids;
    hide Conclude;
    hide AllWithinLimits;
    hide Derefs;
    hide Fields;
    hide Asking;
    PossibleHasRecords(s.qs[q], v);
    SubmitKidsKeep(cfg, s, q, v.kids, now);
    var z := SubmitKids(cfg, s, q, v.kids, now);
    ConcludeKeepsCname(Set(z, q, z.qs[q].(ptrAddr := v.ptrAddr, allocations := z.qs[q].allocations + v.blocks)), q,
                       v.failed, v.rrs);
  }

  /** An answer that is not searched for gives the canonical name that its CNAME records have led to. */
  lemma CnameReported(cfg: Config, s: St, dg: seq<Byte>, serv: nat, viatcp: bool, now: int, os: seq<Stray>, q: QId,
                      t: St)
    requires ValidConfig(cfg) && Processes(cfg, s, dg, serv, viatcp, now, os, q, t)
    requires q in s.qs && |dg| >= DNS_HDRSIZE && Whole(s.qs[q], dg) && s.qs[q].parent.None? && !s.qs[q].flags.search
    requires q in t.output
    ensures q in t.qs && t.qs[q].answer.cname == FirstOver(s.qs[q], dg).p.cnameText
  {
    hide Inv;
    hide Deliver;
    hide Replying;
    hide FirstPass;
    hide ReadPositive;
    ProcessedIs(cfg, s, dg, serv, viatcp, now, os, q, t);
    AppliedKeeps(cfg, s, dg, serv, viatcp, now, os, q, t);
    hide Processes;
    var x, u := s.qs[q], Unqueue(s, q);
    var v := ReadReply(x, dg, os).verdict;
    WholePass(x, dg, os);
    hide ReadReply;
    if v.Restart? {
      RestartEnds(cfg, u, q, v.pass, v.usevc, now);
      NotBoth(cfg, t, q);
      assert false;
    } else if !v.NextName? {
      AnsweredKeepsCname(cfg, u, q, v, now);
    }
    hide Possible;
  }

  lemma AppliedKeeps(cfg: Config, s: St, dg: seq<Byte>, serv: nat, viatcp: bool, now: int, os: seq<Stray>, q: QId,
                     t: St)
    requires ValidConfig(cfg) && Processes(cfg, s, dg, serv, viatcp, now, os, q, t)
    ensures Inv(cfg, t, {})
  {
    hide Inv;
    hide Apply;
    hide Enabled;
    ApplyKeeps(cfg, s, ReplyEvent(s, dg, serv, viatcp, now, os).value);
  }

  lemma NotBoth(cfg: Config, t: St, q: QId)
    requires ValidConfig(cfg) && Inv(cfg, t, {}) && q in t.output
    ensures q !in t.udpw
  {
  }

  lemma WholePass(x: Query, dg: seq<Byte>, os: seq<Stray>)
    requires |dg| >= DNS_HDRSIZE && Whole(x, dg) && ReadReply(x, dg, os).Read?
    ensures ReadReply(x, dg, os).verdict.pass == FirstOver(x, dg).p
  {
    hide FirstPass;
    hide AuthorityAt;
    hide WholeSecond;
    hide Overruns;
    hide Wants;
  }
}
