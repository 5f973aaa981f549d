/** The two passes of adns__procdgram over the answer section, and its look at the authority
    section (adns/reply.c:198-456). */
module Answers {
  import opened Basics
  import opened Names
  import opened Texts
  import opened Vbufs
  import opened Parse
  import opened Records

  const RR_NS := 2
  const RR_CNAME := 5
  const RR_SOA := 6

  /** What the query has to do with reading its answer: the name asked for, the type wanted and
      two of its flags. */
  datatype Wanted = Wanted(query: Owner, typ: nat, cnameForbid: bool, quotefailCname: bool)

  /** The variables of the first pass, those kept in the query included. */
  datatype Pass = Pass(
    cbyte: nat,
    wantedrrs: nat,
    cname: Option<Owner>,          // cname_dgram with cname_begin
    cnameCount: nat,
    cnameHere: bool,
    cnameText: Option<seq<Byte>>,  // answer->cname
    allocations: nat)

  datatype PassEnd =
    | PassDone(p: Pass)
    | PassFail(p: Pass, status: Status)
    // goto x_truncated. `redirect`: cname_begin is already that of a name that could not be read, although
    // cname_dgram is still the datagram of the CNAME followed before.
    | PassTruncated(p: Pass, redirect: Option<nat>)
    | PassDiverges

  ghost function CurrentOwner(w: Wanted, p: Pass): seq<Label>
  {
    OwnerLabels(if p.cname.Some? then p.cname.value else w.query)
  }

  predicate IsAlias(w: Wanted, rr: Rr) { rr.typ == RR_CNAME && w.typ != RR_CNAME }

  /** What one record of the answer section does to the first pass. */
  ghost function Step(dg: seq<Byte>, w: Wanted, p0: Pass): PassEnd
  {
    match RecordAt(dg, p0.cbyte, Some(CurrentOwner(w, p0)))
    case RecordDiverges => PassDiverges
    case RecordTruncated => PassTruncated(p0, None)
    case RecordBad(st) => PassFail(p0, st)
    case Record(rr, next, matched) =>
      var p := p0.(cbyte := next);
      if rr.class_ != DNS_CLASS_IN || !matched then PassDone(p)
      else if IsAlias(w, rr) then
        if w.cnameForbid then PassFail(p, ProhibitedCname)
        else
          var q := if p.cname.Some? then p.(cnameCount := p.cnameCount + 1) else p;
          if p.cname.Some? && q.cnameCount >= 2 then PassFail(q, ProhibitedCname)
          else if p.wantedrrs > 0 then PassDone(q)  // CNAMEs after wanted records are ignored
          else FollowCname(dg, w, q, rr)
      else if rr.typ == w.typ then PassDone(p.(wantedrrs := p.wantedrrs + 1))
      else PassDone(p)
  }

  ghost function FollowCname(dg: seq<Byte>, w: Wanted, p: Pass, rr: Rr): PassEnd
  {
    match RestText(dg, Start(rr.rdstart, rr.rdstart + rr.rdlen), !w.quotefailCname, true)
    case TextDiverges => PassDiverges
    case TextTruncated(_) => PassTruncated(p, Redirect(p, rr.rdstart))
    // Nothing printed counts as truncation, whatever the error (adns/reply.c:270-276).
    case TextBad(st, bare) => if bare then PassTruncated(p, Redirect(p, rr.rdstart)) else PassFail(p, st)
    case Text(t, _) =>
      PassDone(p.(cname := Some(Owner(dg, rr.rdstart)), cnameHere := true, cnameText := Some(t),
                  allocations := p.allocations + 2))
  }

  /** Only with a CNAME followed before is there a datagram that the new offset is mistaken to be in. */
  function Redirect(p: Pass, begin: nat): Option<nat> { if p.cname.Some? then Some(begin) else None }

  /** The first label of a name is in error, or is refused. */
  ghost predicate FirstLabelFails(dg: seq<Byte>, f: Cursor, quoteok: bool)
  {
    match FindNext(dg, f)
    case Bad(_, _) => true
    case Found(s, l, _) => !quoteok && !IsHostLabel(dg[s..s + l])
    case _ => false
  }

  lemma {:induction false} OnlyTheFirstIsBare(dg: seq<Byte>, f: Cursor, quoteok: bool)
    ensures match RestText(dg, f, quoteok, false) case TextBad(_, bare) => !bare case _ => true
    decreases DNS_MAXDOMAIN - f.namelen
  {
    if FindNext(dg, f).Found? {
      OnlyTheFirstIsBare(dg, FindNext(dg, f).after, quoteok);
    }
  }

  /** An error in the name of a CNAME fails the query with its status if and only if the first label is
      acceptable; otherwise it counts as truncation. With another CNAME followed before, and only then, the name
      asked for next is looked up at the new offset in the older datagram. */
  lemma CnameErrors(dg: seq<Byte>, w: Wanted, p: Pass, rr: Rr)
    ensures var f := Start(rr.rdstart, rr.rdstart + rr.rdlen);
            var first := FirstLabelFails(dg, f, !w.quotefailCname);
            match RestText(dg, f, !w.quotefailCname, true)
            case TextBad(st, _) =>
              FollowCname(dg, w, p, rr) == if first then PassTruncated(p, Redirect(p, rr.rdstart)) else PassFail(p, st)
            case TextTruncated(_) => FollowCname(dg, w, p, rr) == PassTruncated(p, Redirect(p, rr.rdstart))
            case Text(_, _) => FollowCname(dg, w, p, rr).PassDone? && !first
            case TextDiverges => true
    ensures match FollowCname(dg, w, p, rr)
            case PassTruncated(_, redirect) => redirect.Some? <==> p.cname.Some?
            case _ => true
  {
    var f := Start(rr.rdstart, rr.rdstart + rr.rdlen);
    if FindNext(dg, f).Found? {
      OnlyTheFirstIsBare(dg, FindNext(dg, f).after, !w.quotefailCname);
    }
  }

  /** A name that is no hostname is reported as such, when that is asked for, if and only if its first label is one. */
  lemma NoHostIsReported(dg: seq<Byte>, w: Wanted, p: Pass, rr: Rr)
    requires w.quotefailCname && NameAt(dg, rr.rdstart, rr.rdstart + rr.rdlen).Name?
    requires !AllHost(NameAt(dg, rr.rdstart, rr.rdstart + rr.rdlen).labels)
    ensures var ls := NameAt(dg, rr.rdstart, rr.rdstart + rr.rdlen).labels;
            ls != [] && (FollowCname(dg, w, p, rr) == PassFail(p, AnswerDomainInvalid) <==> IsHostLabel(ls[0]))
  {
    var f := Start(rr.rdstart, rr.rdstart + rr.rdlen);
    NoHostText(dg, f, true);
    CnameErrors(dg, w, p, rr);
  }

  lemma {:induction false} NoHostText(dg: seq<Byte>, f: Cursor, first: bool)
    requires Rest(dg, f).Name? && !AllHost(Rest(dg, f).labels)
    ensures RestText(dg, f, false, first).TextBad? && RestText(dg, f, false, first).status == AnswerDomainInvalid
    decreases DNS_MAXDOMAIN - f.namelen
  {
    var n := FindNext(dg, f);
    var ls := Rest(dg, f).labels;
    if n.Found? && IsHostLabel(ls[0]) {
      var rest := Rest(dg, n.after).labels;
      assert ls[0] == dg[n.start..n.start + n.len] && ls[1..] == rest;
      assert !AllHost(rest) by {
        var i :| 0 <= i < |ls| && !IsHostLabel(ls[i]);
        assert ls[1..][i - 1] == ls[i];
      }
      NoHostText(dg, n.after, false);
    }
  }

  /** True when the next record is a CNAME that the first pass follows. */
  ghost predicate FollowsHere(dg: seq<Byte>, w: Wanted, p: Pass)
  {
    Step(dg, w, p).PassDone? && p.wantedrrs == 0 &&
    var r := RecordAt(dg, p.cbyte, Some(CurrentOwner(w, p)));
    r.Record? && r.rr.class_ == DNS_CLASS_IN && r.matched && IsAlias(w, r.rr)
  }

  /** The first pass over `n` records. */
  ghost function FirstPass(dg: seq<Byte>, w: Wanted, p: Pass, n: nat): PassEnd
    decreases n
  {
    if n == 0 then PassDone(p)
    else
      match Step(dg, w, p)
      case PassDone(q) => FirstPass(dg, w, q, n - 1)
      case other => other
  }

  predicate Accepts(w: Wanted, rr: Rr, matched: bool)
  {
    rr.class_ == DNS_CLASS_IN && rr.typ == w.typ && matched
  }

  /** The second pass over `n` records, as far as they can be read: those it accepts for `owner`. */
  ghost function Accepted(dg: seq<Byte>, w: Wanted, owner: seq<Label>, c: nat, n: nat): seq<Rr>
    decreases n
  {
    if n == 0 then []
    else
      match RecordAt(dg, c, Some(owner))
      case Record(rr, next, matched) =>
        (if Accepts(w, rr, matched) then [rr] else []) + Accepted(dg, w, owner, next, n - 1)
      case _ => []
  }

  /** True when each of the `n` records from `c` on can be read whole. */
  ghost predicate Readable(dg: seq<Byte>, c: nat, n: nat)
    decreases n
  {
    n == 0 ||
    match RecordAt(dg, c, None)
    case Record(_, next, _) => Readable(dg, next, n - 1)
    case _ => false
  }

  /** Offset behind `n` records. */
  ghost function Skip(dg: seq<Byte>, c: nat, n: nat): nat
    decreases n
  {
    if n == 0 then c
    else
      match RecordAt(dg, c, None)
      case Record(_, next, _) => Skip(dg, next, n - 1)
      case _ => c
  }

  /** How many records there are up to the last CNAME that the first pass follows, that one
      included; 0 when it follows none. */
  ghost function UpToLastCname(dg: seq<Byte>, w: Wanted, p: Pass, n: nat): nat
    decreases n
  {
    if n == 0 then 0
    else
      match Step(dg, w, p)
      case PassDone(q) =>
        var k := UpToLastCname(dg, w, q, n - 1);
        if k > 0 || FollowsHere(dg, w, p) then k + 1 else 0
      case _ => 0
  }

  lemma {:induction false} RestDoneIsRead(dg: seq<Byte>, w: Wanted, p: Pass)
    requires Step(dg, w, p).PassDone?
    ensures RecordAt(dg, p.cbyte, None).Record? && RecordAt(dg, p.cbyte, None).next == Step(dg, w, p).p.cbyte
  {
  }

  /** The second pass meets no error and no truncation where the first one did not. */
  lemma {:induction false} SecondPassReads(dg: seq<Byte>, w: Wanted, p: Pass, n: nat)
    requires FirstPass(dg, w, p, n).PassDone?
    ensures Readable(dg, p.cbyte, n) && Skip(dg, p.cbyte, n) == FirstPass(dg, w, p, n).p.cbyte
    decreases n
  {
    hide Step;
    hide RecordAt;
    if n > 0 {
      RestDoneIsRead(dg, w, p);
      SecondPassReads(dg, w, Step(dg, w, p).p, n - 1);
    }
  }

  lemma SameRecord(dg: seq<Byte>, c: nat, owner: seq<Label>)
    ensures match RecordAt(dg, c, None)
            case Record(rr, next, _) =>
              RecordAt(dg, c, Some(owner)).Record? && RecordAt(dg, c, Some(owner)).rr == rr &&
              RecordAt(dg, c, Some(owner)).next == next
            case other => RecordAt(dg, c, Some(owner)) == other
  {
  }

  lemma {:induction false} AcceptedSplit(dg: seq<Byte>, w: Wanted, owner: seq<Label>, c: nat, k: nat, n: nat)
    requires k <= n && Readable(dg, c, k)
    ensures Accepted(dg, w, owner, c, n) ==
            Accepted(dg, w, owner, c, k) + Accepted(dg, w, owner, Skip(dg, c, k), n - k)
    decreases k
  {
    hide RecordAt;
    if k > 0 {
      SameRecord(dg, c, owner);
      AcceptedSplit(dg, w, owner, RecordAt(dg, c, None).next, k - 1, n - 1);
    }
  }

  /** Following a CNAME moves the owner onto the CNAME's own data; anything else leaves the owner,
      and counts what the second pass would accept for it. */
  lemma StepEffect(dg: seq<Byte>, w: Wanted, p: Pass)
    requires Step(dg, w, p).PassDone?
    ensures var q, r := Step(dg, w, p).p, RecordAt(dg, p.cbyte, Some(CurrentOwner(w, p)));
            r.Record? && q.cbyte == r.next &&
            if FollowsHere(dg, w, p) then q.wantedrrs == 0 && q.cname == Some(Owner(dg, r.rr.rdstart))
            else q.cname == p.cname && q.wantedrrs == p.wantedrrs + if Accepts(w, r.rr, r.matched) then 1 else 0
  {
    hide RecordAt;
  }

  /** As long as no CNAME is followed, the owner stays and the first pass counts what the second accepts. */
  lemma {:induction false} CountsWithoutCname(dg: seq<Byte>, w: Wanted, p: Pass, n: nat)
    requires FirstPass(dg, w, p, n).PassDone? && UpToLastCname(dg, w, p, n) == 0
    ensures var q := FirstPass(dg, w, p, n).p;
            q.cname == p.cname && q.wantedrrs == p.wantedrrs + |Accepted(dg, w, CurrentOwner(w, p), p.cbyte, n)|
    decreases n
  {
    hide RecordAt;
    hide FollowCname;
    if n > 0 {
      var s := Step(dg, w, p).p;
      StepEffect(dg, w, p);
      CountsWithoutCname(dg, w, s, n - 1);
    }
  }

  /** What the first pass counts are exactly the records that the second accepts behind the last
      CNAME followed. */
  lemma {:induction false} CountsBehindCname(dg: seq<Byte>, w: Wanted, p: Pass, n: nat)
    requires FirstPass(dg, w, p, n).PassDone? && (p.wantedrrs == 0 || UpToLastCname(dg, w, p, n) > 0)
    ensures var q, k := FirstPass(dg, w, p, n).p, UpToLastCname(dg, w, p, n);
            k <= n && Readable(dg, p.cbyte, k) &&
            q.wantedrrs == |Accepted(dg, w, CurrentOwner(w, q), Skip(dg, p.cbyte, k), n - k)|
    decreases n
  {
    hide RecordAt;
    hide Step;
    var k := UpToLastCname(dg, w, p, n);
    if k == 0 {
      CountsWithoutCname(dg, w, p, n);
    } else {
      var s := Step(dg, w, p).p;
      RestDoneIsRead(dg, w, p);
      StepEffect(dg, w, p);
      CountsBehindCname(dg, w, s, n - 1);
    }
  }

  /** The second pass accepts at least the records the first one counted, and the source's
      assertion that it accepts exactly those (adns/reply.c:455) holds if and only if no record of
      the wanted type owned by the final name precedes the last CNAME followed. */
  lemma SecondPassCount(dg: seq<Byte>, w: Wanted, p: Pass, n: nat)
    requires FirstPass(dg, w, p, n).PassDone? && p.wantedrrs == 0
    ensures var q, k := FirstPass(dg, w, p, n).p, UpToLastCname(dg, w, p, n);
            var nrrs := |Accepted(dg, w, CurrentOwner(w, q), p.cbyte, n)|;
            Readable(dg, p.cbyte, n) && k <= n && nrrs >= q.wantedrrs &&
            (nrrs == q.wantedrrs <==> Accepted(dg, w, CurrentOwner(w, q), p.cbyte, k) == [])
  {
    hide FirstPass;
    hide UpToLastCname;
    hide Accepted;
    var q, k := FirstPass(dg, w, p, n).p, UpToLastCname(dg, w, p, n);
    SecondPassReads(dg, w, p, n);
    CountsBehindCname(dg, w, p, n);
    AcceptedSplit(dg, w, CurrentOwner(w, q), p.cbyte, k, n);
  }

  // ---------- The passes as the source runs them ----------

  ghost predicate ValidPass(p: Pass) { p.cname.Some? ==> ValidOwner(p.cname.value) }

  /** A followed CNAME leaves a name that later records, and a restarted query, can be matched with. */
  lemma FollowedIsValid(dg: seq<Byte>, c: nat, max: int, quoteok: bool)
    requires RestText(dg, Start(c, max), quoteok, true).Text?
    ensures ValidOwner(Owner(dg, c))
    ensures RestText(dg, Start(c, max), quoteok, true).text == Printed(OwnerLabels(Owner(dg, c)), quoteok, true)
  {
    PrintsTheName(dg, Start(c, max), quoteok, true);
    RestSound(dg, Start(c, max));
    DecodesExactly(dg, c, |dg|, NameAt(dg, c, max).labels, InlineEnd(dg, c));
  }

  lemma {:induction false} StepKeepsValid(dg: seq<Byte>, w: Wanted, p: Pass)
    requires ValidPass(p)
    ensures match Step(dg, w, p)
            case PassDone(q) => ValidPass(q)
            case PassFail(q, _) => ValidPass(q)
            case PassTruncated(q, _) => ValidPass(q)
            case PassDiverges => true
  {
    hide RestText;
    var r := RecordAt(dg, p.cbyte, Some(CurrentOwner(w, p)));
    if r.Record? && RestText(dg, Start(r.rr.rdstart, r.rr.rdstart + r.rr.rdlen), !w.quotefailCname, true).Text? {
      FollowedIsValid(dg, r.rr.rdstart, r.rr.rdstart + r.rr.rdlen, !w.quotefailCname);
    }
  }

  /** Whatever the first pass leaves in the query can be matched with. */
  lemma {:induction false} FirstPassKeepsValid(dg: seq<Byte>, w: Wanted, p: Pass, n: nat)
    requires ValidPass(p)
    ensures match FirstPass(dg, w, p, n)
            case PassDone(q) => ValidPass(q)
            case PassFail(q, _) => ValidPass(q)
            case PassTruncated(q, _) => ValidPass(q)
            case PassDiverges => true
    decreases n
  {
    hide Step;
    if n > 0 {
      StepKeepsValid(dg, w, p);
      if Step(dg, w, p).PassDone? {
        FirstPassKeepsValid(dg, w, Step(dg, w, p).p, n - 1);
      }
    }
  }

  lemma StepNotOk(dg: seq<Byte>, w: Wanted, p: Pass)
    ensures match Step(dg, w, p) case PassFail(_, st) => st != Ok case _ => true
  {
    hide RestText;
    RecordBadNotOk(dg, p.cbyte, Some(CurrentOwner(w, p)));
    var r := RecordAt(dg, p.cbyte, Some(CurrentOwner(w, p)));
    if r.Record? {
      TextBadNotOk(dg, Start(r.rr.rdstart, r.rr.rdstart + r.rr.rdlen), !w.quotefailCname, true);
    }
    hide RecordAt;
  }

  /** A first pass that fails has an error. */
  lemma {:induction false} FirstPassNotOk(dg: seq<Byte>, w: Wanted, p: Pass, n: nat)
    ensures match FirstPass(dg, w, p, n) case PassFail(_, st) => st != Ok case _ => true
    decreases n
  {
    hide Step;
    if n > 0 {
      StepNotOk(dg, w, p);
      if Step(dg, w, p).PassDone? {
        FirstPassNotOk(dg, w, Step(dg, w, p).p, n - 1);
      }
    }
  }

  // One turn of the loop at adns/reply.c:203-307.
  method ReadAnswer(dgram: seq<Byte>, w: Wanted, p0: Pass, vb: Vbuf) returns (r: PassEnd)
    requires ValidOwner(w.query) && ValidPass(p0) && vb.Valid() && !Step(dgram, w, p0).PassDiverges?
    modifies vb, vb.buf
    ensures vb.Valid() && (vb.buf == old(vb.buf) || fresh(vb.buf))
    ensures r == Step(dgram, w, p0)
  {
    hide RestText;
    hide Rest;
    hide Printed;
    var p := p0;
    SameRecord(dgram, p.cbyte, CurrentOwner(w, p));
    var record := FindRRAnychk(dgram, p.cbyte, Some(if p.cname.Some? then p.cname.value else w.query));
    match record
    case RecordBad(st) => return PassFail(p, st);
    case RecordTruncated => return PassTruncated(p, None);
    case Record(rr, next, ownermatched) =>
      p := p.(cbyte := next);
      if rr.class_ != DNS_CLASS_IN || !ownermatched {
        return PassDone(p);
      }
      if rr.typ == RR_CNAME && w.typ != RR_CNAME {
        if w.cnameForbid {
          return PassFail(p, ProhibitedCname);
        }
        if p.cname.Some? {
          p := p.(cnameCount := p.cnameCount + 1);
          if p.cnameCount >= 2 {
            return PassFail(p, ProhibitedCname);
          }
        }
        if p.wantedrrs > 0 {
          return PassDone(p);
        }
        var st, end := ParseDomain(vb, !w.quotefailCname, dgram, rr.rdstart, rr.rdstart + rr.rdlen);
        PrintsTheName(dgram, Start(rr.rdstart, rr.rdstart + rr.rdlen), !w.quotefailCname, true);
        if vb.used == 0 {
          return PassTruncated(p, if p.cname.Some? then Some(rr.rdstart) else None);
        }
        if st != Ok {
          return PassFail(p, st);
        }
        assert vb.buf[..vb.used - 1] == vb.Contents()[..vb.used - 1];
        p := p.(cname := Some(Owner(dgram, rr.rdstart)), cnameText := Some(vb.buf[..vb.used - 1]),
               cnameHere := true, allocations := p.allocations + 2);
        return PassDone(p);
      }
      if rr.typ == w.typ {
        p := p.(wantedrrs := p.wantedrrs + 1);
      }
      return PassDone(p);
  }

  method ReadAnswers(dgram: seq<Byte>, w: Wanted, p0: Pass, ancount: nat, vb: Vbuf) returns (r: PassEnd)
    requires ValidOwner(w.query) && ValidPass(p0) && vb.Valid() && !FirstPass(dgram, w, p0, ancount).PassDiverges?
    modifies vb, vb.buf
    ensures vb.Valid() && (vb.buf == old(vb.buf) || fresh(vb.buf))
    ensures r == FirstPass(dgram, w, p0, ancount)
  {
    hide Step;
    var p, rri := p0, 0;
    while rri < ancount
      invariant 0 <= rri <= ancount && ValidPass(p) && vb.Valid() && (vb.buf == old(vb.buf) || fresh(vb.buf))
      invariant FirstPass(dgram, w, p, ancount - rri) == FirstPass(dgram, w, p0, ancount)
    {
      StepKeepsValid(dgram, w, p);
      r := ReadAnswer(dgram, w, p, vb);
      if !r.PassDone? {
        return;
      }
      p, rri := r.p, rri + 1;
    }
    r := PassDone(p);
  }

  /** The first pass takes a followed CNAME from the reply at hand. */
  lemma {:induction false} CnameFromReply(dg: seq<Byte>, w: Wanted, p: Pass, n: nat)
    ensures match FirstPass(dg, w, p, n)
            case PassDone(q) => FromReply(dg, p, q)
            case PassFail(q, _) => FromReply(dg, p, q)
            case PassTruncated(q, _) => FromReply(dg, p, q)
            case PassDiverges => true
    decreases n
  {
    hide Step;
    if n > 0 {
      StepCname(dg, w, p);
      if Step(dg, w, p).PassDone? {
        CnameFromReply(dg, w, Step(dg, w, p).p, n - 1);
      }
    }
  }

  lemma StepCname(dg: seq<Byte>, w: Wanted, p: Pass)
    ensures match Step(dg, w, p)
            case PassDone(q) => FromReply(dg, p, q)
            case PassFail(q, _) => FromReply(dg, p, q)
            case PassTruncated(q, _) => FromReply(dg, p, q)
            case PassDiverges => true
  {
    hide RecordAt;
    hide RestText;
    hide CurrentOwner;
  }

  ghost predicate FromReply(dg: seq<Byte>, p: Pass, q: Pass)
  {
    q.cname == p.cname || (q.cname.Some? && q.cname.value.dgram == dg)
  }

  // ---------- The authority section ----------

  datatype Authority =
    | Authority(foundsoa: bool, soattl: nat, foundns: bool)
    | AuthorityTruncated
    | AuthorityBad(status: Status)
    | AuthorityDiverges

  /** The scan stops at the first SOA record of class IN; otherwise it notes any NS record. */
  ghost function AuthorityAt(dg: seq<Byte>, c: nat, n: nat, foundns: bool): Authority
    decreases n
  {
    if n == 0 then Authority(false, 0, foundns)
    else
      match RecordAt(dg, c, None)
      case RecordDiverges => AuthorityDiverges
      case RecordTruncated => AuthorityTruncated
      case RecordBad(st) => AuthorityBad(st)
      case Record(rr, next, _) =>
        if rr.class_ == DNS_CLASS_IN && rr.typ == RR_SOA then Authority(true, rr.ttl, foundns)
        else AuthorityAt(dg, next, n - 1, foundns || (rr.class_ == DNS_CLASS_IN && rr.typ == RR_NS))
  }

  lemma {:induction false} AuthorityNotOk(dg: seq<Byte>, c: nat, n: nat, foundns: bool)
    ensures AuthorityAt(dg, c, n, foundns) != AuthorityBad(Ok)
    decreases n
  {
    hide RecordAt;
    if n > 0 {
      RecordBadNotOk(dg, c, None);
      var r := RecordAt(dg, c, None);
      if r.Record? {
        AuthorityNotOk(dg, r.next, n - 1, foundns || (r.rr.class_ == DNS_CLASS_IN && r.rr.typ == RR_NS));
      }
    }
  }

  method ReadAuthority(dgram: seq<Byte>, c0: nat, nscount: nat) returns (r: Authority)
    requires !AuthorityAt(dgram, c0, nscount, false).AuthorityDiverges?
    ensures r == AuthorityAt(dgram, c0, nscount, false)
  {
    hide RecordAt;
    var cbyte, foundns, rri := c0, false, 0;
    while rri < nscount
      invariant 0 <= rri <= nscount
      invariant AuthorityAt(dgram, cbyte, nscount - rri, foundns) == AuthorityAt(dgram, c0, nscount, false)
    {
      var record := FindRRAnychk(dgram, cbyte, None);
      match record {
        case RecordBad(st) => return AuthorityBad(st);
        case RecordTruncated => return AuthorityTruncated;
        case Record(rr, next, _) =>
          cbyte := next;
          if rr.class_ == DNS_CLASS_IN {
            if rr.typ == RR_SOA {
              return Authority(true, rr.ttl, foundns);
            }
            if rr.typ == RR_NS {
              foundns := true;
            }
          }
      }
      rri := rri + 1;
    }
    r := Authority(false, 0, foundns);
  }
}
