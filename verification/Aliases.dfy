/** What the first pass makes of the CNAME records of an answer section, by their positions (adns/reply.c:203-307). */
module Aliases {
  import opened Basics
  import opened Names
  import opened Texts
  import opened Records
  import opened Headers
  import opened Answers
  import opened LifeCycle
  import opened Parsers
  import opened Replies
  import opened Endings
  import opened Outcomes
  import opened Contents

  /** None of the first `n` records from `c` on is an alias of the owner, for a query that follows aliases. */
  ghost predicate NoAlias(dg: seq<Byte>, w: Wanted, owner: seq<Label>, c: nat, n: nat)
  {
    w.typ == RR_CNAME || forall k: nat :: k < n ==> !StandsFor(dg, c, k, owner, RR_CNAME)
  }

  lemma NoAliasNext(dg: seq<Byte>, w: Wanted, owner: seq<Label>, c: nat, n: nat, rr: Rr, next: nat, matched: bool)
    requires n > 0 && NoAlias(dg, w, owner, c, n) && RecordAt(dg, c, Some(owner)) == Record(rr, next, matched)
    ensures NoAlias(dg, w, owner, next, n - 1) && !(matched && rr.class_ == DNS_CLASS_IN && IsAlias(w, rr))
  {
    hide RecordAt;
    hide StandsFor;
    StandsBehind(dg, c, 0, owner, RR_CNAME, rr, next, matched);
    if w.typ != RR_CNAME {
      forall k: nat | k < n - 1 ensures !StandsFor(dg, next, k, owner, RR_CNAME) {
        StandsBehind(dg, c, k, owner, RR_CNAME, rr, next, matched);
      }
    }
  }

  /** Behind records none of which is an alias, the wanted ones among them have been counted. */
  function Counted(p: Pass, c: nat, m: nat): Pass { p.(cbyte := c, wantedrrs := p.wantedrrs + m) }

  lemma {:induction false} PlainRecords(dg: seq<Byte>, w: Wanted, p: Pass, i: nat, n: nat)
    requires i <= n && Readable(dg, p.cbyte, i) && NoAlias(dg, w, CurrentOwner(w, p), p.cbyte, i)
    ensures FirstPass(dg, w, p, n) ==
            FirstPass(dg, w, Counted(p, Skip(dg, p.cbyte, i), |Accepted(dg, w, CurrentOwner(w, p), p.cbyte, i)|), n - i)
    decreases i
  {
    hide RecordAt;
    var owner := CurrentOwner(w, p);
    if i == 0 {
      assert Counted(p, p.cbyte, 0) == p;
    } else {
      SameRecord(dg, p.cbyte, owner);
      var r := RecordAt(dg, p.cbyte, Some(owner));
      NoAliasNext(dg, w, owner, p.cbyte, i, r.rr, r.next, r.matched);
      PlainStep(dg, w, p);
      hide Step;
      hide NoAlias;
      var q := Counted(p, r.next, if Accepts(w, r.rr, r.matched) then 1 else 0);
      PlainRecords(dg, w, q, i - 1, n - 1);
    }
  }

  lemma PlainStep(dg: seq<Byte>, w: Wanted, p: Pass)
    requires var r := RecordAt(dg, p.cbyte, Some(CurrentOwner(w, p)));
             r.Record? && !(r.matched && r.rr.class_ == DNS_CLASS_IN && IsAlias(w, r.rr))
    ensures var r := RecordAt(dg, p.cbyte, Some(CurrentOwner(w, p)));
            var q := Counted(p, r.next, if Accepts(w, r.rr, r.matched) then 1 else 0);
            Step(dg, w, p) == PassDone(q) && CurrentOwner(w, q) == CurrentOwner(w, p)
  {
    hide RecordAt;
    hide OwnerLabels;
  }

  /** Without an alias of the name asked for, the first pass counts the wanted records, whatever else there is. */
  lemma NoAliasCounts(dg: seq<Byte>, w: Wanted, p: Pass, n: nat) returns (ks: seq<nat>)
    requires Readable(dg, p.cbyte, n) && NoAlias(dg, w, CurrentOwner(w, p), p.cbyte, n)
    ensures Positions(dg, p.cbyte, n, CurrentOwner(w, p), w.typ, ks)
    ensures FirstPass(dg, w, p, n) == PassDone(Counted(p, Skip(dg, p.cbyte, n), |ks|))
  {
    ks := AcceptedAt(dg, w, CurrentOwner(w, p), p.cbyte, n);
    PlainRecords(dg, w, p, n, n);
    hide Step;
    hide Positions;
  }

  /** The record at this position is the first alias of the name asked for; the wanted records before it are `ks`. */
  ghost predicate FirstAlias(dg: seq<Byte>, w: Wanted, owner: seq<Label>, c: nat, i: nat, n: nat, ks: seq<nat>)
  {
    i < n && w.typ != RR_CNAME && NoAlias(dg, w, owner, c, i) && StandsFor(dg, c, i, owner, RR_CNAME) &&
    Positions(dg, c, i, owner, w.typ, ks)
  }

  /** What an alias does to the first pass, the next record being at `next`. It fails a query that forbids aliases, or
      that has met another behind the first that it followed; it is ignored behind a wanted record; otherwise it is
      followed, and its name and the print of that are kept, or what is wrong with the name decides. */
  ghost predicate AliasLeads(dg: seq<Byte>, w: Wanted, p: Pass, rr: Rr, next: nat, r: PassEnd)
  {
    var at, max := rr.rdstart, rr.rdstart + rr.rdlen;
    var met := if p.cname.Some? then p.cnameCount + 1 else p.cnameCount;
    if w.cnameForbid || (p.cname.Some? && met >= 2) then r.PassFail? && r.status == ProhibitedCname
    else if p.wantedrrs > 0 then r == PassDone(p.(cbyte := next, cnameCount := met))
    else if NameAt(dg, at, max).Name? && (w.quotefailCname ==> AllHost(NameAt(dg, at, max).labels)) then
      var text := Printed(NameAt(dg, at, max).labels, !w.quotefailCname, true);
      r == PassDone(p.(cbyte := next, cname := Some(Owner(dg, at)), cnameHere := true, cnameText := Some(text),
                       allocations := p.allocations + 2, cnameCount := met))
    else !r.PassDone?
  }

  /** So does the first alias of the name asked for, once the wanted records before it have been counted; and then the
      records behind it are read. */
  lemma AliasDecides(dg: seq<Byte>, w: Wanted, p: Pass, i: nat, n: nat, ks: seq<nat>) returns (r: PassEnd)
    requires FirstAlias(dg, w, CurrentOwner(w, p), p.cbyte, i, n, ks)
    ensures var c, rr := p.cbyte, RecordNo(dg, p.cbyte, i, CurrentOwner(w, p), RR_CNAME);
            AliasLeads(dg, w, Counted(p, Skip(dg, c, i), |ks|), rr, Skip(dg, c, i + 1), r)
    ensures FirstPass(dg, w, p, n) == if r.PassDone? then FirstPass(dg, w, r.p, n - i - 1) else r
  {
    var owner, c := CurrentOwner(w, p), p.cbyte;
    var all := AcceptedAt(dg, w, owner, c, i);
    SamePositions(dg, c, i, owner, w.typ, ks, all);
    hide Positions;
    AliasStands(dg, c, i, owner);
    PlainRecords(dg, w, p, i, n);
    var q := Counted(p, Skip(dg, c, i), |ks|);
    assert CurrentOwner(w, q) == owner;
    hide RecordNo;
    hide NoAlias;
    hide StandsFor;
    hide CurrentOwner;
    AliasStep(dg, w, q, RecordNo(dg, c, i, owner, RR_CNAME), Skip(dg, c, i + 1), owner);
    hide AliasLeads;
    hide Step;
    r := Step(dg, w, q);
  }

  /** There is only one list of them. */
  lemma SamePositions(dg: seq<Byte>, c: nat, n: nat, owner: seq<Label>, typ: nat, a: seq<nat>, b: seq<nat>)
    requires Positions(dg, c, n, owner, typ, a) && Positions(dg, c, n, owner, typ, b)
    ensures a == b
  {
    hide StandsFor;
    SameAscending(a, b);
  }

  lemma {:induction false} SameAscending(a: seq<nat>, b: seq<nat>)
    requires forall i, j :: 0 <= i < j < |a| ==> a[i] < a[j]
    requires forall i, j :: 0 <= i < j < |b| ==> b[i] < b[j]
    requires forall k :: k in a <==> k in b
    ensures a == b
    decreases |a|
  {
    assert b != [] ==> b[0] in a;
    if a != [] {
      assert a[0] in b && b[0] in a;
      var i :| 0 <= i < |a| && a[i] == b[0];
      var j :| 0 <= j < |b| && b[j] == a[0];
      assert a[0] == b[0];
      forall k ensures k in a[1..] <==> k in b[1..] {
        InTail(a, k);
        InTail(b, k);
      }
      SameAscending(a[1..], b[1..]);
    }
  }

  lemma InTail(a: seq<nat>, k: nat)
    requires a != [] && forall i, j :: 0 <= i < j < |a| ==> a[i] < a[j]
    ensures k in a[1..] <==> k in a && k != a[0]
  {
  }

  lemma AliasStands(dg: seq<Byte>, c: nat, i: nat, owner: seq<Label>)
    requires StandsFor(dg, c, i, owner, RR_CNAME)
    ensures Readable(dg, c, i) && Readable(dg, c, i + 1)
    ensures RecordAt(dg, Skip(dg, c, i), Some(owner)) ==
            Record(RecordNo(dg, c, i, owner, RR_CNAME), Skip(dg, c, i + 1), true)
    ensures RecordNo(dg, c, i, owner, RR_CNAME).typ == RR_CNAME &&
            RecordNo(dg, c, i, owner, RR_CNAME).class_ == DNS_CLASS_IN
    decreases i
  {
    SameRecord(dg, Skip(dg, c, i), owner);
    hide RecordAt;
    SkipNext(dg, c, i);
  }

  lemma {:induction false} SkipNext(dg: seq<Byte>, c: nat, i: nat)
    requires Readable(dg, c, i) && RecordAt(dg, Skip(dg, c, i), None).Record?
    ensures Readable(dg, c, i + 1) && Skip(dg, c, i + 1) == RecordAt(dg, Skip(dg, c, i), None).next
    decreases i
  {
    hide RecordAt;
    if i > 0 {
      SkipNext(dg, RecordAt(dg, c, None).next, i - 1);
    } else {
      assert Readable(dg, RecordAt(dg, c, None).next, 0);
    }
  }

  lemma AliasStep(dg: seq<Byte>, w: Wanted, p: Pass, rr: Rr, next: nat, owner: seq<Label>)
    requires owner == CurrentOwner(w, p) && RecordAt(dg, p.cbyte, Some(owner)) == Record(rr, next, true)
    requires rr.typ == RR_CNAME && rr.class_ == DNS_CLASS_IN && w.typ != RR_CNAME
    ensures AliasLeads(dg, w, p, rr, next, Step(dg, w, p))
  {
    hide RecordAt;
    hide OwnerLabels;
    PrintsTheName(dg, Start(rr.rdstart, rr.rdstart + rr.rdlen), !w.quotefailCname, true);
    NameIsRest(dg, rr.rdstart, rr.rdstart + rr.rdlen);
    hide NameAt;
    hide RestText;
  }

  /** An alias of the name asked for, where none is allowed, as for the hosts of NS and MX records, ends a query with
      ProhibitedCname; so does one when another has been followed and a second one met before. */
  lemma ForbiddenDecides(cfg: Config, s: St, dg: seq<Byte>, serv: nat, viatcp: bool, now: int, os: seq<Stray>, q: QId,
                         t: St, i: nat, ks: seq<nat>)
    requires ValidConfig(cfg) && Processes(cfg, s, dg, serv, viatcp, now, os, q, t)
    requires q in s.qs && |dg| >= DNS_HDRSIZE && HeaderOf(dg).rcode in {0, 3}
    requires s.qs[q].flags.cnameForbid || (s.qs[q].cname.Some? && s.qs[q].cnameCount > 0)
    requires var x := s.qs[q];
             var name := if x.cname.Some? then OwnerLabels(x.cname.value) else AskedName(x.dgram);
             FirstAlias(dg, WantedBy(x), name, |x.dgram|, i, HeaderOf(dg).ancount, ks)
    ensures Reported(s, t, q, ProhibitedCname, [])
  {
    var x := s.qs[q];
    var r := AliasDecides(dg, WantedBy(x), FirstState(x), i, HeaderOf(dg).ancount, ks);
    hide FirstAlias;
    hide FirstPass;
    hide Inv;
    hide Reported;
    hide StartsAgain;
    hide Processes;
    AnswerDecides(cfg, s, dg, serv, viatcp, now, os, q, t);
  }
}
