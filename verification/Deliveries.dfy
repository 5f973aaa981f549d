/** The second pass over an answer, record by record: how the steps of the loop at
    adns/reply.c:432-456 add up to what Submission says of the whole. */
module Deliveries {
  import opened Basics
  import opened Headers
  import opened Names
  import opened Texts
  import opened Parsers
  import opened Records
  import opened Queries
  import opened Answers
  import opened LifeCycle
  import opened Steps
  import opened Submission
  import opened Replies

  // ---------- Reading one record ----------

  // pap_findaddrs (adns/types.c:555-604), up to the sorting at its end.
  method FindAddresses(dgram: seq<Byte>, c0: nat, count: nat, owner: Owner)
    returns (st: Status, c: nat, addrs: seq<Stored>)
    requires ValidOwner(owner) && !FindAddrs(dgram, c0, count, OwnerLabels(owner), []).GlueDiverges?
    ensures match FindAddrs(dgram, c0, count, OwnerLabels(owner), [])
            case Glue(next, found) => st == Ok && c == next && addrs == found
            case GlueBad(e) => st == e && st != Ok
  {
    hide RecordAt;
    hide OwnerLabels;
    hide Rdata;
    st, c, addrs := Ok, c0, [];
    ghost var ls := OwnerLabels(owner);
    var rri := 0;
    while rri < count
      invariant 0 <= rri <= count && st == Ok
      invariant FindAddrs(dgram, c, count - rri, ls, addrs) == FindAddrs(dgram, c0, count, ls, [])
    {
      SameRecord(dgram, c, ls);
      var r := FindRRAnychk(dgram, c, Some(owner));
      match r {
        case RecordBad(e) =>
          RecordBadNotOk(dgram, c, Some(ls));
          st := e;
          return;
        case RecordTruncated =>
          if addrs != [] {
            break;
          }
        case Record(rr, next, matched) =>
          c := next;
          if !matched || rr.class_ != DNS_CLASS_IN || rr.typ != 1 {
            if addrs != [] {
              break;
            }
          } else {
            if rr.rdlen != 4 {
              st := InvalidData;
              return;
            }
            addrs := addrs + [Address(Rdata(dgram, rr))];
          }
      }
      rri := rri + 1;
    }
  }

  // The two searches of pap_hostaddr (adns/types.c:655-666).
  method FindHost(dgram: seq<Byte>, sec: Sections, owner: Owner) returns (st: Status, addrs: seq<Stored>)
    requires ValidOwner(owner) && !FindGlue(dgram, sec, OwnerLabels(owner)).GlueDiverges?
    ensures match FindGlue(dgram, sec, OwnerLabels(owner))
            case Glue(_, found) => st == Ok && addrs == found
            case GlueBad(e) => st == e && st != Ok
  {
    hide FindAddrs;
    hide OwnerLabels;
    var c;
    st, c, addrs := FindAddresses(dgram, sec.nsstart, sec.nscount, owner);
    if st == Ok && addrs == [] {
      st, c, addrs := FindAddresses(dgram, c, sec.arcount, owner);
    }
  }

  // ---------- What one record does to the state ----------

  function Beside(s: St, q: QId, ptrAddr: Option<seq<Byte>>, blocks: nat): St
    requires q in s.qs
  {
    Set(s, q, s.qs[q].(ptrAddr := ptrAddr, allocations := s.qs[q].allocations + blocks))
  }

  function Absorb(cfg: Config, s: St, q: QId, r: Parsed, i: nat, now: int): St
    requires ValidConfig(cfg) && q in s.qs && Numbered(s)
    requires r.Parsed? && AllWithinLimits(KidOf(r, i))
  {
    Beside(SubmitKids(cfg, s, q, KidOf(r, i), now), q, r.ptrAddr, r.blocks)
  }

  /** Submitting a child looks at the type and flags of its parent only. */
  lemma SubmitKidBeside(cfg: Config, s: St, q: QId, kid: Kid, now: int, ptrAddr: Option<seq<Byte>>, blocks: nat)
    requires ValidConfig(cfg) && q in s.qs && s.unused !in s.qs && WithinLimits(kid.labels)
    ensures var t := SubmitKid(cfg, s, q, kid, now);
            q in t.qs && SubmitKid(cfg, Beside(s, q, ptrAddr, blocks), q, kid, now) == Beside(t, q, ptrAddr, blocks)
  {
    hide SubmitKid;
    hide WithinLimits;
    hide Dispatched;
    var u := Beside(s, q, ptrAddr, blocks);
    SubmitKidIs(cfg, s, q, kid, now);
    SubmitKidIs(cfg, u, q, kid, now);
    LikeParent(s.qs[q], u.qs[q], s.nextid % 0x1_0000, kid);
    hide NewKid;
    var t := SubmitKid(cfg, s, q, kid, now);
    assert SubmitKid(cfg, u, q, kid, now).qs == Beside(t, q, ptrAddr, blocks).qs;
  }

  lemma LikeParent(x: Query, y: Query, id: nat, kid: Kid)
    requires x.typ == y.typ && x.flags == y.flags && WithinLimits(kid.labels)
    ensures NewKid(x, id, kid) == NewKid(y, id, kid)
  {
  }

  lemma {:induction false} SubmitKidsBeside(cfg: Config, s: St, q: QId, kids: seq<Kid>, now: int,
                                            ptrAddr: Option<seq<Byte>>, blocks: nat)
    requires ValidConfig(cfg) && q in s.qs && Numbered(s) && AllWithinLimits(kids)
    ensures SubmitKids(cfg, Beside(s, q, ptrAddr, blocks), q, kids, now) ==
            Beside(SubmitKids(cfg, s, q, kids, now), q, ptrAddr, blocks)
    decreases |kids|
  {
    hide SubmitKid;
    hide WithinLimits;
    if kids != [] {
      SubmitKidBeside(cfg, s, q, kids[0], now, ptrAddr, blocks);
      SubmitKidIs(cfg, s, q, kids[0], now);
      assert AllWithinLimits(kids[1..]);
      SubmitKidsBeside(cfg, SubmitKid(cfg, s, q, kids[0], now), q, kids[1..], now, ptrAddr, blocks);
    }
  }

  lemma {:induction false} SubmitKidsAppend(cfg: Config, s: St, q: QId, a: seq<Kid>, b: seq<Kid>, now: int)
    requires ValidConfig(cfg) && q in s.qs && Numbered(s)
    requires AllWithinLimits(a) && AllWithinLimits(b)
    ensures AllWithinLimits(a + b)
    ensures SubmitKids(cfg, s, q, a + b, now) == SubmitKids(cfg, SubmitKids(cfg, s, q, a, now), q, b, now)
    decreases |a|
  {
    hide SubmitKid;
    hide WithinLimits;
    if a == [] {
      assert a + b == b;
    } else {
      SubmitKidIs(cfg, s, q, a[0], now);
      assert AllWithinLimits(a[1..]) && (a + b)[0] == a[0] && (a + b)[1..] == a[1..] + b;
      SubmitKidsAppend(cfg, SubmitKid(cfg, s, q, a[0], now), q, a[1..], b, now);
    }
  }

  /** One more record: its child joins those submitted before. */
  lemma AbsorbNext(cfg: Config, s: St, q: QId, kids: seq<Kid>, ptrAddr: Option<seq<Byte>>, blocks: nat,
                   r: Parsed, i: nat, now: int)
    requires ValidConfig(cfg) && q in s.qs && Numbered(s) && AllWithinLimits(kids)
    requires r.Parsed? && AllWithinLimits(KidOf(r, i))
    ensures AllWithinLimits(kids + KidOf(r, i))
    ensures Absorb(cfg, Beside(SubmitKids(cfg, s, q, kids, now), q, ptrAddr, blocks), q, r, i, now) ==
            Beside(SubmitKids(cfg, s, q, kids + KidOf(r, i), now), q, r.ptrAddr, blocks + r.blocks)
  {
    hide SubmitKids;
    hide WithinLimits;
    var t := SubmitKids(cfg, s, q, kids, now);
    SubmitKidsBeside(cfg, t, q, KidOf(r, i), now, ptrAddr, blocks);
    SubmitKidsAppend(cfg, s, q, kids, KidOf(r, i), now);
    hide KidOf;
  }

  lemma BesideTwice(s: St, q: QId, ptrAddr: Option<seq<Byte>>, a: nat, ptrAddr': Option<seq<Byte>>, b: nat)
    requires q in s.qs
    ensures Beside(Beside(s, q, ptrAddr, a), q, ptrAddr', b) == Beside(s, q, ptrAddr', a + b)
  {
    assert Beside(Beside(s, q, ptrAddr, a), q, ptrAddr', b).qs == Beside(s, q, ptrAddr', a + b).qs;
  }

  lemma BesideAgain(s: St, q: QId, ptrAddr: Option<seq<Byte>>, a: nat, b: nat)
    requires q in s.qs
    ensures var t := Beside(s, q, ptrAddr, a);
            q in t.qs && t.qs[q].ptrAddr == ptrAddr && Beside(t, q, ptrAddr, b) == Beside(s, q, ptrAddr, a + b)
  {
    BesideTwice(s, q, ptrAddr, a, ptrAddr, b);
  }

  lemma BesideAddress(s: St, q: QId, ptrAddr: Option<seq<Byte>>, blocks: nat, ptrAddr': Option<seq<Byte>>)
    requires q in s.qs
    ensures var t := Beside(s, q, ptrAddr, blocks);
            q in t.qs && Set(t, q, t.qs[q].(ptrAddr := ptrAddr')) == Beside(s, q, ptrAddr', blocks)
  {
    var t := Beside(s, q, ptrAddr, blocks);
    assert Set(t, q, t.qs[q].(ptrAddr := ptrAddr')).qs == Beside(s, q, ptrAddr', blocks).qs;
  }

  /** A record without a child. */
  lemma AbsorbAlone(cfg: Config, s: St, q: QId, r: Parsed, i: nat, now: int)
    requires ValidConfig(cfg) && q in s.qs && Numbered(s) && r.Parsed? && r.kid.None?
    ensures AllWithinLimits(KidOf(r, i)) && Absorb(cfg, s, q, r, i, now) == Beside(s, q, r.ptrAddr, r.blocks)
    ensures r.blocks == 0 && r.ptrAddr == s.qs[q].ptrAddr ==> Absorb(cfg, s, q, r, i, now) == s
  {
    hide WithinLimits;
    if r.blocks == 0 && r.ptrAddr == s.qs[q].ptrAddr {
      assert Beside(s, q, r.ptrAddr, 0).qs == s.qs;
    }
  }

  lemma SubmitOneKid(cfg: Config, s: St, q: QId, kid: Kid, now: int)
    requires ValidConfig(cfg) && q in s.qs && Numbered(s) && WithinLimits(kid.labels) && s.unused !in s.qs
    ensures AllWithinLimits([kid]) && SubmitKids(cfg, s, q, [kid], now) == SubmitKid(cfg, s, q, kid, now)
  {
    hide SubmitKid;
    hide WithinLimits;
    var kids := [kid];
    assert kids[0] == kid && kids[1..] == [];
    SubmitKidIs(cfg, s, q, kid, now);
  }

  /** A record with a child, which is submitted when the record's blocks have been allocated. */
  lemma AbsorbKid(cfg: Config, s: St, q: QId, r: Parsed, i: nat, now: int)
    requires ValidConfig(cfg) && q in s.qs && Numbered(s) && r.Parsed? && r.kid.Some? && WithinLimits(r.kid.value)
    requires s.unused !in s.qs
    ensures AllWithinLimits(KidOf(r, i))
    ensures Absorb(cfg, s, q, r, i, now) ==
            SubmitKid(cfg, Beside(s, q, r.ptrAddr, r.blocks), q, Kid(r.kid.value, i), now)
  {
    hide SubmitKid;
    hide SubmitKids;
    hide WithinLimits;
    SubmitOneKid(cfg, s, q, Kid(r.kid.value, i), now);
    SubmitKidBeside(cfg, s, q, Kid(r.kid.value, i), now, r.ptrAddr, r.blocks);
    hide Beside;
  }

  /** A query in the middle of the second pass. */
  ghost predicate Absorbing(cfg: Config, s: St, q: QId)
    requires ValidConfig(cfg)
  {
    Inv(cfg, s, {q}) && q in s.qs && ParentLives(s, q) && 0 <= s.qs[q].id < 0x1_0000 &&
    (s.qs[q].state.Tosend? || s.qs[q].state.Tcpw?) && Numbered(s) && Question(s.qs[q].dgram) &&
    s.qs[q].answer.status == Ok
  }

  lemma AbsorbingRoot(cfg: Config, s: St, q: QId)
    requires ValidConfig(cfg) && Absorbing(cfg, s, q)
    ensures Derefs(s.qs[q].typ) ==> s.qs[q].parent.None?
  {
    InvAt(cfg, s, {q}, q);
    hide Inv;
    DerefsAlone(cfg, s.qs[q]);
  }

  lemma ParentLivesBeside(s: St, q: QId, ptrAddr: Option<seq<Byte>>, blocks: nat)
    requires q in s.qs && ParentLives(s, q)
    ensures ParentLives(Beside(s, q, ptrAddr, blocks), q)
  {
  }

  /** What reading a record leaves of the query. */
  predicate SameQuestion(x: Query, y: Query)
  {
    y.typ == x.typ && y.flags == x.flags && y.dgram == x.dgram && y.cname == x.cname
  }

  lemma BesideAbsorbing(cfg: Config, s: St, q: QId, ptrAddr: Option<seq<Byte>>, blocks: nat)
    requires ValidConfig(cfg) && Absorbing(cfg, s, q)
    ensures var t := Beside(s, q, ptrAddr, blocks); Absorbing(cfg, t, q) && SameQuestion(s.qs[q], t.qs[q])
  {
    hide Inv;
    AnsweringKeeps(cfg, s, q, ptrAddr, s.qs[q].allocations + blocks);
    ParentLivesBeside(s, q, ptrAddr, blocks);
    assert Numbered(Beside(s, q, ptrAddr, blocks));
  }

  lemma AbsorbingFacts(cfg: Config, s: St, q: QId)
    requires ValidConfig(cfg) && Absorbing(cfg, s, q)
    ensures q in s.qs && Inv(cfg, s, {q}) && Numbered(s) && (Derefs(s.qs[q].typ) ==> s.qs[q].parent.None?)
  {
    AbsorbingRoot(cfg, s, q);
  }

  lemma KidsAbsorbing(cfg: Config, s: St, q: QId, kids: seq<Kid>, now: int)
    requires ValidConfig(cfg) && Absorbing(cfg, s, q) && AllWithinLimits(kids)
    requires q in s.qs && Numbered(s) && (kids != [] ==> Derefs(s.qs[q].typ))
    ensures var t := SubmitKids(cfg, s, q, kids, now); Absorbing(cfg, t, q) && SameQuestion(s.qs[q], t.qs[q])
  {
    hide Inv;
    hide Derefs;
    hide SubmitKids;
    hide AllWithinLimits;
    hide Numbered;
    AbsorbingFacts(cfg, s, q);
    SubmitKidsKeep(cfg, s, q, kids, now);
    InvNotSelf(cfg, SubmitKids(cfg, s, q, kids, now), q);
  }

  lemma InvNotSelf(cfg: Config, s: St, q: QId)
    requires ValidConfig(cfg) && Inv(cfg, s, {q}) && q in s.qs
    ensures ParentLives(s, q)
  {
    InvAt(cfg, s, {q}, q);
  }

  lemma AbsorbKeeps(cfg: Config, s: St, q: QId, r: Parsed, i: nat, now: int)
    requires ValidConfig(cfg) && Absorbing(cfg, s, q) && r.Parsed? && AllWithinLimits(KidOf(r, i))
    requires r.kid.Some? ==> Derefs(s.qs[q].typ)
    ensures var t := Absorb(cfg, s, q, r, i, now); Absorbing(cfg, t, q) && SameQuestion(s.qs[q], t.qs[q])
  {
    hide SubmitKids;
    hide AllWithinLimits;
    KidsAbsorbing(cfg, s, q, KidOf(r, i), now);
    BesideAbsorbing(cfg, SubmitKids(cfg, s, q, KidOf(r, i), now), q, r.ptrAddr, r.blocks);
    hide Absorbing;
    hide Beside;
  }

  // ---------- The second pass so far ----------

  /** The records before the current one have come to `kids`, `data` and `blocks`, `rest` is what
      those behind will come to, and both make up `full`. */
  predicate Progress(full: Second, rest: Second, kids: seq<Kid>, data: seq<Stored>, blocks: nat)
  {
    rest.Second? && full == Second(kids + rest.kids, rest.failed, data + rest.rrs, rest.ptrAddr, blocks + rest.blocks)
  }

  lemma ProgressStarts(full: Second)
    requires full.Second?
    ensures Progress(full, full, [], [], 0)
  {
    assert [] + full.kids == full.kids && [] + full.rrs == full.rrs;
  }

  lemma ProgressStep(x: Query, dg: seq<Byte>, rrs: seq<Rr>, i: nat, sec: Sections, ptrAddr: Option<seq<Byte>>,
                     os: seq<Stray>, full: Second, kids: seq<Kid>, data: seq<Stored>, blocks: nat)
    requires i < |rrs| && Progress(full, SecondPass(x, dg, rrs, i, sec, ptrAddr, os), kids, data, blocks)
    ensures var r := ParseRr(x, dg, rrs[i], sec, ptrAddr, StrayAt(os, i));
            r.Parsed? &&
            if r.status != Ok then
              full == Second(kids + KidOf(r, i), Some(r.status), data, r.ptrAddr, blocks + r.blocks)
            else Progress(full, SecondPass(x, dg, rrs, i + 1, sec, r.ptrAddr, os), kids + KidOf(r, i),
                          data + [r.data], blocks + r.blocks)
  {
    hide ParseRr;
    var r := ParseRr(x, dg, rrs[i], sec, ptrAddr, StrayAt(os, i));
    assert r.Parsed?;
    if r.status != Ok {
      assert data + [] == data;
    } else {
      var rest := SecondPass(x, dg, rrs, i + 1, sec, r.ptrAddr, os);
      assert kids + (KidOf(r, i) + rest.kids) == kids + KidOf(r, i) + rest.kids;
      assert data + ([r.data] + rest.rrs) == data + [r.data] + rest.rrs;
    }
  }

  lemma ProgressEnds(full: Second, ptrAddr: Option<seq<Byte>>, kids: seq<Kid>, data: seq<Stored>, blocks: nat)
    requires Progress(full, Second([], None, [], ptrAddr, 0), kids, data, blocks)
    ensures full == Second(kids, None, data, ptrAddr, blocks)
  {
    assert kids + [] == kids && data + [] == data;
  }

  /** Reading on: the next record is the next one accepted, or none of those. */
  lemma AcceptedStep(dg: seq<Byte>, w: Wanted, owner: seq<Label>, c: nat, n: nat)
    requires n > 0 && Readable(dg, c, n)
    ensures var r := RecordAt(dg, c, Some(owner));
            r.Record? && Readable(dg, r.next, n - 1) && !RecordAt(dg, c, None).RecordDiverges? &&
            Accepted(dg, w, owner, c, n) ==
            (if Accepts(w, r.rr, r.matched) then [r.rr] else []) + Accepted(dg, w, owner, r.next, n - 1)
  {
    SameRecord(dg, c, owner);
    hide RecordAt;
  }

  /** `n` of the records in `all` have been met, and the rest is accepted among the `left` records from `c` on. */
  ghost predicate Left(dg: seq<Byte>, w: Wanted, owner: seq<Label>, all: seq<Rr>, n: nat, c: nat, left: nat)
  {
    n <= |all| && all[n..] == Accepted(dg, w, owner, c, left) && Readable(dg, c, left)
  }

  lemma LeftStep(dg: seq<Byte>, w: Wanted, owner: seq<Label>, all: seq<Rr>, n: nat, c: nat, left: nat)
    requires left > 0 && Left(dg, w, owner, all, n, c, left)
    ensures var r := RecordAt(dg, c, Some(owner));
            r.Record? && !RecordAt(dg, c, None).RecordDiverges? && r.rr.rdstart + r.rr.rdlen <= |dg| &&
            if Accepts(w, r.rr, r.matched) then
              n < |all| && all[n] == r.rr && Left(dg, w, owner, all, n + 1, r.next, left - 1)
            else Left(dg, w, owner, all, n, r.next, left - 1)
  {
    hide RecordAt;
    AcceptedStep(dg, w, owner, c, left);
    RecordAdvances(dg, c, owner);
    var r := RecordAt(dg, c, Some(owner));
    if Accepts(w, r.rr, r.matched) {
      var more := Accepted(dg, w, owner, r.next, left - 1);
      assert all[n..] == [r.rr] + more;
      assert all[n..][0] == r.rr && all[n..][1..] == more;
    }
  }

  /** A record is parsed by the type and flags of the query. */
  lemma ParseRrAlike(x: Query, y: Query, dg: seq<Byte>, rr: Rr, sec: Sections, ptrAddr: Option<seq<Byte>>, o: Stray)
    requires y.typ == x.typ && y.flags == x.flags && y.dgram == x.dgram
    ensures ParseRr(y, dg, rr, sec, ptrAddr, o) == ParseRr(x, dg, rr, sec, ptrAddr, o)
  {
    hide RestText;
    hide FindGlue;
    hide OwnerLabels;
  }

  lemma {:induction false} SecondPassAlike(x: Query, y: Query, dg: seq<Byte>, rrs: seq<Rr>, i: nat, sec: Sections,
                                           ptrAddr: Option<seq<Byte>>, os: seq<Stray>)
    requires y.typ == x.typ && y.flags == x.flags && y.dgram == x.dgram && i <= |rrs|
    ensures SecondPass(y, dg, rrs, i, sec, ptrAddr, os) == SecondPass(x, dg, rrs, i, sec, ptrAddr, os)
    decreases |rrs| - i
  {
    hide ParseRr;
    if i < |rrs| {
      ParseRrAlike(x, y, dg, rrs[i], sec, ptrAddr, StrayAt(os, i));
      var r := ParseRr(x, dg, rrs[i], sec, ptrAddr, StrayAt(os, i));
      if r.Parsed? {
        SecondPassAlike(x, y, dg, rrs, i + 1, sec, r.ptrAddr, os);
      }
    }
  }

  /** What the first pass writes into the query makes no difference to the rest of the reading. */
  lemma ReadNoted(x: Query, dg: seq<Byte>, h: Header, p: Pass, os: seq<Stray>)
    ensures ReadPositive(Noted(x, p), dg, h, p, os) == ReadPositive(x, dg, h, p, os)
    ensures ReadNegative(Noted(x, p), dg, h, p) == ReadNegative(x, dg, h, p)
    ensures ReadPositive(x, dg, h, p, os).Read? ==> ReadPositive(x, dg, h, p, os).verdict.pass == p
    ensures ReadNegative(x, dg, h, p).Read? ==> ReadNegative(x, dg, h, p).verdict.pass == p
  {
    hide SecondPass;
    hide Accepted;
    hide AuthorityAt;
    hide ParseRr;
    var y, sec, rrs, n := Noted(x, p), SectionsBehind(h, p), Wants(x, dg, h, p), Places(x.typ, p.wantedrrs);
    assert Wants(y, dg, h, p) == rrs;
    SecondPassAlike(x, y, dg, Tried(x, dg, h, p), 0, sec, x.ptrAddr, os);
    if n < |rrs| {
      SecondPassAlike(x, y, dg, rrs[..n], 0, sec, x.ptrAddr, os);
      var room := SecondPass(x, dg, rrs[..n], 0, sec, x.ptrAddr, os);
      if room.Second? {
        ParseRrAlike(x, y, dg, rrs[n], sec, room.ptrAddr, StrayAt(os, n));
      }
    }
  }

  lemma AbsorbingHas(cfg: Config, s: St, q: QId)
    requires ValidConfig(cfg) && Absorbing(cfg, s, q)
    ensures q in s.qs
  {
  }

  lemma KidsOfParsed(r: Parsed, i: nat)
    requires r.Parsed? && (r.kid.Some? ==> WithinLimits(r.kid.value))
    ensures AllWithinLimits(KidOf(r, i))
  {
    hide WithinLimits;
  }

  lemma BesideAddr(s: St, t: St, q: QId, ptrAddr: Option<seq<Byte>>, blocks: nat)
    requires q in t.qs && s == Beside(t, q, ptrAddr, blocks)
    ensures q in s.qs && s.qs[q].ptrAddr == ptrAddr
  {
  }

  /** What the second pass relies on from the first (see Answers.SecondPassCount), and that the reply can be
      read to its end. */
  ghost predicate Takeable(x: Query, dg: seq<Byte>, h: Header, p: Pass, os: seq<Stray>)
  {
    x.cname == p.cname && ValidOwner(if p.cname.Some? then p.cname.value else Owner(x.dgram, DNS_HDRSIZE)) &&
    Readable(dg, |x.dgram|, h.ancount) && p.wantedrrs <= |Wants(x, dg, h, p)| && ReadPositive(x, dg, h, p, os).Read?
  }

  lemma TakeableReads(x: Query, dg: seq<Byte>, h: Header, p: Pass, os: seq<Stray>)
    requires Takeable(x, dg, h, p, os)
    ensures var full := WholeSecond(x, dg, h, p, os);
            full.Second? && !Overruns(x, dg, h, p, os) && (full.failed.None? ==> |Wants(x, dg, h, p)| == p.wantedrrs) &&
            ReadPositive(x, dg, h, p, os) ==
              Read(Answered(p, full.kids, full.failed, full.rrs, full.ptrAddr, full.blocks + 1))
  {
    hide SecondPass;
    hide Accepted;
    hide Readable;
    hide Overruns;
  }

  lemma TakeableOwner(x: Query, dg: seq<Byte>, h: Header, p: Pass, os: seq<Stray>)
    requires Takeable(x, dg, h, p, os)
    ensures var owner := if x.cname.Some? then x.cname.value else Owner(x.dgram, DNS_HDRSIZE);
            ValidOwner(owner) && OwnerLabels(owner) == CurrentOwner(WantedBy(x), p) &&
              WantedBy(x).typ == x.typ % 0x1_0000
  {
  }

  /** Where the loop stands when `n` records have been stored. */
  ghost predicate Along(x: Query, dg: seq<Byte>, h: Header, p: Pass, os: seq<Stray>, n: nat, kids: seq<Kid>,
                        data: seq<Stored>, blocks: nat, ptrAddr: Option<seq<Byte>>)
  {
    n <= |Tried(x, dg, h, p)| &&
    Progress(WholeSecond(x, dg, h, p, os),
             SecondPass(x, dg, Tried(x, dg, h, p), n, SectionsBehind(h, p), ptrAddr, os), kids, data, blocks)
  }

  /** While the reading can end well, there is no accepted record behind one too many. */
  lemma RoomForNext(x: Query, dg: seq<Byte>, h: Header, p: Pass, os: seq<Stray>, n: nat, kids: seq<Kid>,
                    data: seq<Stored>, blocks: nat, ptrAddr: Option<seq<Byte>>)
    requires Takeable(x, dg, h, p, os) && n < |Wants(x, dg, h, p)| &&
             Along(x, dg, h, p, os, n, kids, data, blocks, ptrAddr)
    ensures n < |Tried(x, dg, h, p)| && Tried(x, dg, h, p)[n] == Wants(x, dg, h, p)[n]
  {
    hide Accepted;
    hide Readable;
    TakeableReads(x, dg, h, p, os);
    hide Takeable;
    hide Overruns;
    if n == |Tried(x, dg, h, p)| {
      ProgressEnds(WholeSecond(x, dg, h, p, os), ptrAddr, kids, data, blocks);
    }
  }

  /** At the end of the section everything has been taken. */
  lemma AllTaken(x: Query, dg: seq<Byte>, h: Header, p: Pass, os: seq<Stray>, n: nat, kids: seq<Kid>,
                 data: seq<Stored>, blocks: nat, ptrAddr: Option<seq<Byte>>)
    requires Takeable(x, dg, h, p, os) && Along(x, dg, h, p, os, n, kids, data, blocks, ptrAddr)
    requires exists w, owner, c :: Left(dg, w, owner, Wants(x, dg, h, p), n, c, 0)
    ensures WholeSecond(x, dg, h, p, os) == Second(kids, None, data, ptrAddr, blocks)
  {
    var w, owner, c :| Left(dg, w, owner, Wants(x, dg, h, p), n, c, 0);
    assert Accepted(dg, w, owner, c, 0) == [] && n == |Wants(x, dg, h, p)|;
    hide Accepted;
    hide Readable;
    ProgressEnds(WholeSecond(x, dg, h, p, os), ptrAddr, kids, data, blocks);
  }

  lemma FirstAllocation(cfg: Config, s: St, q: QId, now: int)
    requires ValidConfig(cfg) && Absorbing(cfg, s, q) && q in s.qs && Numbered(s)
    ensures AllWithinLimits([]) &&
            Beside(s, q, s.qs[q].ptrAddr, 1) == Beside(SubmitKids(cfg, s, q, [], now), q, s.qs[q].ptrAddr, 1)
    ensures var t := Beside(s, q, s.qs[q].ptrAddr, 1); Absorbing(cfg, t, q) && SameQuestion(s.qs[q], t.qs[q])
  {
    hide Inv;
    BesideAbsorbing(cfg, s, q, s.qs[q].ptrAddr, 1);
  }

  lemma ReplyingAbsorbs(cfg: Config, s: St, q: QId)
    requires ValidConfig(cfg) && Replying(cfg, s, q)
    ensures Absorbing(cfg, s, q) && q in s.qs && Numbered(s) && ParentLives(s, q)
  {
  }

  lemma AbsorbingParent(cfg: Config, s: St, q: QId)
    requires ValidConfig(cfg) && Absorbing(cfg, s, q)
    ensures ParentLives(s, q)
  {
  }

  /** After the loop, TakeAnswer has only its conclusion left. */
  lemma TakenIs(cfg: Config, s: St, q: QId, full: Second, now: int)
    requires ValidConfig(cfg) && q in s.qs && Numbered(s) && ParentLives(s, q) && full.Second? &&
             AllWithinLimits(full.kids)
    ensures var t := Beside(SubmitKids(cfg, s, q, full.kids, now), q, full.ptrAddr, full.blocks + 1);
            ParentLives(t, q) &&
            TakeAnswer(cfg, s, q, full.kids, full.failed, full.rrs, full.ptrAddr, full.blocks + 1, now) ==
            Conclude(t, q, full.failed, full.rrs)
  {
    hide SubmitKids;
    hide Conclude;
    hide AllWithinLimits;
  }

  /** The answer that a query is about to conclude with fits its children. */
  lemma TakenAccount(cfg: Config, s: St, q: QId, full: Second, now: int)
    requires ValidConfig(cfg) && Replying(cfg, s, q) && full.Second? && AllWithinLimits(full.kids)
    requires (full.kids != [] ==> Derefs(s.qs[q].typ)) && Complete(s.qs[q], full.kids, full.rrs, full.ptrAddr)
    ensures q in s.qs && Numbered(s)
    ensures var t := Beside(SubmitKids(cfg, s, q, full.kids, now), q, full.ptrAddr, full.blocks + 1);
            Accounted(t, q, full.rrs)
  {
    hide Inv;
    hide Complete;
    hide Accounted;
    AnswerAccounted(cfg, s, q, full.kids, full.rrs, full.ptrAddr, full.blocks + 1, now);
  }

  lemma AnswerStored(cfg: Config, s: St, q: QId, rrs: seq<Stored>)
    requires ValidConfig(cfg) && Absorbing(cfg, s, q)
    ensures q in s.qs && Inv(cfg, Set(s, q, s.qs[q].(answer := s.qs[q].answer.(rrs := rrs))), {q})
  {
    InvAt(cfg, s, {q}, q);
    hide Inv;
    AnswerFields(cfg, s.qs[q], rrs);
    hide Fields;
    SetKeeps(cfg, s, {q}, q, s.qs[q].(answer := s.qs[q].answer.(rrs := rrs)));
  }

  lemma TakeableLeft(x: Query, dg: seq<Byte>, h: Header, p: Pass, os: seq<Stray>)
    requires Takeable(x, dg, h, p, os)
    ensures Left(dg, WantedBy(x), CurrentOwner(WantedBy(x), p), Wants(x, dg, h, p), 0, |x.dgram|, h.ancount)
  {
    var all := Wants(x, dg, h, p);
    assert all[0..] == all;
    hide ReadPositive;
  }

  // ---------- Around the two passes ----------

  lemma NotedNothing(s: St, q: QId)
    requires q in s.qs
    ensures Set(s, q, Noted(s.qs[q], FirstState(s.qs[q]))) == s
  {
    assert Noted(s.qs[q], FirstState(s.qs[q])) == s.qs[q];
  }

  lemma QueryIsValid(cfg: Config, s: St, q: QId)
    requires ValidConfig(cfg) && Replying(cfg, s, q)
    ensures ValidOwner(WantedBy(s.qs[q]).query) && ValidPass(FirstState(s.qs[q]))
  {
    InvAt(cfg, s, {q}, q);
    hide Inv;
  }

  lemma CnameIsValid(cfg: Config, s: St, q: QId)
    requires ValidConfig(cfg) && Replying(cfg, s, q)
    ensures s.qs[q].cname.Some? ==> ValidOwner(s.qs[q].cname.value)
  {
    InvAt(cfg, s, {q}, q);
    hide Inv;
  }

  /** What the first pass leaves lets the second one run. */
  lemma FirstPassTakeable(x: Query, dg: seq<Byte>, h: Header, p: Pass, os: seq<Stray>)
    requires ValidOwner(WantedBy(x).query) && ValidPass(p) && ReadPositive(Noted(x, p), dg, h, p, os).Read?
    requires FirstPass(dg, WantedBy(x), FirstState(x), h.ancount) == PassDone(p)
    ensures Takeable(Noted(x, p), dg, h, p, os)
  {
    hide ReadPositive;
    hide ValidOwner;
    SecondPassCount(dg, WantedBy(x), FirstState(x), h.ancount);
  }

  lemma OwnerLabelsAre(o: Owner)
    requires ValidOwner(o)
    ensures OwnerLabels(o) == NameAt(o.dgram, o.begin, |o.dgram|).labels
  {
  }

  /** Asking for the name needs no more room than adns__mkquery_frdgram reserves behind a datagram of `n` bytes. */
  ghost predicate Fits(ls: seq<Label>, n: nat)
    requires WireLabels(ls)
  {
    |Wire(ls)| + 1 <= n
  }

  ghost predicate KidsFit(kids: seq<Kid>, n: nat)
    requires AllWithinLimits(kids)
  {
    forall i :: 0 <= i < |kids| ==> Fits(kids[i].labels, n)
  }

  ghost predicate RoomyCname(cname: Option<Owner>)
  {
    cname.Some? && ValidOwner(cname.value) ==> Roomy(cname.value.dgram, cname.value.begin)
  }

  /** The names that acting on the verdict asks for fit the room reserved. */
  ghost predicate RoomyVerdict(v: Verdict, n: nat)
  {
    match v
    case Restart(pass, _) => RoomyCname(pass.cname)
    case Answered(_, kids, _, _, _, _) => AllWithinLimits(kids) && KidsFit(kids, n)
    case _ => true
  }

  lemma FitsSuffices(avail: nat, dg: seq<Byte>, begin: nat)
    requires ValidOwner(Owner(dg, begin)) && WithinLimits(OwnerLabels(Owner(dg, begin)))
    requires Fits(OwnerLabels(Owner(dg, begin)), |dg|)
    ensures Suffices(avail, dg, begin)
  {
    hide Wire;
  }

  /** The child of the next record is one of those that the whole pass submits. */
  lemma NextKidFits(x: Query, dg: seq<Byte>, h: Header, p: Pass, os: seq<Stray>, n: nat, kids: seq<Kid>,
                    data: seq<Stored>, blocks: nat, ptrAddr: Option<seq<Byte>>)
    requires n < |Tried(x, dg, h, p)| && Along(x, dg, h, p, os, n, kids, data, blocks, ptrAddr)
    requires var full := WholeSecond(x, dg, h, p, os);
             full.Second? && AllWithinLimits(full.kids) && KidsFit(full.kids, |dg|)
    ensures var r := ParseRr(x, dg, Tried(x, dg, h, p)[n], SectionsBehind(h, p), ptrAddr, StrayAt(os, n));
            r.Parsed? && (r.kid.Some? ==> WithinLimits(r.kid.value) && Fits(r.kid.value, |dg|))
  {
    hide SecondPass;
    hide ParseRr;
    hide Tried;
    hide WithinLimits;
    hide Fits;
    var full, rrs := WholeSecond(x, dg, h, p, os), Tried(x, dg, h, p);
    ProgressStep(x, dg, rrs, n, SectionsBehind(h, p), ptrAddr, os, full, kids, data, blocks);
    var r := ParseRr(x, dg, rrs[n], SectionsBehind(h, p), ptrAddr, StrayAt(os, n));
    if r.kid.Some? {
      assert full.kids[|kids|] == Kid(r.kid.value, n);
    }
  }

  /** Reading on, from one record to the next. */
  lemma AlongStep(x: Query, dg: seq<Byte>, h: Header, p: Pass, os: seq<Stray>, n: nat, kids: seq<Kid>,
                  data: seq<Stored>, blocks: nat, ptrAddr: Option<seq<Byte>>)
    requires n < |Tried(x, dg, h, p)| && Along(x, dg, h, p, os, n, kids, data, blocks, ptrAddr)
    ensures var r := ParseRr(x, dg, Tried(x, dg, h, p)[n], SectionsBehind(h, p), ptrAddr, StrayAt(os, n));
            r.Parsed? &&
            if r.status != Ok then
              WholeSecond(x, dg, h, p, os) ==
                Second(kids + KidOf(r, n), Some(r.status), data, r.ptrAddr, blocks + r.blocks)
            else Along(x, dg, h, p, os, n + 1, kids + KidOf(r, n), data + [r.data], blocks + r.blocks, r.ptrAddr)
  {
    hide SecondPass;
    hide ParseRr;
    hide Tried;
    hide KidOf;
    ProgressStep(x, dg, Tried(x, dg, h, p), n, SectionsBehind(h, p), ptrAddr, os, WholeSecond(x, dg, h, p, os),
      kids, data, blocks);
  }

  lemma AlongStarts(x: Query, dg: seq<Byte>, h: Header, p: Pass, os: seq<Stray>)
    requires WholeSecond(x, dg, h, p, os).Second?
    ensures Along(x, dg, h, p, os, 0, [], [], 0, x.ptrAddr)
  {
    hide SecondPass;
    hide Tried;
    ProgressStarts(WholeSecond(x, dg, h, p, os));
  }

  /** Looking for the query a reply belongs to, from the `i`th of the queue on. */
  function MatchFrom(qs: map<QId, Query>, queue: seq<QId>, i: nat, dg: seq<Byte>, serv: nat, viatcp: bool): Option<QId>
    requires |dg| >= DNS_HDRSIZE && i <= |queue|
    requires forall q :: q in queue ==> q in qs && |qs[q].dgram| >= DNS_HDRSIZE
  {
    assert forall q :: q in queue[i..] ==> q in queue;
    FirstMatch(qs, queue[i..], dg, serv, viatcp)
  }

  lemma MatchFromStep(qs: map<QId, Query>, queue: seq<QId>, i: nat, dg: seq<Byte>, serv: nat, viatcp: bool)
    requires |dg| >= DNS_HDRSIZE && i < |queue|
    requires forall q :: q in queue ==> q in qs && |qs[q].dgram| >= DNS_HDRSIZE
    ensures queue[i] in queue && queue[i] in qs && |qs[queue[i]].dgram| >= DNS_HDRSIZE
    ensures MatchFrom(qs, queue, i, dg, serv, viatcp) ==
            if Matches(qs[queue[i]], dg, serv, viatcp) then Some(queue[i])
            else MatchFrom(qs, queue, i + 1, dg, serv, viatcp)
  {
    assert queue[i..][0] == queue[i] && queue[i..][1..] == queue[i + 1..];
  }

  lemma MatchFromBounds(qs: map<QId, Query>, queue: seq<QId>, dg: seq<Byte>, serv: nat, viatcp: bool)
    requires |dg| >= DNS_HDRSIZE
    requires forall q :: q in queue ==> q in qs && |qs[q].dgram| >= DNS_HDRSIZE
    ensures MatchFrom(qs, queue, 0, dg, serv, viatcp) == FirstMatch(qs, queue, dg, serv, viatcp)
    ensures MatchFrom(qs, queue, |queue|, dg, serv, viatcp) == None
  {
    assert queue[0..] == queue && queue[|queue|..] == [];
  }
}
