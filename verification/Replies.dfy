/** Reading a reply: header, matching query, answer and authority sections, down to the verdict on
    the query (adns/reply.c:55-477, adns/types.c:631-691, 843-862, 1057-1142; the other parsers are in Parsers). */
module Replies {
  import opened Allocs
  import opened Basics
  import opened Headers
  import opened Names
  import opened Texts
  import opened Records
  import opened Queries
  import opened Answers
  import opened LifeCycle
  import opened Reverses
  import opened Parsers
  import opened Submission
  import opened Runs

  /** A reply belongs to a query when it has its identifier, starts with its question and, over
      UDP, comes from a server that was asked. */
  predicate Matches(x: Query, dg: seq<Byte>, serv: nat, viatcp: bool)
    requires |dg| >= DNS_HDRSIZE && |x.dgram| >= DNS_HDRSIZE
  {
    x.id == GetW(dg, 0) && |x.dgram| <= |dg| && x.dgram[DNS_HDRSIZE..] == dg[DNS_HDRSIZE..|x.dgram|] &&
    (viatcp || serv in x.udpsent)
  }

  // ---------- Records of the answer ----------

  /** Where the sections behind the answers start, and how many records they have. */
  datatype Sections = Sections(nsstart: nat, nscount: nat, arcount: nat)

  /** The search for the addresses of a host: where it stopped, and what it found. */
  datatype Glue =
    | Glue(next: nat, addrs: seq<Stored>)
    | GlueBad(status: Status)
    | GlueDiverges

  predicate IsAddress(rr: Rr, matched: bool) { matched && rr.class_ == DNS_CLASS_IN && rr.typ == 1 }

  function Rdata(dg: seq<Byte>, rr: Rr): seq<Byte>
  {
    if rr.rdstart + rr.rdlen <= |dg| then dg[rr.rdstart..rr.rdstart + rr.rdlen] else []
  }

  /** pap_findaddrs: the first addresses of `owner` that stand together. */
  ghost function FindAddrs(dg: seq<Byte>, c: nat, n: nat, owner: seq<Label>, addrs: seq<Stored>): Glue
    decreases n
  {
    if n == 0 then Glue(c, addrs)
    else
      match RecordAt(dg, c, Some(owner))
      case RecordDiverges => GlueDiverges
      case RecordBad(st) => GlueBad(st)
      case RecordTruncated => if addrs != [] then Glue(c, addrs) else FindAddrs(dg, c, n - 1, owner, addrs)
      case Record(rr, next, matched) =>
        if !IsAddress(rr, matched) then
          if addrs != [] then Glue(next, addrs) else FindAddrs(dg, next, n - 1, owner, addrs)
        else if rr.rdlen != 4 then GlueBad(InvalidData)
        else FindAddrs(dg, next, n - 1, owner, addrs + [Address(Rdata(dg, rr))])
  }

  /** Both searches of pap_hostaddr: through the authority section, then through the additional one. */
  ghost function FindGlue(dg: seq<Byte>, sec: Sections, owner: seq<Label>): Glue
  {
    match FindAddrs(dg, sec.nsstart, sec.nscount, owner, [])
    case Glue(next, addrs) => if addrs == [] then FindAddrs(dg, next, sec.arcount, owner, []) else Glue(next, addrs)
    case other => other
  }

  /** What parsing one accepted record does: its status, the name it asks a child query about, the
      address a PTR query asks about, how many blocks it allocates, the record it makes, and whether it has stored
      anything of it, which a parser that fails early has not. */
  datatype Parsed =
    | Parsed(status: Status, kid: Option<seq<Label>>, ptrAddr: Option<seq<Byte>>, blocks: nat, data: Stored,
             stores: bool)
    | ParseDiverges

  ghost function ParseRr(x: Query, dg: seq<Byte>, rr: Rr, sec: Sections, ptrAddr: Option<seq<Byte>>, o: Stray): Parsed
  {
    var max, nothing := rr.rdstart + rr.rdlen, Address([]);
    if x.typ == PTR then ParsePtr(x, dg, rr, ptrAddr)
    else if x.typ == NS then ParseHost(x, dg, 0, rr.rdstart, max, sec, ptrAddr)
    else if x.typ == MX then
      if rr.rdlen < 2 || max > |dg| then Parsed(InvalidData, None, ptrAddr, 0, nothing, false)
      else Storing(ParseHost(x, dg, GetW(dg, rr.rdstart), rr.rdstart + 2, max, sec, ptrAddr))
    else if x.typ % 0x1_0000 == 1 then
      if rr.rdlen != 4 then Parsed(InvalidData, None, ptrAddr, 0, nothing, false)
      else Parsed(Ok, None, ptrAddr, 0, Address(Rdata(dg, rr)), true)
    else if max > |dg| then Parsed(InvalidData, None, ptrAddr, 0, nothing, false)
    else ParsedFlat(FlatAt(x.typ, x.flags.quoteokAnshost, dg, rr.rdstart, max, o), ptrAddr)
  }

  /** A record that asks for no child. */
  function ParsedFlat(r: Flat, ptrAddr: Option<seq<Byte>>): Parsed
  {
    match r
    case Flat(st, blocks, data, stores) => Parsed(st, None, ptrAddr, blocks, data, stores)
    case FlatDiverges => ParseDiverges
  }

  /** pa_mx stores the preference before anything else. */
  function Storing(r: Parsed): Parsed { if r.Parsed? then r.(stores := true) else r }

  ghost function ParsePtr(x: Query, dg: seq<Byte>, rr: Rr, ptrAddr: Option<seq<Byte>>): Parsed
  {
    match RestText(dg, Start(rr.rdstart, rr.rdstart + rr.rdlen), x.flags.quoteokAnshost, true)
    case TextDiverges => ParseDiverges
    case TextBad(st, _) => Parsed(st, None, ptrAddr, 0, Domain([]), false)
    case TextTruncated(_) => Parsed(InvalidData, None, ptrAddr, 0, Domain([]), false)
    case Text(t, end) =>
      var addr := if ptrAddr.None? then Reverse(AskedName(x.dgram)) else ptrAddr;
      if end != rr.rdstart + rr.rdlen then Parsed(InvalidData, None, ptrAddr, 1, Domain(t), true)
      else if addr.None? then Parsed(QueryDomainWrong, None, ptrAddr, 1, Domain(t), true)
      else Parsed(Ok, Some(OwnerLabels(Owner(dg, rr.rdstart))), addr, 1, Domain(t), true)
  }

  /** pap_hostaddr and its callers; the length is checked only after the child has been submitted. */
  ghost function ParseHost(x: Query, dg: seq<Byte>, pref: nat, start: nat, max: int, sec: Sections,
                           ptrAddr: Option<seq<Byte>>): Parsed
  {
    match RestText(dg, Start(start, max), x.flags.quoteokAnshost, true)
    case TextDiverges => ParseDiverges
    case TextBad(st, _) => Parsed(st, None, ptrAddr, 0, NoHost(pref, []), false)
    case TextTruncated(_) => Parsed(InvalidData, None, ptrAddr, 0, NoHost(pref, []), false)
    case Text(t, end) =>
      var st := if end == max then Ok else InvalidData;
      ParseGlue(dg, sec, OwnerLabels(Owner(dg, start)), NoHost(pref, t), st, ptrAddr)
  }

  /** Behind the name of a host, its addresses: those in the reply, or those that a child will find. */
  ghost function ParseGlue(dg: seq<Byte>, sec: Sections, labels: seq<Label>, rrp: Stored, st: Status,
                           ptrAddr: Option<seq<Byte>>): Parsed
    requires rrp.Host?
  {
    match FindGlue(dg, sec, labels)
    case GlueDiverges => ParseDiverges
    case GlueBad(e) => Parsed(e, None, ptrAddr, 1, rrp, true)
    case Glue(_, addrs) =>
      if addrs == [] then Parsed(st, Some(labels), ptrAddr, 1, rrp, true)
      else Parsed(st, None, ptrAddr, 2, rrp.(naddrs := |addrs|, addrs := addrs), true)
  }

  /** A host whose addresses are not known. */
  function NoHost(pref: nat, text: seq<Byte>): Stored { Host(pref, text, Ok, -1, []) }

  datatype Second =
    | Second(kids: seq<Kid>, failed: Option<Status>, rrs: seq<Stored>, ptrAddr: Option<seq<Byte>>, blocks: nat)
    | SecondDiverges

  /** The child that the `i`th record asks for. */
  function KidOf(r: Parsed, i: nat): seq<Kid>
    requires r.Parsed?
  {
    if r.kid.Some? then [Kid(r.kid.value, i)] else []
  }

  /** Parses the accepted records `rrs` from the `i`th on, until one fails. */
  ghost function SecondPass(x: Query, dg: seq<Byte>, rrs: seq<Rr>, i: nat, sec: Sections, ptrAddr: Option<seq<Byte>>,
                            os: seq<Stray>): Second
    requires i <= |rrs|
    decreases |rrs| - i
  {
    if i == |rrs| then Second([], None, [], ptrAddr, 0)
    else
      match ParseRr(x, dg, rrs[i], sec, ptrAddr, StrayAt(os, i))
      case ParseDiverges => SecondDiverges
      case Parsed(st, kid, addr, blocks, data, stores) =>
        var kids := KidOf(Parsed(st, kid, addr, blocks, data, stores), i);
        if st != Ok then Second(kids, Some(st), [], addr, blocks)
        else
          match SecondPass(x, dg, rrs, i + 1, sec, addr, os)
          case SecondDiverges => SecondDiverges
          case Second(more, failed, rest, addr', blocks') =>
            Second(kids + more, failed, [data] + rest, addr', blocks + blocks')
  }

  // ---------- The verdict ----------

  datatype Reading =
    | Read(verdict: Verdict)
    // The source gives out: an assertion fails, or a record is stored behind the table allocated for those counted.
    | Stuck
    | Endless   // a loop of compression pointers

  function FirstState(x: Query): Pass
  {
    Pass(|x.dgram|, 0, x.cname, x.cnameCount, false, x.answer.cname, x.allocations)
  }

  function WantedBy(x: Query): Wanted
  {
    Wanted(Owner(x.dgram, DNS_HDRSIZE), x.typ % 0x1_0000, x.flags.cnameForbid, x.flags.quotefailCname)
  }

  /** A datagram taken to be `n` bytes long. What stands behind its own end is not looked at, and zero here. */
  function TakenAs(dgram: seq<Byte>, n: nat): (r: seq<Byte>)
    ensures |r| == n
  {
    if n <= |dgram| then dgram[..n] else dgram + seq(n - |dgram|, _ => 0)
  }

  /** The CNAME when cname_begin and cname_dglen are already those of another datagram. */
  function Redirected(p: Pass, n: nat, begin: nat): Option<Owner>
  {
    if p.cname.Some? then Some(Owner(TakenAs(p.cname.value.dgram, n), begin)) else None
  }

  /** There is a whole name at the new cname_begin, inside cname_dgram and inside the length it is taken to have. */
  ghost predicate FoundThere(p: Pass, n: nat, begin: nat)
  {
    p.cname.Some? && ValidOwner(Owner(p.cname.value.dgram[..Min(n, |p.cname.value.dgram|)], begin))
  }

  lemma FoundIsValid(p: Pass, n: nat, begin: nat)
    requires FoundThere(p, n, begin)
    ensures p.cname.Some? && Redirected(p, n, begin).Some?
    ensures ValidOwner(Redirected(p, n, begin).value)
    ensures OwnerLabels(Redirected(p, n, begin).value) ==
            OwnerLabels(Owner(p.cname.value.dgram[..Min(n, |p.cname.value.dgram|)], begin))
  {
    var dg := p.cname.value.dgram;
    if n > |dg| {
      assert dg[..|dg|] == dg;
      DecodesOn(dg, seq(n - |dg|, _ => 0), begin);
      assert TakenAs(dg, n) == dg + seq(n - |dg|, _ => 0);
    }
  }

  /** x_truncated: with the truncation bit the query starts again. It cannot when there is no name at cname_begin. */
  ghost function Truncation(h: Header, p: Pass, n: nat, redirect: Option<nat>): Reading
  {
    if !h.tc then Read(Failed(p, InvalidResponse))
    else if redirect.None? then Read(Restart(p, true))
    else if FoundThere(p, n, redirect.value) then Read(Restart(p.(cname := Redirected(p, n, redirect.value)), true))
    else Stuck
  }

  function RcodeStatus(rcode: nat): Status
  {
    if rcode == 1 then RcodeFormatError else if rcode == 2 then RcodeServFail
    else if rcode == 4 then RcodeNotImplemented else if rcode == 5 then RcodeRefused else RcodeUnknown
  }

  /** No wanted record: negative answer, or a referral (adns/reply.c:317-406, RFC 2308). */
  ghost function ReadNegative(x: Query, dg: seq<Byte>, h: Header, p: Pass): Reading
  {
    match AuthorityAt(dg, p.cbyte, h.nscount, false)
    case AuthorityDiverges => Endless
    case AuthorityBad(st) => Read(Failed(p, st))
    case AuthorityTruncated => Truncation(h, p, |dg|, None)
    case Authority(foundsoa, _, foundns) =>
      if h.rcode == 3 then
        if !x.flags.search then Read(Failed(p, NxDomain))
        else if x.state.Tosend? then Read(NextName(p)) else Stuck
      else if foundsoa || !foundns then Read(Failed(p, NoData))
      else if p.cnameHere then Read(Restart(p, false))
      else if !h.ra then Read(Failed(p, NoRecurse))
      else Read(Failed(p, InvalidResponse))
  }

  /** The records that the second pass accepts. */
  ghost function Wants(x: Query, dg: seq<Byte>, h: Header, p: Pass): seq<Rr>
  {
    Accepted(dg, WantedBy(x), CurrentOwner(WantedBy(x), p), |x.dgram|, h.ancount)
  }

  /** sizeof of a record of the type, with pointers of 8 bytes and without IPv6 (adns/types.c:1425-1454). */
  function RecordSize(typ: nat): nat
  {
    if typ == 1 then 4
    else if typ == ADDR then 20
    else if typ == NS then 24
    else if typ == 13 || typ == MX then 32
    else if typ == 15 || typ == 17 || typ == RP then 16
    else if typ == 6 || typ == SOA then 56
    else 8
  }

  /** How many records there is room for in the table that is allocated for `n` of them. */
  function Places(typ: nat, n: nat): nat { if typ == 1 then n + n % 2 else n }

  /** Allocations are rounded up to eight bytes (adns/query.c:487). */
  lemma PlacesInTable(typ: nat, n: nat)
    ensures RecordSize(typ) * Places(typ, n) <= Round(RecordSize(typ) * n) < RecordSize(typ) * (Places(typ, n) + 1)
  {
  }

  /** Those of them that it can come to parse: all that there is room for, and one more is too many. */
  ghost function Tried(x: Query, dg: seq<Byte>, h: Header, p: Pass): seq<Rr>
  {
    Wants(x, dg, h, p)[..Min(|Wants(x, dg, h, p)|, Places(x.typ, p.wantedrrs) + 1)]
  }

  function SectionsBehind(h: Header, p: Pass): Sections { Sections(p.cbyte, h.nscount, h.arcount) }

  ghost function WholeSecond(x: Query, dg: seq<Byte>, h: Header, p: Pass, os: seq<Stray>): Second
  {
    SecondPass(x, dg, Tried(x, dg, h, p), 0, SectionsBehind(h, p), x.ptrAddr, os)
  }

  /** The second pass over the first `k` of them. */
  ghost function SecondOver(x: Query, dg: seq<Byte>, h: Header, p: Pass, os: seq<Stray>, k: nat): Second
    requires k <= |Wants(x, dg, h, p)|
  {
    SecondPass(x, dg, Wants(x, dg, h, p)[..k], 0, SectionsBehind(h, p), x.ptrAddr, os)
  }

  /** The second pass gets through the records that there is room for, and the next one is stored behind the table. */
  ghost predicate Overruns(x: Query, dg: seq<Byte>, h: Header, p: Pass, os: seq<Stray>)
  {
    var rrs, n := Wants(x, dg, h, p), Places(x.typ, p.wantedrrs);
    n < |rrs| &&
    var room := SecondOver(x, dg, h, p, os, n);
    room.Second? && room.failed.None? &&
    var r := ParseRr(x, dg, rrs[n], SectionsBehind(h, p), room.ptrAddr, StrayAt(os, n));
    r.Parsed? && r.stores
  }

  /** More records are accepted than were counted; those that there is room for parse, and so does as much of the next
      one, if there is one, that it stores something. */
  ghost predicate TooMany(x: Query, dg: seq<Byte>, h: Header, p: Pass, os: seq<Stray>)
  {
    var rrs, n := Wants(x, dg, h, p), Places(x.typ, p.wantedrrs);
    p.wantedrrs < |rrs| &&
    var room := SecondOver(x, dg, h, p, os, Min(|rrs|, n));
    room.Second? && room.failed.None? && (n < |rrs| ==> Overruns(x, dg, h, p, os))
  }

  /** Some wanted records (adns/reply.c:408-466). */
  ghost function ReadPositive(x: Query, dg: seq<Byte>, h: Header, p: Pass, os: seq<Stray>): Reading
  {
    match WholeSecond(x, dg, h, p, os)
    case SecondDiverges => Endless
    case Second(kids, failed, data, addr, blocks) =>
      if Overruns(x, dg, h, p, os) || (failed.None? && |Wants(x, dg, h, p)| != p.wantedrrs) then Stuck
      else Read(Answered(p, kids, failed, data, addr, blocks + 1))
  }

  ghost function ReadReply(x: Query, dg: seq<Byte>, os: seq<Stray>): Reading
    requires |dg| >= DNS_HDRSIZE
  {
    var h := HeaderOf(dg);
    if h.rcode != 0 && h.rcode != 3 then Read(Failed(FirstState(x), RcodeStatus(h.rcode)))
    else
      match FirstPass(dg, WantedBy(x), FirstState(x), h.ancount)
      case PassDiverges => Endless
      case PassFail(p, st) => Read(Failed(p, st))
      case PassTruncated(p, redirect) => Truncation(h, p, |dg|, redirect)
      case PassDone(p) =>
        if h.tc then Truncation(h, p, |dg|, None)
        else if p.wantedrrs == 0 then ReadNegative(x, dg, h, p)
        else ReadPositive(x, dg, h, p, os)
  }

  // ---------- Properties ----------

  /** A parser that succeeds has stored its record; one that has stored nothing asks for no child. */
  lemma StoredOrFailed(x: Query, dg: seq<Byte>, rr: Rr, sec: Sections, ptrAddr: Option<seq<Byte>>, o: Stray)
    ensures var r := ParseRr(x, dg, rr, sec, ptrAddr, o);
            r.Parsed? && !r.stores ==> r.status != Ok && r.kid.None? && r.ptrAddr == ptrAddr
  {
    hide RestText;
    hide FindGlue;
    hide OwnerLabels;
    hide AskedName;
    TextBadNotOk(dg, Start(rr.rdstart, rr.rdstart + rr.rdlen), x.flags.quoteokAnshost, true);
    if rr.rdstart + rr.rdlen <= |dg| {
      FlatStores(x.typ, x.flags.quoteokAnshost, dg, rr.rdstart, rr.rdstart + rr.rdlen, o);
    }
    hide FlatAt;
  }

  /** One record more: how reading on from the `n`th goes. */
  lemma {:induction false} SecondPassSplit(x: Query, dg: seq<Byte>, rrs: seq<Rr>, n: nat, i: nat, sec: Sections,
                                           ptrAddr: Option<seq<Byte>>, os: seq<Stray>)
    requires i <= n < |rrs|
    ensures var room := SecondPass(x, dg, rrs[..n], i, sec, ptrAddr, os);
            var more := SecondPass(x, dg, rrs[..n + 1], i, sec, ptrAddr, os);
            if room.SecondDiverges? || room.failed.Some? then more == room
            else
              match ParseRr(x, dg, rrs[n], sec, room.ptrAddr, StrayAt(os, n))
              case ParseDiverges => more.SecondDiverges?
              case Parsed(st, _, _, _, _, _) => more.Second? && more.failed == if st == Ok then None else Some(st)
    decreases n - i
  {
    hide ParseRr;
    if i < n {
      var r := ParseRr(x, dg, rrs[i], sec, ptrAddr, StrayAt(os, i));
      if r.Parsed? && r.status == Ok {
        SecondPassSplit(x, dg, rrs, n, i + 1, sec, r.ptrAddr, os);
      }
    } else {
      var r := ParseRr(x, dg, rrs[n], sec, ptrAddr, StrayAt(os, n));
      assert rrs[..n + 1][n] == rrs[n];
      if r.Parsed? {
        assert SecondPass(x, dg, rrs[..n + 1], n + 1, sec, r.ptrAddr, os) == Second([], None, [], r.ptrAddr, 0);
      }
    }
  }

  /** Reading wanted records gives out if and only if too many are accepted, and for that a wanted record owned by the
      final name has to precede the last CNAME followed. */
  lemma StuckOnlyOnAmbiguity(x: Query, dg: seq<Byte>, h: Header, p: Pass, os: seq<Stray>)
    requires |dg| >= DNS_HDRSIZE && h == HeaderOf(dg)
    requires FirstPass(dg, WantedBy(x), FirstState(x), h.ancount) == PassDone(p)
    ensures var w, n := WantedBy(x), h.ancount;
            var k := UpToLastCname(dg, w, FirstState(x), n);
            var early := Accepted(dg, w, CurrentOwner(w, p), |x.dgram|, k);
            p.wantedrrs <= |Wants(x, dg, h, p)| && (p.wantedrrs < |Wants(x, dg, h, p)| <==> early != []) &&
            (ReadPositive(x, dg, h, p, os) == Stuck <==> TooMany(x, dg, h, p, os))
  {
    hide ParseRr;
    hide SecondPass;
    SecondPassCount(dg, WantedBy(x), FirstState(x), h.ancount);
    StuckOnlyOnTooMany(x, dg, h, p, os);
    hide TooMany;
    hide ReadPositive;
  }

  lemma StuckOnlyOnTooMany(x: Query, dg: seq<Byte>, h: Header, p: Pass, os: seq<Stray>)
    requires p.wantedrrs <= |Wants(x, dg, h, p)|
    ensures ReadPositive(x, dg, h, p, os) == Stuck <==> TooMany(x, dg, h, p, os)
  {
    hide ParseRr;
    hide SecondPass;
    hide Wants;
    var rrs, n := Wants(x, dg, h, p), Places(x.typ, p.wantedrrs);
    if n < |rrs| {
      SecondPassSplit(x, dg, rrs, n, 0, SectionsBehind(h, p), x.ptrAddr, os);
      var room := SecondOver(x, dg, h, p, os, n);
      if room.Second? {
        StoredOrFailed(x, dg, rrs[n], SectionsBehind(h, p), room.ptrAddr, StrayAt(os, n));
      }
    }
  }

  lemma {:induction false} AddrsNotOk(dg: seq<Byte>, c: nat, n: nat, owner: seq<Label>, addrs: seq<Stored>)
    ensures FindAddrs(dg, c, n, owner, addrs) != GlueBad(Ok)
    decreases n
  {
    hide RecordAt;
    hide Rdata;
    if n > 0 {
      RecordBadNotOk(dg, c, Some(owner));
      match RecordAt(dg, c, Some(owner))
      case RecordTruncated => AddrsNotOk(dg, c, n - 1, owner, addrs);
      case Record(rr, next, _) =>
        AddrsNotOk(dg, next, n - 1, owner, addrs);
        AddrsNotOk(dg, next, n - 1, owner, addrs + [Address(Rdata(dg, rr))]);
      case _ =>
    }
  }

  lemma GlueNotOk(dg: seq<Byte>, sec: Sections, owner: seq<Label>)
    ensures FindGlue(dg, sec, owner) != GlueBad(Ok)
  {
    hide FindAddrs;
    AddrsNotOk(dg, sec.nsstart, sec.nscount, owner, []);
    var r := FindAddrs(dg, sec.nsstart, sec.nscount, owner, []);
    if r.Glue? {
      AddrsNotOk(dg, r.next, sec.arcount, owner, []);
    }
  }

  lemma PtrIsGood(x: Query, dg: seq<Byte>, rr: Rr, ptrAddr: Option<seq<Byte>>)
    requires x.typ == PTR
    ensures GoodRecord(x, ParsePtr(x, dg, rr, ptrAddr), ptrAddr)
    ensures var r := ParsePtr(x, dg, rr, ptrAddr); r.Parsed? && r.kid.Some? ==> WithinLimits(r.kid.value)
  {
    hide OwnerLabels;
    hide RestText;
    hide WithinLimits;
    hide AskedName;
    hide Printed;
    var max, quoteok := rr.rdstart + rr.rdlen, x.flags.quoteokAnshost;
    OwnerWithinLimits(Owner(dg, rr.rdstart));
    TextBadNotOk(dg, Start(rr.rdstart, max), quoteok, true);
    if RestText(dg, Start(rr.rdstart, max), quoteok, true).Text? {
      FollowedIsValid(dg, rr.rdstart, max, quoteok);
    }
  }

  lemma HostIsGood(x: Query, dg: seq<Byte>, pref: nat, start: nat, max: int, sec: Sections,
                   ptrAddr: Option<seq<Byte>>)
    requires HasHosts(x.typ)
    ensures GoodRecord(x, ParseHost(x, dg, pref, start, max, sec, ptrAddr), ptrAddr)
    ensures var r := ParseHost(x, dg, pref, start, max, sec, ptrAddr);
            r.Parsed? && r.kid.Some? ==> WithinLimits(r.kid.value)
  {
    hide OwnerLabels;
    hide RestText;
    hide FindGlue;
    hide WithinLimits;
    hide AskedName;
    hide Printed;
    OwnerWithinLimits(Owner(dg, start));
    TextBadNotOk(dg, Start(start, max), x.flags.quoteokAnshost, true);
    if RestText(dg, Start(start, max), x.flags.quoteokAnshost, true).Text? {
      FollowedIsValid(dg, start, max, x.flags.quoteokAnshost);
    }
    GlueNotOk(dg, sec, OwnerLabels(Owner(dg, start)));
  }

  lemma ParseRrKid(x: Query, dg: seq<Byte>, rr: Rr, sec: Sections, ptrAddr: Option<seq<Byte>>, o: Stray)
    ensures var r := ParseRr(x, dg, rr, sec, ptrAddr, o);
            r.Parsed? && r.kid.Some? ==> Derefs(x.typ) && WithinLimits(r.kid.value)
    ensures GoodRecord(x, ParseRr(x, dg, rr, sec, ptrAddr, o), ptrAddr)
  {
    hide ParseHost;
    hide ParsePtr;
    hide WithinLimits;
    hide AskedName;
    hide FlatAt;
    hide Printed;
    hide Resolved;
    var max := rr.rdstart + rr.rdlen;
    if x.typ == PTR {
      PtrIsGood(x, dg, rr, ptrAddr);
    } else if x.typ == NS {
      HostIsGood(x, dg, 0, rr.rdstart, max, sec, ptrAddr);
    } else if x.typ == MX && rr.rdlen >= 2 && max <= |dg| {
      HostIsGood(x, dg, GetW(dg, rr.rdstart), rr.rdstart + 2, max, sec, ptrAddr);
    }
  }

  /** The record made is of the shape that its type asks for, and a PTR record read to its end has a child to
      confirm the address that the question spells. */
  ghost predicate GoodRecord(x: Query, r: Parsed, ptrAddr: Option<seq<Byte>>)
  {
    r.Parsed? ==>
      (r.kid.Some? ==> ForRecord(x, Kid(r.kid.value, 0), r.data)) && (ptrAddr.Some? ==> r.ptrAddr == ptrAddr) &&
      (HasHosts(x.typ) && r.status == Ok ==> Resolved(r.data) || (r.data.Host? && r.kid.Some?)) &&
      (x.typ == PTR && r.status == Ok ==> r.kid.Some?) &&
      (x.typ == PTR && r.kid.Some? ==>
         r.ptrAddr.Some? && (ptrAddr.None? ==> r.ptrAddr == Reverse(AskedName(x.dgram))))
  }

  ghost predicate GoodKids(x: Query, kids: seq<Kid>) { (kids != [] ==> Derefs(x.typ)) && AllWithinLimits(kids) }

  /** What SecondPass makes of the records from the `i`th on. */
  ghost predicate GoodSecond(x: Query, r: Second, i: nat, ptrAddr: Option<seq<Byte>>)
  {
    r.Second? ==>
      GoodKids(x, r.kids) && (ptrAddr.Some? ==> r.ptrAddr == ptrAddr) && r.failed != Some(Ok) &&
      (r.failed.None? ==>
         (forall k :: 0 <= k < |r.kids| ==>
            i <= r.kids[k].slot < i + |r.rrs| && ForRecord(x, r.kids[k], r.rrs[r.kids[k].slot - i])) &&
         (HasHosts(x.typ) ==>
            forall n: nat :: n < |r.rrs| ==>
              Resolved(r.rrs[n]) || (r.rrs[n].Host? && HasKid(r.kids, i + n))) &&
         (x.typ == PTR ==>
            |r.kids| == |r.rrs| && (forall k :: 0 <= k < |r.kids| ==> r.kids[k].slot == i + k) &&
            (r.kids != [] ==> r.ptrAddr.Some? && (ptrAddr.None? ==> r.ptrAddr == Reverse(AskedName(x.dgram))))))
  }

  lemma GoodAppend(x: Query, r: Parsed, i: nat, rest: Second, ptrAddr: Option<seq<Byte>>)
    requires r.Parsed? && r.status == Ok && GoodRecord(x, r, ptrAddr) && rest.Second? &&
             GoodSecond(x, rest, i + 1, r.ptrAddr)
    requires r.kid.Some? ==> Derefs(x.typ) && WithinLimits(r.kid.value)
    ensures var kids, rrs := KidOf(r, i) + rest.kids, [r.data] + rest.rrs;
            GoodSecond(x, Second(kids, rest.failed, rrs, rest.ptrAddr, r.blocks + rest.blocks), i, ptrAddr)
  {
    hide WithinLimits;
    hide AskedName;
    hide Printed;
    hide Resolved;
    var kids, rrs := KidOf(r, i) + rest.kids, [r.data] + rest.rrs;
    if rest.failed.None? {
      forall k | 0 <= k < |kids|
        ensures i <= kids[k].slot < i + |rrs| && ForRecord(x, kids[k], rrs[kids[k].slot - i])
        ensures x.typ == PTR ==> kids[k].slot == i + k
      {
        if k >= |KidOf(r, i)| {
          var j := k - |KidOf(r, i)|;
          assert kids[k] == rest.kids[j] && rrs[rest.kids[j].slot - i] == rest.rrs[rest.kids[j].slot - (i + 1)];
        }
      }
      if HasHosts(x.typ) {
        HostsAppend(x, r, i, rest, kids, rrs);
      }
    }
  }

  lemma HostsAppend(x: Query, r: Parsed, i: nat, rest: Second, kids: seq<Kid>, rrs: seq<Stored>)
    requires r.Parsed? && rest.Second? && kids == KidOf(r, i) + rest.kids && rrs == [r.data] + rest.rrs
    requires Resolved(r.data) || (r.data.Host? && r.kid.Some?)
    requires forall n: nat :: n < |rest.rrs| ==>
               Resolved(rest.rrs[n]) || (rest.rrs[n].Host? && HasKid(rest.kids, i + 1 + n))
    ensures forall n: nat :: n < |rrs| ==> Resolved(rrs[n]) || (rrs[n].Host? && HasKid(kids, i + n))
  {
    hide Resolved;
    forall n: nat | n < |rrs| ensures Resolved(rrs[n]) || (rrs[n].Host? && HasKid(kids, i + n)) {
      if n == 0 {
        if r.kid.Some? {
          assert kids[0] == Kid(r.kid.value, i);
        }
      } else {
        assert rrs[n] == rest.rrs[n - 1];
        if HasKid(rest.kids, i + 1 + (n - 1)) {
          var k :| 0 <= k < |rest.kids| && rest.kids[k].slot == i + n;
          assert kids[|KidOf(r, i)| + k] == rest.kids[k];
        }
      }
    }
  }

  /** A second pass that does not fail makes a record of each. */
  lemma {:induction false} SecondPassLength(x: Query, dg: seq<Byte>, rrs: seq<Rr>, i: nat, sec: Sections,
                                            ptrAddr: Option<seq<Byte>>, os: seq<Stray>)
    requires i <= |rrs|
    ensures var r := SecondPass(x, dg, rrs, i, sec, ptrAddr, os);
            r.Second? && r.failed.None? ==> |r.rrs| == |rrs| - i
    decreases |rrs| - i
  {
    hide ParseRr;
    if i < |rrs| {
      var r := ParseRr(x, dg, rrs[i], sec, ptrAddr, StrayAt(os, i));
      if r.Parsed? && r.status == Ok {
        SecondPassLength(x, dg, rrs, i + 1, sec, r.ptrAddr, os);
      }
    }
  }

  lemma {:induction false} SecondPassKids(x: Query, dg: seq<Byte>, rrs: seq<Rr>, i: nat, sec: Sections,
                                          ptrAddr: Option<seq<Byte>>, os: seq<Stray>)
    requires i <= |rrs|
    ensures GoodSecond(x, SecondPass(x, dg, rrs, i, sec, ptrAddr, os), i, ptrAddr)
    decreases |rrs| - i
  {
    hide ParseRr;
    hide GoodSecond;
    hide GoodRecord;
    hide WithinLimits;
    hide KidOf;
    GoodEnds(x, i, ptrAddr);
    if i < |rrs| {
      ParseRrKid(x, dg, rrs[i], sec, ptrAddr, StrayAt(os, i));
      var r := ParseRr(x, dg, rrs[i], sec, ptrAddr, StrayAt(os, i));
      if r.Parsed? && r.status == Ok {
        SecondPassKids(x, dg, rrs, i + 1, sec, r.ptrAddr, os);
        var rest := SecondPass(x, dg, rrs, i + 1, sec, r.ptrAddr, os);
        if rest.Second? {
          GoodAppend(x, r, i, rest, ptrAddr);
        }
      } else if r.Parsed? {
        GoodFailed(x, r, i, ptrAddr);
      }
    }
  }

  lemma GoodEnds(x: Query, i: nat, ptrAddr: Option<seq<Byte>>)
    ensures GoodSecond(x, SecondDiverges, i, ptrAddr) && GoodSecond(x, Second([], None, [], ptrAddr, 0), i, ptrAddr)
  {
  }

  lemma GoodFailed(x: Query, r: Parsed, i: nat, ptrAddr: Option<seq<Byte>>)
    requires r.Parsed? && GoodRecord(x, r, ptrAddr) && (r.kid.Some? ==> Derefs(x.typ) && WithinLimits(r.kid.value))
    requires r.status != Ok
    ensures GoodSecond(x, Second(KidOf(r, i), Some(r.status), [], r.ptrAddr, r.blocks), i, ptrAddr)
  {
    hide WithinLimits;
    hide AskedName;
  }

  lemma GoodIsComplete(x: Query, r: Second)
    requires r.Second? && r.failed.None? && GoodSecond(x, r, 0, None) && r.rrs != []
    ensures Complete(x, r.kids, r.rrs, r.ptrAddr)
  {
    hide AskedName;
    hide Printed;
    hide Resolved;
    if x.typ == PTR {
      forall n: nat | n < |r.rrs| ensures HasKid(r.kids, n) {
        assert r.kids[n].slot == n;
      }
    }
  }

  lemma PositiveIsPossible(x: Query, dg: seq<Byte>, h: Header, p: Pass, os: seq<Stray>)
    requires ValidPass(p) && (p.cname.None? ==> x.cname.None?) && x.ptrAddr.None? && p.wantedrrs > 0
    ensures ReadPositive(x, dg, h, p, os).Read? ==> Possible(x, ReadPositive(x, dg, h, p, os).verdict)
  {
    hide WithinLimits;
    hide SecondPass;
    hide Accepted;
    hide Overruns;
    hide Complete;
    SecondPassKids(x, dg, Tried(x, dg, h, p), 0, SectionsBehind(h, p), x.ptrAddr, os);
    var r := WholeSecond(x, dg, h, p, os);
    SecondPassLength(x, dg, Tried(x, dg, h, p), 0, SectionsBehind(h, p), x.ptrAddr, os);
    if r.Second? && r.failed.None? && ReadPositive(x, dg, h, p, os).Read? {
      GoodIsComplete(x, r);
    }
    hide GoodSecond;
  }

  lemma NegativeIsPossible(x: Query, dg: seq<Byte>, h: Header, p: Pass)
    requires ValidPass(p) && (p.cname.None? ==> x.cname.None?) && (x.flags.search ==> x.parent.None?)
    ensures ReadNegative(x, dg, h, p).Read? ==> Possible(x, ReadNegative(x, dg, h, p).verdict)
  {
    AuthorityNotOk(dg, p.cbyte, h.nscount, false);
    hide AuthorityAt;
    hide FoundThere;
    hide Redirected;
    hide ValidOwner;
  }

  /** Whatever is read off a datagram is a verdict the query can have come to. */
  lemma ReadingIsPossible(x: Query, dg: seq<Byte>, os: seq<Stray>)
    requires |dg| >= DNS_HDRSIZE && (x.cname.Some? ==> ValidOwner(x.cname.value)) && (x.flags.search ==> x.parent.None?)
    requires x.ptrAddr.None?
    ensures ReadReply(x, dg, os).Read? ==> Possible(x, ReadReply(x, dg, os).verdict)
  {
    hide FirstPass;
    hide ReadNegative;
    hide ReadPositive;
    hide HeaderOf;
    var h := HeaderOf(dg);
    FirstPassKeepsValid(dg, WantedBy(x), FirstState(x), h.ancount);
    CnameFromReply(dg, WantedBy(x), FirstState(x), h.ancount);
    FirstPassNotOk(dg, WantedBy(x), FirstState(x), h.ancount);
    var r := FirstPass(dg, WantedBy(x), FirstState(x), h.ancount);
    hide FoundThere;
    hide Redirected;
    if r.PassDone? {
      NegativeIsPossible(x, dg, h, r.p);
      if r.p.wantedrrs > 0 {
        PositiveIsPossible(x, dg, h, r.p, os);
      }
    }
    if r.PassTruncated? && r.redirect.Some? && FoundThere(r.p, |dg|, r.redirect.value) {
      FoundIsValid(r.p, |dg|, r.redirect.value);
    }
    hide ValidOwner;
  }

  // ---------- The whole of adns__procdgram ----------

  /** The first query of the queue that the reply belongs to. */
  function FirstMatch(qs: map<QId, Query>, queue: seq<QId>, dg: seq<Byte>, serv: nat, viatcp: bool): (r: Option<QId>)
    requires |dg| >= DNS_HDRSIZE
    requires forall q :: q in queue ==> q in qs && |qs[q].dgram| >= DNS_HDRSIZE
    ensures r.Some? ==> r.value in queue && Matches(qs[r.value], dg, serv, viatcp)
    ensures r.None? ==> forall q :: q in queue ==> !Matches(qs[q], dg, serv, viatcp)
  {
    if queue == [] then None
    else if Matches(qs[queue[0]], dg, serv, viatcp) then Some(queue[0])
    else FirstMatch(qs, queue[1..], dg, serv, viatcp)
  }

  predicate Relevant(dg: seq<Byte>) {
    |dg| >= DNS_HDRSIZE && HeaderOf(dg).qr && HeaderOf(dg).opcode == 0 && HeaderOf(dg).qdcount == 1
  }

  /** The query a datagram is processed for. */
  function Addressee(s: St, dg: seq<Byte>, serv: nat, viatcp: bool): (r: Option<QId>)
    requires forall q :: Waiting(s, q) ==> q in s.qs && |s.qs[q].dgram| >= DNS_HDRSIZE
    ensures r.Some? ==> r.value in s.qs && Waiting(s, r.value)
  {
    var queue := if viatcp then s.tcpw else s.udpw;
    assert forall q :: q in queue ==> Waiting(s, q);
    if !Relevant(dg) then None else FirstMatch(s.qs, queue, dg, serv, viatcp)
  }

  lemma WaitingQuestions(cfg: Config, s: St)
    requires ValidConfig(cfg) && Inv(cfg, s, {})
    ensures forall q :: Waiting(s, q) ==> q in s.qs && |s.qs[q].dgram| >= DNS_HDRSIZE
  {
    forall q | Waiting(s, q) ensures q in s.qs && |s.qs[q].dgram| >= DNS_HDRSIZE {
      InvAt(cfg, s, {}, q);
    }
  }

  /** The event a datagram amounts to, if it reaches a query and can be read. */
  ghost function ReplyEvent(s: St, dg: seq<Byte>, serv: nat, viatcp: bool, now: int, os: seq<Stray>): Option<Event>
    requires forall q :: Waiting(s, q) ==> q in s.qs && |s.qs[q].dgram| >= DNS_HDRSIZE
  {
    match Addressee(s, dg, serv, viatcp)
    case None => None
    case Some(q) =>
      match ReadReply(s.qs[q], dg, os)
      case Read(v) => Some(Replied(q, v, now))
      case _ => None
  }

  /** So every datagram that the source can process is nothing at all, or an enabled event of a run. */
  lemma ReplyEventEnabled(cfg: Config, s: St, dg: seq<Byte>, serv: nat, viatcp: bool, now: int, os: seq<Stray>)
    requires ValidConfig(cfg) && Inv(cfg, s, {})
    ensures forall q :: Waiting(s, q) ==> q in s.qs && |s.qs[q].dgram| >= DNS_HDRSIZE
    ensures var e := ReplyEvent(s, dg, serv, viatcp, now, os); e.Some? ==> Enabled(cfg, s, e.value)
  {
    hide Inv;
    hide ReadReply;
    hide Possible;
    hide FirstMatch;
    WaitingQuestions(cfg, s);
    var a := Addressee(s, dg, serv, viatcp);
    if a.Some? {
      WaitingReads(cfg, s, a.value);
      ReadingIsPossible(s.qs[a.value], dg, os);
    }
  }

  lemma WaitingReads(cfg: Config, s: St, q: QId)
    requires ValidConfig(cfg) && Inv(cfg, s, {}) && q in s.qs && Waiting(s, q)
    ensures var x := s.qs[q];
            (x.cname.Some? ==> ValidOwner(x.cname.value)) && (x.flags.search ==> x.parent.None?) && x.ptrAddr.None?
    ensures ParentLives(s, q) && Numbered(s) && ParentLives(Unqueue(s, q), q)
  {
    InvAt(cfg, s, {}, q);
    InvParent(cfg, s, q);
  }
}
