/** When a reply can be read to its end. Names whose pointers lead backward never send the reading round a loop; and the
    source gives out, by the assertions at adns/reply.c:455 and adns/transmit.c:303 or for want of a name to start again
    at (adns/transmit.c:190), in exactly the cases below. */
module Guards {
  import opened Basics
  import opened Headers
  import opened Names
  import opened Texts
  import opened Records
  import opened Answers
  import opened LifeCycle
  import opened Mailboxes
  import opened Parsers
  import opened Runs
  import opened Replies
  import opened Deliveries
  import opened Rooms

  // ---------- No loop of pointers ----------

  /** A name that starts in `s`, and so does what may stand behind it. When its first label is in error it may be read
      on behind that (see Mailboxes.MailboxAt). */
  ghost predicate NamesFrom(dg: seq<Byte>, c: nat, max: int, s: set<nat>)
  {
    c in s && EndIn(dg, c, s) &&
    match FindNext(dg, Start(c, max))
    case Bad(_, at) => at.cbyte in s && EndIn(dg, at.cbyte, s)
    case _ => true
  }

  predicate EndIn(dg: seq<Byte>, c: nat, s: set<nat>) { InlineEnd(dg, c) >= 0 ==> InlineEnd(dg, c) in s }

  /** The names in the data of a record start in `s`, if the source looks for any there: one in NS, CNAME, PTR and MX
      records, two in those of types SOA and RP. */
  ghost predicate NameIn(dg: seq<Byte>, rr: Rr, s: set<nat>)
  {
    var c, max := rr.rdstart, rr.rdstart + rr.rdlen;
    (rr.typ in {2, 5, 12} ==> c in s) && (rr.typ == 15 ==> c + 2 in s) &&
    (rr.typ in {6, 17} ==>
       NamesFrom(dg, c, max, s) && (InlineEnd(dg, c) >= 0 ==> NamesFrom(dg, InlineEnd(dg, c), max, s)))
  }

  /** The `n` records from `c` on, and the names in their data, start in `s`. */
  ghost predicate NamesIn(dg: seq<Byte>, c: nat, n: nat, s: set<nat>)
    decreases n
  {
    n == 0 ||
    (c in s &&
     match RecordAt(dg, c, None)
     case Record(rr, next, _) => NameIn(dg, rr, s) && NamesIn(dg, next, n - 1, s)
     case _ => true)
  }

  lemma {:induction false} FewerNamesIn(dg: seq<Byte>, c: nat, n: nat, k: nat, s: set<nat>)
    requires NamesIn(dg, c, n, s) && k <= n
    ensures NamesIn(dg, c, k, s)
    decreases n
  {
    hide RecordAt;
    if k > 0 {
      var r := RecordAt(dg, c, None);
      if r.Record? {
        FewerNamesIn(dg, r.next, n - 1, k - 1, s);
      }
    }
  }

  lemma {:induction false} TextEnds(dg: seq<Byte>, f: Cursor, quoteok: bool, first: bool, s: set<nat>)
    requires BackwardOn(dg, s) && f.cbyte in s
    ensures !RestText(dg, f, quoteok, first).TextDiverges?
    decreases DNS_MAXDOMAIN - f.namelen
  {
    BackwardHops(dg, f, s);
    FindNextIs(dg, f, f.cbyte);
    if FindNext(dg, f).Found? {
      TextEnds(dg, FindNext(dg, f).after, quoteok, false, s);
    }
  }

  /** Where a cursor leaves the caller's integer: at the end of the part before the first pointer, or as it was. */
  ghost predicate Leaves(dg: seq<Byte>, f: Cursor, r: Next)
  {
    var e := if f.armed then InlineEnd(dg, f.cbyte) else f.dmend;
    match r
    case Found(_, _, g) =>
      if g.armed then f.armed && g.dmend == f.dmend && InlineEnd(dg, g.cbyte) == e else g.dmend == e
    case End(g) => g.dmend == e
    case Truncated(d) => d == f.dmend || d == e
    case Bad(_, g) => if g.armed then f.armed && g.dmend == f.dmend else g.dmend == e
    case Diverges => true
  }

  lemma {:induction false} NextLeaves(dg: seq<Byte>, f: Cursor, hops: nat)
    ensures Leaves(dg, f, NextWithin(dg, f, hops))
    decreases hops
  {
    if Follows(dg, f) && hops > 0 {
      NextLeaves(dg, Jumped(dg, f), hops - 1);
    }
  }

  lemma CursorLeaves(dg: seq<Byte>, f: Cursor, s: set<nat>)
    requires BackwardOn(dg, s) && f.cbyte in s
    ensures Leaves(dg, f, FindNext(dg, f)) && !FindNext(dg, f).Diverges?
    ensures FindNext(dg, f).Found? ==> FindNext(dg, f).after.cbyte in s
  {
    BackwardHops(dg, f, s);
    FindNextIs(dg, f, f.cbyte);
    NextLeaves(dg, f, f.cbyte);
  }

  lemma {:induction false} TextLeaves(dg: seq<Byte>, f: Cursor, quoteok: bool, first: bool, s: set<nat>)
    requires BackwardOn(dg, s) && f.cbyte in s
    ensures var e := if f.armed then InlineEnd(dg, f.cbyte) else f.dmend;
            match RestText(dg, f, quoteok, first)
            case Text(_, end) => end == e
            case TextTruncated(end) => end == f.dmend || end == e
            case TextBad(_, _) => true
            case TextDiverges => false
    decreases DNS_MAXDOMAIN - f.namelen
  {
    hide BackwardOn;
    hide InlineEnd;
    CursorLeaves(dg, f, s);
    if FindNext(dg, f).Found? {
      TextLeaves(dg, FindNext(dg, f).after, quoteok, false, s);
    }
    hide FindNext;
  }

  lemma DomainEnds(dg: seq<Byte>, c: nat, max: int, quoteok: bool, s: set<nat>)
    requires BackwardOn(dg, s) && c in s
    ensures match DomainAt(dg, c, max, quoteok)
            case Field(_, end) => end == InlineEnd(dg, c)
            case FieldBad(_) => true
            case FieldDiverges => false
  {
    hide BackwardOn;
    TextLeaves(dg, Start(c, max), quoteok, true, s);
    hide RestText;
  }

  lemma AddressedEnds(dg: seq<Byte>, lab: seq<Byte>, f: Cursor, s: set<nat>)
    requires BackwardOn(dg, s) && f.cbyte in s && f.dmend in s && (f.armed ==> EndIn(dg, f.cbyte, s))
    ensures match Addressed(dg, lab, f)
            case Mailbox(_, end) => end in s
            case MailboxBad(_) => true
            case MailboxDiverges => false
  {
    hide BackwardOn;
    hide HasControl;
    hide LocalPart;
    hide InlineEnd;
    TextLeaves(dg, f, false, true, s);
    hide RestText;
  }

  lemma MailEnds(dg: seq<Byte>, c: nat, max: int, mail822: bool, o: Stray, s: set<nat>)
    requires BackwardOn(dg, s) && NamesFrom(dg, c, max, s)
    ensures match MailAt(dg, c, max, mail822, o)
            case Field(_, end) => end in s
            case FieldBad(_) => true
            case FieldDiverges => false
  {
    hide BackwardOn;
    hide RestText;
    hide Addressed;
    hide InlineEnd;
    hide DomainAt;
    hide FindNext;
    DomainEnds(dg, c, max, true, s);
    CursorLeaves(dg, Start(c, max), s);
    match FindNext(dg, Start(c, max))
    case Found(l, n, g) => AddressedEnds(dg, dg[l..l + n], g, s);
    case Bad(_, g) => AddressedEnds(dg, StrayLabel(dg, o.lablen, o.labstart), g, s);
    case _ =>
  }

  lemma FlatEnds(typ: nat, quoteokAnshost: bool, dg: seq<Byte>, rr: Rr, o: Stray, s: set<nat>)
    requires BackwardOn(dg, s) && NameIn(dg, rr, s) && rr.typ == typ % 0x1_0000 && rr.rdstart + rr.rdlen <= |dg|
    ensures !FlatAt(typ, quoteokAnshost, dg, rr.rdstart, rr.rdstart + rr.rdlen, o).FlatDiverges?
  {
    hide BackwardOn;
    hide DomainAt;
    hide MailAt;
    hide InlineEnd;
    hide FindNext;
    hide StringsOf;
    var c, max := rr.rdstart, rr.rdstart + rr.rdlen;
    if typ in {2, 5, 12} {
      DomainEnds(dg, c, max, quoteokAnshost, s);
      DomainEnds(dg, c, max, true, s);
    } else if typ == 15 {
      DomainEnds(dg, c + 2, max, quoteokAnshost, s);
    } else if typ == 17 || typ == RP {
      MailEnds(dg, c, max, typ == RP, o, s);
      var f := MailAt(dg, c, max, typ == RP, o);
      if f.Field? {
        DomainEnds(dg, f.end, max, true, s);
      }
    } else if typ == 6 || typ == SOA {
      DomainEnds(dg, c, max, quoteokAnshost, s);
      var f := DomainAt(dg, c, max, quoteokAnshost);
      if f.Field? {
        MailEnds(dg, f.end, max, typ == SOA, o, s);
      }
    }
  }

  lemma RecordEnds(dg: seq<Byte>, c: nat, owner: Option<seq<Label>>, s: set<nat>)
    requires BackwardOn(dg, s) && c in s
    ensures !RecordAt(dg, c, owner).RecordDiverges?
  {
    BackwardTerminates(dg, Start(c, |dg|), s);
  }

  lemma StepEnds(dg: seq<Byte>, w: Wanted, p: Pass, n: nat, s: set<nat>)
    requires BackwardOn(dg, s) && n > 0 && NamesIn(dg, p.cbyte, n, s)
    ensures !Step(dg, w, p).PassDiverges?
    ensures Step(dg, w, p).PassDone? ==> NamesIn(dg, Step(dg, w, p).p.cbyte, n - 1, s)
  {
    hide RecordAt;
    hide RestText;
    hide CurrentOwner;
    hide BackwardOn;
    SameRecord(dg, p.cbyte, CurrentOwner(w, p));
    RecordEnds(dg, p.cbyte, None, s);
    var r := RecordAt(dg, p.cbyte, Some(CurrentOwner(w, p)));
    if r.Record? && r.rr.typ == RR_CNAME {
      TextEnds(dg, Start(r.rr.rdstart, r.rr.rdstart + r.rr.rdlen), !w.quotefailCname, true, s);
    }
  }

  lemma {:induction false} FirstPassEnds(dg: seq<Byte>, w: Wanted, p: Pass, n: nat, m: nat, s: set<nat>)
    requires BackwardOn(dg, s) && NamesIn(dg, p.cbyte, n + m, s)
    ensures !FirstPass(dg, w, p, n).PassDiverges?
    ensures FirstPass(dg, w, p, n).PassDone? ==> NamesIn(dg, FirstPass(dg, w, p, n).p.cbyte, m, s)
    decreases n
  {
    hide Step;
    hide NamesIn;
    hide BackwardOn;
    if n > 0 {
      StepEnds(dg, w, p, n + m, s);
      if Step(dg, w, p).PassDone? {
        FirstPassEnds(dg, w, Step(dg, w, p).p, n - 1, m, s);
      }
    }
  }

  lemma {:induction false} AuthorityEnds(dg: seq<Byte>, c: nat, n: nat, foundns: bool, s: set<nat>)
    requires BackwardOn(dg, s) && NamesIn(dg, c, n, s)
    ensures !AuthorityAt(dg, c, n, foundns).AuthorityDiverges?
    decreases n
  {
    hide RecordAt;
    hide BackwardOn;
    if n > 0 {
      RecordEnds(dg, c, None, s);
      var r := RecordAt(dg, c, None);
      if r.Record? {
        AuthorityEnds(dg, r.next, n - 1, foundns || (r.rr.class_ == DNS_CLASS_IN && r.rr.typ == RR_NS), s);
      }
    }
  }

  lemma {:induction false} AddrsEnd(dg: seq<Byte>, c: nat, n: nat, owner: seq<Label>, addrs: seq<Stored>, m: nat,
                                    s: set<nat>)
    requires BackwardOn(dg, s) && NamesIn(dg, c, n + m, s)
    ensures var r := FindAddrs(dg, c, n, owner, addrs);
            !r.GlueDiverges? && (r.Glue? && r.addrs == [] ==> NamesIn(dg, r.next, m, s))
    decreases n
  {
    hide RecordAt;
    hide BackwardOn;
    hide IsAddress;
    hide Rdata;
    if n > 0 {
      SameRecord(dg, c, owner);
      RecordEnds(dg, c, None, s);
      FewerNamesIn(dg, c, n + m, n - 1 + m, s);
      match RecordAt(dg, c, Some(owner))
      case RecordTruncated => AddrsEnd(dg, c, n - 1, owner, addrs, m, s);
      case Record(rr, next, matched) =>
        AddrsEnd(dg, next, n - 1, owner, addrs, m, s);
        AddrsEnd(dg, next, n - 1, owner, addrs + [Address(Rdata(dg, rr))], m, s);
      case _ =>
    }
  }

  lemma GlueEnds(dg: seq<Byte>, sec: Sections, owner: seq<Label>, s: set<nat>)
    requires BackwardOn(dg, s) && NamesIn(dg, sec.nsstart, sec.nscount + sec.arcount, s)
    ensures !FindGlue(dg, sec, owner).GlueDiverges?
  {
    hide FindAddrs;
    hide NamesIn;
    hide BackwardOn;
    AddrsEnd(dg, sec.nsstart, sec.nscount, owner, [], sec.arcount, s);
    var r := FindAddrs(dg, sec.nsstart, sec.nscount, owner, []);
    if r.Glue? && r.addrs == [] {
      AddrsEnd(dg, r.next, sec.arcount, owner, [], 0, s);
    }
  }

  lemma {:induction false} AcceptedNamesIn(dg: seq<Byte>, w: Wanted, owner: seq<Label>, c: nat, n: nat, m: nat,
                                           s: set<nat>)
    requires NamesIn(dg, c, n + m, s)
    ensures forall rr :: rr in Accepted(dg, w, owner, c, n) ==> NameIn(dg, rr, s) && rr.typ == w.typ
    decreases n
  {
    hide RecordAt;
    hide NameIn;
    if n > 0 {
      SameRecord(dg, c, owner);
      var r := RecordAt(dg, c, Some(owner));
      if r.Record? {
        AcceptedNamesIn(dg, w, owner, r.next, n - 1, m, s);
      }
    }
  }

  lemma ParseEnds(x: Query, dg: seq<Byte>, rr: Rr, sec: Sections, ptrAddr: Option<seq<Byte>>, o: Stray, s: set<nat>)
    requires BackwardOn(dg, s) && NamesIn(dg, sec.nsstart, sec.nscount + sec.arcount, s)
    requires NameIn(dg, rr, s) && rr.typ == x.typ % 0x1_0000
    ensures !ParseRr(x, dg, rr, sec, ptrAddr, o).ParseDiverges?
  {
    hide RestText;
    hide FindGlue;
    hide AskedName;
    hide OwnerLabels;
    hide BackwardOn;
    hide NamesIn;
    if x.typ in {NS, PTR, MX} {
      var c := if x.typ == MX then rr.rdstart + 2 else rr.rdstart;
      TextEnds(dg, Start(c, rr.rdstart + rr.rdlen), x.flags.quoteokAnshost, true, s);
      GlueEnds(dg, sec, OwnerLabels(Owner(dg, c)), s);
    } else if rr.rdstart + rr.rdlen <= |dg| {
      FlatEnds(x.typ, x.flags.quoteokAnshost, dg, rr, o, s);
    }
    hide FlatAt;
  }

  lemma {:induction false} SecondPassEnds(x: Query, dg: seq<Byte>, rrs: seq<Rr>, i: nat, sec: Sections,
                                          ptrAddr: Option<seq<Byte>>, os: seq<Stray>, s: set<nat>)
    requires BackwardOn(dg, s) && NamesIn(dg, sec.nsstart, sec.nscount + sec.arcount, s)
    requires i <= |rrs| && forall rr :: rr in rrs ==> NameIn(dg, rr, s) && rr.typ == x.typ % 0x1_0000
    ensures !SecondPass(x, dg, rrs, i, sec, ptrAddr, os).SecondDiverges?
    decreases |rrs| - i
  {
    hide ParseRr;
    hide BackwardOn;
    hide NamesIn;
    hide NameIn;
    if i < |rrs| {
      assert rrs[i] in rrs;
      ParseEnds(x, dg, rrs[i], sec, ptrAddr, StrayAt(os, i), s);
      SecondPassEnds(x, dg, rrs, i + 1, sec, ParseRr(x, dg, rrs[i], sec, ptrAddr, StrayAt(os, i)).ptrAddr, os, s);
    }
  }

  lemma TriedNamesIn(x: Query, dg: seq<Byte>, h: Header, p: Pass, s: set<nat>, rr: Rr)
    requires NamesIn(dg, |x.dgram|, h.ancount + h.nscount + h.arcount, s) && rr in Tried(x, dg, h, p)
    ensures NameIn(dg, rr, s) && rr.typ == x.typ % 0x1_0000
  {
    hide Accepted;
    hide NamesIn;
    hide NameIn;
    var w := WantedBy(x);
    AcceptedNamesIn(dg, w, CurrentOwner(w, p), |x.dgram|, h.ancount, h.nscount + h.arcount, s);
    assert rr in Wants(x, dg, h, p);
    assert rr in Accepted(dg, w, CurrentOwner(w, p), |x.dgram|, h.ancount);
  }

  lemma PositiveEnds(x: Query, dg: seq<Byte>, h: Header, p: Pass, os: seq<Stray>, s: set<nat>)
    requires BackwardOn(dg, s) && NamesIn(dg, |x.dgram|, h.ancount + h.nscount + h.arcount, s)
    requires NamesIn(dg, p.cbyte, h.nscount + h.arcount, s)
    ensures ReadPositive(x, dg, h, p, os) != Endless
  {
    hide BackwardOn;
    hide NamesIn;
    hide NameIn;
    hide SecondPass;
    hide Overruns;
    hide Accepted;
    hide Tried;
    var rrs := Tried(x, dg, h, p);
    forall rr | rr in rrs ensures NameIn(dg, rr, s) && rr.typ == x.typ % 0x1_0000 {
      TriedNamesIn(x, dg, h, p, s, rr);
    }
    hide TooMany;
    SecondPassEnds(x, dg, rrs, 0, SectionsBehind(h, p), x.ptrAddr, os, s);
  }

  /** A datagram in which the names of records, and the names in their data, decode through backward pointers only,
      as RFC 1035 section 4.1.4 wants them, is read to its end. */
  lemma ReadingEnds(x: Query, dg: seq<Byte>, os: seq<Stray>, s: set<nat>)
    requires |dg| >= DNS_HDRSIZE && BackwardOn(dg, s)
    requires var h := HeaderOf(dg); NamesIn(dg, |x.dgram|, h.ancount + h.nscount + h.arcount, s)
    ensures ReadReply(x, dg, os) != Endless
  {
    hide BackwardOn;
    hide NamesIn;
    hide FirstPass;
    hide AuthorityAt;
    hide ReadPositive;
    var h := HeaderOf(dg);
    FirstPassEnds(dg, WantedBy(x), FirstState(x), h.ancount, h.nscount + h.arcount, s);
    var r := FirstPass(dg, WantedBy(x), FirstState(x), h.ancount);
    if r.PassDone? {
      FewerNamesIn(dg, r.p.cbyte, h.nscount + h.arcount, h.nscount, s);
      AuthorityEnds(dg, r.p.cbyte, h.nscount, false, s);
      PositiveEnds(x, dg, h, r.p, os, s);
    }
  }

  /** Every pointer of the datagram, wherever it stands, leads to an earlier offset. */
  ghost predicate BackwardEverywhere(dg: seq<Byte>) { forall c :: IsPointer(dg, c) ==> Target(dg, c) < c }

  function Offsets(n: nat): (s: set<nat>)
    ensures forall c: nat :: c in s <==> c < n
  {
    if n == 0 then {} else Offsets(n - 1) + {n - 1}
  }

  lemma {:induction false} AllNamesIn(dg: seq<Byte>, c: nat, n: nat)
    requires c <= |dg|
    ensures NamesIn(dg, c, n, Offsets(|dg| + 64))
    decreases n
  {
    if n > 0 {
      var r := RecordAt(dg, c, None);
      if r.Record? {
        RecordAdvances(dg, c, []);
        SameRecord(dg, c, []);
        hide RecordAt;
        RecordNamesIn(dg, r.rr);
        hide NameIn;
        AllNamesIn(dg, r.next, n - 1);
      }
    }
  }

  lemma RecordNamesIn(dg: seq<Byte>, rr: Rr)
    requires rr.rdstart + rr.rdlen <= |dg|
    ensures NameIn(dg, rr, Offsets(|dg| + 64))
  {
    var c, max := rr.rdstart, rr.rdstart + rr.rdlen;
    AllNamesFrom(dg, c, max);
    if InlineEnd(dg, c) >= 0 {
      AllNamesFrom(dg, InlineEnd(dg, c), max);
    }
    hide NamesFrom;
  }

  lemma {:induction false} BadInside(dg: seq<Byte>, f: Cursor, hops: nat)
    ensures match NextWithin(dg, f, hops) case Bad(_, at) => at.cbyte <= |dg| case _ => true
    decreases hops
  {
    if Follows(dg, f) && hops > 0 {
      BadInside(dg, Jumped(dg, f), hops - 1);
    }
  }

  lemma AllNamesFrom(dg: seq<Byte>, c: nat, max: int)
    requires c <= |dg|
    ensures NamesFrom(dg, c, max, Offsets(|dg| + 64))
  {
    var f := Start(c, max);
    if FindNext(dg, f).Bad? {
      var hops := HopsNeeded(dg, f);
      FindNextIs(dg, f, hops);
      BadInside(dg, f, hops);
    }
  }

  /** In particular no datagram whose pointers all lead backward makes the reading endless. */
  lemma BackwardIsRead(x: Query, dg: seq<Byte>, os: seq<Stray>)
    requires DNS_HDRSIZE <= |dg| && |x.dgram| <= |dg| && BackwardEverywhere(dg)
    ensures ReadReply(x, dg, os) != Endless
  {
    hide ReadReply;
    var h := HeaderOf(dg);
    AllNamesIn(dg, |x.dgram|, h.ancount + h.nscount + h.arcount);
    assert BackwardOn(dg, Offsets(|dg| + 64));
    ReadingEnds(x, dg, os, Offsets(|dg| + 64));
  }

  // ---------- No assertion that fails ----------

  ghost function FirstOver(x: Query, dg: seq<Byte>): PassEnd
    requires |dg| >= DNS_HDRSIZE
  {
    FirstPass(dg, WantedBy(x), FirstState(x), HeaderOf(dg).ancount)
  }

  /** With the truncation bit set, the query is to start again at an offset at which there is no name (see
      Answers.CnameErrors). */
  ghost predicate LostCname(x: Query, dg: seq<Byte>)
    requires |dg| >= DNS_HDRSIZE
  {
    Dangling(x, dg) && !FoundThere(FirstOver(x, dg).p, |dg|, FirstOver(x, dg).redirect.value)
  }

  /** The first pass got through, and there is no truncation bit. */
  ghost predicate Whole(x: Query, dg: seq<Byte>)
    requires |dg| >= DNS_HDRSIZE
  {
    HeaderOf(dg).rcode in {0, 3} && !HeaderOf(dg).tc && FirstOver(x, dg).PassDone?
  }

  /** A search for which NXDOMAIN arrives over TCP (the assertion at adns/transmit.c:303). */
  ghost predicate SearchOverTcp(x: Query, dg: seq<Byte>)
    requires |dg| >= DNS_HDRSIZE
  {
    Whole(x, dg) && HeaderOf(dg).rcode == 3 && x.flags.search && !x.state.Tosend? &&
    FirstOver(x, dg).p.wantedrrs == 0 &&
      AuthorityAt(dg, FirstOver(x, dg).p.cbyte, HeaderOf(dg).nscount, false).Authority?
  }

  /** The wanted records of the final name that stand before the last CNAME followed. */
  ghost function Early(x: Query, dg: seq<Byte>): seq<Rr>
    requires |dg| >= DNS_HDRSIZE && FirstOver(x, dg).PassDone?
  {
    var w, n := WantedBy(x), HeaderOf(dg).ancount;
    Accepted(dg, w, CurrentOwner(w, FirstOver(x, dg).p), |x.dgram|, UpToLastCname(dg, w, FirstState(x), n))
  }

  /** The second pass gets through more records than the first has counted (the assertion at adns/reply.c:455), or
      stores one behind the table. */
  ghost predicate Surplus(x: Query, dg: seq<Byte>, os: seq<Stray>)
    requires |dg| >= DNS_HDRSIZE
  {
    Whole(x, dg) && FirstOver(x, dg).p.wantedrrs > 0 && TooMany(x, dg, HeaderOf(dg), FirstOver(x, dg).p, os)
  }

  /** The source gives out in these three cases and in no other, and the third needs a wanted record of the final
      name before the last CNAME followed. */
  lemma StuckExactly(x: Query, dg: seq<Byte>, os: seq<Stray>)
    requires |dg| >= DNS_HDRSIZE
    ensures ReadReply(x, dg, os) == Stuck <==> LostCname(x, dg) || SearchOverTcp(x, dg) || Surplus(x, dg, os)
    ensures Surplus(x, dg, os) ==> Early(x, dg) != []
  {
    hide FirstPass;
    hide AuthorityAt;
    hide ReadPositive;
    hide TooMany;
    hide FoundThere;
    hide UpToLastCname;
    var r, h := FirstOver(x, dg), HeaderOf(dg);
    if r.PassDone? {
      StuckOnlyOnAmbiguity(x, dg, h, r.p, os);
      TooManyWants(x, dg, h, r.p, os);
    }
    hide Accepted;
  }

  lemma TooManyWants(x: Query, dg: seq<Byte>, h: Header, p: Pass, os: seq<Stray>)
    ensures TooMany(x, dg, h, p, os) ==> p.wantedrrs < |Wants(x, dg, h, p)|
  {
    hide SecondPass;
    hide ParseRr;
    hide Accepted;
  }

  // ---------- What the caller can check ----------

  /** A reply to a query that is not waiting for TCP: backward pointers, no second CNAME cut off, and no wanted record
      before the CNAME that leads to its owner. */
  ghost predicate Proper(x: Query, dg: seq<Byte>, s: set<nat>)
    requires |dg| >= DNS_HDRSIZE
  {
    BackwardOn(dg, s) &&
    var h := HeaderOf(dg);
    NamesIn(dg, |x.dgram|, h.ancount + h.nscount + h.arcount, s) && !Dangling(x, dg) &&
    (FirstOver(x, dg).PassDone? ==> Early(x, dg) == []) && RoomyRecords(dg, |x.dgram|, h.ancount)
  }

  lemma ProperIsRead(x: Query, dg: seq<Byte>, os: seq<Stray>, s: set<nat>)
    requires |dg| >= DNS_HDRSIZE && Proper(x, dg, s) && x.state.Tosend? && RoomyCname(x.cname)
    ensures match ReadReply(x, dg, os)
            case Read(v) => RoomyVerdict(v, |dg|) && RoomyCname(v.pass.cname)
            case _ => false
  {
    hide ReadReply;
    hide FirstPass;
    hide TooMany;
    hide NamesIn;
    hide BackwardOn;
    hide Early;
    hide RoomyCname;
    hide RoomyRecords;
    hide RoomyVerdict;
    hide Dangling;
    ReadingEnds(x, dg, os, s);
    StuckExactly(x, dg, os);
    RepliesAreRoomy(x, dg, os);
  }

  /** Such a reply is an event that the query can go on with, and brings in only names that fit. */
  lemma ProperReply(cfg: Config, s: St, dg: seq<Byte>, serv: nat, viatcp: bool, now: int, os: seq<Stray>,
                    names: set<nat>)
    requires ValidConfig(cfg) && Inv(cfg, s, {}) && NoTcp(s) && RoomyAll(s)
    requires forall q :: Waiting(s, q) ==> q in s.qs && |s.qs[q].dgram| >= DNS_HDRSIZE
    requires var a := Addressee(s, dg, serv, viatcp); a.Some? ==> Relevant(dg) && Proper(s.qs[a.value], dg, names)
    ensures Addressee(s, dg, serv, viatcp).Some? ==>
              var e := ReplyEvent(s, dg, serv, viatcp, now, os);
              e.Some? && Enabled(cfg, s, e.value) && RoomyVerdict(e.value.verdict, |dg|) && RoomyEvent(e.value)
  {
    ReplyEventEnabled(cfg, s, dg, serv, viatcp, now, os);
    hide ReadReply;
    hide Proper;
    hide RoomyCname;
    hide RoomyVerdict;
    hide Enabled;
    hide FirstMatch;
    hide NoTcp;
    hide RoomyAll;
    var a := Addressee(s, dg, serv, viatcp);
    if a.Some? {
      WaitingState(cfg, s, a.value);
      EveryName(s, a.value);
      ProperIsRead(s.qs[a.value], dg, os, names);
    }
    hide Inv;
  }

  lemma WaitingState(cfg: Config, s: St, q: QId)
    requires ValidConfig(cfg) && Inv(cfg, s, {}) && q in s.qs && Waiting(s, q)
    ensures s.qs[q].state.Tosend? || s.qs[q].state.Tcpw?
  {
    InvAt(cfg, s, {}, q);
  }

  /** The states of every run into which only such replies have come are as ProperReply asks. */
  lemma ProperRuns(cfg: Config, events: seq<Event>, s: St)
    requires ValidConfig(cfg) && Reaches(cfg, INITIAL, events, s)
    requires forall i :: 0 <= i < |events| ==> RoomyEvent(events[i])
    ensures Inv(cfg, s, {}) && NoTcp(s) && RoomyAll(s)
    ensures forall q :: Waiting(s, q) ==> q in s.qs && |s.qs[q].dgram| >= DNS_HDRSIZE
  {
    InitialInv(cfg);
    RunKeeps(cfg, INITIAL, events, s);
    RunsWithoutTcp(cfg, INITIAL, events, s);
    RunsStayRoomy(cfg, INITIAL, events, s);
    WaitingQuestions(cfg, s);
    hide Inv;
    hide RoomyCname;
    hide Reaches;
  }
}
