/** What the records of an answer say: the bytes of the datagram that they are read from. Here this is said of the
    datagram itself, by the positions of its records and the labels of its names. */
module Contents {
  import opened Basics
  import opened Headers
  import opened Names
  import opened Texts
  import opened Records
  import opened Answers
  import opened LifeCycle
  import opened Reverses
  import opened Mailboxes
  import opened Parsers
  import opened Submission
  import opened Replies
  import opened Rooms
  import opened Guards
  import opened Endings
  import opened Outcomes

  // ---------- Positions ----------

  /** The `k`th record from `c` on belongs to `owner`, is of class IN and of this type. */
  ghost predicate StandsFor(dg: seq<Byte>, c: nat, k: nat, owner: seq<Label>, typ: nat)
  {
    Readable(dg, c, k) &&
    match RecordAt(dg, Skip(dg, c, k), Some(owner))
    case Record(rr, _, matched) => matched && rr.class_ == DNS_CLASS_IN && rr.typ == typ
    case _ => false
  }

  ghost function RecordNo(dg: seq<Byte>, c: nat, k: nat, owner: seq<Label>, typ: nat): Rr
    requires StandsFor(dg, c, k, owner, typ)
  {
    RecordAt(dg, Skip(dg, c, k), Some(owner)).rr
  }

  /** These are the positions of all such records among the first `n`, in order. */
  ghost predicate Positions(dg: seq<Byte>, c: nat, n: nat, owner: seq<Label>, typ: nat, ks: seq<nat>)
  {
    (forall i, j :: 0 <= i < j < |ks| ==> ks[i] < ks[j]) &&
    forall k: nat :: k in ks <==> k < n && StandsFor(dg, c, k, owner, typ)
  }

  lemma StandsBehind(dg: seq<Byte>, c: nat, k: nat, owner: seq<Label>, typ: nat, rr: Rr, next: nat, matched: bool)
    requires RecordAt(dg, c, Some(owner)) == Record(rr, next, matched)
    ensures StandsFor(dg, c, 0, owner, typ) <==> matched && rr.class_ == DNS_CLASS_IN && rr.typ == typ
    ensures StandsFor(dg, c, 0, owner, typ) ==> RecordNo(dg, c, 0, owner, typ) == rr
    ensures StandsFor(dg, c, k + 1, owner, typ) <==> StandsFor(dg, next, k, owner, typ)
    ensures StandsFor(dg, c, k + 1, owner, typ) ==>
              RecordNo(dg, c, k + 1, owner, typ) == RecordNo(dg, next, k, owner, typ)
    ensures Readable(dg, c, k + 1) == Readable(dg, next, k)
    ensures Skip(dg, c, k + 1) == Skip(dg, next, k)
  {
    SameRecord(dg, c, owner);
    hide RecordAt;
  }

  lemma NoneStands(dg: seq<Byte>, c: nat, owner: seq<Label>, typ: nat)
    requires !RecordAt(dg, c, Some(owner)).Record?
    ensures forall k: nat :: !StandsFor(dg, c, k, owner, typ)
    ensures forall n: nat :: n > 0 ==> !Readable(dg, c, n)
  {
    SameRecord(dg, c, owner);
    hide RecordAt;
  }

  function Shifted(ks: seq<nat>): (r: seq<nat>)
    ensures |r| == |ks| && forall i :: 0 <= i < |ks| ==> r[i] == ks[i] + 1
  {
    seq(|ks|, i requires 0 <= i < |ks| => ks[i] + 1)
  }

  /** The records that the second pass accepts are those. */
  lemma {:induction false} AcceptedAt(dg: seq<Byte>, w: Wanted, owner: seq<Label>, c: nat, n: nat)
    returns (ks: seq<nat>)
    ensures Positions(dg, c, n, owner, w.typ, ks) && |ks| == |Accepted(dg, w, owner, c, n)|
    ensures forall i :: 0 <= i < |ks| ==>
              StandsFor(dg, c, ks[i], owner, w.typ) &&
              RecordNo(dg, c, ks[i], owner, w.typ) == Accepted(dg, w, owner, c, n)[i]
    decreases n
  {
    hide RecordAt;
    hide StandsFor;
    hide RecordNo;
    ks := [];
    if n > 0 {
      var r := RecordAt(dg, c, Some(owner));
      if r.Record? {
        var more := AcceptedAt(dg, w, owner, r.next, n - 1);
        var rest := Accepted(dg, w, owner, r.next, n - 1);
        var here := Accepts(w, r.rr, r.matched);
        ks := (if here then [0] else []) + Shifted(more);
        PositionsNext(dg, c, n, owner, w.typ, r.rr, r.next, r.matched, more, ks);
        forall i | 0 <= i < |ks|
          ensures StandsFor(dg, c, ks[i], owner, w.typ) &&
                  RecordNo(dg, c, ks[i], owner, w.typ) == Accepted(dg, w, owner, c, n)[i]
        {
          var j := if here then i - 1 else i;
          if j >= 0 {
            StandsBehind(dg, c, more[j], owner, w.typ, r.rr, r.next, r.matched);
          } else {
            StandsBehind(dg, c, 0, owner, w.typ, r.rr, r.next, r.matched);
          }
        }
      } else {
        NoneStands(dg, c, owner, w.typ);
      }
    }
  }

  lemma InShifted(here: bool, more: seq<nat>, k: nat)
    ensures k in (if here then [0] else []) + Shifted(more) <==> if k == 0 then here else k - 1 in more
  {
    var ks := Shifted(more);
    if k > 0 && k - 1 in more {
      var i :| 0 <= i < |more| && more[i] == k - 1;
      assert ks[i] == k;
    }
    if k in ks {
      var i :| 0 <= i < |ks| && ks[i] == k;
      assert more[i] == k - 1;
    }
  }

  lemma PositionsNext(dg: seq<Byte>, c: nat, n: nat, owner: seq<Label>, typ: nat, rr: Rr, next: nat, matched: bool,
                      more: seq<nat>, ks: seq<nat>)
    requires n > 0 && RecordAt(dg, c, Some(owner)) == Record(rr, next, matched)
    requires Positions(dg, next, n - 1, owner, typ, more)
    requires ks == (if matched && rr.class_ == DNS_CLASS_IN && rr.typ == typ then [0] else []) + Shifted(more)
    ensures Positions(dg, c, n, owner, typ, ks)
  {
    hide RecordAt;
    hide StandsFor;
    var here := matched && rr.class_ == DNS_CLASS_IN && rr.typ == typ;
    forall k: nat ensures k in ks <==> k < n && StandsFor(dg, c, k, owner, typ) {
      InShifted(here, more, k);
      StandsBehind(dg, c, if k > 0 then k - 1 else 0, owner, typ, rr, next, matched);
    }
  }

  // ---------- Addresses of a host ----------

  /** No address of the owner is among the records. */
  ghost predicate NoAddress(dg: seq<Byte>, c: nat, n: nat, owner: seq<Label>)
  {
    forall k: nat :: k < n ==> !StandsFor(dg, c, k, owner, 1)
  }

  /** The record is an A record of four bytes, and these are they. */
  ghost predicate IsAddressNo(dg: seq<Byte>, c: nat, k: nat, owner: seq<Label>, d: Stored)
  {
    StandsFor(dg, c, k, owner, 1) &&
    var rr := RecordNo(dg, c, k, owner, 1);
    rr.rdlen == 4 && rr.rdstart + 4 <= |dg| && d == Address(dg[rr.rdstart..rr.rdstart + 4])
  }

  /** The first `b` records are addresses of the owner, these, and the next one, if there is one, is not. */
  ghost predicate StandTogether(dg: seq<Byte>, c: nat, n: nat, owner: seq<Label>, b: nat, addrs: seq<Stored>)
  {
    b == |addrs| <= n && Readable(dg, c, b) && (forall k: nat :: k < b ==> IsAddressNo(dg, c, k, owner, addrs[k])) &&
    (b < n ==> !StandsFor(dg, c, b, owner, 1))
  }

  /** They are the first addresses of the owner that stand together, in order. */
  ghost predicate FirstAddresses(dg: seq<Byte>, c: nat, n: nat, owner: seq<Label>, addrs: seq<Stored>)
  {
    addrs != [] &&
    exists a: nat :: a < n && Readable(dg, c, a) && NoAddress(dg, c, a, owner) &&
      StandTogether(dg, Skip(dg, c, a), n - a, owner, |addrs|, addrs)
  }

  lemma TogetherNext(dg: seq<Byte>, c: nat, n: nat, owner: seq<Label>, rr: Rr, next: nat, d: Stored, more: seq<Stored>)
    requires n > 0 && RecordAt(dg, c, Some(owner)) == Record(rr, next, true) && IsAddress(rr, true) && rr.rdlen == 4
    requires rr.rdstart + 4 <= |dg| && d == Address(dg[rr.rdstart..rr.rdstart + 4])
    requires StandTogether(dg, next, n - 1, owner, |more|, more)
    ensures StandTogether(dg, c, n, owner, |more| + 1, [d] + more)
  {
    hide RecordAt;
    hide StandsFor;
    hide RecordNo;
    var all := [d] + more;
    StandsBehind(dg, c, |more|, owner, 1, rr, next, true);
    forall k: nat | k < |all| ensures IsAddressNo(dg, c, k, owner, all[k]) {
      StandsBehind(dg, c, if k > 0 then k - 1 else 0, owner, 1, rr, next, true);
      if k > 0 {
        assert IsAddressNo(dg, next, k - 1, owner, more[k - 1]);
      }
    }
  }

  /** Once there is one, addresses are taken as long as they stand together. */
  lemma {:induction false} AddressesGoOn(dg: seq<Byte>, c: nat, n: nat, owner: seq<Label>, addrs: seq<Stored>)
    returns (more: seq<Stored>)
    requires addrs != []
    ensures FindAddrs(dg, c, n, owner, addrs).Glue? ==>
              FindAddrs(dg, c, n, owner, addrs).addrs == addrs + more &&
              StandTogether(dg, c, n, owner, |more|, more)
    decreases n
  {
    hide RecordAt;
    hide StandsFor;
    more := [];
    assert addrs + [] == addrs;
    if n > 0 {
      var r := RecordAt(dg, c, Some(owner));
      if r.Record? && IsAddress(r.rr, r.matched) && r.rr.rdlen == 4 {
        RecordAdvances(dg, c, owner);
        var d := Address(Rdata(dg, r.rr));
        var rest := AddressesGoOn(dg, r.next, n - 1, owner, addrs + [d]);
        more := [d] + rest;
        assert addrs + [d] + rest == addrs + more;
        if FindAddrs(dg, c, n, owner, addrs).Glue? {
          TogetherNext(dg, c, n, owner, r.rr, r.next, d, rest);
        }
      } else if r.Record? {
        StandsBehind(dg, c, 0, owner, 1, r.rr, r.next, r.matched);
      } else {
        NoneStands(dg, c, owner, 1);
      }
    }
  }

  lemma {:induction false} NothingBehind(dg: seq<Byte>, c: nat, n: nat, owner: seq<Label>)
    requires RecordAt(dg, c, Some(owner)).RecordTruncated?
    ensures FindAddrs(dg, c, n, owner, []) == Glue(c, [])
    decreases n
  {
    hide RecordAt;
    if n > 0 {
      NothingBehind(dg, c, n - 1, owner);
    }
  }

  /** One record that is no address of the owner's, and what is found behind it. */
  lemma PassOver(dg: seq<Byte>, c: nat, n: nat, owner: seq<Label>, rr: Rr, next: nat, matched: bool, all: seq<Stored>)
    requires n > 0 && RecordAt(dg, c, Some(owner)) == Record(rr, next, matched) && !IsAddress(rr, matched)
    ensures NoAddress(dg, next, n - 1, owner) ==> NoAddress(dg, c, n, owner)
    ensures FirstAddresses(dg, next, n - 1, owner, all) ==> FirstAddresses(dg, c, n, owner, all)
  {
    hide RecordAt;
    hide StandsFor;
    hide StandTogether;
    if NoAddress(dg, next, n - 1, owner) {
      NoneBehind(dg, c, n, owner, rr, next, matched);
    }
    if FirstAddresses(dg, next, n - 1, owner, all) {
      var a: nat :| a < n - 1 && Readable(dg, next, a) && NoAddress(dg, next, a, owner) &&
        StandTogether(dg, Skip(dg, next, a), n - 1 - a, owner, |all|, all);
      NoneBehind(dg, c, a + 1, owner, rr, next, matched);
      StandsBehind(dg, c, a, owner, 1, rr, next, matched);
      assert n - (a + 1) == n - 1 - a;
    }
  }

  lemma NoneBehind(dg: seq<Byte>, c: nat, n: nat, owner: seq<Label>, rr: Rr, next: nat, matched: bool)
    requires n > 0 && RecordAt(dg, c, Some(owner)) == Record(rr, next, matched) && !IsAddress(rr, matched)
    requires NoAddress(dg, next, n - 1, owner)
    ensures NoAddress(dg, c, n, owner)
  {
    hide RecordAt;
    hide StandsFor;
    forall k: nat | k < n ensures !StandsFor(dg, c, k, owner, 1) {
      StandsBehind(dg, c, if k > 0 then k - 1 else 0, owner, 1, rr, next, matched);
    }
  }

  /** The search through a section finds the first addresses that stand together, and ends behind it if there are
      none. */
  lemma {:induction false} AddressesFrom(dg: seq<Byte>, c: nat, n: nat, owner: seq<Label>)
    ensures var r := FindAddrs(dg, c, n, owner, []);
            r.Glue? ==>
              if r.addrs == [] then
                NoAddress(dg, c, n, owner) &&
                if Readable(dg, c, n) then r.next == Skip(dg, c, n)
                else RecordAt(dg, r.next, Some(owner)).RecordTruncated?
              else FirstAddresses(dg, c, n, owner, r.addrs)
    decreases n
  {
    hide RecordAt;
    hide StandsFor;
    hide StandTogether;
    if n > 0 {
      var r := RecordAt(dg, c, Some(owner));
      match r
      case Record(rr, next, matched) =>
        if !IsAddress(rr, matched) {
          AddressesFrom(dg, next, n - 1, owner);
          PassOver(dg, c, n, owner, rr, next, matched, FindAddrsOf(dg, next, n - 1, owner));
          StandsBehind(dg, c, n - 1, owner, 1, rr, next, matched);
        } else if rr.rdlen == 4 {
          RecordAdvances(dg, c, owner);
          var d := Address(Rdata(dg, rr));
          assert [] + [d] == [d];
          var more := AddressesGoOn(dg, next, n - 1, owner, [d]);
          if FindAddrs(dg, c, n, owner, []).Glue? {
            TogetherNext(dg, c, n, owner, rr, next, d, more);
            assert Skip(dg, c, 0) == c && Readable(dg, c, 0) && NoAddress(dg, c, 0, owner);
            assert n - 0 == n;
          }
        }
      case RecordTruncated =>
        NothingBehind(dg, c, n, owner);
        NoneStands(dg, c, owner, 1);
      case _ =>
    }
  }

  ghost function FindAddrsOf(dg: seq<Byte>, c: nat, n: nat, owner: seq<Label>): seq<Stored>
  {
    var r := FindAddrs(dg, c, n, owner, []);
    if r.Glue? then r.addrs else []
  }

  /** What a reply says of the addresses of a host: the first ones that stand together in the authority section, or, if
      there are none, in the additional one. */
  ghost predicate KnownFor(dg: seq<Byte>, sec: Sections, owner: seq<Label>, addrs: seq<Stored>)
  {
    var c, n := sec.nsstart, sec.nscount;
    if addrs == [] then
      NoAddress(dg, c, n, owner) && (Readable(dg, c, n) ==> NoAddress(dg, Skip(dg, c, n), sec.arcount, owner))
    else
      FirstAddresses(dg, c, n, owner, addrs) ||
      (NoAddress(dg, c, n, owner) && Readable(dg, c, n) &&
       FirstAddresses(dg, Skip(dg, c, n), sec.arcount, owner, addrs))
  }

  /** Those are the addresses that are found. */
  lemma GlueIsKnown(dg: seq<Byte>, sec: Sections, owner: seq<Label>)
    ensures var r := FindGlue(dg, sec, owner); r.Glue? ==> KnownFor(dg, sec, owner, r.addrs)
  {
    hide FirstAddresses;
    hide NoAddress;
    var first := FindAddrs(dg, sec.nsstart, sec.nscount, owner, []);
    AddressesFrom(dg, sec.nsstart, sec.nscount, owner);
    if first.Glue? && first.addrs == [] {
      AddressesFrom(dg, first.next, sec.arcount, owner);
      if !Readable(dg, sec.nsstart, sec.nscount) {
        NothingBehind(dg, first.next, sec.arcount, owner);
      }
    }
    hide FindAddrs;
  }

  // ---------- Records ----------

  /** The text is the print of the name that stands there and ends at `end`; without quoting, of a hostname. */
  ghost predicate NameSays(dg: seq<Byte>, c: nat, max: int, quoteok: bool, text: seq<Byte>, end: nat)
  {
    NameAt(dg, c, max).Name? &&
    var ls := NameAt(dg, c, max).labels;
    (quoteok || AllHost(ls)) && text == Printed(ls, quoteok, true) && NameAt(dg, c, max).end == end
  }

  /** So it is for the mailbox of a name that can be decoded: the first label is the local part (section 8 of
      RFC 1035). */
  ghost predicate MailSays(dg: seq<Byte>, c: nat, max: int, text: seq<Byte>, end: nat)
  {
    NameAt(dg, c, max).Name? ==>
      var ls := NameAt(dg, c, max).labels;
      NameAt(dg, c, max).end == end &&
      if ls == [] then text == [DOT]
      else
        !HasControl(ls[0]) && AllHost(ls[1..]) &&
        text == LocalPart(ls[0]) + [AT] + Printed(ls[1..], false, true) + [0]
  }

  /** The name of a host, and its addresses as far as the reply has them. */
  ghost predicate HostSays(dg: seq<Byte>, c: nat, max: nat, quoteok: bool, sec: Sections, d: Stored)
  {
    d.Host? && NameSays(dg, c, max, quoteok, d.host, max) && d.astatus == Ok &&
    d.naddrs == (if d.addrs == [] then -1 else |d.addrs|) &&
    KnownFor(dg, sec, OwnerLabels(Owner(dg, c)), d.addrs)
  }

  ghost predicate PersonSays(dg: seq<Byte>, c: nat, max: int, mail822: bool, text: seq<Byte>, end: nat)
  {
    if mail822 then MailSays(dg, c, max, text, end) else NameSays(dg, c, max, true, text, end)
  }

  /** A mailbox, and a name from `e` on. */
  ghost predicate PairSays(dg: seq<Byte>, c: nat, max: nat, mail822: bool, d: Stored, e: nat)
    requires d.Pair?
  {
    PersonSays(dg, c, max, mail822, d.first, e) && NameSays(dg, e, max, true, d.second, max)
  }

  /** A name, a mailbox from `e` on, and five numbers. */
  ghost predicate SoaSays(dg: seq<Byte>, c: nat, max: nat, quoteok: bool, mail822: bool, d: Stored, e: nat)
    requires d.Soa? && max <= |dg|
  {
    NameSays(dg, c, max, quoteok, d.mname, e) && 20 <= max && PersonSays(dg, e, max, mail822, d.rname, max - 20) &&
    |d.numbers| == 5 && forall i :: 0 <= i < 5 ==> d.numbers[i] == Extended(GetL(dg, max - 20 + 4 * i))
  }

  ghost predicate SaysPair(dg: seq<Byte>, c: nat, max: nat, mail822: bool, d: Stored)
  {
    d.Pair? && exists e: nat :: PairSays(dg, c, max, mail822, d, e)
  }

  ghost predicate SaysSoa(dg: seq<Byte>, c: nat, max: nat, quoteok: bool, mail822: bool, d: Stored)
    requires max <= |dg|
  {
    d.Soa? && exists e: nat :: SoaSays(dg, c, max, quoteok, mail822, d, e)
  }

  function Pref(dg: seq<Byte>, c: nat): int
    requires c + 2 <= |dg|
  {
    dg[c] as int * 256 + dg[c + 1] as int
  }

  /** What a record of the datagram says, for each type (RFC 1035 section 3.3, RFC 1183 section 2.2). */
  ghost predicate Says(x: Query, dg: seq<Byte>, rr: Rr, sec: Sections, d: Stored)
  {
    var c, max, ok := rr.rdstart, rr.rdstart + rr.rdlen, x.flags.quoteokAnshost;
    max <= |dg| &&
    if x.typ == NS then HostSays(dg, c, max, ok, sec, d) && d.pref == 0
    else if x.typ == MX then 2 <= rr.rdlen && HostSays(dg, c + 2, max, ok, sec, d) && d.pref == Pref(dg, c)
    else if x.typ == PTR || x.typ == 2 || x.typ == 12 then d.Domain? && NameSays(dg, c, max, ok, d.text, max)
    else if x.typ % 0x1_0000 == 1 then rr.rdlen == 4 && d == Address(dg[c..c + 4])
    else if x.typ == 5 then d.Domain? && NameSays(dg, c, max, true, d.text, max)
    else if x.typ == 15 then
      d.Preferred? && 2 <= rr.rdlen && d.pref == Pref(dg, c) && NameSays(dg, c + 2, max, ok, d.text, max)
    else if x.typ == 16 then d.Strings? && d.strs != [] && Short(d.strs) && Joined(d.strs) == dg[c..max]
    else if x.typ == 13 then d.Strings? && |d.strs| == 2 && Short(d.strs) && Joined(d.strs) == dg[c..max]
    else if x.typ == 17 || x.typ == RP then SaysPair(dg, c, max, x.typ == RP, d)
    else (x.typ == 6 || x.typ == SOA) && SaysSoa(dg, c, max, ok, x.typ == SOA, d)
  }

  lemma TextSays(dg: seq<Byte>, c: nat, max: int, quoteok: bool)
    ensures var r := RestText(dg, Start(c, max), quoteok, true);
            r.Text? ==> NameSays(dg, c, max, quoteok, r.text, r.end)
  {
    PrintsTheName(dg, Start(c, max), quoteok, true);
    NameIsRest(dg, c, max);
  }

  lemma DomainSays(dg: seq<Byte>, c: nat, max: int, quoteok: bool)
    ensures var r := DomainAt(dg, c, max, quoteok); r.Field? ==> NameSays(dg, c, max, quoteok, r.text, r.end)
  {
    TextSays(dg, c, max, quoteok);
    hide RestText;
  }

  lemma MailboxSays(dg: seq<Byte>, c: nat, max: int, o: Stray)
    ensures var r := MailboxAt(dg, c, max, o.lablen, o.labstart); r.Mailbox? ==> MailSays(dg, c, max, r.text, r.end)
  {
    hide HasControl;
    hide LocalPart;
    NameIsRest(dg, c, max);
    var f := Start(c, max);
    var n := FindNext(dg, f);
    if n.Found? && Rest(dg, f).Name? {
      var lab, ls := dg[n.start..n.start + n.len], Rest(dg, f).labels;
      PrintsTheName(dg, n.after, false, true);
      assert ls == [lab] + Rest(dg, n.after).labels;
      assert ls[0] == lab && ls[1..] == Rest(dg, n.after).labels;
      NameDecodes(dg, n.after);
    }
  }

  /** A name that decodes is not cut off, and has no error. */
  lemma NameDecodes(dg: seq<Byte>, f: Cursor)
    requires Rest(dg, f).Name?
    ensures !RestText(dg, f, false, true).TextTruncated?
  {
    NotCutOff(dg, f, true);
  }

  lemma {:induction false} NotCutOff(dg: seq<Byte>, f: Cursor, first: bool)
    requires Rest(dg, f).Name?
    ensures !RestText(dg, f, false, first).TextTruncated?
    decreases DNS_MAXDOMAIN - f.namelen
  {
    if FindNext(dg, f).Found? {
      NotCutOff(dg, FindNext(dg, f).after, false);
    }
  }

  lemma HostIsSaid(x: Query, dg: seq<Byte>, pref: nat, c: nat, max: nat, sec: Sections, ptrAddr: Option<seq<Byte>>)
    ensures var r := ParseHost(x, dg, pref, c, max, sec, ptrAddr);
            r.Parsed? && r.status == Ok ==>
              HostSays(dg, c, max, x.flags.quoteokAnshost, sec, r.data) && r.data.pref == pref
  {
    hide RestText;
    hide FindGlue;
    hide KnownFor;
    TextSays(dg, c, max, x.flags.quoteokAnshost);
    hide NameSays;
    TextBadNotOk(dg, Start(c, max), x.flags.quoteokAnshost, true);
    var owner := OwnerLabels(Owner(dg, c));
    GlueIsKnown(dg, sec, owner);
    GlueNotOk(dg, sec, owner);
    hide OwnerLabels;
  }

  lemma NameIsSaid(dg: seq<Byte>, c: nat, max: nat, quoteok: bool)
    ensures var r := OneName(DomainAt(dg, c, max, quoteok), max);
            r.Flat? && r.status == Ok ==> r.data.Domain? && NameSays(dg, c, max, quoteok, r.data.text, max)
  {
    DomainSays(dg, c, max, quoteok);
    DomainBadNotOk(dg, c, max, quoteok);
    hide DomainAt;
  }

  lemma PersonIsSaid(dg: seq<Byte>, c: nat, max: nat, mail822: bool, o: Stray)
    ensures var r := MailAt(dg, c, max, mail822, o); r.Field? ==> PersonSays(dg, c, max, mail822, r.text, r.end)
  {
    DomainSays(dg, c, max, true);
    MailboxSays(dg, c, max, o);
    hide DomainAt;
    hide MailboxAt;
    hide NameSays;
    hide MailSays;
  }

  lemma PairIsSaid(dg: seq<Byte>, c: nat, max: nat, mail822: bool, o: Stray)
    ensures var r := RpAt(dg, c, max, mail822, o); r.Flat? && r.status == Ok ==> SaysPair(dg, c, max, mail822, r.data)
  {
    PersonIsSaid(dg, c, max, mail822, o);
    MailBadNotOk(dg, c, max, mail822, o);
    var m := MailAt(dg, c, max, mail822, o);
    if m.Field? {
      DomainSays(dg, m.end, max, true);
      DomainBadNotOk(dg, m.end, max, true);
      var r := RpAt(dg, c, max, mail822, o);
      if r.Flat? && r.status == Ok {
        assert PairSays(dg, c, max, mail822, r.data, m.end);
      }
    }
    hide MailAt;
    hide DomainAt;
  }

  /** The parts that a SOA record is read in. */
  lemma SoaParts(dg: seq<Byte>, c: nat, max: nat, quoteok: bool, mail822: bool, o: Stray)
    requires max <= |dg|
    ensures var r, m := SoaAt(dg, c, max, quoteok, mail822, o), DomainAt(dg, c, max, quoteok);
            r.Flat? && r.status == Ok ==>
              m.Field? &&
              var p := MailAt(dg, m.end, max, mail822, o);
              p.Field? && p.end + 20 == max && r.data == Soa(m.text, p.text, Numbers(dg, p.end))
  {
    DomainBadNotOk(dg, c, max, quoteok);
    var m := DomainAt(dg, c, max, quoteok);
    if m.Field? {
      MailBadNotOk(dg, m.end, max, mail822, o);
    }
    hide DomainAt;
    hide MailAt;
    hide Numbers;
  }

  lemma SoaIsSaid(dg: seq<Byte>, c: nat, max: nat, quoteok: bool, mail822: bool, o: Stray)
    requires max <= |dg|
    ensures var r := SoaAt(dg, c, max, quoteok, mail822, o);
            r.Flat? && r.status == Ok ==> SaysSoa(dg, c, max, quoteok, mail822, r.data)
  {
    hide SoaAt;
    hide DomainAt;
    hide MailAt;
    hide PersonSays;
    hide NameSays;
    hide Numbers;
    SoaParts(dg, c, max, quoteok, mail822, o);
    var r, m := SoaAt(dg, c, max, quoteok, mail822, o), DomainAt(dg, c, max, quoteok);
    if r.Flat? && r.status == Ok {
      DomainSays(dg, c, max, quoteok);
      PersonIsSaid(dg, m.end, max, mail822, o);
      NumbersAre(dg, max - 20);
      hide Extended;
      hide GetL;
      assert SoaSays(dg, c, max, quoteok, mail822, r.data, m.end);
    }
  }

  lemma NumbersAre(dg: seq<Byte>, c: nat)
    requires c + 20 <= |dg|
    ensures |Numbers(dg, c)| == 5 && forall i :: 0 <= i < 5 ==> Numbers(dg, c)[i] == Extended(GetL(dg, c + 4 * i))
  {
    hide Extended;
    hide GetL;
  }

  lemma StringsAreSaid(dg: seq<Byte>, c: nat, max: nat)
    requires max <= |dg| && c <= max
    ensures var r := TxtAt(dg, c, max);
            r.Flat? && r.status == Ok ==>
              r.data.Strings? && r.data.strs != [] && Short(r.data.strs) && Joined(r.data.strs) == dg[c..max]
    ensures var r := HinfoAt(dg, c, max);
            r.Flat? && r.status == Ok ==>
              r.data.Strings? && |r.data.strs| == 2 && Short(r.data.strs) && Joined(r.data.strs) == dg[c..max]
  {
    var r := TxtAt(dg, c, max);
    if r.Flat? && r.status == Ok {
      StringsExactly(dg[c..max], r.data.strs);
    }
    var h := HinfoAt(dg, c, max);
    if h.Flat? && h.status == Ok {
      TwoStrings(dg, c, max, h.data.strs[0], h.data.strs[1]);
    }
  }

  lemma TwoStrings(dg: seq<Byte>, c: nat, max: nat, a: seq<Byte>, b: seq<Byte>)
    requires max <= |dg| && c <= max && QstringAt(dg, c, max).Some? && QstringAt(dg, c, max).value.0 == a
    requires QstringAt(dg, QstringAt(dg, c, max).value.1, max) == Some((b, max))
    ensures Short([a, b]) && Joined([a, b]) == dg[c..max]
  {
    var e := QstringAt(dg, c, max).value.1;
    assert [a, b][1..] == [b] && [b][1..] == [] && Joined([]) == [];
    assert Joined([b]) == [|b|] + b + [] == dg[e..max];
    assert Joined([a, b]) == [|a|] + a + Joined([b]);
    assert [|a|] + a == dg[c..e];
    assert dg[c..e] + dg[e..max] == dg[c..max];
  }

  /** A record that is read without error says what stands in the datagram. */
  lemma RecordIsSaid(x: Query, dg: seq<Byte>, rr: Rr, sec: Sections, ptrAddr: Option<seq<Byte>>, o: Stray)
    requires rr.rdstart + rr.rdlen <= |dg|
    ensures var r := ParseRr(x, dg, rr, sec, ptrAddr, o); r.Parsed? && r.status == Ok ==> Says(x, dg, rr, sec, r.data)
  {
    hide ParseRr;
    hide Says;
    if x.typ == MX || x.typ == NS {
      HostRecordIsSaid(x, dg, rr, sec, ptrAddr, o);
    } else if x.typ == PTR || x.typ % 0x1_0000 == 1 {
      PlainRecordIsSaid(x, dg, rr, sec, ptrAddr, o);
    } else {
      FlatRecordIsSaid(x, dg, rr, sec, ptrAddr, o);
    }
  }

  lemma HostRecordIsSaid(x: Query, dg: seq<Byte>, rr: Rr, sec: Sections, ptrAddr: Option<seq<Byte>>, o: Stray)
    requires rr.rdstart + rr.rdlen <= |dg| && (x.typ == MX || x.typ == NS)
    ensures var r := ParseRr(x, dg, rr, sec, ptrAddr, o); r.Parsed? && r.status == Ok ==> Says(x, dg, rr, sec, r.data)
  {
    hide ParseHost;
    hide ParsePtr;
    hide FlatAt;
    hide HostSays;
    hide NameSays;
    hide SaysPair;
    hide SaysSoa;
    hide GetW;
    hide Pref;
    hide Joined;
    hide Short;
    var c, max := rr.rdstart, rr.rdstart + rr.rdlen;
    if x.typ == NS {
      HostIsSaid(x, dg, 0, c, max, sec, ptrAddr);
    } else if rr.rdlen >= 2 {
      HostIsSaid(x, dg, GetW(dg, c), c + 2, max, sec, ptrAddr);
      PrefIs(dg, c);
    }
  }

  lemma PlainRecordIsSaid(x: Query, dg: seq<Byte>, rr: Rr, sec: Sections, ptrAddr: Option<seq<Byte>>, o: Stray)
    requires rr.rdstart + rr.rdlen <= |dg| && x.typ !in {NS, MX} && (x.typ == PTR || x.typ % 0x1_0000 == 1)
    ensures var r := ParseRr(x, dg, rr, sec, ptrAddr, o); r.Parsed? && r.status == Ok ==> Says(x, dg, rr, sec, r.data)
  {
    hide ParseHost;
    hide ParsePtr;
    hide FlatAt;
    hide HostSays;
    hide NameSays;
    hide SaysPair;
    hide SaysSoa;
    hide Pref;
    hide Joined;
    hide Short;
    if x.typ == PTR {
      PtrIsSaid(x, dg, rr, ptrAddr);
    }
  }

  lemma FlatRecordIsSaid(x: Query, dg: seq<Byte>, rr: Rr, sec: Sections, ptrAddr: Option<seq<Byte>>, o: Stray)
    requires rr.rdstart + rr.rdlen <= |dg| && x.typ !in {NS, MX, PTR} && x.typ % 0x1_0000 != 1
    ensures var r := ParseRr(x, dg, rr, sec, ptrAddr, o); r.Parsed? && r.status == Ok ==> Says(x, dg, rr, sec, r.data)
  {
    FlatIsSaid(x, dg, rr, sec, o);
    hide FlatAt;
    hide Says;
    hide ParseHost;
    hide ParsePtr;
  }

  lemma PrefIs(dg: seq<Byte>, c: nat)
    requires c + 2 <= |dg|
    ensures GetW(dg, c) == Pref(dg, c)
  {
  }

  lemma PtrIsSaid(x: Query, dg: seq<Byte>, rr: Rr, ptrAddr: Option<seq<Byte>>)
    ensures var r, max := ParsePtr(x, dg, rr, ptrAddr), rr.rdstart + rr.rdlen;
            r.Parsed? && r.status == Ok ==>
              r.data.Domain? && NameSays(dg, rr.rdstart, max, x.flags.quoteokAnshost, r.data.text, max)
  {
    TextSays(dg, rr.rdstart, rr.rdstart + rr.rdlen, x.flags.quoteokAnshost);
    TextBadNotOk(dg, Start(rr.rdstart, rr.rdstart + rr.rdlen), x.flags.quoteokAnshost, true);
    hide RestText;
    hide NameSays;
    hide AskedName;
    hide OwnerLabels;
  }

  lemma FlatIsSaid(x: Query, dg: seq<Byte>, rr: Rr, sec: Sections, o: Stray)
    requires rr.rdstart + rr.rdlen <= |dg| && x.typ !in {NS, MX, PTR} && x.typ % 0x1_0000 != 1
    ensures var r := FlatAt(x.typ, x.flags.quoteokAnshost, dg, rr.rdstart, rr.rdstart + rr.rdlen, o);
            r.Flat? && r.status == Ok ==> Says(x, dg, rr, sec, r.data)
  {
    hide NameSays;
    hide SaysPair;
    hide SaysSoa;
    hide RpAt;
    hide SoaAt;
    hide TxtAt;
    hide HinfoAt;
    hide Joined;
    hide OneName;
    var c, max, ok := rr.rdstart, rr.rdstart + rr.rdlen, x.flags.quoteokAnshost;
    NameIsSaid(dg, c, max, ok);
    NameIsSaid(dg, c, max, true);
    PrefIsSaid(dg, c, max, ok);
    hide MxRawAt;
    hide DomainAt;
    StringsAreSaid(dg, c, max);
    PairIsSaid(dg, c, max, x.typ == RP, o);
    SoaIsSaid(dg, c, max, ok, x.typ == SOA, o);
  }

  lemma PrefIsSaid(dg: seq<Byte>, c: nat, max: nat, quoteok: bool)
    requires max <= |dg|
    ensures var r := MxRawAt(dg, c, max, quoteok);
            r.Flat? && r.status == Ok ==>
              c + 2 <= max && r.data.Preferred? && r.data.pref == Pref(dg, c) &&
              NameSays(dg, c + 2, max, quoteok, r.data.text, max)
  {
    DomainSays(dg, c + 2, max, quoteok);
    DomainBadNotOk(dg, c + 2, max, quoteok);
    hide DomainAt;
    hide NameSays;
  }

  /** Every record of an answer that is read to its end says what its record in the datagram does. */
  lemma {:induction false} AllAreSaid(x: Query, dg: seq<Byte>, rrs: seq<Rr>, i: nat, sec: Sections,
                                      ptrAddr: Option<seq<Byte>>, os: seq<Stray>)
    requires i <= |rrs| && forall k :: i <= k < |rrs| ==> rrs[k].rdstart + rrs[k].rdlen <= |dg|
    ensures var r := SecondPass(x, dg, rrs, i, sec, ptrAddr, os);
            r.Second? && r.failed.None? ==>
              |r.rrs| == |rrs| - i && forall k :: i <= k < |rrs| ==> Says(x, dg, rrs[k], sec, r.rrs[k - i])
    decreases |rrs| - i
  {
    hide ParseRr;
    hide Says;
    if i < |rrs| {
      RecordIsSaid(x, dg, rrs[i], sec, ptrAddr, StrayAt(os, i));
      var r := ParseRr(x, dg, rrs[i], sec, ptrAddr, StrayAt(os, i));
      if r.Parsed? && r.status == Ok {
        AllAreSaid(x, dg, rrs, i + 1, sec, r.ptrAddr, os);
      }
    }
  }

  predicate AllFour(rrs: seq<Rr>, i: nat) { forall k :: i <= k < |rrs| ==> rrs[k].rdlen == 4 }

  /** For addresses, so they are read if and only if all have four bytes. */
  lemma {:induction false} AddressesAreRead(x: Query, dg: seq<Byte>, rrs: seq<Rr>, i: nat, sec: Sections,
                                            ptrAddr: Option<seq<Byte>>, os: seq<Stray>)
    requires i <= |rrs| && x.typ % 0x1_0000 == 1 && x.typ !in {NS, MX, PTR}
    ensures var r := SecondPass(x, dg, rrs, i, sec, ptrAddr, os);
            r.Second? && r.kids == [] &&
            r.failed == if AllFour(rrs, i) then None else Some(InvalidData)
    decreases |rrs| - i
  {
    hide ParseRr;
    if i < |rrs| {
      AddressesAreRead(x, dg, rrs, i + 1, sec, ptrAddr, os);
      AddressIsRead(x, dg, rrs[i], sec, ptrAddr, StrayAt(os, i));
      hide StrayAt;
      assert AllFour(rrs, i) <==> rrs[i].rdlen == 4 && AllFour(rrs, i + 1);
    }
    hide AllFour;
  }

  lemma AddressIsRead(x: Query, dg: seq<Byte>, rr: Rr, sec: Sections, ptrAddr: Option<seq<Byte>>, o: Stray)
    requires x.typ % 0x1_0000 == 1 && x.typ !in {NS, MX, PTR}
    ensures var r := ParseRr(x, dg, rr, sec, ptrAddr, o);
            r.Parsed? && r.kid.None? && r.ptrAddr == ptrAddr && r.status == if rr.rdlen == 4 then Ok else InvalidData
  {
    hide ParseHost;
    hide ParsePtr;
    hide FlatAt;
  }

  // ---------- What is wrong with a record ----------

  /** The status says what is wrong with the name that stands there: it is of a form that is not known or too long, it
      is cut off, or, where that matters, a label of it is none of a hostname. */
  ghost predicate NameWrong(dg: seq<Byte>, c: nat, max: int, quoteok: bool, st: Status)
  {
    (!quoteok && st == AnswerDomainInvalid && !(NameAt(dg, c, max).Name? && AllHost(NameAt(dg, c, max).labels))) ||
    NameAt(dg, c, max) == NameBad(st) || (NameAt(dg, c, max).NameTruncated? && st == InvalidData)
  }

  lemma {:induction false} TextWrong(dg: seq<Byte>, f: Cursor, quoteok: bool, first: bool)
    ensures var n, r := Rest(dg, f), RestText(dg, f, quoteok, first);
            (r.TextTruncated? ==> n.NameTruncated?) &&
            (r.TextBad? ==> n == NameBad(r.status) || (!quoteok && r.status == AnswerDomainInvalid)) &&
            (n.Name? && (quoteok || AllHost(n.labels)) ==> r.Text?)
    decreases DNS_MAXDOMAIN - f.namelen
  {
    var n := FindNext(dg, f);
    if n.Found? {
      TextWrong(dg, n.after, quoteok, false);
      var lab := dg[n.start..n.start + n.len];
      if Rest(dg, n.after).Name? {
        assert Rest(dg, f).labels[0] == lab && Rest(dg, f).labels[1..] == Rest(dg, n.after).labels;
      }
    }
  }

  lemma DomainWrong(dg: seq<Byte>, c: nat, max: int, quoteok: bool)
    ensures var r := DomainAt(dg, c, max, quoteok); r.FieldBad? ==> NameWrong(dg, c, max, quoteok, r.status)
  {
    TextWrong(dg, Start(c, max), quoteok, true);
    NameIsRest(dg, c, max);
    hide Rest;
    hide RestText;
    hide AllHost;
  }

  /** A record of these sections cannot be read, or is an address of the owner without four bytes. */
  ghost predicate SectionWrong(dg: seq<Byte>, c: nat, n: nat, owner: seq<Label>, st: Status)
  {
    exists k: nat :: k < n && Readable(dg, c, k) && RecordWrong(dg, c, k, owner, st)
  }

  ghost predicate RecordWrong(dg: seq<Byte>, c: nat, k: nat, owner: seq<Label>, st: Status)
  {
    RecordAt(dg, Skip(dg, c, k), Some(owner)) == RecordBad(st) ||
    (StandsFor(dg, c, k, owner, 1) && RecordNo(dg, c, k, owner, 1).rdlen != 4 && st == InvalidData)
  }

  lemma SectionWrongNext(dg: seq<Byte>, c: nat, n: nat, owner: seq<Label>, st: Status, rr: Rr, next: nat,
                         matched: bool)
    requires n > 0 && RecordAt(dg, c, Some(owner)) == Record(rr, next, matched)
    requires SectionWrong(dg, next, n - 1, owner, st)
    ensures SectionWrong(dg, c, n, owner, st)
  {
    hide RecordAt;
    hide StandsFor;
    hide RecordNo;
    var k: nat :| k < n - 1 && Readable(dg, next, k) && RecordWrong(dg, next, k, owner, st);
    StandsBehind(dg, c, k, owner, 1, rr, next, matched);
    assert RecordWrong(dg, c, k + 1, owner, st);
  }

  lemma {:induction false} AddrsWrong(dg: seq<Byte>, c: nat, n: nat, owner: seq<Label>, addrs: seq<Stored>)
    ensures var r := FindAddrs(dg, c, n, owner, addrs); r.GlueBad? ==> SectionWrong(dg, c, n, owner, r.status)
    decreases n
  {
    hide RecordAt;
    hide StandsFor;
    hide RecordNo;
    hide SectionWrong;
    hide Rdata;
    var f := FindAddrs(dg, c, n, owner, addrs);
    if n > 0 && f.GlueBad? {
      var r := RecordAt(dg, c, Some(owner));
      match r
      case Record(rr, next, matched) =>
        StandsBehind(dg, c, 0, owner, 1, rr, next, matched);
        if IsAddress(rr, matched) && rr.rdlen != 4 {
          WrongHere(dg, c, n, owner, InvalidData);
        } else {
          var more := if IsAddress(rr, matched) then addrs + [Address(Rdata(dg, rr))] else addrs;
          AddrsWrong(dg, next, n - 1, owner, more);
          SectionWrongNext(dg, c, n, owner, f.status, rr, next, matched);
        }
      case RecordBad(st) => WrongHere(dg, c, n, owner, st);
      case RecordTruncated => NothingBehind(dg, c, n, owner);
      case RecordDiverges =>
    }
  }

  lemma WrongHere(dg: seq<Byte>, c: nat, n: nat, owner: seq<Label>, st: Status)
    requires n > 0 && RecordWrong(dg, c, 0, owner, st)
    ensures SectionWrong(dg, c, n, owner, st)
  {
    assert Readable(dg, c, 0);
    hide RecordWrong;
  }

  /** The status says what is wrong with the sections in which addresses are looked for. */
  ghost predicate GlueWrong(dg: seq<Byte>, sec: Sections, owner: seq<Label>, st: Status)
  {
    SectionWrong(dg, sec.nsstart, sec.nscount, owner, st) ||
    (Readable(dg, sec.nsstart, sec.nscount) &&
     SectionWrong(dg, Skip(dg, sec.nsstart, sec.nscount), sec.arcount, owner, st))
  }

  lemma GlueIsWrong(dg: seq<Byte>, sec: Sections, owner: seq<Label>)
    ensures var r := FindGlue(dg, sec, owner); r.GlueBad? ==> GlueWrong(dg, sec, owner, r.status)
  {
    hide SectionWrong;
    hide FirstAddresses;
    hide NoAddress;
    var first := FindAddrs(dg, sec.nsstart, sec.nscount, owner, []);
    AddrsWrong(dg, sec.nsstart, sec.nscount, owner, []);
    AddressesFrom(dg, sec.nsstart, sec.nscount, owner);
    if first.Glue? && first.addrs == [] {
      AddrsWrong(dg, first.next, sec.arcount, owner, []);
      if !Readable(dg, sec.nsstart, sec.nscount) {
        NothingBehind(dg, first.next, sec.arcount, owner);
      }
    }
    hide FindAddrs;
  }

  /** The name is wrong, or does not fill the data. */
  ghost predicate FieldWrong(dg: seq<Byte>, c: nat, max: nat, quoteok: bool, st: Status)
  {
    NameWrong(dg, c, max, quoteok, st) ||
    (NameAt(dg, c, max).Name? && NameAt(dg, c, max).end != max && st == InvalidData)
  }

  /** The status says what is wrong with a record, or, for a PTR record, with the question; for types of two names and
      more nothing is said of which of them it is. */
  ghost predicate Wrong(x: Query, dg: seq<Byte>, rr: Rr, sec: Sections, st: Status)
  {
    var c, max, ok := rr.rdstart, rr.rdstart + rr.rdlen, x.flags.quoteokAnshost;
    if x.typ == PTR then
      FieldWrong(dg, c, max, ok, st) || (st == QueryDomainWrong && Reverse(AskedName(x.dgram)).None?)
    else if x.typ == NS then FieldWrong(dg, c, max, ok, st) || GlueWrong(dg, sec, OwnerLabels(Owner(dg, c)), st)
    else if x.typ == MX then
      if rr.rdlen < 2 then st == InvalidData
      else FieldWrong(dg, c + 2, max, ok, st) || GlueWrong(dg, sec, OwnerLabels(Owner(dg, c + 2)), st)
    else if x.typ % 0x1_0000 == 1 then rr.rdlen != 4 && st == InvalidData
    else if x.typ == 2 || x.typ == 12 then FieldWrong(dg, c, max, ok, st)
    else if x.typ == 5 then FieldWrong(dg, c, max, true, st)
    else if x.typ == 15 then if rr.rdlen < 2 then st == InvalidData else FieldWrong(dg, c + 2, max, ok, st)
    else x.typ in {6, 17, SOA, RP} || st == InvalidData
  }

  lemma HostIsWrong(x: Query, dg: seq<Byte>, pref: nat, c: nat, max: nat, sec: Sections, ptrAddr: Option<seq<Byte>>)
    ensures var r := ParseHost(x, dg, pref, c, max, sec, ptrAddr);
            r.Parsed? && r.status != Ok ==>
              FieldWrong(dg, c, max, x.flags.quoteokAnshost, r.status) ||
              GlueWrong(dg, sec, OwnerLabels(Owner(dg, c)), r.status)
  {
    TextFieldWrong(dg, c, max, x.flags.quoteokAnshost);
    GlueIsWrong(dg, sec, OwnerLabels(Owner(dg, c)));
    hide RestText;
    hide FindGlue;
    hide GlueWrong;
    hide OwnerLabels;
    hide FieldWrong;
  }

  /** Whatever is wrong with the text of a name, or where it ends, is wrong with the field. */
  lemma TextFieldWrong(dg: seq<Byte>, c: nat, max: nat, quoteok: bool)
    ensures var r := RestText(dg, Start(c, max), quoteok, true);
            (r.TextBad? ==> FieldWrong(dg, c, max, quoteok, r.status)) &&
            (r.TextTruncated? ==> FieldWrong(dg, c, max, quoteok, InvalidData)) &&
            (r.Text? && r.end != max ==> FieldWrong(dg, c, max, quoteok, InvalidData))
  {
    DomainWrong(dg, c, max, quoteok);
    DomainSays(dg, c, max, quoteok);
    hide RestText;
  }

  lemma RecordIsWrong(x: Query, dg: seq<Byte>, rr: Rr, sec: Sections, ptrAddr: Option<seq<Byte>>, o: Stray)
    requires rr.rdstart + rr.rdlen <= |dg|
    ensures var r := ParseRr(x, dg, rr, sec, ptrAddr, o);
            r.Parsed? && r.status != Ok ==> Wrong(x, dg, rr, sec, r.status)
  {
    hide FieldWrong;
    hide GlueWrong;
    hide OwnerLabels;
    hide AskedName;
    hide Reverse;
    var c, max, ok := rr.rdstart, rr.rdstart + rr.rdlen, x.flags.quoteokAnshost;
    TextFieldWrong(dg, c, max, ok);
    hide RestText;
    if x.typ == NS {
      HostIsWrong(x, dg, 0, c, max, sec, ptrAddr);
    } else if x.typ == MX && rr.rdlen >= 2 {
      HostIsWrong(x, dg, GetW(dg, c), c + 2, max, sec, ptrAddr);
    } else if x.typ !in {MX, PTR} && x.typ % 0x1_0000 != 1 {
      FlatIsWrong(x, dg, rr, sec, o);
    }
    hide ParseHost;
    hide FlatAt;
    hide GetW;
  }

  lemma FlatIsWrong(x: Query, dg: seq<Byte>, rr: Rr, sec: Sections, o: Stray)
    requires rr.rdstart + rr.rdlen <= |dg| && x.typ !in {NS, MX, PTR} && x.typ % 0x1_0000 != 1
    ensures var r := FlatAt(x.typ, x.flags.quoteokAnshost, dg, rr.rdstart, rr.rdstart + rr.rdlen, o);
            r.Flat? && r.status != Ok ==> Wrong(x, dg, rr, sec, r.status)
  {
    hide RestText;
    hide FieldWrong;
    hide RpAt;
    hide SoaAt;
    hide StringsOf;
    var c, max, ok := rr.rdstart, rr.rdstart + rr.rdlen, x.flags.quoteokAnshost;
    TextFieldWrong(dg, c, max, ok);
    TextFieldWrong(dg, c, max, true);
    TextFieldWrong(dg, c + 2, max, ok);
  }

  /** An answer that fails has a record that is wrong, and its status says how. */
  lemma {:induction false} SomethingIsWrong(x: Query, dg: seq<Byte>, rrs: seq<Rr>, i: nat, sec: Sections,
                                            ptrAddr: Option<seq<Byte>>, os: seq<Stray>)
    requires i <= |rrs| && forall k :: i <= k < |rrs| ==> rrs[k].rdstart + rrs[k].rdlen <= |dg|
    ensures var r := SecondPass(x, dg, rrs, i, sec, ptrAddr, os);
            r.Second? && r.failed.Some? ==> exists k :: i <= k < |rrs| && Wrong(x, dg, rrs[k], sec, r.failed.value)
    decreases |rrs| - i
  {
    hide ParseRr;
    hide Wrong;
    if i < |rrs| {
      RecordIsWrong(x, dg, rrs[i], sec, ptrAddr, StrayAt(os, i));
      var r := ParseRr(x, dg, rrs[i], sec, ptrAddr, StrayAt(os, i));
      if r.Parsed? && r.status == Ok {
        SomethingIsWrong(x, dg, rrs, i + 1, sec, r.ptrAddr, os);
      }
    }
  }

  // ---------- Answers ----------

  /** The answer section has been read, with wanted records. */
  ghost predicate SomeWanted(x: Query, dg: seq<Byte>)
    requires |dg| >= DNS_HDRSIZE
  {
    Whole(x, dg) && FirstOver(x, dg).p.wantedrrs > 0
  }

  /** The name that records are wanted for, in the end. */
  ghost function FinalName(x: Query, dg: seq<Byte>): seq<Label>
    requires |dg| >= DNS_HDRSIZE && Whole(x, dg)
  {
    CurrentOwner(WantedBy(x), FirstOver(x, dg).p)
  }

  /** Where the sections behind the answers are. */
  ghost function Others(x: Query, dg: seq<Byte>): Sections
    requires |dg| >= DNS_HDRSIZE
  {
    Sections(Behind(x, dg), HeaderOf(dg).nscount, HeaderOf(dg).arcount)
  }

  /** Each record says what the record of the datagram at its position does. */
  ghost predicate AllSay(x: Query, dg: seq<Byte>, owner: seq<Label>, ks: seq<nat>, rrs: seq<Stored>)
    requires |dg| >= DNS_HDRSIZE
  {
    |rrs| == |ks| &&
    forall i :: 0 <= i < |ks| ==>
      StandsFor(dg, |x.dgram|, ks[i], owner, x.typ % 0x1_0000) &&
      Says(x, dg, RecordNo(dg, |x.dgram|, ks[i], owner, x.typ % 0x1_0000), Others(x, dg), rrs[i])
  }

  /** The record at one of the positions is wrong, and the status says how. */
  ghost predicate OneIsWrong(x: Query, dg: seq<Byte>, owner: seq<Label>, ks: seq<nat>, st: Status)
    requires |dg| >= DNS_HDRSIZE
  {
    exists i :: 0 <= i < |ks| && StandsFor(dg, |x.dgram|, ks[i], owner, x.typ % 0x1_0000) &&
                Wrong(x, dg, RecordNo(dg, |x.dgram|, ks[i], owner, x.typ % 0x1_0000), Others(x, dg), st)
  }

  /** The records that the second pass accepts stand at these positions. */
  ghost predicate WantsAt(x: Query, dg: seq<Byte>, ks: seq<nat>)
    requires |dg| >= DNS_HDRSIZE && Whole(x, dg)
  {
    var rrs := Wants(x, dg, HeaderOf(dg), FirstOver(x, dg).p);
    |ks| == |rrs| &&
    forall i :: 0 <= i < |ks| ==>
      StandsFor(dg, |x.dgram|, ks[i], FinalName(x, dg), x.typ % 0x1_0000) &&
      RecordNo(dg, |x.dgram|, ks[i], FinalName(x, dg), x.typ % 0x1_0000) == rrs[i]
  }

  /** What is read of an answer, when it can be read. */
  lemma ReadSays(x: Query, dg: seq<Byte>, os: seq<Stray>) returns (ks: seq<nat>)
    requires |dg| >= DNS_HDRSIZE && SomeWanted(x, dg) && ReadReply(x, dg, os).Read?
    ensures ReadReply(x, dg, os).verdict.Answered?
    ensures Positions(dg, |x.dgram|, HeaderOf(dg).ancount, FinalName(x, dg), x.typ % 0x1_0000, ks)
    ensures var v := ReadReply(x, dg, os).verdict;
            if v.failed.None? then AllSay(x, dg, FinalName(x, dg), ks, v.rrs)
            else OneIsWrong(x, dg, FinalName(x, dg), ks, v.failed.value)
    ensures WantsAt(x, dg, ks)
  {
    hide FirstPass;
    hide SecondPass;
    hide ReadNegative;
    hide Overruns;
    hide Says;
    hide StandsFor;
    hide RecordNo;
    hide Positions;
    hide CurrentOwner;
    hide Accepted;
    var h, p, w := HeaderOf(dg), FirstOver(x, dg).p, WantedBy(x);
    SecondPassReads(dg, w, FirstState(x), h.ancount);
    ks := AcceptedAt(dg, w, FinalName(x, dg), |x.dgram|, h.ancount);
    AcceptedInside(dg, w, FinalName(x, dg), |x.dgram|, h.ancount);
    hide Skip;
    AllAreSaid(x, dg, Tried(x, dg, h, p), 0, SectionsBehind(h, p), x.ptrAddr, os);
    SomethingIsWrong(x, dg, Tried(x, dg, h, p), 0, SectionsBehind(h, p), x.ptrAddr, os);
    hide Wrong;
    var v := ReadReply(x, dg, os).verdict;
    if v.failed.None? {
      assert Tried(x, dg, h, p) == Wants(x, dg, h, p);
    } else {
      var i :| 0 <= i < |Tried(x, dg, h, p)| &&
        Wrong(x, dg, Tried(x, dg, h, p)[i], SectionsBehind(h, p), v.failed.value);
      assert Tried(x, dg, h, p)[i] == Wants(x, dg, h, p)[i];
    }
  }

  /** What becomes of a reply with wanted records that can be read. The query ends with an error that one of them has;
      or it ends with, or waits for its children with, a record for each of them, in their order, that says what it
      does. */
  lemma PositiveDecides(cfg: Config, s: St, dg: seq<Byte>, serv: nat, viatcp: bool, now: int, os: seq<Stray>, q: QId,
                        t: St)
    returns (ks: seq<nat>, st: Status, rrs: seq<Stored>)
    requires ValidConfig(cfg) && Processes(cfg, s, dg, serv, viatcp, now, os, q, t)
    requires q in s.qs && |dg| >= DNS_HDRSIZE && SomeWanted(s.qs[q], dg)
    ensures var x := s.qs[q];
            Positions(dg, |x.dgram|, HeaderOf(dg).ancount, FinalName(x, dg), x.typ % 0x1_0000, ks) &&
            if st != Ok then OneIsWrong(x, dg, FinalName(x, dg), ks, st) && Reported(s, t, q, st, [])
            else
              AllSay(x, dg, FinalName(x, dg), ks, rrs) && rrs != [] &&
              (Reported(s, t, q, Ok, rrs) || (Derefs(x.typ) && WaitsWith(t, q, rrs)))
  {
    hide Inv;
    hide Deliver;
    hide Replying;
    hide Possible;
    hide Reported;
    hide WaitsWith;
    hide SomeWanted;
    hide ReadReply;
    hide Positions;
    hide AllSay;
    hide OneIsWrong;
    hide FinalName;
    ProcessedIs(cfg, s, dg, serv, viatcp, now, os, q, t);
    hide Processes;
    var x, u := s.qs[q], Unqueue(s, q);
    var v := ReadReply(x, dg, os).verdict;
    ks := ReadSays(x, dg, os);
    AnsweredEnds(cfg, s, u, q, v, now);
    PossibleHasRecords(x, v);
    st, rrs := if v.failed.Some? then v.failed.value else Ok, v.rrs;
  }

  /** All the records at these positions have four bytes of data. */
  ghost predicate FourEach(dg: seq<Byte>, c: nat, owner: seq<Label>, ks: seq<nat>)
  {
    forall i :: 0 <= i < |ks| ==> StandsFor(dg, c, ks[i], owner, 1) && RecordNo(dg, c, ks[i], owner, 1).rdlen == 4
  }

  lemma AddressesVerdict(x: Query, dg: seq<Byte>, os: seq<Stray>, ks: seq<nat>)
    requires |dg| >= DNS_HDRSIZE && SomeWanted(x, dg) && ReadReply(x, dg, os).Read? && x.typ in {1, ADDR}
    requires WantsAt(x, dg, ks)
    ensures var v, c, owner := ReadReply(x, dg, os).verdict, |x.dgram|, FinalName(x, dg);
            v.Answered? && v.kids == [] && v.failed == if FourEach(dg, c, owner, ks) then None else Some(InvalidData)
  {
    hide HeaderOf;
    hide Says;
    hide FirstPass;
    hide SecondPass;
    hide Overruns;
    hide StandsFor;
    hide RecordNo;
    hide CurrentOwner;
    hide Accepted;
    var h, p := HeaderOf(dg), FirstOver(x, dg).p;
    var rrs, tried := Wants(x, dg, h, p), Tried(x, dg, h, p);
    AddressesAreRead(x, dg, tried, 0, SectionsBehind(h, p), x.ptrAddr, os);
    assert forall i :: 0 <= i < |tried| ==> tried[i] == rrs[i];
    if ReadReply(x, dg, os).verdict.failed.None? {
      assert tried == rrs;
    }
  }

  /** The records are these four bytes of the datagram each. */
  ghost predicate AreAddresses(x: Query, dg: seq<Byte>, owner: seq<Label>, ks: seq<nat>, rrs: seq<Stored>)
  {
    |rrs| == |ks| &&
    forall i :: 0 <= i < |ks| ==>
      StandsFor(dg, |x.dgram|, ks[i], owner, 1) &&
      var at := RecordNo(dg, |x.dgram|, ks[i], owner, 1).rdstart;
      at + 4 <= |dg| && rrs[i] == Address(dg[at..at + 4])
  }

  lemma SaidAreAddresses(x: Query, dg: seq<Byte>, owner: seq<Label>, ks: seq<nat>, rrs: seq<Stored>)
    requires |dg| >= DNS_HDRSIZE && x.typ in {1, ADDR} && AllSay(x, dg, owner, ks, rrs)
    ensures AreAddresses(x, dg, owner, ks, rrs)
  {
    hide StandsFor;
    hide RecordNo;
    hide Others;
    assert x.typ % 0x1_0000 == 1;
    forall i | 0 <= i < |ks| ensures StandsFor(dg, |x.dgram|, ks[i], owner, 1) &&
      var at := RecordNo(dg, |x.dgram|, ks[i], owner, 1).rdstart;
      at + 4 <= |dg| && rrs[i] == Address(dg[at..at + 4])
    {
      assert Says(x, dg, RecordNo(dg, |x.dgram|, ks[i], owner, 1), Others(x, dg), rrs[i]);
    }
  }

  /** For addresses: they are the bytes of the datagram if every record has four, and any other makes the query fail. */
  lemma AddressesDecide(cfg: Config, s: St, dg: seq<Byte>, serv: nat, viatcp: bool, now: int, os: seq<Stray>, q: QId,
                        t: St)
    returns (ks: seq<nat>, rrs: seq<Stored>)
    requires ValidConfig(cfg) && Processes(cfg, s, dg, serv, viatcp, now, os, q, t)
    requires q in s.qs && |dg| >= DNS_HDRSIZE && SomeWanted(s.qs[q], dg) && s.qs[q].typ in {1, ADDR}
    ensures var x, c, owner := s.qs[q], |s.qs[q].dgram|, FinalName(s.qs[q], dg);
            Positions(dg, c, HeaderOf(dg).ancount, owner, 1, ks) &&
            if FourEach(dg, c, owner, ks) then Reported(s, t, q, Ok, rrs) && AreAddresses(x, dg, owner, ks, rrs)
            else Reported(s, t, q, InvalidData, [])
  {
    hide Inv;
    hide Deliver;
    hide Replying;
    hide Possible;
    hide Reported;
    hide ReadReply;
    hide Positions;
    hide FinalName;
    hide FourEach;
    hide AreAddresses;
    hide SomeWanted;
    ProcessedIs(cfg, s, dg, serv, viatcp, now, os, q, t);
    hide Processes;
    var x, u := s.qs[q], Unqueue(s, q);
    var v := ReadReply(x, dg, os).verdict;
    ks := ReadAddresses(x, dg, os);
    AnsweredEnds(cfg, s, u, q, v, now);
    rrs := v.rrs;
  }

  lemma ReadAddresses(x: Query, dg: seq<Byte>, os: seq<Stray>) returns (ks: seq<nat>)
    requires |dg| >= DNS_HDRSIZE && SomeWanted(x, dg) && ReadReply(x, dg, os).Read? && x.typ in {1, ADDR}
    ensures var v, c, owner := ReadReply(x, dg, os).verdict, |x.dgram|, FinalName(x, dg);
            v.Answered? && v.kids == [] && Positions(dg, c, HeaderOf(dg).ancount, owner, 1, ks) &&
            if FourEach(dg, c, owner, ks) then v.failed.None? && AreAddresses(x, dg, owner, ks, v.rrs)
            else v.failed == Some(InvalidData)
  {
    hide ReadReply;
    hide Positions;
    hide HeaderOf;
    hide Whole;
    hide FirstOver;
    hide WantsAt;
    hide AllSay;
    hide AreAddresses;
    hide FourEach;
    hide FinalName;
    hide OneIsWrong;
    ks := ReadSays(x, dg, os);
    AddressType(x);
    AddressesVerdict(x, dg, os, ks);
    var v := ReadReply(x, dg, os).verdict;
    if v.failed.None? {
      SaidAreAddresses(x, dg, FinalName(x, dg), ks, v.rrs);
    }
  }

  lemma AddressType(x: Query)
    requires x.typ in {1, ADDR}
    ensures x.typ % 0x1_0000 == 1
  {
  }
}
