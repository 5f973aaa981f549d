/** The parsers of records that submit no child query and read no address (adns/types.c:85-116, 201-239, 473-548,
    805-825, 1174-1192, 1275-1315, 1338-1366): names, mailboxes, strings and numbers. */
module Parsers {
  import opened Basics
  import opened Names
  import opened Texts
  import opened Vbufs
  import opened Parse
  import opened Mailboxes
  import opened LifeCycle

  // ---------- Names and mailboxes ----------

  datatype Field =
    | Field(text: seq<Byte>, end: nat)
    | FieldBad(status: Status)
    | FieldDiverges

  /** pap_domain: a truncated name is invalid data. */
  ghost function DomainAt(dg: seq<Byte>, c: nat, max: int, quoteok: bool): Field
  {
    match RestText(dg, Start(c, max), quoteok, true)
    case Text(t, end) => Field(t, end)
    case TextTruncated(_) => FieldBad(InvalidData)
    case TextBad(st, _) => FieldBad(st)
    case TextDiverges => FieldDiverges
  }

  method PapDomain(vb: Vbuf, quoteok: bool, dgram: seq<Byte>, c: nat, max: int) returns (st: Status, end: nat)
    requires vb.Valid() && !RestText(dgram, Start(c, max), quoteok, true).TextDiverges?
    modifies vb, vb.buf
    ensures vb.Valid() && (vb.buf == old(vb.buf) || fresh(vb.buf))
    ensures match DomainAt(dgram, c, max, quoteok)
            case Field(t, e) => st == Ok && end == e && vb.Contents() == t + [0]
            case FieldBad(e) => st == e && st != Ok
  {
    hide RestText;
    hide Printed;
    PrintsTheName(dgram, Start(c, max), quoteok, true);
    st, end := ParseDomain(vb, quoteok, dgram, c, max);
    if st == Ok && vb.used == 0 {
      st := InvalidData;
    }
  }

  /** What stands in the variables of pap_mailbox822 before it has read the first label. */
  datatype Stray = Stray(lablen: int, labstart: nat)

  const NO_STRAY := Stray(0, 0)

  function StrayAt(os: seq<Stray>, i: nat): Stray { if i < |os| then os[i] else NO_STRAY }

  /** Whatever stands there stays inside the datagram, and inside a buffer that is empty. */
  predicate StraysInBounds(dg: seq<Byte>, os: seq<Stray>)
  {
    forall i :: 0 <= i < |os| ==> InBounds(dg, 0, os[i].lablen, os[i].labstart)
  }

  /** pap_mailbox. */
  ghost function MailAt(dg: seq<Byte>, c: nat, max: int, mail822: bool, o: Stray): Field
  {
    if !mail822 then DomainAt(dg, c, max, true)
    else
      match MailboxAt(dg, c, max, o.lablen, o.labstart)
      case Mailbox(t, end) => Field(t, end)
      case MailboxBad(st) => FieldBad(st)
      case MailboxDiverges => FieldDiverges
  }

  method PapMailbox(vb: Vbuf, mail822: bool, dgram: seq<Byte>, c: nat, max: int, o: Stray)
    returns (st: Status, str: seq<Byte>, end: nat)
    requires vb.Valid() && !MailAt(dgram, c, max, mail822, o).FieldDiverges? && InBounds(dgram, 0, o.lablen, o.labstart)
    modifies vb, vb.buf
    ensures vb.Valid() && (vb.buf == old(vb.buf) || fresh(vb.buf))
    ensures match MailAt(dgram, c, max, mail822, o)
            case Field(t, e) => st == Ok && str == t && end == e
            case FieldBad(e) => st == e && st != Ok
  {
    hide RestText;
    hide MailboxAt;
    if mail822 {
      st, str, end := PapMailbox822(vb, dgram, c, max, o.lablen, o.labstart);
      if st == Ok {
        str := str[..|str| - 1];
      }
    } else {
      str := [];
      st, end := PapDomain(vb, true, dgram, c, max);
      if st == Ok {
        str := vb.buf[..vb.used - 1];
        assert str == vb.Contents()[..vb.used - 1];
      }
    }
  }

  // ---------- Counted strings ----------

  /** RFC 1035 section 3.3: a length byte and as many bytes. */
  function QstringAt(dg: seq<Byte>, c: nat, max: nat): Option<(seq<Byte>, nat)>
    requires max <= |dg|
  {
    if c >= max || c + 1 + dg[c] > max then None else Some((dg[c + 1..c + 1 + dg[c]], c + 1 + dg[c]))
  }

  method PapQstring(dgram: seq<Byte>, c: nat, max: nat) returns (st: Status, str: seq<Byte>, next: nat)
    requires max <= |dgram|
    ensures match QstringAt(dgram, c, max)
            case Some((s, e)) => st == Ok && str == s && next == e
            case None => st == InvalidData
  {
    st, str, next := InvalidData, [], c;
    if c >= max {
      return;
    }
    var l := dgram[c];
    var cbyte := c + 1;
    if cbyte + l > max {
      return;
    }
    st, str, next := Ok, dgram[cbyte..cbyte + l], cbyte + l;
  }

  /** The strings that make up `s`, if it is made up of strings. */
  function StringsOf(s: seq<Byte>): Option<seq<seq<Byte>>>
  {
    if s == [] then Some([])
    else if 1 + s[0] > |s| then None
    else Before([s[1..1 + s[0]]], StringsOf(s[1 + s[0]..]))
  }

  function Before(strs: seq<seq<Byte>>, rest: Option<seq<seq<Byte>>>): Option<seq<seq<Byte>>>
  {
    if rest.Some? then Some(strs + rest.value) else None
  }

  predicate Short(strs: seq<seq<Byte>>) { forall i :: 0 <= i < |strs| ==> |strs[i]| < 256 }

  /** Strings as they stand in the data of a TXT record. */
  function Joined(strs: seq<seq<Byte>>): seq<Byte>
    requires Short(strs)
  {
    if strs == [] then [] else [|strs[0]|] + strs[0] + Joined(strs[1..])
  }

  /** The data of a TXT record are read as the strings they were made from, and as no other. */
  lemma StringsExactly(s: seq<Byte>, strs: seq<seq<Byte>>)
    ensures StringsOf(s) == Some(strs) <==> Short(strs) && Joined(strs) == s
  {
    if StringsOf(s) == Some(strs) {
      StringsJoin(s, strs);
    }
    if Short(strs) && Joined(strs) == s {
      JoinedAreRead(s, strs);
    }
  }

  lemma {:induction false} StringsJoin(s: seq<Byte>, strs: seq<seq<Byte>>)
    requires StringsOf(s) == Some(strs)
    ensures Short(strs) && Joined(strs) == s
    decreases |s|
  {
    if s != [] {
      StringsSplit(s, strs);
      StringsJoin(s[1 + s[0]..], strs[1..]);
      hide StringsOf;
      assert forall i :: 0 < i < |strs| ==> strs[i] == strs[1..][i - 1];
    }
  }

  lemma {:induction false} JoinedAreRead(s: seq<Byte>, strs: seq<seq<Byte>>)
    requires Short(strs) && Joined(strs) == s
    ensures StringsOf(s) == Some(strs)
    decreases |s|
  {
    if strs != [] {
      JoinedSplit(s, strs);
      hide Joined;
      JoinedAreRead(s[1 + s[0]..], strs[1..]);
    }
  }

  lemma StringsSplit(s: seq<Byte>, strs: seq<seq<Byte>>)
    requires s != [] && 1 + s[0] <= |s| && strs != [] && StringsOf(s) == Some(strs)
    ensures strs[0] == s[1..1 + s[0]] && StringsOf(s[1 + s[0]..]) == Some(strs[1..]) && |strs[0]| < 256
    ensures s == [s[0]] + strs[0] + s[1 + s[0]..]
    ensures forall i :: 0 <= i < |strs| - 1 ==> strs[1..][i] == strs[i + 1]
  {
    var rest := StringsOf(s[1 + s[0]..]);
    assert StringsOf(s) == Before([s[1..1 + s[0]]], rest);
    hide StringsOf;
    assert ([s[1..1 + s[0]]] + rest.value)[1..] == rest.value;
  }

  lemma JoinedSplit(s: seq<Byte>, strs: seq<seq<Byte>>)
    requires strs != [] && Short(strs) && Joined(strs) == s
    ensures s != [] && s[0] == |strs[0]| && 1 + s[0] <= |s| && s[1..1 + s[0]] == strs[0]
    ensures Short(strs[1..]) && s[1 + s[0]..] == Joined(strs[1..])
    ensures [strs[0]] + strs[1..] == strs
  {
    var rest := Joined(strs[1..]);
    assert s == [|strs[0]|] + strs[0] + rest;
    assert s[1..1 + |strs[0]|] == strs[0] && s[1 + |strs[0]|..] == rest;
  }

  // ---------- Whole records ----------

  /** What such a parser does: its status, how many blocks it allocates, the record it makes, and whether it has
      stored anything of it. */
  datatype Flat =
    | Flat(status: Status, blocks: nat, data: Stored, stores: bool)
    | FlatDiverges

  /** pa_host_raw and pa_dom_raw, behind the name. */
  function OneName(f: Field, max: nat): Flat
  {
    match f
    case Field(t, end) => Flat(if end == max then Ok else InvalidData, 1, Domain(t), true)
    case FieldBad(st) => Flat(st, 0, Domain([]), false)
    case FieldDiverges => FlatDiverges
  }

  ghost function MxRawAt(dg: seq<Byte>, c: nat, max: nat, quoteok: bool): Flat
    requires max <= |dg|
  {
    if c + 2 > max then Flat(InvalidData, 0, Preferred(0, []), false)
    else
      match DomainAt(dg, c + 2, max, quoteok)
      case Field(t, end) => Flat(if end == max then Ok else InvalidData, 1, Preferred(GetW(dg, c), t), true)
      case FieldBad(st) => Flat(st, 0, Preferred(GetW(dg, c), []), true)
      case FieldDiverges => FlatDiverges
  }

  function TxtAt(dg: seq<Byte>, c: nat, max: nat): Flat
    requires max <= |dg|
  {
    if c >= max then Flat(InvalidData, 0, Strings([]), false)
    else
      match StringsOf(dg[c..max])
      case Some(strs) => Flat(Ok, 1 + |strs|, Strings(strs), true)
      case None => Flat(InvalidData, 0, Strings([]), false)
  }

  function HinfoAt(dg: seq<Byte>, c: nat, max: nat): Flat
    requires max <= |dg|
  {
    match QstringAt(dg, c, max)
    case None => Flat(InvalidData, 0, Strings([]), false)
    case Some((cpu, e)) =>
      match QstringAt(dg, e, max)
      case None => Flat(InvalidData, 1, Strings([cpu]), true)
      case Some((os, e')) => Flat(if e' == max then Ok else InvalidData, 2, Strings([cpu, os]), true)
  }

  ghost function RpAt(dg: seq<Byte>, c: nat, max: nat, mail822: bool, o: Stray): Flat
  {
    match MailAt(dg, c, max, mail822, o)
    case FieldDiverges => FlatDiverges
    case FieldBad(st) => Flat(st, 0, Pair([], []), false)
    case Field(mbox, e) =>
      match DomainAt(dg, e, max, true)
      case FieldDiverges => FlatDiverges
      case FieldBad(st) => Flat(st, 1, Pair(mbox, []), true)
      case Field(txt, e') => Flat(if e' == max then Ok else InvalidData, 2, Pair(mbox, txt), true)
  }

  /** An int of 32 bits that is assigned to an unsigned long of 64. */
  function Extended(v: nat): nat
    requires v < 0x1_0000_0000
  {
    if v < 0x8000_0000 then v else v + 0xffff_ffff_0000_0000
  }

  /** The five numbers of a SOA record. */
  function Numbers(dg: seq<Byte>, c: nat): (r: seq<nat>)
    requires c + 20 <= |dg|
    ensures |r| == 5
  {
    [Extended(GetL(dg, c)), Extended(GetL(dg, c + 4)), Extended(GetL(dg, c + 8)), Extended(GetL(dg, c + 12)),
     Extended(GetL(dg, c + 16))]
  }

  /** A number of a SOA record is the one that RFC 1035 section 3.3.13 gives if and only if that is below 0x80000000;
      its lower 32 bits always are. */
  lemma NumbersExactly(dg: seq<Byte>, c: nat)
    requires c + 20 <= |dg|
    ensures forall i :: 0 <= i < 5 ==> (Numbers(dg, c)[i] == GetL(dg, c + 4 * i) <==> dg[c + 4 * i] < 128)
    ensures forall i :: 0 <= i < 5 ==> Numbers(dg, c)[i] % 0x1_0000_0000 == GetL(dg, c + 4 * i)
  {
    forall i | 0 <= i < 5
      ensures Numbers(dg, c)[i] == GetL(dg, c + 4 * i) <==> dg[c + 4 * i] < 128
      ensures Numbers(dg, c)[i] % 0x1_0000_0000 == GetL(dg, c + 4 * i)
    {
      hide Extended;
      hide GetL;
      NumberExactly(dg, c + 4 * i);
      assert Numbers(dg, c)[i] == Extended(GetL(dg, c + 4 * i));
    }
  }

  lemma NumberExactly(dg: seq<Byte>, c: nat)
    requires c + 4 <= |dg|
    ensures var l := GetL(dg, c); (Extended(l) == l <==> dg[c] < 128) && Extended(l) % 0x1_0000_0000 == l
  {
  }

  ghost function SoaAt(dg: seq<Byte>, c: nat, max: nat, quoteok: bool, mail822: bool, o: Stray): Flat
    requires max <= |dg|
  {
    match DomainAt(dg, c, max, quoteok)
    case FieldDiverges => FlatDiverges
    case FieldBad(st) => Flat(st, 0, Soa([], [], []), false)
    case Field(mname, e) =>
      match MailAt(dg, e, max, mail822, o)
      case FieldDiverges => FlatDiverges
      case FieldBad(st) => Flat(st, 1, Soa(mname, [], []), true)
      case Field(rname, e') =>
        if e' + 20 != max then Flat(InvalidData, 2, Soa(mname, rname, []), true)
        else Flat(Ok, 2, Soa(mname, rname, Numbers(dg, e')), true)
  }

  /** The types whose parsers are these (adns/types.c:1425-1454). */
  predicate IsFlat(typ: nat) { typ in {2, 5, 6, 12, 13, 15, 16, 17, SOA, RP} }

  /** typei->parse for such a type. */
  ghost function FlatAt(typ: nat, quoteokAnshost: bool, dg: seq<Byte>, c: nat, max: nat, o: Stray): Flat
    requires max <= |dg|
  {
    if typ == 2 || typ == 12 then OneName(DomainAt(dg, c, max, quoteokAnshost), max)
    else if typ == 5 then OneName(DomainAt(dg, c, max, true), max)
    else if typ == 15 then MxRawAt(dg, c, max, quoteokAnshost)
    else if typ == 16 then TxtAt(dg, c, max)
    else if typ == 13 then HinfoAt(dg, c, max)
    else if typ == 17 || typ == RP then RpAt(dg, c, max, typ == RP, o)
    else if typ == 6 || typ == SOA then SoaAt(dg, c, max, quoteokAnshost, typ == SOA, o)
    else Flat(InvalidData, 0, Strings([]), false)  // no such type
  }

  lemma DomainBadNotOk(dg: seq<Byte>, c: nat, max: int, quoteok: bool)
    ensures DomainAt(dg, c, max, quoteok) != FieldBad(Ok)
  {
    TextBadNotOk(dg, Start(c, max), quoteok, true);
  }

  lemma MailBadNotOk(dg: seq<Byte>, c: nat, max: int, mail822: bool, o: Stray)
    ensures MailAt(dg, c, max, mail822, o) != FieldBad(Ok)
  {
    hide RestText;
    DomainBadNotOk(dg, c, max, true);
    var n := FindNext(dg, Start(c, max));
    if n.Found? {
      TextBadNotOk(dg, n.after, false, true);
    } else if n.Bad? {
      TextBadNotOk(dg, n.at, false, true);
    }
  }

  /** A parser that succeeds has stored its record. */
  lemma FlatStores(typ: nat, quoteokAnshost: bool, dg: seq<Byte>, c: nat, max: nat, o: Stray)
    requires max <= |dg|
    ensures var r := FlatAt(typ, quoteokAnshost, dg, c, max, o); r.Flat? && r.status == Ok ==> r.stores
  {
    hide DomainAt;
    hide MailAt;
    hide StringsOf;
    DomainBadNotOk(dg, c, max, quoteokAnshost);
    DomainBadNotOk(dg, c, max, true);
    MailBadNotOk(dg, c, max, typ == RP, o);
  }

  // ---------- The parsers ----------

  // pa_host_raw and pa_dom_raw
  method PaDomain(vb: Vbuf, quoteok: bool, dgram: seq<Byte>, c: nat, max: nat)
    returns (st: Status, blocks: nat, rrp: Stored)
    requires vb.Valid() && !OneName(DomainAt(dgram, c, max, quoteok), max).FlatDiverges?
    modifies vb, vb.buf
    ensures var r := OneName(DomainAt(dgram, c, max, quoteok), max);
            st == r.status && blocks == r.blocks && (st == Ok ==> rrp == r.data)
  {
    hide RestText;
    blocks, rrp := 0, Domain([]);
    var cbyte;
    st, cbyte := PapDomain(vb, quoteok, dgram, c, max);
    if st != Ok {
      return;
    }
    assert vb.buf[..vb.used - 1] == vb.Contents()[..vb.used - 1];
    blocks, rrp := 1, Domain(vb.buf[..vb.used - 1]);
    if cbyte != max {
      st := InvalidData;
    }
  }

  // pa_mx_raw
  method PaMxRaw(vb: Vbuf, quoteok: bool, dgram: seq<Byte>, c: nat, max: nat)
    returns (st: Status, blocks: nat, rrp: Stored)
    requires vb.Valid() && max <= |dgram| && !MxRawAt(dgram, c, max, quoteok).FlatDiverges?
    modifies vb, vb.buf
    ensures var r := MxRawAt(dgram, c, max, quoteok);
            st == r.status && blocks == r.blocks && (st == Ok ==> rrp == r.data)
  {
    hide RestText;
    st, blocks, rrp := InvalidData, 0, Preferred(0, []);
    if c + 2 > max {
      return;
    }
    rrp := Preferred(GetW(dgram, c), []);
    var cbyte;
    st, cbyte := PapDomain(vb, quoteok, dgram, c + 2, max);
    if st != Ok {
      return;
    }
    assert vb.buf[..vb.used - 1] == vb.Contents()[..vb.used - 1];
    blocks, rrp := 1, rrp.(text := vb.buf[..vb.used - 1]);
    if cbyte != max {
      st := InvalidData;
    }
  }

  lemma StringsNext(dg: seq<Byte>, c: nat, max: nat)
    requires c < max <= |dg|
    ensures StringsOf(dg[c..max]) ==
            if c + 1 + dg[c] > max then None
            else Before([dg[c + 1..c + 1 + dg[c]]], StringsOf(dg[c + 1 + dg[c]..max]))
  {
    var s, l: nat := dg[c..max], dg[c];
    assert s != [] && s[0] == l && |s| == max - c;
    if c + 1 + l <= max {
      SliceOfSlice(dg, c, max, 1, 1 + l);
      SliceOfSlice(dg, c, max, 1 + l, |s|);
      assert s[1 + l..|s|] == s[1 + l..];
    }
  }

  lemma SliceOfSlice(dg: seq<Byte>, c: nat, max: nat, i: nat, j: nat)
    requires c <= max <= |dg| && i <= j <= max - c
    ensures dg[c..max][i..j] == dg[c + i..c + j]
  {
    var s := dg[c..max];
    forall k | 0 <= k < j - i ensures s[i..j][k] == dg[c + i..c + j][k] {
      assert s[i..j][k] == s[i + k] == dg[c + (i + k)];
    }
    assert |s[i..j]| == |dg[c + i..c + j]|;
  }

  lemma BeforeBoth(a: seq<seq<Byte>>, b: seq<seq<Byte>>, rest: Option<seq<seq<Byte>>>)
    ensures Before(a, Before(b, rest)) == Before(a + b, rest)
  {
    if rest.Some? {
      assert a + (b + rest.value) == (a + b) + rest.value;
    }
  }

  // The counting loop of pa_txt, which runs on to the end of the data or over it (adns/types.c:212-218).
  method CountStrings(dgram: seq<Byte>, startbyte: nat, max: nat) returns (ok: bool, tc: nat)
    requires startbyte < max <= |dgram|
    ensures match StringsOf(dgram[startbyte..max])
            case Some(strs) => ok && tc == |strs| > 0
            case None => !ok
  {
    hide StringsOf;
    var cbyte := startbyte;
    tc := 0;
    ghost var all, strs: seq<seq<Byte>> := StringsOf(dgram[startbyte..max]), [];
    assert Before([], all) == all by {
      assert all.Some? ==> [] + all.value == all.value;
    }
    while cbyte < max
      invariant startbyte <= cbyte && |strs| == tc && (cbyte > startbyte ==> tc > 0)
      invariant if cbyte <= max then all == Before(strs, StringsOf(dgram[cbyte..max])) else all == None
      decreases max - cbyte
    {
      StringsNext(dgram, cbyte, max);
      var l := dgram[cbyte];
      cbyte := cbyte + 1 + l;
      tc := tc + 1;
      if cbyte <= max {
        ghost var str := dgram[cbyte - l..cbyte];
        BeforeBoth(strs, [str], StringsOf(dgram[cbyte..max]));
        strs := strs + [str];
      } else {
        strs := strs + [[]];
      }
    }
    ok := cbyte == max && tc != 0;
    if ok {
      NoStrings(dgram, max);
      assert strs + [] == strs;
    }
  }

  lemma NoStrings(dg: seq<Byte>, max: nat)
    requires max <= |dg|
    ensures dg[max..max] == [] && StringsOf([]) == Some([])
  {
  }

  lemma StringsLeft(dg: seq<Byte>, c: nat, max: nat, table: seq<seq<Byte>>, all: Option<seq<seq<Byte>>>)
    requires c <= max <= |dg| && all == Before(table, StringsOf(dg[c..max])) && all.Some?
    ensures |table| < |all.value| <==> c < max
  {
    if c == max {
      NoStrings(dg, max);
      assert table + [] == table;
    } else {
      StringsNext(dg, c, max);
    }
    hide StringsOf;
  }

  // pa_txt. Its second loop never fails, and ends at the end of the data.
  method PaTxt(dgram: seq<Byte>, startbyte: nat, max: nat) returns (st: Status, blocks: nat, rrp: Stored)
    requires max <= |dgram|
    ensures var r := TxtAt(dgram, startbyte, max);
            st == r.status && blocks == r.blocks && (st == Ok ==> rrp == r.data)
  {
    hide StringsOf;
    st, blocks, rrp := InvalidData, 0, Strings([]);
    if startbyte >= max {
      return;
    }
    var ok, tc := CountStrings(dgram, startbyte, max);
    if !ok {
      return;
    }
    ghost var all := StringsOf(dgram[startbyte..max]);
    var table: seq<seq<Byte>>, ti, cbyte := [], 0, startbyte;
    blocks := 1;
    assert [] + all.value == all.value;
    while ti < tc
      invariant 0 <= ti == |table| <= tc && blocks == 1 + ti && startbyte <= cbyte <= max
      invariant all == Before(table, StringsOf(dgram[cbyte..max]))
    {
      StringsLeft(dgram, cbyte, max, table, all);
      StringsNext(dgram, cbyte, max);
      var str;
      st, str, cbyte := PapQstring(dgram, cbyte, max);
      assert st == Ok;
      BeforeBoth(table, [str], StringsOf(dgram[cbyte..max]));
      table, blocks := table + [str], blocks + 1;
      ti := ti + 1;
    }
    StringsLeft(dgram, cbyte, max, table, all);
    NoStrings(dgram, max);
    assert cbyte == max;  // the assertion at adns/types.c:232
    assert table + [] == table;
    st, rrp := Ok, Strings(table);
  }

  // pa_hinfo
  method PaHinfo(dgram: seq<Byte>, c: nat, max: nat) returns (st: Status, blocks: nat, rrp: Stored)
    requires max <= |dgram|
    ensures var r := HinfoAt(dgram, c, max); st == r.status && blocks == r.blocks && (st == Ok ==> rrp == r.data)
  {
    var strs: seq<seq<Byte>>, cbyte := [], c;
    st, blocks, rrp := Ok, 0, Strings([]);
    for i := 0 to 2
      invariant st == Ok && |strs| == i == blocks
      invariant i > 0 ==> QstringAt(dgram, c, max).Some? && strs[0] == QstringAt(dgram, c, max).value.0
      invariant if i == 0 then cbyte == c
                else if i == 1 then cbyte == QstringAt(dgram, c, max).value.1
                else QstringAt(dgram, QstringAt(dgram, c, max).value.1, max) == Some((strs[1], cbyte))
    {
      var str;
      st, str, cbyte := PapQstring(dgram, cbyte, max);
      if st != Ok {
        return;
      }
      strs, blocks := strs + [str], blocks + 1;
    }
    assert strs == [strs[0], strs[1]];
    rrp := Strings(strs);
    if cbyte != max {
      st := InvalidData;
    }
  }

  // pa_rp
  method PaRp(vb: Vbuf, mail822: bool, dgram: seq<Byte>, c: nat, max: nat, o: Stray)
    returns (st: Status, blocks: nat, rrp: Stored)
    requires vb.Valid() && !RpAt(dgram, c, max, mail822, o).FlatDiverges? && InBounds(dgram, 0, o.lablen, o.labstart)
    modifies vb, vb.buf
    ensures var r := RpAt(dgram, c, max, mail822, o);
            st == r.status && blocks == r.blocks && (st == Ok ==> rrp == r.data)
  {
    hide RestText;
    hide MailAt;
    blocks, rrp := 0, Pair([], []);
    var mbox, cbyte;
    st, mbox, cbyte := PapMailbox(vb, mail822, dgram, c, max, o);
    if st != Ok {
      return;
    }
    blocks, rrp := 1, Pair(mbox, []);
    st, cbyte := PapDomain(vb, true, dgram, cbyte, max);
    if st != Ok {
      return;
    }
    assert vb.buf[..vb.used - 1] == vb.Contents()[..vb.used - 1];
    blocks, rrp := 2, Pair(mbox, vb.buf[..vb.used - 1]);
    if cbyte != max {
      st := InvalidData;
    }
  }

  // pa_soa
  method PaSoa(vb: Vbuf, quoteok: bool, mail822: bool, dgram: seq<Byte>, c: nat, max: nat, o: Stray)
    returns (st: Status, blocks: nat, rrp: Stored)
    requires vb.Valid() && max <= |dgram| && !SoaAt(dgram, c, max, quoteok, mail822, o).FlatDiverges?
    requires InBounds(dgram, 0, o.lablen, o.labstart)
    modifies vb, vb.buf
    ensures var r := SoaAt(dgram, c, max, quoteok, mail822, o);
            st == r.status && blocks == r.blocks && (st == Ok ==> rrp == r.data)
  {
    hide RestText;
    hide MailAt;
    blocks, rrp := 0, Soa([], [], []);
    var cbyte;
    st, cbyte := PapDomain(vb, quoteok, dgram, c, max);
    if st != Ok {
      return;
    }
    assert vb.buf[..vb.used - 1] == vb.Contents()[..vb.used - 1];
    blocks, rrp := 1, rrp.(mname := vb.buf[..vb.used - 1]);
    var rname;
    st, rname, cbyte := PapMailbox(vb, mail822, dgram, cbyte, max, o);
    if st != Ok {
      return;
    }
    blocks, rrp := 2, rrp.(rname := rname);
    if cbyte + 20 != max {
      st := InvalidData;
      return;
    }
    var numbers := ReadNumbers(dgram, cbyte);
    rrp := rrp.(numbers := numbers);
  }

  // The loop at adns/types.c:1358-1363.
  method ReadNumbers(dgram: seq<Byte>, c: nat) returns (numbers: seq<nat>)
    requires c + 20 <= |dgram|
    ensures numbers == Numbers(dgram, c)
  {
    numbers := [];
    var cbyte := c;
    for i := 0 to 5
      invariant |numbers| == i && cbyte == c + 4 * i && numbers == Numbers(dgram, c)[..i]
    {
      var msw := GetW(dgram, cbyte);
      var lsw := GetW(dgram, cbyte + 2);
      numbers := numbers + [Extended(msw * 0x1_0000 + lsw)];
      cbyte := cbyte + 4;
    }
  }

  method ParseFlat(typ: nat, quoteokAnshost: bool, dgram: seq<Byte>, c: nat, max: nat, o: Stray)
    returns (st: Status, blocks: nat, rrp: Stored)
    requires max <= |dgram| && !FlatAt(typ, quoteokAnshost, dgram, c, max, o).FlatDiverges?
    requires InBounds(dgram, 0, o.lablen, o.labstart)
    ensures var r := FlatAt(typ, quoteokAnshost, dgram, c, max, o);
            st == r.status && blocks == r.blocks && (st == Ok ==> rrp == r.data)
  {
    hide DomainAt;
    hide MxRawAt;
    hide TxtAt;
    hide HinfoAt;
    hide RpAt;
    hide SoaAt;
    var vb := new Vbuf();
    if typ == 2 || typ == 12 {
      st, blocks, rrp := PaDomain(vb, quoteokAnshost, dgram, c, max);
    } else if typ == 5 {
      st, blocks, rrp := PaDomain(vb, true, dgram, c, max);
    } else if typ == 15 {
      st, blocks, rrp := PaMxRaw(vb, quoteokAnshost, dgram, c, max);
    } else if typ == 16 {
      st, blocks, rrp := PaTxt(dgram, c, max);
    } else if typ == 13 {
      st, blocks, rrp := PaHinfo(dgram, c, max);
    } else if typ == 17 || typ == RP {
      st, blocks, rrp := PaRp(vb, typ == RP, dgram, c, max, o);
    } else if typ == 6 || typ == SOA {
      st, blocks, rrp := PaSoa(vb, quoteokAnshost, typ == SOA, dgram, c, max, o);
    } else {
      st, blocks, rrp := InvalidData, 0, Strings([]);
    }
  }
}
