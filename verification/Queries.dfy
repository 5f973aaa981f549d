/** Query messages: header, question, footer (adns/transmit.c:45-205). */
module Queries {
  import opened Basics
  import opened Headers
  import opened Names
  import opened Texts
  import opened Scans
  import opened Vbufs
  import opened Parse
  import opened RoundTrips

  function HeaderBytes(id: nat): (h: seq<Byte>)
    ensures |h| == DNS_HDRSIZE
  {
    PutW(id) + [1, 0, 0, 1, 0, 0, 0, 0, 0, 0]
  }

  function Footer(typ: nat): (f: seq<Byte>)
    ensures |f| == 4
  {
    PutW(typ) + PutW(DNS_CLASS_IN)
  }

  /** The question for `ls` (RFC 1035 section 4.1.2). */
  function Message(id: nat, ls: seq<Label>, typ: nat): seq<Byte>
    requires WireLabels(ls)
  {
    HeaderBytes(id) + (Wire(ls) + [0]) + Footer(typ)
  }

  /** Names the decoder accepts: labels of 1 to 63 bytes, at most 255 printed characters. */
  predicate WithinLimits(ls: seq<Label>) { WireLabels(ls) && Grown(0, ls) <= DNS_MAXDOMAIN }

  lemma MessageHoldsName(id: nat, ls: seq<Label>, typ: nat)
    requires WireLabels(ls)
    ensures Holds(Message(id, ls, typ), DNS_HDRSIZE, Wire(ls) + [0])
  {
    var w := Wire(ls) + [0];
    assert Message(id, ls, typ)[DNS_HDRSIZE..DNS_HDRSIZE + |w|] == w;
  }

  /** A query message asks for its labels, and is short enough for UDP: 12 + 257 + 4 bytes at most. */
  lemma MessageAsksForName(id: nat, ls: seq<Label>, typ: nat)
    requires WithinLimits(ls)
    ensures var m := Message(id, ls, typ);
            |m| <= 273 <= DNS_MAXUDP && NameAt(m, DNS_HDRSIZE, |m|) == Name(ls, |m| - 4)
  {
    var m := Message(id, ls, typ);
    MessageHoldsName(id, ls, typ);
    WireLength(ls, 0);
    hide Wire;
    hide Message;
    hide Holds;
    WireDecodes(m, Start(DNS_HDRSIZE, |m|), ls);
  }

  /** Its identifier, type and class are where a server looks for them. */
  lemma MessageFields(id: nat, ls: seq<Label>, typ: nat)
    requires WireLabels(ls)
    ensures var m := Message(id, ls, typ);
            |m| >= 17 && GetW(m, 0) == id % 0x1_0000 &&
            GetW(m, |m| - 4) == typ % 0x1_0000 && GetW(m, |m| - 2) == DNS_CLASS_IN
  {
    hide Wire;
  }

  /** A standard query that wants recursion and holds one question, of this type and class IN, and nothing else. It is
      short enough for UDP. */
  ghost predicate Poses(dg: seq<Byte>, id: int, typ: nat)
  {
    DNS_HDRSIZE + 5 <= |dg| <= DNS_MAXUDP &&
    HeaderOf(dg) == Header(GetW(dg, 0), false, 0, false, false, 0, 1, 0, 0, 0) &&
    GetW(dg, 0) == id && dg[2] % 2 == 1 &&
    NameAt(dg, DNS_HDRSIZE, |dg|).Name? && NameAt(dg, DNS_HDRSIZE, |dg|).end == |dg| - 4 &&
    GetW(dg, |dg| - 4) == typ % 0x1_0000 && GetW(dg, |dg| - 2) == DNS_CLASS_IN
  }

  /** Read as a reply is, a message is such a query. */
  lemma MessagePoses(id: nat, ls: seq<Label>, typ: nat)
    requires WithinLimits(ls)
    ensures Poses(Message(id, ls, typ), id % 0x1_0000, typ)
  {
    MessageAsksForName(id, ls, typ);
    MessageFields(id, ls, typ);
    MessageHeader(id, ls, typ);
    hide Message;
    hide NameAt;
    hide HeaderOf;
  }

  /** Types are cut to sixteen bits. */
  lemma MessagePosesType(id: nat, ls: seq<Label>, typ: nat)
    requires WithinLimits(ls) && id < 0x1_0000
    ensures Poses(Message(id, ls, typ % 0x1_0000), id, typ)
  {
    MessagePoses(id, ls, typ % 0x1_0000);
    hide Message;
    hide NameAt;
    hide HeaderOf;
    hide WithinLimits;
  }

  lemma MessageHeader(id: nat, ls: seq<Label>, typ: nat)
    requires WireLabels(ls)
    ensures var m := Message(id, ls, typ);
            |m| >= 17 && HeaderOf(m) == Header(id % 0x1_0000, false, 0, false, false, 0, 1, 0, 0, 0) &&
            m[2] % 2 == 1 && m[2] / 4 % 2 == 0 && m[3] / 16 % 8 == 0
  {
    hide Wire;
    var m := Message(id, ls, typ);
    assert m[..DNS_HDRSIZE] == HeaderBytes(id);
    assert forall i :: 0 <= i < DNS_HDRSIZE ==> m[i] == HeaderBytes(id)[i];
  }

  lemma {:induction false} RestLabels(dg: seq<Byte>, f: Cursor)
    requires Rest(dg, f).Name?
    ensures WireLabels(Rest(dg, f).labels)
    decreases DNS_MAXDOMAIN - f.namelen
  {
    if FindNext(dg, f).Found? {
      RestLabels(dg, FindNext(dg, f).after);
    }
  }

  /** Every name that decodes is within the limits. */
  lemma DecodedWithinLimits(dg: seq<Byte>, c: nat, max: int)
    requires NameAt(dg, c, max).Name?
    ensures WithinLimits(NameAt(dg, c, max).labels)
  {
    RestLabels(dg, Start(c, max));
    RestSound(dg, Start(c, max));
  }

  // ---------- adns__mkquery ----------

  /** memcpy to the write pointer, which the caller keeps within the reserved space. */
  method Put(vb: Vbuf, rqp: nat, data: seq<Byte>) returns (next: nat)
    requires vb.Valid() && rqp + |data| <= vb.avail
    modifies vb.buf
    ensures next == rqp + |data| && vb.buf[..next] == old(vb.buf[..rqp]) + data
  {
    forall i | 0 <= i < |data| {
      vb.buf[rqp + i] := data[i];
    }
    next := rqp + |data|;
  }

  method MkqueryHeader(vb: Vbuf, nextid: nat, qdlen: nat) returns (id: nat)
    requires vb.Valid()
    modifies vb, vb.buf
    ensures vb.Valid() && (vb.buf == old(vb.buf) || fresh(vb.buf))
    ensures id == nextid % 0x1_0000 && vb.avail == Max(old(vb.avail), DNS_HDRSIZE + qdlen + 4)
    ensures vb.Contents() == HeaderBytes(id)
  {
    vb.Ensure(DNS_HDRSIZE + qdlen + 4);
    vb.used := 0;
    id := nextid % 0x1_0000;
    var rqp := Put(vb, 0, PutW(id) + [1, 0, 0, 1, 0, 0, 0, 0, 0, 0]);
    vb.used := rqp;
  }

  // The inner scan of adns__mkquery: one label, and the dot behind it, of the name of length `ol` at `mem`.
  method ScanLabel(mem: seq<Byte>, ol: nat, p0: nat, quoteok: bool) returns (st: Status, lab: Label, p: nat)
    requires p0 <= |mem| && !ScanFrom(mem, ol, p0, quoteok, []).Astray?
    ensures match ScanFrom(mem, ol, p0, quoteok, [])
            case Scanned(l, q) => st == Ok && lab == l && p == q
            case Refused(e) => st == e
  {
    st, lab, p := Ok, [], p0;
    while p != ol
      invariant p <= |mem| && st == Ok
      invariant ScanFrom(mem, ol, p, quoteok, lab) == ScanFrom(mem, ol, p0, quoteok, [])
      decreases |mem| - p
    {
      var c := mem[p];
      p := p + 1;
      if c == DOT {
        return;
      }
      if c == BACKSLASH {
        if !quoteok {
          st := QueryDomainInvalid;
          return;
        }
        if IsDigit(mem[p]) {
          if !IsDigit(mem[p + 1]) || !IsDigit(mem[p + 2]) {
            st := QueryDomainInvalid;
            return;
          }
          var value := (mem[p] - 48) as int * 100 + (mem[p + 1] - 48) as int * 10 + (mem[p + 2] - 48) as int;
          p := p + 3;
          if value >= 256 {
            st := QueryDomainInvalid;
            return;
          }
          c := value;
        } else if mem[p] == 0 {
          st := QueryDomainInvalid;
          return;
        } else {
          c := mem[p];
          p := p + 1;
        }
      }
      if !quoteok {
        if c == HYPHEN {
          if |lab| == 0 {
            st := QueryDomainInvalid;
            return;
          }
        } else if !IsAlpha(c) && !IsDigit(c) {
          st := QueryDomainInvalid;
          return;
        }
      }
      if |lab| == 255 {
        st := QueryDomainInvalid;
        return;
      }
      lab := lab + [c];
    }
  }

  // The scan and the checks behind it (adns/transmit.c:106-155).
  method TakeLabel(mem: seq<Byte>, ol: nat, p: nat, quoteok: bool, nbytes: nat)
    returns (st: Status, lab: Label, q: nat)
    requires p <= |mem| && p != ol && !Encode(mem, ol, p, quoteok, nbytes).EncodesAstray?
    ensures var e := Encode(mem, ol, p, quoteok, nbytes);
            if st == Ok then
              1 <= |lab| <= DNS_MAXLABEL && p < q <= |mem| &&
              e == With([lab], Encode(mem, ol, q, quoteok, nbytes + |lab| + 1))
            else e == Encoding(st, [])
  {
    hide ScanFrom;
    st, lab, q := ScanLabel(mem, ol, p, quoteok);
    if st != Ok {
      return;
    }
    if |lab| == 0 {
      st := QueryDomainInvalid;
    } else if |lab| > DNS_MAXLABEL {
      st := QueryDomainTooLong;
    } else if nbytes + |lab| + 1 >= DNS_MAXDOMAIN {
      st := QueryDomainTooLong;
    }
  }

  lemma {:induction false} WireSnoc(ls: seq<Label>, l: Label)
    requires WireLabels(ls + [l])
    ensures WireLabels(ls) && Wire(ls + [l]) == Wire(ls) + [|l|] + l
  {
    forall i | 0 <= i < |ls| ensures 1 <= |ls[i]| <= DNS_MAXLABEL {
      assert ls[i] == (ls + [l])[i];
    }
    if ls == [] {
      assert ls + [l] == [l];
      assert Wire([l]) == [|l|] + l + Wire([]);
    } else {
      assert (ls + [l])[1..] == ls[1..] + [l] && (ls + [l])[0] == ls[0];
      WireSnoc(ls[1..], l);
      assert Wire(ls + [l]) == [|ls[0]|] + ls[0] + Wire(ls[1..] + [l]);
    }
  }

  /** A length byte and a label. */
  method PutLabel(vb: Vbuf, rqp: nat, id: nat, lab: Label, ghost ls: seq<Label>) returns (next: nat)
    requires vb.Valid() && WireLabels(ls + [lab]) && WireLabels(ls)
    requires rqp + 1 + |lab| <= vb.avail && vb.buf[..rqp] == HeaderBytes(id) + Wire(ls)
    modifies vb.buf
    ensures next == rqp + 1 + |lab| && vb.buf[..next] == HeaderBytes(id) + Wire(ls + [lab])
    ensures |Wire(ls + [lab])| == |Wire(ls)| + 1 + |lab|
  {
    WireSnoc(ls, lab);
    assert (ls + [lab])[|ls|] == lab;
    next := Put(vb, rqp, [|lab|]);
    next := Put(vb, next, lab);
  }

  /** The final zero byte and the footer. */
  method PutEnd(vb: Vbuf, rqp0: nat, id: nat, typ: nat, ghost ls: seq<Label>)
    requires vb.Valid() && WireLabels(ls) && rqp0 + 5 <= vb.avail && vb.buf[..rqp0] == HeaderBytes(id) + Wire(ls)
    modifies vb, vb.buf
    ensures vb.Valid() && vb.buf == old(vb.buf) && vb.Contents() == Message(id, ls, typ)
  {
    var rqp := Put(vb, rqp0, [0]);
    rqp := Put(vb, rqp, PutW(typ) + PutW(DNS_CLASS_IN));
    vb.used := rqp;
  }

  /** A buffer of `avail` bytes holds what is written. */
  ghost predicate Fitting(avail: nat, e: Encoding)
  {
    e.Encoding? && WireLabels(e.ls) && DNS_HDRSIZE + |Wire(e.ls)| + (if e.status == Ok then 5 else 0) <= avail
  }

  /** So it does for a name of length `ol`, once the reservation has been made. */
  ghost predicate Reserved(avail: nat, ol: nat, e: Encoding) { Fitting(Max(avail, DNS_HDRSIZE + ol + 6), e) }

  lemma NextFits(avail: nat, ls: seq<Label>, lab: Label, rest: Encoding, whole: Encoding)
    requires Fitting(avail, whole) && whole == With(ls + [lab], rest)
    ensures WireLabels(ls + [lab]) && WireLabels(ls) && DNS_HDRSIZE + |Wire(ls)| + 1 + |lab| <= avail
    ensures |Wire(ls + [lab])| == |Wire(ls)| + 1 + |lab|
  {
    PrefixRoom(ls, lab, rest.ls, whole.ls);
    hide Wire;
  }

  /** It does for every name whose scan stays inside it. */
  lemma InsideIsReserved(mem: seq<Byte>, ol: nat, quoteok: bool, avail: nat)
    requires StaysInside(mem, ol, quoteok)
    ensures Reserved(avail, ol, Encode(mem, ol, 0, quoteok, 0))
    ensures var e := Encode(mem, ol, 0, quoteok, 0);
            match ReadLabels(mem[..ol], 0, quoteok, 0)
            case Success(ls) => e == Encoding(Ok, ls)
            case Failure(st) => e.status == st
  {
    IntendedReads(mem[..ol], quoteok);
    IntendedFits(mem[..ol], quoteok);
    hide Encode;
  }

  // adns__mkquery, wherever the bytes given tell what happens and what is written fits.
  method Mkquery(vb: Vbuf, nextid: nat, mem: seq<Byte>, ol: nat, typ: nat, quoteok: bool) returns (st: Status, id: nat)
    requires vb.Valid() && ol <= |mem| && Reserved(vb.avail, ol, Encode(mem, ol, 0, quoteok, 0))
    modifies vb, vb.buf
    ensures vb.Valid() && (vb.buf == old(vb.buf) || fresh(vb.buf))
    ensures id == nextid % 0x1_0000
    ensures var e := Encode(mem, ol, 0, quoteok, 0);
            st == e.status && WireLabels(e.ls) && (st == Ok ==> vb.Contents() == Message(id, e.ls, typ))
  {
    hide Encode;
    hide Wire;
    hide HeaderBytes;
    hide Message;
    ghost var whole := Encode(mem, ol, 0, quoteok, 0);
    st := Ok;
    id := MkqueryHeader(vb, nextid, ol + 2);
    var rqp, p, nbytes := vb.used, 0, 0;
    ghost var ls: seq<Label> := [];
    WireEmpty();
    WithNothing(whole);
    assert Fitting(vb.avail, whole);
    hide Reserved;
    while p != ol
      invariant st == Ok && 0 <= p <= |mem| && vb.Valid() && Fitting(vb.avail, whole)
      invariant vb.buf == old(vb.buf) || fresh(vb.buf)
      invariant WireLabels(ls) && nbytes == |Wire(ls)| && rqp == DNS_HDRSIZE + nbytes
      invariant whole == With(ls, Encode(mem, ol, p, quoteok, nbytes))
      invariant rqp <= vb.avail && vb.buf[..rqp] == HeaderBytes(id) + Wire(ls)
      decreases |mem| - p
    {
      var lab, q;
      st, lab, q := TakeLabel(mem, ol, p, quoteok, nbytes);
      if st != Ok {
        assert ls + [] == ls;
        return;
      }
      ghost var rest := Encode(mem, ol, q, quoteok, nbytes + |lab| + 1);
      WithBoth(ls, [lab], rest);
      NextFits(vb.avail, ls, lab, rest, whole);
      rqp := PutLabel(vb, rqp, id, lab, ls);
      ls, nbytes, p := ls + [lab], nbytes + |lab| + 1, q;
    }
    NoMore(mem, ol, quoteok, nbytes, ls);
    PutEnd(vb, rqp, id, typ, ls);
  }

  lemma NoMore(mem: seq<Byte>, ol: nat, quoteok: bool, nbytes: nat, ls: seq<Label>)
    requires ol <= |mem|
    ensures With(ls, Encode(mem, ol, ol, quoteok, nbytes)) == Encoding(Ok, ls)
  {
    assert ls + [] == ls;
  }

  lemma WireEmpty()
    ensures Wire([]) == []
  {
  }

  // ---------- The limit on names ----------

  /** RFC 1035 section 2.3.4 limits the wire form of a name to 255 bytes, its final zero included. A name that is
      decoded obeys it if and only if its labels and the dots between them make at most 253 bytes, two less than the
      cursor allows. */
  lemma WireLimit(dg: seq<Byte>, c: nat, max: int)
    requires NameAt(dg, c, max).Name?
    ensures var ls := NameAt(dg, c, max).labels;
            WireLabels(ls) && Grown(0, ls) <= DNS_MAXDOMAIN && (|Wire(ls)| + 1 <= 255 <==> Grown(0, ls) <= 253)
  {
    DecodedWithinLimits(dg, c, max);
    WireLength(NameAt(dg, c, max).labels, 0);
  }

  function Times(n: nat, c: Byte): (l: Label)
    ensures |l| == n
  {
    seq(n, _ => c)
  }

  function LongName(): seq<Label> { [Times(63, 97), Times(63, 97), Times(63, 97), Times(63, 97)] }

  lemma LongNameIs()
    ensures WireLabels(LongName()) && Grown(0, LongName()) == 255
  {
    hide Times;
    var ls := LongName();
    var t1, t2, t3 := ls[1..], ls[2..], ls[3..];
    assert t1[1..] == t2 && t2[1..] == t3 && t3[1..] == [];
    assert Grown(0, ls) == Grown(63, t1) == Grown(127, t2) == Grown(191, t3) == Grown(255, []);
  }

  /** Four labels of 63 bytes, 257 bytes on the wire, are asked for and decoded. */
  lemma LongNameIsAccepted(id: nat, typ: nat)
    ensures WireLabels(LongName()) && |Wire(LongName())| + 1 == 257
    ensures var m := Message(id, LongName(), typ); NameAt(m, DNS_HDRSIZE, |m|) == Name(LongName(), |m| - 4)
  {
    hide LongName;
    LongNameIs();
    WireLength(LongName(), 0);
    MessageAsksForName(id, LongName(), typ);
  }

  // ---------- adns__mkquery_frdgram ----------

  /** Whether the room reserved for a name, the length of its whole datagram, suffices. */
  ghost predicate Roomy(dg: seq<Byte>, begin: nat)
    requires NameAt(dg, begin, |dg|).Name?
  {
    RestLabels(dg, Start(begin, |dg|));
    |Wire(NameAt(dg, begin, |dg|).labels)| + 1 <= |dg|
  }

  /** Whether a buffer of `avail` bytes holds the message for a name once the reservation has been made. */
  ghost predicate Suffices(avail: nat, dg: seq<Byte>, begin: nat)
    requires NameAt(dg, begin, |dg|).Name?
  {
    RestLabels(dg, Start(begin, |dg|));
    DNS_HDRSIZE + |Wire(NameAt(dg, begin, |dg|).labels)| + 5 <= Max(avail, DNS_HDRSIZE + |dg| + 4)
  }

  lemma RoomySuffices(avail: nat, dg: seq<Byte>, begin: nat)
    requires NameAt(dg, begin, |dg|).Name? && Roomy(dg, begin)
    ensures Suffices(avail, dg, begin)
  {
  }

  lemma PrefixRoom(ls: seq<Label>, lab: Label, rest: seq<Label>, whole: seq<Label>)
    requires WireLabels(whole) && (ls + [lab]) + rest == whole
    ensures WireLabels(ls + [lab]) && WireLabels(ls) && |Wire(ls)| + 1 + |lab| == |Wire(ls + [lab])| <= |Wire(whole)|
  {
    WirePrefix(ls + [lab], rest);
    WireSnoc(ls, lab);
  }

  /** In the middle of copying the name `whole`: the labels `ls` are written, `rest` is still to be. */
  ghost predicate Copying(s: seq<Byte>, id: nat, ls: seq<Label>, rest: Name, whole: seq<Label>, avail: nat)
  {
    WireLabels(whole) && WireLabels(ls) && s == HeaderBytes(id) + Wire(ls) && rest.Name? && ls + rest.labels == whole &&
    DNS_HDRSIZE + |Wire(whole)| + 5 <= avail
  }

  lemma CopyStarts(s: seq<Byte>, id: nat, rest: Name, avail: nat)
    requires s == HeaderBytes(id) && rest.Name? && WireLabels(rest.labels) &&
             DNS_HDRSIZE + |Wire(rest.labels)| + 5 <= avail
    ensures Copying(s, id, [], rest, rest.labels, avail)
  {
    assert [] + rest.labels == rest.labels && HeaderBytes(id) + [] == HeaderBytes(id);
  }

  /** There is room for the next label. */
  lemma CopyStep(s: seq<Byte>, id: nat, ls: seq<Label>, lab: Label, rest: Name, whole: seq<Label>, avail: nat)
    requires rest.Name? && Copying(s, id, ls, Name([lab] + rest.labels, rest.end), whole, avail)
    ensures WireLabels(ls) && WireLabels(ls + [lab]) && s == HeaderBytes(id) + Wire(ls) && |s| + 1 + |lab| <= avail
    ensures Copying(HeaderBytes(id) + Wire(ls + [lab]), id, ls + [lab], rest, whole, avail)
  {
    assert ls + ([lab] + rest.labels) == (ls + [lab]) + rest.labels;
    PrefixRoom(ls, lab, rest.labels, whole);
    hide Wire;
  }

  lemma CopyEnds(s: seq<Byte>, id: nat, ls: seq<Label>, rest: Name, whole: seq<Label>, avail: nat)
    requires rest.Name? && rest.labels == [] && Copying(s, id, ls, rest, whole, avail)
    ensures ls == whole && WireLabels(ls) && s == HeaderBytes(id) + Wire(ls) && |s| + 5 <= avail
  {
    assert ls + [] == ls;
  }

  /** One label of a compressed name. */
  method CopyLabel(vb: Vbuf, rqp: nat, fls: FindLabelState, id: nat, ghost ls: seq<Label>, ghost whole: seq<Label>)
    returns (done: bool, next: nat, ghost ls': seq<Label>)
    requires vb.Valid() && rqp <= vb.avail && Rest(fls.dgram, fls.Abs()).Name?
    requires Copying(vb.buf[..rqp], id, ls, Rest(fls.dgram, fls.Abs()), whole, vb.avail)
    modifies fls, vb.buf
    ensures next <= vb.avail
    ensures if done then ls' == whole && WireLabels(ls') && vb.buf[..next] == HeaderBytes(id) + Wire(ls') &&
            next + 5 <= vb.avail
            else old(fls.namelen) < fls.namelen <= DNS_MAXDOMAIN && Rest(fls.dgram, fls.Abs()).Name? &&
                 Copying(vb.buf[..next], id, ls', Rest(fls.dgram, fls.Abs()), whole, vb.avail)
  {
    hide FindNext;
    hide Rest;
    hide Copying;
    hide HeaderBytes;
    hide Wire;
    RestCases(fls.dgram, fls.Abs());
    ghost var before := Rest(fls.dgram, fls.Abs());
    var st, lablen, labstart := fls.Next();
    if lablen == 0 {
      CopyEnds(vb.buf[..rqp], id, ls, before, whole, vb.avail);
      return true, rqp, ls;
    }
    var lab := fls.dgram[labstart..labstart + lablen];
    ghost var rest := Rest(fls.dgram, fls.Abs());
    assert before == Name([lab] + rest.labels, before.end);
    CopyStep(vb.buf[..rqp], id, ls, lab, Name(rest.labels, before.end), whole, vb.avail);
    SameRest(HeaderBytes(id) + Wire(ls + [lab]), id, ls + [lab], Name(rest.labels, before.end), rest, whole, vb.avail);
    next := PutLabel(vb, rqp, id, lab, ls);
    done, ls' := false, ls + [lab];
  }

  lemma SameRest(s: seq<Byte>, id: nat, ls: seq<Label>, rest: Name, rest': Name, whole: seq<Label>, avail: nat)
    requires Copying(s, id, ls, rest, whole, avail) && rest'.Name? && rest'.labels == rest.labels
    ensures Copying(s, id, ls, rest', whole, avail)
  {
  }

  // adns__mkquery_frdgram. The source's documentation demands a correct and untruncated name
  // (adns/internal.h:384-387); the rest of the requires is the room that its reservation gives it.
  method MkqueryFrDgram(vb: Vbuf, nextid: nat, qdgram: seq<Byte>, begin: nat, typ: nat) returns (id: nat)
    requires vb.Valid() && NameAt(qdgram, begin, |qdgram|).Name? && Suffices(vb.avail, qdgram, begin)
    modifies vb, vb.buf
    ensures vb.Valid() && (vb.buf == old(vb.buf) || fresh(vb.buf)) && id == nextid % 0x1_0000
    ensures WireLabels(NameAt(qdgram, begin, |qdgram|).labels)
    ensures vb.Contents() == Message(id, NameAt(qdgram, begin, |qdgram|).labels, typ)
  {
    hide FindNext;
    hide Rest;
    hide HeaderBytes;
    hide Wire;
    hide Message;
    hide Copying;
    ghost var whole := NameAt(qdgram, begin, |qdgram|).labels;
    RestLabels(qdgram, Start(begin, |qdgram|));
    id := MkqueryHeader(vb, nextid, |qdgram|);
    var fls := new FindLabelState(qdgram, |qdgram|, begin, false);
    EndIgnored(qdgram, Start(begin, |qdgram|), fls.Abs());
    CopyStarts(vb.buf[..vb.used], id, Rest(qdgram, fls.Abs()), vb.avail);
    hide Suffices;
    ghost var ls: seq<Label> := [];
    var rqp: nat, done := vb.used, false;
    while !done
      invariant vb.Valid() && (vb.buf == old(vb.buf) || fresh(vb.buf)) && fls.dgram == qdgram && rqp <= vb.avail
      invariant if done then ls == whole && WireLabels(ls) && vb.buf[..rqp] == HeaderBytes(id) + Wire(ls) &&
                rqp + 5 <= vb.avail
                else fls.namelen <= DNS_MAXDOMAIN && Rest(qdgram, fls.Abs()).Name? &&
                     Copying(vb.buf[..rqp], id, ls, Rest(qdgram, fls.Abs()), whole, vb.avail)
      decreases !done, if done then 0 else DNS_MAXDOMAIN - fls.namelen
    {
      done, rqp, ls := CopyLabel(vb, rqp, fls, id, ls, whole);
    }
    PutEnd(vb, rqp, id, typ, ls);
  }

  /** The offsets of the datagram that the rest of a name reads labels from, its final zero included. */
  ghost function Occupied(dg: seq<Byte>, f: Cursor): set<nat>
    decreases DNS_MAXDOMAIN - f.namelen
  {
    match FindNext(dg, f)
    case Found(s, l, after) => Range(s - 1, l + 1) + Occupied(dg, after)
    case End(after) => if after.cbyte > 0 then {after.cbyte - 1} else {}
    case _ => {}
  }

  function Range(from: nat, n: nat): (r: set<nat>)
    ensures |r| == n && forall i :: i in r <==> from <= i < from + n
  {
    if n == 0 then {} else Range(from, n - 1) + {from + n - 1}
  }

  /** No byte of the datagram serves two labels of the name. */
  ghost predicate DisjointLabels(dg: seq<Byte>, f: Cursor)
    decreases DNS_MAXDOMAIN - f.namelen
  {
    match FindNext(dg, f)
    case Found(s, l, after) => Range(s - 1, l + 1) !! Occupied(dg, after) && DisjointLabels(dg, after)
    case _ => true
  }

  lemma {:induction false} OccupiedCounts(dg: seq<Byte>, f: Cursor)
    requires Rest(dg, f).Name? && DisjointLabels(dg, f)
    ensures WireLabels(Rest(dg, f).labels) && |Occupied(dg, f)| == |Wire(Rest(dg, f).labels)| + 1
    ensures forall i :: i in Occupied(dg, f) ==> i < |dg|
    decreases DNS_MAXDOMAIN - f.namelen
  {
    RestLabels(dg, f);
    EndPosition(dg, f);
    if FindNext(dg, f).Found? {
      OccupiedCounts(dg, FindNext(dg, f).after);
    }
  }

  lemma EndPosition(dg: seq<Byte>, f: Cursor)
    ensures FindNext(dg, f).End? ==> 1 <= FindNext(dg, f).after.cbyte <= |dg|
  {
    if FindNext(dg, f).End? {
      var hops := HopsNeeded(dg, f);
      EndPositionWithin(dg, f, hops);
      FindNextIs(dg, f, hops);
    }
  }

  lemma {:induction false} EndPositionWithin(dg: seq<Byte>, f: Cursor, hops: nat)
    ensures NextWithin(dg, f, hops).End? ==> 1 <= NextWithin(dg, f, hops).after.cbyte <= |dg|
    decreases hops
  {
    if Follows(dg, f) && hops > 0 {
      EndPositionWithin(dg, Jumped(dg, f), hops - 1);
    }
  }

  lemma {:induction false} SubsetSize(a: set<nat>, b: set<nat>)
    requires a <= b
    ensures |a| <= |b|
  {
    assert b == a + (b - a);
  }

  /** The reservation of frdgram suffices for every name whose labels do not overlap. */
  lemma DisjointIsRoomy(dg: seq<Byte>, begin: nat)
    requires NameAt(dg, begin, |dg|).Name? && DisjointLabels(dg, Start(begin, |dg|))
    ensures Roomy(dg, begin)
  {
    OccupiedCounts(dg, Start(begin, |dg|));
    SubsetSize(Occupied(dg, Start(begin, |dg|)), Range(0, |dg|));
  }

  /** Overlapping labels can outgrow it: six bytes that decode to a name of seven wire bytes. */
  lemma OverlapIsNotRoomy()
    ensures var dg: seq<Byte> := [3, 1, 65, 0, 192, 1];
            NameAt(dg, 0, 6) == Name([[1, 65, 0], [65]], 6) && !Roomy(dg, 0)
  {
    var dg: seq<Byte> := [3, 1, 65, 0, 192, 1];
    var ls: seq<Label> := [[1, 65, 0], [65]];
    assert SpellsIn(dg, 3, [], 1);
    assert ls[1..][1..] == [] && dg[2..3] == [65];
    assert SpellsIn(dg, 1, ls[1..], 2);
    assert SpellsIn(dg, 4, ls[1..], 3);
    assert dg[1..4] == ls[0];
    assert SpellsIn(dg, 0, ls, 4);
    DecodesExactly(dg, 0, 6, ls, 6);
    assert Wire(ls[1..]) == [1] + [65] + Wire([]);
    assert Wire(ls) == [3] + [1, 65, 0] + Wire(ls[1..]);
  }

  /** Decompression keeps the meaning: the message asks for exactly the labels of the source name,
      fits UDP, and so does the message asked for by text that the encoder accepts. */
  lemma FrDgramKeepsName(dg: seq<Byte>, begin: nat, id: nat, typ: nat)
    requires NameAt(dg, begin, |dg|).Name?
    ensures WireLabels(NameAt(dg, begin, |dg|).labels)
    ensures var m := Message(id, NameAt(dg, begin, |dg|).labels, typ);
            |m| <= 273 && NameAt(m, DNS_HDRSIZE, |m|).Name? &&
            NameAt(m, DNS_HDRSIZE, |m|).labels == NameAt(dg, begin, |dg|).labels
  {
    DecodedWithinLimits(dg, begin, |dg|);
    MessageAsksForName(id, NameAt(dg, begin, |dg|).labels, typ);
  }

  /** Encoding a hostname and printing the name in the message gives the hostname back. */
  lemma HostnameThroughMessage(s: seq<Byte>, id: nat, typ: nat, quoteok: bool)
    requires ReadLabels(s, 0, false, 0).Success?
    ensures WireLabels(ReadLabels(s, 0, false, 0).value)
    ensures var m := Message(id, ReadLabels(s, 0, false, 0).value, typ);
            |m| <= 271 && RestText(m, Start(DNS_HDRSIZE, |m|), quoteok, true) == Text(StripDot(s), |m| - 4)
  {
    ReadLabelsHost(s, 0, 0);
    var ls := ReadLabels(s, 0, false, 0).value;
    MessageHoldsName(id, ls, typ);
    HostnameRoundTrip(s, Message(id, ls, typ), DNS_HDRSIZE, |Message(id, ls, typ)|, quoteok);
  }

  lemma {:induction false} WirePrefix(a: seq<Label>, b: seq<Label>)
    requires WireLabels(a + b)
    ensures WireLabels(a) && |Wire(a)| <= |Wire(a + b)|
  {
    forall i | 0 <= i < |a| ensures 1 <= |a[i]| <= DNS_MAXLABEL {
      assert a[i] == (a + b)[i];
    }
    if a != [] {
      assert (a + b)[0] == a[0] && (a + b)[1..] == a[1..] + b;
      WirePrefix(a[1..], b);
    }
  }
}
