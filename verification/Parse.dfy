/** The cursor and buffer code of adns/parse.c, verified against Names and Texts. */
module Parse {
  import opened Basics
  import opened Names
  import opened Texts
  import opened Vbufs

  /** findlabel_state. The caller's integer behind `dmend_r` is kept here as `dmend`. */
  class FindLabelState {
    const dgram: seq<Byte>
    var max: int
    var cbyte: nat
    var namelen: nat
    var armed: bool
    var dmend: nat

    ghost function Abs(): Cursor
      reads this
    {
      Cursor(cbyte, max, namelen, armed, dmend)
    }

    // adns__findlabel_start
    constructor (dgram: seq<Byte>, max: int, begin: nat, wantsEnd: bool)
      ensures this.dgram == dgram && Abs() == Cursor(begin, max, 0, wantsEnd, begin)
    {
      this.dgram, this.max, cbyte, namelen, armed, dmend := dgram, max, begin, 0, wantsEnd, begin;
    }

    // The loop of adns__findlabel_next, up to the byte that a label or the end of the name starts with.
    method FollowPointers() returns (done: bool, st: Status, lablen: nat)
      requires !FindNext(dgram, Abs()).Diverges?
      modifies this
      ensures done ==>
                match old(FindNext(dgram, Abs()))
                case Truncated(e) => st == Ok && cbyte >= |dgram| && dmend == e
                case Bad(e, at) => st == e && st != Ok && Abs() == at
                case _ => false
      ensures !done ==>
                st == Ok && 0 < cbyte <= |dgram| && cbyte <= max && dgram[cbyte - 1] == lablen < 64 &&
                old(FindNext(dgram, Abs())) == Here(dgram, Abs().(cbyte := cbyte - 1))
    {
      hide FindNext;
      hide Here;
      done, st, lablen := true, Ok, 0;
      ghost var hops := HopsNeeded(dgram, Abs());
      while true
        invariant FindNext(dgram, Abs()) == old(FindNext(dgram, Abs()))
        invariant !NextWithin(dgram, Abs(), hops).Diverges?
        invariant done && st == Ok
        decreases hops
      {
        FindNextStep(dgram, Abs());
        if cbyte >= |dgram| {
          return;
        }
        if cbyte >= max {
          st := InvalidResponse;
          return;
        }
        var b := dgram[cbyte];
        if b < 64 {
          done, cbyte, lablen := false, cbyte + 1, b;
          return;
        }
        cbyte := cbyte + 1;
        if b < 192 {
          st := UnknownFormat;
          return;
        }
        if cbyte >= |dgram| {
          return;
        }
        if cbyte >= max {
          st := InvalidResponse;
          return;
        }
        var jumpto := (b - 192) as int * 256 + dgram[cbyte] as int;
        cbyte := cbyte + 1;
        if armed {
          dmend := cbyte;
        }
        cbyte, armed, max := jumpto, false, |dgram| + 1;
        hops := hops - 1;
      }
    }

    // adns__findlabel_next; truncation is reported as a length of -1. On an error the length is not written, and the
    // start of the label perhaps not either.
    method Next() returns (st: Status, lablen: int, labstart: nat)
      requires !FindNext(dgram, Abs()).Diverges?
      modifies this
      ensures match old(FindNext(dgram, Abs()))
              case Found(s, l, after) => st == Ok && lablen == l && labstart == s && Abs() == after
              case End(after) => st == Ok && lablen == 0 && labstart <= |dgram| && Abs() == after
              case Truncated(e) => st == Ok && lablen == -1 && cbyte >= |dgram| && dmend == e
              case Bad(e, at) => st == e && st != Ok && Abs() == at
    {
      hide FindNext;
      var done;
      ghost var next := FindNext(dgram, Abs());
      done, st, lablen := FollowPointers();
      ghost var f := Abs().(cbyte := Max(0, cbyte - 1));
      assert !done ==> next == Here(dgram, f);
      labstart := cbyte;
      if done {
        lablen := -1;
        return;
      }
      if lablen > 0 {
        if namelen > 0 {
          namelen := namelen + 1;
        }
        namelen := namelen + lablen;
        if namelen > DNS_MAXDOMAIN {
          st := AnswerDomainTooLong;
          return;
        }
        cbyte := cbyte + lablen;
        if cbyte > |dgram| {
          lablen := -1;
        } else if cbyte > max {
          st := InvalidResponse;
        }
      } else if armed {
        dmend := cbyte;
      }
    }
  }

  lemma {:induction false} QuotedAppend(a: seq<Byte>, b: seq<Byte>)
    ensures Quoted(a + b) == Quoted(a) + Quoted(b)
  {
    hide Quoted;
    hide QuotedByte;
    if a == [] {
      QuotedNothing();
      assert a + b == b && [] + Quoted(b) == Quoted(b);
    } else {
      QuotedAppend(a[1..], b);
      QuotedNext(a);
      QuotedNext(a + b);
      assert (a + b)[0] == a[0] && (a + b)[1..] == a[1..] + b;
      Regrouped(QuotedByte(a[0]), Quoted(a[1..]), Quoted(b));
    }
  }

  lemma Regrouped(a: seq<Byte>, b: seq<Byte>, c: seq<Byte>)
    ensures (a + b) + c == a + (b + c)
  {
  }

  lemma QuotedNothing()
    ensures Quoted([]) == []
  {
  }

  lemma QuotedNext(a: seq<Byte>)
    requires a != []
    ensures Quoted(a) == QuotedByte(a[0]) + Quoted(a[1..])
  {
  }

  lemma {:induction false} QuotedPlain(a: seq<Byte>)
    requires forall i :: 0 <= i < |a| ==> QuotedByte(a[i]) == [a[i]]
    ensures Quoted(a) == a
  {
    if a != [] {
      QuotedPlain(a[1..]);
    }
  }

  /** The inner scan of vbuf__append_quoted1035: the first byte from `from` on that needs an
      escape, and that escape. */
  method PlainStretch(data: seq<Byte>, from: nat) returns (i: nat, qbuf: seq<Byte>)
    requires from <= |data|
    ensures from <= i <= |data| && forall k :: from <= k < i ==> QuotedByte(data[k]) == [data[k]]
    ensures qbuf == if i < |data| then QuotedByte(data[i]) else []
  {
    i, qbuf := from, [];
    while i < |data|
      invariant from <= i <= |data| && qbuf == []
      invariant forall k :: from <= k < i ==> QuotedByte(data[k]) == [data[k]]
    {
      var ch := data[i];
      if ch <= 32 || ch >= 127 {
        qbuf := [BACKSLASH, 48 + ch / 64, 48 + ch / 8 % 8, 48 + ch % 8];
        return;
      } else if !IsUnquoted(ch) {
        qbuf := [BACKSLASH, ch];
        return;
      }
      i := i + 1;
    }
  }

  lemma {:induction false} StretchQuoted(data: seq<Byte>, from: nat, i: nat)
    requires from <= i <= |data| && forall k :: from <= k < i ==> QuotedByte(data[k]) == [data[k]]
    ensures Quoted(data[..i]) == Quoted(data[..from]) + data[from..i]
    ensures i < |data| ==> Quoted(data[..i + 1]) == Quoted(data[..from]) + data[from..i] + QuotedByte(data[i])
  {
    hide QuotedByte;
    QuotedPlain(data[from..i]);
    QuotedAppend(data[..from], data[from..i]);
    assert data[..from] + data[from..i] == data[..i];
    if i < |data| {
      QuotedAppend(data[..i], [data[i]]);
      assert data[..i] + [data[i]] == data[..i + 1];
      assert Quoted([data[i]]) == QuotedByte(data[i]) + Quoted([]);
    }
  }

  // vbuf__append_quoted1035: plain stretches are appended whole, each followed by one escape.
  method AppendQuoted1035(vb: Vbuf, data: seq<Byte>)
    requires vb.Valid()
    modifies vb, vb.buf
    ensures vb.Valid() && (vb.buf == old(vb.buf) || fresh(vb.buf))
    ensures vb.Contents() == old(vb.Contents()) + Quoted(data)
  {
    hide QuotedByte;
    assert data[..0] == [] && Quoted([]) == [];
    hide Quoted;
    var done := 0;
    while done < |data|
      invariant 0 <= done <= |data| && vb.Valid() && (vb.buf == old(vb.buf) || fresh(vb.buf))
      invariant vb.Contents() == old(vb.Contents()) + Quoted(data[..done])
    {
      done := AppendStretch(vb, data, done, old(vb.Contents()));
    }
    assert data[..done] == data;
  }

  method AppendStretch(vb: Vbuf, data: seq<Byte>, done: nat, ghost was: seq<Byte>) returns (next: nat)
    requires vb.Valid() && done < |data| && vb.Contents() == was + Quoted(data[..done])
    modifies vb, vb.buf
    ensures vb.Valid() && (vb.buf == old(vb.buf) || fresh(vb.buf))
    ensures done < next <= |data| && vb.Contents() == was + Quoted(data[..next])
  {
    hide QuotedByte;
    hide Quoted;
    var i, qbuf := PlainStretch(data, done);
    StretchQuoted(data, done, i);
    ghost var before := Quoted(data[..done]);
    vb.Append(data[done..i]);
    vb.Append(qbuf);
    assert vb.Contents() == was + (before + data[done..i] + qbuf);
    if i < |data| {
      return i + 1;
    }
    assert qbuf == [] && before + data[done..i] + qbuf == before + data[done..i];
    return i;
  }

  /** The hostname check of parse_domain_more (adns/parse.c:197-205). */
  method CheckHost(lab: Label) returns (ok: bool)
    requires lab != []
    ensures ok == IsHostLabel(lab)
  {
    if !IsAlpha(lab[0]) && !IsDigit(lab[0]) {
      return false;
    }
    var i := 1;
    while i < |lab|
      invariant 1 <= i <= |lab|
      invariant forall k :: 0 <= k < i ==> lab[k] == HYPHEN || IsAlpha(lab[k]) || IsDigit(lab[k])
    {
      var ch := lab[i];
      if ch != HYPHEN && !IsAlpha(ch) && !IsDigit(ch) {
        return false;
      }
      i := i + 1;
    }
    return true;
  }

  /** Appends one label, with its dot (adns/parse.c:181-208). */
  method AppendLabel(vb: Vbuf, lab: Label, quoteok: bool, first: bool) returns (ok: bool)
    requires vb.Valid() && lab != []
    modifies vb, vb.buf
    ensures vb.Valid() && (vb.buf == old(vb.buf) || fresh(vb.buf))
    ensures ok == (quoteok || IsHostLabel(lab))
    ensures ok ==> vb.Contents() ==
                     old(vb.Contents()) + LabelText(lab, quoteok, first)
    ensures !ok ==> vb.Contents() == old(vb.Contents()) + (if first then [] else [DOT])
  {
    hide Quoted;
    if !first {
      vb.Append([DOT]);
    }
    ok := true;
    if quoteok {
      AppendQuoted1035(vb, lab);
    } else {
      ok := CheckHost(lab);
      if ok {
        vb.Append(lab);
      }
    }
  }

  // adns__parse_domain_more: appends the rest of a name, NUL-terminated, to the buffer.
  // Truncation empties the buffer.
  method ParseDomainMore(fls: FindLabelState, vb: Vbuf, quoteok: bool) returns (st: Status)
    requires vb.Valid() && !RestText(fls.dgram, fls.Abs(), quoteok, true).TextDiverges?
    modifies fls, vb, vb.buf
    ensures vb.Valid() && (vb.buf == old(vb.buf) || fresh(vb.buf))
    ensures match old(RestText(fls.dgram, fls.Abs(), quoteok, true))
            case Text(t, end) => st == Ok && vb.Contents() == old(vb.Contents()) + t + [0] && fls.dmend == end
            case TextTruncated(end) => st == Ok && vb.Contents() == [] && fls.dmend == end
            case TextBad(e, bare) => st == e && st != Ok && (bare <==> vb.Contents() == old(vb.Contents())) &&
                                     old(|vb.Contents()|) <= vb.used
  {
    hide FindNext;
    hide RestText;
    hide Prefixed;
    hide LabelText;
    var first := true;
    ghost var before, sofar: seq<Byte> := vb.Contents(), [];
    ghost var whole := RestText(fls.dgram, fls.Abs(), quoteok, true);
    PrefixedByNothing(whole);
    while true
      invariant vb.Valid() && (vb.buf == old(vb.buf) || fresh(vb.buf))
      invariant vb.Contents() == before + sofar && (first <==> sofar == [])
      invariant whole == Prefixed(sofar, RestText(fls.dgram, fls.Abs(), quoteok, first))
      decreases DNS_MAXDOMAIN - fls.namelen
    {
      ghost var f := fls.Abs();
      TextCases(fls.dgram, f, quoteok, first, sofar);
      var lablen, labstart;
      st, lablen, labstart := fls.Next();
      if st != Ok {
        return;
      }
      if lablen < 0 {
        vb.used := 0;
        return;
      }
      if lablen == 0 {
        break;
      }
      var lab := fls.dgram[labstart..labstart + lablen];
      var ok := AppendLabel(vb, lab, quoteok, first);
      if !ok {
        st := AnswerDomainInvalid;
        return;
      }
      PieceNonempty(lab, quoteok, first);
      sofar := sofar + LabelText(lab, quoteok, first);
      first := false;
    }
    vb.Append([0]);
  }

  /** What one label adds to the text. */
  function LabelText(lab: Label, quoteok: bool, first: bool): seq<Byte>
  {
    (if first then [] else [DOT]) + PrintedLabel(lab, quoteok)
  }

  lemma PrefixedByNothing(t: Text)
    ensures Prefixed([], t) == t
  {
    if t.Text? {
      assert [] + t.text == t.text;
    }
  }

  /** The text behind `sofar`, by what the cursor finds next. */
  lemma TextCases(dg: seq<Byte>, f: Cursor, quoteok: bool, first: bool, sofar: seq<Byte>)
    ensures var t := Prefixed(sofar, RestText(dg, f, quoteok, first));
            match FindNext(dg, f)
            case End(after) => t == Text(sofar, after.dmend)
            case Truncated(end) => t == TextTruncated(end)
            case Bad(st, _) => t == TextBad(st, first)
            case Diverges => t == TextDiverges
            case Found(s, l, after) =>
              var lab := dg[s..s + l];
              if !quoteok && !IsHostLabel(lab) then t == TextBad(AnswerDomainInvalid, first)
              else t == Prefixed(sofar + LabelText(lab, quoteok, first), RestText(dg, after, quoteok, false))
  {
    hide FindNext;
    hide PrintedLabel;
    match FindNext(dg, f)
    case End(_) => assert sofar + [] == sofar;
    case Found(s, l, after) =>
      PrefixedTwice(sofar, LabelText(dg[s..s + l], quoteok, first), RestText(dg, after, quoteok, false));
    case _ =>
  }

  lemma PieceNonempty(lab: Label, quoteok: bool, first: bool)
    requires lab != []
    ensures LabelText(lab, quoteok, first) != []
  {
  }

  /** A text with `t` put in front. */
  ghost function Prefixed(t: seq<Byte>, rest: Text): Text
  {
    match rest
    case Text(u, end) => Text(t + u, end)
    case other => other
  }

  lemma PrefixedTwice(a: seq<Byte>, b: seq<Byte>, rest: Text)
    ensures Prefixed(a, Prefixed(b, rest)) == Prefixed(a + b, rest)
  {
    if rest.Text? {
      assert a + (b + rest.text) == (a + b) + rest.text;
    }
  }

  // adns__parse_domain
  method ParseDomain(vb: Vbuf, quoteok: bool, dgram: seq<Byte>, cbyte: nat, max: int)
    returns (st: Status, end: nat)
    requires vb.Valid() && !RestText(dgram, Start(cbyte, max), quoteok, true).TextDiverges?
    modifies vb, vb.buf
    ensures vb.Valid() && (vb.buf == old(vb.buf) || fresh(vb.buf))
    ensures st == Ok && vb.used > 0 <==>
            NameAt(dgram, cbyte, max).Name? && (quoteok || AllHost(NameAt(dgram, cbyte, max).labels))
    ensures st == Ok && vb.used > 0 ==>
              vb.Contents() == Printed(NameAt(dgram, cbyte, max).labels, quoteok, true) + [0] &&
              end == NameAt(dgram, cbyte, max).end
    ensures st == Ok && vb.used == 0 <==> RestText(dgram, Start(cbyte, max), quoteok, true).TextTruncated?
    ensures st != Ok ==> RestText(dgram, Start(cbyte, max), quoteok, true) == TextBad(st, vb.used == 0)
  {
    PrintsTheName(dgram, Start(cbyte, max), quoteok, true);
    var fls := new FindLabelState(dgram, max, cbyte, true);
    vb.used := 0;
    st := ParseDomainMore(fls, vb, quoteok);
    end := fls.dmend;
  }
}
