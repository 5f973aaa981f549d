/** Text and labels undo each other, exactly as far as they do. */
module RoundTrips {
  import opened Basics
  import opened Names
  import opened Texts

  /** One trailing dot is dropped. */
  function StripDot(s: seq<Byte>): seq<Byte>
  {
    if s != [] && s[|s| - 1] == DOT then s[..|s| - 1] else s
  }

  lemma {:induction false} PrintedTail(ls: seq<Label>, quoteok: bool)
    ensures Printed(ls, quoteok, false) == if ls == [] then [] else [DOT] + Printed(ls, quoteok, true)
  {
    hide PrintedLabel;
    if ls != [] {
      var head, rest := PrintedLabel(ls[0], quoteok), Printed(ls[1..], quoteok, false);
      assert Printed(ls, quoteok, true) == head + rest by {
        assert [] + head == head;
      }
      assert [DOT] + head + rest == [DOT] + (head + rest);
    }
  }

  // ---------- Hostnames ----------

  lemma {:induction false} ReadLabelHost(s: seq<Byte>, p: nat, acc: Label) returns (e: nat)
    requires p <= |s| && ReadLabel(s, p, false, acc).Success? && (acc == [] || IsHostLabel(acc))
    ensures var (l, q) := ReadLabel(s, p, false, acc).value;
            p <= e <= |s| && l == acc + s[p..e] && (l == [] || IsHostLabel(l)) &&
            (e == |s| == q || (e < |s| && s[e] == DOT && q == e + 1))
    decreases |s| - p
  {
    if p == |s| || s[p] == DOT {
      e := p;
    } else {
      e := ReadLabelHost(s, p + 1, acc + [s[p]]);
      SliceHead(s, p, e);
      assert acc + [s[p]] + s[p + 1..e] == acc + ([s[p]] + s[p + 1..e]);
    }
  }

  lemma SliceHead(s: seq<Byte>, p: nat, e: nat)
    requires p < e <= |s|
    ensures s[p..e] == [s[p]] + s[p + 1..e]
  {
  }

  lemma {:induction false} StripDotTail(a: seq<Byte>, b: seq<Byte>)
    requires b != []
    ensures StripDot(a + b) == a + StripDot(b)
  {
    assert (a + b)[|a + b| - 1] == b[|b| - 1];
    assert (a + b)[..|a + b| - 1] == a + b[..|b| - 1];
  }

  /** A hostname up to position `e`, and the rest of the text behind its dot. */
  lemma {:induction false} HostText(s: seq<Byte>, p: nat, e: nat, q: nat, ls: seq<Label>, rest: seq<Label>)
    requires p < e <= q <= |s| && IsHostLabel(s[p..e]) && ls == [s[p..e]] + rest
    requires e == |s| == q || (e < |s| && s[e] == DOT && q == e + 1)
    requires Printed(rest, false, true) == StripDot(s[q..]) && (q < |s| <==> rest != [])
    ensures Printed(ls, false, true) == StripDot(s[p..])
  {
    PrintedHead(s[p..e], rest);
    LastIsNotDot(s[p..e]);
    hide Printed;
    hide IsHostLabel;
    hide StripDot;
    StripBehind(s, p, e, q);
  }

  lemma LastIsNotDot(l: Label)
    requires IsHostLabel(l)
    ensures l[|l| - 1] != DOT
  {
  }

  lemma PrintedHead(l: Label, rest: seq<Label>)
    ensures Printed([l] + rest, false, true) == l + (if rest == [] then [] else [DOT] + Printed(rest, false, true))
  {
    var ls := [l] + rest;
    assert ls[0] == l && ls[1..] == rest;
    PrintedTail(rest, false);
  }

  lemma StripBehind(s: seq<Byte>, p: nat, e: nat, q: nat)
    requires p < e <= q <= |s| && s[p..e][e - p - 1] != DOT
    requires e == |s| == q || (e < |s| && s[e] == DOT && q == e + 1)
    ensures StripDot(s[p..]) == s[p..e] + if q < |s| then [DOT] + StripDot(s[q..]) else []
  {
    var l := s[p..e];
    if q < |s| {
      var rest := s[q..];
      assert s[p..] == l + [DOT] + rest;
      StripDotTail(l + [DOT], rest);
      hide StripDot;
      assert l + [DOT] + StripDot(rest) == l + ([DOT] + StripDot(rest));
    } else if e < |s| {
      assert s[p..] == l + [DOT];
    } else {
      assert s[p..] == l;
    }
  }

  lemma {:induction false} ReadLabelsHost(s: seq<Byte>, p: nat, n: nat)
    requires p <= |s| && ReadLabels(s, p, false, n).Success?
    ensures var ls := ReadLabels(s, p, false, n).value;
            WireLabels(ls) && AllHost(ls) && Printed(ls, false, true) == StripDot(s[p..]) &&
            (ls == [] || n + |Wire(ls)| < DNS_MAXDOMAIN) && (p < |s| <==> ls != [])
    decreases |s| - p
  {
    if p < |s| {
      hide StripDot;
      hide Printed;
      var (l, q) := ReadLabel(s, p, false, []).value;
      var e := ReadLabelHost(s, p, []);
      assert [] + s[p..e] == s[p..e];
      ReadLabelsStep(s, p, false, n, l, q);
      ReadLabelsHost(s, q, n + |l| + 1);
      var rest := ReadLabels(s, q, false, n + |l| + 1).value;
      HostText(s, p, e, q, [l] + rest, rest);
      assert ([l] + rest)[1..] == rest;
    }
  }

  lemma {:induction false} HostQuotesToItself(s: Label)
    requires forall i :: 0 <= i < |s| ==> IsUnquoted(s[i])
    ensures Quoted(s) == s
  {
    if s != [] {
      HostQuotesToItself(s[1..]);
    }
  }

  lemma {:induction false} HostPrintsAlike(ls: seq<Label>, first: bool)
    requires AllHost(ls)
    ensures Printed(ls, true, first) == Printed(ls, false, first)
    decreases |ls|
  {
    if ls != [] {
      assert IsHostLabel(ls[0]);
      HostQuotesToItself(ls[0]);
      HostPrintsAlike(ls[1..], false);
    }
  }

  /** A hostname that the query encoder accepts is reproduced exactly, up to one trailing dot, by
      decoding its wire form and printing it, whether or not quoting is allowed. */
  lemma {:induction false} HostnameRoundTrip(s: seq<Byte>, dg: seq<Byte>, c: nat, max: int, quoteok: bool)
    requires ReadLabels(s, 0, false, 0).Success?
    requires var w := ReadLabels(s, 0, false, 0).value;
             WireLabels(w) && Holds(dg, c, Wire(w) + [0]) && c + |Wire(w)| + 1 <= max
    ensures RestText(dg, Start(c, max), quoteok, true) ==
            Text(StripDot(s), c + |Wire(ReadLabels(s, 0, false, 0).value)| + 1)
  {
    var ls := ReadLabels(s, 0, false, 0).value;
    ReadLabelsHost(s, 0, 0);
    assert s[0..] == s;
    WireLength(ls, 0);
    WireDecodes(dg, Start(c, max), ls);
    HostPrintsAlike(ls, true);
    PrintsTheName(dg, Start(c, max), quoteok, true);
  }

  // ---------- Quoted names ----------

  /** What reading the printed form of `c` yields: the octal digits taken for decimal ones. */
  function Misread(c: Byte): nat
  {
    if 33 <= c <= 126 then c else (c / 64) as int * 100 + (c / 8 % 8) as int * 10 + (c % 8) as int
  }

  predicate CanReread(s: Label) { forall i :: 0 <= i < |s| ==> Misread(s[i]) < 256 }

  function Reread(s: Label): (r: Label)
    requires CanReread(s)
    ensures |r| == |s| && forall i :: 0 <= i < |s| ==> r[i] == Misread(s[i])
  {
    if s == [] then [] else [Misread(s[0])] + Reread(s[1..])
  }

  lemma {:induction false} ReadByteQuoted(t: seq<Byte>, p: nat, c: Byte)
    requires Holds(t, p, QuotedByte(c))
    ensures p < |t| && t[p] != DOT
    ensures ReadByte(t, p, true) == if Misread(c) < 256 then Some((Misread(c), p + |QuotedByte(c)|)) else None
  {
    var w := t[p..p + |QuotedByte(c)|];
    assert w[0] == t[p] && forall i :: 0 <= i < |w| ==> w[i] == t[p + i];
  }

  lemma {:induction false} ReadableSplit(s: Label)
    requires s != []
    ensures CanReread(s) <==> Misread(s[0]) < 256 && CanReread(s[1..])
  {
    assert forall i :: 0 < i < |s| ==> s[i] == s[1..][i - 1];
  }

  lemma {:induction false} RereadSplit(s: Label, acc: Label)
    requires s != [] && CanReread(s) && CanReread(s[1..])
    ensures acc + Reread(s) == acc + [Misread(s[0])] + Reread(s[1..])
  {
  }

  lemma {:induction false} QuotedParts(t: seq<Byte>, p: nat, s: Label)
    requires s != [] && Holds(t, p, Quoted(s))
    ensures var q := p + |QuotedByte(s[0])|;
            Holds(t, p, QuotedByte(s[0])) && Holds(t, q, Quoted(s[1..])) && q + |Quoted(s[1..])| == p + |Quoted(s)|
  {
    hide QuotedByte;
    HoldsParts(t, p, QuotedByte(s[0]), Quoted(s[1..]));
  }

  lemma {:induction false} ReadLabelStep(t: seq<Byte>, p: nat, s: Label, acc: Label)
    requires s != [] && Holds(t, p, Quoted(s)) && |acc| < 255
    ensures ReadLabel(t, p, true, acc) ==
            if Misread(s[0]) < 256 then ReadLabel(t, p + |QuotedByte(s[0])|, true, acc + [Misread(s[0])])
            else Failure(QueryDomainInvalid)
  {
    QuotedParts(t, p, s);
    ReadByteQuoted(t, p, s[0]);
  }

  lemma {:induction false} ReadLabelQuoted(t: seq<Byte>, p: nat, s: Label, acc: Label)
    requires Holds(t, p, Quoted(s)) && |acc| + |s| <= 255
    requires var e := p + |Quoted(s)|; e == |t| || t[e] == DOT
    ensures ReadLabel(t, p, true, acc) ==
            if CanReread(s) then Success((acc + Reread(s), Min(p + |Quoted(s)| + 1, |t|)))
            else Failure(QueryDomainInvalid)
    decreases |s|
  {
    hide QuotedByte;
    hide Holds;
    if s == [] {
      assert acc + Reread(s) == acc;
    } else {
      ReadLabelStep(t, p, s, acc);
      QuotedParts(t, p, s);
      ReadableSplit(s);
      if Misread(s[0]) < 256 {
        ReadLabelQuoted(t, p + |QuotedByte(s[0])|, s[1..], acc + [Misread(s[0])]);
        if CanReread(s) {
          RereadSplit(s, acc);
        }
      }
    }
  }

  /** What reading the quoted print of `ls` yields. */
  function RereadAll(ls: seq<Label>): Result<seq<Label>>
  {
    if ls == [] then Success([])
    else if !CanReread(ls[0]) then Failure(QueryDomainInvalid)
    else
      match RereadAll(ls[1..])
      case Failure(st) => Failure(st)
      case Success(rest) => Success([Reread(ls[0])] + rest)
  }

  lemma {:induction false} ReadLabelsStep(t: seq<Byte>, p: nat, quoteok: bool, n: nat, l: Label, q: nat)
    requires p < |t| && ReadLabel(t, p, quoteok, []) == Success((l, q)) && q <= |t|
    requires 1 <= |l| <= DNS_MAXLABEL && n + |l| + 1 < DNS_MAXDOMAIN
    ensures ReadLabels(t, p, quoteok, n) ==
            match ReadLabels(t, q, quoteok, n + |l| + 1)
            case Failure(st) => Failure(st)
            case Success(ls) => Success([l] + ls)
  {
  }

  /** Where the first label ends, and what is left behind it and its dot. */
  lemma {:induction false} PrintedParts(t: seq<Byte>, p: nat, ls: seq<Label>) returns (q: nat)
    requires ls != [] && Holds(t, p, Printed(ls, true, true)) && p + |Printed(ls, true, true)| == |t|
    ensures Holds(t, p, Quoted(ls[0]))
    ensures var e := p + |Quoted(ls[0])|; (e == |t| || t[e] == DOT) && q == Min(e + 1, |t|)
    ensures Holds(t, q, Printed(ls[1..], true, true)) && q + |Printed(ls[1..], true, true)| == |t|
  {
    hide Quoted;
    var l, rest := ls[0], ls[1..];
    var more := Printed(rest, true, false);
    var e := p + |Quoted(l)|;
    assert Printed(ls, true, true) == Quoted(l) + more;
    PrintedTail(rest, true);
    HoldsParts(t, p, Quoted(l), more);
    q := Min(e + 1, |t|);
    var whole := Printed(rest, true, true);
    PrintsNothing();
    assert rest == [] ==> whole == [];
    hide Printed;
    if rest != [] {
      HoldsParts(t, e, [DOT], whole);
      HoldsHead(t, e, DOT, []);
    }
  }

  lemma {:induction false} FirstLabelQuoted(t: seq<Byte>, p: nat, ls: seq<Label>) returns (q: nat)
    requires ls != [] && WireLabels(ls)
    requires Holds(t, p, Printed(ls, true, true)) && p + |Printed(ls, true, true)| == |t|
    ensures p < |t| && p <= q && Holds(t, q, Printed(ls[1..], true, true)) && q + |Printed(ls[1..], true, true)| == |t|
    ensures ReadLabel(t, p, true, []) ==
            if CanReread(ls[0]) then Success((Reread(ls[0]), q)) else Failure(QueryDomainInvalid)
  {
    hide Quoted;
    hide ReadLabel;
    q := PrintedParts(t, p, ls);
    QuotedLonger(ls[0]);
    ReadLabelQuoted(t, p, ls[0], []);
    if CanReread(ls[0]) {
      assert [] + Reread(ls[0]) == Reread(ls[0]);
    }
  }

  lemma {:induction false} ReadLabelsQuoted(t: seq<Byte>, p: nat, ls: seq<Label>, n: nat)
    requires WireLabels(ls) && (ls == [] || n + |Wire(ls)| < DNS_MAXDOMAIN)
    requires Holds(t, p, Printed(ls, true, true)) && p + |Printed(ls, true, true)| == |t|
    ensures ReadLabels(t, p, true, n) == RereadAll(ls)
    decreases |ls|
  {
    hide Printed;
    hide Quoted;
    hide Holds;
    hide ReadLabel;
    hide CanReread;
    hide ReadLabels;
    hide Wire;
    hide Reread;
    if ls == [] {
      NothingPrinted(t, p, n);
    } else {
      var q := FirstLabelQuoted(t, p, ls);
      var m := n + |ls[0]| + 1;
      WireHead(ls);
      if CanReread(ls[0]) {
        RereadLength(ls[0]);
        ReadLabelsStep(t, p, true, n, Reread(ls[0]), q);
        ReadLabelsQuoted(t, q, ls[1..], m);
      } else {
        ReadLabelsFails(t, p, true, n, QueryDomainInvalid);
      }
    }
  }

  lemma NothingPrinted(t: seq<Byte>, p: nat, n: nat)
    requires Holds(t, p, Printed([], true, true)) && p + |Printed([], true, true)| == |t|
    ensures ReadLabels(t, p, true, n) == Success([])
  {
  }

  lemma WireHead(ls: seq<Label>)
    requires WireLabels(ls) && ls != []
    ensures WireLabels(ls[1..]) && |Wire(ls)| == 1 + |ls[0]| + |Wire(ls[1..])|
  {
  }

  lemma RereadLength(s: Label)
    requires CanReread(s)
    ensures |Reread(s)| == |s|
  {
  }

  lemma ReadLabelsFails(t: seq<Byte>, p: nat, quoteok: bool, n: nat, st: Status)
    requires p < |t| && ReadLabel(t, p, quoteok, []) == Failure(st)
    ensures ReadLabels(t, p, quoteok, n) == Failure(st)
  {
  }

  lemma {:induction false} QuotedLonger(s: Label)
    ensures |s| <= |Quoted(s)|
  {
    if s != [] {
      QuotedLonger(s[1..]);
    }
  }

  /** The bytes whose printed form is read back as the same byte. */
  predicate Faithful(c: Byte) { c < 8 || 33 <= c <= 126 }

  predicate AllFaithfulIn(s: Label) { forall j :: 0 <= j < |s| ==> Faithful(s[j]) }

  predicate AllFaithful(ls: seq<Label>) { forall i :: 0 <= i < |ls| ==> AllFaithfulIn(ls[i]) }

  lemma {:induction false} FaithfulLabel(s: Label)
    ensures CanReread(s) && Reread(s) == s <==> AllFaithfulIn(s)
  {
    forall j | 0 <= j < |s| ensures Misread(s[j]) == s[j] <==> Faithful(s[j]) {}
    if CanReread(s) {
      assert forall j :: 0 <= j < |s| ==> (Reread(s)[j] == s[j] <==> Faithful(s[j]));
    }
  }

  lemma {:induction false} FaithfulLabels(ls: seq<Label>)
    ensures RereadAll(ls) == Success(ls) <==> AllFaithful(ls)
  {
    if ls != [] {
      FaithfulLabel(ls[0]);
      FaithfulLabels(ls[1..]);
      assert AllFaithful(ls) <==> AllFaithfulIn(ls[0]) && AllFaithful(ls[1..]) by {
        assert forall i :: 0 < i < |ls| ==> ls[i] == ls[1..][i - 1];
      }
      assert ls == [ls[0]] + ls[1..];
      if RereadAll(ls).Success? {
        assert RereadAll(ls).value[0] == Reread(ls[0]) && RereadAll(ls).value[1..] == RereadAll(ls[1..]).value;
      }
    }
  }

  /** Reading the quoted print of a name gives the same labels if and only if every byte is
      printable ASCII or below 8. The documentation promises it of every byte (adns/adns.h:164-173),
      but the escapes are printed in octal and read in decimal. */
  lemma {:induction false} QuotedRoundTrip(ls: seq<Label>)
    requires WireLabels(ls) && |Wire(ls)| < DNS_MAXDOMAIN
    ensures ReadLabels(Printed(ls, true, true), 0, true, 0) == Success(ls) <==> AllFaithful(ls)
  {
    var t := Printed(ls, true, true);
    assert t[0..|t|] == t;
    ReadLabelsQuoted(t, 0, ls, 0);
    FaithfulLabels(ls);
  }

  /** The label holding one space prints as \040 and is read back as an opening parenthesis. */
  lemma {:induction false} SpaceIsMisread()
    ensures Quoted([32]) == [92, 48, 52, 48]
    ensures ReadLabel(Quoted([32]), 0, true, []) == Success(([40], 4))
  {
    assert Quoted([32]) == QuotedByte(32) + Quoted([]);
    var t := Quoted([32]);
    assert t[0..|t|] == t;
    ReadLabelQuoted(t, 0, [32], []);
    assert [] + Reread([32]) == [40];
  }

  // ---------- Which hostnames are accepted ----------

  /** The labels fit the limits of the encoder, behind `n` bytes (adns/transmit.c:149-155). */
  predicate Encodable(ls: seq<Label>, n: nat)
  {
    WireLabels(ls) && (ls == [] || n + |Wire(ls)| < DNS_MAXDOMAIN)
  }

  lemma EncodableHead(ls: seq<Label>, n: nat)
    requires ls != [] && ls[0] != []
    ensures Encodable(ls, n) <==>
            |ls[0]| <= DNS_MAXLABEL && n + |ls[0]| + 1 < DNS_MAXDOMAIN && Encodable(ls[1..], n + |ls[0]| + 1)
  {
    if WireLabels(ls[1..]) && |ls[0]| <= DNS_MAXLABEL {
      forall i | 0 <= i < |ls| ensures 1 <= |ls[i]| <= DNS_MAXLABEL {
        if i > 0 {
          assert ls[i] == ls[1..][i - 1];
        }
      }
      assert |Wire(ls)| == 1 + |ls[0]| + |Wire(ls[1..])|;
      if ls[1..] == [] {
        assert Wire(ls[1..]) == [];
      }
    }
    if WireLabels(ls) {
      assert forall i :: 0 <= i < |ls| - 1 ==> ls[1..][i] == ls[i + 1];
    }
  }

  /** A label of a hostname is read up to its dot, or to the end. */
  lemma {:induction false} HostLabelIsRead(s: seq<Byte>, p: nat, e: nat, acc: Label)
    requires p <= e <= |s| && (e < |s| ==> s[e] == DOT) && |acc| + (e - p) <= 255
    requires acc + s[p..e] == [] || IsHostLabel(acc + s[p..e])
    ensures ReadLabel(s, p, false, acc) == Success((acc + s[p..e], if e < |s| then e + 1 else e))
    decreases e - p
  {
    var l := acc + s[p..e];
    if p == e {
      assert l == acc;
    } else {
      assert l[|acc|] == s[p] && acc + [s[p]] + s[p + 1..e] == l;
      HostLabelIsRead(s, p + 1, e, acc + [s[p]]);
    }
  }

  /** The labels are hostnames, and each fits the buffer of the scan. */
  predicate Scannable(ls: seq<Label>) { AllHost(ls) && forall i :: 0 <= i < |ls| ==> |ls[i]| <= 255 }

  /** Where the first of some labels joined by dots stands, and what stands behind it. */
  lemma HeadStands(s: seq<Byte>, p: nat, l: Label, rest: seq<Label>, tail: seq<Byte>)
    requires p <= |s| && s[p..] == Printed([l] + rest, false, true) + tail && (tail == [] || tail == [DOT])
    ensures var e := p + |l|;
            e <= |s| && s[p..e] == l &&
            if e < |s| then s[e] == DOT && s[e + 1..] == Printed(rest, false, true) + (if rest == [] then [] else tail)
            else rest == [] && tail == []
  {
    PrintedHead(l, rest);
    PrintsNothing();
    hide Printed;
    var behind := if rest == [] then tail else [DOT] + Printed(rest, false, true) + tail;
    assert s[p..] == l + behind;
    SplitAt(s, p, l, behind);
    var e := p + |l|;
    if e < |s| {
      assert s[e] == s[e..][0] && s[e + 1..] == s[e..][1..];
    }
  }

  /** The first of some hostname labels joined by dots is read. */
  lemma HostHeadIsRead(s: seq<Byte>, p: nat, ls: seq<Label>, tail: seq<Byte>) returns (q: nat)
    requires p <= |s| && Scannable(ls) && ls != [] && s[p..] == Printed(ls, false, true) + tail
    requires tail == [] || tail == [DOT]
    ensures p < q <= |s| && ReadLabel(s, p, false, []) == Success((ls[0], q))
    ensures s[q..] == Printed(ls[1..], false, true) + (if ls[1..] == [] then [] else tail)
    ensures Scannable(ls[1..])
  {
    hide Printed;
    var l, rest := ls[0], ls[1..];
    assert ls == [l] + rest && IsHostLabel(l);
    ScannableTail(ls);
    HeadStands(s, p, l, rest, tail);
    var e := p + |l|;
    assert [] + s[p..e] == l;
    HostLabelIsRead(s, p, e, []);
    hide ReadLabel;
    hide IsHostLabel;
    q := if e < |s| then e + 1 else e;
    PrintsNothing();
  }

  lemma ScannableTail(ls: seq<Label>)
    requires Scannable(ls) && ls != []
    ensures Scannable(ls[1..])
  {
  }

  lemma ReadLabelsOn(s: seq<Byte>, p: nat, n: nat, l: Label, q: nat)
    requires p < q <= |s| && l != [] && ReadLabel(s, p, false, []) == Success((l, q))
    ensures ReadLabels(s, p, false, n) ==
            if |l| > DNS_MAXLABEL || n + |l| + 1 >= DNS_MAXDOMAIN then Failure(QueryDomainTooLong)
            else
              var r := ReadLabels(s, q, false, n + |l| + 1);
              if r.Success? then Success([l] + r.value) else r
  {
    hide ReadLabel;
  }

  /** Hostname labels joined by dots, with or without one at the end, are read back, unless they are too long. */
  lemma {:induction false} HostnameIsRead(s: seq<Byte>, p: nat, ls: seq<Label>, n: nat, tail: seq<Byte>)
    requires p <= |s| && Scannable(ls) && s[p..] == Printed(ls, false, true) + tail
    requires tail == [] || (tail == [DOT] && ls != [])
    ensures ReadLabels(s, p, false, n) == if Encodable(ls, n) then Success(ls) else Failure(QueryDomainTooLong)
    decreases |ls|
  {
    if ls == [] {
      PrintsNothing();
    } else {
      var l, rest := ls[0], ls[1..];
      assert IsHostLabel(l) && [l] + rest == ls;
      var q := HostHeadIsRead(s, p, ls, tail);
      EncodableHead(ls, n);
      ReadLabelsOn(s, p, n, l, q);
      hide ReadLabels;
      hide ReadLabel;
      hide Printed;
      hide Encodable;
      hide Scannable;
      if |l| <= DNS_MAXLABEL && n + |l| + 1 < DNS_MAXDOMAIN {
        HostnameIsRead(s, q, rest, n + |l| + 1, if rest == [] then [] else tail);
      }
    }
  }

  lemma PrintsNothing()
    ensures Printed([], false, true) == [] && Printed([], true, true) == []
  {
  }

  lemma SplitAt(s: seq<Byte>, p: nat, l: seq<Byte>, behind: seq<Byte>)
    requires p <= |s| && s[p..] == l + behind
    ensures p + |l| <= |s| && s[p..p + |l|] == l && s[p + |l|..] == behind
  {
    assert |s[p..]| == |l| + |behind|;
    assert s[p..p + |l|] == s[p..][..|l|] && s[p + |l|..] == s[p..][|l|..];
  }

  /** Without quoting, a name is read as these labels if and only if they are labels of hostnames that fit the limits,
      and the name is them joined by dots, with or without one at the end. */
  lemma HostnameExactly(s: seq<Byte>, ls: seq<Label>)
    ensures ReadLabels(s, 0, false, 0) == Success(ls) <==>
            AllHost(ls) && Encodable(ls, 0) && StripDot(s) == Printed(ls, false, true) && (s == [] <==> ls == [])
  {
    if ReadLabels(s, 0, false, 0) == Success(ls) {
      assert s[0..] == s;
      ReadLabelsHost(s, 0, 0);
    }
    if AllHost(ls) && Encodable(ls, 0) && StripDot(s) == Printed(ls, false, true) && (s == [] <==> ls == []) {
      FittingIsRead(s, ls);
    }
    hide ReadLabels;
    hide Printed;
    hide StripDot;
  }

  lemma FittingIsRead(s: seq<Byte>, ls: seq<Label>)
    requires AllHost(ls) && Encodable(ls, 0) && StripDot(s) == Printed(ls, false, true) && (s == [] <==> ls == [])
    ensures ReadLabels(s, 0, false, 0) == Success(ls)
  {
    hide ReadLabels;
    hide Printed;
    var tail: seq<Byte> := if StripDot(s) == s then [] else [DOT];
    assert s == StripDot(s) + tail && s[0..] == s;
    FittingScans(ls);
    hide StripDot;
    hide Encodable;
    hide AllHost;
    HostnameIsRead(s, 0, ls, 0, tail);
  }

  lemma FittingScans(ls: seq<Label>)
    requires AllHost(ls) && WireLabels(ls)
    ensures Scannable(ls)
  {
  }
}
