/** Domain names as text: printing labels (adns/parse.c:33-65, 160-213) and reading an owner
    name (adns/transmit.c:85-167). */
module Texts {
  import opened Basics
  import opened Names

  type Label = seq<Byte>

  // ---------- Printing ----------

  /** One byte of a label in master-file form. Unprintable bytes become a backslash and three
      OCTAL digits (adns/parse.c:47). */
  function QuotedByte(c: Byte): seq<Byte>
  {
    if c <= 32 || c >= 127 then [BACKSLASH, 48 + c / 64, 48 + c / 8 % 8, 48 + c % 8]
    else if IsUnquoted(c) then [c]
    else [BACKSLASH, c]
  }

  function Quoted(s: seq<Byte>): seq<Byte>
  {
    if s == [] then [] else QuotedByte(s[0]) + Quoted(s[1..])
  }

  /** The hostname syntax demanded of a label when quoting is not allowed. */
  predicate IsHostLabel(s: Label)
  {
    s != [] && s[0] != HYPHEN && forall i :: 0 <= i < |s| ==> IsAlpha(s[i]) || IsDigit(s[i]) || s[i] == HYPHEN
  }

  predicate AllHost(ls: seq<Label>) { forall i :: 0 <= i < |ls| ==> IsHostLabel(ls[i]) }

  function PrintedLabel(s: Label, quoteok: bool): seq<Byte> { if quoteok then Quoted(s) else s }

  /** The printed labels, with a dot before each one but the first. */
  function Printed(ls: seq<Label>, quoteok: bool, first: bool): seq<Byte>
  {
    if ls == [] then []
    else (if first then [] else [DOT]) + PrintedLabel(ls[0], quoteok) + Printed(ls[1..], quoteok, false)
  }

  datatype Text =
    | Text(text: seq<Byte>, end: nat)
    | TextTruncated(end: nat)  // how far the caller's integer had got
    | TextBad(status: Status, bare: bool)  // bare: nothing was printed before the error
    | TextDiverges

  /** What printing the rest of a name yields. A label that is not a hostname ends it at once. */
  ghost function RestText(dg: seq<Byte>, f: Cursor, quoteok: bool, first: bool): Text
    decreases DNS_MAXDOMAIN - f.namelen
  {
    match FindNext(dg, f)
    case End(after) => Text([], after.dmend)
    case Truncated(end) => TextTruncated(end)
    case Bad(st, _) => TextBad(st, first)
    case Diverges => TextDiverges
    case Found(s, l, after) =>
      var lab := dg[s..s + l];
      if !quoteok && !IsHostLabel(lab) then TextBad(AnswerDomainInvalid, first)
      else
        match RestText(dg, after, quoteok, false)
        case Text(t, end) => Text((if first then [] else [DOT]) + PrintedLabel(lab, quoteok) + t, end)
        case other => other
  }

  /** Printing succeeds exactly on the names that decode to acceptable labels, and prints those. */
  lemma {:induction false} PrintsTheName(dg: seq<Byte>, f: Cursor, quoteok: bool, first: bool)
    ensures RestText(dg, f, quoteok, first).Text? <==>
            Rest(dg, f).Name? && (quoteok || AllHost(Rest(dg, f).labels))
    ensures RestText(dg, f, quoteok, first).Text? ==>
              RestText(dg, f, quoteok, first) ==
              Text(Printed(Rest(dg, f).labels, quoteok, first), Rest(dg, f).end)
    decreases DNS_MAXDOMAIN - f.namelen
  {
    var n := FindNext(dg, f);
    if n.Found? {
      PrintsTheName(dg, n.after, quoteok, false);
      var lab := dg[n.start..n.start + n.len];
      var r := Rest(dg, n.after);
      if r.Name? {
        assert Rest(dg, f).labels == [lab] + r.labels;
        assert Rest(dg, f).labels[0] == lab && Rest(dg, f).labels[1..] == r.labels;
      }
    }
  }

  lemma {:induction false} TextBadNotOk(dg: seq<Byte>, f: Cursor, quoteok: bool, first: bool)
    ensures match RestText(dg, f, quoteok, first) case TextBad(st, _) => st != Ok case _ => true
    decreases DNS_MAXDOMAIN - f.namelen
  {
    match FindNext(dg, f)
    case Found(_, _, after) => TextBadNotOk(dg, after, quoteok, false);
    case Bad(_, _) => NextBadNotOk(dg, f);
    case _ =>
  }

  // ---------- Reading ----------

  /** An owner name is a C string: the byte behind it is its terminator. */
  function At(s: seq<Byte>, p: nat): Byte { if p < |s| then s[p] else 0 }

  /** One byte of a label and the position behind it, escapes resolved. The three digits of an
      escape are read as DECIMAL (adns/transmit.c:117-119). */
  function ReadByte(s: seq<Byte>, p: nat, quoteok: bool): (r: Option<(Byte, nat)>)
    requires p < |s|
    ensures r.Some? ==> p < r.value.1 <= |s|
  {
    if s[p] == BACKSLASH then
      if !quoteok then None
      else if IsDigit(At(s, p + 1)) then
        if IsDigit(At(s, p + 2)) && IsDigit(At(s, p + 3)) then
          var c := (s[p + 1] - 48) as int * 100 + (s[p + 2] - 48) as int * 10 + (s[p + 3] - 48) as int;
          if c >= 256 then None else Some((c, p + 4))
        else None
      else if At(s, p + 1) == 0 then None
      else Some((s[p + 1], p + 2))
    else Some((s[p], p + 1))
  }

  predicate Allowed(c: Byte, first: bool) { if c == HYPHEN then !first else IsAlpha(c) || IsDigit(c) }

  /** Reads one label from `p` onto `acc`; the position returned is behind the dot, if any. */
  function ReadLabel(s: seq<Byte>, p: nat, quoteok: bool, acc: Label): (r: Result<(Label, nat)>)
    requires p <= |s|
    ensures r.Success? ==> p <= r.value.1 <= |s|
    ensures r.Success? && p < |s| ==> p < r.value.1
    ensures r.Failure? ==> r.status == QueryDomainInvalid
    decreases |s| - p
  {
    if p == |s| then Success((acc, p))
    else if s[p] == DOT then Success((acc, p + 1))
    else
      match ReadByte(s, p, quoteok)
      case None => Failure(QueryDomainInvalid)
      case Some((c, q)) =>
        if !quoteok && !Allowed(c, acc == []) then Failure(QueryDomainInvalid)
        else if |acc| == 255 then Failure(QueryDomainInvalid)
        else ReadLabel(s, q, quoteok, acc + [c])
  }

  /** Reads the labels from `p` on, `nbytes` wire bytes having been used before. */
  function ReadLabels(s: seq<Byte>, p: nat, quoteok: bool, nbytes: nat): (r: Result<seq<Label>>)
    requires p <= |s|
    ensures r.Failure? ==> r.status == QueryDomainInvalid || r.status == QueryDomainTooLong
    decreases |s| - p
  {
    if p == |s| then Success([])
    else
      match ReadLabel(s, p, quoteok, [])
      case Failure(st) => Failure(st)
      case Success((l, q)) =>
        if l == [] then Failure(QueryDomainInvalid)
        else if |l| > DNS_MAXLABEL then Failure(QueryDomainTooLong)
        else if nbytes + |l| + 1 >= DNS_MAXDOMAIN then Failure(QueryDomainTooLong)
        else
          match ReadLabels(s, q, quoteok, nbytes + |l| + 1)
          case Failure(st) => Failure(st)
          case Success(ls) => Success([l] + ls)
  }

  // ---------- The wire form ----------

  /** Uncompressed wire form without the final zero byte. */
  function Wire(ls: seq<Label>): (w: seq<Byte>)
    requires forall i :: 0 <= i < |ls| ==> |ls[i]| < 256
  {
    if ls == [] then [] else [|ls[0]|] + ls[0] + Wire(ls[1..])
  }

  predicate WireLabels(ls: seq<Label>) { forall i :: 0 <= i < |ls| ==> 1 <= |ls[i]| <= DNS_MAXLABEL }

  lemma {:induction false} WireLength(ls: seq<Label>, n: nat)
    requires WireLabels(ls)
    ensures Grown(n, ls) == n + |Wire(ls)| - (if n == 0 && ls != [] then 1 else 0)
    decreases |ls|
  {
    if ls != [] {
      WireLength(ls[1..], Extend(n, |ls[0]|));
    }
  }

  /** The bytes of `w` stand at offset `c`. */
  predicate Holds(dg: seq<Byte>, c: nat, w: seq<Byte>) { c + |w| <= |dg| && dg[c..c + |w|] == w }

  lemma HoldsParts(dg: seq<Byte>, c: nat, a: seq<Byte>, b: seq<Byte>)
    requires Holds(dg, c, a + b)
    ensures Holds(dg, c, a) && Holds(dg, c + |a|, b)
  {
    assert dg[c..c + |a|] == (a + b)[..|a|];
    assert dg[c + |a|..c + |a| + |b|] == (a + b)[|a|..];
  }

  lemma HoldsHead(dg: seq<Byte>, c: nat, b: Byte, w: seq<Byte>)
    requires Holds(dg, c, [b] + w)
    ensures dg[c] == b
  {
    assert dg[c] == dg[c..c + 1 + |w|][0];
  }

  /** A wire form starts with a length byte and the label. */
  lemma WireParts(dg: seq<Byte>, c: nat, ls: seq<Label>, tail: seq<Byte>)
    requires WireLabels(ls) && ls != [] && Holds(dg, c, Wire(ls) + tail)
    ensures dg[c] == |ls[0]| && Holds(dg, c + 1, ls[0]) && Holds(dg, c + 1 + |ls[0]|, Wire(ls[1..]) + tail)
  {
    hide Holds;
    var b: seq<Byte>, rest := [|ls[0]|], Wire(ls[1..]) + tail;
    assert Wire(ls) + tail == b + (ls[0] + rest);
    HoldsParts(dg, c, b, ls[0] + rest);
    HoldsParts(dg, c + 1, ls[0], rest);
    HoldsHead(dg, c, |ls[0]|, ls[0] + rest);
  }

  lemma {:induction false} WireSpells(dg: seq<Byte>, c: nat, ls: seq<Label>)
    requires WireLabels(ls) && Holds(dg, c, Wire(ls) + [0])
    ensures SpellsIn(dg, c, ls, |ls| + 1) && InlineEnd(dg, c) == c + |Wire(ls)| + 1
    decreases |ls|
  {
    if ls == [] {
      assert dg[c] == dg[c..c + 1][0];
    } else {
      WireParts(dg, c, ls, [0]);
      WireSpells(dg, c + 1 + |ls[0]|, ls[1..]);
      hide SpellsIn;
      hide InlineEnd;
      LabelSpells(dg, c, ls);
    }
  }

  lemma LabelSpells(dg: seq<Byte>, c: nat, ls: seq<Label>)
    requires ls != [] && 0 < |ls[0]| < 64 && c < |dg| && dg[c] == |ls[0]| && Holds(dg, c + 1, ls[0])
    requires SpellsIn(dg, c + 1 + |ls[0]|, ls[1..], |ls|)
    ensures SpellsIn(dg, c, ls, |ls| + 1) && InlineEnd(dg, c) == InlineEnd(dg, c + 1 + |ls[0]|)
  {
  }

  /** The cursor reads an uncompressed name back, wherever it stands in a datagram. */
  lemma WireDecodes(dg: seq<Byte>, f: Cursor, ls: seq<Label>)
    requires WireLabels(ls) && (Grown(f.namelen, ls) <= DNS_MAXDOMAIN || ls == [])
    requires Holds(dg, f.cbyte, Wire(ls) + [0]) && f.cbyte + |Wire(ls)| + 1 <= f.max
    ensures Rest(dg, f) == Name(ls, if f.armed then f.cbyte + |Wire(ls)| + 1 else f.dmend)
  {
    WireSpells(dg, f.cbyte, ls);
    RestComplete(dg, f, ls, |ls| + 1);
  }
}
