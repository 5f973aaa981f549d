/** Mailboxes as text (adns/types.c:1198-1273): the first label of the name is the local part, printed as
    RFC 822 section 6.1 wants it, bare or as a quoted string. */
module Mailboxes {
  import opened Basics
  import opened Names
  import opened Texts
  import opened Vbufs
  import opened Parse

  const AT: Byte := 64
  const QUOTE: Byte := 34
  const SPACE: Byte := 32

  predicate IsControl(c: Byte) { c % 128 < 32 || c % 128 == 127 }

  /** True of labels that pap_mailbox822 refuses. */
  predicate HasControl(l: seq<Byte>) { exists i :: 0 <= i < |l| && IsControl(l[i]) }

  predicate Is822Special(c: Byte) { c in {40, 41, 60, 62, 64, 44, 59, 58, 92, 34, 46, 91, 93} }

  /** RFC 822 section 3.3: an atom has no specials, space or controls. */
  predicate IsAtomByte(c: Byte) { 33 <= c <= 126 && !Is822Special(c) }

  predicate IsAtom(a: seq<Byte>) { a != [] && forall i :: 0 <= i < |a| ==> IsAtomByte(a[i]) }

  predicate AllAtoms(atoms: seq<seq<Byte>>) { forall i :: 0 <= i < |atoms| ==> IsAtom(atoms[i]) }

  function Dotted(atoms: seq<seq<Byte>>): seq<Byte>
  {
    if atoms == [] then [] else if |atoms| == 1 then atoms[0] else atoms[0] + [DOT] + Dotted(atoms[1..])
  }

  /** The label is atoms joined by dots. */
  ghost predicate IsDotAtom(l: seq<Byte>)
  {
    exists atoms: seq<seq<Byte>> :: atoms != [] && AllAtoms(atoms) && Dotted(atoms) == l
  }

  // ---------- Which labels stay bare ----------

  /** The counting scan: `neednorm` says that an atom has to start before the label may end or a dot follow. */
  datatype Scan = Scan(needquote: nat, neednorm: bool)

  function ScanByte(s: Scan, c: Byte): Scan
  {
    if c == DOT && !s.neednorm then s.(neednorm := true)
    else if c == SPACE || c >= 127 || Is822Special(c) then s.(needquote := s.needquote + 1)
    else s.(neednorm := false)
  }

  function Scanned(l: seq<Byte>): (s: Scan)
    ensures s.needquote <= |l|
  {
    if l == [] then Scan(0, true) else ScanByte(Scanned(l[..|l| - 1]), l[|l| - 1])
  }

  predicate Bare(l: seq<Byte>) { Scanned(l) == Scan(0, false) }

  lemma {:induction false} DottedSnoc(atoms: seq<seq<Byte>>, c: Byte)
    requires atoms != []
    ensures var more := atoms[..|atoms| - 1] + [atoms[|atoms| - 1] + [c]];
            Dotted(more) == Dotted(atoms) + [c]
  {
    var more := atoms[..|atoms| - 1] + [atoms[|atoms| - 1] + [c]];
    if |atoms| > 1 {
      DottedSnoc(atoms[1..], c);
      assert more[1..] == atoms[1..][..|atoms| - 2] + [atoms[|atoms| - 1] + [c]];
      assert more[0] == atoms[0];
    }
  }

  lemma {:induction false} DottedNext(atoms: seq<seq<Byte>>, a: seq<Byte>)
    requires atoms != []
    ensures Dotted(atoms + [a]) == Dotted(atoms) + [DOT] + a
  {
    if |atoms| > 1 {
      DottedNext(atoms[1..], a);
      assert (atoms + [a])[1..] == atoms[1..] + [a];
    } else {
      assert (atoms + [a])[1..] == [a];
    }
  }

  /** A scan without quoting has met atoms: complete ones if it may end here, otherwise with a dot, or
      nothing at all, behind them. */
  lemma {:induction false} ScanFindsAtoms(l: seq<Byte>) returns (atoms: seq<seq<Byte>>)
    requires Scanned(l).needquote == 0 && forall i :: 0 <= i < |l| ==> !IsControl(l[i])
    ensures AllAtoms(atoms)
    ensures if !Scanned(l).neednorm then atoms != [] && Dotted(atoms) == l
            else if l == [] then atoms == [] else atoms != [] && Dotted(atoms) + [DOT] == l
  {
    if l == [] {
      atoms := [];
    } else {
      var k, c := l[..|l| - 1], l[|l| - 1];
      assert l == k + [c];
      atoms := ScanFindsAtoms(k);
      if c == DOT {
      } else if Scanned(k).neednorm {
        if k == [] {
          atoms := [[c]];
          assert k + [c] == [c];
        } else {
          DottedNext(atoms, [c]);
          atoms := atoms + [[c]];
        }
      } else {
        DottedSnoc(atoms, c);
        atoms := atoms[..|atoms| - 1] + [atoms[|atoms| - 1] + [c]];
      }
    }
  }

  lemma {:induction false} ScanAtom(k: seq<Byte>, a: seq<Byte>)
    requires IsAtom(a) && Scanned(k).needquote == 0
    ensures Scanned(k + a) == Scan(0, false)
    decreases |a|
  {
    var b := a[..|a| - 1];
    assert (k + a)[..|k + a| - 1] == k + b && (k + a)[|k + a| - 1] == a[|a| - 1];
    if b == [] {
      assert k + b == k;
    } else {
      ScanAtom(k, b);
    }
  }

  lemma {:induction false} ScanDotted(k: seq<Byte>, atoms: seq<seq<Byte>>)
    requires atoms != [] && AllAtoms(atoms) && Scanned(k).needquote == 0
    ensures Scanned(k + Dotted(atoms)) == Scan(0, false)
    decreases |atoms|
  {
    ScanAtom(k, atoms[0]);
    if |atoms| > 1 {
      var k' := k + atoms[0] + [DOT];
      assert k'[..|k'| - 1] == k + atoms[0];
      ScanDotted(k', atoms[1..]);
      assert k' + Dotted(atoms[1..]) == k + Dotted(atoms);
    }
  }

  /** A label without controls stays bare if and only if it is atoms joined by dots. */
  lemma BareIsDotAtom(l: seq<Byte>)
    requires !HasControl(l)
    ensures Bare(l) <==> IsDotAtom(l)
  {
    if Bare(l) {
      var atoms := ScanFindsAtoms(l);
      assert atoms != [] && AllAtoms(atoms) && Dotted(atoms) == l;
    }
    if IsDotAtom(l) {
      var atoms :| atoms != [] && AllAtoms(atoms) && Dotted(atoms) == l;
      ScanDotted([], atoms);
      assert [] + l == l;
    }
  }

  // ---------- The printed local part ----------

  predicate Escapes(c: Byte) { c == QUOTE || c == BACKSLASH }

  function Escaped(l: seq<Byte>): seq<Byte>
  {
    if l == [] then [] else Escaped(l[..|l| - 1]) + EscapeOf(l[|l| - 1])
  }

  function EscapeOf(c: Byte): seq<Byte> { if Escapes(c) then [BACKSLASH, c] else [c] }

  function LocalPart(l: seq<Byte>): seq<Byte>
  {
    if Bare(l) then l else [QUOTE] + Escaped(l) + [QUOTE]
  }

  /** The escapes fit the room that the counting scan has found. */
  lemma {:induction false} EscapesFit(l: seq<Byte>)
    ensures |Escaped(l)| <= |l| + Scanned(l).needquote
  {
    if l != [] {
      EscapesFit(l[..|l| - 1]);
    }
  }

  /** Reading a quoted string from behind its opening quote (RFC 822 section 3.3): its contents, and the
      position behind its closing quote. */
  function ReadQuoted(t: seq<Byte>, p: nat, acc: seq<Byte>): Option<(seq<Byte>, nat)>
    decreases |t| - p
  {
    if p >= |t| then None
    else if t[p] == QUOTE then Some((acc, p + 1))
    else if t[p] == BACKSLASH then if p + 1 >= |t| then None else ReadQuoted(t, p + 2, acc + [t[p + 1]])
    else ReadQuoted(t, p + 1, acc + [t[p]])
  }

  /** Reading bare bytes up to the at sign. */
  function ReadBare(t: seq<Byte>, p: nat, acc: seq<Byte>): Option<(seq<Byte>, nat)>
    decreases |t| - p
  {
    if p >= |t| then None else if t[p] == AT then Some((acc, p)) else ReadBare(t, p + 1, acc + [t[p]])
  }

  /** Reading the local part of a mailbox: its bytes, and where it ends. */
  function ReadLocal(t: seq<Byte>): Option<(seq<Byte>, nat)>
  {
    if t != [] && t[0] == QUOTE then ReadQuoted(t, 1, []) else ReadBare(t, 0, [])
  }

  lemma EscapedStep(l: seq<Byte>, i: nat)
    requires i < |l|
    ensures var e, w := |Escaped(l[..i])|, Escaped(l);
            |Escaped(l[..i + 1])| <= |w| &&
            if Escapes(l[i]) then
              |Escaped(l[..i + 1])| == e + 2 && w[e] == BACKSLASH && w[e + 1] == l[i]
            else |Escaped(l[..i + 1])| == e + 1 && w[e] == l[i]
  {
    EscapedPrefix(l, i);
    assert l[..i + 1][..i] == l[..i];
    var e, piece := Escaped(l[..i]), EscapeOf(l[i]);
    assert Escaped(l)[|e|..|e| + |piece|][0] == piece[0];
    assert Escapes(l[i]) ==> Escaped(l)[|e|..|e| + |piece|][1] == piece[1];
  }

  lemma {:induction false} ReadsEscaped(t: seq<Byte>, p: nat, l: seq<Byte>, i: nat)
    requires i <= |l| && p + |Escaped(l)| < |t| && t[p..p + |Escaped(l)|] == Escaped(l) && t[p + |Escaped(l)|] == QUOTE
    ensures |Escaped(l[..i])| <= |Escaped(l)|
    ensures ReadQuoted(t, p + |Escaped(l[..i])|, l[..i]) == Some((l, p + |Escaped(l)| + 1))
    decreases |l| - i
  {
    hide Escaped;
    if i == |l| {
      assert l[..i] == l;
    } else {
      ReadsEscaped(t, p, l, i + 1);
      EscapedStep(l, i);
      assert l[..i + 1] == l[..i] + [l[i]];
      var e := |Escaped(l[..i])|;
      assert t[p + e] == t[p..p + |Escaped(l)|][e];
      if Escapes(l[i]) {
        assert t[p + e + 1] == t[p..p + |Escaped(l)|][e + 1];
        ReadsEscape(t, p + e, l[..i], l[i]);
      }
    }
  }

  lemma ReadsEscape(t: seq<Byte>, p: nat, acc: seq<Byte>, c: Byte)
    requires p + 1 < |t| && t[p] == BACKSLASH && t[p + 1] == c
    ensures ReadQuoted(t, p, acc) == ReadQuoted(t, p + 2, acc + [c])
  {
  }

  /** The escaped prefixes of a label are prefixes of the escaped label. */
  lemma {:induction false} EscapedPrefix(l: seq<Byte>, i: nat)
    requires i < |l|
    ensures var e, piece := Escaped(l[..i]), EscapeOf(l[i]);
            |e| + |piece| <= |Escaped(l)| && Escaped(l)[|e|..|e| + |piece|] == piece
    decreases |l|
  {
    var k := l[..|l| - 1];
    if i < |l| - 1 {
      EscapedPrefix(k, i);
      assert k[..i] == l[..i];
    }
  }

  lemma {:induction false} ReadsBare(t: seq<Byte>, l: seq<Byte>, i: nat)
    requires i <= |l| < |t| && t[..|l|] == l && t[|l|] == AT && forall k :: 0 <= k < |l| ==> l[k] != AT
    ensures ReadBare(t, i, l[..i]) == Some((l, |l|))
    decreases |l| - i
  {
    if i == |l| {
      assert l[..i] == l;
    } else {
      ReadsBare(t, l, i + 1);
      assert t[i] == t[..|l|][i] && l[..i + 1] == l[..i] + [l[i]];
    }
  }

  lemma {:induction false} BareBytes(l: seq<Byte>)
    requires Scanned(l).needquote == 0
    ensures forall k :: 0 <= k < |l| ==> l[k] == DOT || !Is822Special(l[k])
  {
    if l != [] {
      BareBytes(l[..|l| - 1]);
    }
  }

  /** Whatever the label, the local part is read back from a mailbox as the label's own bytes. */
  lemma LocalPartRoundTrip(l: seq<Byte>, domain: seq<Byte>)
    ensures ReadLocal(LocalPart(l) + [AT] + domain) == Some((l, |LocalPart(l)|))
  {
    if Bare(l) {
      BareReads(l, domain);
    } else {
      QuotedReads(l, domain);
    }
  }

  lemma BareReads(l: seq<Byte>, domain: seq<Byte>)
    requires Bare(l)
    ensures ReadLocal(l + [AT] + domain) == Some((l, |l|))
  {
    var t := l + [AT] + domain;
    BareBytes(l);
    assert l != [] && l[..0] == [] && t[0] == l[0] && t[..|l|] == l;
    hide Scanned;
    ReadsBare(t, l, 0);
  }

  lemma QuotedReads(l: seq<Byte>, domain: seq<Byte>)
    ensures ReadLocal([QUOTE] + Escaped(l) + [QUOTE] + [AT] + domain) == Some((l, |Escaped(l)| + 2))
  {
    var e := Escaped(l);
    assert l[..0] == [] && Escaped([]) == [];
    hide Escaped;
    var t := [QUOTE] + e + [QUOTE] + [AT] + domain;
    assert t[1..1 + |e|] == e && t[1 + |e|] == QUOTE && t[0] == QUOTE;
    ReadsEscaped(t, 1, l, 0);
    hide ReadQuoted;
  }

  // ---------- The printer ----------

  // The counting scan (adns/types.c:1221-1233).
  method CountQuotes(l: seq<Byte>) returns (ok: bool, needquote: nat, neednorm: bool)
    ensures ok == !HasControl(l) && (ok ==> Scanned(l) == Scan(needquote, neednorm))
  {
    hide IsControl;
    neednorm, needquote := true, 0;
    var i := 0;
    while i < |l|
      invariant 0 <= i <= |l| && (forall k :: 0 <= k < i ==> !IsControl(l[k]))
      invariant Scanned(l[..i]) == Scan(needquote, neednorm)
    {
      var c := l[i];
      assert l[..i + 1][..i] == l[..i];
      if IsControl(c) {
        return false, 0, false;
      }
      if c == DOT && !neednorm {
        neednorm := true;
      } else if c == SPACE || c >= 127 || Is822Special(c) {
        needquote := needquote + 1;
      } else {
        neednorm := false;
      }
      i := i + 1;
    }
    assert l[..i] == l;
    ok := true;
  }

  // The local part of the mailbox (adns/types.c:1221-1255). Escapes are written without further checks. The length
  // of the label may be negative, and then counts as zero except where room is reserved.
  method AppendLocal(vb: Vbuf, l: seq<Byte>, lablen: int) returns (ok: bool)
    requires vb.Valid() && vb.used == 0 && (lablen == |l| || (l == [] && lablen < 0 && 2 <= Max(vb.avail, lablen + 4)))
    modifies vb, vb.buf
    ensures vb.Valid() && (vb.buf == old(vb.buf) || fresh(vb.buf))
    ensures ok == !HasControl(l) && (ok ==> vb.Contents() == LocalPart(l))
  {
    hide Scanned;
    hide Escaped;
    var needquote, neednorm;
    ok, needquote, neednorm := CountQuotes(l);
    if !ok {
      return;
    }
    if needquote > 0 || neednorm {
      vb.Ensure(Max(0, lablen + needquote + 4));
      EscapesFit(l);
      NoEscapes();
      AppendQuoted(vb, l);
    } else {
      NotBare();
      vb.Append(l);
      assert [] + l == l;
    }
  }

  lemma NoEscapes()
    ensures Escaped([]) == []
  {
  }

  lemma NotBare()
    ensures Scanned([]) == Scan(0, true)
  {
  }

  method AppendQuoted(vb: Vbuf, l: seq<Byte>)
    requires vb.Valid() && vb.used == 0 && |Escaped(l)| + 2 <= vb.avail
    modifies vb, vb.buf
    ensures vb.Valid() && vb.buf == old(vb.buf) && vb.Contents() == [QUOTE] + Escaped(l) + [QUOTE]
  {
    hide Escaped;
    vb.AppendQ([QUOTE]);
    assert vb.Contents() == [QUOTE];
    AppendEscaped(vb, l);
    vb.AppendQ([QUOTE]);
  }

  method AppendEscaped(vb: Vbuf, l: seq<Byte>)
    requires vb.Valid() && vb.used + |Escaped(l)| <= vb.avail
    modifies vb, vb.buf
    ensures vb.Valid() && vb.buf == old(vb.buf) && vb.avail == old(vb.avail)
    ensures vb.Contents() == old(vb.Contents()) + Escaped(l)
  {
    assert l[..0] == [] && Escaped([]) == [];
    hide Escaped;
    var i := 0;
    while i < |l|
      invariant 0 <= i <= |l| && vb.Valid() && vb.buf == old(vb.buf) && vb.avail == old(vb.avail)
      invariant vb.Contents() == old(vb.Contents()) + Escaped(l[..i])
    {
      EscapedMore(l, i);
      ghost var was, e := old(vb.Contents()), Escaped(l[..i]);
      AppendEscape(vb, l[i]);
      assert was + e + EscapeOf(l[i]) == was + (e + EscapeOf(l[i]));
      i := i + 1;
    }
    assert l[..i] == l;
  }

  method AppendEscape(vb: Vbuf, c: Byte)
    requires vb.Valid() && vb.used + |EscapeOf(c)| <= vb.avail
    modifies vb, vb.buf
    ensures vb.Valid() && vb.buf == old(vb.buf) && vb.avail == old(vb.avail)
    ensures vb.Contents() == old(vb.Contents()) + EscapeOf(c)
  {
    if c == QUOTE || c == BACKSLASH {
      vb.AppendQ([BACKSLASH]);
    }
    vb.AppendQ([c]);
  }

  lemma EscapedMore(l: seq<Byte>, i: nat)
    requires i < |l|
    ensures Escaped(l[..i + 1]) == Escaped(l[..i]) + EscapeOf(l[i])
    ensures |Escaped(l[..i + 1])| <= |Escaped(l)|
  {
    assert l[..i + 1][..i] == l[..i];
    EscapedPrefix(l, i);
  }

  datatype Mailbox =
    | Mailbox(text: seq<Byte>, end: nat)
    | MailboxBad(status: Status)
    | MailboxDiverges

  /** The mailbox with this label in front of the rest of a name. A name that is cut off becomes the empty string. */
  ghost function Addressed(dg: seq<Byte>, lab: seq<Byte>, after: Cursor): Mailbox
  {
    if HasControl(lab) then MailboxBad(InvalidData)
    else
      match RestText(dg, after, false, true)
      case Text(t, end) => Mailbox(LocalPart(lab) + [AT] + t + [0], end)
      case TextTruncated(end) => Mailbox([], end)
      case TextBad(st, _) => MailboxBad(st)
      case TextDiverges => MailboxDiverges
  }

  /** What stands where the two variables point, if they make sense. */
  function StrayLabel(dg: seq<Byte>, lablen0: int, labstart0: nat): seq<Byte>
  {
    if lablen0 < 0 || labstart0 + lablen0 > |dg| then [] else dg[labstart0..labstart0 + lablen0]
  }

  /** What pap_mailbox822 makes of the name at `c`: the bytes it collects, and where the name ends. The status of the
      first label is not looked at (adns/types.c:1213); when that is an error, the function goes on with whatever
      stands in its variables for the label, `lablen0` and `labstart0`. */
  ghost function MailboxAt(dg: seq<Byte>, c: nat, max: int, lablen0: int, labstart0: nat): Mailbox
  {
    match FindNext(dg, Start(c, max))
    case Diverges => MailboxDiverges
    case End(after) => Mailbox([DOT], after.dmend)
    case Truncated(end) => Mailbox([], end)
    case Found(s, l, after) => Addressed(dg, dg[s..s + l], after)
    case Bad(_, at) =>
      if lablen0 == 0 then Mailbox([DOT], at.dmend) else Addressed(dg, StrayLabel(dg, lablen0, labstart0), at)
  }

  /** The variables stay inside the datagram and the buffer. */
  predicate InBounds(dg: seq<Byte>, avail: nat, lablen0: int, labstart0: nat)
  {
    if lablen0 < 0 then 2 <= Max(avail, lablen0 + 4) else labstart0 + lablen0 <= |dg|
  }

  lemma StillTruncated(dg: seq<Byte>, f: Cursor)
    requires f.cbyte >= |dg|
    ensures RestText(dg, f, false, true) == TextTruncated(f.dmend)
  {
    FindNextStep(dg, f);
  }

  // pap_mailbox822. The string is copied with a terminating zero byte.
  method PapMailbox822(vb: Vbuf, dgram: seq<Byte>, c: nat, max: int, lablen0: int, labstart0: nat)
    returns (st: Status, str: seq<Byte>, end: nat)
    requires vb.Valid() && !MailboxAt(dgram, c, max, lablen0, labstart0).MailboxDiverges?
    requires FindNext(dgram, Start(c, max)).Bad? ==> InBounds(dgram, vb.avail, lablen0, labstart0)
    modifies vb, vb.buf
    ensures vb.Valid() && (vb.buf == old(vb.buf) || fresh(vb.buf))
    ensures match MailboxAt(dgram, c, max, lablen0, labstart0)
            case Mailbox(text, e) => st == Ok && str == text + [0] && end == e
            case MailboxBad(e) => st == e && st != Ok
  {
    hide FindNext;
    hide RestText;
    hide LocalPart;
    hide HasControl;
    str, end := [], 0;
    vb.used := 0;
    var fls := new FindLabelState(dgram, max, c, true);
    var st1, lablen, labstart := fls.Next();
    if st1 != Ok {
      lablen, labstart := lablen0, labstart0;  // not written
    }
    if lablen == 0 {
      vb.Append([DOT]);
    } else {
      var lab := if lablen < 0 then [] else dgram[labstart..labstart + lablen];
      if st1 == Ok && lablen < 0 {
        StillTruncated(dgram, fls.Abs());
        NoControl();
      }
      var ok := AppendLocal(vb, lab, lablen);
      if !ok {
        return InvalidData, str, end;
      }
      vb.Append([AT]);
      st := ParseDomainMore(fls, vb, false);
      if st != Ok {
        return;
      }
    }
    st := Ok;
    str := vb.buf[..vb.used] + [0];
    end := fls.dmend;
  }

  lemma NoControl()
    ensures !HasControl([])
  {
  }

  // ---------- What becomes of errors ----------

  lemma AddressedIsNoDot(dg: seq<Byte>, lab: seq<Byte>, after: Cursor, end: nat)
    ensures Addressed(dg, lab, after) != Mailbox([DOT], end)
  {
    hide RestText;
    if !HasControl(lab) && RestText(dg, after, false, true).Text? {
      var t := LocalPart(lab) + [AT] + RestText(dg, after, false, true).text + [0];
      assert |t| >= 2;
    }
  }

  /** The outcome depends on the first label alone, and not on what stands in the variables, if and only if the first
      label is not in error. */
  lemma StrayDecides(dg: seq<Byte>, c: nat, max: int)
    ensures (forall l: int, s: nat :: MailboxAt(dg, c, max, l, s) == MailboxAt(dg, c, max, 0, 0)) <==>
            !FindNext(dg, Start(c, max)).Bad?
  {
    hide FindNext;
    hide Addressed;
    var n := FindNext(dg, Start(c, max));
    if n.Bad? {
      AddressedIsNoDot(dg, StrayLabel(dg, -1, 0), n.at, n.at.dmend);
      assert MailboxAt(dg, c, max, -1, 0) != MailboxAt(dg, c, max, 0, 0);
    }
  }

  /** An error in the first label can come out as success: with zero in the length it always does. */
  lemma ErrorsAreLost(dg: seq<Byte>, c: nat, max: int, s: nat)
    requires FindNext(dg, Start(c, max)).Bad?
    ensures MailboxAt(dg, c, max, 0, s) == Mailbox([DOT], FindNext(dg, Start(c, max)).at.dmend)
  {
  }

  /** One byte that starts no name: its status is lost. */
  lemma UnknownFormatIsLost(s: nat)
    ensures NameAt([64], 0, 1) == NameBad(UnknownFormat) && MailboxAt([64], 0, 1, 0, s) == Mailbox([DOT], 0)
  {
    FindNextStep([64], Start(0, 1));
  }

  /** The label that the mailbox is made with, and where the rest of its name starts. */
  ghost function FirstLabel(dg: seq<Byte>, c: nat, max: int, lablen0: int, labstart0: nat): Option<(seq<Byte>, Cursor)>
  {
    match FindNext(dg, Start(c, max))
    case Found(s, l, after) => Some((dg[s..s + l], after))
    case Bad(_, at) => if lablen0 == 0 then None else Some((StrayLabel(dg, lablen0, labstart0), at))
    case _ => None
  }

  /** The string is empty, with a status of success, if and only if the name is cut off. */
  lemma EmptyIsCutOff(dg: seq<Byte>, c: nat, max: int, lablen0: int, labstart0: nat)
    ensures var m, l := MailboxAt(dg, c, max, lablen0, labstart0), FirstLabel(dg, c, max, lablen0, labstart0);
            m.Mailbox? && m.text == [] <==>
            FindNext(dg, Start(c, max)).Truncated? ||
            (l.Some? && !HasControl(l.value.0) && RestText(dg, l.value.1, false, true).TextTruncated?)
  {
    hide FindNext;
    hide RestText;
    hide HasControl;
    hide LocalPart;
  }
}
