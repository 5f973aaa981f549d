/** Reading a name in memory (adns/transmit.c:104-155). The scan stops where it meets the end of the name and nowhere
    else, and an escape may lead it past that: what it does then depends on the bytes that stand behind the name. */
module Scans {
  import opened Basics
  import opened Texts

  // ---------- The scan ----------

  datatype Piece =
    | Piece(c: Byte, next: nat)
    | BadPiece
    | OffPiece  // the bytes given do not tell

  /** One byte of a label, its escape resolved. */
  function PieceAt(mem: seq<Byte>, p: nat, quoteok: bool): (r: Piece)
    requires p < |mem|
    ensures r.Piece? ==> p < r.next <= |mem|
  {
    if mem[p] != BACKSLASH then Piece(mem[p], p + 1)
    else if !quoteok then BadPiece
    else if p + 1 >= |mem| then OffPiece
    else if IsDigit(mem[p + 1]) then
      if p + 2 >= |mem| then OffPiece
      else if !IsDigit(mem[p + 2]) then BadPiece
      else if p + 3 >= |mem| then OffPiece
      else if !IsDigit(mem[p + 3]) then BadPiece
      else
        var c := (mem[p + 1] - 48) as int * 100 + (mem[p + 2] - 48) as int * 10 + (mem[p + 3] - 48) as int;
        if c >= 256 then BadPiece else Piece(c, p + 4)
    else if mem[p + 1] == 0 then BadPiece
    else Piece(mem[p + 1], p + 2)
  }

  datatype Scan =
    | Scanned(lab: Label, next: nat)
    | Refused(status: Status)
    | Astray  // the scan leaves the bytes given

  /** One label, with the dot behind it, of the name that ends at `ol`. */
  function ScanFrom(mem: seq<Byte>, ol: nat, p: nat, quoteok: bool, acc: Label): (r: Scan)
    requires p <= |mem|
    ensures r.Scanned? ==> p <= r.next <= |mem| && (p != ol ==> p < r.next)
    ensures r.Refused? ==> r.status == QueryDomainInvalid
    decreases |mem| - p
  {
    if p == ol then Scanned(acc, p)
    else if p == |mem| then Astray
    else if mem[p] == DOT then Scanned(acc, p + 1)
    else
      match PieceAt(mem, p, quoteok)
      case BadPiece => Refused(QueryDomainInvalid)
      case OffPiece => Astray
      case Piece(c, q) =>
        if !quoteok && !Allowed(c, acc == []) then Refused(QueryDomainInvalid)
        else if |acc| == 255 then Refused(QueryDomainInvalid)
        else ScanFrom(mem, ol, q, quoteok, acc + [c])
  }

  datatype Encoding =
    | Encoding(status: Status, ls: seq<Label>)  // the labels written before the end, or before an error
    | EncodesAstray

  /** Encodes the labels from `p` on, `nbytes` wire bytes having been used before. */
  function Encode(mem: seq<Byte>, ol: nat, p: nat, quoteok: bool, nbytes: nat): (r: Encoding)
    requires p <= |mem|
    decreases |mem| - p
  {
    if p == ol then Encoding(Ok, [])
    else
      match ScanFrom(mem, ol, p, quoteok, [])
      case Astray => EncodesAstray
      case Refused(st) => Encoding(st, [])
      case Scanned(l, q) =>
        var st := LabelStatus(l, nbytes);
        if st != Ok then Encoding(st, []) else With([l], Encode(mem, ol, q, quoteok, nbytes + |l| + 1))
  }

  /** The checks of a label (adns/transmit.c:149-155). */
  function LabelStatus(l: Label, nbytes: nat): Status
  {
    if l == [] then QueryDomainInvalid
    else if |l| > DNS_MAXLABEL then QueryDomainTooLong
    else if nbytes + |l| + 1 >= DNS_MAXDOMAIN then QueryDomainTooLong
    else Ok
  }

  function With(ls: seq<Label>, rest: Encoding): Encoding
  {
    if rest.Encoding? then Encoding(rest.status, ls + rest.ls) else rest
  }

  lemma WithNothing(rest: Encoding)
    ensures With([], rest) == rest
  {
    if rest.Encoding? {
      assert [] + rest.ls == rest.ls;
    }
  }

  lemma WithBoth(a: seq<Label>, b: seq<Label>, rest: Encoding)
    ensures With(a, With(b, rest)) == With(a + b, rest)
  {
    if rest.Encoding? {
      assert a + (b + rest.ls) == (a + b) + rest.ls;
    }
  }

  /** What is written are labels of the wire. */
  lemma {:induction false} EncodesLabels(mem: seq<Byte>, ol: nat, p: nat, quoteok: bool, nbytes: nat)
    requires p <= |mem|
    ensures var e := Encode(mem, ol, p, quoteok, nbytes); e.Encoding? ==> WireLabels(e.ls)
    decreases |mem| - p
  {
    hide ScanFrom;
    if p != ol {
      var r := ScanFrom(mem, ol, p, quoteok, []);
      if r.Scanned? && LabelStatus(r.lab, nbytes) == Ok {
        EncodesLabels(mem, ol, r.next, quoteok, nbytes + |r.lab| + 1);
      }
    }
  }

  // ---------- What is meant ----------

  /** The encoding of the name as a C string, with its terminator behind it. */
  function Intended(s: seq<Byte>, quoteok: bool): Encoding { Encode(s + [0], |s|, 0, quoteok, 0) }

  lemma {:induction false} TerminatedScan(s: seq<Byte>, p: nat, quoteok: bool, acc: Label)
    requires p <= |s|
    ensures match ReadLabel(s, p, quoteok, acc)
            case Success((l, q)) => ScanFrom(s + [0], |s|, p, quoteok, acc) == Scanned(l, q)
            case Failure(st) => ScanFrom(s + [0], |s|, p, quoteok, acc) == Refused(st)
    decreases |s| - p
  {
    if p < |s| && s[p] != DOT {
      TerminatedPiece(s, p, quoteok);
      var b := ReadByte(s, p, quoteok);
      if b.Some? {
        TerminatedScan(s, b.value.1, quoteok, acc + [b.value.0]);
      }
      hide ReadByte;
      hide PieceAt;
    }
  }

  lemma TerminatedPiece(s: seq<Byte>, p: nat, quoteok: bool)
    requires p < |s|
    ensures match ReadByte(s, p, quoteok)
            case Some((c, q)) => PieceAt(s + [0], p, quoteok) == Piece(c, q)
            case None => PieceAt(s + [0], p, quoteok) == BadPiece
  {
  }

  lemma {:induction false} TerminatedEncodes(s: seq<Byte>, p: nat, quoteok: bool, nbytes: nat)
    requires p <= |s|
    ensures var e := Encode(s + [0], |s|, p, quoteok, nbytes);
            e.Encoding? &&
            match ReadLabels(s, p, quoteok, nbytes)
            case Success(ls) => e == Encoding(Ok, ls)
            case Failure(st) => e.status == st
    decreases |s| - p
  {
    hide ScanFrom;
    hide ReadLabel;
    if p < |s| {
      TerminatedScan(s, p, quoteok, []);
      var r := ReadLabel(s, p, quoteok, []);
      if r.Success? && LabelStatus(r.value.0, nbytes) == Ok {
        TerminatedEncodes(s, r.value.1, quoteok, nbytes + |r.value.0| + 1);
      }
    }
  }

  /** What is meant is what the text says. */
  lemma IntendedReads(s: seq<Byte>, quoteok: bool)
    ensures var e := Intended(s, quoteok);
            e.Encoding? && WireLabels(e.ls) &&
            match ReadLabels(s, 0, quoteok, 0)
            case Success(ls) => e == Encoding(Ok, ls)
            case Failure(st) => e.status == st
  {
    TerminatedEncodes(s, 0, quoteok, 0);
    EncodesLabels(s + [0], |s|, 0, quoteok, 0);
    hide Encode;
  }

  lemma {:induction false} ScanSpan(s: seq<Byte>, p: nat, quoteok: bool, acc: Label)
    requires p <= |s| && ScanFrom(s + [0], |s|, p, quoteok, acc).Scanned?
    ensures var r := ScanFrom(s + [0], |s|, p, quoteok, acc);
            r.next <= |s| && |r.lab| - |acc| + (if r.next < |s| then 1 else 0) <= r.next - p
    decreases |s| - p
  {
    if p < |s| && s[p] != DOT {
      var mem := s + [0];
      assert mem[p] == s[p];
      var piece := PieceAt(mem, p, quoteok);
      PieceInside(s, p, quoteok);
      hide PieceAt;
      ScanSpan(s, piece.next, quoteok, acc + [piece.c]);
    }
  }

  lemma PieceInside(s: seq<Byte>, p: nat, quoteok: bool)
    requires p < |s|
    ensures PieceAt(s + [0], p, quoteok).Piece? ==> PieceAt(s + [0], p, quoteok).next <= |s|
  {
  }

  lemma {:induction false} EncodeSpan(s: seq<Byte>, p: nat, quoteok: bool, nbytes: nat)
    requires p <= |s|
    ensures var e := Encode(s + [0], |s|, p, quoteok, nbytes);
            e.Encoding? && WireLabels(e.ls) ==>
              p + |Wire(e.ls)| <= |s| + (if e.ls != [] && e.status == Ok then 1 else 0)
    decreases |s| - p
  {
    hide ScanFrom;
    if p < |s| {
      var r := ScanFrom(s + [0], |s|, p, quoteok, []);
      if r.Scanned? && LabelStatus(r.lab, nbytes) == Ok {
        ScanSpan(s, p, quoteok, []);
        EncodeSpan(s, r.next, quoteok, nbytes + |r.lab| + 1);
        var rest := Encode(s + [0], |s|, r.next, quoteok, nbytes + |r.lab| + 1);
        if rest.Encoding? {
          WithHead(r.lab, rest.ls);
        }
      }
    }
  }

  lemma WithHead(l: Label, ls: seq<Label>)
    requires 1 <= |l| <= DNS_MAXLABEL
    ensures WireLabels([l] + ls) <==> WireLabels(ls)
    ensures WireLabels(ls) ==> |Wire([l] + ls)| == 1 + |l| + |Wire(ls)|
  {
    assert ([l] + ls)[1..] == ls && ([l] + ls)[0] == l;
    if WireLabels([l] + ls) {
      forall i | 0 <= i < |ls| ensures 1 <= |ls[i]| <= DNS_MAXLABEL {
        assert ls[i] == ([l] + ls)[i + 1];
      }
    }
  }

  /** The reservation of `ol + 2` bytes suffices for it, the final zero included. */
  lemma IntendedFits(s: seq<Byte>, quoteok: bool)
    ensures var e := Intended(s, quoteok); e.Encoding? && WireLabels(e.ls) && |Wire(e.ls)| + 1 <= |s| + 2
  {
    IntendedReads(s, quoteok);
    EncodeSpan(s, 0, quoteok, 0);
    hide Encode;
  }

  // ---------- When the scan stays inside ----------

  /** The scan of the name in memory comes to what is meant. */
  predicate StaysInside(mem: seq<Byte>, ol: nat, quoteok: bool)
  {
    ol <= |mem| && Encode(mem, ol, 0, quoteok, 0) == Intended(mem[..ol], quoteok)
  }

  /** The escape at `p` is not finished at the end of the name. */
  predicate Unfinished(s: seq<Byte>, p: nat)
    requires p < |s|
  {
    p + 1 == |s| || (IsDigit(s[p + 1]) && (p + 2 == |s| || (IsDigit(s[p + 2]) && p + 3 == |s|)))
  }

  /** Where the unfinished escape starts that the name ends in, if it does. */
  function OpenEscape(s: seq<Byte>, p: nat): (e: Option<nat>)
    requires p <= |s|
    ensures e.Some? ==> p <= e.value < |s| && s[e.value] == BACKSLASH && Unfinished(s, e.value)
    decreases |s| - p
  {
    if p == |s| then None
    else if s[p] != BACKSLASH then OpenEscape(s, p + 1)
    else if Unfinished(s, p) then Some(p)
    else if !IsDigit(s[p + 1]) then OpenEscape(s, p + 2)
    else if IsDigit(s[p + 2]) && IsDigit(s[p + 3]) then OpenEscape(s, p + 4)
    else None  // no escape
  }

  /** True when nothing is refused before the escape: reading what stands before it does not come to an end there. */
  predicate ReadsUpTo(s: seq<Byte>, e: nat)
    requires e <= |s|
  {
    Encode(s[..e], e + 1, 0, true, 0).EncodesAstray?
  }

  /** The name ends inside an escape, and the scan gets there. */
  predicate EndsInside(s: seq<Byte>, quoteok: bool)
  {
    quoteok && OpenEscape(s, 0).Some? && ReadsUpTo(s, OpenEscape(s, 0).value)
  }

  /** Bytes behind a piece that the name finishes make no difference. */
  lemma PieceAlike(s: seq<Byte>, behind: seq<Byte>, p: nat, quoteok: bool)
    requires p < |s| && !PieceAt(s, p, quoteok).OffPiece?
    ensures PieceAt(s + behind, p, quoteok) == PieceAt(s, p, quoteok)
  {
  }

  lemma {:induction false} ScanAlike(s: seq<Byte>, behind: seq<Byte>, p: nat, quoteok: bool, acc: Label)
    requires p <= |s| && !ScanFrom(s, |s|, p, quoteok, acc).Astray?
    ensures ScanFrom(s + behind, |s|, p, quoteok, acc) == ScanFrom(s, |s|, p, quoteok, acc)
    decreases |s| - p
  {
    hide PieceAt;
    if p < |s| && s[p] != DOT {
      PieceAlike(s, behind, p, quoteok);
      var piece := PieceAt(s, p, quoteok);
      if piece.Piece? && (quoteok || Allowed(piece.c, acc == [])) && |acc| != 255 {
        ScanAlike(s, behind, piece.next, quoteok, acc + [piece.c]);
      }
    }
  }

  lemma {:induction false} EncodeAlike(s: seq<Byte>, behind: seq<Byte>, p: nat, quoteok: bool, nbytes: nat)
    requires p <= |s| && Encode(s, |s|, p, quoteok, nbytes).Encoding?
    ensures Encode(s + behind, |s|, p, quoteok, nbytes) == Encode(s, |s|, p, quoteok, nbytes)
    decreases |s| - p
  {
    hide ScanFrom;
    if p < |s| {
      ScanAlike(s, behind, p, quoteok, []);
      var r := ScanFrom(s, |s|, p, quoteok, []);
      if r.Scanned? && LabelStatus(r.lab, nbytes) == Ok {
        EncodeAlike(s, behind, r.next, quoteok, nbytes + |r.lab| + 1);
      }
    }
  }

  /** Without quoting there are no escapes to finish. */
  lemma {:induction false} BareScanStays(s: seq<Byte>, p: nat, acc: Label)
    requires p <= |s|
    ensures !ScanFrom(s, |s|, p, false, acc).Astray?
    decreases |s| - p
  {
    if p < |s| && s[p] != DOT {
      var piece := PieceAt(s, p, false);
      if piece.Piece? {
        BareScanStays(s, piece.next, acc + [piece.c]);
      }
    }
  }

  lemma {:induction false} BareEncodeStays(s: seq<Byte>, p: nat, nbytes: nat)
    requires p <= |s|
    ensures Encode(s, |s|, p, false, nbytes).Encoding?
    decreases |s| - p
  {
    hide ScanFrom;
    if p < |s| {
      BareScanStays(s, p, []);
      var r := ScanFrom(s, |s|, p, false, []);
      if r.Scanned? && LabelStatus(r.lab, nbytes) == Ok {
        BareEncodeStays(s, r.next, nbytes + |r.lab| + 1);
      }
    }
  }

  /** How the next piece stands to an unfinished escape. */
  lemma PieceBefore(s: seq<Byte>, p: nat)
    requires p < |s|
    ensures var e, piece := OpenEscape(s, p), PieceAt(s, p, true);
            (piece.OffPiece? <==> e == Some(p)) && (piece.Piece? ==> OpenEscape(s, piece.next) == e) &&
            (e.Some? && e.value != p && piece.Piece? ==> piece.next <= e.value) &&
            (e.Some? && e.value != p ==> PieceAt(s[..e.value], p, true) == piece)
  {
    var e := OpenEscape(s, p);
    if s[p] == BACKSLASH && !Unfinished(s, p) {
      var q := if IsDigit(s[p + 1]) then p + 4 else p + 2;
      if e.Some? {
        assert e == OpenEscape(s, q);
        var t := s[..e.value];
        assert forall i :: 0 <= i < e.value ==> t[i] == s[i];
      }
    }
  }

  lemma {:induction false} ScanBefore(s: seq<Byte>, p: nat, acc: Label)
    requires p <= |s|
    ensures var e, r := OpenEscape(s, p), ScanFrom(s, |s|, p, true, acc);
            (r.Scanned? ==> OpenEscape(s, r.next) == e) &&
            if e.None? then !r.Astray?
            else ScanFrom(s[..e.value], e.value + 1, p, true, acc) == r && (r.Scanned? ==> r.next <= e.value)
    decreases |s| - p
  {
    hide PieceAt;
    var e := OpenEscape(s, p);
    if p < |s| {
      PieceBefore(s, p);
      if e.Some? && p < e.value {
        assert s[..e.value][p] == s[p];
      }
      if s[p] == DOT {
        assert e == OpenEscape(s, p + 1);
      } else {
        var piece := PieceAt(s, p, true);
        if piece.Piece? && |acc| != 255 {
          ScanBefore(s, piece.next, acc + [piece.c]);
        }
      }
    }
  }

  lemma {:induction false} EncodeBefore(s: seq<Byte>, p: nat, nbytes: nat)
    requires p <= |s|
    ensures var e := OpenEscape(s, p);
            Encode(s, |s|, p, true, nbytes).EncodesAstray? <==>
            e.Some? && Encode(s[..e.value], e.value + 1, p, true, nbytes).EncodesAstray?
    decreases |s| - p
  {
    hide ScanFrom;
    hide OpenEscape;
    var e := OpenEscape(s, p);
    if p < |s| {
      ScanBefore(s, p, []);
      var r := ScanFrom(s, |s|, p, true, []);
      if r.Scanned? && LabelStatus(r.lab, nbytes) == Ok {
        EncodeBefore(s, r.next, nbytes + |r.lab| + 1);
      }
    } else {
      NothingOpen(s);
    }
  }

  lemma NothingOpen(s: seq<Byte>)
    ensures OpenEscape(s, |s|).None?
  {
  }

  lemma AstrayInside(s: seq<Byte>, quoteok: bool)
    ensures Encode(s, |s|, 0, quoteok, 0).EncodesAstray? <==> EndsInside(s, quoteok)
  {
    if quoteok {
      EncodeBefore(s, 0, 0);
    } else {
      BareEncodeStays(s, 0, 0);
    }
    hide Encode;
    hide OpenEscape;
  }

  /** Whatever bytes stand behind a name, even if there are none, the scan comes to what is meant, if and only if the
      name does not end inside an escape. */
  lemma ScansOnlyTheName(s: seq<Byte>, quoteok: bool)
    ensures (forall behind: seq<Byte> :: Encode(s + behind, |s|, 0, quoteok, 0) == Intended(s, quoteok)) <==>
            !EndsInside(s, quoteok)
  {
    AstrayInside(s, quoteok);
    if EndsInside(s, quoteok) {
      assert s + [] == s;
      IntendedReads(s, quoteok);
    } else {
      forall behind: seq<Byte> ensures Encode(s + behind, |s|, 0, quoteok, 0) == Intended(s, quoteok) {
        EncodeAlike(s, behind, 0, quoteok, 0);
        EncodeAlike(s, [0], 0, quoteok, 0);
      }
    }
    hide Encode;
    hide EndsInside;
  }

  lemma SealedStays(s: seq<Byte>, quoteok: bool)
    requires !EndsInside(s, quoteok)
    ensures StaysInside(s, |s|, quoteok)
  {
    ScansOnlyTheName(s, quoteok);
    assert s + [] == s && s[..|s|] == s;
    hide Encode;
    hide EndsInside;
  }

  // ---------- Names that are followed by a terminator ----------

  /** What may stand behind a C string, or behind one whose final dot has been taken off. */
  predicate Terminates(s: seq<Byte>, behind: seq<Byte>)
  {
    behind != [] && (behind[0] == 0 || (behind[0] == DOT && (s == [] || s[|s| - 1] != BACKSLASH)))
  }

  lemma PieceTerminated(s: seq<Byte>, behind: seq<Byte>, p: nat, quoteok: bool)
    requires p < |s| && Terminates(s, behind)
    ensures PieceAt(s + behind, p, quoteok) == PieceAt(s + [0], p, quoteok)
  {
  }

  lemma {:induction false} ScanTerminated(s: seq<Byte>, behind: seq<Byte>, p: nat, quoteok: bool, acc: Label)
    requires p <= |s| && Terminates(s, behind)
    ensures ScanFrom(s + behind, |s|, p, quoteok, acc) == ScanFrom(s + [0], |s|, p, quoteok, acc)
    decreases |s| - p
  {
    hide PieceAt;
    if p < |s| && s[p] != DOT {
      PieceTerminated(s, behind, p, quoteok);
      PieceInside(s, p, quoteok);
      var piece := PieceAt(s + [0], p, quoteok);
      if piece.Piece? {
        ScanTerminated(s, behind, piece.next, quoteok, acc + [piece.c]);
      }
    }
  }

  lemma {:induction false} EncodeTerminated(s: seq<Byte>, behind: seq<Byte>, p: nat, quoteok: bool, nbytes: nat)
    requires p <= |s| && Terminates(s, behind)
    ensures Encode(s + behind, |s|, p, quoteok, nbytes) == Encode(s + [0], |s|, p, quoteok, nbytes)
    decreases |s| - p
  {
    hide ScanFrom;
    if p < |s| {
      ScanTerminated(s, behind, p, quoteok, []);
      var r := ScanFrom(s + [0], |s|, p, quoteok, []);
      if r.Scanned? && LabelStatus(r.lab, nbytes) == Ok {
        ScanSpan(s, p, quoteok, []);
        EncodeTerminated(s, behind, r.next, quoteok, nbytes + |r.lab| + 1);
      }
    }
  }

  /** A name given by the application is always read as it is meant. */
  lemma TerminatedStays(mem: seq<Byte>, ol: nat, quoteok: bool)
    requires ol < |mem| && Terminates(mem[..ol], mem[ol..])
    ensures StaysInside(mem, ol, quoteok)
  {
    assert mem == mem[..ol] + mem[ol..];
    EncodeTerminated(mem[..ol], mem[ol..], 0, quoteok, 0);
    hide Encode;
  }
}
