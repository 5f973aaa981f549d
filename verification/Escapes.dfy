/** A search for a name that ends in a backslash. The name is kept without a terminator (adns/query.c:294), and is at
    last asked for as it is (adns/query.c:215), with what is left of the suffix tried before it still behind it. */
module Escapes {
  import opened Basics
  import opened Texts
  import opened Scans
  import opened Queries
  import opened LifeCycle
  import opened Steps
  import opened Submission
  import opened Runs
  import opened Searches

  /** No byte of it ends a label or starts an escape. */
  predicate Plain(l: seq<Byte>) { forall i :: 0 <= i < |l| ==> l[i] != DOT && l[i] != BACKSLASH }

  lemma {:induction false} ScanPlain(mem: seq<Byte>, ol: nat, p: nat, end: nat, acc: Label)
    requires ol < p <= end < |mem| && Plain(mem[p..end]) && mem[end] == DOT && |acc| + (end - p) <= 255
    ensures ScanFrom(mem, ol, p, true, acc) == Scanned(acc + mem[p..end], end + 1)
    decreases end - p
  {
    if p == end {
      assert acc + mem[p..end] == acc;
    } else {
      assert mem[p..end][0] == mem[p];
      assert mem[p + 1..end] == mem[p..end][1..];
      ScanPlain(mem, ol, p + 1, end, acc + [mem[p]]);
      assert acc + [mem[p]] + mem[p + 1..end] == acc + mem[p..end];
    }
  }

  /** What the bytes behind the name are taken for: the dot ends the escape, and the rest of a label follows. */
  function Behind(l: seq<Byte>): seq<Byte> { [DOT] + l + [DOT, DOT] }

  /** The name of two bytes `a\` ends inside an escape. The scan does not stop behind it and puts the label that stands
      there into the message: with more than five bytes of it, the reservation made for two is too small. */
  lemma WritesBehind(l: seq<Byte>)
    requires Plain(l) && |l| + 2 <= DNS_MAXLABEL
    ensures EndsInside([97, BACKSLASH], true)
    ensures var e := Encode([97, BACKSLASH] + Behind(l), 2, 0, true, 0);
            e == Encoding(QueryDomainInvalid, [[97, DOT] + l]) && (Reserved(0, 2, e) <==> |l| <= 5)
  {
    EndsInEscape();
    var s: seq<Byte>, lab: Label := [97, BACKSLASH], [97, DOT] + l;
    var mem, n := s + Behind(l), 3 + |l|;
    assert mem[3..n] == l && mem[n] == DOT && mem[n + 1] == DOT;
    assert mem[0] == 97 && mem[1] == BACKSLASH && mem[2] == DOT;
    ScanPlain(mem, 2, 3, n, [97, DOT]);
    hide ScanFrom;
    assert ScanFrom(mem, 2, 0, true, []) == Scanned(lab, n + 1) by {
      StartsInside(mem);
    }
    assert ScanFrom(mem, 2, n + 1, true, []) == Scanned([], n + 2) by {
      DotAt(mem, n + 1);
    }
    assert Encode(mem, 2, n + 1, true, |lab| + 1) == Encoding(QueryDomainInvalid, []);
    assert [lab] + [] == [lab];
    assert Encode(mem, 2, 0, true, 0) == Encoding(QueryDomainInvalid, [lab]);
    WithHead(lab, []);
  }

  lemma DotAt(mem: seq<Byte>, p: nat)
    requires 2 < p < |mem| && mem[p] == DOT
    ensures ScanFrom(mem, 2, p, true, []) == Scanned([], p + 1)
  {
  }

  /** An escaped dot across the end of the name. */
  lemma StartsInside(mem: seq<Byte>)
    requires |mem| >= 3 && mem[0] == 97 && mem[1] == BACKSLASH && mem[2] == DOT
    ensures ScanFrom(mem, 2, 0, true, []) == ScanFrom(mem, 2, 3, true, [97, DOT])
  {
    assert PieceAt(mem, 0, true) == Piece(97, 1) && PieceAt(mem, 1, true) == Piece(DOT, 3);
    hide PieceAt;
    assert [] + [97] == [97] && [97] + [DOT] == [97, DOT];
    assert ScanFrom(mem, 2, 1, true, [97]) == ScanFrom(mem, 2, 3, true, [97, DOT]);
  }

  lemma EndsInEscape()
    ensures EndsInside([97, BACKSLASH], true)
  {
    var s: seq<Byte> := [97, BACKSLASH];
    assert OpenEscape(s, 1) == Some(1);
    assert OpenEscape(s, 0) == Some(1);
    assert s[..1] == [97];
    assert PieceAt([97], 0, true) == Piece(97, 1);
    assert ScanFrom([97], 2, 1, true, [97]).Astray?;
    assert ScanFrom([97], 2, 0, true, []).Astray?;
  }

  // ---------- The search that gets there ----------

  const DOT_FIRST := Config(1, [[98]], 1)

  const QUOTED := Flags(true, false, false, true, false, false, false, false)

  /** The search for `a\` with the suffix `b` asks for the label `a.b` first. When there is no such name, it goes on
      with `a\` itself. */
  lemma SearchEndsInside()
    ensures ValidConfig(DOT_FIRST)
    ensures var s := Submit(DOT_FIRST, INITIAL, [97, BACKSLASH], 1, QUOTED, 0);
            0 in s.qs && s.udpw == [0] && !SealedSearch(DOT_FIRST, s.qs[0]) &&
            AskedName(s.qs[0].dgram) == [[97, DOT, 98]] &&
            var y := NextCandidate(DOT_FIRST, s.qs[0]);
            y.Some? && y.value.searchVb == [97, BACKSLASH] && EndsInside(y.value.searchVb, y.value.flags.quoteokQuery)
  {
    hide QuerySimple;
    hide SearchNext;
    hide Message;
    hide ReadLabels;
    hide EndsInside;
    hide WithinLimits;
    hide Fail;
    var cfg, name: seq<Byte> := DOT_FIRST, [97, BACKSLASH];
    var x := Named(cfg, name, 1, QUOTED);
    assert Dots(name) == Dots(name[1..]) == 0;
    var s := Add(INITIAL, x);
    assert s.qs[0] == x && x.searchDoneabs == 0;
    TriesNext(cfg, s, 0, 0);
    var y := NextCandidate(cfg, x).value;
    assert y.searchVb == name + [DOT] + [98] == [97, BACKSLASH, DOT, 98];
    ReadsOneLabel();
    WithinOne();
    AskQuery(cfg, Set(s, 0, y), 0, y.searchVb, [[97, DOT, 98]], 0);
    MessageAsksForName(0x311f, [[97, DOT, 98]], 1);
    EndsInEscape();
  }

  lemma WithinOne()
    ensures WithinLimits([[97, DOT, 98]])
  {
    var ls: seq<Label> := [[97, DOT, 98]];
    assert ls[1..] == [];
  }

  lemma ReadsOneLabel()
    ensures ReadLabels([97, BACKSLASH, DOT, 98], 0, true, 0) == Success([[97, DOT, 98]])
  {
    var s: seq<Byte> := [97, BACKSLASH, DOT, 98];
    assert ReadByte(s, 0, true) == Some((97, 1)) && ReadByte(s, 1, true) == Some((DOT, 3));
    assert ReadByte(s, 3, true) == Some((98, 4));
    hide ReadByte;
    assert [] + [97] == [97] && [97] + [DOT] == [97, DOT] && [97, DOT] + [98] == [97, DOT, 98];
    assert ReadLabel(s, 4, true, [97, DOT, 98]) == Success(([97, DOT, 98], 4));
    assert ReadLabel(s, 1, true, [97]) == Success(([97, DOT, 98], 4));
    assert ReadLabel(s, 0, true, []) == Success(([97, DOT, 98], 4));
    hide ReadLabel;
    assert ReadLabels(s, 4, true, 4) == Success([]);
    assert [[97, DOT, 98]] + [] == [[97, DOT, 98]];
  }
}
