/** Replies, and a run, on which the source does not do what it is meant to. */
module Witnesses {
  import opened Basics
  import opened Headers
  import opened Names
  import opened Texts
  import opened Records
  import opened Queries
  import opened Answers
  import opened LifeCycle
  import opened Parsers
  import opened Replies

  // ---------- Small replies ----------

  lemma OneByteName(dg: seq<Byte>, c: nat, max: int)
    requires c + 3 <= |dg| && c + 3 <= max && dg[c] == 1 && dg[c + 2] == 0
    ensures NameAt(dg, c, max) == Name([[dg[c + 1]]], c + 3)
  {
    var ls: seq<Label> := [[dg[c + 1]]];
    assert dg[c + 1..c + 2] == ls[0] && ls[1..] == [];
    assert SpellsIn(dg, c + 2, [], 1);
    assert SpellsIn(dg, c, ls, 2);
    assert Grown(0, ls) == Grown(1, ls[1..]);
    assert InlineEnd(dg, c) == InlineEnd(dg, c + 2);
    DecodesExactly(dg, c, max, ls, c + 3);
  }

  function ShortRecord(owner: Byte, typ: Byte, rdata: seq<Byte>): seq<Byte>
    requires |rdata| < 256
  {
    [1, owner, 0, 0, typ, 0, 1, 0, 0, 0, 0, 0, |rdata|] + rdata
  }

  lemma ShortRecordAt(dg: seq<Byte>, c: nat, owner: Byte, typ: Byte, rdata: seq<Byte>, o: Option<seq<Label>>)
    requires |rdata| < 256 && Holds(dg, c, ShortRecord(owner, typ, rdata))
    ensures RecordAt(dg, c, o) == Record(Rr(typ, 1, 0, |rdata|, c + 13), c + 13 + |rdata|,
                                         o.Some? && SameName([[owner]], o.value))
  {
    ShortRecordFields(dg, c, owner, typ, rdata);
    hide Holds;
    hide ShortRecord;
    hide NameAt;
    OneByteName(dg, c, |dg|);
  }

  lemma ShortRecordFields(dg: seq<Byte>, c: nat, owner: Byte, typ: Byte, rdata: seq<Byte>)
    requires |rdata| < 256 && Holds(dg, c, ShortRecord(owner, typ, rdata))
    ensures c + 13 + |rdata| <= |dg| && dg[c] == 1 && dg[c + 1] == owner && dg[c + 2] == 0
    ensures GetW(dg, c + 3) == typ && GetW(dg, c + 5) == 1 && GetL(dg, c + 7) == 0 && GetW(dg, c + 11) == |rdata|
  {
    var w: seq<Byte> := [1, owner, 0, 0, typ, 0, 1, 0, 0, 0, 0, 0, |rdata|];
    assert ShortRecord(owner, typ, rdata) == w + rdata;
    HoldsParts(dg, c, w, rdata);
    hide ShortRecord;
    assert dg[c..c + 13] == w;
    forall i | 0 <= i < 13 ensures dg[c + i] == w[i] {
      assert dg[c + i] == dg[c..c + 13][i];
    }
    hide Holds;
    assert dg[c + 3] == w[3] && dg[c + 4] == w[4] && dg[c + 5] == w[5] && dg[c + 6] == w[6];
    assert dg[c + 7] == w[7] && dg[c + 8] == w[8] && dg[c + 9] == w[9] && dg[c + 10] == w[10];
    assert dg[c + 11] == w[11] && dg[c + 12] == w[12];
  }

  lemma OneByteNames(a: Byte, b: Byte)
    ensures SameName([[a]], [[b]]) <==> FoldCase(a) == FoldCase(b)
  {
    var x: seq<Label>, y: seq<Label> := [[a]], [[b]];
    assert Folded(x[0])[0] == FoldCase(a) && Folded(y[0])[0] == FoldCase(b);
    if SameName(x, y) {
      assert Folded(x[0]) == Folded(y[0]);
    }
    if FoldCase(a) == FoldCase(b) {
      assert Folded(x[0]) == Folded(y[0]);
    }
  }

  lemma Skips(dg: seq<Byte>, w: Wanted, p: Pass, rr: Rr, next: nat)
    requires RecordAt(dg, p.cbyte, Some(CurrentOwner(w, p))) == Record(rr, next, false)
    ensures Step(dg, w, p) == PassDone(p.(cbyte := next))
  {
    hide RecordAt;
  }

  lemma Counts(dg: seq<Byte>, w: Wanted, p: Pass, rr: Rr, next: nat)
    requires RecordAt(dg, p.cbyte, Some(CurrentOwner(w, p))) == Record(rr, next, true) && Accepts(w, rr, true)
    ensures Step(dg, w, p) == PassDone(p.(cbyte := next, wantedrrs := p.wantedrrs + 1))
  {
    hide RecordAt;
  }

  lemma FollowsFirst(dg: seq<Byte>, w: Wanted, p: Pass, rr: Rr, next: nat)
    requires RecordAt(dg, p.cbyte, Some(CurrentOwner(w, p))) == Record(rr, next, true)
    requires IsAlias(w, rr) && rr.class_ == DNS_CLASS_IN && !w.cnameForbid && p.cname.None? && p.wantedrrs == 0
    requires RestText(dg, Start(rr.rdstart, rr.rdstart + rr.rdlen), !w.quotefailCname, true).Text?
    ensures Step(dg, w, p) ==
            var text := RestText(dg, Start(rr.rdstart, rr.rdstart + rr.rdlen), !w.quotefailCname, true).text;
            PassDone(p.(cbyte := next, cname := Some(Owner(dg, rr.rdstart)), cnameHere := true,
                        allocations := p.allocations + 2, cnameText := Some(text)))
  {
    hide RecordAt;
    hide RestText;
  }

  /** A reply to the question for a name of one letter, type A: header, question and answers. */
  function ShortReply(c: Byte, id: nat, tc: bool, rcode: Byte, ancount: Byte, answers: seq<Byte>): (dg: seq<Byte>)
    requires rcode < 16
    ensures |dg| == 19 + |answers|
  {
    PutW(id) + [if tc then 131 else 129, 128 + rcode, 0, 1, 0, ancount, 0, 0, 0, 0] + [1, c, 0, 0, 1, 0, 1] + answers
  }

  /** The question for a letter, type A. */
  ghost predicate AsksFor(x: Query, c: Byte, id: nat)
  {
    x.dgram == Message(id, [[c]], 1) && x.id == id && id < 0x1_0000 && x.typ == 1 && !x.flags.cnameForbid
  }

  lemma ShortQuestion(x: Query, c: Byte, id: nat)
    requires AsksFor(x, c, id)
    ensures |x.dgram| == 19 && x.dgram[DNS_HDRSIZE..] == [1, c, 0, 0, 1, 0, 1]
    ensures ValidOwner(WantedBy(x).query) && (x.cname.None? ==> CurrentOwner(WantedBy(x), FirstState(x)) == [[c]])
  {
    OneLetter(c);
    MessageAsksForName(id, [[c]], 1);
    MessageOfOne(c, id);
    hide Message;
    hide WithinLimits;
    hide NameAt;
  }

  lemma OneLetter(c: Byte)
    ensures WithinLimits([[c]]) && Wire([[c]]) == [1, c]
  {
    var ls: seq<Label> := [[c]];
    assert ls[1..] == [] && Wire([]) == [];
    assert Grown(0, ls) == Grown(1, []);
  }

  lemma MessageOfOne(c: Byte, id: nat)
    requires id < 0x1_0000
    ensures WithinLimits([[c]])
    ensures var m := Message(id, [[c]], 1); |m| == 19 && m[DNS_HDRSIZE..] == [1, c, 0, 0, 1, 0, 1]
  {
    OneLetter(c);
    hide Wire;
    var m := Message(id, [[c]], 1);
    assert m == HeaderBytes(id) + ([1, c] + [0]) + [0, 1, 0, 1];
  }

  lemma ShortHeader(c: Byte, id: nat, tc: bool, rcode: Byte, ancount: Byte, answers: seq<Byte>)
    requires rcode < 16 && id < 0x1_0000
    ensures HeaderOf(ShortReply(c, id, tc, rcode, ancount, answers)) ==
            Header(id, true, 0, tc, true, rcode, 1, ancount, 0, 0)
    ensures ShortReply(c, id, tc, rcode, ancount, answers)[12..19] == [1, c, 0, 0, 1, 0, 1]
    ensures ShortReply(c, id, tc, rcode, ancount, answers)[19..] == answers
  {
    var dg := ShortReply(c, id, tc, rcode, ancount, answers);
    assert dg[0] == id / 256 % 256 && dg[1] == id % 256 && dg[2] == (if tc then 131 else 129) && dg[3] == 128 + rcode;
    assert dg[4] == 0 && dg[5] == 1 && dg[6] == 0 && dg[7] == ancount && dg[8] == 0 && dg[9] == 0 &&
           dg[10] == 0 && dg[11] == 0;
  }

  /** Such a reply belongs to the query. */
  lemma ShortReplyMatches(x: Query, c: Byte, id: nat, tc: bool, rcode: Byte, ancount: Byte, answers: seq<Byte>,
                          serv: nat)
    requires AsksFor(x, c, id) && rcode < 16 && serv in x.udpsent
    ensures |x.dgram| >= DNS_HDRSIZE && Matches(x, ShortReply(c, id, tc, rcode, ancount, answers), serv, false)
    ensures Relevant(ShortReply(c, id, tc, rcode, ancount, answers))
  {
    ShortQuestion(x, c, id);
    ShortHeader(c, id, tc, rcode, ancount, answers);
    hide ShortReply;
  }

  lemma AnswersHold(c: Byte, id: nat, tc: bool, rcode: Byte, ancount: Byte, answers: seq<Byte>, i: nat, w: seq<Byte>)
    requires rcode < 16 && id < 0x1_0000 && i + |w| <= |answers| && answers[i..i + |w|] == w
    ensures Holds(ShortReply(c, id, tc, rcode, ancount, answers), 19 + i, w)
  {
    ShortHeader(c, id, tc, rcode, ancount, answers);
    var dg := ShortReply(c, id, tc, rcode, ancount, answers);
    hide ShortReply;
    assert dg[19 + i..19 + i + |w|] == dg[19..][i..i + |w|];
  }

  // ---------- A record of the final name before the CNAME ----------

  /** An A record of b, the alias from a to b, and another A record of b with this data. */
  function EarlyAnswers(rdata: seq<Byte>): (s: seq<Byte>)
    requires |rdata| < 256
    ensures |s| == 46 + |rdata|
  {
    ShortRecord(98, 1, [192, 0, 2, 1]) + ShortRecord(97, 5, [1, 98, 0]) + ShortRecord(98, 1, rdata)
  }

  lemma EarlyParts(rdata: seq<Byte>)
    requires |rdata| < 256
    ensures var s := EarlyAnswers(rdata);
            s[0..17] == ShortRecord(98, 1, [192, 0, 2, 1]) && s[17..33] == ShortRecord(97, 5, [1, 98, 0]) &&
            s[33..|s|] == ShortRecord(98, 1, rdata) && s[30..33] == [1, 98, 0]
  {
    var s := EarlyAnswers(rdata);
    assert s[30..33] == s[17..33][13..16];
  }

  lemma EarlyRecords(id: nat, rdata: seq<Byte>, o: Option<seq<Label>>)
    requires id < 0x1_0000 && |rdata| < 256
    ensures var dg := ShortReply(97, id, false, 0, 3, EarlyAnswers(rdata));
            RecordAt(dg, 19, o) == Record(Rr(1, 1, 0, 4, 32), 36, o.Some? && SameName([[98]], o.value)) &&
            RecordAt(dg, 36, o) == Record(Rr(5, 1, 0, 3, 49), 52, o.Some? && SameName([[97]], o.value)) &&
            RecordAt(dg, 52, o) ==
              Record(Rr(1, 1, 0, |rdata|, 65), 65 + |rdata|, o.Some? && SameName([[98]], o.value)) &&
            NameAt(dg, 49, |dg|) == Name([[98]], 52) && NameAt(dg, 49, 52) == Name([[98]], 52)
  {
    hide ShortReply;
    hide ShortRecord;
    hide EarlyAnswers;
    hide RecordAt;
    hide NameAt;
    hide SameName;
    var s := EarlyAnswers(rdata);
    var dg := ShortReply(97, id, false, 0, 3, s);
    EarlyParts(rdata);
    ShortLengths(rdata);
    AnswersHold(97, id, false, 0, 3, s, 0, ShortRecord(98, 1, [192, 0, 2, 1]));
    AnswersHold(97, id, false, 0, 3, s, 17, ShortRecord(97, 5, [1, 98, 0]));
    AnswersHold(97, id, false, 0, 3, s, 33, ShortRecord(98, 1, rdata));
    AnswersHold(97, id, false, 0, 3, s, 30, [1, 98, 0]);
    ShortRecordAt(dg, 19, 98, 1, [192, 0, 2, 1], o);
    ShortRecordAt(dg, 36, 97, 5, [1, 98, 0], o);
    ShortRecordAt(dg, 52, 98, 1, rdata, o);
    HeldName(dg, 49, 98);
    OneByteName(dg, 49, |dg|);
    OneByteName(dg, 49, 52);
  }

  lemma ShortLengths(rdata: seq<Byte>)
    requires |rdata| < 256
    ensures |ShortRecord(98, 1, [192, 0, 2, 1])| == 17 && |ShortRecord(97, 5, [1, 98, 0])| == 16
    ensures |ShortRecord(98, 1, rdata)| == 13 + |rdata|
  {
  }

  lemma HeldName(dg: seq<Byte>, c: nat, b: Byte)
    requires Holds(dg, c, [1, b, 0])
    ensures c + 3 <= |dg| && dg[c] == 1 && dg[c + 1] == b && dg[c + 2] == 0
  {
    assert dg[c..c + 3][0] == 1 && dg[c..c + 3][1] == b && dg[c..c + 3][2] == 0;
  }

  /** The first pass follows the alias and counts the last record only. */
  lemma EarlyPass(x: Query, id: nat, rdata: seq<Byte>) returns (p: Pass)
    requires AsksFor(x, 97, id) && x.cname.None? && !x.flags.quotefailCname && |rdata| < 256
    ensures var dg := ShortReply(97, id, false, 0, 3, EarlyAnswers(rdata));
            FirstPass(dg, WantedBy(x), FirstState(x), 3) == PassDone(p) && p.wantedrrs == 1 &&
            CurrentOwner(WantedBy(x), p) == [[98]] && p.cbyte == |dg|
  {
    hide ShortReply;
    hide EarlyAnswers;
    hide RecordAt;
    hide NameAt;
    hide SameName;
    hide RestText;
    hide Step;
    var dg, w, p0 := ShortReply(97, id, false, 0, 3, EarlyAnswers(rdata)), WantedBy(x), FirstState(x);
    ShortQuestion(x, 97, id);
    EarlyRecords(id, rdata, Some([[97]]));
    EarlyRecords(id, rdata, Some([[98]]));
    OneByteNames(97, 97);
    OneByteNames(98, 97);
    OneByteNames(98, 98);
    PrintsTheName(dg, Start(49, 52), true, true);
    assert NameAt(dg, 49, 52) == Rest(dg, Start(49, 52)) by {
      NameIsRest(dg, 49, 52);
    }
    var text := RestText(dg, Start(49, 52), true, true).text;
    var p1 := p0.(cbyte := 36);
    var p2 := p1.(cbyte := 52, cname := Some(Owner(dg, 49)), cnameHere := true, allocations := p1.allocations + 2,
                  cnameText := Some(text));
    p := p2.(cbyte := 65 + |rdata|, wantedrrs := 1);
    Skips(dg, w, p0, Rr(1, 1, 0, 4, 32), 36);
    FollowsFirst(dg, w, p1, Rr(5, 1, 0, 3, 49), 52);
    Counts(dg, w, p2, Rr(1, 1, 0, |rdata|, 65), 65 + |rdata|);
    ThreeSteps(dg, w, p0, p1, p2, p);
  }

  lemma ThreeSteps(dg: seq<Byte>, w: Wanted, p0: Pass, p1: Pass, p2: Pass, p3: Pass)
    requires Step(dg, w, p0) == PassDone(p1) && Step(dg, w, p1) == PassDone(p2) && Step(dg, w, p2) == PassDone(p3)
    ensures FirstPass(dg, w, p0, 3) == PassDone(p3)
  {
    hide Step;
    assert FirstPass(dg, w, p2, 1) == FirstPass(dg, w, p3, 0);
    assert FirstPass(dg, w, p1, 2) == FirstPass(dg, w, p2, 1);
  }

  lemma EarlyWants(x: Query, id: nat, rdata: seq<Byte>, p: Pass)
    requires AsksFor(x, 97, id) && |rdata| < 256 && CurrentOwner(WantedBy(x), p) == [[98]]
    ensures var dg := ShortReply(97, id, false, 0, 3, EarlyAnswers(rdata));
            Wants(x, dg, HeaderOf(dg), p) == [Rr(1, 1, 0, 4, 32), Rr(1, 1, 0, |rdata|, 65)]
  {
    hide ShortReply;
    hide EarlyAnswers;
    hide RecordAt;
    hide SameName;
    hide CurrentOwner;
    hide Accepted;
    hide NameAt;
    hide HeaderOf;
    var dg, w := ShortReply(97, id, false, 0, 3, EarlyAnswers(rdata)), WantedBy(x);
    ShortQuestion(x, 97, id);
    ShortHeader(97, id, false, 0, 3, EarlyAnswers(rdata));
    EarlyRecords(id, rdata, Some([[98]]));
    OneByteNames(97, 98);
    OneByteNames(98, 98);
    TakesNext(dg, w, [[98]], 52, 1, Rr(1, 1, 0, |rdata|, 65), 65 + |rdata|, true);
    TakesNext(dg, w, [[98]], 36, 2, Rr(5, 1, 0, 3, 49), 52, false);
    TakesNext(dg, w, [[98]], 19, 3, Rr(1, 1, 0, 4, 32), 36, true);
  }

  lemma TakesNext(dg: seq<Byte>, w: Wanted, owner: seq<Label>, c: nat, n: nat, rr: Rr, next: nat, matched: bool)
    requires n > 0 && RecordAt(dg, c, Some(owner)) == Record(rr, next, matched)
    ensures Accepted(dg, w, owner, c, n) ==
            (if Accepts(w, rr, matched) then [rr] else []) + Accepted(dg, w, owner, next, n - 1)
    ensures Accepted(dg, w, owner, c, 0) == [] && Accepted(dg, w, owner, next, 0) == []
  {
    hide RecordAt;
  }

  /** How the reading of that reply ends: the second pass accepts two records where the first has counted one. With
      four bytes of data both are stored, since the table has been rounded up to eight bytes, and the assertion at
      adns/reply.c:455 fails; any other length fails the query before that. */
  lemma EarlyReply(x: Query, id: nat, rdata: seq<Byte>, os: seq<Stray>)
    requires AsksFor(x, 97, id) && x.cname.None? && !x.flags.quotefailCname && |rdata| < 256
    ensures var r := ReadReply(x, ShortReply(97, id, false, 0, 3, EarlyAnswers(rdata)), os);
            if |rdata| == 4 then r == Stuck
            else r.Read? && r.verdict.Answered? && r.verdict.failed == Some(InvalidData)
  {
    hide ShortReply;
    hide EarlyAnswers;
    hide FirstPass;
    hide Wants;
    hide CurrentOwner;
    hide WantedBy;
    var dg := ShortReply(97, id, false, 0, 3, EarlyAnswers(rdata));
    ShortHeader(97, id, false, 0, 3, EarlyAnswers(rdata));
    var p := EarlyPass(x, id, rdata);
    EarlyWants(x, id, rdata, p);
    EarlyReads(x, dg, HeaderOf(dg), p, os, Rr(1, 1, 0, 4, 32), Rr(1, 1, 0, |rdata|, 65));
    hide ReadPositive;
  }

  lemma EarlyReads(x: Query, dg: seq<Byte>, h: Header, p: Pass, os: seq<Stray>, a: Rr, b: Rr)
    requires x.typ == 1 && p.wantedrrs == 1 && Wants(x, dg, h, p) == [a, b] && a.rdlen == 4
    ensures var r := ReadPositive(x, dg, h, p, os);
            if b.rdlen == 4 then r == Stuck
            else r.Read? && r.verdict.Answered? && r.verdict.failed == Some(InvalidData)
  {
    hide Wants;
    var rrs, sec := [a, b], SectionsBehind(h, p);
    assert Tried(x, dg, h, p) == rrs;
    var first := ParseRr(x, dg, a, sec, x.ptrAddr, StrayAt(os, 0));
    var second := ParseRr(x, dg, b, sec, x.ptrAddr, StrayAt(os, 1));
    assert first == Parsed(Ok, None, x.ptrAddr, 0, first.data, true);
    assert second.Parsed? && second.ptrAddr == x.ptrAddr && second.stores == (b.rdlen == 4) &&
           second.status == if b.rdlen == 4 then Ok else InvalidData;
    hide ParseRr;
    assert SecondPass(x, dg, rrs, 2, sec, x.ptrAddr, os) == Second([], None, [], x.ptrAddr, 0);
    assert SecondPass(x, dg, rrs, 1, sec, x.ptrAddr, os).Second?;
  }

  // ---------- A name that cannot be read ----------

  /** An alias from a to a name that is no hostname. */
  function AliasToNoHost(): (s: seq<Byte>)
    ensures |s| == 16
  {
    ShortRecord(97, 5, [1, 95, 0])
  }

  lemma AliasRecord(id: nat, tc: bool, rcode: Byte, b: Byte, o: Option<seq<Label>>)
    requires id < 0x1_0000 && rcode < 16
    ensures var dg := ShortReply(97, id, tc, rcode, 1, ShortRecord(97, 5, [1, b, 0]));
            |dg| == 35 && RecordAt(dg, 19, o) == Record(Rr(5, 1, 0, 3, 32), 35, o.Some? && SameName([[97]], o.value)) &&
            NameAt(dg, 32, 35) == Name([[b]], 35)
  {
    hide RecordAt;
    hide NameAt;
    hide SameName;
    var s := ShortRecord(97, 5, [1, b, 0]);
    assert |s| == 16 && s[13..16] == [1, b, 0] && s[0..16] == s;
    hide ShortRecord;
    var dg := ShortReply(97, id, tc, rcode, 1, s);
    hide ShortReply;
    AnswersHold(97, id, tc, rcode, 1, s, 0, s);
    AnswersHold(97, id, tc, rcode, 1, s, 13, [1, b, 0]);
    ShortRecordAt(dg, 19, 97, 5, [1, b, 0], o);
    HeldName(dg, 32, b);
    OneByteName(dg, 32, 35);
  }

  /** What the first pass makes of it when names that are no hostnames are to be refused. */
  lemma NoHostPass(x: Query, id: nat, tc: bool)
    requires AsksFor(x, 97, id) && x.flags.quotefailCname && x.cnameCount == 0
    requires CurrentOwner(WantedBy(x), FirstState(x)) == [[97]]
    ensures var dg, p := ShortReply(97, id, tc, 0, 1, AliasToNoHost()), FirstState(x).(cbyte := 35);
            exists q: Pass :: q.cname == x.cname &&
              FirstPass(dg, WantedBy(x), FirstState(x), 1) == PassTruncated(q, Redirect(p, 32))
  {
    hide RecordAt;
    hide NameAt;
    hide SameName;
    hide CurrentOwner;
    var dg, w, p0 := ShortReply(97, id, tc, 0, 1, AliasToNoHost()), WantedBy(x), FirstState(x);
    hide ShortReply;
    ShortQuestion(x, 97, id);
    AliasRecord(id, tc, 0, 95, Some([[97]]));
    OneByteNames(97, 97);
    var rr, p := Rr(5, 1, 0, 3, 32), p0.(cbyte := 35);
    var q := if p.cname.Some? then p.(cnameCount := 1) else p;
    NotHost();
    assert !AllHost(NameAt(dg, 32, 35).labels) by {
      assert !IsHostLabel(NameAt(dg, 32, 35).labels[0]);
    }
    NoHostIsReported(dg, w, q, rr);
    CnameErrors(dg, w, q, rr);
    NameIsRest(dg, 32, 35);
    NoHostText(dg, Start(32, 35), true);
    assert FollowCname(dg, w, q, rr) == PassTruncated(q, Redirect(q, 32));
    hide FollowCname;
    assert Step(dg, w, p0) == PassTruncated(q, Redirect(q, 32));
    hide Step;
  }

  lemma NotHost()
    ensures !IsHostLabel([95])
  {
  }

  /** A query that wants AnswerDomainInvalid for that (adns/adns.h:176-180) gets InvalidResponse. */
  lemma NoHostIsNotReported(x: Query, id: nat, os: seq<Stray>)
    requires AsksFor(x, 97, id) && x.flags.quotefailCname && x.cnameCount == 0 && x.cname.None?
    ensures var r := ReadReply(x, ShortReply(97, id, false, 0, 1, AliasToNoHost()), os);
            r.Read? && r.verdict.Failed? && r.verdict.status == InvalidResponse
  {
    hide FirstPass;
    hide ShortReply;
    hide AliasToNoHost;
    ShortQuestion(x, 97, id);
    ShortHeader(97, id, false, 0, 1, AliasToNoHost());
    NoHostPass(x, id, false);
  }

  // ---------- A name that is never read to its end ----------

  /** The first record wanted by a query for a zone's SOA record starts with a pointer to itself. */
  lemma SoaLoops(x: Query, dg: seq<Byte>, h: Header, p: Pass, os: seq<Stray>)
    requires x.typ in {6, SOA} && Wants(x, dg, h, p) != []
    requires var rr := Wants(x, dg, h, p)[0];
             2 <= rr.rdlen && rr.rdstart + rr.rdlen <= |dg| && IsPointer(dg, rr.rdstart) &&
             Target(dg, rr.rdstart) == rr.rdstart
    ensures ReadPositive(x, dg, h, p, os) == Endless
  {
    hide Wants;
    var rr := Wants(x, dg, h, p)[0];
    assert Tried(x, dg, h, p)[0] == rr;
    SelfPointerDiverges(dg, rr.rdstart, rr.rdstart + rr.rdlen);
    assert FlatAt(x.typ, x.flags.quoteokAnshost, dg, rr.rdstart, rr.rdstart + rr.rdlen, StrayAt(os, 0)).FlatDiverges?;
  }
}
