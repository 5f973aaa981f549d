/** How the name to start again at is lost: cname_begin and cname_dglen are those of the last CNAME looked at, even if
    it cannot be read, and cname_dgram is that of the last one followed (adns/reply.c:263-288, 476-485). */
module Redirects {
  import opened Basics
  import opened Names
  import opened Texts
  import opened Records
  import opened Queries
  import opened Answers
  import opened LifeCycle
  import opened Steps
  import opened Parsers
  import opened Submission
  import opened Runs
  import opened Replies
  import opened Witnesses
  import opened Searches

  const ONE_SERVER := Config(1, [], 0)

  const REFUSING := Flags(false, false, false, false, false, true, false, false)

  /** Cut off behind an alias from a to c. */
  function FirstReply(): (dg: seq<Byte>) { ShortReply(97, 0x311f, true, 0, 1, ShortRecord(97, 5, [1, 99, 0])) }

  /** An A record of b, and an alias from c to a name that is no hostname. */
  function SecondAnswers(): (s: seq<Byte>)
    ensures |s| == 33
  {
    ShortRecord(98, 1, [192, 0, 2, 1]) + ShortRecord(99, 5, [1, 95, 0])
  }

  /** Cut off behind those. */
  function SecondReply(): (dg: seq<Byte>)
    ensures |dg| == 52
  {
    ShortReply(99, 0x3120, true, 0, 2, SecondAnswers())
  }

  /** The query has asked for `a`. */
  ghost predicate AskedFirst(s: St)
  {
    0 in s.qs && s.udpw == [0] && s.nextid == 0x3120 &&
    var x := s.qs[0];
    AsksFor(x, 97, 0x311f) && x.cname.None? && x.cnameCount == 0 && x.flags == REFUSING && x.state.Tosend? &&
    x.parent.None? && x.retries == 1 && x.udpnextserver == 0
  }

  /** It has started again at the CNAME, and asked for `c`. */
  ghost predicate AskedSecond(s: St)
  {
    0 in s.qs && 0 in s.udpw &&
    var x := s.qs[0];
    AsksFor(x, 99, 0x3120) && x.cname == Some(Owner(FirstReply(), 32)) && x.cnameCount == 0 &&
    x.flags == REFUSING.(usevc := true) && 0 in x.udpsent
  }

  lemma AsksFirst()
    ensures AskedFirst(Submit(ONE_SERVER, INITIAL, [97], 1, REFUSING, 0))
  {
    hide QuerySimple;
    hide SearchNext;
    hide Message;
    hide ReadLabels;
    hide WithinLimits;
    hide Fail;
    var x := Submission.Named(ONE_SERVER, [97], 1, REFUSING);
    var s := Add(INITIAL, x);
    ReadsA();
    OneLabelWithin();
    AskQuery(ONE_SERVER, s, 0, [97], [[97]], 0);
  }

  lemma FirstIsRead(x: Query) returns (p: Pass)
    requires AsksFor(x, 97, 0x311f) && x.cname.None? && x.flags == REFUSING
    ensures |FirstReply()| == 35 && ReadReply(x, FirstReply(), []) == Read(Restart(p, true))
    ensures p.cname == Some(Owner(FirstReply(), 32)) && p.cnameCount == x.cnameCount
  {
    hide ShortReply;
    hide ShortRecord;
    hide RecordAt;
    hide NameAt;
    hide SameName;
    hide RestText;
    hide CurrentOwner;
    var dg, w, p0 := FirstReply(), WantedBy(x), FirstState(x);
    ShortQuestion(x, 97, 0x311f);
    ShortHeader(97, 0x311f, true, 0, 1, ShortRecord(97, 5, [1, 99, 0]));
    AliasRecord(0x311f, true, 0, 99, Some([[97]]));
    OneByteNames(97, 97);
    PrintsTheName(dg, Start(32, 35), false, true);
    NameIsRest(dg, 32, 35);
    IsHost();
    FollowsFirst(dg, w, p0, Rr(5, 1, 0, 3, 32), 35);
    hide Step;
    p := Step(dg, w, p0).p;
    assert FirstPass(dg, w, p0, 1) == FirstPass(dg, w, p, 0);
    hide FirstPass;
  }

  lemma IsHost()
    ensures AllHost([[99]])
  {
    var ls: seq<Label> := [[99]];
    assert IsHostLabel(ls[0]);
  }

  lemma FirstName()
    ensures |FirstReply()| == 35 && ValidOwner(Owner(FirstReply(), 32))
    ensures OwnerLabels(Owner(FirstReply(), 32)) == [[99]]
  {
    AliasRecord(0x311f, true, 0, 99, None);
    hide NameAt;
    hide FirstReply;
  }

  lemma AsksForC(x: Query)
    requires x.cname == Some(Owner(FirstReply(), 32)) && x.flags == REFUSING && x.typ == 1
    ensures WithinLimits([[99]]) && |Message(0x3120, [[99]], 1)| <= DNS_MAXUDP
    ensures var y := Restarted(x, 0x3120, true);
            y.dgram == Message(0x3120, [[99]], 1) && y.id == 0x3120 && y.typ == 1 && y.retries == 0 &&
            y.flags == REFUSING.(usevc := true) && y.cname == x.cname && y.cnameCount == x.cnameCount &&
            y.udpnextserver == x.udpnextserver
  {
    hide FirstReply;
    FirstName();
    hide OwnerLabels;
    hide ValidOwner;
    OneLetter(99);
    MessageAsksForName(0x3120, [[99]], 1);
    OwnerWithinLimits(Owner(FirstReply(), 32));
    hide WithinLimits;
    hide Message;
  }

  /** It starts again at the CNAME. */
  lemma StartsAgain(s: St, p: Pass)
    requires AskedFirst(s) && Possible(s.qs[0], Restart(p, true)) && ParentLives(s, 0) && Numbered(s)
    requires p.cname == Some(Owner(FirstReply(), 32)) && p.cnameCount == 0
    ensures AskedSecond(Deliver(ONE_SERVER, Unqueue(s, 0), 0, Restart(p, true), 0))
  {
    hide Possible;
    hide Message;
    hide FirstReply;
    hide WithinLimits;
    hide Deliver;
    hide Retry;
    hide Restarted;
    var u := Set(Unqueue(s, 0), 0, Noted(s.qs[0], p));
    NoteRestart(Unqueue(s, 0), p);
    AsksForC(u.qs[0]);
    RestartsAt(u, Restarted(u.qs[0], 0x3120, true));
  }

  lemma NoteRestart(s: St, p: Pass)
    requires 0 in s.qs && Possible(s.qs[0], Restart(p, true)) && Numbered(s) && ParentLives(s, 0)
    ensures var u := Set(s, 0, Noted(s.qs[0], p));
            ParentLives(u, 0) && Deliver(ONE_SERVER, s, 0, Restart(p, true), 0) == Retry(ONE_SERVER, u, 0, true, 0)
  {
    hide Retry;
    PossibleNoted(s.qs[0], Restart(p, true));
  }

  lemma RestartsAt(u: St, y: Query)
    requires 0 in u.qs && u.qs[0].parent.None? && u.nextid == 0x3120 && u.qs[0].cname.Some?
    requires y == Restarted(u.qs[0], 0x3120, true) && |y.dgram| <= DNS_MAXUDP
    ensures ParentLives(u, 0)
    ensures var t := Retry(ONE_SERVER, u, 0, true, 0);
            0 in t.qs && 0 in t.udpw && t.qs[0] == Dispatched(ONE_SERVER, y, 0)
  {
    hide Message;
    hide Fail;
    hide OwnerLabels;
    hide WithinLimits;
  }

  lemma SecondRecords(o: Option<seq<Label>>)
    ensures var dg := SecondReply();
            RecordAt(dg, 19, o) == Record(Rr(1, 1, 0, 4, 32), 36, o.Some? && SameName([[98]], o.value)) &&
            RecordAt(dg, 36, o) == Record(Rr(5, 1, 0, 3, 49), 52, o.Some? && SameName([[99]], o.value)) &&
            NameAt(dg, 49, 52) == Name([[95]], 52)
  {
    hide ShortReply;
    hide ShortRecord;
    hide RecordAt;
    hide NameAt;
    hide SameName;
    var s := SecondAnswers();
    SecondParts();
    hide SecondAnswers;
    var dg := ShortReply(99, 0x3120, true, 0, 2, s);
    AnswersHold(99, 0x3120, true, 0, 2, s, 0, ShortRecord(98, 1, [192, 0, 2, 1]));
    AnswersHold(99, 0x3120, true, 0, 2, s, 17, ShortRecord(99, 5, [1, 95, 0]));
    AnswersHold(99, 0x3120, true, 0, 2, s, 30, [1, 95, 0]);
    ShortRecordAt(dg, 19, 98, 1, [192, 0, 2, 1], o);
    ShortRecordAt(dg, 36, 99, 5, [1, 95, 0], o);
    HeldName(dg, 49, 95);
    OneByteName(dg, 49, 52);
  }

  lemma SecondParts()
    ensures |ShortRecord(98, 1, [192, 0, 2, 1])| == 17 && |ShortRecord(99, 5, [1, 95, 0])| == 16
    ensures var s := SecondAnswers();
            s[0..17] == ShortRecord(98, 1, [192, 0, 2, 1]) && s[17..33] == ShortRecord(99, 5, [1, 95, 0]) &&
            s[30..33] == [1, 95, 0]
  {
    var s := SecondAnswers();
    assert s[30..33] == s[17..33][13..16];
  }

  /** Behind the end of the first reply there is no name. */
  lemma NothingThere(dg: seq<Byte>, begin: nat)
    requires |dg| <= begin
    ensures !ValidOwner(Owner(dg, begin))
  {
    FindNextStep(dg, Start(begin, |dg|));
  }

  /** What the first pass makes of the second reply. */
  lemma SecondPassOver(x: Query) returns (q: Pass)
    requires AsksFor(x, 99, 0x3120) && x.cname == Some(Owner(FirstReply(), 32)) && x.cnameCount == 0
    requires x.flags.quotefailCname
    ensures FirstPass(SecondReply(), WantedBy(x), FirstState(x), 2) == PassTruncated(q, Some(49))
    ensures q.cname == x.cname
  {
    hide RecordAt;
    hide NameAt;
    hide SameName;
    hide OwnerLabels;
    var dg, w, p0 := SecondReply(), WantedBy(x), FirstState(x);
    FirstName();
    assert CurrentOwner(w, p0) == [[99]];
    ShortQuestion(x, 99, 0x3120);
    SecondRecords(Some([[99]]));
    hide SecondReply;
    hide FirstReply;
    OneByteNames(98, 99);
    OneByteNames(99, 99);
    Skips(dg, w, p0, Rr(1, 1, 0, 4, 32), 36);
    var p, rr := p0.(cbyte := 36), Rr(5, 1, 0, 3, 49);
    q := p.(cbyte := 52, cnameCount := 1);
    NotHost();
    assert !AllHost(NameAt(dg, 49, 52).labels) by {
      assert !IsHostLabel(NameAt(dg, 49, 52).labels[0]);
    }
    NoHostIsReported(dg, w, q, rr);
    CnameErrors(dg, w, q, rr);
    NameIsRest(dg, 49, 52);
    NoHostText(dg, Start(49, 52), true);
    assert FollowCname(dg, w, q, rr) == PassTruncated(q, Some(49));
    hide FollowCname;
    assert Step(dg, w, p) == PassTruncated(q, Some(49));
    hide Step;
    assert FirstPass(dg, w, p0, 2) == FirstPass(dg, w, p, 1);
  }

  lemma SecondIsStuck(x: Query, os: seq<Stray>)
    requires AsksFor(x, 99, 0x3120) && x.cname == Some(Owner(FirstReply(), 32)) && x.cnameCount == 0
    requires x.flags.quotefailCname
    ensures ReadReply(x, SecondReply(), os) == Stuck
  {
    hide FirstPass;
    hide ShortReply;
    hide ValidOwner;
    FirstName();
    ShortHeader(99, 0x3120, true, 0, 2, SecondAnswers());
    var q := SecondPassOver(x);
    var older := FirstReply();
    hide FirstReply;
    NothingThere(older[..Min(52, |older|)], 49);
  }

  /** A query for `a` is told of an alias to c in a reply that has been cut off, and asks for c; the reply to that has
      been cut off too, behind an alias to a name that is no hostname, at an offset where the first one has ended. */
  lemma CnameIsLost() returns (events: seq<Event>, s: St)
    ensures ValidConfig(ONE_SERVER) && Reaches(ONE_SERVER, INITIAL, events, s) && 0 in s.qs && Waiting(s, 0)
    ensures |s.qs[0].dgram| >= DNS_HDRSIZE && Relevant(SecondReply()) && Matches(s.qs[0], SecondReply(), 0, false)
    ensures forall os :: ReadReply(s.qs[0], SecondReply(), os) == Stuck
  {
    hide Inv;
    hide Reaches;
    hide Submit;
    hide Deliver;
    hide ReadReply;
    hide FirstReply;
    hide SecondReply;
    hide Possible;
    var cfg := ONE_SERVER;
    var e := Submitted([97], 1, REFUSING, 0);
    var t := Submit(cfg, INITIAL, [97], 1, REFUSING, 0);
    AsksFirst();
    InitialInv(cfg);
    NoEvents(cfg, INITIAL);
    ReachesNext(cfg, INITIAL, [], INITIAL, e);
    RunKeeps(cfg, INITIAL, [] + [e], t);
    var p := FirstIsRead(t.qs[0]);
    WaitingReads(cfg, t, 0);
    ReadingIsPossible(t.qs[0], FirstReply(), []);
    var f := Replied(0, Restart(p, true), 0);
    s := Apply(cfg, t, f);
    ReachesNext(cfg, INITIAL, [] + [e], t, f);
    events := ([] + [e]) + [f];
    StartsAgain(t, p);
    SecondBelongs(s.qs[0]);
    forall os ensures ReadReply(s.qs[0], SecondReply(), os) == Stuck {
      SecondIsStuck(s.qs[0], os);
    }
  }

  lemma SecondBelongs(x: Query)
    requires AsksFor(x, 99, 0x3120) && 0 in x.udpsent
    ensures |x.dgram| >= DNS_HDRSIZE && Relevant(SecondReply()) && Matches(x, SecondReply(), 0, false)
  {
    ShortReplyMatches(x, 99, 0x3120, true, 0, 2, SecondAnswers(), 0);
    hide ShortReply;
  }
}
