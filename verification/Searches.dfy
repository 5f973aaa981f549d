/** What a search makes of a CNAME that it followed for an earlier candidate: adns__search_next leaves cname_dgram as
    it is (adns/query.c:168-221). */
module Searches {
  import opened Basics
  import opened Names
  import opened Texts
  import opened Records
  import opened Queries
  import opened Answers
  import opened LifeCycle
  import opened Steps
  import opened Submission
  import opened Runs
  import opened Replies
  import opened Witnesses

  /** In every state of every run: a waiting query that has followed a CNAME asks for the name it leads to, if it is
      not searching. A searching query does if and only if it has started again at a CNAME since it chose its
      candidate, or the candidate is that name. */
  lemma AsksForItsCname(cfg: Config, events: seq<Event>, s: St, q: QId)
    requires ValidConfig(cfg) && Reaches(cfg, INITIAL, events, s) && Waiting(s, q)
    requires q in s.qs && s.qs[q].cname.Some?
    ensures var x, ls := s.qs[q], OwnerLabels(s.qs[q].cname.value);
            CurrentOwner(WantedBy(x), FirstState(x)) == ls && Question(x.dgram) &&
            (AskedName(x.dgram) == ls <==>
               !x.flags.search || x.aliased || ReadLabels(x.searchVb, 0, x.flags.quoteokQuery, 0) == Success(ls))
  {
    InitialInv(cfg);
    RunKeeps(cfg, INITIAL, events, s);
    hide Reaches;
    WaitingFacts(cfg, s, q);
    hide Inv;
    hide ReadLabels;
  }

  // ---------- A run on which it does not ----------

  const ONE_SUFFIX := Config(1, [[98]], 0)

  const SEARCHING := Flags(true, false, false, false, false, false, false, false)

  lemma LetterRead(s: seq<Byte>, p: nat, acc: Label)
    requires p < |s| && IsAlpha(s[p]) && |acc| < 255
    ensures ReadLabel(s, p, false, acc) == ReadLabel(s, p + 1, false, acc + [s[p]])
  {
  }

  /** A label of one letter, and the position behind its dot. */
  lemma LetterLabel(s: seq<Byte>, p: nat)
    requires p < |s| && IsAlpha(s[p]) && (p + 1 < |s| ==> s[p + 1] == DOT)
    ensures ReadLabel(s, p, false, []) == Success(([s[p]], if p + 1 < |s| then p + 2 else p + 1))
  {
    LetterRead(s, p, []);
    assert [] + [s[p]] == [s[p]];
  }

  lemma ReadsA()
    ensures ReadLabels([97], 0, false, 0) == Success([[97]])
  {
    var s: seq<Byte> := [97];
    LetterLabel(s, 0);
    hide ReadLabel;
    assert ReadLabels(s, 1, false, 2) == Success([]);
    assert [[97]] + [] == [[97]];
  }

  lemma ReadsAB()
    ensures ReadLabels([97, 46, 98], 0, false, 0) == Success([[97], [98]])
  {
    var s: seq<Byte> := [97, 46, 98];
    LetterLabel(s, 0);
    LetterLabel(s, 2);
    hide ReadLabel;
    assert ReadLabels(s, 3, false, 4) == Success([]);
    assert [[98]] + [] == [[98]] && ReadLabels(s, 2, false, 2) == Success([[98]]);
    assert [[97]] + [[98]] == [[97], [98]];
  }

  /** The search for `a` has asked for `a`. */
  ghost predicate AskedA(s: St)
  {
    0 in s.qs && s.udpw == [0] && s.nextid == 0x3120 &&
    var x := s.qs[0];
    AsksFor(x, 97, 0x311f) && x.cname.None? && x.cnameCount == 0 && x.flags == SEARCHING && x.searchName == [97] &&
    x.searchPos == 0 && x.searchDoneabs == 1 && x.state.Tosend? && x.parent.None? && x.retries == 1
  }

  lemma AskQuery(cfg: Config, s: St, q: QId, owner: seq<Byte>, ls: seq<Label>, now: int)
    requires ValidConfig(cfg) && q in s.qs && s.qs[q].parent.None? && s.qs[q].retries < UDPMAXRETRIES &&
             WithinLimits(ls)
    requires ReadLabels(owner, 0, s.qs[q].flags.quoteokQuery, 0) == Success(ls)
    ensures var t, id := QuerySimple(cfg, s, q, owner, now), s.nextid % 0x1_0000;
            q in t.qs && t.udpw == s.udpw + [q] && t.nextid == s.nextid + 1 &&
            t.qs[q] == Dispatched(cfg, Asked(s.qs[q], id, Message(id, ls, s.qs[q].typ % 0x1_0000)), now)
  {
    hide ReadLabels;
    hide Fail;
    hide SearchNext;
    MessageAsksForName(s.nextid % 0x1_0000, ls, s.qs[q].typ % 0x1_0000);
    hide Message;
  }

  lemma SubmitsA()
    ensures AskedA(Submit(ONE_SUFFIX, INITIAL, [97], 1, SEARCHING, 0))
  {
    hide QuerySimple;
    hide SearchNext;
    hide Message;
    hide ReadLabels;
    hide WithinLimits;
    hide Fail;
    var cfg, x := ONE_SUFFIX, Named(ONE_SUFFIX, [97], 1, SEARCHING);
    assert Dots([97]) == Dots([97][1..]) == 0;
    var s := Add(INITIAL, x);
    assert s.qs[0] == x && x.searchDoneabs == -1;
    TriesNext(cfg, s, 0, 0);
    var y := NextCandidate(cfg, x).value;
    ReadsA();
    OneLabelWithin();
    AskQuery(cfg, Set(s, 0, y), 0, [97], [[97]], 0);
  }

  lemma OneLabelWithin()
    ensures WithinLimits([[97]]) && WithinLimits([[97], [98]])
  {
    var a: seq<Label>, ab: seq<Label> := [[97]], [[97], [98]];
    assert a[1..] == [] && ab[1..] == [[98]] && ab[1..][1..] == [];
    assert Grown(1, [[98]]) == Grown(3, []);
  }

  /** NXDOMAIN, with an alias from a to c. */
  function AliasReply(): (dg: seq<Byte>) { ShortReply(97, 0x311f, false, 3, 1, ShortRecord(97, 5, [1, 99, 0])) }

  lemma AliasIsRead(x: Query)
    requires AsksFor(x, 97, 0x311f) && x.cname.None? && x.flags == SEARCHING && x.state.Tosend?
    ensures |AliasReply()| == 35
    ensures var r := ReadReply(x, AliasReply(), []);
            r.Read? && r.verdict.NextName? && r.verdict.pass.cname == Some(Owner(AliasReply(), 32))
  {
    hide ShortReply;
    hide ShortRecord;
    hide RecordAt;
    hide NameAt;
    hide SameName;
    hide RestText;
    hide CurrentOwner;
    var dg, w, p0 := AliasReply(), WantedBy(x), FirstState(x);
    ShortQuestion(x, 97, 0x311f);
    ShortHeader(97, 0x311f, false, 3, 1, ShortRecord(97, 5, [1, 99, 0]));
    AliasRecord(0x311f, false, 3, 99, Some([[97]]));
    OneByteNames(97, 97);
    PrintsTheName(dg, Start(32, 35), true, true);
    NameIsRest(dg, 32, 35);
    FollowsFirst(dg, w, p0, Rr(5, 1, 0, 3, 32), 35);
    hide Step;
    assert FirstPass(dg, w, p0, 1) == FirstPass(dg, w, Step(dg, w, p0).p, 0);
    hide FirstPass;
  }

  /** The search goes on to the next candidate, and keeps the CNAME. */
  lemma AsksForAB(s: St, v: Verdict)
    requires AskedA(s) && Possible(s.qs[0], v) && v.NextName? && ParentLives(s, 0) && Numbered(s)
    ensures var t := Deliver(ONE_SUFFIX, Unqueue(s, 0), 0, v, 0);
            0 in t.qs && 0 in t.udpw && t.qs[0].cname == v.pass.cname && t.qs[0].flags == SEARCHING &&
            t.qs[0].dgram == Message(0x3120, [[97], [98]], 1)
  {
    hide Possible;
    hide QuerySimple;
    hide SearchNext;
    hide Message;
    hide ReadLabels;
    hide WithinLimits;
    hide Deliver;
    PossibleNoted(s.qs[0], v);
    var cfg, u := ONE_SUFFIX, Set(Unqueue(s, 0), 0, Noted(s.qs[0], v.pass));
    NoteNext(cfg, Unqueue(s, 0), v);
    TriesNext(cfg, u, 0, 0);
    var y := NextCandidate(cfg, u.qs[0]).value;
    assert y.searchVb == [97] + [46] + [98] == [97, 46, 98];
    ReadsAB();
    OneLabelWithin();
    AskQuery(cfg, Set(u, 0, y), 0, [97, 46, 98], [[97], [98]], 0);
  }

  lemma NoteNext(cfg: Config, s: St, v: Verdict)
    requires ValidConfig(cfg) && 0 in s.qs && Possible(s.qs[0], v) && v.NextName? && Numbered(s) && s.qs[0].parent.None?
    ensures ParentLives(s, 0)
    ensures Deliver(cfg, s, 0, v, 0) == SearchNext(cfg, Set(s, 0, Noted(s.qs[0], v.pass)), 0, 0)
  {
    hide SearchNext;
    PossibleNoted(s.qs[0], v);
  }

  /** After `a` has turned out to be an alias of a name that does not exist, the search for `a` asks for a.b, and
      looks for records of c in the answer. */
  lemma MatchesAnotherName() returns (events: seq<Event>, s: St)
    ensures ValidConfig(ONE_SUFFIX) && Reaches(ONE_SUFFIX, INITIAL, events, s) && 0 in s.qs && Waiting(s, 0)
    ensures AskedName(s.qs[0].dgram) == [[97], [98]]
    ensures CurrentOwner(WantedBy(s.qs[0]), FirstState(s.qs[0])) == [[99]]
  {
    hide Inv;
    hide Reaches;
    hide Submit;
    hide Deliver;
    hide Message;
    hide ReadReply;
    hide AliasReply;
    hide Possible;
    hide WithinLimits;
    var cfg := ONE_SUFFIX;
    var e := Submitted([97], 1, SEARCHING, 0);
    var t := Submit(cfg, INITIAL, [97], 1, SEARCHING, 0);
    SubmitsA();
    InitialInv(cfg);
    NoEvents(cfg, INITIAL);
    ReachesNext(cfg, INITIAL, [], INITIAL, e);
    RunKeeps(cfg, INITIAL, [] + [e], t);
    AliasIsRead(t.qs[0]);
    var v := ReadReply(t.qs[0], AliasReply(), []).verdict;
    WaitingReads(cfg, t, 0);
    ReadingIsPossible(t.qs[0], AliasReply(), []);
    var f := Replied(0, v, 0);
    s := Apply(cfg, t, f);
    ReachesNext(cfg, INITIAL, [] + [e], t, f);
    events := ([] + [e]) + [f];
    AsksForAB(t, v);
    OneLabelWithin();
    MessageAsksForName(0x3120, [[97], [98]], 1);
    AliasName();
  }

  lemma AliasName()
    ensures |AliasReply()| == 35 && OwnerLabels(Owner(AliasReply(), 32)) == [[99]]
  {
    AliasRecord(0x311f, false, 3, 99, None);
  }
}
