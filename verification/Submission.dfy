/** Submitting queries, searching, child queries, and acting on a reply (adns/query.c:115-332,
    adns/types.c:667-691, 1124-1141, adns/reply.c:408-508). */
module Submission {
  import opened Basics
  import opened Names
  import opened Texts
  import opened Scans
  import opened Records
  import opened Queries
  import opened Answers
  import opened LifeCycle
  import opened Reverses
  import opened Steps

  // ---------- Searching ----------

  /** The next name to try: the name as given, first or last, or with a suffix of the search list. */
  function NextCandidate(cfg: Config, x: Query): (r: Option<Query>)
    ensures r.Some? ==> Remaining(cfg, r.value) < Remaining(cfg, x)
  {
    if x.searchDoneabs < 0 then
      Some(x.(searchDoneabs := 1, searchVb := x.searchName, dgram := []))
    else if x.searchPos >= |cfg.searchlist| then
      if x.searchDoneabs != 0 then None
      else Some(x.(searchDoneabs := 1, searchVb := x.searchName, dgram := []))
    else
      Some(x.(searchPos := x.searchPos + 1, dgram := [],
              searchVb := x.searchName + [DOT] + cfg.searchlist[x.searchPos]))
  }

  function Remaining(cfg: Config, x: Query): nat
  {
    Max(0, |cfg.searchlist| - x.searchPos) + (if x.searchDoneabs <= 0 then 1 else 0)
  }

  /** The names that successive calls of adns__search_next try. */
  function Candidates(cfg: Config, x: Query): seq<seq<Byte>>
    decreases Remaining(cfg, x)
  {
    match NextCandidate(cfg, x)
    case None => []
    case Some(y) => [y.searchVb] + Candidates(cfg, y)
  }

  function Suffixed(name: seq<Byte>, suffixes: seq<seq<Byte>>): (r: seq<seq<Byte>>)
    ensures |r| == |suffixes| && forall i :: 0 <= i < |suffixes| ==> r[i] == name + [DOT] + suffixes[i]
  {
    seq(|suffixes|, i requires 0 <= i < |suffixes| => name + [DOT] + suffixes[i])
  }

  lemma {:induction false} CandidatesFrom(cfg: Config, x: Query)
    requires x.searchPos <= |cfg.searchlist| && x.searchDoneabs in {0, 1}
    ensures Candidates(cfg, x) == Suffixed(x.searchName, cfg.searchlist[x.searchPos..]) +
                                  (if x.searchDoneabs == 0 then [x.searchName] else [])
    decreases |cfg.searchlist| - x.searchPos
  {
    if x.searchPos < |cfg.searchlist| {
      var y := NextCandidate(cfg, x).value;
      CandidatesFrom(cfg, y);
      assert Suffixed(x.searchName, cfg.searchlist[x.searchPos..]) ==
             [y.searchVb] + Suffixed(y.searchName, cfg.searchlist[y.searchPos..]);
    } else if x.searchDoneabs == 0 {
      var y := NextCandidate(cfg, x).value;
      assert Candidates(cfg, y) == [];
    }
  }

  /** A search tries every name exactly once: the name as given first when it has enough dots and
      last otherwise, and between the two the suffixes in the order of the search list. */
  lemma SearchOrder(cfg: Config, x: Query)
    requires x.searchPos == 0 && x.searchDoneabs in {-1, 0}
    ensures Candidates(cfg, x) ==
            (if x.searchDoneabs < 0 then [x.searchName] else []) + Suffixed(x.searchName, cfg.searchlist) +
            (if x.searchDoneabs < 0 then [] else [x.searchName])
  {
    assert cfg.searchlist[0..] == cfg.searchlist;
    if x.searchDoneabs < 0 {
      CandidatesFrom(cfg, NextCandidate(cfg, x).value);
    } else {
      CandidatesFrom(cfg, x);
    }
  }

  /** True when none of the names that a search tries ends inside an escape. */
  predicate SealedNames(cfg: Config, name: seq<Byte>, quoteok: bool)
  {
    !EndsInside(name, quoteok) &&
    forall i :: 0 <= i < |cfg.searchlist| ==> !EndsInside(name + [DOT] + cfg.searchlist[i], quoteok)
  }

  predicate SealedSearch(cfg: Config, x: Query)
  {
    x.flags.search ==> SealedNames(cfg, x.searchName, x.flags.quoteokQuery)
  }

  /** Over a whole search every scan stays inside the name that it is for, whatever stands behind that, if and only if
      the names are sealed. */
  lemma SealedIsInside(cfg: Config, x: Query)
    requires x.searchPos == 0 && x.searchDoneabs in {-1, 0} && x.flags.search
    ensures SealedSearch(cfg, x) <==>
            forall name, behind: seq<Byte> :: name in Candidates(cfg, x) ==>
              StaysInside(name + behind, |name|, x.flags.quoteokQuery)
  {
    SearchOrder(cfg, x);
    hide EndsInside;
    hide StaysInside;
    var names, ok := Candidates(cfg, x), x.flags.quoteokQuery;
    hide Candidates;
    var all := Suffixed(x.searchName, cfg.searchlist);
    assert forall name :: name in names <==> name == x.searchName || name in all;
    assert forall i :: 0 <= i < |all| ==> all[i] in all;
    forall name: seq<Byte> | name in names
      ensures !EndsInside(name, ok) <==> forall behind: seq<Byte> :: StaysInside(name + behind, |name|, ok)
    {
      SealedName(name, ok);
    }
    assert (forall name :: name in names ==> !EndsInside(name, ok)) <==> SealedNames(cfg, x.searchName, ok);
  }

  lemma SealedName(name: seq<Byte>, quoteok: bool)
    ensures !EndsInside(name, quoteok) <==> forall behind: seq<Byte> :: StaysInside(name + behind, |name|, quoteok)
  {
    ScansOnlyTheName(name, quoteok);
    forall behind: seq<Byte>
      ensures StaysInside(name + behind, |name|, quoteok) <==>
              Encode(name + behind, |name|, 0, quoteok, 0) == Intended(name, quoteok)
    {
      assert (name + behind)[..|name|] == name;
    }
    hide EndsInside;
    hide Encode;
  }

  lemma NextIsSealed(cfg: Config, x: Query)
    requires SealedSearch(cfg, x) && x.flags.search && NextCandidate(cfg, x).Some?
    ensures var y := NextCandidate(cfg, x).value;
            SealedSearch(cfg, y) && StaysInside(y.searchVb, |y.searchVb|, y.flags.quoteokQuery)
  {
    hide EndsInside;
    hide StaysInside;
    var y := NextCandidate(cfg, x).value;
    assert !EndsInside(y.searchVb, y.flags.quoteokQuery);
    SealedStays(y.searchVb, y.flags.quoteokQuery);
  }

  /** A search for no name at all. */
  lemma NothingIsSealed(cfg: Config, quoteok: bool)
    ensures SealedNames(cfg, [], quoteok)
  {
    assert OpenEscape([], 0).None?;
    forall i | 0 <= i < |cfg.searchlist| ensures !EndsInside([] + [DOT] + cfg.searchlist[i], quoteok) {
      EmptyLabelIsSealed([] + [DOT] + cfg.searchlist[i], quoteok);
    }
    hide EndsInside;
  }

  lemma EmptyLabelIsSealed(s: seq<Byte>, quoteok: bool)
    requires s != [] && s[0] == DOT
    ensures !EndsInside(s, quoteok)
  {
    var e := OpenEscape(s, 0);
    if e.Some? {
      assert s[..e.value][0] == DOT;
      assert ScanFrom(s[..e.value], e.value + 1, 0, true, []) == Scanned([], 1);
    }
    hide OpenEscape;
  }

  lemma {:induction false} ReadWithin(s: seq<Byte>, p: nat, quoteok: bool, n: nat)
    requires p <= |s| && ReadLabels(s, p, quoteok, n).Success?
    ensures var ls := ReadLabels(s, p, quoteok, n).value;
            WireLabels(ls) && (ls == [] || n + |Wire(ls)| < DNS_MAXDOMAIN)
    decreases |s| - p
  {
    hide ReadLabel;
    if p < |s| {
      var (l, q) := ReadLabel(s, p, quoteok, []).value;
      ReadWithin(s, q, quoteok, n + |l| + 1);
      var rest := ReadLabels(s, q, quoteok, n + |l| + 1).value;
      assert ([l] + rest)[1..] == rest;
    }
  }

  /** Encodes the name and sends the query, or gives up (adns/query.c:137-166). An overlong name
      only ends a search when no candidate is left. */
  function QuerySimple(cfg: Config, s: St, q: QId, owner: seq<Byte>, now: int): (t: St)
    requires ValidConfig(cfg) && q in s.qs && s.qs[q].parent.None?
    ensures t.unused == s.unused
    decreases Remaining(cfg, s.qs[q]), 1
  {
    var x, u := s.qs[q], s.(nextid := s.nextid + 1);
    match ReadLabels(owner, 0, x.flags.quoteokQuery, 0)
    case Failure(st) =>
      if st == QueryDomainTooLong && x.flags.search then SearchNext(cfg, u, q, now) else Fail(u, q, st)
    case Success(ls) =>
      ReadWithin(owner, 0, x.flags.quoteokQuery, 0);
      var id := s.nextid % 0x1_0000;
      Send(cfg, Set(u, q, Asked(x, id, Message(id, ls, x.typ % 0x1_0000))), q, now)
  }

  /** A query with a message for the name chosen. */
  function Asked(x: Query, id: nat, dgram: seq<Byte>): Query { x.(id := id, dgram := dgram, aliased := false) }

  /** adns__search_next. */
  function SearchNext(cfg: Config, s: St, q: QId, now: int): (t: St)
    requires ValidConfig(cfg) && q in s.qs && s.qs[q].parent.None?
    ensures t.unused == s.unused
    decreases Remaining(cfg, s.qs[q]), 0
  {
    match NextCandidate(cfg, s.qs[q])
    case None => Fail(s, q, NxDomain)
    case Some(y) => QuerySimple(cfg, Set(s, q, y), q, y.searchVb, now)
  }

  /** True of the candidates that search_next passes over. */
  predicate Overlong(x: Query, name: seq<Byte>)
  {
    ReadLabels(name, 0, x.flags.quoteokQuery, 0) == Failure(QueryDomainTooLong)
  }

  /** Where one call of search_next ends up: how many overlong candidates it passes over, the query
      with the first other candidate, or the exhausted query when there is none. */
  datatype Settled = Settled(skipped: nat, x: Query, exhausted: bool)

  function Settle(cfg: Config, x: Query): Settled
    decreases Remaining(cfg, x)
  {
    match NextCandidate(cfg, x)
    case None => Settled(0, x, true)
    case Some(y) =>
      if !Overlong(x, y.searchVb) then Settled(0, y, false)
      else
        var r := Settle(cfg, y);
        r.(skipped := r.skipped + 1)
  }

  /** It passes over overlong candidates only, ends at the first other one, and leaves the rest. */
  lemma {:induction false} SettlesAtFirstUsable(cfg: Config, x: Query)
    ensures var names, r := Candidates(cfg, x), Settle(cfg, x);
            r.skipped <= |names| && (forall i :: 0 <= i < r.skipped ==> Overlong(x, names[i])) &&
            (r.exhausted <==> r.skipped == |names|) &&
            (!r.exhausted ==> !Overlong(x, names[r.skipped]) && r.x.searchVb == names[r.skipped] &&
                              Candidates(cfg, r.x) == names[r.skipped + 1..])
    decreases Remaining(cfg, x)
  {
    if NextCandidate(cfg, x).Some? {
      var y := NextCandidate(cfg, x).value;
      SettlesAtFirstUsable(cfg, y);
      assert y.flags == x.flags && forall name :: Overlong(y, name) == Overlong(x, name);
      hide Overlong;
      hide NextCandidate;
      var rest, r := Candidates(cfg, y), Settle(cfg, y);
      assert Candidates(cfg, x) == [y.searchVb] + rest;
      if Overlong(x, y.searchVb) {
        assert Settle(cfg, x) == r.(skipped := r.skipped + 1);
        assert forall i :: 0 < i < r.skipped + 1 ==> Candidates(cfg, x)[i] == rest[i - 1];
      }
    }
  }

  lemma SettledFields(cfg: Config, x: Query)
    ensures var y := NextCandidate(cfg, x); y.Some? ==> y.value.parent == x.parent && y.value.flags == x.flags
  {
  }

  lemma SkipOne(cfg: Config, s: St, q: QId, now: int)
    requires ValidConfig(cfg) && q in s.qs && s.qs[q].parent.None? && s.qs[q].flags.search
    requires NextCandidate(cfg, s.qs[q]).Some? && Overlong(s.qs[q], NextCandidate(cfg, s.qs[q]).value.searchVb)
    ensures SearchNext(cfg, s, q, now) ==
            SearchNext(cfg, Set(s, q, NextCandidate(cfg, s.qs[q]).value).(nextid := s.nextid + 1), q, now)
  {
    hide QuerySimple;
    hide SearchNext;
    hide ReadLabels;
    var y := NextCandidate(cfg, s.qs[q]).value;
    SettledFields(cfg, s.qs[q]);
    TriesNext(cfg, s, q, now);
    hide NextCandidate;
    OverlongIsSkipped(cfg, Set(s, q, y), q, y.searchVb, now);
  }

  lemma TriesNext(cfg: Config, s: St, q: QId, now: int)
    requires ValidConfig(cfg) && q in s.qs && s.qs[q].parent.None? && NextCandidate(cfg, s.qs[q]).Some?
    ensures var y := NextCandidate(cfg, s.qs[q]).value;
            y.parent.None? && SearchNext(cfg, s, q, now) == QuerySimple(cfg, Set(s, q, y), q, y.searchVb, now)
  {
    hide QuerySimple;
    hide Fail;
    SettledFields(cfg, s.qs[q]);
  }

  lemma OverlongIsSkipped(cfg: Config, s: St, q: QId, owner: seq<Byte>, now: int)
    requires ValidConfig(cfg) && q in s.qs && s.qs[q].parent.None? && s.qs[q].flags.search && Overlong(s.qs[q], owner)
    ensures QuerySimple(cfg, s, q, owner, now) == SearchNext(cfg, s.(nextid := s.nextid + 1), q, now)
  {
    hide SearchNext;
    hide ReadLabels;
    hide Fail;
    hide Send;
    hide Message;
  }

  /** So does adns__search_next, through its recursion with query_simple; every name tried takes an
      identifier. It fails with NXDOMAIN exactly when no usable candidate is left. */
  lemma {:induction false} SearchNextSettles(cfg: Config, s: St, q: QId, now: int)
    requires ValidConfig(cfg) && q in s.qs && s.qs[q].parent.None? && s.qs[q].flags.search
    ensures var r := Settle(cfg, s.qs[q]);
            r.x.parent.None? &&
            var t := Set(s, q, r.x).(nextid := s.nextid + r.skipped);
            SearchNext(cfg, s, q, now) ==
            if r.exhausted then Fail(t, q, NxDomain) else QuerySimple(cfg, t, q, r.x.searchVb, now)
    decreases Remaining(cfg, s.qs[q])
  {
    hide QuerySimple;
    hide Fail;
    var x := s.qs[q];
    SettledFields(cfg, x);
    if NextCandidate(cfg, x).None? {
      assert Set(s, q, x) == s;
      assert s.(nextid := s.nextid + 0) == s;
    } else {
      var y := NextCandidate(cfg, x).value;
      var t := Set(s, q, y).(nextid := s.nextid + 1);
      if Overlong(x, y.searchVb) {
        SkipOne(cfg, s, q, now);
        SearchNextSettles(cfg, t, q, now);
        assert s.qs[q := y][q := Settle(cfg, y).x] == s.qs[q := Settle(cfg, y).x];
      } else {
        assert Set(s, q, y).(nextid := s.nextid + 0) == Set(s, q, y);
      }
    }
  }

  // ---------- Submission ----------

  /** query_alloc. */
  function Virgin(typ: nat, flags: Flags): Query
  {
    Query(Tosend, None, [], NoCallback, 0, typ, flags, -2, 0, 0, {}, 0, [], None, 0, [], [], 0, 0, 0, None,
          Answer(Ok, None, None, []), [], 0, false, map[], [], [])
  }

  function Dots(s: seq<Byte>): nat { if s == [] then 0 else (if s[0] == DOT then 1 else 0) + Dots(s[1..]) }

  /** An unescaped trailing dot makes a name absolute. */
  predicate Absolute(owner: seq<Byte>)
  {
    owner != [] && owner[|owner| - 1] == DOT && (|owner| < 2 || owner[|owner| - 2] != BACKSLASH)
  }

  /** adns_submit, up to the system calls it makes at the end. */
  function Submit(cfg: Config, s: St, owner: seq<Byte>, typ: nat, flags: Flags, now: int): (t: St)
    requires ValidConfig(cfg)
    ensures t.unused == s.unused + 1
  {
    var q := s.unused;
    if owner == [] then Fail(Add(s, Virgin(typ, flags)), q, QueryDomainInvalid)
    else if |owner| > DNS_MAXDOMAIN + 1 then Fail(Add(s, Virgin(typ, flags)), q, QueryDomainTooLong)
    else if Absolute(owner) then SubmitNamed(cfg, s, owner[..|owner| - 1], typ, flags.(search := false), now)
    else SubmitNamed(cfg, s, owner, typ, flags, now)
  }

  function SubmitNamed(cfg: Config, s: St, name: seq<Byte>, typ: nat, flags: Flags, now: int): (t: St)
    requires ValidConfig(cfg)
    ensures t.unused == s.unused + 1
  {
    var q, x := s.unused, Named(cfg, name, typ, flags);
    if flags.search then SearchNext(cfg, Add(s, x), q, now) else QuerySimple(cfg, Add(s, x), q, name, now)
  }

  /** A new query with its name, which a search keeps to make candidates of. */
  function Named(cfg: Config, name: seq<Byte>, typ: nat, flags: Flags): Query
  {
    var x := Virgin(typ, flags);
    if flags.search then
      x.(searchName := name, searchVb := name, searchDoneabs := if Dots(name) >= cfg.ndots then -1 else 0)
    else if flags.owner then x.(allocations := 1, answer := x.answer.(owner := Some(name)))
    else x
  }

  // ---------- Child queries ----------

  const NO_FLAGS := Flags(false, false, false, false, false, false, false, false)

  /** What a child query is for: a name, and the record of the parent's answer that the name is in. */
  datatype Kid = Kid(labels: seq<Label>, slot: nat)

  /** The address query for a name in a reply, before it is linked to its parent. */
  function NewKid(parent: Query, id: nat, kid: Kid): Query
    requires WireLabels(kid.labels)
  {
    Virgin(ADDR, NO_FLAGS.(quoteokQuery := true, cnameForbid := parent.typ != PTR && !parent.flags.cnameLoose))
      .(callback := if parent.typ == PTR then IcbPtr else IcbHostaddr, slot := kid.slot, id := id,
        dgram := Message(id, kid.labels, ADDR), first := Message(id, kid.labels, ADDR))
  }

  /** A child is small enough for UDP and has not been sent before, so its submission always leaves it
      waiting on the UDP queue: it cannot finish before its parent is known. */
  lemma KidWaits(cfg: Config, s: St, parent: Query, kid: Kid, id: nat, now: int)
    requires ValidConfig(cfg) && WithinLimits(kid.labels)
    ensures var x := NewKid(parent, id, kid);
            |x.dgram| <= 273 &&
            Send(cfg, Add(s, x), s.unused, now) ==
            Add(s, Dispatched(cfg, x, now)).(udpw := s.udpw + [s.unused])
  {
    MessageAsksForName(id, kid.labels, ADDR);
    var x := NewKid(parent, id, kid);
    hide Message;
    assert s.qs[s.unused := x][s.unused := Dispatched(cfg, x, now)] == s.qs[s.unused := Dispatched(cfg, x, now)];
  }

  /** Sends a new query and then links it to its parent (adns/types.c:681-687, 1133-1140). */
  function SendKid(cfg: Config, s: St, p: QId, x: Query, now: int): St
    requires ValidConfig(cfg) && p in s.qs && s.unused !in s.qs
    requires x.parent.None? && |x.dgram| <= DNS_MAXUDP && x.retries == 0
  {
    var c := s.unused;
    var t := Send(cfg, Add(s, x), c, now);
    t.(qs := t.qs[c := t.qs[c].(parent := Some(p))][p := t.qs[p].(children := t.qs[p].children + [c])])
  }

  /** adns__internal_submit for a child. */
  function SubmitKid(cfg: Config, s: St, p: QId, kid: Kid, now: int): St
    requires ValidConfig(cfg) && p in s.qs && s.unused !in s.qs && WithinLimits(kid.labels)
  {
    var id := s.nextid % 0x1_0000;
    KidWaits(cfg, s, s.qs[p], kid, id, now);
    SendKid(cfg, s.(nextid := s.nextid + 1), p, NewKid(s.qs[p], id, kid), now)
  }

  lemma SubmitKidIs(cfg: Config, s: St, p: QId, kid: Kid, now: int)
    requires ValidConfig(cfg) && p in s.qs && s.unused !in s.qs && WithinLimits(kid.labels)
    ensures SubmitKid(cfg, s, p, kid, now) ==
            AddKid(s.(nextid := s.nextid + 1), p, Dispatched(cfg, NewKid(s.qs[p], s.nextid % 0x1_0000, kid), now))
  {
    var c, id := s.unused, s.nextid % 0x1_0000;
    var s' := s.(nextid := s.nextid + 1);
    KidWaits(cfg, s', s.qs[p], kid, id, now);
    hide NewKid;
    hide Dispatched;
    hide Send;
    var x := Dispatched(cfg, NewKid(s.qs[p], id, kid), now);
    assert SubmitKid(cfg, s, p, kid, now).qs == AddKid(s', p, x).qs;
  }

  predicate AllWithinLimits(kids: seq<Kid>) { forall i :: 0 <= i < |kids| ==> WithinLimits(kids[i].labels) }

  /** The address of the next query is not in use. */
  ghost predicate Numbered(s: St) { forall q :: q in s.qs ==> q < s.unused }

  function SubmitKids(cfg: Config, s: St, p: QId, kids: seq<Kid>, now: int): (t: St)
    requires ValidConfig(cfg) && p in s.qs && Numbered(s)
    requires AllWithinLimits(kids)
    ensures p in t.qs && t.qs[p].parent == s.qs[p].parent && s.qs.Keys <= t.qs.Keys
    ensures t.unused >= s.unused && Numbered(t)
    decreases |kids|
  {
    if kids == [] then s
    else
      SubmitKidIs(cfg, s, p, kids[0], now);
      SubmitKids(cfg, SubmitKid(cfg, s, p, kids[0], now), p, kids[1..], now)
  }

  // ---------- Replies ----------

  /** What reading a reply has come to (the ends of adns__procdgram). */
  datatype Verdict =
    | Failed(pass: Pass, status: Status)
    | NextName(pass: Pass)
    | Restart(pass: Pass, usevc: bool)
    | Answered(pass: Pass, kids: seq<Kid>, failed: Option<Status>, rrs: seq<Stored>,
               ptrAddr: Option<seq<Byte>>, blocks: nat)

  /** The query after its answer section has been looked at. */
  function Noted(x: Query, p: Pass): Query
  {
    x.(cname := p.cname, cnameCount := p.cnameCount, allocations := p.allocations,
       answer := x.answer.(cname := p.cnameText))
  }

  lemma OwnerWithinLimits(o: Owner)
    ensures WithinLimits(OwnerLabels(o))
  {
    if ValidOwner(o) {
      DecodedWithinLimits(o.dgram, o.begin, |o.dgram|);
    }
  }

  ghost function Restarted(x: Query, nextid: nat, usevc: bool): Query
  {
    var y := x.(state := Tosend, retries := 0, resetAt := |x.sent|, flags := x.flags.(usevc := x.flags.usevc || usevc),
                answer := x.answer.(rrs := []));
    if x.cname.None? then y
    else
      OwnerWithinLimits(x.cname.value);
      var id := nextid % 0x1_0000;
      y.(id := id, dgram := Message(id, OwnerLabels(x.cname.value), x.typ % 0x1_0000), aliased := true)
  }

  predicate HasKid(kids: seq<Kid>, n: nat) { exists i :: 0 <= i < |kids| && kids[i].slot == n }

  /** The record that a child is for: the host, or the name, that it asks about. */
  predicate ForRecord(x: Query, kid: Kid, rr: Stored)
  {
    var text := Printed(kid.labels, x.flags.quoteokAnshost, true);
    if x.typ == PTR then rr == Domain(text) else rr.Host? && rr.host == text
  }

  /** An answer read to its end has records; every child has its record, every name of a PTR answer and every host
      without addresses its child, and the address to find is the one that the question spells. */
  ghost predicate Complete(x: Query, kids: seq<Kid>, rrs: seq<Stored>, ptrAddr: Option<seq<Byte>>)
  {
    rrs != [] &&
    (forall i :: 0 <= i < |kids| ==> kids[i].slot < |rrs| && ForRecord(x, kids[i], rrs[kids[i].slot])) &&
    (HasHosts(x.typ) ==> forall n: nat :: n < |rrs| ==> Resolved(rrs[n]) || (rrs[n].Host? && HasKid(kids, n))) &&
    (x.typ == PTR ==>
       (forall n: nat :: n < |rrs| ==> HasKid(kids, n)) &&
       (kids != [] ==> ptrAddr.Some? && ptrAddr == Reverse(AskedName(x.dgram))))
  }

  /** A verdict that the query can have come to. */
  ghost predicate Possible(x: Query, v: Verdict)
  {
    ValidPass(v.pass) && (v.pass.cname.None? ==> x.cname.None?) &&
    match v
    case Failed(_, st) => st != Ok
    case NextName(_) => x.flags.search && x.parent.None? && x.state.Tosend?
    case Answered(_, kids, failed, rrs, ptrAddr, _) =>
      AllWithinLimits(kids) && (kids != [] ==> Derefs(x.typ)) && failed != Some(Ok) &&
      (failed.None? ==> Complete(x, kids, rrs, ptrAddr))
    case Restart(_, _) => true
  }

  /** Acts on a verdict; the query is being processed. */
  ghost function Deliver(cfg: Config, s: St, q: QId, v: Verdict, now: int): (t: St)
    requires ValidConfig(cfg) && q in s.qs && Possible(s.qs[q], v) && Numbered(s)
    requires ParentLives(s, q)
    ensures t.unused >= s.unused
  {
    PossibleNoted(s.qs[q], v);
    Act(cfg, Set(s, q, Noted(s.qs[q], v.pass)), q, v, now)
  }

  ghost function Act(cfg: Config, s: St, q: QId, v: Verdict, now: int): (t: St)
    requires ValidConfig(cfg) && q in s.qs && Possible(s.qs[q], v) && Numbered(s)
    requires ParentLives(s, q)
    ensures t.unused >= s.unused
  {
    match v
    case Failed(_, st) => Fail(s, q, st)
    case NextName(_) => SearchNext(cfg, s, q, now)
    case Restart(_, usevc) => Retry(cfg, s, q, usevc, now)
    case Answered(_, kids, failed, rrs, ptrAddr, blocks) =>
      TakeAnswer(cfg, s, q, kids, failed, rrs, ptrAddr, blocks, now)
  }

  /** x_restartquery (adns/reply.c:479-507). */
  ghost function Retry(cfg: Config, s: St, q: QId, usevc: bool, now: int): (t: St)
    requires ValidConfig(cfg) && q in s.qs && ParentLives(s, q)
    ensures t.unused == s.unused
  {
    Send(cfg, Retried(s, q, usevc), q, now)
  }

  /** The second pass: it submits child queries until it ends or fails. */
  function TakeAnswer(cfg: Config, s: St, q: QId, kids: seq<Kid>, failed: Option<Status>,
                      rrs: seq<Stored>, ptrAddr: Option<seq<Byte>>, blocks: nat, now: int): (t: St)
    requires ValidConfig(cfg) && q in s.qs && ParentLives(s, q) && Numbered(s)
    requires AllWithinLimits(kids)
    ensures t.unused >= s.unused
  {
    var u := SubmitKids(cfg, s, q, kids, now);
    Conclude(Set(u, q, u.qs[q].(ptrAddr := ptrAddr, allocations := u.qs[q].allocations + blocks)), q, failed, rrs)
  }

  /** The second pass is over (adns/reply.c:446-466). */
  function Conclude(s: St, q: QId, failed: Option<Status>, rrs: seq<Stored>): (t: St)
    requires q in s.qs && ParentLives(s, q)
    ensures t.unused == s.unused
  {
    if failed.Some? then Fail(s, q, failed.value)
    else
      var u := Set(s, q, s.qs[q].(answer := s.qs[q].answer.(rrs := rrs)));
      if s.qs[q].children != [] then Enqueue(Set(u, q, u.qs[q].(state := Childw)), q)
      else Finish(u, q)
  }

  // ---------- All of them keep the invariant ----------

  lemma VirginFields(cfg: Config, typ: nat, flags: Flags)
    requires ValidConfig(cfg)
    ensures Fields(cfg, Virgin(typ, flags), true)
  {
    assert 0 % cfg.nservers == 0;
  }

  /** A query that may be given a new name and sent: it is being processed, alone, and not searching
      unless it has the flag. */
  ghost predicate Sendable(cfg: Config, s: St, q: QId, now: int)
    requires ValidConfig(cfg)
  {
    Inv(cfg, s, {q}) && q in s.qs && s.qs[q].parent.None? && s.qs[q].state.Tosend? && s.qs[q].children == [] &&
    Ready(s.qs[q], now) && s.qs[q].ptrAddr.None? && (s.qs[q].flags.search || s.qs[q].cname.None?)
  }

  lemma SendableWith(cfg: Config, s: St, q: QId, now: int, y: Query)
    requires ValidConfig(cfg) && Sendable(cfg, s, q, now) && Fields(cfg, y, true) && Ready(y, now)
    requires y.state.Tosend? && SameKin(y, s.qs[q]) && y.ptrAddr.None? && (y.flags.search || y.cname.None?)
    ensures Sendable(cfg, Set(s, q, y), q, now)
  {
    hide Inv;
    hide Fields;
    hide Ready;
    SetKeeps(cfg, s, {q}, q, y);
  }

  lemma NextIdKeeps(cfg: Config, s: St, off: set<QId>, nextid: nat)
    requires ValidConfig(cfg) && Inv(cfg, s, off)
    ensures Inv(cfg, s.(nextid := nextid), off)
  {
    hide Links;
    hide Fields;
    var t := s.(nextid := nextid);
    forall q | q in t.qs ensures q < t.unused && Links(t, off, q) && Fields(cfg, t.qs[q], q in off) {
      SameLinks(s, t, off, q);
    }
  }

  lemma SameLinks(s: St, t: St, off: set<QId>, q: QId)
    requires t.qs == s.qs && q in s.qs && Links(s, off, q)
    ensures Links(t, off, q)
  {
    hide RightChild;
    hide SlotOk;
    if q !in off && s.qs[q].state.Childw? {
      SameCover(s, t, q);
    }
    hide Covered;
  }

  lemma SameCover(s: St, t: St, q: QId)
    requires t.qs == s.qs && q in s.qs && Covered(s, q)
    ensures Covered(t, q)
  {
    forall i: nat | KidFor(s, q, i) ensures KidFor(t, q, i) {
      var c :| c in s.qs[q].children && c in s.qs && s.qs[c].slot == i;
    }
  }

  lemma SendableFields(cfg: Config, s: St, q: QId, now: int)
    requires ValidConfig(cfg) && Sendable(cfg, s, q, now)
    ensures Fields(cfg, s.qs[q], true)
  {
    InvAt(cfg, s, {q}, q);
  }

  lemma CandidateFields(cfg: Config, x: Query)
    requires ValidConfig(cfg) && Fields(cfg, x, true) && NextCandidate(cfg, x).Some? && x.state.Tosend? &&
             x.parent.None?
    ensures Fields(cfg, NextCandidate(cfg, x).value, true)
  {
    hide AskedName;
    hide Asking;
    hide ReadLabels;
  }

  /** The name kept for the answer is the one that a query goes by. */
  ghost predicate GoesBy(x: Query, owner: seq<Byte>)
  {
    if x.flags.search then owner == x.searchVb else x.cname.None? && (x.flags.owner ==> x.answer.owner == Some(owner))
  }

  /** The datagram asks for this name. */
  ghost predicate AsksOwner(x: Query, dgram: seq<Byte>, owner: seq<Byte>)
  {
    ReadLabels(owner, 0, x.flags.quoteokQuery, 0) == Success(AskedName(dgram))
  }

  lemma AskedFields(cfg: Config, x: Query, id: nat, dgram: seq<Byte>, owner: seq<Byte>)
    requires ValidConfig(cfg) && Fields(cfg, x, true) && id < 0x1_0000 && x.state.Tosend?
    requires x.parent.None? && GoesBy(x, owner) && AsksOwner(x, dgram, owner)
    ensures Fields(cfg, Asked(x, id, dgram), true)
  {
    hide AskedName;
    hide ReadLabels;
  }

  lemma MessageIsQuestion(id: nat, ls: seq<Label>, typ: nat)
    requires WireLabels(ls) && (ls == [] || |Wire(ls)| < DNS_MAXDOMAIN)
    ensures WithinLimits(ls) && Question(Message(id, ls, typ))
  {
    WireLength(ls, 0);
    MessageAsksForName(id, ls, typ);
    hide Wire;
    hide Grown;
  }

  lemma AskedSendable(cfg: Config, s: St, q: QId, id: nat, dgram: seq<Byte>, owner: seq<Byte>, now: int)
    requires ValidConfig(cfg) && Sendable(cfg, s, q, now) && id < 0x1_0000
    requires GoesBy(s.qs[q], owner) && AsksOwner(s.qs[q], dgram, owner)
    ensures Sendable(cfg, Set(s, q, Asked(s.qs[q], id, dgram)), q, now)
  {
    SendableFields(cfg, s, q, now);
    AskedFields(cfg, s.qs[q], id, dgram, owner);
    ReadyAlike(s.qs[q], Asked(s.qs[q], id, dgram), now);
    SendableWith(cfg, s, q, now, Asked(s.qs[q], id, dgram));
  }

  lemma CandidateSendable(cfg: Config, s: St, q: QId, now: int)
    requires ValidConfig(cfg) && Sendable(cfg, s, q, now)
    ensures var y := NextCandidate(cfg, s.qs[q]); y.Some? ==> Sendable(cfg, Set(s, q, y.value), q, now)
  {
    SendableFields(cfg, s, q, now);
    var y := NextCandidate(cfg, s.qs[q]);
    if y.Some? {
      CandidateFields(cfg, s.qs[q]);
      ReadyAlike(s.qs[q], y.value, now);
      hide Inv;
      hide Fields;
      SendableWith(cfg, s, q, now, y.value);
    }
  }

  lemma AskKeeps(cfg: Config, s: St, q: QId, id: nat, dgram: seq<Byte>, owner: seq<Byte>, now: int)
    requires ValidConfig(cfg) && Sendable(cfg, s, q, now) && id < 0x1_0000 && Asking(Asked(s.qs[q], id, dgram))
    requires GoesBy(s.qs[q], owner) && AsksOwner(s.qs[q], dgram, owner)
    ensures Inv(cfg, Send(cfg, Set(s, q, Asked(s.qs[q], id, dgram)), q, now), {})
  {
    var y := Asked(s.qs[q], id, dgram);
    AskedSendable(cfg, s, q, id, dgram, owner, now);
    hide Inv;
    hide Asking;
    hide Ready;
    hide Send;
    SendKeeps(cfg, Set(s, q, y), q, now);
  }

  /** The message for a name asks for the name. */
  lemma AskedIsAsking(x: Query, id: nat, owner: seq<Byte>)
    requires ReadLabels(owner, 0, x.flags.quoteokQuery, 0).Success? && GoesBy(x, owner) && id < 0x1_0000
    ensures WireLabels(ReadLabels(owner, 0, x.flags.quoteokQuery, 0).value)
    ensures var m := Message(id, ReadLabels(owner, 0, x.flags.quoteokQuery, 0).value, x.typ % 0x1_0000);
            Asking(Asked(x, id, m)) && AsksOwner(x, m, owner)
  {
    hide ReadLabels;
    var ls := ReadLabels(owner, 0, x.flags.quoteokQuery, 0).value;
    ReadWithin(owner, 0, x.flags.quoteokQuery, 0);
    MessageIsQuestion(id, ls, x.typ % 0x1_0000);
    MessageAsksForName(id, ls, x.typ % 0x1_0000);
    MessagePosesType(id, ls, x.typ);
    hide Message;
    hide Poses;
  }

  lemma {:induction false} QuerySimpleKeeps(cfg: Config, s: St, q: QId, owner: seq<Byte>, now: int)
    requires ValidConfig(cfg) && Sendable(cfg, s, q, now) && GoesBy(s.qs[q], owner)
    ensures Inv(cfg, QuerySimple(cfg, s, q, owner, now), {})
    decreases Remaining(cfg, s.qs[q]), 1
  {
    hide Inv;
    hide Ready;
    hide Fail;
    hide Send;
    hide SearchNext;
    hide ReadLabels;
    hide Message;
    hide Asking;
    hide Asked;
    var x, t := s.qs[q], s.(nextid := s.nextid + 1);
    NextIdKeeps(cfg, s, {q}, s.nextid + 1);
    match ReadLabels(owner, 0, x.flags.quoteokQuery, 0)
    case Failure(st) =>
      if st == QueryDomainTooLong && x.flags.search {
        SearchNextKeeps(cfg, t, q, now);
      } else {
        FailKeeps(cfg, t, q, st);
      }
    case Success(ls) =>
      AskedIsAsking(x, s.nextid % 0x1_0000, owner);
      AskKeeps(cfg, t, q, s.nextid % 0x1_0000, Message(s.nextid % 0x1_0000, ls, x.typ % 0x1_0000), owner, now);
  }

  lemma ReadyAlike(x: Query, y: Query, now: int)
    requires Ready(x, now) && y.flags == x.flags && y.retries == x.retries && y.sent == x.sent
    requires y.answer.status == x.answer.status
    ensures Ready(y, now)
  {
  }

  lemma {:induction false} SearchNextKeeps(cfg: Config, s: St, q: QId, now: int)
    requires ValidConfig(cfg) && Sendable(cfg, s, q, now) && s.qs[q].flags.search
    ensures Inv(cfg, SearchNext(cfg, s, q, now), {})
    decreases Remaining(cfg, s.qs[q]), 0
  {
    hide Inv;
    hide Ready;
    hide Fail;
    hide QuerySimple;
    match NextCandidate(cfg, s.qs[q])
    case None => FailKeeps(cfg, s, q, NxDomain);
    case Some(y) =>
      CandidateSendable(cfg, s, q, now);
      QuerySimpleKeeps(cfg, Set(s, q, y), q, y.searchVb, now);
  }

  lemma AddSendable(cfg: Config, s: St, x: Query, now: int)
    requires ValidConfig(cfg) && Inv(cfg, s, {}) && Fields(cfg, x, true)
    requires x.parent.None? && x.children == [] && x.state.Tosend? && x.retries == 0 && x.ptrAddr.None? &&
             x.cname.None? && x.answer.status == Ok
    ensures Sendable(cfg, Add(s, x), s.unused, now)
  {
    AddKeeps(cfg, s, x);
  }

  lemma NamedFields(cfg: Config, name: seq<Byte>, typ: nat, flags: Flags)
    requires ValidConfig(cfg)
    ensures Fields(cfg, Named(cfg, name, typ, flags), true)
  {
    VirginFields(cfg, typ, flags);
    hide Dots;
    hide Asking;
  }

  lemma NamedSendable(cfg: Config, s: St, name: seq<Byte>, typ: nat, flags: Flags, now: int)
    requires ValidConfig(cfg) && Inv(cfg, s, {})
    ensures Sendable(cfg, Add(s, Named(cfg, name, typ, flags)), s.unused, now)
  {
    hide Inv;
    hide Fields;
    NamedFields(cfg, name, typ, flags);
    AddSendable(cfg, s, Named(cfg, name, typ, flags), now);
  }

  lemma SubmitNamedKeeps(cfg: Config, s: St, name: seq<Byte>, typ: nat, flags: Flags, now: int)
    requires ValidConfig(cfg) && Inv(cfg, s, {})
    ensures Inv(cfg, SubmitNamed(cfg, s, name, typ, flags, now), {})
  {
    hide Inv;
    hide QuerySimple;
    hide SearchNext;
    hide Sendable;
    hide Dots;
    NamedSendable(cfg, s, name, typ, flags, now);
    if flags.search {
      SearchNextKeeps(cfg, Add(s, Named(cfg, name, typ, flags)), s.unused, now);
    } else {
      QuerySimpleKeeps(cfg, Add(s, Named(cfg, name, typ, flags)), s.unused, name, now);
    }
  }

  lemma SubmitFailedKeeps(cfg: Config, s: St, typ: nat, flags: Flags, st: Status)
    requires ValidConfig(cfg) && Inv(cfg, s, {}) && st != Ok
    ensures Inv(cfg, Fail(Add(s, Virgin(typ, flags)), s.unused, st), {})
  {
    hide Inv;
    hide Fields;
    hide Fail;
    VirginFields(cfg, typ, flags);
    AddSendable(cfg, s, Virgin(typ, flags), 0);
    FailKeeps(cfg, Add(s, Virgin(typ, flags)), s.unused, st);
  }

  /** adns_submit keeps the invariant for every name, type and flags. */
  lemma SubmitKeeps(cfg: Config, s: St, owner: seq<Byte>, typ: nat, flags: Flags, now: int)
    requires ValidConfig(cfg) && Inv(cfg, s, {})
    ensures Inv(cfg, Submit(cfg, s, owner, typ, flags, now), {})
  {
    hide Inv;
    hide Fail;
    hide SubmitNamed;
    hide Absolute;
    SubmitFailedKeeps(cfg, s, typ, flags, QueryDomainInvalid);
    SubmitFailedKeeps(cfg, s, typ, flags, QueryDomainTooLong);
    if owner != [] && |owner| <= DNS_MAXDOMAIN + 1 {
      SubmitNamedKeeps(cfg, s, owner, typ, flags, now);
      SubmitNamedKeeps(cfg, s, owner[..|owner| - 1], typ, flags.(search := false), now);
    }
  }

  lemma NewKidAsks(parent: Query, p: QId, id: nat, kid: Kid)
    requires WithinLimits(kid.labels)
    ensures var x := NewKid(parent, id, kid);
            |x.dgram| <= DNS_MAXUDP && (id < 0x1_0000 ==> Asking(x.(parent := Some(p)))) && RightChild(x, parent) &&
            AskedName(x.first) == kid.labels
  {
    MessageAsksForName(id, kid.labels, ADDR);
    MessagePoses(id, kid.labels, ADDR);
    hide Message;
    hide Poses;
  }

  lemma KidFieldsSent(cfg: Config, parent: Query, p: QId, id: nat, kid: Kid, now: int)
    requires ValidConfig(cfg) && WithinLimits(kid.labels) && id < 0x1_0000
    ensures var x := Dispatched(cfg, NewKid(parent, id, kid), now);
            x.children == [] && x.state.Tosend? && Fields(cfg, x.(parent := Some(p)), false) &&
              RightChild(x, parent)
  {
    NewKidAsks(parent, p, id, kid);
    assert WireLabels(kid.labels);
    var x := NewKid(parent, id, kid);
    KidOfVirgin(cfg, p, x.callback, x.slot, x.flags, id, x.dgram);
    hide Message;
    hide Asking;
    hide WithinLimits;
    hide Fields;
    DispatchedFields(cfg, x.(parent := Some(p)), now);
  }

  lemma KidOfVirgin(cfg: Config, p: QId, callback: Callback, slot: nat, flags: Flags, id: nat, dgram: seq<Byte>)
    requires ValidConfig(cfg) && !callback.NoCallback? && !flags.search && !flags.owner
    ensures var x := Virgin(ADDR, flags).(callback := callback, slot := slot, id := id, dgram := dgram, first := dgram);
            Fields(cfg, x.(parent := Some(p)), true)
  {
    hide Asking;
    assert 0 % cfg.nservers == 0;
  }

  /** Submitting a child keeps the invariant of its parent, which is still being processed. */
  lemma SubmitKidKeeps(cfg: Config, s: St, p: QId, kid: Kid, now: int)
    requires ValidConfig(cfg) && Inv(cfg, s, {p}) && p in s.qs && s.qs[p].parent.None? && Derefs(s.qs[p].typ)
    requires s.unused !in s.qs && WithinLimits(kid.labels)
    ensures Inv(cfg, SubmitKid(cfg, s, p, kid, now), {p})
  {
    hide Inv;
    hide Fields;
    hide NewKid;
    hide Dispatched;
    assert WireLabels(kid.labels);
    hide WithinLimits;
    SubmitKidIs(cfg, s, p, kid, now);
    NextIdKeeps(cfg, s, {p}, s.nextid + 1);
    KidFieldsSent(cfg, s.qs[p], p, s.nextid % 0x1_0000, kid, now);
    AddKidKeeps(cfg, s.(nextid := s.nextid + 1), p,
                Dispatched(cfg, NewKid(s.qs[p], s.nextid % 0x1_0000, kid), now));
  }

  /** What submitting children leaves of the parent. */
  predicate SameButChildren(x: Query, y: Query) { y == x.(children := y.children) }

  lemma {:induction false} SubmitKidsKeep(cfg: Config, s: St, p: QId, kids: seq<Kid>, now: int)
    requires ValidConfig(cfg) && Inv(cfg, s, {p}) && p in s.qs && Numbered(s)
    requires kids != [] ==> s.qs[p].parent.None? && Derefs(s.qs[p].typ)
    requires AllWithinLimits(kids)
    ensures var t := SubmitKids(cfg, s, p, kids, now);
            Inv(cfg, t, {p}) && SameButChildren(s.qs[p], t.qs[p]) && |t.qs[p].children| == |s.qs[p].children| + |kids|
    decreases |kids|
  {
    hide Inv;
    hide WithinLimits;
    if kids != [] {
      SubmitKidKeeps(cfg, s, p, kids[0], now);
      SubmitKidIs(cfg, s, p, kids[0], now);
      SubmitKidsKeep(cfg, SubmitKid(cfg, s, p, kids[0], now), p, kids[1..], now);
    }
  }

  /** The new children, in order, are for the records they were submitted for. */
  ghost predicate KidsFor(s: St, t: St, p: QId, kids: seq<Kid>)
    requires p in s.qs && p in t.qs
  {
    var n := |s.qs[p].children|;
    |t.qs[p].children| == n + |kids| && t.qs[p].children[..n] == s.qs[p].children &&
    forall i {:trigger kids[i]} :: 0 <= i < |kids| ==> IsKid(t, t.qs[p].children[n + i], kids[i])
  }

  ghost predicate IsKid(s: St, c: QId, kid: Kid)
  {
    c in s.qs && s.qs[c].slot == kid.slot && AskedName(s.qs[c].first) == kid.labels
  }

  /** Submitting children leaves everybody else alone. */
  ghost predicate OthersAlone(s: St, t: St, p: QId)
  {
    forall q :: q in s.qs && q != p ==> q in t.qs && t.qs[q] == s.qs[q]
  }

  lemma SubmitKidFor(cfg: Config, s: St, p: QId, kid: Kid, now: int)
    requires ValidConfig(cfg) && p in s.qs && s.unused !in s.qs && WithinLimits(kid.labels)
    ensures var t := SubmitKid(cfg, s, p, kid, now);
            p in t.qs && t.qs[p].children == s.qs[p].children + [s.unused] && s.unused in t.qs &&
            IsKid(t, s.unused, kid) && OthersAlone(s, t, p)
  {
    SubmitKidIs(cfg, s, p, kid, now);
    NewKidAsks(s.qs[p], p, s.nextid % 0x1_0000, kid);
    assert WireLabels(kid.labels);
    hide WithinLimits;
    hide Message;
    hide AskedName;
    hide Asking;
  }

  lemma {:induction false} SubmitKidsFor(cfg: Config, s: St, p: QId, kids: seq<Kid>, now: int)
    requires ValidConfig(cfg) && p in s.qs && Numbered(s) && AllWithinLimits(kids)
    ensures var t := SubmitKids(cfg, s, p, kids, now); KidsFor(s, t, p, kids) && OthersAlone(s, t, p)
    decreases |kids|
  {
    hide SubmitKid;
    hide WithinLimits;
    if kids != [] {
      SubmitKidFor(cfg, s, p, kids[0], now);
      SubmitKidIs(cfg, s, p, kids[0], now);
      var u := SubmitKid(cfg, s, p, kids[0], now);
      SubmitKidsFor(cfg, u, p, kids[1..], now);
      KidsForStep(s, u, SubmitKids(cfg, u, p, kids[1..], now), p, kids);
    }
  }

  lemma KidsForStep(s: St, u: St, t: St, p: QId, kids: seq<Kid>)
    requires kids != [] && p in s.qs && p in u.qs && p in t.qs && s.unused in u.qs && s.unused != p
    requires u.qs[p].children == s.qs[p].children + [s.unused] && IsKid(u, s.unused, kids[0])
    requires KidsFor(u, t, p, kids[1..]) && OthersAlone(s, u, p) && OthersAlone(u, t, p)
    ensures OthersAlone(s, t, p)
    ensures KidsFor(s, t, p, kids)
  {
    hide AskedName;
    var n, cs := |s.qs[p].children|, t.qs[p].children;
    assert |u.qs[p].children| == n + 1 && cs[..n + 1] == s.qs[p].children + [s.unused];
    assert cs[..n] == cs[..n + 1][..n] == s.qs[p].children && cs[n] == cs[..n + 1][n] == s.unused;
    assert t.qs[s.unused] == u.qs[s.unused];
    forall i | 0 <= i < |kids| ensures IsKid(t, cs[n + i], kids[i]) {
      if i > 0 {
        assert IsKid(t, cs[(n + 1) + (i - 1)], kids[1..][i - 1]) && kids[i] == kids[1..][i - 1];
      }
    }
  }

  /** With these records as its answer, a query can wait for its children. */
  ghost predicate Accounted(s: St, q: QId, rrs: seq<Stored>)
    requires q in s.qs
  {
    var t := Set(s, q, s.qs[q].(answer := s.qs[q].answer.(rrs := rrs)));
    rrs != [] && SlotsOk(t, q) && Covered(t, q) && (s.qs[q].children != [] ==> Spelled(t.qs[q].(state := Childw)))
  }

  lemma KidIsOfType(cfg: Config, s: St, p: QId, c: QId)
    requires ValidConfig(cfg) && Inv(cfg, s, {p}) && p in s.qs && c in s.qs[p].children
    ensures c in s.qs && (s.qs[c].callback.IcbPtr? <==> s.qs[p].typ == PTR)
  {
    KidsAre(cfg, s, {p}, p);
    InvAt(cfg, s, {p}, c);
  }

  lemma KidsAccounted(cfg: Config, s: St, t: St, q: QId, kids: seq<Kid>, rrs: seq<Stored>, ptrAddr: Option<seq<Byte>>)
    requires ValidConfig(cfg) && Inv(cfg, t, {q}) && q in s.qs && q in t.qs && s.qs[q].children == [] &&
             q !in t.qs[q].children
    requires KidsFor(s, t, q, kids) && Complete(t.qs[q], kids, rrs, ptrAddr) && t.qs[q].ptrAddr == ptrAddr
    ensures Accounted(t, q, rrs)
  {
    hide Inv;
    hide AskedName;
    var u := Set(t, q, t.qs[q].(answer := t.qs[q].answer.(rrs := rrs)));
    var cs := t.qs[q].children;
    assert forall i :: 0 <= i < |kids| ==> cs[|s.qs[q].children| + i] == cs[i];
    forall c | c in u.qs[q].children && c in u.qs ensures SlotOk(u.qs[c], u.qs[q]) {
      var i :| 0 <= i < |kids| && cs[i] == c;
      assert IsKid(t, cs[i], kids[i]) && u.qs[c] == t.qs[c];
      KidIsOfType(cfg, t, q, c);
    }
    forall n: nat | HasKid(kids, n) ensures KidFor(u, q, n) {
      var i :| 0 <= i < |kids| && kids[i].slot == n;
      assert IsKid(t, cs[i], kids[i]) && cs[i] in u.qs[q].children && cs[i] in u.qs && u.qs[cs[i]].slot == n;
    }
    hide Resolved;
    hide KidFor;
    hide HasKid;
  }

  lemma NotedFields(cfg: Config, x: Query, p: Pass)
    requires ValidConfig(cfg) && Fields(cfg, x, true) && !x.state.Done? && ValidPass(p)
    ensures Fields(cfg, Noted(x, p), true)
  {
  }

  lemma RestartedFields(cfg: Config, x: Query, nextid: nat, usevc: bool)
    requires ValidConfig(cfg) && Fields(cfg, x, true) && (x.state.Tosend? || x.state.Tcpw?) && 0 <= x.id < 0x1_0000
    requires x.cname.None? ==> Asking(x)
    ensures var y := Restarted(x, nextid, usevc);
            Fields(cfg, y, true) && Asking(y) && SameKin(y, x) && y.ptrAddr == x.ptrAddr && y.retries == 0 &&
              y.state.Tosend? && y.children == x.children &&
            y.parent == x.parent && 0 <= y.id < 0x1_0000 && y.answer.status == x.answer.status
  {
    hide ReadLabels;
    hide HoldsName;
    hide Resolved;
    if x.cname.Some? {
      OwnerWithinLimits(x.cname.value);
      MessageAsksForName(nextid % 0x1_0000, OwnerLabels(x.cname.value), x.typ % 0x1_0000);
      MessagePosesType(nextid % 0x1_0000, OwnerLabels(x.cname.value), x.typ);
    }
    hide Message;
    hide Poses;
  }

  lemma ReplyingFacts(cfg: Config, s: St, q: QId)
    requires ValidConfig(cfg) && Replying(cfg, s, q)
    ensures Inv(cfg, s, {q}) && q in s.qs && ParentLives(s, q) && Fields(cfg, s.qs[q], true)
    ensures s.qs[q].children == [] && 0 <= s.qs[q].id < 0x1_0000 && (s.qs[q].state.Tosend? || s.qs[q].state.Tcpw?)
    ensures Question(s.qs[q].dgram) && s.qs[q].ptrAddr.None? && (s.qs[q].cname.None? ==> Asking(s.qs[q]))
    ensures s.qs[q].answer.status == Ok
  {
    InvAt(cfg, s, {q}, q);
  }

  lemma ReadyAtZero(x: Query, now: int)
    requires x.retries == 0 && x.answer.status == Ok
    ensures Ready(x, now)
  {
  }

  /** A query about to be sent again. */
  ghost function Retried(s: St, q: QId, usevc: bool): St
    requires q in s.qs
  {
    Set(s, q, Restarted(s.qs[q], s.nextid, usevc)).(nextid := if s.qs[q].cname.Some? then s.nextid + 1 else s.nextid)
  }

  lemma RetriedIsReady(cfg: Config, s: St, q: QId, usevc: bool, now: int)
    requires ValidConfig(cfg) && Replying(cfg, s, q)
    ensures var t := Retried(s, q, usevc);
            Inv(cfg, t, {q}) && q in t.qs && Ready(t.qs[q], now) && ParentLives(t, q) && t.qs[q].state.Tosend? &&
            t.qs[q].children == [] && 0 <= t.qs[q].id < 0x1_0000 && Asking(t.qs[q]) && t.qs[q].ptrAddr.None?
  {
    hide Inv;
    hide Fields;
    hide Replying;
    hide Ready;
    hide Asking;
    ReplyingFacts(cfg, s, q);
    hide Restarted;
    var y := Restarted(s.qs[q], s.nextid, usevc);
    RestartedFields(cfg, s.qs[q], s.nextid, usevc);
    ReadyAtZero(y, now);
    SetKeeps(cfg, s, {q}, q, y);
    NextIdKeeps(cfg, Set(s, q, y), {q}, Retried(s, q, usevc).nextid);
  }

  lemma RetryKeeps(cfg: Config, s: St, q: QId, usevc: bool, now: int)
    requires ValidConfig(cfg) && Replying(cfg, s, q)
    ensures Inv(cfg, Retry(cfg, s, q, usevc, now), {})
  {
    hide Inv;
    hide Retried;
    hide Send;
    RetriedIsReady(cfg, s, q, usevc, now);
    SendKeeps(cfg, Retried(s, q, usevc), q, now);
  }

  lemma AnswerFields(cfg: Config, x: Query, rrs: seq<Stored>)
    requires ValidConfig(cfg) && Fields(cfg, x, true) && (x.state.Tosend? || x.state.Tcpw?) && 0 <= x.id < 0x1_0000
    ensures var y := x.(answer := x.answer.(rrs := rrs));
            Fields(cfg, y, true) &&
            (Spelled(y.(state := Childw)) && rrs != [] && x.answer.status == Ok ==>
               Fields(cfg, y.(state := Childw), true) && Fields(cfg, y.(state := Childw), false))
  {
    hide Asking;
    hide AskedName;
    hide HoldsName;
    hide Resolved;
  }

  lemma WaitForKids(cfg: Config, s: St, q: QId)
    requires ValidConfig(cfg) && Inv(cfg, s, {q}) && q in s.qs && s.qs[q].children != [] && s.qs[q].parent.None?
    requires Fields(cfg, s.qs[q].(state := Childw), true) && Fields(cfg, s.qs[q].(state := Childw), false)
    requires SlotsOk(s, q) && Covered(s, q) && q !in s.qs[q].children
    ensures Inv(cfg, Enqueue(Set(s, q, s.qs[q].(state := Childw)), q), {})
  {
    hide Inv;
    hide Fields;
    var z := s.qs[q].(state := Childw);
    SetKeeps(cfg, s, {q}, q, z);
    SameAccount(s, q, z);
    hide SlotsOk;
    hide Covered;
    EnqueueKeeps(cfg, Set(s, q, z), {q}, q);
    assert {q} - {q} == {};
  }

  lemma SameAccount(s: St, q: QId, z: Query)
    requires q in s.qs && SlotsOk(s, q) && Covered(s, q) && q !in s.qs[q].children && z == s.qs[q].(state := Childw)
    ensures SlotsOk(Set(s, q, z), q) && Covered(Set(s, q, z), q)
  {
    hide HoldsName;
    KidsForSame(s, q, z);
    hide KidFor;
    hide Resolved;
  }

  lemma KidsDeref(cfg: Config, x: Query)
    requires ValidConfig(cfg) && Fields(cfg, x, true)
    ensures x.children != [] ==> Derefs(x.typ)
  {
  }

  lemma ConcludeKeeps(cfg: Config, s: St, q: QId, failed: Option<Status>, rrs: seq<Stored>)
    requires ValidConfig(cfg) && Inv(cfg, s, {q}) && q in s.qs && ParentLives(s, q)
    requires (s.qs[q].state.Tosend? || s.qs[q].state.Tcpw?) && 0 <= s.qs[q].id < 0x1_0000
    requires s.qs[q].answer.status == Ok && failed != Some(Ok)
    requires failed.None? ==> Accounted(s, q, rrs)
    ensures Inv(cfg, Conclude(s, q, failed, rrs), {})
  {
    hide Inv;
    hide Fail;
    hide Finish;
    hide Fields;
    hide Spelled;
    InvAt(cfg, s, {q}, q);
    KidsAre(cfg, s, {q}, q);
    DerefsAlone(cfg, s.qs[q]);
    KidsDeref(cfg, s.qs[q]);
    var x := s.qs[q];
    if failed.Some? {
      FailKeeps(cfg, s, q, failed.value);
    } else {
      var y := x.(answer := x.answer.(rrs := rrs));
      AnswerFields(cfg, x, rrs);
      SetKeeps(cfg, s, {q}, q, y);
      if x.children != [] {
        WaitForKids(cfg, Set(s, q, y), q);
      } else {
        CoveredIsFinal(Set(s, q, y), q);
        FinishKeeps(cfg, Set(s, q, y), q);
      }
    }
  }

  /** A query taken off the queue it waited on for a reply. */
  ghost predicate Replying(cfg: Config, s: St, q: QId)
    requires ValidConfig(cfg)
  {
    Inv(cfg, s, {q}) && q in s.qs && ParentLives(s, q) && s.qs[q].children == [] && 0 <= s.qs[q].id < 0x1_0000 &&
    (s.qs[q].state.Tosend? || s.qs[q].state.Tcpw?) && Question(s.qs[q].dgram) && s.qs[q].ptrAddr.None? &&
    (s.qs[q].cname.None? ==> Asking(s.qs[q])) && Numbered(s) && s.qs[q].answer.status == Ok
  }

  lemma NotedReplying(cfg: Config, s: St, q: QId, p: Pass)
    requires ValidConfig(cfg) && Replying(cfg, s, q) && ValidPass(p) && (p.cname.None? ==> s.qs[q].cname.None?)
    ensures Replying(cfg, Set(s, q, Noted(s.qs[q], p)), q)
  {
    InvAt(cfg, s, {q}, q);
    NotedFields(cfg, s.qs[q], p);
    hide Inv;
    hide Fields;
    hide Links;
    hide ReadLabels;
    hide AskedName;
    SetKeeps(cfg, s, {q}, q, Noted(s.qs[q], p));
  }

  lemma ActKeeps(cfg: Config, s: St, q: QId, v: Verdict, now: int)
    requires ValidConfig(cfg) && Replying(cfg, s, q) && Possible(s.qs[q], v)
    ensures Inv(cfg, Act(cfg, s, q, v, now), {})
  {
    InvAt(cfg, s, {q}, q);
    hide Inv;
    hide Fields;
    hide Links;
    hide Fail;
    hide SearchNext;
    hide Retry;
    hide TakeAnswer;
    hide WithinLimits;
    match v
    case Failed(_, st) => FailKeeps(cfg, s, q, st);
    case NextName(_) => SearchNextKeeps(cfg, s, q, now);
    case Restart(_, usevc) =>
      RetryKeeps(cfg, s, q, usevc, now);
    case Answered(_, kids, failed, rrs, ptrAddr, blocks) =>
      TakeAnswerKeeps(cfg, s, q, kids, failed, rrs, ptrAddr, blocks, now);
  }

  lemma PossiblePass(x: Query, v: Verdict)
    requires Possible(x, v)
    ensures ValidPass(v.pass) && (v.pass.cname.None? ==> x.cname.None?)
  {
  }

  lemma PossibleNoted(x: Query, v: Verdict)
    requires Possible(x, v)
    ensures Possible(Noted(x, v.pass), v)
  {
    hide WithinLimits;
  }

  /** Whatever a reply to a waiting query comes to, acting on it keeps the invariant. */
  lemma DeliverKeeps(cfg: Config, s: St, q: QId, v: Verdict, now: int)
    requires ValidConfig(cfg) && Replying(cfg, s, q) && Possible(s.qs[q], v)
    ensures Inv(cfg, Deliver(cfg, s, q, v, now), {})
  {
    hide Inv;
    hide Act;
    hide Possible;
    PossiblePass(s.qs[q], v);
    PossibleNoted(s.qs[q], v);
    NotedReplying(cfg, s, q, v.pass);
    ActKeeps(cfg, Set(s, q, Noted(s.qs[q], v.pass)), q, v, now);
  }

  lemma DerefsAlone(cfg: Config, x: Query)
    requires ValidConfig(cfg) && Fields(cfg, x, true)
    ensures Derefs(x.typ) ==> x.parent.None?
  {
  }

  lemma AnsweringKeeps(cfg: Config, s: St, q: QId, ptrAddr: Option<seq<Byte>>, allocations: nat)
    requires ValidConfig(cfg) && Inv(cfg, s, {q}) && q in s.qs && !s.qs[q].state.Done? && !s.qs[q].state.Childw?
    ensures Inv(cfg, Set(s, q, s.qs[q].(ptrAddr := ptrAddr, allocations := allocations)), {q})
  {
    hide Inv;
    hide Fields;
    InvAt(cfg, s, {q}, q);
    AnsweringFields(cfg, s.qs[q], ptrAddr, allocations);
    SetKeeps(cfg, s, {q}, q, s.qs[q].(ptrAddr := ptrAddr, allocations := allocations));
  }

  lemma AnsweringFields(cfg: Config, x: Query, ptrAddr: Option<seq<Byte>>, allocations: nat)
    requires ValidConfig(cfg) && Fields(cfg, x, true) && !x.state.Done? && !x.state.Childw?
    ensures Fields(cfg, x.(ptrAddr := ptrAddr, allocations := allocations), true)
  {
    hide AskedName;
    hide ReadLabels;
  }

  lemma AnswerAccounted(cfg: Config, s: St, q: QId, kids: seq<Kid>, rrs: seq<Stored>, ptrAddr: Option<seq<Byte>>,
                        blocks: nat, now: int)
    requires ValidConfig(cfg) && Replying(cfg, s, q) && (kids != [] ==> Derefs(s.qs[q].typ)) && AllWithinLimits(kids)
    requires Complete(s.qs[q], kids, rrs, ptrAddr)
    ensures q in s.qs && Numbered(s)
    ensures var u := SubmitKids(cfg, s, q, kids, now);
            Accounted(Set(u, q, u.qs[q].(ptrAddr := ptrAddr, allocations := u.qs[q].allocations + blocks)), q, rrs)
  {
    hide Inv;
    hide Fields;
    hide SubmitKids;
    hide AllWithinLimits;
    hide Derefs;
    hide Accounted;
    hide KidsFor;
    hide Complete;
    ReplyingFacts(cfg, s, q);
    DerefsAlone(cfg, s.qs[q]);
    SubmitKidsKeep(cfg, s, q, kids, now);
    SubmitKidsFor(cfg, s, q, kids, now);
    var u := SubmitKids(cfg, s, q, kids, now);
    var v := Set(u, q, u.qs[q].(ptrAddr := ptrAddr, allocations := u.qs[q].allocations + blocks));
    AnsweringKeeps(cfg, u, q, ptrAddr, u.qs[q].allocations + blocks);
    KidsForBeside(s, u, q, kids, v.qs[q]);
    KidsAre(cfg, v, {q}, q);
    CompleteBeside(s.qs[q], v.qs[q], kids, rrs, ptrAddr);
    KidsAccounted(cfg, s, v, q, kids, rrs, ptrAddr);
  }

  lemma TakeAnswerKeeps(cfg: Config, s: St, q: QId, kids: seq<Kid>, failed: Option<Status>,
                        rrs: seq<Stored>, ptrAddr: Option<seq<Byte>>, blocks: nat, now: int)
    requires ValidConfig(cfg) && Replying(cfg, s, q) && (kids != [] ==> Derefs(s.qs[q].typ)) && AllWithinLimits(kids)
    requires failed != Some(Ok) && (failed.None? ==> Complete(s.qs[q], kids, rrs, ptrAddr))
    ensures Inv(cfg, TakeAnswer(cfg, s, q, kids, failed, rrs, ptrAddr, blocks, now), {})
  {
    hide Inv;
    hide Fields;
    hide Conclude;
    hide SubmitKids;
    hide AllWithinLimits;
    hide Derefs;
    hide Accounted;
    hide Complete;
    ReplyingFacts(cfg, s, q);
    DerefsAlone(cfg, s.qs[q]);
    SubmitKidsKeep(cfg, s, q, kids, now);
    var u := SubmitKids(cfg, s, q, kids, now);
    AnsweringKeeps(cfg, u, q, ptrAddr, u.qs[q].allocations + blocks);
    if failed.None? {
      AnswerAccounted(cfg, s, q, kids, rrs, ptrAddr, blocks, now);
    }
    hide Replying;
    ConcludeKeeps(cfg, Set(u, q, u.qs[q].(ptrAddr := ptrAddr, allocations := u.qs[q].allocations + blocks)), q,
      failed, rrs);
  }

  lemma KidsForBeside(s: St, u: St, q: QId, kids: seq<Kid>, y: Query)
    requires q in s.qs && q in u.qs && KidsFor(s, u, q, kids) && SameKin(y, u.qs[q])
    ensures KidsFor(s, Set(u, q, y), q, kids)
  {
    var v, n := Set(u, q, y), |s.qs[q].children|;
    forall i | 0 <= i < |kids| ensures IsKid(v, v.qs[q].children[n + i], kids[i]) {
      assert IsKid(u, u.qs[q].children[n + i], kids[i]);
    }
  }

  lemma CompleteBeside(x: Query, y: Query, kids: seq<Kid>, rrs: seq<Stored>, ptrAddr: Option<seq<Byte>>)
    requires Complete(x, kids, rrs, ptrAddr) && y.typ == x.typ && y.dgram == x.dgram && y.flags == x.flags
    ensures Complete(y, kids, rrs, ptrAddr)
  {
  }
}
