/** Compressed domain names in datagrams: what the cursor of adns/parse.c:84-145 finds,
    and what a name denotes by RFC 1035 section 4.1.4. */
module Names {
  import opened Basics

  /** The cursor, field for field (`findlabel_state`, adns/internal.h:525-532).
      `armed` says that `dmend_r` is non-null, and `dmend` is the integer it points to. */
  datatype Cursor = Cursor(cbyte: nat, max: int, namelen: nat, armed: bool, dmend: nat)

  datatype Next =
    | Found(start: nat, len: nat, after: Cursor)
    | End(after: Cursor)
    | Truncated(dmend: nat)
    | Bad(status: Status, at: Cursor)
    | Diverges  // the pointers followed never reach a label

  datatype Name =
    | Name(labels: seq<seq<Byte>>, end: nat)
    | NameTruncated
    | NameBad(status: Status)
    | NameDiverges

  /** Two bytes at `c` that form a compression pointer. */
  predicate IsPointer(dg: seq<Byte>, c: nat) { c + 1 < |dg| && dg[c] >= 192 }

  function Target(dg: seq<Byte>, c: nat): nat
    requires IsPointer(dg, c)
  {
    (dg[c] - 192) as int * 256 + dg[c + 1] as int
  }

  function Jumped(dg: seq<Byte>, f: Cursor): Cursor
    requires IsPointer(dg, f.cbyte)
  {
    Cursor(Target(dg, f.cbyte), |dg| + 1, f.namelen, false, if f.armed then f.cbyte + 2 else f.dmend)
  }

  /** Length of the printed name once a label of `len` bytes is appended. */
  function Extend(namelen: nat, len: nat): nat { namelen + (if namelen > 0 then 1 else 0) + len }

  /** The label, or the end of the name, at a cursor that is not on a pointer. */
  function Here(dg: seq<Byte>, f: Cursor): (r: Next)
    requires f.cbyte < |dg| && f.cbyte < f.max && dg[f.cbyte] < 64
    ensures r.Found? ==> 1 <= r.start && 1 <= r.len <= DNS_MAXLABEL && r.start + r.len <= |dg|
    ensures r.Found? ==> f.namelen < r.after.namelen <= DNS_MAXDOMAIN
  {
    var b := dg[f.cbyte];
    if b == 0 then End(f.(cbyte := f.cbyte + 1, dmend := if f.armed then f.cbyte + 1 else f.dmend))
    else if Extend(f.namelen, b) > DNS_MAXDOMAIN then
      Bad(AnswerDomainTooLong, f.(cbyte := f.cbyte + 1, namelen := Extend(f.namelen, b)))
    else if f.cbyte + 1 + b > |dg| then Truncated(f.dmend)
    else if f.cbyte + 1 + b > f.max then
      Bad(InvalidResponse, f.(cbyte := f.cbyte + 1 + b, namelen := Extend(f.namelen, b)))
    else Found(f.cbyte + 1, b, f.(cbyte := f.cbyte + 1 + b, namelen := Extend(f.namelen, b)))
  }

  /** True when the cursor stands on a pointer that its bounds let it follow. */
  predicate Follows(dg: seq<Byte>, f: Cursor)
  {
    IsPointer(dg, f.cbyte) && f.cbyte + 1 < f.max
  }

  /** What the cursor finds without following a pointer. */
  function Stay(dg: seq<Byte>, f: Cursor): (r: Next)
    requires !Follows(dg, f)
    ensures !r.Diverges?
    ensures r.Found? ==> 1 <= r.start && 1 <= r.len <= DNS_MAXLABEL && r.start + r.len <= |dg|
    ensures r.Found? ==> f.namelen < r.after.namelen <= DNS_MAXDOMAIN
  {
    if f.cbyte >= |dg| then Truncated(f.dmend)
    else if f.cbyte >= f.max then Bad(InvalidResponse, f)
    else if dg[f.cbyte] < 64 then Here(dg, f)
    else if dg[f.cbyte] < 192 then Bad(UnknownFormat, f.(cbyte := f.cbyte + 1))
    else if f.cbyte + 1 >= |dg| then Truncated(f.dmend)
    else Bad(InvalidResponse, f.(cbyte := f.cbyte + 1))
  }

  /** `FindNext`, following at most `hops` pointers. */
  function NextWithin(dg: seq<Byte>, f: Cursor, hops: nat): (r: Next)
    ensures r.Found? ==> 1 <= r.start && 1 <= r.len <= DNS_MAXLABEL && r.start + r.len <= |dg|
    ensures r.Found? ==> f.namelen < r.after.namelen <= DNS_MAXDOMAIN
    decreases hops
  {
    if !Follows(dg, f) then Stay(dg, f)
    else if hops == 0 then Diverges
    else NextWithin(dg, Jumped(dg, f), hops - 1)
  }

  /** The outcome of one call of adns__findlabel_next, for every datagram. */
  ghost function FindNext(dg: seq<Byte>, f: Cursor): (r: Next)
    ensures r.Found? ==> 1 <= r.start && 1 <= r.len <= DNS_MAXLABEL && r.start + r.len <= |dg|
    ensures r.Found? ==> f.namelen < r.after.namelen <= DNS_MAXDOMAIN
  {
    if hops: nat :| !NextWithin(dg, f, hops).Diverges? then NextWithin(dg, f, hops) else Diverges
  }

  lemma {:induction false} MoreHops(dg: seq<Byte>, f: Cursor, m: nat, n: nat)
    requires m <= n && !NextWithin(dg, f, m).Diverges?
    ensures NextWithin(dg, f, n) == NextWithin(dg, f, m)
    decreases m
  {
    if Follows(dg, f) {
      MoreHops(dg, Jumped(dg, f), m - 1, n - 1);
    }
  }

  lemma FindNextIs(dg: seq<Byte>, f: Cursor, hops: nat)
    requires !NextWithin(dg, f, hops).Diverges?
    ensures FindNext(dg, f) == NextWithin(dg, f, hops)
  {
    var n: nat :| !NextWithin(dg, f, n).Diverges? && FindNext(dg, f) == NextWithin(dg, f, n);
    MoreHops(dg, f, Min(n, hops), Max(n, hops));
  }

  lemma HopsNeeded(dg: seq<Byte>, f: Cursor) returns (hops: nat)
    requires !FindNext(dg, f).Diverges?
    ensures !NextWithin(dg, f, hops).Diverges?
  {
    hops :| !NextWithin(dg, f, hops).Diverges?;
  }

  /** The loop of findlabel_next: stay, or follow the pointer and try again. */
  lemma FindNextStep(dg: seq<Byte>, f: Cursor)
    ensures FindNext(dg, f) == if Follows(dg, f) then FindNext(dg, Jumped(dg, f)) else Stay(dg, f)
  {
    if !Follows(dg, f) {
      FindNextIs(dg, f, 0);
    } else if n: nat :| !NextWithin(dg, Jumped(dg, f), n).Diverges? {
      FindNextIs(dg, f, n + 1);
      FindNextIs(dg, Jumped(dg, f), n);
    } else if n: nat :| !NextWithin(dg, f, n).Diverges? {
      assert !NextWithin(dg, Jumped(dg, f), n - 1).Diverges?;
    }
  }

  lemma {:induction false} NextNotOk(dg: seq<Byte>, f: Cursor, hops: nat)
    ensures NextWithin(dg, f, hops).Bad? ==> NextWithin(dg, f, hops).status != Ok
    decreases hops
  {
    if Follows(dg, f) && hops > 0 {
      NextNotOk(dg, Jumped(dg, f), hops - 1);
    }
  }

  lemma NextBadNotOk(dg: seq<Byte>, f: Cursor)
    ensures FindNext(dg, f).Bad? ==> FindNext(dg, f).status != Ok
  {
    if FindNext(dg, f).Bad? {
      var hops := HopsNeeded(dg, f);
      FindNextIs(dg, f, hops);
      NextNotOk(dg, f, hops);
    }
  }

  /** The rest of a name: calling findlabel_next until it reports the end or fails. */
  ghost function Rest(dg: seq<Byte>, f: Cursor): Name
    decreases DNS_MAXDOMAIN - f.namelen
  {
    match FindNext(dg, f)
    case End(after) => Name([], after.dmend)
    case Truncated(_) => NameTruncated
    case Bad(st, _) => NameBad(st)
    case Diverges => NameDiverges
    case Found(s, l, after) =>
      match Rest(dg, after)
      case Name(ls, end) => Name([dg[s..s + l]] + ls, end)
      case other => other
  }

  lemma {:induction false} RestNotOk(dg: seq<Byte>, f: Cursor)
    ensures Rest(dg, f) != NameBad(Ok)
    decreases DNS_MAXDOMAIN - f.namelen
  {
    match FindNext(dg, f)
    case Found(_, _, after) => RestNotOk(dg, after);
    case Bad(_, _) => NextBadNotOk(dg, f);
    case _ =>
  }

  function Start(begin: nat, max: int): Cursor { Cursor(begin, max, 0, true, begin) }

  /** The name at offset `c`, when the cursor is limited to `max`. */
  ghost function NameAt(dg: seq<Byte>, c: nat, max: int): Name { Rest(dg, Start(c, max)) }

  lemma NameIsRest(dg: seq<Byte>, c: nat, max: int)
    ensures NameAt(dg, c, max) == Rest(dg, Start(c, max))
  {
  }

  lemma RestStep(dg: seq<Byte>, f: Cursor)
    requires Follows(dg, f)
    ensures Rest(dg, f) == Rest(dg, Jumped(dg, f))
  {
    FindNextStep(dg, f);
  }

  // ---------- RFC 1035 section 4.1.4 ----------

  /** The bytes at `c` spell the labels `ls`, by a derivation of at most `n` steps. */
  ghost predicate SpellsIn(dg: seq<Byte>, c: nat, ls: seq<seq<Byte>>, n: nat)
    decreases n
  {
    n > 0 && c < |dg| &&
    if dg[c] == 0 then ls == []
    else if dg[c] < 64 then
      c + 1 + dg[c] <= |dg| && ls != [] && ls[0] == dg[c + 1..c + 1 + dg[c]] &&
      SpellsIn(dg, c + 1 + dg[c], ls[1..], n - 1)
    else IsPointer(dg, c) && SpellsIn(dg, Target(dg, c), ls, n - 1)
  }

  /** The name that RFC 1035 section 4.1.4 gives to offset `c`. */
  ghost predicate Spells(dg: seq<Byte>, c: nat, ls: seq<seq<Byte>>)
  {
    exists n: nat :: SpellsIn(dg, c, ls, n)
  }

  /** Printed length after appending all of `ls` to a name of printed length `n`. */
  function Grown(n: nat, ls: seq<seq<Byte>>): nat
    decreases |ls|
  {
    if ls == [] then n else Grown(Extend(n, |ls[0]|), ls[1..])
  }

  /** Offset just behind the part of a name that precedes its first pointer, that pointer
      included; -1 when the bytes run out or are of an unknown format. */
  function InlineEnd(dg: seq<Byte>, c: nat): (e: int)
    ensures e == -1 || c < e <= |dg|
    decreases |dg| - c
  {
    if c >= |dg| then -1
    else if dg[c] == 0 then c + 1
    else if dg[c] < 64 then InlineEnd(dg, c + 1 + dg[c])
    else if IsPointer(dg, c) then c + 2
    else -1
  }

  lemma {:induction false} GrownMono(n: nat, ls: seq<seq<Byte>>)
    ensures n <= Grown(n, ls)
    decreases |ls|
  {
    if ls != [] {
      GrownMono(Extend(n, |ls[0]|), ls[1..]);
    }
  }

  /** Whatever the cursor decodes is what the RFC says, within the limits. */
  lemma {:induction false} RestSound(dg: seq<Byte>, f: Cursor)
    requires Rest(dg, f).Name?
    ensures var r := Rest(dg, f);
            Spells(dg, f.cbyte, r.labels) && (Grown(f.namelen, r.labels) <= DNS_MAXDOMAIN || r.labels == []) &&
            0 <= InlineEnd(dg, f.cbyte) <= f.max &&
            r.end == if f.armed then InlineEnd(dg, f.cbyte) else f.dmend
    decreases DNS_MAXDOMAIN - f.namelen
  {
    var hops: nat :| !NextWithin(dg, f, hops).Diverges?;
    RestSoundWithin(dg, f, hops);
  }

  lemma SpellsHere(dg: seq<Byte>, c: nat)
    requires c < |dg| && dg[c] == 0
    ensures Spells(dg, c, [])
  {
    assert SpellsIn(dg, c, [], 1);
  }

  lemma SpellsLabel(dg: seq<Byte>, c: nat, ls: seq<seq<Byte>>)
    requires c < |dg| && 0 < dg[c] < 64 && c + 1 + dg[c] <= |dg|
    requires ls != [] && ls[0] == dg[c + 1..c + 1 + dg[c]] && Spells(dg, c + 1 + dg[c], ls[1..])
    ensures Spells(dg, c, ls)
  {
    var n: nat :| SpellsIn(dg, c + 1 + dg[c], ls[1..], n);
    assert SpellsIn(dg, c, ls, n + 1);
  }

  lemma SpellsBehindPointer(dg: seq<Byte>, c: nat, ls: seq<seq<Byte>>)
    requires IsPointer(dg, c) && Spells(dg, Target(dg, c), ls)
    ensures Spells(dg, c, ls)
  {
    var n: nat :| SpellsIn(dg, Target(dg, c), ls, n);
    assert SpellsIn(dg, c, ls, n + 1);
  }

  lemma {:induction false} RestSoundWithin(dg: seq<Byte>, f: Cursor, hops: nat)
    requires Rest(dg, f).Name? && !NextWithin(dg, f, hops).Diverges?
    ensures var r := Rest(dg, f);
            Spells(dg, f.cbyte, r.labels) && (Grown(f.namelen, r.labels) <= DNS_MAXDOMAIN || r.labels == []) &&
            0 <= InlineEnd(dg, f.cbyte) <= f.max &&
            r.end == if f.armed then InlineEnd(dg, f.cbyte) else f.dmend
    decreases DNS_MAXDOMAIN - f.namelen, hops
  {
    hide Spells;
    FindNextStep(dg, f);
    hide FindNext;
    if Follows(dg, f) {
      RestStep(dg, f);
      RestSoundWithin(dg, Jumped(dg, f), hops - 1);
      SpellsBehindPointer(dg, f.cbyte, Rest(dg, f).labels);
    } else if dg[f.cbyte] == 0 {
      SpellsHere(dg, f.cbyte);
    } else {
      RestSound(dg, Stay(dg, f).after);
      SpellsLabel(dg, f.cbyte, Rest(dg, f).labels);
    }
  }

  lemma StepsOver(dg: seq<Byte>, f: Cursor, ls: seq<seq<Byte>>) returns (after: Cursor)
    requires f.cbyte < |dg| && 0 < dg[f.cbyte] < 64 && f.cbyte + 1 + dg[f.cbyte] <= |dg|
    requires ls != [] && |ls[0]| == dg[f.cbyte] && Grown(f.namelen, ls) <= DNS_MAXDOMAIN
    requires f.cbyte + 1 + dg[f.cbyte] <= f.max
    ensures FindNext(dg, f) == Found(f.cbyte + 1, dg[f.cbyte], after)
    ensures after == f.(cbyte := f.cbyte + 1 + dg[f.cbyte], namelen := Extend(f.namelen, |ls[0]|))
  {
    GrownMono(Extend(f.namelen, |ls[0]|), ls[1..]);
    FindNextStep(dg, f);
    after := f.(cbyte := f.cbyte + 1 + dg[f.cbyte], namelen := Extend(f.namelen, |ls[0]|));
  }

  lemma RestCases(dg: seq<Byte>, f: Cursor)
    requires Rest(dg, f).Name?
    ensures match FindNext(dg, f)
            case Found(s, l, after) =>
              Rest(dg, after).Name? && Rest(dg, f).labels == [dg[s..s + l]] + Rest(dg, after).labels
            case End(after) => Rest(dg, f).labels == []
            case _ => false
  {
  }

  lemma RestFound(dg: seq<Byte>, f: Cursor, ls: seq<seq<Byte>>, end: nat)
    requires FindNext(dg, f).Found? && ls != []
    requires var n := FindNext(dg, f); ls[0] == dg[n.start..n.start + n.len] && Rest(dg, n.after) == Name(ls[1..], end)
    ensures Rest(dg, f) == Name(ls, end)
  {
    assert ls == [ls[0]] + ls[1..];
  }

  /** Whatever the RFC says, the cursor decodes, when it is within the limits. */
  lemma {:induction false} RestComplete(dg: seq<Byte>, f: Cursor, ls: seq<seq<Byte>>, n: nat)
    requires SpellsIn(dg, f.cbyte, ls, n)
    requires Grown(f.namelen, ls) <= DNS_MAXDOMAIN || ls == []
    requires InlineEnd(dg, f.cbyte) <= f.max
    ensures InlineEnd(dg, f.cbyte) >= 0
    ensures Rest(dg, f) == Name(ls, if f.armed then InlineEnd(dg, f.cbyte) else f.dmend)
    decreases n, 1
  {
    hide FindNext;
    hide Rest;
    if dg[f.cbyte] == 0 {
      EndsHere(dg, f);
    } else if dg[f.cbyte] < 64 {
      RestCompleteLabel(dg, f, ls, n);
    } else {
      RestStep(dg, f);
      InlineEndExists(dg, Target(dg, f.cbyte), ls, n - 1);
      RestComplete(dg, Jumped(dg, f), ls, n - 1);
    }
  }

  lemma {:induction false} RestCompleteLabel(dg: seq<Byte>, f: Cursor, ls: seq<seq<Byte>>, n: nat)
    requires SpellsIn(dg, f.cbyte, ls, n) && 0 < dg[f.cbyte] < 64
    requires Grown(f.namelen, ls) <= DNS_MAXDOMAIN && InlineEnd(dg, f.cbyte) <= f.max
    ensures InlineEnd(dg, f.cbyte) >= 0
    ensures Rest(dg, f) == Name(ls, if f.armed then InlineEnd(dg, f.cbyte) else f.dmend)
    decreases n, 0
  {
    hide FindNext;
    hide Rest;
    InlineEndExists(dg, f.cbyte + 1 + dg[f.cbyte], ls[1..], n - 1);
    var after := StepsOver(dg, f, ls);
    RestComplete(dg, after, ls[1..], n - 1);
    RestFound(dg, f, ls, Rest(dg, after).end);
  }

  lemma EndsHere(dg: seq<Byte>, f: Cursor)
    requires f.cbyte < |dg| && f.cbyte < f.max && dg[f.cbyte] == 0
    ensures Rest(dg, f) == Name([], if f.armed then f.cbyte + 1 else f.dmend)
  {
    FindNextStep(dg, f);
  }

  lemma {:induction false} InlineEndExists(dg: seq<Byte>, c: nat, ls: seq<seq<Byte>>, n: nat)
    requires SpellsIn(dg, c, ls, n)
    ensures c < InlineEnd(dg, c) <= |dg|
    decreases n
  {
    if 0 < dg[c] < 64 {
      InlineEndExists(dg, c + 1 + dg[c], ls[1..], n - 1);
    }
  }

  /** Decoding succeeds exactly on the names RFC 1035 section 4.1.4 defines, of printed length
      at most 255, whose inline part lies below `max`; it reports the end of that inline part. */
  lemma DecodesExactly(dg: seq<Byte>, c: nat, max: int, ls: seq<seq<Byte>>, end: nat)
    ensures NameAt(dg, c, max) == Name(ls, end) <==>
            Spells(dg, c, ls) && Grown(0, ls) <= DNS_MAXDOMAIN && end == InlineEnd(dg, c) && end <= max
  {
    if NameAt(dg, c, max) == Name(ls, end) {
      RestSound(dg, Start(c, max));
    }
    if Spells(dg, c, ls) && Grown(0, ls) <= DNS_MAXDOMAIN && end == InlineEnd(dg, c) && end <= max {
      var n: nat :| SpellsIn(dg, c, ls, n);
      RestComplete(dg, Start(c, max), ls, n);
    }
  }

  /** Whether the caller wants the end of a name does not change its labels. */
  lemma {:induction false} EndIgnored(dg: seq<Byte>, f: Cursor, g: Cursor)
    requires Rest(dg, f).Name? && f.cbyte == g.cbyte && f.max == g.max && f.namelen == g.namelen
    ensures Rest(dg, g).Name? && Rest(dg, g).labels == Rest(dg, f).labels
  {
    RestSound(dg, f);
    var n: nat :| SpellsIn(dg, f.cbyte, Rest(dg, f).labels, n);
    RestComplete(dg, g, Rest(dg, f).labels, n);
  }

  /** The end reported for a name is a function of the bytes between its start and that end. */
  lemma EndIsLocal(dg: seq<Byte>, dg': seq<Byte>, c: nat, max: int, max': int)
    requires NameAt(dg, c, max).Name? && NameAt(dg', c, max').Name?
    requires var e := NameAt(dg, c, max).end; c <= e <= |dg| && e <= |dg'| && dg[c..e] == dg'[c..e]
    ensures NameAt(dg', c, max').end == NameAt(dg, c, max).end <= max
  {
    RestSound(dg, Start(c, max));
    RestSound(dg', Start(c, max'));
    InlineEndLocal(dg, dg', c);
  }

  lemma {:induction false} InlineEndLocal(dg: seq<Byte>, dg': seq<Byte>, c: nat)
    requires var e := InlineEnd(dg, c); c <= e <= |dg'| && dg[c..e] == dg'[c..e]
    ensures InlineEnd(dg', c) == InlineEnd(dg, c)
    decreases |dg| - c
  {
    var e := InlineEnd(dg, c);
    assert dg[c] == dg[c..e][0] == dg'[c..e][0] == dg'[c];
    if 0 < dg[c] < 64 {
      var k := 1 + dg[c];
      assert dg[c + k..e] == dg[c..e][k..] == dg'[c..e][k..] == dg'[c + k..e];
      InlineEndLocal(dg, dg', c + k);
    } else if dg[c] >= 192 {
      assert IsPointer(dg', c);
    }
  }

  /** Bytes behind a name that decodes make no difference to it. */
  lemma {:induction false} SpellsOn(dg: seq<Byte>, tail: seq<Byte>, c: nat, ls: seq<seq<Byte>>, n: nat)
    requires SpellsIn(dg, c, ls, n)
    ensures SpellsIn(dg + tail, c, ls, n) && InlineEnd(dg + tail, c) == InlineEnd(dg, c)
    decreases n
  {
    var longer := dg + tail;
    assert longer[c] == dg[c];
    if 0 < dg[c] < 64 {
      assert longer[c + 1..c + 1 + dg[c]] == dg[c + 1..c + 1 + dg[c]];
      SpellsOn(dg, tail, c + 1 + dg[c], ls[1..], n - 1);
    } else if dg[c] != 0 {
      assert IsPointer(longer, c) && Target(longer, c) == Target(dg, c);
      SpellsOn(dg, tail, Target(dg, c), ls, n - 1);
    }
  }

  lemma DecodesOn(dg: seq<Byte>, tail: seq<Byte>, c: nat)
    requires NameAt(dg, c, |dg|).Name?
    ensures NameAt(dg + tail, c, |dg + tail|) == NameAt(dg, c, |dg|)
  {
    var r := NameAt(dg, c, |dg|);
    DecodesExactly(dg, c, |dg|, r.labels, r.end);
    var n: nat :| SpellsIn(dg, c, r.labels, n);
    SpellsOn(dg, tail, c, r.labels, n);
    DecodesExactly(dg + tail, c, |dg + tail|, r.labels, r.end);
  }

  // ---------- Termination ----------

  /** `s` is closed under decoding, and each pointer in it targets an earlier offset. */
  ghost predicate BackwardOn(dg: seq<Byte>, s: set<nat>)
  {
    forall c :: c in s && c < |dg| ==>
      (0 < dg[c] < 64 ==> c + 1 + dg[c] in s) &&
      (IsPointer(dg, c) ==> Target(dg, c) < c && Target(dg, c) in s)
  }

  lemma {:induction false} BackwardHops(dg: seq<Byte>, f: Cursor, s: set<nat>)
    requires BackwardOn(dg, s) && f.cbyte in s
    ensures !NextWithin(dg, f, f.cbyte).Diverges?
    ensures NextWithin(dg, f, f.cbyte).Found? ==> NextWithin(dg, f, f.cbyte).after.cbyte in s
    decreases f.cbyte
  {
    if Follows(dg, f) {
      var g := Jumped(dg, f);
      BackwardHops(dg, g, s);
      MoreHops(dg, g, g.cbyte, f.cbyte - 1);
    }
  }

  /** Names whose pointers all target earlier offsets (RFC 1035 section 4.1.4) never send the cursor
      round a loop. Only the offsets the name itself visits matter, not the whole datagram. */
  lemma {:induction false} BackwardTerminates(dg: seq<Byte>, f: Cursor, s: set<nat>)
    requires BackwardOn(dg, s) && f.cbyte in s
    ensures !Rest(dg, f).NameDiverges?
    decreases DNS_MAXDOMAIN - f.namelen
  {
    BackwardHops(dg, f, s);
    FindNextIs(dg, f, f.cbyte);
    if FindNext(dg, f).Found? {
      BackwardTerminates(dg, FindNext(dg, f).after, s);
    }
  }

  /** A pointer to itself is never left. */
  lemma SelfPointerDiverges(dg: seq<Byte>, c: nat, max: nat)
    requires IsPointer(dg, c) && Target(dg, c) == c && c + 1 < max
    ensures FindNext(dg, Start(c, max)).Diverges? && NameAt(dg, c, max).NameDiverges?
  {
    forall n: nat ensures NextWithin(dg, Start(c, max), n).Diverges? {
      SelfPointerWithin(dg, Start(c, max), n);
    }
  }

  lemma {:induction false} SelfPointerWithin(dg: seq<Byte>, f: Cursor, n: nat)
    requires IsPointer(dg, f.cbyte) && Target(dg, f.cbyte) == f.cbyte && f.cbyte + 1 < f.max
    ensures NextWithin(dg, f, n).Diverges?
    decreases n
  {
    if n > 0 {
      SelfPointerWithin(dg, Jumped(dg, f), n - 1);
    }
  }
}
