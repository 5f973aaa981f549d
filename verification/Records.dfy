/** Resource records in datagrams, and matching their owners (adns/parse.c:215-337). */
module Records {
  import opened Basics
  import opened Names
  import opened Texts
  import opened Parse

  datatype Rr = Rr(typ: nat, class_: nat, ttl: nat, rdlen: nat, rdstart: nat)

  datatype Record =
    | Record(rr: Rr, next: nat, matched: bool)
    | RecordTruncated
    | RecordBad(status: Status)
    | RecordDiverges

  /** A name in a datagram of its own, to compare owners with. */
  datatype Owner = Owner(dgram: seq<Byte>, begin: nat)

  ghost predicate ValidOwner(o: Owner) { NameAt(o.dgram, o.begin, |o.dgram|).Name? }

  ghost function OwnerLabels(o: Owner): seq<Label>
  {
    match NameAt(o.dgram, o.begin, |o.dgram|)
    case Name(ls, _) => ls
    case _ => []
  }

  /** RFC 1035 section 2.3.3: names are compared label by label, ignoring ASCII case. */
  predicate SameName(a: seq<Label>, b: seq<Label>)
  {
    |a| == |b| && forall i :: 0 <= i < |a| ==> Folded(a[i]) == Folded(b[i])
  }

  /** The record at offset `c`, and whether `owner` names it. */
  ghost function RecordAt(dg: seq<Byte>, c: nat, owner: Option<seq<Label>>): Record
  {
    match NameAt(dg, c, |dg|)
    case NameTruncated => RecordTruncated
    case NameBad(st) => RecordBad(st)
    case NameDiverges => RecordDiverges
    case Name(ls, end) =>
      if end + 10 > |dg| then RecordTruncated
      else
        var rr := Rr(GetW(dg, end), GetW(dg, end + 2), Min(GetL(dg, end + 4), MAXTTLBELIEVE), GetW(dg, end + 8),
            end + 10);
        if rr.rdstart + rr.rdlen > |dg| then RecordTruncated
        else Record(rr, rr.rdstart + rr.rdlen, owner.Some? && SameName(ls, owner.value))
  }

  /** Every record found takes at least 11 bytes, ends inside the datagram and has a capped TTL;
      it matches exactly the owners that its own name equals up to ASCII case. */
  lemma RecordAdvances(dg: seq<Byte>, c: nat, owner: seq<Label>)
    requires RecordAt(dg, c, Some(owner)).Record?
    ensures var r := RecordAt(dg, c, Some(owner));
            c + 11 <= r.rr.rdstart <= r.rr.rdstart + r.rr.rdlen == r.next <= |dg| && r.rr.ttl <= MAXTTLBELIEVE
    ensures exists ls :: Spells(dg, c, ls) && (RecordAt(dg, c, Some(owner)).matched <==> SameName(ls, owner))
  {
    RestSound(dg, Start(c, |dg|));
  }

  /** A record as a server writes it, without compression (RFC 1035 section 4.1.3). */
  function RecordWire(ls: seq<Label>, typ: nat, class_: nat, ttl: nat, rdata: seq<Byte>): seq<Byte>
    requires WireLabels(ls)
  {
    (Wire(ls) + [0]) + (PutW(typ) + PutW(class_) + PutL(ttl) + PutW(|rdata|)) + rdata
  }

  /** Wherever it stands, it is read as what was written, but that a long time to live is cut down. */
  lemma RecordReads(dg: seq<Byte>, c: nat, ls: seq<Label>, typ: nat, class_: nat, ttl: nat, rdata: seq<Byte>,
                    owner: Option<seq<Label>>)
    requires WireLabels(ls) && (ls == [] || Grown(0, ls) <= DNS_MAXDOMAIN)
    requires typ < 0x1_0000 && class_ < 0x1_0000 && ttl < 0x1_0000_0000 && |rdata| < 0x1_0000
    requires Holds(dg, c, RecordWire(ls, typ, class_, ttl, rdata))
    ensures var end := c + |Wire(ls)| + 1;
            RecordAt(dg, c, owner) ==
              Record(Rr(typ, class_, Min(ttl, MAXTTLBELIEVE), |rdata|, end + 10), end + 10 + |rdata|,
                     owner.Some? && SameName(ls, owner.value)) &&
            Holds(dg, end + 10, rdata)
  {
    hide PutW;
    hide PutL;
    hide GetW;
    hide GetL;
    hide Wire;
    hide Grown;
    hide SameName;
    var name, fields := Wire(ls) + [0], PutW(typ) + PutW(class_) + PutL(ttl) + PutW(|rdata|);
    var end := c + |name|;
    HoldsParts(dg, c, name + fields, rdata);
    HoldsParts(dg, c, name, fields);
    FieldsRead(dg, end, typ, class_, ttl, |rdata|);
    HeldInside(dg, end + 10, rdata);
    hide Holds;
    WireDecodes(dg, Start(c, |dg|), ls);
    hide Rest;
    NameIsRest(dg, c, |dg|);
    hide NameAt;
  }

  lemma HeldInside(dg: seq<Byte>, c: nat, w: seq<Byte>)
    requires Holds(dg, c, w)
    ensures c + |w| <= |dg|
  {
  }

  lemma FieldsRead(dg: seq<Byte>, c: nat, typ: nat, class_: nat, ttl: nat, rdlen: nat)
    requires typ < 0x1_0000 && class_ < 0x1_0000 && ttl < 0x1_0000_0000 && rdlen < 0x1_0000
    requires Holds(dg, c, PutW(typ) + PutW(class_) + PutL(ttl) + PutW(rdlen))
    ensures c + 10 <= |dg| && GetW(dg, c) == typ && GetW(dg, c + 2) == class_ && GetL(dg, c + 4) == ttl &&
            GetW(dg, c + 8) == rdlen
  {
    var w := PutW(typ) + PutW(class_) + PutL(ttl) + PutW(rdlen);
    assert dg[c..c + 10] == w;
    forall i | 0 <= i < 10 ensures dg[c + i] == w[i] {
      assert dg[c..c + 10][i] == dg[c + i];
    }
    WordReads(dg, c, typ);
    WordReads(dg, c + 2, class_);
    WordReads(dg, c + 4, ttl / 0x1_0000);
    WordReads(dg, c + 6, ttl % 0x1_0000);
    WordReads(dg, c + 8, rdlen);
    hide GetW;
    hide PutW;
  }

  /** Two bytes are equal, or one letter in its two cases. */
  predicate SameLetter(a: Byte, b: Byte)
  {
    a == b || (65 <= a <= 90 && b == a + 32) || (65 <= b <= 90 && a == b + 32)
  }

  /** Labels are compared byte by byte, letters without regard to their case. */
  lemma SameUpToCase(a: Label, b: Label)
    ensures Folded(a) == Folded(b) <==> |a| == |b| && forall i :: 0 <= i < |a| ==> SameLetter(a[i], b[i])
  {
    if Folded(a) == Folded(b) {
      forall i | 0 <= i < |a| ensures SameLetter(a[i], b[i]) {
        assert Folded(a)[i] == Folded(b)[i];
      }
    }
  }

  lemma RecordBadNotOk(dg: seq<Byte>, c: nat, owner: Option<seq<Label>>)
    ensures RecordAt(dg, c, owner) != RecordBad(Ok)
  {
    RestNotOk(dg, Start(c, |dg|));
  }

  lemma SameNameSplit(a: seq<Label>, b: seq<Label>)
    requires a != [] && b != []
    ensures SameName(a, b) <==> Folded(a[0]) == Folded(b[0]) && SameName(a[1..], b[1..])
  {
    if Folded(a[0]) == Folded(b[0]) && SameName(a[1..], b[1..]) {
      forall i | 0 <= i < |a| ensures Folded(a[i]) == Folded(b[i]) {
        if i > 0 {
          assert a[i] == a[1..][i - 1] && b[i] == b[1..][i - 1];
        }
      }
    }
    if SameName(a, b) {
      forall i | 0 <= i < |a| - 1 ensures Folded(a[1..][i]) == Folded(b[1..][i]) {
        assert a[1..][i] == a[i + 1] && b[1..][i] == b[i + 1];
      }
    }
  }

  lemma ClearedIsFolded(c: Byte)
    ensures FoldCase(c) == if IsAlpha(c) then c % 32 + 64 else c
  {
  }

  /** The comparison loop (adns/parse.c:260-272). */
  method LabelsMismatch(a: Label, b: Label) returns (mismatch: bool)
    ensures mismatch == (Folded(a) != Folded(b))
  {
    hide FoldCase;
    mismatch := |a| != |b|;
    var i := 0;
    while !mismatch && i < |b|
      invariant 0 <= i <= |b|
      invariant mismatch ==> |a| != |b| || (i > 0 && FoldCase(a[i - 1]) != FoldCase(b[i - 1]))
      invariant !mismatch ==> |a| == |b| && forall k :: 0 <= k < i ==> FoldCase(a[k]) == FoldCase(b[k])
    {
      ClearedIsFolded(a[i]);
      ClearedIsFolded(b[i]);
      var ch, eoch := a[i], b[i];
      if IsAlpha(ch) {
        ch := ch % 32 + 64;  // ch & ~32
      }
      if IsAlpha(eoch) {
        eoch := eoch % 32 + 64;
      }
      mismatch := ch != eoch;
      i := i + 1;
    }
    if mismatch && |a| == |b| {
      assert Folded(a)[i - 1] != Folded(b)[i - 1];
    }
  }

  /** How the comparison stands with the rests `a` and `b` of two names still to compare. */
  ghost predicate Agrees(mismatch: bool, a: Name, b: Name)
  {
    !mismatch && a.Name? && b.Name? && SameName(a.labels, b.labels)
  }

  /** One round of the loop: one label of each name, or the end of both, has been compared. */
  lemma AgreesStep(dg: seq<Byte>, f: Cursor, odg: seq<Byte>, g: Cursor)
    requires Rest(odg, g).Name?
    ensures var x, y := FindNext(dg, f), FindNext(odg, g);
            if x.Found? && y.Found? then
              Agrees(false, Rest(dg, f), Rest(odg, g)) <==>
              Agrees(Folded(dg[x.start..x.start + x.len]) != Folded(odg[y.start..y.start + y.len]),
                     Rest(dg, x.after), Rest(odg, y.after))
            else Agrees(false, Rest(dg, f), Rest(odg, g)) <==> x.End? && y.End?
  {
    hide Folded;
    hide FindNext;
    var x, y := FindNext(dg, f), FindNext(odg, g);
    if x.Found? && y.Found? && Rest(dg, x.after).Name? {
      hide SameName;
      var a, b := Rest(dg, f).labels, Rest(odg, g).labels;
      SameNameSplit(a, b);
      assert a[0] == dg[x.start..x.start + x.len] && b[0] == odg[y.start..y.start + y.len];
      assert a[1..] == Rest(dg, x.after).labels && b[1..] == Rest(odg, y.after).labels;
    }
  }

  /** Walks the owner at `cbyte`, and alongside it the name in `eo` until the two differ. */
  method MatchOwner(dgram: seq<Byte>, cbyte: nat, eo: Option<Owner>) returns (r: Name, mismatch: bool)
    requires eo.Some? ==> ValidOwner(eo.value)
    requires !NameAt(dgram, cbyte, |dgram|).NameDiverges?
    ensures var whole := NameAt(dgram, cbyte, |dgram|);
            if whole.Name? then
              r == Name([], whole.end) && (mismatch <==> eo.None? || !SameName(whole.labels, OwnerLabels(eo.value)))
            else r == whole
  {
    hide SameName;
    hide FindNext;
    hide Folded;
    var fls := new FindLabelState(dgram, |dgram|, cbyte, true);
    var eofls := new FindLabelState(if eo.Some? then eo.value.dgram else [], if eo.Some? then |eo.value.dgram| else 0,
                                    if eo.Some? then eo.value.begin else 0, false);
    mismatch := eo.None?;
    ghost var whole := NameAt(dgram, cbyte, |dgram|);
    ghost var owner := Rest(eofls.dgram, eofls.Abs());
    if eo.Some? {
      EndIgnored(eo.value.dgram, Start(eo.value.begin, |eo.value.dgram|), eofls.Abs());
    }
    while true
      invariant fls.dgram == dgram && eofls != fls
      invariant eo.None? ==> mismatch
      invariant !mismatch ==> Rest(eofls.dgram, eofls.Abs()).Name?
      invariant var rest := Rest(dgram, fls.Abs());
                if rest.Name? then whole.Name? && whole.end == rest.end else whole == rest
      invariant eo.Some? ==> (Agrees(false, whole, owner) <==>
                Agrees(mismatch, Rest(dgram, fls.Abs()), Rest(eofls.dgram, eofls.Abs())))
      decreases DNS_MAXDOMAIN - fls.namelen
    {
      ghost var f := fls.Abs();
      var st, lablen, labstart := fls.Next();
      if st != Ok {
        return NameBad(st), mismatch;
      }
      if lablen < 0 {
        return NameTruncated, mismatch;
      }
      if !mismatch {
        AgreesStep(dgram, f, eofls.dgram, eofls.Abs());
        var eost, eolablen, eolabstart := eofls.Next();
        mismatch := LabelsMismatch(dgram[labstart..labstart + lablen], eofls.dgram[eolabstart..eolabstart + eolablen]);
      }
      if lablen == 0 {
        break;
      }
    }
    r := Name([], fls.dmend);
  }

  // adns__findrr_anychk. Truncation, reported there as type -1, is RecordTruncated here.
  method FindRRAnychk(dgram: seq<Byte>, cbyte: nat, eo: Option<Owner>) returns (r: Record)
    requires eo.Some? ==> ValidOwner(eo.value)
    requires !RecordAt(dgram, cbyte, None).RecordDiverges?
    ensures r == RecordAt(dgram, cbyte, if eo.Some? then Some(OwnerLabels(eo.value)) else None)
  {
    var name, mismatch := MatchOwner(dgram, cbyte, eo);
    match name
    case NameBad(st) => return RecordBad(st);
    case NameTruncated => return RecordTruncated;
    case Name(_, c) =>
      RestSound(dgram, Start(cbyte, |dgram|));
      if c + 10 > |dgram| {
        return RecordTruncated;
      }
      var typ, class_, ttl, rdlen := GetW(dgram, c), GetW(dgram, c + 2), GetL(dgram, c + 4), GetW(dgram, c + 8);
      if ttl > MAXTTLBELIEVE {
        ttl := MAXTTLBELIEVE;
      }
      if c + 10 + rdlen > |dgram| {
        return RecordTruncated;
      }
      return Record(Rr(typ, class_, ttl, rdlen, c + 10), c + 10 + rdlen, eo.Some? && !mismatch);
  }
}
