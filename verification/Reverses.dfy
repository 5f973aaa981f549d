/** The address that the name of a PTR question spells backwards (adns/types.c:1083-1122), and the names that
    adns_submit_reverse makes of addresses (adns/query.c:383-424). */
module Reverses {
  import opened Basics
  import opened Names
  import opened Texts
  import opened Parse
  import opened Queries

  // isspace, in the C locale.
  predicate IsSpace(c: Byte) { c == 32 || 9 <= c <= 13 }

  /** The bytes of a C string: those before the first zero. */
  function CString(s: seq<Byte>): (t: seq<Byte>)
    ensures |t| <= |s|
  {
    if s == [] || s[0] == 0 then [] else [s[0]] + CString(s[1..])
  }

  function SkipSpace(s: seq<Byte>): (t: seq<Byte>)
    ensures |t| <= |s|
  {
    if s != [] && IsSpace(s[0]) then SkipSpace(s[1..]) else s
  }

  /** The digits at the start of `s` behind the value `n`, and what follows them. */
  function Digits(s: seq<Byte>, n: nat): (nat, seq<Byte>)
  {
    if s == [] || !IsDigit(s[0]) then (n, s) else Digits(s[1..], n * 10 + (s[0] - 48))
  }

  /** What strtoul makes of a C string of at most three bytes, as long as it reads all of it. A minus sign
      negates the unsigned result. */
  function Strtoul(s: seq<Byte>): Option<int>
  {
    var t := SkipSpace(s);
    var signed := t != [] && (t[0] == 43 || t[0] == 45);
    var digits := if signed then t[1..] else t;
    if digits == [] || !IsDigit(digits[0]) then (if s == [] then Some(0) else None)
    else
      var (n, rest) := Digits(digits, 0);
      var value: int := n;
      if rest != [] then None else Some(if signed && t[0] == 45 then -value else value)
  }

  /** One label of the name, as a byte of the address. */
  function Octet(l: Label): Option<Byte>
  {
    if |l| == 0 || |l| > 3 || (|l| > 1 && l[0] == 48) then None
    else
      match Strtoul(CString(l))
      case None => None
      case Some(n) => Some(n % 256)
  }

  const IN_ADDR: Label := [105, 110, 45, 97, 100, 100, 114]
  const ARPA: Label := [97, 114, 112, 97]

  /** The four bytes of d.c.b.a.in-addr.arpa are a, b, c and d. */
  function Reverse(ls: seq<Label>): Option<seq<Byte>>
  {
    if |ls| != 6 || ls[4] != IN_ADDR || ls[5] != ARPA then None
    else
      match (Octet(ls[0]), Octet(ls[1]), Octet(ls[2]), Octet(ls[3]))
      case (Some(d), Some(c), Some(b), Some(a)) => Some([a, b, c, d])
      case _ => None
  }

  // ---------- Reading it off a question ----------

  // One label more of the question; the assertion that there is no error holds.
  method NextOf(fls: FindLabelState, ghost whole: seq<Label>, ghost i: nat) returns (lablen: int, labstart: nat)
    requires Rest(fls.dgram, fls.Abs()).Name? && i <= |whole| && whole[i..] == Rest(fls.dgram, fls.Abs()).labels
    modifies fls
    ensures if i < |whole| then
              lablen == |whole[i]| > 0 && labstart + lablen <= |fls.dgram| &&
              fls.dgram[labstart..labstart + lablen] == whole[i] &&
              Rest(fls.dgram, fls.Abs()).Name? && whole[i + 1..] == Rest(fls.dgram, fls.Abs()).labels
            else lablen == 0
  {
    RestCases(fls.dgram, fls.Abs());
    hide Rest;
    hide FindNext;
    var st;
    st, lablen, labstart := fls.Next();
    assert st == Ok;
    if lablen > 0 {
      assert whole[i..][0] == whole[i] && whole[i..][1..] == whole[i + 1..];
    }
  }

  // The address that a question spells (adns/types.c:1083-1122).
  method ReadReverse(dgram: seq<Byte>) returns (addr: Option<seq<Byte>>)
    requires NameAt(dgram, DNS_HDRSIZE, |dgram|).Name?
    ensures addr == Reverse(NameAt(dgram, DNS_HDRSIZE, |dgram|).labels)
  {
    hide Rest;
    hide Octet;
    hide Strtoul;
    hide CString;
    ghost var whole := NameAt(dgram, DNS_HDRSIZE, |dgram|).labels;
    var fls := new FindLabelState(dgram, |dgram|, DNS_HDRSIZE, false);
    EndIgnored(dgram, Start(DNS_HDRSIZE, |dgram|), fls.Abs());
    assert whole[0..] == whole;
    var ipv := new Byte[4];
    var i := 0;
    while i < 4
      invariant 0 <= i <= 4 && i <= |whole| && Rest(dgram, fls.Abs()).Name? &&
                whole[i..] == Rest(dgram, fls.Abs()).labels
      invariant forall k :: 0 <= k < i ==> Octet(whole[k]) == Some(ipv[3 - k])
    {
      var lablen, labstart := NextOf(fls, whole, i);
      if lablen <= 0 || lablen > 3 {
        NotOctet(whole, i);
        return None;
      }
      var labbuf := dgram[labstart..labstart + lablen];
      var n := Strtoul(CString(labbuf));
      if n.None? || (lablen > 1 && labbuf[0] == 48) {
        NotOctet(whole, i);
        return None;
      }
      OctetIs(whole[i]);
      ipv[3 - i] := n.value % 256;
      i := i + 1;
    }
    var expectdomain := [IN_ADDR, ARPA];
    ghost var octets := ipv[..];
    assert Octet(whole[0]) == Some(octets[3]) && Octet(whole[1]) == Some(octets[2]);
    assert Octet(whole[2]) == Some(octets[1]) && Octet(whole[3]) == Some(octets[0]);
    i := 0;
    while i < 2
      invariant ipv[..] == octets && 0 <= i <= 2 && 4 + i <= |whole| && Rest(dgram, fls.Abs()).Name?
      invariant whole[4 + i..] == Rest(dgram, fls.Abs()).labels
      invariant (i > 0 ==> whole[4] == IN_ADDR) && (i > 1 ==> whole[5] == ARPA)
    {
      var lablen, labstart := NextOf(fls, whole, 4 + i);
      var l := |expectdomain[i]|;
      if lablen != l || dgram[labstart..labstart + l] != expectdomain[i] {
        return None;
      }
      i := i + 1;
    }
    var lablen, _ := NextOf(fls, whole, 6);
    if lablen != 0 {
      return None;
    }
    assert octets == [octets[0], octets[1], octets[2], octets[3]];
    addr := Some(ipv[..]);
  }

  lemma OctetIs(l: Label)
    requires 1 <= |l| <= 3 && !(|l| > 1 && l[0] == 48) && Strtoul(CString(l)).Some?
    ensures Octet(l) == Some(Strtoul(CString(l)).value % 256)
  {
  }

  lemma NotOctet(whole: seq<Label>, i: nat)
    requires i < 4
    requires i >= |whole| || |whole[i]| > 3 || (|whole[i]| > 1 && whole[i][0] == 48) || Strtoul(CString(whole[i])).None?
    ensures Reverse(whole).None?
  {
    hide Strtoul;
    hide CString;
    if i < |whole| {
      assert Octet(whole[i]).None?;
    }
  }

  // ---------- Names made of addresses ----------

  /** A byte as printf prints it with %d. */
  function Decimal(b: Byte): (l: Label)
    ensures 1 <= |l| <= 3 && forall i :: 0 <= i < |l| ==> IsDigit(l[i])
  {
    if b < 10 then [48 + b]
    else if b < 100 then [48 + b / 10, 48 + b % 10]
    else [48 + b / 100, 48 + b / 10 % 10, 48 + b % 10]
  }

  function ReverseLabels(addr: seq<Byte>): seq<Label>
    requires |addr| == 4
  {
    [Decimal(addr[3]), Decimal(addr[2]), Decimal(addr[1]), Decimal(addr[0]), IN_ADDR, ARPA]
  }

  /** What adns_submit_reverse submits for an address. */
  function ReverseText(addr: seq<Byte>): seq<Byte>
    requires |addr| == 4
  {
    Decimal(addr[3]) +
    DotThen(Decimal(addr[2]), DotThen(Decimal(addr[1]), DotThen(Decimal(addr[0]), DotThen(IN_ADDR, DotThen(ARPA, [])))))
  }

  function DotThen(l: Label, rest: seq<Byte>): seq<Byte> { [DOT] + l + rest }

  /** Digits without a leading zero count modulo 256, whatever their value. */
  lemma OctetOfDigits(l: Label)
    requires 1 <= |l| <= 3 && (forall i :: 0 <= i < |l| ==> IsDigit(l[i])) && (|l| > 1 ==> l[0] != 48)
    ensures CString(l) == l && Strtoul(l) == Some(Digits(l, 0).0) && Octet(l) == Some(Digits(l, 0).0 % 256)
  {
    NoZeroInside(l);
    AllDigits(l, 0);
  }

  lemma {:induction false} NoZeroInside(s: seq<Byte>)
    requires forall i :: 0 <= i < |s| ==> IsDigit(s[i])
    ensures CString(s) == s
  {
    if s != [] {
      NoZeroInside(s[1..]);
    }
  }

  lemma {:induction false} AllDigits(s: seq<Byte>, n: nat)
    requires forall i :: 0 <= i < |s| ==> IsDigit(s[i])
    ensures Digits(s, n).1 == []
  {
    if s != [] {
      AllDigits(s[1..], n * 10 + (s[0] - 48));
    }
  }

  lemma DigitsNext(s: seq<Byte>, n: nat)
    requires s != [] && IsDigit(s[0])
    ensures Digits(s, n) == Digits(s[1..], n * 10 + (s[0] - 48))
    ensures |s| == 1 ==> Digits(s, n) == (n * 10 + (s[0] - 48), [])
  {
  }

  function Value(l: Label): int
    requires 1 <= |l| <= 3
  {
    if |l| == 1 then l[0] as int - 48
    else if |l| == 2 then l[0] as int * 10 + l[1] as int - 528
    else l[0] as int * 100 + l[1] as int * 10 + l[2] as int - 5328
  }

  lemma DecimalOf(l: Label)
    requires 1 <= |l| <= 3 && forall i :: 0 <= i < |l| ==> 48 <= l[i] <= 57
    requires Value(l) < 256 && !(|l| > 1 && l[0] == 48)
    ensures 0 <= Value(l) && Decimal(Value(l)) == l
  {
    var a := l[0] as int;
    if |l| == 1 {
      assert Decimal(a - 48)[0] == a;
    } else if |l| == 2 {
      var b := l[1] as int;
      assert Value(l) / 10 == a - 48 && Value(l) % 10 == b - 48;
    } else {
      var b, c := l[1] as int, l[2] as int;
      assert Value(l) / 100 == a - 48 && Value(l) / 10 % 10 == b - 48 && Value(l) % 10 == c - 48;
    }
  }

  lemma DigitsOf(l: Label)
    requires 1 <= |l| <= 3 && forall i :: 0 <= i < |l| ==> IsDigit(l[i])
    ensures Digits(l, 0).0 == Value(l)
  {
    hide Digits;
    DigitsNext(l, 0);
    if |l| > 1 {
      DigitsNext(l[1..], l[0] - 48);
      assert l[1..][1..] == l[2..];
    }
    if |l| > 2 {
      DigitsNext(l[2..], (l[0] - 48) as int * 10 + (l[1] - 48) as int);
    }
  }

  lemma ValueOfDecimal(b: Byte)
    ensures Value(Decimal(b)) == b
  {
  }

  lemma DecimalIsRead(b: Byte)
    ensures Octet(Decimal(b)) == Some(b) && Digits(Decimal(b), 0) == (b, [])
  {
    var l := Decimal(b);
    ValueOfDecimal(b);
    hide Octet;
    hide Digits;
    hide Strtoul;
    hide CString;
    hide Value;
    OctetOfDigits(l);
    DigitsOf(l);
    AllDigits(l, 0);
    SmallModulo(b);
  }

  /** A label that is accepted is the decimal form of what it is read as if and only if it is of digits, and they
      make less than 256. */
  lemma OctetIsDecimal(l: Label)
    requires Octet(l).Some?
    ensures l == Decimal(Octet(l).value) <==> (forall i :: 0 <= i < |l| ==> IsDigit(l[i])) && Digits(l, 0).0 < 256
  {
    hide Octet;
    hide Digits;
    hide Strtoul;
    hide CString;
    hide Decimal;
    hide Value;
    OctetLength(l);
    if l == Decimal(Octet(l).value) {
      DecimalIsRead(Octet(l).value);
    }
    if (forall i :: 0 <= i < |l| ==> IsDigit(l[i])) && Digits(l, 0).0 < 256 {
      OctetOfDigits(l);
      DigitsOf(l);
      DecimalOf(l);
      SmallModulo(Digits(l, 0).0);
    }
  }

  lemma OctetLength(l: Label)
    requires Octet(l).Some?
    ensures 1 <= |l| <= 3 && !(|l| > 1 && l[0] == 48)
  {
  }

  lemma SmallModulo(n: nat)
    requires n < 256
    ensures n % 256 == n
  {
  }

  /** A label is the decimal form of a byte. */
  predicate IsDecimal(l: Label) { exists b: Byte :: l == Decimal(b) }

  lemma DecimalIsOnly(l: Label, a: Byte)
    requires IsDecimal(l)
    ensures Octet(l) == Some(a) <==> l == Decimal(a)
  {
    hide Octet;
    hide Decimal;
    var b: Byte :| l == Decimal(b);
    DecimalIsRead(b);
    DecimalIsRead(a);
  }

  /** Of the names whose first four labels are decimal forms of bytes, the one that an address is submitted as spells
      that address, and no other does. */
  lemma ReverseExactly(ls: seq<Label>, addr: seq<Byte>)
    requires |addr| == 4 && forall i :: 0 <= i < 4 && i < |ls| ==> IsDecimal(ls[i])
    ensures Reverse(ls) == Some(addr) <==> ls == ReverseLabels(addr)
  {
    if |ls| == 6 {
      DecimalIsOnly(ls[0], addr[3]);
      DecimalIsOnly(ls[1], addr[2]);
      DecimalIsOnly(ls[2], addr[1]);
      DecimalIsOnly(ls[3], addr[0]);
      hide Octet;
      hide Decimal;
      hide IsDecimal;
      assert ls == [ls[0], ls[1], ls[2], ls[3], ls[4], ls[5]];
      assert addr == [addr[0], addr[1], addr[2], addr[3]];
    }
  }

  /** The code that reads an address also accepts what no address is printed as: 999 reads as 231, -5 as 251. */
  lemma NotOnlyDecimals(b: Byte)
    ensures Octet([57, 57, 57]) == Some(231) && Octet([45, 53]) == Some(251)
    ensures Decimal(b) != [57, 57, 57] && Decimal(b) != [45, 53]
  {
    var l: Label := [57, 57, 57];
    OctetOfDigits(l);
    assert l[1..] == [57, 57] && l[1..][1..] == [57] && l[1..][1..][1..] == [];
    var m: Label := [45, 53];
    assert m[1..] == [53] && m[1..][1..] == [];
    assert CString(m[1..]) == m[1..] && CString(m) == m;
    DecimalIsRead(b);
    assert Decimal(231)[0] == 50 && Decimal(251)[0] == 50;
    hide Octet;
  }

  lemma {:induction false} NoBackslash(ls: seq<Label>, first: bool)
    requires AllHost(ls)
    ensures BACKSLASH !in Printed(ls, false, first)
    decreases |ls|
  {
    if ls != [] {
      assert IsHostLabel(ls[0]);
      NoBackslash(ls[1..], false);
    }
  }

  lemma {:induction false} LabelReadsAlike(s: seq<Byte>, p: nat, acc: Label)
    requires p <= |s| && BACKSLASH !in s && ReadLabel(s, p, true, acc).Success?
    ensures acc <= ReadLabel(s, p, true, acc).value.0
    ensures IsHostLabel(ReadLabel(s, p, true, acc).value.0) ==>
            ReadLabel(s, p, false, acc) == ReadLabel(s, p, true, acc)
    decreases |s| - p
  {
    if p < |s| && s[p] != DOT {
      assert s[p] in s;
      LabelReadsAlike(s, p + 1, acc + [s[p]]);
      var l := ReadLabel(s, p, true, acc).value.0;
      assert l[|acc|] == (acc + [s[p]])[|acc|] == s[p];
    }
  }

  /** Hostnames are read the same whether or not quoting is allowed. */
  lemma {:induction false} HostReadsAlike(s: seq<Byte>, p: nat, n: nat)
    requires p <= |s| && BACKSLASH !in s && ReadLabels(s, p, true, n).Success? &&
             AllHost(ReadLabels(s, p, true, n).value)
    ensures ReadLabels(s, p, false, n) == ReadLabels(s, p, true, n)
    decreases |s| - p
  {
    if p < |s| {
      LabelReadsAlike(s, p, []);
      hide ReadLabel;
      var (l, q) := ReadLabel(s, p, true, []).value;
      var ls := ReadLabels(s, p, true, n).value;
      var rest := ReadLabels(s, q, true, n + |l| + 1).value;
      assert ls == [l] + rest && ls[0] == l;
      assert forall i :: 0 <= i < |rest| ==> rest[i] == ls[i + 1];
      HostReadsAlike(s, q, n + |l| + 1);
    }
  }

  lemma ReverseFacts(addr: seq<Byte>)
    requires |addr| == 4
    ensures var ls := ReverseLabels(addr);
            WireLabels(ls) && |Wire(ls)| < DNS_MAXDOMAIN && AllHost(ls) && RoundTrips.AllFaithful(ls)
  {
    hide Decimal;
    hide Wire;
    WireNone();
    var ls: seq<Label> := ReverseLabels(addr);
    assert ls[1..][1..] == ls[2..] && ls[2..][1..] == ls[3..] && ls[3..][1..] == ls[4..] && ls[4..][1..] == ls[5..];
    var last: seq<Label> := ls[5..];
    assert last[1..] == [];
    WireOf(ls);
    WireOf(ls[1..]);
    WireOf(ls[2..]);
    WireOf(ls[3..]);
    WireOf(ls[4..]);
    WireOf(ls[5..]);
    hide WireLabels;
    forall i | 0 <= i < |ls| ensures IsHostLabel(ls[i]) && RoundTrips.AllFaithfulIn(ls[i]) {
      assert i == 0 || i == 1 || i == 2 || i == 3 || i == 4 || i == 5;
    }
  }

  lemma ReversePrinted(addr: seq<Byte>)
    requires |addr| == 4
    ensures Printed(ReverseLabels(addr), false, true) == ReverseText(addr)
  {
    hide Decimal;
    hide Printed;
    hide DotThen;
    var ls: seq<Label> := ReverseLabels(addr);
    PrintedNext(ls);
    PrintedNext(ls[1..]);
    PrintedNext(ls[2..]);
    PrintedNext(ls[3..]);
    PrintedNext(ls[4..]);
    PrintedNext(ls[5..]);
    var last: seq<Label> := ls[5..];
    assert last[1..] == [] && ls[1..][1..] == ls[2..] && ls[2..][1..] == ls[3..] && ls[3..][1..] == ls[4..];
    assert ls[4..][1..] == ls[5..];
  }

  lemma PrintedNext(ls: seq<Label>)
    requires ls != []
    ensures Printed(ls, false, true) == ls[0] + Printed(ls[1..], false, false)
    ensures Printed(ls, false, false) == DotThen(ls[0], Printed(ls[1..], false, false)) &&
            Printed([], false, false) == []
  {
    hide Quoted;
    assert [] + ls[0] == ls[0];
  }

  lemma WireNone()
    ensures Wire([]) == []
  {
  }

  lemma WireOf(ls: seq<Label>)
    requires ls != [] && forall i :: 0 <= i < |ls| ==> 1 <= |ls[i]| <= 7
    ensures WireLabels(ls) && |Wire(ls)| <= 8 + |Wire(ls[1..])|
  {
  }

  /** Submitting an address in reverse asks a question from which the answers are checked against that address. */
  lemma ReverseRoundTrip(addr: seq<Byte>, quoteok: bool, id: nat, typ: nat)
    requires |addr| == 4
    ensures var r := ReadLabels(ReverseText(addr), 0, quoteok, 0);
            r == Success(ReverseLabels(addr)) && WireLabels(r.value) &&
            var m := Message(id, r.value, typ);
            NameAt(m, DNS_HDRSIZE, |m|).Name? && Reverse(NameAt(m, DNS_HDRSIZE, |m|).labels) == Some(addr)
  {
    var ls, t := ReverseLabels(addr), ReverseText(addr);
    ReverseFacts(addr);
    hide Decimal;
    hide Wire;
    hide Message;
    hide ReverseText;
    hide Octet;
    hide Printed;
    hide ReverseLabels;
    hide ReadLabels;
    hide Reverse;
    hide Rest;
    ReversePrinted(addr);
    RoundTrips.HostPrintsAlike(ls, true);
    RoundTrips.QuotedRoundTrip(ls);
    NoBackslash(ls, true);
    HostReadsAlike(t, 0, 0);
    WireLength(ls, 0);
    hide Grown;
    MessageAsksForName(id, ls, typ);
    ReverseOfLabels(addr);
  }

  lemma ReverseOfLabels(addr: seq<Byte>)
    requires |addr| == 4
    ensures Reverse(ReverseLabels(addr)) == Some(addr)
  {
    DecimalIsRead(addr[0]);
    DecimalIsRead(addr[1]);
    DecimalIsRead(addr[2]);
    DecimalIsRead(addr[3]);
    hide Decimal;
    hide Octet;
    assert addr == [addr[0], addr[1], addr[2], addr[3]];
  }
}
