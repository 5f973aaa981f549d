/** Bytes, character classes, size constants and statuses shared by every module
    (adns/internal.h, adns/adns.h). */
module Basics {

  type Byte = b: int | 0 <= b < 256

  // adns/internal.h:61-74
  const MAXSERVERS := 5
  const UDPMAXRETRIES := 5
  const UDPRETRYMS := 1500
  const TCPIDLEMS := 30000
  const MAXTTLBELIEVE := 7 * 86400
  const DNS_MAXUDP := 512
  const DNS_MAXLABEL := 63
  const DNS_MAXDOMAIN := 255
  const DNS_HDRSIZE := 12
  const DNS_CLASS_IN := 1

  const DOT: Byte := 46
  const BACKSLASH: Byte := 92
  const HYPHEN: Byte := 45

  // adns/adns.h:226-276, the values a query can end with.
  datatype Status =
    | Ok | SystemFail | Timeout | NoRecurse | InvalidResponse | UnknownFormat
    | RcodeServFail | RcodeFormatError | RcodeNotImplemented | RcodeRefused | RcodeUnknown
    | Inconsistent | ProhibitedCname | AnswerDomainInvalid | AnswerDomainTooLong | InvalidData
    | QueryDomainWrong | QueryDomainInvalid | QueryDomainTooLong | NxDomain | NoData

  /** Statuses up to adns_s_max_tempfail: trying again later may help. */
  predicate TempFail(st: Status)
  {
    st in {SystemFail, Timeout, NoRecurse, InvalidResponse, UnknownFormat, RcodeServFail, RcodeFormatError,
           RcodeNotImplemented, RcodeRefused, RcodeUnknown}
  }

  datatype Option<+T> = None | Some(value: T)

  datatype Result<+T> = Success(value: T) | Failure(status: Status)

  // adns/internal.h:689-696
  predicate IsDigit(c: Byte) { 48 <= c <= 57 }

  predicate IsAlpha(c: Byte) { 97 <= c <= 122 || 65 <= c <= 90 }

  /** The characters printed bare: letters, digits and - _ / +. */
  predicate IsUnquoted(c: Byte) { IsAlpha(c) || IsDigit(c) || c == 45 || c == 95 || c == 47 || c == 43 }

  /** ASCII case folding as the owner comparison does it (adns/parse.c:265-269). */
  function FoldCase(c: Byte): Byte { if 97 <= c <= 122 then c - 32 else c }

  function Folded(s: seq<Byte>): (r: seq<Byte>)
    ensures |r| == |s|
    ensures forall i :: 0 <= i < |s| ==> r[i] == FoldCase(s[i])
  {
    seq(|s|, i requires 0 <= i < |s| => FoldCase(s[i]))
  }

  // Big-endian fields (GET_W and GET_L, adns/internal.h:706-714).
  function GetW(dg: seq<Byte>, c: nat): (w: nat)
    requires c + 2 <= |dg|
    ensures w < 0x1_0000
  {
    dg[c] as int * 256 + dg[c + 1] as int
  }

  function GetL(dg: seq<Byte>, c: nat): (l: nat)
    requires c + 4 <= |dg|
    ensures l < 0x1_0000_0000
  {
    GetW(dg, c) * 0x1_0000 + GetW(dg, c + 2)
  }

  function PutW(w: nat): (s: seq<Byte>)
    ensures |s| == 2
  {
    [w / 256 % 256, w % 256]
  }

  lemma WordReads(dg: seq<Byte>, c: nat, w: nat)
    requires c + 2 <= |dg| && w < 0x1_0000 && dg[c] == PutW(w)[0] && dg[c + 1] == PutW(w)[1]
    ensures GetW(dg, c) == w
  {
  }

  function PutL(l: nat): (s: seq<Byte>)
    ensures |s| == 4
  {
    PutW(l / 0x1_0000) + PutW(l % 0x1_0000)
  }

  function Min(a: int, b: int): int { if a <= b then a else b }

  function Max(a: int, b: int): int { if a >= b then a else b }
}
