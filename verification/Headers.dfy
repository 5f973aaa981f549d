/** The header of a message (RFC 1035 section 4.1.1, adns/reply.c:55-76). */
module Headers {
  import opened Basics

  /** What adns__procdgram reads of it. */
  datatype Header = Header(id: nat, qr: bool, opcode: nat, tc: bool, ra: bool, rcode: nat,
                           qdcount: nat, ancount: nat, nscount: nat, arcount: nat)

  function HeaderOf(dg: seq<Byte>): Header
    requires |dg| >= DNS_HDRSIZE
  {
    Header(GetW(dg, 0), dg[2] >= 128, dg[2] / 8 % 16, dg[2] / 2 % 2 == 1, dg[3] >= 128, dg[3] % 16,
           GetW(dg, 4), GetW(dg, 6), GetW(dg, 8), GetW(dg, 10))
  }

  /** The bits that it does not read. */
  datatype Unread = Unread(aa: bool, rd: bool, z: nat)

  function Bit(b: bool): nat { if b then 1 else 0 }

  /** The fields fit their widths. */
  predicate FieldsFit(h: Header, u: Unread)
  {
    h.id < 0x1_0000 && h.opcode < 16 && h.rcode < 16 && u.z < 8 && h.qdcount < 0x1_0000 && h.ancount < 0x1_0000 &&
    h.nscount < 0x1_0000 && h.arcount < 0x1_0000
  }

  /** The twelve bytes as a server writes them, field by field. */
  function HeaderWire(h: Header, u: Unread): (w: seq<Byte>)
    requires FieldsFit(h, u)
    ensures |w| == DNS_HDRSIZE
  {
    PutW(h.id) + [Bit(h.qr) * 128 + h.opcode * 8 + Bit(u.aa) * 4 + Bit(h.tc) * 2 + Bit(u.rd),
                  Bit(h.ra) * 128 + u.z * 16 + h.rcode] +
    PutW(h.qdcount) + PutW(h.ancount) + PutW(h.nscount) + PutW(h.arcount)
  }

  /** What a server has written is what is read. */
  lemma HeaderReads(h: Header, u: Unread, rest: seq<Byte>)
    requires FieldsFit(h, u)
    ensures HeaderOf(HeaderWire(h, u) + rest) == h
  {
    var dg := HeaderWire(h, u) + rest;
    WordReads(dg, 0, h.id);
    WordReads(dg, 4, h.qdcount);
    WordReads(dg, 6, h.ancount);
    WordReads(dg, 8, h.nscount);
    WordReads(dg, 10, h.arcount);
    FlagsRead(dg, h, u);
    hide HeaderWire;
  }

  lemma FlagsRead(dg: seq<Byte>, h: Header, u: Unread)
    requires FieldsFit(h, u) && |dg| >= DNS_HDRSIZE
    requires dg[2] == Bit(h.qr) * 128 + h.opcode * 8 + Bit(u.aa) * 4 + Bit(h.tc) * 2 + Bit(u.rd)
    requires dg[3] == Bit(h.ra) * 128 + u.z * 16 + h.rcode
    ensures (dg[2] >= 128 <==> h.qr) && dg[2] / 8 % 16 == h.opcode && (dg[2] / 2 % 2 == 1 <==> h.tc)
    ensures (dg[3] >= 128 <==> h.ra) && dg[3] % 16 == h.rcode
  {
  }
}
