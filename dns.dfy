/** The stub resolver's wire-format code: the A-query encoder, the response
    decoder and the resolv.conf nameserver reader, after sections 3.1 and
    4.1 of RFC 1035, together with the response builder the resolver's own
    tests use to make packets. Packets are byte sequences written into
    caller-supplied arrays. */
module DnsResolv {
  import opened Common

  type Byte = b: int | 0 <= b < 256
  type Word = n: nat | n < 0x1_0000
  type DWord = n: nat | n < 0x1_0000_0000

  const U32 := 0x1_0000_0000
  const Dot: Byte := 46
  const MaxNameLength := 253
  const MaxLabelLength := 63
  const TypeA: Word := 1
  const TypeCname: Word := 5
  const ClassIn: Word := 1
  /** QTYPE A and QCLASS IN, as they follow a question's name. */
  const TypeAClassIn: seq<Byte> := [0x00, 0x01, 0x00, 0x01]
  /** The smallest buffer the test response builder accepts. */
  const TestBufferSize := 512

  /** A 16-bit value in network byte order. */
  function Be16(n: Word): (r: seq<Byte>)
    ensures |r| == 2
  {
    [n / 256, n % 256]
  }

  /** Reading a 16-bit value back gives it. */
  lemma Be16Value(n: Word)
    ensures Word16(Be16(n), 0) == n
  {
  }

  /** A 32-bit value in network byte order (htonl, then the bytes in memory). */
  function Be32(n: DWord): (r: seq<Byte>)
    ensures |r| == 4
  {
    [n / 0x100_0000, (n / 0x1_0000) % 256, (n / 256) % 256, n % 256]
  }

  /** The 16-bit big-endian value at `i`. */
  function Word16(p: seq<Byte>, i: nat): Word
    requires i + 2 <= |p|
  {
    p[i] as int * 256 + p[i + 1] as int
  }

  // ---------------------------------------------------------------------
  // Names
  // ---------------------------------------------------------------------

  /** A label's length as the one byte that precedes it (a cast to uint8). */
  function LengthByte(n: nat): Byte
  {
    n % 256
  }

  /** Length-prefixed labels, section 3.1 of RFC 1035, without the root label. */
  function EncodeLabels(ls: seq<seq<Byte>>): seq<Byte>
  {
    if |ls| == 0 then [] else [LengthByte(|ls[0]|)] + ls[0] + EncodeLabels(ls[1..])
  }

  lemma {:induction false} EncodeLabelsConcat(a: seq<seq<Byte>>, b: seq<seq<Byte>>)
    ensures EncodeLabels(a + b) == EncodeLabels(a) + EncodeLabels(b)
  {
    if |a| > 0 {
      assert (a + b)[1..] == a[1..] + b;
      EncodeLabelsConcat(a[1..], b);
    } else {
      assert a + b == b;
    }
  }

  lemma EncodeLabelsAppend(ls: seq<seq<Byte>>, l: seq<Byte>)
    ensures EncodeLabels(ls + [l]) == EncodeLabels(ls) + [LengthByte(|l|)] + l
  {
    EncodeLabelsConcat(ls, [l]);
    assert EncodeLabels([l]) == [LengthByte(|l|)] + l + EncodeLabels([]);
  }

  /** Every label is 1 to 63 bytes long. */
  predicate LabelsOk(ls: seq<seq<Byte>>)
  {
    forall k :: 0 <= k < |ls| ==> 1 <= |ls[k]| <= MaxLabelLength
  }

  /** The labels of a dotted name: its pieces between dots. */
  function Labels(n: seq<Byte>): seq<seq<Byte>>
  {
    Split(n, Dot)
  }

  /** Encoding the labels of a name costs one byte more than the name:
      each dot becomes a length byte and one length byte leads. */
  lemma {:induction false} EncodedNameLength(n: seq<Byte>)
    ensures |EncodeLabels(Labels(n))| == |n| + 1
  {
    if |n| > 0 {
      var q := n[..|n| - 1];
      var p := Split(q, Dot);
      EncodedNameLength(q);
      assert p == p[..|p| - 1] + [Last(p)];
      EncodeLabelsAppend(p[..|p| - 1], Last(p));
      if Last(n) == Dot {
        EncodeLabelsAppend(p, []);
      } else {
        EncodeLabelsAppend(p[..|p| - 1], Last(p) + [Last(n)]);
      }
    }
  }

  // ---------------------------------------------------------------------
  // dns_resolv_build_query
  // ---------------------------------------------------------------------

  /** The name a query asks for: one trailing dot (the root) is dropped. */
  function StripDot(host: seq<Byte>): (n: seq<Byte>)
    ensures |n| <= |host| <= |n| + 1
  {
    if |host| > 0 && Last(host) == Dot then host[..|host| - 1] else host
  }

  /** A name a query can carry: at most 253 bytes, so that its encoding
      fits the 255 bytes of section 2.3.4 of RFC 1035, and no label empty
      or longer than 63 bytes. */
  predicate QueryNameOk(n: seq<Byte>)
  {
    |n| <= MaxNameLength && LabelsOk(Labels(n))
  }

  /** The header: the transaction id, RD = 1 and nothing else set, one
      question and no other records. */
  function QueryHeader(txid: Word): seq<Byte>
  {
    Be16(txid) + [0x01, 0x00, 0x00, 0x01, 0x00, 0x00, 0x00, 0x00, 0x00, 0x00]
  }

  /** The question: the encoded name, the root label, QTYPE A, QCLASS IN. */
  function Question(ls: seq<seq<Byte>>): seq<Byte>
  {
    EncodeLabels(ls) + [0] + TypeAClassIn
  }

  /** The query for `host`, when it has one. */
  function QueryPacket(txid: Word, host: seq<Byte>): Option<seq<Byte>>
  {
    var n := StripDot(host);
    if |host| == 0 || !QueryNameOk(n) then None
    else Some(QueryHeader(txid) + Question(Labels(n)))
  }

  /** The value build_query returns: the packet's length, or -1 when there
      is no packet or it does not fit in `buflen` bytes. */
  function QueryResult(txid: Word, host: seq<Byte>, buflen: nat): int
  {
    match QueryPacket(txid, host)
    case None => -1
    case Some(p) => if |p| <= buflen then |p| else -1
  }

  /** The layout of a query: 12 header bytes with RD set and QDCOUNT 1,
      the labels, a root byte, QTYPE and QCLASS 1; 18 bytes more than the
      name (29 for a name of 11 bytes). */
  lemma QueryLayout(txid: Word, host: seq<Byte>)
    requires QueryPacket(txid, host).Some?
    ensures var p := QueryPacket(txid, host).value; var n := StripDot(host);
      |p| == |n| + 18 &&
      p[..2] == Be16(txid) && p[2..12] == [0x01, 0x00, 0x00, 0x01, 0x00, 0x00, 0x00, 0x00, 0x00, 0x00] &&
      p[12..|p| - 5] == EncodeLabels(Labels(n)) &&
      p[|p| - 5..] == [0x00, 0x00, 0x01, 0x00, 0x01]
  {
    var n := StripDot(host);
    EncodedNameLength(n);
    var p := QueryPacket(txid, host).value;
    var e := EncodeLabels(Labels(n));
    assert p == QueryHeader(txid) + e + [0x00, 0x00, 0x01, 0x00, 0x01];
  }

  /** The rejections: an empty name, one longer than 253 bytes, two dots
      in a row, and a first label of more than 63 bytes. */
  lemma QueryRejections(txid: Word, host: seq<Byte>)
    ensures |host| == 0 ==> QueryPacket(txid, host) == None
    ensures |host| > MaxNameLength + 1 ==> QueryPacket(txid, host) == None
    ensures forall i :: 0 <= i < |host| - 2 && host[i] == Dot && host[i + 1] == Dot ==> QueryPacket(txid, host) == None
    ensures forall i :: MaxLabelLength < i < |host| - 1 && host[i] == Dot && Dot !in host[..i] ==> QueryPacket(txid, host) == None
  {
    forall i | 0 <= i < |host| - 2 && host[i] == Dot && host[i + 1] == Dot
      ensures QueryPacket(txid, host) == None
    {
      EmptyLabelRejected(host, i);
    }
    forall i | MaxLabelLength < i < |host| - 1 && host[i] == Dot && Dot !in host[..i]
      ensures QueryPacket(txid, host) == None
    {
      LongLabelRejected(host, i);
    }
  }

  lemma EmptyLabelRejected(host: seq<Byte>, i: int)
    requires 0 <= i < |host| - 2 && host[i] == Dot && host[i + 1] == Dot
    ensures !QueryNameOk(StripDot(host))
  {
    var n := StripDot(host);
    assert n[i] == Dot && n[i + 1] == Dot;
    var k := EmptyPiece(n, i, Dot);
  }

  lemma LongLabelRejected(host: seq<Byte>, i: int)
    requires MaxLabelLength < i < |host| - 1 && host[i] == Dot && Dot !in host[..i]
    ensures !QueryNameOk(StripDot(host))
  {
    var n := StripDot(host);
    assert n[..i] == host[..i] && n[i] == Dot;
    SplitNoSeparatorIsWhole(n[..i], Dot);
    PieceClosed(n, i, Dot);
    assert Labels(n)[0] == n[..i];
  }

  /** A sequence without the separator is one piece. */
  lemma {:induction false} SplitNoSeparatorIsWhole<T>(s: seq<T>, sep: T)
    requires sep !in s
    ensures Split(s, sep) == [s]
  {
    if |s| > 0 {
      assert sep !in s[..|s| - 1];
      SplitNoSeparatorIsWhole(s[..|s| - 1], sep);
      assert s == s[..|s| - 1] + [s[|s| - 1]];
    }
  }

  /** A trailing dot changes nothing but the transaction id: with or without
      it the query exists alike and agrees from byte 2 on. */
  lemma TrailingDotIgnored(t1: Word, t2: Word, host: seq<Byte>)
    requires |host| > 0 && Last(host) != Dot
    ensures QueryPacket(t1, host + [Dot]).Some? <==> QueryPacket(t2, host).Some?
    ensures QueryPacket(t2, host).Some? ==>
      QueryPacket(t1, host + [Dot]).value[2..] == QueryPacket(t2, host).value[2..]
  {
    assert (host + [Dot])[..|host|] == host;
    assert StripDot(host + [Dot]) == host == StripDot(host);
  }

  /** memcpy(buf + off, bytes, |bytes|); off += |bytes|. Bytes before `off`
      keep the packet written so far; bytes after the copy keep `orig`. */
  method Emit(buf: array<Byte>, off: nat, bytes: seq<Byte>, ghost orig: seq<Byte>, ghost written: seq<Byte>) returns (next: nat)
    requires |orig| == buf.Length && off == |written| && off + |bytes| <= buf.Length
    requires buf[..] == written + orig[off..]
    modifies buf
    ensures next == off + |bytes|
    ensures buf[..] == (written + bytes) + orig[next..]
  {
    var j := 0;
    while j < |bytes|
      invariant 0 <= j <= |bytes|
      invariant buf[..] == (written + bytes[..j]) + orig[off + j..]
    {
      buf[off + j] := bytes[j];
      assert bytes[..j + 1] == bytes[..j] + [bytes[j]];
      j := j + 1;
    }
    assert bytes[..j] == bytes;
    next := off + |bytes|;
  }

  /** Each label as its length byte and its bytes, one after the other. */
  method EmitLabels(buf: array<Byte>, off: nat, ls: seq<seq<Byte>>, ghost orig: seq<Byte>, ghost written: seq<Byte>) returns (next: nat)
    requires |orig| == buf.Length && off == |written| && off + |EncodeLabels(ls)| <= buf.Length
    requires buf[..] == written + orig[off..]
    modifies buf
    ensures next == off + |EncodeLabels(ls)|
    ensures buf[..] == (written + EncodeLabels(ls)) + orig[next..]
  {
    next := off;
    var k := 0;
    while k < |ls|
      invariant 0 <= k <= |ls|
      invariant next == off + |EncodeLabels(ls[..k])| <= off + |EncodeLabels(ls)|
      invariant buf[..] == (written + EncodeLabels(ls[..k])) + orig[next..]
    {
      var l := ls[k];
      LabelsStep(ls, k);
      ghost var w0 := written + EncodeLabels(ls[..k]);
      next := Emit(buf, next, [LengthByte(|l|)], orig, w0);
      next := Emit(buf, next, l, orig, w0 + [LengthByte(|l|)]);
      assert w0 + [LengthByte(|l|)] + l == written + EncodeLabels(ls[..k + 1]);
      k := k + 1;
    }
    assert ls[..k] == ls;
  }

  /** One label more of the encoding, which still fits in the whole. */
  lemma LabelsStep(ls: seq<seq<Byte>>, k: nat)
    requires k < |ls|
    ensures EncodeLabels(ls[..k + 1]) == EncodeLabels(ls[..k]) + [LengthByte(|ls[k]|)] + ls[k]
    ensures |EncodeLabels(ls[..k + 1])| <= |EncodeLabels(ls)|
  {
    assert ls[..k + 1] == ls[..k] + [ls[k]];
    EncodeLabelsAppend(ls[..k], ls[k]);
    assert ls == ls[..k + 1] + ls[k + 1..];
    EncodeLabelsConcat(ls[..k + 1], ls[k + 1..]);
  }

  /** dns_resolv_build_query: writes the A query for the hostname (a null
      pointer is None) into the first `buflen` bytes of `buf` and returns its
      length, or -1 for a null argument, a bad name or a short buffer. */
  method BuildQuery(txid: Word, hostname: Option<seq<Byte>>, buf: array?<Byte>, buflen: nat) returns (len: int)
    requires buf != null ==> buflen <= buf.Length
    modifies buf
    ensures hostname.None? || buf == null ==> len == -1
    ensures hostname.Some? && buf != null ==> len == QueryResult(txid, hostname.value, buflen)
    ensures len >= 0 ==> buf != null && hostname.Some? && buf[..len] == QueryPacket(txid, hostname.value).value
    ensures buf != null && len >= 0 ==> buf[len..] == old(buf[len..])
    ensures buf != null && len < 0 ==> buf[..] == old(buf[..])
  {
    if hostname.None? || buf == null {
      return -1;
    }
    var host := hostname.value;
    if |host| == 0 {
      return -1;
    }
    var n := StripDot(host);
    if |n| > MaxNameLength {
      return -1;
    }
    var labels := Labels(n);
    var ok := CheckLabels(labels);
    if !ok {
      return -1;
    }
    EncodedNameLength(n);
    if |n| + 18 > buflen {
      return -1;
    }
    QueryLayout(txid, host);
    ghost var orig := buf[..];
    len := WriteQuery(buf, txid, host, labels);
    Spliced(buf[..], QueryPacket(txid, host).value, orig[len..]);
  }

  /** Whether every label is 1 to 63 bytes long. */
  method CheckLabels(ls: seq<seq<Byte>>) returns (ok: bool)
    ensures ok == LabelsOk(ls)
  {
    var k := 0;
    while k < |ls|
      invariant 0 <= k <= |ls|
      invariant forall k' :: 0 <= k' < k ==> 1 <= |ls[k']| <= MaxLabelLength
    {
      if |ls[k]| == 0 || |ls[k]| > MaxLabelLength {
        return false;
      }
      k := k + 1;
    }
    return true;
  }

  /** The query written at the start of the buffer. */
  method WriteQuery(buf: array<Byte>, txid: Word, host: seq<Byte>, labels: seq<seq<Byte>>) returns (len: nat)
    requires QueryPacket(txid, host).Some? && labels == Labels(StripDot(host))
    requires |QueryPacket(txid, host).value| <= buf.Length
    modifies buf
    ensures len == |QueryPacket(txid, host).value|
    ensures buf[..] == QueryPacket(txid, host).value + old(buf[..])[len..]
  {
    ghost var orig := buf[..];
    QuerySplice(txid, host);
    var off := Emit(buf, 0, QueryHeader(txid), orig, []);
    off := EmitLabels(buf, off, labels, orig, QueryHeader(txid));
    len := Emit(buf, off, [0] + TypeAClassIn, orig, QueryHeader(txid) + EncodeLabels(labels));
  }

  lemma QuerySplice(txid: Word, host: seq<Byte>)
    requires QueryPacket(txid, host).Some?
    ensures var labels := Labels(StripDot(host));
      QueryHeader(txid) + EncodeLabels(labels) + ([0] + TypeAClassIn) == QueryPacket(txid, host).value &&
      |QueryHeader(txid)| == 12
  {
  }

  /** The two halves of a concatenation. */
  lemma Spliced<T>(s: seq<T>, a: seq<T>, b: seq<T>)
    requires s == a + b
    ensures s[..|a|] == a && s[|a|..] == b
  {
  }

  // ---------------------------------------------------------------------
  // Responses: resource records and the test response builder
  // ---------------------------------------------------------------------

  /** An answer record whose owner name is a pointer to offset 12, the
      question's name (section 4.1.4 of RFC 1035). */
  datatype Record = Record(rtype: Word, rclass: Word, ttl: DWord, rdata: seq<Byte>)

  /** NAME (the pointer), TYPE, CLASS, TTL, RDLENGTH (cut to 16 bits) and RDATA. */
  function RecordBytes(r: Record): seq<Byte>
  {
    [0xC0, 0x0C] + Be16(r.rtype) + Be16(r.rclass) + Be32(r.ttl) + Be16(|r.rdata| % 0x1_0000) + r.rdata
  }

  function RecordsBytes(rs: seq<Record>): seq<Byte>
  {
    if |rs| == 0 then [] else RecordBytes(rs[0]) + RecordsBytes(rs[1..])
  }

  lemma {:induction false} RecordsBytesAppend(rs: seq<Record>, r: Record)
    ensures RecordsBytes(rs + [r]) == RecordsBytes(rs) + RecordBytes(r)
  {
    if |rs| == 0 {
      assert rs + [r] == [r];
      assert RecordsBytes([r]) == RecordBytes(r) + RecordsBytes([]);
    } else {
      assert (rs + [r])[1..] == rs[1..] + [r];
      RecordsBytesAppend(rs[1..], r);
    }
  }

  /** Every record's data fits its 16-bit RDLENGTH. */
  predicate RecordsFit(rs: seq<Record>)
  {
    forall k :: 0 <= k < |rs| ==> |rs[k].rdata| < 0x1_0000
  }

  /** The data of the first record of type A, class IN and four bytes of data. */
  function FirstA(rs: seq<Record>): (r: Option<seq<Byte>>)
    ensures r.Some? ==> |r.value| == 4
  {
    if |rs| == 0 then None
    else if rs[0].rtype == TypeA && rs[0].rclass == ClassIn && |rs[0].rdata| == 4 then Some(rs[0].rdata)
    else FirstA(rs[1..])
  }

  /** `0x80 | rcode`: RA set, the rest of the byte as given. */
  function WithRa(rcode: Byte): (b: Byte)
    ensures b >= 0x80 && b % 16 == rcode % 16
  {
    if rcode >= 0x80 then rcode else rcode + 0x80
  }

  /** The response header: QR and RD set, RA and RCODE from `rcode`, one
      question and `ancount` answers. */
  function ResponseHeader(txid: Word, rcode: Byte, ancount: Word): seq<Byte>
  {
    Be16(txid) + [0x81, WithRa(rcode), 0x00, 0x01] + Be16(ancount) + [0x00, 0x00, 0x00, 0x00]
  }

  /** The question name as the test builder writes it: a length byte and
      the bytes before each dot, then the rest when it is not empty, then
      the root label. */
  function TestName(qname: seq<Byte>): seq<Byte>
  {
    var ps := Labels(qname);
    EncodeLabels(ps[..|ps| - 1]) + (if |Last(ps)| > 0 then EncodeLabels([Last(ps)]) else []) + [0]
  }

  /** The question for `qname`, type A, class IN. */
  function TestQuestion(qname: seq<Byte>): seq<Byte>
  {
    TestName(qname) + TypeAClassIn
  }

  /** A response with one question for `qname` and the given answers. */
  function Response(txid: Word, rcode: Byte, qname: seq<Byte>, rs: seq<Record>): seq<Byte>
    requires |rs| < 0x1_0000
  {
    ResponseHeader(txid, rcode, |rs|) + TestQuestion(qname) + RecordsBytes(rs)
  }

  /** The answers of build_test_response: A records, TTL 60, holding
      answer_ip, answer_ip + 1, ... in 32-bit arithmetic. */
  function TestAnswers(ip: DWord, n: nat): (rs: seq<Record>)
    ensures |rs| == n
    ensures forall i :: 0 <= i < n ==> rs[i] == TestAnswer(ip, i)
  {
    seq(n, (i: nat) requires i < n => TestAnswer(ip, i))
  }

  function TestAnswer(ip: DWord, i: nat): Record
  {
    Record(TypeA, ClassIn, 60, Be32((ip + i) % U32))
  }

  function TestResponse(txid: Word, rcode: Byte, nanswer: Word, qname: seq<Byte>, ip: DWord): seq<Byte>
  {
    Response(txid, rcode, qname, TestAnswers(ip, nanswer))
  }

  /** build_test_response: -1 for a buffer under 512 bytes; otherwise the
      buffer is zeroed and the response written at its start, and its
      length returned. A response longer than the buffer would be written
      past its end, so callers keep it within. */
  method BuildTestResponse(buf: array<Byte>, buflen: nat, txid: Word, rcode: Byte, nanswer: Word, qname: seq<Byte>, ip: DWord) returns (off: int)
    requires buflen <= buf.Length
    requires buflen >= TestBufferSize ==> |TestResponse(txid, rcode, nanswer, qname, ip)| <= buflen
    modifies buf
    ensures buflen < TestBufferSize ==> off == -1 && buf[..] == old(buf[..])
    ensures buflen >= TestBufferSize ==>
      off == |TestResponse(txid, rcode, nanswer, qname, ip)| &&
      buf[..off] == TestResponse(txid, rcode, nanswer, qname, ip) &&
      (forall i :: off <= i < buflen ==> buf[i] == 0) &&
      buf[buflen..] == old(buf[buflen..])
  {
    if buflen < TestBufferSize {
      return -1;
    }
    ZeroFill(buf, buflen);
    ghost var orig := buf[..];
    TestResponseLength(txid, rcode, nanswer, qname, ip);
    var o := EmitResponseHeader(buf, txid, rcode, nanswer, orig);
    ghost var w := ResponseHeader(txid, rcode, nanswer);
    o := EmitTestName(buf, o, qname, orig, w);
    o := Emit(buf, o, TypeAClassIn, orig, w + TestName(qname));
    ghost var top := w + TestName(qname) + TypeAClassIn;
    o := EmitTestAnswers(buf, o, ip, nanswer, orig, top);
    ResponseSplice(txid, rcode, nanswer, qname, ip, buf[..], orig, o);
    off := o;
  }

  lemma ResponseSplice(txid: Word, rcode: Byte, nanswer: Word, qname: seq<Byte>, ip: DWord, s: seq<Byte>, orig: seq<Byte>, o: nat)
    requires o <= |orig| && s == (ResponseHeader(txid, rcode, nanswer) + TestName(qname) + TypeAClassIn + RecordsBytes(TestAnswers(ip, nanswer))) + orig[o..]
    ensures o == |TestResponse(txid, rcode, nanswer, qname, ip)| ==> s[..o] == TestResponse(txid, rcode, nanswer, qname, ip) && s[o..] == orig[o..]
  {
  }

  /** memset(buf, 0, buflen) */
  method ZeroFill(buf: array<Byte>, buflen: nat)
    requires buflen <= buf.Length
    modifies buf
    ensures forall i :: 0 <= i < buflen ==> buf[i] == 0
    ensures buf[buflen..] == old(buf[buflen..])
  {
    var z := 0;
    while z < buflen
      invariant 0 <= z <= buflen
      invariant forall i :: 0 <= i < z ==> buf[i] == 0
      invariant buf[z..] == old(buf[z..])
    {
      buf[z] := 0;
      z := z + 1;
    }
  }

  /** Bytes 0 to 7 of the header; ARCOUNT and NSCOUNT keep the zeros of
      the cleared buffer. */
  method EmitResponseHeader(buf: array<Byte>, txid: Word, rcode: Byte, nanswer: Word, ghost orig: seq<Byte>) returns (off: nat)
    requires |orig| == buf.Length >= 12 && buf[..] == orig && orig[8..12] == [0, 0, 0, 0]
    modifies buf
    ensures off == 12 && buf[..] == ResponseHeader(txid, rcode, nanswer) + orig[12..]
  {
    var head := Be16(txid) + [0x81, WithRa(rcode), 0x00, 0x01] + Be16(nanswer);
    off := Emit(buf, 0, head, orig, []);
    HeaderSplice(txid, rcode, nanswer, orig);
    off := 12;
  }

  lemma HeaderSplice(txid: Word, rcode: Byte, nanswer: Word, orig: seq<Byte>)
    requires |orig| >= 12 && orig[8..12] == [0, 0, 0, 0]
    ensures (Be16(txid) + [0x81, WithRa(rcode), 0x00, 0x01] + Be16(nanswer)) + orig[8..] ==
      ResponseHeader(txid, rcode, nanswer) + orig[12..]
  {
    var head := Be16(txid) + [0x81, WithRa(rcode), 0x00, 0x01] + Be16(nanswer);
    assert orig[8..] == orig[8..12] + orig[12..];
    assert head + orig[8..12] == ResponseHeader(txid, rcode, nanswer);
  }

  /** The question name, as the test builder writes it. */
  method EmitTestName(buf: array<Byte>, off: nat, qname: seq<Byte>, ghost orig: seq<Byte>, ghost written: seq<Byte>) returns (next: nat)
    requires |orig| == buf.Length && off == |written| && off + |TestName(qname)| <= buf.Length
    requires buf[..] == written + orig[off..]
    modifies buf
    ensures next == off + |TestName(qname)|
    ensures buf[..] == (written + TestName(qname)) + orig[next..]
  {
    var ps := Labels(qname);
    var last := ps[|ps| - 1];
    TestNameParts(qname, written);
    var init := ps[..|ps| - 1];
    next := EmitLabels(buf, off, init, orig, written);
    if |last| > 0 {
      next := Emit(buf, next, [LengthByte(|last|)] + last, orig, written + EncodeLabels(init));
      next := Emit(buf, next, [0], orig, written + EncodeLabels(init) + ([LengthByte(|last|)] + last));
    } else {
      next := Emit(buf, next, [0], orig, written + EncodeLabels(init));
    }
  }

  /** The name the test builder writes, piece by piece. */
  lemma TestNameParts(qname: seq<Byte>, written: seq<Byte>)
    ensures var ps := Labels(qname); var init := EncodeLabels(ps[..|ps| - 1]); var last := Last(ps);
      if |last| > 0 then
        written + init + ([LengthByte(|last|)] + last) + [0] == written + TestName(qname) &&
        |TestName(qname)| == |init| + 1 + |last| + 1
      else
        written + init + [0] == written + TestName(qname) && |TestName(qname)| == |init| + 1
  {
    var ps := Labels(qname);
    var last := Last(ps);
    assert EncodeLabels([last]) == [LengthByte(|last|)] + last + EncodeLabels([]);
  }

  /** The `nanswer` answer records. */
  method EmitTestAnswers(buf: array<Byte>, off: nat, ip: DWord, nanswer: Word, ghost orig: seq<Byte>, ghost written: seq<Byte>) returns (next: nat)
    requires |orig| == buf.Length && off == |written| && off + |RecordsBytes(TestAnswers(ip, nanswer))| <= buf.Length
    requires buf[..] == written + orig[off..]
    modifies buf
    ensures next == off + |RecordsBytes(TestAnswers(ip, nanswer))|
    ensures buf[..] == (written + RecordsBytes(TestAnswers(ip, nanswer))) + orig[next..]
  {
    AnswersLength(ip, nanswer);
    next := off;
    var i := 0;
    while i < nanswer
      invariant 0 <= i <= nanswer
      invariant next == off + 16 * i
      invariant buf[..] == (written + RecordsBytes(TestAnswers(ip, i))) + orig[next..]
    {
      AnswersStep(ip, i);
      AnswersLength(ip, i);
      ghost var w := written + RecordsBytes(TestAnswers(ip, i));
      next := Emit(buf, next, AnswerBytes(ip, i), orig, w);
      i := i + 1;
    }
  }

  /** The bytes of the test builder's answer number `i`: the pointer, type
      A, class IN, TTL 60, RDLENGTH 4 and the address. */
  function AnswerBytes(ip: DWord, i: nat): (r: seq<Byte>)
    ensures |r| == 16
  {
    [0xC0, 0x0C, 0x00, 0x01, 0x00, 0x01, 0x00, 0x00, 0x00, 0x3C, 0x00, 0x04] + Be32((ip + i) % U32)
  }

  /** One answer more. */
  lemma AnswersStep(ip: DWord, i: nat)
    ensures RecordsBytes(TestAnswers(ip, i + 1)) == RecordsBytes(TestAnswers(ip, i)) + AnswerBytes(ip, i)
  {
    AnswersAppend(ip, i);
    RecordsBytesAppend(TestAnswers(ip, i), TestAnswer(ip, i));
    AnswerRecordBytes(ip, i);
  }

  lemma AnswersAppend(ip: DWord, i: nat)
    ensures TestAnswers(ip, i + 1) == TestAnswers(ip, i) + [TestAnswer(ip, i)]
  {
    assert TestAnswers(ip, i + 1)[..i] == TestAnswers(ip, i);
  }

  lemma AnswerRecordBytes(ip: DWord, i: nat)
    ensures RecordBytes(TestAnswer(ip, i)) == AnswerBytes(ip, i)
  {
  }

  /** Each answer takes 16 bytes. */
  lemma {:induction false} AnswersLength(ip: DWord, n: nat)
    ensures |RecordsBytes(TestAnswers(ip, n))| == 16 * n
  {
    if n > 0 {
      AnswersStep(ip, n - 1);
      AnswersLength(ip, n - 1);
    }
  }

  lemma TestResponseLength(txid: Word, rcode: Byte, nanswer: Word, qname: seq<Byte>, ip: DWord)
    ensures |TestResponse(txid, rcode, nanswer, qname, ip)| ==
      12 + |TestName(qname)| + 4 + |RecordsBytes(TestAnswers(ip, nanswer))|
  {
  }

  // ---------------------------------------------------------------------
  // dns_resolv_parse_response
  // ---------------------------------------------------------------------

  /** The offset just past the name at `off`: labels up to the root label,
      or a two-byte compression pointer; None when the name runs past the
      end or starts a label with a reserved length (64 to 191). */
  function SkipName(p: seq<Byte>, off: nat): (r: Option<nat>)
    decreases |p| - off
    ensures r.Some? ==> off < r.value <= |p|
  {
    if off >= |p| then None
    else if p[off] == 0 then Some(off + 1)
    else if p[off] >= 0xC0 then (if off + 2 <= |p| then Some(off + 2) else None)
    else if p[off] > MaxLabelLength then None
    else SkipName(p, off + 1 + p[off])
  }

  /** Past `count` questions: a name, QTYPE and QCLASS each. */
  function SkipQuestions(p: seq<Byte>, off: nat, count: nat): (r: Option<nat>)
    decreases count
  {
    if count == 0 then Some(off)
    else match SkipName(p, off)
      case None => None
      case Some(e) => if e + 4 > |p| then None else SkipQuestions(p, e + 4, count - 1)
  }

  /** The data of the first A record of class IN with four bytes of data
      among the `count` records at `off`, passing other records by their
      RDLENGTH; None when a record is cut short or none is found. */
  function FindA(p: seq<Byte>, off: nat, count: nat): (r: Option<seq<Byte>>)
    decreases count
    ensures r.Some? ==> |r.value| == 4
  {
    if count == 0 then None
    else match SkipName(p, off)
      case None => None
      case Some(e) =>
        if e + 10 > |p| then None
        else
          var rdlen := Word16(p, e + 8);
          if e + 10 + rdlen > |p| then None
          else if Word16(p, e) == TypeA && Word16(p, e + 2) == ClassIn && rdlen == 4 then Some(p[e + 10..e + 14])
          else FindA(p, e + 10 + rdlen, count - 1)
  }

  /** The address a response answers with: None for fewer than 12 bytes,
      QR clear, a nonzero RCODE, no answers, or no usable A record. */
  function Parse(p: seq<Byte>): (r: Option<seq<Byte>>)
    ensures r.Some? ==> |r.value| == 4
    ensures r.Some? ==> |p| >= 12 && p[2] >= 0x80 && p[3] % 16 == 0 && Word16(p, 6) > 0
  {
    if |p| < 12 || p[2] < 0x80 || p[3] % 16 != 0 || Word16(p, 6) == 0 then None
    else match SkipQuestions(p, 12, Word16(p, 4))
      case None => None
      case Some(e) => FindA(p, e, Word16(p, 6))
  }

  method SkipNameAt(p: seq<Byte>, start: nat) returns (r: Option<nat>)
    ensures r == SkipName(p, start)
  {
    var off: nat := start;
    while off < |p| && p[off] != 0 && p[off] < 0xC0 && p[off] <= MaxLabelLength
      invariant SkipName(p, off) == SkipName(p, start)
      decreases |p| - off
    {
      off := off + 1 + p[off];
    }
    if off >= |p| {
      return None;
    } else if p[off] == 0 {
      return Some(off + 1);
    } else if p[off] >= 0xC0 {
      return if off + 2 <= |p| then Some(off + 2) else None;
    }
    return None;
  }

  /** dns_resolv_parse_response: returns 0 and stores the first A address
      in `addr` (in network byte order), or -1 for a null argument or a
      response Parse rejects, leaving `addr` alone. */
  method ParseResponse(pkt: array?<Byte>, len: nat, addr: array?<Byte>) returns (ret: int)
    requires pkt != null ==> len <= pkt.Length
    requires addr != null ==> addr.Length == 4
    requires pkt == null || addr == null || pkt != addr
    modifies addr
    ensures ret == 0 || ret == -1
    ensures pkt == null || addr == null ==> ret == -1
    ensures pkt != null && addr != null ==> (ret == 0 <==> Parse(pkt[..len]).Some?)
    ensures ret == 0 ==> pkt != null && addr != null && addr[..] == Parse(pkt[..len]).value
    ensures ret != 0 && addr != null ==> addr[..] == old(addr[..])
  {
    if pkt == null || addr == null {
      return -1;
    }
    var p := pkt[..len];
    if |p| < 12 || p[2] < 0x80 || p[3] % 16 != 0 || Word16(p, 6) == 0 {
      return -1;
    }
    var e := SkipQuestionsAt(p, 12, Word16(p, 4));
    if e.None? {
      return -1;
    }
    var a := FindAAt(p, e.value, Word16(p, 6));
    if a.None? {
      return -1;
    }
    var ip := a.value;
    addr[0], addr[1], addr[2], addr[3] := ip[0], ip[1], ip[2], ip[3];
    assert addr[..] == ip;
    return 0;
  }

  /** The question loop: past `count` questions, as SkipQuestions. */
  method SkipQuestionsAt(p: seq<Byte>, start: nat, count: nat) returns (r: Option<nat>)
    ensures r == SkipQuestions(p, start, count)
  {
    var qd: nat := count;
    var off: nat := start;
    while qd > 0
      invariant SkipQuestions(p, off, qd) == SkipQuestions(p, start, count)
    {
      var e := SkipNameAt(p, off);
      if e.None? || e.value + 4 > |p| {
        return None;
      }
      off := e.value + 4;
      qd := qd - 1;
    }
    return Some(off);
  }

  /** The answer loop: the first usable A record, as FindA. */
  method FindAAt(p: seq<Byte>, start: nat, count: nat) returns (r: Option<seq<Byte>>)
    ensures r == FindA(p, start, count)
  {
    var an: nat := count;
    var off: nat := start;
    while an > 0
      invariant FindA(p, off, an) == FindA(p, start, count)
    {
      var e := SkipNameAt(p, off);
      if e.None? || e.value + 10 > |p| {
        return None;
      }
      var at := e.value;
      var rdlen := Word16(p, at + 8);
      if at + 10 + rdlen > |p| {
        return None;
      }
      if Word16(p, at) == TypeA && Word16(p, at + 2) == ClassIn && rdlen == 4 {
        return Some(p[at + 10..at + 14]);
      }
      off := at + 10 + rdlen;
      an := an - 1;
    }
    return None;
  }

  // ---------------------------------------------------------------------
  // Round trips
  // ---------------------------------------------------------------------

  /** A dotted name the test builder encodes as RFC 1035 labels: every
      label before the last is 1 to 63 bytes, the last at most 63. */
  predicate TestNameOk(qname: seq<Byte>)
  {
    var ps := Labels(qname);
    LabelsOk(ps[..|ps| - 1]) && |Last(ps)| <= MaxLabelLength
  }

  /** The labels the test builder writes. */
  function TestLabels(qname: seq<Byte>): seq<seq<Byte>>
  {
    var ps := Labels(qname);
    if |Last(ps)| > 0 then ps else ps[..|ps| - 1]
  }

  lemma TestNameLabels(qname: seq<Byte>)
    requires TestNameOk(qname)
    ensures LabelsOk(TestLabels(qname)) && TestName(qname) == EncodeLabels(TestLabels(qname)) + [0]
  {
    var ps := Labels(qname);
    if |Last(ps)| > 0 {
      assert ps == ps[..|ps| - 1] + [Last(ps)];
      EncodeLabelsConcat(ps[..|ps| - 1], [Last(ps)]);
    } else {
      assert EncodeLabels(ps[..|ps| - 1]) + [] == EncodeLabels(ps[..|ps| - 1]);
    }
  }

  /** Skipping an encoded name lands just past its root label. */
  lemma {:induction false} SkipEncodedName(p: seq<Byte>, off: nat, ls: seq<seq<Byte>>)
    requires LabelsOk(ls)
    requires off + |EncodeLabels(ls)| + 1 <= |p| && p[off..off + |EncodeLabels(ls)| + 1] == EncodeLabels(ls) + [0]
    ensures SkipName(p, off) == Some(off + |EncodeLabels(ls)| + 1)
    decreases ls
  {
    if |ls| > 0 {
      var l := ls[0];
      var rest := EncodeLabels(ls[1..]);
      assert EncodeLabels(ls) + [0] == [|l|] + l + (rest + [0]);
      SkipLabel(p, off, l, rest + [0]);
      assert LabelsOk(ls[1..]);
      SkipEncodedName(p, off + 1 + |l|, ls[1..]);
    } else {
      assert p[off] == (EncodeLabels(ls) + [0])[0];
    }
  }

  /** A label is passed over by its length byte. */
  lemma SkipLabel(p: seq<Byte>, off: nat, l: seq<Byte>, rest: seq<Byte>)
    requires 1 <= |l| <= MaxLabelLength
    requires off + 1 + |l| + |rest| <= |p| && p[off..off + |[|l|] + l + rest|] == [|l|] + l + rest
    ensures SkipName(p, off) == SkipName(p, off + 1 + |l|)
    ensures p[off + 1 + |l|..off + 1 + |l| + |rest|] == rest
  {
    assert p[off] == ([|l|] + l + rest)[0];
    assert p[off + 1 + |l|..off + 1 + |l| + |rest|] == ([|l|] + l + rest)[1 + |l|..];
  }

  /** Reading `rs` where the records were written finds their first A record. */
  lemma {:induction false} FindARecords(p: seq<Byte>, off: nat, rs: seq<Record>)
    requires RecordsFit(rs)
    requires off + |RecordsBytes(rs)| <= |p| && p[off..off + |RecordsBytes(rs)|] == RecordsBytes(rs)
    ensures FindA(p, off, |rs|) == FirstA(rs)
    decreases rs
  {
    if |rs| > 0 {
      var next := FindAHead(p, off, rs);
      FindARecords(p, next, rs[1..]);
    }
  }

  /** The first record read; the rest follow it. */
  lemma FindAHead(p: seq<Byte>, off: nat, rs: seq<Record>) returns (next: nat)
    requires |rs| > 0 && RecordsFit(rs)
    requires off + |RecordsBytes(rs)| <= |p| && p[off..off + |RecordsBytes(rs)|] == RecordsBytes(rs)
    ensures RecordsFit(rs[1..])
    ensures next + |RecordsBytes(rs[1..])| <= |p| && p[next..next + |RecordsBytes(rs[1..])|] == RecordsBytes(rs[1..])
    ensures FindA(p, off, |rs|) ==
      if rs[0].rtype == TypeA && rs[0].rclass == ClassIn && |rs[0].rdata| == 4 then Some(rs[0].rdata)
      else FindA(p, next, |rs| - 1)
  {
    var b := RecordBytes(rs[0]);
    var rest := RecordsBytes(rs[1..]);
    assert RecordsBytes(rs) == b + rest;
    SliceSplit(p, off, b, rest);
    next := FindAStep(p, off, rs[0], |rs|);
  }

  /** Where the two parts of a slice lie. */
  lemma SliceSplit(p: seq<Byte>, off: nat, a: seq<Byte>, b: seq<Byte>)
    requires off + |a| + |b| <= |p| && p[off..off + |a + b|] == a + b
    ensures p[off..off + |a|] == a && p[off + |a|..off + |a| + |b|] == b
  {
    assert p[off..off + |a|] == p[off..off + |a + b|][..|a|];
    assert p[off + |a|..off + |a| + |b|] == p[off..off + |a + b|][|a|..];
  }

  /** One record read: its data when it is the A record sought, else the
      search goes on after it. */
  lemma FindAStep(p: seq<Byte>, off: nat, r: Record, count: nat) returns (next: nat)
    requires count > 0 && |r.rdata| < 0x1_0000
    requires off + |RecordBytes(r)| <= |p| && p[off..off + |RecordBytes(r)|] == RecordBytes(r)
    ensures next == off + |RecordBytes(r)|
    ensures FindA(p, off, count) ==
      if r.rtype == TypeA && r.rclass == ClassIn && |r.rdata| == 4 then Some(r.rdata)
      else FindA(p, next, count - 1)
  {
    RecordRead(p, off, r);
    next := off + |RecordBytes(r)|;
  }

  /** The fields FindA reads from a record written at `off`. */
  lemma RecordRead(p: seq<Byte>, off: nat, r: Record)
    requires |r.rdata| < 0x1_0000
    requires off + |RecordBytes(r)| <= |p| && p[off..off + |RecordBytes(r)|] == RecordBytes(r)
    ensures SkipName(p, off) == Some(off + 2)
    ensures Word16(p, off + 2) == r.rtype && Word16(p, off + 4) == r.rclass && Word16(p, off + 10) == |r.rdata|
    ensures |RecordBytes(r)| == 12 + |r.rdata| && p[off + 12..off + 12 + |r.rdata|] == r.rdata
  {
    var b := RecordBytes(r);
    var t := Be16(r.rtype);
    var c := Be16(r.rclass);
    var l := Be16(|r.rdata|);
    assert b == [0xC0, 0x0C] + t + c + Be32(r.ttl) + l + r.rdata;
    assert p[off] == b[0] == 0xC0;
    assert p[off + 2] == t[0] && p[off + 3] == t[1];
    assert p[off + 4] == c[0] && p[off + 5] == c[1];
    assert p[off + 10] == l[0] && p[off + 11] == l[1];
    assert p[off + 12..off + 12 + |r.rdata|] == b[12..];
  }

  /** The header fields Parse reads. */
  lemma HeaderRead(p: seq<Byte>, txid: Word, rcode: Byte, ancount: Word)
    requires 12 <= |p| && p[..12] == ResponseHeader(txid, rcode, ancount)
    ensures p[2] == 0x81 && p[3] == WithRa(rcode) && Word16(p, 4) == 1 && Word16(p, 6) == ancount
  {
    var h := ResponseHeader(txid, rcode, ancount);
    var an := Be16(ancount);
    assert h == Be16(txid) + [0x81, WithRa(rcode), 0x00, 0x01] + an + [0x00, 0x00, 0x00, 0x00];
    assert p[2] == h[2] && p[3] == h[3] && p[4] == h[4] && p[5] == h[5];
    assert p[6] == an[0] && p[7] == an[1];
  }

  /** A response of the shape the test builder writes is decoded to its
      first A record, unless RCODE is nonzero or there are no answers. */
  lemma ResponseParse(txid: Word, rcode: Byte, qname: seq<Byte>, rs: seq<Record>)
    requires |rs| < 0x1_0000 && RecordsFit(rs) && TestNameOk(qname)
    ensures Parse(Response(txid, rcode, qname, rs)) ==
      if rcode % 16 != 0 || |rs| == 0 then None else FirstA(rs)
  {
    ResponseLaidOut(txid, rcode, qname, rs);
    ParseLaidOut(Response(txid, rcode, qname, rs), txid, rcode, qname, rs);
  }

  /** Where the three parts of a concatenation lie. */
  lemma Pieces(a: seq<Byte>, b: seq<Byte>, c: seq<Byte>)
    ensures var p := a + b + c;
      p[..|a|] == a && p[|a|..|a| + |b|] == b && p[|a| + |b|..] == c
  {
  }

  lemma ParseLaidOut(p: seq<Byte>, txid: Word, rcode: Byte, qname: seq<Byte>, rs: seq<Record>)
    requires |rs| < 0x1_0000 && RecordsFit(rs) && TestNameOk(qname)
    requires var q := 12 + |TestName(qname)| + 4;
      |p| == q + |RecordsBytes(rs)| &&
      p[..12] == ResponseHeader(txid, rcode, |rs|) &&
      p[12..q] == TestQuestion(qname) &&
      p[q..] == RecordsBytes(rs)
    ensures Parse(p) == if rcode % 16 != 0 || |rs| == 0 then None else FirstA(rs)
  {
    HeaderRead(p, txid, rcode, |rs|);
    var q := 12 + |TestName(qname)| + 4;
    QuestionRead(p, qname);
    assert p[q..q + |RecordsBytes(rs)|] == RecordsBytes(rs);
    ParseFields(p, rcode, q, rs);
  }

  /** Parse, given the header fields, where the question ends and the
      records after it. */
  lemma ParseFields(p: seq<Byte>, rcode: Byte, q: nat, rs: seq<Record>)
    requires RecordsFit(rs)
    requires |p| >= 12 && p[2] == 0x81 && p[3] == WithRa(rcode) && Word16(p, 4) == 1 && Word16(p, 6) == |rs|
    requires SkipQuestions(p, 12, 1) == Some(q)
    requires q + |RecordsBytes(rs)| <= |p| && p[q..q + |RecordsBytes(rs)|] == RecordsBytes(rs)
    ensures Parse(p) == if rcode % 16 != 0 || |rs| == 0 then None else FirstA(rs)
  {
    if rcode % 16 == 0 && |rs| > 0 {
      FindARecords(p, q, rs);
    }
  }

  /** The question at offset 12 is passed over as a whole. */
  lemma QuestionRead(p: seq<Byte>, qname: seq<Byte>)
    requires TestNameOk(qname)
    requires 12 + |TestName(qname)| + 4 <= |p| && p[12..12 + |TestName(qname)| + 4] == TestQuestion(qname)
    ensures SkipQuestions(p, 12, 1) == Some(12 + |TestName(qname)| + 4)
  {
    TestNameLabels(qname);
    EncodedQuestion(p, TestName(qname), TestLabels(qname));
  }

  /** A question whose name is written as labels is passed over whole. */
  lemma EncodedQuestion(p: seq<Byte>, name: seq<Byte>, ls: seq<seq<Byte>>)
    requires LabelsOk(ls) && name == EncodeLabels(ls) + [0]
    requires 12 + |name| + 4 <= |p| && p[12..12 + |name| + 4] == name + TypeAClassIn
    ensures SkipQuestions(p, 12, 1) == Some(12 + |name| + 4)
  {
    SliceSplit(p, 12, name, TypeAClassIn);
    SkipEncodedName(p, 12, ls);
  }

  /** The test builder's responses decode to the first address, answer_ip,
      when RCODE is 0 and there is an answer, and to nothing otherwise. */
  lemma TestResponseRoundTrip(txid: Word, rcode: Byte, nanswer: Word, qname: seq<Byte>, ip: DWord)
    requires TestNameOk(qname)
    ensures Parse(TestResponse(txid, rcode, nanswer, qname, ip)) ==
      if rcode % 16 != 0 || nanswer == 0 then None else Some(Be32(ip))
  {
    var rs := TestAnswers(ip, nanswer);
    assert forall k :: 0 <= k < |rs| ==> |rs[k].rdata| == 4;
    ResponseParse(txid, rcode, qname, rs);
    if nanswer > 0 {
      FirstTestAnswer(ip, nanswer);
    }
  }

  lemma FirstTestAnswer(ip: DWord, n: nat)
    requires n > 0
    ensures FirstA(TestAnswers(ip, n)) == Some(Be32(ip))
  {
    var rs := TestAnswers(ip, n);
    assert (ip + 0) % U32 == ip;
    assert rs[0] == Record(TypeA, ClassIn, 60, Be32(ip));
  }

  /** A CNAME answer ahead of the A answer is passed over by its RDLENGTH,
      whatever alias it holds, and the A record's address is returned. */
  lemma CnameThenA(txid: Word, qname: seq<Byte>, alias: seq<Byte>, ip: seq<Byte>)
    requires TestNameOk(qname) && |alias| < 0x1_0000 && |ip| == 4
    ensures Parse(Response(txid, 0, qname, [Record(TypeCname, ClassIn, 60, alias), Record(TypeA, ClassIn, 60, ip)])) == Some(ip)
  {
    var rs := [Record(TypeCname, ClassIn, 60, alias), Record(TypeA, ClassIn, 60, ip)];
    assert rs[1..] == [Record(TypeA, ClassIn, 60, ip)];
    ResponseParse(txid, 0, qname, rs);
  }

  /** A response whose QR bit is cleared is rejected, and so is the
      one-answer response cut anywhere inside its answer. */
  lemma RejectedResponses(txid: Word, qname: seq<Byte>, ip: DWord, cut: nat)
    requires TestNameOk(qname) && 1 <= cut <= 16
    ensures var p := TestResponse(txid, 0, 1, qname, ip); Parse(p[2 := p[2] - 0x80]) == None
    ensures var p := TestResponse(txid, 0, 1, qname, ip); Parse(p[..|p| - cut]) == None
  {
    QrClearedResponse(txid, qname, ip);
    TruncatedResponse(txid, qname, ip, cut);
  }

  lemma QrClearedResponse(txid: Word, qname: seq<Byte>, ip: DWord)
    ensures var p := TestResponse(txid, 0, 1, qname, ip); Parse(p[2 := p[2] - 0x80]) == None
  {
    ResponseLaidOut(txid, 0, qname, TestAnswers(ip, 1));
    QrCleared(TestResponse(txid, 0, 1, qname, ip), txid);
  }

  lemma TruncatedResponse(txid: Word, qname: seq<Byte>, ip: DWord, cut: nat)
    requires TestNameOk(qname) && 1 <= cut <= 16
    ensures var p := TestResponse(txid, 0, 1, qname, ip); Parse(p[..|p| - cut]) == None
  {
    var p := TestResponse(txid, 0, 1, qname, ip);
    OneAnswer(ip);
    TruncatedPacket(p, txid, qname, AnswerBytes(ip, 0), cut);
    assert Parse(p[..|p| - cut]) == None;
  }

  lemma TruncatedPacket(p: seq<Byte>, txid: Word, qname: seq<Byte>, b: seq<Byte>, cut: nat)
    requires TestNameOk(qname) && 1 <= cut <= 16
    requires |b| == 16 && b[..2] == [0xC0, 0x0C] && b[10..12] == [0, 4]
    requires p == ResponseHeader(txid, 0, 1) + TestQuestion(qname) + b
    ensures Parse(p[..|p| - cut]) == None
  {
    Pieces(ResponseHeader(txid, 0, 1), TestQuestion(qname), b);
    var q := 12 + |TestName(qname)| + 4;
    var t := p[..|p| - cut];
    assert t[..12] == p[..12] && t[12..q] == p[12..q] && t[q..] == p[q..][..16 - cut];
    TruncatedLaidOut(t, txid, qname, b, cut);
  }

  lemma OneAnswer(ip: DWord)
    ensures RecordsBytes(TestAnswers(ip, 1)) == AnswerBytes(ip, 0)
    ensures AnswerBytes(ip, 0)[..2] == [0xC0, 0x0C] && AnswerBytes(ip, 0)[10..12] == [0, 4]
  {
    AnswersStep(ip, 0);
    assert RecordsBytes(TestAnswers(ip, 0)) == [];
  }

  /** Where the header, the question and the answers of a response lie. */
  lemma ResponseLaidOut(txid: Word, rcode: Byte, qname: seq<Byte>, rs: seq<Record>)
    requires |rs| < 0x1_0000
    ensures var p := Response(txid, rcode, qname, rs); var q := 12 + |TestName(qname)| + 4;
      |p| == q + |RecordsBytes(rs)| &&
      p[..12] == ResponseHeader(txid, rcode, |rs|) &&
      p[12..q] == TestQuestion(qname) &&
      p[q..] == RecordsBytes(rs)
  {
    Pieces(ResponseHeader(txid, rcode, |rs|), TestQuestion(qname), RecordsBytes(rs));
  }

  lemma QrCleared(p: seq<Byte>, txid: Word)
    requires 12 <= |p| && p[..12] == ResponseHeader(txid, 0, 1)
    ensures Parse(p[2 := p[2] - 0x80]) == None
  {
    HeaderRead(p, txid, 0, 1);
  }

  lemma TruncatedLaidOut(t: seq<Byte>, txid: Word, qname: seq<Byte>, b: seq<Byte>, cut: nat)
    requires TestNameOk(qname) && 1 <= cut <= 16 && |b| == 16
    requires b[..2] == [0xC0, 0x0C] && b[10..12] == [0, 4]
    requires var q := 12 + |TestName(qname)| + 4;
      |t| == q + 16 - cut &&
      t[..12] == ResponseHeader(txid, 0, 1) &&
      t[12..q] == TestQuestion(qname) &&
      t[q..] == b[..16 - cut]
    ensures Parse(t) == None
  {
    HeaderRead(t, txid, 0, 1);
    QuestionRead(t, qname);
    TruncatedAnswer(t, 12 + |TestName(qname)| + 4, b, cut);
  }

  /** An answer record cut short by `cut` bytes cannot be read. */
  lemma TruncatedAnswer(t: seq<Byte>, q: nat, b: seq<Byte>, cut: nat)
    requires 1 <= cut <= 16 && |b| == 16 && |t| == q + 16 - cut && t[q..] == b[..16 - cut]
    requires b[..2] == [0xC0, 0x0C] && b[10..12] == [0, 4]
    ensures FindA(t, q, 1) == None
  {
    if cut < 15 {
      assert t[q] == b[0];
      assert SkipName(t, q) == Some(q + 2);
      if cut <= 4 {
        assert t[q + 10] == b[10] && t[q + 11] == b[11];
      }
    }
  }

  // ---------------------------------------------------------------------
  // dns_resolv_get_nameservers_from
  // ---------------------------------------------------------------------

  /** The line without its leading blanks. */
  function TrimLeft(s: string): string
  {
    if |s| > 0 && IsSpace(s[0]) then TrimLeft(s[1..]) else s
  }

  /** The leading run of non-blank characters (sscanf's %s). */
  function Token(s: string): string
  {
    if |s| == 0 || IsSpace(s[0]) then "" else [s[0]] + Token(s[1..])
  }

  /** Trimming drops exactly the leading blanks: what remains is a suffix
      that does not start with a blank, and all before it is blank. */
  lemma {:induction false} TrimLeftDropsBlanks(s: string)
    ensures var r := TrimLeft(s);
      |r| <= |s| && r == s[|s| - |r|..] &&
      (forall i :: 0 <= i < |s| - |r| ==> IsSpace(s[i])) &&
      (|r| > 0 ==> !IsSpace(r[0]))
  {
    if |s| > 0 && IsSpace(s[0]) {
      TrimLeftDropsBlanks(s[1..]);
      var r := TrimLeft(s);
      assert s[1..][|s| - 1 - |r|..] == s[|s| - |r|..];
    }
  }

  /** The token is the longest blank-free prefix. */
  lemma {:induction false} TokenIsLongestWord(s: string)
    ensures var r := Token(s);
      IsPrefix(r, s) && (forall i :: 0 <= i < |r| ==> !IsSpace(r[i])) &&
      (|r| < |s| ==> IsSpace(s[|r|]))
  {
    if |s| > 0 && !IsSpace(s[0]) {
      TokenIsLongestWord(s[1..]);
      var r := Token(s);
      assert r == [s[0]] + Token(s[1..]);
      assert forall i :: 1 <= i < |r| ==> r[i] == Token(s[1..])[i - 1];
    }
  }

  /** The address a resolv.conf line names: blank lines and `#`/`;`
      comments name none; otherwise, after leading blanks, the keyword
      `nameserver` and the word after it. */
  function NameserverOf(line: string): Option<string>
  {
    var t := TrimLeft(line);
    if |t| == 0 || t[0] == '#' || t[0] == ';' then None
    else if !IsPrefix("nameserver", t) then None
    else
      var tok := Token(TrimLeft(t[10..]));
      if |tok| == 0 then None else Some(tok)
  }

  /** Every address the lines name, in line order. */
  function AllNameservers(lines: seq<string>): seq<string>
  {
    if |lines| == 0 then []
    else
      var front := AllNameservers(lines[..|lines| - 1]);
      match NameserverOf(Last(lines))
      case None => front
      case Some(a) => front + [a]
  }

  /** What the reader collects: nothing without a file, else the first
      `max` addresses. */
  function Nameservers(lines: Option<seq<string>>, max: nat): seq<string>
  {
    if lines.None? then []
    else
      var all := AllNameservers(lines.value);
      if |all| <= max then all else all[..max]
  }

  lemma {:induction false} AllNameserversPrefix(lines: seq<string>, i: nat)
    requires i <= |lines|
    ensures IsPrefix(AllNameservers(lines[..i]), AllNameservers(lines))
  {
    if i < |lines| {
      var front := lines[..|lines| - 1];
      assert front[..i] == lines[..i];
      AllNameserversPrefix(front, i);
    } else {
      assert lines[..i] == lines;
    }
  }

  /** dns_resolv_get_nameservers_from over the file's lines (None for a
      null path or a file that cannot be opened): collects addresses in
      order and stops at `max`. */
  method GetNameserversFrom(lines: Option<seq<string>>, max: nat) returns (servers: seq<string>)
    ensures servers == Nameservers(lines, max)
  {
    servers := [];
    if lines.None? {
      return;
    }
    var ls := lines.value;
    var i := 0;
    while i < |ls| && |servers| < max
      invariant 0 <= i <= |ls|
      invariant servers == AllNameservers(ls[..i]) && |servers| <= max
    {
      assert ls[..i + 1][..i] == ls[..i];
      var a := NameserverOf(ls[i]);
      if a.Some? {
        servers := servers + [a.value];
      }
      i := i + 1;
    }
    AllNameserversPrefix(ls, i);
    if i == |ls| {
      assert ls[..i] == ls;
    }
  }

  /** Never more than `max` addresses, each one named by a line; without
      a file, none. */
  lemma {:induction false} NameserversBound(lines: seq<string>, max: nat, k: nat)
    requires k < |Nameservers(Some(lines), max)|
    ensures |Nameservers(Some(lines), max)| <= max && Nameservers(None, max) == []
    ensures exists i :: 0 <= i < |lines| && NameserverOf(lines[i]) == Some(Nameservers(Some(lines), max)[k])
  {
    NamedBySomeLine(lines, k);
  }

  lemma {:induction false} NamedBySomeLine(lines: seq<string>, k: nat)
    requires k < |AllNameservers(lines)|
    ensures exists i :: 0 <= i < |lines| && NameserverOf(lines[i]) == Some(AllNameservers(lines)[k])
  {
    var front := lines[..|lines| - 1];
    var all := AllNameservers(lines);
    if k < |AllNameservers(front)| {
      NamedBySomeLine(front, k);
      var i :| 0 <= i < |front| && NameserverOf(front[i]) == Some(AllNameservers(front)[k]);
      assert lines[i] == front[i];
    } else {
      assert NameserverOf(lines[|lines| - 1]) == Some(all[k]);
    }
  }

  lemma {:induction false} TrimBlanks(ws: string, rest: string)
    requires forall i :: 0 <= i < |ws| ==> IsSpace(ws[i])
    requires |rest| == 0 || !IsSpace(rest[0])
    ensures TrimLeft(ws + rest) == rest
  {
    if |ws| > 0 {
      assert (ws + rest)[1..] == ws[1..] + rest;
      TrimBlanks(ws[1..], rest);
    } else {
      assert ws + rest == rest;
    }
  }

  /** `nameserver` and a word, after any blanks and before the end of line
      or a blank, names that word. */
  lemma NameserverLine(ws: string, addr: string, tail: string)
    requires forall i :: 0 <= i < |ws| ==> IsSpace(ws[i])
    requires |addr| > 0 && forall i :: 0 <= i < |addr| ==> !IsSpace(addr[i])
    requires |tail| == 0 || IsSpace(tail[0])
    ensures NameserverOf(ws + "nameserver " + addr + tail) == Some(addr)
  {
    var u := addr + tail;
    var t := "nameserver " + u;
    var line := ws + "nameserver " + addr + tail;
    assert TrimLeft(line) == t by {
      assert line == ws + t;
      TrimBlanks(ws, t);
    }
    assert IsPrefix("nameserver", t) && t[10..] == [' '] + u && t[0] == 'n' by {
      KeywordSplit(u);
    }
    assert TrimLeft(t[10..]) == u by {
      KeywordSplit(u);
      TrimBlanks([' '], u);
    }
    assert Token(u) == addr by {
      TokenOfWord(addr, tail);
    }
  }

  lemma KeywordSplit(u: string)
    ensures var t := "nameserver " + u; IsPrefix("nameserver", t) && t[10..] == [' '] + u
  {
  }

  /** A line of blanks, a comment, or a line with another keyword names
      nothing. */
  lemma SkippedLines(ws: string, other: string)
    requires forall i :: 0 <= i < |ws| ==> IsSpace(ws[i])
    ensures NameserverOf(ws) == None
    ensures NameserverOf(ws + "#" + other) == None && NameserverOf(ws + ";" + other) == None
    ensures !IsPrefix("nameserver", other) && (|other| == 0 || !IsSpace(other[0])) ==> NameserverOf(ws + other) == None
  {
    TrimBlanks(ws, "");
    assert ws + "" == ws;
    TrimBlanks(ws, "#" + other);
    assert ws + "#" + other == ws + ("#" + other);
    TrimBlanks(ws, ";" + other);
    assert ws + ";" + other == ws + (";" + other);
    if |other| == 0 || !IsSpace(other[0]) {
      TrimBlanks(ws, other);
    }
  }

  lemma {:induction false} TokenOfWord(w: string, tail: string)
    requires forall i :: 0 <= i < |w| ==> !IsSpace(w[i])
    requires |tail| == 0 || IsSpace(tail[0])
    ensures Token(w + tail) == w
  {
    if |w| > 0 {
      assert (w + tail)[1..] == w[1..] + tail;
      TokenOfWord(w[1..], tail);
    } else {
      assert w + tail == tail;
    }
  }
}
