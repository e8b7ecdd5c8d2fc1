/** The connection wizard's host and port validators. A host is either a
    dotted IPv4 address (when it holds only digits and dots) or a hostname
    after sections 2.3.1 and 2.3.4 of RFC 1035, with underscores admitted. */
module WizardValidation {
  import opened Common

  const MaxHostLength := 253
  const MaxLabelLength := 63
  const MaxPort := 65535
  /** The largest value std::stoi returns without throwing out_of_range. */
  const IntMax := 0x7fff_ffff

  // ---------------------------------------------------------------------
  // Specification
  // ---------------------------------------------------------------------

  predicate DigitOrDot(c: char) { IsDigit(c) || c == '.' }

  predicate LooksLikeIp(host: string) { forall i :: 0 <= i < |host| ==> DigitOrDot(host[i]) }

  /** One IPv4 part: one to three digits with a value of at most 255. */
  predicate IpSegment(seg: string)
  {
    1 <= |seg| <= 3 && AllDigits(seg) && DecimalValue(seg) <= 255
  }

  predicate DottedQuad(host: string)
  {
    var segs := Split(host, '.');
    |segs| == 4 && forall k :: 0 <= k < |segs| ==> IpSegment(segs[k])
  }

  predicate HostChar(c: char) { IsAlnum(c) || c == '-' || c == '_' }

  /** One hostname label: 1..63 host characters, no hyphen at either end. */
  predicate LabelOk(l: string)
  {
    1 <= |l| <= MaxLabelLength && l[0] != '-' && l[|l| - 1] != '-' &&
    forall j :: 0 <= j < |l| ==> HostChar(l[j])
  }

  predicate HostnameOk(host: string)
  {
    |host| > 0 && IsAlnum(host[0]) && host[|host| - 1] != '-' && host[|host| - 1] != '.' &&
    forall k :: 0 <= k < |Split(host, '.')| ==> LabelOk(Split(host, '.')[k])
  }

  /** is_valid_ip_or_hostname: a digits-and-dots string is judged as an
      IPv4 address only, never as a hostname. */
  predicate ValidHost(host: string)
  {
    0 < |host| <= MaxHostLength &&
    if LooksLikeIp(host) then DottedQuad(host) else HostnameOk(host)
  }

  /** is_valid_port: cast in terms of the characters and the value read. */
  predicate ValidPort(s: string)
  {
    |s| > 0 && AllDigits(s) && !(|s| > 1 && s[0] == '0') && 1 <= DecimalValue(s) <= MaxPort
  }

  // ---------------------------------------------------------------------
  // Implementation
  // ---------------------------------------------------------------------

  /** The first loop: does every character look like part of an address? */
  method ScanLooksLikeIp(host: string) returns (looksLikeIp: bool)
    ensures looksLikeIp == LooksLikeIp(host)
  {
    var i := 0;
    while i < |host|
      invariant 0 <= i <= |host|
      invariant forall j :: 0 <= j < i ==> DigitOrDot(host[j])
    {
      if !IsDigit(host[i]) && host[i] != '.' {
        return false;
      }
      i := i + 1;
    }
    return true;
  }

  /** The address branch. Every `valid_ip = false; break;` of the loop ends
      in `return false`, so it is written as that return. */
  method CheckIpv4(host: string) returns (ok: bool)
    requires LooksLikeIp(host)
    ensures ok == DottedQuad(host)
  {
    var segmentsOk, dotCount, lastDot := ScanIpSegments(host);
    if !segmentsOk {
      return false;
    }
    IpScanDone(host, dotCount, lastDot);
    if dotCount == 3 {
      var lastSegment := host[lastDot..];
      if |lastSegment| != 0 && |lastSegment| <= 3 {
        SegmentDigits(host, lastDot, |host|);
        var num := DecimalValue(lastSegment);
        if num <= 255 {
          return true;
        }
      }
    }
    return false;
  }

  /** What the address loop knows after reading host[..i]: dotCount dots,
      the current piece starts at lastDot, and every closed piece is an
      address part. */
  predicate IpScan(host: string, dotCount: int, lastDot: int, i: int)
  {
    0 <= lastDot <= i <= |host| &&
    var p := Split(host[..i], '.');
    dotCount == |p| - 1 && Last(p) == host[lastDot..i] &&
    forall k :: 0 <= k < |p| - 1 ==> IpSegment(p[k])
  }

  lemma IpScanDot(host: string, dotCount: int, lastDot: int, i: int)
    requires LooksLikeIp(host) && IpScan(host, dotCount, lastDot, i) && i < |host| && host[i] == '.'
    requires 1 <= i - lastDot <= 3
    requires AllDigits(host[lastDot..i]) && DecimalValue(host[lastDot..i]) <= 255
    ensures IpScan(host, dotCount + 1, i + 1, i + 1)
  {
    ClosedPieceKeeps(host, i);
  }

  lemma IpScanOther(host: string, dotCount: int, lastDot: int, i: int)
    requires IpScan(host, dotCount, lastDot, i) && i < |host| && host[i] != '.'
    ensures IpScan(host, dotCount, lastDot, i + 1)
  {
    PieceExtended(host, i, '.');
    assert host[lastDot..i + 1] == host[lastDot..i] + [host[i]];
  }

  lemma IpScanDone(host: string, dotCount: int, lastDot: int)
    requires IpScan(host, dotCount, lastDot, |host|)
    ensures var r := Split(host, '.');
      0 <= lastDot <= |host| && dotCount == |r| - 1 && Last(r) == host[lastDot..] &&
      forall k :: 0 <= k < |r| - 1 ==> IpSegment(r[k])
  {
    assert host[..|host|] == host;
  }

  /** The loop over the dots of an address-looking string: every piece
      before the last must be an address part. */
  method ScanIpSegments(host: string) returns (segmentsOk: bool, dotCount: int, lastDot: int)
    requires LooksLikeIp(host)
    ensures !segmentsOk ==> !DottedQuad(host)
    ensures segmentsOk ==> IpScan(host, dotCount, lastDot, |host|)
  {
    dotCount := 0;
    lastDot := 0;
    var i := 0;
    assert host[..0] == [];
    while i < |host|
      invariant IpScan(host, dotCount, lastDot, i)
    {
      if host[i] == '.' {
        var closed := CloseIpSegment(host, dotCount, lastDot, i);
        if !closed {
          return false, dotCount, lastDot;
        }
        dotCount := dotCount + 1;
        lastDot := i + 1;
      } else {
        IpScanOther(host, dotCount, lastDot, i);
      }
      i := i + 1;
    }
    return true, dotCount, lastDot;
  }

  /** The checks made at a dot on the piece it closes. */
  method CloseIpSegment(host: string, dotCount: int, lastDot: int, i: int) returns (closed: bool)
    requires LooksLikeIp(host) && IpScan(host, dotCount, lastDot, i) && i < |host| && host[i] == '.'
    ensures !closed ==> !DottedQuad(host)
    ensures closed ==> IpScan(host, dotCount + 1, i + 1, i + 1)
  {
    if i == lastDot {
      ClosedPieceRefutes(host, i);
      return false;
    }
    var segment := host[lastDot..i];
    if |segment| > 3 {
      ClosedPieceRefutes(host, i);
      return false;
    }
    SegmentDigits(host, lastDot, i);
    var num := DecimalValue(segment);
    if num > 255 {
      ClosedPieceRefutes(host, i);
      return false;
    }
    IpScanDot(host, dotCount, lastDot, i);
    return true;
  }

  /** A bad piece closed by a dot spoils the whole address. */
  lemma ClosedPieceRefutes(host: string, i: int)
    requires 0 <= i < |host| && host[i] == '.' && !IpSegment(Last(Split(host[..i], '.')))
    ensures !DottedQuad(host)
  {
    PieceClosed(host, i, '.');
  }

  /** Closing a good piece keeps every finished piece good. */
  lemma ClosedPieceKeeps(host: string, i: int)
    requires 0 <= i < |host| && host[i] == '.'
    requires var p := Split(host[..i], '.'); forall k :: 0 <= k < |p| ==> IpSegment(p[k])
    ensures var p := Split(host[..i], '.'); var q := Split(host[..i + 1], '.');
      |q| == |p| + 1 && Last(q) == "" && forall k :: 0 <= k < |q| - 1 ==> IpSegment(q[k])
  {
    PieceClosed(host, i, '.');
  }

  /** A bad label closed by a dot spoils the hostname. */
  lemma ClosedLabelRefutes(host: string, i: int)
    requires 0 <= i < |host| && host[i] == '.' && !LabelOk(Last(Split(host[..i], '.')))
    ensures !HostnameOk(host)
  {
    PieceClosed(host, i, '.');
  }

  lemma ClosedLabelKeeps(host: string, i: int)
    requires 0 <= i < |host| && host[i] == '.'
    requires var p := Split(host[..i], '.'); forall k :: 0 <= k < |p| ==> LabelOk(p[k])
    ensures var p := Split(host[..i], '.'); var q := Split(host[..i + 1], '.');
      Last(q) == "" && forall k :: 0 <= k < |q| - 1 ==> LabelOk(q[k])
  {
    PieceClosed(host, i, '.');
  }

  /** A character outside the host alphabet spoils its label. */
  lemma BadCharRefutes(host: string, i: int)
    requires 0 <= i < |host| && host[i] != '.' && !HostChar(host[i])
    ensures !HostnameOk(host)
  {
    PieceExtended(host, i, '.');
  }

  /** In an address-looking string, the characters from `from` up to a
      dot (or the end) with no dot between are digits. */
  lemma SegmentDigits(host: string, from: int, to: int)
    requires LooksLikeIp(host) && 0 <= from <= to <= |host|
    requires Last(Split(host[..to], '.')) == host[from..to]
    ensures AllDigits(host[from..to])
  {
    SplitJoin(host[..to], '.');
    var seg := host[from..to];
    assert '.' !in seg;
    forall j | 0 <= j < |seg| ensures IsDigit(seg[j]) {
      assert seg[j] == host[from + j];
      assert seg[j] in seg;
    }
  }

  /** The hostname branch. The source's last loop turn (i == length) is
      written after the loop; its test "starts with a dot" is already
      excluded by the alphanumeric first character and is not repeated. */
  method CheckHostname(host: string) returns (ok: bool)
    requires |host| > 0
    ensures ok == HostnameOk(host)
  {
    if !IsAlnum(host[0]) {
      return false;
    }
    if host[|host| - 1] == '-' || host[|host| - 1] == '.' {
      return false;
    }
    var labelsOk, labelStart := ScanLabels(host);
    if !labelsOk {
      return false;
    }
    LabelScanDone(host, labelStart);
    var labelLen := |host| - labelStart;
    if labelLen > MaxLabelLength || labelLen == 0 {
      return false;
    }
    if host[labelStart] == '-' || host[|host| - 1] == '-' {
      return false;
    }
    return true;
  }

  /** What the label loop knows after reading host[..i]: the current label
      starts at labelStart, every closed label is good, and the current
      label holds only host characters so far. */
  predicate LabelScan(host: string, labelStart: int, i: int)
  {
    0 <= labelStart <= i <= |host| &&
    var p := Split(host[..i], '.');
    Last(p) == host[labelStart..i] &&
    (forall k :: 0 <= k < |p| - 1 ==> LabelOk(p[k])) &&
    forall j :: labelStart <= j < i ==> HostChar(host[j])
  }

  lemma LabelScanDot(host: string, labelStart: int, i: int)
    requires LabelScan(host, labelStart, i) && i < |host| && host[i] == '.'
    requires 1 <= i - labelStart <= MaxLabelLength && host[labelStart] != '-' && host[i - 1] != '-'
    ensures LabelScan(host, i + 1, i + 1)
  {
    var l := host[labelStart..i];
    assert forall j :: 0 <= j < |l| ==> l[j] == host[labelStart + j];
    assert LabelOk(l);
    ClosedLabelKeeps(host, i);
  }

  lemma LabelScanChar(host: string, labelStart: int, i: int)
    requires LabelScan(host, labelStart, i) && i < |host| && host[i] != '.' && HostChar(host[i])
    ensures LabelScan(host, labelStart, i + 1)
  {
    PieceExtended(host, i, '.');
    assert host[labelStart..i + 1] == host[labelStart..i] + [host[i]];
  }

  lemma LabelScanBadLabel(host: string, labelStart: int, i: int)
    requires LabelScan(host, labelStart, i) && i < |host| && host[i] == '.'
    requires !(1 <= i - labelStart <= MaxLabelLength && host[labelStart] != '-' && host[i - 1] != '-')
    ensures !HostnameOk(host)
  {
    var l := host[labelStart..i];
    if 1 <= i - labelStart {
      assert l[0] == host[labelStart] && l[|l| - 1] == host[i - 1];
    }
    ClosedLabelRefutes(host, i);
  }

  lemma LabelScanDone(host: string, labelStart: int)
    requires LabelScan(host, labelStart, |host|)
    ensures var r := Split(host, '.');
      0 <= labelStart <= |host| && Last(r) == host[labelStart..] &&
      (forall j :: labelStart <= j < |host| ==> HostChar(host[j])) &&
      forall k :: 0 <= k < |r| - 1 ==> LabelOk(r[k])
  {
    assert host[..|host|] == host;
  }

  /** The label loop up to the last dot: every label it closes is good, and
      every character it passes is a host character or a dot. */
  method ScanLabels(host: string) returns (labelsOk: bool, labelStart: int)
    ensures !labelsOk ==> !HostnameOk(host)
    ensures labelsOk ==> LabelScan(host, labelStart, |host|)
  {
    labelStart := 0;
    var i := 0;
    assert host[..0] == [];
    while i < |host|
      invariant LabelScan(host, labelStart, i)
    {
      if host[i] == '.' {
        var labelLen := i - labelStart;
        if labelLen > MaxLabelLength || labelLen == 0 {
          LabelScanBadLabel(host, labelStart, i);
          return false, labelStart;
        }
        if host[labelStart] == '-' || host[i - 1] == '-' {
          LabelScanBadLabel(host, labelStart, i);
          return false, labelStart;
        }
        LabelScanDot(host, labelStart, i);
        labelStart := i + 1;
      } else {
        var c := host[i];
        if !IsAlnum(c) && c != '-' && c != '_' {
          BadCharRefutes(host, i);
          return false, labelStart;
        }
        LabelScanChar(host, labelStart, i);
      }
      i := i + 1;
    }
    return true, labelStart;
  }

  /** is_valid_ip_or_hostname. */
  method IsValidIpOrHostname(host: string) returns (ok: bool)
    ensures ok == ValidHost(host)
  {
    if |host| == 0 {
      return false;
    }
    if |host| > MaxHostLength {
      return false;
    }
    var looksLikeIp := ScanLooksLikeIp(host);
    if looksLikeIp {
      ok := CheckIpv4(host);
      return;
    }
    ok := CheckHostname(host);
  }

  /** std::stoi on a digit string: None when it would throw out_of_range. */
  function Stoi(s: string): (r: Option<nat>)
    requires |s| > 0 && AllDigits(s)
  {
    if DecimalValue(s) <= IntMax then Some(DecimalValue(s)) else None
  }

  /** is_valid_port. */
  method IsValidPort(portStr: string) returns (ok: bool)
    ensures ok == ValidPort(portStr)
  {
    if |portStr| == 0 {
      return false;
    }
    var i := 0;
    while i < |portStr|
      invariant 0 <= i <= |portStr|
      invariant forall j :: 0 <= j < i ==> IsDigit(portStr[j])
    {
      if !IsDigit(portStr[i]) {
        return false;
      }
      i := i + 1;
    }
    if |portStr| > 1 && portStr[0] == '0' {
      return false;
    }
    var port := Stoi(portStr);
    if port.None? {
      return false;
    }
    return port.value > 0 && port.value <= MaxPort;
  }

  // ---------------------------------------------------------------------
  // Properties
  // ---------------------------------------------------------------------

  /** A port string is accepted exactly when it is how a number in 1..65535
      prints: "0", leading zeros and overflowing strings are all refused. */
  lemma ValidPortIsPrintedNumber(s: string)
    ensures ValidPort(s) <==> exists n: nat :: 1 <= n <= MaxPort && s == NatToString(n)
  {
    if ValidPort(s) {
      CanonicalDecimal(s);
      assert s == NatToString(DecimalValue(s));
    }
    if exists n: nat :: 1 <= n <= MaxPort && s == NatToString(n) {
      var n: nat :| 1 <= n <= MaxPort && s == NatToString(n);
      NatToStringRoundTrip(n);
    }
  }

  /** Every character of a valid hostname is a host character or a dot. */
  lemma {:induction false} HostnameCharacters(host: string)
    requires HostnameOk(host)
    ensures forall i :: 0 <= i < |host| ==> HostChar(host[i]) || host[i] == '.'
  {
    forall i | 0 <= i < |host| && host[i] != '.'
      ensures HostChar(host[i])
    {
      var p := Split(host[..i + 1], '.');
      var r := Split(host, '.');
      SplitStep(host, i, '.');
      SplitPrefix(host, i + 1, '.');
      var k := |p| - 1;
      assert Last(p)[|Last(p)| - 1] == host[i];
      assert r[k][|Last(p)| - 1] == host[i];
    }
  }
}
