/** Shared vocabulary for the model: optional values and results (the
    source's null pointers and exceptions), the ASCII character classes of
    <cctype> in the "C" locale, decimal digits, and the character-by-character
    string order that std::map<std::string, _> and Python's sorted() use. */
module Common {

  datatype Option<+T> = None | Some(value: T)

  datatype Result<+T, +E> = Ok(value: T) | Err(error: E)

  // ---------------------------------------------------------------------
  // <cctype> in the "C" locale
  // ---------------------------------------------------------------------

  predicate IsDigit(c: char) { '0' <= c <= '9' }
  predicate IsUpper(c: char) { 'A' <= c <= 'Z' }
  predicate IsLower(c: char) { 'a' <= c <= 'z' }
  predicate IsAlnum(c: char) { IsDigit(c) || IsUpper(c) || IsLower(c) }

  /** isspace: space, tab, newline, vertical tab, form feed, carriage return. */
  predicate IsSpace(c: char) { c == ' ' || c == '\t' || c == '\n' || c == '\r' || c as int == 11 || c as int == 12 }

  function ToUpper(c: char): (u: char)
    ensures IsLower(c) ==> IsUpper(u) && u as int == c as int - 32
    ensures !IsLower(c) ==> u == c
  {
    if IsLower(c) then (c as int - 32) as char else c
  }

  function ToLower(c: char): (l: char)
    ensures IsUpper(c) ==> IsLower(l) && l as int == c as int + 32
    ensures !IsUpper(c) ==> l == c
  {
    if IsUpper(c) then (c as int + 32) as char else c
  }

  function LowerString(s: string): (r: string)
    ensures |r| == |s| && forall i :: 0 <= i < |s| ==> r[i] == ToLower(s[i])
  {
    seq(|s|, i requires 0 <= i < |s| => ToLower(s[i]))
  }

  predicate AllDigits(s: string) { forall i :: 0 <= i < |s| ==> IsDigit(s[i]) }

  predicate IsPrefix<T(==)>(p: seq<T>, s: seq<T>) { |p| <= |s| && s[..|p|] == p }

  /** True when `t` occurs somewhere inside `s` (std::string::find != npos). */
  predicate Contains(s: string, t: string) { exists i :: 0 <= i <= |s| - |t| && IsPrefix(t, s[i..]) }

  // ---------------------------------------------------------------------
  // Decimal numbers
  // ---------------------------------------------------------------------

  function DigitValue(c: char): nat
    requires IsDigit(c)
  {
    c as int - '0' as int
  }

  function DigitChar(d: nat): (c: char)
    requires d < 10
    ensures IsDigit(c) && DigitValue(c) == d
  {
    ('0' as int + d) as char
  }

  /** The value of a string of decimal digits, read left to right. */
  function DecimalValue(s: string): nat
    requires AllDigits(s)
  {
    if |s| == 0 then 0 else DecimalValue(s[..|s| - 1]) * 10 + DigitValue(s[|s| - 1])
  }

  /** Decimal rendering without leading zeros, as fmt::format("{}", n) and std::to_string give. */
  function NatToString(n: nat): (r: string)
    ensures |r| > 0 && AllDigits(r)
    ensures n >= 10 ==> |r| >= 2
  {
    if n < 10 then [DigitChar(n)] else NatToString(n / 10) + [DigitChar(n % 10)]
  }

  lemma {:induction false} NatToStringRoundTrip(n: nat)
    ensures DecimalValue(NatToString(n)) == n
    ensures (NatToString(n)[0] == '0') <==> n == 0
  {
    if n >= 10 {
      NatToStringRoundTrip(n / 10);
      var r := NatToString(n);
      assert r[..|r| - 1] == NatToString(n / 10);
    }
  }

  /** A bounded number of digits has a bounded value. */
  lemma {:induction false} DecimalValueBound(s: string)
    requires AllDigits(s)
    ensures DecimalValue(s) < Pow10(|s|)
  {
    if |s| > 0 {
      DecimalValueBound(s[..|s| - 1]);
    }
  }

  function Pow10(k: nat): (p: nat)
    ensures p >= 1
  {
    if k == 0 then 1 else 10 * Pow10(k - 1)
  }

  /** A string of digits whose first digit is not 0 is at least 10^(|s|-1). */
  lemma {:induction false} DecimalValueLowerBound(s: string)
    requires AllDigits(s) && |s| > 0 && s[0] != '0'
    ensures DecimalValue(s) >= Pow10(|s| - 1)
  {
    if |s| > 1 {
      DecimalValueLowerBound(s[..|s| - 1]);
    }
  }

  /** A digit string without a redundant leading zero is how its value prints. */
  lemma {:induction false} CanonicalDecimal(s: string)
    requires |s| > 0 && AllDigits(s) && (|s| > 1 ==> s[0] != '0')
    ensures NatToString(DecimalValue(s)) == s
  {
    var c := s[|s| - 1];
    assert DigitChar(DigitValue(c)) == c;
    if |s| > 1 {
      var p := s[..|s| - 1];
      CanonicalDecimal(p);
      DecimalValueLowerBound(p);
      var v := DecimalValue(s);
      assert v / 10 == DecimalValue(p) && v % 10 == DigitValue(c);
      assert s == p + [c];
    }
  }

  // ---------------------------------------------------------------------
  // Splitting on a separator character
  // ---------------------------------------------------------------------

  /** The pieces between separators, empty pieces kept, read left to right. */
  function Split<T(==)>(s: seq<T>, sep: T): (r: seq<seq<T>>)
    ensures |r| >= 1
  {
    if |s| == 0 then [[]]
    else
      var p := Split(s[..|s| - 1], sep);
      if s[|s| - 1] == sep then p + [[]] else p[..|p| - 1] + [p[|p| - 1] + [s[|s| - 1]]]
  }

  function Join<T>(parts: seq<seq<T>>, sep: T): seq<T>
    requires |parts| >= 1
  {
    if |parts| == 1 then parts[0] else Join(parts[..|parts| - 1], sep) + [sep] + parts[|parts| - 1]
  }

  function Last<T>(s: seq<T>): T
    requires |s| > 0
  {
    s[|s| - 1]
  }

  /** Splitting loses nothing: joining the pieces back gives the string,
      and no piece holds the separator. */
  lemma SplitJoin<T>(s: seq<T>, sep: T)
    ensures Join(Split(s, sep), sep) == s
    ensures forall k :: 0 <= k < |Split(s, sep)| ==> sep !in Split(s, sep)[k]
  {
    JoinSplit(s, sep);
    SplitNoSeparator(s, sep);
  }

  lemma {:induction false} JoinSplit<T>(s: seq<T>, sep: T)
    ensures Join(Split(s, sep), sep) == s
  {
    if |s| > 0 {
      var q := s[..|s| - 1];
      JoinSplit(q, sep);
      assert s == q + [s[|s| - 1]];
      JoinSplitStep(q, s[|s| - 1], sep);
    }
  }

  /** One more element keeps the pieces joining back to the sequence. */
  lemma JoinSplitStep<T>(q: seq<T>, c: T, sep: T)
    requires Join(Split(q, sep), sep) == q
    ensures Join(Split(q + [c], sep), sep) == q + [c]
  {
    var s := q + [c];
    assert s[..|s| - 1] == q && s[|s| - 1] == c;
    var p := Split(q, sep);
    if c == sep {
      assert Split(s, sep) == p + [[]];
      JoinClosed(p, sep);
    } else {
      assert Split(s, sep) == p[..|p| - 1] + [Last(p) + [c]];
      JoinExtended(p, c, sep);
    }
  }

  /** Joining one more, empty, piece adds the separator. */
  lemma JoinClosed<T>(p: seq<seq<T>>, sep: T)
    requires |p| >= 1
    ensures Join(p + [[]], sep) == Join(p, sep) + [sep]
  {
    assert (p + [[]])[..|p|] == p;
  }

  /** Extending the last piece extends the joined sequence. */
  lemma JoinExtended<T>(p: seq<seq<T>>, c: T, sep: T)
    requires |p| >= 1
    ensures Join(p[..|p| - 1] + [Last(p) + [c]], sep) == Join(p, sep) + [c]
  {
    var r := p[..|p| - 1] + [Last(p) + [c]];
    if |p| > 1 {
      assert r[..|r| - 1] == p[..|p| - 1];
    }
  }

  lemma {:induction false} SplitNoSeparator<T>(s: seq<T>, sep: T)
    ensures forall k :: 0 <= k < |Split(s, sep)| ==> sep !in Split(s, sep)[k]
  {
    if |s| > 0 {
      var q := s[..|s| - 1];
      SplitNoSeparator(q, sep);
      var p := Split(q, sep);
      var r := Split(s, sep);
      if s[|s| - 1] != sep {
        assert forall k :: 0 <= k < |r| - 1 ==> r[k] == p[k];
        assert Last(r) == Last(p) + [s[|s| - 1]];
      } else {
        assert forall k :: 0 <= k < |r| - 1 ==> r[k] == p[k];
      }
    }
  }

  /** Splitting one character further. */
  lemma SplitStep<T>(s: seq<T>, i: int, sep: T)
    requires 0 <= i < |s|
    ensures var p := Split(s[..i], sep);
      Split(s[..i + 1], sep) ==
        if s[i] == sep then p + [[]] else p[..|p| - 1] + [p[|p| - 1] + [s[i]]]
  {
    assert s[..i + 1][..i] == s[..i];
  }

  /** The pieces of a prefix: all but the last are pieces of the whole
      string, and the last is the beginning of the piece at its place. */
  lemma {:induction false} SplitPrefix<T>(s: seq<T>, i: int, sep: T)
    requires 0 <= i <= |s|
    ensures var p := Split(s[..i], sep); var r := Split(s, sep);
      |p| <= |r| && r[..|p| - 1] == p[..|p| - 1] && IsPrefix(p[|p| - 1], r[|p| - 1])
  {
    if i == |s| {
      assert s[..i] == s;
    } else {
      var q := s[..|s| - 1];
      assert q[..i] == s[..i];
      SplitPrefix(q, i, sep);
      var p := Split(s[..i], sep);
      var pq := Split(q, sep);
      var r := Split(s, sep);
      var k := |p| - 1;
      if s[|s| - 1] != sep {
        assert r[..|pq| - 1] == pq[..|pq| - 1];
        if k == |pq| - 1 {
          assert r[k] == pq[k] + [s[|s| - 1]];
          assert r[k][..|p[k]|] == pq[k][..|p[k]|];
        } else {
          assert r[k] == pq[k];
        }
      } else {
        assert r[..|pq|] == pq;
      }
    }
  }

  /** Reading a separator closes the current piece, which is then final. */
  lemma PieceClosed<T>(s: seq<T>, i: int, sep: T)
    requires 0 <= i < |s| && s[i] == sep
    ensures var p := Split(s[..i], sep);
      Split(s[..i + 1], sep) == p + [[]] &&
      |p| < |Split(s, sep)| && Split(s, sep)[|p| - 1] == Last(p)
  {
    SplitStep(s, i, sep);
    SplitPrefix(s, i + 1, sep);
    ClosedPiece(Split(s[..i], sep), Split(s[..i + 1], sep), Split(s, sep));
  }

  /** Two separators in a row leave an empty piece between them. */
  lemma EmptyPiece<T>(s: seq<T>, i: int, sep: T) returns (k: nat)
    requires 0 <= i < |s| - 1 && s[i] == sep && s[i + 1] == sep
    ensures k < |Split(s, sep)| && Split(s, sep)[k] == []
  {
    PieceClosed(s, i, sep);
    PieceClosed(s, i + 1, sep);
    var p := Split(s[..i + 1], sep);
    assert Last(p) == [];
    k := |p| - 1;
  }

  lemma ClosedPiece<T>(p: seq<seq<T>>, p1: seq<seq<T>>, r: seq<seq<T>>)
    requires |p| > 0 && p1 == p + [[]]
    requires |p1| <= |r| && r[..|p1| - 1] == p1[..|p1| - 1]
    ensures |p| < |r| && r[|p| - 1] == Last(p)
  {
    assert p1[..|p1| - 1] == p;
    assert r[|p| - 1] == r[..|p|][|p| - 1];
  }

  /** Reading another character extends the current piece, and that
      character then belongs to the piece at the same place in the whole. */
  lemma PieceExtended<T>(s: seq<T>, i: int, sep: T)
    requires 0 <= i < |s| && s[i] != sep
    ensures var p := Split(s[..i], sep);
      Split(s[..i + 1], sep) == p[..|p| - 1] + [Last(p) + [s[i]]] &&
      |p| <= |Split(s, sep)| && |Last(p)| < |Split(s, sep)[|p| - 1]| &&
      Split(s, sep)[|p| - 1][|Last(p)|] == s[i]
  {
    var p := Split(s[..i], sep);
    SplitStep(s, i, sep);
    SplitPrefix(s, i + 1, sep);
    var p1 := Split(s[..i + 1], sep);
    assert |p1| == |p| && Last(p1) == Last(p) + [s[i]];
    assert Last(p1)[|Last(p)|] == s[i];
  }

  // ---------------------------------------------------------------------
  // String order: the order of std::string::compare and of Python str
  // ---------------------------------------------------------------------

  predicate StrLt(a: string, b: string)
    decreases |a|
  {
    |b| > 0 && (|a| == 0 || a[0] < b[0] || (a[0] == b[0] && StrLt(a[1..], b[1..])))
  }

  lemma {:induction false} StrLtIrreflexive(a: string)
    ensures !StrLt(a, a)
  {
    if |a| > 0 {
      StrLtIrreflexive(a[1..]);
    }
  }

  lemma {:induction false} StrLtTransitive(a: string, b: string, c: string)
    requires StrLt(a, b) && StrLt(b, c)
    ensures StrLt(a, c)
  {
    if |a| > 0 && a[0] == b[0] && b[0] == c[0] {
      StrLtTransitive(a[1..], b[1..], c[1..]);
    }
  }

  lemma {:induction false} StrLtTotal(a: string, b: string)
    ensures a == b || StrLt(a, b) || StrLt(b, a)
  {
    if |a| > 0 && |b| > 0 && a[0] == b[0] {
      StrLtTotal(a[1..], b[1..]);
      if a[1..] == b[1..] {
        assert a == [a[0]] + a[1..] && b == [b[0]] + b[1..];
      }
    }
  }

  lemma StrLtAsymmetric(a: string, b: string)
    requires StrLt(a, b)
    ensures !StrLt(b, a)
  {
    if StrLt(b, a) {
      StrLtTransitive(a, b, a);
      StrLtIrreflexive(a);
    }
  }

  predicate StrictlySorted(ks: seq<string>)
  {
    forall i, j :: 0 <= i < j < |ks| ==> StrLt(ks[i], ks[j])
  }

  lemma {:induction false} SortedHasNoDuplicates(ks: seq<string>, i: int, j: int)
    requires StrictlySorted(ks) && 0 <= i < |ks| && 0 <= j < |ks| && i != j
    ensures ks[i] != ks[j]
  {
    if i < j { StrLtIrreflexive(ks[i]); } else { StrLtIrreflexive(ks[j]); }
  }

  predicate IsLeast(m: string, s: set<string>)
  {
    m in s && forall x :: x in s && x != m ==> StrLt(m, x)
  }

  /** The least element of a non-empty finite set of strings exists. */
  lemma {:induction false} LeastExists(s: set<string>)
    requires s != {}
    ensures exists m :: IsLeast(m, s)
  {
    var y :| y in s;
    if s == {y} {
      assert IsLeast(y, s);
    } else {
      LeastExists(s - {y});
      var m :| IsLeast(m, s - {y});
      StrLtTotal(y, m);
      if StrLt(y, m) {
        forall x | x in s && x != y ensures StrLt(y, x) {
          if x != m { StrLtTransitive(y, m, x); }
        }
        assert IsLeast(y, s);
      } else {
        assert StrLt(m, y);
        assert IsLeast(m, s);
      }
    }
  }

  ghost function Least(s: set<string>): (m: string)
    requires s != {}
    ensures m in s && forall x :: x in s && x != m ==> StrLt(m, x)
  {
    LeastExists(s);
    var m :| IsLeast(m, s); m
  }

  /** The elements of a set in ascending order: what Python's sorted() returns. */
  ghost function SortedSeq(s: set<string>): (r: seq<string>)
    ensures StrictlySorted(r) && |r| == |s|
    ensures forall x :: x in r <==> x in s
    decreases |s|
  {
    if s == {} then [] else
      var m := Least(s);
      var rest := SortedSeq(s - {m});
      assert forall x :: x in rest ==> StrLt(m, x);
      [m] + rest
  }

  /** Sorting is unique: two ascending listings of the same elements coincide. */
  lemma {:induction false} SortedUnique(a: seq<string>, b: seq<string>)
    requires StrictlySorted(a) && StrictlySorted(b)
    requires forall x :: x in a <==> x in b
    ensures a == b
  {
    assert |a| > 0 ==> a[0] in b;
    assert |b| > 0 ==> b[0] in a;
    if |a| > 0 {
      if a[0] != b[0] {
        assert a[0] in b;
        var j :| 0 <= j < |b| && b[j] == a[0];
        assert b[0] in a;
        var i :| 0 <= i < |a| && a[i] == b[0];
        assert StrLt(b[0], a[0]);
        assert StrLt(a[0], b[0]);
        StrLtAsymmetric(a[0], b[0]);
      }
      forall x ensures x in a[1..] <==> x in b[1..] {
        if x in a[1..] {
          var i :| 1 <= i < |a| && a[i] == x;
          SortedHasNoDuplicates(a, 0, i);
          assert x in b;
        }
        if x in b[1..] {
          var j :| 1 <= j < |b| && b[j] == x;
          SortedHasNoDuplicates(b, 0, j);
          assert x in a;
        }
      }
      SortedUnique(a[1..], b[1..]);
      assert a == [a[0]] + a[1..] && b == [b[0]] + b[1..];
    }
  }

  /** Insert a string into an ascending listing. */
  function InsertSorted(ks: seq<string>, k: string): seq<string>
  {
    if |ks| == 0 then [k]
    else if ks[0] == k then ks
    else if StrLt(k, ks[0]) then [k] + ks
    else [ks[0]] + InsertSorted(ks[1..], k)
  }

  /** Inserting keeps an ascending listing ascending and duplicate-free, and
      adds exactly the inserted string. */
  lemma {:induction false} InsertSortedSorted(ks: seq<string>, k: string)
    requires StrictlySorted(ks)
    ensures StrictlySorted(InsertSorted(ks, k))
    ensures forall x :: x in InsertSorted(ks, k) <==> x in ks || x == k
  {
    if |ks| == 0 || ks[0] == k {
    } else if StrLt(k, ks[0]) {
      LtBeforeSortedIsLeast(k, ks);
    } else {
      var rest := InsertSorted(ks[1..], k);
      InsertSortedSorted(ks[1..], k);
      StrLtTotal(k, ks[0]);
      assert forall x :: x in rest ==> StrLt(ks[0], x) by {
        forall x | x in rest ensures StrLt(ks[0], x) {
          if x != k {
            var j :| 1 <= j < |ks| && ks[j] == x;
          }
        }
      }
      assert InsertSorted(ks, k) == [ks[0]] + rest;
    }
  }

  lemma LtBeforeSortedIsLeast(k: string, ks: seq<string>)
    requires StrictlySorted(ks) && |ks| > 0 && StrLt(k, ks[0])
    ensures forall j :: 0 <= j < |ks| ==> StrLt(k, ks[j])
  {
    forall j | 0 < j < |ks| ensures StrLt(k, ks[j]) {
      StrLtTransitive(k, ks[0], ks[j]);
    }
  }

  // ---------------------------------------------------------------------
  // std::map<std::string, V>: an association list in ascending key order
  // ---------------------------------------------------------------------

  function KeySet<V>(l: seq<(string, V)>): set<string>
  {
    set i | 0 <= i < |l| :: l[i].0
  }

  predicate KeysAscending<V>(l: seq<(string, V)>)
  {
    forall i, j :: 0 <= i < j < |l| ==> StrLt(l[i].0, l[j].0)
  }

  function Lookup<V>(l: seq<(string, V)>, k: string): (r: Option<V>)
    ensures r.None? <==> k !in KeySet(l)
    ensures r.Some? ==> (k, r.value) in l
  {
    if |l| == 0 then None
    else if l[0].0 == k then Some(l[0].1)
    else
      var r := Lookup(l[1..], k);
      assert KeySet(l) == {l[0].0} + KeySet(l[1..]) by {
        forall x | x in KeySet(l) ensures x in {l[0].0} + KeySet(l[1..]) {
          var i :| 0 <= i < |l| && l[i].0 == x;
          if i > 0 { assert l[1..][i - 1].0 == x; }
        }
      }
      r
  }

  lemma KeySetCons<V>(p: (string, V), l: seq<(string, V)>)
    ensures KeySet([p] + l) == {p.0} + KeySet(l)
  {
    var c := [p] + l;
    assert c[0].0 == p.0;
    forall x | x in KeySet(c) ensures x in {p.0} + KeySet(l) {
      var i :| 0 <= i < |c| && c[i].0 == x;
      if i > 0 { assert l[i - 1].0 == x; }
    }
    forall x | x in KeySet(l) ensures x in KeySet(c) {
      var i :| 0 <= i < |l| && l[i].0 == x;
      assert c[i + 1].0 == x;
    }
  }

  /** A list of one pair, made from the empty list. */
  lemma KeySetSingle<V>(l: seq<(string, V)>, p: (string, V))
    requires |l| == 0
    ensures KeySet([p]) == KeySet(l) + {p.0}
  {
    assert KeySet(l) == {};
    assert [p][0].0 == p.0;
  }

  /** std::map::insert: adds (k, v) only when k is absent; never overwrites. */
  function InsertNew<V>(l: seq<(string, V)>, k: string, v: V): (r: seq<(string, V)>)
    requires KeysAscending(l)
    ensures KeysAscending(r)
    ensures KeySet(r) == KeySet(l) + {k}
    ensures Lookup(r, k) == if k in KeySet(l) then Lookup(l, k) else Some(v)
    ensures forall x :: x != k ==> Lookup(r, x) == Lookup(l, x)
    ensures forall p :: p in r ==> p == (k, v) || p in l
  {
    if |l| == 0 then
      KeySetSingle(l, (k, v));
      [(k, v)]
    else if l[0].0 == k then l
    else if StrLt(k, l[0].0) then
      PrependSmaller(l, k, v);
      [(k, v)] + l
    else
      var rest := InsertNew(l[1..], k, v);
      StrLtTotal(k, l[0].0);
      ConsAbove(l, k, rest);
      [l[0]] + rest
  }

  /** Putting a key below every key of the list in front of it. */
  lemma PrependSmaller<V>(l: seq<(string, V)>, k: string, v: V)
    requires KeysAscending(l) && |l| > 0 && StrLt(k, l[0].0)
    ensures var r := [(k, v)] + l;
      KeysAscending(r) && k !in KeySet(l) && KeySet(r) == KeySet(l) + {k} &&
      Lookup(r, k) == Some(v) && (forall x :: x != k ==> Lookup(r, x) == Lookup(l, x)) &&
      forall p :: p in r ==> p == (k, v) || p in l
  {
    forall j | 0 < j < |l| ensures StrLt(k, l[j].0) {
      StrLtTransitive(k, l[0].0, l[j].0);
    }
    StrLtIrreflexive(k);
    assert k !in KeySet(l);
    KeySetCons((k, v), l);
    assert ([(k, v)] + l)[1..] == l;
  }

  /** Keeping the smallest entry in front of a list updated above it. */
  lemma ConsAbove<V>(l: seq<(string, V)>, k: string, rest: seq<(string, V)>)
    requires KeysAscending(l) && |l| > 0 && l[0].0 != k && !StrLt(k, l[0].0) && StrLt(l[0].0, k)
    requires KeysAscending(rest) && KeySet(rest) == KeySet(l[1..]) + {k}
    ensures var r := [l[0]] + rest;
      KeysAscending(r) && KeySet(r) == KeySet(l) + {k} &&
      (forall x :: Lookup(r, x) == if x == l[0].0 then Some(l[0].1) else Lookup(rest, x)) &&
      (forall x :: Lookup(l, x) == if x == l[0].0 then Some(l[0].1) else Lookup(l[1..], x))
  {
    var r := [l[0]] + rest;
    assert r[0] == l[0] && r[1..] == rest;
    KeySetCons(l[0], l[1..]);
    KeySetCons(l[0], rest);
    assert l == [l[0]] + l[1..];
    AboveAll(l[0].0, l[1..], rest, k);
    forall i, j | 0 <= i < j < |r| ensures StrLt(r[i].0, r[j].0) {
      if i > 0 { assert r[i] == rest[i - 1] && r[j] == rest[j - 1]; }
      else { assert r[j] == rest[j - 1]; }
    }
    forall x ensures Lookup(r, x) == if x == l[0].0 then Some(l[0].1) else Lookup(rest, x) {
    }
    forall x ensures Lookup(l, x) == if x == l[0].0 then Some(l[0].1) else Lookup(l[1..], x) {
    }
  }

  lemma AboveAll<V>(b: string, l: seq<(string, V)>, rest: seq<(string, V)>, k: string)
    requires forall j :: 0 <= j < |l| ==> StrLt(b, l[j].0)
    requires StrLt(b, k) && KeySet(rest) == KeySet(l) + {k}
    ensures forall j :: 0 <= j < |rest| ==> StrLt(b, rest[j].0)
  {
    forall j | 0 <= j < |rest| ensures StrLt(b, rest[j].0) {
      assert rest[j].0 in KeySet(rest);
      if rest[j].0 != k {
        var i :| 0 <= i < |l| && l[i].0 == rest[j].0;
      }
    }
  }

  /** std::map operator[] assignment: sets k to v, overwriting any old value. */
  function Put<V>(l: seq<(string, V)>, k: string, v: V): (r: seq<(string, V)>)
    requires KeysAscending(l)
    ensures KeysAscending(r)
    ensures KeySet(r) == KeySet(l) + {k}
    ensures Lookup(r, k) == Some(v)
    ensures forall x :: x != k ==> Lookup(r, x) == Lookup(l, x)
    ensures forall p :: p in r ==> p == (k, v) || p in l
  {
    if |l| == 0 then
      KeySetSingle(l, (k, v));
      [(k, v)]
    else if l[0].0 == k then
      ReplaceFirst(l, v);
      [(k, v)] + l[1..]
    else if StrLt(k, l[0].0) then
      PrependSmaller(l, k, v);
      [(k, v)] + l
    else
      var rest := Put(l[1..], k, v);
      StrLtTotal(k, l[0].0);
      ConsAbove(l, k, rest);
      [l[0]] + rest
  }

  /** Overwriting the value of the first entry. */
  lemma ReplaceFirst<V>(l: seq<(string, V)>, v: V)
    requires KeysAscending(l) && |l| > 0
    ensures var r := [(l[0].0, v)] + l[1..];
      KeysAscending(r) && KeySet(r) == KeySet(l) && Lookup(r, l[0].0) == Some(v) &&
      (forall x :: x != l[0].0 ==> Lookup(r, x) == Lookup(l, x))
  {
    var r := [(l[0].0, v)] + l[1..];
    assert forall i :: 0 <= i < |r| ==> r[i].0 == l[i].0;
    KeySetCons(l[0], l[1..]);
    KeySetCons((l[0].0, v), l[1..]);
    assert l == [l[0]] + l[1..];
    assert r[1..] == l[1..];
    forall x | x != l[0].0 ensures Lookup(r, x) == Lookup(l, x) {
      assert Lookup(r, x) == Lookup(l[1..], x);
    }
  }
}
