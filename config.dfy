/** The settings store: a JSON tree addressed by JSON pointers in the style
    of RFC 6901 ("/printers/<name>/moonraker_host"), with typed reads, reads
    with a fallback, writes that create the objects along the way, and the
    rule that decides whether the first-run wizard must be shown.

    Pointer tokens address object members only; array indices are not part
    of this model. */
module Settings {
  import opened Common
  import opened Json

  datatype ConfigError =
    | PointerSyntax(pointer: string)     // json::parse_error from the pointer text
    | WrongType(expected: string)        // json::type_error from get<T>() or operator[]

  // ---------------------------------------------------------------------
  // The JSON tree
  // ---------------------------------------------------------------------

  /** Every object at every depth keeps distinct keys in ascending order. */
  predicate WellFormed(j: Json)
  {
    match j
    case JObj(ms) => KeysAscending(ms) && forall i :: 0 <= i < |ms| ==> WellFormed(ms[i].1)
    case JArr(items) => forall i :: 0 <= i < |items| ==> WellFormed(items[i])
    case _ => true
  }

  lemma MemberWellFormed(j: Json, key: string)
    requires WellFormed(j)
    ensures Has(j, key) ==> WellFormed(Member(j, key).value)
  {
    if Has(j, key) {
      var i :| 0 <= i < |j.members| && j.members[i] == (key, Member(j, key).value);
    }
  }

  /** The value a token path leads to through nested objects, None as soon
      as a token is missing or a value on the way is not an object. */
  function GetPath(j: Json, path: seq<string>): Option<Json>
  {
    if |path| == 0 then Some(j)
    else
      match Member(j, path[0])
      case None => None
      case Some(c) => GetPath(c, path[1..])
  }

  /** Writing `v` at `path` (operator[] assignment through a pointer): a
      null on the way becomes an object, a missing member is created, an
      existing one is replaced; a string, number, boolean or array on the
      way is an error. */
  function SetPath(j: Json, path: seq<string>, v: Json): (r: Result<Json, ConfigError>)
    requires WellFormed(j) && WellFormed(v)
    ensures r.Ok? ==> WellFormed(r.value)
    decreases |path|
  {
    if |path| == 0 then Ok(v)
    else if j.JNull? || j.JObj? then
      var child := if Has(j, path[0]) then Member(j, path[0]).value else JNull;
      MemberWellFormed(j, path[0]);
      match SetPath(child, path[1..], v)
      case Err(e) => Err(e)
      case Ok(c) =>
        var ms := if j.JObj? then j.members else [];
        var r := Put(ms, path[0], c);
        PutWellFormed(ms, path[0], c, j);
        Ok(JObj(r))
    else Err(WrongType("object"))
  }

  lemma PutWellFormed(ms: seq<(string, Json)>, k: string, c: Json, j: Json)
    requires WellFormed(c) && KeysAscending(ms)
    requires (j.JObj? && j.members == ms && WellFormed(j)) || ms == []
    ensures WellFormed(JObj(Put(ms, k, c)))
  {
    var r := Put(ms, k, c);
    forall i | 0 <= i < |r| ensures WellFormed(r[i].1) {
      assert r[i] in r;
      if r[i] != (k, c) {
        var m :| 0 <= m < |ms| && ms[m] == r[i];
      }
    }
  }

  /** Looking one token further down. */
  lemma {:induction false} GetPathAppend(j: Json, path: seq<string>, key: string)
    ensures GetPath(j, path + [key]) ==
      match GetPath(j, path) case None => None case Some(x) => Member(x, key)
  {
    if |path| > 0 {
      assert (path + [key])[1..] == path[1..] + [key];
      match Member(j, path[0])
      case None =>
      case Some(c) => GetPathAppend(c, path[1..], key);
    } else {
      assert (path + [key])[1..] == [];
    }
  }

  /** Once a prefix of the path is missing, so is the whole path. */
  lemma {:induction false} MissingParent(j: Json, path: seq<string>, k: nat)
    requires k <= |path| && GetPath(j, path[..k]).None?
    ensures GetPath(j, path).None?
  {
    assert k > 0;
    match Member(j, path[0])
    case None =>
    case Some(c) =>
      assert path[..k][1..] == path[1..][..k - 1];
      MissingParent(c, path[1..], k - 1);
  }

  /** A write always succeeds on null. */
  lemma {:induction false} SetOnNull(path: seq<string>, v: Json)
    requires WellFormed(v)
    ensures SetPath(JNull, path, v).Ok?
  {
    if |path| > 0 {
      SetOnNull(path[1..], v);
    }
  }

  /** A write creates every missing object along the way: it succeeds
      whenever each proper prefix of the path is missing or leads to an
      object or null. */
  lemma {:induction false} SetThroughObjects(j: Json, path: seq<string>, v: Json)
    requires WellFormed(j) && WellFormed(v)
    requires forall k :: 0 <= k < |path| ==>
      GetPath(j, path[..k]).None? || GetPath(j, path[..k]).value.JObj? || GetPath(j, path[..k]).value.JNull?
    ensures SetPath(j, path, v).Ok?
  {
    if |path| > 0 {
      assert path[..0] == [];
      if Has(j, path[0]) {
        var c := Member(j, path[0]).value;
        MemberWellFormed(j, path[0]);
        forall k | 0 <= k < |path[1..]|
          ensures GetPath(c, path[1..][..k]).None? || GetPath(c, path[1..][..k]).value.JObj? ||
                  GetPath(c, path[1..][..k]).value.JNull?
        {
          assert path[..k + 1][1..] == path[1..][..k];
          assert GetPath(j, path[..k + 1]) == GetPath(c, path[1..][..k]);
        }
        SetThroughObjects(c, path[1..], v);
      } else {
        SetOnNull(path[1..], v);
      }
    }
  }

  /** Reading back a written path gives the written value, whatever was
      there before and whatever its type. */
  lemma {:induction false} GetAfterSet(j: Json, path: seq<string>, v: Json)
    requires WellFormed(j) && WellFormed(v) && SetPath(j, path, v).Ok?
    ensures GetPath(SetPath(j, path, v).value, path) == Some(v)
    decreases |path|
  {
    if |path| > 0 {
      var child := if Has(j, path[0]) then Member(j, path[0]).value else JNull;
      MemberWellFormed(j, path[0]);
      GetAfterSet(child, path[1..], v);
    }
  }

  /** Two paths that part ways at some token. */
  predicate Diverge(p: seq<string>, u: seq<string>)
  {
    exists i :: 0 <= i < |p| && i < |u| && p[i] != u[i]
  }

  /** A write leaves every path that parts ways with it as it was. */
  lemma {:induction false} SetLeavesOthers(j: Json, path: seq<string>, v: Json, other: seq<string>)
    requires WellFormed(j) && WellFormed(v) && SetPath(j, path, v).Ok?
    requires Diverge(path, other)
    ensures GetPath(SetPath(j, path, v).value, other) == GetPath(j, other)
    decreases |path|
  {
    var i :| 0 <= i < |path| && i < |other| && path[i] != other[i];
    var child := if Has(j, path[0]) then Member(j, path[0]).value else JNull;
    MemberWellFormed(j, path[0]);
    var c := SetPath(child, path[1..], v).value;
    var r := SetPath(j, path, v).value;
    var ms := if j.JObj? then j.members else [];
    assert r == JObj(Put(ms, path[0], c));
    if path[0] != other[0] {
      assert Member(r, other[0]) == Member(j, other[0]);
    } else {
      assert i > 0 && path[1..][i - 1] != other[1..][i - 1];
      SetLeavesOthers(child, path[1..], v, other[1..]);
      assert Member(r, other[0]) == Some(c);
      if !Has(j, path[0]) {
        assert GetPath(JNull, other[1..]).None?;
      }
    }
  }

  // ---------------------------------------------------------------------
  // Pointer text
  // ---------------------------------------------------------------------

  /** A reference token with "~1" read as '/' and "~0" as '~'; any other
      use of '~' is a syntax error. */
  function Unescape(t: string): (r: Result<string, ConfigError>)
    ensures r.Ok? ==> |r.value| <= |t|
    ensures '~' !in t ==> r == Ok(t)
  {
    if |t| == 0 then Ok("")
    else if t[0] == '~' then
      if |t| >= 2 && (t[1] == '0' || t[1] == '1') then
        match Unescape(t[2..])
        case Err(e) => Err(e)
        case Ok(rest) => Ok([if t[1] == '0' then '~' else '/'] + rest)
      else Err(PointerSyntax(t))
    else
      assert t == [t[0]] + t[1..];
      match Unescape(t[1..])
      case Err(e) => Err(e)
      case Ok(rest) => Ok([t[0]] + rest)
  }

  /** The reference token that names key `k`. */
  function Escape(k: string): (t: string)
    ensures '/' !in t
  {
    if |k| == 0 then ""
    else (if k[0] == '~' then "~0" else if k[0] == '/' then "~1" else [k[0]]) + Escape(k[1..])
  }

  /** Escaping is undone by unescaping, for every key. */
  lemma {:induction false} UnescapeEscape(k: string)
    ensures Unescape(Escape(k)) == Ok(k)
  {
    if |k| > 0 {
      UnescapeEscape(k[1..]);
      var t := Escape(k);
      var head := if k[0] == '~' then "~0" else if k[0] == '/' then "~1" else [k[0]];
      assert t == head + Escape(k[1..]);
      assert t[|head|..] == Escape(k[1..]);
      assert k == [k[0]] + k[1..];
    }
  }

  function UnescapeAll(ts: seq<string>): (r: Result<seq<string>, ConfigError>)
    ensures r.Ok? ==> |r.value| == |ts|
  {
    if |ts| == 0 then Ok([])
    else
      match Unescape(ts[0])
      case Err(e) => Err(e)
      case Ok(h) =>
        match UnescapeAll(ts[1..])
        case Err(e) => Err(e)
        case Ok(rest) => Ok([h] + rest)
  }

  /** json_pointer's constructor: "" is the whole document; otherwise the
      text must start with '/' and every token between slashes is
      unescaped. */
  function ParsePointer(s: string): Result<seq<string>, ConfigError>
  {
    if s == "" then Ok([])
    else if s[0] != '/' then Err(PointerSyntax(s))
    else UnescapeAll(Split(s[1..], '/'))
  }

  /** The pointer text of a token path. */
  function PointerText(path: seq<string>): string
  {
    if |path| == 0 then "" else "/" + Join(EscapeAll(path), '/')
  }

  function EscapeAll(path: seq<string>): (r: seq<string>)
    ensures |r| == |path| && forall i :: 0 <= i < |r| ==> r[i] == Escape(path[i])
  {
    if |path| == 0 then [] else [Escape(path[0])] + EscapeAll(path[1..])
  }

  lemma {:induction false} UnescapeAllEscapeAll(path: seq<string>)
    ensures UnescapeAll(EscapeAll(path)) == Ok(path)
  {
    if |path| > 0 {
      UnescapeEscape(path[0]);
      UnescapeAllEscapeAll(path[1..]);
      assert EscapeAll(path)[1..] == EscapeAll(path[1..]);
      assert path == [path[0]] + path[1..];
    }
  }

  /** A piece without the separator splits to itself. */
  lemma {:induction false} SplitSinglePiece(y: string)
    requires '/' !in y
    ensures Split(y, '/') == [y]
  {
    if |y| > 0 {
      SplitSinglePiece(y[..|y| - 1]);
      assert y == y[..|y| - 1] + [y[|y| - 1]];
    }
  }

  /** Appending a separator and a piece without it adds that piece. */
  lemma {:induction false} SplitAppendPiece(x: string, y: string)
    requires '/' !in y
    ensures Split(x + "/" + y, '/') == Split(x, '/') + [y]
  {
    var s := x + "/" + y;
    if |y| == 0 {
      assert s[..|s| - 1] == x;
    } else {
      var y0 := y[..|y| - 1];
      SplitAppendPiece(x, y0);
      assert s[..|s| - 1] == x + "/" + y0;
      assert y == y0 + [y[|y| - 1]];
    }
  }

  /** Splitting a join of pieces without the separator gives the pieces. */
  lemma {:induction false} SplitOfJoin(parts: seq<string>)
    requires |parts| >= 1 && forall i :: 0 <= i < |parts| ==> '/' !in parts[i]
    ensures Split(Join(parts, '/'), '/') == parts
  {
    if |parts| == 1 {
      SplitSinglePiece(parts[0]);
    } else {
      var init := parts[..|parts| - 1];
      SplitOfJoin(init);
      SplitAppendPiece(Join(init, '/'), parts[|parts| - 1]);
      assert parts == init + [parts[|parts| - 1]];
    }
  }

  /** Every token path has a pointer text that parses back to it. */
  lemma PointerRoundTrip(path: seq<string>)
    ensures ParsePointer(PointerText(path)) == Ok(path)
  {
    if |path| > 0 {
      var t := PointerText(path);
      assert t[1..] == Join(EscapeAll(path), '/');
      SplitOfJoin(EscapeAll(path));
      UnescapeAllEscapeAll(path);
    }
  }

  /** A key that needs no escaping. */
  predicate PlainKey(k: string)
  {
    '/' !in k && '~' !in k
  }

  lemma {:induction false} UnescapeAllPlain(ts: seq<string>)
    requires forall i :: 0 <= i < |ts| ==> PlainKey(ts[i])
    ensures UnescapeAll(ts) == Ok(ts)
  {
    if |ts| > 0 {
      UnescapeAllPlain(ts[1..]);
      assert ts == [ts[0]] + ts[1..];
    }
  }

  /** The per-printer prefix "/printers/<name>/" followed by a key is the
      pointer to that key of that printer. */
  lemma PrinterKeyPointer(name: string, key: string)
    requires PlainKey(name) && PlainKey(key)
    ensures ParsePointer(PrinterPrefix(name) + key) == Ok(["printers", name, key])
  {
    var s := PrinterPrefix(name) + key;
    var parts := ["printers", name, key];
    assert s[1..] == Join(parts, '/') by {
      assert Join(parts[..2], '/') == "printers" + "/" + name by {
        assert parts[..2][..1] == ["printers"];
      }
      assert parts[..2] == ["printers", name];
    }
    SplitOfJoin(parts);
    UnescapeAllPlain(parts);
  }

  function PrinterPrefix(name: string): string
  {
    "/printers/" + name + "/"
  }

  // ---------------------------------------------------------------------
  // Typed reads
  // ---------------------------------------------------------------------

  /** The T of get<T>(). */
  datatype Want = WantString | WantInt | WantBool | WantJson

  /** get<T>() on one value: strings and booleans only convert from their
      own kind, json from anything; int also reads a boolean as 0 or 1 and
      narrows a number to 32 bits with static_cast. */
  function Convert(j: Json, want: Want): (r: Result<Json, ConfigError>)
    ensures want == WantJson ==> r == Ok(j)
    ensures want == WantString ==> (r.Ok? <==> j.JStr?) && (r.Ok? ==> r.value == j)
    ensures want == WantBool ==> (r.Ok? <==> j.JBool?) && (r.Ok? ==> r.value == j)
    ensures want == WantInt ==> (r.Ok? <==> j.JNum? || j.JBool?)
    ensures want == WantInt && r.Ok? ==> r.value.JNum? && -0x8000_0000 <= r.value.n < 0x8000_0000
    ensures want == WantInt && j.JNum? ==> (r.value.n - j.n) % U32 == 0
    ensures want == WantInt && j.JNum? && -0x8000_0000 <= j.n < 0x8000_0000 ==> r == Ok(j)
    ensures want == WantInt && j.JBool? ==> r == Ok(JNum(if j.b then 1 else 0))
    ensures j.JNull? ==> (r.Ok? <==> want == WantJson)
  {
    match want
    case WantJson => Ok(j)
    case WantString => if j.JStr? then Ok(j) else Err(WrongType("string"))
    case WantBool => if j.JBool? then Ok(j) else Err(WrongType("boolean"))
    case WantInt =>
      match j
      case JNum(n) => Ok(JNum(ToInt32(n)))
      case JBool(b) => Ok(JNum(if b then 1 else 0))
      case _ => Err(WrongType("number"))
  }

  /** get<int>() narrows: 2^32 + 1 reads as 1 and 2^31 as -2^31, while an
      in-range value reads as itself. */
  lemma IntReadNarrows()
    ensures Convert(JNum(0x1_0000_0001), WantInt) == Ok(JNum(1))
    ensures Convert(JNum(0x8000_0000), WantInt) == Ok(JNum(-0x8000_0000))
    ensures Convert(JNum(-1), WantInt) == Ok(JNum(-1))
  {
  }

  /** get<T>(ptr): a missing value reads as null, which only json accepts. */
  function Get(data: Json, pointer: string, want: Want): Result<Json, ConfigError>
  {
    match ParsePointer(pointer)
    case Err(e) => Err(e)
    case Ok(path) =>
      match GetPath(data, path)
      case None => Convert(JNull, want)
      case Some(x) => Convert(x, want)
  }

  /** get<T>(ptr, default): the default when the path is not contained. */
  function GetOr(data: Json, pointer: string, want: Want, default: Json): Result<Json, ConfigError>
  {
    match ParsePointer(pointer)
    case Err(e) => Err(e)
    case Ok(path) =>
      match GetPath(data, path)
      case None => Ok(default)
      case Some(x) => Convert(x, want)
  }

  /** A stored value is read back as it is, as json or as its own kind;
      a missing key, or a missing parent, fails for every kind but json,
      which reads null. */
  lemma GetStoredOrMissing(data: Json, path: seq<string>, want: Want)
    ensures var r := Get(data, PointerText(path), want);
      (GetPath(data, path).Some? ==> r == Convert(GetPath(data, path).value, want)) &&
      (GetPath(data, path).Some? && want == WantJson ==> r == Ok(GetPath(data, path).value)) &&
      (GetPath(data, path).None? ==> (r.Ok? <==> want == WantJson) && (r.Ok? ==> r.value == JNull))
  {
    PointerRoundTrip(path);
  }

  /** With a default, a stored value is read as without one, and a missing
      key or missing parent gives the default, on an empty store as well. */
  lemma GetOrStoredOrMissing(data: Json, path: seq<string>, want: Want, default: Json, k: nat)
    ensures var r := GetOr(data, PointerText(path), want, default);
      (GetPath(data, path).Some? ==> r == Get(data, PointerText(path), want)) &&
      (k <= |path| && GetPath(data, path[..k]).None? ==> r == Ok(default)) &&
      (|path| > 0 && (data == JNull || data == JObj([])) ==> r == Ok(default))
  {
    PointerRoundTrip(path);
    if k <= |path| && GetPath(data, path[..k]).None? {
      MissingParent(data, path, k);
    }
  }

  // ---------------------------------------------------------------------
  // The wizard rule
  // ---------------------------------------------------------------------

  /** The value a pointer text leads to; None when it does not parse. */
  function Resolve(data: Json, pointer: string): Option<Json>
  {
    match ParsePointer(pointer)
    case Err(_) => None
    case Ok(path) => GetPath(data, path)
  }

  /** is_wizard_required: the default printer's host is missing, null or
      the placeholder "127.0.0.1", or its hardware map is missing, null, or
      lacks a non-null heated bed or hotend. */
  function WizardRequired(data: Json, df: string): bool
  {
    var host := Resolve(data, df + "moonraker_host");
    if host.None? || host.value.JNull? || host.value == JStr("127.0.0.1") then true
    else
      var hw := Resolve(data, df + "hardware_map");
      if hw.None? || hw.value.JNull? then true
      else
        var bed := Member(hw.value, "heated_bed");
        var hotend := Member(hw.value, "hotend");
        bed.None? || bed.value.JNull? || hotend.None? || hotend.value.JNull?
  }

  /** For a printer prefix, the wizard is skipped exactly when the printer
      has a real host and a hardware map naming both the heated bed and
      the hotend. */
  lemma WizardRule(data: Json, name: string)
    requires PlainKey(name)
    ensures var base := ["printers", name];
      var host := GetPath(data, base + ["moonraker_host"]);
      var bed := GetPath(data, base + ["hardware_map", "heated_bed"]);
      var hotend := GetPath(data, base + ["hardware_map", "hotend"]);
      !WizardRequired(data, PrinterPrefix(name)) <==>
        host.Some? && !host.value.JNull? && host.value != JStr("127.0.0.1") &&
        bed.Some? && !bed.value.JNull? && hotend.Some? && !hotend.value.JNull?
  {
    var base := ["printers", name];
    PrinterKeyPointer(name, "moonraker_host");
    PrinterKeyPointer(name, "hardware_map");
    assert base + ["moonraker_host"] == ["printers", name, "moonraker_host"];
    var hwPath := base + ["hardware_map"];
    assert hwPath == ["printers", name, "hardware_map"];
    GetPathAppend(data, hwPath, "heated_bed");
    GetPathAppend(data, hwPath, "hotend");
    assert hwPath + ["heated_bed"] == base + ["hardware_map", "heated_bed"];
    assert hwPath + ["hotend"] == base + ["hardware_map", "hotend"];
  }

  /** Setting the printer's heated bed (or hotend) to null brings the wizard
      back, whatever the rest of the configuration says. */
  lemma NullingHardwareRequiresWizard(data: Json, name: string, part: string)
    requires WellFormed(data) && PlainKey(name) && (part == "heated_bed" || part == "hotend")
    requires SetPath(data, ["printers", name, "hardware_map", part], JNull).Ok?
    ensures WizardRequired(SetPath(data, ["printers", name, "hardware_map", part], JNull).value, PrinterPrefix(name))
  {
    var p := ["printers", name, "hardware_map", part];
    var d := SetPath(data, p, JNull).value;
    GetAfterSet(data, p, JNull);
    WizardRule(d, name);
    assert ["printers", name] + ["hardware_map", part] == p;
  }

  // ---------------------------------------------------------------------
  // The store
  // ---------------------------------------------------------------------

  /** Every plain key after a printer's prefix points into that printer. */
  lemma PrinterPrefixPointers(name: string)
    requires PlainKey(name)
    ensures forall key :: PlainKey(key) ==> ParsePointer(PrinterPrefix(name) + key) == Ok(["printers", name, key])
  {
    forall key | PlainKey(key) ensures ParsePointer(PrinterPrefix(name) + key) == Ok(["printers", name, key]) {
      PrinterKeyPointer(name, key);
    }
  }

  class Config {
    var data: Json
    var defaultPrinter: string
    ghost var printerName: string

    /** The tree is well formed, and the default printer is either unset or
        the prefix "/printers/<name>/" of a printer whose name needs no
        escaping. */
    ghost predicate Valid()
      reads this
    {
      WellFormed(data) &&
      (defaultPrinter == "" || (PlainKey(printerName) && defaultPrinter == PrinterPrefix(printerName)))
    }

    /** An empty store with no default printer. */
    constructor ()
      ensures Valid() && data == JNull && defaultPrinter == ""
    {
      data := JNull;
      defaultPrinter := "";
      printerName := "";
    }

    /** Choosing the default printer, as the test fixtures assign
        default_printer = "/printers/<name>/". */
    method SetDefaultPrinter(name: string)
      requires Valid() && PlainKey(name)
      modifies this
      ensures Valid() && data == old(data)
      ensures defaultPrinter == PrinterPrefix(name) && printerName == name
    {
      defaultPrinter := PrinterPrefix(name);
      printerName := name;
    }

    /** df(): the default printer's pointer prefix, so that df() + key
        points at that key of the default printer. */
    function Df(): (p: string)
      requires Valid()
      reads this
      ensures p == defaultPrinter
      ensures p != "" ==> forall key :: PlainKey(key) ==> ParsePointer(p + key) == Ok(["printers", printerName, key])
    {
      if defaultPrinter != "" then PrinterPrefixPointers(printerName); defaultPrinter else defaultPrinter
    }

    /** set<T>(ptr, value): on success the store is the written tree and
      the value is returned; a bad pointer or a non-object on the way
      leaves the store unchanged. */
    method Set(pointer: string, value: Json) returns (r: Result<Json, ConfigError>)
      requires Valid() && WellFormed(value)
      modifies this
      ensures Valid() && defaultPrinter == old(defaultPrinter) && printerName == old(printerName)
      ensures ParsePointer(pointer).Ok? && SetPath(old(data), ParsePointer(pointer).value, value).Ok? ==>
        r == Ok(value) && data == SetPath(old(data), ParsePointer(pointer).value, value).value
      ensures r.Err? ==> data == old(data)
      ensures r.Ok? ==> Get(data, pointer, WantJson) == Ok(value)
    {
      match ParsePointer(pointer)
      case Err(e) =>
        r := Err(e);
      case Ok(path) =>
        match SetPath(data, path, value)
        case Err(e) =>
          r := Err(e);
        case Ok(d) =>
          GetAfterSet(data, path, value);
          data := d;
          r := Ok(value);
    }

    /** is_wizard_required on the store's own default printer. */
    predicate IsWizardRequired()
      reads this
    {
      WizardRequired(data, defaultPrinter)
    }
  }
}
