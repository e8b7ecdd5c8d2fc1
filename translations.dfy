/** The translation files the maintenance scripts work on. Each YAML file is
    reduced to its file name and stem, its optional `locale` field, its
    `translations` mapping (None when the field is null) and the comments
    attached to its keys. The mapping is a list of key/value pairs in the
    order a Python dict keeps them, with distinct keys. */
module Translations {
  import opened Common

  type Entries = seq<(string, string)>

  predicate DistinctKeys(l: Entries)
  {
    forall i, j :: 0 <= i < j < |l| ==> l[i].0 != l[j].0
  }

  datatype YamlFile = YamlFile(
    name: string,
    stem: string,
    locale: Option<string>,
    translations: Option<Entries>,
    comments: map<string, string>)

  predicate ValidFile(f: YamlFile)
  {
    f.translations.Some? ==> DistinctKeys(f.translations.value)
  }

  predicate ValidFiles(files: seq<YamlFile>)
  {
    forall i :: 0 <= i < |files| ==> ValidFile(files[i])
  }

  /** `data.get("locale", path.stem)`. */
  function LocaleOf(f: YamlFile): string
  {
    if f.locale.Some? then f.locale.value else f.stem
  }

  /** The translations, with a null or absent mapping read as empty. */
  function EntriesOf(f: YamlFile): (l: Entries)
    ensures ValidFile(f) ==> DistinctKeys(l)
  {
    if f.translations.Some? then f.translations.value else []
  }

  /** The file called `<baseLocale>.yml`, searched from position `from`. */
  function FindNamed(files: seq<YamlFile>, name: string, from: nat): (r: Option<nat>)
    requires from <= |files|
    ensures r.Some? ==> (from <= r.value < |files| && files[r.value].name == name &&
      forall j :: from <= j < r.value ==> files[j].name != name)
    ensures r.None? ==> forall j :: from <= j < |files| ==> files[j].name != name
    decreases |files| - from
  {
    if from == |files| then None
    else if files[from].name == name then Some(from)
    else FindNamed(files, name, from + 1)
  }

  /** `base_path.exists()` for `yaml_dir / f"{base_locale}.yml"`. */
  function BaseIndex(files: seq<YamlFile>, baseLocale: string): Option<nat>
  {
    FindNamed(files, baseLocale + ".yml", 0)
  }

  /** `translations.get(key, d)`. */
  function ValueOr(l: Entries, key: string, d: string): string
    decreases |l|
  {
    if |l| == 0 then d else if l[0].0 == key then l[0].1 else ValueOr(l[1..], key, d)
  }

  /** Python's str.isspace(), the characters str.strip() removes: the ASCII
      controls 9..13 and 28..31, the space, NEL, the no-break space, and the
      Unicode space separators, line and paragraph separators. */
  predicate PyIsSpace(c: char)
  {
    var n := c as int;
    (9 <= n <= 13) || (0x1C <= n <= 0x20) || n == 0x85 || n == 0xA0 || n == 0x1680 ||
    (0x2000 <= n <= 0x200A) || n == 0x2028 || n == 0x2029 || n == 0x202F || n == 0x205F || n == 0x3000
  }

  /** Python truthiness of `str(value).strip()`: some character is not
      white space. */
  predicate NonBlank(v: string)
  {
    exists i :: 0 <= i < |v| && !PyIsSpace(v[i])
  }

  /** Values made only of Unicode white space, such as a no-break space or
      an ideographic space, strip to "" and so count as blank. */
  lemma UnicodeSpaceIsBlank()
    ensures !NonBlank("\U{A0}") && !NonBlank("\U{3000} \U{2003}") && !NonBlank("\t\U{1C}")
    ensures NonBlank("\U{A0}x")
  {
    assert "\U{A0}x"[1] == 'x';
  }

  lemma {:induction false} KeySetAppend(l: Entries, p: (string, string))
    ensures KeySet(l + [p]) == KeySet(l) + {p.0}
  {
    var r := l + [p];
    assert r[|l|].0 == p.0;
    forall x | x in KeySet(r) ensures x in KeySet(l) + {p.0} {
      var i :| 0 <= i < |r| && r[i].0 == x;
      if i < |l| { assert l[i].0 == x; }
    }
    forall x | x in KeySet(l) ensures x in KeySet(r) {
      var i :| 0 <= i < |l| && l[i].0 == x;
      assert r[i].0 == x;
    }
  }

  /** Adding a new key at the end: its value is found, nothing else moves. */
  lemma {:induction false} LookupAppend(l: Entries, p: (string, string), x: string)
    requires p.0 !in KeySet(l)
    ensures Lookup(l + [p], x) == if x in KeySet(l) then Lookup(l, x) else if x == p.0 then Some(p.1) else None
  {
    if |l| == 0 {
      assert [] + [p] == [p];
    } else {
      KeySetCons(l[0], l[1..]);
      assert l == [l[0]] + l[1..];
      assert (l + [p])[1..] == l[1..] + [p];
      if l[0].0 != x {
        LookupAppend(l[1..], p, x);
      }
    }
  }

  lemma DistinctAppend(l: Entries, p: (string, string))
    requires DistinctKeys(l) && p.0 !in KeySet(l)
    ensures DistinctKeys(l + [p])
  {
    var r := l + [p];
    forall i, j | 0 <= i < j < |r| ensures r[i].0 != r[j].0 {
      if j == |l| {
        assert r[i].0 in KeySet(l) by { assert l[i] == r[i]; }
      }
    }
  }

  /** In a list with distinct keys each pair is what its key looks up. */
  lemma {:induction false} LookupDistinct(l: Entries, i: nat)
    requires DistinctKeys(l) && i < |l|
    ensures Lookup(l, l[i].0) == Some(l[i].1)
  {
    if i > 0 {
      LookupDistinct(l[1..], i - 1);
    }
  }

  /** The first key of a list with distinct keys does not occur again. */
  lemma DistinctHead(l: Entries)
    requires DistinctKeys(l) && |l| > 0
    ensures DistinctKeys(l[1..]) && l[0].0 !in KeySet(l[1..])
  {
    forall i | 0 <= i < |l[1..]| ensures l[1..][i].0 != l[0].0 {
      assert l[1..][i] == l[i + 1];
    }
  }

  lemma HeadInKeySet<V>(l: seq<(string, V)>)
    ensures |l| > 0 ==> l[0].0 in KeySet(l)
  {
  }

  /** Distinct keys: as many keys as pairs. */
  lemma {:induction false} DistinctCard(l: Entries)
    requires DistinctKeys(l)
    ensures |KeySet(l)| == |l|
  {
    if |l| > 0 {
      DistinctHead(l);
      DistinctCard(l[1..]);
      KeySetCons(l[0], l[1..]);
      assert l == [l[0]] + l[1..];
    }
  }

  /** The keys of `keys` that `l` does not have. */
  function MissingKeys(l: Entries, keys: set<string>): set<string>
    decreases |l|
  {
    if |l| == 0 then keys else MissingKeys(l[1..], keys - {l[0].0})
  }

  lemma {:induction false} MissingKeysIs(l: Entries, keys: set<string>)
    ensures MissingKeys(l, keys) == keys - KeySet(l)
    decreases |l|
  {
    if |l| > 0 {
      MissingKeysIs(l[1..], keys - {l[0].0});
      KeySetCons(l[0], l[1..]);
      assert l == [l[0]] + l[1..];
    }
  }
}
