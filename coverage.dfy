/** Translation coverage: for every locale, how many of the base file's keys
    have a non-blank value, and which base keys are still missing. */
module Coverage {
  import opened Common
  import opened Translations

  /** The per-locale statistics; the percentage entry is given by
      `Percentage(translated, total)`. */
  datatype LanguageStats = LanguageStats(total: nat, translated: nat, missing: nat)

  /** The base file of calculate_coverage: the locale's own file, else the
      first file of the directory, else none. */
  function CoverageBase(files: seq<YamlFile>, baseLocale: string): (r: Option<YamlFile>)
    ensures r.None? <==> |files| == 0
    ensures BaseIndex(files, baseLocale).Some? ==> r == Some(files[BaseIndex(files, baseLocale).value])
    ensures BaseIndex(files, baseLocale).None? && |files| > 0 ==> r == Some(files[0])
  {
    match BaseIndex(files, baseLocale)
    case Some(i) => Some(files[i])
    case None => if |files| == 0 then None else Some(files[0])
  }

  /** The first `n` base keys whose value in `tr` is blank (`wanted` false)
      or not (`wanted` true), in the base file's order. */
  function KeysWhere(base: Entries, tr: Entries, n: nat, wanted: bool): (r: seq<string>)
    requires n <= |base|
    ensures |r| <= n
  {
    if n == 0 then []
    else
      var p := KeysWhere(base, tr, n - 1, wanted);
      if NonBlank(ValueOr(tr, base[n - 1].0, "")) == wanted then p + [base[n - 1].0] else p
  }

  /** The base keys translated in the file. */
  function TranslatedKeys(base: Entries, f: YamlFile): seq<string>
  {
    KeysWhere(base, EntriesOf(f), |base|, true)
  }

  /** The base keys missing from the file: absent, empty or white space. */
  function MissingList(base: Entries, f: YamlFile): seq<string>
  {
    KeysWhere(base, EntriesOf(f), |base|, false)
  }

  /** `translated / total * 100`, and 100 when there is nothing to translate. */
  function Percentage(translated: nat, total: nat): real
  {
    if total > 0 then (translated as real) / (total as real) * 100.0 else 100.0
  }

  /** The statistics one file contributes. */
  function StatsFor(f: YamlFile, baseLocale: string, base: Entries): LanguageStats
  {
    if LocaleOf(f) == baseLocale then LanguageStats(|base|, |base|, 0)
    else
      var t := |TranslatedKeys(base, f)|;
      LanguageStats(|base|, t, |base| - t)
  }

  /** The locale of each file, in directory order. */
  function Locales(files: seq<YamlFile>): (r: seq<string>)
    ensures |r| == |files| && forall i :: 0 <= i < |files| ==> r[i] == LocaleOf(files[i])
  {
    seq(|files|, i requires 0 <= i < |files| => LocaleOf(files[i]))
  }

  /** A dict filled in order: entry `i` stores `vals[i]` under `locs[i]`
      when there is a value, replacing what an earlier entry stored there. */
  function Collect<V>(locs: seq<string>, vals: seq<Option<V>>, n: nat): map<string, V>
    requires n <= |locs| == |vals|
  {
    if n == 0 then map[]
    else
      var m := Collect(locs, vals, n - 1);
      match vals[n - 1]
      case None => m
      case Some(v) => m[locs[n - 1] := v]
  }

  /** The statistics of each file. */
  function CoverageVals(files: seq<YamlFile>, baseLocale: string, base: Entries): (r: seq<Option<LanguageStats>>)
    ensures |r| == |files| && forall i :: 0 <= i < |files| ==> r[i] == Some(StatsFor(files[i], baseLocale, base))
  {
    seq(|files|, i requires 0 <= i < |files| => Some(StatsFor(files[i], baseLocale, base)))
  }

  /** What calculate_coverage returns. */
  function CalculatedCoverage(files: seq<YamlFile>, baseLocale: string): map<string, LanguageStats>
  {
    match CoverageBase(files, baseLocale)
    case None => map[]
    case Some(b) => Collect(Locales(files), CoverageVals(files, baseLocale, EntriesOf(b)), |files|)
  }

  /** `sorted(...)` of a list of strings. */
  function SortStrings(ks: seq<string>): seq<string>
  {
    if |ks| == 0 then [] else InsertSorted(SortStrings(ks[..|ks| - 1]), ks[|ks| - 1])
  }

  /** What get_missing_translations stores for one file: nothing for the
      base locale or a file that misses nothing, else its sorted list. */
  function Listed(f: YamlFile, baseLocale: string, base: Entries): Option<seq<string>>
  {
    if LocaleOf(f) == baseLocale then None
    else
      var ms := MissingList(base, f);
      if |ms| > 0 then Some(SortStrings(ms)) else None
  }

  function MissingVals(files: seq<YamlFile>, baseLocale: string, base: Entries): (r: seq<Option<seq<string>>>)
    ensures |r| == |files| && forall i :: 0 <= i < |files| ==> r[i] == Listed(files[i], baseLocale, base)
  {
    seq(|files|, i requires 0 <= i < |files| => Listed(files[i], baseLocale, base))
  }

  /** What get_missing_translations returns: nothing without the base
      locale's own file or when it has no keys. */
  function MissingTranslations(files: seq<YamlFile>, baseLocale: string): map<string, seq<string>>
  {
    match BaseIndex(files, baseLocale)
    case None => map[]
    case Some(i) =>
      var base := EntriesOf(files[i]);
      if |base| == 0 then map[] else Collect(Locales(files), MissingVals(files, baseLocale, base), |files|)
  }

  // ---------------------------------------------------------------------
  // The loops
  // ---------------------------------------------------------------------

  /** The `translated` counter of calculate_coverage for one file. */
  method CountTranslated(base: Entries, f: YamlFile) returns (translated: nat)
    ensures translated == |TranslatedKeys(base, f)|
  {
    translated := 0;
    var tr := EntriesOf(f);
    if |tr| > 0 {
      var i := 0;
      while i < |base|
        invariant 0 <= i <= |base|
        invariant translated == |KeysWhere(base, tr, i, true)|
      {
        var value := ValueOr(tr, base[i].0, "");
        if NonBlank(value) {
          translated := translated + 1;
        }
        i := i + 1;
      }
    } else {
      NothingTranslated(base, tr, |base|);
    }
  }

  /** calculate_coverage over the files of the directory, in `files` order. */
  method CalculateCoverage(files: seq<YamlFile>, baseLocale: string) returns (result: map<string, LanguageStats>)
    ensures result == CalculatedCoverage(files, baseLocale)
  {
    result := map[];
    var baseFile := CoverageBase(files, baseLocale);
    if baseFile.None? {
      return;
    }
    var base := EntriesOf(baseFile.value);
    ghost var locs, vals := Locales(files), CoverageVals(files, baseLocale, base);
    result := CoveragePerFile(files, baseLocale, base, locs, vals);
  }

  /** The loop of calculate_coverage, once the base keys are known: `locs`
      and `vals` are the locale and the statistics of each file. */
  method CoveragePerFile(files: seq<YamlFile>, baseLocale: string, base: Entries,
                         ghost locs: seq<string>, ghost vals: seq<Option<LanguageStats>>)
    returns (result: map<string, LanguageStats>)
    requires |locs| == |vals| == |files|
    requires forall j :: 0 <= j < |files| ==> locs[j] == LocaleOf(files[j])
    requires forall j :: 0 <= j < |files| ==> vals[j] == Some(StatsFor(files[j], baseLocale, base))
    ensures result == Collect(locs, vals, |files|)
  {
    result := map[];
    var i := 0;
    while i < |files|
      invariant 0 <= i <= |files|
      invariant result == Collect(locs, vals, i)
    {
      var f := files[i];
      var stats := LocaleStats(f, baseLocale, base);
      CollectStep(locs, vals, i, result);
      result := result[LocaleOf(f) := stats];
      i := i + 1;
    }
  }

  /** The body of calculate_coverage's loop: the statistics of one file. */
  method LocaleStats(f: YamlFile, baseLocale: string, base: Entries) returns (stats: LanguageStats)
    ensures stats == StatsFor(f, baseLocale, base)
  {
    var total := |base|;
    if LocaleOf(f) == baseLocale {
      stats := LanguageStats(total, total, 0);
    } else {
      var translated := CountTranslated(base, f);
      var missing := total - translated;
      stats := LanguageStats(total, translated, missing);
    }
  }

  /** The `missing` list of get_missing_translations for one file. */
  method CollectMissing(base: Entries, f: YamlFile) returns (missing: seq<string>)
    ensures missing == MissingList(base, f)
  {
    missing := [];
    var tr := EntriesOf(f);
    var i := 0;
    while i < |base|
      invariant 0 <= i <= |base|
      invariant missing == KeysWhere(base, tr, i, false)
    {
      var value := if |tr| > 0 then ValueOr(tr, base[i].0, "") else "";
      if !NonBlank(value) {
        missing := missing + [base[i].0];
      }
      i := i + 1;
    }
  }

  /** get_missing_translations over the files of the directory. */
  method GetMissingTranslations(files: seq<YamlFile>, baseLocale: string) returns (result: map<string, seq<string>>)
    ensures result == MissingTranslations(files, baseLocale)
  {
    result := map[];
    var bi := BaseIndex(files, baseLocale);
    if bi.None? {
      return;
    }
    var base := EntriesOf(files[bi.value]);
    if |base| == 0 {
      return;
    }
    ghost var locs, vals := Locales(files), MissingVals(files, baseLocale, base);
    result := MissingPerFile(files, baseLocale, base, locs, vals);
  }

  /** The loop of get_missing_translations, once the base keys are known:
      `locs` and `vals` are the locale and the listing of each file. */
  method MissingPerFile(files: seq<YamlFile>, baseLocale: string, base: Entries,
                        ghost locs: seq<string>, ghost vals: seq<Option<seq<string>>>)
    returns (result: map<string, seq<string>>)
    requires |locs| == |vals| == |files|
    requires forall j :: 0 <= j < |files| ==> locs[j] == LocaleOf(files[j])
    requires forall j {:trigger Listed(files[j], baseLocale, base)} :: 0 <= j < |files| ==> vals[j] == Listed(files[j], baseLocale, base)
    ensures result == Collect(locs, vals, |files|)
  {
    result := map[];
    var i := 0;
    while i < |files|
      invariant 0 <= i <= |files|
      invariant result == Collect(locs, vals, i)
    {
      var f := files[i];
      var listed := LocaleMissing(files, i, baseLocale, base, vals);
      CollectStep(locs, vals, i, result);
      if listed.Some? {
        result := result[LocaleOf(f) := listed.value];
      }
      i := i + 1;
    }
  }

  /** The body of get_missing_translations' loop: the sorted missing keys
      of file `i`, None when the file is skipped or misses nothing; `vals`
      holds what each file contributes. */
  method LocaleMissing(files: seq<YamlFile>, i: nat, baseLocale: string, base: Entries, ghost vals: seq<Option<seq<string>>>)
    returns (listed: Option<seq<string>>)
    requires i < |files| == |vals|
    requires forall j {:trigger Listed(files[j], baseLocale, base)} :: 0 <= j < |files| ==> vals[j] == Listed(files[j], baseLocale, base)
    ensures listed == vals[i]
  {
    var f := files[i];
    assert vals[i] == Listed(f, baseLocale, base);
    listed := None;
    var locale := LocaleOf(f);
    if locale != baseLocale {
      var missing := CollectMissing(base, f);
      if |missing| > 0 {
        listed := Some(SortStrings(missing));
      }
    }
  }

  // ---------------------------------------------------------------------
  // What the results mean
  // ---------------------------------------------------------------------

  /** One more entry of the dict being filled. */
  lemma CollectStep<V>(locs: seq<string>, vals: seq<Option<V>>, i: nat, m: map<string, V>)
    requires i < |locs| == |vals| && m == Collect(locs, vals, i)
    ensures Collect(locs, vals, i + 1) == if vals[i].Some? then m[locs[i] := vals[i].value] else m
  {
  }

  /** The dict holds exactly the locales of the entries with a value. */
  lemma {:induction false} CollectKeys<V>(locs: seq<string>, vals: seq<Option<V>>, n: nat, l: string)
    requires n <= |locs| == |vals|
    ensures l in Collect(locs, vals, n) <==> exists i :: 0 <= i < n && locs[i] == l && vals[i].Some?
  {
    if n > 0 {
      CollectKeys(locs, vals, n - 1, l);
      if exists i :: 0 <= i < n && locs[i] == l && vals[i].Some? {
        var i :| 0 <= i < n && locs[i] == l && vals[i].Some?;
        if i < n - 1 {
          assert exists i :: 0 <= i < n - 1 && locs[i] == l && vals[i].Some?;
        }
      }
    }
  }

  /** Each stored value is the value of an entry of its locale. */
  lemma {:induction false} CollectFrom<V>(locs: seq<string>, vals: seq<Option<V>>, n: nat, l: string) returns (i: nat)
    requires n <= |locs| == |vals| && l in Collect(locs, vals, n)
    ensures i < n && locs[i] == l && vals[i] == Some(Collect(locs, vals, n)[l])
  {
    if vals[n - 1].Some? && locs[n - 1] == l {
      i := n - 1;
    } else {
      i := CollectFrom(locs, vals, n - 1, l);
    }
  }

  /** The last entry with a value for a locale decides what is stored. */
  lemma {:induction false} CollectLast<V>(locs: seq<string>, vals: seq<Option<V>>, n: nat, i: nat)
    requires i < n <= |locs| == |vals| && vals[i].Some?
    requires forall j :: i < j < n ==> locs[j] != locs[i]
    ensures locs[i] in Collect(locs, vals, n) && Collect(locs, vals, n)[locs[i]] == vals[i].value
  {
    if i < n - 1 {
      CollectLast(locs, vals, n - 1, i);
    }
  }

  /** A file without translations translates nothing. */
  lemma {:induction false} NothingTranslated(base: Entries, tr: Entries, n: nat)
    requires n <= |base| && |tr| == 0
    ensures KeysWhere(base, tr, n, true) == []
  {
    if n > 0 {
      NothingTranslated(base, tr, n - 1);
      assert ValueOr(tr, base[n - 1].0, "") == "";
    }
  }

  /** Every base key is either translated or missing, never both. */
  lemma {:induction false} KeysPartition(base: Entries, tr: Entries, n: nat)
    requires n <= |base|
    ensures |KeysWhere(base, tr, n, true)| + |KeysWhere(base, tr, n, false)| == n
  {
    if n > 0 {
      KeysPartition(base, tr, n - 1);
    }
  }

  /** The selected keys are exactly the first `n` base keys whose value has
      the wanted blankness. */
  lemma {:induction false} KeysWhereMembers(base: Entries, tr: Entries, n: nat, wanted: bool, x: string)
    requires n <= |base|
    ensures x in KeysWhere(base, tr, n, wanted) <==>
      (exists j :: 0 <= j < n && base[j].0 == x) && NonBlank(ValueOr(tr, x, "")) == wanted
  {
    if n > 0 {
      KeysWhereMembers(base, tr, n - 1, wanted, x);
      var p := KeysWhere(base, tr, n - 1, wanted);
      if NonBlank(ValueOr(tr, base[n - 1].0, "")) == wanted {
        assert KeysWhere(base, tr, n, wanted) == p + [base[n - 1].0];
      } else {
        assert KeysWhere(base, tr, n, wanted) == p;
      }
      if base[n - 1].0 == x {
        assert exists j :: 0 <= j < n && base[j].0 == x;
      } else if exists j :: 0 <= j < n && base[j].0 == x {
        var j :| 0 <= j < n && base[j].0 == x;
        assert j < n - 1;
      }
    }
  }

  /** The translated keys of a file are the base keys it gives a non-blank
      value, the missing ones the base keys it has no such value for; the
      two counts make up the base. */
  lemma TranslatedAndMissing(base: Entries, f: YamlFile)
    ensures forall x :: x in TranslatedKeys(base, f) <==> x in KeySet(base) && NonBlank(ValueOr(EntriesOf(f), x, ""))
    ensures forall x :: x in MissingList(base, f) <==> x in KeySet(base) && !NonBlank(ValueOr(EntriesOf(f), x, ""))
    ensures |TranslatedKeys(base, f)| + |MissingList(base, f)| == |base|
  {
    forall x ensures x in TranslatedKeys(base, f) <==> x in KeySet(base) && NonBlank(ValueOr(EntriesOf(f), x, "")) {
      KeysWhereMembers(base, EntriesOf(f), |base|, true, x);
    }
    forall x ensures x in MissingList(base, f) <==> x in KeySet(base) && !NonBlank(ValueOr(EntriesOf(f), x, "")) {
      KeysWhereMembers(base, EntriesOf(f), |base|, false, x);
    }
    KeysPartition(base, EntriesOf(f), |base|);
  }

  /** An exact percentage lies between 0 and 100 and is 100 exactly when
      everything is translated. */
  lemma PercentageRange(translated: nat, total: nat)
    requires translated <= total
    ensures 0.0 <= Percentage(translated, total) <= 100.0
    ensures Percentage(translated, total) == 100.0 <==> translated == total
  {
    if total > 0 {
      var q := (translated as real) / (total as real);
      assert q * (total as real) == translated as real;
      assert 0.0 <= q <= 1.0;
      if q == 1.0 {
        assert translated as real == total as real;
      }
    }
  }

  /** The statistics of one file: the total is the base's key count, the
      counts add up, the base locale is complete by definition, and another
      locale counts exactly its non-blank base keys. */
  lemma StatsMeaning(f: YamlFile, baseLocale: string, base: Entries)
    ensures var s := StatsFor(f, baseLocale, base);
      s.total == |base| && s.translated <= s.total && s.missing == s.total - s.translated
    ensures LocaleOf(f) == baseLocale ==> StatsFor(f, baseLocale, base).missing == 0
    ensures LocaleOf(f) != baseLocale ==>
      StatsFor(f, baseLocale, base).translated == |TranslatedKeys(base, f)| &&
      StatsFor(f, baseLocale, base).missing == |MissingList(base, f)|
  {
    TranslatedAndMissing(base, f);
  }

  /** calculate_coverage: nothing for an empty directory; otherwise one
      entry per locale of the files, each the statistics of a file of that
      locale against the base file's keys, the base locale complete. */
  lemma CoverageMeaning(files: seq<YamlFile>, baseLocale: string, l: string)
    ensures |files| == 0 ==> CalculatedCoverage(files, baseLocale) == map[]
    ensures |files| > 0 ==>
      (l in CalculatedCoverage(files, baseLocale) <==> exists i :: 0 <= i < |files| && LocaleOf(files[i]) == l)
    ensures l in CalculatedCoverage(files, baseLocale) ==>
      var base := EntriesOf(CoverageBase(files, baseLocale).value);
      exists i :: 0 <= i < |files| && LocaleOf(files[i]) == l &&
        CalculatedCoverage(files, baseLocale)[l] == StatsFor(files[i], baseLocale, base)
    ensures baseLocale in CalculatedCoverage(files, baseLocale) ==>
      var s := CalculatedCoverage(files, baseLocale)[baseLocale];
      s.translated == s.total && s.missing == 0
  {
    if |files| > 0 {
      var base := EntriesOf(CoverageBase(files, baseLocale).value);
      var locs, vals := Locales(files), CoverageVals(files, baseLocale, base);
      CollectKeys(locs, vals, |files|, l);
      if exists i :: 0 <= i < |files| && LocaleOf(files[i]) == l {
        var i :| 0 <= i < |files| && LocaleOf(files[i]) == l;
        assert locs[i] == l && vals[i].Some?;
      }
      if l in CalculatedCoverage(files, baseLocale) {
        var i := CollectFrom(locs, vals, |files|, l);
        assert LocaleOf(files[i]) == l;
      }
      if baseLocale in CalculatedCoverage(files, baseLocale) {
        var i := CollectFrom(locs, vals, |files|, baseLocale);
        assert LocaleOf(files[i]) == baseLocale;
      }
    }
  }

  /** The last file of a locale decides its statistics. */
  lemma CoverageLast(files: seq<YamlFile>, baseLocale: string, i: nat)
    requires i < |files| && forall j :: i < j < |files| ==> LocaleOf(files[j]) != LocaleOf(files[i])
    ensures LocaleOf(files[i]) in CalculatedCoverage(files, baseLocale)
    ensures CalculatedCoverage(files, baseLocale)[LocaleOf(files[i])] ==
      StatsFor(files[i], baseLocale, EntriesOf(CoverageBase(files, baseLocale).value))
  {
    var base := EntriesOf(CoverageBase(files, baseLocale).value);
    var locs, vals := Locales(files), CoverageVals(files, baseLocale, base);
    CollectLast(locs, vals, |files|, i);
  }

  /** Sorting yields an ascending, duplicate-free listing of exactly the
      listed strings. */
  lemma {:induction false} SortStringsMembers(ks: seq<string>)
    ensures StrictlySorted(SortStrings(ks))
    ensures forall x :: x in SortStrings(ks) <==> x in ks
  {
    if |ks| > 0 {
      SortStringsMembers(ks[..|ks| - 1]);
      InsertSortedSorted(SortStrings(ks[..|ks| - 1]), ks[|ks| - 1]);
      assert ks == ks[..|ks| - 1] + [ks[|ks| - 1]];
    }
  }

  /** A missing-keys list: sorted, not empty, and holding exactly the base
      keys the file has no non-blank value for. */
  ghost predicate MissingListFor(ks: seq<string>, f: YamlFile, base: Entries)
  {
    StrictlySorted(ks) && |ks| > 0 &&
    forall x :: x in ks <==> x in KeySet(base) && !NonBlank(ValueOr(EntriesOf(f), x, ""))
  }

  /** What one file contributes, when it contributes. */
  lemma ListedMeaning(f: YamlFile, baseLocale: string, base: Entries)
    ensures Listed(f, baseLocale, base).Some? <==> LocaleOf(f) != baseLocale && |MissingList(base, f)| > 0
    ensures Listed(f, baseLocale, base).Some? ==> MissingListFor(Listed(f, baseLocale, base).value, f, base)
  {
    TranslatedAndMissing(base, f);
    SortStringsMembers(MissingList(base, f));
  }

  /** get_missing_translations: nothing without the base locale's own file
      or when it has no keys; otherwise each listed locale is a non-base
      locale of a file whose missing keys its sorted list holds. */
  lemma MissingTranslationsMeaning(files: seq<YamlFile>, baseLocale: string, l: string)
    ensures BaseIndex(files, baseLocale).None? ==> MissingTranslations(files, baseLocale) == map[]
    ensures BaseIndex(files, baseLocale).Some? && |EntriesOf(files[BaseIndex(files, baseLocale).value])| == 0 ==>
      MissingTranslations(files, baseLocale) == map[]
    ensures l in MissingTranslations(files, baseLocale) ==>
      var base := EntriesOf(files[BaseIndex(files, baseLocale).value]);
      l != baseLocale &&
      exists i :: 0 <= i < |files| && LocaleOf(files[i]) == l && MissingListFor(MissingTranslations(files, baseLocale)[l], files[i], base)
  {
    if l in MissingTranslations(files, baseLocale) {
      var base := EntriesOf(files[BaseIndex(files, baseLocale).value]);
      var locs, vals := Locales(files), MissingVals(files, baseLocale, base);
      var i := CollectFrom(locs, vals, |files|, l);
      ListedMeaning(files[i], baseLocale, base);
      assert LocaleOf(files[i]) == l;
    }
  }

  /** Every non-base file with a missing key has its locale listed. */
  lemma MissingComplete(files: seq<YamlFile>, baseLocale: string, i: nat)
    requires i < |files| && BaseIndex(files, baseLocale).Some?
    requires var base := EntriesOf(files[BaseIndex(files, baseLocale).value]);
      |base| > 0 && LocaleOf(files[i]) != baseLocale && |MissingList(base, files[i])| > 0
    ensures LocaleOf(files[i]) in MissingTranslations(files, baseLocale)
  {
    var base := EntriesOf(files[BaseIndex(files, baseLocale).value]);
    var locs, vals := Locales(files), MissingVals(files, baseLocale, base);
    ListedMeaning(files[i], baseLocale, base);
    CollectKeys(locs, vals, |files|, LocaleOf(files[i]));
  }
}
