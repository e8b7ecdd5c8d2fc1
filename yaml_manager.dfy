/** Merging newly extracted keys into every translation file: a key is only
    ever added, never overwritten, with the key itself as the English text
    and an empty string elsewhere; a file that gains keys is written back
    with its keys in ascending order, unless this is a dry run. */
module TranslationMerge {
  import opened Common
  import opened Translations

  datatype MergeResult = MergeResult(keysAdded: nat, filesModified: nat, keysPerFile: map<string, nat>)

  /** What happens to the comments of a file's translations mapping when it
      is written back: as the code is written, `dict(sorted(...))` replaces the
      ruamel.yaml mapping with a plain dict and every comment is dropped; the
      evidently intended behaviour keeps them. */
  datatype CommentHandling = DroppedBySort | Kept

  /** A file as it is written back. */
  datatype SavedFile = SavedFile(name: string, translations: Entries, comments: map<string, string>)

  /** The value a newly added key gets. */
  function AddedValue(locale: string, key: string): string
  {
    if locale == "en" then key else ""
  }

  /** `dict(sorted(translations.items()))`: the same pairs by ascending key. */
  function SortEntries(l: Entries): (r: Entries)
    requires DistinctKeys(l)
    ensures KeysAscending(r)
  {
    if |l| == 0 then []
    else
      DistinctHead(l);
      InsertNew(SortEntries(l[1..]), l[0].0, l[0].1)
  }

  /** Sorting keeps every pair: the same keys, each with its value. */
  lemma {:induction false} SortEntriesSame(l: Entries)
    requires DistinctKeys(l)
    ensures KeySet(SortEntries(l)) == KeySet(l)
    ensures forall x :: Lookup(SortEntries(l), x) == Lookup(l, x)
  {
    if |l| > 0 {
      DistinctHead(l);
      SortEntriesSame(l[1..]);
      KeySetCons(l[0], l[1..]);
      assert l == [l[0]] + l[1..];
    }
  }

  /** `out` is the merge of `newKeys` into `entries`: ascending keys, the
      old keys with their old values, and each new key with its added
      value. */
  ghost predicate IsMergeOf(out: Entries, entries: Entries, newKeys: set<string>, locale: string)
  {
    KeysAscending(out) && AddedAll(out, entries, newKeys, locale)
  }

  /** Two ascending lists that look up alike are the same list. */
  lemma {:induction false} AscendingUnique(a: Entries, b: Entries)
    requires KeysAscending(a) && KeysAscending(b)
    requires forall x :: Lookup(a, x) == Lookup(b, x)
    ensures a == b
  {
    assert KeySet(a) == KeySet(b) by {
      forall x ensures x in KeySet(a) <==> x in KeySet(b) {
        assert Lookup(a, x) == Lookup(b, x);
      }
    }
    HeadInKeySet(a);
    HeadInKeySet(b);
    if |a| > 0 {
      var ka, kb := a[0].0, b[0].0;
      if ka != kb {
        assert ka in KeySet(b);
        var j :| 0 <= j < |b| && b[j].0 == ka;
        assert kb in KeySet(a);
        var i :| 0 <= i < |a| && a[i].0 == kb;
        StrLtAsymmetric(ka, kb);
      }
      assert Lookup(a, ka) == Some(a[0].1) && Lookup(b, kb) == Some(b[0].1);
      forall x ensures Lookup(a[1..], x) == Lookup(b[1..], x) {
        if x == ka {
          NotInTail(a);
          NotInTail(b);
        } else {
          assert Lookup(a, x) == Lookup(a[1..], x);
          assert Lookup(b, x) == Lookup(b[1..], x);
        }
      }
      AscendingUnique(a[1..], b[1..]);
      assert a == [a[0]] + a[1..] && b == [b[0]] + b[1..];
    }
  }

  /** The first key of an ascending list does not occur again. */
  lemma NotInTail(a: Entries)
    requires KeysAscending(a) && |a| > 0
    ensures a[0].0 !in KeySet(a[1..])
  {
    if a[0].0 in KeySet(a[1..]) {
      var i :| 0 <= i < |a[1..]| && a[1..][i].0 == a[0].0;
      assert StrLt(a[0].0, a[i + 1].0);
      StrLtIrreflexive(a[0].0);
    }
  }

  /** The merged file is fully determined by the old file and the key set,
      so the order in which the set is visited does not matter. */
  lemma MergeIsDetermined(out1: Entries, out2: Entries, entries: Entries, newKeys: set<string>, locale: string)
    requires IsMergeOf(out1, entries, newKeys, locale) && IsMergeOf(out2, entries, newKeys, locale)
    ensures out1 == out2
  {
    AscendingUnique(out1, out2);
  }

  /** The keys `keys` added to an ascending list, each absent key with its
      added value. */
  ghost function AddKeys(base: Entries, keys: set<string>, locale: string): (r: Entries)
    requires KeysAscending(base)
    ensures KeysAscending(r)
    decreases |keys|
  {
    if keys == {} then base
    else
      var k :| k in keys;
      InsertNew(AddKeys(base, keys - {k}, locale), k, AddedValue(locale, k))
  }

  lemma {:induction false} AddKeysAll(base: Entries, keys: set<string>, locale: string)
    requires KeysAscending(base)
    ensures AddedAll(AddKeys(base, keys, locale), base, keys, locale)
    decreases |keys|
  {
    if keys == {} {
      assert AddedAll(base, base, keys, locale);
    } else {
      var k :| k in keys && AddKeys(base, keys, locale) == InsertNew(AddKeys(base, keys - {k}, locale), k, AddedValue(locale, k));
      AddKeysAll(base, keys - {k}, locale);
      AddStep(AddKeys(base, keys - {k}, locale), base, keys, k, locale);
    }
  }

  /** `r` keeps every key of `base` with its value, has each other key of
      `keys` with its added value, and nothing else. */
  ghost predicate AddedAll(r: Entries, base: Entries, keys: set<string>, locale: string)
  {
    forall x :: Lookup(r, x) ==
      if x in KeySet(base) then Lookup(base, x)
      else if x in keys then Some(AddedValue(locale, x))
      else None
  }

  lemma AddStep(r: Entries, base: Entries, keys: set<string>, k: string, locale: string)
    requires KeysAscending(r) && k in keys && AddedAll(r, base, keys - {k}, locale)
    ensures AddedAll(InsertNew(r, k, AddedValue(locale, k)), base, keys, locale)
  {
    var r' := InsertNew(r, k, AddedValue(locale, k));
    forall x ensures Lookup(r', x) ==
      if x in KeySet(base) then Lookup(base, x)
      else if x in keys then Some(AddedValue(locale, x))
      else None
    {
      if x == k {
        assert Lookup(r, k).Some? <==> k in KeySet(base);
      } else {
        assert Lookup(r', x) == Lookup(r, x);
      }
    }
  }

  /** The merged translations of one file: the one merge of the new keys
      into it (MergeIsDetermined). */
  ghost function MergedEntries(entries: Entries, newKeys: set<string>, locale: string): (r: Entries)
    requires DistinctKeys(entries)
    ensures IsMergeOf(r, entries, newKeys, locale)
  {
    MergeExists(entries, newKeys, locale);
    var out :| IsMergeOf(out, entries, newKeys, locale); out
  }

  /** Sorting the file and adding the keys one by one gives a merge. */
  lemma MergeExists(entries: Entries, newKeys: set<string>, locale: string)
    requires DistinctKeys(entries)
    ensures IsMergeOf(AddKeys(SortEntries(entries), newKeys, locale), entries, newKeys, locale)
  {
    var sorted := SortEntries(entries);
    SortEntriesSame(entries);
    AddKeysAll(sorted, newKeys, locale);
  }

  /** What the per-file loop has built after visiting the keys `done`. */
  ghost predicate MergeInvariant(t: Entries, entries: Entries, done: set<string>, locale: string, added: nat)
  {
    DistinctKeys(t) && |t| == |entries| + added && t[..|entries|] == entries &&
    MergedValues(t, entries, done, locale)
  }

  ghost predicate MergedValues(t: Entries, entries: Entries, done: set<string>, locale: string)
  {
    forall x :: Lookup(t, x) ==
      if x in KeySet(entries) then Lookup(entries, x)
      else if x in done then Some(AddedValue(locale, x))
      else None
  }

  /** A key not yet in the file is appended with its added value. */
  lemma MergeStepAdd(t: Entries, entries: Entries, done: set<string>, locale: string, added: nat, k: string)
    requires MergeInvariant(t, entries, done, locale, added) && k !in done && k !in KeySet(t)
    ensures MergeInvariant(t + [(k, AddedValue(locale, k))], entries, done + {k}, locale, added + 1)
  {
    var p := (k, AddedValue(locale, k));
    var t' := t + [p];
    DistinctAppend(t, p);
    assert DistinctKeys(t');
    MergedValuesAdd(t, entries, done, locale, k);
    PrefixKept(t, p, entries);
    assert t'[..|entries|] == entries;
    assert |t'| == |entries| + added + 1;
  }

  lemma PrefixKept(t: Entries, p: (string, string), entries: Entries)
    requires |entries| <= |t| && t[..|entries|] == entries
    ensures (t + [p])[..|entries|] == entries
  {
    assert (t + [p])[..|entries|] == t[..|entries|];
  }

  lemma MergedValuesAdd(t: Entries, entries: Entries, done: set<string>, locale: string, k: string)
    requires MergedValues(t, entries, done, locale) && k !in KeySet(t)
    ensures MergedValues(t + [(k, AddedValue(locale, k))], entries, done + {k}, locale)
  {
    var p := (k, AddedValue(locale, k));
    forall x ensures Lookup(t + [p], x) ==
      if x in KeySet(entries) then Lookup(entries, x)
      else if x in done + {k} then Some(AddedValue(locale, x))
      else None
    {
      LookupAppend(t, p, x);
    }
  }

  /** A key the file already has changes nothing. */
  lemma MergeStepKeep(t: Entries, entries: Entries, done: set<string>, locale: string, added: nat, k: string)
    requires MergeInvariant(t, entries, done, locale, added) && k !in done && k in KeySet(t)
    ensures MergeInvariant(t, entries, done + {k}, locale, added)
  {
    assert Lookup(t, k).Some?;
  }

  /** The inner loop of merge_new_keys for one file: each new key absent
      from the file is added with its added value, and a file that gained
      keys is sorted. */
  method MergeFile(entries: Entries, locale: string, newKeys: set<string>) returns (added: nat, out: Entries)
    requires DistinctKeys(entries)
    ensures added == |MissingKeys(entries, newKeys)|
    ensures added == 0 ==> out == entries
    ensures added > 0 ==> out == MergedEntries(entries, newKeys, locale)
  {
    var t := entries;
    var remaining := newKeys;
    ghost var done: set<string> := {};
    added := 0;
    MergeStart(entries, locale);
    while remaining != {}
      invariant remaining + done == newKeys && remaining !! done
      invariant MergeInvariant(t, entries, done, locale, added)
      decreases |remaining|
    {
      var k :| k in remaining;
      if k !in KeySet(t) {
        MergeStepAdd(t, entries, done, locale, added, k);
        t := t + [(k, AddedValue(locale, k))];
        added := added + 1;
      } else {
        MergeStepKeep(t, entries, done, locale, added, k);
      }
      MoveKey(remaining, done, newKeys, k);
      done := done + {k};
      remaining := remaining - {k};
    }
    MergeFinish(t, entries, newKeys, locale, added);
    if added > 0 {
      out := SortEntries(t);
    } else {
      out := t;
    }
  }

  /** Moving a picked key from the keys still to visit to the visited ones. */
  lemma MoveKey(remaining: set<string>, done: set<string>, all: set<string>, k: string)
    requires remaining + done == all && remaining !! done && k in remaining
    ensures (remaining - {k}) + (done + {k}) == all && (remaining - {k}) !! (done + {k})
  {
  }

  /** Before the loop nothing is visited. */
  lemma MergeStart(entries: Entries, locale: string)
    requires DistinctKeys(entries)
    ensures MergeInvariant(entries, entries, {}, locale, 0)
  {
    assert entries[..|entries|] == entries;
  }

  /** After the loop every key is visited: sorting gives the merge, and a
      file that gained nothing is the old file. */
  lemma MergeFinish(t: Entries, entries: Entries, newKeys: set<string>, locale: string, added: nat)
    requires MergeInvariant(t, entries, newKeys, locale, added)
    ensures added == |MissingKeys(entries, newKeys)|
    ensures added == 0 ==> t == entries
    ensures added > 0 ==> SortEntries(t) == MergedEntries(entries, newKeys, locale)
  {
    assert KeySet(t) == KeySet(entries) + newKeys by {
      forall x ensures x in KeySet(t) <==> x in KeySet(entries) + newKeys {
        assert Lookup(t, x).Some? <==> x in KeySet(entries) + newKeys;
      }
    }
    DistinctCard(t);
    DistinctCard(entries);
    DisjointCard(KeySet(entries), newKeys);
    MissingKeysIs(entries, newKeys);
    if added == 0 {
      assert t == t[..|entries|];
    } else {
      var r := SortEntries(t);
      SortEntriesSame(t);
      assert IsMergeOf(r, entries, newKeys, locale);
      MergeIsDetermined(r, MergedEntries(entries, newKeys, locale), entries, newKeys, locale);
    }
  }

  lemma DisjointCard(a: set<string>, b: set<string>)
    ensures |a + b| == |a| + |b - a|
  {
    assert a + b == a + (b - a);
  }

  /** The keys a file gains. */
  function AddedCount(f: YamlFile, newKeys: set<string>): nat
  {
    |MissingKeys(EntriesOf(f), newKeys)|
  }

  /** The statistics the loop over files accumulates over the first `n`
      files. */
  function TotalsUpTo(files: seq<YamlFile>, newKeys: set<string>, n: nat): MergeResult
    requires n <= |files|
  {
    if n == 0 then MergeResult(0, 0, map[])
    else
      Tally(TotalsUpTo(files, newKeys, n - 1), files[n - 1].name, AddedCount(files[n - 1], newKeys))
  }

  /** The statistics after one more file, which gained `c` keys. */
  function Tally(r: MergeResult, name: string, c: nat): MergeResult
  {
    if c > 0 then MergeResult(r.keysAdded + c, r.filesModified + 1, r.keysPerFile[name := c]) else r
  }

  function MergeTotals(files: seq<YamlFile>, newKeys: set<string>): MergeResult
  {
    TotalsUpTo(files, newKeys, |files|)
  }

  /** The first `n` files that gain at least one key, in directory order. */
  function ModifiedUpTo(files: seq<YamlFile>, newKeys: set<string>, n: nat): seq<YamlFile>
    requires n <= |files|
  {
    if n == 0 then []
    else
      var m := ModifiedUpTo(files, newKeys, n - 1);
      if AddedCount(files[n - 1], newKeys) > 0 then m + [files[n - 1]] else m
  }

  function Modified(files: seq<YamlFile>, newKeys: set<string>): seq<YamlFile>
  {
    ModifiedUpTo(files, newKeys, |files|)
  }

  /** The file already has a translation key for each of the keys. */
  predicate HasAllKeys(f: YamlFile, newKeys: set<string>)
  {
    newKeys <= KeySet(EntriesOf(f))
  }

  /** A file gains at most |newKeys| keys, and none exactly when it has
      them all already. */
  lemma AddedCountBounds(f: YamlFile, newKeys: set<string>)
    ensures AddedCount(f, newKeys) <= |newKeys|
    ensures AddedCount(f, newKeys) == 0 <==> HasAllKeys(f, newKeys)
  {
    var d := newKeys - KeySet(EntriesOf(f));
    MissingKeysIs(EntriesOf(f), newKeys);
    assert d <= newKeys;
    if |d| == 0 {
      assert d == {};
      forall x | x in newKeys ensures x in KeySet(EntriesOf(f)) {
        assert x !in d;
      }
    } else {
      var k :| k in d;
      assert k in newKeys && k !in KeySet(EntriesOf(f));
    }
  }

  /** The counts agree with each other and with the files: one modified
      file per file that gains a key, between one and |newKeys| keys for
      each, and nothing added at all exactly when every file already has
      every key. */
  lemma MergeTotalsMeaning(files: seq<YamlFile>, newKeys: set<string>)
    ensures var r := MergeTotals(files, newKeys);
      r.filesModified == |Modified(files, newKeys)| && r.filesModified <= |files| &&
      r.filesModified <= r.keysAdded <= r.filesModified * |newKeys| &&
      PerFileBounded(r.keysPerFile, |newKeys|) &&
      (r.keysAdded == 0 <==> forall i :: 0 <= i < |files| ==> HasAllKeys(files[i], newKeys))
  {
    TotalsCounts(files, newKeys, |files|);
    TotalsPerFile(files, newKeys, |files|);
    TotalsZero(files, newKeys, |files|);
    forall i | 0 <= i < |files| ensures AddedCount(files[i], newKeys) == 0 <==> HasAllKeys(files[i], newKeys) {
      AddedCountBounds(files[i], newKeys);
    }
  }

  lemma {:induction false} TotalsCounts(files: seq<YamlFile>, newKeys: set<string>, n: nat)
    requires n <= |files|
    ensures var r := TotalsUpTo(files, newKeys, n);
      r.filesModified == |ModifiedUpTo(files, newKeys, n)| && r.filesModified <= n &&
      r.filesModified <= r.keysAdded <= r.filesModified * |newKeys|
  {
    if n > 0 {
      TotalsCounts(files, newKeys, n - 1);
      var f := files[n - 1];
      AddedCountBounds(f, newKeys);
      var r0, c := TotalsUpTo(files, newKeys, n - 1), AddedCount(f, newKeys);
      if c > 0 {
        assert TotalsUpTo(files, newKeys, n) == MergeResult(r0.keysAdded + c, r0.filesModified + 1, r0.keysPerFile[f.name := c]);
        assert ModifiedUpTo(files, newKeys, n) == ModifiedUpTo(files, newKeys, n - 1) + [f];
        MulStep(r0.filesModified, |newKeys|);
      } else {
        assert TotalsUpTo(files, newKeys, n) == r0;
        assert ModifiedUpTo(files, newKeys, n) == ModifiedUpTo(files, newKeys, n - 1);
      }
    }
  }

  lemma MulStep(m: nat, n: nat)
    ensures (m + 1) * n == m * n + n
  {
  }

  lemma {:induction false} TotalsPerFile(files: seq<YamlFile>, newKeys: set<string>, n: nat)
    requires n <= |files|
    ensures PerFileBounded(TotalsUpTo(files, newKeys, n).keysPerFile, |newKeys|)
  {
    if n > 0 {
      TotalsPerFile(files, newKeys, n - 1);
      var f := files[n - 1];
      AddedCountBounds(f, newKeys);
      var c := AddedCount(f, newKeys);
      if c > 0 {
        BoundedUpdate(TotalsUpTo(files, newKeys, n - 1).keysPerFile, |newKeys|, f.name, c);
      }
    }
  }

  /** Every per-file count lies between one and `n`. */
  predicate PerFileBounded(m: map<string, nat>, n: nat)
  {
    forall k :: k in m ==> 1 <= m[k] <= n
  }

  lemma BoundedUpdate(m: map<string, nat>, n: nat, k: string, c: nat)
    requires PerFileBounded(m, n) && 1 <= c <= n
    ensures PerFileBounded(m[k := c], n)
  {
  }

  lemma TotalsZero(files: seq<YamlFile>, newKeys: set<string>, n: nat)
    requires n <= |files|
    ensures TotalsUpTo(files, newKeys, n).keysAdded == 0 <==>
      forall i :: 0 <= i < n ==> AddedCount(files[i], newKeys) == 0
  {
    forall i | 0 <= i < n ensures AddedCount(files[i], newKeys) <= TotalsUpTo(files, newKeys, n).keysAdded {
      TotalsAtLeast(files, newKeys, n, i);
    }
    if forall i :: 0 <= i < n ==> AddedCount(files[i], newKeys) == 0 {
      TotalsNone(files, newKeys, n);
    }
  }

  /** Each file's additions are part of the total. */
  lemma {:induction false} TotalsAtLeast(files: seq<YamlFile>, newKeys: set<string>, n: nat, i: nat)
    requires i < n <= |files|
    ensures AddedCount(files[i], newKeys) <= TotalsUpTo(files, newKeys, n).keysAdded
  {
    var r0, c := TotalsUpTo(files, newKeys, n - 1), AddedCount(files[n - 1], newKeys);
    assert TotalsUpTo(files, newKeys, n) == Tally(r0, files[n - 1].name, c);
    TallyAdds(r0, files[n - 1].name, c);
    if i < n - 1 {
      TotalsAtLeast(files, newKeys, n - 1, i);
    } else {
      assert files[i] == files[n - 1];
    }
  }

  lemma TallyAdds(r: MergeResult, name: string, c: nat)
    ensures Tally(r, name, c).keysAdded == r.keysAdded + c
  {
  }

  /** Files that gain nothing add nothing to the total. */
  lemma {:induction false} TotalsNone(files: seq<YamlFile>, newKeys: set<string>, n: nat)
    requires n <= |files|
    requires forall i :: 0 <= i < n ==> AddedCount(files[i], newKeys) == 0
    ensures TotalsUpTo(files, newKeys, n).keysAdded == 0
  {
    if n > 0 {
      TotalsNone(files, newKeys, n - 1);
      assert AddedCount(files[n - 1], newKeys) == 0;
      assert TotalsUpTo(files, newKeys, n) == TotalsUpTo(files, newKeys, n - 1);
    }
  }

  /** The loop over the files of merge_new_keys with per-file additions
      already made: counts, and the files to write back. */
  method MergeFiles(files: seq<YamlFile>, newKeys: set<string>, sources: map<string, seq<(string, nat)>>,
                    withComments: bool, h: CommentHandling, dryRun: bool)
    returns (result: MergeResult, saved: seq<SavedFile>)
    requires ValidFiles(files)
    ensures result == MergeTotals(files, newKeys)
    ensures dryRun ==> saved == []
    ensures !dryRun ==> saved == SavedUpTo(files, newKeys, sources, withComments, h, |files|)
  {
    result := MergeResult(0, 0, map[]);
    saved := [];
    var i := 0;
    while i < |files|
      invariant 0 <= i <= |files|
      invariant result == TotalsUpTo(files, newKeys, i)
      invariant dryRun ==> saved == []
      invariant !dryRun ==> saved == SavedUpTo(files, newKeys, sources, withComments, h, i)
    {
      var f := files[i];
      var added, s := MergeOne(f, newKeys, sources, withComments, h);
      result := Tally(result, f.name, added);
      ghost var prev := SavedUpTo(files, newKeys, sources, withComments, h, i);
      if added > 0 {
        assert SavedUpTo(files, newKeys, sources, withComments, h, i + 1) == prev + [s];
        if !dryRun {
          saved := saved + [s];
        }
      } else {
        assert SavedUpTo(files, newKeys, sources, withComments, h, i + 1) == prev;
      }
      i := i + 1;
    }
  }

  /** One file of the loop: the keys it gains and, when it gains any, the
      file to write back. */
  method MergeOne(f: YamlFile, newKeys: set<string>, sources: map<string, seq<(string, nat)>>, withComments: bool, h: CommentHandling)
    returns (added: nat, s: SavedFile)
    requires ValidFile(f)
    ensures added == AddedCount(f, newKeys)
    ensures added > 0 ==> s == Saved(f, newKeys, sources, withComments, h)
  {
    var out;
    added, out := MergeFile(EntriesOf(f), LocaleOf(f), newKeys);
    s := SavedFile(f.name, out, SavedComments(h, f, newKeys, sources, withComments));
  }

  /** A file as written back after the merge. */
  ghost function Saved(f: YamlFile, newKeys: set<string>, sources: map<string, seq<(string, nat)>>, withComments: bool, h: CommentHandling): SavedFile
    requires ValidFile(f)
  {
    SavedFile(f.name, MergedEntries(EntriesOf(f), newKeys, LocaleOf(f)), SavedComments(h, f, newKeys, sources, withComments))
  }

  /** The files written back for the first `n` files. */
  ghost function SavedUpTo(files: seq<YamlFile>, newKeys: set<string>, sources: map<string, seq<(string, nat)>>,
                           withComments: bool, h: CommentHandling, n: nat): seq<SavedFile>
    requires n <= |files| && ValidFiles(files)
  {
    if n == 0 then []
    else
      var s := SavedUpTo(files, newKeys, sources, withComments, h, n - 1);
      if AddedCount(files[n - 1], newKeys) > 0 then s + [Saved(files[n - 1], newKeys, sources, withComments, h)] else s
  }

  /** Each written file is the merge of the matching modified file. */
  ghost predicate AllSaved(saved: seq<SavedFile>, mods: seq<YamlFile>, newKeys: set<string>,
                           sources: map<string, seq<(string, nat)>>, withComments: bool, h: CommentHandling)
  {
    |saved| == |mods| &&
    forall j :: 0 <= j < |saved| ==> SavedAs(saved[j], mods[j], newKeys, sources, withComments, h)
  }

  /** A written file: its name, its merged translations and its comments. */
  ghost predicate SavedAs(s: SavedFile, f: YamlFile, newKeys: set<string>, sources: map<string, seq<(string, nat)>>, withComments: bool, h: CommentHandling)
  {
    s.name == f.name && IsMergeOf(s.translations, EntriesOf(f), newKeys, LocaleOf(f)) &&
    s.comments == SavedComments(h, f, newKeys, sources, withComments)
  }

  /** One written file per modified file, in directory order, each the
      merge of its file with the comments it keeps or gains. */
  lemma {:induction false} SavedMeaning(files: seq<YamlFile>, newKeys: set<string>, sources: map<string, seq<(string, nat)>>,
                                        withComments: bool, h: CommentHandling, n: nat)
    requires n <= |files| && ValidFiles(files)
    ensures AllSaved(SavedUpTo(files, newKeys, sources, withComments, h, n), ModifiedUpTo(files, newKeys, n), newKeys, sources, withComments, h)
  {
    if n > 0 {
      SavedMeaning(files, newKeys, sources, withComments, h, n - 1);
      var f := files[n - 1];
      var prev, mods := SavedUpTo(files, newKeys, sources, withComments, h, n - 1), ModifiedUpTo(files, newKeys, n - 1);
      if AddedCount(f, newKeys) > 0 {
        var s := Saved(f, newKeys, sources, withComments, h);
        assert SavedUpTo(files, newKeys, sources, withComments, h, n) == prev + [s];
        assert ModifiedUpTo(files, newKeys, n) == mods + [f];
        SavedSnoc(prev, mods, s, f, newKeys, sources, withComments, h);
      } else {
        assert SavedUpTo(files, newKeys, sources, withComments, h, n) == prev;
        assert ModifiedUpTo(files, newKeys, n) == mods;
      }
    }
  }

  lemma SavedSnoc(saved: seq<SavedFile>, mods: seq<YamlFile>, s: SavedFile, f: YamlFile, newKeys: set<string>,
                  sources: map<string, seq<(string, nat)>>, withComments: bool, h: CommentHandling)
    requires AllSaved(saved, mods, newKeys, sources, withComments, h) && SavedAs(s, f, newKeys, sources, withComments, h)
    ensures AllSaved(saved + [s], mods + [f], newKeys, sources, withComments, h)
  {
    var s', m' := saved + [s], mods + [f];
    forall j | 0 <= j < |s'| ensures SavedAs(s'[j], m'[j], newKeys, sources, withComments, h) {
      if j < |saved| {
        assert s'[j] == saved[j] && m'[j] == mods[j];
      }
    }
  }

  // ---------------------------------------------------------------------
  // Source comments
  // ---------------------------------------------------------------------

  /** "file:line". */
  function SourceRef(s: (string, nat)): (r: string)
    ensures |r| > 0 && IsDigit(r[|r| - 1])
  {
    s.0 + ":" + NatToString(s.1)
  }

  /** `", ".join(parts)`. */
  function JoinComma(parts: seq<string>): string
  {
    if |parts| == 0 then ""
    else if |parts| == 1 then parts[0]
    else JoinComma(parts[..|parts| - 1]) + ", " + parts[|parts| - 1]
  }

  function Refs(sources: seq<(string, nat)>): (r: seq<string>)
    ensures |r| == |sources| && forall i :: 0 <= i < |r| ==> r[i] == SourceRef(sources[i])
  {
    seq(|sources|, i requires 0 <= i < |sources| => SourceRef(sources[i]))
  }

  /** The source list of a new key: its first three locations, and how many
      more there are. */
  function SourceComment(sources: seq<(string, nat)>): string
  {
    var shown := if |sources| <= 3 then sources else sources[..3];
    JoinComma(Refs(shown)) + (if |sources| > 3 then " (+" + NatToString(|sources| - 3) + " more)" else "")
  }

  /** The comment placed before a newly added key. */
  function SourceCommentLine(sources: seq<(string, nat)>): string
  {
    " Source: " + SourceComment(sources)
  }

  /** Only the first three locations and the number of locations shape the
      comment. */
  lemma OnlyFirstThreeListed(s: seq<(string, nat)>, t: seq<(string, nat)>)
    requires |s| == |t| && (if |s| <= 3 then s == t else s[..3] == t[..3])
    ensures SourceComment(s) == SourceComment(t)
  {
    var shownS := if |s| <= 3 then s else s[..3];
    var shownT := if |t| <= 3 then t else t[..3];
    assert shownS == shownT;
  }

  lemma {:induction false} JoinCommaLast(parts: seq<string>)
    requires |parts| > 0 && |parts[|parts| - 1]| > 0
    ensures var j := JoinComma(parts); |j| > 0 && j[|j| - 1] == parts[|parts| - 1][|parts[|parts| - 1]| - 1]
  {
  }

  /** The comment ends in ")" exactly when locations were left out; with
      three or fewer it ends in the last line number. */
  lemma MoreSuffix(sources: seq<(string, nat)>)
    requires |sources| > 0
    ensures var c := SourceComment(sources);
      |c| > 0 && (c[|c| - 1] == ')' <==> |sources| > 3)
  {
    var shown := if |sources| <= 3 then sources else sources[..3];
    JoinCommaLast(Refs(shown));
  }

  /** The comments a key gains, in the evidently intended behaviour: each
      newly added key gets its source line, when the map holds comments at
      all (a ruamel.yaml mapping loaded from the file), and every comment
      the file had is kept. */
  function CommentsAfter(f: YamlFile, newKeys: set<string>, sources: map<string, seq<(string, nat)>>,
                         withComments: bool): (c: map<string, string>)
    ensures f.comments.Keys <= c.Keys
  {
    if withComments && f.translations.Some? then
      var added := sources.Keys * newKeys - KeySet(EntriesOf(f));
      f.comments + map k | k in added :: SourceCommentLine(sources[k])
    else f.comments
  }

  /** The comments written back with a merged file. */
  function SavedComments(h: CommentHandling, f: YamlFile, newKeys: set<string>, sources: map<string, seq<(string, nat)>>,
                         withComments: bool): map<string, string>
  {
    match h
    case DroppedBySort => map[]
    case Kept => CommentsAfter(f, newKeys, sources, withComments)
  }

  /** As written, a key added with its sources is saved without its source
      comment, and every comment the file already had is lost too; with
      the comments kept, the new key carries its source line and the other
      comments stay. */
  lemma SourceCommentIsLost(f: YamlFile, key: string, refs: seq<(string, nat)>)
    requires f.translations.Some? && key !in KeySet(EntriesOf(f))
    ensures var sources := map[key := refs];
      key !in SavedComments(DroppedBySort, f, {key}, sources, true) &&
      SavedComments(Kept, f, {key}, sources, true)[key] == SourceCommentLine(refs) &&
      (forall k :: k in f.comments ==>
        k in SavedComments(Kept, f, {key}, sources, true) && k !in SavedComments(DroppedBySort, f, {key}, sources, true))
  {
    var sources := map[key := refs];
    assert sources.Keys * {key} - KeySet(EntriesOf(f)) == {key};
  }

  /** merge_new_keys as written: every file gains the missing keys, and a
      file written back has lost every comment of its translations. */
  method MergeNewKeys(files: seq<YamlFile>, newKeys: set<string>, dryRun: bool)
    returns (result: MergeResult, saved: seq<SavedFile>)
    requires ValidFiles(files)
    ensures result == MergeTotals(files, newKeys)
    ensures dryRun ==> saved == []
    ensures !dryRun ==> AllSaved(saved, Modified(files, newKeys), newKeys, map[], false, DroppedBySort)
    ensures forall j :: 0 <= j < |saved| ==> saved[j].comments == map[]
  {
    result, saved := MergeFiles(files, newKeys, map[], false, DroppedBySort, dryRun);
    SavedMeaning(files, newKeys, map[], false, DroppedBySort, |files|);
  }

  /** merge_new_keys_with_sources as written: the keys of `sources` are
      merged, and although each added key is given its source comment when
      ruamel.yaml is available, a file written back holds no comment at all. */
  method MergeNewKeysWithSources(files: seq<YamlFile>, sources: map<string, seq<(string, nat)>>, ruamel: bool, dryRun: bool)
    returns (result: MergeResult, saved: seq<SavedFile>)
    requires ValidFiles(files)
    ensures result == MergeTotals(files, sources.Keys)
    ensures dryRun ==> saved == []
    ensures !dryRun ==> AllSaved(saved, Modified(files, sources.Keys), sources.Keys, sources, ruamel, DroppedBySort)
    ensures forall j :: 0 <= j < |saved| ==> saved[j].comments == map[]
  {
    result, saved := MergeFiles(files, sources.Keys, sources, ruamel, DroppedBySort, dryRun);
    SavedMeaning(files, sources.Keys, sources, ruamel, DroppedBySort, |files|);
  }

  /** merge_new_keys as evidently intended: the same merge, with each file's
      comments written back. */
  method MergeNewKeysKeepingComments(files: seq<YamlFile>, newKeys: set<string>, dryRun: bool)
    returns (result: MergeResult, saved: seq<SavedFile>)
    requires ValidFiles(files)
    ensures result == MergeTotals(files, newKeys)
    ensures dryRun ==> saved == []
    ensures !dryRun ==> AllSaved(saved, Modified(files, newKeys), newKeys, map[], false, Kept)
    ensures !dryRun ==> forall j :: 0 <= j < |saved| ==> saved[j].comments == Modified(files, newKeys)[j].comments
  {
    result, saved := MergeFiles(files, newKeys, map[], false, Kept, dryRun);
    SavedMeaning(files, newKeys, map[], false, Kept, |files|);
  }

  /** merge_new_keys_with_sources as evidently intended: with ruamel.yaml
      each added key is written back with its " Source:" line, next to the
      comments the file already had. */
  method MergeNewKeysWithSourcesKeepingComments(files: seq<YamlFile>, sources: map<string, seq<(string, nat)>>, ruamel: bool, dryRun: bool)
    returns (result: MergeResult, saved: seq<SavedFile>)
    requires ValidFiles(files)
    ensures result == MergeTotals(files, sources.Keys)
    ensures dryRun ==> saved == []
    ensures !dryRun ==> AllSaved(saved, Modified(files, sources.Keys), sources.Keys, sources, ruamel, Kept)
    ensures !dryRun ==> forall j :: 0 <= j < |saved| ==>
      var f := Modified(files, sources.Keys)[j];
      f.comments.Keys <= saved[j].comments.Keys &&
      (ruamel && f.translations.Some? ==>
        forall k :: k in sources && k !in KeySet(EntriesOf(f)) ==> saved[j].comments[k] == SourceCommentLine(sources[k]))
  {
    result, saved := MergeFiles(files, sources.Keys, sources, ruamel, Kept, dryRun);
    SavedMeaning(files, sources.Keys, sources, ruamel, Kept, |files|);
  }

  /** A merge never overwrites: an existing value, even an empty one, is
      kept; English gets the key as its text and other locales an empty
      string; and every key ends up present. */
  lemma MergeNeverOverwrites(out: Entries, entries: Entries, newKeys: set<string>, locale: string, key: string)
    requires IsMergeOf(out, entries, newKeys, locale)
    ensures key in KeySet(entries) ==> Lookup(out, key) == Lookup(entries, key)
    ensures key in newKeys && key !in KeySet(entries) ==>
      Lookup(out, key) == Some(if locale == "en" then key else "")
    ensures newKeys <= KeySet(out) && KeySet(entries) <= KeySet(out)
  {
    forall x | x in newKeys || x in KeySet(entries) ensures x in KeySet(out) {
      assert Lookup(out, x).Some?;
    }
  }
}
