/** Obsolete keys: the base file's keys that no XML or C++ source uses, and
    the two ways of handling them in every translation file, marking their
    values as deprecated or deleting them. */
module Obsolete {
  import opened Common
  import opened Translations
  import opened TranslationMerge

  /** What a marked value starts with. */
  const DeprecatedTag := "[DEPRECATED]"
  const DeprecatedPrefix := "[DEPRECATED] "

  /** find_obsolete_keys, given the strings the XML and C++ scans found:
      the base locale's keys that are not among them. */
  function FindObsolete(files: seq<YamlFile>, baseLocale: string, used: set<string>): set<string>
  {
    match BaseIndex(files, baseLocale)
    case None => {}
    case Some(i) =>
      var base := EntriesOf(files[i]);
      if |base| == 0 then {} else KeySet(base) - used
  }

  // ---------------------------------------------------------------------
  // Marking
  // ---------------------------------------------------------------------

  predicate IsMarked(v: string)
  {
    IsPrefix(DeprecatedTag, v)
  }

  /** The value after marking: a value already marked stays as it is. */
  function MarkValue(v: string): string
  {
    if IsMarked(v) then v else DeprecatedPrefix + v
  }

  /** The pairs after marking every key of `o`, in the same order. */
  function MarkedEntries(l: Entries, o: set<string>): Entries
    decreases |l|
  {
    if |l| == 0 then []
    else [(l[0].0, if l[0].0 in o then MarkValue(l[0].1) else l[0].1)] + MarkedEntries(l[1..], o)
  }

  /** The pairs whose value marking changes. */
  function MarkCount(l: Entries, o: set<string>): nat
    decreases |l|
  {
    if |l| == 0 then 0
    else (if l[0].0 in o && !IsMarked(l[0].1) then 1 else 0) + MarkCount(l[1..], o)
  }

  /** `translations[k] = v` for a key already present: the value changes,
      the position does not. */
  function SetValue(l: Entries, k: string, v: string): Entries
    decreases |l|
  {
    if |l| == 0 then [] else [if l[0].0 == k then (k, v) else l[0]] + SetValue(l[1..], k, v)
  }

  /** The number of positions at which two listings of pairs differ. */
  function Differing(a: Entries, b: Entries): nat
    requires |a| == |b|
    decreases |a|
  {
    if |a| == 0 then 0 else (if a[0] != b[0] then 1 else 0) + Differing(a[1..], b[1..])
  }

  lemma PrefixMarks(v: string)
    ensures IsMarked(DeprecatedPrefix + v)
  {
    assert (DeprecatedPrefix + v)[..|DeprecatedTag|] == DeprecatedTag;
  }

  /** The marked count is the number of values marking actually changes. */
  lemma {:induction false} MarkCountChanged(l: Entries, o: set<string>)
    ensures |MarkedEntries(l, o)| == |l|
    ensures MarkCount(l, o) == Differing(l, MarkedEntries(l, o))
    decreases |l|
  {
    if |l| > 0 {
      MarkCountChanged(l[1..], o);
      var m := MarkedEntries(l, o);
      assert m[0] == (l[0].0, if l[0].0 in o then MarkValue(l[0].1) else l[0].1);
      assert m[1..] == MarkedEntries(l[1..], o);
      if l[0].0 in o && !IsMarked(l[0].1) {
        assert |MarkValue(l[0].1)| != |l[0].1|;
      }
    }
  }

  /** Marking keeps the keys and their order, leaves the other keys' values
      alone, and every marked key's value then starts with the tag; a value
      it changes is the old one behind the prefix. */
  lemma {:induction false} MarkMeaning(l: Entries, o: set<string>, i: nat)
    requires i < |l|
    ensures |MarkedEntries(l, o)| == |l| && MarkedEntries(l, o)[i].0 == l[i].0
    ensures l[i].0 !in o ==> MarkedEntries(l, o)[i].1 == l[i].1
    ensures l[i].0 in o ==> IsMarked(MarkedEntries(l, o)[i].1)
    ensures l[i].0 in o && !IsMarked(l[i].1) ==> MarkedEntries(l, o)[i].1 == DeprecatedPrefix + l[i].1
    ensures IsMarked(l[i].1) ==> MarkedEntries(l, o)[i] == l[i]
    decreases |l|
  {
    MarkCountChanged(l, o);
    if i > 0 {
      MarkMeaning(l[1..], o, i - 1);
    } else {
      PrefixMarks(l[0].1);
    }
  }

  /** Marking twice changes nothing the second time. */
  lemma {:induction false} MarkIdempotent(l: Entries, o: set<string>)
    ensures MarkedEntries(MarkedEntries(l, o), o) == MarkedEntries(l, o)
    ensures MarkCount(MarkedEntries(l, o), o) == 0
    decreases |l|
  {
    if |l| > 0 {
      MarkIdempotent(l[1..], o);
      PrefixMarks(l[0].1);
      var m := MarkedEntries(l, o);
      assert m[0].0 == l[0].0 && m[1..] == MarkedEntries(l[1..], o);
    }
  }

  /** Marking a key the pairs do not hold changes nothing. */
  lemma {:induction false} MarkAbsent(l: Entries, o: set<string>, k: string, v: string)
    requires k !in KeySet(l)
    ensures MarkedEntries(l, o + {k}) == MarkedEntries(l, o)
    ensures MarkCount(l, o + {k}) == MarkCount(l, o)
    ensures SetValue(MarkedEntries(l, o), k, v) == MarkedEntries(l, o)
    decreases |l|
  {
    if |l| > 0 {
      KeySetCons(l[0], l[1..]);
      assert l == [l[0]] + l[1..];
      MarkAbsent(l[1..], o, k, v);
    }
  }

  /** One key of the loop over the obsolete keys: its value is read from
      the partly marked pairs as from the original ones, and marking it
      next is setting that value. */
  lemma {:induction false} MarkStep(l: Entries, done: set<string>, k: string)
    requires DistinctKeys(l) && k !in done
    ensures Lookup(MarkedEntries(l, done), k) == Lookup(l, k)
    ensures MarkedEntries(l, done + {k}) ==
      if Lookup(l, k).Some? && !IsMarked(Lookup(l, k).value)
      then SetValue(MarkedEntries(l, done), k, DeprecatedPrefix + Lookup(l, k).value)
      else MarkedEntries(l, done)
    ensures MarkCount(l, done + {k}) ==
      MarkCount(l, done) + if Lookup(l, k).Some? && !IsMarked(Lookup(l, k).value) then 1 else 0
    decreases |l|
  {
    if |l| > 0 {
      DistinctHead(l);
      var m := MarkedEntries(l, done);
      assert m[0].0 == l[0].0 && m[1..] == MarkedEntries(l[1..], done);
      if l[0].0 == k {
        MarkAbsent(l[1..], done, k, DeprecatedPrefix + l[0].1);
      } else {
        MarkStep(l[1..], done, k);
      }
    }
  }

  /** The body of mark_obsolete_keys' inner loop, over one file's pairs:
      every obsolete key the file holds gets the prefix unless its value is
      already marked; `changed` counts the values changed. */
  method MarkFile(tr: Entries, o: set<string>) returns (changed: nat, out: Entries)
    requires DistinctKeys(tr)
    ensures out == MarkedEntries(tr, o) && changed == MarkCount(tr, o)
  {
    out, changed := tr, 0;
    var todo := o;
    ghost var done: set<string> := {};
    MarkNothing(tr);
    while todo != {}
      invariant todo + done == o && todo !! done
      invariant out == MarkedEntries(tr, done) && changed == MarkCount(tr, done)
      decreases |todo|
    {
      var key :| key in todo;
      var c;
      MoveKey(todo, done, o, key);
      out, c := MarkKey(tr, done, out, key);
      changed := changed + c;
      todo, done := todo - {key}, done + {key};
    }
  }

  /** One pass of the loop over the obsolete keys: `translations[key]` gets
      the prefix when the key is present and its value is not yet marked;
      `c` is 1 exactly then. */
  method MarkKey(ghost tr: Entries, ghost done: set<string>, cur: Entries, key: string) returns (out: Entries, c: nat)
    requires DistinctKeys(tr) && key !in done && cur == MarkedEntries(tr, done)
    ensures out == MarkedEntries(tr, done + {key}) && MarkCount(tr, done + {key}) == MarkCount(tr, done) + c
  {
    MarkStep(tr, done, key);
    out, c := cur, 0;
    var found := Lookup(cur, key);
    if found.Some? {
      var value := found.value;
      if !IsMarked(value) {
        out := SetValue(cur, key, DeprecatedPrefix + value);
        c := 1;
      }
    }
  }

  lemma {:induction false} MarkNothing(l: Entries)
    ensures MarkedEntries(l, {}) == l && MarkCount(l, {}) == 0
    decreases |l|
  {
    if |l| > 0 {
      MarkNothing(l[1..]);
    }
  }

  /** The values marked in the first `n` files. */
  function MarkTotal(files: seq<YamlFile>, o: set<string>, n: nat): nat
    requires n <= |files|
  {
    if n == 0 then 0 else MarkTotal(files, o, n - 1) + MarkCount(EntriesOf(files[n - 1]), o)
  }

  /** The files of the first `n` that marking changes, as they are written. */
  function MarkSaved(files: seq<YamlFile>, o: set<string>, n: nat): seq<SavedFile>
    requires n <= |files|
  {
    if n == 0 then []
    else
      var s := MarkSaved(files, o, n - 1);
      var l := EntriesOf(files[n - 1]);
      if MarkCount(l, o) > 0 then s + [SavedFile(files[n - 1].name, MarkedEntries(l, o), files[n - 1].comments)] else s
  }

  /** mark_obsolete_keys over the files of the directory: `marked` counts
      the values changed, and the changed files are written back unless
      this is a dry run; no obsolete key means nothing at all. */
  method MarkObsoleteKeys(files: seq<YamlFile>, o: set<string>, dryRun: bool)
    returns (marked: nat, saved: seq<SavedFile>)
    requires ValidFiles(files)
    ensures marked == MarkTotal(files, o, |files|)
    ensures dryRun ==> saved == []
    ensures !dryRun ==> saved == MarkSaved(files, o, |files|)
    ensures o == {} ==> marked == 0 && saved == []
  {
    marked, saved := 0, [];
    if o == {} {
      MarkNone(files, |files|);
      return;
    }
    var i := 0;
    while i < |files|
      invariant 0 <= i <= |files|
      invariant marked == MarkTotal(files, o, i)
      invariant saved == if dryRun then [] else MarkSaved(files, o, i)
    {
      var f := files[i];
      var tr := EntriesOf(f);
      assert ValidFile(files[i]);
      if |tr| == 0 {
        i := i + 1;
        continue;
      }
      var changed, out := MarkFile(tr, o);
      if changed > 0 && !dryRun {
        saved := saved + [SavedFile(f.name, out, f.comments)];
      }
      marked := marked + changed;
      i := i + 1;
    }
  }

  /** No obsolete key: nothing marked, nothing written. */
  lemma {:induction false} MarkNone(files: seq<YamlFile>, n: nat)
    requires n <= |files|
    ensures MarkTotal(files, {}, n) == 0 && MarkSaved(files, {}, n) == []
  {
    if n > 0 {
      MarkNone(files, n - 1);
      MarkNothing(EntriesOf(files[n - 1]));
    }
  }

  // ---------------------------------------------------------------------
  // Deleting
  // ---------------------------------------------------------------------

  /** The pairs without the keys of `o`, in the same order. */
  function KeptEntries(l: Entries, o: set<string>): Entries
    decreases |l|
  {
    if |l| == 0 then []
    else (if l[0].0 in o then [] else [l[0]]) + KeptEntries(l[1..], o)
  }

  /** The pairs whose key is in `o`. */
  function DeleteCount(l: Entries, o: set<string>): nat
    decreases |l|
  {
    if |l| == 0 then 0 else (if l[0].0 in o then 1 else 0) + DeleteCount(l[1..], o)
  }

  /** `del translations[k]`. */
  function Without(l: Entries, k: string): Entries
    decreases |l|
  {
    if |l| == 0 then [] else (if l[0].0 == k then [] else [l[0]]) + Without(l[1..], k)
  }

  lemma {:induction false} KeptAppend(a: Entries, p: (string, string), o: set<string>)
    ensures KeptEntries(a + [p], o) == KeptEntries(a, o) + if p.0 in o then [] else [p]
    ensures DeleteCount(a + [p], o) == DeleteCount(a, o) + if p.0 in o then 1 else 0
    decreases |a|
  {
    if |a| == 0 {
      assert a + [p] == [p];
    } else {
      assert (a + [p])[1..] == a[1..] + [p];
      KeptAppend(a[1..], p, o);
    }
  }

  lemma {:induction false} WithoutAbsent(l: Entries, k: string)
    requires k !in KeySet(l)
    ensures Without(l, k) == l
    decreases |l|
  {
    if |l| > 0 {
      KeySetCons(l[0], l[1..]);
      assert l == [l[0]] + l[1..];
      WithoutAbsent(l[1..], k);
    }
  }

  lemma {:induction false} WithoutAppend(a: Entries, b: Entries, k: string)
    ensures Without(a + b, k) == Without(a, k) + Without(b, k)
    decreases |a|
  {
    if |a| == 0 {
      assert a + b == b;
    } else {
      assert (a + b)[1..] == a[1..] + b;
      WithoutAppend(a[1..], b, k);
    }
  }

  /** Deletion keeps exactly the pairs whose key is not deleted. */
  lemma {:induction false} KeptKeys(l: Entries, o: set<string>)
    ensures KeySet(KeptEntries(l, o)) == KeySet(l) - o
    ensures forall x :: x !in o ==> Lookup(KeptEntries(l, o), x) == Lookup(l, x)
    ensures DeleteCount(l, o) + |KeptEntries(l, o)| == |l|
    decreases |l|
  {
    if |l| > 0 {
      KeptKeys(l[1..], o);
      KeySetCons(l[0], l[1..]);
      assert l == [l[0]] + l[1..];
      var r := KeptEntries(l[1..], o);
      if l[0].0 !in o {
        KeySetCons(l[0], r);
        assert KeptEntries(l, o) == [l[0]] + r;
        forall x | x !in o ensures Lookup(KeptEntries(l, o), x) == Lookup(l, x) {
          assert ([l[0]] + r)[1..] == r;
        }
      } else {
        assert KeptEntries(l, o) == r;
      }
    }
  }

  /** With distinct keys the deleted count is the number of obsolete keys
      the pairs hold. */
  lemma {:induction false} DeleteCountKeys(l: Entries, o: set<string>)
    requires DistinctKeys(l)
    ensures DeleteCount(l, o) == |KeySet(l) * o|
    decreases |l|
  {
    if |l| > 0 {
      DistinctHead(l);
      DeleteCountKeys(l[1..], o);
      KeySetCons(l[0], l[1..]);
      assert l == [l[0]] + l[1..];
      if l[0].0 in o {
        assert KeySet(l) * o == {l[0].0} + KeySet(l[1..]) * o;
      } else {
        assert KeySet(l) * o == KeySet(l[1..]) * o;
      }
    }
  }

  /** What the loop over a file's keys has made of the pairs after `i`
      keys. */
  function Partial(tr: Entries, o: set<string>, i: nat): Entries
    requires i <= |tr|
  {
    KeptEntries(tr[..i], o) + tr[i..]
  }

  /** With distinct keys, key `i` occurs neither before nor after `i`. */
  lemma KeyOnlyAt(tr: Entries, i: nat)
    requires DistinctKeys(tr) && i < |tr|
    ensures tr[i].0 !in KeySet(tr[..i]) && tr[i].0 !in KeySet(tr[i + 1..])
  {
    forall x | x in KeySet(tr[..i]) ensures x != tr[i].0 {
      var j :| 0 <= j < i && tr[..i][j].0 == x;
      assert tr[..i][j] == tr[j];
    }
    var rest := tr[i + 1..];
    forall x | x in KeySet(rest) ensures x != tr[i].0 {
      var j :| 0 <= j < |rest| && rest[j].0 == x;
      assert rest[j] == tr[i + 1 + j];
    }
  }

  /** Deleting a key that occurs once, between pairs without it. */
  lemma WithoutMiddle(a: Entries, p: (string, string), b: Entries)
    requires p.0 !in KeySet(a) && p.0 !in KeySet(b)
    ensures Without(a + ([p] + b), p.0) == a + b
  {
    var c := [p] + b;
    WithoutAppend(a, c, p.0);
    WithoutAbsent(a, p.0);
    assert c[0] == p && c[1..] == b;
    assert Without(c, p.0) == Without(b, p.0);
    WithoutAbsent(b, p.0);
  }

  /** Deleting key `i` from the pairs so far. */
  lemma DeleteAt(tr: Entries, o: set<string>, i: nat)
    requires DistinctKeys(tr) && i < |tr|
    ensures Without(Partial(tr, o, i), tr[i].0) == KeptEntries(tr[..i], o) + tr[i + 1..]
  {
    KeyOnlyAt(tr, i);
    KeptKeys(tr[..i], o);
    assert tr[i..] == [tr[i]] + tr[i + 1..];
    WithoutMiddle(KeptEntries(tr[..i], o), tr[i], tr[i + 1..]);
  }

  /** One key of the loop over the file's keys. */
  lemma DeleteStep(tr: Entries, o: set<string>, i: nat)
    requires DistinctKeys(tr) && i < |tr|
    ensures Partial(tr, o, i + 1) == if tr[i].0 in o then Without(Partial(tr, o, i), tr[i].0) else Partial(tr, o, i)
    ensures DeleteCount(tr[..i + 1], o) == DeleteCount(tr[..i], o) + if tr[i].0 in o then 1 else 0
  {
    assert tr[..i + 1] == tr[..i] + [tr[i]];
    KeptAppend(tr[..i], tr[i], o);
    if tr[i].0 in o {
      DeleteAt(tr, o, i);
    } else {
      assert tr[i..] == [tr[i]] + tr[i + 1..];
    }
  }

  /** The body of delete_obsolete_keys' loop, over one file's keys: every
      obsolete key is deleted, `removed` counts them. */
  method DeleteFile(tr: Entries, o: set<string>) returns (removed: nat, out: Entries)
    requires DistinctKeys(tr)
    ensures out == KeptEntries(tr, o) && removed == DeleteCount(tr, o)
  {
    out, removed := tr, 0;
    var keys := tr;
    for i := 0 to |keys|
      invariant out == Partial(tr, o, i)
      invariant removed == DeleteCount(tr[..i], o)
    {
      DeleteStep(tr, o, i);
      var key := keys[i].0;
      if key in o {
        out := Without(out, key);
        removed := removed + 1;
      }
    }
    assert tr[..|tr|] == tr && tr[|tr|..] == [];
  }

  /** The pairs deleted from the first `n` files. */
  function DeleteTotal(files: seq<YamlFile>, o: set<string>, n: nat): nat
    requires n <= |files|
  {
    if n == 0 then 0 else DeleteTotal(files, o, n - 1) + DeleteCount(EntriesOf(files[n - 1]), o)
  }

  /** The files of the first `n` that lose keys, as they are written. A
      deleted key's comment goes with it. */
  function DeleteSaved(files: seq<YamlFile>, o: set<string>, n: nat): seq<SavedFile>
    requires n <= |files|
  {
    if n == 0 then []
    else
      var s := DeleteSaved(files, o, n - 1);
      var f := files[n - 1];
      var l := EntriesOf(f);
      if DeleteCount(l, o) > 0 then s + [SavedFile(f.name, KeptEntries(l, o), f.comments - o)] else s
  }

  /** delete_obsolete_keys over the files of the directory: `deleted`
      counts the pairs removed, and the changed files are written back
      unless this is a dry run; no obsolete key means nothing at all. */
  method DeleteObsoleteKeys(files: seq<YamlFile>, o: set<string>, dryRun: bool)
    returns (deleted: nat, saved: seq<SavedFile>)
    requires ValidFiles(files)
    ensures deleted == DeleteTotal(files, o, |files|)
    ensures dryRun ==> saved == []
    ensures !dryRun ==> saved == DeleteSaved(files, o, |files|)
    ensures o == {} ==> deleted == 0 && saved == []
  {
    deleted, saved := 0, [];
    if o == {} {
      DeleteNone(files, |files|);
      return;
    }
    var i := 0;
    while i < |files|
      invariant 0 <= i <= |files|
      invariant deleted == DeleteTotal(files, o, i)
      invariant saved == if dryRun then [] else DeleteSaved(files, o, i)
    {
      var f := files[i];
      var tr := EntriesOf(f);
      assert ValidFile(files[i]);
      if |tr| == 0 {
        i := i + 1;
        continue;
      }
      var removed, out := DeleteFile(tr, o);
      if removed > 0 && !dryRun {
        saved := saved + [SavedFile(f.name, out, f.comments - o)];
      }
      deleted := deleted + removed;
      i := i + 1;
    }
  }

  lemma {:induction false} DeleteNothing(l: Entries)
    ensures DeleteCount(l, {}) == 0
    decreases |l|
  {
    if |l| > 0 {
      DeleteNothing(l[1..]);
    }
  }

  /** No obsolete key: nothing deleted, nothing written. */
  lemma {:induction false} DeleteNone(files: seq<YamlFile>, n: nat)
    requires n <= |files|
    ensures DeleteTotal(files, {}, n) == 0 && DeleteSaved(files, {}, n) == []
  {
    if n > 0 {
      DeleteNone(files, n - 1);
      DeleteNothing(EntriesOf(files[n - 1]));
    }
  }

  // ---------------------------------------------------------------------
  // What finding and handling obsolete keys mean together
  // ---------------------------------------------------------------------

  /** The obsolete keys are base keys no source uses; without the base
      locale's file, or when it has no keys, there are none. */
  lemma FindObsoleteMeaning(files: seq<YamlFile>, baseLocale: string, used: set<string>)
    ensures FindObsolete(files, baseLocale, used) !! used
    ensures BaseIndex(files, baseLocale).None? ==> FindObsolete(files, baseLocale, used) == {}
    ensures BaseIndex(files, baseLocale).Some? ==>
      var base := EntriesOf(files[BaseIndex(files, baseLocale).value]);
      FindObsolete(files, baseLocale, used) <= KeySet(base) &&
      forall x :: x in KeySet(base) && x !in used ==> x in FindObsolete(files, baseLocale, used)
  {
  }

  /** Deleting the obsolete keys from the base file leaves exactly its used
      keys, each with its old value. */
  lemma DeleteLeavesUsed(files: seq<YamlFile>, baseLocale: string, used: set<string>)
    requires BaseIndex(files, baseLocale).Some?
    ensures var base := EntriesOf(files[BaseIndex(files, baseLocale).value]);
      var kept := KeptEntries(base, FindObsolete(files, baseLocale, used));
      KeySet(kept) == KeySet(base) * used &&
      forall x :: x in used ==> Lookup(kept, x) == Lookup(base, x)
  {
    var base := EntriesOf(files[BaseIndex(files, baseLocale).value]);
    var o := FindObsolete(files, baseLocale, used);
    KeptKeys(base, o);
    if |base| == 0 {
      assert KeySet(base) == {};
    }
  }

  /** Marking the obsolete keys of the base file marks exactly the unused
      keys' values. */
  lemma MarkFlagsUnused(files: seq<YamlFile>, baseLocale: string, used: set<string>, i: nat)
    requires BaseIndex(files, baseLocale).Some?
    requires i < |EntriesOf(files[BaseIndex(files, baseLocale).value])|
    ensures var base := EntriesOf(files[BaseIndex(files, baseLocale).value]);
      var m := MarkedEntries(base, FindObsolete(files, baseLocale, used));
      |m| == |base| && m[i].0 == base[i].0 &&
      (base[i].0 !in used ==> IsMarked(m[i].1)) &&
      (base[i].0 in used ==> m[i].1 == base[i].1)
  {
    var base := EntriesOf(files[BaseIndex(files, baseLocale).value]);
    var o := FindObsolete(files, baseLocale, used);
    assert base[i].0 in KeySet(base);
    MarkMeaning(base, o, i);
  }
}
