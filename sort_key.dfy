/**
 * sort_desc_by_simple_desc_by_weighted_asc_by_word (build_website.py:40-45) and the
 * sorted() call that orders a chapter's words by it (build_website.py:116-118).
 *
 * Python compares key tuples lexicographically and strings by code point; sorted()
 * is stable. Only scored entries (a four-field values list) are ever sorted.
 */
module SortKey {
  import opened Rounding
  import opened Strings
  import opened OrderedMaps
  import opened Scoring

  /** A dict item whose values list has the simple and weighted scores at [2] and [3]. */
  type ScoredEntry = e: (string, Values) | |e.1| >= 4 witness ("", [Int(0), Int(0), Int(0), Int(0)])

  /** The key tuple (-1 * simple, -1 * weighted, word). */
  datatype Key = Key(negSimple: real, negWeighted: real, word: string)

  function KeyOf(e: ScoredEntry): Key {
    Key(-1.0 * e.1[2].Value(), -1.0 * e.1[3].Value(), e.0)
  }

  /** Python's < on key tuples. */
  predicate KeyLess(a: Key, b: Key) {
    || a.negSimple < b.negSimple
    || (a.negSimple == b.negSimple && a.negWeighted < b.negWeighted)
    || (a.negSimple == b.negSimple && a.negWeighted == b.negWeighted && StrLess(a.word, b.word))
  }

  /** a sorts strictly before b. */
  predicate Before(a: ScoredEntry, b: ScoredEntry) {
    KeyLess(KeyOf(a), KeyOf(b))
  }

  /** The key orders by simple score descending, then weighted descending, then word ascending. */
  lemma BeforeMeaning(a: ScoredEntry, b: ScoredEntry)
    ensures Before(a, b) <==>
      || a.1[2].Value() > b.1[2].Value()
      || (a.1[2].Value() == b.1[2].Value() && a.1[3].Value() > b.1[3].Value())
      || (a.1[2].Value() == b.1[2].Value() && a.1[3].Value() == b.1[3].Value() && StrLess(a.0, b.0))
  {
  }

  lemma BeforeIrreflexive(a: ScoredEntry)
    ensures !Before(a, a)
  {
    StrLessIrreflexive(a.0);
  }

  lemma BeforeTransitive(a: ScoredEntry, b: ScoredEntry, c: ScoredEntry)
    requires Before(a, b) && Before(b, c)
    ensures Before(a, c)
  {
    if StrLess(a.0, b.0) && StrLess(b.0, c.0) {
      StrLessTransitive(a.0, b.0, c.0);
    }
  }

  lemma BeforeAsymmetric(a: ScoredEntry, b: ScoredEntry)
    ensures !(Before(a, b) && Before(b, a))
  {
    if Before(a, b) && Before(b, a) {
      BeforeTransitive(a, b, a);
      BeforeIrreflexive(a);
    }
  }

  /** Entries of different words are always ordered one way or the other. */
  lemma BeforeTotal(a: ScoredEntry, b: ScoredEntry)
    requires a.0 != b.0
    ensures Before(a, b) || Before(b, a)
  {
    StrLessTotal(a.0, b.0);
  }

  /** Insertion after every entry that does not sort after e: stable. */
  function Insert(e: ScoredEntry, s: seq<ScoredEntry>): seq<ScoredEntry> {
    if s == [] || Before(e, s[0]) then [e] + s else [s[0]] + Insert(e, s[1..])
  }

  /** sorted(items, key=...): a stable sort, here by insertion of each item in turn. */
  function SortByKey(s: seq<ScoredEntry>): seq<ScoredEntry> {
    if s == [] then [] else Insert(s[|s| - 1], SortByKey(s[..|s| - 1]))
  }

  /** Each entry sorts strictly before every later one. */
  predicate StrictlySorted(s: seq<ScoredEntry>) {
    forall i, j :: 0 <= i < j < |s| ==> Before(s[i], s[j])
  }

  lemma {:induction false} InsertPermutes(e: ScoredEntry, s: seq<ScoredEntry>)
    ensures multiset(Insert(e, s)) == multiset(s) + multiset{e}
  {
    if s != [] && !Before(e, s[0]) {
      InsertPermutes(e, s[1..]);
      assert s == [s[0]] + s[1..];
    }
  }

  lemma {:induction false} InsertKeys(e: ScoredEntry, s: seq<ScoredEntry>, w: string)
    ensures w in Keys(Insert(e, s)) <==> w == e.0 || w in Keys(s)
  {
    if s != [] && !Before(e, s[0]) {
      InsertKeys(e, s[1..], w);
      assert ([s[0]] + Insert(e, s[1..]))[1..] == Insert(e, s[1..]);
    } else {
      assert ([e] + s)[1..] == s;
    }
  }

  lemma {:induction false} InsertUnique(e: ScoredEntry, s: seq<ScoredEntry>)
    requires UniqueKeys(s) && e.0 !in Keys(s)
    ensures UniqueKeys(Insert(e, s))
  {
    if s != [] && !Before(e, s[0]) {
      InsertUnique(e, s[1..]);
      InsertKeys(e, s[1..], s[0].0);
      assert ([s[0]] + Insert(e, s[1..]))[1..] == Insert(e, s[1..]);
    } else {
      assert ([e] + s)[1..] == s;
    }
  }

  /** Inserting a new word into a strictly sorted list keeps it strictly sorted. */
  lemma {:induction false} InsertSorted(e: ScoredEntry, s: seq<ScoredEntry>)
    requires StrictlySorted(s) && e.0 !in Keys(s)
    ensures StrictlySorted(Insert(e, s))
  {
    if s == [] {
    } else if Before(e, s[0]) {
      forall j | 0 < j < |s| ensures Before(e, s[j]) {
        BeforeTransitive(e, s[0], s[j]);
      }
    } else {
      assert s[0].0 != e.0;
      BeforeTotal(e, s[0]);
      var t := Insert(e, s[1..]);
      InsertSorted(e, s[1..]);
      InsertPermutes(e, s[1..]);
      forall j | 0 <= j < |t| ensures Before(s[0], t[j]) {
        assert t[j] in multiset(t);
        if t[j] != e {
          assert t[j] in multiset(s[1..]);
          var k :| 0 <= k < |s[1..]| && s[1..][k] == t[j];
          assert s[k + 1] == t[j];
        }
      }
    }
  }

  /** sorted() rearranges the items and drops or adds none. */
  lemma {:induction false} SortPermutes(s: seq<ScoredEntry>)
    ensures multiset(SortByKey(s)) == multiset(s)
  {
    if s != [] {
      var n := |s| - 1;
      SortPermutes(s[..n]);
      InsertPermutes(s[n], SortByKey(s[..n]));
      assert s == s[..n] + [s[n]];
    }
  }

  /** Sorting keeps the set of words and their uniqueness. */
  lemma {:induction false} SortKeys(s: seq<ScoredEntry>)
    requires UniqueKeys(s)
    ensures UniqueKeys(SortByKey(s))
    ensures forall w :: w in Keys(SortByKey(s)) <==> w in Keys(s)
  {
    if s != [] {
      var n := |s| - 1;
      UniqueKeysPrefix(s, n);
      SortKeys(s[..n]);
      InsertUnique(s[n], SortByKey(s[..n]));
      KeysAppend(s[..n], [s[n]]);
      assert s == s[..n] + [s[n]];
      forall w ensures w in Keys(SortByKey(s)) <==> w in Keys(s) {
        InsertKeys(s[n], SortByKey(s[..n]), w);
      }
    }
  }

  /** With distinct words, as in a dict, the sorted items are in strictly increasing key order. */
  lemma {:induction false} SortSorted(s: seq<ScoredEntry>)
    requires UniqueKeys(s)
    ensures StrictlySorted(SortByKey(s))
  {
    if s != [] {
      var n := |s| - 1;
      UniqueKeysPrefix(s, n);
      SortSorted(s[..n]);
      SortKeys(s[..n]);
      InsertSorted(s[n], SortByKey(s[..n]));
    }
  }

  /** There is one strictly sorted arrangement of a collection, so any correct sort gives it. */
  lemma {:induction false} StrictlySortedUnique(a: seq<ScoredEntry>, b: seq<ScoredEntry>)
    requires StrictlySorted(a) && StrictlySorted(b) && multiset(a) == multiset(b)
    ensures a == b
  {
    if a == [] {
      assert |b| == |multiset(b)| == 0;
    } else {
      assert a[0] in multiset(b);
      assert b != [];
      SameHead(a, b);
      SameTails(a, b);
      assert StrictlySorted(a[1..]) by {
        forall i, j | 0 <= i < j < |a[1..]| ensures Before(a[1..][i], a[1..][j]) {
          assert a[1..][i] == a[i + 1] && a[1..][j] == a[j + 1];
        }
      }
      assert StrictlySorted(b[1..]) by {
        forall i, j | 0 <= i < j < |b[1..]| ensures Before(b[1..][i], b[1..][j]) {
          assert b[1..][i] == b[i + 1] && b[1..][j] == b[j + 1];
        }
      }
      StrictlySortedUnique(a[1..], b[1..]);
    }
  }

  /** Two strictly sorted arrangements of one collection start with the same entry. */
  lemma SameHead(a: seq<ScoredEntry>, b: seq<ScoredEntry>)
    requires StrictlySorted(a) && StrictlySorted(b) && multiset(a) == multiset(b) && a != [] && b != []
    ensures a[0] == b[0]
  {
    assert a[0] in multiset(b);
    assert b[0] in multiset(a);
    var k :| 0 <= k < |b| && b[k] == a[0];
    var l :| 0 <= l < |a| && a[l] == b[0];
    assert a[0] == b[0] || Before(b[0], a[0]);
    assert a[0] == b[0] || Before(a[0], b[0]);
    BeforeAsymmetric(a[0], b[0]);
  }

  lemma SameTails(a: seq<ScoredEntry>, b: seq<ScoredEntry>)
    requires multiset(a) == multiset(b) && a != [] && b != [] && a[0] == b[0]
    ensures multiset(a[1..]) == multiset(b[1..])
  {
    assert a == [a[0]] + a[1..] && b == [b[0]] + b[1..];
    assert multiset(a) == multiset{a[0]} + multiset(a[1..]);
    assert multiset(b) == multiset{a[0]} + multiset(b[1..]);
    forall x ensures multiset(a[1..])[x] == multiset(b[1..])[x] {
      assert multiset(a)[x] == multiset{a[0]}[x] + multiset(a[1..])[x];
      assert multiset(b)[x] == multiset{a[0]}[x] + multiset(b[1..])[x];
    }
  }
}
