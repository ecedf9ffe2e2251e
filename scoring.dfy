/**
 * get_chapter_word_freqs (build_website.py:59-102): the relative frequency of every
 * word of a chapter against its frequency in the whole Bible.
 *
 * A chapter's frequency list is a sequence of groups (count, words), the first of
 * them the chapter total tagged ["TOTAL WORDS"]. Each word of every other group gets
 * [times_in_chapter, times_in_bible, simple, weighted] with
 *   simple   = words_in_bible * times_in_chapter / times_in_bible
 *   weighted = simple / words_in_chapter + (times_in_chapter - 1)
 * both passed through round_4_to_6_sigfigs.
 */
module Scoring {
  import opened Wrappers
  import opened Failures
  import opened Rounding
  import opened OrderedMaps

  const TotalWords := "TOTAL WORDS"

  /** One entry of a chapter's frequency list: a count and the words that occur that often. */
  datatype Group = Group(count: int, words: seq<string>)

  /** A values list: [times_in_chapter, times_in_bible, simple, weighted], or [words_in_chapter]. */
  type Values = seq<Number>

  /** The totals group, skipped by the scoring loop. */
  predicate IsTotals(g: Group) {
    g.words == ["TOTAL WORDS"]
  }

  function SimpleScore(wordsInBible: int, timesInChapter: int, timesInBible: int): real
    requires timesInBible != 0
  {
    (wordsInBible * timesInChapter) as real / timesInBible as real
  }

  function WeightedScore(simple: real, wordsInChapter: int, timesInChapter: int): real
    requires wordsInChapter != 0
  {
    simple / wordsInChapter as real + (timesInChapter - 1) as real
  }

  /**
   * The values list of one word, or the exception building it raises: the corpus
   * lookup (KeyError), the division by times_in_bible, the rounding of simple, the
   * division by words_in_chapter and the rounding of weighted, in that order.
   */
  function ScoreWord(wordsInBible: int, wordsInChapter: int, timesInChapter: int, word: string,
                     corpus: map<string, int>): (r: Result<Values, Error>)
    ensures word !in corpus ==> r == Failure(KeyError(word))
    ensures word in corpus && corpus[word] == 0 ==> r == Failure(ZeroDivisionError)
    ensures r.Success? <==>
      && word in corpus && corpus[word] != 0
      && RoundSigFigs(SimpleScore(wordsInBible, timesInChapter, corpus[word])).Success?
      && wordsInChapter != 0
      && RoundSigFigs(WeightedScore(SimpleScore(wordsInBible, timesInChapter, corpus[word]),
                                    wordsInChapter, timesInChapter)).Success?
    ensures r.Success? ==>
      var simple := SimpleScore(wordsInBible, timesInChapter, corpus[word]);
      r.value == [Int(timesInChapter), Int(corpus[word]), RoundSigFigs(simple).value,
                  RoundSigFigs(WeightedScore(simple, wordsInChapter, timesInChapter)).value]
  {
    if word !in corpus then Failure(KeyError(word))
    else
      var timesInBible := corpus[word];
      if timesInBible == 0 then Failure(ZeroDivisionError)
      else
        var simple := SimpleScore(wordsInBible, timesInChapter, timesInBible);
        var roundedSimple :- RoundSigFigs(simple);
        if wordsInChapter == 0 then Failure(ZeroDivisionError)
        else
          var roundedWeighted :- RoundSigFigs(WeightedScore(simple, wordsInChapter, timesInChapter));
          Success([Int(timesInChapter), Int(timesInBible), roundedSimple, roundedWeighted])
  }

  /** The (count, word) pairs of a word list, in order. */
  function Pairs(count: int, words: seq<string>): seq<(int, string)> {
    if words == [] then [] else Pairs(count, words[..|words| - 1]) + [(count, words[|words| - 1])]
  }

  /** The (times_in_chapter, word) pairs one group contributes: none for the totals group. */
  function GroupVisits(g: Group): seq<(int, string)> {
    if IsTotals(g) then [] else Pairs(g.count, g.words)
  }

  /** The pairs the nested loops visit, in order. */
  function Visits(groups: seq<Group>): seq<(int, string)> {
    if groups == [] then [] else Visits(groups[..|groups| - 1]) + GroupVisits(groups[|groups| - 1])
  }

  /** The words of a sequence of visits. */
  function Words(vs: seq<(int, string)>): seq<string> {
    if vs == [] then [] else Words(vs[..|vs| - 1]) + [vs[|vs| - 1].1]
  }

  lemma {:induction false} PairsAppend(count: int, a: seq<string>, b: seq<string>)
    ensures Pairs(count, a + b) == Pairs(count, a) + Pairs(count, b)
  {
    if b == [] {
      assert a + b == a;
    } else {
      var n := |b| - 1;
      assert (a + b)[..|a + b| - 1] == a + b[..n];
      PairsAppend(count, a, b[..n]);
    }
  }

  lemma {:induction false} WordsOfPairs(count: int, words: seq<string>)
    ensures Words(Pairs(count, words)) == words
  {
    if words != [] {
      var n := |words| - 1;
      var init := Pairs(count, words[..n]);
      WordsOfPairs(count, words[..n]);
      assert (init + [(count, words[n])])[..|init|] == init;
      assert words == words[..n] + [words[n]];
    }
  }

  lemma {:induction false} WordsAppend(a: seq<(int, string)>, b: seq<(int, string)>)
    ensures Words(a + b) == Words(a) + Words(b)
  {
    if b == [] {
      assert a + b == a;
    } else {
      var n := |b| - 1;
      assert (a + b)[..|a + b| - 1] == a + b[..n];
      WordsAppend(a, b[..n]);
    }
  }

  /** The visited words are the words of the groups other than the totals group. */
  lemma {:induction false} VisitWords(groups: seq<Group>, w: string)
    ensures w in Words(Visits(groups)) <==>
      exists k :: 0 <= k < |groups| && !IsTotals(groups[k]) && w in groups[k].words
  {
    if groups != [] {
      var n := |groups| - 1;
      var g := groups[n];
      VisitWords(groups[..n], w);
      WordsAppend(Visits(groups[..n]), GroupVisits(g));
      if !IsTotals(g) {
        WordsOfPairs(g.count, g.words);
      }
      if exists k :: 0 <= k < |groups| && !IsTotals(groups[k]) && w in groups[k].words {
        var k :| 0 <= k < |groups| && !IsTotals(groups[k]) && w in groups[k].words;
        if k < n {
          assert groups[..n][k] == groups[k];
        }
      }
    }
  }

  /** A visit's values list, or the exception computing it raises. */
  type Scorer = ((int, string)) -> Result<Values, Error>

  /** The scorer of get_chapter_word_freqs for one chapter. */
  function ChapterScorer(wordsInBible: int, wordsInChapter: int, corpus: map<string, int>): Scorer {
    (v: (int, string)) => ScoreWord(wordsInBible, wordsInChapter, v.0, v.1, corpus)
  }

  /**
   * Assigning d[word] = score((count, word)) for each visit in turn, starting from d == m,
   * or the first exception raised.
   */
  function Fold(score: Scorer, m: OrderedMap<Values>, vs: seq<(int, string)>): Result<OrderedMap<Values>, Error> {
    if vs == [] then Success(m)
    else
      var prev :- Fold(score, m, vs[..|vs| - 1]);
      var last := vs[|vs| - 1];
      var values :- score(last);
      Success(Put(prev, last.1, values))
  }

  /** The outer loop: one inner loop per group but the totals group. */
  function GroupsFold(score: Scorer, groups: seq<Group>): Result<OrderedMap<Values>, Error> {
    if groups == [] then Success([])
    else
      var m :- GroupsFold(score, groups[..|groups| - 1]);
      var g := groups[|groups| - 1];
      if IsTotals(g) then Success(m) else Fold(score, m, Pairs(g.count, g.words))
  }

  /** get_chapter_word_freqs as a function of its inputs. */
  function ChapterWordFreqs(wordsInBible: int, wordsInChapter: int, groups: seq<Group>,
                            corpus: map<string, int>): Result<OrderedMap<Values>, Error>
  {
    GroupsFold(ChapterScorer(wordsInBible, wordsInChapter, corpus), groups)
  }

  /** Folding over a + b is folding over a, then over b from where a left off. */
  lemma {:induction false} FoldAppend(score: Scorer, m: OrderedMap<Values>, a: seq<(int, string)>,
                                      b: seq<(int, string)>)
    ensures Fold(score, m, a + b)
         == if Fold(score, m, a).Failure? then Fold(score, m, a) else Fold(score, Fold(score, m, a).value, b)
  {
    if b == [] {
      assert a + b == a;
    } else {
      var n := |b| - 1;
      assert (a + b)[..|a + b| - 1] == a + b[..n];
      FoldAppend(score, m, a, b[..n]);
    }
  }

  /** The nested loops make exactly the flat sequence of visits. */
  lemma {:induction false} GroupsFoldFlat(score: Scorer, groups: seq<Group>)
    ensures GroupsFold(score, groups) == Fold(score, [], Visits(groups))
  {
    if groups != [] {
      var n := |groups| - 1;
      GroupsFoldFlat(score, groups[..n]);
      FoldAppend(score, [], Visits(groups[..n]), GroupVisits(groups[n]));
    }
  }

  /** The dict holds the keys it started with and the visited words, each once. */
  lemma {:induction false} FoldKeys(score: Scorer, m: OrderedMap<Values>, vs: seq<(int, string)>)
    requires UniqueKeys(m) && Fold(score, m, vs).Success?
    ensures var r := Fold(score, m, vs).value;
      UniqueKeys(r) && forall w :: w in Keys(r) <==> w in Keys(m) || w in Words(vs)
  {
    if vs != [] {
      var n := |vs| - 1;
      FoldKeys(score, m, vs[..n]);
      var prev := Fold(score, m, vs[..n]).value;
      var values := score(vs[n]).value;
      PutUnique(prev, vs[n].1, values);
      forall w ensures w in Keys(Put(prev, vs[n].1, values)) <==> w in Keys(m) || w in Words(vs) {
        PutKeySet(prev, vs[n].1, values, w);
      }
    }
  }

  /** A word's values come from its last visit. */
  lemma {:induction false} FoldLastVisit(score: Scorer, m: OrderedMap<Values>, vs: seq<(int, string)>, i: nat)
    requires Fold(score, m, vs).Success?
    requires i < |vs| && forall j :: i < j < |vs| ==> vs[j].1 != vs[i].1
    ensures score(vs[i]).Success?
    ensures Get(Fold(score, m, vs).value, vs[i].1) == Some(score(vs[i]).value)
  {
    var n := |vs| - 1;
    var init := vs[..n];
    var prev := Fold(score, m, init).value;
    PutGet(prev, vs[n].1, score(vs[n]).value, vs[i].1);
    if i < n {
      assert init[i] == vs[i];
      FoldLastVisit(score, m, init, i);
    }
  }

  /** The call raises exactly the exception of its first failing visit. */
  lemma {:induction false} FoldFirstFailure(score: Scorer, m: OrderedMap<Values>, vs: seq<(int, string)>, i: nat)
    requires i < |vs| && score(vs[i]).Failure?
    requires forall j :: 0 <= j < i ==> score(vs[j]).Success?
    ensures Fold(score, m, vs) == Failure(score(vs[i]).error)
  {
    var n := |vs| - 1;
    var init := vs[..n];
    if i < n {
      assert init[i] == vs[i];
      FoldFirstFailure(score, m, init, i);
    } else {
      FoldAllSucceed(score, m, init);
    }
  }

  /** When no visit fails, neither does the call. */
  lemma {:induction false} FoldAllSucceed(score: Scorer, m: OrderedMap<Values>, vs: seq<(int, string)>)
    requires forall j :: 0 <= j < |vs| ==> score(vs[j]).Success?
    ensures Fold(score, m, vs).Success?
  {
    if vs != [] {
      FoldAllSucceed(score, m, vs[..|vs| - 1]);
    }
  }

  /**
   * get_chapter_word_freqs, when it returns, holds the words of every group but the
   * totals group, each once, and nothing else.
   */
  lemma ChapterWordFreqsKeys(wordsInBible: int, wordsInChapter: int, groups: seq<Group>,
                             corpus: map<string, int>, w: string)
    requires ChapterWordFreqs(wordsInBible, wordsInChapter, groups, corpus).Success?
    ensures var m := ChapterWordFreqs(wordsInBible, wordsInChapter, groups, corpus).value;
      UniqueKeys(m) &&
      (w in Keys(m) <==> exists k :: 0 <= k < |groups| && !IsTotals(groups[k]) && w in groups[k].words)
  {
    var score := ChapterScorer(wordsInBible, wordsInChapter, corpus);
    GroupsFoldFlat(score, groups);
    FoldKeys(score, [], Visits(groups));
    VisitWords(groups, w);
  }

  /** Every entry holds a full values list [times_in_chapter, times_in_bible, simple, weighted]. */
  predicate AllScored(m: OrderedMap<Values>) {
    forall i :: 0 <= i < |m| ==> |m[i].1| == 4
  }

  lemma {:induction false} PutScored(m: OrderedMap<Values>, k: string, v: Values)
    requires AllScored(m) && |v| == 4
    ensures AllScored(Put(m, k, v))
  {
    if m != [] && m[0].0 != k {
      assert AllScored(m[1..]) by {
        forall i | 0 <= i < |m[1..]| ensures |m[1..][i].1| == 4 {
          assert m[1..][i] == m[i + 1];
        }
      }
      PutScored(m[1..], k, v);
    }
  }

  lemma {:induction false} FoldScored(score: Scorer, m: OrderedMap<Values>, vs: seq<(int, string)>)
    requires AllScored(m) && Fold(score, m, vs).Success?
    requires forall v :: score(v).Success? ==> |score(v).value| == 4
    ensures AllScored(Fold(score, m, vs).value)
  {
    if vs != [] {
      var n := |vs| - 1;
      FoldScored(score, m, vs[..n]);
      PutScored(Fold(score, m, vs[..n]).value, vs[n].1, score(vs[n]).value);
    }
  }

  /** Every values list get_chapter_word_freqs returns has its four fields. */
  lemma ChapterWordFreqsScored(wordsInBible: int, wordsInChapter: int, groups: seq<Group>,
                               corpus: map<string, int>)
    requires ChapterWordFreqs(wordsInBible, wordsInChapter, groups, corpus).Success?
    ensures AllScored(ChapterWordFreqs(wordsInBible, wordsInChapter, groups, corpus).value)
  {
    var score := ChapterScorer(wordsInBible, wordsInChapter, corpus);
    GroupsFoldFlat(score, groups);
    FoldScored(score, [], Visits(groups));
  }

  /**
   * Each word's values list is the one computed at its last visit, in the order the
   * loops visit the groups and their words.
   */
  lemma ChapterWordFreqsValues(wordsInBible: int, wordsInChapter: int, groups: seq<Group>,
                               corpus: map<string, int>, i: nat)
    requires ChapterWordFreqs(wordsInBible, wordsInChapter, groups, corpus).Success?
    requires var vs := Visits(groups); i < |vs| && forall j :: i < j < |vs| ==> vs[j].1 != vs[i].1
    ensures var v := Visits(groups)[i];
      var values := ScoreWord(wordsInBible, wordsInChapter, v.0, v.1, corpus);
      values.Success? &&
      Get(ChapterWordFreqs(wordsInBible, wordsInChapter, groups, corpus).value, v.1) == Some(values.value)
  {
    var score := ChapterScorer(wordsInBible, wordsInChapter, corpus);
    GroupsFoldFlat(score, groups);
    FoldLastVisit(score, [], Visits(groups), i);
  }

  /**
   * get_chapter_word_freqs raises exactly when some visited word raises, and then it
   * raises what the first such word raises.
   */
  lemma ChapterWordFreqsFailure(wordsInBible: int, wordsInChapter: int, groups: seq<Group>,
                                corpus: map<string, int>)
    ensures var vs := Visits(groups);
      ChapterWordFreqs(wordsInBible, wordsInChapter, groups, corpus).Failure? <==>
      exists i :: 0 <= i < |vs| && ScoreWord(wordsInBible, wordsInChapter, vs[i].0, vs[i].1, corpus).Failure?
    ensures var vs := Visits(groups);
      forall i :: 0 <= i < |vs| && ScoreWord(wordsInBible, wordsInChapter, vs[i].0, vs[i].1, corpus).Failure? &&
        (forall j :: 0 <= j < i ==> ScoreWord(wordsInBible, wordsInChapter, vs[j].0, vs[j].1, corpus).Success?)
        ==> ChapterWordFreqs(wordsInBible, wordsInChapter, groups, corpus)
            == Failure(ScoreWord(wordsInBible, wordsInChapter, vs[i].0, vs[i].1, corpus).error)
  {
    var score := ChapterScorer(wordsInBible, wordsInChapter, corpus);
    var vs := Visits(groups);
    GroupsFoldFlat(score, groups);
    forall i | 0 <= i < |vs| && score(vs[i]).Failure? && (forall j :: 0 <= j < i ==> score(vs[j]).Success?)
      ensures Fold(score, [], vs) == Failure(score(vs[i]).error)
    {
      FoldFirstFailure(score, [], vs, i);
    }
    if exists i :: 0 <= i < |vs| && score(vs[i]).Failure? {
      var i := FirstFailing(score, vs);
      FoldFirstFailure(score, [], vs, i);
    } else {
      FoldAllSucceed(score, [], vs);
    }
  }

  /** The position of the first failing visit. */
  function FirstFailing(score: Scorer, vs: seq<(int, string)>): (i: nat)
    requires exists i :: 0 <= i < |vs| && score(vs[i]).Failure?
    ensures i < |vs| && score(vs[i]).Failure?
    ensures forall j :: 0 <= j < i ==> score(vs[j]).Success?
  {
    if score(vs[0]).Failure? then 0
    else
      assert exists i :: 0 <= i < |vs[1..]| && score(vs[1..][i]).Failure? by {
        var i :| 0 <= i < |vs| && score(vs[i]).Failure?;
        assert vs[1..][i - 1] == vs[i];
      }
      1 + FirstFailing(score, vs[1..])
  }

  /**
   * Of two words with the same simple score, the one seen more often in the chapter has
   * the larger weighted score; once both are rounded, a gap of two occurrences or more
   * still separates them (a gap of one may not: see WeightedTie).
   */
  lemma WeightedRanksByCount(wordsInBible: int, wordsInChapter: int, c1: int, t1: int, c2: int, t2: int)
    requires wordsInBible >= 0 && wordsInChapter > 0 && 1 <= c1 < c2 && t1 > 0 && t2 > 0
    requires SimpleScore(wordsInBible, c1, t1) == SimpleScore(wordsInBible, c2, t2)
    ensures var simple := SimpleScore(wordsInBible, c1, t1);
      WeightedScore(simple, wordsInChapter, c1) < WeightedScore(simple, wordsInChapter, c2)
    ensures var simple := SimpleScore(wordsInBible, c1, t1);
      var w1 := RoundSigFigs(WeightedScore(simple, wordsInChapter, c1));
      var w2 := RoundSigFigs(WeightedScore(simple, wordsInChapter, c2));
      c2 - c1 >= 2 && w1.Success? && w2.Success? ==> w1.value.Value() < w2.value.Value()
  {
    var simple := SimpleScore(wordsInBible, c1, t1);
    assert simple >= 0.0 by {
      assert (wordsInBible * c1) as real >= 0.0;
    }
    var x1 := WeightedScore(simple, wordsInChapter, c1);
    var x2 := WeightedScore(simple, wordsInChapter, c2);
    assert simple / wordsInChapter as real >= 0.0;
    if RoundSigFigs(x1).Success? {
      RoundSigFigsError(x1);
    }
    if RoundSigFigs(x2).Success? {
      RoundSigFigsError(x2);
    }
  }

  /**
   * Both scores of a word seen at least once in a chapter and in the Bible are
   * non-negative (with times_in_chapter = 0 the weighted score could reach -1).
   */
  lemma ScoresNonNegative(wordsInBible: int, wordsInChapter: int, timesInChapter: int, word: string,
                          corpus: map<string, int>)
    requires wordsInBible >= 0 && wordsInChapter > 0 && timesInChapter >= 1
    requires word in corpus && corpus[word] > 0
    requires ScoreWord(wordsInBible, wordsInChapter, timesInChapter, word, corpus).Success?
    ensures var v := ScoreWord(wordsInBible, wordsInChapter, timesInChapter, word, corpus).value;
      v[2].Value() >= 0.0 && v[3].Value() >= 0.0
  {
    var simple := SimpleScore(wordsInBible, timesInChapter, corpus[word]);
    var weighted := WeightedScore(simple, wordsInChapter, timesInChapter);
    UnroundedNonNegative(wordsInBible, wordsInChapter, timesInChapter, corpus[word]);
    RoundSigFigsNonNegative(simple);
    RoundSigFigsNonNegative(weighted);
  }

  lemma UnroundedNonNegative(wordsInBible: int, wordsInChapter: int, timesInChapter: int, timesInBible: int)
    requires wordsInBible >= 0 && wordsInChapter > 0 && timesInChapter >= 1 && timesInBible > 0
    ensures var simple := SimpleScore(wordsInBible, timesInChapter, timesInBible);
      simple >= 0.0 && WeightedScore(simple, wordsInChapter, timesInChapter) >= 0.0
  {
    var simple := SimpleScore(wordsInBible, timesInChapter, timesInBible);
    assert simple >= 0.0 by {
      assert (wordsInBible * timesInChapter) as real >= 0.0;
    }
    assert simple / wordsInChapter as real >= 0.0;
  }

  /** Exodus 5: "straw", 8 of its 16 occurrences, outranks "dealest", 1 of 2, in a 500-word chapter. */
  lemma StrawOutranksDealest()
    ensures ScoreWord(790663, 500, 8, "straw", map["straw" := 16])
         == Success([Int(8), Int(16), Int(395332), Float(797.7)])
    ensures ScoreWord(790663, 500, 1, "dealest", map["dealest" := 2])
         == Success([Int(1), Int(2), Int(395332), Float(790.7)])
  {
    RoundSigFigsExamples();
    assert SimpleScore(790663, 8, 16) == 395331.5 == SimpleScore(790663, 1, 2);
    assert WeightedScore(395331.5, 500, 8) == 797.663;
    assert WeightedScore(395331.5, 500, 1) == 790.663;
    Pow10Values();
    assert RoundSig(797.663, 4) == RoundSig(7976.63, 4) / 10.0;
    RoundHalfEvenUnique(7976.63, 7977);
    assert RoundSig(790.663, 4) == RoundSig(7906.63, 4) / 10.0;
    RoundHalfEvenUnique(7906.63, 7907);
  }

  /** Counts one apart can tie once rounded: weighted 1001.5 and 1002.5 both round to 1002. */
  lemma WeightedTie()
    ensures ScoreWord(2003, 2, 1, "a", map["a" := 1, "b" := 2]) == Success([Int(1), Int(1), Int(2003), Int(1002)])
    ensures ScoreWord(2003, 2, 2, "b", map["a" := 1, "b" := 2]) == Success([Int(2), Int(2), Int(2003), Int(1002)])
  {
    assert SimpleScore(2003, 1, 1) == 2003.0 == SimpleScore(2003, 2, 2);
    assert WeightedScore(2003.0, 2, 1) == 1001.5;
    assert WeightedScore(2003.0, 2, 2) == 1002.5;
    TieRoundings();
  }

  lemma TieRoundings()
    ensures RoundSigFigs(2003.0) == Success(Int(2003))
    ensures RoundSigFigs(1001.5) == Success(Int(1002))
    ensures RoundSigFigs(1002.5) == Success(Int(1002))
  {
    RoundHalfEvenOfInteger(2003);
    RoundHalfEvenUnique(1001.5, 1002);
    RoundHalfEvenUnique(1002.5, 1002);
  }

  /** Once an exception is raised, later words of the group are not visited. */
  lemma FoldFailurePrefix(score: Scorer, m: OrderedMap<Values>, count: int, words: seq<string>, k: nat)
    requires k <= |words| && Fold(score, m, Pairs(count, words[..k])).Failure?
    ensures Fold(score, m, Pairs(count, words)) == Fold(score, m, Pairs(count, words[..k]))
  {
    assert words == words[..k] + words[k..];
    PairsAppend(count, words[..k], words[k..]);
    FoldAppend(score, m, Pairs(count, words[..k]), Pairs(count, words[k..]));
  }

  /** Once an exception is raised, later groups are not visited. */
  lemma {:induction false} GroupsFailurePrefix(score: Scorer, groups: seq<Group>, k: nat)
    requires k <= |groups| && GroupsFold(score, groups[..k]).Failure?
    ensures GroupsFold(score, groups) == GroupsFold(score, groups[..k])
    decreases |groups| - k
  {
    if k == |groups| {
      assert groups[..k] == groups;
    } else {
      assert groups[..k + 1][..k] == groups[..k];
      GroupsFailurePrefix(score, groups, k + 1);
    }
  }

  /** One more word of a group: its values are assigned, or its exception ends the loop. */
  lemma FoldStep(score: Scorer, m: OrderedMap<Values>, count: int, words: seq<string>, wi: nat)
    requires wi < |words|
    ensures Fold(score, m, Pairs(count, words[..wi + 1]))
         == if Fold(score, m, Pairs(count, words[..wi])).Failure? then Fold(score, m, Pairs(count, words[..wi]))
            else var values := score((count, words[wi]));
              if values.Failure? then Failure(values.error)
              else Success(Put(Fold(score, m, Pairs(count, words[..wi])).value, words[wi], values.value))
  {
    assert words[..wi + 1][..wi] == words[..wi];
    var ps := Pairs(count, words[..wi + 1]);
    assert ps[..|ps| - 1] == Pairs(count, words[..wi]);
  }

  /**
   * The inner loop of get_chapter_word_freqs over the words of one group: assigns each
   * word its values list, returning as soon as a lookup, a division or a rounding raises.
   */
  method ScoreGroup(wordsInBible: int, wordsInChapter: int, g: Group, corpus: map<string, int>,
                    chapterWordFreqs: OrderedMap<Values>)
    returns (r: Result<OrderedMap<Values>, Error>)
    ensures r == Fold(ChapterScorer(wordsInBible, wordsInChapter, corpus), chapterWordFreqs, Pairs(g.count, g.words))
  {
    ghost var score := ChapterScorer(wordsInBible, wordsInChapter, corpus);
    var freqs := chapterWordFreqs;
    var wi := 0;
    while wi < |g.words|
      invariant 0 <= wi <= |g.words|
      invariant Fold(score, chapterWordFreqs, Pairs(g.count, g.words[..wi])) == Success(freqs)
    {
      var word := g.words[wi];
      var values := ScoreWord(wordsInBible, wordsInChapter, g.count, word, corpus);
      FoldStep(score, chapterWordFreqs, g.count, g.words, wi);
      if values.Failure? {
        r := Failure(values.error);
        FoldFailurePrefix(score, chapterWordFreqs, g.count, g.words, wi + 1);
        return;
      }
      freqs := Put(freqs, word, values.value);
      wi := wi + 1;
    }
    assert g.words[..wi] == g.words;
    r := Success(freqs);
  }

  /**
   * get_chapter_word_freqs: the outer loop over the groups, skipping the totals group,
   * returning as soon as a word of a group raises.
   */
  method GetChapterWordFreqs(wordsInBible: int, wordsInChapter: int, groups: seq<Group>,
                             corpus: map<string, int>)
    returns (r: Result<OrderedMap<Values>, Error>)
    ensures r == ChapterWordFreqs(wordsInBible, wordsInChapter, groups, corpus)
  {
    ghost var score := ChapterScorer(wordsInBible, wordsInChapter, corpus);
    var chapterWordFreqs: OrderedMap<Values> := [];
    var gi := 0;
    while gi < |groups|
      invariant 0 <= gi <= |groups|
      invariant GroupsFold(score, groups[..gi]) == Success(chapterWordFreqs)
    {
      var g := groups[gi];
      assert groups[..gi + 1][..gi] == groups[..gi];
      if g.words != ["TOTAL WORDS"] {
        var scored := ScoreGroup(wordsInBible, wordsInChapter, g, corpus, chapterWordFreqs);
        if scored.Failure? {
          r := Failure(scored.error);
          GroupsFailurePrefix(score, groups, gi + 1);
          return;
        }
        chapterWordFreqs := scored.value;
      }
      gi := gi + 1;
    }
    assert groups[..gi] == groups;
    r := Success(chapterWordFreqs);
  }
}
