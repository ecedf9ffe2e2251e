/**
 * get_relative_word_frequency (build_website.py:105-121): the chapter's header entry
 * "TOTAL WORDS" -> [words_in_chapter], then every scored word in key order.
 */
module Ranking {
  import opened Wrappers
  import opened Failures
  import opened Rounding
  import opened OrderedMaps
  import opened Scoring
  import opened SortKey

  /** The header entry: the chapter's word count, the first key of its frequency list. */
  function Header(wordsInChapter: int): (string, Values) {
    (TotalWords, [Int(wordsInChapter)])
  }

  /** get_relative_word_frequency as a function of its inputs. */
  function RelativeWordFrequency(wordsInBible: int, groups: seq<Group>, corpus: map<string, int>)
    : Result<OrderedMap<Values>, Error>
  {
    if groups == [] then Failure(StopIteration)
    else
      var wordsInChapter := groups[0].count;
      var freqs :- ChapterWordFreqs(wordsInBible, wordsInChapter, groups, corpus);
      ChapterWordFreqsScored(wordsInBible, wordsInChapter, groups, corpus);
      Success(PutAll([Header(wordsInChapter)], SortByKey(freqs)))
  }

  /**
   * The loop of get_relative_word_frequency: the header first, then each sorted item
   * assigned in turn.
   */
  method GetRelativeWordFrequency(wordsInBible: int, groups: seq<Group>, corpus: map<string, int>)
    returns (r: Result<OrderedMap<Values>, Error>)
    ensures r == RelativeWordFrequency(wordsInBible, groups, corpus)
  {
    if |groups| == 0 {
      return Failure(StopIteration);
    }
    var wordsInChapter := groups[0].count;
    var relativeWordFrequency: OrderedMap<Values> := [];
    relativeWordFrequency := Put(relativeWordFrequency, TotalWords, [Int(wordsInChapter)]);
    var chapterWordFreqs := GetChapterWordFreqs(wordsInBible, wordsInChapter, groups, corpus);
    if chapterWordFreqs.Failure? {
      return Failure(chapterWordFreqs.error);
    }
    ChapterWordFreqsScored(wordsInBible, wordsInChapter, groups, corpus);
    var items := SortByKey(chapterWordFreqs.value);
    for i := 0 to |items|
      invariant relativeWordFrequency == PutAll([Header(wordsInChapter)], items[..i])
    {
      assert items[..i + 1][..i] == items[..i];
      relativeWordFrequency := Put(relativeWordFrequency, items[i].0, items[i].1);
    }
    assert items[..|items|] == items;
    r := Success(relativeWordFrequency);
  }

  /**
   * Unless a scored word is itself "TOTAL WORDS", the result is the header followed by
   * the scored words, rearranged into strictly increasing key order.
   */
  lemma RankedLayout(wordsInBible: int, groups: seq<Group>, corpus: map<string, int>)
    requires RelativeWordFrequency(wordsInBible, groups, corpus).Success?
    requires forall k :: 0 <= k < |groups| && !IsTotals(groups[k]) ==> TotalWords !in groups[k].words
    ensures var r := RelativeWordFrequency(wordsInBible, groups, corpus).value;
      var freqs := ChapterWordFreqs(wordsInBible, groups[0].count, groups, corpus).value;
      && AllScored(freqs)
      && r == [Header(groups[0].count)] + SortByKey(freqs)
      && StrictlySorted(SortByKey(freqs))
      && multiset(SortByKey(freqs)) == multiset(freqs)
  {
    var wordsInChapter := groups[0].count;
    var freqs := ChapterWordFreqs(wordsInBible, wordsInChapter, groups, corpus).value;
    ChapterWordFreqsScored(wordsInBible, wordsInChapter, groups, corpus);
    ChapterWordFreqsKeys(wordsInBible, wordsInChapter, groups, corpus, TotalWords);
    var sorted := SortByKey(freqs);
    SortKeys(freqs);
    SortSorted(freqs);
    SortPermutes(freqs);
    assert UniqueKeys([Header(wordsInChapter)] + sorted) by {
      assert ([Header(wordsInChapter)] + sorted)[1..] == sorted;
    }
    PutAllFresh([Header(wordsInChapter)], sorted);
  }

  /**
   * The keys of the result are "TOTAL WORDS" and the words of every group but the
   * totals group, each once.
   */
  lemma RankedWords(wordsInBible: int, groups: seq<Group>, corpus: map<string, int>, w: string)
    requires RelativeWordFrequency(wordsInBible, groups, corpus).Success?
    ensures var r := RelativeWordFrequency(wordsInBible, groups, corpus).value;
      && UniqueKeys(r)
      && (w in Keys(r) <==> w == TotalWords || exists k :: 0 <= k < |groups| && !IsTotals(groups[k]) && w in groups[k].words)
  {
    var wordsInChapter := groups[0].count;
    var freqs := ChapterWordFreqs(wordsInBible, wordsInChapter, groups, corpus).value;
    ChapterWordFreqsScored(wordsInBible, wordsInChapter, groups, corpus);
    ChapterWordFreqsKeys(wordsInBible, wordsInChapter, groups, corpus, w);
    SortKeys(freqs);
    PutAllKeys([Header(wordsInChapter)], SortByKey(freqs), w);
  }
}
