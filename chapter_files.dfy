/**
 * The per-chapter outputs of build_website.py: the chapter and book taken from a
 * chapter key such as "Gen 1" (build_website.py:198, 266-267), the name of the chapter's
 * CSV file (build_website.py:200-201), the CSV rows (write_chapter_csv,
 * build_website.py:124-153) and the HTML table rows with the removal of the header
 * entry from the caller's dict (write_chapter_html, build_website.py:156-184).
 */
module ChapterFiles {
  import opened Wrappers
  import opened Failures
  import opened Rounding
  import opened Strings
  import opened OrderedMaps
  import opened Scoring
  import opened SortKey
  import opened Ranking

  /** s[i:] */
  function SliceFrom(s: string, i: nat): string {
    if i <= |s| then s[i..] else ""
  }

  /** s[:j] */
  function SliceTo(s: string, j: nat): string {
    if j <= |s| then s[..j] else s
  }

  /** chapter = key[4:] */
  function ChapterOf(key: string): string {
    SliceFrom(key, 4)
  }

  /** book_abbrev = key[0:3] */
  function BookAbbrevOf(key: string): string {
    SliceTo(key, 3)
  }

  /** The test that starts a new book folder: len(key) == 5 and key[4] == "1". */
  predicate OpensBook(key: string) {
    |key| == 5 && key[4] == '1'
  }

  /**
   * For a key of a three-letter abbreviation, any one separator character and a chapter,
   * the slices give back the abbreviation and the chapter, and the new-book test holds
   * exactly for chapter "1".
   */
  lemma KeyFields(bookAbbrev: string, sep: char, chapter: string)
    requires |bookAbbrev| == 3
    ensures BookAbbrevOf(bookAbbrev + [sep] + chapter) == bookAbbrev
    ensures ChapterOf(bookAbbrev + [sep] + chapter) == chapter
    ensures OpensBook(bookAbbrev + [sep] + chapter) <==> chapter == "1"
  {
    var key := bookAbbrev + [sep] + chapter;
    assert key[..3] == bookAbbrev && key[4..] == chapter;
    if |chapter| == 1 && chapter[0] == '1' {
      assert chapter == "1";
    }
  }

  /** f"{book_abbrev.lower()}{chapter.zfill(3)}-word-freq.csv" */
  function ChapterCsvName(bookAbbrev: string, chapter: string): string {
    Lower(bookAbbrev) + ZFill(chapter, 3) + "-word-freq.csv"
  }

  /** The name holds the chapter number padded to three digits, its value unchanged. */
  lemma ChapterCsvNameFields(bookAbbrev: string, chapter: string)
    requires AllDigits(chapter) && |chapter| <= 3
    ensures var name := ChapterCsvName(bookAbbrev, chapter);
      var field := name[|bookAbbrev|..|bookAbbrev| + 3];
      && |name| == |bookAbbrev| + 3 + |"-word-freq.csv"|
      && name[..|bookAbbrev|] == Lower(bookAbbrev)
      && AllDigits(field) && ParseDigits(field) == ParseDigits(chapter)
      && name[|bookAbbrev| + 3..] == "-word-freq.csv"
  {
    var name := ChapterCsvName(bookAbbrev, chapter);
    var padded := ZFill(chapter, 3);
    ZFillDigits(chapter, 3);
    assert name == Lower(bookAbbrev) + padded + "-word-freq.csv";
    assert name[|bookAbbrev|..|bookAbbrev| + 3] == padded;
  }

  /** A cell of an output row: text, a number as stored, or a float formatted with format(x, ","). */
  datatype Field = Str(s: string) | Num(n: Number) | GroupedFloat(f: real)

  type Row = seq<Field>

  const CsvHeader: Row :=
    [Str("word"), Str("numInChap"), Str("numInKjv"), Str("simpleRelFreq"), Str("weightedRelFreq")]

  /**
   * The row of the i-th dict entry: the totals row for the first, a data row for the
   * others; a values list too short to index raises IndexError.
   */
  function CsvRow(wordsInBible: int, key: string, table: OrderedMap<Values>, i: nat): Result<Row, Error>
    requires i < |table|
  {
    var values := table[i].1;
    if i == 0 then
      if |values| < 1 then Failure(IndexError)
      else Success([Str("TOTAL (" + key + ")"), Num(values[0]), Num(Int(wordsInBible))])
    else if |values| < 4 then Failure(IndexError)
    else Success([Str(table[i].0), Num(values[0]), Num(values[1]), Num(values[2]), Num(values[3])])
  }

  /** The rows written after the first n entries: the header row, then one row per entry. */
  function CsvRows(wordsInBible: int, key: string, table: OrderedMap<Values>, n: nat): Result<seq<Row>, Error>
    requires n <= |table|
  {
    if n == 0 then Success([CsvHeader])
    else
      var rows :- CsvRows(wordsInBible, key, table, n - 1);
      var row :- CsvRow(wordsInBible, key, table, n - 1);
      Success(rows + [row])
  }

  /** The whole CSV file of a chapter, as rows. */
  function ChapterCsv(wordsInBible: int, key: string, table: OrderedMap<Values>): Result<seq<Row>, Error> {
    CsvRows(wordsInBible, key, table, |table|)
  }

  /** write_chapter_csv: the rows go to the writer one at a time, in dict order. */
  method WriteChapterCsv(wordsInBible: int, key: string, table: OrderedMap<Values>)
    returns (r: Result<seq<Row>, Error>)
    ensures r == ChapterCsv(wordsInBible, key, table)
  {
    var rows := [CsvHeader];
    for count := 0 to |table|
      invariant CsvRows(wordsInBible, key, table, count) == Success(rows)
    {
      var row := CsvRow(wordsInBible, key, table, count);
      if row.Failure? {
        r := Failure(row.error);
        CsvRowsFailure(wordsInBible, key, table, count + 1);
        return;
      }
      rows := rows + [row.value];
    }
    r := Success(rows);
  }

  /** Once a row raises, the file stops there and the call raises. */
  lemma {:induction false} CsvRowsFailure(wordsInBible: int, key: string, table: OrderedMap<Values>, n: nat)
    requires n <= |table| && CsvRows(wordsInBible, key, table, n).Failure?
    ensures ChapterCsv(wordsInBible, key, table) == Failure(IndexError)
    decreases |table| - n
  {
    CsvRowsError(wordsInBible, key, table, n);
    if n < |table| {
      CsvRowsFailure(wordsInBible, key, table, n + 1);
    }
  }

  lemma {:induction false} CsvRowsError(wordsInBible: int, key: string, table: OrderedMap<Values>, n: nat)
    requires n <= |table| && CsvRows(wordsInBible, key, table, n).Failure?
    ensures CsvRows(wordsInBible, key, table, n) == Failure(IndexError)
  {
    if n > 0 && CsvRows(wordsInBible, key, table, n - 1).Failure? {
      CsvRowsError(wordsInBible, key, table, n - 1);
    }
  }

  /** A row exists for each of the first n entries exactly when their values lists are long enough. */
  predicate RowsWritable(table: OrderedMap<Values>, n: nat)
    requires n <= |table|
  {
    && (n > 0 ==> |table[0].1| >= 1)
    && forall i :: 1 <= i < n ==> |table[i].1| >= 4
  }

  /**
   * The CSV layout: the column header row, then the totals row "TOTAL (key)" with the
   * first entry's count and words_in_bible, then a five-field row per further entry, in
   * dict order; IndexError when some values list is too short.
   */
  lemma {:induction false} CsvLayout(wordsInBible: int, key: string, table: OrderedMap<Values>, n: nat)
    requires n <= |table|
    ensures CsvRows(wordsInBible, key, table, n).Success? <==> RowsWritable(table, n)
    ensures CsvRows(wordsInBible, key, table, n).Failure? ==> CsvRows(wordsInBible, key, table, n).error == IndexError
    ensures CsvRows(wordsInBible, key, table, n).Success? ==>
      var rows := CsvRows(wordsInBible, key, table, n).value;
      && |rows| == n + 1
      && rows[0] == CsvHeader
      && (n > 0 ==> rows[1] == [Str("TOTAL (" + key + ")"), Num(table[0].1[0]), Num(Int(wordsInBible))])
      && forall i :: 1 <= i < n ==>
           rows[i + 1] == [Str(table[i].0), Num(table[i].1[0]), Num(table[i].1[1]), Num(table[i].1[2]), Num(table[i].1[3])]
  {
    if n > 0 {
      CsvLayout(wordsInBible, key, table, n - 1);
      if CsvRows(wordsInBible, key, table, n - 1).Success? {
        var rows := CsvRows(wordsInBible, key, table, n - 1).value;
        assert forall i :: 0 <= i < |rows| ==> (rows + [CsvHeader])[i] == rows[i];
      }
    }
  }

  /** format(n, ","): an int in groups of three digits; a float is kept unformatted. */
  function Grouped(n: Number): Field {
    match n
    case Int(i) => Str(GroupThousands(i))
    case Float(f) => GroupedFloat(f)
  }

  /** One row of the HTML table: word, count, grouped corpus count, grouped simple score, weighted score. */
  function HtmlRow(e: (string, Values)): Result<Row, Error> {
    if |e.1| < 4 then Failure(IndexError)
    else Success([Str(e.0), Num(e.1[0]), Grouped(e.1[1]), Grouped(e.1[2]), Num(e.1[3])])
  }

  /** The list comprehension over the dict's items. */
  function HtmlRows(m: OrderedMap<Values>): Result<seq<Row>, Error> {
    if m == [] then Success([])
    else
      var rows :- HtmlRows(m[..|m| - 1]);
      var row :- HtmlRow(m[|m| - 1]);
      Success(rows + [row])
  }

  /** One row per item, in dict order, unless a values list is too short. */
  lemma {:induction false} HtmlRowsLayout(m: OrderedMap<Values>)
    ensures HtmlRows(m).Success? <==> forall i :: 0 <= i < |m| ==> |m[i].1| >= 4
    ensures HtmlRows(m).Failure? ==> HtmlRows(m).error == IndexError
    ensures HtmlRows(m).Success? ==>
      && |HtmlRows(m).value| == |m|
      && forall i :: 0 <= i < |m| ==>
           HtmlRows(m).value[i] == [Str(m[i].0), Num(m[i].1[0]), Grouped(m[i].1[1]), Grouped(m[i].1[2]), Num(m[i].1[3])]
  {
    if m != [] {
      var n := |m| - 1;
      HtmlRowsLayout(m[..n]);
      assert forall i :: 0 <= i < n ==> m[..n][i] == m[i];
    }
  }

  /** What write_chapter_html passes on: the grouped chapter word count and the table rows. */
  datatype HtmlPage = HtmlPage(wordsInChapter: Field, rows: seq<Row>)

  /**
   * write_chapter_html as a function of the dict it is given: KeyError without a
   * "TOTAL WORDS" entry, IndexError when that entry or a later one is too short.
   */
  function ChapterHtml(m: OrderedMap<Values>): Result<HtmlPage, Error> {
    match Get(m, TotalWords)
    case None => Failure(KeyError(TotalWords))
    case Some(header) =>
      if |header| < 1 then Failure(IndexError)
      else
        var rows :- HtmlRows(Remove(m, TotalWords));
        Success(HtmlPage(Grouped(header[0]), rows))
  }

  /** The caller's dict after write_chapter_html: without its "TOTAL WORDS" entry once that was read. */
  function DictAfterHtml(m: OrderedMap<Values>): OrderedMap<Values> {
    match Get(m, TotalWords)
    case None => m
    case Some(header) => if |header| < 1 then m else Remove(m, TotalWords)
  }

  /** The dict a chapter's files are written from, shared with the caller. */
  class ChapterTable {
    var entries: OrderedMap<Values>

    constructor (entries: OrderedMap<Values>)
      ensures this.entries == entries
    {
      this.entries := entries;
    }

    /** write_chapter_html: reads the header, deletes it from the dict, builds the rows. */
    method WriteChapterHtml() returns (r: Result<HtmlPage, Error>)
      modifies this
      ensures r == ChapterHtml(old(entries))
      ensures entries == DictAfterHtml(old(entries))
    {
      var header := Get(entries, TotalWords);
      if header.None? {
        return Failure(KeyError(TotalWords));
      }
      if |header.value| < 1 {
        return Failure(IndexError);
      }
      var wordsInChapter := Grouped(header.value[0]);
      entries := Remove(entries, TotalWords);
      var rows := HtmlRows(entries);
      if rows.Failure? {
        return Failure(rows.error);
      }
      r := Success(HtmlPage(wordsInChapter, rows.value));
    }
  }

  /**
   * The deletion takes out the one "TOTAL WORDS" entry, wherever it is, and keeps the
   * others in their order; without that entry the dict is left as it was.
   */
  lemma DictAfterHtmlRemovesOnlyTotals(m: OrderedMap<Values>, i: nat)
    requires UniqueKeys(m) && i < |m| && m[i].0 == TotalWords && |m[i].1| >= 1
    ensures DictAfterHtml(m) == m[..i] + m[i + 1..]
  {
    PutFoundAt(m, i);
    RemovePresent(m, i);
  }

  lemma {:induction false} PutFoundAt(m: OrderedMap<Values>, i: nat)
    requires UniqueKeys(m) && i < |m|
    ensures Get(m, m[i].0) == Some(m[i].1)
  {
    if i > 0 {
      assert m[1..][i - 1] == m[i];
      KeysIndex(m[1..]);
      assert Keys(m[1..])[i - 1] == m[i].0;
      PutFoundAt(m[1..], i - 1);
    }
  }

  lemma DictAfterHtmlAbsent(m: OrderedMap<Values>)
    requires TotalWords !in Keys(m)
    ensures DictAfterHtml(m) == m && ChapterHtml(m) == Failure(KeyError(TotalWords))
  {
  }

  /**
   * The CSV of a ranked chapter, the header entry followed by scored words (see
   * Ranking.RankedLayout): the column header row, the totals row with the chapter's word
   * count, then one row per word in rank order.
   */
  lemma RankedCsv(wordsInBible: int, key: string, wordsInChapter: int, ranked: seq<ScoredEntry>)
    ensures var csv := ChapterCsv(wordsInBible, key, [Header(wordsInChapter)] + ranked);
      && csv.Success?
      && |csv.value| == |ranked| + 2
      && csv.value[0] == CsvHeader
      && csv.value[1] == [Str("TOTAL (" + key + ")"), Num(Int(wordsInChapter)), Num(Int(wordsInBible))]
      && forall i :: 0 <= i < |ranked| ==>
           csv.value[i + 2] == [Str(ranked[i].0), Num(ranked[i].1[0]), Num(ranked[i].1[1]), Num(ranked[i].1[2]), Num(ranked[i].1[3])]
  {
    var r := [Header(wordsInChapter)] + ranked;
    assert forall i :: 0 <= i < |ranked| ==> r[i + 1] == ranked[i];
    CsvLayout(wordsInBible, key, r, |r|);
  }

  /**
   * The HTML page of a ranked chapter: the word count grouped in thousands, one row per
   * word in rank order, and the dict left holding just the ranked words.
   */
  lemma RankedHtml(wordsInChapter: int, ranked: seq<ScoredEntry>)
    requires UniqueKeys(ranked) && TotalWords !in Keys(ranked)
    ensures var r := [Header(wordsInChapter)] + ranked;
      && DictAfterHtml(r) == ranked
      && ChapterHtml(r).Success?
      && ChapterHtml(r).value.wordsInChapter == Str(GroupThousands(wordsInChapter))
      && |ChapterHtml(r).value.rows| == |ranked|
      && forall i :: 0 <= i < |ranked| ==>
           ChapterHtml(r).value.rows[i]
           == [Str(ranked[i].0), Num(ranked[i].1[0]), Grouped(ranked[i].1[1]), Grouped(ranked[i].1[2]), Num(ranked[i].1[3])]
  {
    var r := [Header(wordsInChapter)] + ranked;
    assert r[1..] == ranked;
    RemoveAbsent(ranked, TotalWords);
    HtmlRowsLayout(ranked);
  }
}
