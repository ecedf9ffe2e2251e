/**
 * How the chapter page finds its keywords: write_bible_chapter reads the top seven words
 * back from the chapter's CSV file (write_bible_chapter.py:78-79), which
 * write_chapter_files wrote (build_website.py:198-202). Files are a map from name to
 * the rows csv.reader gives back.
 */
module ChapterLinks {
  import opened Wrappers
  import opened Failures
  import opened Rounding
  import opened Strings
  import opened SortKey
  import opened Ranking
  import opened ChapterFiles
  import opened ChapterPage

  /**
   * The text of a cell as csv.reader returns it: the string, or str() of the number;
   * showFloat stands for Python's repr of a float.
   */
  function CellText(f: Field, showFloat: real -> string): string {
    match f
    case Str(s) => s
    case Num(n) => (match n case Int(i) => IntToString(i) case Float(x) => showFloat(x))
    case GroupedFloat(x) => showFloat(x)
  }

  function RowText(row: Row, showFloat: real -> string): (r: seq<string>)
    ensures |r| == |row|
    ensures row != [] ==> r[0] == CellText(row[0], showFloat)
  {
    if row == [] then [] else [CellText(row[0], showFloat)] + RowText(row[1..], showFloat)
  }

  function CsvText(rows: seq<Row>, showFloat: real -> string): (r: seq<seq<string>>)
    ensures |r| == |rows|
    ensures forall i :: 0 <= i < |rows| ==> r[i] == RowText(rows[i], showFloat)
  {
    if rows == [] then [] else [RowText(rows[0], showFloat)] + CsvText(rows[1..], showFloat)
  }

  type Files = map<string, seq<seq<string>>>

  /** get_top_7_words on a path: open() raises FileNotFoundError when nothing was written there. */
  function ReadTopSeven(files: Files, path: string): Result<seq<string>, Error> {
    if path !in files then Failure(FileNotFoundError) else TopSevenWords(files[path])
  }

  /** The one file write_chapter_csv leaves for a chapter. */
  function WrittenCsv(bookAbbrev: string, chapter: string, rows: seq<Row>, showFloat: real -> string): Files {
    map[ChapterCsvName(bookAbbrev, chapter) := CsvText(rows, showFloat)]
  }

  /**
   * As written, the page looks for "{Abc}{NNN}_word_freq.csv" while the build writes
   * "{abc}{NNN}-word-freq.csv": the names always differ, so the read finds no file.
   */
  lemma KeywordsFileMissing(bookAbbrev: string, chapter: string, rows: seq<Row>, showFloat: real -> string)
    ensures ReadTopSeven(WrittenCsv(bookAbbrev, chapter, rows, showFloat), CsvFileName(bookAbbrev, chapter))
         == Failure(FileNotFoundError)
  {
    var written := ChapterCsvName(bookAbbrev, chapter);
    var read := CsvFileName(bookAbbrev, chapter);
    var k := |bookAbbrev| + |ZFill(chapter, 3)|;
    assert written[k] == '-';
    assert read[k] == '_';
  }

  /** The name the page should read its keywords from: the one the build writes. */
  function LinkedCsvName(bookAbbrev: string, chapter: string): string {
    ChapterCsvName(bookAbbrev, chapter)
  }

  /**
   * Reading the ranked chapter's CSV back under the name it was written to gives its
   * first seven ranked words (all of them when there are fewer), in rank order.
   */
  lemma LinkedTopWords(wordsInBible: int, key: string, wordsInChapter: int, ranked: seq<ScoredEntry>,
                       showFloat: real -> string)
    ensures var bookAbbrev := BookAbbrevOf(key);
      var chapter := ChapterOf(key);
      var rows := ChapterCsv(wordsInBible, key, [Header(wordsInChapter)] + ranked);
      && rows.Success?
      && var top := ReadTopSeven(WrittenCsv(bookAbbrev, chapter, rows.value, showFloat),
                                 LinkedCsvName(bookAbbrev, chapter));
         && top.Success?
         && |top.value| == Min(7, |ranked|)
         && forall i :: 0 <= i < |top.value| ==> top.value[i] == ranked[i].0
  {
    var rows := ChapterCsv(wordsInBible, key, [Header(wordsInChapter)] + ranked);
    RankedCsv(wordsInBible, key, wordsInChapter, ranked);
    var text := CsvText(rows.value, showFloat);
    var files := WrittenCsv(BookAbbrevOf(key), ChapterOf(key), rows.value, showFloat);
    assert ReadTopSeven(files, LinkedCsvName(BookAbbrevOf(key), ChapterOf(key))) == TopSevenWords(text);
    forall j | 2 <= j < |rows.value| ensures rows.value[j] != [] && rows.value[j][0] == Str(ranked[j - 2].0) {
      var e := ranked[j - 2];
      assert rows.value[(j - 2) + 2] == [Str(e.0), Num(e.1[0]), Num(e.1[1]), Num(e.1[2]), Num(e.1[3])];
    }
    TextRows(rows.value, ranked, showFloat);
    TopSevenLayout(text);
  }

  lemma TextRows(rows: seq<Row>, ranked: seq<ScoredEntry>, showFloat: real -> string)
    requires |rows| == |ranked| + 2
    requires forall j :: 2 <= j < |rows| ==> rows[j] != [] && rows[j][0] == Str(ranked[j - 2].0)
    ensures var text := CsvText(rows, showFloat);
      forall j :: 2 <= j < |rows| ==> text[j] != [] && text[j][0] == ranked[j - 2].0
  {
  }
}
