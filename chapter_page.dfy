/**
 * write_bible_chapter.py: the chapter page's top-seven keywords read back from the
 * chapter's CSV rows (get_top_7_words), the name of the downloaded chapter text file
 * and the paragraph markup of its text (get_bible_chapter_text), and the page's
 * description, keywords and file names (write_bible_chapter).
 */
module ChapterPage {
  import opened Wrappers
  import opened Failures
  import opened Strings

  function Min(a: int, b: int): int {
    if a <= b then a else b
  }

  /** Column 0 of each row, in order; an empty row raises IndexError. */
  function FirstColumn(rows: seq<seq<string>>): Result<seq<string>, Error> {
    if rows == [] then Success([])
    else
      var init :- FirstColumn(rows[..|rows| - 1]);
      var row := rows[|rows| - 1];
      if row == [] then Failure(IndexError) else Success(init + [row[0]])
  }

  /** get_top_7_words as a function of the rows of the CSV file: column 0 of rows 2 to 8. */
  function TopSevenWords(rows: seq<seq<string>>): Result<seq<string>, Error> {
    FirstColumn(rows[Min(2, |rows|)..Min(9, |rows|)])
  }

  lemma {:induction false} FirstColumnLayout(rows: seq<seq<string>>)
    ensures FirstColumn(rows).Success? <==> forall i :: 0 <= i < |rows| ==> rows[i] != []
    ensures FirstColumn(rows).Failure? ==> FirstColumn(rows).error == IndexError
    ensures FirstColumn(rows).Success? ==>
      |FirstColumn(rows).value| == |rows| && forall i :: 0 <= i < |rows| ==> FirstColumn(rows).value[i] == rows[i][0]
  {
    if rows != [] {
      var n := |rows| - 1;
      FirstColumnLayout(rows[..n]);
      assert forall i :: 0 <= i < n ==> rows[..n][i] == rows[i];
    }
  }

  /**
   * The top seven words are the first fields of rows 2 to 8, after the column header
   * and totals rows: at most seven, fewer for a shorter file, in file order; an empty
   * row among them raises IndexError, and rows after the eighth are never read.
   */
  lemma TopSevenLayout(rows: seq<seq<string>>)
    ensures TopSevenWords(rows).Success? <==> forall i :: 2 <= i < Min(9, |rows|) ==> rows[i] != []
    ensures TopSevenWords(rows).Failure? ==> TopSevenWords(rows).error == IndexError
    ensures TopSevenWords(rows).Success? ==>
      var top := TopSevenWords(rows).value;
      && |top| == (if |rows| <= 2 then 0 else Min(9, |rows|) - 2)
      && |top| <= 7
      && forall i :: 0 <= i < |top| ==> top[i] == rows[i + 2][0]
  {
    var window := rows[Min(2, |rows|)..Min(9, |rows|)];
    FirstColumnLayout(window);
    assert forall i :: 2 <= i < Min(9, |rows|) ==> window[i - 2] == rows[i];
  }

  /** Once a row of the window raises, so does the whole window. */
  lemma {:induction false} FirstColumnFailure(rows: seq<seq<string>>, k: nat)
    requires k <= |rows| && FirstColumn(rows[..k]).Failure?
    ensures FirstColumn(rows) == Failure(IndexError)
    decreases |rows| - k
  {
    FirstColumnLayout(rows[..k]);
    if k == |rows| {
      assert rows[..k] == rows;
    } else {
      assert rows[..k + 1][..k] == rows[..k];
      FirstColumnFailure(rows, k + 1);
    }
  }

  /**
   * get_top_7_words: enumerate the rows from count -1, keep column 0 once count reaches
   * 1, and stop after count 7.
   */
  method GetTop7Words(rows: seq<seq<string>>) returns (r: Result<seq<string>, Error>)
    ensures r == TopSevenWords(rows)
  {
    var top7Words: seq<string> := [];
    for i := 0 to |rows|
      invariant i <= 8
      invariant FirstColumn(rows[Min(2, i)..i]) == Success(top7Words)
    {
      var count := i - 1;
      if count >= 1 {
        assert rows[2..i + 1][..i - 2] == rows[2..i];
        if |rows[i]| == 0 {
          assert rows[2..Min(9, |rows|)][..i - 1] == rows[2..i + 1];
          FirstColumnFailure(rows[2..Min(9, |rows|)], i - 1);
          return Failure(IndexError);
        }
        top7Words := top7Words + [rows[i][0]];
      }
      if count == 7 {
        return Success(top7Words);
      }
    }
    return Success(top7Words);
  }

  /** int(s) on a string of decimal digits; anything else raises ValueError. */
  function ParseInt(s: string): Result<int, Error> {
    if |s| > 0 && AllDigits(s) then Success(ParseDigits(s)) else Failure(ValueError)
  }

  /**
   * The number of a book in the downloaded file names: books 1 to 39 move up by one,
   * later books by thirty.
   */
  function BookFileNumber(bookNum: int): int {
    if bookNum <= 39 then bookNum + 1 else bookNum + 30
  }

  /** The remap is strictly increasing, so no two books share a file number. */
  lemma BookFileNumberIncreasing(a: int, b: int)
    ensures a < b ==> BookFileNumber(a) < BookFileNumber(b)
    ensures BookFileNumber(a) == BookFileNumber(b) ==> a == b
  {
  }

  /** Books 1..39 go to 2..40, books 40..66 to 70..96. */
  lemma BookFileNumberRanges(n: int)
    ensures 1 <= n <= 39 ==> 2 <= BookFileNumber(n) <= 40
    ensures 40 <= n <= 66 ==> 70 <= BookFileNumber(n) <= 96
  {
  }

  /** The chapter field's width: three digits for the Psalms, two otherwise. */
  function ChapterWidth(bookAbbrev: string): nat {
    if bookAbbrev == "Psa" then 3 else 2
  }

  /** The name of the downloaded text file of a chapter, or the ValueError of int(book_num). */
  function ChapterFileName(bookNum: string, bookAbbrev: string, chapter: string): Result<string, Error> {
    var n :- ParseInt(bookNum);
    var revisedBookNum := ZFill(IntToString(BookFileNumber(n)), 3);
    var chapterNum := ZFill(chapter, ChapterWidth(bookAbbrev));
    Success("eng-kjv_" + revisedBookNum + "_" + Upper(bookAbbrev) + "_" + chapterNum + "_read.txt")
  }

  /**
   * For book n (1..66) passed zero-padded to two digits, as write_bible_chapter does, the
   * file name carries the remapped book number in three digits, the upper-cased
   * abbreviation, and the chapter number padded to its width, each readable back.
   */
  lemma ChapterFileNameFields(n: nat, bookAbbrev: string, chapter: string)
    requires 1 <= n <= 66 && AllDigits(chapter) && |chapter| <= ChapterWidth(bookAbbrev)
    ensures var name := ChapterFileName(ZFill(NatToString(n), 2), bookAbbrev, chapter);
      var a := |bookAbbrev|;
      var w := ChapterWidth(bookAbbrev);
      && name.Success?
      && |name.value| == 8 + 3 + 1 + a + 1 + w + 9
      && name.value[..8] == "eng-kjv_"
      && AllDigits(name.value[8..11]) && ParseDigits(name.value[8..11]) == BookFileNumber(n)
      && name.value[11..12 + a + 1] == "_" + Upper(bookAbbrev) + "_"
      && AllDigits(name.value[12 + a + 1..12 + a + 1 + w])
      && ParseDigits(name.value[12 + a + 1..12 + a + 1 + w]) == ParseDigits(chapter)
      && name.value[12 + a + 1 + w..] == "_read.txt"
  {
    PaddedBookNum(n);
    BookField(n);
    var chapterNum := ZFill(chapter, ChapterWidth(bookAbbrev));
    ZFillDigits(chapter, ChapterWidth(bookAbbrev));
    NameSlices(ZFill(IntToString(BookFileNumber(n)), 3), Upper(bookAbbrev), chapterNum);
  }

  /** int() of the zero-padded book number gives the book number back. */
  lemma PaddedBookNum(n: nat)
    ensures ParseInt(ZFill(NatToString(n), 2)) == Success(n)
  {
    ZFillDigits(NatToString(n), 2);
    ParseNatToString(n);
  }

  /** The remapped number of a book, padded to three digits. */
  lemma BookField(n: nat)
    requires 1 <= n <= 66
    ensures var field := ZFill(IntToString(BookFileNumber(n)), 3);
      |field| == 3 && AllDigits(field) && ParseDigits(field) == BookFileNumber(n)
  {
    var f := BookFileNumber(n);
    NatToStringShort(f);
    ZFillDigits(NatToString(f), 3);
    ParseNatToString(f);
  }

  lemma NameSlices(book: string, abbrev: string, chapterNum: string)
    requires |book| == 3
    ensures var name := "eng-kjv_" + book + "_" + abbrev + "_" + chapterNum + "_read.txt";
      var a := |abbrev|;
      var w := |chapterNum|;
      && |name| == 8 + 3 + 1 + a + 1 + w + 9
      && name[..8] == "eng-kjv_"
      && name[8..11] == book
      && name[11..12 + a + 1] == "_" + abbrev + "_"
      && name[12 + a + 1..12 + a + 1 + w] == chapterNum
      && name[12 + a + 1 + w..] == "_read.txt"
  {
  }

  /** The paragraph marker of the downloaded text and the markup that replaces it. */
  const ParagraphMark := "¶ "
  const ParagraphBreak := "        </p>\n        <p>\n"

  /** lines[2:] */
  function AfterHeading(lines: seq<string>): seq<string> {
    if |lines| <= 2 then [] else lines[2..]
  }

  /**
   * get_bible_chapter_text once the file is read: the lines after the first two, joined,
   * with each "¶ " turned into a paragraph break.
   */
  function ChapterText(lines: seq<string>): string {
    ReplaceAll(Join(AfterHeading(lines), ""), ParagraphMark, ParagraphBreak)
  }

  /**
   * The text is the joined lines cut at each "¶ " into marker-free pieces, put back
   * together with the paragraph markup in place of each marker; with the markers put
   * back instead, the pieces give exactly the joined lines, so nothing else changes.
   */
  lemma ChapterTextPieces(lines: seq<string>)
    ensures var joined := Join(AfterHeading(lines), "");
      var pieces := Split(joined, ParagraphMark);
      && ChapterText(lines) == Join(pieces, ParagraphBreak)
      && Join(pieces, ParagraphMark) == joined
      && forall k :: 0 <= k < |pieces| ==> NoOccurrence(pieces[k], ParagraphMark)
  {
    JoinSplit(Join(AfterHeading(lines), ""), ParagraphMark);
  }

  /** Text without a paragraph marker passes through unchanged. */
  lemma ChapterTextUnmarked(lines: seq<string>)
    requires NoOccurrence(Join(AfterHeading(lines), ""), ParagraphMark)
    ensures ChapterText(lines) == Join(AfterHeading(lines), "")
  {
    ReplaceAbsent(Join(AfterHeading(lines), ""), ParagraphMark, ParagraphBreak);
  }

  /** f"{book_abbrev}{str(chapter).zfill(3)}_word_freq.csv", the file the page reads its keywords from. */
  function CsvFileName(bookAbbrev: string, chapter: string): string {
    bookAbbrev + ZFill(chapter, 3) + "_word_freq.csv"
  }

  /** f"{book_abbrev}{chapter.zfill(3)}_word_freq.html" */
  function HtmlFileName(bookAbbrev: string, chapter: string): string {
    bookAbbrev + ZFill(chapter, 3) + "_word_freq.html"
  }

  /** The page's head and body data, as write_bible_chapter hands them to the template. */
  datatype Page = Page(
    description: string,
    keywords: seq<string>,
    keywordsText: string,
    csvFileName: string,
    chapterFileName: string,
    bibleChapterText: string,
    htmlFileName: string)

  function Description(bookName: string, chapter: string): string {
    "KJV Bible Chapter Word Frequencies: " + bookName + " " + chapter
  }

  /** The six fixed keywords, then the chapter's top seven words. */
  function Keywords(bookName: string, chapter: string, topWords: seq<string>): seq<string> {
    ["KJV", "Bible", bookName, bookName + " " + chapter, "chapter", "word frequency"] + topWords
  }

  /**
   * write_bible_chapter with the book tables and the two files it reads passed in:
   * csvRows, the rows of the keyword CSV, and chapterLines, the lines of the chapter text.
   */
  function WriteBibleChapter(bookNames: map<string, string>, bookNums: map<string, int>,
                             bookAbbrev: string, chapter: string,
                             csvRows: seq<seq<string>>, chapterLines: seq<string>): Result<Page, Error>
  {
    if bookAbbrev !in bookNames then Failure(KeyError(bookAbbrev))
    else if bookAbbrev !in bookNums then Failure(KeyError(bookAbbrev))
    else
      var bookName := bookNames[bookAbbrev];
      var bookNum := ZFill(IntToString(bookNums[bookAbbrev]), 2);
      var topWords :- TopSevenWords(csvRows);
      var keywords := Keywords(bookName, chapter, topWords);
      var chapterFile :- ChapterFileName(bookNum, bookAbbrev, chapter);
      Success(Page(Description(bookName, chapter), keywords, Join(keywords, ","),
                   CsvFileName(bookAbbrev, chapter), chapterFile, ChapterText(chapterLines),
                   HtmlFileName(bookAbbrev, chapter)))
  }

  /**
   * For a known book, the page's keywords are the six fixed ones followed by the top
   * words of the CSV, at most thirteen in all, and its text is the marked-up chapter.
   */
  lemma PageKeywords(bookNames: map<string, string>, bookNums: map<string, int>,
                     bookAbbrev: string, chapter: string,
                     csvRows: seq<seq<string>>, chapterLines: seq<string>)
    requires bookAbbrev in bookNames && bookAbbrev in bookNums && 1 <= bookNums[bookAbbrev] <= 66
    requires TopSevenWords(csvRows).Success?
    ensures var page := WriteBibleChapter(bookNames, bookNums, bookAbbrev, chapter, csvRows, chapterLines);
      && page.Success?
      && page.value.keywords[..6] == ["KJV", "Bible", bookNames[bookAbbrev],
                                      bookNames[bookAbbrev] + " " + chapter, "chapter", "word frequency"]
      && page.value.keywords[6..] == TopSevenWords(csvRows).value
      && 6 <= |page.value.keywords| <= 13
      && page.value.bibleChapterText == ChapterText(chapterLines)
  {
    var n := bookNums[bookAbbrev];
    ZFillDigits(NatToString(n), 2);
    TopSevenLayout(csvRows);
  }
}
