# KJV chapter word frequencies in Dafny

This project models how the Bible word-frequency website ranks the words of a chapter
and builds each chapter's page. It covers two Python files:

- build_website.py
  - `round_4_to_6_sigfigs` rounds every score.
  - `get_chapter_word_freqs` scores each word of a chapter against the whole Bible (790,663 words).
  - `get_relative_word_frequency` puts the words in ranking order behind a "TOTAL WORDS" header.
  - `write_chapter_csv` and `write_chapter_html` turn that dict into the rows of the CSV file and of the HTML table. The HTML step deletes the header entry in place.
  - `write_chapter_files` takes the chapter as `key[4:]` and names the CSV file; `build_web_site` takes the abbreviation as `key[0:3]` and decides when a new book folder starts.
- write_bible_chapter.py
  - `get_top_7_words` reads the first seven data rows of a chapter's CSV.
  - `get_bible_chapter_text` remaps the book number, pads the numbers, names the downloaded chapter file, and marks up the text.
  - `write_bible_chapter` builds the page's description and keywords.

Modules, one per file:

- `Wrappers` / `Failures` (wrappers.dfy): `Option` and `Result`. The Python exceptions the code can raise become error values.
- `Strings`: the string functions the code uses. These are decimal text, `zfill`, `upper`/`lower`, `join`, `replace` (modelled as a split at the pattern followed by a join), `format(n, ",")` and Python's string order.
- `Rounding`: "%.{p}g" on exact values, and `round_4_to_6_sigfigs`.
- `OrderedMaps`: a Python dict as a sequence of (key, value) pairs in insertion order. Assignment keeps an existing key's place. `del` removes the pair.
- `Scoring`: `get_chapter_word_freqs`, as a fold and as an imperative method with loops.
- `SortKey`: the sort key and `sorted()`. `sorted()` is modelled as a stable insertion sort.
- `Ranking`: `get_relative_word_frequency`, as a function and as a method with its loop.
- `ChapterFiles`: key slicing, the CSV file name, the CSV rows, and the HTML rows. `ChapterTable` is a class whose `WriteChapterHtml` deletes "TOTAL WORDS" from its dict in place.
- `ChapterPage`: `get_top_7_words` (a method with its loop and `break`), the chapter text file name, the chapter text, and the page data.
- `ChapterLinks`: how the page finds the CSV file that the build wrote.

Scores are exact rationals, not doubles. An `Int` and a `Float` keep the Python type of each value. Every exception the modelled code can raise is a `Failure`:

- `KeyError`: a missing word, book or "TOTAL WORDS" entry
- `ZeroDivisionError`
- `ValueError`: `int()` of exponent notation or of non-digits
- `IndexError`: short values lists, empty CSV rows
- `StopIteration`: an empty frequency list
- `FileNotFoundError`

## Model

| member | source | states |
|---|---|---|
| Rounding.RoundHalfEven | build_website.py:31-37 | the result is within one half of x, and of two equally near integers the even one is chosen |
| Rounding.RoundSigShift | build_website.py:37 | "%.{p}g" exactly: with x moved j places right into [10^(p-1), 10^p), the result moved the same way is the moved x rounded half to even |
| Rounding.ShiftProduct | build_website.py:37 | moving the point j places right multiplies by 10^j |
| Rounding.RoundSigFigsFloat | build_website.py:37 | below 10^3 the result is a float, and it is x rounded half to even in its fourth significant figure |
| Rounding.RoundSig4Error | build_website.py:37 | four significant figures are within x/2000 of a positive x |
| Rounding.IntegerFigures | build_website.py:31-36 | int("%.{p}g" % x) succeeds exactly when x rounded to an integer stays below 10^p, and then gives that integer |
| Rounding.RoundSigFigs | build_website.py:21-37 | below 10^3 the result is the float of 4 significant figures; from 10^3 it succeeds exactly when no carry reaches the next power of ten or 10^6, and then gives the nearest integer |
| Rounding.RoundSigFigsError | build_website.py:31-37 | a successful rounding of a non-negative score is within 0.5 of the score |
| Rounding.RoundSigFigsNonNegative | build_website.py:31-37 | rounding a non-negative score never gives a negative value |
| Rounding.RoundSigFigsIdempotent | build_website.py:21-37 | rounding a rounded score again succeeds and gives the same value |
| Rounding.RoundSigFigsExamples | build_website.py:28-36 | 99999, 123456 and 790663 stay as they are; 395331.5 gives 395332; 999.9 and 0.01234 stay floats; 9999.6 and 1234567 raise ValueError |
| Scoring.ScoreWord | build_website.py:67-81 | a word missing from the Bible counts raises KeyError; a zero Bible count raises ZeroDivisionError; success holds exactly when both divisions and both roundings succeed; the values list is [times in chapter, times in Bible, rounded simple, rounded weighted] |
| Scoring.ScoresNonNegative | build_website.py:67-81 | for a word seen at least once in the chapter and in the Bible, with a non-empty chapter, both rounded scores are non-negative |
| Scoring.ChapterWordFreqsKeys | build_website.py:63-100 | on success, the keys are unique and are exactly the words of the groups other than the ["TOTAL WORDS"] group |
| Scoring.ChapterWordFreqsValues | build_website.py:65-100 | a word's values are those of its last visit, since later assignments overwrite in place |
| Scoring.ChapterWordFreqsFailure | build_website.py:63-81 | the scoring fails exactly when some visited word fails to score, and the error is that of the first such word |
| Scoring.ChapterWordFreqsScored | build_website.py:73-81 | every values list of a successful result has the four entries |
| Scoring.WeightedRanksByCount | build_website.py:76-86 | with equal simple scores, more occurrences in the chapter give a strictly larger weighted score; after rounding this holds for a gap of at least two occurrences |
| Scoring.StrawOutranksDealest | build_website.py:83-86 | straw (8 of 16) and dealest (1 of 2) share the simple score 395332, and in a 500-word chapter straw's weighted 797.7 exceeds dealest's 790.7 |
| Scoring.WeightedTie | build_website.py:76-81 | counts one apart can tie after rounding: weighted 1001.5 and 1002.5 both give 1002 |
| Scoring.ScoreGroup | build_website.py:66-100 | the inner loop over one group's words gives the fold over those words |
| Scoring.GetChapterWordFreqs | build_website.py:59-102 | the nested loops give the scoring fold over every group but the totals group |
| SortKey.BeforeMeaning | build_website.py:40-45 | the key orders by simple score descending, then weighted score descending, then word ascending |
| SortKey.BeforeTransitive | build_website.py:40-45 | the key order is transitive |
| SortKey.BeforeIrreflexive | build_website.py:40-45 | no entry sorts before itself |
| SortKey.BeforeAsymmetric | build_website.py:40-45 | two entries are never each before the other |
| SortKey.BeforeTotal | build_website.py:40-45 | entries with different words are always ordered |
| SortKey.SortPermutes | build_website.py:116-118 | sorting is a permutation of the items |
| SortKey.SortKeys | build_website.py:116-118 | sorting keeps the set of words and their uniqueness |
| SortKey.SortSorted | build_website.py:116-118 | the sorted items of a dict are in strictly increasing key order |
| SortKey.StrictlySortedUnique | build_website.py:116-118 | two strictly sorted permutations of the same items are equal, so the order does not depend on the input order |
| Ranking.GetRelativeWordFrequency | build_website.py:105-121 | the method's loop gives the header followed by each sorted item assigned in turn, and an empty list raises StopIteration |
| Ranking.RankedLayout | build_website.py:108-119 | the result is the "TOTAL WORDS" header with the chapter's word count, then a strictly sorted permutation of the scored words |
| Ranking.RankedWords | build_website.py:108-119 | the keys are unique and are exactly "TOTAL WORDS" and the scored words |
| ChapterFiles.KeyFields | build_website.py:266-267 | for a key of a three-letter abbreviation, any separator character and a chapter, key[0:3] is the abbreviation and key[4:] the chapter, and the new-book test holds exactly for chapter "1" |
| ChapterFiles.ChapterCsvNameFields | build_website.py:200-201 | the CSV file name is the lower-cased abbreviation, the chapter in three digits that read back to the chapter number, and "-word-freq.csv" |
| ChapterFiles.WriteChapterCsv | build_website.py:124-153 | the method's loop writes the rows of the CSV function, or stops with its IndexError |
| ChapterFiles.CsvLayout | build_website.py:129-153 | the rows succeed exactly when the first values list is non-empty and every later one has four entries, and otherwise fail with IndexError; the rows are the column header, "TOTAL (key)" with the chapter and Bible totals, then one five-field row per word |
| ChapterFiles.CsvRowsFailure | build_website.py:138-147 | a failure among the first rows makes the whole CSV fail with IndexError |
| ChapterFiles.HtmlRowsLayout | build_website.py:176-184 | one row per remaining entry, with the Bible count and the simple score grouped by thousands; otherwise IndexError |
| ChapterFiles.ChapterTable.WriteChapterHtml | build_website.py:156-184 | returns the page of the dict before the call and leaves the dict without "TOTAL WORDS" |
| ChapterFiles.DictAfterHtmlRemovesOnlyTotals | build_website.py:158-160 | the del removes exactly the "TOTAL WORDS" pair and keeps the others in order |
| ChapterFiles.DictAfterHtmlAbsent | build_website.py:158 | with no "TOTAL WORDS" key the page raises KeyError and the dict is unchanged |
| ChapterFiles.RankedCsv | build_website.py:138-153 | for a ranked dict the CSV succeeds with the ranked words' rows in rank order after the header and totals rows |
| ChapterFiles.RankedHtml | build_website.py:158-184 | for a ranked dict the page shows the chapter's word count grouped by thousands, lists the ranked words in order, and leaves exactly the ranked words in the dict |
| ChapterPage.GetTop7Words | write_bible_chapter.py:14-28 | the loop with its break returns the first cells of CSV rows 2 to 8, or IndexError for an empty row among them |
| ChapterPage.TopSevenLayout | write_bible_chapter.py:20-28 | it succeeds exactly when none of those rows is empty; it gives at most seven words, those of rows 2.. in order |
| ChapterPage.BookFileNumberIncreasing | write_bible_chapter.py:33 | the book remap is strictly increasing, so it is injective |
| ChapterPage.BookFileNumberRanges | write_bible_chapter.py:33 | books 1-39 map to 2-40 and books 40-66 to 70-96 |
| ChapterPage.PaddedBookNum | write_bible_chapter.py:74 | int() of the two-digit padded book number gives the book number back |
| ChapterPage.BookField | write_bible_chapter.py:33-34 | the remapped book number padded to three digits reads back to the remapped number |
| ChapterPage.ChapterFileNameFields | write_bible_chapter.py:31-38 | the chapter file name is "eng-kjv_", the three-digit remapped book, the upper-cased abbreviation, the chapter padded to 3 digits for Psalms and 2 otherwise, and "_read.txt", each field reading back |
| ChapterPage.ChapterTextPieces | write_bible_chapter.py:53-54 | the text is lines[2:] joined, cut at each "¶ " into marker-free pieces that give the joined text back, and rejoined with the paragraph markup |
| ChapterPage.ChapterTextUnmarked | write_bible_chapter.py:53-54 | text without a "¶ " passes through unchanged |
| ChapterPage.PageKeywords | write_bible_chapter.py:59-79 | the keywords are the six fixed ones, then the CSV's top words, between 6 and 13 in all |
| ChapterLinks.KeywordsFileMissing | write_bible_chapter.py:78-79 | the name the page reads never equals the name the build wrote, so the read raises FileNotFoundError |
| ChapterLinks.LinkedTopWords | build_website.py:200-202 | reading the chapter CSV back under the name it was written to gives the first min(7, n) ranked words in rank order |
| OrderedMaps.PutGet | build_website.py:100 | after an assignment the key reads back the new value and the other keys their old ones |
| OrderedMaps.PutKeys | build_website.py:100 | assignment to a present key leaves the key order unchanged; a new key is appended at the end |
| OrderedMaps.RemoveGet | build_website.py:159-160 | after del the key is gone and the other keys are unchanged |
| OrderedMaps.RemovePresent | build_website.py:159-160 | del of a present key removes exactly its pair |
| OrderedMaps.PutAllKeys | build_website.py:116-119 | assigning entries in turn keeps keys unique and adds exactly the entries' keys |
| OrderedMaps.PutAllFresh | build_website.py:116-119 | assigning new distinct keys in turn appends them in order |
| Strings.GroupNatLength | build_website.py:180-181 | the length of format(n, ",") is never a multiple of four: the leading group has one to three digits |
| Strings.JoinSplit | write_bible_chapter.py:54 | joining the split pieces with the separator gives the text back, and no piece contains the separator |
| Strings.GroupNatDenotes | build_website.py:180-181 | format(n, ",") without its commas is exactly str(n), and a comma stands at position i exactly when i > 0 and the text from i on has a multiple of four characters; the length is never a multiple of four, so the leading group has one to three digits and the commas stand before every later group of three |
| Strings.ZFillDigits | write_bible_chapter.py:34-35 | zfill of digits gives digits of the padded width that denote the same number |
| Strings.StrLessTotal | build_website.py:42 | two different strings are ordered one way or the other |
| Strings.StrLessTransitive | build_website.py:42 | string order is transitive |
| Strings.ParseNatToString | write_bible_chapter.py:33 | int(str(n)) == n |

## Left out

- File and console I/O are not modelled: opening and writing files, json load and dump, `os.makedirs`, `copyfile` and `print`. The CSV read by the page is a parameter, and so is the text file's list of lines.
- csv quoting and parsing are taken to give every cell back unchanged. `CellText` gives each cell as the reader returns it.
- write_site_index.py and the other page writers are not part of this model.
- get_bible_data's tables become the parameters `bookNames` and `bookNums`. `get_verse_counts` (chapters_in_book), `get_base_template_args` and `write_html` with its template are not part of this model.
- The words of a chapter's frequency list are taken with `int()` already applied to each group's count.
- Rounding.RoundSigFigs: works on exact rationals, not IEEE doubles. It therefore ignores binary representation effects of "%g": the double nearest 12.345 lies just above it, so "%.4g" gives 12.35, while the exact tie 12.345 rounds half to even to 12.34.
- The float thousands-formatting of `format(x, ",")` for a float simple score is kept unrendered as `GroupedFloat`.
- `showFloat` stands for Python's repr of a float.
- Strings.Upper: ASCII letters only. Strings.Lower is the same. Book abbreviations are ASCII.
- ChapterPage.ParseInt: accepts decimal digits only. It ignores the signs and surrounding whitespace that `int()` also accepts.
- Ranking.RankedLayout: holds only when no scored word is itself "TOTAL WORDS". If one is, the assignment overwrites the header in place; `RankedWords` gives the keys for every input, that case included.
- The call at build_website.py:186-192 passes `custom_paragraphing`. write_bible_chapter does not accept that argument, so the call raises TypeError. The model joins the two halves as if that call succeeded.
- The loop at write_bible_chapter.py:47-51 rebinds only its loop variable and leaves `lines` untouched, so it is modelled as nothing.
- build_website.py:264 and build_website.py:276 store and dump the same dict that write_chapter_html later edits. Once the write_chapter_html call succeeds (as written it raises the TypeError noted above first), the dumped JSON lacks "TOTAL WORDS". The model shows the edited dict (`DictAfterHtml`) but not the aliasing.
- `book_folder` at build_website.py:267-271 is set only when a key is chapter 1 of its book. If the first key of the file is not, the name is unbound; if a later book lacks its chapter 1, its files go silently into the previous book's folder. Folders are not modelled, so neither case is.
- Folders are not modelled: files are keyed by name only. The page's folder HTML/NN_Abc also differs from the build's NN-abc folder.
- Each integer tier of round_4_to_6_sigfigs keeps every digit left of the point, so 123456 stays 123456 (build_website.py:31-32); `RoundSigFigsExamples` states it.
- get_top_7_words says the first rows are those with the highest weightedRelFreq. The rows are ranked by simple score first, and the model follows that ranking.

## Findings

| source | as written | input that shows it | evidently intended | confidence | as-written member | corrected member |
|---|---|---|---|---|---|---|
| write_bible_chapter.py:78-79 | the page reads its keywords from "{Abc}{NNN}_word_freq.csv", with the abbreviation as given and underscores | book Gen, chapter 1: the page reads Gen001_word_freq.csv, but build_website.py:200-201 wrote gen001-word-freq.csv | read the CSV file the build wrote for the chapter, so the top seven words reach the keywords | medium, not executed | ChapterLinks.KeywordsFileMissing | ChapterLinks.LinkedTopWords |
