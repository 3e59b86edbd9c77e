# app-review-parser in Dafny

This project models the sequential core of `app-review-parser`, a Go library and two command-line tools. The library fetches the App Store customer-review RSS feed of an app page by page.

- `tsv-maker` prints the reviews as tab-separated rows. It can drop reviews rated above a threshold.
- `most-common-word` joins the eight fields of each entry's row with spaces, one line per entry with review text: the id, title, author name, author URI, version, rating, review and vote count. It tokenizes and tags that text. It lower-cases and trims each token, and counts it when the tag is one of thirteen (`JJ`, `JJR`, `JJS`, `RB`, `RBR`, `RBS`, `RP`, `VB`, `VBD`, `VBG`, `VBN`, `VBZ`, `WRB`) and the stop-word lookup does not flag the word. It prints the words most frequent first. The lookup as it stands flags as stop words only words with an apostrophe and a handful of the listed words, so most stop words are counted (see "## Findings").

The modules follow the program:

- `Wrappers`: `Option` and `Result`.
- `Strings`: the parts of Go's `strings` package the tools use.
  - `TrimSpace` with Go's exact white-space set.
  - `ToLower`, `ReplaceAll` and `Join`.
  - `Split`, for stating round trips.
  - Go's string order.
- `Strconv`: `Itoa` and `Atoi` on the 64-bit `int`.
- `Reviews` (`ios_response_structure.go`): the decoded feed. Every JSON label is a `Label`, whose `String` returns the label text unchanged. A review entry becomes an eight-field row (`QuickRow`), can be blanked (`Filter`), and has fixed column names (`QuickHeaders`).
- `Fetch` (`app_reviews.go`): the parts of one fetch that can be stated one step at a time.
  - The shared page cursor, a class whose `Next` advances `position`.
  - The URL template.
  - The rule by which a worker turns the outcome of its request into emit, drop or cancel.
- `TsvMaker` (`cmd/tsv-maker/main.go`):
  - the rating filter `reviewGreaterThan`;
  - the `sync.Once` header, a class with a `done` flag;
  - the nested loop of `main`, proved to print exactly `Output(pages, n)`.
- `MostCommonWord` (`cmd/most-common-word/main.go`):
  - `isStopWord`, with its bisection modelled step by step over the stop-word list as it stands;
  - `validTags`;
  - the counting loop over a map;
  - copying the map into a slice;
  - sorting that slice in place (an array) through `Less` and `Swap`;
  - rendering the report.

  The counting, the ranking and `main` take the stop-word test as a parameter. `main` as written uses the bisection over the unsorted list. It is proved to print the report of a ranking: each counted word once, with its exact count, most frequent first. Because the list is unsorted, most stop words are still counted. A corrected `main` sorts the list once at start-up; it is proved never to count a listed word (see "## Findings").

Some behaviours of the program that are easy to misread:

- The rating filter *drops* reviews rated above `n` and keeps the rest. A rating that does not parse keeps its review.
- `validTags` *keeps* only the thirteen listed tags. Words with any other tag are not counted.
- The header line of `tsv-maker` is printed once at least one entry exists, even if every entry is later filtered out.
- `isStopWord` bisects a list that is not sorted, so it misses most of the words in it.

## Model

| member | source | states |
|---|---|---|
| Strings.TrimSpace | ios_response_structure.go:60-65 | The result is empty exactly when the input is all white space (Go's `unicode.IsSpace` set). Otherwise it neither starts nor ends with white space. It is never longer than the input. |
| Strings.TrimSpaceIsSlice | ios_response_structure.go:65 | The trimmed text is the contiguous run of the input that starts right after the leading white space. Everything before and everything after that run is white space, so only white space is removed. |
| Strings.ToLower | cmd/most-common-word/main.go:47 | Same length; every character is lowered on its own; no ASCII capital remains. |
| Strings.ReplaceChar | ios_response_structure.go:66-67 | Same length. Each occurrence of the old character becomes the new one; every other character stays in place. |
| Strings.Join | cmd/tsv-maker/main.go:19 | Joining nothing gives the empty text. Otherwise the result starts with the first part and is as long as all parts plus one separator per gap. Its round trip is `SplitJoin`. |
| Strings.SplitJoin | cmd/tsv-maker/main.go:44 | Fields that hold no separator, joined with it and split again, come back unchanged. |
| Strconv.Itoa | app_reviews.go:50 | A minus sign exactly for negative numbers; otherwise only digits. |
| Strconv.ItoaCanonical | app_reviews.go:50 | `Itoa` gives the shortest form: a leading zero only for zero, and never a zero right after the minus sign. So page 2 is requested as `page=2`, not `page=02`. |
| Strconv.Atoi | cmd/tsv-maker/main.go:52 | Parsing succeeds exactly on a numeral (one optional `+` or `-`, then one or more digits and nothing else) whose value lies in the 64-bit range. The result is that value, defined independently by `NumeralValue` over `DecimalValue`. A numeral out of range is `ErrRange`; every other text, the empty one included, is `ErrSyntax`. |
| Strconv.AtoiExamples | cmd/tsv-maker/main.go:52 | "+5" parses to 5 and "-12" to -12; "4.5" and a lone "-" are syntax errors. |
| Strconv.AtoiItoa | app_reviews.go:50 | Parsing what `Itoa` renders gives back every 64-bit number. |
| Strconv.ItoaInjective | app_reviews.go:42-51 | Different numbers render to different texts. |
| Reviews.Entry.Filter | ios_response_structure.go:47-54 | The zero entry if some condition holds of the entry. The entry unchanged if none does, including when no condition is given. |
| Reviews.Entry.QuickRow | ios_response_structure.go:59-79 | No row exactly when the trimmed review text is empty. Otherwise the row has eight fields, in the order of the column names: the trimmed id, title, author name, author URI, version and rating, then the review, then the trimmed vote count. The review is the trimmed text cleaned by `CleanReview`, so it holds neither a line break nor a tab. |
| Reviews.Entry.QuickHeaders | ios_response_structure.go:83-94 | The same eight column names for every entry. |
| Reviews.CleanReview | ios_response_structure.go:64-67 | Same length; no line break or tab; every other character kept in place. |
| Reviews.FilteredOutHasNoRow | ios_response_structure.go:44-62 | An entry blanked by `Filter` has no row, so the tools skip it. |
| Reviews.QuickRowSplitsBack | ios_response_structure.go:59-79 | A row whose other fields are tab-free splits back into exactly its eight fields. |
| Reviews.HeadersSplitBack | ios_response_structure.go:83-94 | The tab-joined header line splits back into the eight column names. |
| Fetch.FeedUrl | app_reviews.go:17 | The URL is the fixed head, the app id, `/page=`, the page and the fixed tail: it has their summed length, starts with the head, carries the app id right after it, then `/page=`, and ends with the tail. |
| Fetch.PageOfFeedUrl | app_reviews.go:17 | The page number can be read back out of the URL it was put into. |
| Fetch.FeedUrlDistinct | app_reviews.go:80 | Different page numbers give different request URLs. |
| Fetch.PageCursor.constructor | app_reviews.go:64 | A new cursor starts at position 0. |
| Fetch.PageCursor.Next | app_reviews.go:42-51 | Position goes up by exactly one; the result is the decimal rendering of the new position. |
| Fetch.Draw | app_reviews.go:42-51 | `k` calls return the `k` positions after the current one, in order, pairwise different. |
| Fetch.FirstPages | app_reviews.go:64 | From a fresh cursor the first page is "1", and the `i`-th parses back to `i + 1`, so the pages strictly increase and never repeat. |
| Fetch.Classify | app_reviews.go:82-106 | Cancel exactly on a request that cannot be built, a status other than 200 whatever the body, or an undecodable body. Drop exactly on a transport error. Emit exactly on a decoded page with status 200, and it is that page that is emitted. |
| Fetch.Work | app_reviews.go:76-106 | The worker takes the next page, requests the feed URL of that page and acts as `Classify` says on the outcome. |
| TsvMaker.ReviewGreaterThan | cmd/tsv-maker/main.go:51-92 | Never holds when the rating does not parse, nor for `n` outside 1..4 (0 included). For `n` in 1..4 it holds exactly when the parsed rating exceeds `n`. It gives the same answer for every entry it is applied to. |
| TsvMaker.RatingFilter | cmd/tsv-maker/main.go:42-45 | With `n` in 1..4, a review rated above `n` writes nothing. Any other review writes its tab-joined row and a line break, or nothing when it has no row. |
| TsvMaker.Once.constructor | cmd/tsv-maker/main.go:15 | The once-flag starts unset. |
| TsvMaker.PrintHeadersOnce | cmd/tsv-maker/main.go:17-21 | The header line is written on the first call only; afterwards the flag is set. |
| TsvMaker.WriteRow | cmd/tsv-maker/main.go:42-45 | Appends the line of the filtered entry to the buffer. |
| TsvMaker.WritePage | cmd/tsv-maker/main.go:40-46 | Over the entries of one page: the header line is in the output once any entry has been seen, and the buffer gains the row lines of the page's entries in order. |
| TsvMaker.MakeTsv | cmd/tsv-maker/main.go:36-48 | The output is the header line if there is at least one entry, then the row lines in page order and entry order, then a final line break. |
| MostCommonWord.SearchFrom | cmd/most-common-word/main.go:99 | The bisection of `sort.Search` ends inside its window at a boundary for `x`, whatever the order of the list: the element before the result is below `x`, and the element at it is not. |
| MostCommonWord.SearchStrings | cmd/most-common-word/main.go:99 | The loop computes that bisection. The index is in `[0, len]`; the element before it is below `x`; the element at it is not. |
| MostCommonWord.SearchForThe | cmd/most-common-word/main.go:99 | The bisection for "the" over a 379-entry list with the listed words at those places ends at index 94. |
| MostCommonWord.TheIsMissed | cmd/most-common-word/main.go:94-483 | "the" is in the stop-word list, yet the lookup as written says it is not a stop word. |
| MostCommonWord.SearchForVery | cmd/most-common-word/main.go:99 | The bisection for "very" over a 379-entry list with the listed words at those places ends at index 166. |
| MostCommonWord.VeryIsCounted | cmd/most-common-word/main.go:47-50 | "very" is in the stop-word list, yet as written the token ("very", RB) is counted once. With the lookup's evident meaning it is not counted. |
| MostCommonWord.VeryIsReported | cmd/most-common-word/main.go:44-59 | For the single token ("very", RB), `main` as written ranks exactly the entry `very` with count 1 and prints `Word: very, Count: 1`. |
| MostCommonWord.VeryIsNotReported | cmd/most-common-word/main.go:44-59 | For that same token the corrected program ranks nothing. |
| MostCommonWord.SearchSorted | cmd/most-common-word/main.go:99-100 | On a sorted list the bisection lands on `x` exactly when `x` is in the list. |
| MostCommonWord.SortStrings | cmd/most-common-word/main.go:103-483 | Sorting yields a sorted permutation of the word list. |
| MostCommonWord.SortWords | cmd/most-common-word/main.go:103-483 | The sorted list holds exactly the words of the original. |
| MostCommonWord.IsStopWord | cmd/most-common-word/main.go:94-101 | Any word with an apostrophe is a stop word. Over any list, a hit is always a listed word. Over a sorted list, a word is a stop word exactly when it has an apostrophe or is in the list. |
| MostCommonWord.SortedStopWords | cmd/most-common-word/main.go:99-100 | With the list sorted once, the lookup agrees on every word with "has an apostrophe or is listed". |
| MostCommonWord.ValidTag | cmd/most-common-word/main.go:86-92 | True exactly for the thirteen listed tags. |
| MostCommonWord.CountToken | cmd/most-common-word/main.go:47-50 | For any stop-word test: the normalized word's count goes up by one (from zero when absent) exactly when the test does not flag it as a stop word and the tag is counted. Otherwise the map is unchanged. |
| MostCommonWord.CountWords | cmd/most-common-word/main.go:44-51 | For any stop-word test: a word is a key exactly when some token counts for it. Its value is the number of tokens whose lower-cased, trimmed text is the word, that the test does not flag and that carry a counted tag. |
| MostCommonWord.OccurrencesAgree | cmd/most-common-word/main.go:47-50 | Two stop-word tests that agree on every word give the same counts. |
| MostCommonWord.NormalizedShape | cmd/most-common-word/main.go:47 | A lower-cased, trimmed token text holds no ASCII capital and neither starts nor ends with white space. |
| MostCommonWord.CountedWordShape | cmd/most-common-word/main.go:47-50 | Every counted word has no ASCII capital and no surrounding white space, and the stop-word test does not flag it. As written, that rules out an apostrophe. With the corrected lookup, it also rules out every listed word. |
| MostCommonWord.Collect | cmd/most-common-word/main.go:53-56 | One pair per key of the map, with that key's count, each key once, and nothing else. |
| MostCommonWord.Less | cmd/most-common-word/main.go:71 | When it holds, only the order `i, j` is non-increasing in count. When it does not, the order `j, i` is. |
| MostCommonWord.Swap | cmd/most-common-word/main.go:72 | Exchanges two entries in place and changes nothing else. |
| MostCommonWord.Sort | cmd/most-common-word/main.go:58-72 | Afterwards the entries are a permutation of the old ones and do not increase in count. |
| MostCommonWord.Line | cmd/most-common-word/main.go:77-80 | A report line holds a line break only if its word does. |
| MostCommonWord.String | cmd/most-common-word/main.go:74-84 | The builder loop writes `Report`, one line per entry in order. |
| MostCommonWord.ReportIsJoin | cmd/most-common-word/main.go:74-84 | The report is the `Word: …, Count: …` lines joined by line breaks, plus a final line break. |
| MostCommonWord.ReportSplitsIntoLines | cmd/most-common-word/main.go:74-84 | When no word holds a line break, the report splits back into one line per entry in rank order, followed by the empty text. |
| MostCommonWord.ProseLine | cmd/most-common-word/main.go:33-35 | An entry adds text exactly when its trimmed review is not blank. That text is the eight fields of the row in order, with one space between each pair, followed by a line break. |
| MostCommonWord.WriteProseLine | cmd/most-common-word/main.go:33-35 | Appends the entry's line to the buffer. |
| MostCommonWord.WriteProsePage | cmd/most-common-word/main.go:31-36 | Over the entries of one page, the buffer gains their lines in order. |
| MostCommonWord.ProseInput | cmd/most-common-word/main.go:28-37 | The buffer holds the lines of all entries, in page order and entry order. |
| MostCommonWord.DistinctTexts | cmd/most-common-word/main.go:58 | Sorting a list whose words are all different leaves them all different. |
| MostCommonWord.RankingOfPermutation | cmd/most-common-word/main.go:53-58 | The sorted copy of the collected counts is a ranking of the tokens. |
| MostCommonWord.RankingAgree | cmd/most-common-word/main.go:44-59 | A ranking under one stop-word test is a ranking under any test that agrees with it on every word. |
| MostCommonWord.RankCounts | cmd/most-common-word/main.go:53-59 | From exact counts of the tokens, collecting, sorting and rendering yield a ranking of the tokens and its report. |
| MostCommonWord.MostCommonWordsWith | cmd/most-common-word/main.go:27-59 | For any stop-word test: a tokenizer error produces no output. Otherwise the output is the report of a ranking plus a line break. In the ranking every counted word appears once, with its exact count, most frequent first. |
| MostCommonWord.MostCommonWords | cmd/most-common-word/main.go:27-59 | `main` as written, with the bisection over the unsorted list: no output on a tokenizer error. Otherwise it prints the report of the ranking under that lookup, plus a line break. |
| MostCommonWord.MostCommonWordsSorted | cmd/most-common-word/main.go:27-59 | The corrected `main`: the same, with the ranking under "has an apostrophe or is listed". No listed word is ever counted. |

## Left out

- `FetchIOSAppReviews` as a whole (app_reviews.go:63-122): the goroutines, the results channel, the context cancellation, the spawn loop and the draining `select`. It is concurrent; the fetched pages are an input sequence here. `Fetch.Work` models one worker's sequential step.
- The semaphore and its random sleep of up to 600 ms (app_reviews.go:53-60): timing, blocking and randomness.
- The `RWMutex` of the cursor: `next` is modelled as a sequential method. In Go, `next` releases the lock between `p.position++` and the read of `p.position` (app_reviews.go:43-49). So two workers can both increment and then both read the same value, skipping one page and fetching another twice. `Fetch.Draw` and `Fetch.FirstPages` prove distinct, consecutive pages only for sequential calls.
- The HTTP client, `http.NewRequest`, `client.Do` and the JSON decoding: library I/O.
  - These become the `Outcome` datatype.
  - The function `request` passed to `Fetch.Work` stands for them.
- `RotatedUserAgents.GetUA`: only sets a request header. Its file is not part of this model.
- The `prose` tokenizer and part-of-speech tagger: a foreign library. It becomes the `tokenize` parameter of `MostCommonWord.MostCommonWords`, and its error becomes `None`.
- Flag parsing, `flag.PrintDefaults` and `log.Fatal` on a missing app id: process I/O. The app id and the filter level are parameters.
- Printing: `fmt.Println` is modelled by the text it writes, returned as a string.
- Strconv.Atoi: any malformed text is a syntax error. Go reports a range error instead when the digits overflow before the first bad character, as in "99999999999999999999x". No contract here depends on the kind of error.
- Strings.ToLower: lowers only ASCII letters. Go's `strings.ToLower` also lowers other Unicode letters.
- Strings.TrimSpace: works on Unicode code points. Go's byte-level handling of invalid UTF-8 is not modelled.
- Strings.Less: compares code points. Go compares UTF-8 bytes, which gives the same order on valid text.
- Fetch.PageCursor.Next: `position` is an unbounded integer. Go's `int` would wrap after 2^63 - 1 calls.
- MostCommonWord.CountWords: counts are unbounded integers, without the 64-bit wrap.
- MostCommonWord.Sort: an insertion sort through `Less` and `Swap`. Go's `sort.Sort` uses another algorithm and is not stable, so only order and permutation are stated, and ties may come out in a different order.
- MostCommonWord.Collect: Go visits map keys in random order. The model picks any remaining key, so only the set of pairs is stated, not their order.
- `Len` of `countsSorted`: the array length.
- The JSON field types of the feed (`ID`, `Title`, `ImRating` and the others) are all labels, so each is modelled as `Label`. The attribute-only fields (`im:contentType`, `link`) are `Attributes`.

## Findings

| source | as written | input that shows it | evidently intended | confidence | as-written member | corrected member |
|---|---|---|---|---|---|---|
| cmd/most-common-word/main.go:99-100 | `isStopWord` runs the bisection of `sort.SearchStrings` over the `stopWords` literal (lines 103-483). That literal is not sorted, and it holds a list of 127 words three times over, with "now" and "i" fused into "nowi" at both seams. | "the" is in the list at index 55. The bisection visits "while", "there", "had", "between", "in", "again", "once" and "here", then stops at index 94, which holds "there". So `isStopWord("the")` is false, and "the" is counted whenever the tagger gives it a counted tag. | Every word in the list is a stop word. Sort the list once before any lookup (`sort.Strings(stopWords)`), which the model does with `SortWords`. | high; not executed | MostCommonWord.TheIsMissed | MostCommonWord.IsStopWord |
| cmd/most-common-word/main.go:47-50 | `main` counts a token whenever `isStopWord` says no. Because of the lookup above, most listed words are counted. | The single token ("very", RB). The bisection for "very" (index 118) visits "while", "there", "himself", "was", "themselves", "that", "am" and "are", then stops at index 166, which holds "was". So `main` prints `Word: very, Count: 1`. | No stop word is ever counted. With the list sorted at start-up, the ranking is taken under "has an apostrophe or is listed", and the same token gives an empty report. | high; not executed | MostCommonWord.VeryIsReported | MostCommonWord.MostCommonWordsSorted |
