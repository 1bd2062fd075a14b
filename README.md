# China Daily crawl-and-analyse pipeline — a verified model

The system crawls a list of news articles and prepares them for analysis.

- **`crawler.py`**: `WebCrawler` reads a spreadsheet of titles and URLs. For each
  article it fetches the page, picks the article container, and saves the container's
  images (at least 300x200) and videos. It then writes a text file made of a
  `标题: ` (title) line, a `网址: ` (address) line, the paragraphs, and numbered
  `图片列表:` / `视频列表:` manifests. Finally it commits the URL to a progress ledger,
  so a later run skips it.
- **`data_processor_fixed.py`**: reads those text files back into corpus records,
  pulls a publication date out of the body, and parses the sentiment report into
  records.
- **The two word-frequency scripts**: gather the bodies of the text files, filter
  and count the words, and report the most common ones.
- **`delete_old_files.py`**: removes the articles whose address carries a date before
  2015, together with their media.

The model is split into one Dafny module per component:

- `Strings`: whitespace, strip, search, ASCII lower-casing, split and join, decimal rendering.
- `Dom`: the parsed HTML tree and the `find`/`find_all`/`get_text`/`decompose` operations.
- `Web`: fetching, status check, page parsing, image decoding, `urljoin` and whether a
  text file can be written, as a value.
- `Extractor`: choosing the article container and collecting its paragraphs.
- `DisplaySize`: an image's declared size.
- `Naming`: the file names and extensions the crawler gives what it saves.
- `ImageHarvest` and `VideoHarvest`: the media harvester.
- `TextWriter`: the text file of one article.
- `Crawler`: the `WebCrawler` class, holding the ledger and the folder of text files, and the crawl loop.
- `CorpusParser`, `ContentDate` and `Sentiment`: the data processor.
- `BodyWindow`, `Frequency`, `EnglishFrequency` and `WordFrequency`: the frequency scripts.
- `OldFiles`: the pruner. Its `Store` class holds the three folders.

Where the source changes state step by step, the model uses methods with loops. Each
method is proved equal to a specification function, and the properties are proved as
lemmas about that function. The model follows the code rather than its comments. For
example:

- `extract_date_from_content` searches four patterns, but the slash and dotted patterns
  can never yield a date.
- `start_crawling` commits a URL even when its text file could not be written.

## Model

| member | source | states |
|---|---|---|
| Extractor.Hits | crawler.py:119-127 | position j says whether selector j finds an element whose text is not blank |
| Extractor.FirstHit | crawler.py:119-129 | the first selector that hits, with none before it; or none hits at all |
| Extractor.ProbeSelectors | crawler.py:119-129 | the selector loop stops at exactly the first hitting selector |
| Extractor.LongestIndex | crawler.py:134-137 | the div chosen has the longest stripped text, and no earlier div is as long (Python's `max` keeps the first maximum) |
| Extractor.LongestDiv | crawler.py:134-137 | the loop over the divs finds that same first longest div |
| Extractor.TextsInOrder | crawler.py:146-159 | the k-th collected text is the stripped text of the k-th element, in list order, whose text is longer than the bound; nothing is reordered, dropped or repeated |
| Extractor.LongTextPositions | crawler.py:149-151 | the positions of the elements whose stripped text passes the length test, strictly ascending, and every passing position is among them |
| Extractor.LongTextPositionsComplete | crawler.py:149-151 | every position whose element's stripped text is longer than the bound is listed |
| Extractor.TextsLongerThanMembers | crawler.py:146-159 | every collected text is longer than the bound and is the stripped text of one of the elements, and every element whose stripped text is longer than the bound gives a text |
| Extractor.TextsLongerThanAppend | crawler.py:146-159 | collecting from two runs of elements gives the texts of the first run followed by those of the second |
| Extractor.TextsLongerThanOne | crawler.py:149-151 | a single element contributes its stripped text exactly when that text is longer than the bound, and nothing otherwise |
| Extractor.CollectTexts | crawler.py:146-159 | the paragraph loop collects exactly those texts |
| Extractor.ContainerParagraphsSound | crawler.py:140-152 | every paragraph is a non-blank `p`/`h1`-`h6` text of the pruned container that is not boilerplate, and every such non-empty text is collected |
| Extractor.FallbackParagraphsSound | crawler.py:153-161 | without a container, every paragraph is the text of a `p` of the page longer than 30 characters, and every such `p` text is kept |
| Extractor.ContainerParagraphsInOrder | crawler.py:146-152 | the container's k-th paragraph is the text of the k-th `p`/`h1`-`h6` element with text, in the order the search lists them |
| Extractor.FallbackParagraphsInOrder | crawler.py:153-161 | the k-th fallback paragraph is the text of the k-th `p` longer than 30 characters, in the order the search lists them |
| Extractor.ArticleContainer | crawler.py:116-161 | the container is the chosen element with boilerplate removed, or `<body>` when nothing was chosen |
| Extractor.ExtractArticleContent | crawler.py:110-161 | returns the container and the paragraphs joined by blank lines, on both the container and the fallback path |
| Dom.Select | crawler.py:289-291 | a `find_all` keeps exactly the matching nodes, and only nodes of the list, in list order |
| Dom.SelectAppend | crawler.py:289-291 | searching two runs of nodes gives the matches of the first run followed by those of the second, so document order is kept |
| Dom.SelectOne | crawler.py:289-291 | a single node is kept exactly when it matches |
| Dom.FirstIndex | crawler.py:121-125 | `find` returns the first match, or none when nothing matches |
| Dom.PruneRemovesBoilerplate | crawler.py:142-143 | after decomposing, no script, style, nav, footer or aside element is left in the container |
| Dom.StrippedTextTrimmed | crawler.py:148 | `get_text(strip=True)` never starts or ends with whitespace |
| Dom.BlankTextStripsEmpty | crawler.py:127 | an element whose raw text is blank has an empty stripped text |
| DisplaySize.NumericAttributesGiveSize | crawler.py:217-229 | `width`/`height` attributes holding whole numbers, with or without `px`, give exactly that size |
| DisplaySize.GetDisplaySize | crawler.py:210-249 | only the size attributes can make the call raise, so an image without both truthy attributes always gets a size |
| DisplaySize.StyleSize | crawler.py:232-249 | the style half never raises and gives non-negative sizes, and a non-zero width or height is the first value the style declares for it |
| DisplaySize.ParseTruncatesFraction | crawler.py:229 | `int(float(s))` of a signed decimal with a fraction is its integer part, truncated toward zero |
| DisplaySize.ParseNatString | crawler.py:229 | the decimal rendering of a whole number reads back as that number |
| DisplaySize.RemovePxSuffix | crawler.py:224-227 | removing `px` from digits followed by `px` leaves the digits |
| DisplaySize.CleanNumber | crawler.py:224-227 | the `px` clean-up turns a number with or without `px` into the bare number |
| DisplaySize.StyleValue | crawler.py:237-243 | the style value read is the leftmost `key: digits` declaration, and none is read when there is no such declaration |
| DisplaySize.StyleGivesSize | crawler.py:234-244 | without both size attributes, a style whose first `width` and first `height` open `key : digits` declarations gives exactly those two numbers as the size |
| DisplaySize.NoSizeGivesZero | crawler.py:232-249 | without both size attributes, a missing style or one that lacks `width` or `height` gives the size (0, 0) |
| DisplaySize.MissingAttributesUseStyle | crawler.py:221-235 | without both a truthy `width` and a truthy `height` attribute, the size is the one the `style` attribute gives (the empty style when it is absent) |
| DisplaySize.StyleSizeRead | crawler.py:240-244 | a style from which both a width and a height are read gives exactly that size |
| DisplaySize.EmptyStyleNoValue | crawler.py:235 | an empty style declares no value |
| DisplaySize.FirstDeclarationRead | crawler.py:237-242 | when the first occurrence of the key opens a `key : digits` declaration, the search reads its number |
| DisplaySize.NoKeyNoValue | crawler.py:237-240 | a style that never mentions the key yields no value for it |
| DisplaySize.StyleValueAt | crawler.py:237-238 | the search returns the declaration at a position when no declaration starts between the search start and it |
| DisplaySize.DeclarationNeedsKey | crawler.py:237-238 | a declaration can only start where the key occurs |
| DisplaySize.DeclarationRead | crawler.py:237-242 | a declaration `key`, blanks, `:`, blanks and a digit run reads as the number the digits spell |
| DisplaySize.DigitsValueAppend | crawler.py:242-243 | the value of concatenated digit runs is the first value shifted by the second run's length plus the second value |
| DisplaySize.DigitEnd | crawler.py:237 | the digit run starting at an index ends at the first non-digit |
| Naming.SafeTitle | crawler.py:182 | the sanitised title contains none of the nine characters illegal in paths, is no longer than the title, and is the title itself when nothing had to go |
| Naming.SafeTitleIdempotent | crawler.py:182 | sanitising twice is sanitising once |
| Naming.SafeTitleAppend | crawler.py:182 | sanitising works character by character: the sanitised concatenation is the concatenation of the sanitised parts, so the kept characters stay in order |
| Naming.SafeTitleChar | crawler.py:182 | one character is dropped exactly when it is one of the nine illegal in paths, and kept unchanged otherwise |
| Naming.ImageExtFromContentType | crawler.py:389-400 | the fallback extension is jpg when the content type names jpeg or jpg (or none of the four), else png when it names png, else gif when it names gif, else webp when it names webp; each case in both directions |
| Naming.ImageExtFromFormat | crawler.py:367 | a decoded image is saved under its lower-cased format, or `jpg` when the format is unknown |
| Naming.VideoExt | crawler.py:599-614 | the video extension is mp4, webm or ogg as the content type names them, in that order; without any of the three, the first of `.mp4`, `.webm`, `.ogg` in the URL, and mp4 without one |
| Web.CheckedFetch | crawler.py:173-174 | a fetch followed by `raise_for_status` succeeds exactly when the request answered with a success status |
| ImageHarvest.BackgroundOf | crawler.py:261-266 | a background URL kept from a style is non-empty and holds none of the blocked keywords |
| ImageHarvest.LazyCapture | crawler.py:262 | the lazy `url(...)` capture is a prefix of the rest of the style with no line break in it |
| ImageHarvest.FindBackgroundImages | crawler.py:251-268 | the loop over styled elements collects exactly the kept background URLs, in document order |
| ImageHarvest.BackgroundsOfFiltered | crawler.py:263-266 | every collected background URL is non-empty and not an icon, logo, banner, button or background |
| ImageHarvest.FirstTruthy | crawler.py:319-321 | the image URL is the first non-empty value among src, data-src, data-original, data-original-src and data-lazy-src, or none when all are empty |
| ImageHarvest.ImageOutcome | crawler.py:319-385 | a saved tag image is at least 300x200, and a tag with no source or whose size raises is skipped |
| ImageHarvest.SaveTagImages | crawler.py:316-424 | the tag loop saves exactly the records the per-tag outcome yields, in order |
| ImageHarvest.SaveBackgroundImages | crawler.py:427-471 | the background loop saves exactly the records the per-background outcome yields, in order |
| ImageHarvest.DownloadImages | crawler.py:270-476 | the saved records are the tag images followed by the background images of the scope, and the count is their number |
| ImageHarvest.ImageOutcomeSound | crawler.py:319-385 | a saved tag image has the joined URL of its first truthy source, passed the keyword filters, is at least 300x200, was fetched, and is named `title_i.ext` |
| ImageHarvest.ImageOutcomeSize | crawler.py:337-361 | a saved tag image's size is its declared size, or the decoded size when a declared dimension is 0 |
| ImageHarvest.BackgroundOutcomeSound | crawler.py:427-461 | a saved background image has the joined URL, was fetched and decoded, is at least 300x200, and is named `title_bg_n.ext` with n counted after all the tags |
| ImageHarvest.TagImagesSound | crawler.py:326-361 | every saved tag image is at least 300x200 and its URL holds no icon or advert keyword |
| ImageHarvest.BackgroundImagesSound | crawler.py:441-444 | every saved background image is at least 300x200 |
| ImageHarvest.SavedImagesLargeEnough | crawler.py:270-476 | every image the harvester records is at least 300 wide and 200 high |
| ImageHarvest.NoPageNoImages | crawler.py:297-301 | with no container and a page that cannot be fetched, nothing is saved |
| VideoHarvest.TruthySources | crawler.py:543-553 | only non-empty `src` values become video sources |
| VideoHarvest.CollectVideoSources | crawler.py:540-562 | the sources are the video-tag sources, then the player-like iframes, then the extra sources |
| VideoHarvest.CollectVideoTagSources | crawler.py:543-553 | for each video tag, its `source` children's URLs come first, then its own `src` |
| VideoHarvest.CollectTruthySources | crawler.py:545-548 | the inner loop keeps exactly the non-empty `src` values |
| VideoHarvest.CollectIframeSources | crawler.py:556-559 | the iframe loop keeps exactly the player-like iframe sources |
| VideoHarvest.IframeSourcesPlayerLike | crawler.py:557-559 | every kept iframe source is non-empty and mentions video, player, youtube or vimeo |
| VideoHarvest.LinkFileText | crawler.py:583 | a link file holds the six-character label followed by the video URL |
| VideoHarvest.SaveVideos | crawler.py:570-638 | the download loop records exactly the per-source outcomes, and the count is their number |
| VideoHarvest.DownloadVideos | crawler.py:507-643 | the saved records are those of the sources in the harvest scope, and the count is their number |
| VideoHarvest.EmbeddedIsLink | crawler.py:577-592 | an embedded player URL is always kept as the link file `title_i_link.txt`, without any download |
| VideoHarvest.DirectIsFile | crawler.py:594-631 | any other URL is saved exactly when its download succeeds, as a file named `title_i.mp4`, `.webm` or `.ogg` |
| VideoHarvest.VideoOutcome | crawler.py:577-631 | a saved video carries the joined URL; a source is dropped only when it is not an embedded player and its download fails |
| VideoHarvest.SavedKindMatchesUrl | crawler.py:577-631 | a saved video is a link exactly when its URL is an embedded player |
| TextWriter.RenderFullContent | crawler.py:185-198 | the string built step by step is the header followed by the image and video manifests |
| TextWriter.AppendImageManifest | crawler.py:188-192 | the image loop appends the numbered `name - 尺寸: WxH` lines after the heading, or nothing for no images |
| TextWriter.AppendVideoManifest | crawler.py:194-198 | the video loop appends the numbered file names after the heading, or nothing for no videos |
| TextWriter.DownloadText | crawler.py:163-208 | succeeds exactly when the page fetch passes the status check and the text file can be written; it then writes `SafeTitle(title).txt` with the rendered text and returns the container, and on any failure it writes nothing and returns no container |
| TextWriter.NoMediaIsHeader | crawler.py:185-198 | with no media the file is just the title line, the URL line, a blank line and the content |
| Crawler.LoadedProgress | crawler.py:67-81 | the loaded ledger is the set of stored URLs, or empty when the file is missing or unreadable |
| Crawler.WebCrawler.constructor | crawler.py:64-65 | a new crawler starts from the loaded ledger and the existing text folder |
| Crawler.WebCrawler.SaveProgress | crawler.py:83-93 | saving progress adds the URL to the ledger and changes nothing else |
| Crawler.FirstPresentFrom | crawler.py:662-671 | finds the first candidate column present in the sheet, with none before it, or none at all |
| Crawler.FindColumn | crawler.py:661-671 | the column search returns the first listed candidate the sheet has, and nothing exactly when it has none |
| Crawler.Tasks | crawler.py:677-686 | at most one task per row of the sheet |
| Crawler.TasksAppend | crawler.py:677-686 | the tasks of two runs of rows are the first run's tasks followed by the second run's, so rows keep their sheet order |
| Crawler.TasksOne | crawler.py:677-686 | a row with both cells gives the one task (title, url), a row missing either cell gives none |
| Crawler.Visit | crawler.py:684-734 | a row commits its URL exactly when the URL is http, not yet in the ledger, and the page request does not raise; no text file is lost, and only the title's text file can be added or change |
| Crawler.Visits | crawler.py:684-734 | the rows only add to the ledger and to the text files, and every URL added starts with `http` |
| Crawler.Crawl | crawler.py:645-736 | a sheet that cannot be read changes nothing; otherwise the crawl only adds to the ledger and to the text files, and every URL added starts with `http` |
| Crawler.WebCrawler.VisitRow | crawler.py:684-734 | one row moves the crawler from one ledger state to the state `Visit` specifies |
| Crawler.WebCrawler.Harvest | crawler.py:702-712 | the images and videos are harvested from the container extracted from the fetched page |
| Crawler.WebCrawler.StartCrawling | crawler.py:645-736 | the crawl leaves the crawler in the state `Crawl` specifies, and never removes a URL from the ledger |
| Crawler.SkippedRowUnchanged | crawler.py:688-696 | a non-http URL, or one already in the ledger, changes nothing, whatever the network would answer |
| Crawler.FetchErrorUncommitted | crawler.py:724-729 | when the page request raises, neither the ledger nor the texts change, so the next run retries |
| Crawler.FailedTextStillCommitted | crawler.py:716-719 | when the text fetch fails its status check or the text file cannot be written, the URL is still committed and no text is written |
| Crawler.CommittedPageWritten | crawler.py:700-719 | after a page that passes the status check and whose text file can be written, the URL is committed, the title's text file holds the title, the URL, the article text and the manifests of the images and videos harvested from the page's container, and every other text file is unchanged |
| Crawler.RepeatedUrlVisitedOnce | crawler.py:694-696 | a second row with an already processed URL changes nothing |
| Crawler.VisitsCompleted | crawler.py:684-734 | after the loop, the ledger is the old ledger plus exactly the http URLs whose fetch did not raise |
| Crawler.CrawlKeepsCompleted | crawler.py:645-736 | the ledger only ever grows |
| Crawler.MissingColumnNoWork | crawler.py:673-675 | a sheet lacking every title column or every URL column leaves the crawler untouched |
| CorpusParser.LineEnd | data_processor_fixed.py:67 | a `.+` capture runs to the next line break or the end of the text |
| CorpusParser.FieldStart | data_processor_fixed.py:67-72 | a field starts right after the first label occurrence (at or after the start) that is followed by something other than a line break; no earlier occurrence qualifies, and none is found when no occurrence qualifies |
| CorpusParser.BaseName | data_processor_fixed.py:68 | the fallback title is the suffix of the path after its last slash: a suffix of the path, holding no `/`, preceded by a `/` unless it is the whole path |
| CorpusParser.CutAt | data_processor_fixed.py:81 | the text is cut just before the first occurrence of the image-manifest heading: the result is a prefix with no occurrence starting inside it, the heading occurs right where it ends, and nothing is cut when the heading is absent |
| CorpusParser.CutAtFree | data_processor_fixed.py:81 | after the cut, the heading no longer occurs |
| CorpusParser.CutSpecials | data_processor_fixed.py:84 | the text is cut at the earlier of the first `\nSpecials\n` and the first `\nVideos\n`: neither starts inside the kept prefix, one of them starts where it ends, and nothing is cut when both are absent |
| CorpusParser.ParseShape | data_processor_fixed.py:60-102 | every parsed record has the fixed source, media name and type, no video, and an image path `images/<title>_1.jpg` exactly when the file has an image manifest; its content holds no image-manifest heading |
| CorpusParser.ParseTextFile | data_processor_fixed.py:60-106 | a record exists exactly when the file could be read; it keeps the file path, has no video, and has an image URL exactly when the file holds the image-manifest heading |
| CorpusParser.TextContent | data_processor_fixed.py:75-84 | the body left after removing the header and cutting the manifests never contains the image-manifest heading |
| CorpusParser.UnreadableGivesNone | data_processor_fixed.py:104-106 | a file that cannot be read gives no record |
| CorpusParser.RoundTrip | data_processor_fixed.py:60-102 | parsing a text file the crawler wrote without media gives back its title, its URL, its stripped content and the date found in the content |
| CorpusParser.TitleRead | data_processor_fixed.py:67-68 | the title field of a crawler file is the title that was written |
| CorpusParser.UrlRead | data_processor_fixed.py:71-72 | the URL field of a crawler file is the URL that was written |
| CorpusParser.BodyRead | data_processor_fixed.py:75-84 | removing the header block and cutting the manifests leaves exactly the content the crawler wrote |
| CorpusParser.HeaderLayout | crawler.py:185 | the crawler's file opens with the title label and title, a line break, the URL label and URL, and a blank line |
| CorpusParser.RenderedFree | crawler.py:185 | a pattern on one line that is in none of the parts and does not start inside a label is not in the file |
| ContentDate.ShortNumberBefore | data_processor_fixed.py:112-115 | `\d{1,2}` followed by a separator reads one or two digits and their value |
| ContentDate.Attempt | data_processor_fixed.py:119-128 | a pattern yields only valid calendar dates |
| ContentDate.ExtractDate | data_processor_fixed.py:108-130 | any extracted date is a valid calendar date |
| ContentDate.SearchFromLeftmost | data_processor_fixed.py:119 | `re.search` finds the leftmost match, and none when no position matches |
| ContentDate.AttemptLeftmost | data_processor_fixed.py:119-128 | a pattern's date comes from its leftmost match only: the day that match names when it is a real day, and no date otherwise, whatever later matches hold |
| ContentDate.AttemptNoMatch | data_processor_fixed.py:119-120 | a pattern that matches nowhere yields no date |
| ContentDate.MatchStartsWithDigit | data_processor_fixed.py:112-113 | a match of either pattern starts with a digit |
| ContentDate.ChineseNeedsYearMark | data_processor_fixed.py:112 | a `年月日` match has `年` right after its four year digits |
| ContentDate.ChineseDateRoundTrip | data_processor_fixed.py:112-124 | a `Y年M月D日` date written out is read back as that date, for years 1000-9999 and real calendar days |
| ContentDate.ChineseDateAfterPrefix | data_processor_fixed.py:112-124 | a `Y年M月D日` date with a real day, after any digit-free text and before any text, is the date extracted |
| ContentDate.HyphenDateRoundTrip | data_processor_fixed.py:113-126 | a `Y-M-D` date written out with a real day, for years 1000-9999, is read back as that date |
| ContentDate.InvalidChineseFallsThrough | data_processor_fixed.py:121-128 | when the first Chinese date is not a calendar date, the search goes on with the hyphen pattern |
| Sentiment.MakeRecord | data_processor_fixed.py:153-171 | a record's three rates sum to 100, its confidence is 85, and its title is the stripped capture |
| Sentiment.HeaderOf | data_processor_fixed.py:142-148 | a line opens the positive list when it names it, else the negative list when it names that, else the neutral list when it names that, tested in that order |
| Sentiment.SearchScoreLeftmost | data_processor_fixed.py:151 | `re.search` returns the match at the first position where the score pattern matches |
| Sentiment.SearchScoreNone | data_processor_fixed.py:151-152 | no match is returned when the score pattern matches nowhere |
| Sentiment.ScoreLineRead | data_processor_fixed.py:151-154 | the report line `N. title (得分: score)` for a one-line title with no surrounding whitespace and no `(得分:` in it, and a score `-?digits.digits`, is read back as exactly that title and score |
| Sentiment.ParseSentimentResults | data_processor_fixed.py:132-176 | reading the file gives the records the line scan specifies, and nothing when the file cannot be read |
| Sentiment.CurrentIsLastHeader | data_processor_fixed.py:142-148 | the current section is the last list header seen |
| Sentiment.RecordSectionIsLastHeader | data_processor_fixed.py:149-171 | a scored line adds exactly one record, labelled with the last header seen |
| Sentiment.NoHeaderNoRecords | data_processor_fixed.py:149 | no record is produced before the first section header |
| Sentiment.RecordsWellFormed | data_processor_fixed.py:159-171 | every record carries the fixed rates of its section (90/5/5, 5/90/5, 50/25/25) and a trimmed title |
| Sentiment.AtMostOnePerLine | data_processor_fixed.py:142-171 | there are never more records than lines |
| BodyWindow.FirstWhere | english_word_frequency_analysis.py:38-48 | finds the first line satisfying the test, with none before it, or none at all |
| BodyWindow.FindStart | english_word_frequency_analysis.py:37-41 | the start is the first non-blank line that is not a header, or 0 when there is none |
| BodyWindow.FindEnd | english_word_frequency_analysis.py:44-48 | the end is the first line mentioning a media list, or the number of lines |
| BodyWindow.ExtractMainContent | english_word_frequency_analysis.py:29-55 | the body is the joined window of the file's lines, and empty for an unreadable file |
| BodyWindow.ExtractMainContentCjk | word_frequency_analysis.py:28-58 | as above, but empty for a file with no CJK ideograph |
| BodyWindow.ExtractFor | word_frequency_analysis.py:34-35 | selects the gated or ungated extraction |
| BodyWindow.GatherTexts | english_word_frequency_analysis.py:59-67 | the corpus is the non-empty bodies of the `.txt` files, each followed by a line break, and the file count is their number |
| BodyWindow.Contributions | english_word_frequency_analysis.py:61-67 | at most one body per listed file |
| BodyWindow.ContributionsSound | english_word_frequency_analysis.py:61-67 | every contributed body is non-empty and is the body of some listed `.txt` file |
| BodyWindow.ContributionsComplete | english_word_frequency_analysis.py:61-67 | the body of every `.txt` file whose body is non-empty is contributed |
| BodyWindow.ContributionsCount | english_word_frequency_analysis.py:61-67 | the number of bodies, which the script prints as the file count, is the number of listed positions holding a `.txt` file with a non-empty body |
| BodyWindow.ContributionsAppend | english_word_frequency_analysis.py:61-67 | the bodies of two runs of files are the first run's bodies followed by the second run's, so listing order is kept |
| BodyWindow.ContributionsOne | english_word_frequency_analysis.py:61-67 | one file contributes its body exactly when it is a `.txt` file with a non-empty body, and nothing otherwise |
| BodyWindow.WindowOfRendered | english_word_frequency_analysis.py:29-52 | the body of a file the crawler wrote is exactly its article text, plus a final line break when a media list follows |
| BodyWindow.EmptyArticleKeepsHeader | english_word_frequency_analysis.py:37-41 | for an article with no text, no line qualifies as a start, so the header lines are counted as body |
| Frequency.BumpPresent | english_word_frequency_analysis.py:88 | counting a word already seen increments its own entry only |
| Frequency.BumpAbsent | english_word_frequency_analysis.py:88 | counting a new word appends it with count 1 |
| Frequency.BumpTotal | english_word_frequency_analysis.py:88-89 | each counted word adds one to the total |
| Frequency.TallyIsCounter | english_word_frequency_analysis.py:88 | the tally has one entry per distinct word, holding its exact number of occurrences |
| Frequency.TallyTotal | english_word_frequency_analysis.py:89 | the sum of the counts is the number of words |
| Frequency.Tally | english_word_frequency_analysis.py:88 | the counter has at most one entry per word counted, and at least one when any word was counted |
| Frequency.Insert | english_word_frequency_analysis.py:95 | insertion keeps every entry and adds the new one |
| Frequency.SortByCount | english_word_frequency_analysis.py:95 | the sort is a permutation of the entries |
| Frequency.SortSorted | english_word_frequency_analysis.py:95 | the sorted entries have non-increasing counts |
| Frequency.SortStable | english_word_frequency_analysis.py:95 | the sort is stable, as Python's `sorted` is: the entries of any one count keep their insertion order |
| Frequency.InsertStable | english_word_frequency_analysis.py:95 | inserting an entry in front of a sorted run keeps, for every count, the entries of that count in the order they had with the new entry first |
| Frequency.MostCommon | english_word_frequency_analysis.py:95 | `most_common(n)` gives at most n entries and no more than the counter holds |
| Frequency.MostCommonSound | english_word_frequency_analysis.py:95 | `most_common(n)` gives min(n, size) entries of the counter in non-increasing order, all of them when there are few enough, and every left-out entry counts no more than each chosen one |
| Frequency.SelectRows | english_word_frequency_analysis.py:105-115 | the row loop emits the word and count of exactly the entries seen at least three times, in order |
| Frequency.FrequentSound | english_word_frequency_analysis.py:106-108 | the rows are exactly the top entries with count at least 3, in the same order |
| Frequency.RowsSound | english_word_frequency_analysis.py:88-115 | at most n rows, non-increasing, each a real word with its exact count of at least 3; a frequent word left out means the top n were full of words at least as frequent |
| Frequency.CrowdedOut | english_word_frequency_analysis.py:95-108 | a word seen at least three times is missing from the rows only when all n top places hold words at least as frequent |
| EnglishFrequency.FilterWords | english_word_frequency_analysis.py:78-83 | the filter loop keeps the lower-cased, stripped tokens longer than one letter that are not stopwords |
| EnglishFrequency.KeptSound | english_word_frequency_analysis.py:80-83 | an ASCII token is kept exactly when it is at least two letters and its lower case is not a stopword, and it is kept in lower case |
| EnglishFrequency.Kept | english_word_frequency_analysis.py:80-82 | a kept word has at least two characters, is no longer than its token and is not a stopword |
| EnglishFrequency.KeptWordsSound | english_word_frequency_analysis.py:77-83 | every kept word is a lower-case ASCII word of two or more letters that is not a stopword |
| EnglishFrequency.Analyse | english_word_frequency_analysis.py:57-115 | the script exits exactly when no file contributed, and otherwise reports the file count, the kept words, their total and the frequent top-100 rows |
| EnglishFrequency.ReportRows | english_word_frequency_analysis.py:88-115 | at most 100 rows in non-increasing order, each a kept word with its exact count of at least 3, and the total is the number of kept words |
| WordFrequency.FilterWords | word_frequency_analysis.py:84-92 | the filter loop keeps the stripped Chinese words of two or more characters and ASCII words of three or more letters that are not stopwords |
| WordFrequency.KeptSound | word_frequency_analysis.py:85-92 | a token is kept exactly when its stripped form is a valid word, and it is kept stripped with its case unchanged |
| WordFrequency.Kept | word_frequency_analysis.py:85-92 | a kept word is the stripped token, of two or more characters |
| WordFrequency.KeptWordsSound | word_frequency_analysis.py:84-92 | every kept word is valid |
| WordFrequency.LayoutWordDropped | word_frequency_analysis.py:12-17 | the crawler's layout words (title, address, picture, list, video, size) never survive the filter |
| WordFrequency.BuildRows | word_frequency_analysis.py:114-125 | the row loop labels exactly the frequent top entries, in order |
| WordFrequency.LabelsMatch | word_frequency_analysis.py:121-125 | a row is labelled Chinese exactly when its word holds an ideograph |
| WordFrequency.TablesPartition | word_frequency_analysis.py:130-132 | the Chinese and English tables hold only rows of their language, together hold every row, and their sizes add up to the number of rows |
| WordFrequency.Analyse | word_frequency_analysis.py:60-132 | the script exits exactly when no file with an ideograph contributed, and otherwise reports the kept words, the labelled top-50 rows and the two language tables |
| WordFrequency.ReportRows | word_frequency_analysis.py:97-125 | at most 50 rows in non-increasing order, each a valid word with its exact count of at least 3, labelled by whether it holds an ideograph |
| OldFiles.FindDatePattern | delete_old_files.py:8 | the search finds the leftmost `dddd-dd/dd` in the URL, and none when there is none |
| OldFiles.ExtractDate | delete_old_files.py:6-12 | a URL gives no date exactly when it has no `dddd-dd/dd`, and a parsed date is a valid calendar date |
| OldFiles.ExtractUrlDate | delete_old_files.py:6-12 | a URL carrying a zero-padded date, with no digits before it, gives that date, or an error when the date is not a calendar date |
| OldFiles.MediaFilesAsWritten | delete_old_files.py:14-25 | the media list as written holds non-empty trimmed entries; it is empty unless both the full-width image heading and, after it, the full-width video heading occur; otherwise it is the non-blank stripped lines of the image group followed by those of the video group |
| OldFiles.NonBlankAppend | delete_old_files.py:22-23 | the kept lines of two runs of lines are those of the first run followed by those of the second, so line order is kept |
| OldFiles.NonBlankOne | delete_old_files.py:22-23 | one line contributes its stripped text exactly when that is not empty |
| OldFiles.ImageGroupStopsAtVideos | delete_old_files.py:19 | the lazy image group ends at the first full-width video heading after the image heading, so it never contains one |
| OldFiles.AsWrittenMissesCrawlerFiles | delete_old_files.py:19 | on any file the crawler writes (half-width colons), the media list as written is empty |
| OldFiles.MediaFilesOfRendered | delete_old_files.py:14-25 | the corrected media list of a crawler file is exactly its saved image names followed by its saved video names |
| OldFiles.ImageNames | crawler.py:376-382 | one file name per saved image, in order |
| OldFiles.VideoNames | crawler.py:585-629 | one file name per saved video, in order |
| OldFiles.UrlOfRendered | delete_old_files.py:49-53 | the address read back from a crawler file is the URL that was written |
| OldFiles.UrlOfText | delete_old_files.py:49-53 | an address is found only when the `网址: ` label occurs, and it holds no line break |
| OldFiles.Decide | delete_old_files.py:49-56 | a file without an address is kept, and a file is deleted only when its address parses to a date before 2015 |
| OldFiles.CrawlerFileDecision | delete_old_files.py:49-56 | a crawler file whose URL carries a date is deleted exactly when the date is before 2015, and the run stops when it is not a calendar date |
| OldFiles.Store.constructor | delete_old_files.py:28-30 | the store starts from the given folders |
| OldFiles.Store.RemoveMediaFiles | delete_old_files.py:66-77 | every listed media name is removed from both the image and the video folder; the text folder is unchanged |
| OldFiles.Store.RemoveOldFiles | delete_old_files.py:27-77 | the folders after the run, and whether it stopped, are those `Prune` specifies for the listing |
| OldFiles.PruneStops | delete_old_files.py:45-54 | once the run has stopped, the rest of the listing is not looked at |
| OldFiles.PruneTexts | delete_old_files.py:38-63 | on a run that did not stop, the text files left are exactly those that are not listed `.txt` files dated before 2015, with their contents unchanged |
| OldFiles.PruneMedia | delete_old_files.py:60-77 | on a run that did not stop, an image or video is gone exactly when a deleted text file listed it |
| OldFiles.CondemnedStep | delete_old_files.py:60-77 | a media name is condemned after one more listed file exactly when it already was, or that file is deleted and lists it |
| OldFiles.PruneStep | delete_old_files.py:38-77 | one listed file removes at most its own text file and some media, and changes nothing when the run stops on it |
| OldFiles.Prune | delete_old_files.py:38-77 | the run only removes files: every folder keeps a subset of its names, and every text file left keeps its contents |
| OldFiles.Pad2Value | delete_old_files.py:8 | a two-digit zero-padded number reads back as that number |
| OldFiles.Pad4Value | delete_old_files.py:8 | a four-digit zero-padded number reads back as that number |
| Strings.Strip | crawler.py:148 | `strip()` removes exactly the leading and trailing whitespace |
| Strings.JoinSplitLines | english_word_frequency_analysis.py:34-51 | joining the lines of `split('\n')` with line breaks gives back the text |
| Strings.SplitJoinLines | english_word_frequency_analysis.py:34-51 | splitting lines joined by line breaks gives back the lines |
| Strings.NatToStringValue | crawler.py:191 | the decimal rendering of a number reads back as the number |
| Strings.NatToStringInjective | crawler.py:191 | different numbers have different renderings |
| Strings.Lower | english_word_frequency_analysis.py:81 | `lower()` maps each ASCII capital to its small letter and leaves every other character alone |

## Left out

- Network traffic, time-outs, sleeps and logging are left out. The `Web` value answers
  each URL the same way every time during one run, and `requests` exceptions are
  folded into a fetch that returns nothing.
- File writes of images, videos and link files are taken to succeed. The crawler's
  record lists are modelled; the bytes are not.
- TextWriter.DownloadText: whether the text file can be written is the `canWrite` field of
  the `Web` value. A write that fails after part of the file is on disk is modelled as
  writing nothing.
- `os.makedirs` is left out.
- The JSON encoding of the progress file is left out. The ledger is loaded from an
  optional list, and saving it cannot fail.
- `pd.read_excel` and pandas are left out. The sheet is a parameter, a list of rows
  keyed by column name, with `dropna` applied to it.
- `find_additional_video_sources` (`crawler.py:478-505`) is not part of this model.
  Its result is the `extra` parameter of the video harvester and the crawl.
- PIL decoding and `urljoin` are functions carried by the `Web` value.
- `Extractor.ExtractArticleContent`: the parser's handling of malformed HTML is left out.
  The tree is taken as parsed.
- DisplaySize.GetDisplaySize: Python's `float()` is modelled by an exact decimal reader.
  Binary rounding of huge or long decimals, and underscores between digits, are not modelled.
- Strings.Lower: only ASCII letters are lower-cased, and `\d` (`IsDigit`) is ASCII digits
  only. Every keyword, stopword and pattern in the core is ASCII or CJK, but the input
  text may hold other Unicode digits. Python's `\d` and `int()` read the full-width date
  "２０２３年１月５日"; the model finds no date there. Whitespace follows Python's full
  `isspace()` class.
- EnglishFrequency.Analyse: `re.findall(r'\b[a-zA-Z]+\b')` is the `findWords` parameter.
  KeptWordsSound requires it to return ASCII words.
- WordFrequency.Analyse: `jieba.cut` is the `segment` parameter.
- EnglishFrequency.Analyse: the percentage and cumulative percentage columns (floats,
  `round`), the pandas re-sort and the Excel and CSV output are left out. The rows keep
  word and count.
- WordFrequency.Analyse: the percentage column and the Excel output are left out.
- Sentiment.MakeRecord: keeps the matched score text instead of the converted 0-10
  float.
- The database code of `data_processor_fixed.py` is left out, as are the other scripts.
- `os.listdir` order is the `listing` / `files` parameter. `print` output is left out.
- OldFiles.Store.RemoveOldFiles: uses the corrected media list (see Findings), not the
  as-written one, which the source would leave empty for every crawler file.
- OldFiles.ExtractDate: `strptime` years are four digits, so dates beyond year 9999 do
  not arise.

## Findings

| source | as written | input that shows it | evidently intended | confidence | as-written member | corrected member |
|---|---|---|---|---|---|---|
| delete_old_files.py:19 | the media section is searched with full-width colons (`图片列表：` … `视频列表：`), and an entry would be a whole manifest line | any crawler text file with one saved image, e.g. title `T`, URL `u`, content `c`, one image `T_1.jpg` 400x300: its manifest heading is `图片列表:` with a half-width colon, so nothing matches | the media files deleted along with an old article are the image and video file names its manifest lists | not executed | OldFiles.AsWrittenMissesCrawlerFiles | OldFiles.MediaFilesOfRendered |
