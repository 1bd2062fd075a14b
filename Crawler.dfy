/**
 * The crawl driver (`WebCrawler.start_crawling`) and its progress ledger.
 * The ledger is the set of URLs whose processing finished; it is loaded once,
 * only ever grows, and a URL already in it is never fetched again.  For each
 * row of the spreadsheet the crawler fetches the page, harvests its images and
 * videos, writes the text file and then commits the URL, whether or not the
 * text file could be written.  A failed page fetch leaves the URL uncommitted
 * so that the next run retries it.
 */
module Crawler {
  import opened Wrappers
  import opened Strings
  import opened Web
  import opened Naming
  import Extractor
  import ImageHarvest
  import VideoHarvest
  import TextWriter

  // ---------------------------------------------------------------------------
  // The spreadsheet and its columns
  // ---------------------------------------------------------------------------

  /** What `read_excel` yields: the column names and the rows; a row lacks a key where its
      cell is empty (NaN).  Cells are already passed through `str(...)`. */
  datatype Table = Table(columns: seq<string>, rows: seq<map<string, string>>)

  const TitleColumns: seq<string> := ["标题", "文章标题", "title", "Title", "字段1_文本_文本"]
  const UrlColumns: seq<string> := ["网址", "链接", "url", "URL", "link", "Link", "字段1_链接_链接"]

  /** The position of the first candidate at or after `from` that is a column of the table. */
  function FirstPresentFrom(candidates: seq<string>, columns: seq<string>, from: nat): (r: Option<nat>)
    requires from <= |candidates|
    ensures r.Some? ==> from <= r.value < |candidates| && candidates[r.value] in columns
    ensures r.Some? ==> forall j :: from <= j < r.value ==> candidates[j] !in columns
    ensures r.None? ==> forall j :: from <= j < |candidates| ==> candidates[j] !in columns
    decreases |candidates| - from
  {
    if from == |candidates| then None
    else if candidates[from] in columns then Some(from)
    else FirstPresentFrom(candidates, columns, from + 1)
  }

  /** The column chosen from `candidates`: the first of them that the table has. */
  function ColumnOf(candidates: seq<string>, columns: seq<string>): Option<string> {
    match FirstPresentFrom(candidates, columns, 0)
    case None => None
    case Some(k) => Some(candidates[k])
  }

  /** A loop of `start_crawling` that looks for a column, with its `break`. */
  method FindColumn(candidates: seq<string>, columns: seq<string>) returns (col: Option<string>)
    ensures col.None? <==> forall j :: 0 <= j < |candidates| ==> candidates[j] !in columns
    ensures col.Some? ==> exists k :: 0 <= k < |candidates| && candidates[k] == col.value &&
                                      col.value in columns && forall j :: 0 <= j < k ==> candidates[j] !in columns
    ensures col == ColumnOf(candidates, columns)
  {
    var i := 0;
    while i < |candidates|
      invariant i <= |candidates|
      invariant FirstPresentFrom(candidates, columns, i) == FirstPresentFrom(candidates, columns, 0)
    {
      if candidates[i] in columns {
        return Some(candidates[i]);
      }
      i := i + 1;
    }
    return None;
  }

  /** `df.dropna(subset=[title_col, url_col])` followed by reading the two cells of each row. */
  function Tasks(rows: seq<map<string, string>>, titleCol: string, urlCol: string): (r: seq<(string, string)>)
    ensures |r| <= |rows|
  {
    if rows == [] then []
    else
      var n := |rows| - 1;
      var row := rows[n];
      Tasks(rows[..n], titleCol, urlCol) +
      (if titleCol in row && urlCol in row then [(row[titleCol], row[urlCol])] else [])
  }

  /** The tasks of two runs of rows are those of the first run followed by those of the second. */
  lemma {:induction false} TasksAppend(a: seq<map<string, string>>, b: seq<map<string, string>>,
                                       titleCol: string, urlCol: string)
    ensures Tasks(a + b, titleCol, urlCol) == Tasks(a, titleCol, urlCol) + Tasks(b, titleCol, urlCol)
    decreases |b|
  {
    if b == [] {
      assert a + b == a;
    } else {
      var n := |b| - 1;
      assert (a + b)[..|a + b| - 1] == a + b[..n];
      assert (a + b)[|a + b| - 1] == b[n];
      TasksAppend(a, b[..n], titleCol, urlCol);
    }
  }

  /** A row gives the task (title, url) when it has both cells, and no task otherwise. */
  lemma TasksOne(row: map<string, string>, titleCol: string, urlCol: string)
    ensures Tasks([row], titleCol, urlCol) ==
              if titleCol in row && urlCol in row then [(row[titleCol], row[urlCol])] else []
  {
    assert [row][..0] == [];
  }

  // ---------------------------------------------------------------------------
  // The ledger and the text files, as values
  // ---------------------------------------------------------------------------

  /** The crawler's persistent state: the completed URLs and the files under `texts/`. */
  datatype Ledger = Ledger(completed: set<string>, texts: map<string, string>)

  /** `load_progress`: the URLs of the progress file, or nothing when it is missing or unreadable
      (`progress` is None then). */
  function LoadedProgress(progress: Option<seq<string>>): (r: set<string>)
    ensures forall u :: u in r <==> progress.Some? && u in progress.value
  {
    if progress.None? then {} else set u | u in progress.value
  }

  /** A row the loop skips before any request. */
  predicate Skipped(completed: set<string>, url: string) {
    !StartsWith(url, "http") || url in completed
  }

  /** The text file `download_text` writes into `texts`, if any. */
  function StoreText(texts: map<string, string>, web: Web, url: string, title: string,
                     images: seq<ImageHarvest.SavedImage>, videos: seq<VideoHarvest.SavedVideo>): map<string, string>
  {
    var name := SafeTitle(title) + ".txt";
    match CheckedFetch(web, url)
    case None => texts
    case Some(resp) =>
      if web.canWrite(name)
      then texts[name := TextWriter.RenderText(title, url, Extractor.ArticleText(resp.document), images, videos)]
      else texts
  }

  /** One turn of the loop for the row (`title`, `url`); `extra` stands for
      `find_additional_video_sources`. */
  function Visit(web: Web, extra: Dom.Node -> seq<string>, st: Ledger, title: string, url: string): (r: Ledger)
    ensures r.completed == if !Skipped(st.completed, url) && web.fetch(url).Some? then st.completed + {url}
                           else st.completed
    ensures st.texts.Keys <= r.texts.Keys
    ensures forall n :: n in st.texts && n != SafeTitle(title) + ".txt" ==> r.texts[n] == st.texts[n]
    ensures forall n :: n in r.texts && n !in st.texts ==> n == SafeTitle(title) + ".txt"
  {
    if Skipped(st.completed, url) then st
    else match web.fetch(url)
      case None => st
      case Some(resp) =>
        var container := Extractor.ArticleContainer(resp.document);
        var images := ImageHarvest.SavedImages(web, url, title, container);
        var videos := VideoHarvest.SavedVideos(web, url, title, container, extra);
        Ledger(st.completed + {url}, StoreText(st.texts, web, url, title, images, videos))
  }

  /** The state after the rows `tasks`, in order. */
  function Visits(web: Web, extra: Dom.Node -> seq<string>, st: Ledger, tasks: seq<(string, string)>): (r: Ledger)
    ensures st.completed <= r.completed && st.texts.Keys <= r.texts.Keys
    ensures forall u :: u in r.completed && u !in st.completed ==> StartsWith(u, "http")
  {
    if tasks == [] then st
    else
      var n := |tasks| - 1;
      Visit(web, extra, Visits(web, extra, st, tasks[..n]), tasks[n].0, tasks[n].1)
  }

  /** The state after `start_crawling` on what `read_excel` returned (None when it failed). */
  function Crawl(web: Web, extra: Dom.Node -> seq<string>, st: Ledger, table: Option<Table>): (r: Ledger)
    ensures table.None? ==> r == st
    ensures st.completed <= r.completed && st.texts.Keys <= r.texts.Keys
    ensures forall u :: u in r.completed && u !in st.completed ==> StartsWith(u, "http")
  {
    if table.None? then st
    else match (ColumnOf(TitleColumns, table.value.columns), ColumnOf(UrlColumns, table.value.columns))
      case (Some(tc), Some(uc)) => Visits(web, extra, st, Tasks(table.value.rows, tc, uc))
      case _ => st
  }

  lemma VisitsStep(web: Web, extra: Dom.Node -> seq<string>, st: Ledger, tasks: seq<(string, string)>, i: nat)
    requires i < |tasks|
    ensures Visits(web, extra, st, tasks[..i + 1]) ==
      Visit(web, extra, Visits(web, extra, st, tasks[..i]), tasks[i].0, tasks[i].1)
  {
    var step := tasks[..i + 1];
    assert step[..|step| - 1] == tasks[..i] && step[|step| - 1] == tasks[i];
  }

  // ---------------------------------------------------------------------------
  // The crawler object
  // ---------------------------------------------------------------------------

  class WebCrawler {
    /** `self.completed_urls`. */
    var completedUrls: set<string>
    /** The files written under `texts/`, by name. */
    var texts: map<string, string>

    function State(): Ledger
      reads this
    {
      Ledger(completedUrls, texts)
    }

    /** `WebCrawler(excel_path)`: the ledger comes from the progress file. */
    constructor (progress: Option<seq<string>>, existingTexts: map<string, string>)
      ensures completedUrls == LoadedProgress(progress) && texts == existingTexts
    {
      completedUrls := LoadedProgress(progress);
      texts := existingTexts;
    }

    /** `save_progress(url)`: the URL is added; nothing is ever removed. */
    method SaveProgress(url: string)
      modifies this
      ensures completedUrls == old(completedUrls) + {url}
      ensures texts == old(texts)
    {
      completedUrls := completedUrls + {url};
    }

    /** `start_crawling()`: `table` is what `read_excel` returned. */
    method StartCrawling(web: Web, extra: Dom.Node -> seq<string>, table: Option<Table>)
      modifies this
      ensures State() == Crawl(web, extra, old(State()), table)
      ensures old(completedUrls) <= completedUrls
    {
      CrawlKeepsCompleted(web, extra, State(), table);
      if table.None? {
        return;
      }
      var titleCol := FindColumn(TitleColumns, table.value.columns);
      var urlCol := FindColumn(UrlColumns, table.value.columns);
      if titleCol.None? || urlCol.None? {
        return;
      }
      var tasks := Tasks(table.value.rows, titleCol.value, urlCol.value);
      for i := 0 to |tasks|
        invariant State() == Visits(web, extra, old(State()), tasks[..i])
      {
        VisitsStep(web, extra, old(State()), tasks, i);
        VisitRow(web, extra, tasks[i].0, tasks[i].1);
      }
      assert tasks[..|tasks|] == tasks;
    }

    /** The body of the loop for one row: the skips, the request, the harvest, the text file
        and the commit. */
    method VisitRow(web: Web, extra: Dom.Node -> seq<string>, title: string, url: string)
      modifies this
      ensures State() == Visit(web, extra, old(State()), title, url)
    {
      if !StartsWith(url, "http") || url in completedUrls {
        return;
      }
      var response := web.fetch(url);
      if response.None? {
        return;
      }
      var images, videos := Harvest(web, extra, title, url, response.value.document);
      ghost var stored := StoreText(texts, web, url, title, images, videos);
      var _, _, written := TextWriter.DownloadText(web, url, title, images, videos);
      if written.Some? {
        texts := texts[written.value.name := written.value.body];
      }
      assert texts == stored;
      SaveProgress(url);
    }

    /** The harvest of a fetched page: its container, then its images and its videos. */
    static method Harvest(web: Web, extra: Dom.Node -> seq<string>, title: string, url: string, doc: Dom.Node)
      returns (images: seq<ImageHarvest.SavedImage>, videos: seq<VideoHarvest.SavedVideo>)
      ensures images == ImageHarvest.SavedImages(web, url, title, Extractor.ArticleContainer(doc))
      ensures videos == VideoHarvest.SavedVideos(web, url, title, Extractor.ArticleContainer(doc), extra)
    {
      var _, container := Extractor.ExtractArticleContent(doc);
      var _, saved := ImageHarvest.DownloadImages(web, url, title, container);
      var _, found := VideoHarvest.DownloadVideos(web, url, title, container, extra);
      images, videos := saved, found;
    }
  }

  // ---------------------------------------------------------------------------
  // Properties
  // ---------------------------------------------------------------------------

  /** The URLs a run commits: those of rows that start with `http` and whose page could be fetched. */
  function Committable(web: Web, tasks: seq<(string, string)>): set<string> {
    set k | 0 <= k < |tasks| && StartsWith(tasks[k].1, "http") && web.fetch(tasks[k].1).Some? :: tasks[k].1
  }

  /** A row with a URL that is not `http…` or already completed changes nothing and is not
      fetched: the result is the same whatever the network does. */
  lemma SkippedRowUnchanged(web: Web, extra: Dom.Node -> seq<string>, st: Ledger, title: string, url: string)
    requires Skipped(st.completed, url)
    ensures Visit(web, extra, st, title, url) == st
    ensures forall other: Web :: Visit(other, extra, st, title, url) == st
  {
  }

  /** A request that raises leaves the URL uncommitted and writes nothing. */
  lemma FetchErrorUncommitted(web: Web, extra: Dom.Node -> seq<string>, st: Ledger, title: string, url: string)
    requires web.fetch(url).None?
    ensures Visit(web, extra, st, title, url) == st
  {
  }

  /** A fetched page is committed even when `download_text` fails (the text fetch raises, its
      status is an error, or the text file cannot be written): then the URL is added and no
      text file is written. */
  lemma FailedTextStillCommitted(web: Web, extra: Dom.Node -> seq<string>, st: Ledger, title: string, url: string)
    requires !Skipped(st.completed, url) && web.fetch(url).Some?
    requires CheckedFetch(web, url).None? || !web.canWrite(SafeTitle(title) + ".txt")
    ensures Visit(web, extra, st, title, url) == Ledger(st.completed + {url}, st.texts)
  {
  }

  /** A page that passes the status check and whose text file can be written is committed
      and has its text file, named after the sanitised title and holding the header, the
      article text and the manifests of the media harvested from the page. */
  lemma CommittedPageWritten(web: Web, extra: Dom.Node -> seq<string>, st: Ledger, title: string, url: string)
    requires !Skipped(st.completed, url) && CheckedFetch(web, url).Some?
    requires web.canWrite(SafeTitle(title) + ".txt")
    ensures var after := Visit(web, extra, st, title, url);
      url in after.completed && SafeTitle(title) + ".txt" in after.texts &&
      forall name :: name in after.texts && name != SafeTitle(title) + ".txt" ==>
        name in st.texts && after.texts[name] == st.texts[name]
    ensures var after := Visit(web, extra, st, title, url);
      var page := CheckedFetch(web, url).value.document;
      var container := Extractor.ArticleContainer(page);
      after.texts[SafeTitle(title) + ".txt"] ==
        TextWriter.RenderText(title, url, Extractor.ArticleText(page),
                              ImageHarvest.SavedImages(web, url, title, container),
                              VideoHarvest.SavedVideos(web, url, title, container, extra))
  {
  }

  /** A URL that appears twice is processed once: the second row changes nothing. */
  lemma RepeatedUrlVisitedOnce(web: Web, extra: Dom.Node -> seq<string>, st: Ledger, title: string, title2: string, url: string)
    ensures var once := Visit(web, extra, st, title, url);
      Visit(web, extra, once, title2, url) == once
  {
  }

  /** The completed set after the rows is the old one plus exactly the committable URLs. */
  lemma {:induction false} VisitsCompleted(web: Web, extra: Dom.Node -> seq<string>, st: Ledger, tasks: seq<(string, string)>)
    ensures Visits(web, extra, st, tasks).completed == st.completed + Committable(web, tasks)
  {
    if tasks != [] {
      var n := |tasks| - 1;
      VisitsCompleted(web, extra, st, tasks[..n]);
      CommittableStep(web, tasks);
    }
  }

  lemma CommittableStep(web: Web, tasks: seq<(string, string)>)
    requires tasks != []
    ensures var n := |tasks| - 1; var u := tasks[n].1;
      Committable(web, tasks) ==
        Committable(web, tasks[..n]) + (if StartsWith(u, "http") && web.fetch(u).Some? then {u} else {})
  {
    var n := |tasks| - 1;
    var u := tasks[n].1;
    var prefix := tasks[..n];
    var extraSet := if StartsWith(u, "http") && web.fetch(u).Some? then {u} else {};
    forall v | v in Committable(web, tasks)
      ensures v in Committable(web, prefix) + extraSet
    {
      var k :| 0 <= k < |tasks| && StartsWith(tasks[k].1, "http") && web.fetch(tasks[k].1).Some? && tasks[k].1 == v;
      if k < n {
        assert prefix[k] == tasks[k];
      }
    }
    forall v | v in Committable(web, prefix)
      ensures v in Committable(web, tasks)
    {
      var k :| 0 <= k < |prefix| && StartsWith(prefix[k].1, "http") && web.fetch(prefix[k].1).Some? && prefix[k].1 == v;
      assert tasks[k] == prefix[k];
    }
    if extraSet != {} {
      assert tasks[n].1 == u;
    }
  }

  /** The completed set never shrinks over a run. */
  lemma CrawlKeepsCompleted(web: Web, extra: Dom.Node -> seq<string>, st: Ledger, table: Option<Table>)
    ensures st.completed <= Crawl(web, extra, st, table).completed
  {
    if table.Some? {
      var tc := ColumnOf(TitleColumns, table.value.columns);
      var uc := ColumnOf(UrlColumns, table.value.columns);
      if tc.Some? && uc.Some? {
        VisitsCompleted(web, extra, st, Tasks(table.value.rows, tc.value, uc.value));
      }
    }
  }

  /** Without a title column or without a URL column nothing is fetched and nothing changes. */
  lemma MissingColumnNoWork(web: Web, extra: Dom.Node -> seq<string>, st: Ledger, t: Table)
    requires (forall j :: 0 <= j < |TitleColumns| ==> TitleColumns[j] !in t.columns) ||
             (forall j :: 0 <= j < |UrlColumns| ==> UrlColumns[j] !in t.columns)
    ensures Crawl(web, extra, st, Some(t)) == st
  {
  }
}
