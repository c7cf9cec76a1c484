/** `build_static_pages` and `main` of main.py. The build derives the sorted list of distinct
    leagues, writes `index.html`, then one page per league, then `sitemap.xml`, all under the
    output directory `docs`. File output is modelled as the ordered list of files written, each
    with the text it received; an exception part-way leaves the writes made so far, the file
    being written holding the text written before the exception. */
module Site {
  import opened Wrappers
  import opened Text
  import opened Slug
  import opened Order
  import opened Templates
  import opened Render
  import opened Sitemap
  import opened Feed

  const OutputDir: string := "docs"
  const IndexFile: string := "index.html"
  const SitemapFile: string := "sitemap.xml"

  /** `os.path.join(OUTPUT_DIR, name)`. */
  function OutputPath(name: string): string {
    OutputDir + "/" + name
  }

  // ---------------------------------------------------------------- leagues

  /** A `competition` value Python treats as true: present and not the empty string. */
  predicate IsLeague(competition: Option<string>) {
    competition.Some? && competition.value != ""
  }

  /** Some highlight names `league` as its competition. */
  ghost predicate NamedBy(hs: seq<Highlight>, league: string) {
    league != "" && exists i :: 0 <= i < |hs| && hs[i].competition == Some(league)
  }

  /** `[item.get('competition') for item in highlights if item.get('competition')]`. */
  function Competitions(hs: seq<Highlight>): (cs: seq<string>)
    ensures forall l :: l in cs <==> NamedBy(hs, l)
  {
    if hs == [] then []
    else
      var rest := Competitions(hs[1..]);
      assert forall l :: NamedBy(hs[1..], l) ==> NamedBy(hs, l) by {
        forall l | NamedBy(hs[1..], l) ensures NamedBy(hs, l) {
          var i :| 0 <= i < |hs[1..]| && hs[1..][i].competition == Some(l);
          assert hs[i + 1].competition == Some(l);
        }
      }
      assert forall l :: NamedBy(hs, l) ==> (IsLeague(hs[0].competition) && l == hs[0].competition.value) || NamedBy(hs[1..], l) by {
        forall l | NamedBy(hs, l) ensures (IsLeague(hs[0].competition) && l == hs[0].competition.value) || NamedBy(hs[1..], l) {
          var i :| 0 <= i < |hs| && hs[i].competition == Some(l);
          if i > 0 {
            assert hs[1..][i - 1].competition == Some(l);
          }
        }
      }
      (if IsLeague(hs[0].competition) then [hs[0].competition.value] else []) + rest
  }

  /** `leagues` of `build_static_pages`: `list(set(...))` then `sort()`. Strictly increasing in
      Python's string order, hence free of repeats, and holding exactly the truthy competition
      names of the highlights. */
  function Leagues(hs: seq<Highlight>): (leagues: seq<string>)
    ensures StrictlySorted(leagues)
    ensures forall l :: l in leagues <==> NamedBy(hs, l)
  {
    SortedDistinct(Competitions(hs))
  }

  /** `[item for item in highlights if item.get('competition') == league]`: every highlight
      whose competition is `league` appears as often as in the feed, and no other does. */
  function LeagueHighlights(hs: seq<Highlight>, league: string): (page: seq<Highlight>)
    ensures forall h :: multiset(page)[h] == if h.competition == Some(league) then multiset(hs)[h] else 0
  {
    if hs == [] then []
    else
      assert hs == [hs[0]] + hs[1..];
      (if hs[0].competition == Some(league) then [hs[0]] else []) + LeagueHighlights(hs[1..], league)
  }

  /** The filter keeps the feed's order: filtering a concatenation concatenates the filtered
      parts. */
  lemma {:induction false} LeagueHighlightsConcat(a: seq<Highlight>, b: seq<Highlight>, league: string)
    ensures LeagueHighlights(a + b, league) == LeagueHighlights(a, league) + LeagueHighlights(b, league)
  {
    if a == [] {
      assert a + b == b;
    } else {
      assert (a + b)[0] == a[0] && (a + b)[1..] == a[1..] + b;
      LeagueHighlightsConcat(a[1..], b, league);
    }
  }

  /** Every highlight with a truthy competition lands on exactly one league page, as often as
      it occurs in the feed; one without lands on none. */
  lemma HighlightOnOneLeaguePage(hs: seq<Highlight>, h: Highlight)
    requires h in hs
    ensures var leagues := Leagues(hs);
      IsLeague(h.competition) ==>
        exists i :: 0 <= i < |leagues| && leagues[i] == h.competition.value
          && multiset(LeagueHighlights(hs, leagues[i]))[h] == multiset(hs)[h]
          && forall j :: 0 <= j < |leagues| && j != i ==> h !in LeagueHighlights(hs, leagues[j])
    ensures var leagues := Leagues(hs);
      !IsLeague(h.competition) ==>
        forall j :: 0 <= j < |leagues| ==> h !in LeagueHighlights(hs, leagues[j])
  {
    var leagues := Leagues(hs);
    var k :| 0 <= k < |hs| && hs[k] == h;
    if IsLeague(h.competition) {
      assert NamedBy(hs, h.competition.value);
      var i :| 0 <= i < |leagues| && leagues[i] == h.competition.value;
      forall j | 0 <= j < |leagues| && j != i
        ensures h !in LeagueHighlights(hs, leagues[j])
      {
        StrictlySortedDistinct(leagues, i, j);
        assert multiset(LeagueHighlights(hs, leagues[j]))[h] == 0;
      }
    } else {
      forall j | 0 <= j < |leagues|
        ensures h !in LeagueHighlights(hs, leagues[j])
      {
        assert leagues[j] in leagues;
        assert multiset(LeagueHighlights(hs, leagues[j]))[h] == 0;
      }
    }
  }

  // ---------------------------------------------------------------- pages

  /** The text a page file received, and the exception that cut it short, if any. */
  datatype Page = Page(text: string, failure: Option<RenderError>)

  /** The `index.html` writes: head, navigation bar, live scores, then every highlight. */
  function IndexPage(hs: seq<Highlight>, live: seq<LiveMatch>, leagues: seq<string>): (page: Page)
    ensures page.failure.None? <==> AllComplete(live) && AllHaveVideo(hs)
    ensures page.failure == Some(KeyError) <==> !AllComplete(live)
    ensures page.failure == Some(IndexError) <==> AllComplete(live) && !AllHaveVideo(hs)
  {
    var opening := HtmlHead(IndexTitle) + Navbar(leagues) + ContainerOpen + LiveHeading;
    match LiveScoresSection(live)
    case Err(e) => Page(opening, Some(e))
    case Ok(scores) =>
      var middle := opening + scores + HighlightsHeading;
      match HighlightsGrid(hs)
      case Err(e) => Page(middle, Some(e))
      case Ok(grid) => Page(middle + grid + PageClose, None)
  }

  /** The writes of one league page: head, navigation bar, heading, the league's highlights. */
  function LeaguePage(hs: seq<Highlight>, league: string, leagues: seq<string>): (page: Page)
    ensures page.failure.None? <==> AllHaveVideo(LeagueHighlights(hs, league))
    ensures page.failure.Some? ==> page.failure == Some(IndexError)
  {
    var opening := HtmlHead(LeagueTitlePrefix + league) + Navbar(leagues) + ContainerOpen
      + LeagueHeadingStart + league + LeagueHeadingEnd;
    match HighlightsGrid(LeagueHighlights(hs, league))
    case Err(e) => Page(opening, Some(e))
    case Ok(grid) => Page(opening + grid + PageClose, None)
  }

  /** Every card of a league page names that league as its competition. */
  lemma LeaguePageShowsItsLeague(hs: seq<Highlight>, league: string, h: Highlight)
    requires h in LeagueHighlights(hs, league)
    ensures CardOf(h).Ok? ==> CardOf(h).value.competition == league
  {
    assert multiset(LeagueHighlights(hs, league))[h] > 0;
  }

  // ---------------------------------------------------------------- the build

  datatype FileWrite = FileWrite(path: string, content: string)

  /** The files written, in order, and the exception that ended the run early, if any. */
  datatype BuildRun = BuildRun(writes: seq<FileWrite>, failure: Option<RenderError>)

  /** The loop over `leagues` up to the leagues in `done`: one page write per league; an
      exception ends the loop after the partly written page. */
  function LeaguePagesRun(hs: seq<Highlight>, done: seq<string>, leagues: seq<string>): (run: BuildRun)
    ensures |run.writes| <= |done|
    ensures run.failure.None? ==> |run.writes| == |done|
    ensures run.failure.Some? ==> run.writes != [] && run.failure == Some(IndexError)
  {
    if done == [] then BuildRun([], None)
    else
      var before := LeaguePagesRun(hs, done[..|done| - 1], leagues);
      if before.failure.Some? then before
      else
        var league := done[|done| - 1];
        var page := LeaguePage(hs, league, leagues);
        BuildRun(before.writes + [FileWrite(OutputPath(LeagueFileName(league)), page.text)], page.failure)
  }

  /** The URL of a page file under the site's base URL. */
  function PageUrl(baseUrl: string, fileName: string): string {
    baseUrl + "/" + fileName
  }

  /** `[f(x) for x in xs]`. */
  function MapSeq<A, B>(f: A -> B, xs: seq<A>): (ys: seq<B>)
    ensures |ys| == |xs|
    ensures forall i :: 0 <= i < |xs| ==> ys[i] == f(xs[i])
  {
    if xs == [] then [] else MapSeq(f, xs[..|xs| - 1]) + [f(xs[|xs| - 1])]
  }

  lemma MapSeqStep<A, B>(f: A -> B, xs: seq<A>, i: nat)
    requires i < |xs|
    ensures MapSeq(f, xs[..i + 1]) == MapSeq(f, xs[..i]) + [f(xs[i])]
  {
    assert xs[..i + 1][..i] == xs[..i];
  }

  /** The URL of a league's page. */
  function LeagueUrl(baseUrl: string, league: string): string {
    PageUrl(baseUrl, LeagueFileName(league))
  }

  /** One page URL per league, in the leagues' order. */
  function LeagueUrls(baseUrl: string, leagues: seq<string>): seq<string> {
    MapSeq(league => LeagueUrl(baseUrl, league), leagues)
  }

  /** `sitemap_urls`: the index URL first, then one URL per league in sorted order, so there are
      as many URLs as pages written. */
  function SitemapUrls(baseUrl: string, leagues: seq<string>): (urls: seq<string>)
    ensures |urls| == 1 + |leagues|
    ensures urls[0] == PageUrl(baseUrl, IndexFile)
  {
    [PageUrl(baseUrl, IndexFile)] + LeagueUrls(baseUrl, leagues)
  }

  /** `build_static_pages` as the list of files it writes. `baseUrl` is the module constant
      `BASE_URL`; `today` is the date the source reads from the clock. */
  function BuildPlan(hs: seq<Highlight>, live: seq<LiveMatch>, baseUrl: string, today: string): (run: BuildRun)
    ensures run.writes != [] && run.writes[0].path == OutputPath(IndexFile)
    ensures |run.writes| <= |Leagues(hs)| + 2
    ensures run.failure.None? ==>
      |run.writes| == |Leagues(hs)| + 2 && run.writes[|run.writes| - 1].path == OutputPath(SitemapFile)
  {
    var leagues := Leagues(hs);
    var index := IndexPage(hs, live, leagues);
    var indexWrite := FileWrite(OutputPath(IndexFile), index.text);
    if index.failure.Some? then BuildRun([indexWrite], index.failure)
    else
      var pages := LeaguePagesRun(hs, leagues, leagues);
      if pages.failure.Some? then BuildRun([indexWrite] + pages.writes, pages.failure)
      else
        var sitemap := FileWrite(OutputPath(SitemapFile), SitemapXml(SitemapUrls(baseUrl, leagues), today));
        BuildRun([indexWrite] + pages.writes + [sitemap], None)
  }

  /** `build_static_pages` as the source runs it: the index page, then the loop over the
      leagues, then the sitemap. */
  method BuildStaticPages(hs: seq<Highlight>, live: seq<LiveMatch>, baseUrl: string, today: string)
    returns (run: BuildRun)
    ensures run == BuildPlan(hs, live, baseUrl, today)
  {
    var leagues := Leagues(hs);
    var indexPath := OutputPath(IndexFile);
    var index := HtmlHead(IndexTitle) + Navbar(leagues) + ContainerOpen + LiveHeading;
    var scores := GenerateLiveScoresSection(live);
    if scores.Err? {
      return BuildRun([FileWrite(indexPath, index)], Some(scores.error));
    }
    index := index + scores.value + HighlightsHeading;
    var grid := GenerateHighlightsGrid(hs);
    if grid.Err? {
      return BuildRun([FileWrite(indexPath, index)], Some(grid.error));
    }
    index := index + grid.value + PageClose;
    var pages, leagueUrls := WriteLeaguePages(hs, leagues, baseUrl);
    if pages.failure.Some? {
      return BuildRun([FileWrite(indexPath, index)] + pages.writes, pages.failure);
    }
    var sitemapUrls := [PageUrl(baseUrl, IndexFile)] + leagueUrls;
    var xml := WriteSitemap(sitemapUrls, today);
    run := BuildRun([FileWrite(indexPath, index)] + pages.writes + [FileWrite(OutputPath(SitemapFile), xml)], None);
  }

  /** The body of the loop over the leagues for one league: the page text written before the
      file is closed, and the exception that cut it short, if any. */
  method RenderLeaguePage(hs: seq<Highlight>, league: string, leagues: seq<string>) returns (page: Page)
    ensures page == LeaguePage(hs, league, leagues)
  {
    var text := HtmlHead(LeagueTitlePrefix + league) + Navbar(leagues) + ContainerOpen
      + LeagueHeadingStart + league + LeagueHeadingEnd;
    var grid := GenerateHighlightsGrid(LeagueHighlights(hs, league));
    if grid.Err? {
      return Page(text, Some(grid.error));
    }
    page := Page(text + grid.value + PageClose, None);
  }

  /** The loop of `build_static_pages` over the leagues: writes each league's page and collects
      its URL, stopping at the first page whose rendering raises. */
  method WriteLeaguePages(hs: seq<Highlight>, leagues: seq<string>, baseUrl: string)
    returns (pages: BuildRun, urls: seq<string>)
    ensures pages == LeaguePagesRun(hs, leagues, leagues)
    ensures pages.failure.None? ==> urls == LeagueUrls(baseUrl, leagues)
  {
    var writes := [];
    var failure: Option<RenderError> := None;
    urls := [];
    var i := 0;
    while i < |leagues| && failure.None?
      invariant 0 <= i <= |leagues|
      invariant LeaguePagesRun(hs, leagues[..i], leagues) == BuildRun(writes, failure)
      invariant failure.None? ==> urls == LeagueUrls(baseUrl, leagues[..i])
    {
      var fileName := LeagueFileName(leagues[i]);
      var page := RenderLeaguePage(hs, leagues[i], leagues);
      LeaguePagesRunStep(hs, leagues, i);
      MapSeqStep(league => LeagueUrl(baseUrl, league), leagues, i);
      writes := writes + [FileWrite(OutputPath(fileName), page.text)];
      failure := page.failure;
      if failure.None? {
        urls := urls + [PageUrl(baseUrl, fileName)];
      }
      i := i + 1;
    }
    if failure.Some? {
      assert leagues[..|leagues|] == leagues;
      LeaguePagesRunStops(hs, leagues, i, leagues);
    } else {
      assert leagues[..i] == leagues;
    }
    pages := BuildRun(writes, failure);
  }

  lemma LeaguePagesRunStep(hs: seq<Highlight>, leagues: seq<string>, i: nat)
    requires i < |leagues|
    ensures var before := LeaguePagesRun(hs, leagues[..i], leagues);
      var page := LeaguePage(hs, leagues[i], leagues);
      LeaguePagesRun(hs, leagues[..i + 1], leagues)
        == if before.failure.Some? then before
           else BuildRun(before.writes + [FileWrite(OutputPath(LeagueFileName(leagues[i])), page.text)], page.failure)
  {
    assert leagues[..i + 1][..i] == leagues[..i];
  }

  /** The sitemap text `build_static_pages` writes: the header, one entry per URL appended in a
      loop, the closing tag. */
  method WriteSitemap(urls: seq<string>, today: string) returns (xml: string)
    ensures xml == SitemapXml(urls, today)
  {
    xml := XmlDeclaration + UrlsetOpen;
    var k := 0;
    while k < |urls|
      invariant 0 <= k <= |urls|
      invariant xml == XmlDeclaration + UrlsetOpen + EntriesXml(urls[..k], today)
    {
      EntriesXmlSnoc(urls[..k], urls[k], today);
      assert urls[..k + 1] == urls[..k] + [urls[k]];
      ConcatAssociative(XmlDeclaration + UrlsetOpen, EntriesXml(urls[..k], today), EntryXml(urls[k], today));
      xml := xml + EntryXml(urls[k], today);
      k := k + 1;
    }
    assert urls[..k] == urls;
    xml := xml + UrlsetClose;
  }

  /** Once a league page fails, the loop has stopped: the run over any longer prefix is the
      same. */
  lemma {:induction false} LeaguePagesRunStops(hs: seq<Highlight>, todo: seq<string>, n: nat, leagues: seq<string>)
    requires n <= |todo|
    requires LeaguePagesRun(hs, todo[..n], leagues).failure.Some?
    ensures LeaguePagesRun(hs, todo, leagues) == LeaguePagesRun(hs, todo[..n], leagues)
    decreases |todo|
  {
    if n < |todo| {
      var init := todo[..|todo| - 1];
      assert init[..n] == todo[..n];
      LeaguePagesRunStops(hs, init, n, leagues);
      LeaguePagesRunKeepsFailure(hs, todo, leagues);
    } else {
      assert todo[..n] == todo;
    }
  }

  /** A run whose shorter prefix failed is that prefix's run. */
  lemma LeaguePagesRunKeepsFailure(hs: seq<Highlight>, done: seq<string>, leagues: seq<string>)
    requires done != [] && LeaguePagesRun(hs, done[..|done| - 1], leagues).failure.Some?
    ensures LeaguePagesRun(hs, done, leagues) == LeaguePagesRun(hs, done[..|done| - 1], leagues)
  {
  }

  // ---------------------------------------------------------------- what the build promises

  /** No highlight has a `videos` list that is present but empty, the one highlight a card
      cannot be rendered for. */
  predicate AllHaveVideo(hs: seq<Highlight>) {
    forall i :: 0 <= i < |hs| ==> hs[i].videos != Some([])
  }

  /** Every live match carries every key a score card reads. */
  predicate AllComplete(live: seq<LiveMatch>) {
    forall i :: 0 <= i < |live| ==> HasAllKeys(live[i])
  }

  /** A league page holds only highlights of the feed, so it renders whenever the index does. */
  lemma LeagueGridRenders(hs: seq<Highlight>, league: string)
    requires AllHaveVideo(hs)
    ensures HighlightsGrid(LeagueHighlights(hs, league)).Ok?
  {
    var page := LeagueHighlights(hs, league);
    forall i | 0 <= i < |page| ensures page[i].videos != Some([]) {
      assert multiset(page)[page[i]] > 0;
      var k :| 0 <= k < |hs| && hs[k] == page[i];
    }
  }

  /** The loop over the leagues, when every page renders: one complete page per league, in
      order. */
  lemma {:induction false} LeaguePagesComplete(hs: seq<Highlight>, done: seq<string>, leagues: seq<string>)
    requires AllHaveVideo(hs)
    ensures LeaguePagesRun(hs, done, leagues).failure.None?
    ensures |LeaguePagesRun(hs, done, leagues).writes| == |done|
    ensures forall i :: 0 <= i < |done| ==>
      LeaguePagesRun(hs, done, leagues).writes[i] == FileWrite(OutputPath(LeagueFileName(done[i])), LeaguePage(hs, done[i], leagues).text)
  {
    if done != [] {
      var n := |done| - 1;
      var before := LeaguePagesRun(hs, done[..n], leagues);
      var writes := LeaguePagesRun(hs, done, leagues).writes;
      LeaguePagesComplete(hs, done[..n], leagues);
      LeagueGridRenders(hs, done[n]);
      assert writes == before.writes + [FileWrite(OutputPath(LeagueFileName(done[n])), LeaguePage(hs, done[n], leagues).text)];
      forall i | 0 <= i < |done|
        ensures writes[i] == FileWrite(OutputPath(LeagueFileName(done[i])), LeaguePage(hs, done[i], leagues).text)
      {
        if i < n {
          assert done[..n][i] == done[i];
          assert writes[i] == before.writes[i];
          assert before.writes[i] == FileWrite(OutputPath(LeagueFileName(done[..n][i])), LeaguePage(hs, done[..n][i], leagues).text);
        } else {
          assert i == n;
          assert writes[i] == FileWrite(OutputPath(LeagueFileName(done[n])), LeaguePage(hs, done[n], leagues).text);
        }
      }
    }
  }

  /** The build stops early exactly when a live match lacks a key or a highlight has an empty
      `videos` list; either way the index page's grid raises first, so the only file touched is
      a partly written `index.html` and no sitemap is written. */
  lemma BuildFailure(hs: seq<Highlight>, live: seq<LiveMatch>, baseUrl: string, today: string)
    ensures BuildPlan(hs, live, baseUrl, today).failure.None? <==> AllComplete(live) && AllHaveVideo(hs)
    ensures BuildPlan(hs, live, baseUrl, today).failure.Some? ==>
      BuildPlan(hs, live, baseUrl, today).writes == [FileWrite(OutputPath(IndexFile), IndexPage(hs, live, Leagues(hs)).text)]
  {
    var leagues := Leagues(hs);
    if AllHaveVideo(hs) {
      LeaguePagesComplete(hs, leagues, leagues);
    }
  }

  /** A complete build writes `index.html`, then every league page in sorted order, then
      `sitemap.xml`. */
  lemma CompletedBuildWrites(hs: seq<Highlight>, live: seq<LiveMatch>, baseUrl: string, today: string)
    requires AllComplete(live) && AllHaveVideo(hs)
    ensures var run := BuildPlan(hs, live, baseUrl, today);
      var leagues := Leagues(hs);
      && run.failure.None?
      && |run.writes| == |leagues| + 2
      && run.writes[0] == FileWrite(OutputPath(IndexFile), IndexPage(hs, live, leagues).text)
      && (forall i :: 0 <= i < |leagues| ==>
            run.writes[1 + i] == FileWrite(OutputPath(LeagueFileName(leagues[i])), LeaguePage(hs, leagues[i], leagues).text))
      && run.writes[|leagues| + 1]
            == FileWrite(OutputPath(SitemapFile), SitemapXml(SitemapUrls(baseUrl, leagues), today))
  {
    var leagues := Leagues(hs);
    var pages := LeaguePagesRun(hs, leagues, leagues);
    LeaguePagesComplete(hs, leagues, leagues);
    CompletedBuildPlan(hs, live, baseUrl, today);
    BetweenAt(FileWrite(OutputPath(IndexFile), IndexPage(hs, live, leagues).text), pages.writes,
      FileWrite(OutputPath(SitemapFile), SitemapXml(SitemapUrls(baseUrl, leagues), today)));
  }

  /** A build in which every page renders runs to its end: the index write, the league pages'
      writes, the sitemap write. */
  lemma CompletedBuildPlan(hs: seq<Highlight>, live: seq<LiveMatch>, baseUrl: string, today: string)
    requires AllComplete(live) && AllHaveVideo(hs)
    requires LeaguePagesRun(hs, Leagues(hs), Leagues(hs)).failure.None?
    ensures var leagues := Leagues(hs);
      && BuildPlan(hs, live, baseUrl, today).failure.None?
      && BuildPlan(hs, live, baseUrl, today).writes
        == [FileWrite(OutputPath(IndexFile), IndexPage(hs, live, leagues).text)] + LeaguePagesRun(hs, leagues, leagues).writes
          + [FileWrite(OutputPath(SitemapFile), SitemapXml(SitemapUrls(baseUrl, leagues), today))]
  {
    assert IndexPage(hs, live, Leagues(hs)).failure.None?;
  }

  /** The positions of a list with one element put before it and one after. */
  lemma BetweenAt<T>(first: T, middle: seq<T>, last: T)
    ensures var s := [first] + middle + [last];
      && |s| == |middle| + 2 && s[0] == first && s[|middle| + 1] == last
      && forall i :: 0 <= i < |middle| ==> s[1 + i] == middle[i]
  {
  }

  // ---------------------------------------------------------------- the files left on disk

  /** Some write of the run goes to `path`. */
  ghost predicate Written(writes: seq<FileWrite>, path: string) {
    exists j :: 0 <= j < |writes| && writes[j].path == path
  }

  /** The file contents once the run is over: a later write to the same path replaces the
      earlier one (`open(path, 'w')` truncates). A path holds a file exactly when it was
      written. */
  function FinalFiles(writes: seq<FileWrite>): (files: map<string, string>)
    ensures forall p :: p in files <==> Written(writes, p)
  {
    if writes == [] then map[]
    else
      var before := writes[..|writes| - 1];
      var last := writes[|writes| - 1];
      assert forall p :: Written(before, p) ==> Written(writes, p) by {
        forall p | Written(before, p) ensures Written(writes, p) {
          var j :| 0 <= j < |before| && before[j].path == p;
          assert writes[j].path == p;
        }
      }
      assert forall p :: Written(writes, p) ==> p == last.path || Written(before, p) by {
        forall p | Written(writes, p) ensures p == last.path || Written(before, p) {
          var j :| 0 <= j < |writes| && writes[j].path == p;
          if j < |before| {
            assert before[j].path == p;
          }
        }
      }
      FinalFiles(before)[last.path := last.content]
  }

  /** A write no later write to the same path follows is what the file holds at the end. */
  lemma {:induction false} LastWriteWins(writes: seq<FileWrite>, k: nat)
    requires k < |writes|
    requires forall j :: k < j < |writes| ==> writes[j].path != writes[k].path
    ensures writes[k].path in FinalFiles(writes)
    ensures FinalFiles(writes)[writes[k].path] == writes[k].content
  {
    var n := |writes| - 1;
    var before := writes[..n];
    assert FinalFiles(writes) == FinalFiles(before)[writes[n].path := writes[n].content];
    if k < n {
      assert forall j :: k < j < |before| ==> before[j].path == writes[j].path;
      assert before[k] == writes[k];
      LastWriteWins(before, k);
    }
  }

  /** Page files are `<slug>.html`; two of them share a path exactly when the slugs agree. */
  lemma HtmlPathsCollide(a: string, b: string)
    ensures OutputPath(a + ".html") == OutputPath(b + ".html") <==> a == b
  {
    if OutputPath(a + ".html") == OutputPath(b + ".html") {
      var n := |OutputDir + "/"|;
      assert |a| == |b|;
      forall i | 0 <= i < |a| ensures a[i] == b[i] {
        assert OutputPath(a + ".html")[n + i] == a[i];
        assert OutputPath(b + ".html")[n + i] == b[i];
      }
    }
  }

  /** No page file is the sitemap: the third character from the end differs. */
  lemma HtmlPathNotSitemap(a: string)
    ensures OutputPath(a + ".html") != OutputPath(SitemapFile)
  {
    var p := OutputPath(a + ".html");
    assert p[|p| - 3] == 't';
    assert OutputPath(SitemapFile)[|OutputPath(SitemapFile)| - 3] == 'x';
  }

  /** Two leagues' pages go to the same file exactly when their slugs agree. */
  lemma LeaguePathsCollide(a: string, b: string)
    ensures OutputPath(LeagueFileName(a)) == OutputPath(LeagueFileName(b)) <==> SanitizeFilename(a) == SanitizeFilename(b)
  {
    HtmlPathsCollide(SanitizeFilename(a), SanitizeFilename(b));
  }

  /** A league's page goes to `index.html` exactly when its slug is `index`. */
  lemma LeaguePathIsIndex(a: string)
    ensures OutputPath(LeagueFileName(a)) == OutputPath(IndexFile) <==> SanitizeFilename(a) == "index"
  {
    HtmlPathIsIndex(SanitizeFilename(a));
  }

  /** The only page file written to `index.html` is the one of the slug `index`. */
  lemma HtmlPathIsIndex(slug: string)
    ensures OutputPath(slug + ".html") == OutputPath(IndexFile) <==> slug == "index"
  {
    HtmlPathsCollide(slug, "index");
    assert "index" + ".html" == IndexFile;
  }

  /** A league's page never goes to `sitemap.xml`. */
  lemma LeaguePathNotSitemap(a: string)
    ensures OutputPath(LeagueFileName(a)) != OutputPath(SitemapFile)
  {
    HtmlPathNotSitemap(SanitizeFilename(a));
  }

  /** The paths of a run laid out as a complete build: `index.html`, one page per league,
      `sitemap.xml`. */
  ghost predicate BuildLayout(writes: seq<FileWrite>, leagues: seq<string>) {
    && |writes| == |leagues| + 2
    && writes[0].path == OutputPath(IndexFile)
    && (forall i :: 0 <= i < |leagues| ==> writes[1 + i].path == OutputPath(LeagueFileName(leagues[i])))
    && writes[|leagues| + 1].path == OutputPath(SitemapFile)
  }

  /** In such a run, a league's page is kept unless a later league has the same slug. */
  lemma LayoutKeepsLeaguePage(writes: seq<FileWrite>, leagues: seq<string>, i: nat)
    requires BuildLayout(writes, leagues)
    requires i < |leagues|
    requires forall j :: i < j < |leagues| ==> SanitizeFilename(leagues[j]) != SanitizeFilename(leagues[i])
    ensures writes[1 + i].path in FinalFiles(writes)
    ensures FinalFiles(writes)[writes[1 + i].path] == writes[1 + i].content
  {
    LaterLeaguePathsDiffer(leagues, i);
    LeaguePathNotSitemap(leagues[i]);
    forall j | 1 + i < j < |writes| ensures writes[j].path != writes[1 + i].path {
      if j < |leagues| + 1 {
        assert writes[j].path == OutputPath(LeagueFileName(leagues[j - 1]));
      }
    }
    LastWriteWins(writes, 1 + i);
  }

  lemma LaterLeaguePathsDiffer(leagues: seq<string>, i: nat)
    requires i < |leagues|
    requires forall j :: i < j < |leagues| ==> SanitizeFilename(leagues[j]) != SanitizeFilename(leagues[i])
    ensures forall j :: i < j < |leagues| ==> OutputPath(LeagueFileName(leagues[j])) != OutputPath(LeagueFileName(leagues[i]))
  {
    forall j | i < j < |leagues|
      ensures OutputPath(LeagueFileName(leagues[j])) != OutputPath(LeagueFileName(leagues[i]))
    {
      LeaguePathsCollide(leagues[j], leagues[i]);
    }
  }

  /** In such a run, the index page is kept unless a league slugs to `index`. */
  lemma LayoutKeepsIndexPage(writes: seq<FileWrite>, leagues: seq<string>)
    requires BuildLayout(writes, leagues)
    requires forall j :: 0 <= j < |leagues| ==> SanitizeFilename(leagues[j]) != "index"
    ensures writes[0].path in FinalFiles(writes)
    ensures FinalFiles(writes)[writes[0].path] == writes[0].content
  {
    forall j | 0 < j < |writes| ensures writes[j].path != writes[0].path {
      if j < |leagues| + 1 {
        LeaguePathIsIndex(leagues[j - 1]);
      }
    }
    LastWriteWins(writes, 0);
  }

  /** A league page is what its file holds at the end of a complete build unless a later league
      has the same slug, in which case that league's page replaced it. When the slug is
      `index`, the page replaces the index page itself. */
  lemma LeaguePageSurvives(hs: seq<Highlight>, live: seq<LiveMatch>, baseUrl: string, today: string, i: nat)
    requires AllComplete(live) && AllHaveVideo(hs)
    requires i < |Leagues(hs)|
    requires forall j :: i < j < |Leagues(hs)| ==> SanitizeFilename(Leagues(hs)[j]) != SanitizeFilename(Leagues(hs)[i])
    ensures var leagues := Leagues(hs);
      var files := FinalFiles(BuildPlan(hs, live, baseUrl, today).writes);
      && OutputPath(LeagueFileName(leagues[i])) in files
      && files[OutputPath(LeagueFileName(leagues[i]))] == LeaguePage(hs, leagues[i], leagues).text
  {
    CompletedBuildWrites(hs, live, baseUrl, today);
    LayoutKeepsLeaguePage(BuildPlan(hs, live, baseUrl, today).writes, Leagues(hs), i);
  }

  /** The index page is what `index.html` holds at the end of a complete build when no league
      slugs to `index`. */
  lemma IndexPageSurvives(hs: seq<Highlight>, live: seq<LiveMatch>, baseUrl: string, today: string)
    requires AllComplete(live) && AllHaveVideo(hs)
    requires forall j :: 0 <= j < |Leagues(hs)| ==> SanitizeFilename(Leagues(hs)[j]) != "index"
    ensures var files := FinalFiles(BuildPlan(hs, live, baseUrl, today).writes);
      && OutputPath(IndexFile) in files
      && files[OutputPath(IndexFile)] == IndexPage(hs, live, Leagues(hs)).text
  {
    CompletedBuildWrites(hs, live, baseUrl, today);
    LayoutKeepsIndexPage(BuildPlan(hs, live, baseUrl, today).writes, Leagues(hs));
  }

  /** Every navigation link of a complete build points at a file that exists at the end. */
  lemma NavLinksPointToWrittenPages(hs: seq<Highlight>, live: seq<LiveMatch>, baseUrl: string, today: string)
    requires AllComplete(live) && AllHaveVideo(hs)
    ensures var files := FinalFiles(BuildPlan(hs, live, baseUrl, today).writes);
      forall k :: 0 <= k < |NavLinks(Leagues(hs))| ==> OutputPath(NavLinks(Leagues(hs))[k].href) in files
  {
    var leagues := Leagues(hs);
    var writes := BuildPlan(hs, live, baseUrl, today).writes;
    CompletedBuildWrites(hs, live, baseUrl, today);
    forall k | 0 <= k < |NavLinks(leagues)|
      ensures OutputPath(NavLinks(leagues)[k].href) in FinalFiles(writes)
    {
      assert writes[1 + k].path == OutputPath(NavLinks(leagues)[k].href);
    }
  }

  /** When a league slugs to `index`, the last such league's page is what `index.html` holds at
      the end: the index page is lost. */
  lemma IndexReplacedByLeague(hs: seq<Highlight>, live: seq<LiveMatch>, baseUrl: string, today: string, i: nat)
    requires AllComplete(live) && AllHaveVideo(hs)
    requires i < |Leagues(hs)| && SanitizeFilename(Leagues(hs)[i]) == "index"
    requires forall j :: i < j < |Leagues(hs)| ==> SanitizeFilename(Leagues(hs)[j]) != "index"
    ensures var files := FinalFiles(BuildPlan(hs, live, baseUrl, today).writes);
      && OutputPath(IndexFile) in files
      && files[OutputPath(IndexFile)] == LeaguePage(hs, Leagues(hs)[i], Leagues(hs)).text
  {
    LeaguePageSurvives(hs, live, baseUrl, today, i);
    LeaguePathIsIndex(Leagues(hs)[i]);
  }

  // ---------------------------------------------------------------- the sitemap of a build

  /** The sitemap lists the index URL first, then one URL per league in sorted order: as many
      URLs as pages written. */
  lemma SitemapUrlsAt(baseUrl: string, leagues: seq<string>)
    ensures |SitemapUrls(baseUrl, leagues)| == 1 + |leagues|
    ensures SitemapUrls(baseUrl, leagues)[0] == baseUrl + "/index.html"
    ensures forall i :: 0 <= i < |leagues| ==>
      SitemapUrls(baseUrl, leagues)[1 + i] == baseUrl + "/" + SanitizeFilename(leagues[i]) + ".html"
  {
    IndexUrl(baseUrl);
    forall i | 0 <= i < |leagues|
      ensures SitemapUrls(baseUrl, leagues)[1 + i] == baseUrl + "/" + SanitizeFilename(leagues[i]) + ".html"
    {
      LeagueUrlAt(baseUrl, leagues, i);
      ConcatAssociative(baseUrl + "/", SanitizeFilename(leagues[i]), ".html");
    }
  }

  lemma IndexUrl(baseUrl: string)
    ensures PageUrl(baseUrl, IndexFile) == baseUrl + "/index.html"
  {
    ConcatAssociative(baseUrl, "/", IndexFile);
    assert "/" + IndexFile == "/index.html";
  }

  lemma LeagueUrlAt(baseUrl: string, leagues: seq<string>, i: nat)
    requires i < |leagues|
    ensures SitemapUrls(baseUrl, leagues)[1 + i] == PageUrl(baseUrl, LeagueFileName(leagues[i]))
  {
    assert LeagueUrls(baseUrl, leagues)[i] == LeagueUrl(baseUrl, leagues[i]);
  }

  /** Two leagues with the same slug get the same sitemap URL: the sitemap repeats it. */
  lemma SitemapRepeatsCollidingUrls(baseUrl: string, leagues: seq<string>, i: nat, j: nat)
    requires i < j < |leagues|
    requires SanitizeFilename(leagues[i]) == SanitizeFilename(leagues[j])
    ensures SitemapUrls(baseUrl, leagues)[1 + i] == SitemapUrls(baseUrl, leagues)[1 + j]
  {
    LeagueUrlAt(baseUrl, leagues, i);
    LeagueUrlAt(baseUrl, leagues, j);
    assert LeagueFileName(leagues[i]) == LeagueFileName(leagues[j]);
  }

  /** A page URL holds no `<` when the base URL does not: slugs and file names never do. */
  lemma NoTagInPageUrls(baseUrl: string, leagues: seq<string>)
    requires '<' !in baseUrl
    ensures forall i :: 0 <= i < |SitemapUrls(baseUrl, leagues)| ==> '<' !in SitemapUrls(baseUrl, leagues)[i]
  {
    var urls := SitemapUrls(baseUrl, leagues);
    forall i | 0 <= i < |urls| ensures '<' !in urls[i] {
      if i == 0 {
        NoTagInPageUrl(baseUrl, IndexFile);
      } else {
        NoTagInLeagueFile(leagues[i - 1]);
        NoTagInPageUrl(baseUrl, LeagueFileName(leagues[i - 1]));
      }
    }
  }

  lemma NoTagInPageUrl(baseUrl: string, fileName: string)
    requires '<' !in baseUrl && '<' !in fileName
    ensures '<' !in PageUrl(baseUrl, fileName)
  {
  }

  lemma NoTagInLeagueFile(league: string)
    ensures '<' !in LeagueFileName(league)
  {
    var slug := SanitizeFilename(league);
    assert forall c :: c in slug ==> IsSlugChar(c);
  }

  /** Reading back the sitemap a complete build writes gives one entry per page, index first,
      each dated with the build date, provided the base URL and the date hold no `<`. */
  lemma BuiltSitemapReadsBack(hs: seq<Highlight>, live: seq<LiveMatch>, baseUrl: string, today: string)
    requires AllComplete(live) && AllHaveVideo(hs)
    requires '<' !in baseUrl && '<' !in today
    ensures var writes := BuildPlan(hs, live, baseUrl, today).writes;
      ParseSitemap(writes[|writes| - 1].content) == Some(EntriesOf(SitemapUrls(baseUrl, Leagues(hs)), today))
  {
    CompletedBuildWrites(hs, live, baseUrl, today);
    NoTagInPageUrls(baseUrl, Leagues(hs));
    SitemapRoundTrip(SitemapUrls(baseUrl, Leagues(hs)), today);
  }

  // ---------------------------------------------------------------- main

  /** `main`: fetch the highlights and the live scores, then build. */
  function RunMain(highlights: Response<Highlight>, apiKey: Option<string>, live: Response<LiveMatch>,
                   baseUrl: string, today: string): (run: BuildRun)
    ensures run.writes != [] && run.writes[0].path == OutputPath(IndexFile)
    ensures run.failure.None? <==>
      AllComplete(FetchLiveScores(apiKey, live)) && AllHaveVideo(FetchHighlights(highlights))
  {
    BuildFailure(FetchHighlights(highlights), FetchLiveScores(apiKey, live), baseUrl, today);
    BuildPlan(FetchHighlights(highlights), FetchLiveScores(apiKey, live), baseUrl, today)
  }

  /** Without an API key the live-score service is never consulted, so the build cannot fail
      on a live match: it fails only on a highlight with an empty `videos` list. */
  lemma MainWithoutApiKey(highlights: Response<Highlight>, apiKey: Option<string>, live: Response<LiveMatch>,
                          baseUrl: string, today: string)
    requires !HasApiKey(apiKey)
    ensures RunMain(highlights, apiKey, live, baseUrl, today) == RunMain(highlights, apiKey, RequestFailed, baseUrl, today)
    ensures RunMain(highlights, apiKey, live, baseUrl, today).failure.None? <==> AllHaveVideo(FetchHighlights(highlights))
  {
    BuildFailure(FetchHighlights(highlights), [], baseUrl, today);
  }

  /** When the highlights request fails, a build with complete live data writes only the index
      page and a sitemap listing only it. */
  lemma MainWithoutHighlights(apiKey: Option<string>, live: Response<LiveMatch>, baseUrl: string, today: string)
    requires AllComplete(FetchLiveScores(apiKey, live))
    ensures var run := RunMain(RequestFailed, apiKey, live, baseUrl, today);
      && run.failure.None?
      && |run.writes| == 2
      && run.writes[0].path == OutputPath(IndexFile)
      && run.writes[1] == FileWrite(OutputPath(SitemapFile), SitemapXml([baseUrl + "/index.html"], today))
  {
    var matches := FetchLiveScores(apiKey, live);
    assert FetchHighlights(RequestFailed) == [];
    assert Leagues([]) == [];
    IndexUrl(baseUrl);
    assert SitemapUrls(baseUrl, []) == [baseUrl + "/index.html"];
    CompletedBuildWrites([], matches, baseUrl, today);
  }
}
