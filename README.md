# Sports highlights static site — a Dafny model

This project models the deterministic core of a small static-site generator for football
highlights, together with two data-shaping scripts that sit beside it.

- **main.py** fetches a highlight feed and a live-score feed. It turns every league name into a
  file-name slug (`sanitize_filename`) and renders a navigation bar, a highlight grid and a
  live-score section. `build_static_pages` then writes `docs/index.html`, one page per league
  and `docs/sitemap.xml`.
  - The build is modelled as the ordered list of file writes it performs (`Site.BuildPlan`),
    and also as a method that performs them step by step (`Site.BuildStaticPages`).
  - The files this build writes form a map in which the later write to a path wins
    (`Site.FinalFiles`). This makes slug collisions explicit. Files that earlier runs left in
    `docs/` are not part of that map.
- **scraper.py** builds one record per YouTube search entry for a kindergarten video dashboard.
  Each record holds:
  - the title cut at the first `|`;
  - the embed URL;
  - a lesson plan picked at random from a fixed table.

  The random pick is a nondeterministic choice (`:|`).
- **update_readme.py** assembles the repository README from the saved data: fixed lines, two
  counts, and a table of the first five highlights.

Modules:

| file | module | models |
|---|---|---|
| wrappers.dfy | Wrappers | `Option`, `Result` |
| text.dfy | Text | Python's `str.isspace`, `strip`, `s[:n]`, `str(int)`, `join` |
| slug.dfy | Slug | `sanitize_filename` |
| order.dfy | Order | Python's string order (code-point lexicographic) and `sorted(set(...))` |
| templates.dfy | Templates | the literal HTML and XML text of the page templates |
| render.dfy | Render | `generate_html_head`, `generate_navbar`, `generate_highlights_grid`, `generate_live_scores_section` |
| sitemap.dfy | Sitemap | the sitemap document and a reader for it |
| feed.dfy | Feed | the outcomes of `fetch_highlights` and `fetch_live_scores` |
| site.dfy | Site | `build_static_pages` and `main` |
| scraper.dfy | Scraper | `generate_lesson_plan` and the loop of `scrape_kindergarten_dashboard` |
| readme.dfy | Readme | `generate_readme` |

JSON records are datatypes whose possibly missing keys are `Option`s. The exceptions the code
lets escape are the `Err` side of a `Result`, or a `failure` field of a run:
- `KeyError` on a missing key;
- `IndexError` on an empty `videos` list.

The scraper catches its own exceptions (a `KeyError` on a missing id, an `AttributeError` on a
missing title) per category with `except Exception`: the record builder then gives `None` and
that category is left out of the result.

The base URL, the current date or time, the HTTP responses, the search results and the
contents of the data files are all parameters.

Behaviour of the code that the model makes explicit:

- Rendering raises on a live match missing any nested key (`KeyError`) and on a highlight
  whose `videos` list is present but empty (`IndexError`). Either one ends the build with a
  half-written `index.html` and no league page or sitemap (`Site.BuildFailure`).
- In `generate_readme` only the final write is guarded. A missing live-score file, or a shown
  highlight without `title`, `competition` or `date`, raises before the README is opened
  (`Readme.ReadmeOf`).
- N competitions give N page writes, but leagues whose slugs agree share one file: the later
  page wins and the sitemap lists the URL twice. A league whose slug is `index` overwrites the
  index page (`Site.IndexReplacedByLeague`).
- A league name without ASCII letters or digits does not always slug to the empty string:
  hyphens survive, so `"--"` slugs to `"-"`. The empty slug arises exactly when the name has
  no ASCII letter, digit or hyphen (`Slug.SlugEmptyIff`).

## Model

| member | source | states |
|---|---|---|
| Text.Strip | main.py:67 | `strip()` removes only whitespace: the result is the slice after the leading whitespace, whitespace lies on both sides of it, and its ends are not whitespace |
| Text.StripKeeps | main.py:67 | a string without whitespace at either end is unchanged by `strip()` |
| Text.PrefixUpTo | main.py:141 | `s[:n]` has length `min(n, len(s))` and is a prefix of `s` |
| Text.NatToString | update_readme.py:31-32 | `str(n)` of a natural number is a non-empty string of decimal digits without a leading zero |
| Text.NatToStringRoundTrip | update_readme.py:31-32 | the decimal digits of `n` read back as `n` |
| Text.IntToString | main.py:158-167 | `str(i)` of an integer is non-empty, starts with `-` exactly when `i` is negative, and is otherwise made of decimal digits |
| Text.IntToStringRoundTrip | main.py:158-167 | the digits of `str(i)`, after the sign of a negative number, read back as the magnitude of `i` |
| Text.Join | update_readme.py:50 | `sep.join(parts)` is empty for no parts, is the part itself for one part, and otherwise starts with the first part and ends with the last |
| Text.JoinSnoc | update_readme.py:50 | joining one more part appends the separator and that part |
| Slug.RemoveDisallowedConcat | main.py:67 | the first substitution works character by character and keeps order: the result for a concatenation is the concatenation of the results |
| Slug.RemoveDisallowedChar | main.py:67 | a single character survives the first substitution exactly when it is an ASCII letter, a digit, whitespace or a hyphen |
| Slug.CollapseWithoutSeparators | main.py:68 | a string with no whitespace and no hyphen is left unchanged by the second substitution |
| Slug.CollapseRun | main.py:68 | a run of whitespace and hyphens between two other characters becomes exactly one hyphen, and the text on each side is collapsed on its own |
| Slug.SlugOfWords | main.py:63-68 | a name made of ASCII letter-and-digit words separated by single spaces slugs to the lower-cased words joined by hyphens |
| Slug.RemoveDisallowed | main.py:67 | the first substitution keeps only ASCII letters, digits, whitespace and hyphens, and never lengthens the name |
| Slug.LowerAscii | main.py:67 | `lower()` keeps the length, maps ASCII capitals to small letters and leaves every other kept character alone |
| Slug.CollapseSeparators | main.py:68 | the second substitution is empty only on empty input, leaves no two adjacent hyphens, emits only hyphens and non-separator input characters, and starts with a hyphen exactly when the input starts with a separator |
| Slug.SanitizeFilename | main.py:63-68 | a slug contains only `a-z`, `0-9` and `-`, and never two adjacent hyphens |
| Slug.SlugKeepsLettersAndDigits | main.py:67-68 | the letters and digits of the slug, in order, are exactly the ASCII letters and digits of the name, lowercased |
| Slug.SanitizeIdempotent | main.py:63-68 | slugging a slug gives the same slug |
| Slug.SlugEmptyIff | main.py:67-68 | the slug is empty exactly when the name has no ASCII letter, digit or hyphen |
| Slug.SlugKeepsEdgeHyphens | main.py:67-68 | a hyphen at either end of the name stays at that end of the slug, because `strip()` removes only whitespace |
| Order.BelowTotal | main.py:183 | the code-point order used by `sort()` relates any two distinct strings |
| Order.BelowTransitive | main.py:183 | the code-point order is transitive |
| Order.SortedDistinct | main.py:182-183 | `sorted(set(xs))` is strictly increasing and has exactly the elements of `xs` |
| Order.StrictlySortedUnique | main.py:182-183 | two strictly increasing lists with the same elements are equal, so the league list is determined by its set |
| Render.HtmlHead | main.py:70-90 | the title can be read back from the head at a fixed offset after the fixed opening |
| Render.HtmlHeadInjective | main.py:70-90 | two heads are equal exactly when their titles are |
| Render.Navbar | main.py:92-120 | the navigation bar starts and ends with the fixed markup, and without leagues it is that markup alone |
| Render.NavLinks | main.py:94 | the navbar has `min(15, len(leagues))` links, the first leagues in order, each with href `slug + ".html"` and the league's own name as text |
| Render.NavbarIgnoresLaterLeagues | main.py:94 | leagues after the fifteenth do not change the navigation bar |
| Render.CardOf | main.py:129-141 | a card fails exactly when `videos` is present but empty; a missing `videos` gives an empty embed, otherwise the first video's `embed` or `""`; the title defaults to "Game Highlight", the competition to "General", and the date shown is `date[:10]` |
| Render.Cards | main.py:128-145 | the cards fail, with `IndexError`, exactly when some item has an empty `videos` list |
| Render.CardsConcat | main.py:128-145 | the cards of two lists, one after the other, are the cards of the first followed by those of the second: one card per item, in input order |
| Render.HighlightsGrid | main.py:122-147 | an empty list gives the fixed fallback paragraph, and the grid fails exactly when some item has an empty `videos` list |
| Render.GenerateHighlightsGrid | main.py:122-147 | the loop that grows the grid one card at a time computes `HighlightsGrid` |
| Render.NumberText | main.py:158-167 | a JSON number prints as `str(n)` and `null` prints as `None`, which no number prints as |
| Render.ScoreCardOf | main.py:155-167 | a live card fails exactly when one of the five nested keys is missing, and otherwise shows both team names, both goal counts and the elapsed minutes as printed numbers |
| Render.ScoreCards | main.py:155-171 | the live cards fail, with `KeyError`, exactly when some match lacks a key |
| Render.ScoreCardsConcat | main.py:155-171 | one live card per match, in input order |
| Render.LiveScoresSection | main.py:149-173 | an empty list gives the fixed fallback paragraph, and the section fails exactly when some match lacks a key |
| Render.GenerateLiveScoresSection | main.py:149-173 | the loop that grows the section one card at a time computes `LiveScoresSection` |
| Feed.FetchHighlights | main.py:29-40 | a failed request gives no highlights, and a body gives its `response` list or `[]` when that key is missing |
| Feed.FetchLiveScores | main.py:42-61 | without an API key the live-score list is empty and no response is consulted |
| Sitemap.SitemapXml | main.py:218-223 | the document starts with the XML declaration and the `<urlset>` tag and ends with `</urlset>`; with no URLs it is those alone |
| Sitemap.EntriesXmlSnoc | main.py:221-222 | each further URL appends exactly one `<url>` entry after those before it |
| Sitemap.SitemapRoundTrip | main.py:218-223 | when neither the URLs nor the date contain `<`, reading the sitemap back gives one entry per URL, in order, each with the build date |
| Site.Competitions | main.py:182 | the comprehension yields exactly the truthy competition values of the highlights |
| Site.Leagues | main.py:182-183 | `leagues` is strictly sorted, has no duplicates, and equals the set of truthy competitions |
| Site.LeagueHighlights | main.py:203 | a league's list holds every highlight whose competition equals the league, as often as in the feed, and nothing else |
| Site.LeagueHighlightsConcat | main.py:203 | the league filter keeps the feed's order |
| Site.HighlightOnOneLeaguePage | main.py:182-203 | a highlight with a truthy competition is on exactly one league's list; one with an empty or missing competition is on none |
| Site.IndexPage | main.py:186-195 | the index page fails exactly when a live match lacks a key (with `KeyError`) or, failing that, a highlight has an empty `videos` list (with `IndexError`) |
| Site.LeaguePage | main.py:205-211 | a league page fails, with `IndexError`, exactly when one of that league's highlights has an empty `videos` list |
| Site.LeaguePagesRun | main.py:200-211 | the league loop writes at most one file per league, exactly one per league when nothing fails, and a failure is an `IndexError` that follows at least one write |
| Site.LeaguePagesRunKeepsFailure | main.py:200-211 | after a failed league page, a further league adds nothing |
| Site.SitemapUrls | main.py:198-213 | the sitemap lists `1 + len(leagues)` URLs, the index page's first |
| Site.BuildPlan | main.py:175-223 | the first write is `index.html`, there are at most `len(leagues) + 2` writes, and a build that does not fail writes exactly that many, ending with `sitemap.xml` |
| Site.LeaguePageShowsItsLeague | main.py:203-210 | every card on a league page shows that league as its competition |
| Site.BuildStaticPages | main.py:175-225 | the step-by-step build performs exactly the writes of `BuildPlan` |
| Site.RenderLeaguePage | main.py:201-211 | the loop body writes the head, navbar, heading and grid of the league's page |
| Site.WriteLeaguePages | main.py:198-213 | the league loop writes one page per league until a grid fails, and collects one URL per league in order when none fails |
| Site.WriteSitemap | main.py:216-223 | the sitemap written is the header, one entry per URL in order, and the closing tag |
| Site.LeaguePagesRunStops | main.py:200-211 | once a league page raises, no later league is written |
| Site.LeagueGridRenders | main.py:203-210 | a league's grid renders whenever no highlight has an empty `videos` list |
| Site.LeaguePagesComplete | main.py:200-211 | without a failing grid the loop writes one complete page per league, to `slug + ".html"`, in order |
| Site.BuildFailure | main.py:187-195 | the build fails exactly when a live match lacks a key or a highlight has an empty `videos` list, and then only `index.html` has been written |
| Site.CompletedBuildWrites | main.py:185-223 | a complete build writes `index.html`, then each league page in sorted order, then `sitemap.xml` |
| Site.FinalFiles | main.py:205-211 | the files this build writes: a path is in the map exactly when some write of this build went to it |
| Site.LastWriteWins | main.py:205-211 | a file holds the content of the last write to its path |
| Site.HtmlPathsCollide | main.py:201-202 | two page files share a path exactly when their names agree |
| Site.LeaguePathsCollide | main.py:201-202 | two leagues' pages share a file exactly when their slugs agree |
| Site.LeaguePathIsIndex | main.py:186-202 | a league's page goes to `index.html` exactly when its slug is `index` |
| Site.LeaguePathNotSitemap | main.py:201-216 | no league page goes to `sitemap.xml` |
| Site.LayoutKeepsLeaguePage | main.py:200-211 | in a build's write order, a league page is kept unless a later league has the same slug |
| Site.LayoutKeepsIndexPage | main.py:186-211 | in a build's write order, the index page is kept unless a league slugs to `index` |
| Site.LeaguePageSurvives | main.py:200-211 | after a complete build, a league's file holds its page unless a later league has the same slug |
| Site.IndexPageSurvives | main.py:186-211 | after a complete build, `index.html` holds the index page unless a league slugs to `index` |
| Site.IndexReplacedByLeague | main.py:186-211 | when a league slugs to `index`, `index.html` ends up holding the last such league's page |
| Site.NavLinksPointToWrittenPages | main.py:94 | every navbar link of a complete build points at a file that exists at the end |
| Site.SitemapUrlsAt | main.py:198-213 | the sitemap URL list has `1 + len(leagues)` entries: `BASE_URL + "/index.html"` first, then `BASE_URL + "/" + slug + ".html"` per league in sorted order |
| Site.SitemapRepeatsCollidingUrls | main.py:213 | two leagues with the same slug put the same URL into the sitemap twice |
| Site.NoTagInPageUrls | main.py:198-213 | no sitemap URL contains `<` when the base URL does not |
| Site.BuiltSitemapReadsBack | main.py:218-223 | the sitemap of a complete build reads back as one entry per page, index first, each with the build date |
| Site.RunMain | main.py:227-234 | `main` always writes `index.html` first, and the build fails exactly when a fetched live match lacks a key or a fetched highlight has an empty `videos` list |
| Site.MainWithoutApiKey | main.py:227-234 | without an API key the live-score response is ignored, and the build fails only on a highlight with an empty `videos` list |
| Site.MainWithoutHighlights | main.py:227-234 | when the highlight request fails and the live data is complete, the build writes the index page and a sitemap listing only it |
| Scraper.LessonPlanTable | scraper.py:10-34 | the table has exactly the six categories, each with at least one activity |
| Scraper.GenerateLessonPlan | scraper.py:5-39 | the result is `None` exactly when the category is not a table key, and otherwise one of that category's activities; the title plays no part |
| Scraper.CategoriesArePlanned | scraper.py:51-58 | every searched category is a table key, and none is searched twice |
| Scraper.BeforeBar | scraper.py:73 | the text before the first bar character: a prefix free of bars that ends at the first bar or at the end of the title |
| Scraper.CleanTitle | scraper.py:73 | a record title has no bar character and no whitespace at either end |
| Scraper.CleanTitleCutsAtBar | scraper.py:73 | whatever follows the first bar character is dropped, and the part before it is stripped |
| Scraper.CleanTitleIdempotent | scraper.py:73 | cleaning a clean title changes nothing |
| Scraper.EmbedUrl | scraper.py:74 | the embed URL is `https://www.youtube.com/embed/`, the id and `?rel=0` |
| Scraper.EmbedUrlRoundTrip | scraper.py:74 | the video id reads back out of its embed URL |
| Scraper.EmbedUrlInjective | scraper.py:74 | different ids give different embed URLs |
| Scraper.Kept | scraper.py:68-69 | the entries kept are all truthy and no more than were given |
| Scraper.KeptConcat | scraper.py:68-69 | skipping falsy entries keeps the others in their original order |
| Scraper.KeptMembers | scraper.py:68-69 | an entry is kept exactly when it is in the input and truthy |
| Scraper.KeptAllTruthy | scraper.py:68-69 | a list of truthy entries is kept whole |
| Scraper.BuildItems | scraper.py:63-77 | the item loop fails exactly when a truthy entry lacks its id or title; otherwise it gives one record per truthy entry, in order, with the entry's id, clean title, embed URL and a lesson plan of the category |
| Scraper.ScrapeCategories | scraper.py:60-79 | the loop over a list of distinct table categories: a category gets a list exactly when its search and records succeed, that list is its records, no other key appears, and every record carries a lesson plan |
| Scraper.ScrapeDashboard | scraper.py:60-79 | a category gets a list exactly when its search and records succeed, the list is its records, no other key appears, and no record lacks a lesson plan |
| Readme.Header | update_readme.py:27-36 | the README starts with eight fixed lines around the time and the two counts |
| Readme.RowOf | update_readme.py:40 | a row fails with `KeyError` exactly when the title, competition or date is missing; it shows the title, the competition and `date[:10]` |
| Readme.RowLine | update_readme.py:40 | a table row starts and ends with `|` and is ten characters longer than its three cells |
| Readme.RowLineCells | update_readme.py:40 | the title, the competition and the date sit in the row's three cells, in that order, each between `| ` and ` |` |
| Readme.RowsStep | update_readme.py:39-40 | each further highlight appends its row after those before it |
| Readme.Rows | update_readme.py:39-40 | one row per highlight, in order, failing with `KeyError` exactly when one lacks a key |
| Readme.Lines | update_readme.py:27-45 | the content has `8 + min(5, len(highlights)) + 4` lines, and fails exactly when one of the first five highlights lacks a key |
| Readme.ReadmeOf | update_readme.py:10-50 | the run is skipped exactly when the highlight file is missing; a missing live-score file raises; the README is written exactly when both files exist and the shown highlights have their keys |
| Readme.AppendRows | update_readme.py:39-40 | the table loop appends exactly the rows of the shown highlights, and stops with `KeyError` exactly when one lacks a key |
| Readme.GenerateReadme | update_readme.py:10-50 | the step-by-step assembly of the content list computes `ReadmeOf` |
| Readme.ReadmeLayout | update_readme.py:27-50 | the README is the header lines, then the first `min(5, len(highlights))` highlights as rows in input order, then the footer, joined with newlines |
| Readme.CountsReadBack | update_readme.py:31-32 | the count lines read back as the number of highlights and the number of live matches |
| Readme.TableIgnoresLaterHighlights | update_readme.py:39 | highlights after the fifth change only the count line, not the table or the footer |

## Left out

- HTTP requests, `yt_dlp` searches, `json.load` and `json.dump`: each request or search outcome
  and each loaded file is a parameter, and the scraper's `streams.json` output is not modelled.
- JSON values other than present strings and lists: a key that is `null` is treated like a
  missing key, and numbers appear only in the live-score feed, where `null` prints as `None`.
- `datetime.now()`: the build date and the README time are parameters; their formats are not
  modelled.
- `ensure_environment`, `os.makedirs` and `exit(1)`: the output directory is assumed to exist.
- Files left in `docs/` by earlier runs: the code never clears the directory, so a stale league
  page stays beside the new ones. The model starts from an empty output directory, and
  `Site.FinalFiles` describes only the files this build writes.
- `print` logging, including the messages printed when a scraper category fails.
- The write of the README itself, whose errors the code catches and logs: a run that reaches it
  is modelled as writing its content.
- `random.choice`: the distribution is not modelled, only that the pick is one of the
  candidates.
- Scraper.GenerateLessonPlan: each call may pick differently, so the model does not say two
  calls for the same category agree; it only says which outcomes are possible.
- Feed.FetchLiveScores: the model keeps only the missing-key fallback and the failed-request
  fallback; the request itself is out of scope.
- The CSS, the HTML head and the Hebrew text are fixed constants whose content is not analysed;
  only their position in the output matters.
