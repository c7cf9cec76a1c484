/** The page fragments of main.py: the HTML head, the navigation bar (`generate_navbar`), the
    highlight grid (`generate_highlights_grid`) and the live-score section
    (`generate_live_scores_section`). Feed records are JSON objects; a key that may be missing
    is an `Option`, and the exceptions Python raises on a missing key or an empty list are the
    `Err` side of a `Result`. */
module Render {
  import opened Wrappers
  import opened Text
  import opened Slug
  import opened Templates

  /** One element of a highlight's `videos` list; only its `embed` key is read. */
  datatype Video = Video(embed: Option<string>)

  /** A record of the highlight feed. */
  datatype Highlight = Highlight(
    title: Option<string>,
    competition: Option<string>,
    date: Option<string>,
    videos: Option<seq<Video>>)

  /** A JSON number that may be `null` (goals before kick-off, elapsed minutes). */
  datatype Number = Int(n: int) | Null

  /** A record of the live-score feed, flattened to the five nested keys that are read:
      `teams.home.name`, `teams.away.name`, `goals.home`, `goals.away` and
      `fixture.status.elapsed`. A key missing at any level of its path is `None`. */
  datatype LiveMatch = LiveMatch(
    homeName: Option<string>,
    awayName: Option<string>,
    goalsHome: Option<Number>,
    goalsAway: Option<Number>,
    elapsed: Option<Number>)

  /** The exceptions the renderers let escape: a missing dictionary key, or indexing an empty
      list. */
  datatype RenderError = KeyError | IndexError

  /** `generate_html_head`: the page title appears in the description and in `<title>`. */
  function HtmlHead(title: string): (head: string)
    ensures |HeadStart| + |title| <= |head|
    ensures head[|HeadStart|..|HeadStart| + |title|] == title
  {
    TwiceFramed(HeadStart, title, HeadMiddle, HeadEnd);
    HeadStart + title + HeadMiddle + title + HeadEnd
  }

  /** Pages with different titles have different heads: the title can be read back from the
      head, and the head grows by two characters for each character of the title. */
  lemma HtmlHeadInjective(a: string, b: string)
    ensures HtmlHead(a) == HtmlHead(b) <==> a == b
  {
    TwiceFramed(HeadStart, a, HeadMiddle, HeadEnd);
    TwiceFramed(HeadStart, b, HeadMiddle, HeadEnd);
  }

  // ---------------------------------------------------------------- navigation bar

  /** The navigation bar lists at most this many leagues. */
  const NavbarLimit: nat := 15

  /** A dropdown entry of the navigation bar. */
  datatype NavLink = NavLink(href: string, text: string)

  /** The file a league's page is written to: the league's slug with `.html` appended. */
  function LeagueFileName(league: string): string {
    SanitizeFilename(league) + ".html"
  }

  function LinksFor(leagues: seq<string>): (links: seq<NavLink>)
    ensures |links| == |leagues|
    ensures forall i :: 0 <= i < |leagues| ==>
      links[i] == NavLink(LeagueFileName(leagues[i]), leagues[i])
  {
    if leagues == [] then []
    else [NavLink(LeagueFileName(leagues[0]), leagues[0])] + LinksFor(leagues[1..])
  }

  /** The list comprehension of `generate_navbar`: one link per league among the first 15, in
      order, pointing at the league's page file and labelled with the league's own name. */
  function NavLinks(leagues: seq<string>): (links: seq<NavLink>)
    ensures |links| == Min(NavbarLimit, |leagues|)
    ensures forall i :: 0 <= i < |links| ==>
      links[i] == NavLink(LeagueFileName(leagues[i]), leagues[i])
  {
    LinksFor(leagues[..Min(NavbarLimit, |leagues|)])
  }

  function LinkHtml(link: NavLink): string {
    "<li><a class=\"dropdown-item\" href=\"" + link.href + "\">" + link.text + "</a></li>"
  }

  /** `"".join(...)` of the rendered links. */
  function LinksHtml(links: seq<NavLink>): string {
    if links == [] then "" else LinkHtml(links[0]) + LinksHtml(links[1..])
  }

  /** `generate_navbar`. */
  function Navbar(leagues: seq<string>): (bar: string)
    ensures |NavbarStart| + |NavbarEnd| <= |bar|
    ensures bar[..|NavbarStart|] == NavbarStart
    ensures bar[|bar| - |NavbarEnd|..] == NavbarEnd
    ensures leagues == [] ==> bar == NavbarStart + NavbarEnd
  {
    var links := LinksHtml(NavLinks(leagues));
    Framed(NavbarStart, links, NavbarEnd);
    NavbarStart + links + NavbarEnd
  }

  /** Leagues after the fifteenth never reach the navigation bar. */
  lemma NavbarIgnoresLaterLeagues(leagues: seq<string>, more: seq<string>)
    requires |leagues| >= NavbarLimit
    ensures Navbar(leagues + more) == Navbar(leagues)
  {
    assert NavLinks(leagues + more) == NavLinks(leagues);
  }

  // ---------------------------------------------------------------- results of rendering loops

  /** Appending the text of the next item to the text so far; the first failure wins, as the
      first exception ends a Python loop. */
  function Append(a: Result<string, RenderError>, b: Result<string, RenderError>): Result<string, RenderError> {
    match a
    case Err(e) => Err(e)
    case Ok(x) =>
      match b
      case Err(e) => Err(e)
      case Ok(y) => Ok(x + y)
  }

  lemma AppendAssociative(a: Result<string, RenderError>, b: Result<string, RenderError>, c: Result<string, RenderError>)
    ensures Append(Append(a, b), c) == Append(a, Append(b, c))
  {
    if a.Ok? && b.Ok? && c.Ok? {
      assert (a.value + b.value) + c.value == a.value + (b.value + c.value);
    }
  }

  lemma AppendEmpty(b: Result<string, RenderError>)
    ensures Append(Ok(""), b) == b
  {
    if b.Ok? {
      assert "" + b.value == b.value;
    }
  }

  lemma AppendEmptyRight(a: Result<string, RenderError>)
    ensures Append(a, Ok("")) == a
  {
    if a.Ok? {
      assert a.value + "" == a.value;
    }
  }

  // ---------------------------------------------------------------- highlight grid

  /** What one card of the grid shows. */
  datatype Card = Card(title: string, competition: string, embed: string, date: string)

  /** The loop body of `generate_highlights_grid`: `videos` defaults to `[{}]`, so a record
      without it shows an empty embed, but a present empty list makes `[0]` raise; `title`,
      `competition` and `date` default to "Game Highlight", "General" and "", and the card shows
      `date[:10]`. */
  function CardOf(h: Highlight): (r: Result<Card, RenderError>)
    ensures r.Err? <==> h.videos == Some([])
    ensures r.Ok? ==> |r.value.date| == Min(10, |h.date.GetOr("")|)
    ensures r.Ok? ==> r.value.date == h.date.GetOr("")[..|r.value.date|]
    ensures r.Ok? && h.title.Some? ==> r.value.title == h.title.value
    ensures r.Ok? && h.title.None? ==> r.value.title == "Game Highlight"
    ensures r.Ok? && h.competition.Some? ==> r.value.competition == h.competition.value
    ensures r.Ok? && h.competition.None? ==> r.value.competition == "General"
    ensures r.Ok? && h.videos.None? ==> r.value.embed == ""
    ensures r.Ok? && h.videos.Some? ==> r.value.embed == h.videos.value[0].embed.GetOr("")
  {
    var embed :=
      match h.videos
      case None => Ok("")
      case Some(videos) => if videos == [] then Err(IndexError) else Ok(videos[0].embed.GetOr(""));
    match embed
    case Err(e) => Err(e)
    case Ok(code) =>
      Ok(Card(h.title.GetOr("Game Highlight"), h.competition.GetOr("General"), code,
              PrefixUpTo(h.date.GetOr(""), 10)))
  }

  function CardHtml(c: Card): string {
    CardStart + c.title + CardAfterTitle + c.competition + CardAfterCompetition + c.embed
      + CardAfterEmbed + c.date + CardEnd
  }

  function CardText(h: Highlight): Result<string, RenderError> {
    match CardOf(h)
    case Err(e) => Err(e)
    case Ok(c) => Ok(CardHtml(c))
  }

  /** The cards of `items`, one after another in input order; an item with an empty `videos`
      list makes the whole grid fail. */
  function Cards(items: seq<Highlight>): (r: Result<string, RenderError>)
    ensures r.Err? <==> exists i :: 0 <= i < |items| && items[i].videos == Some([])
    ensures r.Err? ==> r.error == IndexError
  {
    if items == [] then Ok("")
    else
      var rest := Cards(items[1..]);
      assert forall i :: 1 <= i < |items| ==> items[i] == items[1..][i - 1];
      Append(CardText(items[0]), rest)
  }

  lemma {:induction false} CardsConcat(a: seq<Highlight>, b: seq<Highlight>)
    ensures Cards(a + b) == Append(Cards(a), Cards(b))
  {
    if a == [] {
      assert a + b == b;
      AppendEmpty(Cards(b));
    } else {
      assert (a + b)[0] == a[0] && (a + b)[1..] == a[1..] + b;
      CardsConcat(a[1..], b);
      AppendAssociative(CardText(a[0]), Cards(a[1..]), Cards(b));
    }
  }

  /** The cards of a prefix one item longer: the next card is appended. */
  lemma CardsSnoc(items: seq<Highlight>, i: nat)
    requires i < |items|
    ensures Cards(items[..i + 1]) == Append(Cards(items[..i]), CardText(items[i]))
  {
    assert items[..i + 1] == items[..i] + [items[i]];
    assert [items[i]][1..] == [];
    CardsConcat(items[..i], [items[i]]);
    AppendEmptyRight(CardText(items[i]));
  }

  lemma SplitAfter<T>(s: seq<T>, i: nat)
    requires i < |s|
    ensures s == s[..i + 1] + s[i + 1..]
  {
  }

  /** A card that renders extends the cards of the items before it. */
  lemma CardsGrow(items: seq<Highlight>, i: nat, card: Card)
    requires i < |items| && Cards(items[..i]).Ok? && CardOf(items[i]) == Ok(card)
    ensures Cards(items[..i + 1]) == Ok(Cards(items[..i]).value + CardHtml(card))
  {
    CardsSnoc(items, i);
  }

  /** The first card that raises is the error of all the cards. */
  lemma CardsStop(items: seq<Highlight>, i: nat)
    requires i < |items| && Cards(items[..i]).Ok? && CardOf(items[i]).Err?
    ensures Cards(items) == Err(CardOf(items[i]).error)
  {
    var front, back := items[..i + 1], items[i + 1..];
    SplitAfter(items, i);
    CardsSnoc(items, i);
    assert Cards(front) == Err(CardOf(items[i]).error);
    CardsConcat(front, back);
  }

  /** `generate_highlights_grid`: the fallback paragraph for an empty list; otherwise the row
      holding one card per item, which fails exactly when some item has an empty `videos`. */
  function HighlightsGrid(items: seq<Highlight>): (r: Result<string, RenderError>)
    ensures items == [] ==> r == Ok(NoHighlights)
    ensures r.Err? <==> exists i :: 0 <= i < |items| && items[i].videos == Some([])
    ensures r.Err? ==> r.error == IndexError
  {
    if items == [] then Ok(NoHighlights)
    else
      match Cards(items)
      case Err(e) => Err(e)
      case Ok(cards) => Ok(GridOpen + cards + "</div>")
  }

  /** `generate_highlights_grid` as the source runs it: the row text grows by one card per
      loop iteration. */
  method GenerateHighlightsGrid(items: seq<Highlight>) returns (r: Result<string, RenderError>)
    ensures r == HighlightsGrid(items)
  {
    if items == [] {
      return Ok(NoHighlights);
    }
    var html := GridOpen;
    var i := 0;
    while i < |items|
      invariant 0 <= i <= |items|
      invariant Cards(items[..i]).Ok?
      invariant html == GridOpen + Cards(items[..i]).value
    {
      var card := CardOf(items[i]);
      if card.Err? {
        CardsStop(items, i);
        return Err(card.error);
      }
      CardsGrow(items, i, card.value);
      ConcatAssociative(GridOpen, Cards(items[..i]).value, CardHtml(card.value));
      html := html + CardHtml(card.value);
      i := i + 1;
    }
    assert items[..i] == items;
    html := html + "</div>";
    r := Ok(html);
  }

  // ---------------------------------------------------------------- live scores

  /** What one live-score card shows. */
  datatype ScoreCard = ScoreCard(home: string, away: string, goalsHome: string, goalsAway: string, elapsed: string)

  /** An f-string interpolation of a JSON number: `null` prints as "None". */
  function NumberText(n: Number): (r: string)
    ensures r == "None" <==> n.Null?
    ensures n.Int? ==> r == IntToString(n.n)
  {
    match n
    case Int(i) => IntToString(i)
    case Null => "None"
  }

  /** The loop body of `generate_live_scores_section`: every one of the five nested keys is
      read with `[...]`, so any missing one raises `KeyError`. */
  function ScoreCardOf(m: LiveMatch): (r: Result<ScoreCard, RenderError>)
    ensures r.Err? <==> (m.homeName.None? || m.awayName.None? || m.goalsHome.None?
                         || m.goalsAway.None? || m.elapsed.None?)
    ensures r.Ok? ==> r.value.home == m.homeName.value && r.value.away == m.awayName.value
    ensures r.Ok? ==> r.value.goalsHome == NumberText(m.goalsHome.value)
    ensures r.Ok? ==> r.value.goalsAway == NumberText(m.goalsAway.value)
    ensures r.Ok? ==> r.value.elapsed == NumberText(m.elapsed.value)
  {
    if m.homeName.None? || m.awayName.None? || m.goalsHome.None? || m.goalsAway.None?
       || m.elapsed.None?
    then Err(KeyError)
    else Ok(ScoreCard(m.homeName.value, m.awayName.value, NumberText(m.goalsHome.value),
                      NumberText(m.goalsAway.value), NumberText(m.elapsed.value)))
  }

  predicate HasAllKeys(m: LiveMatch) {
    m.homeName.Some? && m.awayName.Some? && m.goalsHome.Some? && m.goalsAway.Some? && m.elapsed.Some?
  }

  function ScoreCardHtml(c: ScoreCard): string {
    LiveCardStart + c.elapsed + LiveCardAfterElapsed + c.home + " " + c.goalsHome + " - "
      + c.goalsAway + " " + c.away + LiveCardEnd
  }

  function ScoreCardText(m: LiveMatch): Result<string, RenderError> {
    match ScoreCardOf(m)
    case Err(e) => Err(e)
    case Ok(c) => Ok(ScoreCardHtml(c))
  }

  /** The live-score cards of `matches`, one after another in input order; a match with a
      missing key makes the whole section fail. */
  function ScoreCards(matches: seq<LiveMatch>): (r: Result<string, RenderError>)
    ensures r.Err? <==> exists i :: 0 <= i < |matches| && !HasAllKeys(matches[i])
    ensures r.Err? ==> r.error == KeyError
  {
    if matches == [] then Ok("")
    else
      var rest := ScoreCards(matches[1..]);
      assert forall i :: 1 <= i < |matches| ==> matches[i] == matches[1..][i - 1];
      Append(ScoreCardText(matches[0]), rest)
  }

  lemma {:induction false} ScoreCardsConcat(a: seq<LiveMatch>, b: seq<LiveMatch>)
    ensures ScoreCards(a + b) == Append(ScoreCards(a), ScoreCards(b))
  {
    if a == [] {
      assert a + b == b;
      AppendEmpty(ScoreCards(b));
    } else {
      assert (a + b)[0] == a[0] && (a + b)[1..] == a[1..] + b;
      ScoreCardsConcat(a[1..], b);
      AppendAssociative(ScoreCardText(a[0]), ScoreCards(a[1..]), ScoreCards(b));
    }
  }

  /** The cards of a prefix one match longer: the next card is appended. */
  lemma ScoreCardsSnoc(matches: seq<LiveMatch>, i: nat)
    requires i < |matches|
    ensures ScoreCards(matches[..i + 1]) == Append(ScoreCards(matches[..i]), ScoreCardText(matches[i]))
  {
    assert matches[..i + 1] == matches[..i] + [matches[i]];
    assert [matches[i]][1..] == [];
    ScoreCardsConcat(matches[..i], [matches[i]]);
    AppendEmptyRight(ScoreCardText(matches[i]));
  }

  /** A match with all its keys extends the cards of the matches before it. */
  lemma ScoreCardsGrow(matches: seq<LiveMatch>, i: nat, card: ScoreCard)
    requires i < |matches| && ScoreCards(matches[..i]).Ok? && ScoreCardOf(matches[i]) == Ok(card)
    ensures ScoreCards(matches[..i + 1]) == Ok(ScoreCards(matches[..i]).value + ScoreCardHtml(card))
  {
    ScoreCardsSnoc(matches, i);
  }

  /** The first match that raises is the error of the whole section's cards. */
  lemma ScoreCardsStop(matches: seq<LiveMatch>, i: nat)
    requires i < |matches| && ScoreCards(matches[..i]).Ok? && ScoreCardOf(matches[i]).Err?
    ensures ScoreCards(matches) == Err(ScoreCardOf(matches[i]).error)
  {
    var front, back := matches[..i + 1], matches[i + 1..];
    SplitAfter(matches, i);
    ScoreCardsSnoc(matches, i);
    assert ScoreCards(front) == Err(ScoreCardOf(matches[i]).error);
    ScoreCardsConcat(front, back);
  }

  /** `generate_live_scores_section`: the fallback paragraph for an empty list; otherwise the
      row holding one card per match, which fails exactly when some match lacks a key. */
  function LiveScoresSection(matches: seq<LiveMatch>): (r: Result<string, RenderError>)
    ensures matches == [] ==> r == Ok(NoLiveMatches)
    ensures r.Err? <==> exists i :: 0 <= i < |matches| && !HasAllKeys(matches[i])
    ensures r.Err? ==> r.error == KeyError
  {
    if matches == [] then Ok(NoLiveMatches)
    else
      match ScoreCards(matches)
      case Err(e) => Err(e)
      case Ok(cards) => Ok(LiveOpen + cards + "</div>")
  }

  /** `generate_live_scores_section` as the source runs it, one card per loop iteration. */
  method GenerateLiveScoresSection(matches: seq<LiveMatch>) returns (r: Result<string, RenderError>)
    ensures r == LiveScoresSection(matches)
  {
    if matches == [] {
      return Ok(NoLiveMatches);
    }
    var html := LiveOpen;
    var i := 0;
    while i < |matches|
      invariant 0 <= i <= |matches|
      invariant ScoreCards(matches[..i]).Ok?
      invariant html == LiveOpen + ScoreCards(matches[..i]).value
    {
      var card := ScoreCardOf(matches[i]);
      if card.Err? {
        ScoreCardsStop(matches, i);
        return Err(card.error);
      }
      ScoreCardsGrow(matches, i, card.value);
      ConcatAssociative(LiveOpen, ScoreCards(matches[..i]).value, ScoreCardHtml(card.value));
      html := html + ScoreCardHtml(card.value);
      i := i + 1;
    }
    assert matches[..i] == matches;
    html := html + "</div>";
    r := Ok(html);
  }
}
