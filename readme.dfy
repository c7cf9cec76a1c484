/** `generate_readme` of update_readme.py: the repository README assembled from the two data
    files. A data file is an input that is either missing or holds the loaded JSON list; the
    current time is an input string. */
module Readme {
  import opened Wrappers
  import opened Text
  import opened Render

  /** Why the README is not written: the live-score file cannot be opened, or a record shown in
      the table lacks one of its keys. */
  datatype ReadmeError = LiveScoresMissing | MissingKey

  /** What a run does: returns early without writing, raises before writing, or writes the
      README with the given content. */
  datatype ReadmeRun = Skipped | Raised(error: ReadmeError) | Wrote(content: string)

  /** At most this many highlights appear in the table. */
  const TableLimit: nat := 5

  const Title: string := "# 🏆 ספורט פלוס - פורטל תקצירים ותוצאות"
  const UpdatedPrefix: string := "\n> **עדכון אחרון:** "
  const UpdatedSuffix: string := " (מתעדכן אוטומטית כל 30 דקות)"
  const StatsHeading: string := "\n## 📊 סטטיסטיקות המערכת"
  const HighlightsCountPrefix: string := "- 📺 **תקצירים זמינים:** "
  const LiveCountPrefix: string := "- ⚽ **משחקים חיים כרגע:** "
  const TableHeading: string := "\n## 🎬 5 התקצירים האחרונים שהתווספו"
  const TableHeader: string := "| משחק | ליגה | תאריך |"
  const TableRule: string := "| :--- | :--- | :--- |"

  /** The four lines after the table. */
  const Footer: seq<string> := [
    "\n---",
    "\n### 🚀 איך זה עובד?",
    "הפרויקט מבוסס על **GitHub Actions** ו-**Python**. המערכת סורקת APIs של ספורט, מעבדת את הנתונים ומגישה אותם דרך **GitHub Pages** ללא עלות שרת.",
    "\n[🔗 לצפייה באתר החי והמלא](https://yourusername.github.io/your-repo-name/)"
  ]

  /** The eight lines before the table rows: title, update time, statistics with the two
      counts, and the table's heading, header and rule. */
  function Header(now: string, highlights: nat, live: nat): (lines: seq<string>)
    ensures |lines| == 8
  {
    [Title, UpdatedPrefix + now + UpdatedSuffix, StatsHeading,
     HighlightsCountPrefix + NatToString(highlights), LiveCountPrefix + NatToString(live),
     TableHeading, TableHeader, TableRule]
  }

  /** The three cells of a table row. */
  datatype Row = Row(title: string, competition: string, date: string)

  /** The cells of one highlight: `title`, `competition` and `date` are read with `[...]`, so
      a missing one raises `KeyError`; the date cell is `date[:10]`. */
  function RowOf(h: Highlight): (r: Result<Row, ReadmeError>)
    ensures r.Err? <==> h.title.None? || h.competition.None? || h.date.None?
    ensures r.Err? ==> r.error == MissingKey
    ensures r.Ok? ==> r.value.title == h.title.value && r.value.competition == h.competition.value
    ensures r.Ok? ==> |r.value.date| == Min(10, |h.date.value|)
    ensures r.Ok? ==> r.value.date == h.date.value[..|r.value.date|]
  {
    if h.title.None? || h.competition.None? || h.date.None? then Err(MissingKey)
    else Ok(Row(h.title.value, h.competition.value, PrefixUpTo(h.date.value, 10)))
  }

  /** A Markdown table row: each cell sits between `| ` and ` |`. */
  function RowLine(row: Row): (line: string)
    ensures |line| == |row.title| + |row.competition| + |row.date| + 10
    ensures line[0] == '|' && line[|line| - 1] == '|'
  {
    "| " + row.title + " | " + row.competition + " | " + row.date + " |"
  }

  /** Where the three cells of a row sit. */
  lemma RowLineCells(row: Row)
    ensures var line := RowLine(row);
      && line[2..2 + |row.title|] == row.title
      && line[|row.title| + 5..|row.title| + 5 + |row.competition|] == row.competition
      && line[|line| - 2 - |row.date|..|line| - 2] == row.date
  {
  }

  /** A highlight has the three keys its table row reads. */
  predicate HasRowKeys(h: Highlight) {
    h.title.Some? && h.competition.Some? && h.date.Some?
  }

  /** The table rows of `hs`, one per highlight in order; the first highlight without its keys
      makes the whole table fail. */
  function Rows(hs: seq<Highlight>): (r: Result<seq<string>, ReadmeError>)
    ensures r.Err? <==> exists i :: 0 <= i < |hs| && !HasRowKeys(hs[i])
    ensures r.Err? ==> r.error == MissingKey
    ensures r.Ok? ==> |r.value| == |hs|
    ensures r.Ok? ==> forall i :: 0 <= i < |hs| ==> RowOf(hs[i]).Ok? && r.value[i] == RowLine(RowOf(hs[i]).value)
  {
    if hs == [] then Ok([])
    else
      var init := hs[..|hs| - 1];
      assert forall i :: 0 <= i < |init| ==> init[i] == hs[i];
      match Rows(init)
      case Err(e) => Err(e)
      case Ok(rows) =>
        match RowOf(hs[|hs| - 1])
        case Err(e) => Err(e)
        case Ok(row) => Ok(rows + [RowLine(row)])
  }

  /** The rows of a prefix one highlight longer: the next row is appended. */
  lemma RowsStep(shown: seq<Highlight>, i: nat)
    requires i < |shown| && Rows(shown[..i]).Ok? && RowOf(shown[i]).Ok?
    ensures Rows(shown[..i + 1]) == Ok(Rows(shown[..i]).value + [RowLine(RowOf(shown[i]).value)])
  {
    assert shown[..i + 1][..i] == shown[..i];
  }

  /** The lines of the README for the loaded data: the header, the rows of the first five
      highlights, and the footer. */
  function Lines(highlights: seq<Highlight>, live: seq<LiveMatch>, now: string): (r: Result<seq<string>, ReadmeError>)
    ensures r.Err? <==> exists i :: 0 <= i < Min(TableLimit, |highlights|) && !HasRowKeys(highlights[i])
    ensures r.Err? ==> r.error == MissingKey
    ensures r.Ok? ==> |r.value| == 8 + Min(TableLimit, |highlights|) + 4
  {
    var shown := highlights[..Min(TableLimit, |highlights|)];
    match Rows(shown)
    case Err(e) => Err(e)
    case Ok(rows) => Ok(Header(now, |highlights|, |live|) + rows + Footer)
  }

  /** `generate_readme`: nothing happens without the highlight file; a missing live-score file
      or a shown highlight without its keys raises before the README is opened; otherwise the
      lines are joined with newlines and written. */
  function ReadmeOf(highlightsFile: Option<seq<Highlight>>, liveFile: Option<seq<LiveMatch>>, now: string): (run: ReadmeRun)
    ensures run.Skipped? <==> highlightsFile.None?
    ensures run.Raised? && run.error == LiveScoresMissing <==> highlightsFile.Some? && liveFile.None?
    ensures run.Wrote? <==>
      && highlightsFile.Some? && liveFile.Some?
      && forall i :: 0 <= i < Min(TableLimit, |highlightsFile.value|) ==> HasRowKeys(highlightsFile.value[i])
  {
    match highlightsFile
    case None => Skipped
    case Some(highlights) =>
      match liveFile
      case None => Raised(LiveScoresMissing)
      case Some(live) =>
        match Lines(highlights, live, now)
        case Err(e) => Raised(e)
        case Ok(lines) => Wrote(Join(lines, "\n"))
  }

  /** The table loop of `generate_readme`: appends one row per shown highlight to `content`,
      stopping at the first highlight that lacks a key. */
  method AppendRows(content0: seq<string>, shown: seq<Highlight>)
    returns (content: seq<string>, failure: Option<ReadmeError>)
    ensures failure.None? <==> Rows(shown).Ok?
    ensures failure.Some? ==> failure == Some(MissingKey)
    ensures failure.None? ==> content == content0 + Rows(shown).value
  {
    content := content0;
    var i := 0;
    while i < |shown|
      invariant 0 <= i <= |shown|
      invariant Rows(shown[..i]).Ok?
      invariant content == content0 + Rows(shown[..i]).value
    {
      var row := RowOf(shown[i]);
      if row.Err? {
        assert !HasRowKeys(shown[i]);
        return content, Some(row.error);
      }
      RowsStep(shown, i);
      content := content + [RowLine(row.value)];
      i := i + 1;
    }
    assert shown[..i] == shown;
    failure := None;
  }

  /** `generate_readme` as the source runs it: the content list starts with the header lines,
      grows by one row per shown highlight, then by the footer lines, and is joined. */
  method GenerateReadme(highlightsFile: Option<seq<Highlight>>, liveFile: Option<seq<LiveMatch>>, now: string)
    returns (run: ReadmeRun)
    ensures run == ReadmeOf(highlightsFile, liveFile, now)
  {
    if highlightsFile.None? {
      return Skipped;
    }
    var highlights := highlightsFile.value;
    if liveFile.None? {
      return Raised(LiveScoresMissing);
    }
    var live := liveFile.value;
    var shown := highlights[..Min(TableLimit, |highlights|)];
    var content, failure := AppendRows(Header(now, |highlights|, |live|), shown);
    if failure.Some? {
      return Raised(failure.value);
    }
    content := content + Footer;
    assert Lines(highlights, live, now) == Ok(content);
    run := Wrote(Join(content, "\n"));
  }

  // ---------------------------------------------------------------- properties of the README

  /** The written README, split at the lines it was joined from: the header with the two
      counts and the time, then the first `min(5, len(highlights))` highlights as rows in input
      order, then the footer. */
  lemma ReadmeLayout(highlights: seq<Highlight>, live: seq<LiveMatch>, now: string)
    requires ReadmeOf(Some(highlights), Some(live), now).Wrote?
    ensures var n := Min(TableLimit, |highlights|);
      && Lines(highlights, live, now).Ok?
      && ReadmeOf(Some(highlights), Some(live), now).content == Join(Lines(highlights, live, now).value, "\n")
      && var lines := Lines(highlights, live, now).value;
      && lines[..8] == Header(now, |highlights|, |live|)
      && (forall i :: 0 <= i < n ==> RowOf(highlights[i]).Ok? && lines[8 + i] == RowLine(RowOf(highlights[i]).value))
      && lines[8 + n..] == Footer
  {
    var n := Min(TableLimit, |highlights|);
    var shown := highlights[..n];
    var rows := Rows(shown).value;
    var lines := Header(now, |highlights|, |live|) + rows + Footer;
    assert lines[..8] == Header(now, |highlights|, |live|);
    assert lines[8 + n..] == Footer;
    forall i | 0 <= i < n
      ensures RowOf(highlights[i]).Ok? && lines[8 + i] == RowLine(RowOf(highlights[i]).value)
    {
      assert shown[i] == highlights[i];
      assert lines[8 + i] == rows[i];
    }
  }

  /** The count lines report how many highlights and live matches were loaded: the digits after
      each label read back as the length of the corresponding list. */
  lemma CountsReadBack(now: string, highlights: nat, live: nat)
    ensures var lines := Header(now, highlights, live);
      && lines[3][..|HighlightsCountPrefix|] == HighlightsCountPrefix
      && lines[4][..|LiveCountPrefix|] == LiveCountPrefix
      && (forall k :: |HighlightsCountPrefix| <= k < |lines[3]| ==> IsDigit(lines[3][k]))
      && (forall k :: |LiveCountPrefix| <= k < |lines[4]| ==> IsDigit(lines[4][k]))
      && ParseDigits(lines[3][|HighlightsCountPrefix|..]) == highlights
      && ParseDigits(lines[4][|LiveCountPrefix|..]) == live
  {
    var lines := Header(now, highlights, live);
    assert lines[3][|HighlightsCountPrefix|..] == NatToString(highlights);
    assert lines[4][|LiveCountPrefix|..] == NatToString(live);
    NatToStringRoundTrip(highlights);
    NatToStringRoundTrip(live);
  }

  /** Highlights after the fifth never reach the table: they change only the count line. */
  lemma TableIgnoresLaterHighlights(highlights: seq<Highlight>, more: seq<Highlight>, live: seq<LiveMatch>, now: string)
    requires |highlights| >= TableLimit
    requires Lines(highlights, live, now).Ok?
    ensures Lines(highlights + more, live, now).Ok?
    ensures Lines(highlights + more, live, now).value[8..] == Lines(highlights, live, now).value[8..]
  {
    assert (highlights + more)[..TableLimit] == highlights[..TableLimit];
  }
}
