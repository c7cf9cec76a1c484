/** The data shaping of scraper.py: the lesson-plan table behind `generate_lesson_plan`, the
    record built for each search entry, and the loop of `scrape_kindergarten_dashboard` that
    fills one list of records per category. The YouTube search itself is an input: for each
    query it either raised or returned an info dictionary, which may hold an `entries` list. */
module Scraper {
  import opened Wrappers
  import opened Text

  // ---------------------------------------------------------------- lesson plans

  /** The fixed table of `generate_lesson_plan`: candidate activities per category. */
  const LessonPlans: map<string, seq<string>> := map[
    "purim" := [
      "פעילות רעשנים: מחלקים רעשנים ומרעישים לפי קצב השיר. בבתים שקטים עוצרים ובפזמון מרעישים חזק.",
      "ריקוד פורים: עומדים במעגל, מתחפשים בדמיון וצועדים לפי המקצב. בכל פעם שמוזכרת דמות מהחג מבצעים תנועה אופיינית."
    ],
    "morning_circle" := [
      "מפגש בוקר: יושבים במעגל. כל ילד מברך את החבר שלידו ב'בוקר טוב' עם תנועת יד תואמת לשיר.",
      "פעילות גוף: נוגעים באיברי הגוף המוזכרים בשיר ומבצעים מתיחות בוקר עדינות."
    ],
    "movement_play" := [
      "הפעלה בתנועה: הילדים מתפזרים במרחב. כשהמוזיקה עוצרת מבצעים 'פסל' בפוזה מצחיקה.",
      "משחק קצב: מוחאים כפיים ומקישים על הברכיים לסירוגין לפי קצב המנגינה."
    ],
    "relaxation_sleep" := [
      "זמן רגיעה: מכבים את האורות בחדר. הילדים שוכבים בעיניים עצומות ומתרגלים נשימות עמוקות עם המוזיקה.",
      "דמיון מודרך עדין: שוכבים בנוח ומדמיינים שאנחנו ענן שט בשמיים לפי צלילי הפסנתר."
    ],
    "story_time" := [
      "דיון בעקבות הסיפור: לאחר הצפייה, נשאל את הילדים - מה היה הרגע שהכי אהבתם? ואיך הגיבור הרגיש?",
      "ציור סיפור: נבקש מהילדים לצייר את הדמות המועדפת עליהם מהסיפור שראינו."
    ],
    "israeli_classics" := [
      "שיח מורשת: משוחחים על השירים שגם אבא ואמא הכירו כשהיו קטנים ומצטרפים לשירה בציבור."
    ]
  ]

  /** The six keys of the table. */
  const PlanCategories: set<string> :=
    {"purim", "morning_circle", "movement_play", "relaxation_sleep", "story_time", "israeli_classics"}

  /** The table has exactly six categories, and each offers at least one activity. */
  lemma LessonPlanTable()
    ensures LessonPlans.Keys == PlanCategories
    ensures forall c :: c in LessonPlans ==> |LessonPlans[c]| > 0
  {
  }

  /** The outcomes `generate_lesson_plan` may produce for `category`: `None` for a category
      outside the table, otherwise any one of that category's activities. */
  ghost predicate PlanChoice(category: string, plan: Option<string>) {
    if category in LessonPlans then plan.Some? && plan.value in LessonPlans[category]
    else plan.None?
  }

  /** `generate_lesson_plan`. `random.choice` is a nondeterministic pick: the contract only
      says the pick is one of the category's activities. The title is accepted and never read,
      so the contract does not mention it. */
  method GenerateLessonPlan(category: string, title: Option<string>) returns (plan: Option<string>)
    ensures plan.None? <==> category !in PlanCategories
    ensures plan.Some? ==> category in LessonPlans && plan.value in LessonPlans[category]
    ensures PlanChoice(category, plan)
  {
    LessonPlanTable();
    if category in LessonPlans {
      var plans := LessonPlans[category];
      var i :| 0 <= i < |plans|;
      plan := Some(plans[i]);
    } else {
      plan := None;
    }
  }

  // ---------------------------------------------------------------- categories

  /** The categories the scraper searches, in dictionary order, with their search queries. */
  const Categories: seq<(string, string)> := [
    ("purim", "שירי פורים לילדים ופעוטות מחרוזת רשמי"),
    ("morning_circle", "שירי מפגש בוקר בוקר טוב לגן ילדים"),
    ("movement_play", "שירי הפעלה ותנועה מירב האוסמן אריאלה סביר"),
    ("israeli_classics", "שירי ילדות ישראלית קלאסיים מחרוזת"),
    ("relaxation_sleep", "מוזיקה שקטה למנוחה בגן ילדים"),
    ("story_time", "סיפורים לפני שינה לילדים מדובב")
  ]

  /** Every searched category is a key of the lesson-plan table, and no category is searched
      twice. */
  lemma CategoriesArePlanned()
    ensures forall i :: 0 <= i < |Categories| ==> Categories[i].0 in PlanCategories
    ensures forall i, j :: 0 <= i < j < |Categories| ==> Categories[i].0 != Categories[j].0
  {
    assert Categories[0].0 == "purim";
    assert Categories[1].0 == "morning_circle";
    assert Categories[2].0 == "movement_play";
    assert Categories[3].0 == "israeli_classics";
    assert Categories[4].0 == "relaxation_sleep";
    assert Categories[5].0 == "story_time";
  }

  // ---------------------------------------------------------------- entries and records

  /** An element of the search result's `entries` list: `None`, or a dictionary of which the
      `id` and `title` keys are read; `others` says whether it has any further key, which
      matters only for its truthiness. */
  datatype Entry = NoEntry | Entry(id: Option<string>, title: Option<string>, others: bool)

  /** `if entry:` is false for `None` and for an empty dictionary. */
  predicate Truthy(e: Entry) {
    e.Entry? && (e.id.Some? || e.title.Some? || e.others)
  }

  /** A truthy entry whose record cannot be built: `entry['id']` raises `KeyError` without an
      `id`, and `entry.get('title').split` raises `AttributeError` without a title. */
  predicate Broken(e: Entry) {
    Truthy(e) && (e.id.None? || e.title.None?)
  }

  /** The text before the first `|` (`s.split('|')[0]`). */
  function BeforeBar(s: string): (r: string)
    ensures '|' !in r
    ensures |r| <= |s| && r == s[..|r|]
    ensures |r| < |s| ==> s[|r|] == '|'
  {
    if s == [] || s[0] == '|' then []
    else
      var rest := BeforeBar(s[1..]);
      assert [s[0]] + rest == s[..|rest| + 1];
      [s[0]] + rest
  }

  /** The record title: the text before the first `|`, with surrounding whitespace removed. */
  function CleanTitle(s: string): (r: string)
    ensures '|' !in r
    ensures r == [] || (!IsSpace(r[0]) && !IsSpace(r[|r| - 1]))
  {
    var b := BeforeBar(s);
    assert forall c :: c in Strip(b) ==> c in b;
    Strip(b)
  }

  /** A clean title is left as it is by cleaning it again. */
  lemma CleanTitleIdempotent(s: string)
    ensures CleanTitle(CleanTitle(s)) == CleanTitle(s)
  {
    var t := CleanTitle(s);
    assert BeforeBar(t) == t by { BeforeBarWithoutBar(t); }
    StripKeeps(t);
  }

  /** Whatever follows the first `|` of a title is dropped. */
  lemma CleanTitleCutsAtBar(a: string, b: string)
    requires '|' !in a
    ensures CleanTitle(a + "|" + b) == Strip(a)
  {
    var s := a + "|" + b;
    var r := BeforeBar(s);
    BeforeBarWithoutBar(a);
    assert forall k :: 0 <= k < |a| ==> s[k] == a[k];
    assert s[|a|] == '|';
    assert r == s[..|a|] == a;
  }

  /** Text without a `|` is wholly before the first `|`. */
  lemma {:induction false} BeforeBarWithoutBar(s: string)
    requires '|' !in s
    ensures BeforeBar(s) == s
  {
    if s != [] {
      assert '|' !in s[1..] by { assert forall c :: c in s[1..] ==> c in s; }
      BeforeBarWithoutBar(s[1..]);
      assert [s[0]] + s[1..] == s;
    }
  }

  const EmbedPrefix: string := "https://www.youtube.com/embed/"
  const EmbedSuffix: string := "?rel=0"

  /** The embed URL of a video. */
  function EmbedUrl(id: string): (url: string)
    ensures |url| == |EmbedPrefix| + |id| + |EmbedSuffix|
    ensures url[..|EmbedPrefix|] == EmbedPrefix
    ensures url[|url| - |EmbedSuffix|..] == EmbedSuffix
  {
    EmbedPrefix + id + EmbedSuffix
  }

  /** Reads the video id back out of an embed URL. */
  function EmbedId(url: string): string
    requires |url| >= |EmbedPrefix| + |EmbedSuffix|
  {
    url[|EmbedPrefix|..|url| - |EmbedSuffix|]
  }

  /** The embed URL determines the video id. */
  lemma EmbedUrlRoundTrip(id: string)
    ensures EmbedId(EmbedUrl(id)) == id
  {
    var url := EmbedUrl(id);
    assert url == EmbedPrefix + id + EmbedSuffix;
    assert url[|EmbedPrefix|..|url| - |EmbedSuffix|] == id;
  }

  /** Different videos get different embed URLs. */
  lemma EmbedUrlInjective(a: string, b: string)
    requires EmbedUrl(a) == EmbedUrl(b)
    ensures a == b
  {
    EmbedUrlRoundTrip(a);
    EmbedUrlRoundTrip(b);
  }

  /** The dictionary stored per video. */
  datatype VideoRecord = VideoRecord(id: string, title: string, url: string, lessonPlan: Option<string>)

  /** `r` is a record the loop body may build from the entry `e` of `category`: the entry's id,
      its clean title, its embed URL, and one of the category's lesson plans. */
  ghost predicate RecordOf(category: string, e: Entry, r: VideoRecord) {
    && e.Entry? && e.id.Some? && e.title.Some?
    && r.id == e.id.value
    && r.title == CleanTitle(e.title.value)
    && r.url == EmbedUrl(e.id.value)
    && PlanChoice(category, r.lessonPlan)
  }

  /** `rs` holds one record per entry of `es`, in the same order. */
  ghost predicate RecordsOf(category: string, es: seq<Entry>, rs: seq<VideoRecord>) {
    |rs| == |es| && forall k :: 0 <= k < |es| ==> RecordOf(category, es[k], rs[k])
  }

  /** The truthy entries, in their original order. */
  function Kept(es: seq<Entry>): (r: seq<Entry>)
    ensures |r| <= |es|
    ensures forall k :: 0 <= k < |r| ==> Truthy(r[k])
  {
    if es == [] then []
    else Kept(es[..|es| - 1]) + (if Truthy(es[|es| - 1]) then [es[|es| - 1]] else [])
  }

  /** Filtering keeps the order: the kept entries of two lists one after the other are the
      kept entries of the first followed by those of the second. */
  lemma {:induction false} KeptConcat(a: seq<Entry>, b: seq<Entry>)
    ensures Kept(a + b) == Kept(a) + Kept(b)
  {
    if b == [] {
      assert a + b == a;
    } else {
      var b' := b[..|b| - 1];
      assert (a + b)[..|a + b| - 1] == a + b';
      assert (a + b)[|a + b| - 1] == b[|b| - 1];
      KeptConcat(a, b');
    }
  }

  /** Exactly the truthy entries are kept: each truthy entry is kept, and every kept entry
      comes from the input. */
  lemma {:induction false} KeptMembers(es: seq<Entry>, e: Entry)
    ensures e in Kept(es) <==> e in es && Truthy(e)
  {
    if es != [] {
      var init := es[..|es| - 1];
      KeptMembers(init, e);
      assert es == init + [es[|es| - 1]];
    }
  }

  /** A list without falsy entries is kept whole. */
  lemma {:induction false} KeptAllTruthy(es: seq<Entry>)
    requires forall k :: 0 <= k < |es| ==> Truthy(es[k])
    ensures Kept(es) == es
  {
    if es != [] {
      KeptAllTruthy(es[..|es| - 1]);
      assert es[..|es| - 1] + [es[|es| - 1]] == es;
    }
  }

  /** The kept entries of a prefix one entry longer. */
  lemma KeptSnoc(es: seq<Entry>, i: nat)
    requires i < |es|
    ensures Kept(es[..i + 1]) == Kept(es[..i]) + (if Truthy(es[i]) then [es[i]] else [])
  {
    assert es[..i + 1][..i] == es[..i];
  }

  lemma RecordsOfSnoc(category: string, es: seq<Entry>, rs: seq<VideoRecord>, e: Entry, r: VideoRecord)
    requires RecordsOf(category, es, rs) && RecordOf(category, e, r)
    ensures RecordsOf(category, es + [e], rs + [r])
  {
    forall k | 0 <= k < |es| + 1
      ensures RecordOf(category, (es + [e])[k], (rs + [r])[k])
    {
      if k < |es| {
        assert (es + [e])[k] == es[k] && (rs + [r])[k] == rs[k];
      }
    }
  }

  /** The inner loop of `scrape_kindergarten_dashboard` (the body of its `try`): one record
      per truthy entry, in order; the first broken entry raises, and the category then gets
      no list at all. */
  method BuildItems(category: string, entries: seq<Entry>) returns (items: Option<seq<VideoRecord>>)
    ensures items.None? <==> exists i :: 0 <= i < |entries| && Broken(entries[i])
    ensures items.Some? ==> RecordsOf(category, Kept(entries), items.value)
  {
    var list: seq<VideoRecord> := [];
    var broken := false;
    var i := 0;
    while i < |entries| && !broken
      invariant 0 <= i <= |entries|
      invariant !broken ==> forall j :: 0 <= j < i ==> !Broken(entries[j])
      invariant !broken ==> RecordsOf(category, Kept(entries[..i]), list)
      invariant broken ==> 0 < i && Broken(entries[i - 1])
    {
      var entry := entries[i];
      KeptSnoc(entries, i);
      if Truthy(entry) {
        if entry.id.None? || entry.title.None? {
          broken := true;
        } else {
          var plan := GenerateLessonPlan(category, entry.title);
          var record := VideoRecord(entry.id.value, CleanTitle(entry.title.value),
                                    EmbedUrl(entry.id.value), plan);
          RecordsOfSnoc(category, Kept(entries[..i]), list, entry, record);
          list := list + [record];
        }
      }
      i := i + 1;
    }
    if broken {
      items := None;
    } else {
      assert entries[..i] == entries;
      items := Some(list);
    }
  }

  // ---------------------------------------------------------------- the dashboard

  /** The outcome of one `ydl.extract_info` search: it raised, or it returned an info
      dictionary whose `entries` key may be missing. */
  datatype Search = Raised | Info(entries: Option<seq<Entry>>)

  /** The entries a search yields (none when the key is missing). */
  function EntriesOf(s: Search): seq<Entry> {
    if s.Info? && s.entries.Some? then s.entries.value else []
  }

  /** A category is left out of the results when its search raises or one of its entries is
      broken; the exception is caught and only logged. */
  predicate CategoryFails(s: Search) {
    s.Raised? || exists i :: 0 <= i < |EntriesOf(s)| && Broken(EntriesOf(s)[i])
  }

  /** The loop of `scrape_kindergarten_dashboard` over a list of (category, query) pairs, with
      the search given as a function from query to outcome. Every category whose search and
      records succeed gets its list of records; the others are absent; no other key appears;
      and every record carries a lesson plan, because every category is in the table. */
  method ScrapeCategories(cats: seq<(string, string)>, search: string -> Search)
    returns (results: map<string, seq<VideoRecord>>)
    requires forall i :: 0 <= i < |cats| ==> cats[i].0 in PlanCategories
    requires forall i, j :: 0 <= i < j < |cats| ==> cats[i].0 != cats[j].0
    ensures results.Keys <= PlanCategories
    ensures forall i :: 0 <= i < |cats| ==> (cats[i].0 in results <==> !CategoryFails(search(cats[i].1)))
    ensures forall i :: 0 <= i < |cats| && cats[i].0 in results ==>
      RecordsOf(cats[i].0, Kept(EntriesOf(search(cats[i].1))), results[cats[i].0])
    ensures forall key, k :: key in results && 0 <= k < |results[key]| ==>
      results[key][k].lessonPlan.Some?
  {
    results := map[];
    var c := 0;
    while c < |cats|
      invariant 0 <= c <= |cats|
      invariant results.Keys <= PlanCategories
      invariant forall i :: c <= i < |cats| ==> cats[i].0 !in results
      invariant forall i :: 0 <= i < c ==> (cats[i].0 in results <==> !CategoryFails(search(cats[i].1)))
      invariant forall i :: 0 <= i < c && cats[i].0 in results ==>
        RecordsOf(cats[i].0, Kept(EntriesOf(search(cats[i].1))), results[cats[i].0])
      invariant forall key, k :: key in results && 0 <= k < |results[key]| ==>
        results[key][k].lessonPlan.Some?
    {
      var (key, query) := cats[c];
      var outcome := search(query);
      if outcome.Info? {
        var items := BuildItems(key, EntriesOf(outcome));
        if items.Some? {
          RecordsHavePlans(key, Kept(EntriesOf(outcome)), items.value);
          results := results[key := items.value];
        }
      }
      c := c + 1;
    }
  }

  /** `scrape_kindergarten_dashboard`: the loop over the six categories of the dashboard. */
  method ScrapeDashboard(search: string -> Search) returns (results: map<string, seq<VideoRecord>>)
    ensures results.Keys <= PlanCategories
    ensures forall i :: 0 <= i < |Categories| ==>
      (Categories[i].0 in results <==> !CategoryFails(search(Categories[i].1)))
    ensures forall i :: 0 <= i < |Categories| && Categories[i].0 in results ==>
      RecordsOf(Categories[i].0, Kept(EntriesOf(search(Categories[i].1))), results[Categories[i].0])
    ensures forall key, k :: key in results && 0 <= k < |results[key]| ==>
      results[key][k].lessonPlan.Some?
  {
    CategoriesArePlanned();
    results := ScrapeCategories(Categories, search);
  }

  /** Records built for a category of the table all carry a lesson plan. */
  lemma RecordsHavePlans(category: string, es: seq<Entry>, rs: seq<VideoRecord>)
    requires category in PlanCategories
    requires RecordsOf(category, es, rs)
    ensures forall k :: 0 <= k < |rs| ==> rs[k].lessonPlan.Some?
  {
    LessonPlanTable();
    forall k | 0 <= k < |rs|
      ensures rs[k].lessonPlan.Some?
    {
      assert RecordOf(category, es[k], rs[k]);
    }
  }
}
