/** The fixed text of the pages main.py writes: the HTML head and its style sheet, the navigation
    bar around its league links, the pieces of a highlight card and of a live-score card, the
    fallback paragraphs, and the fixed fragments of the index and league pages. Each piece is
    the literal text of the corresponding template, with the interpolated values cut out. */
module Templates {
  const HeadStart: string := "<!DOCTYPE html>\n<html lang=\"he\" dir=\"rtl\">\n<head>\n    <meta charset=\"UTF-8\">\n    <meta name=\"viewport\" content=\"width=device-width, initial-scale=1.0\">\n    <meta name=\"description\" content=\""
  const HeadMiddle: string := " - חדשות ספורט, תקצירים ותוצאות בזמן אמת.\">\n    <title>"
  const HeadEnd: string := "</title>\n    <link href=\"https://cdn.jsdelivr.net/npm/bootstrap@5.3.0/dist/css/bootstrap.min.css\" rel=\"stylesheet\">\n    <style>\n        body { background-color: #f8f9fa; font-family: Arial, sans-serif; }\n        .video-container { position: relative; padding-bottom: 56.25%; height: 0; overflow: hidden; background: #000; }\n        .video-container iframe { position: absolute; top: 0; left: 0; width: 100%; height: 100%; }\n        .card { margin-bottom: 20px; box-shadow: 0 4px 6px rgba(0,0,0,0.1); border: none; }\n        .live-badge { color: red; font-weight: bold; animation: blink 2s infinite; }\n        @keyframes blink { 0% { opacity: 1; } 50% { opacity: 0.5; } 100% { opacity: 1; } }\n    </style>\n</head>\n<body>\n"
  const NavbarStart: string := "\n    <nav class=\"navbar navbar-expand-lg navbar-dark bg-dark mb-4\">\n        <div class=\"container\">\n            <a class=\"navbar-brand\" href=\"index.html\">⚽ ספורט היילייטס</a>\n            <button class=\"navbar-toggler\" type=\"button\" data-bs-toggle=\"collapse\" data-bs-target=\"#navbarNav\">\n                <span class=\"navbar-toggler-icon\"></span>\n            </button>\n            <div class=\"collapse navbar-collapse\" id=\"navbarNav\">\n                <ul class=\"navbar-nav\">\n                    <li class=\"nav-item\">\n                        <a class=\"nav-link\" href=\"index.html\">ראשי</a>\n                    </li>\n                    <li class=\"nav-item dropdown\">\n                        <a class=\"nav-link dropdown-toggle\" href=\"#\" id=\"navbarDropdown\" role=\"button\" data-bs-toggle=\"dropdown\">\n                            סינון לפי ליגה\n                        </a>\n                        <ul class=\"dropdown-menu text-end\" aria-labelledby=\"navbarDropdown\">\n                            "
  const NavbarEnd: string := "\n                        </ul>\n                    </li>\n                </ul>\n            </div>\n        </div>\n    </nav>\n"
  const GridOpen: string := "<div class=\"row\">"
  const CardStart: string := "\n        <div class=\"col-md-6 col-lg-4\">\n            <div class=\"card h-100\">\n                <div class=\"card-body\">\n                    <h5 class=\"card-title\">"
  const CardAfterTitle: string := "</h5>\n                    <p class=\"card-text text-muted small\">"
  const CardAfterCompetition: string := "</p>\n                    <div class=\"video-container mb-3\">"
  const CardAfterEmbed: string := "</div>\n                    <small class=\"text-secondary\">עודכן: "
  const CardEnd: string := "</small>\n                </div>\n            </div>\n        </div>\n        "
  const LiveOpen: string := "<div class=\"row mb-4\">"
  const LiveCardStart: string := "\n        <div class=\"col-md-4\">\n            <div class=\"card border-danger mb-3\">\n                <div class=\"card-body text-center\">\n                    <span class=\"live-badge\">LIVE "
  const LiveCardAfterElapsed: string := "'</span>\n                    <h5 class=\"mt-2\">"
  const LiveCardEnd: string := "</h5>\n                </div>\n            </div>\n        </div>\n        "
  const NoHighlights: string := "<p class='text-center'>אין תקצירים זמינים כרגע.</p>"
  const NoLiveMatches: string := "<p class='text-muted'>אין משחקים חיים כרגע, או שמפתח ה-API חסר.</p>"

  /** The fragments `build_static_pages` writes around the rendered sections. */
  const IndexTitle: string := "ראשי - תקצירי ספורט"
  const LeagueTitlePrefix: string := "תקצירים - "
  const ContainerOpen: string := "<div class=\"container\">"
  const LiveHeading: string := "<h2 class=\"mb-3\">🔴 משחקים חיים</h2>"
  const HighlightsHeading: string := "<hr><h2 class=\"mb-3\">📺 התקצירים האחרונים</h2>"
  const LeagueHeadingStart: string := "<h2 class=\"mb-4\">תקצירים: "
  const LeagueHeadingEnd: string := "</h2>"
  const PageClose: string := "</div><script src=\"https://cdn.jsdelivr.net/npm/bootstrap@5.3.0/dist/js/bootstrap.bundle.min.js\"></script></body></html>"

  /** The sitemap's fixed lines and the pieces of one `<url>` entry. */
  const XmlDeclaration: string := "<?xml version=\"1.0\" encoding=\"UTF-8\"?>\n"
  const UrlsetOpen: string := "<urlset xmlns=\"http://www.sitemaps.org/schemas/sitemap/0.9\">\n"
  const UrlsetClose: string := "</urlset>"
  const EntryStart: string := "  <url>\n    <loc>"
  const EntryMiddle: string := "</loc>\n    <lastmod>"
  const EntryEnd: string := "</lastmod>\n  </url>\n"
}
