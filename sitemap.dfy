/** The `sitemap.xml` document `build_static_pages` writes: an XML declaration, a `<urlset>` in
    the sitemaps.org 0.9 namespace, and one `<url>` entry per page URL, in order, each holding
    the URL as `<loc>` and the build date as `<lastmod>`. A reader of the file is modelled too,
    to show that the document lists exactly the URLs it was given. */
module Sitemap {
  import opened Wrappers
  import opened Text
  import opened Templates

  /** One `<url>` element. */
  function EntryXml(url: string, lastmod: string): string {
    EntryStart + url + EntryMiddle + lastmod + EntryEnd
  }

  /** The `<url>` elements of `urls`, one after another. */
  function EntriesXml(urls: seq<string>, lastmod: string): string {
    if urls == [] then "" else EntryXml(urls[0], lastmod) + EntriesXml(urls[1..], lastmod)
  }

  lemma {:induction false} EntriesXmlSnoc(urls: seq<string>, url: string, lastmod: string)
    ensures EntriesXml(urls + [url], lastmod) == EntriesXml(urls, lastmod) + EntryXml(url, lastmod)
  {
    if urls == [] {
      assert urls + [url] == [url];
    } else {
      assert (urls + [url])[1..] == urls[1..] + [url];
      EntriesXmlSnoc(urls[1..], url, lastmod);
      ConcatAssociative(EntryXml(urls[0], lastmod), EntriesXml(urls[1..], lastmod), EntryXml(url, lastmod));
    }
  }

  /** The whole document. */
  function SitemapXml(urls: seq<string>, lastmod: string): (xml: string)
    ensures |XmlDeclaration + UrlsetOpen| + |UrlsetClose| <= |xml|
    ensures xml[..|XmlDeclaration + UrlsetOpen|] == XmlDeclaration + UrlsetOpen
    ensures xml[|xml| - |UrlsetClose|..] == UrlsetClose
    ensures urls == [] ==> xml == XmlDeclaration + UrlsetOpen + UrlsetClose
  {
    Framed(XmlDeclaration + UrlsetOpen, EntriesXml(urls, lastmod), UrlsetClose);
    XmlDeclaration + UrlsetOpen + EntriesXml(urls, lastmod) + UrlsetClose
  }

  /** What a reader of the document recovers from one `<url>` element. */
  datatype UrlEntry = UrlEntry(loc: string, lastmod: string)

  function EntriesOf(urls: seq<string>, lastmod: string): (r: seq<UrlEntry>)
    ensures |r| == |urls|
    ensures forall i :: 0 <= i < |urls| ==> r[i] == UrlEntry(urls[i], lastmod)
  {
    if urls == [] then [] else [UrlEntry(urls[0], lastmod)] + EntriesOf(urls[1..], lastmod)
  }

  predicate StartsWith(s: string, prefix: string) {
    |prefix| <= |s| && s[..|prefix|] == prefix
  }

  /** The text of `s` up to its first `<`. */
  function UpToTag(s: string): (r: string)
    ensures |r| <= |s| && r == s[..|r|]
    ensures '<' !in r
    ensures |r| < |s| ==> s[|r|] == '<'
  {
    if s == [] || s[0] == '<' then [] else [s[0]] + UpToTag(s[1..])
  }

  lemma {:induction false} UpToTagOf(text: string, rest: string)
    requires '<' !in text
    requires rest != [] && rest[0] == '<'
    ensures UpToTag(text + rest) == text
  {
    if text != [] {
      assert (text + rest)[1..] == text[1..] + rest;
      UpToTagOf(text[1..], rest);
    } else {
      assert text + rest == rest;
    }
  }

  /** Reads one `<url>` element off the front of `s`, giving the entry and the text after it. */
  function ParseEntry(s: string): (r: Option<(UrlEntry, string)>)
    ensures r.Some? ==> |r.value.1| < |s|
  {
    if !StartsWith(s, EntryStart) then None
    else
      var s1 := s[|EntryStart|..];
      var loc := UpToTag(s1);
      var s2 := s1[|loc|..];
      if !StartsWith(s2, EntryMiddle) then None
      else
        var s3 := s2[|EntryMiddle|..];
        var lastmod := UpToTag(s3);
        var s4 := s3[|lastmod|..];
        if !StartsWith(s4, EntryEnd) then None
        else Some((UrlEntry(loc, lastmod), s4[|EntryEnd|..]))
  }

  /** Reads a run of `<url>` elements that makes up the whole of `s`. */
  function ParseEntries(s: string): Option<seq<UrlEntry>>
    decreases |s|
  {
    if s == [] then Some([])
    else
      match ParseEntry(s)
      case None => None
      case Some((entry, rest)) =>
        match ParseEntries(rest)
        case None => None
        case Some(entries) => Some([entry] + entries)
  }

  /** Reads a whole sitemap document. */
  function ParseSitemap(xml: string): Option<seq<UrlEntry>> {
    var header := XmlDeclaration + UrlsetOpen;
    if |xml| < |header| + |UrlsetClose| || !StartsWith(xml, header)
       || xml[|xml| - |UrlsetClose|..] != UrlsetClose
    then None
    else ParseEntries(xml[|header|..|xml| - |UrlsetClose|])
  }

  lemma SkipPrefix(prefix: string, text: string)
    ensures StartsWith(prefix + text, prefix)
    ensures (prefix + text)[|prefix|..] == text
  {
    assert (prefix + text)[..|prefix|] == prefix;
  }

  lemma ParseEntryOf(url: string, lastmod: string, rest: string)
    requires '<' !in url && '<' !in lastmod
    ensures ParseEntry(EntryXml(url, lastmod) + rest) == Some((UrlEntry(url, lastmod), rest))
  {
    var tail2 := EntryEnd + rest;
    var tail1 := EntryMiddle + (lastmod + tail2);
    var s := EntryXml(url, lastmod) + rest;
    assert s == EntryStart + (url + tail1);
    SkipPrefix(EntryStart, url + tail1);
    assert EntryMiddle[0] == '<';
    UpToTagOf(url, tail1);
    SkipPrefix(url, tail1);
    SkipPrefix(EntryMiddle, lastmod + tail2);
    assert EntryEnd[0] == '<';
    UpToTagOf(lastmod, tail2);
    SkipPrefix(lastmod, tail2);
    SkipPrefix(EntryEnd, rest);
  }

  lemma {:induction false} ParseEntriesOf(urls: seq<string>, lastmod: string)
    requires forall i :: 0 <= i < |urls| ==> '<' !in urls[i]
    requires '<' !in lastmod
    ensures ParseEntries(EntriesXml(urls, lastmod)) == Some(EntriesOf(urls, lastmod))
  {
    if urls != [] {
      var rest := EntriesXml(urls[1..], lastmod);
      ParseEntryOf(urls[0], lastmod, rest);
      assert EntriesXml(urls, lastmod) != [];
      ParseEntriesOf(urls[1..], lastmod);
    }
  }

  /** Reading the sitemap back gives one entry per URL, in the order given, each with the build
      date, provided neither the URLs nor the date contain a `<`. */
  lemma SitemapRoundTrip(urls: seq<string>, lastmod: string)
    requires forall i :: 0 <= i < |urls| ==> '<' !in urls[i]
    requires '<' !in lastmod
    ensures ParseSitemap(SitemapXml(urls, lastmod)) == Some(EntriesOf(urls, lastmod))
  {
    var header := XmlDeclaration + UrlsetOpen;
    var body := EntriesXml(urls, lastmod);
    var xml := SitemapXml(urls, lastmod);
    assert xml == header + body + UrlsetClose;
    assert xml[..|header|] == header;
    assert xml[|xml| - |UrlsetClose|..] == UrlsetClose;
    assert xml[|header|..|xml| - |UrlsetClose|] == body;
    ParseEntriesOf(urls, lastmod);
  }
}
