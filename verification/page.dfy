/**
 The page verdict: a page is reported when it has a broken, placeholder or
 duplicate image, or an image whose quality report is flagged; the report
 lists each category, or the sentinel "Geen" when it is empty.
 */
module Page {
  import opened Strings
  import opened Settings
  import opened Extraction
  import opened Fetching
  import opened Duplicates
  import opened Quality

  /** `xs` lists the elements of `s`, each once, in some order. */
  ghost predicate Lists(xs: seq<Url>, s: set<Url>) {
    && (forall i, j :: 0 <= i < j < |xs| ==> xs[i] != xs[j])
    && (forall u :: u in xs <==> u in s)
  }

  /** The record sent for a reported page. Each category holds the URLs in
      the order a set happens to iterate them. */
  datatype PageRecord = PageRecord(
    url: Url,
    broken: seq<Url>,
    placeholder: seq<Url>,
    duplicate: seq<Url>,
    blurDetails: seq<QualityReport>)

  /** A page is either reported with its record or found clean. */
  datatype PageOutcome = Reported(record: PageRecord) | Clean(url: Url)

  /** The text of one category field: the comma-separated URLs, or the
      sentinel when there are none. */
  function FieldText(xs: seq<Url>): string {
    if |xs| == 0 then NoneSentinel else Join(xs, ", ")
  }

  /** Lists a set in an order of the iteration's choosing. */
  method Enumerate(s: set<Url>) returns (xs: seq<Url>)
    ensures Lists(xs, s)
  {
    xs := [];
    var rest := s;
    while rest != {}
      invariant rest <= s
      invariant forall u :: u in xs <==> u in s && u !in rest
      invariant forall i, j :: 0 <= i < j < |xs| ==> xs[i] != xs[j]
      decreases |rest|
    {
      var u :| u in rest;
      xs := xs + [u];
      rest := rest - {u};
    }
  }

  /** The report of every URL occurrence, in page order. */
  ghost predicate ReportsOf(urls: seq<Url>, measurements: seq<Measurement>, reports: seq<QualityReport>)
    requires |measurements| == |urls|
  {
    && |reports| == |urls|
    && (forall k :: 0 <= k < |urls| ==> reports[k] == IsBlurry(urls[k], measurements[k]))
  }

  /** The page has something to report, stated on the inputs: an occurrence
      fetched broken or named as a placeholder, two identical comparable
      images, or a substandard measurement. */
  ghost predicate HasIssues(urls: seq<Url>, fetches: seq<FetchResult>, measurements: seq<Measurement>)
    requires |fetches| == |urls| && |measurements| == |urls|
  {
    var images := CollectImages(urls, fetches);
    || images.broken != {}
    || images.placeholder != {}
    || LaterCopies(images.table) != {}
    || (exists k :: 0 <= k < |urls| && Substandard(measurements[k]))
  }

  /** Measures every URL occurrence in turn and tells whether any report is
      flagged, which is exactly when some measurement is substandard. */
  method QualityReports(urls: seq<Url>, measurements: seq<Measurement>)
    returns (reports: seq<QualityReport>, flagged: bool)
    requires |measurements| == |urls|
    ensures ReportsOf(urls, measurements, reports)
    ensures flagged <==> exists k :: 0 <= k < |reports| && Flagged(reports[k])
    ensures flagged <==> exists k :: 0 <= k < |urls| && Substandard(measurements[k])
  {
    reports := [];
    flagged := false;
    for k := 0 to |urls|
      invariant |reports| == k
      invariant forall m :: 0 <= m < k ==> reports[m] == IsBlurry(urls[m], measurements[m])
      invariant flagged <==> exists m :: 0 <= m < k && Flagged(reports[m])
    {
      var r := IsBlurry(urls[k], measurements[k]);
      reports := reports + [r];
      flagged := flagged || Flagged(r);
    }
    forall k | 0 <= k < |urls|
      ensures Flagged(reports[k]) <==> Substandard(measurements[k])
    {
      FlaggedIffSubstandard(urls[k], measurements[k]);
    }
  }

  /** Audits one rendered page, given the `src` attributes of its images and,
      for each extracted URL occurrence, the result of its fetch and of its
      quality measurement. The page is reported exactly when it has an
      issue; the record then lists exactly the broken URLs, the placeholder
      URLs, the later copies of duplicate images, and one quality report per
      occurrence. */
  method AnalyzePage(pageUrl: Url, domain: string, srcs: seq<string>,
                     fetches: seq<FetchResult>, measurements: seq<Measurement>)
    returns (outcome: PageOutcome)
    requires |fetches| == |ExtractImageUrls(domain, srcs)|
    requires |measurements| == |fetches|
    ensures outcome.Reported? <==> HasIssues(ExtractImageUrls(domain, srcs), fetches, measurements)
    ensures outcome.Clean? ==> outcome.url == pageUrl
    ensures outcome.Reported? ==>
      var urls := ExtractImageUrls(domain, srcs);
      var images := CollectImages(urls, fetches);
      && outcome.record.url == pageUrl
      && Lists(outcome.record.broken, images.broken)
      && Lists(outcome.record.placeholder, images.placeholder)
      && Lists(outcome.record.duplicate, LaterCopies(images.table))
      && ReportsOf(urls, measurements, outcome.record.blurDetails)
  {
    var urls := ExtractImageUrls(domain, srcs);
    var images := CollectImages(urls, fetches);
    var dups := FindDuplicates(images.table);
    ReportedDuplicatesAreLaterCopies(images.table, dups);

    var reports, flagged := QualityReports(urls, measurements);
    assert dups != map[] <==> LaterCopies(images.table) != {};

    if images.broken != {} || images.placeholder != {} || dups != map[] || flagged {
      var broken := Enumerate(images.broken);
      var placeholder := Enumerate(images.placeholder);
      var duplicate := Enumerate(DuplicateValues(dups));
      outcome := Reported(PageRecord(pageUrl, broken, placeholder, duplicate, reports));
    } else {
      outcome := Clean(pageUrl);
    }
  }

  /** Every URL a category can list is an extracted URL, so it starts with
      `http`; hence a category's text is the sentinel exactly when the
      category is empty. */
  lemma SentinelIffEmpty(domain: string, srcs: seq<string>, xs: seq<Url>)
    requires forall u :: u in xs ==> u in ExtractImageUrls(domain, srcs)
    ensures FieldText(xs) == NoneSentinel <==> xs == []
  {
    if xs != [] {
      ExtractedUrlsAreHttp(domain, srcs);
      var urls := ExtractImageUrls(domain, srcs);
      assert xs[0] in xs;
      var k :| 0 <= k < |urls| && urls[k] == xs[0];
      assert StartsWith(xs[0], "http");
      var text := Join(xs, ", ");
      assert text[0] == xs[0][0] == 'h';
      assert NoneSentinel[0] == 'G';
    }
  }

  /** Each category lists extracted URLs only: the flagged sets and the later
      copies are all URLs of the page. */
  lemma ListedUrlsAreExtracted(urls: seq<Url>, fetches: seq<FetchResult>, u: Url)
    requires |fetches| == |urls|
    ensures var images := CollectImages(urls, fetches);
      (u in images.broken || u in images.placeholder || u in LaterCopies(images.table)) ==> u in urls
  {
    var images := CollectImages(urls, fetches);
    if u in LaterCopies(images.table) {
      var q :| 0 <= q < |images.table.order| && images.table.order[q] == u;
      assert u in images.table.arrays;
    }
  }

  /** A category of extracted URLs reads "Geen" exactly when it is empty. */
  lemma CategoryText(domain: string, srcs: seq<string>, xs: seq<Url>, s: set<Url>)
    requires Lists(xs, s)
    requires forall u :: u in s ==> u in ExtractImageUrls(domain, srcs)
    ensures FieldText(xs) == NoneSentinel <==> s == {}
  {
    SentinelIffEmpty(domain, srcs, xs);
    if s != {} {
      var u :| u in s;
      assert u in xs;
    }
    if xs != [] {
      assert xs[0] in s;
    }
  }

  /** In a reported record each category's text is "Geen" exactly when the
      category is empty, as the report's conditional expressions intend. */
  lemma RecordTextsSayGeenIffEmpty(domain: string, srcs: seq<string>, fetches: seq<FetchResult>, r: PageRecord)
    requires |fetches| == |ExtractImageUrls(domain, srcs)|
    requires var images := CollectImages(ExtractImageUrls(domain, srcs), fetches);
      && Lists(r.broken, images.broken)
      && Lists(r.placeholder, images.placeholder)
      && Lists(r.duplicate, LaterCopies(images.table))
    ensures var images := CollectImages(ExtractImageUrls(domain, srcs), fetches);
      && (FieldText(r.broken) == NoneSentinel <==> images.broken == {})
      && (FieldText(r.placeholder) == NoneSentinel <==> images.placeholder == {})
      && (FieldText(r.duplicate) == NoneSentinel <==> LaterCopies(images.table) == {})
  {
    var urls := ExtractImageUrls(domain, srcs);
    var images := CollectImages(urls, fetches);
    forall u | u in images.broken || u in images.placeholder || u in LaterCopies(images.table)
      ensures u in urls
    {
      ListedUrlsAreExtracted(urls, fetches, u);
    }
    CategoryText(domain, srcs, r.broken, images.broken);
    CategoryText(domain, srcs, r.placeholder, images.placeholder);
    CategoryText(domain, srcs, r.duplicate, LaterCopies(images.table));
  }
}
