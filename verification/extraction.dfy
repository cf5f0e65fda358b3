/**
 Image-URL extraction: from the `src` attributes of a rendered page's `<img>`
 elements to the absolute image URLs the audit fetches. The filter keeps
 source order and repeated sources; it drops empty sources, SVG images and
 assets served from a third-party CDN, and roots relative sources at the
 page's own domain over HTTPS.
 */
module Extraction {
  import opened Strings
  import opened Sequences

  type Url = string

  /** The lower-cased source mentions `.svg` anywhere. */
  predicate IsSvg(src: string) {
    Contains(Lower(src), ".svg")
  }

  /** A CDN asset that does not belong to the page's own domain. */
  predicate IsForeignCdn(domain: string, src: string) {
    !Contains(src, domain) && Contains(src, "cdn")
  }

  /** A source that survives every filter of the extraction loop. */
  predicate Kept(domain: string, src: string) {
    src != "" && !IsSvg(src) && !IsForeignCdn(domain, src)
  }

  /** The root every relative source is resolved against. */
  function SiteRoot(domain: string): string {
    "https://" + domain + "/"
  }

  /** A source already starting with `http` is used as is; any other is
      rooted at the site after its leading slashes are removed. */
  function Absolutize(domain: string, src: string): Url {
    if StartsWith(src, "http") then src
    else SiteRoot(domain) + StripLeading(src, '/')
  }

  /** The URL list the page analysis works on: the absolute form of every
      surviving source, in source order, repeats included. */
  function ExtractImageUrls(domain: string, srcs: seq<string>): seq<Url> {
    FilterMap(src => Kept(domain, src), src => Absolutize(domain, src), srcs)
  }

  /** The extraction is exactly the order-preserving image of the surviving
      sources: `origin[k]` is the position of the source of the k-th URL,
      positions strictly increase, and every surviving source has one. */
  lemma ExtractOrigins(domain: string, srcs: seq<string>) returns (origin: seq<nat>)
    ensures Traces(src => Kept(domain, src), src => Absolutize(domain, src), srcs, ExtractImageUrls(domain, srcs), origin)
  {
    origin := FilterMapOrigins(src => Kept(domain, src), src => Absolutize(domain, src), srcs);
  }

  /** Every extracted URL comes from a non-empty, non-SVG, non-foreign-CDN source. */
  lemma ExtractedUrlHasKeptSource(domain: string, srcs: seq<string>, url: Url)
    requires url in ExtractImageUrls(domain, srcs)
    ensures exists i :: (0 <= i < |srcs|
      && srcs[i] != ""
      && !Contains(Lower(srcs[i]), ".svg")
      && (Contains(srcs[i], domain) || !Contains(srcs[i], "cdn"))
      && url == Absolutize(domain, srcs[i]))
  {
    var origin := ExtractOrigins(domain, srcs);
    var urls := ExtractImageUrls(domain, srcs);
    var k :| 0 <= k < |urls| && urls[k] == url;
    assert Kept(domain, srcs[origin[k]]);
  }

  /** Conversely every surviving source contributes its URL. */
  lemma KeptSourceIsExtracted(domain: string, srcs: seq<string>, i: nat)
    requires i < |srcs| && Kept(domain, srcs[i])
    ensures Absolutize(domain, srcs[i]) in ExtractImageUrls(domain, srcs)
  {
    var origin := ExtractOrigins(domain, srcs);
    assert KeptAt(src => Kept(domain, src), srcs, i);
    var k :| 0 <= k < |origin| && origin[k] == i;
  }

  /** Every extracted URL starts with `http`, and there are no more of them
      than non-empty sources. */
  lemma ExtractedUrlsAreHttp(domain: string, srcs: seq<string>)
    ensures var urls := ExtractImageUrls(domain, srcs);
      && |urls| <= Count(src => src != "", srcs)
      && forall k :: 0 <= k < |urls| ==> StartsWith(urls[k], "http")
  {
    FilterMapLengthBound(src => Kept(domain, src), src => src != "", src => Absolutize(domain, src), srcs);
    var origin := ExtractOrigins(domain, srcs);
    forall k | 0 <= k < |origin|
      ensures StartsWith(ExtractImageUrls(domain, srcs)[k], "http")
    {
      AbsolutizeShape(domain, srcs[origin[k]]);
    }
  }

  /** A relative source ends up rooted at the page's domain: the URL starts
      with `https://{domain}/`, the remainder is the source without its
      leading slashes, and the remainder does not start with a slash. An
      absolute source is emitted unchanged. */
  lemma AbsolutizeShape(domain: string, src: string)
    ensures StartsWith(Absolutize(domain, src), "http")
    ensures StartsWith(src, "http") ==> Absolutize(domain, src) == src
    ensures !StartsWith(src, "http") ==>
      var url := Absolutize(domain, src);
      var rest := url[|SiteRoot(domain)|..];
      && StartsWith(url, SiteRoot(domain))
      && (rest == [] || rest[0] != '/')
      && rest == src[|src| - |rest|..]
      && (forall i :: 0 <= i < |src| - |rest| ==> src[i] == '/')
  {
    if !StartsWith(src, "http") {
      var url := Absolutize(domain, src);
      assert url[|SiteRoot(domain)|..] == StripLeading(src, '/');
      assert url[..4] == SiteRoot(domain)[..4];
    }
  }

  /** A relative source is rooted at a URL that mentions the page's domain. */
  lemma RootedUrlContainsDomain(domain: string, src: string)
    requires !StartsWith(src, "http")
    ensures Contains(Absolutize(domain, src), domain)
  {
    ContainsSelf(domain);
    ContainsInConcat("https://", domain, domain);
    ContainsInConcat("https://" + domain, "/", domain);
    ContainsInConcat(SiteRoot(domain), StripLeading(src, '/'), domain);
  }

  /** A third-party CDN source is never emitted: not itself, since it is
      filtered out, and not as the image of another source, since a relative
      source becomes a URL containing the page's domain. */
  lemma ForeignCdnNeverEmitted(domain: string, srcs: seq<string>, src: string)
    requires IsForeignCdn(domain, src)
    ensures src !in ExtractImageUrls(domain, srcs)
  {
    var urls := ExtractImageUrls(domain, srcs);
    if src in urls {
      var origin := ExtractOrigins(domain, srcs);
      var k :| 0 <= k < |urls| && urls[k] == src;
      var s := srcs[origin[k]];
      assert Kept(domain, s) && src == Absolutize(domain, s);
      if !StartsWith(s, "http") {
        RootedUrlContainsDomain(domain, s);
      }
    }
  }

  /** An SVG logo `logo.svg` is filtered out on any page. */
  lemma ExampleSvgLogoDropped(domain: string)
    ensures !Kept(domain, "logo.svg")
  {
    assert Lower("logo.svg") == "logo.svg";
    assert Contains(".svg", ".svg");
    assert Contains("o.svg", ".svg");
    assert Contains("go.svg", ".svg");
  }

  /** A root-relative JPEG `/a.jpg` survives the filters on any page. */
  lemma ExampleRelativeJpegKept(domain: string)
    ensures Kept(domain, "/a.jpg")
  {
    assert Lower("/a.jpg") == "/a.jpg";
    NotContainsLonger("jpg", ".svg");
    assert !StartsWith(".jpg", ".svg") by {
      assert ".jpg"[1] != ".svg"[1];
    }
    NotContainsLonger("pg", "cdn");
    assert !StartsWith("jpg", "cdn") by {
      assert "jpg"[0] != "cdn"[0];
    }
  }

  /** A root-relative JPEG `/a.jpg` is rooted at the site. */
  lemma ExampleRelativeJpegRooted(domain: string)
    ensures Absolutize(domain, "/a.jpg") == "https://" + domain + "/a.jpg"
  {
    assert !StartsWith("/a.jpg", "http") by {
      assert "/a.jpg"[0] != "http"[0];
    }
    assert StripLeading("/a.jpg", '/') == "a.jpg" by {
      assert "/a.jpg"[1..] == "a.jpg";
    }
  }

  /** A page whose sources are `/a.jpg` and `logo.svg` yields the one rooted
      JPEG URL: the JPEG is rooted at the site and the SVG logo is dropped. */
  lemma ExampleSvgDroppedRelativeRooted(domain: string)
    ensures ExtractImageUrls(domain, ["/a.jpg", "logo.svg"]) == ["https://" + domain + "/a.jpg"]
  {
    var srcs := ["/a.jpg", "logo.svg"];
    var keep := src => Kept(domain, src);
    var abs := src => Absolutize(domain, src);
    ExampleSvgLogoDropped(domain);
    ExampleRelativeJpegKept(domain);
    ExampleRelativeJpegRooted(domain);
    assert srcs[1..] == ["logo.svg"];
    assert FilterMap(keep, abs, ["logo.svg"]) == [] by {
      assert ["logo.svg"][1..] == [];
    }
  }
}
