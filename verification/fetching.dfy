/**
 Fetching the images of one page: the outcome of one fetch, and the ordered
 URL-to-bitmap table plus the broken and placeholder sets that the per-URL
 loop builds.
 */
module Fetching {
  import opened Wrappers
  import opened Strings
  import opened Settings
  import opened Bitmaps
  import opened Extraction

  /** What the network and the image decoder made of one request: the GET
      failed (network error, timeout or non-2xx status), the body is not an
      image format the decoder recognises, or it decoded and was resized to
      the canvas. */
  datatype FetchResult = RequestFailed | Undecodable | Decoded(bitmap: Bitmap)

  /** Classification of one URL after its fetch. */
  datatype ImageArray = Broken | Placeholder | Array(bitmap: Bitmap) {
    /** The value stored in the URL's table entry. */
    function AsOption(): Option<Bitmap> {
      if Array? then Some(bitmap) else None
    }
  }

  /** The lower-cased URL mentions one of the placeholder keywords. */
  predicate IsPlaceholderUrl(url: Url) {
    exists i :: 0 <= i < |PlaceholderKeywords| && Contains(Lower(url), PlaceholderKeywords[i])
  }

  /** A fetched URL is a placeholder when its name says so, whatever its bytes;
      a failed request, or bytes that do not decode, make it broken. */
  function GetImageArray(url: Url, r: FetchResult): (a: ImageArray)
    ensures a.Array? <==> r.Decoded? && !IsPlaceholderUrl(url)
    ensures a.Array? ==> a.bitmap == r.bitmap
    ensures a.Placeholder? <==> !r.RequestFailed? && IsPlaceholderUrl(url)
    ensures a.Broken? <==> r.RequestFailed? || (r.Undecodable? && !IsPlaceholderUrl(url))
  {
    match r
    case RequestFailed => Broken
    case Undecodable => if IsPlaceholderUrl(url) then Placeholder else Broken
    case Decoded(b) => if IsPlaceholderUrl(url) then Placeholder else Array(b)
  }

  /** An insertion-ordered dictionary from URL to optional bitmap. `order`
      lists the keys in the order they were first inserted. */
  datatype ImageTable = ImageTable(order: seq<Url>, arrays: map<Url, Option<Bitmap>>) {

    ghost predicate Valid() {
      && (forall i, j :: 0 <= i < j < |order| ==> order[i] != order[j])
      && (forall u :: u in arrays <==> u in order)
    }

    /** Dictionary assignment: a new key goes to the end, an existing key keeps
        its place and gets the new value. */
    function Put(url: Url, v: Option<Bitmap>): (t: ImageTable)
      requires Valid()
      ensures t.Valid()
      ensures t.arrays == arrays[url := v]
      ensures url in arrays ==> t.order == order
      ensures url !in arrays ==> t.order == order + [url]
    {
      if url in arrays then ImageTable(order, arrays[url := v])
      else ImageTable(order + [url], arrays[url := v])
    }
  }

  /** What the per-URL loop leaves behind: the table and the two flagged sets. */
  datatype PageImages = PageImages(table: ImageTable, broken: set<Url>, placeholder: set<Url>)

  /** `a` occurs in `urls` before every occurrence of `b`. */
  ghost predicate SeenBefore(urls: seq<Url>, a: Url, b: Url) {
    forall k :: 0 <= k < |urls| && urls[k] == b ==> a in urls[..k]
  }

  /** Position `k` is the last occurrence of its URL. */
  ghost predicate LastOccurrence(urls: seq<Url>, k: int)
    requires 0 <= k < |urls|
  {
    forall m :: k < m < |urls| ==> urls[m] != urls[k]
  }

  /** `t` is the dictionary the loop builds from these occurrences: its keys
      are the URLs, in first-occurrence order, and each holds the outcome of
      the URL's last occurrence. */
  ghost predicate TableOf(urls: seq<Url>, fetches: seq<FetchResult>, t: ImageTable)
    requires |fetches| == |urls|
  {
    && t.Valid()
    && (forall u :: u in t.arrays <==> u in urls)
    && (forall i, j :: 0 <= i < j < |t.order| ==> SeenBefore(urls, t.order[i], t.order[j]))
    && (forall k :: 0 <= k < |urls| && LastOccurrence(urls, k) ==>
          t.arrays[urls[k]] == GetImageArray(urls[k], fetches[k]).AsOption())
  }

  /** Some occurrence of `u` was classified broken. */
  ghost predicate BrokenIn(urls: seq<Url>, fetches: seq<FetchResult>, u: Url)
    requires |fetches| == |urls|
  {
    exists k :: 0 <= k < |urls| && urls[k] == u && GetImageArray(u, fetches[k]).Broken?
  }

  /** Some occurrence of `u` was classified a placeholder. */
  ghost predicate PlaceholderIn(urls: seq<Url>, fetches: seq<FetchResult>, u: Url)
    requires |fetches| == |urls|
  {
    exists k :: 0 <= k < |urls| && urls[k] == u && GetImageArray(u, fetches[k]).Placeholder?
  }

  ghost predicate Collected(urls: seq<Url>, fetches: seq<FetchResult>, p: PageImages)
    requires |fetches| == |urls|
  {
    && TableOf(urls, fetches, p.table)
    && (forall u :: u in p.broken <==> BrokenIn(urls, fetches, u))
    && (forall u :: u in p.placeholder <==> PlaceholderIn(urls, fetches, u))
  }

  /** Fetches every URL occurrence in turn, one network result per occurrence.
      Every occurrence adds to the flagged sets; the table keeps the outcome
      of a URL's last occurrence, in the order of first occurrences. */
  function CollectImages(urls: seq<Url>, fetches: seq<FetchResult>): (p: PageImages)
    requires |fetches| == |urls|
    ensures Collected(urls, fetches, p)
    decreases |urls|
  {
    if |urls| == 0 then PageImages(ImageTable([], map[]), {}, {})
    else
      var n := |urls| - 1;
      var prev := CollectImages(urls[..n], fetches[..n]);
      var a := GetImageArray(urls[n], fetches[n]);
      var table := prev.table.Put(urls[n], a.AsOption());
      var broken := prev.broken + (if a.Broken? then {urls[n]} else {});
      var placeholder := prev.placeholder + (if a.Placeholder? then {urls[n]} else {});
      TableStep(urls, fetches, prev.table);
      FlagsStep(urls, fetches, prev.broken, prev.placeholder);
      PageImages(table, broken, placeholder)
  }

  /** Storing the last occurrence's outcome extends the table of the earlier ones. */
  lemma TableStep(urls: seq<Url>, fetches: seq<FetchResult>, prev: ImageTable)
    requires |fetches| == |urls| > 0
    requires TableOf(urls[..|urls| - 1], fetches[..|urls| - 1], prev)
    ensures var n := |urls| - 1;
      TableOf(urls, fetches, prev.Put(urls[n], GetImageArray(urls[n], fetches[n]).AsOption()))
  {
    var n := |urls| - 1;
    var t := prev.Put(urls[n], GetImageArray(urls[n], fetches[n]).AsOption());
    KeysStep(urls, prev.arrays, t.arrays);
    forall i, j | 0 <= i < j < |t.order|
      ensures SeenBefore(urls, t.order[i], t.order[j])
    {
      OrderStep(urls, prev, t, i, j);
    }
    ValuesStep(urls, fetches, prev.arrays, t.arrays);
  }

  /** Storing the last occurrence adds its URL to the keys. */
  lemma KeysStep(urls: seq<Url>, prev: map<Url, Option<Bitmap>>, next: map<Url, Option<Bitmap>>)
    requires |urls| > 0
    requires forall u :: u in prev <==> u in urls[..|urls| - 1]
    requires next.Keys == prev.Keys + {urls[|urls| - 1]}
    ensures forall u :: u in next <==> u in urls
  {
    var n := |urls| - 1;
    assert urls == urls[..n] + [urls[n]];
  }

  /** Storing the last occurrence's outcome keeps the last-occurrence values
      of the earlier occurrences. */
  lemma ValuesStep(urls: seq<Url>, fetches: seq<FetchResult>, prev: map<Url, Option<Bitmap>>, next: map<Url, Option<Bitmap>>)
    requires |fetches| == |urls| > 0
    requires var n := |urls| - 1;
      forall k :: 0 <= k < n && LastOccurrence(urls[..n], k) ==>
        urls[..n][k] in prev && prev[urls[..n][k]] == GetImageArray(urls[..n][k], fetches[..n][k]).AsOption()
    requires var n := |urls| - 1;
      next == prev[urls[n] := GetImageArray(urls[n], fetches[n]).AsOption()]
    ensures forall k :: 0 <= k < |urls| && LastOccurrence(urls, k) ==>
      urls[k] in next && next[urls[k]] == GetImageArray(urls[k], fetches[k]).AsOption()
  {
    var n := |urls| - 1;
    forall k | 0 <= k < |urls| && LastOccurrence(urls, k)
      ensures urls[k] in next && next[urls[k]] == GetImageArray(urls[k], fetches[k]).AsOption()
    {
      if k < n {
        assert urls[k] != urls[n];
        assert urls[..n][k] == urls[k];
        assert LastOccurrence(urls[..n], k);
        assert fetches[..n][k] == fetches[k];
      }
    }
  }

  /** Appending a key, or overwriting one, keeps keys in first-occurrence order. */
  lemma OrderStep(urls: seq<Url>, prev: ImageTable, t: ImageTable, i: int, j: int)
    requires |urls| > 0
    requires var n := |urls| - 1;
      && prev.Valid()
      && (forall u :: u in prev.arrays <==> u in urls[..n])
      && (forall i, j :: 0 <= i < j < |prev.order| ==> SeenBefore(urls[..n], prev.order[i], prev.order[j]))
    requires var url := urls[|urls| - 1];
      && (url in prev.arrays ==> t.order == prev.order)
      && (url !in prev.arrays ==> t.order == prev.order + [url])
    requires 0 <= i < j < |t.order|
    ensures SeenBefore(urls, t.order[i], t.order[j])
  {
    var n := |urls| - 1;
    var a, b := t.order[i], t.order[j];
    assert a in urls[..n] by {
      assert i < |prev.order| && a == prev.order[i];
    }
    forall k | 0 <= k < |urls| && urls[k] == b
      ensures a in urls[..k]
    {
      if k < n {
        assert SeenBefore(urls[..n], a, b) by {
          assert j < |prev.order| && b == prev.order[j] && a == prev.order[i];
        }
        assert urls[..n][k] == b;
        assert urls[..n][..k] == urls[..k];
      } else {
        assert urls[..k] == urls[..n];
      }
    }
  }

  /** Adding the last occurrence's flag extends the flagged sets of the earlier ones. */
  lemma FlagsStep(urls: seq<Url>, fetches: seq<FetchResult>, broken: set<Url>, placeholder: set<Url>)
    requires |fetches| == |urls| > 0
    requires var n := |urls| - 1;
      && (forall u :: u in broken <==> BrokenIn(urls[..n], fetches[..n], u))
      && (forall u :: u in placeholder <==> PlaceholderIn(urls[..n], fetches[..n], u))
    ensures var n := |urls| - 1; var a := GetImageArray(urls[n], fetches[n]);
      && (forall u :: u in broken + (if a.Broken? then {urls[n]} else {}) <==> BrokenIn(urls, fetches, u))
      && (forall u :: u in placeholder + (if a.Placeholder? then {urls[n]} else {}) <==> PlaceholderIn(urls, fetches, u))
  {
    var n := |urls| - 1;
    forall u
      ensures BrokenIn(urls, fetches, u) <==>
        BrokenIn(urls[..n], fetches[..n], u) || (urls[n] == u && GetImageArray(u, fetches[n]).Broken?)
      ensures PlaceholderIn(urls, fetches, u) <==>
        PlaceholderIn(urls[..n], fetches[..n], u) || (urls[n] == u && GetImageArray(u, fetches[n]).Placeholder?)
    {
      if BrokenIn(urls[..n], fetches[..n], u) {
        var k :| 0 <= k < n && urls[..n][k] == u && GetImageArray(u, fetches[..n][k]).Broken?;
        assert urls[k] == u && fetches[k] == fetches[..n][k];
      }
      if BrokenIn(urls, fetches, u) {
        var k :| 0 <= k < |urls| && urls[k] == u && GetImageArray(u, fetches[k]).Broken?;
        if k < n {
          assert urls[..n][k] == u && fetches[..n][k] == fetches[k];
        }
      }
      if PlaceholderIn(urls[..n], fetches[..n], u) {
        var k :| 0 <= k < n && urls[..n][k] == u && GetImageArray(u, fetches[..n][k]).Placeholder?;
        assert urls[k] == u && fetches[k] == fetches[..n][k];
      }
      if PlaceholderIn(urls, fetches, u) {
        var k :| 0 <= k < |urls| && urls[k] == u && GetImageArray(u, fetches[k]).Placeholder?;
        if k < n {
          assert urls[..n][k] == u && fetches[..n][k] == fetches[k];
        }
      }
    }
  }

  /** Some occurrence of `u` in `urls` is its last one. */
  lemma LastOccurrenceOf(urls: seq<Url>, u: Url) returns (k: nat)
    requires u in urls
    ensures k < |urls| && urls[k] == u && LastOccurrence(urls, k)
  {
    var n := |urls| - 1;
    if urls[n] == u {
      k := n;
    } else {
      assert u in urls[..n] by {
        var i :| 0 <= i < |urls| && urls[i] == u;
        assert urls[..n][i] == u;
      }
      k := LastOccurrenceOf(urls[..n], u);
      assert urls[..n][k] == urls[k];
    }
  }

  /** A URL gets a bitmap only if its name is no placeholder and one of its
      fetches succeeded and decoded to exactly that bitmap. */
  lemma BitmapOnlyForUsableImages(urls: seq<Url>, fetches: seq<FetchResult>, u: Url)
    requires |fetches| == |urls|
    requires var t := CollectImages(urls, fetches).table; u in t.arrays && t.arrays[u].Some?
    ensures !IsPlaceholderUrl(u)
    ensures exists k :: (0 <= k < |urls| && urls[k] == u
      && fetches[k] == Decoded(CollectImages(urls, fetches).table.arrays[u].value))
  {
    var k := LastOccurrenceOf(urls, u);
  }

  /** A placeholder never gets a bitmap: the keyword test depends on the URL
      alone, so every occurrence of it ends without one. */
  lemma PlaceholderHasNoBitmap(urls: seq<Url>, fetches: seq<FetchResult>, u: Url)
    requires |fetches| == |urls|
    requires u in CollectImages(urls, fetches).placeholder
    ensures u in CollectImages(urls, fetches).table.arrays
    ensures CollectImages(urls, fetches).table.arrays[u] == None
  {
    assert PlaceholderIn(urls, fetches, u);
    assert IsPlaceholderUrl(u);
    var k := LastOccurrenceOf(urls, u);
  }

  /** Every occurrence of a URL met the same network result. */
  ghost predicate ConsistentFetches(urls: seq<Url>, fetches: seq<FetchResult>)
    requires |fetches| == |urls|
  {
    forall i, j :: 0 <= i < |urls| && 0 <= j < |urls| && urls[i] == urls[j] ==> fetches[i] == fetches[j]
  }

  /** When repeated URLs meet the same network result, a broken URL has no bitmap. */
  lemma BrokenHasNoBitmap(urls: seq<Url>, fetches: seq<FetchResult>, u: Url)
    requires |fetches| == |urls|
    requires ConsistentFetches(urls, fetches)
    requires u in CollectImages(urls, fetches).broken
    ensures u in CollectImages(urls, fetches).table.arrays
    ensures CollectImages(urls, fetches).table.arrays[u] == None
  {
    assert BrokenIn(urls, fetches, u);
    var i :| 0 <= i < |urls| && urls[i] == u && GetImageArray(u, fetches[i]).Broken?;
    var k := LastOccurrenceOf(urls, u);
    assert fetches[k] == fetches[i];
  }

  /** Without that consistency the flags and the table can disagree: a URL
      listed twice whose first fetch fails and whose second succeeds is
      reported broken and still takes part in duplicate detection. */
  lemma RefetchCanFlagAndKeep()
    ensures var p := CollectImages(["a", "a"], [RequestFailed, Decoded(Black)]);
      && "a" in p.broken
      && "a" in p.table.arrays && p.table.arrays["a"] == Some(Black)
  {
    var urls := ["a", "a"];
    var fetches := [RequestFailed, Decoded(Black)];
    assert Lower("a") == "a";
    forall i | 0 <= i < |PlaceholderKeywords|
      ensures !Contains("a", PlaceholderKeywords[i])
    {
      NotContainsLonger("a", PlaceholderKeywords[i]);
    }
    var p := CollectImages(urls, fetches);
    assert GetImageArray("a", fetches[0]).Broken?;
    assert BrokenIn(urls, fetches, "a");
    assert LastOccurrence(urls, 1);
  }
}
