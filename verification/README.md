# Image audit of a web page — a Dafny model

The audit script `afbeeldingen.py` loads a list of pages and renders each one
in a headless browser. It extracts the page's image URLs and then, for every
image occurrence, does two things:

- it fetches the image, classifies it as broken, placeholder or usable, and
  keeps a normalised 256×256 bitmap of each usable one;
- it measures the image's sharpness (the variance of its Laplacian) and its
  resolution.

Images with byte-identical bitmaps are duplicates. A page goes to the
spreadsheet when it has a broken, placeholder or duplicate image, or an image
that is blurry or too small. The report lists each category, or writes
"Geen" ("none") when the category is empty.

This project models that per-page pipeline as pure logic. All I/O is taken
out and becomes an input:

- the `src` attributes of the rendered page;
- one fetch outcome per URL occurrence;
- one quality measurement per URL occurrence.

Modules, in pipeline order:

- `Settings`: the script's constants. These are the 256×256 canvas, the
  four placeholder keywords, the excluded storage domain, the 1200-pixel
  minimum sides, the blur threshold 100 and the sentinel "Geen".
- `Strings`: the meaning of Python's `in`, `startswith`, `lower`, `lstrip`
  and `join`. `Sequences` is an order-preserving filter-and-map with a trace
  back to the positions it came from.
- `Extraction`: the `src` filter and the URL normalisation.
- `Fetching` classifies a fetch as broken, placeholder or bitmap. It then
  builds the insertion-ordered URL→bitmap dictionary and the broken and
  placeholder sets. Each URL occurrence is fetched in turn: the dictionary
  keeps the last outcome and the sets collect every occurrence.
- `Bitmaps` and `Duplicates`: the sum of absolute differences, and the
  pairwise duplicate scan with its `checked` set.
- `Quality`: the per-image labels and the text search the verdict does on them.
- `Page`: the whole page audit and the report record.

Behaviour the model makes explicit:

- Duplicates are recorded under the URL met first. The report lists the
  dictionary's values, so it names every later copy of an image and never the
  first one (afbeeldingen.py:139).
- The broken and placeholder sets collect every occurrence, while the
  dictionary keeps the last outcome. So a URL that appears twice, failing once
  and succeeding once, is reported broken and still takes part in duplicate
  detection (`Fetching.RefetchCanFlagAndKeep`). When repeated URLs meet the
  same result, a broken URL has no bitmap (`Fetching.BrokenHasNoBitmap`).
- The placeholder test comes after the HTTP status check. A placeholder URL
  whose request fails is therefore broken. A placeholder URL whose bytes do not
  decode is still a placeholder.
- The quality measurement does not skip the excluded storage domain: only
  duplicate detection does: `is_blurry` (afbeeldingen.py:40-64) has no
  excluded-domain test.
- A measurement error becomes an error report. Its missing labels read as
  empty strings, so an error never flags a page by itself.

## Model

| member | source | states |
|---|---|---|
| Strings.Contains | afbeeldingen.py:83-85 | Python's `sub in s`, also at lines 100, 120, 125 and 134: the recursive search succeeds exactly when `sub` equals the slice of `s` at some position (`Strings.ContainsIffOccurs`) |
| Strings.ContainsIffOccurs | afbeeldingen.py:83-85 | `sub in s` holds exactly when some slice of `s` equals `sub`, in both directions |
| Strings.StartsWith | afbeeldingen.py:87 | no contract of its own: `url.startswith("http")`, the prefix test; `Extraction.AbsolutizeShape` and `Extraction.ExtractedUrlsAreHttp` state what it decides |
| Strings.LowerChar | afbeeldingen.py:83 | the lower-casing of one character is never an ASCII capital; a capital becomes the small letter at the same alphabet position; any other character is kept |
| Strings.Lower | afbeeldingen.py:83 | `url.lower()`, also at line 100: the result has the input's length, contains no ASCII capital, and keeps every character that is not one |
| Strings.LowerIdempotent | afbeeldingen.py:83 | lower-casing an already lower-cased text changes nothing |
| Strings.Join | afbeeldingen.py:137-139 | `", ".join(...)`: the text starts with the first part; `Strings.JoinContainsParts` states that every part occurs in it |
| Strings.JoinContainsParts | afbeeldingen.py:137-139 | every URL of a category occurs in the joined text |
| Strings.StripLeading | afbeeldingen.py:88 | `lstrip('/')` removes exactly the leading slashes: the result is a suffix of the input, everything removed is a slash, and the result does not start with one |
| Sequences.FilterMapOrigins | afbeeldingen.py:81-89 | a skip-or-append loop is the order-preserving image of the accepted elements: every output traces back to an accepted input at strictly increasing positions, and every accepted input appears |
| Sequences.FilterMapLengthBound | afbeeldingen.py:79-89 | a loop that appends at most one item per accepted element outputs no more items than a weaker filter accepts |
| Extraction.Kept | afbeeldingen.py:79-86 | no contract of its own: the three filters (non-empty, no `.svg` in the lower-cased text, not a CDN asset lacking the page's domain); `Extraction.ExtractOrigins` and `Extraction.ExtractedUrlHasKeptSource` state what it keeps |
| Extraction.Absolutize | afbeeldingen.py:87-88 | no contract of its own: the normalisation of one source; `Extraction.AbsolutizeShape` characterises it |
| Extraction.ExtractImageUrls | afbeeldingen.py:79-89 | no contract beyond what `Sequences.FilterMap` gives (at most one URL per source); `Extraction.ExtractOrigins` characterises it completely |
| Extraction.ExtractOrigins | afbeeldingen.py:79-89 | the extracted URLs are, in source order with repeats, exactly the normalised forms of the sources that are non-empty, not SVG and not a foreign CDN asset |
| Extraction.ExtractedUrlHasKeptSource | afbeeldingen.py:79-89 | every extracted URL is the normalised form of a source that passed the emptiness, `.svg` and CDN tests |
| Extraction.KeptSourceIsExtracted | afbeeldingen.py:79-89 | every source that passes the three tests contributes its normalised URL |
| Extraction.ExtractedUrlsAreHttp | afbeeldingen.py:79-89 | every extracted URL starts with `http`, and there are no more URLs than non-empty sources |
| Extraction.AbsolutizeShape | afbeeldingen.py:87-88 | a source starting with `http` is kept unchanged; any other becomes `https://{domain}/` followed by the source without its leading slashes |
| Extraction.RootedUrlContainsDomain | afbeeldingen.py:87-88 | a relative source becomes a URL that contains the page's domain |
| Extraction.ForeignCdnNeverEmitted | afbeeldingen.py:85-88 | a URL that mentions `cdn` but not the page's domain is never in the output, neither as a source nor as the result of rooting another source |
| Extraction.ExampleSvgLogoDropped | afbeeldingen.py:83-84 | `logo.svg` is dropped on every page |
| Extraction.ExampleRelativeJpegKept | afbeeldingen.py:79-86 | `/a.jpg` passes every filter on every page |
| Extraction.ExampleRelativeJpegRooted | afbeeldingen.py:87-88 | `/a.jpg` becomes `https://{domain}/a.jpg` |
| Extraction.ExampleSvgDroppedRelativeRooted | afbeeldingen.py:79-89 | the sources `/a.jpg`, `logo.svg` give exactly `https://{domain}/a.jpg` |
| Fetching.IsPlaceholderUrl | afbeeldingen.py:100 | no contract of its own: some keyword of the list occurs in the lower-cased URL; `Fetching.GetImageArray` and `Fetching.RefetchCanFlagAndKeep` use it |
| Fetching.GetImageArray | afbeeldingen.py:96-111 | a bitmap exactly when the request succeeded, the bytes decoded and no placeholder keyword is in the lower-cased URL; a placeholder exactly when the request succeeded and a keyword is present; broken exactly when the request failed or the bytes did not decode on a non-placeholder URL |
| Fetching.ImageTable.Put | afbeeldingen.py:114 | dictionary assignment keeps the table well formed, stores the new value, keeps an existing key in its place and appends a new key at the end |
| Fetching.CollectImages | afbeeldingen.py:113-114 | the dictionary has the page's URLs as keys, in first-occurrence order, each holding its last occurrence's outcome; the broken and placeholder sets hold exactly the URLs some occurrence was classified into |
| Fetching.BitmapOnlyForUsableImages | afbeeldingen.py:96-114 | a URL holds a bitmap only if it is no placeholder and one of its fetches decoded to that very bitmap |
| Fetching.PlaceholderHasNoBitmap | afbeeldingen.py:100-114 | a placeholder URL's dictionary entry is `None` |
| Fetching.BrokenHasNoBitmap | afbeeldingen.py:106-114 | when repeated URLs meet the same network result, a broken URL's dictionary entry is `None` |
| Fetching.RefetchCanFlagAndKeep | afbeeldingen.py:113-114 | a URL listed twice that first fails and then decodes is in the broken set and also keeps its bitmap |
| Bitmaps.AbsDiff | afbeeldingen.py:127 | the per-byte difference of `cv2.absdiff` is zero exactly when the two bytes are equal |
| Bitmaps.SumAbsDiff | afbeeldingen.py:127-128 | the summed per-byte difference is at most 255 per byte, so it fits any accumulator wide enough for a canvas |
| Bitmaps.SumAbsDiffZeroIffEqual | afbeeldingen.py:127-128 | the sum of absolute differences is zero if and only if the two bitmaps are equal |
| Duplicates.IsExcluded | afbeeldingen.py:120 | no contract of its own: the URL contains one of the excluded domains, tested for both URLs of a pair (lines 120 and 125); `Duplicates.FindDuplicates` and `Duplicates.DuplicatePairs` show excluded URLs are never paired |
| Duplicates.AddPair | afbeeldingen.py:129 | `duplicates[url1].add(url2)` adds exactly the pair (url1, url2) to the relation and leaves every other key as it was |
| Duplicates.FindDuplicates | afbeeldingen.py:117-130 | the scan relates the key at position p to the key at position q exactly when p < q, both have bitmaps, neither is in an excluded domain, and the bitmaps are equal; no key maps to an empty set |
| Duplicates.ScanRow | afbeeldingen.py:119-130 | one outer iteration compares its URL with every key and records exactly the later identical ones, or nothing when the URL has no bitmap or is excluded |
| Duplicates.SkipStep | afbeeldingen.py:123-126 | skipping a URL paired with itself, the mirror of a recorded pair, or a non-comparable URL loses no duplicate |
| Duplicates.AddStep | afbeeldingen.py:127-130 | recording an identical URL met after the current one extends the relation by exactly that pair |
| Duplicates.RowDone | afbeeldingen.py:119-121 | a finished row, or a URL with no bitmap or in an excluded domain, completes its outer iteration |
| Duplicates.DuplicatePairs | afbeeldingen.py:117-130 | no URL is its own duplicate; a recorded pair is identical and never recorded in the other direction; every pair of distinct identical URLs is recorded in one direction |
| Duplicates.DuplicateValues | afbeeldingen.py:139 | no contract of its own: the union of the duplicates map's values, not its keys; `Duplicates.ReportedDuplicatesAreLaterCopies` characterises it as exactly the later copies |
| Duplicates.ReportedDuplicatesAreLaterCopies | afbeeldingen.py:139 | the listed duplicates are exactly the URLs with an identical comparable URL earlier in the dictionary; the dictionary is empty exactly when that list is |
| Duplicates.ExampleBlackPairWhiteSingle | afbeeldingen.py:117-130 | two black canvases and one white one give exactly `{"a": {"b"}}` |
| Quality.IsBlurry | afbeeldingen.py:40-64 | the report names its URL; a measured image gets metrics with its size and score; any exception raised before the metrics are computed carries its message; undecodable bytes give "Image decoding failed" |
| Quality.SharpnessField | afbeeldingen.py:134 | no contract of its own: `r.get('sharpness', '')`, the label or the empty string for an error report; `Quality.LabelsMatchThresholds` and `Quality.FlaggedIffSubstandard` characterise it |
| Quality.ResolutionField | afbeeldingen.py:134 | no contract of its own: `r.get('resolution_check', '')`, the label or the empty string for an error report; `Quality.LabelsMatchThresholds` and `Quality.FlaggedIffSubstandard` characterise it |
| Quality.Flagged | afbeeldingen.py:134 | no contract of its own: the substring search for "Blurry" or "Too Small" in the labels, an absent label reading as empty; `Quality.FlaggedIffSubstandard` characterises it |
| Quality.LabelsMatchThresholds | afbeeldingen.py:52-61 | the sharpness label contains "Blurry" exactly when the score is below 100; the resolution label contains "Too Small" exactly when a side is below 1200 |
| Quality.FlaggedIffSubstandard | afbeeldingen.py:134 | the verdict's text search on a report is true exactly when the image was measured and is blurry or too small; an error report is never flagged |
| Quality.ExampleBoundaryPasses | afbeeldingen.py:52-53 | a 1200×1200 image with score exactly 100 passes both checks |
| Quality.ExampleOnePixelShortFlagged | afbeeldingen.py:53 | a sharp 4000×1199 image is flagged, as too small and not as blurry |
| Page.Enumerate | afbeeldingen.py:137-139 | iterating a set lists each element exactly once |
| Page.QualityReports | afbeeldingen.py:115-134 | built from the task list of line 115 and the `any(...)` of line 134: one report per URL occurrence, in page order; some report is flagged exactly when some measurement is substandard |
| Page.AnalyzePage | afbeeldingen.py:79-141 | the page is reported exactly when some URL is broken or a placeholder, some image is a later copy of an identical one, or some measurement is substandard; the record then carries the page URL, lists exactly those broken, placeholder and duplicate URLs, and holds one quality report per occurrence |
| Page.FieldText | afbeeldingen.py:137-139 | no contract of its own: the joined URLs or the sentinel; `Page.SentinelIffEmpty` and `Page.CategoryText` characterise it |
| Page.SentinelIffEmpty | afbeeldingen.py:137-139 | a category of extracted URLs reads "Geen" exactly when it is empty, because no URL starting with `http` can be mistaken for the sentinel |
| Page.ListedUrlsAreExtracted | afbeeldingen.py:91-130 | every broken, placeholder or duplicate URL is one of the page's extracted URLs |
| Page.CategoryText | afbeeldingen.py:137-139 | a listing of a set of extracted URLs reads "Geen" exactly when the set is empty |
| Page.RecordTextsSayGeenIffEmpty | afbeeldingen.py:137-139 | in a reported record the broken, placeholder and duplicate fields each read "Geen" exactly when the category is empty |

## Left out

- Rendering the page (Playwright), the `asyncio` semaphore and task scheduling, reading the URL list from the webhook and posting to the spreadsheet webhook are I/O. The model starts from the `src` attributes and ends at the record.
- HTML parsing (BeautifulSoup) is left out. A missing `src` attribute is given to the model as the empty string, which the filter drops as the code's truthiness test does.
- `urlparse` in `main` is left out: the page's domain is an input.
- The top-level `gather` in `main` is left out. Because of it, an exception on one page aborts the whole run, so one page's failure does affect the others.
- There is no error path for a page that fails to render. An exception in `page.goto` is not caught inside the page audit.
- The HTTP requests, image decoding (PIL and OpenCV), the Lanczos resize, grey-scale conversion and the Laplacian are left out. Each fetch is an input (failed, undecodable, or a canvas bitmap), and each measurement is an input (size and score, or an error with its message).
- Exceptions the per-URL fetch does not catch are left out. Examples are a resize of a palette or grey image that breaks the colour conversion, a truncated file that fails after opening, and the decompression-bomb error that `Image.open` raises on an oversized image. The model treats every decode outcome as one of the three listed.
- Quality.IsBlurry: the blur score is the unrounded variance. The `round(…, 2)` of the report is floating-point formatting, and the labels are decided on the unrounded value, as in the code.
- Fetching.BrokenHasNoBitmap: requires every occurrence of a URL to meet the same network result. The script fetches each occurrence separately and the dictionary keeps the last outcome, so without that assumption a broken URL can still hold a bitmap (shown by `Fetching.RefetchCanFlagAndKeep`).
- Strings.Lower: only ASCII letters are lower-cased; Python's full Unicode case mapping is not modelled. The only non-ASCII capitals whose lower case holds an ASCII letter are U+0130, which becomes `i` followed by U+0307 while every `i` of a search string is followed by `m`, and U+212A, which becomes `k`, a letter no search string contains. So every `in` test against `.svg` and the four placeholder keywords comes out as in Python; only the length of the lower-cased text can differ.
- Page.Enumerate: the order in which a set iterates is not modelled. The report's comma-separated lists may list their URLs in any order.
- The printing of the record and the "no problems found" message are left out, as are the spreadsheet's reply and the posting failure message.
- The attribute audit (`attributen.py`) is not part of this model.
