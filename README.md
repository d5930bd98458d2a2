# Search-by-image decision core, modelled in Dafny

`searchByImage.py` is a Selenium script. It runs a reverse image search,
collects result thumbnails, pulls full-size image URLs out of the preview pane
and downloads them. This project models the decisions the script makes about
what the browser and the HTTP client report. The browser and HTTP calls are
replaced by input data:

- **ImageFilter** (`image_filter.dfy`): `is_image_valid`, which needs an
  `"http"` prefix and, with stock-photo exclusion on, rejects five fixed
  prefixes. Also `get_image_src`, which keeps, in order, the preview sources
  that pass the filter and fails with "No source found" when none does. The
  fifth blocked prefix is kept exactly as written, starting with `src="`, so it
  never matches a URL that starts with "http".
- **Thumbnails** (`thumbnails.dfy`): the growth gate of `get_thumbnails` (the
  count must be strictly greater than `want_more_than`). The retry decorator
  around it (6 tries, each one a fresh re-query) is modelled too. So is the
  `while` loop of `get_images` that asks for more thumbnails until there are
  `number_of_images` of them or a request gives up. The page is a function
  `grid: nat -> seq<Thumbnail>`: `grid(k)` is what the k-th re-query finds.
  The loop's result is characterised by the function `Collected`. With
  counts 3, 3, 5, 5, 8 and a target of 8, the loop accepts 3, 5 and 8: each
  stagnant count costs one retry.
- **Collection** (`collection.dfy`): the per-thumbnail `for` loop of
  `get_images`:
  - a thumbnail whose click failed is skipped;
  - otherwise its filtered preview sources are its candidates;
  - when it has none, its grid `src` is the candidate, unless that starts with
    `"data"`;
  - each candidate is appended if it is not already present;
  - the loop breaks once the list holds `number_of_images` URLs.

  The specification is `Dedup` (first occurrences in first-seen order) of the
  concatenated candidates of the thumbnails processed.
- **Download** (`download.dfy`): `download_images`. The media type is the
  content-type header up to its first `;`. The file name is `<id>` plus the
  guessed extension, or `".jpg"` when none is guessed. Only status 200 is
  saved and counted. `requests.get`, `uuid.uuid1` and
  `mimetypes.guess_extension` are the parameters `fetch`, `id` and `guess`.
- **Outcomes**, **Strings**: the `Option`/`Result` types standing in for
  `KeyError`, and `startswith`/`endswith`.

Line 169 calls `get_image_src(wd)` without the stock-photo flag. So the preview
sources of every thumbnail are filtered with exclusion off, whatever
`exclude_stock_photos` says. The grid-source fallback is never filtered at all.
The model does what the code does: `Collection.GetImages` takes the flag and
ignores it, and `Collection.StockPreviewKept` shows a gettyimages URL being
kept. The parameter lists suggest exclusion was meant to apply to the extracted
sources. The model keeps the behaviour of the code.

## Model

| member | source | states |
|---|---|---|
| `ImageFilter.MatchingPrefixes` | searchByImage.py:90 | the filtered list holds only listed prefixes of the URL, and is no longer than the list |
| `ImageFilter.MatchingEmptyIff` | searchByImage.py:90-91 | the filter result is empty exactly when no listed prefix is a prefix of the URL |
| `ImageFilter.Acceptance` | searchByImage.py:72-95 | `IsImageValid` (the model of `is_image_valid`) accepts a URL iff it starts with "http" and, with exclusion on, none of the five blocked prefixes starts it |
| `ImageFilter.ExclusionNarrows` | searchByImage.py:88-93 | anything accepted with exclusion on is accepted with it off |
| `ImageFilter.DataUrlRejected` | searchByImage.py:91-93 | a `data…` URL is rejected with either flag value |
| `ImageFilter.ShutterstockEntryNeverMatches` | searchByImage.py:86 | no URL starting with "http" starts with the `src="https://image.shutterstock.com/` entry |
| `ImageFilter.ShutterstockUrlAccepted` | searchByImage.py:85-91 | a `https://image.shutterstock.com/…` URL is still accepted with exclusion on |
| `ImageFilter.StockHostRejected` | searchByImage.py:85-93 | a URL on one of the four real stock hosts is rejected with exclusion on and accepted with it off |
| `ImageFilter.ValidSourcesMembers` | searchByImage.py:113-118 | a source is kept iff it occurs among the previews and passes the filter |
| `ImageFilter.ValidSourcesInOrder` | searchByImage.py:113-118 | the kept sources are a subsequence of the previews (original order) |
| `ImageFilter.ValidSourcesCounts` | searchByImage.py:113-118 | every passing occurrence is kept: each accepted value appears as often as among the previews, a rejected one never |
| `ImageFilter.ValidSourcesEmptyIff` | searchByImage.py:120-121 | nothing is kept exactly when no preview passes the filter |
| `ImageFilter.GetImageSrc` | searchByImage.py:112-123 | fails with NoSourceFound iff no preview passes, otherwise returns the non-empty list of passing previews in order |
| `Thumbnails.RoundEndCases` | searchByImage.py:48-69 | a round of retries (`RoundEnd`) ends within its tries, just after the first re-query longer than `want_more_than`, or after all tries when none was: every re-query before its end was not longer |
| `Thumbnails.RoundEndWithin` | searchByImage.py:48-69 | a round with tries left makes at least one and at most all of its re-queries |
| `Thumbnails.GetThumbnailsRetried` | searchByImage.py:48-69 | repeats the one-attempt gate `GetThumbnails` (a list is taken only when longer than `want_more_than`, else `NotEnoughThumbnails`) and ends where `RoundEnd` says: at most 6 re-queries, returning the first list longer than `want_more_than`; on failure all 6 were no longer |
| `Thumbnails.CollectedStep` | searchByImage.py:150-157 | one pass of the `while` loop: a round that finds more thumbnails continues from its list, one that does not ends the loop with the old list |
| `Thumbnails.CollectedGrows` | searchByImage.py:150-157 | the loop never loses thumbnails and makes at most 6 re-queries per thumbnail gained plus one final round |
| `Thumbnails.CollectedFromGrid` | searchByImage.py:150-157 | the list the loop ends with is empty or what one of the re-queries it made found |
| `Thumbnails.CollectedEnds` | searchByImage.py:150-157 | the loop ends with at least the target or right after a round of 6 re-queries that found no more |
| `Thumbnails.StagnantCountsRetried` | searchByImage.py:150-157 | with counts 3, 3, 5, 5, 8 and a target of 8 the loop ends with the fifth re-query's list after 5 re-queries |
| `Thumbnails.FirstFailedRoundStops` | searchByImage.py:150-157 | with a first count of 3 and six re-queries finding no more, the loop stops at the first failed round, after 7 re-queries, with the first list |
| `Thumbnails.CollectThumbnails` | searchByImage.py:147-157 | ends with exactly the list and re-query count of `Collected` (one round after another from 0 thumbnails, each wanting more than the last list, until the target or the first round that fails); so the list is empty or a re-query's, and it ends with the target or after 6 non-growing re-queries; empty for a target of 0 or less |
| `Collection.CandidatesCases` | searchByImage.py:160-183 | a failed click or no valid preview plus a `data` grid src gives nothing; any candidate is an "http" preview or the non-`data` grid src used only when no preview passes; with a passing preview the candidates are exactly the passing previews in order; with none and a non-`data` grid src they are exactly `[grid_src]`. This specifies `Candidates`, the model of lines 167-183 |
| `Collection.StockPreviewKept` | searchByImage.py:169 | a stock-host preview is rejected by the exclusion filter yet is still a candidate |
| `Collection.ThumbnailSources` | searchByImage.py:167-183 | computes the thumbnail's candidate list (`Candidates`) through `GetImageSrc` and the grid fallback |
| `Collection.DedupMembers` | searchByImage.py:185-188 | de-duplication keeps exactly the elements seen |
| `Collection.DedupNoDuplicates` | searchByImage.py:185-188 | the de-duplicated list has no repeated URL |
| `Collection.DedupFirstSeenOrder` | searchByImage.py:185-188 | every kept URL first occurs before any occurrence of a later kept URL (first-seen order) |
| `Collection.CandidatesUpToMembers` | searchByImage.py:159-185 | a URL is among the candidates of the first k thumbnails iff the candidate list of one of them contains it |
| `Collection.AppendNew` | searchByImage.py:185-188 | appending the not-yet-present candidates to the de-duplication of what was seen gives the de-duplication of seen plus candidates, growing by at most the number of candidates |
| `Collection.AddThumbnail` | searchByImage.py:167-188 | one pass of the loop body for a clicked thumbnail turns the de-duplication of what was seen into the de-duplication of that plus the thumbnail's candidates |
| `Collection.DedupPrefix` | searchByImage.py:185-188 | de-duplicating a longer list only appends: the old result is a prefix of the new one |
| `Collection.CandidatesUpToPrefix` | searchByImage.py:159-183 | the candidates of fewer thumbnails are a prefix of the candidates of more |
| `Collection.AccumulatedGrows` | searchByImage.py:159-188 | the URL list is append-only: after k thumbnails it is a prefix of the list after any later number |
| `Collection.StopAfterFirstFill` | searchByImage.py:159-191 | the loop processes thumbnails up to and including the first clicked one that brings the list to the target, no earlier one does, and it processes all of them when none does |
| `Collection.SourcesFromCandidates` | searchByImage.py:185-188 | the accumulated list is duplicate-free and each URL comes from a processed thumbnail |
| `Collection.AccumulateSources` | searchByImage.py:159-191 | processes exactly `StopAfter` thumbnails (the first that fills the list, or all); the result is the de-duplicated candidates of those, duplicate-free, each from a processed thumbnail; when no thumbnail fills the list it ends below max(target,1), and in any case below max(target,1) plus the last candidate list's size |
| `Collection.GetImages` | searchByImage.py:131-191 | the thumbnails walked are exactly those the collection loop ends with (`Collected`); the URL list is duplicate-free, every URL comes from a candidate of a collected thumbnail, it is empty for a target of 0 or less, it is shorter than max(target,1) when no clicked thumbnail fills it, its length is below max(target,1) plus the last processed thumbnail's candidate count; the contract does not mention the stock flag, as the code does not use it |
| `Download.MediaType` | searchByImage.py:227-228 | the media type is the longest prefix of the header without `;`: it stops at the first `;` or the end |
| `Download.Extension` | searchByImage.py:236 | a non-empty guess is used as the extension; an absent or empty guess gives ".jpg" |
| `Download.SavedNamesCount` | searchByImage.py:231-243 | one file per status-200 response, never more than the URLs |
| `Download.SavedNamesShape` | searchByImage.py:223-236 | every saved name is `FileName` of a status-200 response (its id followed by the extension `Extension` picks for the media type of its header, `ContentTypeOf` reading an absent header as empty), and ends in that extension |
| `Download.SavedNamesComplete` | searchByImage.py:223-243 | every status-200 response's name `FileName` (id plus extension) is among the saved names |
| `Download.DownloadImages` | searchByImage.py:220-246 | the names written are `SavedNames`, and `downloaded_count` equals the number of status-200 responses and the number of files |

## Left out

- Selenium interaction is not modelled: opening pages, `find_element(s)_by_css_selector`, `send_keys`, `click`, `scroll_to_end`, the CSS selector constants, `search_by_image`. It is browser I/O and becomes the `grid` and `Thumbnail` inputs. The JavaScript click on "load more" (line 63-64) is omitted, including the exception it raises when the button is absent.
- The retry decorator's delays (0.1 s, doubling) are not modelled; they are wall-clock behaviour. Only its bound of 6 attempts is modelled, for `get_thumbnails`.
- `Collection.ThumbnailSources`: the 6 retries of `get_image_src` and of `retry_click` are collapsed into one observation. The `Thumbnail` record carries the click outcome after its retries and the preview sources as seen. A page that changes between attempts is not modelled.
- `get_attribute("src")` returning `None` is not modelled (every `src` is a string). The `AttributeError` this would raise is left out.
- `isURLValid` / `validators.url` is not modelled: it is a foreign library call.
- `main`, `argparse`, the Chrome context manager and logging are not modelled.
- Writing the URL list to a file or to standard output (lines 195-202) is not modelled: it is I/O.
- `Download.DownloadImages`: `fetch` is a deterministic function of the URL, and a request that raises is not modelled.
- `Download.DownloadImages`: streaming the body to disk and the `downloads/` directory join are not modelled. Saved names are bare file names.
- `uuid.uuid1` and the `mimetypes` table are abstract parameters (`id`, `guess`); their values are not modelled.
