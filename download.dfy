/**
 * `download_images`: for each URL, one HTTP response; a response with status
 * 200 is saved under a fresh identifier plus an extension guessed from its
 * media type, and only those are counted.
 *
 * The HTTP client, the identifier generator and the extension table are
 * parameters: `fetch(url)` is the response to `url`, `id(i)` the identifier
 * drawn in the i-th iteration, and `guess(media)` the table's answer.
 */
module Download {
  import opened Outcomes
  import opened Strings

  /** The parts of a response the loop looks at: its status and its content-type header. */
  datatype Response = Response(statusCode: int, contentType: Option<string>)

  /** `h.split(';')[0]`: the header up to its first `;`. */
  function MediaType(header: string): (m: string)
    ensures StartsWith(header, m)
    ensures ';' !in m
    ensures |m| < |header| ==> header[|m|] == ';'
  {
    if header == [] || header[0] == ';' then []
    else [header[0]] + MediaType(header[1..])
  }

  /** `r.headers.get('content-type', '')`. */
  function ContentTypeOf(r: Response): string {
    r.contentType.GetOr("")
  }

  /** `extension or ".jpg"`: an absent or empty guess falls back to ".jpg". */
  function Extension(guessed: Option<string>): (e: string)
    ensures e != []
    ensures guessed.Some? && guessed.value != "" ==> e == guessed.value
    ensures guessed.None? || guessed == Some("") ==> e == ".jpg"
  {
    if guessed.Some? && guessed.value != "" then guessed.value else ".jpg"
  }

  /** The name the i-th response is saved under. */
  function FileName(id: string, r: Response, guess: string -> Option<string>): string {
    id + Extension(guess(MediaType(ContentTypeOf(r))))
  }

  /** Number of responses with status 200. */
  function CountOk(urls: seq<string>, fetch: string -> Response): nat {
    if urls == [] then 0
    else CountOk(urls[..|urls| - 1], fetch) + (if fetch(urls[|urls| - 1]).statusCode == 200 then 1 else 0)
  }

  /** The names of the files written, in download order. */
  function SavedNames(urls: seq<string>, fetch: string -> Response, id: nat -> string,
                      guess: string -> Option<string>): seq<string>
  {
    if urls == [] then []
    else
      var i := |urls| - 1;
      SavedNames(urls[..i], fetch, id, guess) +
      (if fetch(urls[i]).statusCode == 200 then [FileName(id(i), fetch(urls[i]), guess)] else [])
  }

  /** One file per successful response, and the count never exceeds the URL count. */
  lemma {:induction false} SavedNamesCount(urls: seq<string>, fetch: string -> Response, id: nat -> string,
                                           guess: string -> Option<string>)
    ensures |SavedNames(urls, fetch, id, guess)| == CountOk(urls, fetch) <= |urls|
  {
    if urls != [] {
      SavedNamesCount(urls[..|urls| - 1], fetch, id, guess);
    }
  }

  /** Every saved name is the name of a response with status 200, and ends in that response's extension. */
  lemma {:induction false} SavedNamesShape(urls: seq<string>, fetch: string -> Response, id: nat -> string,
                                           guess: string -> Option<string>)
    ensures forall k :: 0 <= k < |SavedNames(urls, fetch, id, guess)| ==>
              exists i :: 0 <= i < |urls| && fetch(urls[i]).statusCode == 200 &&
                SavedNames(urls, fetch, id, guess)[k] == FileName(id(i), fetch(urls[i]), guess) &&
                EndsWith(SavedNames(urls, fetch, id, guess)[k], Extension(guess(MediaType(ContentTypeOf(fetch(urls[i]))))))
  {
    if urls != [] {
      var n := |urls| - 1;
      var init := urls[..n];
      SavedNamesShape(init, fetch, id, guess);
      var names := SavedNames(urls, fetch, id, guess);
      var before := SavedNames(init, fetch, id, guess);
      forall k | 0 <= k < |names|
        ensures exists i :: 0 <= i < |urls| && fetch(urls[i]).statusCode == 200 &&
                  names[k] == FileName(id(i), fetch(urls[i]), guess) &&
                  EndsWith(names[k], Extension(guess(MediaType(ContentTypeOf(fetch(urls[i]))))))
      {
        if k < |before| {
          assert names[k] == before[k];
          var i :| 0 <= i < |init| && fetch(init[i]).statusCode == 200 &&
                   before[k] == FileName(id(i), fetch(init[i]), guess) &&
                   EndsWith(before[k], Extension(guess(MediaType(ContentTypeOf(fetch(init[i]))))));
          assert urls[i] == init[i];
        } else {
          var e := Extension(guess(MediaType(ContentTypeOf(fetch(urls[n])))));
          assert names[k] == id(n) + e;
          assert (id(n) + e)[|id(n) + e| - |e|..] == e;
          assert names[k] == FileName(id(n), fetch(urls[n]), guess) && EndsWith(names[k], e);
        }
      }
      assert forall k :: 0 <= k < |names| ==>
               exists i :: 0 <= i < |urls| && fetch(urls[i]).statusCode == 200 &&
                 names[k] == FileName(id(i), fetch(urls[i]), guess) &&
                 EndsWith(names[k], Extension(guess(MediaType(ContentTypeOf(fetch(urls[i]))))));
    } else {
      assert SavedNames(urls, fetch, id, guess) == [];
    }
  }

  /** Every response with status 200 is saved, under its identifier and guessed extension. */
  lemma {:induction false} SavedNamesComplete(urls: seq<string>, fetch: string -> Response, id: nat -> string,
                                              guess: string -> Option<string>)
    ensures forall i :: 0 <= i < |urls| && fetch(urls[i]).statusCode == 200 ==>
              FileName(id(i), fetch(urls[i]), guess) in SavedNames(urls, fetch, id, guess)
  {
    if urls != [] {
      var n := |urls| - 1;
      var init := urls[..n];
      SavedNamesComplete(init, fetch, id, guess);
      var before := SavedNames(init, fetch, id, guess);
      var names := SavedNames(urls, fetch, id, guess);
      assert before <= names;
      forall i | 0 <= i < |urls| && fetch(urls[i]).statusCode == 200
        ensures FileName(id(i), fetch(urls[i]), guess) in names
      {
        if i < n {
          assert urls[i] == init[i];
          assert FileName(id(i), fetch(urls[i]), guess) in before;
        } else {
          assert names[|names| - 1] == FileName(id(n), fetch(urls[n]), guess);
        }
      }
    }
  }

  /**
   * The download loop: `saved` lists the files written and `downloadedCount`
   * is the logged number of successful downloads.
   */
  method DownloadImages(imageUrls: seq<string>, fetch: string -> Response, id: nat -> string,
                        guess: string -> Option<string>)
    returns (saved: seq<string>, downloadedCount: nat)
    ensures saved == SavedNames(imageUrls, fetch, id, guess)
    ensures downloadedCount == CountOk(imageUrls, fetch) == |saved|
  {
    downloadedCount := 0;
    saved := [];
    for i := 0 to |imageUrls|
      invariant saved == SavedNames(imageUrls[..i], fetch, id, guess)
      invariant downloadedCount == CountOk(imageUrls[..i], fetch)
    {
      assert imageUrls[..i + 1][..i] == imageUrls[..i];
      var filename := id(i);
      var r := fetch(imageUrls[i]);
      var extension := guess(MediaType(ContentTypeOf(r)));
      if r.statusCode == 200 {
        saved := saved + [filename + Extension(extension)];
        downloadedCount := downloadedCount + 1;
      }
    }
    assert imageUrls[..|imageUrls|] == imageUrls;
    SavedNamesCount(imageUrls, fetch, id, guess);
  }
}
