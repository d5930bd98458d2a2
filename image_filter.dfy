/**
 * The image-URL acceptance filter (`is_image_valid`) and the extraction of
 * enlarged-preview sources (`get_image_src`).
 */
module ImageFilter {
  import opened Outcomes
  import opened Strings

  /**
   * Stock-photo prefixes rejected when exclusion is on. The last entry is kept
   * exactly as the script writes it, with a leading `src="`, so that no URL
   * starting with "http" can ever match it.
   */
  const BlockedPrefixes: seq<string> := [
    "https://encrypted-tbn0.gstatic.com/",
    "https://c8.alamy.com/",
    "https://media.gettyimages.com/",
    "https://thumbs.dreamstime.com/",
    "src=\"https://image.shutterstock.com/"
  ]

  /** `list(filter(url.startswith, prefixes))`: the prefixes of `url`, in list order. */
  function MatchingPrefixes(url: string, prefixes: seq<string>): (r: seq<string>)
    ensures |r| <= |prefixes|
    ensures forall p :: p in r ==> p in prefixes && StartsWith(url, p)
  {
    if prefixes == [] then []
    else (if StartsWith(url, prefixes[0]) then [prefixes[0]] else []) + MatchingPrefixes(url, prefixes[1..])
  }

  /** `is_image_valid(url, exclude_stock_photos)`. */
  predicate IsImageValid(url: string, excludeStock: bool) {
    if excludeStock then MatchingPrefixes(url, BlockedPrefixes) == [] && StartsWith(url, "http")
    else StartsWith(url, "http")
  }

  /** The filter finds nothing exactly when no listed prefix is a prefix of `url`. */
  lemma {:induction false} MatchingEmptyIff(url: string, prefixes: seq<string>)
    ensures MatchingPrefixes(url, prefixes) == [] <==>
            forall i :: 0 <= i < |prefixes| ==> !StartsWith(url, prefixes[i])
  {
    if prefixes != [] {
      MatchingEmptyIff(url, prefixes[1..]);
      assert forall i :: 1 <= i < |prefixes| ==> prefixes[i] == prefixes[1..][i - 1];
    }
  }

  /** Acceptance in plain terms: an "http" prefix, and with exclusion on no blocked prefix. */
  lemma Acceptance(url: string, excludeStock: bool)
    ensures IsImageValid(url, excludeStock) <==>
            StartsWith(url, "http") &&
            (excludeStock ==> forall i :: 0 <= i < |BlockedPrefixes| ==> !StartsWith(url, BlockedPrefixes[i]))
  {
    MatchingEmptyIff(url, BlockedPrefixes);
  }

  /** Turning exclusion on only narrows acceptance. */
  lemma ExclusionNarrows(url: string)
    ensures IsImageValid(url, true) ==> IsImageValid(url, false)
  {
  }

  /** An embedded `data:` URL is never accepted, whatever the exclusion flag. */
  lemma DataUrlRejected(url: string, excludeStock: bool)
    requires StartsWith(url, "data")
    ensures !IsImageValid(url, excludeStock)
  {
    assert url[0] == "data"[0];
  }

  /** The `src="` entry of the block list can never match a URL that passes the "http" test. */
  lemma ShutterstockEntryNeverMatches(url: string)
    requires StartsWith(url, "http")
    ensures !StartsWith(url, BlockedPrefixes[4])
  {
    assert url[0] == 'h';
    assert BlockedPrefixes[4][0] == 's';
  }

  /** So a real shutterstock URL is still accepted with exclusion on. */
  lemma ShutterstockUrlAccepted(url: string)
    requires StartsWith(url, "https://image.shutterstock.com/")
    ensures IsImageValid(url, true)
  {
    var host := "https://image.shutterstock.com/";
    assert url[..4] == host[..4];
    assert url[8] == host[8] == 'i';
    forall i | 0 <= i < 4
      ensures !StartsWith(url, BlockedPrefixes[i])
    {
      assert BlockedPrefixes[i][8] != 'i';
    }
    ShutterstockEntryNeverMatches(url);
    Acceptance(url, true);
  }

  /** A URL on one of the four real stock hosts is accepted only with exclusion off. */
  lemma StockHostRejected(url: string, i: nat)
    requires i < 4 && StartsWith(url, BlockedPrefixes[i])
    ensures !IsImageValid(url, true) && IsImageValid(url, false)
  {
    assert url[..4] == BlockedPrefixes[i][..4] == "http";
    Acceptance(url, true);
  }

  /** The sources of `srcs` that pass the filter, in their original order. */
  function ValidSources(srcs: seq<string>, excludeStock: bool): seq<string>
  {
    if srcs == [] then []
    else
      var rest := ValidSources(srcs[..|srcs| - 1], excludeStock);
      if IsImageValid(srcs[|srcs| - 1], excludeStock) then rest + [srcs[|srcs| - 1]] else rest
  }

  /** `a` is `b` with some elements deleted (greedy match from the end). */
  predicate IsSubsequence(a: seq<string>, b: seq<string>)
  {
    if a == [] then true
    else if b == [] then false
    else if a[|a| - 1] == b[|b| - 1] then IsSubsequence(a[..|a| - 1], b[..|b| - 1])
    else IsSubsequence(a, b[..|b| - 1])
  }

  /** Exactly the accepted sources are kept. */
  lemma {:induction false} ValidSourcesMembers(srcs: seq<string>, excludeStock: bool)
    ensures forall x :: x in ValidSources(srcs, excludeStock) <==> x in srcs && IsImageValid(x, excludeStock)
  {
    if srcs != [] {
      var init := srcs[..|srcs| - 1];
      ValidSourcesMembers(init, excludeStock);
      assert srcs == init + [srcs[|srcs| - 1]];
    }
  }

  /** Every accepted occurrence is kept: the multiplicities of `srcs`, restricted to accepted values. */
  lemma {:induction false} ValidSourcesCounts(srcs: seq<string>, excludeStock: bool)
    ensures forall x :: multiset(ValidSources(srcs, excludeStock))[x] ==
              if IsImageValid(x, excludeStock) then multiset(srcs)[x] else 0
  {
    if srcs != [] {
      var init := srcs[..|srcs| - 1];
      ValidSourcesCounts(init, excludeStock);
      assert srcs == init + [srcs[|srcs| - 1]];
    }
  }

  /** Nothing is kept exactly when no source passes the filter. */
  lemma ValidSourcesEmptyIff(srcs: seq<string>, excludeStock: bool)
    ensures ValidSources(srcs, excludeStock) == [] <==>
            forall i :: 0 <= i < |srcs| ==> !IsImageValid(srcs[i], excludeStock)
  {
    ValidSourcesMembers(srcs, excludeStock);
    var r := ValidSources(srcs, excludeStock);
    if r != [] {
      assert r[0] in r;
    }
  }

  /** The kept sources appear in the same relative order as in `srcs`. */
  lemma {:induction false} ValidSourcesInOrder(srcs: seq<string>, excludeStock: bool)
    ensures IsSubsequence(ValidSources(srcs, excludeStock), srcs)
  {
    if srcs != [] {
      var init := srcs[..|srcs| - 1];
      var last := srcs[|srcs| - 1];
      var rest := ValidSources(init, excludeStock);
      ValidSourcesInOrder(init, excludeStock);
      if !IsImageValid(last, excludeStock) && rest != [] {
        ValidSourcesMembers(init, excludeStock);
        assert rest[|rest| - 1] in rest;
      }
    }
  }

  /**
   * `get_image_src`: keeps, in order, the preview sources that pass the
   * filter, and fails with "No source found" when none does.
   */
  method GetImageSrc(previews: seq<string>, excludeStock: bool) returns (r: Result<seq<string>>)
    ensures r.Failure? <==> forall i :: 0 <= i < |previews| ==> !IsImageValid(previews[i], excludeStock)
    ensures r.Failure? ==> r.error == NoSourceFound
    ensures r.Success? ==> r.value == ValidSources(previews, excludeStock) && r.value != []
  {
    var sources: seq<string> := [];
    for i := 0 to |previews|
      invariant sources == ValidSources(previews[..i], excludeStock)
    {
      assert previews[..i + 1][..i] == previews[..i];
      var src := previews[i];
      if IsImageValid(src, excludeStock) {
        sources := sources + [src];
      }
    }
    assert previews[..|previews|] == previews;
    ValidSourcesEmptyIff(previews, excludeStock);
    if |sources| == 0 {
      return Failure(NoSourceFound);
    }
    return Success(sources);
  }
}
