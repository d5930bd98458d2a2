/**
 * The per-thumbnail part of `get_images`: each clicked thumbnail yields a
 * list of candidate URLs (its filtered preview sources, or its grid source as
 * a fallback), and each new candidate is appended to the running list until
 * that list holds `numberOfImages` URLs.
 */
module Collection {
  import opened Strings
  import opened ImageFilter
  import opened Thumbnails

  /**
   * What one thumbnail contributes. The preview sources are filtered with
   * exclusion OFF: the script calls `get_image_src(wd)` without passing the
   * stock-photo flag, and the grid-source fallback is not filtered at all.
   */
  function Candidates(t: Thumbnail): seq<string>
  {
    if !t.clickSucceeded then []
    else
      var main := ValidSources(t.previews, false);
      if main != [] then main
      else if StartsWith(t.gridSrc, "data") then []
      else [t.gridSrc]
  }

  /** The candidate lists of the first `k` thumbnails, concatenated in thumbnail order. */
  function CandidatesUpTo(ts: seq<Thumbnail>, k: nat): seq<string>
    requires k <= |ts|
  {
    if k == 0 then [] else CandidatesUpTo(ts, k - 1) + Candidates(ts[k - 1])
  }

  /** No sequence element occurs twice. */
  predicate NoDuplicates<T(==)>(s: seq<T>) {
    forall i, j :: 0 <= i < j < |s| ==> s[i] != s[j]
  }

  function Max(a: int, b: int): int {
    if a < b then b else a
  }

  /** The first occurrence of every element of `s`, in first-seen order. */
  function Dedup(s: seq<string>): seq<string>
  {
    if s == [] then []
    else if s[|s| - 1] in s[..|s| - 1] then Dedup(s[..|s| - 1])
    else Dedup(s[..|s| - 1]) + [s[|s| - 1]]
  }

  /** The three cases of a thumbnail's contribution. */
  lemma CandidatesCases(t: Thumbnail)
    ensures Candidates(t) == [] <==>
            !t.clickSucceeded ||
            ((forall i :: 0 <= i < |t.previews| ==> !IsImageValid(t.previews[i], false)) && StartsWith(t.gridSrc, "data"))
    ensures forall x :: x in Candidates(t) ==>
              (x in t.previews && StartsWith(x, "http")) ||
              (x == t.gridSrc && !StartsWith(x, "data") &&
               forall i :: 0 <= i < |t.previews| ==> !IsImageValid(t.previews[i], false))
    ensures t.clickSucceeded && (exists i :: 0 <= i < |t.previews| && IsImageValid(t.previews[i], false)) ==>
              Candidates(t) == ValidSources(t.previews, false) && IsSubsequence(Candidates(t), t.previews)
    ensures t.clickSucceeded && !StartsWith(t.gridSrc, "data") &&
              (forall i :: 0 <= i < |t.previews| ==> !IsImageValid(t.previews[i], false)) ==>
              Candidates(t) == [t.gridSrc]
  {
    ValidSourcesMembers(t.previews, false);
    ValidSourcesInOrder(t.previews, false);
    var main := ValidSources(t.previews, false);
    if main != [] {
      assert main[0] in main;
    } else {
      assert forall i :: 0 <= i < |t.previews| ==> t.previews[i] !in main;
    }
  }

  /** The accumulation ignores the stock-photo flag: a stock preview is kept. */
  lemma StockPreviewKept(url: string, gridSrc: string)
    requires StartsWith(url, BlockedPrefixes[2])
    ensures !IsImageValid(url, true)
    ensures Candidates(Thumbnail(true, [url], gridSrc)) == [url]
  {
    StockHostRejected(url, 2);
    assert [url][..0] == [];
    assert ValidSources([url], false) == [url];
  }

  lemma {:induction false} DedupMembers(s: seq<string>)
    ensures forall x :: x in Dedup(s) <==> x in s
  {
    if s != [] {
      DedupMembers(s[..|s| - 1]);
      assert s == s[..|s| - 1] + [s[|s| - 1]];
    }
  }

  lemma {:induction false} DedupNoDuplicates(s: seq<string>)
    ensures NoDuplicates(Dedup(s))
  {
    if s != [] {
      DedupNoDuplicates(s[..|s| - 1]);
      DedupMembers(s[..|s| - 1]);
    }
  }

  /** Each element of `Dedup(s)` first occurs in `s` before any occurrence of a later one. */
  lemma {:induction false} DedupFirstSeenOrder(s: seq<string>)
    ensures forall i, j, q :: 0 <= i < j < |Dedup(s)| && 0 <= q < |s| && s[q] == Dedup(s)[j] ==>
              Dedup(s)[i] in s[..q]
  {
    if s != [] {
      var init, x := s[..|s| - 1], s[|s| - 1];
      var r := Dedup(init);
      DedupFirstSeenOrder(init);
      DedupMembers(init);
      forall i, j, q | 0 <= i < j < |Dedup(s)| && 0 <= q < |s| && s[q] == Dedup(s)[j]
        ensures Dedup(s)[i] in s[..q]
      {
        if q < |init| {
          assert s[q] == init[q];
          if j < |r| {
            assert Dedup(s)[j] == r[j] && Dedup(s)[i] == r[i];
            assert init[..q] == s[..q];
          } else {
            // j would be the appended x, which does not occur in init
            assert false;
          }
        } else if j < |r| {
          assert x == r[j] && x in init;
          var q' :| 0 <= q' < |init| && init[q'] == x;
          assert r[i] in init[..q'];
          assert init[..q'] <= s[..q];
          assert Dedup(s)[i] == r[i];
        } else {
          assert Dedup(s)[i] == r[i] && r[i] in init;
          assert s[..q] == init;
        }
      }
    }
  }

  lemma DedupSnoc(s: seq<string>, x: string)
    ensures Dedup(s + [x]) == if x in s then Dedup(s) else Dedup(s) + [x]
  {
    assert (s + [x])[..|s|] == s;
  }

  lemma {:induction false} CandidatesUpToMembers(ts: seq<Thumbnail>, k: nat)
    requires k <= |ts|
    ensures forall x :: x in CandidatesUpTo(ts, k) <==> exists i :: 0 <= i < k && x in Candidates(ts[i])
  {
    if k > 0 {
      CandidatesUpToMembers(ts, k - 1);
    }
  }

  /**
   * Lines between the click and the de-duplication: the filtered preview
   * sources, or failing those the grid source unless it is a data URL.
   */
  method ThumbnailSources(thumbnail: Thumbnail) returns (thumbnailOriSrc: seq<string>)
    requires thumbnail.clickSucceeded
    ensures thumbnailOriSrc == Candidates(thumbnail)
  {
    thumbnailOriSrc := [];
    var found := GetImageSrc(thumbnail.previews, false);
    if found.Success? {
      thumbnailOriSrc := found.value;
    }
    if thumbnailOriSrc == [] {
      var gridSrc := thumbnail.gridSrc;
      if !StartsWith(gridSrc, "data") {
        thumbnailOriSrc := [gridSrc];
      }
    }
    ValidSourcesEmptyIff(thumbnail.previews, false);
  }

  /**
   * The inner `for src in thumbnail_ori_src` loop: append each source not
   * yet present. If `sources` is the de-duplication of everything seen so
   * far, the result is the de-duplication of that followed by `candidates`.
   */
  method AppendNew(sources: seq<string>, candidates: seq<string>, ghost seen: seq<string>)
    returns (result: seq<string>)
    requires sources == Dedup(seen)
    ensures result == Dedup(seen + candidates)
    ensures |result| <= |sources| + |candidates|
  {
    result := sources;
    assert seen + candidates[..0] == seen;
    for j := 0 to |candidates|
      invariant result == Dedup(seen + candidates[..j])
      invariant |result| <= |sources| + j
    {
      var src := candidates[j];
      assert seen + candidates[..j + 1] == (seen + candidates[..j]) + [src];
      DedupSnoc(seen + candidates[..j], src);
      DedupMembers(seen + candidates[..j]);
      if src !in result {
        result := result + [src];
      }
    }
    assert candidates[..|candidates|] == candidates;
  }

  /** Loop body for a clicked thumbnail: its candidate list, then the de-duplicating append. */
  method AddThumbnail(sources: seq<string>, thumbnail: Thumbnail, ghost seen: seq<string>)
    returns (result: seq<string>)
    requires thumbnail.clickSucceeded && sources == Dedup(seen)
    ensures result == Dedup(seen + Candidates(thumbnail))
    ensures |result| <= |sources| + |Candidates(thumbnail)|
  {
    var thumbnailOriSrc := ThumbnailSources(thumbnail);
    result := AppendNew(sources, thumbnailOriSrc, seen);
  }

  /** De-duplicating a longer list only extends the result. */
  lemma {:induction false} DedupPrefix(s: seq<string>, t: seq<string>)
    ensures Dedup(s) <= Dedup(s + t)
  {
    if t == [] {
      assert s + t == s;
    } else {
      var init := t[..|t| - 1];
      DedupPrefix(s, init);
      assert s + t == (s + init) + [t[|t| - 1]];
      DedupSnoc(s + init, t[|t| - 1]);
    }
  }

  lemma {:induction false} CandidatesUpToPrefix(ts: seq<Thumbnail>, k: nat, m: nat)
    requires k <= m <= |ts|
    ensures CandidatesUpTo(ts, k) <= CandidatesUpTo(ts, m)
  {
    if k < m {
      CandidatesUpToPrefix(ts, k, m - 1);
    }
  }

  /** The accumulated list is append-only: after `k` thumbnails it is a prefix of the list after `m >= k`. */
  lemma AccumulatedGrows(ts: seq<Thumbnail>, k: nat, m: nat)
    requires k <= m <= |ts|
    ensures Dedup(CandidatesUpTo(ts, k)) <= Dedup(CandidatesUpTo(ts, m))
  {
    var a, b := CandidatesUpTo(ts, k), CandidatesUpTo(ts, m);
    CandidatesUpToPrefix(ts, k, m);
    var rest := b[|a|..];
    assert a + rest == b;
    DedupPrefix(a, rest);
  }

  /**
   * The `k`-th thumbnail (counting from 1) was clicked and, once its
   * candidates are added, the list holds at least `n` sources.
   */
  ghost predicate Fills(ts: seq<Thumbnail>, k: nat, n: int)
    requires 0 < k <= |ts|
  {
    ts[k - 1].clickSucceeded && |Dedup(CandidatesUpTo(ts, k))| >= n
  }

  /**
   * How many thumbnails the loop of `get_images` processes when the first
   * `i` did not fill the list: up to the first one that does, or all of them.
   */
  ghost function StopAfter(ts: seq<Thumbnail>, n: int, i: nat): nat
    requires i <= |ts|
    decreases |ts| - i
  {
    if i == |ts| then |ts|
    else if Fills(ts, i + 1, n) then i + 1
    else StopAfter(ts, n, i + 1)
  }

  /** The loop stops at the first thumbnail that fills the list, and no earlier one does. */
  lemma {:induction false} StopAfterFirstFill(ts: seq<Thumbnail>, n: int, i: nat)
    requires i <= |ts|
    ensures i <= StopAfter(ts, n, i) <= |ts|
    ensures i < |ts| ==> i < StopAfter(ts, n, i)
    ensures StopAfter(ts, n, i) < |ts| ==> Fills(ts, StopAfter(ts, n, i), n)
    ensures forall k :: i < k < StopAfter(ts, n, i) ==> !Fills(ts, k, n)
    decreases |ts| - i
  {
    if i < |ts| && !Fills(ts, i + 1, n) {
      StopAfterFirstFill(ts, n, i + 1);
    }
  }

  /**
   * The `for thumbnail in thumbnails` loop of `get_images`. `stop` is the
   * number of thumbnails processed: the loop breaks right after the first
   * clicked thumbnail that brings `sources` to `numberOfImages`.
   */
  method AccumulateSources(thumbnails: seq<Thumbnail>, numberOfImages: int)
    returns (sources: seq<string>, ghost stop: nat)
    ensures stop == StopAfter(thumbnails, numberOfImages, 0) <= |thumbnails|
    ensures sources == Dedup(CandidatesUpTo(thumbnails, stop))
    ensures NoDuplicates(sources)
    ensures forall x :: x in sources ==> exists i :: 0 <= i < stop && x in Candidates(thumbnails[i])
    // without a filling thumbnail the loop ends short of the target
    ensures (forall k :: 0 < k <= |thumbnails| ==> !Fills(thumbnails, k, numberOfImages)) ==>
              |sources| < Max(numberOfImages, 1)
    // overshoot is bounded by the last processed thumbnail's candidates
    ensures stop > 0 ==> |sources| < Max(numberOfImages, 1) + |Candidates(thumbnails[stop - 1])|
  {
    sources := [];
    stop := |thumbnails|;
    var i := 0;
    while i < |thumbnails|
      invariant 0 <= i <= |thumbnails|
      invariant stop == |thumbnails|
      invariant sources == Dedup(CandidatesUpTo(thumbnails, i))
      invariant |sources| < Max(numberOfImages, 1)
      invariant StopAfter(thumbnails, numberOfImages, 0) == StopAfter(thumbnails, numberOfImages, i)
    {
      var thumbnail := thumbnails[i];
      ghost var seen := CandidatesUpTo(thumbnails, i);
      assert CandidatesUpTo(thumbnails, i + 1) == seen + Candidates(thumbnail);
      if !thumbnail.clickSucceeded {
        // "main image click failed"
        assert seen + Candidates(thumbnail) == seen;
        i := i + 1;
        continue;
      }
      sources := AddThumbnail(sources, thumbnail, seen);
      if |sources| >= numberOfImages {
        stop := i + 1;
        break;
      }
      i := i + 1;
    }
    SourcesFromCandidates(thumbnails, stop);
  }

  /** The de-duplicated candidates of the first `stop` thumbnails are distinct and come from them. */
  lemma SourcesFromCandidates(thumbnails: seq<Thumbnail>, stop: nat)
    requires stop <= |thumbnails|
    ensures NoDuplicates(Dedup(CandidatesUpTo(thumbnails, stop)))
    ensures forall x :: x in Dedup(CandidatesUpTo(thumbnails, stop)) ==>
              exists i :: 0 <= i < stop && x in Candidates(thumbnails[i])
  {
    var all := CandidatesUpTo(thumbnails, stop);
    DedupNoDuplicates(all);
    DedupMembers(all);
    CandidatesUpToMembers(thumbnails, stop);
  }

  /**
   * `get_images` without its output step. `excludeStock` is accepted and, as
   * in the script, has no effect: the result is the same for both values.
   */
  method GetImages(grid: nat -> seq<Thumbnail>, numberOfImages: int, excludeStock: bool)
    returns (sources: seq<string>, ghost thumbnails: seq<Thumbnail>, ghost stop: nat)
    ensures thumbnails == Collected(grid, numberOfImages, [], 0).0
    ensures thumbnails == [] || exists k :: thumbnails == grid(k)
    ensures stop == StopAfter(thumbnails, numberOfImages, 0) <= |thumbnails|
    ensures sources == Dedup(CandidatesUpTo(thumbnails, stop))
    ensures NoDuplicates(sources)
    ensures forall x :: x in sources ==> exists i :: 0 <= i < |thumbnails| && x in Candidates(thumbnails[i])
    ensures numberOfImages <= 0 ==> sources == []
    // without a filling thumbnail the loop ends short of the target
    ensures (forall k :: 0 < k <= |thumbnails| ==> !Fills(thumbnails, k, numberOfImages)) ==>
              |sources| < Max(numberOfImages, 1)
    ensures stop > 0 ==> |sources| < Max(numberOfImages, 1) + |Candidates(thumbnails[stop - 1])|
  {
    var queries: nat;
    var collected: seq<Thumbnail>;
    collected, queries := CollectThumbnails(grid, numberOfImages);
    thumbnails := collected;
    sources, stop := AccumulateSources(collected, numberOfImages);
    StopAfterFirstFill(collected, numberOfImages, 0);
  }
}
