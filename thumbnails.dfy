/**
 * Thumbnail collection: the growth gate of `get_thumbnails`, the retry
 * decorator wrapped around it, and the `while` loop of `get_images` that
 * keeps asking for more thumbnails.
 *
 * The results grid is observed through `grid`: `grid(k)` is the list of
 * thumbnails that the k-th re-query of the page finds (numbered from 0 over
 * the whole run), so its length is the re-queried count.
 */
module Thumbnails {
  import opened Outcomes

  /**
   * One thumbnail of the results grid: whether clicking it (with its own
   * retries) succeeded, the `src` values of the enlarged-preview elements
   * shown after the click, and the thumbnail's own `src` in the grid.
   */
  datatype Thumbnail = Thumbnail(clickSucceeded: bool, previews: seq<string>, gridSrc: string)

  /** `tries=6` of the retry decorator. */
  const Tries: nat := 6

  /** One attempt of `get_thumbnails`: succeed only when the count grew past `wantMoreThan`. */
  function GetThumbnails(batch: seq<Thumbnail>, wantMoreThan: nat): Result<seq<Thumbnail>>
  {
    if |batch| <= wantMoreThan then Failure(NotEnoughThumbnails) else Success(batch)
  }

  /**
   * Where a round of retries that began at some earlier re-query ends, when
   * re-query `k` is next and `left` tries remain: one past the first re-query
   * longer than `want`, or one past the last try.
   */
  ghost function RoundEnd(grid: nat -> seq<Thumbnail>, k: nat, want: nat, left: nat): nat
    decreases left
  {
    if left == 0 then k
    else if |grid(k)| > want then k + 1
    else RoundEnd(grid, k + 1, want, left - 1)
  }

  /** A round with tries left uses at least one re-query and at most all of them. */
  lemma {:induction false} RoundEndWithin(grid: nat -> seq<Thumbnail>, k: nat, want: nat, left: nat)
    requires 0 < left
    ensures k < RoundEnd(grid, k, want, left) <= k + left
    decreases left
  {
    if left > 1 && |grid(k)| <= want {
      RoundEndWithin(grid, k + 1, want, left - 1);
    }
  }

  /** A round ends within its tries, either just after the first growing re-query or after all tries failed. */
  lemma {:induction false} RoundEndCases(grid: nat -> seq<Thumbnail>, k: nat, want: nat, left: nat)
    ensures k <= RoundEnd(grid, k, want, left) <= k + left
    ensures 0 < left ==> k < RoundEnd(grid, k, want, left)
    ensures forall j :: k <= j < RoundEnd(grid, k, want, left) - 1 ==> |grid(j)| <= want
    ensures RoundEnd(grid, k, want, left) < k + left ==> |grid(RoundEnd(grid, k, want, left) - 1)| > want
    ensures 0 < left && |grid(RoundEnd(grid, k, want, left) - 1)| <= want ==> RoundEnd(grid, k, want, left) == k + left
    decreases left
  {
    if left > 0 && |grid(k)| <= want {
      RoundEndCases(grid, k + 1, want, left - 1);
    }
  }

  /**
   * `get_thumbnails` under the retry decorator: re-queries `grid` from index
   * `start` on, at most `Tries` times, and returns the first list longer than
   * `wantMoreThan`; `next` is the index of the first re-query not used.
   */
  method GetThumbnailsRetried(grid: nat -> seq<Thumbnail>, start: nat, wantMoreThan: nat)
    returns (r: Result<seq<Thumbnail>>, next: nat)
    ensures next == RoundEnd(grid, start, wantMoreThan, Tries)
    ensures start < next <= start + Tries
    ensures forall k :: start <= k < next - 1 ==> |grid(k)| <= wantMoreThan
    ensures r.Success? ==> r.value == grid(next - 1) && |r.value| > wantMoreThan
    ensures r.Failure? ==>
              r.error == NotEnoughThumbnails && next == start + Tries && |grid(next - 1)| <= wantMoreThan
  {
    var triesLeft := Tries;
    next := start;
    r := Failure(NotEnoughThumbnails);
    while triesLeft > 0 && (next == start || r.Failure?)
      invariant next + triesLeft == start + Tries
      invariant next == start ==> r.Failure?
      invariant forall k :: start <= k < next - 1 ==> |grid(k)| <= wantMoreThan
      invariant next > start ==> r == GetThumbnails(grid(next - 1), wantMoreThan)
      invariant r.Failure? ==> RoundEnd(grid, start, wantMoreThan, Tries) == RoundEnd(grid, next, wantMoreThan, triesLeft)
      invariant r.Success? ==> RoundEnd(grid, start, wantMoreThan, Tries) == next
    {
      r := GetThumbnails(grid(next), wantMoreThan);
      next := next + 1;
      triesLeft := triesLeft - 1;
    }
  }

  /**
   * What the collection loop of `get_images` ends with, as the pair of the
   * thumbnail list and the number of re-queries made, when it holds
   * `thumbnails` after `queries` re-queries: it stops once there are `n`
   * thumbnails, or after the first round of retries that finds no more.
   */
  ghost function Collected(grid: nat -> seq<Thumbnail>, n: int, thumbnails: seq<Thumbnail>, queries: nat)
    : (seq<Thumbnail>, nat)
    decreases n - |thumbnails|
  {
    if |thumbnails| >= n then (thumbnails, queries)
    else
      var next := RoundEnd(grid, queries, |thumbnails|, Tries);
      if |grid(next - 1)| > |thumbnails| then Collected(grid, n, grid(next - 1), next)
      else (thumbnails, next)
  }

  /** One step of `Collected`: a round from `queries` that grows continues from its list, one that does not ends. */
  lemma CollectedStep(grid: nat -> seq<Thumbnail>, n: int, thumbnails: seq<Thumbnail>, queries: nat, next: nat)
    requires |thumbnails| < n && next == RoundEnd(grid, queries, |thumbnails|, Tries)
    ensures |grid(next - 1)| > |thumbnails| ==>
              Collected(grid, n, thumbnails, queries) == Collected(grid, n, grid(next - 1), next)
    ensures |grid(next - 1)| <= |thumbnails| ==> Collected(grid, n, thumbnails, queries) == (thumbnails, next)
  {
  }

  /**
   * The loop never loses thumbnails, makes at least as many re-queries as
   * before, and, since every accepted round grows the list, at most `Tries`
   * re-queries per thumbnail gained plus one final round.
   */
  lemma {:induction false} CollectedGrows(grid: nat -> seq<Thumbnail>, n: int, thumbnails: seq<Thumbnail>, queries: nat)
    ensures var (t, q) := Collected(grid, n, thumbnails, queries);
            queries <= q <= queries + Tries * (|t| - |thumbnails| + 1) && |thumbnails| <= |t|
    decreases n - |thumbnails|
  {
    if |thumbnails| < n {
      var next := RoundEnd(grid, queries, |thumbnails|, Tries);
      RoundEndWithin(grid, queries, |thumbnails|, Tries);
      CollectedStep(grid, n, thumbnails, queries, next);
      if |grid(next - 1)| > |thumbnails| {
        CollectedGrows(grid, n, grid(next - 1), next);
      }
    }
  }

  /** The list the loop ends with is empty or what one of the re-queries made found. */
  lemma {:induction false} CollectedFromGrid(grid: nat -> seq<Thumbnail>, n: int, thumbnails: seq<Thumbnail>, queries: nat)
    requires thumbnails == [] || exists k :: 0 <= k < queries && thumbnails == grid(k)
    ensures var (t, q) := Collected(grid, n, thumbnails, queries);
            t == [] || exists k :: 0 <= k < q && t == grid(k)
    decreases n - |thumbnails|
  {
    if |thumbnails| < n {
      var next := RoundEnd(grid, queries, |thumbnails|, Tries);
      RoundEndWithin(grid, queries, |thumbnails|, Tries);
      CollectedStep(grid, n, thumbnails, queries, next);
      if |grid(next - 1)| > |thumbnails| {
        CollectedFromGrid(grid, n, grid(next - 1), next);
      } else if thumbnails != [] {
        var k :| 0 <= k < queries && thumbnails == grid(k);
        assert k < next;
      }
    }
  }

  /** The loop ends with `n` thumbnails, or after a round of `Tries` re-queries that found no more. */
  lemma {:induction false} CollectedEnds(grid: nat -> seq<Thumbnail>, n: int, thumbnails: seq<Thumbnail>, queries: nat)
    ensures var (t, q) := Collected(grid, n, thumbnails, queries);
            |t| >= n || (q >= Tries && forall k :: q - Tries <= k < q ==> |grid(k)| <= |t|)
    decreases n - |thumbnails|
  {
    if |thumbnails| < n {
      var next := RoundEnd(grid, queries, |thumbnails|, Tries);
      RoundEndCases(grid, queries, |thumbnails|, Tries);
      CollectedStep(grid, n, thumbnails, queries, next);
      if |grid(next - 1)| > |thumbnails| {
        CollectedEnds(grid, n, grid(next - 1), next);
      }
    }
  }

  /** Counts 3, 3, 5, 5, 8 and a target of 8: the loop takes 3, 5 and 8, each stagnant count costing one retry. */
  lemma StagnantCountsRetried(grid: nat -> seq<Thumbnail>)
    requires |grid(0)| == 3 && |grid(1)| == 3 && |grid(2)| == 5 && |grid(3)| == 5 && |grid(4)| == 8
    ensures Collected(grid, 8, [], 0) == (grid(4), 5)
  {
    assert RoundEnd(grid, 0, 0, Tries) == 1;
    assert Collected(grid, 8, [], 0) == Collected(grid, 8, grid(0), 1);
    assert RoundEnd(grid, 1, 3, Tries) == 3;
    assert Collected(grid, 8, grid(0), 1) == Collected(grid, 8, grid(2), 3);
    assert RoundEnd(grid, 3, 5, Tries) == 5;
    assert Collected(grid, 8, grid(2), 3) == Collected(grid, 8, grid(4), 5);
  }

  /** A first list of 3 followed by six re-queries that find no more: the loop stops after 7 re-queries with the first list. */
  lemma FirstFailedRoundStops(grid: nat -> seq<Thumbnail>)
    requires |grid(0)| == 3
    requires forall k :: 1 <= k <= 6 ==> |grid(k)| <= 3
    ensures Collected(grid, 8, [], 0) == (grid(0), 7)
  {
    assert RoundEnd(grid, 0, 0, Tries) == 1;
    RoundEndCases(grid, 1, 3, Tries);
  }

  /**
   * The collection loop of `get_images`: while fewer than `numberOfImages`
   * thumbnails are known, ask for strictly more; stop on the first request
   * whose retries are exhausted. `queries` is the number of re-queries made.
   */
  method CollectThumbnails(grid: nat -> seq<Thumbnail>, numberOfImages: int)
    returns (thumbnails: seq<Thumbnail>, queries: nat)
    // exactly the list and the number of re-queries the loop ends with
    ensures (thumbnails, queries) == Collected(grid, numberOfImages, [], 0)
    ensures thumbnails == [] || exists k :: 0 <= k < queries && thumbnails == grid(k)
    // it ends with enough thumbnails or after Tries re-queries without growth
    ensures |thumbnails| >= numberOfImages ||
            (queries >= Tries && forall k :: queries - Tries <= k < queries ==> |grid(k)| <= |thumbnails|)
    ensures numberOfImages <= 0 ==> thumbnails == [] && queries == 0
    ensures queries <= Tries * (|thumbnails| + 1)
  {
    thumbnails := [];
    var count: nat := |thumbnails|;
    queries := 0;
    while count < numberOfImages
      invariant count == |thumbnails|
      invariant Collected(grid, numberOfImages, [], 0) == Collected(grid, numberOfImages, thumbnails, queries)
      invariant numberOfImages <= 0 ==> queries == 0
      decreases numberOfImages - count
    {
      var r, next := GetThumbnailsRetried(grid, queries, count);
      CollectedStep(grid, numberOfImages, thumbnails, queries, next);
      if r.Failure? {
        // "Cannot load enough thumbnails": keep what was gathered
        queries := next;
        break;
      }
      thumbnails := r.value;
      queries := next;
      count := |thumbnails|;
    }
    CollectedGrows(grid, numberOfImages, [], 0);
    CollectedFromGrid(grid, numberOfImages, [], 0);
    CollectedEnds(grid, numberOfImages, [], 0);
  }
}
