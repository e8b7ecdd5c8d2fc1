/** Thumbnail records of a G-code file's metadata and the choice of the one
    to display: the largest by pixel count, the first one on a tie. */
module Thumbnails {

  datatype ThumbnailInfo = ThumbnailInfo(relativePath: string, width: nat, height: nat)

  /** A default-constructed thumbnail: no path, no dimensions. */
  const DefaultThumbnail := ThumbnailInfo("", 0, 0)

  function PixelCount(t: ThumbnailInfo): (n: nat)
    ensures n == 0 <==> t.width == 0 || t.height == 0
    ensures t.width > 0 ==> n >= t.height
    ensures t.height > 0 ==> n >= t.width
  {
    t.width * t.height
  }

  /** The index the left-to-right scan over the first `n` thumbnails keeps:
      it starts with the first and moves only on a strictly larger count. */
  function BestIndex(ts: seq<ThumbnailInfo>, n: nat): (b: nat)
    requires 1 <= n <= |ts|
    ensures b < n
  {
    if n == 1 then 0
    else
      var b := BestIndex(ts, n - 1);
      if PixelCount(ts[n - 1]) > PixelCount(ts[b]) then n - 1 else b
  }

  /** get_largest_thumbnail. */
  function LargestThumbnail(ts: seq<ThumbnailInfo>): string
  {
    if |ts| == 0 then "" else
      ts[BestIndex(ts, |ts|)].relativePath
  }

  /** The scan keeps the first thumbnail of maximal pixel count. */
  lemma {:induction false} BestIndexIsFirstMaximum(ts: seq<ThumbnailInfo>, n: nat)
    requires 1 <= n <= |ts|
    ensures var b := BestIndex(ts, n);
      b < n &&
      (forall j :: 0 <= j < n ==> PixelCount(ts[j]) <= PixelCount(ts[b])) &&
      (forall j :: 0 <= j < b ==> PixelCount(ts[j]) < PixelCount(ts[b]))
  {
    if n > 1 {
      BestIndexIsFirstMaximum(ts, n - 1);
    }
  }

  /** No thumbnails give the empty path; otherwise the path is that of the
      first thumbnail whose pixel count no other thumbnail exceeds. */
  lemma LargestThumbnailChoice(ts: seq<ThumbnailInfo>) returns (b: nat)
    ensures |ts| == 0 ==> LargestThumbnail(ts) == ""
    ensures |ts| > 0 ==>
      b < |ts| && LargestThumbnail(ts) == ts[b].relativePath &&
      (forall j :: 0 <= j < |ts| ==> PixelCount(ts[j]) <= PixelCount(ts[b])) &&
      (forall j :: 0 <= j < b ==> PixelCount(ts[j]) < PixelCount(ts[b]))
  {
    b := 0;
    if |ts| > 0 {
      BestIndexIsFirstMaximum(ts, |ts|);
      b := BestIndex(ts, |ts|);
    }
  }

  /** The choice depends only on the pixel counts: when one thumbnail is
      strictly larger than all others, it is chosen wherever it stands. */
  lemma UniqueLargestWins(ts: seq<ThumbnailInfo>, k: nat)
    requires k < |ts|
    requires forall j :: 0 <= j < |ts| && j != k ==> PixelCount(ts[j]) < PixelCount(ts[k])
    ensures LargestThumbnail(ts) == ts[k].relativePath
  {
    var b := LargestThumbnailChoice(ts);
    assert PixelCount(ts[k]) <= PixelCount(ts[b]);
  }

  /** When every thumbnail has the same count (no dimensions at all, for
      one), the first is chosen. */
  lemma EqualCountsPickFirst(ts: seq<ThumbnailInfo>)
    requires |ts| > 0
    requires forall j :: 0 <= j < |ts| ==> PixelCount(ts[j]) == PixelCount(ts[0])
    ensures LargestThumbnail(ts) == ts[0].relativePath
  {
    var b := LargestThumbnailChoice(ts);
  }

  /** A single thumbnail is chosen, and the default thumbnail has no pixels. */
  lemma SingleAndDefault(t: ThumbnailInfo)
    ensures LargestThumbnail([t]) == t.relativePath
    ensures PixelCount(DefaultThumbnail) == 0
  {
  }
}
