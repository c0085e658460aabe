/** The past-photos gallery: each image gets a grid cell of a five-column
    layout, a caption that cycles through twelve, and a random stacking order. */
module PastPhotos {

  const Captions: seq<string> := [
    "LEGENDARY MOMENTS", "HEROES CODING", "THE ORACLE SPEAKS", "BUILDING OLYMPUS",
    "CODE OF THE GODS", "TITAN'S WORK", "MYTHIC CREATIONS", "VICTORY FEAST",
    "THE ODYSSEY BEGINS", "SPARTAN DISCIPLINE", "ATHENIAN WISDOM", "DELPHI'S VISION"
  ]

  /** Columns of the scatter grid. */
  const Cols := 5

  /** The integer part of one photo's record; the jittered percentages and
      the rotation are not modelled. */
  datatype Photo = Photo(src: string, caption: string, col: int, row: int, zIndex: int)

  /** A draw of `Math.random()`. */
  predicate IsUnitDraw(r: real) { 0.0 <= r < 1.0 }

  /** `Math.floor(r * 50) + 1`. */
  function ZIndexOf(r: real): (z: int)
    requires IsUnitDraw(r)
    ensures 1 <= z <= 50
  {
    (r * 50.0).Floor + 1
  }

  /** The record of image `i`, given the random draw that sets its stacking order. */
  function PhotoAt(src: string, i: nat, draw: real): (p: Photo)
    requires IsUnitDraw(draw)
    ensures 0 <= p.col < Cols && p.row * Cols + p.col == i
    ensures p.caption in Captions
    ensures 1 <= p.zIndex <= 50
  {
    var col := i % Cols;
    var row := i / Cols;
    Photo(src, Captions[i % |Captions|], col, row, ZIndexOf(draw))
  }

  /** `photos`: one record per gallery image, in order. */
  function Photos(images: seq<string>, draws: seq<real>): (ps: seq<Photo>)
    requires |draws| == |images|
    requires forall i :: 0 <= i < |draws| ==> IsUnitDraw(draws[i])
    ensures |ps| == |images|
    ensures forall i :: 0 <= i < |ps| ==>
      ps[i].src == images[i] && 0 <= ps[i].col < Cols && ps[i].row * Cols + ps[i].col == i
      && 1 <= ps[i].zIndex <= 50
  {
    seq(|images|, i requires 0 <= i < |images| => PhotoAt(images[i], i, draws[i]))
  }

  /** Column and row are the quotient and remainder of the index by five:
      no other in-range pair rebuilds it, so no two photos share a cell. */
  lemma CellUnique(images: seq<string>, draws: seq<real>, i: nat, j: nat)
    requires |draws| == |images|
    requires forall k :: 0 <= k < |draws| ==> IsUnitDraw(draws[k])
    requires i < |images| && j < |images|
    requires Photos(images, draws)[i].col == Photos(images, draws)[j].col
    requires Photos(images, draws)[i].row == Photos(images, draws)[j].row
    ensures i == j
  {
  }

  /** Captions repeat with period twelve and photo `i` has caption `i mod 12`. */
  lemma CaptionsCycle(images: seq<string>, draws: seq<real>, i: nat)
    requires |draws| == |images|
    requires forall k :: 0 <= k < |draws| ==> IsUnitDraw(draws[k])
    requires i < |images|
    ensures Photos(images, draws)[i].caption == Captions[i % 12]
    ensures i + 12 < |images| ==>
      Photos(images, draws)[i + 12].caption == Photos(images, draws)[i].caption
  {
    if i + 12 < |images| {
      var q, m := i / 12, i % 12;
      assert i + 12 == (q + 1) * 12 + m;
      assert (i + 12) % 12 == m;
    }
  }
}
