/**
  The image tiler of `combine_by_3.py`: keep the `.png` names of a directory
  listing, refuse fewer than three, cut the list into consecutive batches of
  three (the last one may be short), and stack each batch vertically on a
  canvas as wide as its widest image and as tall as its images together,
  saved as `combined_<k>.png`. An image is its width and height; opening a
  file is the parameter `open`, which gives the dimensions of a named file.
 */
module CombineBy3 {
  import opened Decimal

  datatype Image = Image(width: nat, height: nat)

  /** One `paste` onto the canvas: the image and its top edge (left edge 0). */
  datatype Paste = Paste(image: Image, y: nat)

  /** One saved canvas: its file name, the files stacked on it, its size and
      the pastes, top to bottom. */
  datatype Strip = Strip(name: string, sources: seq<string>, width: nat, height: nat, pastes: seq<Paste>)

  /** What one run produces: nothing but a message, or the canvases in order. */
  datatype Tiling = NotEnoughImages | Saved(strips: seq<Strip>)

  const BatchSize := 3
  const MinImages := 3
  const PngSuffix := ".png"

  /** Python's `str.endswith`. */
  predicate EndsWith(s: string, suffix: string) {
    |suffix| <= |s| && s[|s| - |suffix|..] == suffix
  }

  /** `[f for f in listing if f.endswith('.png')]`. */
  function PngFiles(listing: seq<string>): (r: seq<string>)
    ensures |r| <= |listing|
    ensures forall i :: 0 <= i < |r| ==> EndsWith(r[i], PngSuffix)
  {
    if listing == [] then []
    else (if EndsWith(listing[0], PngSuffix) then [listing[0]] else []) + PngFiles(listing[1..])
  }

  /** Filtering keeps listing order: it distributes over concatenation. */
  lemma {:induction false} PngFilesAppend(a: seq<string>, b: seq<string>)
    ensures PngFiles(a + b) == PngFiles(a) + PngFiles(b)
  {
    if a != [] {
      assert (a + b)[1..] == a[1..] + b;
      PngFilesAppend(a[1..], b);
    } else {
      assert a + b == b;
    }
  }

  /** The selected names are exactly the listing's names that end in `.png`. */
  lemma {:induction false} PngFilesMembers(listing: seq<string>, f: string)
    ensures f in PngFiles(listing) <==> f in listing && EndsWith(f, PngSuffix)
  {
    if listing != [] {
      PngFilesMembers(listing[1..], f);
      assert listing == [listing[0]] + listing[1..];
    }
  }

  function Min(a: int, b: int): int {
    if a <= b then a else b
  }

  /** Number of passes of `range(0, n, 3)`: n / 3 rounded up. */
  function NumBatches(n: nat): (k: nat)
    ensures 3 * k >= n && 3 * k < n + 3
  {
    (n + BatchSize - 1) / BatchSize
  }

  /** Batch `k`: the slice `files[3k:3k+3]`, which Python clips at the end. */
  function Batch<T>(files: seq<T>, k: nat): seq<T>
    requires k < NumBatches(|files|)
  {
    files[BatchSize * k .. Min(BatchSize * k + BatchSize, |files|)]
  }

  /** All the batches, in order. */
  function Batches<T>(files: seq<T>): (bs: seq<seq<T>>)
    ensures |bs| == NumBatches(|files|)
  {
    seq(NumBatches(|files|), k requires 0 <= k < NumBatches(|files|) => Batch(files, k))
  }

  function Concat<T>(ss: seq<seq<T>>): seq<T> {
    if ss == [] then [] else ss[0] + Concat(ss[1..])
  }

  /** Every batch but the last holds three names; the last holds one to three. */
  lemma BatchSizes<T>(files: seq<T>, k: nat)
    requires k < NumBatches(|files|)
    ensures k + 1 < NumBatches(|files|) ==> |Batch(files, k)| == BatchSize
    ensures 1 <= |Batch(files, k)| <= BatchSize
  {
  }

  /** Beyond the first three names, the batches are those of the rest. */
  lemma BatchesShift<T>(files: seq<T>)
    requires |files| > BatchSize
    ensures Batches(files) == [files[..BatchSize]] + Batches(files[BatchSize..])
  {
    var rest := files[BatchSize..];
    assert NumBatches(|files|) == NumBatches(|rest|) + 1;
    forall k | 0 <= k < NumBatches(|rest|)
      ensures Batch(files, k + 1) == Batch(rest, k)
    {
      assert BatchSize * (k + 1) == BatchSize * k + BatchSize;
    }
  }

  /** Concatenating the batches gives back the selected list. */
  lemma {:induction false} BatchesConcat<T>(files: seq<T>)
    ensures Concat(Batches(files)) == files
    decreases |files|
  {
    if |files| == 0 {
      assert Batches(files) == [];
    } else if |files| <= BatchSize {
      assert NumBatches(|files|) == 1;
      assert Batch(files, 0) == files;
      assert Batches(files) == [files];
      assert Concat(Batches(files)) == files + Concat([]);
    } else {
      BatchesShift(files);
      var bs := Batches(files);
      assert bs[1..] == Batches(files[BatchSize..]);
      BatchesConcat(files[BatchSize..]);
      assert files == files[..BatchSize] + files[BatchSize..];
    }
  }

  /** `[Image.open(f) for f in batch]`, reduced to dimensions. */
  function OpenAll(batch: seq<string>, open: string -> Image): (images: seq<Image>)
    ensures |images| == |batch|
  {
    seq(|batch|, j requires 0 <= j < |batch| => open(batch[j]))
  }

  /** `max(img.width for img in images)`; Python's `max` needs a non-empty batch,
      and every batch is non-empty. */
  function MaxWidth(images: seq<Image>): (w: nat)
    requires |images| > 0
    ensures forall j :: 0 <= j < |images| ==> images[j].width <= w
    ensures exists j :: 0 <= j < |images| && images[j].width == w
  {
    if |images| == 1 then images[0].width
    else
      var rest := MaxWidth(images[1..]);
      assert forall j :: 1 <= j < |images| ==> images[j] == images[1..][j - 1];
      if images[0].width >= rest then images[0].width else rest
  }

  /** `sum(img.height for img in images)`, added up from the left. */
  function TotalHeight(images: seq<Image>): nat {
    if images == [] then 0 else TotalHeight(images[..|images| - 1]) + images[|images| - 1].height
  }

  /** One more image adds its height. */
  lemma TotalHeightAppend(images: seq<Image>, img: Image)
    ensures TotalHeight(images + [img]) == TotalHeight(images) + img.height
  {
    assert (images + [img])[..|images|] == images;
  }

  /** A longer prefix is no shorter: the heights of the first `i` images, then
      that of image `i`, fit within the first `j > i`. */
  lemma {:induction false} TotalHeightPrefix(images: seq<Image>, i: nat, j: nat)
    requires i < j <= |images|
    ensures TotalHeight(images[..i]) + images[i].height <= TotalHeight(images[..j])
    decreases j
  {
    assert images[..i + 1] == images[..i] + [images[i]];
    TotalHeightAppend(images[..i], images[i]);
    if j > i + 1 {
      assert images[..j] == images[..j - 1] + [images[j - 1]];
      TotalHeightAppend(images[..j - 1], images[j - 1]);
      TotalHeightPrefix(images, i, j - 1);
    }
  }

  /** The paste of image `j` of a batch: its top edge is the height of the
      images above it. */
  function PasteAt(images: seq<Image>, j: nat): Paste
    requires j < |images|
  {
    Paste(images[j], TotalHeight(images[..j]))
  }

  /** `f"combined_{k}.png"`. */
  function OutputName(k: nat): (name: string)
    ensures EndsWith(name, PngSuffix)
  {
    "combined_" + NatToString(k) + PngSuffix
  }

  /** The pastes of a batch, top to bottom. */
  function Stack(images: seq<Image>): (ps: seq<Paste>)
    ensures |ps| == |images|
  {
    seq(|images|, j requires 0 <= j < |images| => PasteAt(images, j))
  }

  /** The canvas of a non-empty batch, as wide as its widest image and as tall
      as all of them. */
  function Compose(name: string, batch: seq<string>, images: seq<Image>): Strip
    requires |images| > 0
  {
    Strip(name, batch, MaxWidth(images), TotalHeight(images), Stack(images))
  }

  /** The `k`-th canvas (from 0) of the selected files: batch `k`, numbered `k + 1`. */
  function StripAt(files: seq<string>, open: string -> Image, k: nat): Strip
    requires k < NumBatches(|files|)
  {
    var batch := Batch(files, k);
    BatchSizes(files, k);
    Compose(OutputName(k + 1), batch, OpenAll(batch, open))
  }

  /** A canvas assembled from the slice at `i = 3k` and its pastes is the
      `k`-th canvas. */
  lemma StripAtOf(files: seq<string>, open: string -> Image, k: nat, i: nat, batch: seq<string>,
                  images: seq<Image>, pastes: seq<Paste>)
    requires i == BatchSize * k < |files|
    requires batch == files[i .. Min(i + BatchSize, |files|)]
    requires images == OpenAll(batch, open)
    requires |pastes| == |images| > 0
    requires forall m :: 0 <= m < |pastes| ==> pastes[m] == PasteAt(images, m)
    ensures k < NumBatches(|files|)
    ensures StripAt(files, open, k) == Strip(OutputName(k + 1), batch, MaxWidth(images), TotalHeight(images), pastes)
  {
    assert batch == Batch(files, k);
    assert pastes == Stack(images);
  }

  /** The stacking a canvas must show: the first image at the top, each next
      one right below the one before, the last one ending at the bottom edge,
      every image inside the canvas, and the canvas no wider than needed. */
  ghost predicate WellStacked(st: Strip) {
    && |st.pastes| >= 1
    && st.pastes[0].y == 0
    && (forall j :: 0 <= j < |st.pastes| - 1 ==>
          st.pastes[j + 1].y == st.pastes[j].y + st.pastes[j].image.height)
    && st.pastes[|st.pastes| - 1].y + st.pastes[|st.pastes| - 1].image.height == st.height
    && (forall j :: 0 <= j < |st.pastes| ==>
          st.pastes[j].y + st.pastes[j].image.height <= st.height
          && st.pastes[j].image.width <= st.width)
    && (exists j :: 0 <= j < |st.pastes| && st.pastes[j].image.width == st.width)
  }

  /** Each paste sits right below the one before, starting at the top. */
  lemma StackOffsets(images: seq<Image>)
    requires |images| > 0
    ensures Stack(images)[0].y == 0
    ensures forall j :: 0 <= j < |images| - 1 ==>
      Stack(images)[j + 1].y == Stack(images)[j].y + images[j].height
  {
    var ps := Stack(images);
    assert images[..0] == [];
    forall j | 0 <= j < |images| - 1
      ensures ps[j + 1].y == ps[j].y + images[j].height
    {
      assert images[..j + 1] == images[..j] + [images[j]];
      TotalHeightAppend(images[..j], images[j]);
    }
  }

  /** Every paste lies inside the canvas. */
  lemma StackWithin(images: seq<Image>)
    ensures forall j :: 0 <= j < |images| ==> Stack(images)[j].y + images[j].height <= TotalHeight(images)
  {
    var n := |images|;
    forall j | 0 <= j < n
      ensures Stack(images)[j].y + images[j].height <= TotalHeight(images)
    {
      TotalHeightPrefix(images, j, n);
      assert images[..n] == images;
    }
  }

  /** The last paste ends at the bottom edge: the final `y_offset` is the
      canvas height. */
  lemma StackEnd(images: seq<Image>)
    requires |images| > 0
    ensures Stack(images)[|images| - 1].y + images[|images| - 1].height == TotalHeight(images)
  {
    assert Stack(images)[|images| - 1] == PasteAt(images, |images| - 1);
  }

  /** Every composed canvas is well stacked. */
  lemma ComposeWellStacked(name: string, batch: seq<string>, images: seq<Image>)
    requires |images| > 0
    ensures WellStacked(Compose(name, batch, images))
  {
    var st := Compose(name, batch, images);
    var ps := Stack(images);
    StackOffsets(images);
    StackWithin(images);
    StackEnd(images);
    assert forall j :: 0 <= j < |ps| ==> ps[j].image == images[j];
    var w :| 0 <= w < |images| && images[w].width == MaxWidth(images);
    assert ps[w].image.width == st.width;
  }

  /** The `k`-th canvas holds batch `k`, pastes each of its files' images in
      order, and is well stacked. */
  lemma StripGeometry(files: seq<string>, open: string -> Image, k: nat)
    requires k < NumBatches(|files|)
    ensures StripAt(files, open, k).sources == Batch(files, k)
    ensures |StripAt(files, open, k).pastes| == |Batch(files, k)|
    ensures forall j :: 0 <= j < |Batch(files, k)| ==>
      StripAt(files, open, k).pastes[j].image == open(Batch(files, k)[j])
    ensures WellStacked(StripAt(files, open, k))
  {
    BatchSizes(files, k);
    ComposeWellStacked(OutputName(k + 1), Batch(files, k), OpenAll(Batch(files, k), open));
  }

  /** Different batch numbers give different file names. */
  lemma OutputNamesDistinct(k1: nat, k2: nat)
    requires k1 != k2
    ensures OutputName(k1) != OutputName(k2)
  {
    var a, b := OutputName(k1), OutputName(k2);
    if a == b {
      assert a[9..|a| - 4] == NatToString(k1);
      assert b[9..|b| - 4] == NatToString(k2);
      NatToStringInjective(k1, k2);
    }
  }

  /** The canvases of one run have pairwise different names, numbered 1 to
      the number of batches. */
  lemma StripNamesDistinct(files: seq<string>, open: string -> Image, k1: nat, k2: nat)
    requires k1 < NumBatches(|files|) && k2 < NumBatches(|files|) && k1 != k2
    ensures StripAt(files, open, k1).name != StripAt(files, open, k2).name
  {
    OutputNamesDistinct(k1 + 1, k2 + 1);
  }

  /** The worked example: three 100x50 images give a 100x150 canvas with the
      images at heights 0, 50 and 100. */
  lemma ThreeEqualImages(a: string, b: string, c: string, open: string -> Image)
    requires open(a) == open(b) == open(c) == Image(100, 50)
    ensures StripAt([a, b, c], open, 0).width == 100
    ensures StripAt([a, b, c], open, 0).height == 150
    ensures StripAt([a, b, c], open, 0).pastes == [Paste(Image(100, 50), 0), Paste(Image(100, 50), 50), Paste(Image(100, 50), 100)]
  {
    var files := [a, b, c];
    assert Batch(files, 0) == files;
    var images := OpenAll(files, open);
    assert images == [Image(100, 50), Image(100, 50), Image(100, 50)];
    assert images[..0] == [];
    assert images[..1] == [] + [Image(100, 50)];
    assert images[..2] == images[..1] + [Image(100, 50)];
    assert images[..3] == images[..2] + [Image(100, 50)];
    TotalHeightAppend([], Image(100, 50));
    TotalHeightAppend(images[..1], Image(100, 50));
    TotalHeightAppend(images[..2], Image(100, 50));
  }

  /** The first `n` canvases, in order. */
  function Tiles(files: seq<string>, open: string -> Image, n: nat): (ts: seq<Strip>)
    requires n <= NumBatches(|files|)
    ensures |ts| == n
  {
    if n == 0 then [] else Tiles(files, open, n - 1) + [StripAt(files, open, n - 1)]
  }

  /** Canvas `k` among the first `n` is the `k`-th canvas. */
  lemma {:induction false} TilesAt(files: seq<string>, open: string -> Image, n: nat, k: nat)
    requires k < n <= NumBatches(|files|)
    ensures Tiles(files, open, n)[k] == StripAt(files, open, k)
  {
    var prev := Tiles(files, open, n - 1);
    assert Tiles(files, open, n) == prev + [StripAt(files, open, n - 1)];
    if k < n - 1 {
      assert Tiles(files, open, n)[k] == prev[k];
      TilesAt(files, open, n - 1, k);
    }
  }

  /** The pasting loop of one batch: each image goes in at the running
      `y_offset`, which then grows by its height; at the end `y_offset` is
      the canvas height. */
  method PasteAll(images: seq<Image>) returns (pastes: seq<Paste>, yOffset: nat)
    ensures |pastes| == |images|
    ensures forall m :: 0 <= m < |images| ==> pastes[m] == PasteAt(images, m)
    ensures yOffset == TotalHeight(images)
  {
    pastes := [];
    yOffset := 0;
    var j := 0;
    while j < |images|
      invariant 0 <= j <= |images|
      invariant yOffset == TotalHeight(images[..j])
      invariant |pastes| == j
      invariant forall m :: 0 <= m < j ==> pastes[m] == PasteAt(images, m)
    {
      pastes := pastes + [Paste(images[j], yOffset)];
      assert images[..j + 1] == images[..j] + [images[j]];
      TotalHeightAppend(images[..j], images[j]);
      yOffset := yOffset + images[j].height;
      j := j + 1;
    }
    assert images[..j] == images;
  }

  /** `combine_images` of a directory listing, with the files' dimensions
      given by `open`. */
  method CombineImages(listing: seq<string>, open: string -> Image) returns (r: Tiling)
    ensures r.NotEnoughImages? <==> |PngFiles(listing)| < MinImages
    ensures r.Saved? ==> |r.strips| == NumBatches(|PngFiles(listing)|)
    ensures r.Saved? ==> forall k :: 0 <= k < |r.strips| ==> r.strips[k] == StripAt(PngFiles(listing), open, k)
  {
    var pngFiles := PngFiles(listing);
    if |pngFiles| < MinImages {
      return NotEnoughImages;
    }
    var strips: seq<Strip> := [];
    var i := 0;
    while i < |pngFiles|
      invariant i == BatchSize * |strips|
      invariant |strips| <= NumBatches(|pngFiles|)
      invariant strips == Tiles(pngFiles, open, |strips|)
      decreases |pngFiles| - i
    {
      var imagesToCombine := pngFiles[i .. Min(i + BatchSize, |pngFiles|)];
      var images := OpenAll(imagesToCombine, open);
      var maxWidth := MaxWidth(images);
      var totalHeight := TotalHeight(images);
      var pastes, yOffset := PasteAll(images);
      var name := OutputName(i / BatchSize + 1);
      var combined := Strip(name, imagesToCombine, maxWidth, totalHeight, pastes);
      assert i / BatchSize == |strips|;
      StripAtOf(pngFiles, open, |strips|, i, imagesToCombine, images, pastes);
      strips := strips + [combined];
      i := i + BatchSize;
    }
    forall k | 0 <= k < |strips| ensures strips[k] == StripAt(pngFiles, open, k) {
      TilesAt(pngFiles, open, |strips|, k);
    }
    return Saved(strips);
  }
}
