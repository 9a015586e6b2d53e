/**
 * The wallpaper cropper of simulate_spectra_e6/crop_wallpapers.py: its own
 * copy of the 400x600 crop box, the list of raw images gathered from the
 * glob patterns, the `photo-NN.jpg` names the crops are written under, and
 * the artwork entries it prints for the gallery.
 */
module WallpaperCropper {
  import Strings
  import E6Image
  import GalleryWidget
  import GalleryManifest
  import opened Wrappers

  type Artwork = GalleryWidget.Artwork

  // ---- crop_to_400x600 ----------------------------------------------------------

  /**
   * The box crop_to_400x600 hands to img.crop, the ratios compared exactly
   * (w / h > 400 / 600 is w * 600 > h * 400).  None is the ZeroDivisionError
   * of a zero height, which the function catches and reports.
   */
  function CropBox400x600(w: nat, h: nat): (box: Option<E6Image.Box>)
    ensures box.None? <==> h == 0
    ensures box.Some? ==> E6Image.InBounds(box.value, w, h)
    ensures box.Some? && w * 600 > h * 400 ==>
      box.value.top == 0 && box.value.bottom == h && E6Image.Centred(box.value.left, box.value.right, w)
    ensures box.Some? && w * 600 <= h * 400 ==>
      box.value.left == 0 && box.value.right == w && E6Image.Centred(box.value.top, box.value.bottom, h)
  {
    if h == 0 then None
    else if w * 600 > h * 400 then
      var newHeight := h;
      var newWidth := h * 400 / 600;
      var left := (w - newWidth) / 2;
      Some(E6Image.Box(left, 0, left + newWidth, newHeight))
    else
      var newWidth := w;
      var newHeight := w * 600 / 400;
      var top := (h - newHeight) / 2;
      Some(E6Image.Box(0, top, newWidth, top + newHeight))
  }

  /** The duplicated arithmetic agrees with crop_to_aspect_ratio at its default 400x600 target. */
  lemma SameBoxAsProcessor(w: nat, h: nat)
    ensures CropBox400x600(w, h) == E6Image.CropBox(w, h, 400, 600)
  {
    if h != 0 && w * 600 > h * 400 {
      assert h * 400 / 600 == E6Image.WideBox(w, h, 400, 600).right - E6Image.WideBox(w, h, 400, 600).left;
    }
  }

  // ---- gathering the raw images ---------------------------------------------------

  const RawDir: string := "raw_wallpapers"
  const OutputDir: string := "wallpapers"
  const Formats: seq<string> := ["*.jpg", "*.jpeg", "*.png", "*.webp", "*.bmp", "*.tiff"]

  /** os.path.join of a directory and a relative name. */
  function PathJoin(dir: string, name: string): string
  {
    dir + "/" + name
  }

  /**
   * The files two glob calls per pattern contribute, the pattern as written
   * and then upper-cased, for the patterns in order.  `glob` stands for the
   * file system's answer to glob.glob.
   */
  function Gathered(fmts: seq<string>, glob: string -> seq<string>): seq<string>
  {
    if fmts == [] then []
    else
      var fmt := fmts[|fmts| - 1];
      Gathered(fmts[..|fmts| - 1], glob) + glob(PathJoin(RawDir, fmt)) + glob(PathJoin(RawDir, Strings.Upper(fmt)))
  }

  /** A file is gathered exactly when one of the glob calls returned it. */
  lemma {:induction false} GatheredMembers(fmts: seq<string>, glob: string -> seq<string>, f: string)
    ensures f in Gathered(fmts, glob) <==>
      exists fmt :: fmt in fmts && (f in glob(PathJoin(RawDir, fmt)) || f in glob(PathJoin(RawDir, Strings.Upper(fmt))))
    decreases |fmts|
  {
    if fmts != [] {
      var init, fmt := fmts[..|fmts| - 1], fmts[|fmts| - 1];
      GatheredMembers(init, glob, f);
      assert fmts == init + [fmt];
      assert forall g :: g in fmts <==> g in init || g == fmt;
    }
  }

  /** The `extend` loop of main that builds image_files. */
  method GatherImageFiles(glob: string -> seq<string>) returns (imageFiles: seq<string>)
    ensures imageFiles == Gathered(Formats, glob)
  {
    imageFiles := [];
    for i := 0 to |Formats|
      invariant imageFiles == Gathered(Formats[..i], glob)
    {
      assert Formats[..i + 1][..i] == Formats[..i];
      imageFiles := imageFiles + glob(PathJoin(RawDir, Formats[i]));
      imageFiles := imageFiles + glob(PathJoin(RawDir, Strings.Upper(Formats[i])));
    }
    assert Formats[..|Formats|] == Formats;
  }

  // ---- output names --------------------------------------------------------------

  /** f"photo-{i:02d}.jpg". */
  function PhotoName(i: nat): (name: string)
    ensures Strings.StartsWith(name, "photo-") && Strings.EndsWith(name, ".jpg")
  {
    Strings.StartsWithConcat("photo-", Strings.ZeroPad2(i) + ".jpg");
    Strings.ConcatAssoc("photo-", Strings.ZeroPad2(i), ".jpg");
    Strings.EndsWithConcat("photo-" + Strings.ZeroPad2(i), ".jpg");
    "photo-" + Strings.ZeroPad2(i) + ".jpg"
  }

  /** Different inputs are never written to the same file. */
  lemma PhotoNamesDistinct(i: nat, j: nat)
    requires i != j
    ensures PhotoName(i) != PhotoName(j)
  {
    var a, b := PhotoName(i), PhotoName(j);
    assert a[6..|a| - 4] == Strings.ZeroPad2(i);
    assert b[6..|b| - 4] == Strings.ZeroPad2(j);
    Strings.ZeroPad2Injective(i, j);
  }

  /**
   * The enumerate loop of main: the i-th gathered file (counting from 1) is
   * cropped into wallpapers/photo-{i:02d}.jpg, whatever its own name was.
   */
  method OutputPaths(imageFiles: seq<string>) returns (outputs: seq<string>)
    ensures |outputs| == |imageFiles|
    ensures forall k :: 0 <= k < |imageFiles| ==> outputs[k] == PathJoin(OutputDir, PhotoName(k + 1))
    ensures forall j, k :: 0 <= j < k < |outputs| ==> outputs[j] != outputs[k]
  {
    outputs := [];
    for i := 1 to |imageFiles| + 1
      invariant |outputs| == i - 1
      invariant forall k :: 0 <= k < i - 1 ==> outputs[k] == PathJoin(OutputDir, PhotoName(k + 1))
    {
      ghost var before := outputs;
      outputs := outputs + [PathJoin(OutputDir, PhotoName(i))];
      forall k | 0 <= k < i ensures outputs[k] == PathJoin(OutputDir, PhotoName(k + 1)) {
        if k < i - 1 {
          assert outputs[k] == before[k];
        }
      }
    }
    forall j, k | 0 <= j < k < |outputs| ensures outputs[j] != outputs[k] {
      OutputPathsDistinct(j + 1, k + 1);
    }
  }

  /** Different indices are written to different paths under the output directory. */
  lemma OutputPathsDistinct(i: nat, j: nat)
    requires i != j
    ensures PathJoin(OutputDir, PhotoName(i)) != PathJoin(OutputDir, PhotoName(j))
  {
    PhotoNamesDistinct(i, j);
    var pre := OutputDir + "/";
    var a, b := PathJoin(OutputDir, PhotoName(i)), PathJoin(OutputDir, PhotoName(j));
    assert a == pre + PhotoName(i) && b == pre + PhotoName(j);
    assert a[|pre|..] == PhotoName(i) && b[|pre|..] == PhotoName(j);
  }

  // ---- printed entries -------------------------------------------------------------

  const WallpaperResolution: string := "400x600"

  /** The entry printed for the i-th crop: id 36 + i, "Photo {i:02d}", and the crop's path twice. */
  function PrintedEntry(i: nat): Artwork
  {
    var path := GalleryManifest.WallpapersPrefix + PhotoName(i);
    GalleryWidget.Artwork(36 + i, "Photo " + Strings.ZeroPad2(i), WallpaperResolution, path, path)
  }

  /** The final loop of main, `for i in range(1, len(image_files) + 1)`. */
  method PrintedEntries(count: nat) returns (entries: seq<Artwork>)
    ensures |entries| == count
    ensures forall k :: 0 <= k < count ==> entries[k] == PrintedEntry(k + 1)
    ensures forall k :: 0 <= k < count ==> entries[k].id == 37 + k && entries[k].thumbnail == entries[k].fullSize
  {
    entries := [];
    for i := 1 to count + 1
      invariant |entries| == i - 1
      invariant forall k :: 0 <= k < i - 1 ==> entries[k] == PrintedEntry(k + 1)
    {
      var path := GalleryManifest.WallpapersPrefix + PhotoName(i);
      var entry := GalleryWidget.Artwork(36 + i, "Photo " + Strings.ZeroPad2(i), WallpaperResolution, path, path);
      assert entry == PrintedEntry(i);
      ghost var before := entries;
      entries := entries + [entry];
      forall k | 0 <= k < i ensures entries[k] == PrintedEntry(k + 1) {
        if k < i - 1 {
          assert entries[k] == before[k];
        }
      }
    }
  }

  /**
   * What is printed for the i-th crop is exactly the entry scan_wallpapers
   * builds for photo-{i:02d}.jpg, given id 36 + i and its 400x600 size:
   * generate_title turns the file name into the same "Photo {i:02d}".
   */
  lemma PrintedMatchesScanned(i: nat)
    ensures PrintedEntry(i) == GalleryManifest.WallpaperEntry(36 + i, PhotoName(i), WallpaperResolution)
  {
    GalleryManifest.PhotoTitle(Strings.ZeroPad2(i), ".jpg");
  }
}
