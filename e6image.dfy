/**
 * The image pipeline of simulate_spectra_e6/image_processor.py, without the
 * pixels' resampling and enhancement: the six-colour E6 Spectra palette, the
 * nearest-colour lookup, quantisation as a per-pixel map, the centred crop box
 * of crop_to_aspect_ratio, the names of processed files, and the loop of
 * process_folder over the selected files.
 */
module E6Image {
  import Strings
  import opened Wrappers

  // ---- palette --------------------------------------------------------------------

  datatype Rgb = Rgb(r: int, g: int, b: int)

  const Black: Rgb := Rgb(0, 0, 0)
  const White: Rgb := Rgb(255, 255, 255)
  const Red: Rgb := Rgb(255, 0, 0)
  const Yellow: Rgb := Rgb(255, 255, 0)
  const Blue: Rgb := Rgb(0, 0, 255)
  const Green: Rgb := Rgb(0, 255, 0)

  /** E6_COLORS in dictionary order: the order np.argmin breaks ties in. */
  const Palette: seq<Rgb> := [Black, White, Red, Yellow, Blue, Green]

  /**
   * The squared Euclidean distance.  The source takes its square root before
   * np.argmin; the root is increasing, so the index of the minimum is the same.
   */
  function Dist2(a: Rgb, b: Rgb): nat
  {
    (a.r - b.r) * (a.r - b.r) + (a.g - b.g) * (a.g - b.g) + (a.b - b.b) * (a.b - b.b)
  }

  lemma Dist2Zero(a: Rgb, b: Rgb)
    ensures Dist2(a, b) == 0 <==> a == b
  {
    var dr, dg, db := a.r - b.r, a.g - b.g, a.b - b.b;
    assert dr * dr >= 0 && dg * dg >= 0 && db * db >= 0;
    if Dist2(a, b) == 0 {
      assert dr * dr == 0 && dg * dg == 0 && db * db == 0;
      assert dr == 0 && dg == 0 && db == 0;
    }
  }

  /**
   * np.argmin over the distances to `pal`: an index of a nearest colour, and
   * the first such index.
   */
  function ClosestIndex(c: Rgb, pal: seq<Rgb>): (k: nat)
    requires pal != []
    ensures k < |pal|
    ensures forall j :: 0 <= j < |pal| ==> Dist2(c, pal[k]) <= Dist2(c, pal[j])
    ensures forall j :: 0 <= j < k ==> Dist2(c, pal[j]) > Dist2(c, pal[k])
    decreases |pal|
  {
    if |pal| == 1 then 0
    else
      var k := ClosestIndex(c, pal[..|pal| - 1]);
      assert forall j :: 0 <= j < |pal| - 1 ==> pal[..|pal| - 1][j] == pal[j];
      if Dist2(c, pal[|pal| - 1]) < Dist2(c, pal[k]) then |pal| - 1 else k
  }

  /** The first-minimum rule picks one index: any index with both properties is it. */
  lemma ClosestIndexUnique(c: Rgb, pal: seq<Rgb>, i: nat)
    requires pal != [] && i < |pal|
    requires forall j :: 0 <= j < |pal| ==> Dist2(c, pal[i]) <= Dist2(c, pal[j])
    requires forall j :: 0 <= j < i ==> Dist2(c, pal[j]) > Dist2(c, pal[i])
    ensures ClosestIndex(c, pal) == i
  {
  }

  /** find_closest_color: a palette colour at least as near as every other one. */
  function FindClosestColor(c: Rgb): (e: Rgb)
    ensures e in Palette
    ensures forall p :: p in Palette ==> Dist2(c, e) <= Dist2(c, p)
  {
    Palette[ClosestIndex(c, Palette)]
  }

  /** Every palette colour is its own nearest colour. */
  lemma PaletteFixed(e: Rgb)
    requires e in Palette
    ensures FindClosestColor(e) == e
  {
    var f := FindClosestColor(e);
    assert Dist2(e, f) <= Dist2(e, e);
    Dist2Zero(e, e);
    Dist2Zero(e, f);
  }

  // ---- quantize_to_e6_colors --------------------------------------------------------

  /** An image as its rows of pixels, top to bottom. */
  type Image = seq<seq<Rgb>>

  predicate InPalette(img: Image)
  {
    forall y, x :: 0 <= y < |img| && 0 <= x < |img[y]| ==> img[y][x] in Palette
  }

  function QuantizeRow(row: seq<Rgb>): (q: seq<Rgb>)
    ensures |q| == |row|
    ensures forall x :: 0 <= x < |row| ==> q[x] == FindClosestColor(row[x])
  {
    seq(|row|, x requires 0 <= x < |row| => FindClosestColor(row[x]))
  }

  /**
   * quantize_to_e6_colors: the same width and height, every pixel replaced
   * by its nearest palette colour.
   */
  function Quantize(img: Image): (q: Image)
    ensures |q| == |img|
    ensures forall y :: 0 <= y < |img| ==> |q[y]| == |img[y]|
    ensures InPalette(q)
    ensures forall y, x, p :: 0 <= y < |img| && 0 <= x < |img[y]| && p in Palette ==>
      Dist2(img[y][x], q[y][x]) <= Dist2(img[y][x], p)
  {
    seq(|img|, y requires 0 <= y < |img| => QuantizeRow(img[y]))
  }

  /** An image already in the palette is left as it is. */
  lemma QuantizeFixed(img: Image)
    requires InPalette(img)
    ensures Quantize(img) == img
  {
    var q := Quantize(img);
    forall y | 0 <= y < |img| ensures q[y] == img[y] {
      forall x | 0 <= x < |img[y]| ensures q[y][x] == img[y][x] {
        PaletteFixed(img[y][x]);
      }
    }
  }

  /** Quantising twice is quantising once. */
  lemma QuantizeIdempotent(img: Image)
    ensures Quantize(Quantize(img)) == Quantize(img)
  {
    QuantizeFixed(Quantize(img));
  }

  // ---- crop_to_aspect_ratio -----------------------------------------------------------

  /** The (left, top, right, bottom) tuple handed to Image.crop. */
  datatype Box = Box(left: int, top: int, right: int, bottom: int)

  predicate InBounds(box: Box, w: nat, h: nat)
  {
    0 <= box.left <= box.right <= w && 0 <= box.top <= box.bottom <= h
  }

  /** [lo, hi) sits in the middle of [0, n): the margin after it is the one before it, or one more. */
  predicate Centred(lo: int, hi: int, n: int)
  {
    0 <= (n - hi) - lo <= 1
  }

  /**
   * crop_to_aspect_ratio for a w x h image and a tw x th target, with the
   * ratios compared exactly (img_ratio > target_ratio is w * th > h * tw)
   * and `int(...)` as the floor of the exact quotient.  None stands for the
   * ZeroDivisionError of a zero height or target height, and of a zero
   * target width once the else branch divides by the zero ratio.
   */
  function CropBox(w: nat, h: nat, tw: nat, th: nat): (box: Option<Box>)
    ensures box.None? <==> h == 0 || th == 0 || (w * th <= h * tw && tw == 0)
    ensures box.Some? ==> InBounds(box.value, w, h)
    ensures box.Some? && w * th > h * tw ==>
      && box.value.top == 0 && box.value.bottom == h
      && Centred(box.value.left, box.value.right, w)
      && (box.value.right - box.value.left) * th <= h * tw < (box.value.right - box.value.left + 1) * th
    ensures box.Some? && w * th <= h * tw ==>
      && box.value.left == 0 && box.value.right == w
      && Centred(box.value.top, box.value.bottom, h)
      && (box.value.bottom - box.value.top) * tw <= w * th < (box.value.bottom - box.value.top + 1) * tw
  {
    if h == 0 || th == 0 then None
    else if w * th > h * tw then Some(WideBox(w, h, tw, th))
    else if tw == 0 then None
    else Some(TallBox(w, h, tw, th))
  }

  /** The wide branch: the full height, and the widest centred strip no wider than the target ratio. */
  function WideBox(w: nat, h: nat, tw: nat, th: nat): (box: Box)
    requires th > 0 && w * th > h * tw
    ensures InBounds(box, w, h) && box.top == 0 && box.bottom == h
    ensures Centred(box.left, box.right, w)
    ensures (box.right - box.left) * th <= h * tw < (box.right - box.left + 1) * th
  {
    var newWidth := h * tw / th;
    WideFits(w, h, tw, th);
    var left := (w - newWidth) / 2;
    CentredHalf(newWidth, w);
    var box := Box(left, 0, left + newWidth, h);
    assert box.right - box.left == newWidth;
    box
  }

  /** The tall branch: the full width, and the tallest centred strip no taller than the target ratio. */
  function TallBox(w: nat, h: nat, tw: nat, th: nat): (box: Box)
    requires tw > 0 && w * th <= h * tw
    ensures InBounds(box, w, h) && box.left == 0 && box.right == w
    ensures Centred(box.top, box.bottom, h)
    ensures (box.bottom - box.top) * tw <= w * th < (box.bottom - box.top + 1) * tw
  {
    var newHeight := w * th / tw;
    WideFits(h, w, th, tw);
    var top := (h - newHeight) / 2;
    CentredHalf(newHeight, h);
    var box := Box(0, top, w, top + newHeight);
    assert box.bottom - box.top == newHeight;
    box
  }

  /** Half the spare room in front of a strip of length q centres it in [0, n). */
  lemma CentredHalf(q: int, n: int)
    requires 0 <= q <= n
    ensures var lo := (n - q) / 2; 0 <= lo && lo + q <= n && Centred(lo, lo + q, n)
  {
  }

  lemma MulCancel(a: int, b: int, c: int)
    requires c > 0 && a * c <= b * c
    ensures a <= b
  {
    assert (b - a) * c == b * c - a * c;
  }

  /** The floor of h * tw / th lies within [q * th, (q + 1) * th) and, on the wide side, within w. */
  lemma WideFits(w: nat, h: nat, tw: nat, th: nat)
    requires th > 0 && w * th >= h * tw
    ensures h * tw / th <= w
    ensures (h * tw / th) * th <= h * tw < (h * tw / th + 1) * th
  {
    var q := h * tw / th;
    assert q * th + (h * tw) % th == h * tw;
    MulCancel(q, w, th);
  }

  // ---- output naming ------------------------------------------------------------------

  /** A pathlib path as its components; the empty sequence is the current directory ".". */
  datatype Path = Path(parts: seq<string>)

  function Name(p: Path): string
  {
    if p.parts == [] then "" else p.parts[|p.parts| - 1]
  }

  function Parent(p: Path): Path
  {
    if p.parts == [] then p else Path(p.parts[..|p.parts| - 1])
  }

  /** The `/` operator. */
  function Join(p: Path, name: string): (q: Path)
    ensures Parent(q) == p && Name(q) == name
  {
    assert (p.parts + [name])[..|p.parts|] == p.parts;
    Path(p.parts + [name])
  }

  /**
   * PurePath.suffix and PurePath.stem (Python 3.12): the suffix starts at the
   * last dot of the name, provided that dot is neither the first nor the last
   * character; otherwise there is none and the stem is the whole name.
   */
  function StemSuffix(name: string): (parts: (string, string))
    ensures parts.0 + parts.1 == name
    ensures parts.1 != [] ==>
      parts.0 != [] && |parts.1| >= 2 && parts.1[0] == '.' && '.' !in parts.1[1..]
    ensures parts.1 == [] ==>
      '.' !in name || (name[0] == '.' && '.' !in name[1..]) || name[|name| - 1] == '.'
  {
    var i := Strings.LastIndexOf(name, '.');
    if 0 < i < |name| - 1 then
      SuffixAt(name, i);
      (name[..i], name[i..])
    else
      NoSuffix(name, i);
      (name, [])
  }

  lemma SuffixAt(name: string, i: nat)
    requires 0 < i < |name| - 1 && name[i] == '.'
    requires forall k :: i < k < |name| ==> name[k] != '.'
    ensures name[..i] + name[i..] == name
    ensures name[..i] != [] && |name[i..]| >= 2 && name[i..][0] == '.' && '.' !in name[i..][1..]
  {
    assert name[..i] + name[i..] == name;
    assert forall k :: 0 <= k < |name| - i - 1 ==> name[i..][1..][k] == name[i + 1 + k];
  }

  lemma NoSuffix(name: string, i: int)
    requires -1 <= i < |name| && (i >= 0 ==> name[i] == '.')
    requires forall k :: i < k < |name| ==> name[k] != '.'
    requires !(0 < i < |name| - 1)
    ensures '.' !in name || (name[0] == '.' && '.' !in name[1..]) || name[|name| - 1] == '.'
  {
    if i == 0 {
      assert forall k :: 0 <= k < |name| - 1 ==> name[1..][k] == name[k + 1];
    }
  }

  function Stem(name: string): string { StemSuffix(name).0 }
  function Suffix(name: string): string { StemSuffix(name).1 }

  /** f"{stem}_e6{suffix}". */
  function ProcessedName(name: string): string
  {
    Stem(name) + "_e6" + Suffix(name)
  }

  /** The processed name keeps the suffix and extends the stem by "_e6". */
  lemma ProcessedKeepsSuffix(name: string)
    requires Suffix(name) != []
    ensures Suffix(ProcessedName(name)) == Suffix(name)
    ensures Stem(ProcessedName(name)) == Stem(name) + "_e6"
  {
    var stem, suffix := Stem(name), Suffix(name);
    var out := ProcessedName(name);
    var i := |stem| + 3;
    assert out == (stem + "_e6") + suffix;
    assert out[i] == '.';
    assert forall k :: i < k < |out| ==> out[k] == suffix[1..][k - i - 1];
    Strings.LastIndexOfAt(out, '.', i);
    assert out[..i] == stem + "_e6" && out[i..] == suffix;
  }

  /** A name without a dot just gets "_e6" appended, and still has no suffix. */
  lemma ProcessedWithoutDot(name: string)
    requires '.' !in name
    ensures ProcessedName(name) == name + "_e6"
    ensures Suffix(ProcessedName(name)) == []
  {
    assert Suffix(name) == [];
    var out := name + "_e6";
    assert '.' !in out by {
      assert forall k :: 0 <= k < |out| ==> out[k] == if k < |name| then name[k] else "_e6"[k - |name|];
    }
    assert out + [] == out;
  }

  /** process_image without an output path: parent / 'processed' / processed name. */
  function DefaultOutputPath(input: Path): (out: Path)
    ensures Parent(Parent(out)) == Parent(input) && Name(Parent(out)) == "processed"
    ensures Name(out) == ProcessedName(Name(input))
  {
    Join(Join(Parent(input), "processed"), ProcessedName(Name(input)))
  }

  /** process_folder: output_folder / processed name. */
  function FolderOutputPath(outputFolder: Path, file: Path): (out: Path)
    ensures Parent(out) == outputFolder && Name(out) == ProcessedName(Name(file))
  {
    Join(outputFolder, ProcessedName(Name(file)))
  }

  /** The folder default, input_folder / 'processed', names each file as the single-file default does. */
  lemma FolderDefaultAgrees(folder: Path, name: string)
    ensures FolderOutputPath(Join(folder, "processed"), Join(folder, name)) == DefaultOutputPath(Join(folder, name))
  {
    assert Parent(Join(folder, name)) == folder;
  }

  // ---- process_folder -----------------------------------------------------------------

  const SupportedFormats: set<string> := {".jpg", ".jpeg", ".png", ".bmp", ".tiff", ".webp"}

  /** One entry of input_folder.iterdir(), with whether it is a regular file. */
  datatype Entry = Entry(path: Path, isFile: bool)

  predicate Selected(e: Entry)
  {
    e.isFile && Strings.Lower(Suffix(Name(e.path))) in SupportedFormats
  }

  /** The image_files comprehension: the supported regular files, in listing order. */
  function ImageFiles(entries: seq<Entry>): (files: seq<Path>)
    ensures |files| <= |entries|
    ensures forall f :: f in files <==> exists e :: e in entries && Selected(e) && e.path == f
  {
    if entries == [] then []
    else
      var rest := ImageFiles(entries[1..]);
      assert forall e :: e in entries <==> e == entries[0] || e in entries[1..];
      if Selected(entries[0]) then [entries[0].path] + rest else rest
  }

  /** The comprehension keeps order and repeats: a listing in two parts is filtered part by part. */
  lemma {:induction false} ImageFilesAppend(a: seq<Entry>, b: seq<Entry>)
    ensures ImageFiles(a + b) == ImageFiles(a) + ImageFiles(b)
    decreases |a|
  {
    if a == [] {
      assert a + b == b;
    } else {
      assert (a + b)[0] == a[0];
      assert (a + b)[1..] == a[1..] + b;
      ImageFilesAppend(a[1..], b);
      if Selected(a[0]) {
        Strings.ConcatAssoc([a[0].path], ImageFiles(a[1..]), ImageFiles(b));
      }
    }
  }

  /**
   * How many of `files` process_image reports as done, when `succeeds` says
   * of each file whether process_image returns its output path rather than
   * None (the output path is fixed by the file).
   */
  function Successes(files: seq<Path>, succeeds: Path -> bool): (n: nat)
    ensures n <= |files|
    ensures n == |files| <==> forall k :: 0 <= k < |files| ==> succeeds(files[k])
  {
    if files == [] then 0
    else
      var rest := files[..|files| - 1];
      var n := Successes(rest, succeeds);
      assert forall k :: 0 <= k < |rest| ==> rest[k] == files[k];
      n + (if succeeds(files[|files| - 1]) then 1 else 0)
  }

  /** What process_folder reports: the files it found, where each one went, and the success count. */
  datatype FolderReport = FolderReport(files: seq<Path>, outputs: seq<Path>, processed: nat)

  /**
   * process_folder over a listing of the input folder.  None is the early
   * return when no supported file is found; otherwise every selected file is
   * sent to its output path in order, and processed_count counts the ones
   * that succeed.
   */
  method ProcessFolder(inputFolder: Path, outputFolder: Option<Path>, listing: seq<Entry>,
                       succeeds: Path -> bool)
    returns (report: Option<FolderReport>)
    ensures report.None? <==> ImageFiles(listing) == []
    ensures report.Some? ==> report.value.files == ImageFiles(listing)
    ensures report.Some? ==>
      var out := if outputFolder.Some? then outputFolder.value else Join(inputFolder, "processed");
      && |report.value.outputs| == |report.value.files|
      && (forall k :: 0 <= k < |report.value.files| ==>
            report.value.outputs[k] == FolderOutputPath(out, report.value.files[k]))
      && report.value.processed == Successes(report.value.files, succeeds)
      && report.value.processed <= |report.value.files|
  {
    var out := if outputFolder.Some? then outputFolder.value else Join(inputFolder, "processed");
    var files := ImageFiles(listing);
    if files == [] {
      return None;
    }
    var outputs, processedCount := ProcessFiles(files, f => FolderOutputPath(out, f), succeeds);
    return Some(FolderReport(files, outputs, processedCount));
  }

  /**
   * The loop of process_folder: each file goes to the path `outputOf` gives
   * it (output_folder / its processed name), and processed_count goes up by
   * one for each success.
   */
  method ProcessFiles(files: seq<Path>, outputOf: Path -> Path, succeeds: Path -> bool)
    returns (outputs: seq<Path>, processedCount: nat)
    ensures |outputs| == |files|
    ensures forall k :: 0 <= k < |files| ==> outputs[k] == outputOf(files[k])
    ensures processedCount == Successes(files, succeeds) && processedCount <= |files|
  {
    outputs := [];
    processedCount := 0;
    for i := 0 to |files|
      invariant |outputs| == i
      invariant forall k :: 0 <= k < i ==> outputs[k] == outputOf(files[k])
      invariant processedCount == Successes(files[..i], succeeds)
    {
      var outputPath := outputOf(files[i]);
      assert files[..i + 1][..i] == files[..i];
      if succeeds(files[i]) {
        processedCount := processedCount + 1;
      }
      outputs := outputs + [outputPath];
    }
    assert files[..|files|] == files;
  }
}
