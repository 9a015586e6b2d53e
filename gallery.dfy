/**
 * The wallpaper gallery widget of simulate_spectra_e6/script.js: the static
 * artwork catalogue, the Fisher-Yates shuffle used to render it, the device
 * mock-up table, the `Gallery` object with its selected device, open artwork
 * and preview surface, and the file name a download is saved under.
 */
module GalleryWidget {
  import Strings
  import opened Wrappers

  /** One entry of the `artworks` array. */
  datatype Artwork = Artwork(id: int, title: string, resolution: string, thumbnail: string, fullSize: string)

  /** The compiled-in catalogue (script.js, the `artworks` array). */
  const Catalog: seq<Artwork> := [
    Artwork(1, "Photo 01", "400x600", "./wallpapers/photo-01.jpg", "./wallpapers/photo-01.jpg"),
    Artwork(2, "Photo 02", "400x600", "./wallpapers/photo-02.jpg", "./wallpapers/photo-02.jpg"),
    Artwork(3, "Photo 03", "400x600", "./wallpapers/photo-03.jpg", "./wallpapers/photo-03.jpg"),
    Artwork(4, "Photo 04", "400x600", "./wallpapers/photo-04.jpg", "./wallpapers/photo-04.jpg"),
    Artwork(5, "Photo 05", "400x600", "./wallpapers/photo-05.jpg", "./wallpapers/photo-05.jpg")
  ]

  // ---- shuffleArray ---------------------------------------------------------

  /** `js[i]` is the index drawn at the step for position i: an index in [0, i]. */
  predicate ValidDraws(n: nat, js: seq<nat>)
  {
    |js| == n && forall i :: 0 <= i < n ==> js[i] <= i
  }

  /** The sequence after exchanging positions i and j. */
  function Swap<T>(s: seq<T>, i: nat, j: nat): (r: seq<T>)
    requires i < |s| && j < |s|
    ensures |r| == |s| && multiset(r) == multiset(s)
  {
    s[i := s[j]][j := s[i]]
  }

  /**
   * The steps of the shuffle that are still to come: positions k-1 down to 1
   * are each exchanged with the drawn index.
   */
  function ShuffleSteps<T>(s: seq<T>, js: seq<nat>, k: nat): seq<T>
    requires k <= |s| && ValidDraws(|s|, js)
    decreases k
  {
    if k <= 1 then s else ShuffleSteps(Swap(s, k - 1, js[k - 1]), js, k - 1)
  }

  /** The whole Fisher-Yates shuffle of `s` under the draws `js`. */
  function Shuffled<T>(s: seq<T>, js: seq<nat>): seq<T>
    requires ValidDraws(|s|, js)
  {
    ShuffleSteps(s, js, |s|)
  }

  /** Every sequence of swaps keeps the elements: the shuffle is a permutation. */
  lemma {:induction false} ShuffleStepsPermutes<T>(s: seq<T>, js: seq<nat>, k: nat)
    requires k <= |s| && ValidDraws(|s|, js)
    ensures |ShuffleSteps(s, js, k)| == |s|
    ensures multiset(ShuffleSteps(s, js, k)) == multiset(s)
    decreases k
  {
    if k > 1 {
      ShuffleStepsPermutes(Swap(s, k - 1, js[k - 1]), js, k - 1);
    }
  }

  /**
   * shuffleArray: copies the input into a fresh array and, for i from the
   * last index down to 1, exchanges element i with element js[i].  The input
   * is a value and is not changed.
   */
  method ShuffleArray<T>(a: seq<T>, js: seq<nat>) returns (shuffled: seq<T>)
    requires ValidDraws(|a|, js)
    ensures shuffled == Shuffled(a, js)
    ensures |shuffled| == |a| && multiset(shuffled) == multiset(a)
  {
    var arr := new T[|a|](k requires 0 <= k < |a| => a[k]);
    var i := arr.Length - 1;
    assert arr[..] == a;
    while i > 0
      invariant -1 <= i < arr.Length
      invariant ShuffleSteps(arr[..], js, i + 1) == Shuffled(a, js)
    {
      var j := js[i];
      ghost var before := arr[..];
      arr[i], arr[j] := arr[j], arr[i];
      assert arr[..] == Swap(before, i, j);
      i := i - 1;
    }
    shuffled := arr[..];
    ShuffleStepsPermutes(a, js, |a|);
  }

  /** The shuffle shows every element of its input and nothing else. */
  lemma ShuffledMembers<T>(s: seq<T>, js: seq<nat>)
    requires ValidDraws(|s|, js)
    ensures forall x :: x in Shuffled(s, js) <==> x in s
  {
    ShuffleStepsPermutes(s, js, |s|);
    var r := Shuffled(s, js);
    forall x ensures x in r <==> x in s {
      assert x in r <==> x in multiset(r);
      assert x in s <==> x in multiset(s);
    }
  }

  function Ids(s: seq<Artwork>): set<int>
  {
    set a | a in s :: a.id
  }

  /** The shuffle shows exactly the ids of its input. */
  lemma ShuffledIds(s: seq<Artwork>, js: seq<nat>)
    requires ValidDraws(|s|, js)
    ensures Ids(Shuffled(s, js)) == Ids(s)
  {
    ShuffledMembers(s, js);
  }

  /** Rendering the catalogue in shuffled order shows exactly the ids 1..5. */
  lemma ShuffledCatalogIds(js: seq<nat>)
    requires ValidDraws(|Catalog|, js)
    ensures |Shuffled(Catalog, js)| == 5
    ensures Ids(Shuffled(Catalog, js)) == {1, 2, 3, 4, 5}
  {
    ShuffleStepsPermutes(Catalog, js, |Catalog|);
    ShuffledIds(Catalog, js);
    CatalogIds();
  }

  lemma CatalogIds()
    ensures Ids(Catalog) == {1, 2, 3, 4, 5}
  {
    var ids := Ids(Catalog);
    forall x | x in ids ensures x in {1, 2, 3, 4, 5} {
      var a :| a in Catalog && a.id == x;
    }
    assert Catalog[0].id in ids && Catalog[1].id in ids && Catalog[2].id in ids;
    assert Catalog[3].id in ids && Catalog[4].id in ids;
  }

  // ---- device table ---------------------------------------------------------

  /** Where the simulated screen sits inside the mock-up, in CSS pixels. */
  datatype DisplayPosition = DisplayPosition(left: nat, top: nat, width: nat, height: nat)

  datatype Device = Device(name: string, mockup: string, displayPosition: DisplayPosition)

  const ReinkCase: string := "reink-case"
  const M5PaperS3: string := "m5-paper-s3"

  /** `this.devices` as the constructor builds it. */
  const Devices: map<string, Device> := map[
    ReinkCase := Device("Reink Case", "./devices/mockup.svg", DisplayPosition(120, 400, 400, 600)),
    M5PaperS3 := Device("M5 Paper Color", "./devices/m5-paper-s3.svg", DisplayPosition(60, 60, 400, 600))
  ]

  /** The corner rounding both switchDevice and previewOnCase apply, in pixels. */
  function CornerRadius(deviceId: string): (px: nat)
    ensures px == 0 <==> deviceId == M5PaperS3
    ensures px != 0 ==> px == 50
  {
    if deviceId == M5PaperS3 then 0 else 50
  }

  /** Exactly the selector buttons whose `data-device` is `deviceId` carry `active`. */
  ghost predicate MarksExactly(flags: seq<bool>, buttons: seq<string>, deviceId: string)
  {
    |flags| == |buttons| && forall k :: 0 <= k < |buttons| ==> (flags[k] <==> buttons[k] == deviceId)
  }

  /**
   * The loop over the selector buttons in switchDevice: each button gets
   * `active` exactly when its `data-device` is `deviceId`.
   */
  method MarkActive(buttons: seq<string>, deviceId: string) returns (flags: seq<bool>)
    ensures MarksExactly(flags, buttons, deviceId)
  {
    flags := [];
    for k := 0 to |buttons|
      invariant MarksExactly(flags, buttons[..k], deviceId)
    {
      flags := flags + [buttons[k] == deviceId];
    }
    assert buttons[..|buttons|] == buttons;
  }

  /** The content of the preview surface. */
  datatype Preview =
    | Placeholder
    | Wallpaper(src: string, alt: string, borderRadius: nat)

  // ---- download file name ---------------------------------------------------

  /**
   * The characters JavaScript's `\s` matches, by code point: tab, line feed,
   * vertical tab, form feed and carriage return (9-13), the space separators
   * (U+0020, U+00A0, U+1680, U+2000-U+200A, U+202F, U+205F, U+3000), the line
   * and paragraph separators (U+2028, U+2029) and the byte-order mark U+FEFF.
   */
  predicate IsWhitespace(c: char)
  {
    var n := c as int;
    || 9 <= n <= 13 || n == 0x20 || n == 0xA0 || n == 0x1680
    || 0x2000 <= n <= 0x200A || n == 0x2028 || n == 0x2029
    || n == 0x202F || n == 0x205F || n == 0x3000 || n == 0xFEFF
  }

  predicate NoWhitespace(s: string)
  {
    forall i :: 0 <= i < |s| ==> !IsWhitespace(s[i])
  }

  /** Drops the whitespace run at the front of `s`. */
  function DropWhitespace(s: string): (r: string)
    ensures |r| <= |s| && r == s[|s| - |r|..]
    ensures forall i :: 0 <= i < |s| - |r| ==> IsWhitespace(s[i])
    ensures r == [] || !IsWhitespace(r[0])
    ensures s != [] && IsWhitespace(s[0]) ==> |r| < |s|
  {
    if s != [] && IsWhitespace(s[0]) then DropWhitespace(s[1..]) else s
  }

  /** `s.replace(/\s+/g, '-')`: each maximal run of whitespace becomes one hyphen. */
  function Hyphenate(s: string): (r: string)
    decreases |s|
  {
    if s == [] then []
    else if IsWhitespace(s[0]) then "-" + Hyphenate(DropWhitespace(s))
    else [s[0]] + Hyphenate(s[1..])
  }

  /** No whitespace is left after hyphenation. */
  lemma {:induction false} HyphenateRemovesWhitespace(s: string)
    ensures NoWhitespace(Hyphenate(s))
    decreases |s|
  {
    if s != [] {
      if IsWhitespace(s[0]) {
        HyphenateRemovesWhitespace(DropWhitespace(s));
      } else {
        HyphenateRemovesWhitespace(s[1..]);
      }
    }
  }

  lemma {:induction false} HyphenateNoWhitespace(s: string)
    requires NoWhitespace(s)
    ensures Hyphenate(s) == s
    decreases |s|
  {
    if s != [] {
      HyphenateNoWhitespace(s[1..]);
    }
  }

  lemma {:induction false} DropWhitespaceRun(w: string, b: string)
    requires forall i :: 0 <= i < |w| ==> IsWhitespace(w[i])
    requires b == [] || !IsWhitespace(b[0])
    ensures DropWhitespace(w + b) == b
    decreases |w|
  {
    if w != [] {
      assert (w + b)[1..] == w[1..] + b;
      DropWhitespaceRun(w[1..], b);
    } else {
      assert w + b == b;
    }
  }

  lemma {:induction false} DropWhitespaceAppend(a: string, t: string)
    requires DropWhitespace(a) != []
    ensures DropWhitespace(a + t) == DropWhitespace(a) + t
    decreases |a|
  {
    assert (a + t)[0] == a[0];
    if IsWhitespace(a[0]) {
      assert (a + t)[1..] == a[1..] + t;
      DropWhitespaceAppend(a[1..], t);
    }
  }

  /** A string that ends in a non-space character is hyphenated on its own. */
  lemma {:induction false} HyphenateAppend(a: string, t: string)
    requires a == [] || !IsWhitespace(a[|a| - 1])
    ensures Hyphenate(a + t) == Hyphenate(a) + Hyphenate(t)
    decreases |a|, 1
  {
    if a == [] {
      assert a + t == t;
    } else if IsWhitespace(a[0]) {
      HyphenateAppendAtRun(a, t);
    } else {
      HyphenateAppendAtChar(a, t);
    }
  }

  lemma {:induction false} HyphenateAppendAtRun(a: string, t: string)
    requires a != [] && IsWhitespace(a[0]) && !IsWhitespace(a[|a| - 1])
    ensures Hyphenate(a + t) == Hyphenate(a) + Hyphenate(t)
    decreases |a|, 0
  {
    var d := DropWhitespace(a);
    assert d != [];
    assert d[|d| - 1] == a[|a| - 1];
    DropWhitespaceAppend(a, t);
    calc {
      Hyphenate(a + t);
    ==  { assert (a + t)[0] == a[0]; }
      "-" + Hyphenate(DropWhitespace(a + t));
    ==
      "-" + Hyphenate(d + t);
    ==  { HyphenateAppend(d, t); }
      "-" + (Hyphenate(d) + Hyphenate(t));
    ==  { Strings.ConcatAssoc("-", Hyphenate(d), Hyphenate(t)); }
      ("-" + Hyphenate(d)) + Hyphenate(t);
    ==
      Hyphenate(a) + Hyphenate(t);
    }
  }

  lemma {:induction false} HyphenateAppendAtChar(a: string, t: string)
    requires a != [] && !IsWhitespace(a[0]) && !IsWhitespace(a[|a| - 1])
    ensures Hyphenate(a + t) == Hyphenate(a) + Hyphenate(t)
    decreases |a|, 0
  {
    assert (a + t)[1..] == a[1..] + t;
    calc {
      Hyphenate(a + t);
    ==  { assert (a + t)[0] == a[0]; }
      [a[0]] + Hyphenate(a[1..] + t);
    ==  { HyphenateAppend(a[1..], t); }
      [a[0]] + (Hyphenate(a[1..]) + Hyphenate(t));
    ==  { Strings.ConcatAssoc([a[0]], Hyphenate(a[1..]), Hyphenate(t)); }
      ([a[0]] + Hyphenate(a[1..])) + Hyphenate(t);
    ==
      Hyphenate(a) + Hyphenate(t);
    }
  }

  /**
   * Words separated by a whitespace run: the run becomes exactly one hyphen
   * and the words on either side are treated independently.
   */
  lemma HyphenateJoin(a: string, w: string, b: string)
    requires w != [] && forall i :: 0 <= i < |w| ==> IsWhitespace(w[i])
    requires a == [] || !IsWhitespace(a[|a| - 1])
    requires b == [] || !IsWhitespace(b[0])
    ensures Hyphenate(a + w + b) == Hyphenate(a) + "-" + Hyphenate(b)
  {
    Strings.ConcatAssoc(a, w, b);
    HyphenateAppend(a, w + b);
    HyphenateRun(w, b);
    Strings.ConcatAssoc(Hyphenate(a), "-", Hyphenate(b));
  }

  /** A whitespace run in front of a word becomes one hyphen. */
  lemma HyphenateRun(w: string, b: string)
    requires w != [] && forall i :: 0 <= i < |w| ==> IsWhitespace(w[i])
    requires b == [] || !IsWhitespace(b[0])
    ensures Hyphenate(w + b) == "-" + Hyphenate(b)
  {
    assert (w + b)[0] == w[0];
    DropWhitespaceRun(w, b);
  }

  /** The title part of the download name: lower-cased, whitespace runs hyphenated. */
  function DownloadStem(title: string): string
  {
    Hyphenate(Strings.Lower(title))
  }

  /**
   * The name downloadArtwork saves under: the title part, then "-", the
   * resolution and ".svg".
   */
  function DownloadName(a: Artwork): (name: string)
    ensures name == DownloadStem(a.title) + "-" + a.resolution + ".svg"
    ensures Strings.EndsWith(name, "-" + a.resolution + ".svg")
    ensures Strings.StartsWith(name, DownloadStem(a.title))
  {
    var stem := DownloadStem(a.title);
    var suffix := "-" + a.resolution + ".svg";
    assert (stem + suffix)[..|stem|] == stem;
    assert (stem + suffix)[|stem|..] == suffix;
    stem + suffix
  }

  /** The title part of a download name holds no whitespace. */
  lemma DownloadStemNoWhitespace(title: string)
    ensures NoWhitespace(DownloadStem(title))
  {
    HyphenateRemovesWhitespace(Strings.Lower(title));
  }

  // ---- the widget -----------------------------------------------------------

  /** What the preview surface (`caseDisplay`) and the device image show. */
  datatype Surface = Surface(
    mockupSrc: string,
    mockupAlt: string,
    position: DisplayPosition,
    transformNone: bool,
    borderRadius: nat,
    content: Preview)

  /** What the modal shows. */
  datatype Modal = Modal(active: bool, imageSrc: string, title: string, resolution: string)

  /** The surface as switchDevice leaves it for the device `id`. */
  function DeviceSurface(id: string, d: Device): (sf: Surface)
    ensures sf.mockupSrc == d.mockup && sf.mockupAlt == d.name
    ensures sf.position == d.displayPosition && sf.transformNone
    ensures sf.borderRadius == CornerRadius(id) && sf.content == Placeholder
  {
    Surface(d.mockup, d.name, d.displayPosition, true, CornerRadius(id), Placeholder)
  }

  /**
   * The two devices' previews: the Reink case shows its screen at (120, 400),
   * 400 by 600 pixels, with 50-pixel corners; the M5 Paper shows it at
   * (60, 60), 400 by 600 pixels, with square corners.
   */
  lemma PreviewGeometry()
    ensures var sf := DeviceSurface(ReinkCase, Devices[ReinkCase]);
      && sf.mockupSrc == "./devices/mockup.svg" && sf.mockupAlt == "Reink Case"
      && sf.position == DisplayPosition(120, 400, 400, 600) && sf.borderRadius == 50
    ensures var sf := DeviceSurface(M5PaperS3, Devices[M5PaperS3]);
      && sf.mockupSrc == "./devices/m5-paper-s3.svg" && sf.mockupAlt == "M5 Paper Color"
      && sf.position == DisplayPosition(60, 60, 400, 600) && sf.borderRadius == 0
  {
  }

  /**
   * The `Gallery` object.  The DOM nodes it drives are represented by the
   * state they show: the device image and the preview surface, the gallery
   * grid and its loading indicator, the selector buttons, the modal and the
   * body's overflow style.
   */
  class Gallery {
    const devices: map<string, Device>
    /** `data-device` of each `.device-selector__btn`, in document order. */
    const selectorButtons: seq<string>

    var currentDevice: string
    var currentArtwork: Option<Artwork>

    var surface: Surface
    var activeButtons: seq<bool>
    var galleryItems: seq<Artwork>
    var loadingHidden: bool
    var modal: Modal
    var bodyOverflow: string

    /** The selected device is in the table. */
    ghost predicate WellFormed()
      reads this`currentDevice
    {
      currentDevice in devices
    }

    /**
     * The surface shows the selected device's mock-up, geometry and rounding,
     * a wallpaper on it has the same rounding, and exactly the selected
     * device's buttons are active.
     */
    ghost predicate Valid()
      reads this`currentDevice, this`surface, this`activeButtons
    {
      && WellFormed()
      && surface.mockupSrc == devices[currentDevice].mockup
      && surface.mockupAlt == devices[currentDevice].name
      && surface.position == devices[currentDevice].displayPosition
      && surface.transformNone
      && surface.borderRadius == CornerRadius(currentDevice)
      && (surface.content.Wallpaper? ==> surface.content.borderRadius == surface.borderRadius)
      && MarksExactly(activeButtons, selectorButtons, currentDevice)
    }

    /** The modal is closed and the page scrolls. */
    ghost predicate ModalClosed()
      reads this`modal, this`currentArtwork, this`bodyOverflow
    {
      !modal.active && currentArtwork.None? && bodyOverflow == ""
    }

    /**
     * new Gallery(): the fields, then init, which selects the reink case.
     * The grid is still empty and the loading indicator shows until
     * LoadArtworks runs.
     */
    constructor (buttons: seq<string>)
      ensures Valid()
      ensures devices == Devices && selectorButtons == buttons
      ensures currentDevice == ReinkCase && currentArtwork.None?
      ensures surface.content == Placeholder && ModalClosed() && !modal.active
      ensures galleryItems == [] && !loadingHidden
    {
      devices := Devices;
      selectorButtons := buttons;
      currentArtwork := None;
      currentDevice := ReinkCase;
      surface := Surface("", "", DisplayPosition(0, 0, 0, 0), false, 0, Placeholder);
      activeButtons := [];
      galleryItems := [];
      loadingHidden := false;
      modal := Modal(false, "", "", "");
      bodyOverflow := "";
      new;
      SwitchDevice(ReinkCase);
    }

    /**
     * The loading timer's callback: hides the indicator and renders the
     * catalogue in the order the shuffle under the draws `js` gives.
     */
    method LoadArtworks(js: seq<nat>)
      requires ValidDraws(|Catalog|, js)
      modifies this`galleryItems, this`loadingHidden
      ensures loadingHidden
      ensures galleryItems == Shuffled(Catalog, js)
      ensures Ids(galleryItems) == {1, 2, 3, 4, 5}
    {
      loadingHidden := true;
      galleryItems := ShuffleArray(Catalog, js);
      ShuffledCatalogIds(js);
    }

    method OpenModal(artwork: Artwork)
      requires Valid()
      modifies this`currentArtwork, this`modal, this`bodyOverflow
      ensures Valid()
      ensures currentArtwork == Some(artwork)
      ensures modal == Modal(true, artwork.fullSize, artwork.title, "Resolution: " + artwork.resolution)
      ensures bodyOverflow == "hidden"
    {
      currentArtwork := Some(artwork);
      modal := Modal(true, artwork.fullSize, artwork.title, "Resolution: " + artwork.resolution);
      bodyOverflow := "hidden";
    }

    /** closeModal: the modal keeps its last contents but is no longer active. */
    method CloseModal()
      requires Valid()
      modifies this`modal, this`currentArtwork, this`bodyOverflow
      ensures Valid() && ModalClosed()
      ensures modal == old(modal).(active := false)
      ensures old(ModalClosed()) ==> unchanged(this)
    {
      modal := modal.(active := false);
      currentArtwork := None;
      bodyOverflow := "";
    }

    /**
     * switchDevice: an id that is not a key of the device table changes
     * nothing; a known id selects that device, moves and resizes the surface to
     * its display position, sets the corner rounding, marks exactly the
     * matching selector buttons active and puts the placeholder back.
     */
    method SwitchDevice(deviceId: string)
      requires WellFormed()
      modifies this`currentDevice, this`surface, this`activeButtons
      ensures deviceId !in devices ==> unchanged(this)
      ensures old(Valid()) ==> Valid()
      ensures deviceId in devices ==>
        && Valid()
        && currentDevice == deviceId
        && surface == DeviceSurface(deviceId, devices[deviceId])
        && MarksExactly(activeButtons, selectorButtons, deviceId)
    {
      if deviceId !in devices {
        return;
      }
      currentDevice := deviceId;
      var device := devices[deviceId];
      var radius := if deviceId == M5PaperS3 then 0 else 50;
      surface := Surface(device.mockup, device.name, device.displayPosition, true, radius, Placeholder);
      activeButtons := MarkActive(selectorButtons, deviceId);
    }

    /** previewOnCase: shows the thumbnail with the selected device's rounding. */
    method PreviewOnCase(artwork: Artwork)
      requires Valid()
      modifies this`surface
      ensures Valid()
      ensures surface == old(surface).(content := Wallpaper(artwork.thumbnail, artwork.title, CornerRadius(currentDevice)))
    {
      var radius := if currentDevice == M5PaperS3 then 0 else 50;
      surface := surface.(content := Wallpaper(artwork.thumbnail, artwork.title, radius));
    }

    /**
     * downloadArtwork: `artwork` is the argument, None when it is omitted, in
     * which case the open artwork is used.  With no artwork it does nothing
     * (None); otherwise it yields the file name the save is offered under.
     */
    method DownloadArtwork(artwork: Option<Artwork>) returns (fileName: Option<string>)
      ensures fileName.None? <==> artwork.None? && currentArtwork.None?
      ensures artwork.Some? ==> fileName == Some(DownloadName(artwork.value))
      ensures artwork.None? && currentArtwork.Some? ==> fileName == Some(DownloadName(currentArtwork.value))
    {
      var resolved := if artwork.Some? then artwork else currentArtwork;
      if resolved.None? {
        return None;
      }
      var a := resolved.value;
      fileName := Some(Hyphenate(Strings.Lower(a.title)) + ("-" + a.resolution + ".svg"));
    }
  }
}
