# E-ink wallpaper site: the logic behind the pages and the image scripts

The site shows a gallery of 400x600 wallpapers for six-colour E6 Spectra
e-ink screens, previews them on device mock-ups, lists e-ink devices and
switches between light and dark themes. A few Python scripts prepare the
wallpapers. This project models the small pieces of logic in these parts and
proves properties of them in Dafny:

- **Gallery widget** (`simulate_spectra_e6/script.js`, module `GalleryWidget`).
  - The `Gallery` object is a class. Its fields are the selected device, the
    open artwork, the preview surface (mock-up, geometry, corner rounding,
    placeholder or wallpaper), the active selector buttons, the modal and the
    body's overflow style.
  - The Fisher-Yates `shuffleArray` works on an array copy. Its random
    indices are a parameter.
  - The download file name comes from the title and the resolution.
- **Device catalogue** (`js/devices.js`, module `Devices`).
  - The twelve-device table and the featured comparisons.
  - The case-insensitive category filter.
  - The two stable sorts. Screen sizes are integer hundredths of an inch.
- **Gallery manifest generator** (`simulate_spectra_e6/generate_gallery.py`,
  module `GalleryManifest`).
  - The file-name-to-title rules.
  - The entry loop of `scan_wallpapers`.
  - The JavaScript array literal written by `generate_javascript`.
- **E6 image processor** (`simulate_spectra_e6/image_processor.py`, module
  `E6Image`).
  - The palette and the nearest-colour lookup.
  - Quantisation.
  - The centred 2:3 crop box.
  - The names of the processed files.
  - The loop of `process_folder`.
- **Wallpaper cropper** (`simulate_spectra_e6/crop_wallpapers.py`, module
  `WallpaperCropper`).
  - Its own copy of the crop box.
  - The gathering of the raw images.
  - The `photo-NN.jpg` output names.
  - The entries it prints.
- **Dark mode** (`js/dark-mode.js`, module `Theme`).
  - Reading the theme from storage or from the system preference.
  - Saving and toggling.
  - Applying the theme to the page.
  - The system-change listener.

Two shared modules hold the general helpers. `Strings` covers ASCII case
mapping, Python's `str.title()`, `str.replace()`, `startswith` and `rfind`,
and decimal rendering. `Wrappers` holds the `Option` type that stands for
`null`, `None` and early returns.

Each imperative piece of the source is imperative here:

- the `Gallery` and `ThemePage` classes, whose methods update fields;
- the swap loop of the shuffle, over an array;
- the loops that build lists and strings (`MarkActive`, `ScanWallpapers`,
  `GenerateJavascript`, `ProcessFiles`, `GatherImageFiles`, `OutputPaths`,
  `PrintedEntries`).

Each such method is proved against a function. The pure parts (titles, crop
boxes, palette lookup, sorting, theme precedence) are functions with lemmas.

## Model

| member | source | states |
|---|---|---|
| `GalleryWidget.ShuffleArray` | simulate_spectra_e6/script.js:123-130 | The result is the Fisher-Yates shuffle of the input under the drawn indices (each `js[i]` in `[0, i]`, for i from the last index down to 1). It has the input's length and multiset. The input is a value and stays unchanged. |
| `GalleryWidget.ShuffleStepsPermutes` | simulate_spectra_e6/script.js:125-128 | Every remaining run of swap steps keeps the length and the multiset. |
| `GalleryWidget.ShuffledMembers` | simulate_spectra_e6/script.js:123-130 | An element occurs in the shuffle iff it occurs in the input. |
| `GalleryWidget.ShuffledIds` | simulate_spectra_e6/script.js:136-141 | The rendered order shows exactly the ids of the input. |
| `GalleryWidget.CatalogIds` | simulate_spectra_e6/script.js:2-38 | The compiled-in catalogue has the ids 1..5. |
| `GalleryWidget.ShuffledCatalogIds` | simulate_spectra_e6/script.js:132-141 | Rendering the catalogue in any shuffled order shows five items with the ids 1..5. |
| `GalleryWidget.CornerRadius` | simulate_spectra_e6/script.js:205-209 | The rounding is 0px iff the device is `m5-paper-s3`; otherwise it is 50px. |
| `GalleryWidget.MarkActive` | simulate_spectra_e6/script.js:212-217 | A selector button is active iff its `data-device` equals the chosen id. |
| `GalleryWidget.HyphenateRemovesWhitespace` | simulate_spectra_e6/script.js:250 | No whitespace is left after `replace(/\s+/g, '-')`. |
| `GalleryWidget.HyphenateNoWhitespace` | simulate_spectra_e6/script.js:250 | A string without whitespace is left as it is. |
| `GalleryWidget.HyphenateAppend` | simulate_spectra_e6/script.js:250 | Cutting a string after a non-space character hyphenates the two parts independently. |
| `GalleryWidget.HyphenateJoin` | simulate_spectra_e6/script.js:250 | A whitespace run between two words becomes exactly one hyphen. |
| `GalleryWidget.DownloadName` | simulate_spectra_e6/script.js:250 | The file name is exactly the title lower-cased with its whitespace runs made single hyphens (`DownloadStem`), then `-`, the resolution and `.svg`. |
| `GalleryWidget.DownloadStemNoWhitespace` | simulate_spectra_e6/script.js:250 | The title part of the download name holds no whitespace. |
| `GalleryWidget.PreviewGeometry` | simulate_spectra_e6/script.js:58-79 | The Reink case shows `./devices/mockup.svg` with its screen at (120, 400), 400 by 600 pixels, with 50px corners. The M5 Paper Color shows `./devices/m5-paper-s3.svg` with its screen at (60, 60), 400 by 600 pixels, with square corners. |
| `GalleryWidget.Gallery.constructor` | simulate_spectra_e6/script.js:41-93 | The device table is reink-case 120/400/400/600 and m5-paper-s3 60/60/400/600. No artwork is open. After init the reink case is selected, the surface is valid and the placeholder shows. |
| `GalleryWidget.Gallery.LoadArtworks` | simulate_spectra_e6/script.js:115-141 | The loading indicator is hidden. The grid holds the shuffled catalogue, whose ids are 1..5. |
| `GalleryWidget.Gallery.OpenModal` | simulate_spectra_e6/script.js:167-176 | The open artwork is the argument. The modal is active and shows its full-size image, title and "Resolution: …". The body stops scrolling. |
| `GalleryWidget.Gallery.CloseModal` | simulate_spectra_e6/script.js:178-184 | The modal is inactive, no artwork is open and scrolling is restored. Closing an already closed modal changes nothing. |
| `GalleryWidget.Gallery.SwitchDevice` | simulate_spectra_e6/script.js:186-225 | An id that is not in the table changes nothing. A known id is selected, the surface takes that device's geometry, rounding and placeholder, and exactly its buttons are active. |
| `GalleryWidget.Gallery.PreviewOnCase` | simulate_spectra_e6/script.js:227-233 | Only the surface content changes. It becomes the thumbnail with the selected device's rounding. The selected device and the open artwork stay as they were. |
| `GalleryWidget.Gallery.DownloadArtwork` | simulate_spectra_e6/script.js:235-250 | With no argument and no open artwork nothing happens. Otherwise the name is `DownloadName` of the argument, or of the open artwork when there is no argument. |
| `Devices.Keys` | js/devices.js:313 | The keys of the table, in insertion order. |
| `Devices.Records` | js/devices.js:319-322 | One record per table entry, in key order, each a copy of the device with `id` equal to its key. |
| `Devices.Matching` | js/devices.js:313-315 | The matching positions are strictly ascending. A position is among them iff its category equals the requested one, ignoring case. |
| `Devices.ByCategory` | js/devices.js:312-316 | The result has one record per matching key, in key order, each carrying its key as `id`. |
| `Devices.ByCategoryMembers` | js/devices.js:312-316 | An entry's record is in the result iff its category matches. A match makes the result non-empty. |
| `Devices.ByCategoryUnknown` | js/devices.js:313-315 | A category that no device has yields the empty list. |
| `Devices.ByCategoryIgnoresCase` | js/devices.js:314 | Categories that are equal after lower-casing give the same result. |
| `Devices.SortBy` | js/devices.js:322 | The sort returns a permutation of its input. |
| `Devices.SortBySorted` | js/devices.js:322 | The sort's result is ordered by the comparator's key. |
| `Devices.SortByStable` | js/devices.js:322 | For every key value, the elements with that key keep their input order. |
| `Devices.ScreenSizeOrder` | js/devices.js:318-323 | `getDevicesSortedByScreenSize` returns every record exactly once, smallest screen first. Equal sizes keep key order. |
| `Devices.YearOrder` | js/devices.js:325-330 | `getDevicesSortedByYear` returns every record exactly once, newest first. Equal years keep key order. |
| `Devices.ComparisonsNameKnownDevices` | js/devices.js:296-309 | Each `device1` and `device2` of a featured comparison is a key of `DEVICE_DATA`. |
| `Devices.DeviceKeysDistinct` | js/devices.js:4-293 | The twelve keys of the table are distinct. |
| `GalleryManifest.SplitExt` | simulate_spectra_e6/generate_gallery.py:22 | `os.path.splitext`: the two parts rejoin to the name. The extension is empty or one dot with no further dot. It is non-empty iff some dot has something other than dots before it. |
| `GalleryManifest.RuleFor` | simulate_spectra_e6/generate_gallery.py:25-50 | The prefix tests, in source order. A word rule is only chosen for a name that starts with its prefix. |
| `GalleryManifest.Worded` | simulate_spectra_e6/generate_gallery.py:30-44 | A word-rule title ends with its word (" Waves", " Circles", …). |
| `GalleryManifest.WordRuleTitles` | simulate_spectra_e6/generate_gallery.py:30-44 | When a word rule applies, the title ends with that rule's word. |
| `GalleryManifest.PhotoTitleUpper` | simulate_spectra_e6/generate_gallery.py:25-27 | `photo-<rest>.ext`, where `<rest>` has no dot and no second `photo-`, is titled "Photo " + `<rest>` upper-cased. |
| `GalleryManifest.PhotoTitle` | simulate_spectra_e6/generate_gallery.py:25-27 | `photo-NN.ext`, with NN made of digits, is titled "Photo NN": upper-casing leaves digits alone. |
| `GalleryManifest.GeometricTitle` | simulate_spectra_e6/generate_gallery.py:28-29 | `geometric-<rest>.ext`, where `<rest>` has no dot and no second `geometric-`, is titled `<rest>` with hyphens made spaces, title-cased. The title has no hyphen. `photo-` is tested first but cannot match. |
| `GalleryManifest.WavesTitle` | simulate_spectra_e6/generate_gallery.py:30-32 | `waves-<colour>.svg` is titled `<Colour>` + " Waves"; for example `waves-blue.svg` becomes "Blue Waves". This holds even though `photo-` and `geometric-` are tested first. |
| `GalleryManifest.WordedAfterPrefix` | simulate_spectra_e6/generate_gallery.py:31-32 | Dropping the prefix and any `.svg` from prefix + rest leaves rest when rest contains neither. |
| `GalleryManifest.FallbackTitles` | simulate_spectra_e6/generate_gallery.py:45-50 | With no named prefix, a name with `-` is title-cased with hyphens made spaces, so its title has no `-`. A name without `-` is title-cased with underscores made spaces, so its title has neither `_` nor `-`. |
| `GalleryManifest.ScanWallpapers` | simulate_spectra_e6/generate_gallery.py:72-95 | An empty listing yields None. Otherwise entry k of the sorted list has id k+1, the file's title and resolution, and `thumbnail == fullSize == "./wallpapers/" + filename`. |
| `GalleryManifest.ScanEntries` | simulate_spectra_e6/generate_gallery.py:79-95 | The enumerate loop: entry k has id k+1, the title the rule gives file k, its resolution, and `./wallpapers/` + file k as both paths. ScanWallpapers applies it with `generate_title`. |
| `GalleryManifest.ScannedIds` | simulate_spectra_e6/generate_gallery.py:80-86 | The ids are exactly 1..n. |
| `GalleryManifest.JavaScript` | simulate_spectra_e6/generate_gallery.py:99-113 | The output starts with the header comment and `const artworks = [`. It ends with `];\n`. |
| `GalleryManifest.GenerateJavascript` | simulate_spectra_e6/generate_gallery.py:97-114 | The accumulated string is the header, one block per artwork in input order, each block followed by a comma unless it is the last and then by a newline, and then the footer. |
| `GalleryManifest.AppendPiece` | simulate_spectra_e6/generate_gallery.py:101-111 | One loop turn appends exactly the next block, its comma rule and its newline. |
| `GalleryManifest.JavaScriptEmpty` | simulate_spectra_e6/generate_gallery.py:99-114 | An empty list yields just the header and `];\n`. |
| `GalleryManifest.PiecesAreJoined` | simulate_spectra_e6/generate_gallery.py:101-111 | The loop's comma rule equals joining the blocks with ",\n" and adding a final "\n". |
| `GalleryManifest.PiecesSuffix` | simulate_spectra_e6/generate_gallery.py:101-111 | Each tail of the loop's output is the join of the remaining blocks. |
| `E6Image.Dist2Zero` | simulate_spectra_e6/image_processor.py:33 | The distance is zero iff the colours are equal. |
| `E6Image.ClosestIndex` | simulate_spectra_e6/image_processor.py:33-34 | `np.argmin`: the index is a nearest palette entry, and no earlier entry is as near. |
| `E6Image.ClosestIndexUnique` | simulate_spectra_e6/image_processor.py:34 | The first-minimum rule determines the index uniquely. |
| `E6Image.FindClosestColor` | simulate_spectra_e6/image_processor.py:30-34 | The result is one of the six palette colours. No palette colour is nearer. |
| `E6Image.PaletteFixed` | simulate_spectra_e6/image_processor.py:15-34 | Each palette colour maps to itself. |
| `E6Image.QuantizeRow` | simulate_spectra_e6/image_processor.py:89 | Each pixel of a row is replaced by its nearest colour. |
| `E6Image.Quantize` | simulate_spectra_e6/image_processor.py:75-94 | Width and height are kept. Every output pixel is a palette colour at least as near as any other palette colour. |
| `E6Image.QuantizeFixed` | simulate_spectra_e6/image_processor.py:83-94 | An image already in the palette is unchanged. |
| `E6Image.QuantizeIdempotent` | simulate_spectra_e6/image_processor.py:83-94 | Quantising twice equals quantising once. |
| `E6Image.CropBox` | simulate_spectra_e6/image_processor.py:36-57 | A zero height or target height fails, and so does a zero target width in the tall branch. Otherwise `0 <= left <= right <= w` and `0 <= top <= bottom <= h`. A wider image keeps the full height; its width is centred and is the floor of `h * tw / th`. Otherwise the full width is kept; the height is centred and is the floor of `w * th / tw`. |
| `E6Image.WideBox` | simulate_spectra_e6/image_processor.py:42-48 | The wide branch: in bounds, full height, centred, and the widest strip within the target ratio. |
| `E6Image.TallBox` | simulate_spectra_e6/image_processor.py:49-55 | The tall branch: in bounds, full width, centred, and the tallest strip within the target ratio. |
| `E6Image.StemSuffix` | simulate_spectra_e6/image_processor.py:119 | `PurePath.stem` and `PurePath.suffix`: the two rejoin to the name. A suffix is a dot plus at least one character without dots, after a non-empty stem. When there is no suffix, the name has no dot, or only a leading dot, or ends with a dot. |
| `E6Image.ProcessedKeepsSuffix` | simulate_spectra_e6/image_processor.py:119 | `<stem>_e6<suffix>` has the same suffix as the input and the stem `<stem>_e6`. |
| `E6Image.ProcessedWithoutDot` | simulate_spectra_e6/image_processor.py:158 | A name without a dot just gets `_e6` appended and still has no suffix. |
| `E6Image.DefaultOutputPath` | simulate_spectra_e6/image_processor.py:117-119 | With no output path, the result is `parent/processed/<stem>_e6<suffix>`. |
| `E6Image.FolderOutputPath` | simulate_spectra_e6/image_processor.py:158 | In folder mode the output is `output_folder/<stem>_e6<suffix>`. |
| `E6Image.FolderDefaultAgrees` | simulate_spectra_e6/image_processor.py:136-158 | With the default output folder, folder mode names every file exactly as single-file mode does. |
| `E6Image.ImageFiles` | simulate_spectra_e6/image_processor.py:144-148 | A path is selected iff it is a regular file whose lower-cased suffix is supported. There are never more files than entries. |
| `E6Image.ImageFilesAppend` | simulate_spectra_e6/image_processor.py:147-148 | The comprehension filters a listing in two parts part by part: listing order and repeats are kept. |
| `E6Image.Successes` | simulate_spectra_e6/image_processor.py:156-161 | The count of successes is at most the number of files. It equals that number iff every file succeeds. |
| `E6Image.ProcessFolder` | simulate_spectra_e6/image_processor.py:132-164 | No supported file means the early return. Otherwise every selected file goes to `output_folder/<stem>_e6<suffix>`, with `input_folder/processed` when no folder is given. `processed_count` counts the successes and is at most the number of files. |
| `E6Image.ProcessFiles` | simulate_spectra_e6/image_processor.py:156-161 | The loop: output k is the path given to file k (ProcessFolder gives it `output_folder/<stem>_e6<suffix>`), and the counter equals the number of successes. |
| `WallpaperCropper.CropBox400x600` | simulate_spectra_e6/crop_wallpapers.py:18-43 | A zero height fails (the caught ZeroDivisionError). Otherwise the box lies within the image. In the wide branch `top == 0`, `bottom == h` and the width is centred. In the tall branch `left == 0`, `right == w` and the height is centred. |
| `WallpaperCropper.SameBoxAsProcessor` | simulate_spectra_e6/crop_wallpapers.py:25-40 | The duplicated arithmetic gives the same box as `crop_to_aspect_ratio` with the 400x600 target, for every size. |
| `WallpaperCropper.GatheredMembers` | simulate_spectra_e6/crop_wallpapers.py:68-71 | A file is gathered iff one of the two glob calls for some pattern returned it. |
| `WallpaperCropper.GatherImageFiles` | simulate_spectra_e6/crop_wallpapers.py:64-71 | The `extend` loop appends, for each pattern in order, the matches of the pattern and then those of the upper-cased pattern. |
| `WallpaperCropper.PhotoName` | simulate_spectra_e6/crop_wallpapers.py:86 | The output name starts with `photo-` and ends with `.jpg`. |
| `Strings.ZeroPad2Injective` | simulate_spectra_e6/crop_wallpapers.py:86 | Different numbers get different `{i:02d}` renderings. |
| `WallpaperCropper.PhotoNamesDistinct` | simulate_spectra_e6/crop_wallpapers.py:81-87 | Different indices give different output names. |
| `WallpaperCropper.OutputPaths` | simulate_spectra_e6/crop_wallpapers.py:81-90 | The i-th input (from 1) is written to `wallpapers/photo-{i:02d}.jpg`, and no two inputs share an output. |
| `WallpaperCropper.PrintedEntries` | simulate_spectra_e6/crop_wallpapers.py:98-105 | There is one entry per image. Entry i has id 36 + i, title "Photo {i:02d}", resolution 400x600 and equal thumbnail and full-size paths. |
| `WallpaperCropper.PrintedMatchesScanned` | simulate_spectra_e6/crop_wallpapers.py:98-105 | The printed entry for `photo-{i:02d}.jpg` is the entry `scan_wallpapers` builds for that file: `generate_title` gives the same "Photo {i:02d}". |
| `Theme.SystemTheme` | js/dark-mode.js:31-34 | Dark iff `matchMedia` exists and the system prefers dark. |
| `Theme.SavedTheme` | js/dark-mode.js:25-38 | A non-empty stored value wins. Without one, the theme is dark iff the system prefers it. A throwing storage yields light. The result is never empty. |
| `Theme.SaveTheme` | js/dark-mode.js:41-47 | On a working storage the key is set and the other keys are unchanged. A throwing storage stays as it was. |
| `Theme.Toggled` | js/dark-mode.js:52 | The next theme is dark or light. It is dark iff the current one is not dark. |
| `Theme.SaveThenRead` | js/dark-mode.js:25-47 | A saved non-empty theme is the one read back, whatever the system prefers. |
| `Theme.ToggleStoresDarkOrLight` | js/dark-mode.js:50-55 | After a toggle on a working storage the stored theme is dark or light. |
| `Theme.TwoTogglesRestore` | js/dark-mode.js:50-55 | Two toggles from a stored dark or light restore it. |
| `Theme.ToggleWithoutStorage` | js/dark-mode.js:25-55 | When the storage throws, every toggle leaves it unchanged and applies dark. |
| `Theme.ThemePage.ApplyTheme` | js/dark-mode.js:8-22 | The `dark` class is present iff the theme is dark. The moon shows iff dark and the sun iff not. Missing icons stay missing. |
| `Theme.ThemePage.ToggleTheme` | js/dark-mode.js:50-55 | The opposite of the read theme is saved and shown. |
| `Theme.ThemePage.InitTheme` | js/dark-mode.js:58-78 | The read theme is shown. The listener is registered iff `matchMedia` exists and nothing is stored. With `matchMedia` and a throwing storage, init throws after applying the theme. |
| `Theme.ThemePage.SystemChange` | js/dark-mode.js:69-77 | The registered listener shows the new system theme while nothing is stored. Otherwise the page is unchanged. |
| `Theme.ThemePage.ListenerAgreesWithSaved` | js/dark-mode.js:69-77 | While nothing is stored, what the listener shows agrees with what `getSavedTheme` reports. |

## Left out

- DOM rendering is represented by the state it shows: the surface, buttons, grid, modal and body overflow. Left out are the `innerHTML` templates, element creation, event wiring (click, Escape key, `DOMContentLoaded`) and the `createGalleryItem` markup.
- The loading delay (`setTimeout`) is not modelled; `LoadArtworks` is the timer's callback. Also left out are `EinkOptimizer.throttle`/`debounce` and the resize handler, all timer-driven.
- `fetch`, `Blob`, `URL.createObjectURL` and the link click in `downloadArtwork` are asynchronous I/O. Only the null guard and the file name are modelled.
- `Math.random` is replaced by the injected indices `js`, with `js[i]` in `[0, i]`.
- The image I/O and library code is not modelled: image open and save, `convert('RGB')`, the LANCZOS resize and `enhance_for_eink`, which is floating-point contrast and saturation.
- The crop ratio is compared exactly (`w * th > h * tw`), and `int(h * (tw / th))` is the exact floor. The float rounding of the source can differ by one pixel near the boundary.
- `E6Image.CropBox`: the target size is a natural number. Negative `--width`/`--height` values are not modelled.
- The palette lookup uses squared distance. The source's `np.sqrt` is increasing, so the index of the minimum is the same.
- Pixels are integer triples. The `uint8` cast changes nothing, because every palette channel is 0 or 255.
- Filesystem and process plumbing are not modelled: `os.path.exists`, `mkdir`, `argparse`/`main`, console output, and the chosen image's success in `process_image`.
- `E6Image.ProcessFolder` receives the `iterdir` listing in its order, and a function saying which files `process_image` handles successfully.
- `GalleryManifest.ScanWallpapers` receives the sorted list of base names. The glob and sort in front of it, and the missing-folder early return, are not modelled. `get_image_info` is the parameter `resolutionOf`.
- `WallpaperCropper.GatherImageFiles` receives glob's answers as a function. The `crop_to_400x600` pipeline on a file (open, crop, resize, save) is represented only by its box.
- The text that the cropper prints is not modelled; its entries are modelled as records. `generate_javascript` does not escape quotes in titles, and the model reproduces the text as written.
- Paths are sequences of components. The parsing of path strings (roots, `..`, repeated slashes) is not modelled.
- `os.path.join` is modelled for a relative second part only.
- Case mapping (`lower`, `upper`, `title`, `toLowerCase`) covers ASCII letters only. Other characters are left unchanged.
- JavaScript `\s` is modelled by code point: the ECMAScript white-space and line-terminator characters.
- The `Array.prototype.sort` comparator is modelled by its key, since the comparator's sign is that of the key difference. Screen sizes are integer hundredths of an inch.
- `localStorage` is a map that either works or throws on every access. `matchMedia` is a pair of booleans: whether it exists and whether the system prefers dark. The click listener registered in `initTheme` is modelled as calling `ToggleTheme`.
- `GalleryWidget.Gallery.SwitchDevice`: the device table is a map. Ids naming inherited `Object.prototype` properties (`toString`, `constructor`, `__proto__`, …) are not modelled. They pass the truthiness guard at script.js:187, set `currentDevice` and the device image, and then throw at line 198, reading `left` of an undefined display position. The selector buttons only send the two table keys.
- `GalleryWidget.Gallery.CloseModal` models `document.body.style.overflow = ''` as the empty string.
