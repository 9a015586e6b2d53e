/**
 * The gallery manifest generator of simulate_spectra_e6/generate_gallery.py:
 * the title a file name gets, the entries scan_wallpapers builds over the
 * sorted file list, and the JavaScript array literal generate_javascript
 * writes out.
 */
module GalleryManifest {
  import Strings
  import GalleryWidget
  import Wrappers

  type Artwork = GalleryWidget.Artwork

  // ---- os.path.splitext ---------------------------------------------------------

  predicate AllDots(s: string)
  {
    forall k :: 0 <= k < |s| ==> s[k] == '.'
  }

  /**
   * os.path.splitext of a bare file name: the extension starts at the last
   * dot, unless only dots precede it (".bashrc", "..x"), in which case there
   * is none.
   */
  function SplitExt(name: string): (parts: (string, string))
    ensures parts.0 + parts.1 == name
    ensures parts.1 == [] || (parts.1[0] == '.' && '.' !in parts.1[1..])
    ensures parts.1 != [] <==> exists i :: 0 <= i < |name| && name[i] == '.' && !AllDots(name[..i])
  {
    var i := Strings.LastIndexOf(name, '.');
    if i >= 0 && !AllDots(name[..i]) then
      assert name[..i] + name[i..] == name;
      assert forall k :: i + 1 <= k < |name| ==> name[i + 1..][k - i - 1] == name[k];
      (name[..i], name[i..])
    else
      assert forall j :: 0 <= j < |name| && name[j] == '.' ==> j <= i && AllDots(name[..j]) by {
        forall j | 0 <= j < |name| && name[j] == '.' ensures j <= i && AllDots(name[..j]) {
          if AllDots(name[..i]) && j < i {
            assert forall k :: 0 <= k < j ==> name[..j][k] == name[..i][k];
          }
        }
      }
      (name, [])
  }

  // ---- generate_title ------------------------------------------------------------

  /** `f"{rest.title()} Waves"` and its kin, after dropping the prefix and any ".svg" left in the name. */
  function Worded(name: string, prefix: string, suffix: string): (title: string)
    requires prefix != []
    ensures Strings.EndsWith(title, suffix)
  {
    var rest := Strings.Replace(Strings.Replace(name, prefix, ""), ".svg", "");
    Strings.EndsWithConcat(Strings.Title(rest), suffix);
    Strings.Title(rest) + suffix
  }

  /** Which branch of generate_title's if-chain applies. */
  datatype TitleRule =
    | PhotoRule
    | GeometricRule
    | WordRule(prefix: string, suffix: string)
    | KebabRule
    | PlainRule

  /** The prefix tests of generate_title, in the order the source tries them. */
  function RuleFor(name: string): (rule: TitleRule)
    ensures rule.WordRule? ==> rule.prefix != [] && Strings.StartsWith(name, rule.prefix)
  {
    if Strings.StartsWith(name, "photo-") then PhotoRule
    else if Strings.StartsWith(name, "geometric-") then GeometricRule
    else if Strings.StartsWith(name, "waves-") then WordRule("waves-", " Waves")
    else if Strings.StartsWith(name, "circles-") then WordRule("circles-", " Circles")
    else if Strings.StartsWith(name, "grid-") then WordRule("grid-", " Grid")
    else if Strings.StartsWith(name, "triangles-") then WordRule("triangles-", " Triangles")
    else if Strings.StartsWith(name, "stripes-") then WordRule("stripes-", " Stripes")
    else if '-' in name then KebabRule
    else PlainRule
  }

  /** The title each branch returns.  Each `replace` replaces every occurrence, not only the prefix. */
  function ApplyRule(name: string, rule: TitleRule): string
    requires rule.WordRule? ==> rule.prefix != []
  {
    match rule
    case PhotoRule => "Photo " + Strings.Upper(Strings.Replace(name, "photo-", ""))
    case GeometricRule => Strings.Title(Strings.Replace(Strings.Replace(name, "geometric-", ""), "-", " "))
    case WordRule(prefix, suffix) => Worded(name, prefix, suffix)
    case KebabRule => Strings.Title(Strings.Replace(name, "-", " "))
    case PlainRule => Strings.Title(Strings.Replace(name, "_", " "))
  }

  /** generate_title: the extension is dropped, then the first rule whose prefix matches decides. */
  function GenerateTitle(filename: string): (title: string)
  {
    var name := SplitExt(filename).0;
    ApplyRule(name, RuleFor(name))
  }

  /** None of the named prefixes: the fallbacks decide. */
  predicate NoNamedPrefix(name: string)
  {
    && !Strings.StartsWith(name, "photo-") && !Strings.StartsWith(name, "geometric-")
    && !Strings.StartsWith(name, "waves-") && !Strings.StartsWith(name, "circles-")
    && !Strings.StartsWith(name, "grid-") && !Strings.StartsWith(name, "triangles-")
    && !Strings.StartsWith(name, "stripes-")
  }

  /**
   * Without a named prefix, a name with a hyphen is title-cased with its
   * hyphens made spaces, and any other name with its underscores made spaces;
   * so the kebab-case fallback leaves no hyphen and the last fallback leaves
   * neither an underscore nor a hyphen.
   */
  lemma FallbackTitles(filename: string)
    requires NoNamedPrefix(SplitExt(filename).0)
    ensures '-' in SplitExt(filename).0 ==>
      GenerateTitle(filename) == Strings.Title(Strings.Replace(SplitExt(filename).0, "-", " "))
    ensures '-' !in SplitExt(filename).0 ==>
      GenerateTitle(filename) == Strings.Title(Strings.Replace(SplitExt(filename).0, "_", " "))
    ensures '-' in SplitExt(filename).0 ==> '-' !in GenerateTitle(filename)
    ensures '-' !in SplitExt(filename).0 ==> '_' !in GenerateTitle(filename) && '-' !in GenerateTitle(filename)
  {
    var name := SplitExt(filename).0;
    if '-' in name {
      Strings.ReplaceCharRemoves(name, '-', " ");
      Strings.TitleKeepsNonLetter(Strings.Replace(name, "-", " "), '-');
    } else {
      Strings.ReplaceCharRemoves(name, '_', " ");
      Strings.TitleKeepsNonLetter(Strings.Replace(name, "_", " "), '_');
      ReplaceKeepsAbsent(name, '_', " ", '-');
      Strings.TitleKeepsNonLetter(Strings.Replace(name, "_", " "), '-');
    }
  }

  /** Replacing a character by text without `d` introduces no `d`. */
  lemma {:induction false} ReplaceKeepsAbsent(s: string, c: char, rep: string, d: char)
    requires d !in s && d !in rep
    ensures d !in Strings.Replace(s, [c], rep)
    decreases |s|
  {
    if |s| >= 1 {
      ReplaceKeepsAbsent(s[1..], c, rep, d);
    }
  }

  /** A bare name with one extension splits at its dot. */
  lemma SplitAtOnlyDot(stem: string, ext: string)
    requires stem != [] && '.' !in stem
    requires ext != [] && ext[0] == '.' && '.' !in ext[1..]
    ensures SplitExt(stem + ext) == (stem, ext)
  {
    var name := stem + ext;
    assert forall k :: |stem| < k < |name| ==> name[k] == ext[1..][k - |stem| - 1];
    Strings.LastIndexOfAt(name, '.', |stem|);
    assert name[..|stem|] == stem;
    assert name[|stem|..] == ext;
    assert stem[0] != '.';
  }

  /** A prefix excludes every other that differs from it at some position. */
  lemma OtherPrefix(s: string, p: string, q: string, j: nat)
    requires j < |p| && j < |q| && p[j] != q[j]
    requires Strings.StartsWith(s, p)
    ensures !Strings.StartsWith(s, q)
  {
    assert s[..|p|][j] == s[j];
    if |q| <= |s| {
      assert s[..|q|][j] == s[j];
    }
  }

  /**
   * A `waves-` name whose colour part has no dot is titled with that part
   * title-cased and " Waves" appended: `waves-blue.svg` becomes "Blue Waves".
   */
  lemma WavesTitle(color: string)
    requires '.' !in color && !Strings.Occurs(color, "waves-")
    ensures GenerateTitle("waves-" + color + ".svg") == Strings.Title(color) + " Waves"
  {
    var stem := "waves-" + color;
    var filename := "waves-" + color + ".svg";
    assert '.' !in stem by {
      assert forall k :: 0 <= k < |stem| ==> stem[k] == if k < 6 then "waves-"[k] else color[k - 6];
    }
    assert filename == stem + ".svg";
    SplitAtOnlyDot(stem, ".svg");
    Strings.StartsWithConcat("waves-", color);
    OtherPrefix(stem, "waves-", "photo-", 0);
    OtherPrefix(stem, "waves-", "geometric-", 0);
    assert RuleFor(stem) == WordRule("waves-", " Waves");
    WordedAfterPrefix("waves-", color, " Waves");
    assert SplitExt(filename).0 == stem;
  }

  /** A word rule applied to its prefix followed by text free of the prefix and of dots. */
  lemma WordedAfterPrefix(prefix: string, rest: string, suffix: string)
    requires prefix != [] && '.' !in rest && !Strings.Occurs(rest, prefix)
    ensures Worded(prefix + rest, prefix, suffix) == Strings.Title(rest) + suffix
  {
    var s := prefix + rest;
    assert s[..|prefix|] == prefix && s[|prefix|..] == rest;
    Strings.ReplaceAbsent(rest, prefix, "");
    assert Strings.Replace(s, prefix, "") == rest;
    Strings.AbsentFirstNotOccurs(rest, ".svg");
    Strings.ReplaceAbsent(rest, ".svg", "");
  }

  /** The rules that append a word end the title in that word. */
  lemma WordRuleTitles(filename: string)
    ensures var name := SplitExt(filename).0;
      RuleFor(name).WordRule? ==> Strings.EndsWith(GenerateTitle(filename), RuleFor(name).suffix)
  {
  }

  /**
   * A `geometric-` name whose remainder has neither a dot nor the prefix again
   * is titled with the remainder title-cased and its hyphens made spaces:
   * `geometric-red-blue.svg` becomes "Red Blue".
   */
  lemma GeometricTitle(rest: string, ext: string)
    requires '.' !in rest && !Strings.Occurs(rest, "geometric-")
    requires ext != [] && ext[0] == '.' && '.' !in ext[1..]
    ensures GenerateTitle("geometric-" + rest + ext) == Strings.Title(Strings.Replace(rest, "-", " "))
    ensures '-' !in GenerateTitle("geometric-" + rest + ext)
  {
    var stem := "geometric-" + rest;
    assert '.' !in stem by {
      assert forall k :: 0 <= k < |stem| ==> stem[k] == if k < 10 then "geometric-"[k] else rest[k - 10];
    }
    SplitAtOnlyDot(stem, ext);
    Strings.StartsWithConcat("geometric-", rest);
    OtherPrefix(stem, "geometric-", "photo-", 0);
    assert RuleFor(stem) == GeometricRule;
    Strings.ReplaceAbsent(rest, "geometric-", "");
    assert Strings.Replace(stem, "geometric-", "") == "" + Strings.Replace(rest, "geometric-", "") by {
      assert stem[..10] == "geometric-" && stem[10..] == rest;
    }
    assert "" + rest == rest;
    Strings.ReplaceCharRemoves(rest, '-', " ");
    Strings.TitleKeepsNonLetter(Strings.Replace(rest, "-", " "), '-');
  }

  /**
   * A `photo-` name whose remainder has neither a dot nor the prefix again is
   * titled "Photo " and the remainder upper-cased: `photo-ab.jpg` becomes
   * "Photo AB".
   */
  lemma PhotoTitleUpper(rest: string, ext: string)
    requires '.' !in rest && !Strings.Occurs(rest, "photo-")
    requires ext != [] && ext[0] == '.' && '.' !in ext[1..]
    ensures GenerateTitle("photo-" + rest + ext) == "Photo " + Strings.Upper(rest)
  {
    var stem := "photo-" + rest;
    assert '.' !in stem by {
      assert forall k :: 0 <= k < |stem| ==> stem[k] == if k < 6 then "photo-"[k] else rest[k - 6];
    }
    SplitAtOnlyDot(stem, ext);
    Strings.StartsWithConcat("photo-", rest);
    assert RuleFor(stem) == PhotoRule;
    Strings.ReplaceAbsent(rest, "photo-", "");
    assert Strings.Replace(stem, "photo-", "") == "" + Strings.Replace(rest, "photo-", "") by {
      assert stem[..6] == "photo-" && stem[6..] == rest;
    }
    assert "" + rest == rest;
  }

  /** `photo-NN.ext` with NN digits is titled "Photo NN". */
  lemma PhotoTitle(digits: string, ext: string)
    requires forall k :: 0 <= k < |digits| ==> Strings.IsDigit(digits[k])
    requires ext != [] && ext[0] == '.' && '.' !in ext[1..]
    ensures GenerateTitle("photo-" + digits + ext) == "Photo " + digits
  {
    assert '.' !in digits by {
      assert forall k :: 0 <= k < |digits| ==> digits[k] != '.';
    }
    Strings.AbsentFirstNotOccurs(digits, "photo-");
    PhotoTitleUpper(digits, ext);
    Strings.UpperOfNoLetters(digits);
  }

  // ---- scan_wallpapers ----------------------------------------------------------

  const WallpapersPrefix: string := "./wallpapers/"

  /** The dictionary scan_wallpapers builds for the file with the given id. */
  function WallpaperEntry(id: int, filename: string, resolution: string): Artwork
  {
    var path := WallpapersPrefix + filename;
    GalleryWidget.Artwork(id, GenerateTitle(filename), resolution, path, path)
  }

  /**
   * scan_wallpapers over the sorted file list: entry i (from 1) gets id i,
   * the title of its file name, the resolution the image reports and the
   * same path as thumbnail and full-size image.  An empty listing yields
   * None, as the early return does.  `resolutionOf` stands for
   * get_image_info, which opens the image.
   */
  method ScanWallpapers(sortedFiles: seq<string>, resolutionOf: string -> string)
    returns (artworks: Wrappers.Option<seq<Artwork>>)
    ensures artworks.None? <==> sortedFiles == []
    ensures artworks.Some? ==> |artworks.value| == |sortedFiles|
    ensures artworks.Some? ==> forall k :: 0 <= k < |sortedFiles| ==>
      && artworks.value[k].id == k + 1
      && artworks.value[k].title == GenerateTitle(sortedFiles[k])
      && artworks.value[k].resolution == resolutionOf(sortedFiles[k])
      && artworks.value[k].thumbnail == WallpapersPrefix + sortedFiles[k]
      && artworks.value[k].fullSize == artworks.value[k].thumbnail
  {
    if sortedFiles == [] {
      return Wrappers.None;
    }
    var list := ScanEntries(sortedFiles, resolutionOf, GenerateTitle);
    return Wrappers.Some(list);
  }

  /** The enumerate loop of scan_wallpapers, with the title rule `titleOf` it applies to each name. */
  method ScanEntries(sortedFiles: seq<string>, resolutionOf: string -> string, titleOf: string -> string)
    returns (list: seq<Artwork>)
    ensures |list| == |sortedFiles|
    ensures forall k :: 0 <= k < |sortedFiles| ==>
      list[k] == GalleryWidget.Artwork(k + 1, titleOf(sortedFiles[k]), resolutionOf(sortedFiles[k]),
                                       WallpapersPrefix + sortedFiles[k], WallpapersPrefix + sortedFiles[k])
  {
    list := [];
    for i := 0 to |sortedFiles|
      invariant |list| == i
      invariant forall k :: 0 <= k < i ==>
        list[k] == GalleryWidget.Artwork(k + 1, titleOf(sortedFiles[k]), resolutionOf(sortedFiles[k]),
                                         WallpapersPrefix + sortedFiles[k], WallpapersPrefix + sortedFiles[k])
    {
      var filename := sortedFiles[i];
      var path := WallpapersPrefix + filename;
      list := list + [GalleryWidget.Artwork(i + 1, titleOf(filename), resolutionOf(filename), path, path)];
    }
  }

  /** The ids scan_wallpapers assigns are exactly 1..n, one per file. */
  lemma ScannedIds(artworks: seq<Artwork>)
    requires forall k :: 0 <= k < |artworks| ==> artworks[k].id == k + 1
    ensures forall i :: i in GalleryWidget.Ids(artworks) <==> 1 <= i <= |artworks|
  {
    var ids := GalleryWidget.Ids(artworks);
    forall i | 1 <= i <= |artworks| ensures i in ids {
      assert artworks[i - 1].id == i;
    }
    forall i | i in ids ensures 1 <= i <= |artworks| {
      var a :| a in artworks && a.id == i;
    }
  }

  // ---- generate_javascript --------------------------------------------------------

  const Header: string := "// Gallery data - Auto-generated from wallpapers folder\nconst artworks = [\n"
  const Footer: string := "];\n"

  /** The object literal written for one artwork, without what follows it. */
  function Block(a: Artwork): string
  {
    "    {\n"
    + "        id: " + Strings.IntToString(a.id) + ",\n"
    + "        title: \"" + a.title + "\",\n"
    + "        resolution: \"" + a.resolution + "\",\n"
    + "        thumbnail: \"" + a.thumbnail + "\",\n"
    + "        fullSize: \"" + a.fullSize + "\"\n"
    + "    }"
  }

  function BlocksOf(arts: seq<Artwork>): (blocks: seq<string>)
    ensures |blocks| == |arts| && forall i :: 0 <= i < |arts| ==> blocks[i] == Block(arts[i])
  {
    seq(|arts|, i requires 0 <= i < |arts| => Block(arts[i]))
  }

  /** What the loop appends for entry i: the block, a comma unless it is the last, a newline. */
  function Piece(blocks: seq<string>, i: nat): string
    requires i < |blocks|
  {
    blocks[i] + (if i < |blocks| - 1 then "," else "") + "\n"
  }

  /** The pieces of the first n entries, in order. */
  function Pieces(blocks: seq<string>, n: nat): string
    requires n <= |blocks|
  {
    if n == 0 then "" else Pieces(blocks, n - 1) + Piece(blocks, n - 1)
  }

  /**
   * The same text defined independently: the blocks joined by ",\n", with a
   * final "\n" after the last.
   */
  function JoinedBlocks(blocks: seq<string>): string
  {
    if blocks == [] then ""
    else if |blocks| == 1 then blocks[0] + "\n"
    else blocks[0] + ",\n" + JoinedBlocks(blocks[1..])
  }

  /** The whole file generate_javascript returns. */
  function JavaScript(arts: seq<Artwork>): (js: string)
    ensures Strings.StartsWith(js, Header) && Strings.EndsWith(js, Footer)
  {
    var body := Pieces(BlocksOf(arts), |arts|);
    Strings.StartsWithConcat(Header, body + Footer);
    Strings.EndsWithConcat(Header + body, Footer);
    Strings.ConcatAssoc(Header, body, Footer);
    Header + body + Footer
  }

  /**
   * generate_javascript: starts from the header and, for each artwork in
   * order, appends its block of seven lines, a comma unless it is the last
   * one, and a newline; then closes the array.
   */
  method GenerateJavascript(arts: seq<Artwork>) returns (js: string)
    ensures js == JavaScript(arts)
  {
    ghost var blocks := BlocksOf(arts);
    js := Header;
    for i := 0 to |arts|
      invariant js == Header + Pieces(blocks, i)
    {
      ghost var before := js;
      js := js + Block(arts[i]);
      if i < |arts| - 1 {
        js := js + ",";
      }
      js := js + "\n";
      AppendPiece(Header, blocks, i, before, js);
    }
    js := js + Footer;
  }

  /** One turn of generate_javascript's loop adds the next piece. */
  lemma AppendPiece(header: string, blocks: seq<string>, i: nat, before: string, after: string)
    requires i < |blocks| && before == header + Pieces(blocks, i)
    requires after == (if i < |blocks| - 1 then before + blocks[i] + "," else before + blocks[i]) + "\n"
    ensures after == header + Pieces(blocks, i + 1)
  {
    var sep := if i < |blocks| - 1 then "," else "";
    assert after == before + blocks[i] + sep + "\n";
    Strings.ConcatAssoc(before, blocks[i], sep);
    Strings.ConcatAssoc(before, blocks[i] + sep, "\n");
    Strings.ConcatAssoc(header, Pieces(blocks, i), Piece(blocks, i));
  }

  /** An empty list yields only the header and the closing bracket. */
  lemma JavaScriptEmpty()
    ensures JavaScript([]) == Header + Footer
  {
  }

  /** The loop's comma rule is the join of the blocks by ",\n". */
  lemma PiecesAreJoined(arts: seq<Artwork>)
    ensures Pieces(BlocksOf(arts), |arts|) == JoinedBlocks(BlocksOf(arts))
  {
    var blocks := BlocksOf(arts);
    PiecesSuffix(blocks, 0);
    assert blocks[0..] == blocks;
  }

  /** Pieces of entries n.. of `blocks`, as JoinedBlocks of that suffix. */
  lemma {:induction false} PiecesSuffix(blocks: seq<string>, n: nat)
    requires n <= |blocks|
    ensures Pieces(blocks, |blocks|) == Pieces(blocks, n) + JoinedBlocks(blocks[n..])
    decreases |blocks| - n
  {
    if n == |blocks| {
      assert blocks[n..] == [];
    } else {
      PiecesSuffix(blocks, n + 1);
      var rest := blocks[n..];
      assert rest[1..] == blocks[n + 1..];
      if n == |blocks| - 1 {
        assert JoinedBlocks(rest) == Piece(blocks, n);
        assert blocks[n + 1..] == [];
      } else {
        assert JoinedBlocks(rest) == Piece(blocks, n) + JoinedBlocks(blocks[n + 1..]);
      }
      Strings.ConcatAssoc(Pieces(blocks, n), Piece(blocks, n), JoinedBlocks(blocks[n + 1..]));
    }
  }
}
