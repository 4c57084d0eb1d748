/**
 * test_fonts.py: whether a font can draw a glyph, judged from the rendered
 * bitmap (`glyphInFont`), and the check of every listed font against the
 * German alphabet (`testFontList`). Rendering and font loading are oracles: a
 * rendered glyph is given as its surface, or as the exception render raised.
 */
module TestFonts {
  import opened Strings

  datatype Rgb = Rgb(r: int, g: int, b: int)

  /** The background colour the glyph is rendered on. */
  const Black: Rgb := Rgb(0, 0, 0)

  /** A rendered surface: its size and the colour at each coordinate. */
  datatype Surface = Surface(width: nat, height: nat, pixel: (int, int) -> Rgb)

  /**
   * What `font.render(glyph, True, WHITE, BLACK)` gives: a surface, a UnicodeError,
   * or any other exception (such as `pygame.error`).
   */
  datatype RenderResult = Rendered(surface: Surface) | UnicodeFail | RenderRaised

  /**
   * How `glyphInFont` ends: with an answer, with the IndexError of `get_at`, or with
   * the exception of `render` that `except UnicodeError` does not catch.
   */
  datatype Verdict = Answer(found: bool) | IndexError | RenderError

  /** `surface.get_at((x, y))`: None where pygame raises IndexError. */
  function GetAt(s: Surface, x: int, y: int): (p: Option<Rgb>)
    ensures p.Some? <==> 0 <= x < s.width && 0 <= y < s.height
    ensures p.Some? ==> p.value == s.pixel(x, y)
  {
    if 0 <= x < s.width && 0 <= y < s.height then Some(s.pixel(x, y)) else None
  }

  /** A pixel that is not background. */
  predicate Ink(s: Surface, x: int, y: int) {
    s.pixel(x, y) != Black
  }

  // Lines 35-43: the 50% search box around the centre, in floor division.
  function XCentre(s: Surface): int { s.width / 2 }
  function YCentre(s: Surface): int { s.height / 2 }
  function BoxLeft(s: Surface): int { s.width / 2 - s.width / 4 }
  function BoxRight(s: Surface): int { s.width / 2 + s.width / 4 }
  function BoxTop(s: Surface): int { s.height / 2 - s.height / 4 }
  function BoxBottom(s: Surface): int { s.height / 2 + s.height / 4 }

  /** Some ink on row `y` within the box's columns. */
  predicate RowInk(s: Surface, y: int) {
    exists x :: BoxLeft(s) <= x < BoxRight(s) && Ink(s, x, y)
  }

  /** Some ink on the centre column within the box's rows. */
  predicate ColumnInk(s: Surface) {
    exists y :: BoxTop(s) <= y < BoxBottom(s) && Ink(s, XCentre(s), y)
  }

  /** Some ink anywhere in the box. */
  predicate BoxInk(s: Surface) {
    exists y :: BoxTop(s) <= y < BoxBottom(s) && RowInk(s, y)
  }

  /**
   * What `glyphInFont` decides: false on a UnicodeError; any other exception of
   * `render` escapes; an IndexError escapes
   * exactly for an empty bitmap with a non-empty box range along the other axis;
   * otherwise true iff the centre row, the centre column or the box shows ink.
   */
  function GlyphVerdict(r: RenderResult): Verdict {
    match r
    case UnicodeFail => Answer(false)
    case RenderRaised => RenderError
    case Rendered(s) =>
      if (s.height == 0 && s.width >= 4) || (s.width == 0 && s.height >= 4) then IndexError
      else Answer(RowInk(s, YCentre(s)) || ColumnInk(s) || BoxInk(s))
  }

  /** The box is half the bitmap along each axis (rounded down to an even count), centred. */
  lemma BoxShape(s: Surface)
    ensures BoxRight(s) - BoxLeft(s) == 2 * (s.width / 4)
    ensures BoxBottom(s) - BoxTop(s) == 2 * (s.height / 4)
    ensures BoxLeft(s) <= XCentre(s) <= BoxRight(s) && BoxTop(s) <= YCentre(s) <= BoxBottom(s)
    ensures BoxLeft(s) < BoxRight(s) <==> s.width >= 4
    ensures BoxTop(s) < BoxBottom(s) <==> s.height >= 4
  {
  }

  /** For a non-empty bitmap every probed coordinate lies inside it, so no IndexError. */
  lemma ProbesInBounds(s: Surface, x: int, y: int)
    requires s.width > 0 && s.height > 0
    ensures 0 <= XCentre(s) < s.width && 0 <= YCentre(s) < s.height
    ensures BoxLeft(s) <= x < BoxRight(s) ==> GetAt(s, x, YCentre(s)).Some?
    ensures BoxTop(s) <= y < BoxBottom(s) ==> GetAt(s, XCentre(s), y).Some?
    ensures BoxLeft(s) <= x < BoxRight(s) && BoxTop(s) <= y < BoxBottom(s) ==> GetAt(s, x, y).Some?
    ensures GlyphVerdict(Rendered(s)).Answer?
  {
  }

  /** For a bitmap of at least 4 x 4 the two line scans only look inside the box. */
  lemma {:induction false} BoxDecides(s: Surface)
    requires s.width >= 4 && s.height >= 4
    ensures GlyphVerdict(Rendered(s)) == Answer(BoxInk(s))
  {
    if RowInk(s, YCentre(s)) {
      assert BoxTop(s) <= YCentre(s) < BoxBottom(s);
    }
    if ColumnInk(s) {
      var y :| BoxTop(s) <= y < BoxBottom(s) && Ink(s, XCentre(s), y);
      assert BoxLeft(s) <= XCentre(s) < BoxRight(s);
      assert RowInk(s, y);
    }
  }

  /** The missing-glyph symbol: a border drawn only outside the box is judged unsupported. */
  lemma BorderOnlyRejected(s: Surface)
    requires s.width >= 4 && s.height >= 4
    requires forall x, y :: BoxLeft(s) <= x < BoxRight(s) && BoxTop(s) <= y < BoxBottom(s) ==> !Ink(s, x, y)
    ensures GlyphVerdict(Rendered(s)) == Answer(false)
  {
    BoxDecides(s);
  }

  /** One ink pixel inside the box is enough. */
  lemma InkInBoxAccepted(s: Surface, x: int, y: int)
    requires s.width >= 4 && s.height >= 4
    requires BoxLeft(s) <= x < BoxRight(s) && BoxTop(s) <= y < BoxBottom(s) && Ink(s, x, y)
    ensures GlyphVerdict(Rendered(s)) == Answer(true)
  {
    BoxDecides(s);
    assert RowInk(s, y);
  }

  /**
   * Lines 47-50 (and the inner loop of lines 61-65): scan row `y` over the box's
   * columns, stopping at the first ink pixel.
   */
  method ScanRow(s: Surface, y: int) returns (v: Verdict)
    ensures v.Answer? || v.IndexError?
    ensures v.IndexError? <==> BoxLeft(s) < BoxRight(s) && !(0 <= y < s.height)
    ensures v.Answer? ==> v.found == RowInk(s, y)
  {
    var x := BoxLeft(s);
    while x < BoxRight(s)
      invariant BoxLeft(s) <= x <= BoxRight(s)
      invariant forall x' :: BoxLeft(s) <= x' < x ==> !Ink(s, x', y)
      invariant x > BoxLeft(s) ==> 0 <= y < s.height
    {
      var p := GetAt(s, x, y);
      if p.None? {
        return IndexError;
      }
      if p.value != Black {
        assert Ink(s, x, y);
        return Answer(true);
      }
      x := x + 1;
    }
    return Answer(false);
  }

  /** Lines 53-57: scan the centre column over the box's rows, stopping at the first ink pixel. */
  method ScanColumn(s: Surface) returns (v: Verdict)
    ensures v.Answer? || v.IndexError?
    ensures v.IndexError? <==> BoxTop(s) < BoxBottom(s) && s.width == 0
    ensures v.Answer? ==> v.found == ColumnInk(s)
  {
    var y := BoxTop(s);
    while y < BoxBottom(s)
      invariant BoxTop(s) <= y <= BoxBottom(s)
      invariant forall y' :: BoxTop(s) <= y' < y ==> !Ink(s, XCentre(s), y')
      invariant y > BoxTop(s) ==> s.width > 0
    {
      var p := GetAt(s, XCentre(s), y);
      if p.None? {
        return IndexError;
      }
      if p.value != Black {
        assert Ink(s, XCentre(s), y);
        return Answer(true);
      }
      y := y + 1;
    }
    return Answer(false);
  }

  /**
   * Lines 60-65: every row of the box is scanned; the inner `break` only ends
   * that row, and `result` once true stays true.
   */
  method ScanBox(s: Surface) returns (v: Verdict)
    ensures v == Answer(BoxInk(s))
  {
    var result := false;
    var y := BoxTop(s);
    while y < BoxBottom(s)
      invariant BoxTop(s) <= y <= BoxBottom(s)
      invariant result <==> exists y' :: BoxTop(s) <= y' < y && RowInk(s, y')
    {
      var row := ScanRow(s, y);
      if row.found {
        result := true;
      }
      y := y + 1;
    }
    return Answer(result);
  }

  /** Lines 22-71: the three-stage heuristic, each stage run only while nothing is found. */
  method GlyphInFont(r: RenderResult) returns (v: Verdict)
    ensures v == GlyphVerdict(r)
  {
    if r.UnicodeFail? {
      return Answer(false);
    }
    if r.RenderRaised? {
      return RenderError;
    }
    var s := r.surface;
    var result := false;
    var row := ScanRow(s, YCentre(s));
    if row.IndexError? {
      return IndexError;
    }
    result := row.found;
    if !result {
      var column := ScanColumn(s);
      if column.IndexError? {
        return IndexError;
      }
      result := column.found;
    }
    if !result {
      var box := ScanBox(s);
      result := box.found;
    }
    return Answer(result);
  }

  /** The letters 'a' to 'z'. */
  const Lowercase: seq<char> := seq(26, i requires 0 <= i < 26 => ('a' as int + i) as char)

  /** The umlauts and the sharp s, in the order of line 20, by code point: ä ö ü ß Ä Ö Ü. */
  const Umlauts: seq<char> := [0xE4 as char, 0xF6 as char, 0xFC as char, 0xDF as char, 0xC4 as char, 0xD6 as char, 0xDC as char]

  /** The digits '0' to '9'. */
  const Digits: seq<char> := seq(10, i requires 0 <= i < 10 => ('0' as int + i) as char)

  /** Line 20: the symbols every font must draw, the German alphabet and the digits. */
  const Symbols: seq<char> := Lowercase + Umlauts + Digits

  /** `Symbols` is the 43-character list of line 20, element by element. */
  lemma SymbolsListed()
    ensures Symbols == [
      'a', 'b', 'c', 'd', 'e', 'f', 'g', 'h', 'i', 'j', 'k', 'l', 'm', 'n', 'o', 'p', 'q',
      'r', 's', 't', 'u', 'v', 'w', 'x', 'y', 'z', 'ä', 'ö', 'ü', 'ß', 'Ä', 'Ö', 'Ü',
      '0', '1', '2', '3', '4', '5', '6', '7', '8', '9']
  {
  }

  /** The message of line 153. */
  const AllSupported: string := "all fonts in fontlist " + "are supported by pygame"

  /**
   * `osp.join('data', 'fonts', name)` with POSIX separators: the name is the path's
   * last part, and an absolute name replaces the prefix; so a path never is empty
   * and starts with `/` or with the `d` of `data`.
   */
  function FontPath(name: string): (p: string)
    ensures |name| <= |p| && p[|p| - |name|..] == name
    ensures |p| > 0 && (p[0] == '/' <==> |name| > 0 && name[0] == '/')
    ensures p[0] == '/' || (|p| >= 11 && p[..11] == "data/fonts/")
  {
    if |name| > 0 && name[0] == '/' then name else "data/fonts/" + name
  }

  /** Line 137: one path per line of the font list, each line stripped. */
  function FontPaths(lines: seq<string>): (paths: seq<string>)
    ensures |paths| == |lines|
    decreases |lines|
  {
    if |lines| == 0 then [] else FontPaths(lines[..|lines| - 1]) + [FontPath(Strip(lines[|lines| - 1]))]
  }

  /** The path of line `i` is that line, stripped and joined under `data/fonts`. */
  lemma {:induction false} FontPathsAt(lines: seq<string>, i: nat)
    requires i < |lines|
    ensures FontPaths(lines)[i] == FontPath(Strip(lines[i]))
    decreases |lines|
  {
    if i < |lines| - 1 {
      FontPathsAt(lines[..|lines| - 1], i);
    }
  }

  /**
   * The state of `testFontList`: the `unsupported` flag, the font paths printed
   * so far (one per unsupported glyph), and whether an exception has escaped.
   */
  datatype FontState = FontState(unsupported: bool, printed: seq<string>, aborted: bool)

  /** The oracles of a font-list run: which paths load, and what each glyph renders to. */
  datatype Fonts = Fonts(loads: string -> bool, render: (string, char) -> RenderResult)

  /** The verdict for the glyph `c` in the font at `path`. */
  function VerdictOf(f: Fonts, path: string, c: char): Verdict {
    GlyphVerdict(f.render(path, c))
  }

  /** Lines 145-151: the state after the glyphs `symbols[..j]` of one font. */
  function GlyphsTo(st: FontState, f: Fonts, path: string, symbols: seq<char>, j: nat): FontState
    requires j <= |symbols|
    decreases j
  {
    if j == 0 then st
    else
      var prev := GlyphsTo(st, f, path, symbols, j - 1);
      if prev.aborted then prev
      else match VerdictOf(f, path, symbols[j - 1])
        case IndexError => prev.(aborted := true)
        case RenderError => prev.(aborted := true)
        case Answer(found) =>
          if found then prev else prev.(unsupported := true, printed := prev.printed + [path])
  }

  /** Lines 141-151: the state after the fonts `paths[..n]`. */
  function FontsTo(paths: seq<string>, f: Fonts, symbols: seq<char>, n: nat): FontState
    requires n <= |paths|
    decreases n
  {
    if n == 0 then FontState(false, [], false)
    else
      var prev := FontsTo(paths, f, symbols, n - 1);
      if prev.aborted then prev
      else if !f.loads(paths[n - 1]) then prev.(aborted := true)
      else GlyphsTo(prev, f, paths[n - 1], symbols, |symbols|)
  }

  /** How `testFontList` ends: the lines it prints, and whether it ran to the end. */
  datatype FontListOutcome = Finished(unsupported: bool, output: seq<string>) | Aborted(output: seq<string>)

  /** The outcome for a final state: the closing message prints only when nothing was unsupported. */
  function OutcomeOf(st: FontState): FontListOutcome {
    if st.aborted then Aborted(st.printed)
    else Finished(st.unsupported, st.printed + (if st.unsupported then [] else [AllSupported]))
  }

  /** Once aborted, the glyph scan stays aborted. */
  lemma {:induction false} GlyphsAbortStays(st: FontState, f: Fonts, path: string, symbols: seq<char>, j: nat, k: nat)
    requires j <= k <= |symbols| && GlyphsTo(st, f, path, symbols, j).aborted
    ensures GlyphsTo(st, f, path, symbols, k) == GlyphsTo(st, f, path, symbols, j)
    decreases k
  {
    if k > j {
      GlyphsAbortStays(st, f, path, symbols, j, k - 1);
    }
  }

  /** Once aborted, the font loop stays aborted. */
  lemma {:induction false} FontsAbortStays(paths: seq<string>, f: Fonts, symbols: seq<char>, n: nat, m: nat)
    requires n <= m <= |paths| && FontsTo(paths, f, symbols, n).aborted
    ensures FontsTo(paths, f, symbols, m) == FontsTo(paths, f, symbols, n)
    decreases m
  {
    if m > n {
      FontsAbortStays(paths, f, symbols, n, m - 1);
    }
  }

  /** Lines 143-151 for one font: every symbol is checked, and a failing one prints the path. */
  method CheckFont(f: Fonts, path: string, symbols: seq<char>, st: FontState) returns (st': FontState)
    requires !st.aborted
    ensures st' == GlyphsTo(st, f, path, symbols, |symbols|)
  {
    var unsupported, printed := st.unsupported, st.printed;
    var j := 0;
    while j < |symbols|
      invariant 0 <= j <= |symbols|
      invariant GlyphsTo(st, f, path, symbols, j) == FontState(unsupported, printed, false)
    {
      var v := GlyphInFont(f.render(path, symbols[j]));
      if !v.Answer? {
        GlyphsAbortStays(st, f, path, symbols, j + 1, |symbols|);
        return FontState(unsupported, printed, true);
      }
      if !v.found {
        printed := printed + [path];
        unsupported := true;
      }
      j := j + 1;
    }
    return FontState(unsupported, printed, false);
  }

  /** Lines 143-151 for font `i`: load it (or abort), then check its glyphs. */
  method FontStep(fonts: seq<string>, f: Fonts, symbols: seq<char>, i: nat, st: FontState) returns (st': FontState)
    requires i < |fonts| && st == FontsTo(fonts, f, symbols, i) && !st.aborted
    ensures st' == FontsTo(fonts, f, symbols, i + 1)
  {
    if !f.loads(fonts[i]) {
      return st.(aborted := true);
    }
    st' := CheckFont(f, fonts[i], symbols, st);
  }

  /** Lines 131-154: the paths of the font list, then every font against every symbol. */
  method TestFontList(lines: seq<string>, f: Fonts) returns (outcome: FontListOutcome)
    ensures outcome == OutcomeOf(FontsTo(FontPaths(lines), f, Symbols, |lines|))
  {
    var fonts := FontPaths(lines);
    outcome := RunFontList(fonts, f);
  }

  /** Lines 139-153: every font of the list against every symbol of `Symbols`. */
  method RunFontList(fonts: seq<string>, f: Fonts) returns (outcome: FontListOutcome)
    ensures outcome == OutcomeOf(FontsTo(fonts, f, Symbols, |fonts|))
  {
    var symbols := Symbols;
    var st := FontState(false, [], false);
    var i := 0;
    while i < |fonts|
      invariant 0 <= i <= |fonts|
      invariant FontsTo(fonts, f, symbols, i) == st && !st.aborted
    {
      st := FontStep(fonts, f, symbols, i, st);
      if st.aborted {
        FontsAbortStays(fonts, f, symbols, i + 1, |fonts|);
        return Aborted(st.printed);
      }
      i := i + 1;
    }
    outcome := OutcomeOf(st);
  }

  /** The font at `path` cannot be loaded, or some symbol's check raises an exception. */
  predicate FontBreaks(f: Fonts, path: string, symbols: seq<char>) {
    !f.loads(path) || exists j :: 0 <= j < |symbols| && !VerdictOf(f, path, symbols[j]).Answer?
  }

  /** Some of the glyphs `symbols[..j]` is judged missing. */
  predicate FontMissesBefore(f: Fonts, path: string, symbols: seq<char>, j: nat)
    requires j <= |symbols|
  {
    exists k :: 0 <= k < j && VerdictOf(f, path, symbols[k]) == Answer(false)
  }

  /** Some symbol is judged not drawable by the font at `path`. */
  predicate FontMisses(f: Fonts, path: string, symbols: seq<char>) {
    FontMissesBefore(f, path, symbols, |symbols|)
  }

  /** The glyph scan of one font aborts exactly at an escaping exception. */
  lemma {:induction false} GlyphsAborted(st: FontState, f: Fonts, path: string, symbols: seq<char>, j: nat)
    requires j <= |symbols| && !st.aborted
    ensures GlyphsTo(st, f, path, symbols, j).aborted
            <==> exists k :: 0 <= k < j && !VerdictOf(f, path, symbols[k]).Answer?
    decreases j
  {
    if j > 0 {
      GlyphsAborted(st, f, path, symbols, j - 1);
      if GlyphsTo(st, f, path, symbols, j - 1).aborted {
        GlyphsAbortStays(st, f, path, symbols, j - 1, j);
      }
    }
  }

  /** Without an abort, the flag is set iff it was, or some glyph so far is judged missing. */
  lemma {:induction false} GlyphsUnsupported(st: FontState, f: Fonts, path: string, symbols: seq<char>, j: nat)
    requires j <= |symbols| && !st.aborted
    ensures var g := GlyphsTo(st, f, path, symbols, j);
      !g.aborted ==> (g.unsupported <==> st.unsupported || FontMissesBefore(f, path, symbols, j))
    decreases j
  {
    if j > 0 {
      GlyphsUnsupported(st, f, path, symbols, j - 1);
    }
  }

  /** Without an abort, the path is printed iff it was, or some glyph so far is judged missing. */
  lemma {:induction false} GlyphsPrinted(st: FontState, f: Fonts, path: string, symbols: seq<char>, j: nat)
    requires j <= |symbols| && !st.aborted
    ensures var g := GlyphsTo(st, f, path, symbols, j);
      !g.aborted ==> forall p :: p in g.printed <==> p in st.printed || (p == path && FontMissesBefore(f, path, symbols, j))
    decreases j
  {
    if j > 0 {
      GlyphsPrinted(st, f, path, symbols, j - 1);
    }
  }

  /** The run aborts iff some font in the list breaks. */
  lemma {:induction false} FontsAborted(paths: seq<string>, f: Fonts, symbols: seq<char>, n: nat)
    requires n <= |paths|
    ensures FontsTo(paths, f, symbols, n).aborted <==> exists i :: 0 <= i < n && FontBreaks(f, paths[i], symbols)
    decreases n
  {
    if n > 0 {
      FontsAborted(paths, f, symbols, n - 1);
      var prev := FontsTo(paths, f, symbols, n - 1);
      if !prev.aborted && f.loads(paths[n - 1]) {
        GlyphsAborted(prev, f, paths[n - 1], symbols, |symbols|);
      }
    }
  }

  /** Without an abort, the flag is set iff some font misses some symbol. */
  lemma {:induction false} FontsUnsupported(paths: seq<string>, f: Fonts, symbols: seq<char>, n: nat)
    requires n <= |paths|
    ensures var st := FontsTo(paths, f, symbols, n);
      !st.aborted ==> (st.unsupported <==> exists i :: 0 <= i < n && FontMisses(f, paths[i], symbols))
    decreases n
  {
    if n > 0 {
      FontsUnsupported(paths, f, symbols, n - 1);
      var prev := FontsTo(paths, f, symbols, n - 1);
      var st := FontsTo(paths, f, symbols, n);
      if !st.aborted {
        assert !prev.aborted && f.loads(paths[n - 1]);
        GlyphsUnsupported(prev, f, paths[n - 1], symbols, |symbols|);
        if !st.unsupported {
          forall i | 0 <= i < n ensures !FontMisses(f, paths[i], symbols) {
            if i < n - 1 {
            }
          }
        }
      }
    }
  }

  /** Without an abort, exactly the paths of fonts that miss some symbol are printed. */
  lemma {:induction false} FontsPrinted(paths: seq<string>, f: Fonts, symbols: seq<char>, n: nat)
    requires n <= |paths|
    ensures var st := FontsTo(paths, f, symbols, n);
      !st.aborted ==> forall p :: p in st.printed <==> exists i :: 0 <= i < n && paths[i] == p && FontMisses(f, p, symbols)
    decreases n
  {
    if n > 0 {
      FontsPrinted(paths, f, symbols, n - 1);
      var prev := FontsTo(paths, f, symbols, n - 1);
      if !prev.aborted && f.loads(paths[n - 1]) {
        GlyphsPrinted(prev, f, paths[n - 1], symbols, |symbols|);
      }
    }
  }

  /** No font path is the closing message: a path starts with `d` or `/`. */
  lemma {:induction false} MessageNotAPath(lines: seq<string>)
    ensures AllSupported !in FontPaths(lines)
    decreases |lines|
  {
    if |lines| > 0 {
      MessageNotAPath(lines[..|lines| - 1]);
      var name := Strip(lines[|lines| - 1]);
      var p := FontPath(name);
      assert AllSupported[0] == 'a';
      if |name| > 0 && name[0] == '/' {
        assert p[0] == '/';
      } else {
        assert p[0] == ("data/fonts/" + name)[0] == 'd';
      }
    }
  }

  /**
   * Lines 139-153 together: the closing message prints exactly when the run
   * finishes with every font loading and drawing every symbol.
   */
  lemma AllSupportedIff(paths: seq<string>, f: Fonts)
    requires AllSupported !in paths
    ensures var o := OutcomeOf(FontsTo(paths, f, Symbols, |paths|));
      (o.Finished? && AllSupported in o.output)
      <==> forall i :: 0 <= i < |paths| ==> !FontBreaks(f, paths[i], Symbols) && !FontMisses(f, paths[i], Symbols)
  {
    FontsAborted(paths, f, Symbols, |paths|);
    FontsUnsupported(paths, f, Symbols, |paths|);
    FontsPrinted(paths, f, Symbols, |paths|);
  }
}
