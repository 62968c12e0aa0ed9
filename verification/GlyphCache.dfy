/** The glyph cache of the text renderer: a texture cut into lines that are filled from the left,
    glyphs that are cached in it until it is full and everything is invalidated, and a queue of quads
    that refer to places in the texture and are drawn later.

    The theorem is that none of this shows: `RenderText` puts on the screen exactly the bitmaps of the
    characters of the text, in order and in place, whatever was cached or flushed on the way. */
module GlyphCache {

  import opened Bytes

  /** `mCacheWidth`, `mCacheHeight`, `mMaxNumberOfQuads`. */
  const WIDTH := 1024
  const HEIGHT := 256
  const MAX_QUADS := 1024

  /** The height of the last line. */
  const TALLEST := 88

  // ---------------------------------------------------------------------------------------------
  // Bitmaps, as the font library renders them

  datatype Bitmap = Bitmap(width: nat, rows: nat, bytes: seq<Byte>)

  predicate BitmapOk(b: Bitmap) {
    |b.bytes| == b.rows * b.width
  }

  lemma PixelIndex(width: nat, rows: nat, i: nat, j: nat)
    requires i < width && j < rows
    ensures 0 <= j * width + i < rows * width
  {
    assert (j + 1) * width <= rows * width;
  }

  function Pixel(b: Bitmap, i: int, j: int): Byte
    requires BitmapOk(b) && 0 <= i < b.width && 0 <= j < b.rows
  {
    PixelIndex(b.width, b.rows, i, j);
    b.bytes[j * b.width + i]
  }

  /** What the font library makes of a character. */
  datatype Rendering = LoadError | Rendered(bitmap: Bitmap, left: int, top: int, advance: int)

  /** A font and a character. */
  type Key = (nat, nat)

  /** The font library: it renders the same character of the same font always the same way. */
  type Face = Key -> Rendering

  ghost predicate FaceOk(face: Face) {
    forall k: Key :: face(k).Rendered? ==> BitmapOk(face(k).bitmap)
  }

  // ---------------------------------------------------------------------------------------------
  // The texture and its lines

  type Texture = seq<Byte>

  function Texel(t: Texture, x: int, y: int): Byte {
    if 0 <= y * WIDTH + x < |t| then t[y * WIDTH + x] else 0
  }

  datatype Rect = Rect(x: nat, y: nat, w: nat, h: nat)

  predicate Apart(a: Rect, b: Rect) {
    a.x + a.w <= b.x || b.x + b.w <= a.x || a.y + a.h <= b.y || b.y + b.h <= a.y
  }

  predicate Inside(r: Rect, x: int, y: int) {
    r.x <= x < r.x + r.w && r.y <= y < r.y + r.h
  }

  predicate InTexture(r: Rect) {
    r.x + r.w <= WIDTH && r.y + r.h <= HEIGHT
  }

  /** The texture holds bitmap `b` at `x`, `y`. */
  ghost predicate Holds(t: Texture, x: nat, y: nat, b: Bitmap)
    requires BitmapOk(b)
  {
    forall i, j :: 0 <= i < b.width && 0 <= j < b.rows ==> Texel(t, x + i, y + j) == Pixel(b, i, j)
  }

  ghost predicate SameOutside(t: Texture, t': Texture, r: Rect) {
    |t'| == |t| && forall x, y :: 0 <= x < WIDTH && 0 <= y < HEIGHT && !Inside(r, x, y) ==>
        Texel(t', x, y) == Texel(t, x, y)
  }

  lemma HoldsOutside(t: Texture, t': Texture, r: Rect, x: nat, y: nat, b: Bitmap)
    requires BitmapOk(b) && Holds(t, x, y, b) && SameOutside(t, t', r)
    requires Apart(Rect(x, y, b.width, b.rows), r) && InTexture(Rect(x, y, b.width, b.rows))
    ensures Holds(t', x, y, b)
  {
    forall i, j | 0 <= i < b.width && 0 <= j < b.rows ensures Texel(t', x + i, y + j) == Pixel(b, i, j) {
      assert !Inside(r, x + i, y + j);
    }
  }

  /** `CacheTextureLine`. */
  datatype Line = Line(maxHeight: nat, maxWidth: nat, row: nat, col: nat)

  ghost predicate LineOk(l: Line) {
    l.maxWidth == WIDTH && l.row + l.maxHeight <= HEIGHT && l.col <= WIDTH
  }

  /** The lines are in the texture and below each other. */
  ghost predicate LinesOk(lines: seq<Line>) {
    && |lines| > 0 && lines[|lines| - 1].maxHeight == TALLEST
    && (forall i :: 0 <= i < |lines| ==> LineOk(lines[i]))
    && (forall i, j :: 0 <= i < j < |lines| ==> lines[i].row + lines[i].maxHeight <= lines[j].row)
  }

  /** `r` lies in the filled part of line `i`. */
  predicate Used(lines: seq<Line>, r: Rect, i: int) {
    0 <= i < |lines| && r.y == lines[i].row && r.h <= lines[i].maxHeight && r.x + r.w <= lines[i].col
  }

  ghost predicate Within(lines: seq<Line>, r: Rect) {
    exists i :: Used(lines, r, i)
  }

  /** The next `w` columns of line `i`. */
  function Fresh(lines: seq<Line>, i: nat, b: Bitmap): Rect
    requires i < |lines|
  {
    Rect(lines[i].col, lines[i].row, b.width, b.rows)
  }

  function Filled(lines: seq<Line>, i: nat, b: Bitmap): seq<Line>
    requires i < |lines|
  {
    lines[i := lines[i].(col := lines[i].col + b.width)]
  }

  predicate Fits(l: Line, b: Bitmap) {
    b.rows <= l.maxHeight && l.col + b.width < l.maxWidth
  }

  /** New space is apart from everything in use. */
  lemma FreshApart(lines: seq<Line>, i: nat, b: Bitmap, r: Rect)
    requires LinesOk(lines) && i < |lines| && Fits(lines[i], b) && Within(lines, r)
    ensures Apart(r, Fresh(lines, i, b)) && InTexture(r) && Within(Filled(lines, i, b), r)
  {
    var j :| Used(lines, r, j);
    assert LineOk(lines[j]) && LineOk(lines[i]);
    assert Used(Filled(lines, i, b), r, j);
  }

  lemma FilledOk(lines: seq<Line>, i: nat, b: Bitmap)
    requires LinesOk(lines) && i < |lines| && Fits(lines[i], b)
    ensures LinesOk(Filled(lines, i, b)) && InTexture(Fresh(lines, i, b)) &&
        Within(Filled(lines, i, b), Fresh(lines, i, b))
  {
    assert LineOk(lines[i]);
    assert Used(Filled(lines, i, b), Fresh(lines, i, b), i);
    forall j | 0 <= j < |lines| ensures LineOk(Filled(lines, i, b)[j]) { assert LineOk(lines[j]); }
  }

  // ---------------------------------------------------------------------------------------------
  // Glyphs, quads and the invariant

  /** `CachedGlyphInfo`. */
  datatype Glyph = Glyph(valid: bool, rect: Rect, left: int, top: int, advance: int)

  /** A quad: where it goes on the surface and the place in the texture it shows. */
  datatype Quad = Quad(penX: int, penY: int, rect: Rect)

  /** What a drawn quad puts on the surface. */
  datatype Shown = Shown(penX: int, penY: int, pixels: seq<seq<Byte>>)

  function PixelsOf(b: Bitmap): seq<seq<Byte>>
    requires BitmapOk(b)
  {
    seq(b.rows, j requires 0 <= j < b.rows => seq(b.width, i requires 0 <= i < b.width => Pixel(b, i, j)))
  }

  function TexelsOf(t: Texture, r: Rect): seq<seq<Byte>> {
    seq(r.h, j requires 0 <= j < r.h => seq(r.w, i requires 0 <= i < r.w => Texel(t, r.x + i, r.y + j)))
  }

  lemma HeldPixels(t: Texture, r: Rect, b: Bitmap)
    requires BitmapOk(b) && r.w == b.width && r.h == b.rows && Holds(t, r.x, r.y, b)
    ensures TexelsOf(t, r) == PixelsOf(b)
  {
    forall j | 0 <= j < b.rows ensures TexelsOf(t, r)[j] == PixelsOf(b)[j] {
      assert forall i :: 0 <= i < b.width ==> TexelsOf(t, r)[j][i] == Pixel(b, i, j);
    }
  }

  /** The rectangle holds the bitmap and is in use. */
  ghost predicate Cached(t: Texture, lines: seq<Line>, r: Rect, b: Bitmap) {
    BitmapOk(b) && r.w == b.width && r.h == b.rows && Within(lines, r) && Holds(t, r.x, r.y, b)
  }

  ghost predicate GlyphOk(t: Texture, lines: seq<Line>, r: Rendering, g: Glyph) {
    match r
    case LoadError => !g.valid && g.advance == 0
    case Rendered(b, left, top, advance) =>
      g.left == left && g.top == top && g.advance == advance &&
          (g.valid ==> Cacheable(r) && Cached(t, lines, g.rect, b))
  }

  ghost predicate GlyphsOk(t: Texture, lines: seq<Line>, face: Face, glyphs: map<Key, Glyph>) {
    && (forall k :: k in glyphs ==> GlyphOk(t, lines, face(k), glyphs[k]))
    && (forall k, m :: k in glyphs && m in glyphs && k != m && glyphs[k].valid && glyphs[m].valid ==>
        Apart(glyphs[k].rect, glyphs[m].rect))
  }

  /** The place in the texture that the quad refers to is in use and still shows what it is to show. */
  ghost predicate QuadOk(t: Texture, lines: seq<Line>, q: Quad, s: Shown) {
    Within(lines, q.rect) && s == Shown(q.penX, q.penY, TexelsOf(t, q.rect))
  }

  ghost predicate QuadsOk(t: Texture, lines: seq<Line>, quads: seq<Quad>, queued: seq<Shown>) {
    |queued| == |quads| < MAX_QUADS && forall i :: 0 <= i < |quads| ==> QuadOk(t, lines, quads[i], queued[i])
  }

  /** A new bitmap in fresh space leaves what was cached as it was. */
  lemma CachedKept(t: Texture, t': Texture, lines: seq<Line>, i: nat, b: Bitmap, r: Rect, c: Bitmap)
    requires LinesOk(lines) && i < |lines| && Fits(lines[i], b) && SameOutside(t, t', Fresh(lines, i, b))
    requires Cached(t, lines, r, c)
    ensures Cached(t', Filled(lines, i, b), r, c) && Apart(r, Fresh(lines, i, b))
  {
    FreshApart(lines, i, b, r);
    HoldsOutside(t, t', Fresh(lines, i, b), r.x, r.y, c);
  }

  lemma GlyphsKept(t: Texture, t': Texture, lines: seq<Line>, i: nat, b: Bitmap, face: Face, glyphs: map<Key, Glyph>)
    requires LinesOk(lines) && i < |lines| && Fits(lines[i], b) && SameOutside(t, t', Fresh(lines, i, b))
    requires GlyphsOk(t, lines, face, glyphs)
    ensures GlyphsOk(t', Filled(lines, i, b), face, glyphs)
    ensures forall k :: k in glyphs && glyphs[k].valid ==> Apart(glyphs[k].rect, Fresh(lines, i, b))
  {
    forall k | k in glyphs
      ensures GlyphOk(t', Filled(lines, i, b), face(k), glyphs[k])
      ensures glyphs[k].valid ==> Apart(glyphs[k].rect, Fresh(lines, i, b))
    {
      assert GlyphOk(t, lines, face(k), glyphs[k]);
      if glyphs[k].valid { CachedKept(t, t', lines, i, b, glyphs[k].rect, face(k).bitmap); }
    }
  }

  /** Every valid glyph is in the texture, apart from every other one, and its bitmap is there. */
  lemma ValidGlyphs(t: Texture, lines: seq<Line>, face: Face, glyphs: map<Key, Glyph>, k: Key)
    requires LinesOk(lines) && GlyphsOk(t, lines, face, glyphs) && k in glyphs && glyphs[k].valid
    ensures InTexture(glyphs[k].rect) && face(k).Rendered? && BitmapOk(face(k).bitmap)
    ensures TexelsOf(t, glyphs[k].rect) == PixelsOf(face(k).bitmap)
    ensures forall m :: m in glyphs && m != k && glyphs[m].valid ==> Apart(glyphs[k].rect, glyphs[m].rect)
  {
    assert GlyphOk(t, lines, face(k), glyphs[k]);
    HeldPixels(t, glyphs[k].rect, face(k).bitmap);
    var i :| Used(lines, glyphs[k].rect, i);
    assert LineOk(lines[i]);
  }

  lemma TexelsOutside(t: Texture, t': Texture, r: Rect, rect: Rect)
    requires SameOutside(t, t', r) && Apart(rect, r) && InTexture(rect)
    ensures TexelsOf(t', rect) == TexelsOf(t, rect)
  {
    forall j | 0 <= j < rect.h ensures TexelsOf(t', rect)[j] == TexelsOf(t, rect)[j] {
      forall i | 0 <= i < rect.w ensures TexelsOf(t', rect)[j][i] == TexelsOf(t, rect)[j][i] {
        assert !Inside(r, rect.x + i, rect.y + j);
      }
    }
  }

  /** And queued quads still show what they showed. */
  lemma QuadsKept(t: Texture, t': Texture, lines: seq<Line>, i: nat, b: Bitmap, quads: seq<Quad>, queued: seq<Shown>)
    requires LinesOk(lines) && i < |lines| && Fits(lines[i], b) && SameOutside(t, t', Fresh(lines, i, b))
    requires QuadsOk(t, lines, quads, queued)
    ensures QuadsOk(t', Filled(lines, i, b), quads, queued)
  {
    forall j | 0 <= j < |quads| ensures QuadOk(t', Filled(lines, i, b), quads[j], queued[j]) {
      assert QuadOk(t, lines, quads[j], queued[j]);
      FreshApart(lines, i, b, quads[j].rect);
      TexelsOutside(t, t', Fresh(lines, i, b), quads[j].rect);
    }
  }

  // ---------------------------------------------------------------------------------------------
  // What a text should look like

  /** The bitmaps the cache has room for. */
  predicate Cacheable(r: Rendering) {
    r.Rendered? && r.bitmap.rows <= TALLEST && r.bitmap.width < WIDTH
  }

  /** The test in `appendMeshQuad` for quads off the surface. */
  predicate Culled(penX: int, penY: int, w: nat, h: nat, surfaceWidth: int, surfaceHeight: int) {
    penX > surfaceWidth || penY < 0 || penX + w < 0 || penY - h > surfaceHeight
  }

  function ShownOf(r: Rendering, x: int, y: int, surfaceWidth: int, surfaceHeight: int): seq<Shown>
    requires r.Rendered? ==> BitmapOk(r.bitmap)
  {
    if !Cacheable(r) then [] else
      var penX, penY := x + r.left, y - r.top + r.bitmap.rows;
      if Culled(penX, penY, r.bitmap.width, r.bitmap.rows, surfaceWidth, surfaceHeight) then []
      else [Shown(penX, penY, PixelsOf(r.bitmap))]
  }

  /** How far a character moves the pen, in whole pixels. */
  function Advance(r: Rendering): int {
    if r.Rendered? then r.advance / 64 else 0
  }

  /** The pen after `n` characters. */
  function Pen(face: Face, font: nat, text: seq<nat>, n: nat, x: int): int
    requires n <= |text|
  {
    if n == 0 then x else Pen(face, font, text, n - 1, x) + Advance(face((font, text[n - 1])))
  }

  /** The first `n` characters of a text on a surface, with no cache in between. */
  ghost function TextShown(face: Face, font: nat, text: seq<nat>, n: nat, x: int, y: int, surfaceWidth: int,
      surfaceHeight: int): seq<Shown>
    requires n <= |text| && FaceOk(face)
  {
    if n == 0 then [] else
      TextShown(face, font, text, n - 1, x, y, surfaceWidth, surfaceHeight)
      + ShownOf(face((font, text[n - 1])), Pen(face, font, text, n - 1, x), y, surfaceWidth, surfaceHeight)
  }

  // ---------------------------------------------------------------------------------------------
  // Pixels on the surface

  predicate OnSurface(px: int, py: int, surfaceWidth: int, surfaceHeight: int) {
    0 <= px < surfaceWidth && 0 <= py < surfaceHeight
  }

  /** A quad of `w` by `h` pixels has one at `px`, `py`: its lower left corner is the pen. */
  predicate CoversPixel(penX: int, penY: int, w: nat, h: nat, px: int, py: int) {
    penX <= px < penX + w && penY - h <= py < penY
  }

  /** A quad is dropped only if none of its pixels is on the surface. */
  lemma CulledHidden(penX: int, penY: int, w: nat, h: nat, surfaceWidth: int, surfaceHeight: int, px: int, py: int)
    requires Culled(penX, penY, w, h, surfaceWidth, surfaceHeight) && CoversPixel(penX, penY, w, h, px, py)
    ensures !OnSurface(px, py, surfaceWidth, surfaceHeight)
  {
  }

  /** Quad and surface, with their borders, have the point `x`, `y` in common. */
  predicate Touch(penX: int, penY: int, w: nat, h: nat, surfaceWidth: nat, surfaceHeight: nat, x: int, y: int) {
    penX <= x <= penX + w && penY - h <= y <= penY && 0 <= x <= surfaceWidth && 0 <= y <= surfaceHeight
  }

  /** It is dropped exactly if it does not even touch the surface. */
  lemma CulledIffApart(penX: int, penY: int, w: nat, h: nat, surfaceWidth: nat, surfaceHeight: nat)
    ensures Culled(penX, penY, w, h, surfaceWidth, surfaceHeight) <==>
      forall x, y :: !Touch(penX, penY, w, h, surfaceWidth, surfaceHeight, x, y)
  {
    if !Culled(penX, penY, w, h, surfaceWidth, surfaceHeight) {
      var x, y := if penX < 0 then 0 else penX, if penY - h < 0 then 0 else penY - h;
      assert Touch(penX, penY, w, h, surfaceWidth, surfaceHeight, x, y);
    }
  }

  /** What is shown puts value `v` at `px`, `py`. */
  predicate Lights(s: Shown, px: int, py: int, v: Byte) {
    var i, j := px - s.penX, py - (s.penY - |s.pixels|);
    0 <= j < |s.pixels| && 0 <= i < |s.pixels[j]| && s.pixels[j][i] == v
  }

  ghost predicate Lit(shown: seq<Shown>, px: int, py: int, v: Byte) {
    exists k :: 0 <= k < |shown| && Lights(shown[k], px, py, v)
  }

  /** A rendering whose bitmap starts at `left` and `top` from the pen: pixel `i`, `j` of it is at `px`, `py`. */
  predicate PixelAt(r: Rendering, x: int, y: int, i: int, j: int, px: int, py: int, v: Byte)
    requires r.Rendered? ==> BitmapOk(r.bitmap)
  {
    && r.Rendered? && 0 <= i < r.bitmap.width && 0 <= j < r.bitmap.rows
    && px == x + r.left + i && py == y - r.top + j && v == Pixel(r.bitmap, i, j)
  }

  /** Every pixel of a character that is on the surface is shown. */
  lemma CharacterLit(r: Rendering, x: int, y: int, surfaceWidth: int, surfaceHeight: int, i: int, j: int, px: int,
      py: int, v: Byte)
    requires (r.Rendered? ==> BitmapOk(r.bitmap)) && PixelAt(r, x, y, i, j, px, py, v) && Cacheable(r)
    requires OnSurface(px, py, surfaceWidth, surfaceHeight)
    ensures Lit(ShownOf(r, x, y, surfaceWidth, surfaceHeight), px, py, v)
  {
    var penX, penY := x + r.left, y - r.top + r.bitmap.rows;
    assert CoversPixel(penX, penY, r.bitmap.width, r.bitmap.rows, px, py);
    if Culled(penX, penY, r.bitmap.width, r.bitmap.rows, surfaceWidth, surfaceHeight) {
      CulledHidden(penX, penY, r.bitmap.width, r.bitmap.rows, surfaceWidth, surfaceHeight, px, py);
    }
    var s := Shown(penX, penY, PixelsOf(r.bitmap));
    assert ShownOf(r, x, y, surfaceWidth, surfaceHeight)[0] == s;
    assert Lights(s, px, py, v);
  }

  /** And whatever is shown of it is one of its pixels. */
  lemma LitCharacter(r: Rendering, x: int, y: int, surfaceWidth: int, surfaceHeight: int, px: int, py: int, v: Byte)
    requires (r.Rendered? ==> BitmapOk(r.bitmap)) && Lit(ShownOf(r, x, y, surfaceWidth, surfaceHeight), px, py, v)
    ensures Cacheable(r) && exists i, j :: PixelAt(r, x, y, i, j, px, py, v)
  {
    assert PixelAt(r, x, y, px - (x + r.left), py - (y - r.top), px, py, v);
  }

  /** The advance of the first `n` characters, in 64ths of a pixel. */
  function Advances(face: Face, font: nat, text: seq<nat>, n: nat): int
    requires n <= |text|
  {
    if n == 0 then 0 else
      var r := face((font, text[n - 1]));
      Advances(face, font, text, n - 1) + if r.Rendered? then r.advance else 0
  }

  /** The pen is behind the sum of the advances by less than a pixel for each character. */
  lemma {:induction false} PenNear(face: Face, font: nat, text: seq<nat>, n: nat, x: int)
    requires n <= |text|
    ensures 64 * (Pen(face, font, text, n, x) - x) <= Advances(face, font, text, n) <=
        64 * (Pen(face, font, text, n, x) - x) + 63 * n
  {
    if n > 0 { PenNear(face, font, text, n - 1, x); }
  }

  /** Pixel `i`, `j` of character `k` of a text, with its pen. */
  ghost predicate TextPixel(face: Face, font: nat, text: seq<nat>, k: nat, x: int, y: int, i: int, j: int, px: int,
      py: int, v: Byte)
    requires k < |text| && FaceOk(face)
  {
    Cacheable(face((font, text[k]))) &&
    PixelAt(face((font, text[k])), Pen(face, font, text, k, x), y, i, j, px, py, v)
  }

  /** Every pixel of every character of a text that is on the surface is shown. */
  lemma {:induction false} TextLit(face: Face, font: nat, text: seq<nat>, n: nat, x: int, y: int, surfaceWidth: int,
      surfaceHeight: int, k: nat, i: int, j: int, px: int, py: int, v: Byte)
    requires k < n <= |text| && FaceOk(face) && OnSurface(px, py, surfaceWidth, surfaceHeight)
    requires TextPixel(face, font, text, k, x, y, i, j, px, py, v)
    ensures Lit(TextShown(face, font, text, n, x, y, surfaceWidth, surfaceHeight), px, py, v)
  {
    var front := TextShown(face, font, text, n - 1, x, y, surfaceWidth, surfaceHeight);
    var last := ShownOf(face((font, text[n - 1])), Pen(face, font, text, n - 1, x), y, surfaceWidth, surfaceHeight);
    if k < n - 1 {
      TextLit(face, font, text, n - 1, x, y, surfaceWidth, surfaceHeight, k, i, j, px, py, v);
    } else {
      CharacterLit(face((font, text[k])), Pen(face, font, text, k, x), y, surfaceWidth, surfaceHeight, i, j, px, py, v);
    }
    LitJoined(front, last, px, py, v);
  }

  lemma LitJoined(a: seq<Shown>, b: seq<Shown>, px: int, py: int, v: Byte)
    ensures Lit(a + b, px, py, v) <==> Lit(a, px, py, v) || Lit(b, px, py, v)
  {
    if k :| 0 <= k < |a| && Lights(a[k], px, py, v) { assert Lights((a + b)[k], px, py, v); }
    if k :| 0 <= k < |b| && Lights(b[k], px, py, v) { assert Lights((a + b)[|a| + k], px, py, v); }
  }

  /** And nothing else is. */
  lemma {:induction false} LitText(face: Face, font: nat, text: seq<nat>, n: nat, x: int, y: int, surfaceWidth: int,
      surfaceHeight: int, px: int, py: int, v: Byte) returns (k: nat, i: int, j: int)
    requires n <= |text| && FaceOk(face)
    requires Lit(TextShown(face, font, text, n, x, y, surfaceWidth, surfaceHeight), px, py, v)
    ensures k < n && TextPixel(face, font, text, k, x, y, i, j, px, py, v)
  {
    if n > 0 {
      var front := TextShown(face, font, text, n - 1, x, y, surfaceWidth, surfaceHeight);
      var r, pen := face((font, text[n - 1])), Pen(face, font, text, n - 1, x);
      var last := ShownOf(r, pen, y, surfaceWidth, surfaceHeight);
      LitJoined(front, last, px, py, v);
      if Lit(front, px, py, v) {
        k, i, j := LitText(face, font, text, n - 1, x, y, surfaceWidth, surfaceHeight, px, py, v);
      } else {
        LitCharacter(r, pen, y, surfaceWidth, surfaceHeight, px, py, v);
        k := n - 1;
        i, j :| PixelAt(r, pen, y, i, j, px, py, v);
      }
    }
  }

  /** One of the characters of a text has value `v` at `px`, `py`: one of the first `numGlyphs`, or any if that
      is negative. */
  ghost predicate InText(face: Face, font: nat, text: seq<nat>, numGlyphs: int, x: int, y: int, px: int, py: int,
      v: Byte)
    requires FaceOk(face)
  {
    exists k: nat, i, j :: Asked(text, numGlyphs, k) && TextPixel(face, font, text, k, x, y, i, j, px, py, v)
  }

  predicate Asked(text: seq<nat>, numGlyphs: int, k: nat) {
    k < |text| && (numGlyphs < 0 || k < numGlyphs)
  }

  lemma TextLitIff(face: Face, font: nat, text: seq<nat>, numGlyphs: int, x: int, y: int, surfaceWidth: int,
      surfaceHeight: int, px: int, py: int, v: Byte)
    requires FaceOk(face) && OnSurface(px, py, surfaceWidth, surfaceHeight)
    ensures Lit(TextShown(face, font, text, Count(text, numGlyphs), x, y, surfaceWidth, surfaceHeight), px, py, v) <==>
      InText(face, font, text, numGlyphs, x, y, px, py, v)
  {
    var n := Count(text, numGlyphs);
    if k: nat, i, j :| Asked(text, numGlyphs, k) && TextPixel(face, font, text, k, x, y, i, j, px, py, v) {
      TextLit(face, font, text, n, x, y, surfaceWidth, surfaceHeight, k, i, j, px, py, v);
    }
    if Lit(TextShown(face, font, text, n, x, y, surfaceWidth, surfaceHeight), px, py, v) {
      var k, i, j := LitText(face, font, text, n, x, y, surfaceWidth, surfaceHeight, px, py, v);
      assert Asked(text, numGlyphs, k);
    }
  }

  /** The quads in the queue, as they would come out now. */
  function Drawn(t: Texture, quads: seq<Quad>): seq<Shown> {
    seq(|quads|, i requires 0 <= i < |quads| => Shown(quads[i].penX, quads[i].penY, TexelsOf(t, quads[i].rect)))
  }

  /** No queued quad refers to texture bytes that have changed. */
  lemma DrawnIsQueued(t: Texture, lines: seq<Line>, quads: seq<Quad>, queued: seq<Shown>)
    requires QuadsOk(t, lines, quads, queued)
    ensures Drawn(t, quads) == queued
  {
    forall i | 0 <= i < |quads| ensures Drawn(t, quads)[i] == queued[i] {
      assert QuadOk(t, lines, quads[i], queued[i]);
    }
  }

  lemma PutTexel(t: Texture, x: int, y: int, v: Byte, x': int, y': int)
    requires |t| == WIDTH * HEIGHT && 0 <= x < WIDTH && 0 <= y < HEIGHT && 0 <= x' < WIDTH && 0 <= y' < HEIGHT
    ensures Texel(t[y * WIDTH + x := v], x', y') == if x' == x && y' == y then v else Texel(t, x', y')
  {
  }

  /** The columns before `bX`, and of column `bX` the rows before `bY`, are copied. */
  ghost predicate Copied(t0: Texture, t: Texture, b: Bitmap, x: nat, y: nat, bX: nat, bY: nat)
    requires BitmapOk(b)
  {
    && |t| == |t0|
    && (forall i, j :: 0 <= i < b.width && 0 <= j < b.rows && (i < bX || (i == bX && j < bY)) ==>
        Texel(t, x + i, y + j) == Pixel(b, i, j))
    && SameOutside(t0, t, Rect(x, y, b.width, b.rows))
  }

  lemma CopyStep(t0: Texture, t: Texture, b: Bitmap, x: nat, y: nat, bX: nat, bY: nat)
    requires BitmapOk(b) && InTexture(Rect(x, y, b.width, b.rows)) && |t| == WIDTH * HEIGHT
    requires bX < b.width && bY < b.rows && Copied(t0, t, b, x, y, bX, bY)
    ensures Copied(t0, t[(y + bY) * WIDTH + x + bX := Pixel(b, bX, bY)], b, x, y, bX, bY + 1)
  {
    var v := Pixel(b, bX, bY);
    var t' := t[(y + bY) * WIDTH + (x + bX) := v];
    forall i, j | 0 <= i < b.width && 0 <= j < b.rows && (i < bX || (i == bX && j < bY + 1))
        ensures Texel(t', x + i, y + j) == Pixel(b, i, j) {
      PutTexel(t, x + bX, y + bY, v, x + i, y + j);
    }
    forall x', y' | 0 <= x' < WIDTH && 0 <= y' < HEIGHT && !Inside(Rect(x, y, b.width, b.rows), x', y')
        ensures Texel(t', x', y') == Texel(t0, x', y') {
      PutTexel(t, x + bX, y + bY, v, x', y');
      assert Texel(t, x', y') == Texel(t0, x', y');
    }
  }

  // ---------------------------------------------------------------------------------------------
  // Font state

  class FontState {
    const face: Face
    const texture: array<Byte>
    var lines: seq<Line>
    var glyphs: map<Key, Glyph>
    var quads: seq<Quad>
    var screen: seq<Shown>
    var surfaceWidth: int
    var surfaceHeight: int
    /** What the queued quads are to show. */
    ghost var queued: seq<Shown>

    ghost predicate Valid()
      reads this, texture
    {
      Ready() && GlyphsOk(texture[..], lines, face, glyphs)
    }

    /** `Valid`, but for the glyphs. */
    ghost predicate Ready()
      reads this, texture
    {
      && FaceOk(face) && texture.Length == WIDTH * HEIGHT
      && LinesOk(lines) && QuadsOk(texture[..], lines, quads, queued)
    }

    /** What has been drawn and what is still in the queue. */
    ghost function Output(): seq<Shown>
      reads this
    {
      screen + queued
    }

    /** `initTextTexture`: lines of the given heights, and one with what is left of the texture. */
    constructor (face: Face)
      requires FaceOk(face)
      ensures Valid() && fresh(texture) && screen == [] && Output() == []
    {
      this.face := face;
      texture := new Byte[WIDTH * HEIGHT];
      glyphs, quads, screen, queued := map[], [], [], [];
      surfaceWidth, surfaceHeight := 0, 0;
      lines := [];
      new;
      var nextLine := 0;
      var heights := [16, 24, 24, 32, 32, 40];
      var i := 0;
      while i < 6
        invariant 0 <= i <= 6 && |lines| == i && nextLine == [0, 16, 40, 64, 96, 128, 168][i]
        invariant glyphs == map[] && quads == [] && screen == [] && queued == []
        invariant forall j :: 0 <= j < i ==> LineOk(lines[j]) && lines[j].row + lines[j].maxHeight <= nextLine
        invariant forall j, k :: 0 <= j < k < i ==> lines[j].row + lines[j].maxHeight <= lines[k].row
        modifies this`lines
      {
        lines := lines + [Line(heights[i], WIDTH, nextLine, 0)];
        nextLine := nextLine + heights[i];
        i := i + 1;
      }
      lines := lines + [Line(HEIGHT - nextLine, WIDTH, nextLine, 0)];
    }

    /** `issueDrawCommand`, and the queue is empty then. */
    method IssueDrawCommand()
      requires Ready()
      modifies this`screen, this`quads, this`queued
      ensures Ready() && quads == [] && Output() == old(Output())
      ensures lines == old(lines) && glyphs == old(glyphs)
    {
      DrawnIsQueued(texture[..], lines, quads, queued);
      screen := screen + Drawn(texture[..], quads);
      quads, queued := [], [];
    }

    /** `flushAllAndInvalidate`: the queue is drawn before anything it refers to can be overwritten. */
    method FlushAllAndInvalidate()
      requires Valid()
      modifies this`screen, this`quads, this`queued, this`glyphs, this`lines
      ensures Valid() && Output() == old(Output()) && quads == []
      ensures |lines| == |old(lines)| && forall i :: 0 <= i < |lines| ==> lines[i] == old(lines)[i].(col := 0)
      ensures glyphs.Keys == old(glyphs).Keys && forall k :: k in glyphs ==>
          glyphs[k] == old(glyphs)[k].(valid := false)
    {
      if |quads| != 0 {
        IssueDrawCommand();
      }
      ghost var g0 := glyphs;
      glyphs := map k | k in glyphs :: glyphs[k].(valid := false);
      var i := 0;
      while i < |lines|
        invariant 0 <= i <= |lines| && |lines| == |old(lines)|
        invariant forall j :: 0 <= j < |lines| ==> lines[j] == if j < i then old(lines)[j].(col := 0) else old(lines)[j]
        modifies this`lines
      {
        lines := lines[i := lines[i].(col := 0)];
        i := i + 1;
      }
      Flushed(texture[..], old(lines), lines, face, g0, glyphs);
    }

    /** The search over `fitBitmap`: the first line with room takes the bitmap. */
    method FitBitmap(b: Bitmap) returns (fit: bool, i: nat)
      modifies this`lines
      ensures fit ==> i < |old(lines)| && Fits(old(lines)[i], b) && lines == Filled(old(lines), i, b)
      ensures fit ==> forall j :: 0 <= j < i ==> !Fits(old(lines)[j], b)
      ensures !fit ==> lines == old(lines) && forall j :: 0 <= j < |lines| ==> !Fits(lines[j], b)
    {
      i := 0;
      while i < |lines|
        invariant 0 <= i <= |lines| && lines == old(lines)
        invariant forall j :: 0 <= j < i ==> !Fits(lines[j], b)
      {
        if b.rows <= lines[i].maxHeight && lines[i].col + b.width < lines[i].maxWidth {
          lines := lines[i := lines[i].(col := lines[i].col + b.width)];
          return true, i;
        }
        i := i + 1;
      }
      return false, i;
    }

    /** The copy loops of `cacheBitmap`, column by column. */
    method CopyBitmap(b: Bitmap, startX: nat, startY: nat)
      requires BitmapOk(b) && InTexture(Rect(startX, startY, b.width, b.rows)) && texture.Length == WIDTH * HEIGHT
      modifies texture
      ensures Holds(texture[..], startX, startY, b)
      ensures SameOutside(old(texture[..]), texture[..], Rect(startX, startY, b.width, b.rows))
    {
      ghost var t0 := texture[..];
      var bX := 0;
      while bX < b.width
        invariant 0 <= bX <= b.width && Copied(t0, texture[..], b, startX, startY, bX, 0)
      {
        var bY := 0;
        while bY < b.rows
          invariant 0 <= bY <= b.rows && Copied(t0, texture[..], b, startX, startY, bX, bY)
        {
          ghost var t := texture[..];
          CopyStep(t0, t, b, startX, startY, bX, bY);
          PixelIndex(b.width, b.rows, bX, bY);
          texture[(startY + bY) * WIDTH + startX + bX] := b.bytes[bY * b.width + bX];
          assert texture[..] == t[(startY + bY) * WIDTH + startX + bX := Pixel(b, bX, bY)];
          bY := bY + 1;
        }
        bX := bX + 1;
      }
    }

    /** One attempt to cache a bitmap. */
    method TryCache(b: Bitmap) returns (fit: bool, rect: Rect)
      requires Valid() && BitmapOk(b)
      modifies this`lines, texture
      ensures Valid() && Output() == old(Output())
      ensures fit <==> exists i :: 0 <= i < |old(lines)| && Fits(old(lines)[i], b)
      ensures fit ==> Cached(texture[..], lines, rect, b)
      ensures fit ==> forall k :: k in glyphs && glyphs[k].valid ==> Apart(glyphs[k].rect, rect)
      ensures !fit ==> lines == old(lines)
    {
      ghost var t0, lines0 := texture[..], lines;
      var i;
      fit, i := FitBitmap(b);
      rect := Rect(0, 0, 0, 0);
      if fit {
        rect := Rect(lines[i].col - b.width, lines[i].row, b.width, b.rows);
        FilledOk(lines0, i, b);
        CopyBitmap(b, rect.x, rect.y);
        GlyphsKept(t0, texture[..], lines0, i, b, face, glyphs);
        QuadsKept(t0, texture[..], lines0, i, b, quads, queued);
      }
    }

    /** `cacheBitmap`: succeeds exactly for bitmaps that fit an empty cache. */
    method CacheBitmap(b: Bitmap) returns (ok: bool, rect: Rect)
      requires Valid() && BitmapOk(b)
      modifies this`screen, this`quads, this`queued, this`glyphs, this`lines, texture
      ensures Valid() && Output() == old(Output())
      ensures ok <==> b.rows <= TALLEST && b.width < WIDTH
      ensures ok ==> Cached(texture[..], lines, rect, b)
      ensures ok ==> forall k :: k in glyphs && glyphs[k].valid ==> Apart(glyphs[k].rect, rect)
      ensures glyphs.Keys == old(glyphs).Keys
      ensures forall k :: k in glyphs ==> glyphs[k] == old(glyphs)[k] || glyphs[k] == old(glyphs)[k].(valid := false)
    {
      rect := Rect(0, 0, 0, 0);
      if b.rows > lines[|lines| - 1].maxHeight { return false, rect; }
      ok, rect := TryCache(b);
      if !ok {
        FlushAllAndInvalidate();
        assert b.width < WIDTH ==> Fits(lines[|lines| - 1], b);
        ok, rect := TryCache(b);
      }
    }

    /** `updateGlyphCache`. */
    method UpdateGlyphCache(k: Key)
      requires Ready() && k in glyphs && !glyphs[k].valid && GlyphsOk(texture[..], lines, face, glyphs - {k})
      requires face(k).LoadError? ==> glyphs[k].advance == 0
      modifies this`screen, this`quads, this`queued, this`glyphs, this`lines, texture
      ensures Valid() && Output() == old(Output())
      ensures glyphs.Keys == old(glyphs).Keys && (glyphs[k].valid <==> Cacheable(face(k)))
    {
      GlyphsWith(texture[..], lines, face, glyphs, k);
      if face(k).LoadError? { return; }
      glyphs := glyphs[k := glyphs[k].(left := face(k).left, top := face(k).top, advance := face(k).advance)];
      CacheRendered(k);
    }

    /** The second half of `updateGlyphCache`, for a glyph that has been loaded. */
    method CacheRendered(k: Key)
      requires Valid() && k in glyphs && !glyphs[k].valid && face(k).Rendered?
      modifies this`screen, this`quads, this`queued, this`glyphs, this`lines, texture
      ensures Valid() && Output() == old(Output())
      ensures glyphs.Keys == old(glyphs).Keys && (glyphs[k].valid <==> Cacheable(face(k)))
    {
      var ok, rect := CacheBitmap(face(k).bitmap);
      if ok {
        GlyphCached(texture[..], lines, face, glyphs, k, rect);
        glyphs := glyphs[k := glyphs[k].(valid := true, rect := rect)];
      }
    }

    /** `getCachedUTFChar`, with `cacheGlyph` for a character seen for the first time. */
    method GetCachedUTFChar(k: Key) returns (g: Glyph)
      requires Valid()
      modifies this`screen, this`quads, this`queued, this`glyphs, this`lines, texture
      ensures Valid() && Output() == old(Output()) && k in glyphs && g == glyphs[k]
      ensures g.valid <==> Cacheable(face(k))
    {
      if k !in glyphs {
        glyphs := glyphs[k := Glyph(false, Rect(0, 0, 0, 0), 0, 0, 0)];
        assert glyphs - {k} == old(glyphs);
        UpdateGlyphCache(k);
      }
      if !glyphs[k].valid {
        GlyphsWithout(texture[..], lines, face, glyphs, k);
        assert GlyphOk(texture[..], lines, face(k), glyphs[k]);
        UpdateGlyphCache(k);
      }
      assert GlyphOk(texture[..], lines, face(k), glyphs[k]);
      g := glyphs[k];
    }

    /** `appendMeshQuad`: the queue is drawn as soon as it is full. */
    method AppendMeshQuad(quad: Quad, ghost b: Bitmap)
      requires Valid() && Cached(texture[..], lines, quad.rect, b)
      modifies this`screen, this`quads, this`queued
      ensures Valid() && Output() == old(Output()) +
        if Culled(quad.penX, quad.penY, quad.rect.w, quad.rect.h, surfaceWidth, surfaceHeight) then []
        else [Shown(quad.penX, quad.penY, PixelsOf(b))]
    {
      if quad.penX > surfaceWidth || quad.penY < 0 || quad.penX + quad.rect.w < 0 ||
          quad.penY - quad.rect.h > surfaceHeight { return; }
      HeldPixels(texture[..], quad.rect, b);
      ghost var shown := Shown(quad.penX, quad.penY, PixelsOf(b));
      assert Output() + [shown] == screen + (queued + [shown]);
      assert QuadOk(texture[..], lines, quad, shown);
      if |quads| + 1 == MAX_QUADS {
        DrawnIsQueued(texture[..], lines, quads, queued);
        AppendDrawn(texture[..], quads, quad);
      }
      quads, queued := quads + [quad], queued + [shown];
      if |quads| == MAX_QUADS {
        screen := screen + Drawn(texture[..], quads);
        quads, queued := [], [];
      }
    }

    /** `renderUTF` in frame buffer mode, for the characters of one text. */
    method RenderUTF(font: nat, text: seq<nat>, x: int, y: int, numGlyphs: int)
      requires Valid()
      modifies this`screen, this`quads, this`queued, this`glyphs, this`lines, texture
      ensures Valid()
      ensures Output() == old(Output()) + TextShown(face, font, text, Count(text, numGlyphs), x, y, surfaceWidth,
          surfaceHeight)
    {
      if numGlyphs == 0 { return; }
      var penX := x;
      var i := 0;
      ghost var out := Output();
      ghost var done := [];
      while i < |text| && (numGlyphs < 0 || i < numGlyphs)
        invariant 0 <= i <= Count(text, numGlyphs) && Valid() && penX == Pen(face, font, text, i, x)
        invariant Output() == out + done && done == TextShown(face, font, text, i, x, y, surfaceWidth, surfaceHeight)
      {
        ghost var next := ShownOf(face((font, text[i])), penX, y, surfaceWidth, surfaceHeight);
        Joined(out, done, next);
        var advance := RenderChar((font, text[i]), penX, y);
        penX := penX + advance;
        done := done + next;
        i := i + 1;
      }
    }

    /** One turn of the loop in `renderUTF`. */
    method RenderChar(k: Key, x: int, y: int) returns (advance: int)
      requires Valid()
      modifies this`screen, this`quads, this`queued, this`glyphs, this`lines, texture
      ensures Valid() && advance == Advance(face(k))
      ensures Output() == old(Output()) + ShownOf(face(k), x, y, surfaceWidth, surfaceHeight)
    {
      var g := GetCachedUTFChar(k);
      assert GlyphOk(texture[..], lines, face(k), g);
      if g.valid {
        AppendMeshQuad(Quad(x + g.left, y - g.top + g.rect.h, g.rect), face(k).bitmap);
      }
      advance := g.advance / 64;
    }

    /** `renderText`: the text is on the screen when it returns. */
    method RenderText(font: nat, text: seq<nat>, x: int, y: int, numGlyphs: int, width: int, height: int)
      requires Valid() && quads == []
      modifies this, texture
      ensures Valid() && quads == []
      ensures screen == old(screen) + TextShown(face, font, text, Count(text, numGlyphs), x, y, width, height)
      ensures forall px, py, v :: OnSurface(px, py, width, height) ==>
        (Lit(screen[|old(screen)|..], px, py, v) <==>
        InText(face, font, text, numGlyphs, x, y, px, py, v))
    {
      assert Output() == screen;
      surfaceWidth, surfaceHeight := width, height;
      RenderUTF(font, text, x, y, numGlyphs);
      if |quads| != 0 {
        IssueDrawCommand();
      }
      ghost var shown := TextShown(face, font, text, Count(text, numGlyphs), x, y, width, height);
      assert screen == old(screen) + shown;
      assert screen[|old(screen)|..] == shown;
      forall px, py, v | OnSurface(px, py, width, height)
        ensures Lit(shown, px, py, v) <==> InText(face, font, text, numGlyphs, x, y, px, py, v)
      {
        TextLitIff(face, font, text, numGlyphs, x, y, width, height, px, py, v);
      }
    }
  }

  /** How many characters of a text are rendered: all of them if the count is negative. */
  function Count(text: seq<nat>, numGlyphs: int): nat {
    if numGlyphs < 0 || numGlyphs > |text| then |text| else numGlyphs
  }

  /** An emptied cache is in order. */
  lemma Flushed(t: Texture, lines: seq<Line>, lines': seq<Line>, face: Face, glyphs: map<Key, Glyph>,
      glyphs': map<Key, Glyph>)
    requires LinesOk(lines) && GlyphsOk(t, lines, face, glyphs)
    requires |lines'| == |lines| && forall i :: 0 <= i < |lines| ==> lines'[i] == lines[i].(col := 0)
    requires glyphs'.Keys == glyphs.Keys && forall k :: k in glyphs ==> glyphs'[k] == glyphs[k].(valid := false)
    ensures LinesOk(lines') && GlyphsOk(t, lines', face, glyphs')
  {
    forall j | 0 <= j < |lines| ensures LineOk(lines'[j]) { assert LineOk(lines[j]); }
    forall k | k in glyphs' ensures GlyphOk(t, lines', face(k),
        glyphs'[k]) { assert GlyphOk(t, lines, face(k), glyphs[k]); }
  }

  lemma Joined(a: seq<Shown>, b: seq<Shown>, c: seq<Shown>)
    ensures (a + b) + c == a + (b + c)
  {
  }

  lemma AppendDrawn(t: Texture, quads: seq<Quad>, quad: Quad)
    ensures Drawn(t, quads + [quad]) == Drawn(t, quads) + [Shown(quad.penX, quad.penY, TexelsOf(t, quad.rect))]
  {
  }

  /** An invalid glyph joins the others; what it says about itself may still be unset. */
  lemma GlyphsWith(t: Texture, lines: seq<Line>, face: Face, glyphs: map<Key, Glyph>, k: Key)
    requires k in glyphs && !glyphs[k].valid && GlyphsOk(t, lines, face, glyphs - {k})
    ensures face(k).LoadError? && glyphs[k].advance == 0 ==> GlyphsOk(t, lines, face, glyphs)
    ensures face(k).Rendered? ==>
      GlyphsOk(t, lines, face, glyphs[k :=
          glyphs[k].(left := face(k).left, top := face(k).top, advance := face(k).advance)])
  {
    var rest := glyphs - {k};
    assert forall m :: m in glyphs && m != k ==> m in rest && glyphs[m] == rest[m];
  }

  /** A glyph whose bitmap is cached apart from the others becomes valid. */
  lemma GlyphCached(t: Texture, lines: seq<Line>, face: Face, glyphs: map<Key, Glyph>, k: Key, rect: Rect)
    requires k in glyphs && GlyphsOk(t, lines, face, glyphs) && Cacheable(face(k)) &&
        Cached(t, lines, rect, face(k).bitmap)
    requires forall m :: m in glyphs && glyphs[m].valid ==> Apart(glyphs[m].rect, rect)
    ensures GlyphsOk(t, lines, face, glyphs[k := glyphs[k].(valid := true, rect := rect)])
  {
    assert GlyphOk(t, lines, face(k), glyphs[k]);
  }

  lemma GlyphsWithout(t: Texture, lines: seq<Line>, face: Face, glyphs: map<Key, Glyph>, k: Key)
    requires GlyphsOk(t, lines, face, glyphs)
    ensures GlyphsOk(t, lines, face, glyphs - {k})
  {
  }
}
