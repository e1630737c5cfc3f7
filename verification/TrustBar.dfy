/** What a frame shows: the desktop, the surfaces, the pointer and the Core-owned strip, and why
    nothing but the Core decides the strip (kernel/src/graphics/compositor.rs). */
module TrustBar {
  import opened Options
  import opened Bytes
  import opened Framebuffers

  const TRUST_BAR_HEIGHT: nat := 20

  datatype Theme = Theme(desktop: Colour, trustBar: Colour, trustBarEdge: Colour, trustBarText: Colour,
                         accentHome: Colour, accentGaming: Colour, accentVault: Colour, accentSystem: Colour,
                         pointerFill: Colour, pointerEdge: Colour)

  const GAMING: nat := 1
  const VAULT: nat := 2
  const SYSTEM: nat := 3

  function AccentForRealm(theme: Theme, kind: nat): Colour {
    if kind == GAMING then theme.accentGaming
    else if kind == VAULT then theme.accentVault
    else if kind == SYSTEM then theme.accentSystem
    else theme.accentHome
  }

  function RealmLabel(kind: nat): string {
    if kind == GAMING then "GAMING REALM"
    else if kind == VAULT then "VAULT REALM - VERIFIED PUBLISHER"
    else if kind == SYSTEM then "SYSTEM"
    else "HOME REALM"
  }

  /** The glyph table: is the dot at this column and row of a character's cell set? */
  type Font = (char, nat, nat) -> bool

  const GLYPH_WIDTH: nat := 5
  const GLYPH_HEIGHT: nat := 7
  const ADVANCE: nat := 6

  type Pixel = x: nat | x < 0x1_0000_0000

  datatype SurfaceMode = Windowed | Fullscreen

  datatype Surface = Surface(id: nat, pid: nat, realmKind: nat, x: nat, y: nat, width: nat, height: nat,
                             mode: SurfaceMode, pixels: seq<Pixel>)

  predicate GoodSurface(s: Surface) {
    |s.pixels| == s.width * s.height
  }

  lemma PixelInBuffer(s: Surface, dx: nat, dy: nat)
    requires GoodSurface(s) && dx < s.width && dy < s.height
    ensures dy * s.width + dx < |s.pixels|
  {
    assert (dy + 1) * s.width <= s.height * s.width;
  }

  function PixelAt(s: Surface, dx: nat, dy: nat): Colour
    requires GoodSurface(s) && dx < s.width && dy < s.height
  {
    PixelInBuffer(s, dx, dy);
    var pixel := s.pixels[dy * s.width + dx];
    Colour((pixel / 0x1_0000 % 256) as Byte, (pixel / 0x100 % 256) as Byte, (pixel % 256) as Byte)
  }

  /** `content_region`: the screen below the strip. */
  function ContentHeight(g: Geometry): nat {
    SatSub(g.height, TRUST_BAR_HEIGHT)
  }

  // --- What each part of a frame looks like ---------------------------------------------------------

  ghost function Desktop(g: Geometry, theme: Theme): Picture {
    Rectangle(0, TRUST_BAR_HEIGHT, g.width, ContentHeight(g), theme.desktop)
  }

  /** A surface's pixels where it lies in the content region. */
  ghost function PixelsPicture(g: Geometry, s: Surface): Picture
    requires GoodSurface(s)
  {
    (col: nat, row: nat) => Clipped(g, s, col, row)
  }

  function Clipped(g: Geometry, s: Surface, col: nat, row: nat): Option<Colour>
    requires GoodSurface(s)
  {
    if && s.x <= col < Min(s.x + s.width, g.width)
       && Max(s.y, TRUST_BAR_HEIGHT) <= row < Min(s.y + s.height, TRUST_BAR_HEIGHT + ContentHeight(g))
    then Some(PixelAt(s, col - s.x, row - s.y))
    else None
  }

  /** The border of a window: that of the part of it which is visible. */
  ghost function BorderPicture(g: Geometry, theme: Theme, s: Surface): Picture {
    var top := Max(s.y, TRUST_BAR_HEIGHT);
    var right, bottom := Min(s.x + s.width, g.width), Min(s.y + s.height, TRUST_BAR_HEIGHT + ContentHeight(g));
    if s.mode.Windowed? then Outline(s.x, top, SatSub(right, s.x), SatSub(bottom, top), AccentForRealm(theme, s.realmKind)) else Nothing
  }

  ghost function SurfacePicture(g: Geometry, theme: Theme, s: Surface): Picture
    requires GoodSurface(s)
  {
    Over(BorderPicture(g, theme, s), PixelsPicture(g, s))
  }

  /** Oldest first, so that the newest is on top. */
  ghost function ContentPicture(g: Geometry, theme: Theme, surfaces: seq<Surface>): Picture
    requires forall s | s in surfaces :: GoodSurface(s)
  {
    if surfaces == [] then Desktop(g, theme)
    else
      var newest := surfaces[|surfaces| - 1];
      Over(SurfacePicture(g, theme, newest), ContentPicture(g, theme, surfaces[..|surfaces| - 1]))
  }

  /** The pointer's wedge, from its tip. */
  ghost function PointerPicture(theme: Theme, x: nat, y: nat): Picture {
    (col: nat, row: nat) => if x <= col && y <= row then Wedge(theme, col - x, row - y) else None
  }

  function Wedge(theme: Theme, dx: nat, dy: nat): Option<Colour> {
    if dy < 12 && dx < 12 - dy && dx <= dy + 6
    then Some(Dot(theme, dx, dy))
    else None
  }

  ghost function TextPicture(font: Font, x: nat, y: nat, text: string, c: Colour): Picture {
    (col: nat, row: nat) =>
      if && x <= col && (col - x) / ADVANCE < |text| && (col - x) % ADVANCE < GLYPH_WIDTH
         && y <= row < y + GLYPH_HEIGHT
         && font(text[(col - x) / ADVANCE], (col - x) % ADVANCE, row - y)
      then Some(c)
      else None
  }

  ghost function SignaturePicture(x: nat, signature: seq<Colour>): Picture {
    (col: nat, row: nat) =>
      if x <= col && (col - x) / 13 < |signature| && (col - x) % 13 < 10 && 5 <= row < 15
      then Some(signature[(col - x) / 13])
      else None
  }

  function Label(realm: Option<nat>): string {
    if realm.Some? then RealmLabel(realm.value) else "NAJM OS"
  }

  function Swatch(theme: Theme, realm: Option<nat>): Colour {
    if realm.Some? then AccentForRealm(theme, realm.value) else theme.trustBarText
  }

  ghost function BarPicture(g: Geometry, theme: Theme, font: Font, realm: Option<nat>, signature: seq<Colour>): Picture {
    Over(SignaturePicture(SatSub(g.width, |signature| * 13 + 8), signature),
         Over(TextPicture(font, 22, 7, Label(realm), theme.trustBarText),
              Over(Rectangle(6, 5, 10, 10, Swatch(theme, realm)),
                   Over(Rectangle(0, TRUST_BAR_HEIGHT - 1, g.width, 1, theme.trustBarEdge),
                        Rectangle(0, 0, g.width, TRUST_BAR_HEIGHT, theme.trustBar)))))
  }

  /** Everything one frame depends on. */
  datatype Scene = Scene(theme: Theme, font: Font, realm: Option<nat>, signature: seq<Colour>,
                         surfaces: seq<Surface>, pointerX: nat, pointerY: nat)

  ghost predicate GoodScene(scene: Scene) {
    forall s | s in scene.surfaces :: GoodSurface(s)
  }

  ghost function FramePicture(g: Geometry, scene: Scene): Picture
    requires GoodScene(scene)
  {
    Over(BarPicture(g, scene.theme, scene.font, scene.realm, scene.signature),
         Over(PointerPicture(scene.theme, scene.pointerX, scene.pointerY), ContentPicture(g, scene.theme, scene.surfaces)))
  }

  // --- The strip belongs to the Core ----------------------------------------------------------------

  /** No surface reaches the strip, wherever it claims to be and whatever its mode. */
  lemma SurfaceStaysOut(g: Geometry, theme: Theme, s: Surface, x: nat, y: nat)
    requires GoodSurface(s) && y < TRUST_BAR_HEIGHT
    ensures SurfacePicture(g, theme, s)(x, y).None?
  {
  }

  lemma {:induction false} ContentStaysOut(g: Geometry, theme: Theme, surfaces: seq<Surface>, x: nat, y: nat)
    requires (forall s | s in surfaces :: GoodSurface(s)) && y < TRUST_BAR_HEIGHT
    ensures ContentPicture(g, theme, surfaces)(x, y).None?
    decreases |surfaces|
  {
    if surfaces != [] {
      SurfaceStaysOut(g, theme, surfaces[|surfaces| - 1], x, y);
      ContentStaysOut(g, theme, surfaces[..|surfaces| - 1], x, y);
    }
  }

  /** The bar is opaque over the whole strip and draws nowhere else. */
  lemma BarIsTheStrip(g: Geometry, theme: Theme, font: Font, realm: Option<nat>, signature: seq<Colour>, x: nat, y: nat)
    requires x < g.width
    ensures BarPicture(g, theme, font, realm, signature)(x, y).Some? <==> y < TRUST_BAR_HEIGHT
  {
  }

  /** So the strip shows the bar, and the rest of the screen shows the pointer over the content. */
  lemma FrameSplits(g: Geometry, scene: Scene, x: nat, y: nat)
    requires GoodScene(scene) && x < g.width
    ensures
      FramePicture(g, scene)(x, y) ==
      if y < TRUST_BAR_HEIGHT then BarPicture(g, scene.theme, scene.font, scene.realm, scene.signature)(x, y)
      else Over(PointerPicture(scene.theme, scene.pointerX, scene.pointerY), ContentPicture(g, scene.theme, scene.surfaces))(x, y)
  {
    hide BarPicture, PointerPicture, ContentPicture;
    BarIsTheStrip(g, scene.theme, scene.font, scene.realm, scene.signature, x, y);
  }

  function RealmOf(kind: nat): nat {
    if 1 <= kind <= 3 then kind else 0
  }

  /** The bar's words tell Realms apart: two kinds share a label exactly when they are the same Realm, and
      only a Vault is called verified. */
  lemma LabelsTellRealmsApart(a: nat, b: nat)
    ensures RealmLabel(a) == RealmLabel(b) <==> RealmOf(a) == RealmOf(b)
    ensures RealmLabel(a) == "VAULT REALM - VERIFIED PUBLISHER" <==> a == 2
    ensures RealmLabel(a) == "GAMING REALM" <==> a == 1
    ensures RealmLabel(a) == "SYSTEM" <==> a == 3
    ensures RealmLabel(a) != Label(None)
  {
    assert |"GAMING REALM"| == 12 && |"VAULT REALM - VERIFIED PUBLISHER"| == 32 && |"SYSTEM"| == 6 && |"HOME REALM"| == 10;
    assert |"NAJM OS"| == 7;
  }

  /** Letter k starts six columns after the one before, and shows the glyph's dots upright. */
  lemma LetterShows(font: Font, x: nat, y: nat, text: string, c: Colour, k: nat, dx: nat, dy: nat)
    requires k < |text| && dx < 6
    ensures TextPicture(font, x, y, text, c)(x + 6 * k + dx, y + dy) ==
            if dx < 5 && dy < 7 && font(text[k], dx, dy) then Some(c) else None
  {
    assert (6 * k + dx) / 6 == k && (6 * k + dx) % 6 == dx;
  }

  /** A surface's pixel is three bytes, red first, row after row. */
  lemma PixelColours(s: Surface, dx: nat, dy: nat, r: Byte, g: Byte, b: Byte)
    requires GoodSurface(s) && dx < s.width && dy < s.height && s.width * dy + dx < |s.pixels|
    requires s.pixels[s.width * dy + dx] == 65536 * r as nat + 256 * g as nat + b as nat
    ensures PixelAt(s, dx, dy) == Colour(r, g, b)
  {
  }

  /** A window inside the content region shows its pixels within a border of its Realm's colour, one pixel
      wide; a full screen has no border; nothing shows outside. */
  lemma SurfaceShows(g: Geometry, theme: Theme, s: Surface, x: nat, y: nat)
    requires GoodSurface(s) && s.y >= 20 && s.x + s.width <= g.width && s.y + s.height <= g.height
    ensures
      SurfacePicture(g, theme, s)(x, y) ==
      if !(s.x <= x < s.x + s.width && s.y <= y < s.y + s.height) then None
      else if s.mode.Windowed? && (x == s.x || x + 1 == s.x + s.width || y == s.y || y + 1 == s.y + s.height)
      then Some(AccentForRealm(theme, s.realmKind))
      else Some(PixelAt(s, x - s.x, y - s.y))
  {
    hide AccentForRealm, PixelAt;
  }

  /** Where surfaces overlap the newest shows, and the desktop where there is none. */
  lemma {:induction false} NewestShows(g: Geometry, theme: Theme, surfaces: seq<Surface>, i: nat, x: nat, y: nat)
    requires forall s | s in surfaces :: GoodSurface(s)
    requires forall j | i <= j < |surfaces| :: SurfacePicture(g, theme, surfaces[j])(x, y).None?
    ensures i == 0 ==> ContentPicture(g, theme, surfaces)(x, y) == if 20 <= y < g.height && x < g.width then Some(theme.desktop) else None
    ensures 0 < i <= |surfaces| && SurfacePicture(g, theme, surfaces[i - 1])(x, y).Some? ==>
              ContentPicture(g, theme, surfaces)(x, y) == SurfacePicture(g, theme, surfaces[i - 1])(x, y)
    decreases |surfaces|
  {
    hide SurfacePicture;
    if surfaces != [] && i < |surfaces| {
      NewestShows(g, theme, surfaces[..|surfaces| - 1], i, x, y);
    }
  }

  /** Each Realm has its own colour of the theme, the same for its windows' borders and for the bar. */
  lemma AccentsOfRealms(theme: Theme)
    ensures AccentForRealm(theme, 1) == theme.accentGaming && AccentForRealm(theme, 2) == theme.accentVault
    ensures AccentForRealm(theme, 3) == theme.accentSystem
    ensures forall kind: nat | kind == 0 || kind > 3 :: AccentForRealm(theme, kind) == theme.accentHome
  {
  }

  /** On a screen wide enough for the signature, the swatch shows the colour of the focused Realm. */
  lemma SwatchShowsRealm(g: Geometry, theme: Theme, font: Font, kind: nat, signature: seq<Colour>, x: nat, y: nat)
    requires g.width >= 24 + |signature| * 13 && 6 <= x < 16 && 5 <= y < 15
    ensures BarPicture(g, theme, font, Some(kind), signature)(x, y) == Some(AccentForRealm(theme, kind))
  {
    hide AccentForRealm;
  }

  ghost predicate SameTrust(a: Scene, b: Scene) {
    a.theme == b.theme && a.font == b.font && a.realm == b.realm && a.signature == b.signature
  }

  /** Non-interference: two frames of the same theme, focused Realm and signature leave the same
      bytes in the strip, whatever the surfaces, the pointer and the screen before were. */
  lemma StripNonInterference(g: Geometry, a: Scene, b: Scene, beforeA: seq<Byte>, afterA: seq<Byte>, beforeB: seq<Byte>, afterB: seq<Byte>, i: nat)
    requires GoodGeometry(g) && GoodScene(a) && GoodScene(b) && SameTrust(a, b)
    requires Painted(g, beforeA, afterA, FramePicture(g, a)) && Painted(g, beforeB, afterB, FramePicture(g, b))
    requires i < g.len && Lit(g, i) && RowOf(g, i) < TRUST_BAR_HEIGHT
    ensures afterA[i] == afterB[i]
  {
    hide FramePicture, BarPicture, RowOf, ColumnOf, ChannelOf, Channel;
    var x, y := ColumnOf(g, i), RowOf(g, i);
    FrameSplits(g, a, x, y);
    FrameSplits(g, b, x, y);
    BarIsTheStrip(g, a.theme, a.font, a.realm, a.signature, x, y);
  }

  /** Bytes of the strip that drawing cannot write are as the device left them. */
  lemma UnlitBytesStay(g: Geometry, scene: Scene, before: seq<Byte>, after: seq<Byte>, i: nat)
    requires GoodGeometry(g) && GoodScene(scene) && Painted(g, before, after, FramePicture(g, scene))
    requires i < g.len && !Lit(g, i)
    ensures after[i] == before[i]
  {
    hide FramePicture, Lit, RowOf, ColumnOf;
  }

  /** What a person sees in the strip is the bar, on any true-colour screen. */
  lemma StripShowsTheBar(g: Geometry, scene: Scene, before: seq<Byte>, after: seq<Byte>, x: nat, y: nat)
    requires GoodGeometry(g) && GoodScene(scene) && Painted(g, before, after, FramePicture(g, scene))
    requires g.pixelBytes >= 3 && (g.format.Rgb? || g.format.Bgr?)
    requires x < g.width && y < g.height && y < TRUST_BAR_HEIGHT && Offset(g, x, y) + g.pixelBytes <= g.len
    ensures ReadPixel(g, after, x, y) == BarPicture(g, scene.theme, scene.font, scene.realm, scene.signature)(x, y)
    ensures ReadPixel(g, after, x, y).Some?
  {
    hide FramePicture, BarPicture, Painted, ReadPixel;
    ReadBack(g, before, after, FramePicture(g, scene), x, y);
    FrameSplits(g, scene, x, y);
    BarIsTheStrip(g, scene.theme, scene.font, scene.realm, scene.signature, x, y);
  }

  // --- Drawing it -------------------------------------------------------------------------------------

  method DrawGlyph(fb: Framebuffer, font: Font, x: nat, y: nat, character: char, c: Colour)
    requires fb.Valid()
    modifies fb.bytes
    ensures Painted(fb.g, old(fb.bytes[..]), fb.bytes[..], GlyphPicture(font, x, y, character, c))
  {
    hide Painted;
    ghost var before := fb.bytes[..];
    PaintedNothing(fb.g, before);
    ghost var done := Nothing;
    for column := 0 to GLYPH_WIDTH
      invariant Painted(fb.g, before, fb.bytes[..], done)
      invariant Agree(fb.g, done, DotsPicture(font, x, y, character, c, column, 0))
    {
      for row := 0 to GLYPH_HEIGHT
        invariant Painted(fb.g, before, fb.bytes[..], done)
        invariant Agree(fb.g, done, DotsPicture(font, x, y, character, c, column, row))
      {
        if font(character, column, row) {
          ghost var was := fb.bytes[..];
          fb.SetPixel(x + column, y + row, c);
          PaintedThen(fb.g, before, was, fb.bytes[..], done, Rectangle(x + column, y + row, 1, 1, c));
          done := Over(Rectangle(x + column, y + row, 1, 1, c), done);
        }
      }
    }
    PaintedSame(fb.g, before, fb.bytes[..], done, GlyphPicture(font, x, y, character, c));
  }

  /** The dots of one character: those of whole columns before `column`, and of its rows before `row`. */
  ghost function DotsPicture(font: Font, x: nat, y: nat, character: char, c: Colour, column: nat, row: nat): Picture {
    (px: nat, py: nat) =>
      if && x <= px < x + GLYPH_WIDTH && y <= py < y + GLYPH_HEIGHT && font(character, px - x, py - y)
         && (px - x < column || (px - x == column && py - y < row))
      then Some(c)
      else None
  }

  ghost function GlyphPicture(font: Font, x: nat, y: nat, character: char, c: Colour): Picture {
    (px: nat, py: nat) =>
      if x <= px < x + GLYPH_WIDTH && y <= py < y + GLYPH_HEIGHT && font(character, px - x, py - y) then Some(c) else None
  }

  method DrawText(fb: Framebuffer, font: Font, x: nat, y: nat, text: string, c: Colour)
    requires fb.Valid()
    modifies fb.bytes
    ensures Painted(fb.g, old(fb.bytes[..]), fb.bytes[..], TextPicture(font, x, y, text, c))
  {
    hide Painted;
    ghost var before := fb.bytes[..];
    PaintedNothing(fb.g, before);
    ghost var done := Nothing;
    var cursor := x;
    for k := 0 to |text|
      invariant cursor == x + k * ADVANCE
      invariant Painted(fb.g, before, fb.bytes[..], done)
      invariant Agree(fb.g, done, TextPicture(font, x, y, text[..k], c))
    {
      ghost var was := fb.bytes[..];
      DrawGlyph(fb, font, cursor, y, text[k], c);
      PaintedThen(fb.g, before, was, fb.bytes[..], done, GlyphPicture(font, cursor, y, text[k], c));
      done := Over(GlyphPicture(font, cursor, y, text[k], c), done);
      TextGrows(fb.g, font, x, y, text, c, k);
      cursor := cursor + ADVANCE;
    }
    assert text[..|text|] == text;
    PaintedSame(fb.g, before, fb.bytes[..], done, TextPicture(font, x, y, text, c));
  }

  lemma TextGrows(g: Geometry, font: Font, x: nat, y: nat, text: string, c: Colour, k: nat)
    requires k < |text|
    ensures Agree(g, Over(GlyphPicture(font, x + k * ADVANCE, y, text[k], c), TextPicture(font, x, y, text[..k], c)),
                  TextPicture(font, x, y, text[..k + 1], c))
  {
  }

  method DrawSignature(fb: Framebuffer, x: nat, signature: seq<Colour>)
    requires fb.Valid()
    modifies fb.bytes
    ensures Painted(fb.g, old(fb.bytes[..]), fb.bytes[..], SignaturePicture(x, signature))
  {
    hide Painted;
    ghost var before := fb.bytes[..];
    PaintedNothing(fb.g, before);
    ghost var done := Nothing;
    var at := x;
    for k := 0 to |signature|
      invariant at == x + k * 13
      invariant Painted(fb.g, before, fb.bytes[..], done)
      invariant Agree(fb.g, done, SignaturePicture(x, signature[..k]))
    {
      ghost var was := fb.bytes[..];
      fb.FillRect(at, 5, 10, 10, signature[k]);
      PaintedThen(fb.g, before, was, fb.bytes[..], done, Rectangle(at, 5, 10, 10, signature[k]));
      done := Over(Rectangle(at, 5, 10, 10, signature[k]), done);
      SignatureGrows(fb.g, x, signature, k);
      at := at + 13;
    }
    assert signature[..|signature|] == signature;
    PaintedSame(fb.g, before, fb.bytes[..], done, SignaturePicture(x, signature));
  }

  lemma SignatureGrows(g: Geometry, x: nat, signature: seq<Colour>, k: nat)
    requires k < |signature|
    ensures Agree(g, Over(Rectangle(x + k * 13, 5, 10, 10, signature[k]), SignaturePicture(x, signature[..k])),
                  SignaturePicture(x, signature[..k + 1]))
  {
  }

  method DrawTrustBar(fb: Framebuffer, theme: Theme, font: Font, realm: Option<nat>, signature: seq<Colour>)
    requires fb.Valid()
    modifies fb.bytes
    ensures Painted(fb.g, old(fb.bytes[..]), fb.bytes[..], BarPicture(fb.g, theme, font, realm, signature))
  {
    hide Painted, TextPicture, SignaturePicture, Rectangle, Over;
    ghost var b0 := fb.bytes[..];
    ghost var bar := Rectangle(0, 0, fb.g.width, TRUST_BAR_HEIGHT, theme.trustBar);
    fb.FillRect(0, 0, fb.g.width, TRUST_BAR_HEIGHT, theme.trustBar);
    ghost var b1 := fb.bytes[..];
    ghost var edge := Rectangle(0, TRUST_BAR_HEIGHT - 1, fb.g.width, 1, theme.trustBarEdge);
    fb.FillRect(0, TRUST_BAR_HEIGHT - 1, fb.g.width, 1, theme.trustBarEdge);
    ghost var b2 := fb.bytes[..];
    PaintedThen(fb.g, b0, b1, b2, bar, edge);
    ghost var swatch := Rectangle(6, 5, 10, 10, Swatch(theme, realm));
    fb.FillRect(6, 5, 10, 10, Swatch(theme, realm));
    ghost var b3 := fb.bytes[..];
    PaintedThen(fb.g, b0, b2, b3, Over(edge, bar), swatch);
    ghost var text := TextPicture(font, 22, 7, Label(realm), theme.trustBarText);
    DrawText(fb, font, 22, 7, Label(realm), theme.trustBarText);
    ghost var b4 := fb.bytes[..];
    PaintedThen(fb.g, b0, b3, b4, Over(swatch, Over(edge, bar)), text);
    var x := SatSub(fb.g.width, |signature| * 13 + 8);
    DrawSignature(fb, x, signature);
    PaintedThen(fb.g, b0, b4, fb.bytes[..], Over(text, Over(swatch, Over(edge, bar))), SignaturePicture(x, signature));
  }

  method DrawPointer(fb: Framebuffer, theme: Theme, x: nat, y: nat)
    requires fb.Valid()
    modifies fb.bytes
    ensures Painted(fb.g, old(fb.bytes[..]), fb.bytes[..], PointerPicture(theme, x, y))
  {
    hide Painted, PointerPicture, WedgePicture, Rectangle;
    ghost var before := fb.bytes[..];
    PaintedNothing(fb.g, before);
    ghost var done := Nothing;
    WedgeEnds(fb.g, theme, x, y);
    for row := 0 to 12
      invariant Painted(fb.g, before, fb.bytes[..], done)
      invariant Agree(fb.g, done, WedgePicture(theme, x, y, 0, row))
    {
      WedgeRow(fb.g, theme, x, y, row);
      for column := 0 to 12 - row
        invariant Painted(fb.g, before, fb.bytes[..], done)
        invariant Agree(fb.g, done, WedgePicture(theme, x, y, column, row))
      {
        WedgeDot(fb.g, theme, x, y, column, row);
        if column > row + 6 {
          continue;
        }
        var c := Dot(theme, column, row);
        ghost var was := fb.bytes[..];
        fb.SetPixel(x + column, y + row, c);
        PaintedThen(fb.g, before, was, fb.bytes[..], done, Rectangle(x + column, y + row, 1, 1, c));
        done := Over(Rectangle(x + column, y + row, 1, 1, c), done);
      }
    }
    PaintedSame(fb.g, before, fb.bytes[..], done, PointerPicture(theme, x, y));
  }

  /** The wedge's rows above `row`, and that row up to `column`. */
  ghost function WedgePicture(theme: Theme, x: nat, y: nat, column: nat, row: nat): Picture {
    (px: nat, py: nat) =>
      if y <= py && x <= px && (py < y + row || (py == y + row && px < x + column)) then Wedge(theme, px - x, py - y) else None
  }

  lemma WedgeEnds(g: Geometry, theme: Theme, x: nat, y: nat)
    ensures Agree(g, Nothing, WedgePicture(theme, x, y, 0, 0))
    ensures Agree(g, WedgePicture(theme, x, y, 0, 12), PointerPicture(theme, x, y))
  {
    var p, q := WedgePicture(theme, x, y, 0, 12), PointerPicture(theme, x, y);
    forall px: nat, py: nat ensures p(px, py) == q(px, py) {
      WedgeShape(theme, SatSub(px, x), SatSub(py, y));
    }
  }

  lemma WedgeShape(theme: Theme, dx: nat, dy: nat)
    ensures Wedge(theme, dx, dy).Some? <==> dy < 12 && dx < 12 - dy && dx <= dy + 6
  {
  }

  lemma WedgeRow(g: Geometry, theme: Theme, x: nat, y: nat, row: nat)
    requires row < 12
    ensures Agree(g, WedgePicture(theme, x, y, 12 - row, row), WedgePicture(theme, x, y, 0, row + 1))
  {
    var p, q := WedgePicture(theme, x, y, 12 - row, row), WedgePicture(theme, x, y, 0, row + 1);
    forall px: nat, py: nat ensures p(px, py) == q(px, py) {
      WedgeShape(theme, SatSub(px, x), SatSub(py, y));
    }
  }

  function Dot(theme: Theme, column: nat, row: nat): Colour {
    if column == 0 || column + row == 11 || row == 11 then theme.pointerEdge else theme.pointerFill
  }

  lemma WedgeDot(g: Geometry, theme: Theme, x: nat, y: nat, column: nat, row: nat)
    requires row < 12 && column < 12 - row
    ensures Agree(g, if column > row + 6 then WedgePicture(theme, x, y, column, row)
                     else Over(Rectangle(x + column, y + row, 1, 1, Dot(theme, column, row)), WedgePicture(theme, x, y, column, row)),
                  WedgePicture(theme, x, y, column + 1, row))
  {
    var before, q := WedgePicture(theme, x, y, column, row), WedgePicture(theme, x, y, column + 1, row);
    var p := if column > row + 6 then before else Over(Rectangle(x + column, y + row, 1, 1, Dot(theme, column, row)), before);
    assert Wedge(theme, column, row) == if column > row + 6 then None else Some(Dot(theme, column, row));
    forall px: nat, py: nat ensures p(px, py) == q(px, py) {
      WedgeShape(theme, SatSub(px, x), SatSub(py, y));
    }
  }

  method DrawPixels(fb: Framebuffer, s: Surface)
    requires fb.Valid() && GoodSurface(s)
    modifies fb.bytes
    ensures Painted(fb.g, old(fb.bytes[..]), fb.bytes[..], PixelsPicture(fb.g, s))
  {
    hide Painted, PixelAt, PixelsPicture, PixelsUpTo, Rectangle;
    var yStart := Max(s.y, TRUST_BAR_HEIGHT);
    var xEnd, yEnd := Min(s.x + s.width, fb.g.width), Min(s.y + s.height, TRUST_BAR_HEIGHT + ContentHeight(fb.g));
    ghost var before := fb.bytes[..];
    PaintedNothing(fb.g, before);
    ghost var done := Nothing;
    var row := yStart;
    PixelsStart(fb.g, s);
    while row < yEnd
      invariant yStart <= row && (row <= yEnd || row == yStart)
      invariant Painted(fb.g, before, fb.bytes[..], done)
      invariant Agree(fb.g, done, PixelsUpTo(fb.g, s, s.x, row))
      decreases yEnd - row
    {
      var column := s.x;
      while column < xEnd
        invariant s.x <= column && (column <= xEnd || column == s.x)
        invariant Painted(fb.g, before, fb.bytes[..], done)
        invariant Agree(fb.g, done, PixelsUpTo(fb.g, s, column, row))
        decreases xEnd - column
      {
        ghost var was := fb.bytes[..];
        var c := PixelAt(s, column - s.x, row - s.y);
        fb.SetPixel(column, row, c);
        PaintedThen(fb.g, before, was, fb.bytes[..], done, Rectangle(column, row, 1, 1, c));
        done := Over(Rectangle(column, row, 1, 1, c), done);
        PixelsDot(fb.g, s, column, row);
        column := column + 1;
      }
      PixelsRow(fb.g, s, column, row);
      row := row + 1;
    }
    PixelsEnd(fb.g, s, row);
    PaintedSame(fb.g, before, fb.bytes[..], done, PixelsPicture(fb.g, s));
  }

  /** A surface's rows above `row`, and that row up to `column`. */
  ghost function PixelsUpTo(g: Geometry, s: Surface, column: nat, row: nat): Picture
    requires GoodSurface(s)
  {
    (px: nat, py: nat) => if py < row || (py == row && px < column) then Clipped(g, s, px, py) else None
  }

  lemma PixelsStart(g: Geometry, s: Surface)
    requires GoodSurface(s)
    ensures Agree(g, Nothing, PixelsUpTo(g, s, s.x, Max(s.y, TRUST_BAR_HEIGHT)))
  {
    hide PixelAt;
  }

  lemma PixelsDot(g: Geometry, s: Surface, column: nat, row: nat)
    requires GoodSurface(s) && s.x <= column < Min(s.x + s.width, g.width)
    requires Max(s.y, TRUST_BAR_HEIGHT) <= row < Min(s.y + s.height, TRUST_BAR_HEIGHT + ContentHeight(g))
    ensures Agree(g, Over(Rectangle(column, row, 1, 1, PixelAt(s, column - s.x, row - s.y)), PixelsUpTo(g, s, column, row)),
                  PixelsUpTo(g, s, column + 1, row))
  {
    hide PixelAt;
  }

  lemma PixelsRow(g: Geometry, s: Surface, column: nat, row: nat)
    requires GoodSurface(s) && s.x <= column && Min(s.x + s.width, g.width) <= column
    ensures Agree(g, PixelsUpTo(g, s, column, row), PixelsUpTo(g, s, s.x, row + 1))
  {
    hide PixelAt;
  }

  lemma PixelsEnd(g: Geometry, s: Surface, row: nat)
    requires GoodSurface(s) && Min(s.y + s.height, TRUST_BAR_HEIGHT + ContentHeight(g)) <= row
    ensures Agree(g, PixelsUpTo(g, s, s.x, row), PixelsPicture(g, s))
  {
    hide PixelAt;
  }

  method DrawSurface(fb: Framebuffer, theme: Theme, s: Surface)
    requires fb.Valid() && GoodSurface(s)
    modifies fb.bytes
    ensures Painted(fb.g, old(fb.bytes[..]), fb.bytes[..], SurfacePicture(fb.g, theme, s))
  {
    hide Painted, PixelsPicture, PixelAt;
    var yStart := Max(s.y, TRUST_BAR_HEIGHT);
    var xEnd, yEnd := Min(s.x + s.width, fb.g.width), Min(s.y + s.height, TRUST_BAR_HEIGHT + ContentHeight(fb.g));
    ghost var before := fb.bytes[..];
    DrawPixels(fb, s);
    ghost var drawn := fb.bytes[..];
    if s.mode.Windowed? && xEnd > s.x && yEnd > yStart {
      fb.StrokeRect(s.x, yStart, xEnd - s.x, yEnd - yStart, AccentForRealm(theme, s.realmKind));
      PaintedThen(fb.g, before, drawn, fb.bytes[..], PixelsPicture(fb.g, s), BorderPicture(fb.g, theme, s));
    } else {
      PaintedSame(fb.g, before, fb.bytes[..], PixelsPicture(fb.g, s), SurfacePicture(fb.g, theme, s));
    }
  }

  /** `present`, on the scene it found: the strip is drawn last. */
  method DrawFrame(fb: Framebuffer, scene: Scene)
    requires fb.Valid() && GoodScene(scene)
    modifies fb.bytes
    ensures Painted(fb.g, old(fb.bytes[..]), fb.bytes[..], FramePicture(fb.g, scene))
  {
    hide Painted, SurfacePicture, PointerPicture, BarPicture, GoodSurface;
    var theme, surfaces := scene.theme, scene.surfaces;
    ghost var before := fb.bytes[..];
    fb.FillRect(0, TRUST_BAR_HEIGHT, fb.g.width, ContentHeight(fb.g), theme.desktop);
    for i := 0 to |surfaces|
      invariant forall s | s in surfaces[..i] :: GoodSurface(s)
      invariant Painted(fb.g, before, fb.bytes[..], ContentPicture(fb.g, theme, surfaces[..i]))
    {
      ghost var was := fb.bytes[..];
      DrawSurface(fb, theme, surfaces[i]);
      PaintedThen(fb.g, before, was, fb.bytes[..], ContentPicture(fb.g, theme, surfaces[..i]), SurfacePicture(fb.g, theme, surfaces[i]));
      assert surfaces[..i + 1][..i] == surfaces[..i];
    }
    assert surfaces[..|surfaces|] == surfaces;
    ghost var content := ContentPicture(fb.g, theme, surfaces);
    ghost var was := fb.bytes[..];
    DrawPointer(fb, theme, scene.pointerX, scene.pointerY);
    ghost var pointed := fb.bytes[..];
    PaintedThen(fb.g, before, was, pointed, content, PointerPicture(theme, scene.pointerX, scene.pointerY));
    DrawTrustBar(fb, theme, scene.font, scene.realm, scene.signature);
    PaintedThen(fb.g, before, pointed, fb.bytes[..], Over(PointerPicture(theme, scene.pointerX, scene.pointerY), content),
                BarPicture(fb.g, theme, scene.font, scene.realm, scene.signature));
  }
}
