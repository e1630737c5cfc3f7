/** The compositor's state: who has surfaces, where they are, and who has the focus
    (kernel/src/graphics/compositor.rs). */
module Compositors {
  import opened Options
  import opened Framebuffers
  import opened Tiling
  import opened TrustBar

  const MAX_SURFACE_PIXELS: nat := 8 * 1024 * 1024
  const SIGNATURE_BLOCKS: nat := 6

  datatype LayoutMode = Floating | Tiled

  datatype Created = Created(id: nat) | Refused | Panicked

  function RectOf(s: Surface): Rect {
    Rect(s.x, s.y, s.width, s.height)
  }

  /** `content_region`. */
  function ContentRegion(g: Geometry): Rect {
    Rect(0, TRUST_BAR_HEIGHT, g.width, ContentHeight(g))
  }

  /** The content region inset by the gap on every side, where windows are tiled. */
  function Inset(g: Geometry): Rect {
    Rect(TILE_GAP, TRUST_BAR_HEIGHT + TILE_GAP, SatSub(g.width, 2 * TILE_GAP), SatSub(ContentHeight(g), 2 * TILE_GAP))
  }

  /** The inset area with a gap to its right and below it. */
  function TilingArea(g: Geometry): Rect {
    Inset(g).(w := Inset(g).w + TILE_GAP, h := Inset(g).h + TILE_GAP)
  }

  /** The positions of the windowed surfaces, oldest first. */
  function Windows(surfaces: seq<Surface>): (r: seq<nat>)
    ensures forall k | 0 <= k < |r| :: r[k] < |surfaces| && surfaces[r[k]].mode.Windowed?
    ensures forall j, k | 0 <= j < k < |r| :: r[j] < r[k]
    ensures forall i | 0 <= i < |surfaces| && surfaces[i].mode.Windowed? :: i in r
  {
    if surfaces == [] then []
    else
      var n := |surfaces| - 1;
      var earlier := Windows(surfaces[..n]);
      if surfaces[n].mode.Windowed? then earlier + [n] else earlier
  }

  /** A surface given a place; a size of nothing becomes one pixel, and a changed size empties it. */
  function Moved(s: Surface, r: Rect): Surface {
    var w, h := Max(r.w, 1), Max(r.h, 1);
    s.(x := r.x, y := r.y, width := w, height := h,
       pixels := if s.width == w && s.height == h then s.pixels else seq(w * h, _ => 0))
  }

  lemma MovedIsGood(s: Surface, r: Rect)
    requires GoodSurface(s) && r.y >= TRUST_BAR_HEIGHT
    ensures GoodSurface(Moved(s, r)) && Moved(s, r).y >= TRUST_BAR_HEIGHT && SameIdentity(s, Moved(s, r))
  {
  }

  predicate SameIdentity(s: Surface, t: Surface) {
    s.id == t.id && s.pid == t.pid && s.realmKind == t.realmKind && s.mode == t.mode
  }

  /** The same surfaces in the same order, wherever they are. */
  predicate SameSurfaces(before: seq<Surface>, after: seq<Surface>) {
    |after| == |before| && forall i | 0 <= i < |before| :: SameIdentity(before[i], after[i])
  }

  lemma {:induction false} SameFocus(before: seq<Surface>, after: seq<Surface>, focused: Option<nat>)
    requires SameSurfaces(before, after)
    ensures FocusedRealm(after, focused) == FocusedRealm(before, focused)
    decreases |before|
  {
    if before != [] {
      assert SameIdentity(before[0], after[0]);
      SameFocus(before[1..], after[1..], focused);
    }
  }

  /** The k-th window has the k-th tile; nothing else has moved. */
  ghost predicate Arranged(g: Geometry, before: seq<Surface>, after: seq<Surface>) {
    var windows := Windows(before);
    && |after| == |before|
    && (forall k | 0 <= k < |windows| :: after[windows[k]] == Moved(before[windows[k]], Tile(Dwindle(TilingArea(g), |windows|)[k])))
    && (forall i | 0 <= i < |before| && !before[i].mode.Windowed? :: after[i] == before[i])
  }

  /** As far as the loop in `relayout` has come: the first `n` windows are in their tiles. */
  ghost predicate PartlyArranged(before: seq<Surface>, after: seq<Surface>, area: Rect, n: nat) {
    var windows := Windows(before);
    && |after| == |before| && n <= |windows|
    && (forall k | 0 <= k < n :: after[windows[k]] == Moved(before[windows[k]], Tile(Dwindle(area, |windows|)[k])))
    && (forall i | 0 <= i < |before| && (forall k | 0 <= k < n :: windows[k] != i) :: after[i] == before[i])
  }

  lemma ArrangeNext(before: seq<Surface>, after: seq<Surface>, area: Rect, n: nat)
    requires PartlyArranged(before, after, area, n) && n < |Windows(before)| && SameSurfaces(before, after)
    ensures
      var i := Windows(before)[n];
      var after' := after[i := Moved(after[i], Tile(Dwindle(area, |Windows(before)|)[n]))];
      PartlyArranged(before, after', area, n + 1) && SameSurfaces(before, after')
  {
    hide Windows, Dwindle, Tile;
  }

  lemma AllArranged(g: Geometry, before: seq<Surface>, after: seq<Surface>)
    requires PartlyArranged(before, after, TilingArea(g), |Windows(before)|)
    ensures Arranged(g, before, after)
  {
    hide Windows, Dwindle, Tile, Moved, TilingArea;
  }

  /** Do the splits never subtract the gap from less? Only the last one matters. */
  predicate Splits(g: Geometry, n: nat) {
    n < 2 || Longer(RestAfter(TilingArea(g), n - 2)) >= 2 * TILE_GAP
  }

  /** Room for `n` windows, in terms of the screen. */
  predicate Room(g: Geometry, n: nat) {
    && Inset(g).w >= 1 && Inset(g).h >= 1
    && (n >= 2 ==> (Inset(g).w + TILE_GAP) * (Inset(g).h + TILE_GAP) >= 196 * Pow2(n - 2))
  }

  lemma TileSizes(g: Geometry, n: nat, k: nat)
    requires Room(g, n) && k < n
    ensures
      var tile := Tile(Dwindle(TilingArea(g), n)[k]);
      && tile.w >= 1 && tile.h >= 1 && Within(tile, Inset(g))
      && (forall j | 0 <= j < k :: Apart(Tile(Dwindle(TilingArea(g), n)[j]), tile))
  {
    hide Dwindle, RestAfter, Pow2, Apart;
    if n >= 2 {
      TilingGeometry(Inset(g), n);
      assert Positive(Dwindle(TilingArea(g), n)[k]);
    } else {
      DwindleAt(TilingArea(g), n, k);
      RestAfterNone(TilingArea(g));
    }
  }

  lemma RestAfterNone(a: Rect)
    ensures RestAfter(a, 0) == a
  {
  }

  lemma InsetInside(g: Geometry, r: Rect)
    requires Within(r, Inset(g)) && r.w >= 1 && r.h >= 1
    ensures Within(r, ContentRegion(g))
  {
  }

  /** Tiling geometry, for the windows themselves. */
  lemma ArrangedWell(g: Geometry, before: seq<Surface>, after: seq<Surface>, i: nat, j: nat)
    requires Arranged(g, before, after) && Room(g, |Windows(before)|)
    requires j < i < |before| && before[i].mode.Windowed? && before[j].mode.Windowed?
    ensures Splits(g, |Windows(before)|)
    ensures after[i].width >= 1 && after[i].height >= 1 && Within(RectOf(after[i]), ContentRegion(g))
    ensures Apart(RectOf(after[j]), RectOf(after[i]))
  {
    hide Dwindle, RestAfter, Pow2, Apart, Windows, Room, Inset, ContentRegion, TilingArea;
    var windows := Windows(before);
    assert i in windows && j in windows;
    var k :| 0 <= k < |windows| && windows[k] == i;
    var l :| 0 <= l < |windows| && windows[l] == j;
    assert l < k;
    TileSizes(g, |windows|, k);
    TileSizes(g, |windows|, l);
    var tile := Tile(Dwindle(TilingArea(g), |windows|)[k]);
    InsetInside(g, tile);
    assert RectOf(after[i]) == tile;
    RoomSplits(g, |windows|);
  }

  lemma RoomSplits(g: Geometry, n: nat)
    requires Room(g, n)
    ensures Splits(g, n)
  {
    if n >= 2 {
      TilingGeometry(Inset(g), n);
    }
  }

  function FocusedRealm(surfaces: seq<Surface>, focused: Option<nat>): Option<nat> {
    if focused.None? || surfaces == [] then None
    else if surfaces[0].id == focused.value then Some(surfaces[0].realmKind)
    else FocusedRealm(surfaces[1..], focused)
  }

  /** The bar names the Realm of the surface that has the focus. */
  lemma {:induction false} FocusedRealmIsTheOwner(surfaces: seq<Surface>, i: nat)
    requires i < |surfaces| && forall j, k | 0 <= j < k < |surfaces| :: surfaces[j].id != surfaces[k].id
    ensures FocusedRealm(surfaces, Some(surfaces[i].id)) == Some(surfaces[i].realmKind)
    decreases |surfaces|
  {
    if i > 0 {
      assert surfaces[1..][i - 1] == surfaces[i];
      FocusedRealmIsTheOwner(surfaces[1..], i - 1);
    }
  }

  predicate GoodSurfaces(surfaces: seq<Surface>, nextId: nat) {
    && (forall i | 0 <= i < |surfaces| :: GoodSurface(surfaces[i]) && surfaces[i].y >= TRUST_BAR_HEIGHT && surfaces[i].id < nextId)
    && (forall j, k | 0 <= j < k < |surfaces| :: surfaces[j].id < surfaces[k].id)
  }

  /** The focus is on a live surface, and there is one whenever there are surfaces. */
  predicate GoodFocus(surfaces: seq<Surface>, focused: Option<nat>) {
    if focused.None? then surfaces == [] else exists i :: 0 <= i < |surfaces| && surfaces[i].id == focused.value
  }

  lemma ReplacedIsGood(surfaces: seq<Surface>, nextId: nat, i: nat, s: Surface)
    requires GoodSurfaces(surfaces, nextId) && i < |surfaces|
    requires GoodSurface(s) && s.y >= TRUST_BAR_HEIGHT && s.id == surfaces[i].id
    ensures GoodSurfaces(surfaces[i := s], nextId)
    ensures forall focused :: GoodFocus(surfaces, focused) ==> GoodFocus(surfaces[i := s], focused)
  {
    hide GoodSurface;
    var after := surfaces[i := s];
    forall focused | GoodFocus(surfaces, focused) ensures GoodFocus(after, focused) {
      if focused.Some? {
        var k :| 0 <= k < |surfaces| && surfaces[k].id == focused.value;
        assert after[k].id == focused.value;
      }
    }
  }

  lemma PlacedIsGood(surfaces: seq<Surface>, nextId: nat, focused: Option<nat>, i: nat, r: Rect)
    requires GoodSurfaces(surfaces, nextId) && GoodFocus(surfaces, focused) && i < |surfaces| && r.y >= TRUST_BAR_HEIGHT
    ensures GoodSurfaces(surfaces[i := Moved(surfaces[i], r)], nextId)
    ensures GoodFocus(surfaces[i := Moved(surfaces[i], r)], focused)
    ensures SameIdentity(surfaces[i], Moved(surfaces[i], r))
  {
    hide GoodSurface;
    MovedIsGood(surfaces[i], r);
    ReplacedIsGood(surfaces, nextId, i, Moved(surfaces[i], r));
  }

  /** One turn of the loop in `relayout`, against the reference. */
  lemma SplitStep(area: Rect, count: nat, k: nat, x: nat, y: nat, w: nat, h: nat)
    requires k < count && Rect(x, y, w + TILE_GAP, h + TILE_GAP) == RestAfter(area, k)
    ensures k == count - 1 ==> Tile(Dwindle(area, count)[k]) == Rect(x, y, w, h)
    ensures k < count - 1 && w >= h && w >= TILE_GAP ==>
              var half := (w - TILE_GAP) / 2;
              && Tile(Dwindle(area, count)[k]) == Rect(x, y, half, h)
              && RestAfter(area, k + 1) == Rect(x + half + TILE_GAP, y, w - half, h + TILE_GAP)
    ensures k < count - 1 && w < h && h >= TILE_GAP ==>
              var half := (h - TILE_GAP) / 2;
              && Tile(Dwindle(area, count)[k]) == Rect(x, y, w, half)
              && RestAfter(area, k + 1) == Rect(x, y + half + TILE_GAP, w + TILE_GAP, h - half)
  {
    hide Dwindle, RestAfter;
    DwindleAt(area, count, k);
    RestStep(area, k);
  }

  /** Where a new surface goes before any tiling: a window no larger than the content region, at a
      place that cascades; a full screen is the content region. */
  function CreatedRect(g: Geometry, index: nat, width: nat, height: nat, mode: SurfaceMode): Rect {
    var content := ContentRegion(g);
    match mode
    case Fullscreen => content
    case Windowed =>
      var w, h := Min(width, content.w), Min(height, content.h);
      Rect(Min(40 + index * 30, content.w - w), Min(content.y + 30 + index * 26, content.y + (content.h - h)), w, h)
  }

  function NewSurface(id: nat, pid: nat, realmKind: nat, r: Rect, mode: SurfaceMode): Surface {
    Surface(id, pid, realmKind, r.x, r.y, r.w, r.h, mode, seq(r.w * r.h, _ => 0))
  }

  /** A window that fits keeps the size asked for and takes its place in the cascade, 30 right and 26 down
      from the one before, as far as it fits there; a larger one is cut to the content region; a full
      screen is the content region. */
  lemma CreatedWhere(g: Geometry, index: nat, width: nat, height: nat)
    ensures CreatedRect(g, index, width, height, Fullscreen) == Rect(0, 20, g.width, SatSub(g.height, 20))
    ensures
      var r := CreatedRect(g, index, width, height, Windowed);
      && r.w == (if width <= g.width then width else g.width)
      && r.h == (if height + 20 <= g.height then height else SatSub(g.height, 20))
      && (40 + 30 * index + r.w <= g.width ==> r.x == 40 + 30 * index)
      && (40 + 30 * index + r.w > g.width ==> r.x + r.w == g.width)
      && (50 + 26 * index + r.h <= g.height ==> r.y == 50 + 26 * index)
      && (g.height >= 20 && 50 + 26 * index + r.h > g.height ==> r.y + r.h == g.height)
  {
  }

  lemma CreatedInside(g: Geometry, index: nat, width: nat, height: nat, mode: SurfaceMode)
    ensures Within(CreatedRect(g, index, width, height, mode), ContentRegion(g))
    ensures CreatedRect(g, index, width, height, mode).y >= TRUST_BAR_HEIGHT
  {
  }

  lemma NewIsGood(surfaces: seq<Surface>, id: nat, pid: nat, realmKind: nat, r: Rect, mode: SurfaceMode)
    requires GoodSurfaces(surfaces, id)
    ensures
      var s := NewSurface(id, pid, realmKind, r, mode);
      && RectOf(s) == r
      && (r.y >= TRUST_BAR_HEIGHT ==> GoodSurfaces(surfaces + [s], id + 1) && GoodFocus(surfaces + [s], Some(id))
                                      && FocusedRealm(surfaces + [s], Some(id)) == Some(realmKind))
  {
    hide FocusedRealm;
    var s := NewSurface(id, pid, realmKind, r, mode);
    var all := surfaces + [s];
    assert all[|surfaces|] == s;
    if r.y >= TRUST_BAR_HEIGHT {
      assert GoodSurface(s);
      FocusedRealmIsTheOwner(all, |surfaces|);
    }
  }

  predicate Accepts(s: Surface, id: nat, pid: nat, pixels: seq<Pixel>) {
    s.id == id && s.pid == pid && |pixels| == |s.pixels|
  }

  lemma SameSelf(surfaces: seq<Surface>)
    ensures SameSurfaces(surfaces, surfaces)
  {
  }

  lemma SameCount(before: seq<Surface>, after: seq<Surface>)
    requires SameSurfaces(before, after)
    ensures |after| == |before|
  {
  }

  /** The surfaces that are not the process's, in order. */
  function Without(surfaces: seq<Surface>, pid: nat): seq<Surface> {
    if surfaces == [] then []
    else
      var n := |surfaces| - 1;
      var earlier := Without(surfaces[..n], pid);
      if surfaces[n].pid != pid then earlier + [surfaces[n]] else earlier
  }

  lemma {:induction false} WithoutIsExact(surfaces: seq<Surface>, pid: nat, s: Surface)
    ensures s in Without(surfaces, pid) <==> s in surfaces && s.pid != pid
    decreases |surfaces|
  {
    if surfaces != [] {
      var n := |surfaces| - 1;
      WithoutIsExact(surfaces[..n], pid, s);
      assert surfaces == surfaces[..n] + [surfaces[n]];
    }
  }

  function HasId(surfaces: seq<Surface>, id: nat): bool {
    exists i :: 0 <= i < |surfaces| && surfaces[i].id == id
  }

  function FocusAfter(kept: seq<Surface>, focused: Option<nat>): Option<nat> {
    if focused.None? || HasId(kept, focused.value) then focused
    else if kept == [] then None
    else Some(kept[|kept| - 1].id)
  }

  /** When the focus has to move it moves to the newest surface left. */
  lemma FocusGoesToNewest(surfaces: seq<Surface>, nextId: nat, focused: nat, i: nat)
    requires GoodSurfaces(surfaces, nextId) && i < |surfaces| && !HasId(surfaces, focused)
    ensures FocusAfter(surfaces, Some(focused)).Some? && surfaces[i].id <= FocusAfter(surfaces, Some(focused)).value
    ensures HasId(surfaces, FocusAfter(surfaces, Some(focused)).value)
  {
    hide GoodSurface;
    assert surfaces[|surfaces| - 1].id == FocusAfter(surfaces, Some(focused)).value;
  }

  lemma {:induction false} WithoutKeepsGood(surfaces: seq<Surface>, nextId: nat, pid: nat)
    requires GoodSurfaces(surfaces, nextId)
    ensures GoodSurfaces(Without(surfaces, pid), nextId)
    decreases |surfaces|
  {
    hide GoodSurface;
    if surfaces != [] {
      var n := |surfaces| - 1;
      assert GoodSurfaces(surfaces[..n], nextId);
      WithoutKeepsGood(surfaces[..n], nextId, pid);
      var earlier := Without(surfaces[..n], pid);
      forall k | 0 <= k < |earlier| ensures earlier[k].id < surfaces[n].id {
        WithoutIsExact(surfaces[..n], pid, earlier[k]);
        var i :| 0 <= i < n && surfaces[i] == earlier[k];
      }
    }
  }

  lemma WithoutIsGood(surfaces: seq<Surface>, nextId: nat, focused: Option<nat>, pid: nat)
    requires GoodSurfaces(surfaces, nextId) && GoodFocus(surfaces, focused)
    ensures GoodSurfaces(Without(surfaces, pid), nextId)
    ensures GoodFocus(Without(surfaces, pid), FocusAfter(Without(surfaces, pid), focused))
  {
    WithoutKeepsGood(surfaces, nextId, pid);
    var kept := Without(surfaces, pid);
    if focused.Some? && !HasId(kept, focused.value) && kept != [] {
      assert kept[|kept| - 1].id == FocusAfter(kept, focused).value;
    }
  }

  class Compositor {
    var framebuffer: Option<Framebuffer>
    var surfaces: seq<Surface>
    var nextId: nat
    var focused: Option<nat>
    var theme: Theme
    var layout: LayoutMode
    var signature: seq<Colour>
    var frames: nat
    var rejectedCommits: nat
    const font: Font

    ghost predicate Valid()
      reads this
    {
      && (framebuffer.Some? ==> framebuffer.value.Valid())
      && |signature| == SIGNATURE_BLOCKS
      && GoodSurfaces(surfaces, nextId) && GoodFocus(surfaces, focused)
    }

    constructor (framebuffer: Option<Framebuffer>, theme: Theme, signature: seq<Colour>, font: Font)
      requires |signature| == SIGNATURE_BLOCKS && (framebuffer.Some? ==> framebuffer.value.Valid())
      ensures Valid() && surfaces == [] && this.framebuffer == framebuffer && layout == Floating
    {
      this.framebuffer, this.theme, this.signature, this.font := framebuffer, theme, signature, font;
      surfaces, nextId, focused, layout, frames, rejectedCommits := [], 1, None, Floating, 0, 0;
    }

    /** Which surfaces are tiled. */
    method TiledIndices() returns (tiled: seq<nat>)
      ensures tiled == Windows(surfaces)
    {
      tiled := [];
      for i := 0 to |surfaces|
        invariant tiled == Windows(surfaces[..i])
      {
        assert surfaces[..i + 1][..i] == surfaces[..i];
        if surfaces[i].mode.Windowed? {
          tiled := tiled + [i];
        }
      }
      assert surfaces[..|surfaces|] == surfaces;
    }

    /** `relayout`. The result is false where the source would subtract the gap from less than it. */
    method Relayout() returns (ok: bool)
      requires Valid()
      modifies this`surfaces
      ensures Valid() && SameSurfaces(old(surfaces), surfaces)
      ensures framebuffer.None? || layout == Floating ==> ok && surfaces == old(surfaces)
      ensures framebuffer.Some? && layout == Tiled ==>
                && (ok <==> Splits(framebuffer.value.g, |Windows(old(surfaces))|))
                && (ok ==> Arranged(framebuffer.value.g, old(surfaces), surfaces))
    {
      hide Windows, GoodSurface;
      if framebuffer.None? {
        return true;
      }
      if layout == Floating {
        FloatInPlace();
        return true;
      }
      ok := TileAll(framebuffer.value.g);
    }

    /** Windows are kept below the strip, where they already are. */
    method FloatInPlace()
      requires Valid()
      modifies this`surfaces
      ensures surfaces == old(surfaces)
    {
      for i := 0 to |surfaces|
        invariant surfaces == old(surfaces)
      {
        if surfaces[i].mode.Windowed? {
          surfaces := surfaces[i := surfaces[i].(y := Max(surfaces[i].y, TRUST_BAR_HEIGHT))];
        }
      }
    }

    /** The dwindle loop: each window takes half of what remains along the longer side. */
    method TileAll(g: Geometry) returns (ok: bool)
      requires Valid()
      modifies this`surfaces
      ensures Valid() && SameSurfaces(old(surfaces), surfaces)
      ensures ok <==> Splits(g, |Windows(old(surfaces))|)
      ensures ok ==> Arranged(g, old(surfaces), surfaces)
    {
      hide Windows, GoodSurface, Dwindle, RestAfter, Moved, GoodSurfaces, GoodFocus, Share, Rest, Tile, SameIdentity, Arranged, SameSurfaces;
      var tiled := TiledIndices();
      var x: nat, y: nat := TILE_GAP, TRUST_BAR_HEIGHT + TILE_GAP;
      var width: nat, height: nat := SatSub(g.width, TILE_GAP * 2), SatSub(ContentHeight(g), TILE_GAP * 2);
      var count := |tiled|;
      ghost var area := TilingArea(g);
      ghost var before := surfaces;
      RestAfterNone(area);
      SameSelf(before);
      assert PartlyArranged(before, before, area, 0);
      hide PartlyArranged;
      for position := 0 to count
        invariant Valid() && |surfaces| == |before|
        invariant position < count ==> Rect(x, y, width + TILE_GAP, height + TILE_GAP) == RestAfter(area, position)
        invariant 0 < position < count ==> Longer(RestAfter(area, position - 1)) >= 2 * TILE_GAP
        invariant position == count && count >= 2 ==> Longer(RestAfter(area, count - 2)) >= 2 * TILE_GAP
        invariant y >= TRUST_BAR_HEIGHT && SameSurfaces(before, surfaces) && PartlyArranged(before, surfaces, area, position)
      {
        var last := position + 1 == count;
        SplitStep(area, count, position, x, y, width, height);
        var tile;
        if last {
          tile := Rect(x, y, width, height);
        } else if width >= height {
          if width < TILE_GAP {
            LongerOrder(area, position, count - 2);
            return false;
          }
          var half := (width - TILE_GAP) / 2;
          tile := Rect(x, y, half, height);
          x := x + half + TILE_GAP;
          width := width - (half + TILE_GAP);
        } else {
          if height < TILE_GAP {
            LongerOrder(area, position, count - 2);
            return false;
          }
          var half := (height - TILE_GAP) / 2;
          tile := Rect(x, y, width, half);
          y := y + half + TILE_GAP;
          height := height - (half + TILE_GAP);
        }
        var index := tiled[position];
        PlacedIsGood(surfaces, nextId, focused, index, tile);
        ArrangeNext(before, surfaces, area, position);
        surfaces := surfaces[index := Moved(surfaces[index], tile)];
      }
      ok := true;
      AllArranged(g, before, surfaces);
    }

    method SetLayout(mode: LayoutMode) returns (ok: bool)
      requires Valid()
      modifies this`layout, this`surfaces
      ensures Valid() && layout == mode
      ensures mode == old(layout) || mode == Floating || framebuffer.None? ==> ok && surfaces == old(surfaces)
      ensures mode != old(layout) && mode == Tiled && framebuffer.Some? ==>
                && (ok <==> Splits(framebuffer.value.g, |Windows(old(surfaces))|))
                && (ok ==> Arranged(framebuffer.value.g, old(surfaces), surfaces))
    {
      hide Windows, GoodSurfaces, GoodFocus, Splits, Arranged;
      if layout == mode {
        return true;
      }
      layout := mode;
      ok := Relayout();
    }

    /** `create_surface`: a fresh id, the focus, and a place that is never in the strip. */
    method CreateSurface(pid: nat, realmKind: nat, width: nat, height: nat, mode: SurfaceMode) returns (r: Created)
      requires Valid()
      modifies this`surfaces, this`nextId, this`focused
      ensures Valid()
      ensures r == Refused ==> surfaces == old(surfaces) && focused == old(focused) && nextId == old(nextId)
      ensures r == Refused <==>
                framebuffer.None? || var size := CreatedRect(framebuffer.value.g, |old(surfaces)|, width, height, mode);
                                     size.w == 0 || size.h == 0 || size.w * size.h > MAX_SURFACE_PIXELS
      ensures r != Refused ==>
                && focused == Some(old(nextId)) && |surfaces| == |old(surfaces)| + 1
                && FocusedRealm(surfaces, focused) == Some(realmKind)
                && (r == Created(old(nextId)) || (r == Panicked && layout == Tiled))
                && var g := framebuffer.value.g;
                   var all := old(surfaces) + [NewSurface(old(nextId), pid, realmKind, CreatedRect(g, |old(surfaces)|, width, height, mode), mode)];
                   && Within(RectOf(all[|old(surfaces)|]), ContentRegion(g))
                   && (layout == Floating ==> surfaces == all)
                   && (layout == Tiled ==> (r.Created? <==> Splits(g, |Windows(all)|)) && (r.Created? ==> Arranged(g, all, surfaces)))
    {
      hide Windows, Splits, Arranged, GoodSurfaces, GoodFocus, FocusedRealm, CreatedRect, NewSurface, SameSurfaces, Within;
      if framebuffer.None? {
        return Refused;
      }
      var g := framebuffer.value.g;
      var place := CreatedRect(g, |surfaces|, width, height, mode);
      if place.w == 0 || place.h == 0 || place.w * place.h > MAX_SURFACE_PIXELS {
        return Refused;
      }
      var id := nextId;
      NewIsGood(surfaces, id, pid, realmKind, place, mode);
      CreatedInside(g, |surfaces|, width, height, mode);
      nextId := nextId + 1;
      surfaces := surfaces + [NewSurface(id, pid, realmKind, place, mode)];
      focused := Some(id);
      ghost var all := surfaces;
      var ok := Relayout();
      SameFocus(all, surfaces, focused);
      SameCount(all, surfaces);
      r := if ok then Created(id) else Panicked;
    }

    method Retained(pid: nat) returns (kept: seq<Surface>)
      ensures kept == Without(surfaces, pid)
    {
      kept := [];
      for i := 0 to |surfaces|
        invariant kept == Without(surfaces[..i], pid)
      {
        assert surfaces[..i + 1][..i] == surfaces[..i];
        if surfaces[i].pid != pid {
          kept := kept + [surfaces[i]];
        }
      }
      assert surfaces[..|surfaces|] == surfaces;
    }

    method FindSurface(id: nat) returns (index: Option<nat>)
      requires GoodSurfaces(surfaces, nextId)
      ensures index.Some? ==> index.value < |surfaces| && surfaces[index.value].id == id
      ensures index.None? ==> !HasId(surfaces, id)
    {
      for i := 0 to |surfaces|
        invariant forall k | 0 <= k < i :: surfaces[k].id != id
      {
        if surfaces[i].id == id {
          return Some(i);
        }
      }
      return None;
    }

    /** `commit_surface`: a process replaces the contents of its own surface by a frame of exactly
        its size; every other attempt is counted and changes nothing. */
    method CommitSurface(id: nat, pid: nat, pixels: seq<Pixel>) returns (ok: bool)
      requires Valid()
      modifies this`surfaces, this`rejectedCommits
      ensures Valid()
      ensures ok <==> exists i :: 0 <= i < |old(surfaces)| && Accepts(old(surfaces)[i], id, pid, pixels)
      ensures forall i | 0 <= i < |old(surfaces)| ::
                i < |surfaces| &&
                surfaces[i] == if Accepts(old(surfaces)[i], id, pid, pixels) then old(surfaces)[i].(pixels := pixels) else old(surfaces)[i]
      ensures |surfaces| == |old(surfaces)|
      ensures rejectedCommits == old(rejectedCommits) + if HasId(old(surfaces), id) && !ok then 1 else 0
    {
      var found := FindSurface(id);
      if found.None? {
        return false;
      }
      var i := found.value;
      if surfaces[i].pid != pid || |pixels| != |surfaces[i].pixels| {
        rejectedCommits := rejectedCommits + 1;
        return false;
      }
      ReplacedIsGood(surfaces, nextId, i, surfaces[i].(pixels := pixels));
      surfaces := surfaces[i := surfaces[i].(pixels := pixels)];
      return true;
    }

    ghost function CurrentScene(pointerX: nat, pointerY: nat): Scene
      reads this
    {
      Scene(theme, font, FocusedRealm(surfaces, focused), signature, surfaces, pointerX, pointerY)
    }

    /** `present`: the layout key if it was pressed, then one frame of the state that results. */
    method Present(toggle: bool, pointerX: nat, pointerY: nat) returns (ok: bool)
      requires Valid()
      modifies this`layout, this`surfaces, this`frames, if framebuffer.Some? then {framebuffer.value.bytes} else {}
      ensures Valid() && GoodScene(CurrentScene(pointerX, pointerY))
      ensures SameSurfaces(old(surfaces), surfaces) && (!toggle ==> ok && surfaces == old(surfaces))
      ensures layout == if !toggle then old(layout) else if old(layout) == Floating then Tiled else Floating
      ensures FocusedRealm(surfaces, focused) == FocusedRealm(old(surfaces), focused)
      ensures ok && framebuffer.Some? ==>
                && Painted(framebuffer.value.g, old(framebuffer.value.bytes[..]), framebuffer.value.bytes[..],
                           FramePicture(framebuffer.value.g, CurrentScene(pointerX, pointerY)))
                && frames == old(frames) + 1
    {
      hide Windows, Splits, Arranged, GoodFocus, GoodSurface, FramePicture, Painted, FocusedRealm, SameIdentity;
      ok := true;
      ghost var before := surfaces;
      if toggle {
        layout := if layout == Floating then Tiled else Floating;
        ok := Relayout();
      }
      SameSelf(before);
      SameFocus(before, surfaces, focused);
      if framebuffer.None? || !ok {
        return;
      }
      var scene := Scene(theme, font, FocusedRealm(surfaces, focused), signature, surfaces, pointerX, pointerY);
      DrawFrame(framebuffer.value, scene);
      frames := frames + 1;
    }

    /** `remove_surfaces_for`: exactly the surfaces of the process go; the focus moves only if it was
        on one of them, and then to the newest that is left. */
    method RemoveSurfacesFor(pid: nat) returns (ok: bool)
      requires Valid()
      modifies this`surfaces, this`focused
      ensures Valid() && SameSurfaces(Without(old(surfaces), pid), surfaces)
      ensures focused == FocusAfter(Without(old(surfaces), pid), old(focused))
      ensures layout == Floating || framebuffer.None? ==> ok && surfaces == Without(old(surfaces), pid)
      ensures framebuffer.Some? && layout == Tiled ==>
                && (ok <==> Splits(framebuffer.value.g, |Windows(Without(old(surfaces), pid))|))
                && (ok ==> Arranged(framebuffer.value.g, Without(old(surfaces), pid), surfaces))
    {
      hide Windows, Splits, Arranged, GoodSurfaces, GoodFocus, Without, SameIdentity;
      ghost var before := surfaces;
      surfaces := Retained(pid);
      WithoutIsGood(before, nextId, focused, pid);
      if focused.Some? && !HasId(surfaces, focused.value) {
        focused := if surfaces == [] then None else Some(surfaces[|surfaces| - 1].id);
      }
      ok := Relayout();
    }
  }
}
