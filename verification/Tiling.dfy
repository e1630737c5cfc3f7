/** Dwindle tiling: the geometry behind `relayout` in tiling mode
    (kernel/src/graphics/compositor.rs). */
module Tiling {

  const TILE_GAP: nat := 6

  datatype Rect = Rect(x: nat, y: nat, w: nat, h: nat)

  /** A rectangle as drawn, from one that includes the gap to its right and below it. */
  function Tile(a: Rect): Rect {
    Rect(a.x, a.y, Sub(a.w), Sub(a.h))
  }

  function Sub(side: nat): nat {
    if side >= TILE_GAP then side - TILE_GAP else 0
  }

  // --- The reference: halve what remains along its longer side ----------------------------------------

  function Share(a: Rect): Rect {
    if a.w >= a.h then a.(w := a.w / 2) else a.(h := a.h / 2)
  }

  function Rest(a: Rect): Rect {
    if a.w >= a.h then a.(x := a.x + a.w / 2, w := a.w - a.w / 2)
    else a.(y := a.y + a.h / 2, h := a.h - a.h / 2)
  }

  function RestAfter(a: Rect, k: nat): Rect
    decreases k
  {
    if k == 0 then a else RestAfter(Rest(a), k - 1)
  }

  function Dwindle(a: Rect, n: nat): (tiles: seq<Rect>)
    requires n >= 1
    ensures |tiles| == n
    decreases n
  {
    if n == 1 then [a] else [Share(a)] + Dwindle(Rest(a), n - 1)
  }

  function Longer(a: Rect): nat {
    if a.w >= a.h then a.w else a.h
  }

  lemma {:induction false} RestStep(a: Rect, k: nat)
    ensures RestAfter(a, k + 1) == Rest(RestAfter(a, k))
    decreases k
  {
    if k > 0 {
      RestStep(Rest(a), k - 1);
    }
  }

  /** Tile by tile: the k-th takes its share of what the earlier ones left, the last takes it all. */
  lemma {:induction false} DwindleAt(a: Rect, n: nat, k: nat)
    requires k < n
    ensures Dwindle(a, n)[k] == if k == n - 1 then RestAfter(a, k) else Share(RestAfter(a, k))
    decreases n
  {
    if k > 0 {
      DwindleAt(Rest(a), n - 1, k - 1);
    }
  }

  /** Two windows share the area half and half, side by side where it is wide, one above the other where it
      is high. */
  lemma TwoWindows(a: Rect)
    ensures a.w >= a.h ==> Dwindle(a, 2) == [Rect(a.x, a.y, a.w / 2, a.h), Rect(a.x + a.w / 2, a.y, (a.w + 1) / 2, a.h)]
    ensures a.w < a.h ==> Dwindle(a, 2) == [Rect(a.x, a.y, a.w, a.h / 2), Rect(a.x, a.y + a.h / 2, a.w, (a.h + 1) / 2)]
  {
    DwindleTwo(a);
    HalvesOf(a);
  }

  /** Of three on a wide screen the first has the left half, the second the top of the right. */
  lemma ThreeWindows(a: Rect)
    requires a.w >= a.h && (a.w + 1) / 2 < a.h
    ensures Dwindle(a, 3) == [Rect(a.x, a.y, a.w / 2, a.h), Rect(a.x + a.w / 2, a.y, (a.w + 1) / 2, a.h / 2),
                              Rect(a.x + a.w / 2, a.y + a.h / 2, (a.w + 1) / 2, (a.h + 1) / 2)]
  {
    DwindleThree(a);
    hide Dwindle, Share, Rest;
    HalvesOf(a);
    HalvesOf(Rest(a));
  }

  lemma HalvesOf(a: Rect)
    ensures a.w >= a.h ==> Share(a) == Rect(a.x, a.y, a.w / 2, a.h) && Rest(a) == Rect(a.x + a.w / 2, a.y, (a.w + 1) / 2, a.h)
    ensures a.w < a.h ==> Share(a) == Rect(a.x, a.y, a.w, a.h / 2) && Rest(a) == Rect(a.x, a.y + a.h / 2, a.w, (a.h + 1) / 2)
  {
    HalfUp(a.w);
    HalfUp(a.h);
  }

  lemma DwindleThree(a: Rect)
    ensures Dwindle(a, 3) == [Share(a), Share(Rest(a)), Rest(Rest(a))]
  {
    hide Share, Rest;
    DwindleTwo(Rest(a));
    assert Dwindle(a, 3) == [Share(a)] + Dwindle(Rest(a), 2);
  }

  lemma DwindleTwo(a: Rect)
    ensures Dwindle(a, 2) == [Share(a), Rest(a)]
  {
    hide Share, Rest;
    assert Dwindle(a, 2) == [Share(a)] + Dwindle(Rest(a), 1);
  }

  lemma HalfUp(n: nat)
    ensures n - n / 2 == (n + 1) / 2
  {
  }

  // --- Nothing is lost and nothing overlaps ------------------------------------------------------------

  predicate Contains(a: Rect, px: nat, py: nat) {
    a.x <= px < a.x + a.w && a.y <= py < a.y + a.h
  }

  ghost predicate Covered(tiles: seq<Rect>, px: nat, py: nat) {
    exists k :: 0 <= k < |tiles| && Contains(tiles[k], px, py)
  }

  ghost predicate CoveredOnce(tiles: seq<Rect>, px: nat, py: nat) {
    forall j, k | 0 <= j < k < |tiles| :: !(Contains(tiles[j], px, py) && Contains(tiles[k], px, py))
  }

  /** Every point of the area is in exactly one tile together with its gap, and no other point is in
      any. */
  lemma {:induction false} DwindlePartitions(a: Rect, n: nat, px: nat, py: nat)
    requires n >= 1
    ensures Contains(a, px, py) <==> Covered(Dwindle(a, n), px, py)
    ensures CoveredOnce(Dwindle(a, n), px, py)
    decreases n
  {
    if n > 1 {
      DwindlePartitions(Rest(a), n - 1, px, py);
      HalvesPartition(a, px, py);
      OneMore(Share(a), Dwindle(Rest(a), n - 1), px, py);
    } else {
      assert Dwindle(a, n)[0] == a;
    }
  }

  lemma HalvesPartition(a: Rect, px: nat, py: nat)
    ensures Contains(a, px, py) <==> Contains(Share(a), px, py) || Contains(Rest(a), px, py)
    ensures !(Contains(Share(a), px, py) && Contains(Rest(a), px, py))
  {
  }

  lemma OneMore(first: Rect, rest: seq<Rect>, px: nat, py: nat)
    ensures Covered([first] + rest, px, py) <==> Contains(first, px, py) || Covered(rest, px, py)
    ensures CoveredOnce(rest, px, py) && !(Contains(first, px, py) && Covered(rest, px, py)) ==> CoveredOnce([first] + rest, px, py)
  {
    hide Contains;
    var tiles := [first] + rest;
    assert tiles[0] == first;
    if k :| 0 <= k < |rest| && Contains(rest[k], px, py) {
      assert Contains(tiles[k + 1], px, py);
    }
  }

  predicate Within(a: Rect, outer: Rect) {
    outer.x <= a.x && a.x + a.w <= outer.x + outer.w && outer.y <= a.y && a.y + a.h <= outer.y + outer.h
  }

  lemma {:induction false} DwindleWithin(a: Rect, n: nat, k: nat)
    requires k < n
    ensures Within(Dwindle(a, n)[k], a)
    decreases n
  {
    if n > 1 && k > 0 {
      DwindleWithin(Rest(a), n - 1, k - 1);
    }
  }

  /** At least the gap lies between the two, left to right or top to bottom. */
  predicate Apart(a: Rect, b: Rect) {
    || a.x + a.w + TILE_GAP <= b.x || b.x + b.w + TILE_GAP <= a.x
    || a.y + a.h + TILE_GAP <= b.y || b.y + b.h + TILE_GAP <= a.y
  }

  lemma {:induction false} DwindleApart(a: Rect, n: nat, j: nat, k: nat)
    requires j < k < n
    requires Dwindle(a, n)[j].w >= TILE_GAP && Dwindle(a, n)[j].h >= TILE_GAP
    requires Dwindle(a, n)[k].w >= TILE_GAP && Dwindle(a, n)[k].h >= TILE_GAP
    ensures Apart(Tile(Dwindle(a, n)[j]), Tile(Dwindle(a, n)[k]))
    decreases n
  {
    if j > 0 {
      DwindleApart(Rest(a), n - 1, j - 1, k - 1);
    } else {
      DwindleWithin(Rest(a), n - 1, k - 1);
      assert Dwindle(a, n)[k] == Dwindle(Rest(a), n - 1)[k - 1];
    }
  }

  // --- When every window gets something ----------------------------------------------------------------

  lemma {:induction false} LongerShrinks(a: Rect, k: nat)
    ensures Longer(RestAfter(a, k)) <= Longer(a)
    decreases k
  {
    if k > 0 {
      LongerShrinks(Rest(a), k - 1);
    }
  }

  /** The sides before any split but the last are no shorter than those before the last. */
  lemma {:induction false} LongerOrder(a: Rect, j: nat, k: nat)
    requires j <= k
    ensures Longer(RestAfter(a, k)) <= Longer(RestAfter(a, j))
    decreases k
  {
    if j == 0 {
      LongerShrinks(a, k);
    } else {
      LongerOrder(Rest(a), j - 1, k - 1);
    }
  }

  predicate Positive(a: Rect) {
    a.w > TILE_GAP && a.h > TILE_GAP
  }

  lemma {:induction false} PositiveRest(a: Rect, k: nat)
    requires Positive(a) && (k > 0 ==> Longer(RestAfter(a, k - 1)) >= 14)
    ensures Positive(RestAfter(a, k))
    decreases k
  {
    if k > 0 {
      LongerOrder(a, 0, k - 1);
      PositiveRest(Rest(a), k - 1);
    }
  }

  predicate AllPositive(tiles: seq<Rect>) {
    forall k | 0 <= k < |tiles| :: Positive(tiles[k])
  }

  /** The last split decides: every window has a positive size exactly when the longer side it
      divides, gap included, is at least 14. */
  lemma DwindlePositive(a: Rect, n: nat)
    requires n >= 2 && Positive(a)
    ensures AllPositive(Dwindle(a, n)) <==> Longer(RestAfter(a, n - 2)) >= 14
  {
    if Longer(RestAfter(a, n - 2)) >= 14 {
      forall k | 0 <= k < n ensures Positive(Dwindle(a, n)[k]) {
        DwindleAt(a, n, k);
        if k > 0 {
          LongerOrder(a, k - 1, n - 2);
        }
        PositiveRest(a, k);
        if k < n - 1 {
          LongerOrder(a, k, n - 2);
        }
      }
    } else {
      DwindleAt(a, n, n - 2);
      assert !Positive(Dwindle(a, n)[n - 2]);
    }
  }

  function Pow2(n: nat): (r: nat)
    ensures r >= 1
  {
    if n == 0 then 1 else 2 * Pow2(n - 1)
  }

  function Extent(a: Rect): nat {
    a.w * a.h
  }

  /** What remains is at least half. */
  lemma HalfRemains(a: Rect)
    ensures 2 * Extent(Rest(a)) >= Extent(a)
  {
    if a.w >= a.h {
      HalfOf(a.w, a.h);
    } else {
      HalfOf(a.h, a.w);
    }
  }

  lemma HalfOf(m: nat, other: nat)
    ensures 2 * ((m - m / 2) * other) >= m * other
  {
    var up := m - m / 2;
    assert 2 * up == m || 2 * up == m + 1;
    assert 2 * (up * other) == (2 * up) * other;
    if 2 * up == m + 1 {
      assert (m + 1) * other == m * other + other;
    }
  }

  /** A checkable condition on the screen and the number of windows. */
  lemma {:induction false} EnoughRoom(a: Rect, n: nat)
    requires n >= 2 && Extent(a) >= 196 * Pow2(n - 2)
    ensures Longer(RestAfter(a, n - 2)) >= 14
    decreases n
  {
    if n > 2 {
      HalfRemains(a);
      EnoughRoom(Rest(a), n - 1);
    } else {
      SideOf(a);
    }
  }

  lemma SideOf(a: Rect)
    requires Extent(a) >= 196
    ensures Longer(a) >= 14
  {
    var w, h := a.w, a.h;
    Times(w, h);
  }

  lemma Times(w: nat, h: nat)
    ensures w <= 13 && h <= 13 ==> w * h <= 169
  {
  }

  /** Tiling geometry: with room enough, every window has a positive size, lies inside the area, and
      is at least the gap away from every other. */
  lemma TilingGeometry(inset: Rect, n: nat)
    requires n >= 2 && inset.w >= 1 && inset.h >= 1
    requires (inset.w + TILE_GAP) * (inset.h + TILE_GAP) >= 196 * Pow2(n - 2)
    ensures
      var tiles := Dwindle(inset.(w := inset.w + TILE_GAP, h := inset.h + TILE_GAP), n);
      && Longer(RestAfter(inset.(w := inset.w + TILE_GAP, h := inset.h + TILE_GAP), n - 2)) >= 14
      && (forall k | 0 <= k < n :: Positive(tiles[k]) && Within(Tile(tiles[k]), inset))
      && forall j, k | 0 <= j < k < n :: Apart(Tile(tiles[j]), Tile(tiles[k]))
  {
    hide RestAfter, Longer, Dwindle, Pow2, Apart;
    var a := inset.(w := inset.w + TILE_GAP, h := inset.h + TILE_GAP);
    EnoughRoom(a, n);
    DwindlePositive(a, n);
    var tiles := Dwindle(a, n);
    forall k | 0 <= k < n ensures Within(Tile(tiles[k]), inset) {
      assert Positive(tiles[k]);
      DwindleWithin(a, n, k);
    }
    forall j, k | 0 <= j < k < n ensures Apart(Tile(tiles[j]), Tile(tiles[k])) {
      assert Positive(tiles[j]) && Positive(tiles[k]);
      DwindleApart(a, n, j, k);
    }
  }
}
